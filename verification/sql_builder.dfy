/** SqlBuilder: the INSERT, UPDATE and DELETE text for a record type and a
    table name.  The member list, in ordinal order and split by the [Key]
    flag, is the same LINQ query TypeCache runs, so it is taken from there. */
module SqlBuilder {
  import opened Text
  import opened TypeCache
  import opened Errors
  import opened SqlReader

  /** insert into T (c1,...,cn) values (@c1,...,@cn) */
  function CreateInsert(d: Descriptor, tableName: string): string
  {
    var columns := Members(d);
    "insert into " + tableName + " (" + Join(",", columns) + ") values ("
      + Join(",", Prefixed("@", columns)) + ")"
  }

  /** update T set c=@c,... where k=@k and ... */
  function CreateUpdate(d: Descriptor, tableName: string): string
  {
    var setClause := Join(",", Equalities("", "@", ContentMembers(d)));
    var whereClause := Join(" and ", Equalities("", "@", KeyMembers(d)));
    "update " + tableName + " set " + setClause + " where " + whereClause
  }

  /** delete from T where k=@k and ... */
  function CreateDelete(d: Descriptor, tableName: string): string
  {
    var whereClause := Join(" and ", Equalities("", "@", KeyMembers(d)));
    "delete from " + tableName + " where " + whereClause
  }

  // ---- What the generated text says ----

  /** The INSERT lists every member, in ordinal order, as its columns, and
      as its values one parameter per column: the i-th value is "@" followed
      by the i-th column. */
  lemma InsertReadsBack(d: Descriptor, tableName: string)
    requires Names(Members(d)) && ' ' !in tableName
    ensures Parse(CreateInsert(d, tableName)) == Some(Insert(tableName, Members(d), Prefixed("@", Members(d))))
  {
    var columns := Members(d);
    MemberNames(d);
    PrefixedEmpty(columns);
    ListReadsBack("", columns);
    ListReadsBack("@", columns);
    var c, v := Join(",", columns), Join(",", Prefixed("@", columns));
    InsertWords(tableName, c, v);
    InsertTextRead(CreateInsert(d, tableName), tableName, "(" + c + ")", "(" + v + ")");
  }

  /** Any text that splits into the six words of an INSERT reads back as
      that INSERT, with its column and value lists. */
  lemma InsertTextRead(text: string, t: string, cl: string, vl: string)
    requires Split(text, ' ') == ["insert", "into", t, cl, "values", vl]
    ensures Parse(text) == match (ParseList(cl), ParseList(vl))
                           case (Some(columns), Some(values)) => Some(Insert(t, columns, values))
                           case _ => None
  {
  }

  lemma InsertWords(t: string, c: string, v: string)
    requires ' ' !in t && ' ' !in "(" + c + ")" && ' ' !in "(" + v + ")"
    ensures Split("insert into " + t + " (" + c + ") values (" + v + ")", ' ')
         == ["insert", "into", t, "(" + c + ")", "values", "(" + v + ")"]
  {
    var cl, vl := "(" + c + ")", "(" + v + ")";
    InsertShape(t, c, v);
    SplitPhrase(["insert", "into"], t + " " + (cl + " " + ("values" + " " + vl)));
    SplitWord(t, cl + " " + ("values" + " " + vl));
    SplitWord(cl, "values" + " " + vl);
    SplitWord("values", vl);
    SplitWithout(vl, ' ');
  }

  /** The UPDATE sets exactly the content members, each from its own
      parameter, and its WHERE clause requires every key member to equal its
      parameter, joined by "and" in ordinal order.  Without key members the
      WHERE clause is empty. */
  lemma UpdateReadsBack(d: Descriptor, tableName: string)
    requires Names(Members(d)) && ' ' !in tableName
    ensures Parse(CreateUpdate(d, tableName))
         == Some(Update(tableName, Pairs("", "@", ContentMembers(d)), Pairs("", "@", KeyMembers(d))))
  {
    MemberNames(d);
    var s := Join(",", Equalities("", "@", ContentMembers(d)));
    var e := Equalities("", "@", KeyMembers(d));
    SetListReadsBack("", "@", ContentMembers(d));
    ConjunctionReadsBack("", "@", KeyMembers(d));
    AndWordsJoin(e);
    var w := ["update", tableName, "set", s, "where"] + AndWords(e);
    UpdateWords(tableName, s, AndWords(e));
    assert w[5..] == AndWords(e);
  }

  lemma UpdateWords(t: string, s: string, aw: seq<string>)
    requires ' ' !in t && ' ' !in s && |aw| >= 1 && FreeOf(aw, ' ')
    ensures Split("update " + t + " set " + s + " where " + Join(" ", aw), ' ')
         == ["update", t, "set", s, "where"] + aw
  {
    var j := Join(" ", aw);
    UpdateShape(t, s, j);
    SplitWord("update", t + " " + ("set" + " " + (s + " " + ("where" + " " + j))));
    SplitWord(t, "set" + " " + (s + " " + ("where" + " " + j)));
    SplitWord("set", s + " " + ("where" + " " + j));
    SplitWord(s, "where" + " " + j);
    SplitWord("where", j);
    assert " " == [' '];
    SplitJoin(aw, ' ');
    Cons5("update", t, "set", s, "where", aw);
  }

  lemma Cons5<T>(a: T, b: T, c: T, d: T, e: T, rest: seq<T>)
    ensures [a] + ([b] + ([c] + ([d] + ([e] + rest)))) == [a, b, c, d, e] + rest
  {
  }

  /** The DELETE's WHERE clause requires every key member to equal its
      parameter, joined by "and" in ordinal order. */
  lemma DeleteReadsBack(d: Descriptor, tableName: string)
    requires Names(Members(d)) && ' ' !in tableName
    ensures Parse(CreateDelete(d, tableName)) == Some(Delete(tableName, Pairs("", "@", KeyMembers(d))))
  {
    MemberNames(d);
    var e := Equalities("", "@", KeyMembers(d));
    ConjunctionReadsBack("", "@", KeyMembers(d));
    AndWordsJoin(e);
    var w := ["delete", "from", tableName, "where"] + AndWords(e);
    DeleteWords(tableName, AndWords(e));
    assert w[4..] == AndWords(e);
  }

  lemma DeleteWords(t: string, aw: seq<string>)
    requires ' ' !in t && |aw| >= 1 && FreeOf(aw, ' ')
    ensures Split("delete from " + t + " where " + Join(" ", aw), ' ')
         == ["delete", "from", t, "where"] + aw
  {
    var j := Join(" ", aw);
    DeleteShape(t, j);
    SplitPhrase(["delete", "from"], t + " " + ("where" + " " + j));
    SplitWord(t, "where" + " " + j);
    SplitWord("where", j);
    assert " " == [' '];
    SplitJoin(aw, ' ');
  }

  /** No content member is named in the DELETE. */
  lemma DeleteNamesNoContent(d: Descriptor, tableName: string)
    requires WellFormed(d) && Names(Members(d)) && ' ' !in tableName
    ensures var r := Parse(CreateDelete(d, tableName));
      r.Some? && r.value.Delete?
      && forall a :: a in r.value.where ==> a.column in KeyMembers(d) && a.column !in ContentMembers(d)
  {
    DeleteReadsBack(d, tableName);
    KeyMembersAreKeys(d);
    ExactlyOneSide(d);
    var keys := KeyMembers(d);
    var p := Positions(d, true);
    forall a | a in Pairs("", "@", keys)
      ensures a.column in keys && a.column !in ContentMembers(d)
    {
      var i :| 0 <= i < |keys| && Pairs("", "@", keys)[i] == a;
      assert a.column == keys[i] == d[p[i]].name;
    }
  }

  /** With no key member the WHERE clause is empty: the UPDATE and the
      DELETE end in "where ". */
  lemma NoKeysEmptyWhere(d: Descriptor, tableName: string)
    requires KeyMembers(d) == []
    ensures var u := CreateUpdate(d, tableName); |u| >= 6 && u[|u| - 6..] == "where "
    ensures var r := CreateDelete(d, tableName); |r| >= 6 && r[|r| - 6..] == "where "
  {
    assert Equalities("", "@", KeyMembers(d)) == [];
  }

  // The library's own test cases: a type with key Id and member Name, and
  // one with keys Id1, Id2 and member Name, both written to table foo.

  /** The first test type. */
  function OneKeyType(): (d: Descriptor)
    ensures WellFormed(d) && Members(d) == ["Id", "Name"] && Names(Members(d))
    ensures KeyMembers(d) == ["Id"] && ContentMembers(d) == ["Name"]
  {
    var d := [Member("Id", true), Member("Name", false)];
    assert Bare("Id") && Bare("Name");
    d
  }

  /** The second test type. */
  function TwoKeyType(): (d: Descriptor)
    ensures WellFormed(d) && Members(d) == ["Id1", "Id2", "Name"] && Names(Members(d))
    ensures KeyMembers(d) == ["Id1", "Id2"] && ContentMembers(d) == ["Name"]
  {
    var d := [Member("Id1", true), Member("Id2", true), Member("Name", false)];
    assert Bare("Id1") && Bare("Id2") && Bare("Name");
    assert "Id1" != "Id2" by { assert "Id1"[2] != "Id2"[2]; }
    d
  }

  /** insert into foo (Id,Name) values (@Id,@Name) */
  lemma InsertExample()
    ensures Parse(CreateInsert(OneKeyType(), "foo")) == Some(Insert("foo", ["Id", "Name"], ["@Id", "@Name"]))
  {
    var d := OneKeyType();
    InsertReadsBack(d, "foo");
    OneKeyParameters();
  }

  lemma OneKeyParameters()
    ensures Prefixed("@", ["Id", "Name"]) == ["@Id", "@Name"]
  {
    var p := Prefixed("@", ["Id", "Name"]);
    assert p[0] == "@" + "Id" == "@Id" && p[1] == "@" + "Name" == "@Name";
  }

  /** update foo set Name=@Name where Id=@Id, and
      update foo set Name=@Name where Id1=@Id1 and Id2=@Id2 */
  lemma UpdateExamples()
    ensures Parse(CreateUpdate(OneKeyType(), "foo"))
         == Some(Update("foo", [Assignment("Name", "@Name")], [Assignment("Id", "@Id")]))
    ensures Parse(CreateUpdate(TwoKeyType(), "foo"))
         == Some(Update("foo", [Assignment("Name", "@Name")], [Assignment("Id1", "@Id1"), Assignment("Id2", "@Id2")]))
  {
    UpdateReadsBack(OneKeyType(), "foo");
    UpdateReadsBack(TwoKeyType(), "foo");
    OneKeyPairs();
    TwoKeyPairs();
  }

  /** delete from foo where Id=@Id, and
      delete from foo where Id1=@Id1 and Id2=@Id2 */
  lemma DeleteExamples()
    ensures Parse(CreateDelete(OneKeyType(), "foo")) == Some(Delete("foo", [Assignment("Id", "@Id")]))
    ensures Parse(CreateDelete(TwoKeyType(), "foo"))
         == Some(Delete("foo", [Assignment("Id1", "@Id1"), Assignment("Id2", "@Id2")]))
  {
    DeleteReadsBack(OneKeyType(), "foo");
    DeleteReadsBack(TwoKeyType(), "foo");
    OneKeyPairs();
    TwoKeyPairs();
  }

  lemma OneKeyPairs()
    ensures Pairs("", "@", ["Id"]) == [Assignment("Id", "@Id")]
    ensures Pairs("", "@", ["Name"]) == [Assignment("Name", "@Name")]
  {
    assert "" + "Id" == "Id" && "@" + "Id" == "@Id";
    assert "" + "Name" == "Name" && "@" + "Name" == "@Name";
  }

  lemma TwoKeyPairs()
    ensures Pairs("", "@", ["Id1", "Id2"]) == [Assignment("Id1", "@Id1"), Assignment("Id2", "@Id2")]
  {
    assert "" + "Id1" == "Id1" && "@" + "Id1" == "@Id1";
    assert "" + "Id2" == "Id2" && "@" + "Id2" == "@Id2";
  }

  // ---- Helpers ----

  lemma PrefixedEmpty(names: seq<string>)
    ensures Prefixed("", names) == names
  {
    forall i | 0 <= i < |names|
      ensures Prefixed("", names)[i] == names[i]
    {
      assert "" + names[i] == names[i];
    }
  }

  // The statements regrouped word by word, so that Split can peel one
  // word at a time.

  lemma InsertShape(t: string, c: string, v: string)
    ensures "insert into " + t + " (" + c + ") values (" + v + ")"
         == Join(" ", ["insert", "into"]) + " " + (t + " " + (("(" + c + ")") + " " + ("values" + " " + ("(" + v + ")"))))
  {
    assert Join(" ", ["insert", "into"]) == "insert into";
    assert " (" == " " + "(";
    assert ") values (" == ")" + " " + "values" + " " + "(";
  }

  lemma UpdateShape(t: string, s: string, w: string)
    ensures "update " + t + " set " + s + " where " + w
         == "update" + " " + (t + " " + ("set" + " " + (s + " " + ("where" + " " + w))))
  {
    assert "update " == "update" + " ";
    assert " set " == " " + "set" + " ";
    assert " where " == " " + "where" + " ";
  }

  lemma DeleteShape(t: string, w: string)
    ensures "delete from " + t + " where " + w
         == Join(" ", ["delete", "from"]) + " " + (t + " " + ("where" + " " + w))
  {
    assert Join(" ", ["delete", "from"]) == "delete from";
    assert " where " == " " + "where" + " ";
  }

  /** The reader can delimit the key and content names when it can
      delimit every member name: both lists are drawn from the members. */
  lemma MemberNames(d: Descriptor)
    requires Names(Members(d))
    ensures Names(KeyMembers(d)) && Names(ContentMembers(d))
  {
    KeyMembersAreKeys(d);
    ContentMembersAreContents(d);
    var p, q := Positions(d, true), Positions(d, false);
    forall i | 0 <= i < |KeyMembers(d)|
      ensures KeyMembers(d)[i] != "" && Bare(KeyMembers(d)[i])
    {
      assert KeyMembers(d)[i] == d[p[i]].name == Members(d)[p[i]];
    }
    forall i | 0 <= i < |ContentMembers(d)|
      ensures ContentMembers(d)[i] != "" && Bare(ContentMembers(d)[i])
    {
      assert ContentMembers(d)[i] == d[q[i]].name == Members(d)[q[i]];
    }
  }
}
