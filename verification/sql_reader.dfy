/** A reader for the SQL text the library generates: it cuts a statement
    into words at spaces, list clauses at commas and assignments at '=',
    and gives back the table names and column lists the text was built
    from.  It is the inverse the text builders are checked against: for
    each builder, reading its output gives back exactly its inputs. */
module SqlReader {
  import opened Text
  import opened Errors

  /** `column=value` in a SET, WHERE or ON clause. */
  datatype Assignment = Assignment(column: string, value: string)

  /** The statements the library generates, as the reader sees them. */
  datatype Statement =
    | Insert(table: string, columns: seq<string>, values: seq<string>)
    | Update(table: string, sets: seq<Assignment>, where: seq<Assignment>)
    | Delete(table: string, where: seq<Assignment>)
    | UpdateJoin(table: string, sets: seq<Assignment>, from: string, fromAlias: string,
                 join: string, joinAlias: string, on: seq<Assignment>)
    | SelectInto(into: string, from: string)
    | Merge(target: string, targetAlias: string, source: string, sourceAlias: string,
            on: seq<Assignment>, sets: seq<Assignment>, columns: seq<string>, values: seq<string>,
            deleteUnmatched: bool)

  /** A piece of text the reader can delimit: no space, comma or '='. */
  predicate Bare(s: string)
  {
    ' ' !in s && ',' !in s && '=' !in s
  }

  /** Non-empty names the reader can delimit. */
  predicate Names(ns: seq<string>)
  {
    forall i :: 0 <= i < |ns| ==> ns[i] != "" && Bare(ns[i])
  }

  /** `Assignment(lhs + n, rhs + n)` for each name n. */
  function Pairs(lhs: string, rhs: string, names: seq<string>): seq<Assignment>
  {
    seq(|names|, i requires 0 <= i < |names| => Assignment(lhs + names[i], rhs + names[i]))
  }

  function ParseAssignment(s: string): Option<Assignment>
  {
    var p := Split(s, '=');
    if |p| == 2 then Some(Assignment(p[0], p[1])) else None
  }

  function ParseAssignments(items: seq<string>): Option<seq<Assignment>>
    decreases |items|
  {
    if items == [] then Some([])
    else
      match (ParseAssignment(items[0]), ParseAssignments(items[1..]))
      case (Some(a), Some(rest)) => Some([a] + rest)
      case _ => None
  }

  /** A comma-separated list of assignments (a SET clause). */
  function ParseSetList(clause: string): Option<seq<Assignment>>
  {
    ParseAssignments(Items(clause))
  }

  /** The items of a conjunction given as words: a lone empty word is the
      empty conjunction, otherwise items alternate with "and". */
  function ParseAndWords(words: seq<string>): Option<seq<string>>
  {
    if words == [""] then Some([]) else ParseAndItems(words)
  }

  function ParseAndItems(words: seq<string>): Option<seq<string>>
    decreases |words|
  {
    if |words| == 1 then Some(words)
    else if |words| >= 3 && words[1] == "and" then
      match ParseAndItems(words[2..])
      case Some(rest) => Some([words[0]] + rest)
      case None => None
    else None
  }

  /** A WHERE or ON clause given as words. */
  function ParseConjunction(words: seq<string>): Option<seq<Assignment>>
  {
    match ParseAndWords(words)
    case Some(items) => ParseAssignments(items)
    case None => None
  }

  /** `(a,b,...)` as the list [a, b, ...]. */
  function ParseList(s: string): Option<seq<string>>
  {
    if |s| >= 2 && s[0] == '(' && s[|s| - 1] == ')' then Some(Items(s[1..|s| - 1])) else None
  }

  /** Reads a statement back. */
  function Parse(s: string): Option<Statement>
  {
    var w := Split(s, ' ');
    if w[0] == "insert" then ParseInsert(w)
    else if w[0] == "update" && |w| > 4 && w[4] == "from" then ParseUpdateJoin(w)
    else if w[0] == "update" then ParseUpdate(w)
    else if w[0] == "delete" then ParseDelete(w)
    else if w[0] == "merge" && |s| > 0 && s[|s| - 1] == ';' then ParseMerge(Split(s[..|s| - 1], ' '))
    else if w[0] == "select" then ParseSelectInto(w)
    else None
  }

  /** select * into N from S where 1=0 */
  function ParseSelectInto(w: seq<string>): Option<Statement>
  {
    if |w| == 8 && w == ["select", "*", "into", w[3], "from", w[5], "where", "1=0"] then Some(SelectInto(w[3], w[5]))
    else None
  }

  /** insert into T (C,...) values (V,...) */
  function ParseInsert(w: seq<string>): Option<Statement>
  {
    if |w| == 6 && w[0] == "insert" && w[1] == "into" && w[4] == "values" then
      match (ParseList(w[3]), ParseList(w[5]))
      case (Some(columns), Some(values)) => Some(Insert(w[2], columns, values))
      case _ => None
    else None
  }

  /** update T set A,... where B and ... */
  function ParseUpdate(w: seq<string>): Option<Statement>
  {
    if |w| >= 6 && w[0] == "update" && w[2] == "set" && w[4] == "where" then
      match (ParseSetList(w[3]), ParseConjunction(w[5..]))
      case (Some(sets), Some(where)) => Some(Update(w[1], sets, where))
      case _ => None
    else None
  }

  /** delete from T where B and ... */
  function ParseDelete(w: seq<string>): Option<Statement>
  {
    if |w| >= 5 && w[0] == "delete" && w[1] == "from" && w[3] == "where" then
      match ParseConjunction(w[4..])
      case Some(where) => Some(Delete(w[2], where))
      case None => None
    else None
  }

  /** update T set A,... from F fa inner join J ja on B and ... */
  function ParseUpdateJoin(w: seq<string>): Option<Statement>
  {
    if |w| >= 13 && w[0] == "update" && w[2] == "set" && w[4] == "from"
       && w[7] == "inner" && w[8] == "join" && w[11] == "on" then
      match (ParseSetList(w[3]), ParseConjunction(w[12..]))
      case (Some(sets), Some(on)) => Some(UpdateJoin(w[1], sets, w[5], w[6], w[9], w[10], on))
      case _ => None
    else None
  }

  /** The fixed phrases of a MERGE, as words. */
  const MatchedWords: seq<string> := ["when", "matched", "then", "update", "set"]
  const NotMatchedByTargetWords: seq<string> := ["when", "not", "matched", "by", "target", "then", "insert"]
  const NotMatchedBySourceWords: seq<string> := ["when", "not", "matched", "by", "source", "then", "delete"]

  /** The words of a MERGE without its final ';':
      merge T ta using S sa on B and ... when matched then update set A,...
      when not matched by target then insert (C,...) values (V,...)
      [when not matched by source then delete] */
  function ParseMerge(w: seq<string>): Option<Statement>
  {
    var deleteUnmatched := |w| >= 1 && w[|w| - 1] == "delete";
    var k := if deleteUnmatched then 23 else 16;
    if |w| >= 8 + k && w[0] == "merge" && w[3] == "using" && w[6] == "on" then
      var t := w[|w| - k..];
      if t[..5] == MatchedWords && t[6..13] == NotMatchedByTargetWords && t[14] == "values"
         && (deleteUnmatched ==> t[16..] == NotMatchedBySourceWords) then
        match (ParseConjunction(w[7..|w| - k]), ParseSetList(t[5]), ParseList(t[13]), ParseList(t[15]))
        case (Some(on), Some(sets), Some(columns), Some(vs)) =>
          Some(Merge(w[1], w[2], w[4], w[5], on, sets, columns, vs, deleteUnmatched))
        case _ => None
      else None
    else None
  }

  // ---- Reading back the clauses the builders produce ----

  /** `lhs + n=rhs + n` reads back as that assignment. */
  lemma AssignmentReadsBack(lhs: string, rhs: string, n: string)
    requires Bare(lhs) && Bare(rhs) && Bare(n)
    ensures ParseAssignment(lhs + n + "=" + rhs + n) == Some(Assignment(lhs + n, rhs + n))
  {
    assert lhs + n + "=" + rhs + n == (lhs + n) + ['='] + (rhs + n);
    SplitAtFirst(lhs + n, '=', rhs + n);
    SplitWithout(rhs + n, '=');
  }

  lemma {:induction false} AssignmentsReadBack(lhs: string, rhs: string, names: seq<string>)
    requires Bare(lhs) && Bare(rhs) && Names(names)
    ensures ParseAssignments(Equalities(lhs, rhs, names)) == Some(Pairs(lhs, rhs, names))
    decreases |names|
  {
    if names != [] {
      var e := Equalities(lhs, rhs, names);
      assert e[1..] == Equalities(lhs, rhs, names[1..]);
      AssignmentsReadBack(lhs, rhs, names[1..]);
      AssignmentReadsBack(lhs, rhs, names[0]);
      assert Pairs(lhs, rhs, names) == [Assignment(lhs + names[0], rhs + names[0])] + Pairs(lhs, rhs, names[1..]);
    }
  }

  /** The assignment strings of a clause contain no space or comma and are
      never empty. */
  lemma EqualitiesBare(lhs: string, rhs: string, names: seq<string>)
    requires Bare(lhs) && Bare(rhs) && Names(names)
    ensures FreeOf(Equalities(lhs, rhs, names), ' ') && FreeOf(Equalities(lhs, rhs, names), ',')
    ensures forall i :: 0 <= i < |names| ==> Equalities(lhs, rhs, names)[i] != "" && Equalities(lhs, rhs, names)[i] != "and"
  {
    var e := Equalities(lhs, rhs, names);
    forall i | 0 <= i < |names|
      ensures ' ' !in e[i] && ',' !in e[i] && e[i] != "" && e[i] != "and"
    {
      assert e[i] == lhs + names[i] + "=" + rhs + names[i];
      assert '=' in e[i];
    }
  }

  /** A comma list of assignments (a SET clause) reads back as the pairs. */
  lemma SetListReadsBack(lhs: string, rhs: string, names: seq<string>)
    requires Bare(lhs) && Bare(rhs) && Names(names)
    ensures ParseSetList(Join(",", Equalities(lhs, rhs, names))) == Some(Pairs(lhs, rhs, names))
    ensures ' ' !in Join(",", Equalities(lhs, rhs, names))
  {
    EqualitiesBare(lhs, rhs, names);
    ItemsJoin(Equalities(lhs, rhs, names));
    AssignmentsReadBack(lhs, rhs, names);
    JoinFreeOf(",", Equalities(lhs, rhs, names), ' ');
  }

  lemma {:induction false} AndItemsReadBack(items: seq<string>)
    requires |items| >= 1
    ensures ParseAndItems(AndWords(items)) == Some(items)
    decreases |items|
  {
    if |items| > 1 {
      AndItemsReadBack(items[1..]);
      var w := AndWords(items);
      assert w[2..] == AndWords(items[1..]);
      assert [items[0]] + items[1..] == items;
    }
  }

  /** A conjunction of assignments (a WHERE or ON clause), as words, reads
      back as the pairs; with no names it is the lone empty word. */
  lemma ConjunctionReadsBack(lhs: string, rhs: string, names: seq<string>)
    requires Bare(lhs) && Bare(rhs) && Names(names)
    ensures ParseConjunction(AndWords(Equalities(lhs, rhs, names))) == Some(Pairs(lhs, rhs, names))
    ensures FreeOf(AndWords(Equalities(lhs, rhs, names)), ' ')
  {
    var e := Equalities(lhs, rhs, names);
    EqualitiesBare(lhs, rhs, names);
    if names != [] {
      AndItemsReadBack(e);
      assert AndWords(e) != [""] by {
        assert AndWords(e)[0] == e[0];
      }
    }
    AssignmentsReadBack(lhs, rhs, names);
    AndWordsBare(e);
  }

  lemma {:induction false} AndWordsBare(items: seq<string>)
    requires FreeOf(items, ' ')
    ensures FreeOf(AndWords(items), ' ')
    decreases |items|
  {
    if |items| > 1 {
      AndWordsBare(items[1..]);
    }
  }

  /** `(p+n,...)` reads back as the prefixed names. */
  lemma ListReadsBack(prefix: string, names: seq<string>)
    requires Bare(prefix) && Names(names)
    ensures ParseList("(" + Join(",", Prefixed(prefix, names)) + ")") == Some(Prefixed(prefix, names))
    ensures ' ' !in "(" + Join(",", Prefixed(prefix, names)) + ")"
  {
    var p := Prefixed(prefix, names);
    var j := Join(",", p);
    var s := "(" + j + ")";
    assert s[1..|s| - 1] == j;
    forall i | 0 <= i < |p|
      ensures ' ' !in p[i] && ',' !in p[i] && p[i] != ""
    {
      assert p[i] == prefix + names[i];
    }
    ItemsJoin(p);
    JoinFreeOf(",", p, ' ');
  }
}
