/** The SQL text SqlConnectionExtensions builds: the empty copy of a table
    that a bulk update or merge loads into, the UPDATE ... JOIN that copies
    the loaded rows over the table, and the MERGE that upserts them. */
module BulkSql {
  import opened Text
  import opened TypeCache
  import opened Errors
  import opened SqlReader
  import opened SqlBuilder

  /** `Guid.ToString("N")`: 32 lower-case hexadecimal digits. */
  predicate GuidDigits(g: string)
  {
    |g| == 32 && forall i :: 0 <= i < |g| ==> g[i] in "0123456789abcdef"
  }

  /** The temporary table's name; `guid` stands for the fresh GUID. */
  function TempTableName(guid: string): (name: string)
    ensures |name| == 6 + |guid| && name[..6] == "#temp_" && name[6..] == guid
  {
    "#temp_" + guid
  }

  /** An empty table shaped like `source`. */
  function SelectIntoSql(name: string, source: string): string
  {
    "select * into " + name + " from " + source + " where 1=0"
  }

  /** update T set c=b.c,... from T a inner join TMP b on a.k=b.k and ... */
  function BulkUpdateSql(d: Descriptor, tableName: string, tempTable: string): string
  {
    var setClause := Join(",", Equalities("", "b.", ContentMembers(d)));
    var onClause := Join(" and ", Equalities("a.", "b.", KeyMembers(d)));
    "update " + tableName + " set " + setClause + " from " + tableName + " a inner join "
      + tempTable + " b on " + onClause
  }

  /** The fixed phrases of the MERGE, as the words they are made of joined
      by single spaces: "when matched then update set", "when not matched
      by target then insert" and "when not matched by source then delete". */
  const WhenMatched := Join(" ", MatchedWords)
  const WhenNotMatchedByTarget := Join(" ", NotMatchedByTargetWords)
  const WhenNotMatchedBySource := Join(" ", NotMatchedBySourceWords)

  /** A list clause: `(` + items + `)`. */
  function Parenthesized(items: string): string
  {
    "(" + items + ")"
  }

  /** merge T dst using TMP src on dst.k=src.k and ...
        when matched then update set c=src.c,...
        when not matched by target then insert (m,...) values (src.m,...)
        [when not matched by source then delete]; */
  function MergeSql(d: Descriptor, tableName: string, tempTable: string, enableDelete: bool): string
  {
    var members := Members(d);
    var onClause := Join(" and ", Equalities("dst.", "src.", KeyMembers(d)));
    var setClause := Join(",", Equalities("", "src.", ContentMembers(d)));
    var columnList := Join(",", members);
    var valueList := Join(",", Prefixed("src.", members));
    MergeBody(tableName, tempTable, onClause, setClause, columnList, valueList, enableDelete) + ";"
  }

  /** The MERGE text before its final ';', over its clauses. */
  function MergeBody(t: string, tmp: string, onClause: string, setClause: string, columnList: string,
                     valueList: string, enableDelete: bool): string
  {
    "merge " + t + " dst"
      + " using " + tmp + " src"
      + " on " + onClause
      + " " + WhenMatched + " " + setClause
      + " " + WhenNotMatchedByTarget + " " + Parenthesized(columnList) + " values " + Parenthesized(valueList)
      + (if enableDelete then " " + WhenNotMatchedBySource else "")
  }

  // ---- What the generated text says ----

  /** The temporary table is named "#temp_" and the GUID, and the statement
      that creates it copies the source table's shape into that name. */
  lemma SelectIntoReadsBack(guid: string, source: string)
    requires GuidDigits(guid) && ' ' !in source
    ensures Parse(SelectIntoSql(TempTableName(guid), source)) == Some(SelectInto(TempTableName(guid), source))
  {
    var name := TempTableName(guid);
    assert ' ' !in name by {
      forall i | 0 <= i < |name|
        ensures name[i] != ' '
      {
        if i >= 6 {
          assert name[i] == guid[i - 6];
        }
      }
    }
    SelectIntoWords(name, source);
  }

  /** The bulk UPDATE joins the table (alias a) to the loaded copy (alias
      b) on every key member, joined by "and" in member order, and sets
      every content member from the copy. */
  lemma BulkUpdateReadsBack(d: Descriptor, tableName: string, tempTable: string)
    requires Names(Members(d)) && ' ' !in tableName && ' ' !in tempTable
    ensures Parse(BulkUpdateSql(d, tableName, tempTable))
         == Some(UpdateJoin(tableName, Pairs("", "b.", ContentMembers(d)), tableName, "a",
                            tempTable, "b", Pairs("a.", "b.", KeyMembers(d))))
  {
    MemberNames(d);
    var s := Join(",", Equalities("", "b.", ContentMembers(d)));
    var e := Equalities("a.", "b.", KeyMembers(d));
    SetListReadsBack("", "b.", ContentMembers(d));
    ConjunctionReadsBack("a.", "b.", KeyMembers(d));
    AndWordsJoin(e);
    UpdateJoinWords(tableName, s, tempTable, AndWords(e));
    UpdateJoinTextRead(BulkUpdateSql(d, tableName, tempTable), tableName, s, tempTable, AndWords(e));
  }

  /** Reading an UPDATE ... JOIN back from its words. */
  lemma UpdateJoinTextRead(text: string, t: string, s: string, tmp: string, aw: seq<string>)
    requires Split(text, ' ') == ["update", t, "set", s, "from", t, "a", "inner", "join", tmp, "b", "on"] + aw
    ensures Parse(text)
         == (match (ParseSetList(s), ParseConjunction(aw))
             case (Some(sets), Some(on)) => Some(UpdateJoin(t, sets, t, "a", tmp, "b", on))
             case _ => None)
  {
    var w := Split(text, ' ');
    assert w[12..] == aw;
  }

  /** The MERGE matches the copy (alias src) to the table (alias dst) on
      every key member, updates every content member of a matched row,
      inserts an unmatched row with every member as a column and its value
      from the copy, and deletes the table's unmatched rows exactly when
      `enableDelete` is set. */
  lemma MergeReadsBack(d: Descriptor, tableName: string, tempTable: string, enableDelete: bool)
    requires Names(Members(d)) && ' ' !in tableName && ' ' !in tempTable
    ensures Parse(MergeSql(d, tableName, tempTable, enableDelete))
         == Some(Merge(tableName, "dst", tempTable, "src", Pairs("dst.", "src.", KeyMembers(d)),
                       Pairs("", "src.", ContentMembers(d)), Members(d), Prefixed("src.", Members(d)),
                       enableDelete))
  {
    var members := Members(d);
    MemberNames(d);
    var e := Equalities("dst.", "src.", KeyMembers(d));
    var s := Join(",", Equalities("", "src.", ContentMembers(d)));
    var c := Join(",", members);
    var v := Join(",", Prefixed("src.", members));
    ConjunctionReadsBack("dst.", "src.", KeyMembers(d));
    SetListReadsBack("", "src.", ContentMembers(d));
    PrefixedEmpty(members);
    ListReadsBack("", members);
    ListReadsBack("src.", members);
    AndWordsJoin(e);
    MergeTextRead(tableName, tempTable, AndWords(e), s, c, v, enableDelete);
  }

  /** Reading a MERGE text back, over its clauses. */
  lemma MergeTextRead(t: string, tmp: string, aw: seq<string>, s: string, c: string, v: string, enableDelete: bool)
    requires ' ' !in t && ' ' !in tmp && |aw| >= 1 && FreeOf(aw, ' ') && ' ' !in s
    requires ' ' !in Parenthesized(c) && ' ' !in Parenthesized(v) && Parenthesized(v) != "delete"
    ensures Parse(MergeBody(t, tmp, Join(" ", aw), s, c, v, enableDelete) + ";")
         == (match (ParseConjunction(aw), ParseSetList(s), ParseList(Parenthesized(c)), ParseList(Parenthesized(v)))
             case (Some(on), Some(sets), Some(columns), Some(vs)) =>
               Some(Merge(t, "dst", tmp, "src", on, sets, columns, vs, enableDelete))
             case _ => None)
  {
    var b := MergeBody(t, tmp, Join(" ", aw), s, c, v, enableDelete);
    var w := ["merge", t, "dst", "using", tmp, "src", "on"] + aw
             + MergeTail(s, Parenthesized(c), Parenthesized(v), enableDelete);
    MergeWords(t, tmp, aw, s, c, v, enableDelete);
    ParseTerminated(b, w);
    MergeWordsRead(t, tmp, aw, s, Parenthesized(c), Parenthesized(v), enableDelete);
  }

  /** A text whose words start with "merge", followed by ';', is read as a
      MERGE of those words. */
  lemma ParseTerminated(b: string, w: seq<string>)
    requires Split(b, ' ') == w && |w| >= 2 && w[0] == "merge"
    ensures Parse(b + ";") == ParseMerge(w)
  {
    TerminatedFirstWord(b, w);
    assert (b + ";")[..|b + ";"| - 1] == b;
  }

  /** Switching on `enableDelete` inserts exactly the clause "when not
      matched by source then delete" (WhenNotMatchedBySourceText) before
      the final ';'; the statement ends with ';' either way. */
  lemma MergeDeleteClause(d: Descriptor, tableName: string, tempTable: string)
    ensures var off := MergeSql(d, tableName, tempTable, false);
            var on := MergeSql(d, tableName, tempTable, true);
      |off| >= 1 && off[|off| - 1] == ';' && on[|on| - 1] == ';'
      && on == off[..|off| - 1] + " " + WhenNotMatchedBySource + ";"
  {
    var j := Join(" and ", Equalities("dst.", "src.", KeyMembers(d)));
    var s := Join(",", Equalities("", "src.", ContentMembers(d)));
    var c := Join(",", Members(d));
    var v := Join(",", Prefixed("src.", Members(d)));
    MergeBodies(tableName, tempTable, j, s, c, v);
  }

  lemma MergeBodies(t: string, tmp: string, j: string, s: string, c: string, v: string)
    ensures MergeBody(t, tmp, j, s, c, v, true) == MergeBody(t, tmp, j, s, c, v, false) + " " + WhenNotMatchedBySource
  {
    var body := "merge " + t + " dst" + " using " + tmp + " src" + " on " + j
      + " " + WhenMatched + " " + s
      + " " + WhenNotMatchedByTarget + " " + Parenthesized(c) + " values " + Parenthesized(v);
    assert MergeBody(t, tmp, j, s, c, v, false) == body + "" == body;
  }

  /** With no key member the MERGE's ON clause is empty. */
  lemma MergeWithoutKeys(d: Descriptor, tableName: string, tempTable: string, enableDelete: bool)
    requires Names(Members(d)) && ' ' !in tableName && ' ' !in tempTable && KeyMembers(d) == []
    ensures var r := Parse(MergeSql(d, tableName, tempTable, enableDelete));
      r.Some? && r.value.Merge? && r.value.on == []
  {
    MergeReadsBack(d, tableName, tempTable, enableDelete);
  }

  // ---- Word-level helpers ----
  // Each lemma below adds one piece to the text of the one before it.

  lemma SelectIntoHead(name: string)
    requires ' ' !in name
    ensures Split("select * into " + name, ' ') == ["select", "*", "into", name]
  {
    assert "select * into " == Join(" ", ["select", "*", "into"]) + " ";
    SplitLead("select * into ", ["select", "*", "into"], name);
    SplitWithout(name, ' ');
  }

  lemma SelectIntoFrom(name: string, source: string)
    requires ' ' !in name && ' ' !in source
    ensures Split("select * into " + name + " from " + source, ' ') == ["select", "*", "into", name, "from", source]
  {
    SelectIntoHead(name);
    assert " from " == " " + Join(" ", ["from"]) + " ";
    SplitInfix("select * into " + name, " from ", ["from"], source);
    SplitWithout(source, ' ');
  }

  lemma SelectIntoWords(name: string, source: string)
    requires ' ' !in name && ' ' !in source
    ensures Split(SelectIntoSql(name, source), ' ') == ["select", "*", "into", name, "from", source, "where", "1=0"]
  {
    SelectIntoFrom(name, source);
    assert " where 1=0" == " " + Join(" ", ["where", "1=0"]);
    SplitTrail("select * into " + name + " from " + source, " where 1=0", ["where", "1=0"]);
  }

  lemma UpdateJoinSet(t: string, s: string)
    requires ' ' !in t && ' ' !in s
    ensures Split("update " + t + " set " + s, ' ') == ["update", t, "set", s]
  {
    assert "update " == Join(" ", ["update"]) + " ";
    SplitLead("update ", ["update"], t);
    SplitWithout(t, ' ');
    assert " set " == " " + Join(" ", ["set"]) + " ";
    SplitInfix("update " + t, " set ", ["set"], s);
    SplitWithout(s, ' ');
  }

  lemma UpdateJoinFrom(t: string, s: string)
    requires ' ' !in t && ' ' !in s
    ensures Split("update " + t + " set " + s + " from " + t, ' ') == ["update", t, "set", s, "from", t]
  {
    UpdateJoinSet(t, s);
    assert " from " == " " + Join(" ", ["from"]) + " ";
    SplitInfix("update " + t + " set " + s, " from ", ["from"], t);
    SplitWithout(t, ' ');
  }

  lemma UpdateJoinJoin(t: string, s: string, tmp: string)
    requires ' ' !in t && ' ' !in s && ' ' !in tmp
    ensures Split("update " + t + " set " + s + " from " + t + " a inner join " + tmp, ' ')
         == ["update", t, "set", s, "from", t, "a", "inner", "join", tmp]
  {
    UpdateJoinFrom(t, s);
    assert " a inner join " == " " + Join(" ", ["a", "inner", "join"]) + " ";
    SplitInfix("update " + t + " set " + s + " from " + t, " a inner join ", ["a", "inner", "join"], tmp);
    SplitWithout(tmp, ' ');
  }

  lemma UpdateJoinWords(t: string, s: string, tmp: string, aw: seq<string>)
    requires ' ' !in t && ' ' !in s && ' ' !in tmp && |aw| >= 1 && FreeOf(aw, ' ')
    ensures Split("update " + t + " set " + s + " from " + t + " a inner join " + tmp + " b on " + Join(" ", aw), ' ')
         == ["update", t, "set", s, "from", t, "a", "inner", "join", tmp, "b", "on"] + aw
  {
    UpdateJoinJoin(t, s, tmp);
    assert " b on " == " " + Join(" ", ["b", "on"]) + " ";
    SplitInfix("update " + t + " set " + s + " from " + t + " a inner join " + tmp, " b on ", ["b", "on"], Join(" ", aw));
    SplitSentence(aw);
  }

  /** The words of a MERGE after its ON clause. */
  function MergeTail(s: string, cl: string, vl: string, enableDelete: bool): seq<string>
  {
    TailWords(MatchedWords, s, NotMatchedByTargetWords, cl, vl, NotMatchedBySourceWords, enableDelete)
  }

  /** The same words for any phrases. */
  function TailWords(mw: seq<string>, s: string, tw: seq<string>, cl: string, vl: string, sw: seq<string>,
                     enableDelete: bool): seq<string>
  {
    mw + [s] + tw + [cl, "values", vl] + (if enableDelete then sw else [])
  }

  lemma MergeDst(t: string)
    requires ' ' !in t
    ensures Split("merge " + t + " dst", ' ') == ["merge", t, "dst"]
  {
    assert "merge " == Join(" ", ["merge"]) + " ";
    SplitLead("merge ", ["merge"], t);
    SplitWithout(t, ' ');
    assert " dst" == " " + Join(" ", ["dst"]);
    SplitTrail("merge " + t, " dst", ["dst"]);
  }

  lemma MergeUsing(t: string, tmp: string)
    requires ' ' !in t && ' ' !in tmp
    ensures Split("merge " + t + " dst" + " using " + tmp + " src", ' ') == ["merge", t, "dst", "using", tmp, "src"]
  {
    MergeDst(t);
    assert " using " == " " + Join(" ", ["using"]) + " ";
    SplitInfix("merge " + t + " dst", " using ", ["using"], tmp);
    SplitWithout(tmp, ' ');
    assert " src" == " " + Join(" ", ["src"]);
    SplitTrail("merge " + t + " dst" + " using " + tmp, " src", ["src"]);
  }

  /** The words of the MERGE up to and including its ON clause. */
  lemma MergeHead(t: string, tmp: string, aw: seq<string>)
    requires ' ' !in t && ' ' !in tmp && |aw| >= 1 && FreeOf(aw, ' ')
    ensures Split("merge " + t + " dst" + " using " + tmp + " src" + " on " + Join(" ", aw), ' ')
         == ["merge", t, "dst", "using", tmp, "src", "on"] + aw
  {
    MergeUsing(t, tmp);
    assert " on " == " " + Join(" ", ["on"]) + " ";
    SplitInfix("merge " + t + " dst" + " using " + tmp + " src", " on ", ["on"], Join(" ", aw));
    SplitSentence(aw);
  }

  /** A phrase between spaces, then one more word. */
  lemma PhraseThenWord(h: string, p: string, ws: seq<string>, x: string)
    requires |ws| >= 1 && FreeOf(ws, ' ') && p == Join(" ", ws) && ' ' !in x
    ensures Split(h + " " + p + " " + x, ' ') == Split(h, ' ') + ws + [x]
  {
    Gap(h + " " + p, x);
    Gap(h, p);
    SplitSentence(ws);
    SplitWithout(x, ' ');
  }

  lemma MergeInsert(h: string, mp: string, mw: seq<string>, s: string, tp: string, tw: seq<string>, cl: string)
    requires |mw| >= 1 && FreeOf(mw, ' ') && mp == Join(" ", mw)
    requires |tw| >= 1 && FreeOf(tw, ' ') && tp == Join(" ", tw)
    requires ' ' !in s && ' ' !in cl
    ensures Split(h + " " + mp + " " + s + " " + tp + " " + cl, ' ') == Split(h, ' ') + mw + [s] + tw + [cl]
  {
    PhraseThenWord(h, mp, mw, s);
    PhraseThenWord(h + " " + mp + " " + s, tp, tw, cl);
  }

  lemma MergeValues(h: string, mp: string, mw: seq<string>, s: string, tp: string, tw: seq<string>, cl: string,
                    vl: string)
    requires |mw| >= 1 && FreeOf(mw, ' ') && mp == Join(" ", mw)
    requires |tw| >= 1 && FreeOf(tw, ' ') && tp == Join(" ", tw)
    requires ' ' !in s && ' ' !in cl && ' ' !in vl
    ensures Split(h + " " + mp + " " + s + " " + tp + " " + cl + " values " + vl, ' ')
         == Split(h, ' ') + mw + [s] + tw + [cl, "values", vl]
  {
    MergeInsert(h, mp, mw, s, tp, tw, cl);
    assert " values " == " " + Join(" ", ["values"]) + " ";
    SplitInfix(h + " " + mp + " " + s + " " + tp + " " + cl, " values ", ["values"], vl);
    SplitWithout(vl, ' ');
  }

  /** The optional delete clause at the end of a text. */
  lemma DeleteClause(a: string, p: string, ws: seq<string>, enableDelete: bool)
    requires |ws| >= 1 && FreeOf(ws, ' ') && p == Join(" ", ws)
    ensures Split(a + (if enableDelete then " " + p else ""), ' ') == Split(a, ' ') + (if enableDelete then ws else [])
  {
    if enableDelete {
      assert a + (" " + p) == a + " " + p;
      Gap(a, p);
      SplitSentence(ws);
    } else {
      assert a + "" == a;
    }
  }

  /** The words of a MERGE's text after its ON clause, for any phrases. */
  lemma MergeTailParts(h: string, mp: string, mw: seq<string>, s: string, tp: string, tw: seq<string>, cl: string,
                       vl: string, sp: string, sw: seq<string>, enableDelete: bool)
    requires |mw| >= 1 && FreeOf(mw, ' ') && mp == Join(" ", mw)
    requires |tw| >= 1 && FreeOf(tw, ' ') && tp == Join(" ", tw)
    requires |sw| >= 1 && FreeOf(sw, ' ') && sp == Join(" ", sw)
    requires ' ' !in s && ' ' !in cl && ' ' !in vl
    ensures Split(h + " " + mp + " " + s + " " + tp + " " + cl + " values " + vl
                  + (if enableDelete then " " + sp else ""), ' ')
         == Split(h, ' ') + TailWords(mw, s, tw, cl, vl, sw, enableDelete)
  {
    MergeValues(h, mp, mw, s, tp, tw, cl, vl);
    DeleteClause(h + " " + mp + " " + s + " " + tp + " " + cl + " values " + vl, sp, sw, enableDelete);
    Regroup(Split(h, ' '), mw, [s], tw, [cl, "values", vl], if enableDelete then sw else []);
  }

  lemma Regroup<T>(a: seq<T>, b: seq<T>, c: seq<T>, d: seq<T>, e: seq<T>, f: seq<T>)
    ensures a + b + c + d + e + f == a + (b + c + d + e + f)
  {
  }

  lemma PhraseWordsBare()
    ensures FreeOf(MatchedWords, ' ') && FreeOf(NotMatchedByTargetWords, ' ') && FreeOf(NotMatchedBySourceWords, ' ')
  {
  }

  /** The words of the MERGE after its ON clause. */
  lemma MergeTailWords(h: string, s: string, cl: string, vl: string, enableDelete: bool)
    requires ' ' !in s && ' ' !in cl && ' ' !in vl
    ensures Split(h + " " + WhenMatched + " " + s + " " + WhenNotMatchedByTarget + " " + cl + " values " + vl
                  + (if enableDelete then " " + WhenNotMatchedBySource else ""), ' ')
         == Split(h, ' ') + MergeTail(s, cl, vl, enableDelete)
  {
    PhraseWordsBare();
    MergeTailParts(h, WhenMatched, MatchedWords, s, WhenNotMatchedByTarget, NotMatchedByTargetWords, cl, vl,
                   WhenNotMatchedBySource, NotMatchedBySourceWords, enableDelete);
  }

  lemma MergeWords(t: string, tmp: string, aw: seq<string>, s: string, c: string, v: string, enableDelete: bool)
    requires ' ' !in t && ' ' !in tmp && |aw| >= 1 && FreeOf(aw, ' ') && ' ' !in s
    requires ' ' !in Parenthesized(c) && ' ' !in Parenthesized(v)
    ensures Split(MergeBody(t, tmp, Join(" ", aw), s, c, v, enableDelete), ' ')
         == ["merge", t, "dst", "using", tmp, "src", "on"] + aw
            + MergeTail(s, Parenthesized(c), Parenthesized(v), enableDelete)
  {
    MergeHead(t, tmp, aw);
    MergeTailWords("merge " + t + " dst" + " using " + tmp + " src" + " on " + Join(" ", aw), s,
                   Parenthesized(c), Parenthesized(v), enableDelete);
  }

  /** The words of the terminated MERGE: the final ';' sticks to the last
      word, and the first word is unchanged. */
  lemma TerminatedFirstWord(b: string, w: seq<string>)
    requires Split(b, ' ') == w && |w| >= 2
    ensures Split(b + ";", ' ')[0] == w[0]
  {
    SplitSnoc(b, ' ', ';');
  }

  /** Where each part sits in the words after the ON clause. */
  lemma MergeTailPlaces(s: string, cl: string, vl: string, enableDelete: bool)
    ensures var tail := MergeTail(s, cl, vl, enableDelete);
      |tail| == (if enableDelete then 23 else 16)
      && tail[..5] == MatchedWords && tail[5] == s && tail[6..13] == NotMatchedByTargetWords
      && tail[13] == cl && tail[14] == "values" && tail[15] == vl
      && (enableDelete ==> tail[16..] == NotMatchedBySourceWords)
  {
  }

  /** Reading the words of a MERGE back. */
  lemma MergeWordsRead(t: string, tmp: string, aw: seq<string>, s: string, cl: string, vl: string, enableDelete: bool)
    requires |aw| >= 1 && vl != "delete"
    ensures var w := ["merge", t, "dst", "using", tmp, "src", "on"] + aw + MergeTail(s, cl, vl, enableDelete);
      ParseMerge(w) == (match (ParseConjunction(aw), ParseSetList(s), ParseList(cl), ParseList(vl))
                        case (Some(on), Some(sets), Some(columns), Some(vs)) =>
                          Some(Merge(t, "dst", tmp, "src", on, sets, columns, vs, enableDelete))
                        case _ => None)
  {
    var tail := MergeTail(s, cl, vl, enableDelete);
    MergeTailPlaces(s, cl, vl, enableDelete);
    if enableDelete {
      assert tail[|tail| - 1] == tail[16..][6];
    }
    ParseMergeParts(["merge", t, "dst", "using", tmp, "src", "on"], aw, tail, enableDelete);
  }

  /** ParseMerge over a head of seven words, the ON clause's words and a
      tail laid out as MergeTail lays it out. */
  lemma ParseMergeParts(head: seq<string>, aw: seq<string>, tail: seq<string>, enableDelete: bool)
    requires |head| == 7 && head[0] == "merge" && head[3] == "using" && head[6] == "on" && |aw| >= 1
    requires |tail| == (if enableDelete then 23 else 16)
    requires tail[..5] == MatchedWords && tail[6..13] == NotMatchedByTargetWords && tail[14] == "values"
    requires enableDelete ==> tail[16..] == NotMatchedBySourceWords
    requires (tail[|tail| - 1] == "delete") == enableDelete
    ensures ParseMerge(head + aw + tail)
         == (match (ParseConjunction(aw), ParseSetList(tail[5]), ParseList(tail[13]), ParseList(tail[15]))
             case (Some(on), Some(sets), Some(columns), Some(vs)) =>
               Some(Merge(head[1], head[2], head[4], head[5], on, sets, columns, vs, enableDelete))
             case _ => None)
  {
    var w := head + aw + tail;
    var k := |tail|;
    assert w[|w| - k..] == tail;
    assert w[7..|w| - k] == aw;
    assert w[|w| - 1] == tail[|tail| - 1];
    assert w[..7] == head;
  }
}
