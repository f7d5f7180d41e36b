/** String helpers shared by the SQL text builders and the SQL reader:
    `Join` models .NET's string.Join, `Split` cuts a string at every
    occurrence of one character, and the lemmas say when one undoes the
    other. */
module Text {

  /** string.Join(sep, parts): the parts in order, `sep` between neighbours. */
  function Join(sep: string, parts: seq<string>): string
  {
    if |parts| == 0 then ""
    else if |parts| == 1 then parts[0]
    else parts[0] + sep + Join(sep, parts[1..])
  }

  /** The pieces of `s` between occurrences of `c`; never an empty list. */
  function Split(s: string, c: char): (r: seq<string>)
    ensures |r| >= 1
    decreases |s|
  {
    if s == [] then [""]
    else
      var rest := Split(s[1..], c);
      if s[0] == c then [""] + rest
      else [[s[0]] + rest[0]] + rest[1..]
  }

  /** True when no part contains `c`. */
  predicate FreeOf(parts: seq<string>, c: char)
  {
    forall i :: 0 <= i < |parts| ==> c !in parts[i]
  }

  /** A string without the separator is a single piece. */
  lemma {:induction false} SplitWithout(s: string, c: char)
    requires c !in s
    ensures Split(s, c) == [s]
    decreases |s|
  {
    if s != [] {
      SplitWithout(s[1..], c);
      assert s[0] != c;
      assert [s[0]] + s[1..] == s;
    }
  }

  /** Splitting stops at the first separator. */
  lemma {:induction false} SplitAtFirst(a: string, c: char, b: string)
    requires c !in a
    ensures Split(a + [c] + b, c) == [a] + Split(b, c)
    decreases |a|
  {
    if a == [] {
      assert a + [c] + b == [c] + b;
      assert ([c] + b)[1..] == b;
    } else {
      assert (a + [c] + b)[1..] == a[1..] + [c] + b;
      SplitAtFirst(a[1..], c, b);
      assert [a[0]] + a[1..] == a;
    }
  }

  /** Split undoes Join when no part contains the separator. */
  lemma {:induction false} SplitJoin(parts: seq<string>, c: char)
    requires |parts| >= 1 && FreeOf(parts, c)
    ensures Split(Join([c], parts), c) == parts
    decreases |parts|
  {
    if |parts| == 1 {
      SplitWithout(parts[0], c);
    } else {
      SplitJoin(parts[1..], c);
      SplitAtFirst(parts[0], c, Join([c], parts[1..]));
      assert [parts[0]] + parts[1..] == parts;
    }
  }

  /** Join undoes Split, and no piece contains the separator. */
  lemma {:induction false} JoinSplit(s: string, c: char)
    ensures Join([c], Split(s, c)) == s
    ensures FreeOf(Split(s, c), c)
    decreases |s|
  {
    if s != [] {
      JoinSplit(s[1..], c);
      var rest := Split(s[1..], c);
      if s[0] == c {
        assert [""] + rest == [""] + rest;
        assert ([""] + rest)[1..] == rest;
        assert s == [c] + s[1..];
      } else {
        var r := [[s[0]] + rest[0]] + rest[1..];
        if |rest| == 1 {
          assert s == [s[0]] + s[1..];
        } else {
          assert r[1..] == rest[1..];
          assert Join([c], rest) == rest[0] + [c] + Join([c], rest[1..]);
          assert s == [s[0]] + s[1..];
        }
      }
    }
  }

  /** Joining two non-empty lists joins their two joins. */
  lemma {:induction false} JoinAppend(sep: string, a: seq<string>, b: seq<string>)
    requires |a| >= 1 && |b| >= 1
    ensures Join(sep, a + b) == Join(sep, a) + sep + Join(sep, b)
    decreases |a|
  {
    if |a| == 1 {
      assert (a + b)[1..] == b;
    } else {
      assert (a + b)[1..] == a[1..] + b;
      JoinAppend(sep, a[1..], b);
    }
  }

  /** The words of `Join(" and ", items)`: the items with "and" between
      them, and a single empty word when there are no items. */
  function AndWords(items: seq<string>): (w: seq<string>)
    ensures |w| >= 1
  {
    if |items| <= 1 then (if items == [] then [""] else items)
    else [items[0], "and"] + AndWords(items[1..])
  }

  /** A conjunction joined by " and " is the space-join of its words. */
  lemma {:induction false} AndWordsJoin(items: seq<string>)
    ensures Join(" and ", items) == Join(" ", AndWords(items))
    decreases |items|
  {
    if |items| > 1 {
      AndWordsJoin(items[1..]);
      var rest := AndWords(items[1..]);
      calc {
        Join(" ", AndWords(items));
        Join(" ", [items[0], "and"] + rest);
        { JoinAppend(" ", [items[0], "and"], rest); }
        items[0] + " " + "and" + " " + Join(" ", rest);
        { assert " " + "and" + " " == " and "; }
        Join(" and ", items);
      }
    }
  }

  /** The comma-separated items of a list clause; the empty clause has none. */
  function Items(s: string): seq<string>
  {
    if s == "" then [] else Split(s, ',')
  }

  /** Items reads back a comma join of non-empty items without commas. */
  lemma ItemsJoin(items: seq<string>)
    requires FreeOf(items, ',')
    requires forall i :: 0 <= i < |items| ==> items[i] != ""
    ensures Items(Join(",", items)) == items
  {
    if |items| >= 1 {
      assert "," == [','];
      SplitJoin(items, ',');
      assert |Join(",", items)| >= |items[0]|;
    }
  }

  /** `prefix + n` for each name n, in order (a LINQ Select such as
      `it => $"@{it}"`). */
  function Prefixed(prefix: string, names: seq<string>): seq<string>
  {
    seq(|names|, i requires 0 <= i < |names| => prefix + names[i])
  }

  /** `lhs + n + "=" + rhs + n` for each name n, in order (a LINQ Select
      such as `it => $"{it}=@{it}"`). */
  function Equalities(lhs: string, rhs: string, names: seq<string>): seq<string>
  {
    seq(|names|, i requires 0 <= i < |names| => lhs + names[i] + "=" + rhs + names[i])
  }

  /** A join contains a character only if a part or the separator does. */
  lemma {:induction false} JoinFreeOf(sep: string, parts: seq<string>, c: char)
    requires FreeOf(parts, c) && c !in sep
    ensures c !in Join(sep, parts)
    decreases |parts|
  {
    if |parts| > 1 {
      JoinFreeOf(sep, parts[1..], c);
    }
  }

  /** Splitting a join followed by the separator yields the joined parts
      first. */
  lemma {:induction false} SplitAfterJoin(ws: seq<string>, c: char, rest: string)
    requires |ws| >= 1 && FreeOf(ws, c)
    ensures Split(Join([c], ws) + [c] + rest, c) == ws + Split(rest, c)
    decreases |ws|
  {
    var tail := Split(rest, c);
    if |ws| == 1 {
      assert Join([c], ws) == ws[0];
      SplitAtFirst(ws[0], c, rest);
      assert [ws[0]] + tail == ws + tail;
    } else {
      var after := Join([c], ws[1..]) + [c] + rest;
      JoinFirst(ws, c, rest);
      SplitAtFirst(ws[0], c, after);
      FreeOfTail(ws, c);
      SplitAfterJoin(ws[1..], c, rest);
      assert Split(after, c) == ws[1..] + tail;
      ConsAppend(ws, tail);
    }
  }

  /** A join of two or more parts, followed by more text, is its first part,
      the separator and the join of the others followed by that text. */
  lemma JoinFirst(ws: seq<string>, c: char, rest: string)
    requires |ws| >= 2
    ensures Join([c], ws) + [c] + rest == ws[0] + [c] + (Join([c], ws[1..]) + [c] + rest)
  {
    var tail := Join([c], ws[1..]);
    assert Join([c], ws) == ws[0] + [c] + tail;
  }

  lemma ConsAppend<T>(ws: seq<T>, tail: seq<T>)
    requires |ws| >= 1
    ensures [ws[0]] + (ws[1..] + tail) == ws + tail
  {
    assert [ws[0]] + ws[1..] == ws;
  }

  lemma FreeOfTail(ws: seq<string>, c: char)
    requires |ws| >= 1 && FreeOf(ws, c)
    ensures c !in ws[0] && FreeOf(ws[1..], c)
  {
    forall i | 0 <= i < |ws| - 1
      ensures c !in ws[1..][i]
    {
      assert ws[1..][i] == ws[i + 1];
    }
  }

  /** A fixed phrase of words at the front of a space-separated text. */
  lemma SplitPhrase(ws: seq<string>, rest: string)
    requires |ws| >= 1 && FreeOf(ws, ' ')
    ensures Split(Join(" ", ws) + " " + rest, ' ') == ws + Split(rest, ' ')
  {
    assert " " == [' '];
    SplitAfterJoin(ws, ' ', rest);
  }

  /** One word at the front of a space-separated text. */
  lemma SplitWord(w: string, rest: string)
    requires ' ' !in w
    ensures Split(w + " " + rest, ' ') == [w] + Split(rest, ' ')
  {
    assert " " == [' '];
    SplitAtFirst(w, ' ', rest);
  }

  /** Splitting distributes over a separator placed between two texts. */
  lemma {:induction false} SplitAppend(a: string, c: char, b: string)
    ensures Split(a + [c] + b, c) == Split(a, c) + Split(b, c)
    decreases |a|
  {
    if a == [] {
      assert a + [c] + b == [c] + b;
      assert ([c] + b)[1..] == b;
    } else {
      assert (a + [c] + b)[1..] == a[1..] + [c] + b;
      SplitAppend(a[1..], c, b);
    }
  }

  /** The words of two texts joined by a space. */
  lemma Gap(a: string, b: string)
    ensures Split(a + " " + b, ' ') == Split(a, ' ') + Split(b, ' ')
  {
    assert " " == [' '];
    SplitAppend(a, ' ', b);
  }

  /** The words of a phrase are the words it was joined from. */
  lemma SplitSentence(ws: seq<string>)
    requires |ws| >= 1 && FreeOf(ws, ' ')
    ensures Split(Join(" ", ws), ' ') == ws
  {
    assert " " == [' '];
    SplitJoin(ws, ' ');
  }

  // A text built as `a + k + b`, where the literal `k` is a phrase of fixed
  // words between spaces, splits into the words of `a`, the phrase's words
  // and the words of `b`.

  lemma SplitLead(k: string, ws: seq<string>, b: string)
    requires |ws| >= 1 && FreeOf(ws, ' ') && k == Join(" ", ws) + " "
    ensures Split(k + b, ' ') == ws + Split(b, ' ')
  {
    SplitPhrase(ws, b);
  }

  lemma SplitInfix(a: string, k: string, ws: seq<string>, b: string)
    requires |ws| >= 1 && FreeOf(ws, ' ') && k == " " + Join(" ", ws) + " "
    ensures Split(a + k + b, ' ') == Split(a, ' ') + ws + Split(b, ' ')
  {
    assert a + k + b == a + " " + (Join(" ", ws) + " " + b);
    Gap(a, Join(" ", ws) + " " + b);
    SplitPhrase(ws, b);
  }

  lemma SplitTrail(a: string, k: string, ws: seq<string>)
    requires |ws| >= 1 && FreeOf(ws, ' ') && k == " " + Join(" ", ws)
    ensures Split(a + k, ' ') == Split(a, ' ') + ws
  {
    assert a + k == a + " " + Join(" ", ws);
    Gap(a, Join(" ", ws));
    SplitSentence(ws);
  }

  /** A character other than the separator appended to a text sticks to
      its last piece. */
  lemma {:induction false} SplitSnoc(s: string, c: char, x: char)
    requires x != c
    ensures var r := Split(s, c);
      Split(s + [x], c) == r[..|r| - 1] + [r[|r| - 1] + [x]]
    decreases |s|
  {
    if s == [] {
      assert s + [x] == [x];
      assert [x][1..] == [];
      assert Split([x], c) == [[x] + ""] + [""][1..];
      assert [x] + "" == "" + [x];
    } else {
      assert (s + [x])[1..] == s[1..] + [x];
      SplitSnoc(s[1..], c, x);
      var rest := Split(s[1..], c);
      var rest' := Split(s[1..] + [x], c);
      if s[0] == c {
        SnocAfterSeparator(rest, rest', x);
      } else {
        SnocInsideWord(s[0], rest, rest', x);
      }
    }
  }

  /** SplitSnoc's step when the text starts with the separator. */
  lemma SnocAfterSeparator(rest: seq<string>, rest': seq<string>, x: char)
    requires |rest| >= 1 && rest' == rest[..|rest| - 1] + [rest[|rest| - 1] + [x]]
    ensures var r := [""] + rest; [""] + rest' == r[..|r| - 1] + [r[|r| - 1] + [x]]
  {
    var r := [""] + rest;
    assert r[..|r| - 1] == [""] + rest[..|rest| - 1];
  }

  /** SplitSnoc's step when the text starts with another character. */
  lemma SnocInsideWord(h: char, rest: seq<string>, rest': seq<string>, x: char)
    requires |rest| >= 1 && rest' == rest[..|rest| - 1] + [rest[|rest| - 1] + [x]]
    ensures var r := [[h] + rest[0]] + rest[1..];
      [[h] + rest'[0]] + rest'[1..] == r[..|r| - 1] + [r[|r| - 1] + [x]]
  {
    var r := [[h] + rest[0]] + rest[1..];
    if |rest| == 1 {
      assert rest' == [rest[0] + [x]];
      assert [h] + (rest[0] + [x]) == [h] + rest[0] + [x];
    } else {
      assert r[..|r| - 1] == [[h] + rest[0]] + rest[1..|rest| - 1];
    }
  }
}
