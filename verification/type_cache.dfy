/** The member metadata of a record type.  In the library it comes from
    reflection (FastMember's TypeAccessor, ordered by Ordinal, with the
    [Key] attribute marking key members); here a record type is described
    by an explicit descriptor: its members in ordinal order, each with its
    name and whether it carries [Key]. */
module TypeCache {

  /** One member of a record type. */
  datatype Member = Member(name: string, isKey: bool)

  /** The members of a record type, in ordinal order. */
  type Descriptor = seq<Member>

  /** What reflection guarantees of a type's members: no two members with
      the same name. */
  predicate WellFormed(d: Descriptor)
  {
    forall i, j :: 0 <= i < j < |d| ==> d[i].name != d[j].name
  }

  /** TypeCache<T>.Members: every member name, in ordinal order. */
  function Members(d: Descriptor): (names: seq<string>)
    ensures |names| == |d|
    ensures forall i :: 0 <= i < |d| ==> names[i] == d[i].name
    decreases |d|
  {
    if d == [] then [] else [d[0].name] + Members(d[1..])
  }

  /** The names of the members whose key flag is `key`, in ordinal order
      (the LINQ Where on the [Key] attribute followed by Select(Name)). */
  function Filter(d: Descriptor, key: bool): seq<string>
    decreases |d|
  {
    if d == [] then []
    else (if d[0].isKey == key then [d[0].name] else []) + Filter(d[1..], key)
  }

  /** TypeCache<T>.KeyMembers: the members that carry [Key]. */
  function KeyMembers(d: Descriptor): seq<string>
  {
    Filter(d, true)
  }

  /** TypeCache<T>.ContentMembers: the members without [Key]. */
  function ContentMembers(d: Descriptor): seq<string>
  {
    Filter(d, false)
  }

  /** `names` lists exactly the members whose key flag is `key`, in ordinal
      order: `positions` are their ordinals, strictly increasing, and every
      member with that flag has its ordinal among them. */
  ghost predicate Picks(d: Descriptor, key: bool, positions: seq<int>, names: seq<string>)
  {
    && PicksSound(d, key, positions, names)
    && Increasing(positions)
    && PicksAll(d, key, positions)
  }

  /** Each listed name is the name of a member with the flag, at its ordinal. */
  ghost predicate PicksSound(d: Descriptor, key: bool, positions: seq<int>, names: seq<string>)
  {
    && |positions| == |names|
    && (forall i :: 0 <= i < |positions| ==>
          0 <= positions[i] < |d| && d[positions[i]].isKey == key && d[positions[i]].name == names[i])
  }

  ghost predicate Increasing(positions: seq<int>)
  {
    forall i, j :: 0 <= i < j < |positions| ==> positions[i] < positions[j]
  }

  /** No member with the flag is missed. */
  ghost predicate PicksAll(d: Descriptor, key: bool, positions: seq<int>)
  {
    forall j :: 0 <= j < |d| && d[j].isKey == key ==> j in positions
  }

  /** The ordinals of the members whose key flag is `key`. */
  ghost function Positions(d: Descriptor, key: bool): seq<int>
    decreases |d|
  {
    if d == [] then []
    else (if d[0].isKey == key then [0] else []) + Shift(Positions(d[1..], key))
  }

  ghost function Shift(p: seq<int>): (r: seq<int>)
    ensures |r| == |p|
    ensures forall i :: 0 <= i < |p| ==> r[i] == p[i] + 1
  {
    seq(|p|, i requires 0 <= i < |p| => p[i] + 1)
  }

  /** The filter picks exactly the members with the flag, in ordinal order
      (so it is a subsequence of Members). */
  lemma {:induction false} FilterPicks(d: Descriptor, key: bool)
    ensures Picks(d, key, Positions(d, key), Filter(d, key))
    decreases |d|
  {
    if d != [] {
      FilterPicks(d[1..], key);
      var head := if d[0].isKey == key then [0] else [];
      var name := if d[0].isKey == key then [d[0].name] else [];
      var p, f := Positions(d[1..], key), Filter(d[1..], key);
      PicksConsSound(d, key, p, f, head, name);
      PicksConsIncreasing(p, head);
      PicksConsAll(d, key, p, head);
      assert Positions(d, key) == head + Shift(p);
      assert Filter(d, key) == name + f;
    }
  }

  lemma PicksConsSound(d: Descriptor, key: bool, p: seq<int>, f: seq<string>, head: seq<int>, name: seq<string>)
    requires d != [] && PicksSound(d[1..], key, p, f)
    requires head == (if d[0].isKey == key then [0] else [])
    requires name == (if d[0].isKey == key then [d[0].name] else [])
    ensures PicksSound(d, key, head + Shift(p), name + f)
  {
    var s, q, n := Shift(p), head + Shift(p), name + f;
    forall i | 0 <= i < |q|
      ensures 0 <= q[i] < |d| && d[q[i]].isKey == key && d[q[i]].name == n[i]
    {
      if i >= |head| {
        var k := i - |head|;
        assert q[i] == s[k] == p[k] + 1;
        assert n[i] == f[k];
        assert d[1..][p[k]] == d[q[i]];
      }
    }
  }

  lemma PicksConsIncreasing(p: seq<int>, head: seq<int>)
    requires Increasing(p)
    requires head == [] || head == [0]
    requires forall i :: 0 <= i < |p| ==> p[i] >= 0
    ensures Increasing(head + Shift(p))
  {
  }

  lemma PicksConsAll(d: Descriptor, key: bool, p: seq<int>, head: seq<int>)
    requires d != [] && PicksAll(d[1..], key, p)
    requires head == (if d[0].isKey == key then [0] else [])
    ensures PicksAll(d, key, head + Shift(p))
  {
    var s := Shift(p);
    forall j | 0 <= j < |d| && d[j].isKey == key
      ensures j in head + s
    {
      if j > 0 {
        assert d[1..][j - 1] == d[j];
        var i :| 0 <= i < |p| && p[i] == j - 1;
        assert (head + s)[|head| + i] == j;
      }
    }
  }

  /** KeyMembers is exactly the [Key] members, in ordinal order. */
  lemma KeyMembersAreKeys(d: Descriptor)
    ensures Picks(d, true, Positions(d, true), KeyMembers(d))
  {
    FilterPicks(d, true);
  }

  /** ContentMembers is exactly the members without [Key], in ordinal order. */
  lemma ContentMembersAreContents(d: Descriptor)
    ensures Picks(d, false, Positions(d, false), ContentMembers(d))
  {
    FilterPicks(d, false);
  }

  /** Keys and contents split the members: together they have as many
      names as Members, and the same names counted with multiplicity. */
  lemma {:induction false} SplitSizes(d: Descriptor)
    ensures |KeyMembers(d)| + |ContentMembers(d)| == |Members(d)|
    ensures multiset(KeyMembers(d)) + multiset(ContentMembers(d)) == multiset(Members(d))
    decreases |d|
  {
    if d != [] {
      SplitSizes(d[1..]);
    }
  }

  /** For a well-formed type every member is in exactly one of KeyMembers
      and ContentMembers, according to its [Key] flag. */
  lemma ExactlyOneSide(d: Descriptor)
    requires WellFormed(d)
    ensures forall i :: 0 <= i < |d| ==>
      (d[i].name in KeyMembers(d) <==> d[i].isKey) && (d[i].name in ContentMembers(d) <==> !d[i].isKey)
  {
    FilterPicks(d, true);
    FilterPicks(d, false);
    forall i | 0 <= i < |d|
      ensures d[i].name in KeyMembers(d) <==> d[i].isKey
      ensures d[i].name in ContentMembers(d) <==> !d[i].isKey
    {
      OnSideIff(d, d[i].isKey, i);
      OnSideIff(d, !d[i].isKey, i);
    }
  }

  lemma OnSideIff(d: Descriptor, key: bool, i: int)
    requires WellFormed(d) && 0 <= i < |d|
    requires Picks(d, key, Positions(d, key), Filter(d, key))
    ensures d[i].name in Filter(d, key) <==> d[i].isKey == key
  {
    var p, f := Positions(d, key), Filter(d, key);
    if d[i].isKey == key {
      assert i in p;
      var k :| 0 <= k < |p| && p[k] == i;
      assert f[k] == d[i].name;
    }
  }
}
