/** EnumerableExtensions.TakeBy: cutting a sequence into consecutive chunks
    of at most `count` items, through a buffer that is appended to, copied
    out when full and cleared, with a final flush of what is left. */
module EnumerableExtensions {
  import opened Errors

  /** The chunks TakeBy yields for `items`.  With count == 0 the buffer
      never reaches the size that triggers a copy, so everything comes out
      at the final flush as one chunk. */
  function Chunks<T>(items: seq<T>, count: nat): seq<seq<T>>
    decreases |items|
  {
    if items == [] then []
    else if count == 0 || |items| <= count then [items]
    else [items[..count]] + Chunks(items[count..], count)
  }

  /** The chunks laid end to end. */
  function Flatten<T>(chunks: seq<seq<T>>): seq<T>
    decreases |chunks|
  {
    if chunks == [] then [] else chunks[0] + Flatten(chunks[1..])
  }

  /** TakeBy(items, count).  The List<T>(count) buffer rejects a negative
      capacity before the first item is looked at; otherwise the yielded
      chunks are exactly Chunks(items, count).  Each chunk is a copy of the
      buffer (`list.ToArray()`), so clearing the buffer afterwards leaves
      the chunks already handed out as they were. */
  method TakeBy<T>(items: seq<T>, count: int) returns (r: Result<seq<seq<T>>>)
    ensures count < 0 ==> r == Failure(ArgumentOutOfRange("capacity"))
    ensures count >= 0 ==> r == Success(Chunks(items, count))
  {
    if count < 0 {
      return Failure(ArgumentOutOfRange("capacity"));
    }
    var buffer: seq<T> := [];
    var chunks: seq<seq<T>> := [];
    var i := 0;
    ghost var start := 0;  // where the buffered items begin
    while i < |items|
      invariant 0 <= start <= i <= |items|
      invariant buffer == items[start..i]
      invariant count == 0 || |buffer| < count
      invariant chunks + Chunks(items[start..], count) == Chunks(items, count)
    {
      buffer := buffer + [items[i]];
      i := i + 1;
      assert buffer == items[start..i];
      if |buffer| == count {
        FullBuffer(items, start, i, count);
        assert chunks + Chunks(items[start..], count) == (chunks + [buffer]) + Chunks(items[i..], count);
        chunks := chunks + [buffer];
        buffer := [];
        start := i;
      }
    }
    assert items[start..] == buffer;
    LastChunk(buffer, count);
    if |buffer| > 0 {
      chunks := chunks + [buffer];
    } else {
      assert chunks + [] == chunks;
    }
    return Success(chunks);
  }

  /** A full buffer is the first chunk of what is left to cut. */
  lemma FullBuffer<T>(items: seq<T>, start: nat, i: nat, count: nat)
    requires start <= i <= |items| && count >= 1 && i - start == count
    ensures Chunks(items[start..], count) == [items[start..i]] + Chunks(items[i..], count)
  {
    var s := items[start..];
    ChunksStep(s, count);
    assert s[..count] == items[start..i];
    assert s[count..] == items[i..];
  }

  /** What the final flush emits: the remaining items, if any, as one chunk. */
  lemma LastChunk<T>(rest: seq<T>, count: nat)
    requires count == 0 || |rest| < count
    ensures Chunks(rest, count) == if rest == [] then [] else [rest]
  {
  }

  /** Unfolding Chunks once when at least `count` items remain. */
  lemma ChunksStep<T>(s: seq<T>, count: nat)
    requires 1 <= count <= |s|
    ensures Chunks(s, count) == [s[..count]] + Chunks(s[count..], count)
  {
    if |s| == count {
      assert s[..count] == s;
      assert s[count..] == [];
    }
  }

  /** Round trip: concatenating the chunks gives back the input, in order. */
  lemma {:induction false} FlattenChunks<T>(items: seq<T>, count: nat)
    ensures Flatten(Chunks(items, count)) == items
    decreases |items|
  {
    if items != [] && count != 0 && |items| > count {
      FlattenChunks(items[count..], count);
      assert items[..count] + items[count..] == items;
    }
  }

  /** With count >= 1 the chunks are well sized. */
  lemma {:induction false} ChunkSizes<T>(items: seq<T>, count: nat)
    requires count >= 1
    ensures WellSized(Chunks(items, count), count)
    decreases |items|
  {
    if items != [] && |items| > count {
      ChunkSizes(items[count..], count);
      var cs := Chunks(items, count);
      var rest := Chunks(items[count..], count);
      assert cs == [items[..count]] + rest;
      forall i | 0 <= i < |cs|
        ensures 1 <= |cs[i]| <= count && (i < |cs| - 1 ==> |cs[i]| == count)
      {
        if i > 0 {
          assert cs[i] == rest[i - 1];
        }
      }
    }
  }

  /** No chunk is empty, none holds more than `count` items, and every
      chunk but the last holds exactly `count`. */
  predicate WellSized<T>(cs: seq<seq<T>>, count: nat)
  {
    forall i :: 0 <= i < |cs| ==> 1 <= |cs[i]| <= count && (i < |cs| - 1 ==> |cs[i]| == count)
  }

  /** There are ceil(n / count) chunks; in particular an empty input
      yields none and a non-empty input at least one. */
  lemma {:induction false} ChunkCount<T>(items: seq<T>, count: nat)
    requires count >= 1
    ensures |Chunks(items, count)| == (|items| + count - 1) / count
    ensures |Chunks(items, count)| == 0 <==> items == []
    decreases |items|
  {
    var n := |items|;
    if items == [] {
      DivSmall(count - 1, count);
    } else if n <= count {
      DivSmall(n - 1, count);
      DivStep(n - 1, count);
    } else {
      ChunkCount(items[count..], count);
      DivStep(n - 1, count);
    }
  }

  lemma DivSmall(x: int, c: int)
    requires 0 <= x < c
    ensures x / c == 0
  {
  }

  lemma DivStep(x: int, c: int)
    requires x >= 0 && c >= 1
    ensures (x + c) / c == x / c + 1
  {
    var q, r := x / c, x % c;
    assert x == q * c + r && 0 <= r < c;
    assert x + c == (q + 1) * c + r;
    DivUnique(x + c, c, q + 1, r);
  }

  lemma DivUnique(a: int, c: int, q: int, r: int)
    requires c >= 1 && 0 <= r < c && a == q * c + r
    ensures a / c == q
  {
    var q', r' := a / c, a % c;
    assert q' * c + r' == q * c + r;
    assert (q - q') * c == r' - r;
    if q' < q {
      MulAtLeast(q - q', c);
    } else if q' > q {
      MulAtLeast(q' - q, c);
    }
  }

  lemma MulAtLeast(k: int, c: int)
    requires k >= 1 && c >= 1
    ensures k * c >= c
  {
    assert k * c == (k - 1) * c + c;
  }

  /** The cases the library's own tests pin down. */
  lemma TakeByExamples()
    ensures Chunks<int>([], 10) == []
    ensures Chunks([1], 1) == [[1]]
    ensures Chunks([1, 2, 3, 4], 2) == [[1, 2], [3, 4]]
    ensures Chunks([1, 2, 3, 4, 5], 2) == [[1, 2], [3, 4], [5]]
  {
    var four, five := [1, 2, 3, 4], [1, 2, 3, 4, 5];
    assert four[..2] == [1, 2] && four[2..] == [3, 4];
    assert five[..2] == [1, 2] && five[2..] == [3, 4, 5];
    assert five[2..][..2] == [3, 4] && five[2..][2..] == [5];
  }
}
