/**
 * toPairs of part2/utils.ts: a flat array cut into chunks of four, read with
 * a stride-4 index. A read past the end of the array is JavaScript's
 * `undefined`, written here as None.
 */
module Pairs {
  import opened Wrappers

  /** `a[i]`: the element, or undefined past the end. */
  function At<T>(s: seq<T>, i: nat): (r: Option<T>)
    ensures r.Some? <==> i < |s|
    ensures r.Some? ==> r.value == s[i]
  {
    if i < |s| then Some(s[i]) else None
  }

  /** The number of chunks: n divided by four, rounded up. */
  function ChunkCount(n: nat): nat
  {
    (n + 3) / 4
  }

  /** Chunk k: the four elements from 4k on. */
  function Chunk<T>(s: seq<T>, k: nat): seq<Option<T>>
  {
    [At(s, 4 * k), At(s, 4 * k + 1), At(s, 4 * k + 2), At(s, 4 * k + 3)]
  }

  /** The chunks toPairs returns, in order. */
  function Chunks<T>(s: seq<T>): (r: seq<seq<Option<T>>>)
    ensures |r| == ChunkCount(|s|)
  {
    seq(ChunkCount(|s|), k requires 0 <= k => Chunk(s, k))
  }

  /** toPairs: the stride-4 loop pushing one chunk per turn; the array itself is only read. */
  method ToPairs<T>(flattened: array<T>) returns (arr: seq<seq<Option<T>>>)
    ensures arr == Chunks(flattened[..])
  {
    arr := [];
    var index := 0;
    while index < flattened.Length
      invariant index == 4 * |arr| && |arr| <= ChunkCount(flattened.Length)
      invariant forall k :: 0 <= k < |arr| ==> arr[k] == Chunk(flattened[..], k)
      decreases flattened.Length - index
    {
      var pair := [At(flattened[..], index), At(flattened[..], index + 1),
                   At(flattened[..], index + 2), At(flattened[..], index + 3)];
      arr := arr + [pair];
      index := index + 4;
    }
  }

  /** The chunks laid end to end. */
  function Flatten<T>(chunks: seq<seq<Option<T>>>): seq<Option<T>>
  {
    if chunks == [] then [] else chunks[0] + Flatten(chunks[1..])
  }

  /** Chunks of four laid end to end: element i is element i mod 4 of chunk i div 4. */
  lemma {:induction false} FlattenFours<T>(chunks: seq<seq<Option<T>>>)
    requires forall k :: 0 <= k < |chunks| ==> |chunks[k]| == 4
    ensures |Flatten(chunks)| == 4 * |chunks|
    ensures forall i :: 0 <= i < 4 * |chunks| ==> Flatten(chunks)[i] == chunks[i / 4][i % 4]
  {
    if chunks != [] {
      FlattenFours(chunks[1..]);
      var f := Flatten(chunks);
      forall i | 0 <= i < 4 * |chunks|
        ensures f[i] == chunks[i / 4][i % 4]
      {
        if i >= 4 {
          assert f[i] == Flatten(chunks[1..])[i - 4];
          assert (i - 4) / 4 == i / 4 - 1 && (i - 4) % 4 == i % 4;
        }
      }
    }
  }

  /**
   * The chunks hold the whole array in order, padded with undefined up to
   * the next multiple of four.
   */
  lemma ChunksFlatten<T>(s: seq<T>)
    ensures |Flatten(Chunks(s))| == 4 * ChunkCount(|s|) && 4 * ChunkCount(|s|) - |s| < 4
    ensures forall i :: 0 <= i < |Flatten(Chunks(s))| ==> Flatten(Chunks(s))[i] == At(s, i)
  {
    var c := Chunks(s);
    FlattenFours(c);
    forall i | 0 <= i < 4 * |c|
      ensures Flatten(c)[i] == At(s, i)
    {
      assert c[i / 4] == Chunk(s, i / 4);
      assert 4 * (i / 4) + i % 4 == i;
    }
  }

  /** Every element, as read back: the array with no undefined in it. */
  function Defined<T>(s: seq<T>): (r: seq<Option<T>>)
    ensures |r| == |s| && forall i :: 0 <= i < |s| ==> r[i] == Some(s[i])
  {
    seq(|s|, i requires 0 <= i < |s| => Some(s[i]))
  }

  /** With a length that is a multiple of four, the chunks laid end to end are the array. */
  lemma ChunksRoundTrip<T>(s: seq<T>)
    requires |s| % 4 == 0
    ensures Flatten(Chunks(s)) == Defined(s)
  {
    ChunksFlatten(s);
  }

  /** Otherwise the last chunk ends in undefined. */
  lemma LastChunkPadded<T>(s: seq<T>)
    requires |s| % 4 != 0
    ensures Chunks(s)[ChunkCount(|s|) - 1][3] == None
  {
  }
}
