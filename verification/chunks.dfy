/** Cutting a sequence of records into consecutive chunks of a fixed size,
    as the `toChunks` helper of `sliceDataToChunks` does. */
module Chunks {
  import opened Candles

  /** Consecutive slices of `size` records; the last one may be shorter. */
  function ToChunks(arr: seq<Candle>, size: nat): (r: seq<seq<Candle>>)
    requires size >= 1
    ensures forall q :: 0 <= q < |r| ==> 1 <= |r[q]| <= size
    decreases |arr|
  {
    if |arr| == 0 then []
    else
      var e := if size <= |arr| then size else |arr|;
      [arr[..e]] + ToChunks(arr[e..], size)
  }

  /** Joins chunks back into one sequence. */
  function Flatten(chunks: seq<seq<Candle>>): seq<Candle> {
    if |chunks| == 0 then [] else chunks[0] + Flatten(chunks[1..])
  }

  lemma MulMono(d: int, k: int)
    requires d >= 1 && k >= 1
    ensures d * k >= k
  {
    var e := d - 1;
    assert d * k == e * k + k;
    assert e * k >= 0;
  }

  /** Division by `k` is determined by quotient and remainder. */
  lemma DivUnique(x: int, k: int, a: int, r: int)
    requires k >= 1 && 0 <= r < k && x == a * k + r
    ensures x / k == a
  {
    var q := x / k;
    var s := x % k;
    assert x == q * k + s;
    assert (q - a) * k == r - s;
    if q > a {
      MulMono(q - a, k);
    } else if q < a {
      MulMono(a - q, k);
    }
  }

  lemma DivStep(x: int, k: int)
    requires k >= 1 && x >= k
    ensures (x - k) / k + 1 == x / k
  {
    var q := (x - k) / k;
    var r := (x - k) % k;
    assert x - k == q * k + r;
    assert x == (q + 1) * k + r;
    DivUnique(x, k, q + 1, r);
  }

  lemma {:induction false} ToChunksCount(arr: seq<Candle>, size: nat)
    requires size >= 1
    ensures |ToChunks(arr, size)| == (|arr| + size - 1) / size
    decreases |arr|
  {
    if |arr| == 0 {
      DivUnique(size - 1, size, 0, size - 1);
    } else if |arr| <= size {
      assert ToChunks(arr[|arr|..], size) == [];
      DivUnique(|arr| + size - 1, size, 1, |arr| - 1);
    } else {
      ToChunksCount(arr[size..], size);
      DivStep(|arr| + size - 1, size);
    }
  }

  /** The chunks are the slices `toChunks` builds with `Array.from`: there
      are ceil(|arr| / size) of them and chunk i is
      `arr.slice(i * size, i * size + size)`. */
  lemma {:induction false} ToChunksAreSlices(arr: seq<Candle>, size: nat)
    requires size >= 1
    ensures |ToChunks(arr, size)| == (|arr| + size - 1) / size
    ensures forall i :: 0 <= i < |ToChunks(arr, size)| ==>
      i * size < |arr| && ToChunks(arr, size)[i] == arr[i * size .. Min(i * size + size, |arr|)]
    decreases |arr|
  {
    ToChunksCount(arr, size);
    var r := ToChunks(arr, size);
    if |arr| == 0 {
    } else if |arr| <= size {
      assert r == [arr[..|arr|]] + ToChunks(arr[|arr|..], size);
      assert ToChunks(arr[|arr|..], size) == [];
    } else {
      var tail := arr[size..];
      var rest := ToChunks(tail, size);
      assert r == [arr[..size]] + rest;
      ToChunksAreSlices(tail, size);
      forall i | 0 <= i < |r|
        ensures i * size < |arr| && r[i] == arr[i * size .. Min(i * size + size, |arr|)]
      {
        if i == 0 {
          assert i * size == 0;
        } else {
          assert r[i] == rest[i - 1];
          ShiftSlice(arr, size, i);
        }
      }
    }
  }

  /** Slice i - 1 of the records after the first chunk is slice i of all
      records. */
  lemma ShiftSlice(arr: seq<Candle>, size: nat, i: nat)
    requires 1 <= size < |arr| && i >= 1
    requires (i - 1) * size < |arr| - size
    ensures i * size < |arr|
    ensures arr[size..][(i - 1) * size .. Min((i - 1) * size + size, |arr| - size)]
         == arr[i * size .. Min(i * size + size, |arr|)]
  {
    var b := (i - 1) * size;
    assert i * size == b + size;
  }

  /** Chunking is a partition: the chunks joined in order give back the
      input. */
  lemma {:induction false} FlattenToChunks(arr: seq<Candle>, size: nat)
    requires size >= 1
    ensures Flatten(ToChunks(arr, size)) == arr
    decreases |arr|
  {
    if |arr| > 0 {
      var e := if size <= |arr| then size else |arr|;
      var r := ToChunks(arr, size);
      assert r == [arr[..e]] + ToChunks(arr[e..], size);
      assert r[1..] == ToChunks(arr[e..], size);
      FlattenToChunks(arr[e..], size);
      assert arr == arr[..e] + arr[e..];
    }
  }

  /** Chunk i of ToChunks, one index at a time. */
  lemma ChunkAt(arr: seq<Candle>, size: nat, i: nat)
    requires size >= 1
    requires i < |ToChunks(arr, size)|
    ensures i * size < |arr|
    ensures ToChunks(arr, size)[i] == arr[i * size .. Min(i * size + size, |arr|)]
  {
    ToChunksAreSlices(arr, size);
  }
}
