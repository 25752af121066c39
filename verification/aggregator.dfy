/** The bucket aggregator (`sliceDataToChunks`): drops the leading records
    that do not fill a whole bucket, cuts the rest into buckets of
    `timeFrame / 900` consecutive records and folds each bucket into one
    bar. */
module Aggregator {
  import opened Frames
  import opened Candles
  import opened Chunks
  import opened Fold

  /** Drops the leading |trades| mod chunkSize records (`sliceDataToChunks`'s
      `splice`), then folds every chunk of the rest into one bar. */
  function SliceDataToChunks(trades: seq<Candle>, timeFrame: int): (bars: seq<Candle>)
    requires ValidTimeFrame(timeFrame)
    ensures |bars| == |trades| / ChunkSize(timeFrame)
    ensures |trades| < ChunkSize(timeFrame) ==> bars == []
  {
    var chunkSize := ChunkSize(timeFrame);
    var kept := trades[|trades| % chunkSize..];
    var chunks := ToChunks(kept, chunkSize);
    KeptCount(|trades|, chunkSize);
    ToChunksCount(kept, chunkSize);
    DivUnique(|kept| + chunkSize - 1, chunkSize, |trades| / chunkSize, chunkSize - 1);
    seq(|chunks|, q requires 0 <= q < |chunks| => Reduce(chunks[q]))
  }

  lemma KeptCount(n: nat, k: nat)
    requires k >= 1
    ensures n - n % k == (n / k) * k
    ensures n < k ==> n / k == 0
  {
    if n < k {
      DivUnique(n, k, 0, n);
    }
  }

  /** Bucket q of a run of n records lies inside the records kept after
      dropping the first n mod k. */
  lemma ChunkFits(n: nat, k: nat, q: nat)
    requires k >= 1
    requires q < n / k
    ensures q * k + k <= n - n % k
  {
    KeptCount(n, k);
    MulMono(n / k - q, k);
    assert (n / k - q) * k == (n / k) * k - q * k;
  }

  /** Bar q is the fold of chunk q of the kept records. */
  lemma BarIsChunkFold(trades: seq<Candle>, timeFrame: int, q: nat)
    requires ValidTimeFrame(timeFrame)
    requires q < |trades| / ChunkSize(timeFrame)
    ensures q < |ToChunks(trades[|trades| % ChunkSize(timeFrame)..], ChunkSize(timeFrame))|
    ensures SliceDataToChunks(trades, timeFrame)[q]
         == Reduce(ToChunks(trades[|trades| % ChunkSize(timeFrame)..], ChunkSize(timeFrame))[q])
  {
    var k := ChunkSize(timeFrame);
    var n := |trades|;
    var kept := trades[n % k..];
    KeptCount(n, k);
    ToChunksCount(kept, k);
    DivUnique(|kept| + k - 1, k, n / k, k - 1);
  }

  /** Chunk q of the records kept after dropping m is the run of k records
      starting at s = m + q * k. */
  lemma KeptChunk(trades: seq<Candle>, m: nat, k: nat, q: nat, s: nat)
    requires k >= 1 && m <= |trades|
    requires q < |ToChunks(trades[m..], k)|
    requires q * k + k <= |trades| - m
    requires s == m + q * k
    ensures ToChunks(trades[m..], k)[q] == trades[s .. s + k]
  {
    var a := q * k;
    ChunkAt(trades[m..], k, q);
    assert Min(a + k, |trades[m..]|) == a + k;
    DropSlice(trades, m, a, a + k, s, s + k);
  }

  lemma DropSlice(t: seq<Candle>, m: nat, a: nat, b: nat, x: nat, y: nat)
    requires m + b <= |t| && a <= b
    requires x == m + a && y == m + b
    ensures t[m..][a..b] == t[x..y]
  {
  }

  /** Chunk completeness: bar q is the fold of the k records starting at
      |trades| mod k + q * k, where k = timeFrame / 900; the first
      |trades| mod k records feed no bar. */
  lemma SliceDataToChunksBars(trades: seq<Candle>, timeFrame: int, q: nat)
    requires ValidTimeFrame(timeFrame)
    requires q < |trades| / ChunkSize(timeFrame)
    ensures |trades| % ChunkSize(timeFrame) + q * ChunkSize(timeFrame) + ChunkSize(timeFrame) <= |trades|
    ensures SliceDataToChunks(trades, timeFrame)[q]
         == Reduce(trades[|trades| % ChunkSize(timeFrame) + q * ChunkSize(timeFrame)
                       .. |trades| % ChunkSize(timeFrame) + q * ChunkSize(timeFrame) + ChunkSize(timeFrame)])
  {
    BarRun(trades, timeFrame, q, |trades| % ChunkSize(timeFrame) + q * ChunkSize(timeFrame));
  }

  /** Bars of strictly ascending records are strictly ascending. */
  lemma SliceDataToChunksAscending(trades: seq<Candle>, timeFrame: int)
    requires ValidTimeFrame(timeFrame)
    requires StrictlyAscending(trades)
    ensures StrictlyAscending(SliceDataToChunks(trades, timeFrame))
  {
    var bars := SliceDataToChunks(trades, timeFrame);
    forall p, q | 0 <= p < q < |bars| ensures bars[p].time < bars[q].time {
      BarsOrdered(trades, timeFrame, p, q);
    }
  }

  lemma BarsOrdered(trades: seq<Candle>, timeFrame: int, p: nat, q: nat)
    requires ValidTimeFrame(timeFrame)
    requires StrictlyAscending(trades)
    requires p < q < |trades| / ChunkSize(timeFrame)
    ensures SliceDataToChunks(trades, timeFrame)[p].time < SliceDataToChunks(trades, timeFrame)[q].time
  {
    var k := ChunkSize(timeFrame);
    var m := |trades| % k;
    var sp, sq := m + p * k, m + q * k;
    MulStrict(p, q, k);
    BarTime(trades, timeFrame, p, sp);
    BarTime(trades, timeFrame, q, sq);
    assert trades[sp].time < trades[sq].time;
  }

  lemma MulStrict(p: nat, q: nat, k: nat)
    requires p < q && k >= 1
    ensures p * k < q * k
  {
    MulMono(q - p, k);
    assert (q - p) * k == q * k - p * k;
  }

  /** For strictly ascending records, bar q carries the time of record s,
      the first record of its chunk. */
  lemma BarTime(trades: seq<Candle>, timeFrame: int, q: nat, s: nat)
    requires ValidTimeFrame(timeFrame)
    requires StrictlyAscending(trades)
    requires q < |trades| / ChunkSize(timeFrame)
    requires s == |trades| % ChunkSize(timeFrame) + q * ChunkSize(timeFrame)
    ensures s < |trades|
    ensures SliceDataToChunks(trades, timeFrame)[q].time == trades[s].time
  {
    ChunkFits(|trades|, ChunkSize(timeFrame), q);
    RunTime(trades, s, ChunkSize(timeFrame));
    BarTimeFrom(trades, timeFrame, q, s);
  }

  lemma BarTimeFrom(trades: seq<Candle>, timeFrame: int, q: nat, s: nat)
    requires ValidTimeFrame(timeFrame)
    requires q < |trades| / ChunkSize(timeFrame)
    requires s == |trades| % ChunkSize(timeFrame) + q * ChunkSize(timeFrame)
    requires s + ChunkSize(timeFrame) <= |trades|
    requires Reduce(trades[s .. s + ChunkSize(timeFrame)]).time == trades[s].time
    ensures SliceDataToChunks(trades, timeFrame)[q].time == trades[s].time
  {
    BarRun(trades, timeFrame, q, s);
  }

  /** Bar q is the fold of the run of k records starting at s. */
  lemma BarRun(trades: seq<Candle>, timeFrame: int, q: nat, s: nat)
    requires ValidTimeFrame(timeFrame)
    requires q < |trades| / ChunkSize(timeFrame)
    requires s == |trades| % ChunkSize(timeFrame) + q * ChunkSize(timeFrame)
    ensures s + ChunkSize(timeFrame) <= |trades|
    ensures SliceDataToChunks(trades, timeFrame)[q] == Reduce(trades[s .. s + ChunkSize(timeFrame)])
  {
    var k := ChunkSize(timeFrame);
    ChunkFits(|trades|, k, q);
    BarIsChunkFold(trades, timeFrame, q);
    KeptChunk(trades, |trades| % k, k, q, s);
  }

  /** A run of strictly ascending records folds to a bar with the time of
      its first record. */
  lemma RunTime(trades: seq<Candle>, s: nat, k: nat)
    requires StrictlyAscending(trades)
    requires 1 <= k && s + k <= |trades|
    ensures Reduce(trades[s .. s + k]).time == trades[s].time
  {
    SliceStrictlyAscending(trades, s, s + k);
    ReduceAscending(trades[s .. s + k]);
  }
}
