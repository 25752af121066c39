/** The timeframe converter (`convertTimeframeData`): fill the gaps of a
    quarter-hour series, then aggregate it into bars of the requested
    frame. */
module Converter {
  import opened Frames
  import opened Candles
  import opened GapFiller
  import opened Fold
  import opened Aggregator

  function ConvertTimeframeData(trades: seq<Candle>, timeFrame: int): (bars: seq<Candle>)
    requires ValidTimeFrame(timeFrame)
    ensures trades == [] ==> bars == []
  {
    var filledTrades := FillGaps(trades);
    SliceDataToChunks(filledTrades, timeFrame)
  }

  /** Every bar folds a full bucket of the filled series, and fewer than one
      bucket's worth of the filled series is discarded. */
  lemma ConvertCount(trades: seq<Candle>, timeFrame: int)
    requires ValidTimeFrame(timeFrame)
    ensures var n := |trades| + |NullTrades(trades)|;
      var bars := ConvertTimeframeData(trades, timeFrame);
      |bars| * ChunkSize(timeFrame) <= n < (|bars| + 1) * ChunkSize(timeFrame)
  {
    var f := FillGaps(trades);
    assert |f| == |multiset(f)| == |trades| + |NullTrades(trades)|;
    var k := ChunkSize(timeFrame);
    KeptCount(|f|, k);
  }

  /** A strictly time-ordered input gives strictly time-ordered bars. */
  lemma ConvertAscending(trades: seq<Candle>, timeFrame: int)
    requires ValidTimeFrame(timeFrame)
    requires StrictlyAscending(trades)
    ensures StrictlyAscending(ConvertTimeframeData(trades, timeFrame))
  {
    FillGapsStrictlyAscending(trades);
    SliceDataToChunksAscending(FillGaps(trades), timeFrame);
  }

  /** Bars of a series whose element j sits at slot j of the grid. */
  lemma GridBarTime(f: seq<Candle>, timeFrame: int, t0: int, q: nat)
    requires ValidTimeFrame(timeFrame)
    requires StrictlyAscending(f)
    requires forall j :: 0 <= j < |f| ==> f[j].time == t0 + FourthHour * j
    requires q < |f| / ChunkSize(timeFrame)
    ensures q < |SliceDataToChunks(f, timeFrame)|
    ensures SliceDataToChunks(f, timeFrame)[q].time
      == t0 + FourthHour * (|f| % ChunkSize(timeFrame)) + timeFrame * q
  {
    var k := ChunkSize(timeFrame);
    var m := |f| % k;
    var s := m + q * k;
    BarTime(f, timeFrame, q, s);
    SlotArithmetic(m, q, k, timeFrame);
  }

  lemma SlotArithmetic(m: int, q: int, k: int, timeFrame: int)
    requires timeFrame == k * FourthHour
    ensures FourthHour * (m + q * k) == FourthHour * m + timeFrame * q
  {
  }

  /** On an input whose records lie on the quarter-hour grid, bar q opens
      at the slot m + q * k of the grid, where k is the chunk size and m
      the number of leading filled records discarded. */
  lemma ConvertOnGridTime(trades: seq<Candle>, timeFrame: int, q: nat)
    requires ValidTimeFrame(timeFrame)
    requires OnGrid(trades) && |trades| > 0
    requires q < |ConvertTimeframeData(trades, timeFrame)|
    ensures ConvertTimeframeData(trades, timeFrame)[q].time
      == trades[0].time
         + FourthHour * (|FillGaps(trades)| % ChunkSize(timeFrame))
         + timeFrame * q
  {
    var f := FillGaps(trades);
    GridFill(trades);
    GridBarTime(f, timeFrame, trades[0].time, q);
  }

  /** Filling records on the grid gives a strictly ascending series whose
      element j sits at slot j. */
  lemma GridFill(trades: seq<Candle>)
    requires OnGrid(trades) && |trades| > 0
    ensures StrictlyAscending(FillGaps(trades))
    ensures forall j :: 0 <= j < |FillGaps(trades)| ==> FillGaps(trades)[j].time == trades[0].time + FourthHour * j
  {
    OnGridStrictlyAscending(trades);
    FillGapsStrictlyAscending(trades);
    FillGapsEvenlySpaced(trades);
  }

  /** On the grid, consecutive bars are exactly one frame apart. */
  lemma ConvertOnGridSpacing(trades: seq<Candle>, timeFrame: int, q: nat)
    requires ValidTimeFrame(timeFrame)
    requires OnGrid(trades) && |trades| > 0
    requires q + 1 < |ConvertTimeframeData(trades, timeFrame)|
    ensures ConvertTimeframeData(trades, timeFrame)[q + 1].time
      == ConvertTimeframeData(trades, timeFrame)[q].time + timeFrame
  {
    var bars := ConvertTimeframeData(trades, timeFrame);
    var base := trades[0].time + FourthHour * (|FillGaps(trades)| % ChunkSize(timeFrame));
    ConvertOnGridTime(trades, timeFrame, q);
    ConvertOnGridTime(trades, timeFrame, q + 1);
    assert bars[q].time == base + timeFrame * q;
    assert bars[q + 1].time == base + timeFrame * (q + 1);
    assert timeFrame * (q + 1) == timeFrame * q + timeFrame;
  }

  /** Two hourly records an hour apart, at the hour frame: three flat
      quarter-hour records fill the gap, the leading record is discarded,
      and the one bar spans the quarter-hours 900..3600. */
  lemma ConvertExample(a: Candle, b: Candle)
    requires a == Candle(0, 1.0, 1.0, 1.0, 1.0, 10.0, 10.0)
    requires b == Candle(3600, 1.0, 1.2, 1.0, 1.1, 5.0, 6.0)
    ensures ConvertTimeframeData([a, b], Hour) == [Candle(900, 1.0, 1.2, 1.0, 1.1, 5.0, 6.0)]
  {
    var f := ExampleFill(a, b);
    var chunk := f[1..5];
    FiveQuarterHours(f);
    assert chunk == [f[1], f[2], f[3], f[4]];
    ExampleFold(chunk);
  }

  /** Five filled records at the hour frame: the first is discarded and the
      other four make the one bar. */
  lemma FiveQuarterHours(f: seq<Candle>)
    requires |f| == 5
    ensures SliceDataToChunks(f, Hour) == [Reduce(f[1..5])]
  {
    assert ChunkSize(Hour) == 4;
    SliceDataToChunksBars(f, Hour, 0);
  }

  /** The gap filler's output for the example: three flat quarter-hours at
      the first record's close, with zero volume. */
  lemma ExampleFill(a: Candle, b: Candle) returns (f: seq<Candle>)
    requires a == Candle(0, 1.0, 1.0, 1.0, 1.0, 10.0, 10.0)
    requires b == Candle(3600, 1.0, 1.2, 1.0, 1.1, 5.0, 6.0)
    ensures f == FillGaps([a, b])
    ensures |f| == 5 && f[0] == a && f[4] == b
    ensures f[1] == Candle(900, 1.0, 1.0, 1.0, 1.0, 0.0, 0.0)
    ensures f[2] == Candle(1800, 1.0, 1.0, 1.0, 1.0, 0.0, 0.0)
    ensures f[3] == Candle(2700, 1.0, 1.0, 1.0, 1.0, 0.0, 0.0)
  {
    FillPair(a, b);
    var g := ExampleGap(a, b);
    f := FillGaps([a, b]);
    assert f == [a] + g + [b];
  }

  /** Two records in time order fill to the first, its gap, the second. */
  lemma FillPair(a: Candle, b: Candle)
    requires a.time < b.time
    ensures FillGaps([a, b]) == [a] + Gap(a, b) + [b]
  {
    var t := [a, b];
    assert StrictlyAscending(t);
    FillGapsIsInterleave(t);
    assert t[1..] == [b];
  }

  /** The example's gap: three quarter-hours between 0 and 3600. */
  lemma ExampleGap(a: Candle, b: Candle) returns (g: seq<Candle>)
    requires a == Candle(0, 1.0, 1.0, 1.0, 1.0, 10.0, 10.0)
    requires b.time == 3600
    ensures g == Gap(a, b)
    ensures |g| == 3
    ensures g[0] == Candle(900, 1.0, 1.0, 1.0, 1.0, 0.0, 0.0)
    ensures g[1] == Candle(1800, 1.0, 1.0, 1.0, 1.0, 0.0, 0.0)
    ensures g[2] == Candle(2700, 1.0, 1.0, 1.0, 1.0, 0.0, 0.0)
  {
    assert GapCount(b.time - a.time) == 3;
    g := Gap(a, b);
    assert g == Slots(a, 3);
  }

  /** The fold of the example's one bucket. */
  lemma ExampleFold(chunk: seq<Candle>)
    requires chunk == [
      Candle(900, 1.0, 1.0, 1.0, 1.0, 0.0, 0.0),
      Candle(1800, 1.0, 1.0, 1.0, 1.0, 0.0, 0.0),
      Candle(2700, 1.0, 1.0, 1.0, 1.0, 0.0, 0.0),
      Candle(3600, 1.0, 1.2, 1.0, 1.1, 5.0, 6.0)]
    ensures Reduce(chunk) == Candle(900, 1.0, 1.2, 1.0, 1.1, 5.0, 6.0)
  {
    assert StrictlyAscending(chunk);
    ReduceAscending(chunk);
    ReduceAggregates(chunk);
    ZeroSums(chunk[..3]);
    assert chunk[..|chunk| - 1] == chunk[..3];
  }

  /** Records without volume sum to zero volume. */
  lemma {:induction false} ZeroSums(s: seq<Candle>)
    requires forall i :: 0 <= i < |s| ==> s[i].baseVolume == 0.0 && s[i].counterVolume == 0.0
    ensures SumBase(s) == 0.0 && SumCounter(s) == 0.0
  {
    if |s| > 0 {
      ZeroSums(s[..|s| - 1]);
    }
  }
}
