/** The `reduce` callback of `sliceDataToChunks`, which folds one chunk of
    records into one bar. The accumulator's time is the running minimum;
    open and close are looked up in the chunk with `find`. */
module Fold {
  import opened Candles

  /** Index of the first record of `chunk` with timestamp `t`, which is
      what `chunk.find(el => el.time === t)` returns. */
  function FirstWithTime(chunk: seq<Candle>, t: int): (k: nat)
    requires HasTime(chunk, t)
    ensures k < |chunk| && chunk[k].time == t
    ensures forall j :: 0 <= j < k ==> chunk[j].time != t
  {
    if chunk[0].time == t then 0
    else
      assert forall k :: 0 <= k < |chunk| - 1 ==> chunk[1..][k] == chunk[k + 1];
      1 + FirstWithTime(chunk[1..], t)
  }

  /** The callback: combines the accumulator `prev` with the next record
      `current` of `chunk`. */
  function Step(chunk: seq<Candle>, prev: Candle, current: Candle): Candle
    requires HasTime(chunk, prev.time) && HasTime(chunk, current.time)
  {
    var timeLow := Min(current.time, prev.time);
    var timeHigh := Max(current.time, prev.time);
    var low := MinReal(current.low, prev.low);
    var high := MaxReal(current.high, prev.high);
    var open := chunk[FirstWithTime(chunk, timeLow)].open;
    var close := chunk[FirstWithTime(chunk, timeHigh)].close;
    Candle(timeLow, open, high, low, close,
           prev.baseVolume + current.baseVolume,
           prev.counterVolume + current.counterVolume)
  }

  /** The accumulator once the callback has consumed the first `n` records;
      its time is always one of the chunk's, so every `find` succeeds. */
  function ReducePrefix(chunk: seq<Candle>, n: nat): (acc: Candle)
    requires 1 <= n <= |chunk|
    ensures HasTime(chunk, acc.time)
  {
    if n == 1 then
      assert chunk[0].time == chunk[0].time;
      chunk[0]
    else
      assert chunk[n - 1].time == chunk[n - 1].time;
      Step(chunk, ReducePrefix(chunk, n - 1), chunk[n - 1])
  }

  /** `chunk.reduce(callback)` with no initial value: the first record is the
      initial accumulator, so a one-record chunk comes back unchanged. */
  function Reduce(chunk: seq<Candle>): (bar: Candle)
    requires |chunk| >= 1
    ensures HasTime(chunk, bar.time)
    ensures |chunk| == 1 ==> bar == chunk[0]
  {
    ReducePrefix(chunk, |chunk|)
  }

  /** Unfolds one application of the callback. */
  lemma PrefixStep(chunk: seq<Candle>, n: nat)
    requires 2 <= n <= |chunk|
    ensures HasTime(chunk, chunk[n - 1].time)
    ensures ReducePrefix(chunk, n) == Step(chunk, ReducePrefix(chunk, n - 1), chunk[n - 1])
  {
    assert chunk[n - 1].time == chunk[n - 1].time;
  }

  /** The fields of one application of the callback that do not need a
      lookup in the chunk. */
  lemma PrefixStepFields(chunk: seq<Candle>, n: nat)
    requires 2 <= n <= |chunk|
    ensures ReducePrefix(chunk, n).time == Min(chunk[n - 1].time, ReducePrefix(chunk, n - 1).time)
    ensures ReducePrefix(chunk, n).high == MaxReal(chunk[n - 1].high, ReducePrefix(chunk, n - 1).high)
    ensures ReducePrefix(chunk, n).low == MinReal(chunk[n - 1].low, ReducePrefix(chunk, n - 1).low)
    ensures ReducePrefix(chunk, n).baseVolume
         == ReducePrefix(chunk, n - 1).baseVolume + chunk[n - 1].baseVolume
    ensures ReducePrefix(chunk, n).counterVolume
         == ReducePrefix(chunk, n - 1).counterVolume + chunk[n - 1].counterVolume
  {
    PrefixStep(chunk, n);
  }

  /** After `n` records the accumulator holds their earliest time, attained
      by one of them. */
  lemma PrefixTime(chunk: seq<Candle>, n: nat)
    requires 1 <= n <= |chunk|
    ensures forall j :: 0 <= j < n ==> ReducePrefix(chunk, n).time <= chunk[j].time
    ensures exists j :: 0 <= j < n && ReducePrefix(chunk, n).time == chunk[j].time
  {
    PrefixMinTime(chunk, n);
    var p := chunk[..n];
    assert forall j :: 0 <= j < n ==> p[j] == chunk[j];
    var w :| 0 <= w < n && p[w].time == MinTime(p);
    assert chunk[w].time == ReducePrefix(chunk, n).time;
  }

  /** The accumulator's open is the open of the first record carrying the
      accumulator's time. */
  lemma PrefixOpen(chunk: seq<Candle>, n: nat)
    requires 1 <= n <= |chunk|
    ensures ReducePrefix(chunk, n).open == chunk[FirstWithTime(chunk, ReducePrefix(chunk, n).time)].open
  {
    if n == 1 {
      assert ReducePrefix(chunk, 1) == chunk[0];
      assert FirstWithTime(chunk, chunk[0].time) == 0;
    } else {
      PrefixStep(chunk, n);
    }
  }

  /** After `n` records the accumulator holds their highest high. */
  lemma {:induction false} PrefixHigh(chunk: seq<Candle>, n: nat)
    requires 1 <= n <= |chunk|
    ensures ReducePrefix(chunk, n).high == MaxHigh(chunk[..n])
  {
    assert chunk[..n][..n - 1] == chunk[..n - 1];
    if n == 1 {
      assert ReducePrefix(chunk, 1) == chunk[0];
    } else {
      PrefixHigh(chunk, n - 1);
      PrefixStepFields(chunk, n);
    }
  }

  /** After `n` records the accumulator holds their lowest low. */
  lemma {:induction false} PrefixLow(chunk: seq<Candle>, n: nat)
    requires 1 <= n <= |chunk|
    ensures ReducePrefix(chunk, n).low == MinLow(chunk[..n])
  {
    assert chunk[..n][..n - 1] == chunk[..n - 1];
    if n == 1 {
      assert ReducePrefix(chunk, 1) == chunk[0];
    } else {
      PrefixLow(chunk, n - 1);
      PrefixStepFields(chunk, n);
    }
  }

  /** After `n` records the accumulator holds their volume totals. */
  lemma {:induction false} PrefixVolumes(chunk: seq<Candle>, n: nat)
    requires 1 <= n <= |chunk|
    ensures ReducePrefix(chunk, n).baseVolume == SumBase(chunk[..n])
    ensures ReducePrefix(chunk, n).counterVolume == SumCounter(chunk[..n])
  {
    assert chunk[..n][..n - 1] == chunk[..n - 1];
    if n == 1 {
      assert ReducePrefix(chunk, 1) == chunk[0];
    } else {
      PrefixVolumes(chunk, n - 1);
      PrefixStepFields(chunk, n);
    }
  }

  /** The accumulator's close is always the close of some record. */
  lemma PrefixClose(chunk: seq<Candle>, n: nat)
    requires 1 <= n <= |chunk|
    ensures exists j :: 0 <= j < |chunk| && ReducePrefix(chunk, n).close == chunk[j].close
  {
    if n == 1 {
      assert ReducePrefix(chunk, 1) == chunk[0];
    } else {
      PrefixStep(chunk, n);
      var prev := ReducePrefix(chunk, n - 1);
      var hi := FirstWithTime(chunk, Max(chunk[n - 1].time, prev.time));
      assert ReducePrefix(chunk, n).close == chunk[hi].close;
    }
  }

  /** Aggregation: the bar of a chunk has the chunk's earliest time, opens at
      the first record with that time, and has the chunk's highest high,
      lowest low and total volumes of both legs. */
  lemma ReduceAggregates(chunk: seq<Candle>)
    requires |chunk| >= 1
    ensures forall j :: 0 <= j < |chunk| ==> Reduce(chunk).time <= chunk[j].time
    ensures Reduce(chunk).open == chunk[FirstWithTime(chunk, Reduce(chunk).time)].open
    ensures forall j :: 0 <= j < |chunk| ==> chunk[j].high <= Reduce(chunk).high
    ensures exists j :: 0 <= j < |chunk| && Reduce(chunk).high == chunk[j].high
    ensures forall j :: 0 <= j < |chunk| ==> Reduce(chunk).low <= chunk[j].low
    ensures exists j :: 0 <= j < |chunk| && Reduce(chunk).low == chunk[j].low
    ensures Reduce(chunk).baseVolume == SumBase(chunk)
    ensures Reduce(chunk).counterVolume == SumCounter(chunk)
  {
    PrefixTime(chunk, |chunk|);
    PrefixOpen(chunk, |chunk|);
    ReduceExtremes(chunk);
    ReduceSums(chunk);
  }

  lemma ReduceExtremes(chunk: seq<Candle>)
    requires |chunk| >= 1
    ensures Reduce(chunk).high == MaxHigh(chunk)
    ensures Reduce(chunk).low == MinLow(chunk)
  {
    PrefixHigh(chunk, |chunk|);
    PrefixLow(chunk, |chunk|);
    assert chunk[..|chunk|] == chunk;
  }

  lemma ReduceSums(chunk: seq<Candle>)
    requires |chunk| >= 1
    ensures Reduce(chunk).baseVolume == SumBase(chunk)
    ensures Reduce(chunk).counterVolume == SumCounter(chunk)
  {
    PrefixVolumes(chunk, |chunk|);
    assert chunk[..|chunk|] == chunk;
  }

  /** Timestamp whose record supplies the close: the later of the last
      record's time and the earliest time before it. */
  function CloseTime(chunk: seq<Candle>): int
    requires |chunk| >= 2
  {
    Max(chunk[|chunk| - 1].time, MinTime(chunk[..|chunk| - 1]))
  }

  /** The accumulator's time is the earliest time of the consumed prefix. */
  lemma {:induction false} PrefixMinTime(chunk: seq<Candle>, n: nat)
    requires 1 <= n <= |chunk|
    ensures ReducePrefix(chunk, n).time == MinTime(chunk[..n])
  {
    assert chunk[..n][..n - 1] == chunk[..n - 1];
    if n == 1 {
      assert ReducePrefix(chunk, 1) == chunk[0];
    } else {
      PrefixMinTime(chunk, n - 1);
      PrefixStepFields(chunk, n);
    }
  }

  /** The two lookups of one callback step: the open of the first record
      at the earlier time and the close of the first record at the later. */
  lemma StepLookups(chunk: seq<Candle>, prev: Candle, current: Candle)
    requires HasTime(chunk, prev.time) && HasTime(chunk, current.time)
    ensures HasTime(chunk, Max(current.time, prev.time))
    ensures Step(chunk, prev, current).open
         == chunk[FirstWithTime(chunk, Min(current.time, prev.time))].open
    ensures Step(chunk, prev, current).close
         == chunk[FirstWithTime(chunk, Max(current.time, prev.time))].close
  {
  }

  /** The last step of the fold takes the close at the later of the last
      record's time and the accumulated time before it. */
  lemma ReduceLastStep(chunk: seq<Candle>)
    requires |chunk| >= 2
    ensures HasTime(chunk, Max(chunk[|chunk| - 1].time, ReducePrefix(chunk, |chunk| - 1).time))
    ensures Reduce(chunk).close
         == chunk[FirstWithTime(chunk, Max(chunk[|chunk| - 1].time, ReducePrefix(chunk, |chunk| - 1).time))].close
  {
    var n := |chunk|;
    PrefixStep(chunk, n);
    StepLookups(chunk, ReducePrefix(chunk, n - 1), chunk[n - 1]);
  }

  /** The time compared in the last step is CloseTime. */
  lemma LastStepTime(chunk: seq<Candle>)
    requires |chunk| >= 2
    ensures Max(chunk[|chunk| - 1].time, ReducePrefix(chunk, |chunk| - 1).time) == CloseTime(chunk)
  {
    var n := |chunk| - 1;
    PrefixMinTime(chunk, n);
    CloseTimeFrom(chunk, ReducePrefix(chunk, n).time);
  }

  lemma CloseTimeFrom(chunk: seq<Candle>, m: int)
    requires |chunk| >= 2
    requires m == MinTime(chunk[..|chunk| - 1])
    ensures Max(chunk[|chunk| - 1].time, m) == CloseTime(chunk)
  {
  }

  /** The close of a bar comes from the first record whose time is
      CloseTime: the last step of the fold compares the last record's time
      with the running minimum, not with the running maximum. */
  lemma ReduceClose(chunk: seq<Candle>)
    requires |chunk| >= 2
    ensures HasTime(chunk, CloseTime(chunk))
    ensures Reduce(chunk).close == chunk[FirstWithTime(chunk, CloseTime(chunk))].close
  {
    ReduceLastStep(chunk);
    LastStepTime(chunk);
  }

  /** In a strictly ascending chunk a timestamp is found at its only index. */
  lemma FirstIsUnique(chunk: seq<Candle>, k: nat)
    requires StrictlyAscending(chunk)
    requires k < |chunk|
    ensures HasTime(chunk, chunk[k].time)
    ensures FirstWithTime(chunk, chunk[k].time) == k
  {
    assert chunk[k].time == chunk[k].time;
    var f := FirstWithTime(chunk, chunk[k].time);
    assert !(f < k || k < f);
  }

  lemma AscendingCloseTime(chunk: seq<Candle>)
    requires |chunk| >= 2
    requires StrictlyAscending(chunk)
    ensures CloseTime(chunk) == chunk[|chunk| - 1].time
  {
    var n := |chunk|;
    var m := MinTime(chunk[..n - 1]);
    var i :| 0 <= i < n - 1 && chunk[..n - 1][i].time == m;
    assert m == chunk[i].time;
  }

  /** On a strictly ascending chunk the bar is timed and opened by the first
      record and closed by the last. */
  lemma ReduceAscending(chunk: seq<Candle>)
    requires |chunk| >= 1
    requires StrictlyAscending(chunk)
    ensures Reduce(chunk).time == chunk[0].time
    ensures Reduce(chunk).open == chunk[0].open
    ensures Reduce(chunk).close == chunk[|chunk| - 1].close
  {
    AscendingOpen(chunk);
    if |chunk| >= 2 {
      AscendingClose(chunk);
    }
  }

  lemma AscendingOpen(chunk: seq<Candle>)
    requires |chunk| >= 1
    requires StrictlyAscending(chunk)
    ensures Reduce(chunk).time == chunk[0].time
    ensures Reduce(chunk).open == chunk[0].open
  {
    var n := |chunk|;
    var bar := ReducePrefix(chunk, n);
    PrefixTime(chunk, n);
    var i :| 0 <= i < n && bar.time == chunk[i].time;
    assert bar.time <= chunk[0].time <= chunk[i].time;
    PrefixOpen(chunk, n);
    FirstIsUnique(chunk, 0);
  }

  lemma AscendingClose(chunk: seq<Candle>)
    requires |chunk| >= 2
    requires StrictlyAscending(chunk)
    ensures Reduce(chunk).close == chunk[|chunk| - 1].close
  {
    ReduceClose(chunk);
    AscendingCloseTime(chunk);
    FirstIsUnique(chunk, |chunk| - 1);
  }

  /** A bar built from well-formed records is well formed. */
  lemma ReduceWellFormed(chunk: seq<Candle>)
    requires |chunk| >= 1
    requires forall j :: 0 <= j < |chunk| ==> WellFormed(chunk[j])
    ensures WellFormed(Reduce(chunk))
  {
    var bar := Reduce(chunk);
    ReduceAggregates(chunk);
    PrefixClose(chunk, |chunk|);
    var o := FirstWithTime(chunk, bar.time);
    assert WellFormed(chunk[o]);
    var c :| 0 <= c < |chunk| && bar.close == chunk[c].close;
    assert WellFormed(chunk[c]);
  }

  /** The fold is not order-independent: the same three records reduced in
      two orders give different closes, and in the unsorted order the close
      is not that of the latest record. */
  lemma ReduceDependsOnOrder(x: seq<Candle>, y: seq<Candle>)
    requires x == [Candle(2, 1.0, 1.0, 1.0, 1.0, 0.0, 0.0),
                   Candle(0, 1.0, 2.0, 1.0, 2.0, 0.0, 0.0),
                   Candle(1, 1.0, 3.0, 1.0, 3.0, 0.0, 0.0)]
    requires y == [x[1], x[2], x[0]]
    ensures Reduce(x).close == 3.0
    ensures Reduce(y).close == 1.0
  {
    ReduceClose(x);
    ReduceClose(y);
    assert x[..2] == [x[0], x[1]] && y[..2] == [y[0], y[1]];
    assert MinTime(x[..2]) == 0 && MinTime(y[..2]) == 0;
    assert FirstWithTime(x, 1) == 2 by {
      assert x[2].time == 1;
    }
    assert FirstWithTime(y, 2) == 2 by {
      assert y[2].time == 2;
    }
  }
}
