/** The record shared by every stage of the converter: one trade bar with a
    timestamp in seconds, four prices and the volume of each trade leg. */
module Candles {

  datatype Candle = Candle(
    time: int,
    open: real,
    high: real,
    low: real,
    close: real,
    baseVolume: real,
    counterVolume: real)

  /** The usual price envelope of a bar: low <= open, close <= high. */
  predicate WellFormed(c: Candle) {
    c.low <= c.open <= c.high && c.low <= c.close <= c.high
  }

  /** Some bar of the sequence carries timestamp `t`. */
  predicate HasTime(s: seq<Candle>, t: int) {
    exists k :: 0 <= k < |s| && s[k].time == t
  }

  /** Timestamps strictly increase along the sequence (so none repeats). */
  predicate StrictlyAscending(s: seq<Candle>) {
    forall i, j :: 0 <= i < j < |s| ==> s[i].time < s[j].time
  }

  /** Timestamps never decrease along the sequence. */
  predicate Ascending(s: seq<Candle>) {
    forall i, j :: 0 <= i < j < |s| ==> s[i].time <= s[j].time
  }

  /** A slice of a strictly ascending sequence is strictly ascending. */
  lemma SliceStrictlyAscending(s: seq<Candle>, a: nat, b: nat)
    requires StrictlyAscending(s)
    requires a <= b <= |s|
    ensures StrictlyAscending(s[a..b])
  {
    forall i, j | 0 <= i < j < b - a ensures s[a..b][i].time < s[a..b][j].time {
      assert s[a..b][i] == s[a + i] && s[a..b][j] == s[a + j];
    }
  }

  function Min(a: int, b: int): int { if a <= b then a else b }
  function Max(a: int, b: int): int { if a <= b then b else a }
  function MinReal(a: real, b: real): real { if a <= b then a else b }
  function MaxReal(a: real, b: real): real { if a <= b then b else a }

  /** Earliest timestamp of a non-empty sequence, taken from the back as a
      left fold consumes it. */
  function MinTime(s: seq<Candle>): (t: int)
    requires |s| > 0
    ensures HasTime(s, t)
    ensures forall i :: 0 <= i < |s| ==> t <= s[i].time
  {
    if |s| == 1 then s[0].time
    else
      var rest := MinTime(s[..|s| - 1]);
      assert forall k :: 0 <= k < |s| - 1 ==> s[..|s| - 1][k] == s[k];
      Min(s[|s| - 1].time, rest)
  }

  /** Highest high of a non-empty sequence, taken from the back. */
  function MaxHigh(s: seq<Candle>): (h: real)
    requires |s| > 0
    ensures forall i :: 0 <= i < |s| ==> s[i].high <= h
    ensures exists i :: 0 <= i < |s| && s[i].high == h
  {
    if |s| == 1 then s[0].high
    else
      var rest := MaxHigh(s[..|s| - 1]);
      assert forall k :: 0 <= k < |s| - 1 ==> s[..|s| - 1][k] == s[k];
      MaxReal(s[|s| - 1].high, rest)
  }

  /** Lowest low of a non-empty sequence, taken from the back. */
  function MinLow(s: seq<Candle>): (l: real)
    requires |s| > 0
    ensures forall i :: 0 <= i < |s| ==> l <= s[i].low
    ensures exists i :: 0 <= i < |s| && s[i].low == l
  {
    if |s| == 1 then s[0].low
    else
      var rest := MinLow(s[..|s| - 1]);
      assert forall k :: 0 <= k < |s| - 1 ==> s[..|s| - 1][k] == s[k];
      MinReal(s[|s| - 1].low, rest)
  }

  /** Total base-leg volume, summed from the back. */
  function SumBase(s: seq<Candle>): real {
    if |s| == 0 then 0.0 else SumBase(s[..|s| - 1]) + s[|s| - 1].baseVolume
  }

  /** Total counter-leg volume, summed from the back. */
  function SumCounter(s: seq<Candle>): real {
    if |s| == 0 then 0.0 else SumCounter(s[..|s| - 1]) + s[|s| - 1].counterVolume
  }
}
