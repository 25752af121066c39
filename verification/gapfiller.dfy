/** The gap filler (`convertTimeframeData` before its final call): for every
    missing quarter hour between two consecutive records it adds a synthetic
    zero-volume record priced from the earlier one, then sorts originals and
    synthetics together by time. */
module GapFiller {
  import opened Frames
  import opened Candles
  import opened Sorting
  import opened Seqs

  /** Number of synthetic records the inner loop emits for an interval: the
      loop runs for i = 1, 2, ... while i <= interval / 900 - 1. */
  function GapCount(interval: int): (c: nat)
    ensures c > 0 <==> interval >= 2 * FourthHour
    ensures c > 0 ==> FourthHour * (c + 1) <= interval < FourthHour * (c + 2)
  {
    if interval / FourthHour - 1 > 0 then interval / FourthHour - 1 else 0
  }

  /** The loop bound is compared against a real quotient in `convertTimeframeData`;
      slot i is visited exactly when 1 <= i <= GapCount(interval). */
  lemma GapCountIsLoopBound(interval: int, i: int)
    requires 1 <= i
    ensures i <= GapCount(interval) <==> (i as real) <= (interval as real) / (FourthHour as real) - 1.0
  {
    var q := (interval as real) / (FourthHour as real);
    assert q * 900.0 == interval as real;
    if i <= GapCount(interval) {
      assert FourthHour * (i + 1) <= interval;
      assert ((i + 1) * 900) as real <= interval as real;
      assert (i + 1) as real * 900.0 <= q * 900.0;
    } else {
      assert interval < FourthHour * (i + 1);
      assert interval as real < ((i + 1) * 900) as real;
      assert q * 900.0 < (i + 1) as real * 900.0;
    }
  }

  /** The synthetic record for empty slot `i` after `prev`. */
  function Synthetic(prev: Candle, i: int): Candle {
    Candle(prev.time + FourthHour * i, prev.close, prev.open, prev.open, prev.close, 0.0, 0.0)
  }

  /** Synthetic records for slots 1..count after `prev`, in slot order. */
  function Slots(prev: Candle, count: nat): (r: seq<Candle>)
    ensures |r| == count
    ensures forall j :: 0 <= j < count ==> r[j] == Synthetic(prev, j + 1)
  {
    if count == 0 then [] else Slots(prev, count - 1) + [Synthetic(prev, count)]
  }

  /** The records pushed while visiting `trades[index]`; the first record is
      treated as one quarter hour after its (absent) predecessor. */
  function NullsAt(trades: seq<Candle>, index: nat): seq<Candle>
    requires index < |trades|
  {
    var interval := if index != 0 then trades[index].time - trades[index - 1].time else FourthHour;
    var count := GapCount(interval);
    if count == 0 then [] else Slots(trades[index - 1], count)
  }

  /** The synthetic records pushed while visiting the first `n` records. */
  function Nulls(trades: seq<Candle>, n: nat): seq<Candle>
    requires n <= |trades|
  {
    if n == 0 then [] else Nulls(trades, n - 1) + NullsAt(trades, n - 1)
  }

  /** All synthetic records, in the order `convertTimeframeData` pushes them. */
  function NullTrades(trades: seq<Candle>): seq<Candle> {
    Nulls(trades, |trades|)
  }

  /** Originals and synthetics, concatenated and sorted by time. */
  function FillGaps(trades: seq<Candle>): (r: seq<Candle>)
    ensures Ascending(r)
    ensures multiset(r) == multiset(trades) + multiset(NullTrades(trades))
    ensures trades == [] ==> r == []
  {
    SortByTime(trades + NullTrades(trades))
  }

  /** The synthetic records between two consecutive originals. */
  function Gap(prev: Candle, cur: Candle): seq<Candle> {
    Slots(prev, GapCount(cur.time - prev.time))
  }

  /** Reference shape of the filled sequence: each original followed by the
      synthetics of the gap after it. */
  function Interleave(s: seq<Candle>): seq<Candle> {
    if |s| <= 1 then s else [s[0]] + Gap(s[0], s[1]) + Interleave(s[1..])
  }

  // ---------------------------------------------------------------------
  // Synthetic records

  /** A synthetic record is flat in the sense that high == low, carries no
      volume, and keeps the usual envelope low <= open, close <= high exactly
      when the record it copies opened and closed at the same price. */
  lemma SyntheticShape(prev: Candle, i: int)
    ensures Synthetic(prev, i).high == Synthetic(prev, i).low == prev.open
    ensures Synthetic(prev, i).open == Synthetic(prev, i).close == prev.close
    ensures Synthetic(prev, i).baseVolume == 0.0 && Synthetic(prev, i).counterVolume == 0.0
    ensures WellFormed(Synthetic(prev, i)) <==> prev.open == prev.close
  {
  }

  /** Every synthetic of a gap lies strictly between the two originals, and
      the gap's synthetics are in strictly ascending order. */
  lemma GapBetween(prev: Candle, cur: Candle)
    ensures StrictlyAscending(Gap(prev, cur))
    ensures forall j :: 0 <= j < |Gap(prev, cur)| ==>
      prev.time < Gap(prev, cur)[j].time < cur.time
  {
    var g := Gap(prev, cur);
    var c := GapCount(cur.time - prev.time);
    forall j | 0 <= j < |g|
      ensures prev.time < g[j].time < cur.time
    {
      assert g[j].time == prev.time + FourthHour * (j + 1);
      assert FourthHour * (j + 1) <= FourthHour * c;
    }
  }

  // ---------------------------------------------------------------------
  // The push order of `convertTimeframeData` against the reference shape

  lemma {:induction false} NullsCons(t: seq<Candle>, n: nat)
    requires 2 <= n <= |t|
    ensures Nulls(t, n) == Gap(t[0], t[1]) + Nulls(t[1..], n - 1)
  {
    if n == 2 {
      NullsTwo(t);
    } else {
      NullsCons(t, n - 1);
      NullsStep(t, n);
    }
  }

  lemma NullsStep(t: seq<Candle>, n: nat)
    requires 3 <= n <= |t|
    requires Nulls(t, n - 1) == Gap(t[0], t[1]) + Nulls(t[1..], n - 2)
    ensures Nulls(t, n) == Gap(t[0], t[1]) + Nulls(t[1..], n - 1)
  {
    var u := t[1..];
    NullsAtShift(t, n - 1);
    assert Nulls(t, n) == Nulls(t, n - 1) + NullsAt(t, n - 1);
    assert Nulls(u, n - 1) == Nulls(u, n - 2) + NullsAt(u, n - 2);
    AppendAssoc(Gap(t[0], t[1]), Nulls(u, n - 2), NullsAt(u, n - 2));
  }

  lemma NullsTwo(t: seq<Candle>)
    requires 2 <= |t|
    ensures Nulls(t, 2) == Gap(t[0], t[1]) + Nulls(t[1..], 1)
  {
    var u := t[1..];
    assert Nulls(t, 1) == Nulls(t, 0) + NullsAt(t, 0) == [];
    assert Nulls(u, 1) == Nulls(u, 0) + NullsAt(u, 0) == [];
    assert NullsAt(t, 1) == Gap(t[0], t[1]);
  }

  /** Past the first record, dropping it shifts the pushes by one. */
  lemma NullsAtShift(t: seq<Candle>, i: nat)
    requires 2 <= i < |t|
    ensures NullsAt(t, i) == NullsAt(t[1..], i - 1)
  {
    var u := t[1..];
    assert u[i - 1] == t[i] && u[i - 2] == t[i - 1];
  }

  /** The synthetics `convertTimeframeData` pushes are the gap after the first record
      followed by those of the remaining records. */
  lemma NullTradesCons(t: seq<Candle>)
    requires |t| >= 2
    ensures NullTrades(t) == Gap(t[0], t[1]) + NullTrades(t[1..])
  {
    NullsCons(t, |t|);
  }

  /** Interleaving uses exactly the originals and the pushed synthetics. */
  lemma {:induction false} InterleaveMultiset(t: seq<Candle>)
    ensures multiset(Interleave(t)) == multiset(t) + multiset(NullTrades(t))
  {
    if |t| <= 1 {
      if |t| == 1 {
        assert NullTrades(t) == Nulls(t, 0) + NullsAt(t, 0);
      }
    } else {
      var u := t[1..];
      var g := Gap(t[0], t[1]);
      InterleaveMultiset(u);
      NullTradesCons(t);
      InterleaveUnfold(t);
      assert t == [t[0]] + u;
      MultisetRegroup(t[0], g, Interleave(u), u, NullTrades(u));
    }
  }

  lemma MultisetRegroup(x: Candle, g: seq<Candle>, r: seq<Candle>, u: seq<Candle>, n: seq<Candle>)
    requires multiset(r) == multiset(u) + multiset(n)
    ensures multiset([x] + g + r) == multiset([x] + u) + multiset(g + n)
  {
  }

  /** One step of the interleaving. */
  lemma InterleaveUnfold(t: seq<Candle>)
    requires |t| >= 2
    ensures Interleave(t) == [t[0]] + Gap(t[0], t[1]) + Interleave(t[1..])
  {
  }

  lemma ConcatStrictlyAscending(a: seq<Candle>, b: seq<Candle>)
    requires StrictlyAscending(a) && StrictlyAscending(b)
    requires forall i, j :: 0 <= i < |a| && 0 <= j < |b| ==> a[i].time < b[j].time
    ensures StrictlyAscending(a + b)
  {
  }

  /** For strictly ascending originals the interleaving is strictly
      ascending and starts with the first original. */
  lemma {:induction false} InterleaveStrictlyAscending(t: seq<Candle>)
    requires StrictlyAscending(t)
    ensures StrictlyAscending(Interleave(t))
    ensures |t| > 0 ==> |Interleave(t)| > 0 && Interleave(t)[0] == t[0]
  {
    if |t| >= 2 {
      var g := Gap(t[0], t[1]);
      var rest := Interleave(t[1..]);
      InterleaveStrictlyAscending(t[1..]);
      GapBetween(t[0], t[1]);
      assert rest[0] == t[1];
      forall j | 0 <= j < |rest| ensures t[1].time <= rest[j].time {
        if j > 0 {
          assert rest[0].time < rest[j].time;
        }
      }
      ConcatStrictlyAscending([t[0]], g);
      ConcatStrictlyAscending([t[0]] + g, rest);
    }
  }

  /** Gap filling strictly ascending records yields the interleaving: the
      sort only merges the synthetics into their gaps. */
  lemma FillGapsIsInterleave(t: seq<Candle>)
    requires StrictlyAscending(t)
    ensures FillGaps(t) == Interleave(t)
  {
    InterleaveMultiset(t);
    InterleaveStrictlyAscending(t);
    AscendingArrangementUnique(FillGaps(t), Interleave(t));
  }

  // ---------------------------------------------------------------------
  // Properties of the filled sequence

  /** `f` holds `prev` at position `p`, then the gap after it (the
      synthetics for slots 1..GapCount(cur.time - prev.time) in slot
      order), then `cur`. */
  predicate GapAt(f: seq<Candle>, prev: Candle, cur: Candle, p: int) {
    var g := Gap(prev, cur);
    && 0 <= p && p + |g| + 1 < |f|
    && f[p] == prev && f[p + |g| + 1] == cur
    && f[p + 1 .. p + |g| + 1] == g
  }

  /** Reading a gap element by element: position p + j holds the synthetic
      for slot j. */
  lemma GapAtSlots(f: seq<Candle>, prev: Candle, cur: Candle, p: int)
    requires GapAt(f, prev, cur, p)
    ensures forall j :: p < j <= p + GapCount(cur.time - prev.time) ==> f[j] == Synthetic(prev, j - p)
  {
    var g := Gap(prev, cur);
    forall j | p < j <= p + |g| ensures f[j] == Synthetic(prev, j - p) {
      assert f[p + 1 .. p + |g| + 1][j - p - 1] == g[j - p - 1];
    }
  }

  lemma InterleaveHead(t: seq<Candle>)
    requires |t| > 0
    ensures |Interleave(t)| > 0 && Interleave(t)[0] == t[0]
  {
    if |t| > 1 {
      assert Interleave(t) == [t[0]] + Gap(t[0], t[1]) + Interleave(t[1..]);
    }
  }

  lemma {:induction false} InterleaveGapAt(t: seq<Candle>, k: nat) returns (p: nat)
    requires 0 < k < |t|
    ensures GapAt(Interleave(t), t[k - 1], t[k], p)
  {
    if k == 1 {
      p := 0;
      InterleaveGapAtFirst(t, k);
    } else {
      var p' := InterleaveGapAt(t[1..], k - 1);
      p := 1 + |Gap(t[0], t[1])| + p';
      InterleaveGapAtNext(t, k, p', p);
    }
  }

  /** A gap found in the interleaving of the tail is found again, shifted
      past the first record and its gap, in the interleaving of the whole. */
  lemma InterleaveGapAtNext(t: seq<Candle>, k: nat, p: nat, q: nat)
    requires 1 < k < |t|
    requires GapAt(Interleave(t[1..]), t[1..][k - 1 - 1], t[1..][k - 1], p)
    requires q == 1 + |Gap(t[0], t[1])| + p
    ensures GapAt(Interleave(t), t[k - 1], t[k], q)
  {
    assert t[1..][k - 1 - 1] == t[k - 1] && t[1..][k - 1] == t[k];
    InterleaveUnfold(t);
    GapAtShift(Interleave(t), [t[0]] + Gap(t[0], t[1]), Interleave(t[1..]), t[k - 1], t[k], p, q);
  }

  /** The interleaving opens with the first gap. */
  lemma InterleaveGapAtFirst(t: seq<Candle>, k: nat)
    requires k == 1 < |t|
    ensures GapAt(Interleave(t), t[k - 1], t[k], 0)
  {
    InterleaveUnfold(t);
    InterleaveHead(t[1..]);
    GapAtFront(t[0], t[1], Interleave(t[1..]));
  }

  /** A record followed by its gap and then a sequence starting with the
      next record holds that gap at position 0. */
  lemma GapAtFront(prev: Candle, cur: Candle, rest: seq<Candle>)
    requires |rest| > 0 && rest[0] == cur
    ensures GapAt([prev] + Gap(prev, cur) + rest, prev, cur, 0)
  {
    var g := Gap(prev, cur);
    var f := [prev] + g + rest;
    assert f[|g| + 1] == rest[0];
    assert f[1 .. |g| + 1] == g;
  }

  /** A gap found in `rest` is found again, shifted by |front|, in
      `front + rest`. */
  lemma GapAtShift(f: seq<Candle>, front: seq<Candle>, rest: seq<Candle>, prev: Candle, cur: Candle, p: nat, q: nat)
    requires f == front + rest
    requires GapAt(rest, prev, cur, p)
    requires q == |front| + p
    ensures GapAt(f, prev, cur, q)
  {
    var n := |Gap(prev, cur)|;
    assert f[q] == rest[p];
    assert f[q + n + 1] == rest[p + n + 1];
    assert f[q + 1 .. q + n + 1] == rest[p + 1 .. p + n + 1];
  }

  /** Gap count: for strictly ascending records, the filled sequence holds
      `t[k-1]` at position `p`, then the GapCount(interval) synthetics for
      slots 1..GapCount(interval), then `t[k]`. */
  lemma FillGapsBetween(t: seq<Candle>, k: nat) returns (p: nat)
    requires StrictlyAscending(t)
    requires 0 < k < |t|
    ensures GapAt(FillGaps(t), t[k - 1], t[k], p)
    ensures forall j :: p < j <= p + GapCount(t[k].time - t[k - 1].time) ==>
      FillGaps(t)[j] == Synthetic(t[k - 1], j - p)
  {
    FillGapsIsInterleave(t);
    p := InterleaveGapAt(t, k);
    GapAtSlots(FillGaps(t), t[k - 1], t[k], p);
  }

  /** In a strictly ascending sequence every bar occurs exactly once. */
  lemma OccursOnce(s: seq<Candle>, i: nat)
    requires StrictlyAscending(s)
    requires i < |s|
    ensures multiset(s)[s[i]] == 1
  {
    assert s == s[..i] + [s[i]] + s[i + 1..];
    assert s[i] !in s[..i];
    assert s[i] !in s[i + 1..];
  }

  /** For strictly ascending records the filled sequence is strictly
      ascending, holds every original exactly once, and holds every
      synthetic, none of which equals an original. */
  lemma DistinctCounts(f: seq<Candle>)
    requires StrictlyAscending(f)
    ensures forall x :: x in multiset(f) ==> multiset(f)[x] == 1
  {
    forall x | x in multiset(f) ensures multiset(f)[x] == 1 {
      assert x in f;
      var i :| 0 <= i < |f| && f[i] == x;
      OccursOnce(f, i);
    }
  }

  lemma FillGapsStrictlyAscending(t: seq<Candle>)
    requires StrictlyAscending(t)
    ensures StrictlyAscending(FillGaps(t))
    ensures forall k :: 0 <= k < |t| ==> multiset(FillGaps(t))[t[k]] == 1
    ensures forall c :: c in NullTrades(t) ==> c in FillGaps(t) && c !in t
  {
    var f := FillGaps(t);
    var n := NullTrades(t);
    FillGapsIsInterleave(t);
    InterleaveStrictlyAscending(t);
    DistinctCounts(f);
    assert multiset(f) == multiset(t) + multiset(n);
    forall k | 0 <= k < |t| ensures multiset(f)[t[k]] == 1 {
      assert t[k] in multiset(t);
    }
    forall c | c in n ensures c in f && c !in t {
      assert c in multiset(n);
      assert c in multiset(f);
      assert multiset(t)[c] + multiset(n)[c] == 1;
    }
  }

  /** The pushes for three records at 0, 1800 and 900 seconds: one slot at
      900 after the first record, none after the backward step. */
  lemma NullTradesOutOfOrder(t: seq<Candle>)
    requires |t| == 3 && t[0].time == 0 && t[1].time == 1800 && t[2].time == 900
    ensures NullTrades(t) == [Synthetic(t[0], 1)]
  {
    assert GapCount(FourthHour) == 0 && GapCount(1800) == 1 && GapCount(-900) == 0;
    assert NullsAt(t, 0) == [];
    assert Slots(t[0], 1) == [Synthetic(t[0], 1)];
    assert NullsAt(t, 1) == [Synthetic(t[0], 1)];
    assert NullsAt(t, 2) == [];
    assert Nulls(t, 1) == [];
    assert Nulls(t, 2) == [Synthetic(t[0], 1)];
    assert Nulls(t, 3) == Nulls(t, 2) + [];
  }

  /** `convertTimeframeData` does not check the order of its input: for
      records at 0, 1800 and 900 seconds the slot pushed at 900 meets the
      original at 900, and the filled series repeats a time (or, when the
      two records are equal, repeats the record). */
  lemma UnsortedInputRepeatsTime(t: seq<Candle>)
    requires |t| == 3 && t[0].time == 0 && t[1].time == 1800 && t[2].time == 900
    ensures !StrictlyAscending(FillGaps(t))
  {
    var f := FillGaps(t);
    var s := Synthetic(t[0], 1);
    NullTradesOutOfOrder(t);
    assert t[2] in multiset(t) && s in multiset(NullTrades(t));
    if t[2] == s {
      assert multiset(f)[s] >= 2;
      if StrictlyAscending(f) {
        DistinctCounts(f);
      }
    } else {
      assert t[2] in multiset(f) && s in multiset(f);
      var i :| 0 <= i < |f| && f[i] == t[2];
      var j :| 0 <= j < |f| && f[j] == s;
      assert f[i] != f[j] && f[i].time == f[j].time;
    }
  }

  // ---------------------------------------------------------------------
  // Records on the quarter-hour grid

  /** Consecutive records are a positive whole number of quarter hours
      apart. */
  predicate OnGrid(t: seq<Candle>) {
    forall k :: 0 < k < |t| ==>
      t[k].time - t[k - 1].time >= FourthHour && (t[k].time - t[k - 1].time) % FourthHour == 0
  }

  lemma {:induction false} OnGridStrictlyAscending(t: seq<Candle>)
    requires OnGrid(t)
    ensures StrictlyAscending(t)
  {
    forall i, j | 0 <= i < j < |t| ensures t[i].time < t[j].time {
      OnGridStep(t, i, j);
    }
  }

  lemma {:induction false} OnGridStep(t: seq<Candle>, i: nat, j: nat)
    requires OnGrid(t)
    requires i < j < |t|
    ensures t[i].time < t[j].time
    decreases j - i
  {
    if j > i + 1 {
      OnGridStep(t, i, j - 1);
    }
  }

  /** On the grid, a gap of `d` seconds holds d / 900 - 1 synthetics. */
  lemma GapCountOnGrid(d: int)
    requires d >= FourthHour && d % FourthHour == 0
    ensures d == FourthHour * (GapCount(d) + 1)
  {
  }

  /** For records on the grid, the filled sequence has no hole: its j-th
      record is j quarter hours after the first original. */
  lemma {:induction false} InterleaveEvenlySpaced(t: seq<Candle>)
    requires OnGrid(t)
    requires |t| > 0
    ensures forall j :: 0 <= j < |Interleave(t)| ==> Interleave(t)[j].time == t[0].time + FourthHour * j
  {
    if |t| > 1 {
      OnGridTail(t);
      InterleaveEvenlySpaced(t[1..]);
      InterleaveUnfold(t);
      EvenlySpacedCons(t[0], t[1], Interleave(t[1..]));
    }
  }

  lemma OnGridTail(t: seq<Candle>)
    requires OnGrid(t) && |t| > 1
    ensures OnGrid(t[1..])
    ensures t[1].time - t[0].time >= FourthHour && (t[1].time - t[0].time) % FourthHour == 0
  {
    forall k | 0 < k < |t[1..]|
      ensures t[1..][k].time - t[1..][k - 1].time >= FourthHour
      ensures (t[1..][k].time - t[1..][k - 1].time) % FourthHour == 0
    {
      assert t[1..][k] == t[k + 1] && t[1..][k - 1] == t[k];
    }
  }

  /** A record, its gap and an evenly spaced run starting at the next
      record on the grid make one evenly spaced run. */
  lemma EvenlySpacedCons(prev: Candle, cur: Candle, rest: seq<Candle>)
    requires cur.time - prev.time >= FourthHour && (cur.time - prev.time) % FourthHour == 0
    requires forall j :: 0 <= j < |rest| ==> rest[j].time == cur.time + FourthHour * j
    ensures forall j :: 0 <= j < |[prev] + Gap(prev, cur) + rest| ==>
      ([prev] + Gap(prev, cur) + rest)[j].time == prev.time + FourthHour * j
  {
    var g := Gap(prev, cur);
    var f := [prev] + g + rest;
    GapCountOnGrid(cur.time - prev.time);
    forall j | 0 <= j < |f| ensures f[j].time == prev.time + FourthHour * j {
      if j == 0 {
      } else if j <= |g| {
        assert f[j] == g[j - 1];
      } else {
        assert f[j] == rest[j - 1 - |g|];
      }
    }
  }

  /** For records on the grid, the gap-filled sequence advances by exactly
      one quarter hour per record. */
  lemma FillGapsEvenlySpaced(t: seq<Candle>)
    requires OnGrid(t)
    requires |t| > 0
    ensures forall j :: 0 <= j < |FillGaps(t)| ==> FillGaps(t)[j].time == t[0].time + FourthHour * j
  {
    OnGridStrictlyAscending(t);
    FillGapsIsInterleave(t);
    InterleaveEvenlySpaced(t);
  }
}
