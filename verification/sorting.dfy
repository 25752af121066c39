/** Sorting bars by timestamp, as `Array.prototype.sort` does with the
    comparator `(a, b) => a.time - b.time`. The built-in sort is stable, so
    it is modelled by a stable insertion sort. */
module Sorting {
  import opened Candles

  /** Places `x` in front of the first bar that is not earlier than it. */
  function Insert(x: Candle, s: seq<Candle>): (r: seq<Candle>)
    ensures multiset(r) == multiset(s) + multiset{x}
    ensures forall c :: c in r ==> c == x || c in s
  {
    if |s| == 0 || x.time <= s[0].time then [x] + s
    else
      assert s == [s[0]] + s[1..];
      [s[0]] + Insert(x, s[1..])
  }

  /** Inserting into an ascending sequence keeps it ascending. */
  lemma {:induction false} InsertAscending(x: Candle, s: seq<Candle>)
    requires Ascending(s)
    ensures Ascending(Insert(x, s))
  {
    if |s| == 0 || x.time <= s[0].time {
    } else {
      InsertAscending(x, s[1..]);
      var rest := Insert(x, s[1..]);
      assert Insert(x, s) == [s[0]] + rest;
      forall k | 0 <= k < |rest|
        ensures s[0].time <= rest[k].time
      {
        assert rest[k] in rest;
      }
    }
  }

  /** Bars ordered by ascending timestamp. */
  function SortByTime(s: seq<Candle>): (r: seq<Candle>)
    ensures Ascending(r)
    ensures multiset(r) == multiset(s)
    ensures |r| == |s|
  {
    if |s| == 0 then []
    else
      assert s == [s[0]] + s[1..];
      var rest := SortByTime(s[1..]);
      InsertAscending(s[0], rest);
      Insert(s[0], rest)
  }

  /** A strictly ascending sequence is the only ascending arrangement of its
      bars: any ascending sequence with the same multiset equals it. */
  lemma {:induction false} AscendingArrangementUnique(a: seq<Candle>, b: seq<Candle>)
    requires Ascending(a)
    requires StrictlyAscending(b)
    requires multiset(a) == multiset(b)
    ensures a == b
  {
    assert |a| == |multiset(a)| == |multiset(b)| == |b|;
    if |a| > 0 {
      HeadsAgree(a, b);
      TailsAgree(a, b);
      AscendingArrangementUnique(a[1..], b[1..]);
      assert a == [a[0]] + a[1..];
      assert b == [b[0]] + b[1..];
    }
  }

  /** The two arrangements start with the same bar: the earliest bar of `b`
      is unique, and `a` must start with a bar that early. */
  lemma HeadsAgree(a: seq<Candle>, b: seq<Candle>)
    requires Ascending(a)
    requires StrictlyAscending(b)
    requires multiset(a) == multiset(b)
    requires |a| > 0 && |b| > 0
    ensures a[0] == b[0]
  {
    assert a[0] in multiset(b);
    var j :| 0 <= j < |b| && b[j] == a[0];
    assert b[0] in multiset(a);
    var i :| 0 <= i < |a| && a[i] == b[0];
    assert a[0].time <= a[i].time;
    assert b[0].time <= b[j].time;
    assert j == 0;
  }

  /** Removing the same first bar from both leaves equal multisets. */
  lemma TailsAgree(a: seq<Candle>, b: seq<Candle>)
    requires multiset(a) == multiset(b)
    requires |a| > 0 && |b| > 0 && a[0] == b[0]
    ensures multiset(a[1..]) == multiset(b[1..])
  {
    assert a == [a[0]] + a[1..];
    assert b == [b[0]] + b[1..];
    assert multiset(a) == multiset{a[0]} + multiset(a[1..]);
    assert multiset(b) == multiset{a[0]} + multiset(b[1..]);
    forall c ensures multiset(a[1..])[c] == multiset(b[1..])[c] {
      assert multiset(a)[c] == multiset{a[0]}[c] + multiset(a[1..])[c];
      assert multiset(b)[c] == multiset{a[0]}[c] + multiset(b[1..])[c];
    }
  }

  /** Sorting a strictly ascending sequence of bars returns it unchanged. */
  lemma SortByTimeKeepsSorted(s: seq<Candle>)
    requires StrictlyAscending(s)
    ensures SortByTime(s) == s
  {
    AscendingArrangementUnique(SortByTime(s), s);
  }
}
