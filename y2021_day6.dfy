// Lanternfish: fish grouped by the days left on their timer, nine buckets
// rotated once a day, with every fish at 0 resetting to 6 and spawning a
// new fish at 8.

module Lanternfish {
  /** How many entries of `v` equal `k`. */
  function Count(v: seq<nat>, k: int): (n: nat)
    ensures n <= |v|
  {
    if v == [] then 0 else (if v[0] == k then 1 else 0) + Count(v[1..], k)
  }

  lemma {:induction false} CountAppend(a: seq<nat>, b: seq<nat>, k: int)
    ensures Count(a + b, k) == Count(a, k) + Count(b, k)
  {
    if a != [] {
      CountAppend(a[1..], b, k);
      assert (a + b)[0] == a[0] && (a + b)[1..] == a[1..] + b;
    } else {
      assert a + b == b;
    }
  }

  /** What `new` builds: bucket `k` holds the number of fish with timer `k`. */
  function Buckets(v: seq<nat>): (t: seq<nat>)
    ensures |t| == 9
    ensures forall k :: 0 <= k < 9 ==> t[k] == Count(v, k)
  {
    seq(9, k => Count(v, k))
  }

  /** `apply_day`: every bucket moves one place down, the fish at 0 come back
      at 6 and their offspring start at 8. */
  function Day(t: seq<nat>): (r: seq<nat>)
    requires |t| == 9
    ensures |r| == 9
    ensures forall k :: 0 <= k < 8 && k != 6 ==> r[k] == t[k + 1]
    ensures r[6] == t[7] + t[0] && r[8] == t[0]
  {
    t[1..7] + [t[7] + t[0], t[8], t[0]]
  }

  /** The buckets after `n` days. */
  function Days(t: seq<nat>, n: nat): (r: seq<nat>)
    requires |t| == 9
    ensures |r| == 9
    decreases n
  {
    if n == 0 then t else Days(Day(t), n - 1)
  }

  /** The number of fish. */
  function Total(t: seq<nat>): nat {
    if t == [] then 0 else t[0] + Total(t[1..])
  }

  lemma Total9(t: seq<nat>)
    requires |t| == 9
    ensures Total(t) == t[0] + t[1] + t[2] + t[3] + t[4] + t[5] + t[6] + t[7] + t[8]
  {
    var u := t;
    for i := 0 to 9
      invariant |u| == 9 - i && u == t[i..]
      invariant Total(t) == Total(u) + (if i > 0 then t[0] else 0) + (if i > 1 then t[1] else 0)
        + (if i > 2 then t[2] else 0) + (if i > 3 then t[3] else 0) + (if i > 4 then t[4] else 0)
        + (if i > 5 then t[5] else 0) + (if i > 6 then t[6] else 0) + (if i > 7 then t[7] else 0)
        + (if i > 8 then t[8] else 0)
    {
      assert u[1..] == t[i + 1..];
      u := u[1..];
    }
  }

  /** A day adds exactly one fish per fish whose timer was 0. */
  lemma DayTotal(t: seq<nat>)
    requires |t| == 9
    ensures Total(Day(t)) == Total(t) + t[0]
  {
    Total9(t);
    Total9(Day(t));
  }

  /** The population never shrinks. */
  lemma {:induction false} DaysGrow(t: seq<nat>, n: nat)
    requires |t| == 9
    ensures Total(Days(t, n)) >= Total(t)
    decreases n
  {
    if n > 0 {
      DayTotal(t);
      DaysGrow(Day(t), n - 1);
    }
  }

  /** The puzzle's own rule, fish by fish: a timer above 0 goes down by one;
      a timer at 0 goes back to 6 and a new fish starts at 8. */
  function Tick(v: seq<nat>): seq<nat> {
    if v == [] then []
    else (if v[0] == 0 then [6, 8] else [v[0] - 1]) + Tick(v[1..])
  }

  /** Counting the fish into buckets and then rotating the buckets gives
      the same buckets as moving every fish on its own. */
  lemma {:induction false} TickBuckets(v: seq<nat>)
    requires forall i :: 0 <= i < |v| ==> v[i] < 9
    ensures Buckets(Tick(v)) == Day(Buckets(v))
  {
    if v != [] {
      TickBuckets(v[1..]);
      var head: seq<nat> := if v[0] == 0 then [6, 8] else [v[0] - 1];
      forall k | 0 <= k < 9
        ensures Count(Tick(v), k) == Day(Buckets(v))[k]
      {
        CountAppend(head, Tick(v[1..]), k);
      }
    }
  }

  /** The buckets count every fish exactly once. */
  lemma {:induction false} BucketsTotal(v: seq<nat>)
    requires forall i :: 0 <= i < |v| ==> v[i] < 9
    ensures Total(Buckets(v)) == |v|
  {
    Total9(Buckets(v));
    if v != [] {
      BucketsTotal(v[1..]);
      Total9(Buckets(v[1..]));
    }
  }

  /** `n` days of the fish-by-fish rule. */
  function Ticks(v: seq<nat>, n: nat): seq<nat>
    decreases n
  {
    if n == 0 then v else Ticks(Tick(v), n - 1)
  }

  lemma {:induction false} TickBelowNine(v: seq<nat>)
    requires forall i :: 0 <= i < |v| ==> v[i] < 9
    ensures forall i :: 0 <= i < |Tick(v)| ==> Tick(v)[i] < 9
  {
    if v != [] {
      TickBelowNine(v[1..]);
    }
  }

  /** After any number of days the bucket total is the number of fish the
      fish-by-fish rule produces. */
  lemma {:induction false} DaysCountFish(v: seq<nat>, n: nat)
    requires forall i :: 0 <= i < |v| ==> v[i] < 9
    ensures Days(Buckets(v), n) == Buckets(Ticks(v, n))
    ensures Total(Days(Buckets(v), n)) == |Ticks(v, n)|
    decreases n
  {
    if n == 0 {
      BucketsTotal(v);
    } else {
      TickBuckets(v);
      TickBelowNine(v);
      DaysCountFish(Tick(v), n - 1);
    }
  }

  class LanternFishes {
    /** The nine buckets, by timer value. */
    var timers: array<nat>

    ghost predicate Valid()
      reads this
    {
      timers.Length == 9
    }

    /** `new`: counts the fish into their buckets; a timer of 9 or more
        would index past the buckets. */
    constructor (v: seq<nat>)
      requires forall i :: 0 <= i < |v| ==> v[i] < 9
      ensures Valid() && fresh(timers)
      ensures timers[..] == Buckets(v)
    {
      var t := new nat[9](_ => 0);
      for i := 0 to |v|
        invariant forall k :: 0 <= k < 9 ==> t[k] == Count(v[..i], k)
      {
        assert v[..i + 1] == v[..i] + [v[i]];
        forall k | 0 <= k < 9 ensures Count(v[..i + 1], k) == Count(v[..i], k) + (if v[i] == k then 1 else 0) {
          CountAppend(v[..i], [v[i]], k);
        }
        t[v[i]] := t[v[i]] + 1;
      }
      assert v[..|v|] == v;
      timers := t;
    }

    /** `apply_day`: `rotate_left(1)`, then bucket 6 gains the fish that
        were at 0, now in bucket 8. */
    method ApplyDay()
      requires Valid()
      modifies timers
      ensures timers[..] == Day(old(timers[..]))
    {
      var first := timers[0];
      for k := 0 to 8
        invariant forall j :: 0 <= j < k ==> timers[j] == old(timers[j + 1])
        invariant forall j :: k <= j < 9 ==> timers[j] == old(timers[j])
      {
        timers[k] := timers[k + 1];
      }
      timers[8] := first;
      timers[6] := timers[6] + timers[8];
    }
  }

  /** `solve`: runs `days` days and counts the fish. */
  method Solve(l: LanternFishes, days: nat) returns (total: nat)
    requires l.Valid()
    modifies l.timers
    ensures l.timers[..] == Days(old(l.timers[..]), days)
    ensures total == Total(l.timers[..])
  {
    ghost var start := l.timers[..];
    for i := 0 to days
      invariant Days(start, days) == Days(l.timers[..], days - i)
    {
      l.ApplyDay();
    }
    total := 0;
    for k := 0 to 9
      invariant total + Total(l.timers[k..]) == Total(l.timers[..])
    {
      assert l.timers[k..] == [l.timers[k]] + l.timers[k + 1..];
      total := total + l.timers[k];
    }
    assert l.timers[9..] == [];
  }
}
