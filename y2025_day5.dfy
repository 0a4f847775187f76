// Cafeteria: inclusive ranges of fresh ingredient IDs and a list of
// available IDs. The ranges are sorted and merged into disjoint half-open
// ranges; part 1 counts the available IDs that are fresh, part 2 counts
// every fresh ID.

module Cafeteria {
  /** A half-open range `start..end`, as Rust's `Range<usize>`. */
  datatype Range = Range(start: nat, end: nat)

  /** A parsed line `from-to`: an inclusive range. */
  type Bounds = (nat, nat)

  // ---------------------------------------------------------------------
  // Sorting (`sort_unstable`), by any total order.

  ghost predicate Total<T(!new)>(le: (T, T) -> bool) {
    forall a: T, b: T :: le(a, b) || le(b, a)
  }

  predicate SortedBy<T>(s: seq<T>, le: (T, T) -> bool) {
    forall i :: 0 <= i < |s| - 1 ==> le(s[i], s[i + 1])
  }

  function Insert<T(!new)>(x: T, s: seq<T>, le: (T, T) -> bool): (r: seq<T>)
    requires Total(le) && SortedBy(s, le)
    ensures |r| == |s| + 1 && SortedBy(r, le)
    ensures multiset(r) == multiset(s) + multiset{x}
    ensures r[0] == x || (s != [] && r[0] == s[0])
  {
    if s == [] then [x]
    else if le(x, s[0]) then [x] + s
    else
      assert s == [s[0]] + s[1..];
      [s[0]] + Insert(x, s[1..], le)
  }

  /** The same elements, in order. */
  function Sort<T(!new)>(s: seq<T>, le: (T, T) -> bool): (r: seq<T>)
    requires Total(le)
    ensures SortedBy(r, le) && multiset(r) == multiset(s)
  {
    if s == [] then []
    else
      assert s == [s[0]] + s[1..];
      Insert(s[0], Sort(s[1..], le), le)
  }

  /** The order of `[usize; 2]`: by `from`, then by `to`. */
  function BoundsLeq(a: Bounds, b: Bounds): bool {
    a.0 < b.0 || (a.0 == b.0 && a.1 <= b.1)
  }

  function NatLeq(a: nat, b: nat): bool {
    a <= b
  }

  // ---------------------------------------------------------------------
  // What the ranges cover.

  /** `v` lies in one of the inclusive ranges. */
  function Covered(bs: seq<Bounds>, v: int): bool {
    bs != [] && (Covered(bs[..|bs| - 1], v) || bs[|bs| - 1].0 <= v <= bs[|bs| - 1].1)
  }

  function InRange(r: Range, v: int): bool {
    r.start <= v < r.end
  }

  /** `v` lies in one of the half-open ranges. */
  function InUnion(ms: seq<Range>, v: int): bool {
    ms != [] && (InUnion(ms[..|ms| - 1], v) || InRange(ms[|ms| - 1], v))
  }

  lemma {:induction false} CoveredMember(bs: seq<Bounds>, v: int)
    ensures Covered(bs, v) <==> exists k :: 0 <= k < |bs| && bs[k].0 <= v <= bs[k].1
  {
    if bs != [] {
      var init := bs[..|bs| - 1];
      CoveredMember(init, v);
      if Covered(init, v) {
        var k :| 0 <= k < |init| && init[k].0 <= v <= init[k].1;
        assert bs[k] == init[k];
      }
      if exists k :: 0 <= k < |bs| && bs[k].0 <= v <= bs[k].1 {
        var k :| 0 <= k < |bs| && bs[k].0 <= v <= bs[k].1;
        if k < |init| {
          assert init[k] == bs[k];
        }
      }
    }
  }

  /** Coverage depends only on which ranges there are, not on their order. */
  lemma CoveredPermutation(a: seq<Bounds>, b: seq<Bounds>, v: int)
    requires multiset(a) == multiset(b)
    ensures Covered(a, v) == Covered(b, v)
  {
    CoveredMember(a, v);
    CoveredMember(b, v);
    if Covered(a, v) {
      var k :| 0 <= k < |a| && a[k].0 <= v <= a[k].1;
      assert a[k] in multiset(b);
      var l :| 0 <= l < |b| && b[l] == a[k];
    }
    if Covered(b, v) {
      var k :| 0 <= k < |b| && b[k].0 <= v <= b[k].1;
      assert b[k] in multiset(a);
      var l :| 0 <= l < |a| && a[l] == b[k];
    }
  }

  /** Ranges in increasing order with a gap between neighbours. */
  predicate Disjoint(ms: seq<Range>) {
    forall j :: 0 <= j < |ms| - 1 ==> ms[j].end < ms[j + 1].start
  }

  /** Every range is ordered, and only a leading `0..0` may be empty. */
  predicate Proper(ms: seq<Range>) {
    forall j :: 0 <= j < |ms| ==> ms[j].start < ms[j].end || (j == 0 && ms[j] == Range(0, 0))
  }

  predicate WellFormed(bs: seq<Bounds>) {
    forall k :: 0 <= k < |bs| ==> bs[k].0 <= bs[k].1
  }

  lemma ProperAppend(ms: seq<Range>, r: Range, wf: bool)
    requires wf ==> Proper(ms) && r.start < r.end
    ensures wf ==> Proper(ms + [r])
  {
    if wf {
      forall j | 0 <= j < |ms| ensures (ms + [r])[j] == ms[j] {
      }
    }
  }

  lemma ProperWiden(ms: seq<Range>, r: Range, wider: Range, wf: bool)
    requires wf ==> Proper(ms + [r])
    requires wider.start == r.start && r.end <= wider.end
    ensures wf ==> Proper(ms + [wider])
  {
    if wf {
      forall j | 0 <= j < |ms| ensures (ms + [wider])[j] == (ms + [r])[j] {
      }
      assert (ms + [r])[|ms|] == r;
    }
  }

  lemma UnionAppend(ms: seq<Range>, r: Range, v: int)
    ensures InUnion(ms + [r], v) == (InUnion(ms, v) || InRange(r, v))
  {
    assert (ms + [r])[..|ms|] == ms;
  }

  lemma CoveredAppend(bs: seq<Bounds>, i: nat, v: int)
    requires i < |bs|
    ensures Covered(bs[..i + 1], v) == (Covered(bs[..i], v) || bs[i].0 <= v <= bs[i].1)
  {
    assert bs[..i + 1][..i] == bs[..i];
  }

  /** Everything a sorted disjoint list covers lies below its last end. */
  lemma {:induction false} UnionBelow(ms: seq<Range>, v: int)
    requires Disjoint(ms) && Proper(ms) && InUnion(ms, v)
    ensures v < ms[|ms| - 1].end
  {
    var init := ms[..|ms| - 1];
    if !InRange(ms[|ms| - 1], v) {
      UnionBelow(init, v);
      assert init[|init| - 1] == ms[|ms| - 2];
    }
  }

  /** The last range shares nothing with the ones before it. */
  lemma LastApart(init: seq<Range>, last: Range)
    requires Disjoint(init + [last]) && Proper(init + [last])
    ensures Disjoint(init) && Proper(init)
    ensures forall v :: !(InUnion(init, v) && InRange(last, v))
  {
    var ms := init + [last];
    assert forall j :: 0 <= j < |init| ==> ms[j] == init[j];
    forall v | InUnion(init, v) && InRange(last, v) ensures false {
      assert init != [];
      assert init[|init| - 1] == ms[|ms| - 2] && ms[|ms| - 1] == last;
      UnionBelow(init, v);
    }
  }

  // ---------------------------------------------------------------------
  // `parse_input`: sort both lists, then merge the ranges.

  /** The merge loop: ranges that overlap or touch the current one extend
      it; any other range closes it and starts a new one. */
  method MergeRanges(s: seq<Bounds>) returns (merged: seq<Range>)
    requires SortedBy(s, BoundsLeq)
    ensures |merged| >= 1 && Disjoint(merged)
    ensures forall v :: InUnion(merged, v) <==> Covered(s, v)
    ensures WellFormed(s) ==> Proper(merged)
  {
    var range := Range(0, 0);
    merged := [];
    for i := 0 to |s|
      invariant i < |s| ==> range.start <= s[i].0
      invariant merged != [] ==> merged[|merged| - 1].end < range.start
      invariant Disjoint(merged)
      invariant forall v :: InUnion(merged, v) || InRange(range, v) <==> Covered(s[..i], v)
      invariant WellFormed(s) ==> Proper(merged + [range])
    {
      var from, to := s[i].0, s[i].1;
      forall v
        ensures Covered(s[..i + 1], v) == (Covered(s[..i], v) || from <= v <= to)
      {
        CoveredAppend(s, i, v);
      }
      if from <= range.end {
        var wider := range.(end := if range.end < to + 1 then to + 1 else range.end);
        ProperWiden(merged, range, wider, WellFormed(s));
        forall v ensures InUnion(merged, v) || InRange(wider, v) <==> Covered(s[..i + 1], v) {
          assert InRange(wider, v) <==> InRange(range, v) || from <= v <= to;
        }
        range := wider;
      } else {
        forall v ensures InUnion(merged + [range], v) == (InUnion(merged, v) || InRange(range, v)) {
          UnionAppend(merged, range, v);
        }
        ProperAppend(merged + [range], Range(from, to + 1), WellFormed(s));
        forall v ensures InUnion(merged + [range], v) || InRange(Range(from, to + 1), v) <==> Covered(s[..i + 1], v) {
        }
        merged := merged + [range];
        range := Range(from, to + 1);
      }
    }
    forall v ensures InUnion(merged + [range], v) == (InUnion(merged, v) || InRange(range, v)) {
      UnionAppend(merged, range, v);
    }
    assert s[..|s|] == s;
    merged := merged + [range];
  }

  /** `parse_input` after parsing: the merged ranges and the sorted IDs. */
  method ParseInput(ranges: seq<Bounds>, values: seq<nat>) returns (merged: seq<Range>, sorted: seq<nat>)
    ensures |merged| >= 1 && Disjoint(merged)
    ensures forall v :: InUnion(merged, v) <==> Covered(ranges, v)
    ensures WellFormed(ranges) ==> Proper(merged)
    ensures SortedBy(sorted, NatLeq) && multiset(sorted) == multiset(values)
  {
    var s := Sort(ranges, BoundsLeq);
    sorted := Sort(values, NatLeq);
    merged := MergeRanges(s);
    forall v ensures Covered(s, v) == Covered(ranges, v) {
      CoveredPermutation(s, ranges, v);
    }
    forall k | 0 <= k < |s| ensures s[k].0 <= s[k].1 || !WellFormed(ranges) {
      if WellFormed(ranges) {
        assert s[k] in multiset(ranges);
        var l :| 0 <= l < |ranges| && ranges[l] == s[k];
      }
    }
  }

  // ---------------------------------------------------------------------
  // Part 1: available IDs that are fresh.

  /** `fn_position`: the binary-search position of `x`, i.e. how many IDs
      are smaller than `x`. */
  function Position(values: seq<nat>, x: int): (p: nat)
    ensures p <= |values|
  {
    if values == [] then 0 else (if values[0] < x then 1 else 0) + Position(values[1..], x)
  }

  lemma {:induction false} SortedBelow(values: seq<nat>, i: nat, j: nat)
    requires SortedBy(values, NatLeq) && i <= j < |values|
    ensures values[i] <= values[j]
    decreases j - i
  {
    if i < j {
      SortedBelow(values, i + 1, j);
    }
  }

  /** On sorted IDs the position is the insertion point `binary_search`
      reports: everything before it is smaller, nothing after it is. */
  lemma {:induction false} PositionIsInsertionPoint(values: seq<nat>, x: int)
    requires SortedBy(values, NatLeq)
    ensures forall i :: 0 <= i < Position(values, x) ==> values[i] < x
    ensures forall i :: Position(values, x) <= i < |values| ==> values[i] >= x
  {
    if values != [] {
      PositionIsInsertionPoint(values[1..], x);
      var p := Position(values, x);
      if values[0] >= x {
        forall i | 0 <= i < |values| ensures values[i] >= x {
          SortedBelow(values, 0, i);
        }
      } else {
        forall i | 0 < i < p ensures values[i] < x {
          assert values[i] == values[1..][i - 1];
        }
        forall i | p <= i < |values| ensures values[i] >= x {
          assert values[i] == values[1..][i - 1];
        }
      }
    }
  }

  /** How many IDs lie in `r`. */
  function CountInRange(values: seq<nat>, r: Range): (c: nat)
    ensures c <= |values|
  {
    if values == [] then 0 else (if InRange(r, values[0]) then 1 else 0) + CountInRange(values[1..], r)
  }

  /** How many IDs lie in one of `ms`. */
  function CountInUnion(values: seq<nat>, ms: seq<Range>): (c: nat)
    ensures c <= |values|
  {
    if values == [] then 0 else (if InUnion(ms, values[0]) then 1 else 0) + CountInUnion(values[1..], ms)
  }

  /** How many IDs lie in one of the inclusive ranges. */
  function CountFresh(values: seq<nat>, bs: seq<Bounds>): (c: nat)
    ensures c <= |values|
  {
    if values == [] then 0 else (if Covered(bs, values[0]) then 1 else 0) + CountFresh(values[1..], bs)
  }

  /** The difference of two positions counts the IDs in the range. */
  lemma {:induction false} PositionDifference(values: seq<nat>, r: Range)
    requires r.start <= r.end
    ensures Position(values, r.end) - Position(values, r.start) == CountInRange(values, r)
  {
    if values != [] {
      PositionDifference(values[1..], r);
    }
  }

  lemma {:induction false} CountSplit(values: seq<nat>, ms: seq<Range>, r: Range)
    requires forall v :: !(InUnion(ms, v) && InRange(r, v))
    ensures CountInUnion(values, ms + [r]) == CountInUnion(values, ms) + CountInRange(values, r)
  {
    if values != [] {
      UnionAppend(ms, r, values[0]);
      CountSplit(values[1..], ms, r);
    }
  }

  lemma {:induction false} CountSameCover(values: seq<nat>, ms: seq<Range>, bs: seq<Bounds>)
    requires forall v :: InUnion(ms, v) <==> Covered(bs, v)
    ensures CountInUnion(values, ms) == CountFresh(values, bs)
  {
    if values != [] {
      CountSameCover(values[1..], ms, bs);
    }
  }

  lemma {:induction false} CountInNothing(values: seq<nat>)
    ensures CountInUnion(values, []) == 0
  {
    if values != [] {
      CountInNothing(values[1..]);
    }
  }

  predicate Ordered(ms: seq<Range>) {
    forall j :: 0 <= j < |ms| ==> ms[j].start <= ms[j].end
  }

  /** `part1`: per range, the difference of the positions of its ends. */
  function Part1(ranges: seq<Range>, values: seq<nat>): nat
    requires Ordered(ranges)
  {
    if ranges == [] then 0
    else
      var r := ranges[|ranges| - 1];
      var lo := Position(values, r.start);
      var hi := Position(values, r.end);
      PositionDifference(values, r);
      Part1(ranges[..|ranges| - 1], values) + (hi - lo)
  }

  /** On disjoint ranges, part 1 counts the IDs that lie in some range. */
  lemma {:induction false} Part1CountsFresh(ranges: seq<Range>, values: seq<nat>)
    requires Disjoint(ranges) && Proper(ranges)
    ensures Ordered(ranges)
    ensures Part1(ranges, values) == CountInUnion(values, ranges)
  {
    if ranges != [] {
      var init := ranges[..|ranges| - 1];
      var r := ranges[|ranges| - 1];
      assert init + [r] == ranges;
      Part1CountsFresh(init, values);
      PositionDifference(values, r);
      LastApart(init, r);
      CountSplit(values, init, r);
    } else {
      CountInNothing(values);
    }
  }

  // ---------------------------------------------------------------------
  // Part 2: every fresh ID.

  /** `part2`: the sum of the range lengths. */
  function Part2(ranges: seq<Range>): nat
    requires Ordered(ranges)
  {
    if ranges == [] then 0
    else
      var r := ranges[|ranges| - 1];
      Part2(ranges[..|ranges| - 1]) + (r.end - r.start)
  }

  function Interval(a: nat, b: nat): (s: set<nat>)
    ensures forall v: nat :: v in s <==> a <= v < b
    decreases b - a
  {
    if a >= b then {} else Interval(a + 1, b) + {a}
  }

  lemma {:induction false} IntervalCard(a: nat, b: nat)
    requires a <= b
    ensures |Interval(a, b)| == b - a
    decreases b - a
  {
    if a < b {
      IntervalCard(a + 1, b);
      assert Interval(a, b) == Interval(a + 1, b) + {a};
    } else {
      assert Interval(a, b) == {};
    }
  }

  /** The fresh IDs, as a set. */
  function UnionSet(ms: seq<Range>): (s: set<nat>)
    ensures forall v :: v in s <==> InUnion(ms, v)
  {
    if ms == [] then {}
    else UnionSet(ms[..|ms| - 1]) + Interval(ms[|ms| - 1].start, ms[|ms| - 1].end)
  }

  /** The IDs the inclusive ranges cover, as a set. */
  function FreshSet(bs: seq<Bounds>): (s: set<nat>)
    ensures forall v: nat :: v in s <==> Covered(bs, v)
  {
    if bs == [] then {}
    else FreshSet(bs[..|bs| - 1]) + Interval(bs[|bs| - 1].0, bs[|bs| - 1].1 + 1)
  }

  /** On disjoint ranges, part 2 is the number of fresh IDs. */
  lemma {:induction false} Part2CountsFresh(ranges: seq<Range>)
    requires Disjoint(ranges) && Proper(ranges)
    ensures Ordered(ranges)
    ensures Part2(ranges) == |UnionSet(ranges)|
  {
    if ranges != [] {
      var init := ranges[..|ranges| - 1];
      var r := ranges[|ranges| - 1];
      Part2CountsFresh(init);
      IntervalCard(r.start, r.end);
      var i := Interval(r.start, r.end);
      assert init + [r] == ranges;
      LastApart(init, r);
      assert UnionSet(init) * i == {};
    }
  }

  /** `parse_input`, then `part1` and `part2`: the IDs available and fresh,
      and the IDs fresh at all. */
  method Solve(ranges: seq<Bounds>, values: seq<nat>) returns (p1: nat, p2: nat)
    requires WellFormed(ranges)
    ensures p1 == CountFresh(values, ranges)
    ensures p2 == |FreshSet(ranges)|
  {
    var merged, sorted := ParseInput(ranges, values);
    Part1CountsFresh(merged, sorted);
    Part2CountsFresh(merged);
    p1 := Part1(merged, sorted);
    p2 := Part2(merged);
    CountSameCover(sorted, merged, ranges);
    CountFreshPermutation(sorted, values, ranges);
    assert UnionSet(merged) == FreshSet(ranges);
  }

  lemma {:induction false} CountFreshAppend(a: seq<nat>, b: seq<nat>, bs: seq<Bounds>)
    ensures CountFresh(a + b, bs) == CountFresh(a, bs) + CountFresh(b, bs)
  {
    if a != [] {
      assert (a + b)[1..] == a[1..] + b;
      CountFreshAppend(a[1..], b, bs);
    } else {
      assert a + b == b;
    }
  }

  /** Counting does not depend on the order of the IDs. */
  lemma {:induction false} CountFreshPermutation(a: seq<nat>, b: seq<nat>, bs: seq<Bounds>)
    requires multiset(a) == multiset(b)
    ensures CountFresh(a, bs) == CountFresh(b, bs)
    decreases |a|
  {
    if a != [] {
      assert a[0] in multiset(b);
      var k :| 0 <= k < |b| && b[k] == a[0];
      var before, after := b[..k], b[k + 1..];
      assert b == before + ([b[k]] + after);
      assert a == [a[0]] + a[1..];
      assert multiset(b) == multiset(before) + multiset{b[k]} + multiset(after);
      assert multiset(a) == multiset{a[0]} + multiset(a[1..]);
      assert multiset(before + after) == multiset(before) + multiset(after);
      assert multiset(a[1..]) == multiset(a) - multiset{a[0]};
      assert multiset(a[1..]) == multiset(before + after);
      CountFreshPermutation(a[1..], before + after, bs);
      CountFreshAppend(before, [b[k]] + after, bs);
      CountFreshAppend(before, after, bs);
    }
  }
}
