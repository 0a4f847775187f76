/** Crab cups (2020 day 23): cups labelled 1..n sit in a circle, kept as a
    successor array (`cups[c]` is the cup clockwise of `c`); each round
    picks up the three cups after the current one and puts them back after
    the destination cup. */
module CrabCups {

  // ---------------------------------------------------------------------
  // Labels and rings

  /** The labels lo, lo + 1, ..., hi - 1. */
  function Range(lo: nat, hi: nat): (s: seq<nat>)
    ensures |s| == if lo <= hi then hi - lo else 0
    decreases hi - lo
  {
    if lo >= hi then [] else [lo] + Range(lo + 1, hi)
  }

  lemma {:induction false} RangeCount(lo: nat, hi: nat, x: nat)
    ensures multiset(Range(lo, hi))[x] == if lo <= x < hi then 1 else 0
    decreases hi - lo
  {
    if lo < hi {
      RangeCount(lo + 1, hi, x);
    }
  }

  lemma {:induction false} RangeAppend(lo: nat, mid: nat, hi: nat)
    requires lo <= mid <= hi
    ensures Range(lo, mid) + Range(mid, hi) == Range(lo, hi)
    decreases mid - lo
  {
    if lo < mid {
      RangeAppend(lo + 1, mid, hi);
      assert Range(lo, mid) + Range(mid, hi) == [lo] + (Range(lo + 1, mid) + Range(mid, hi));
    }
  }

  /** The cups in circle order: each of the labels 1..|order| once. */
  predicate IsRing(order: seq<nat>) {
    multiset(order) == multiset(Range(1, |order| + 1))
  }

  predicate Distinct(s: seq<nat>) {
    forall i, j :: 0 <= i < j < |s| ==> s[i] != s[j]
  }

  lemma TwiceCounted(s: seq<nat>, i: nat, j: nat)
    requires i < j < |s| && s[i] == s[j]
    ensures multiset(s)[s[i]] >= 2
  {
    assert s == s[..i] + [s[i]] + s[i + 1..j] + [s[j]] + s[j + 1..];
  }

  /** A ring holds every label from 1 to its length, each exactly once. */
  lemma RingFacts(order: seq<nat>)
    requires IsRing(order)
    ensures forall k :: 0 <= k < |order| ==> 1 <= order[k] <= |order|
    ensures forall l :: 1 <= l <= |order| ==> l in order
    ensures Distinct(order)
  {
    var n := |order|;
    forall k | 0 <= k < n ensures 1 <= order[k] <= n {
      RangeCount(1, n + 1, order[k]);
      assert order[k] in multiset(order);
    }
    forall l | 1 <= l <= n ensures l in order {
      RangeCount(1, n + 1, l);
      assert l in multiset(order);
    }
    forall i, j | 0 <= i < j < n ensures order[i] != order[j] {
      if order[i] == order[j] {
        TwiceCounted(order, i, j);
        RangeCount(1, n + 1, order[i]);
        assert false;
      }
    }
  }

  /** Successor links that walk the ring: each cup points at the next one
      and the last points back at the first. */
  predicate Linked(succ: seq<nat>, order: seq<nat>) {
    && |order| >= 1
    && (forall k :: 0 <= k < |order| ==> order[k] < |succ|)
    && (forall k :: 0 <= k < |order| - 1 ==> succ[order[k]] == order[k + 1])
    && succ[order[|order| - 1]] == order[0]
  }

  function IndexOf(s: seq<nat>, x: nat): (k: nat)
    requires x in s
    ensures k < |s| && s[k] == x && x !in s[..k]
  {
    if s[0] == x then 0
    else
      assert x in s[1..] by {
        var j :| 0 <= j < |s| && s[j] == x;
        assert s[1..][j - 1] == x;
      }
      var k := 1 + IndexOf(s[1..], x);
      assert s[..k] == [s[0]] + s[1..][..k - 1];
      k
  }

  // ---------------------------------------------------------------------
  // The destination cup

  /** The label below `c`, wrapping from 1 to the largest label `n`. */
  function Prev(c: nat, n: nat): (p: nat)
    ensures 1 <= c <= n ==> 1 <= p <= n
  {
    if c <= 1 then n else c - 1
  }

  /** The first label not among `picked` on the way down from `d`,
      looking at no more than `fuel` further labels. */
  function DestFrom(d: nat, n: nat, picked: seq<nat>, fuel: nat): (r: nat)
    ensures 1 <= d <= n ==> 1 <= r <= n
    decreases fuel
  {
    if fuel == 0 || d !in picked then d else DestFrom(Prev(d, n), n, picked, fuel - 1)
  }

  /** The destination of a round: the label below the current cup,
      wrapping round, skipping the three picked-up cups. */
  function Destination(c: nat, n: nat, picked: seq<nat>): (d: nat)
    ensures 1 <= c <= n ==> 1 <= d <= n
  {
    DestFrom(Prev(c, n), n, picked, 3)
  }

  /** The destination is never a picked-up cup nor the current cup: with
      at least five cups, the four labels below the current one differ from
      each other and from it, so three picked-up cups cannot cover them all. */
  lemma DestinationValid(c: nat, n: nat, picked: seq<nat>)
    requires 5 <= n && 1 <= c <= n && |picked| == 3 && Distinct(picked) && c !in picked
    ensures Destination(c, n, picked) !in picked && Destination(c, n, picked) != c
  {
    var d1 := Prev(c, n);
    var d2 := Prev(d1, n);
    var d3 := Prev(d2, n);
    var d4 := Prev(d3, n);
    assert d1 != c && d2 != c && d3 != c && d4 != c;
    assert d1 != d2 && d1 != d3 && d1 != d4 && d2 != d3 && d2 != d4 && d3 != d4;
    var a, b, e := picked[0], picked[1], picked[2];
    assert picked == [a, b, e];
    assert Destination(c, n, picked) ==
      if d1 !in picked then d1 else if d2 !in picked then d2 else if d3 !in picked then d3 else d4;
  }

  /** With four cups the three picked-up cups are all the others, so the
      search steps past each of them and comes back to the current cup. */
  lemma DestinationFour(c: nat, picked: seq<nat>)
    requires 1 <= c <= 4 && |picked| == 3 && Distinct(picked) && c !in picked
    requires forall k :: 0 <= k < 3 ==> 1 <= picked[k] <= 4
    ensures Destination(c, 4, picked) == c
  {
    var a, b, e := picked[0], picked[1], picked[2];
    assert picked == [a, b, e];
    var d1 := Prev(c, 4);
    var d2 := Prev(d1, 4);
    var d3 := Prev(d2, 4);
    assert d1 in picked && d2 in picked && d3 in picked;
    assert Prev(d3, 4) == c;
  }

  /** The search for the destination in `play_round`: step down from the
      current cup, wrapping from 1 to the highest label, while the label is
      a picked-up cup. */
  method FindDestination(current: nat, n: nat, p1: nat, p2: nat, p3: nat) returns (dest: nat)
    requires 4 <= n && 1 <= current <= n && Distinct([p1, p2, p3]) && current !in [p1, p2, p3]
    requires 1 <= p1 <= n && 1 <= p2 <= n && 1 <= p3 <= n
    ensures dest == Destination(current, n, [p1, p2, p3])
    ensures 1 <= dest <= n && dest != p1 && dest != p2 && dest != p3
    ensures dest == current <==> n == 4
  {
    ghost var picked := [p1, p2, p3];
    if n == 4 {
      DestinationFour(current, picked);
    } else {
      DestinationValid(current, n, picked);
    }
    dest := if current == 1 then n else current - 1;
    ghost var fuel: nat := 3;
    while dest == p1 || dest == p2 || dest == p3
      invariant 1 <= dest <= n && fuel <= 3
      invariant DestFrom(dest, n, picked, fuel) == Destination(current, n, picked)
      invariant fuel == 0 ==> dest !in picked
      decreases fuel
    {
      dest := if dest == 1 then n else dest - 1;
      fuel := fuel - 1;
    }
  }

  // ---------------------------------------------------------------------
  // One round on the circle order

  /** The destination of a round is one of the cups the round does not
      pick up. */
  lemma DestinationInRest(order: seq<nat>)
    requires IsRing(order) && |order| >= 5
    ensures Destination(order[0], |order|, order[1..4]) in order[4..]
  {
    RingFacts(order);
    var n, c, picked := |order|, order[0], order[1..4];
    assert Distinct(picked) by {
      forall i, j | 0 <= i < j < 3 ensures picked[i] != picked[j] {
        assert picked[i] == order[i + 1] && picked[j] == order[j + 1];
      }
    }
    assert c !in picked;
    DestinationValid(c, n, picked);
    var d := Destination(c, n, picked);
    assert d in order;
    var k :| 0 <= k < n && order[k] == d;
    assert k >= 4 && order[4..][k - 4] == d;
  }

  /** Moving the three cups after the current one elsewhere keeps every
      cup in the circle exactly once. */
  lemma SpliceKeepsRing(order: seq<nat>, i: nat)
    requires IsRing(order) && |order| >= 5 && i < |order| - 4
    ensures IsRing(SpliceAt(order, i))
  {
    var rest, picked := order[4..], order[1..4];
    var front, back := rest[..i + 1], rest[i + 1..];
    assert rest == front + back;
    assert order == [order[0]] + picked + (front + back);
    var r := SpliceAt(order, i);
    SwapPieces([order[0]], picked, front, back);
    PermutedRing(order, r);
  }

  /** Moving the first piece to the end and the second past the third
      keeps the multiset. */
  lemma SwapPieces(a: seq<nat>, b: seq<nat>, c: seq<nat>, d: seq<nat>)
    ensures multiset(a + b + (c + d)) == multiset(c + b + d + a)
  {
    calc {
      multiset(a + b + (c + d));
      multiset(a) + multiset(b) + (multiset(c) + multiset(d));
      multiset(c) + multiset(b) + multiset(d) + multiset(a);
      multiset(c + b + d + a);
    }
  }

  /** A rearrangement of a ring is a ring. */
  lemma PermutedRing(order: seq<nat>, r: seq<nat>)
    requires IsRing(order) && multiset(r) == multiset(order)
    ensures IsRing(r)
  {
    assert |r| == |multiset(r)| == |order|;
  }

  /** A round, on the circle read from the current cup `c`: the three cups
      after `c` move to just after the destination, and the circle is then
      read from the cup that now follows `c`. With four cups the destination
      is `c` itself, the circle does not change and the first picked-up cup
      becomes current. */
  function Round(order: seq<nat>): (r: seq<nat>)
    requires IsRing(order) && |order| >= 4
    ensures IsRing(r) && |r| == |order|
    ensures r[0] == if |order| == 4 then order[1] else order[4]
  {
    if |order| == 4 then
      var r := order[1..] + [order[0]];
      assert order == [order[0]] + order[1..];
      PermutedRing(order, r);
      r
    else
    DestinationInRest(order);
    var rest := order[4..];
    var i := IndexOf(rest, Destination(order[0], |order|, order[1..4]));
    SpliceKeepsRing(order, i);
    SpliceAt(order, i)
  }

  /** The circle read from the cup after the current one, once the three
      picked-up cups sit after the `i`-th cup of the rest. */
  function SpliceAt(order: seq<nat>, i: nat): (r: seq<nat>)
    requires |order| >= 5 && i < |order| - 4
    ensures |r| == |order|
  {
    var rest := order[4..];
    rest[..i + 1] + order[1..4] + rest[i + 1..] + [order[0]]
  }

  /** Where the `k`-th cup of `SpliceAt(order, i)` stood in `order`. */
  function SpliceSource(n: nat, i: nat, k: nat): nat {
    if k <= i then 4 + k
    else if k <= i + 3 then k - i
    else if k < n - 1 then k + 1
    else 0
  }

  /** Rounds played one after another. */
  function Rounds(order: seq<nat>, k: nat): (r: seq<nat>)
    requires IsRing(order) && |order| >= 4
    ensures IsRing(r) && |r| == |order|
  {
    if k == 0 then order else Round(Rounds(order, k - 1))
  }

  /** The labels clockwise of cup 1, as `get_string_representation` lists them. */
  function AfterOne(order: seq<nat>): (s: seq<nat>)
    requires 1 in order
    ensures |s| == |order| - 1
  {
    var j := IndexOf(order, 1);
    order[j + 1..] + order[..j]
  }

  // ---------------------------------------------------------------------
  // The successor array

  /** The links after a round, written as `play_round` writes them. */
  function Spliced(succ: seq<nat>, c: nat, d: nat, p1: nat, p2: nat, p3: nat): (s: seq<nat>)
    requires c < |succ| && d < |succ| && p1 < |succ| && p2 < |succ| && p3 < |succ|
    ensures |s| == |succ|
  {
    var skipped := succ[c := succ[p3]];
    skipped[d := p1][p1 := p2][p2 := p3][p3 := skipped[d]]
  }

  /** Where each cup of the circle ends up after a round that puts the
      picked-up cups after the `i`-th cup of the rest. */
  lemma SpliceIndex(order: seq<nat>, i: nat, k: nat)
    requires |order| >= 5 && i < |order| - 4 && k < |order|
    ensures SpliceSource(|order|, i, k) < |order|
    ensures SpliceAt(order, i)[k] == order[SpliceSource(|order|, i, k)]
  {
  }

  /** The links written by a round walk the circle that `Round` describes. */
  lemma RoundLinked(order: seq<nat>, succ: seq<nat>)
    requires IsRing(order) && |order| >= 5 && Linked(succ, order) && |succ| == |order| + 1
    ensures var d := Destination(order[0], |order|, order[1..4]);
      d < |succ| &&
      Linked(Spliced(succ, order[0], d, order[1], order[2], order[3]), Round(order))
  {
    RingFacts(order);
    DestinationInRest(order);
    var n, c, rest := |order|, order[0], order[4..];
    var d := Destination(c, n, order[1..4]);
    var i := IndexOf(rest, d);
    assert d == order[4 + i];
    var r := SpliceAt(order, i);
    var s := Spliced(succ, c, d, order[1], order[2], order[3]);
    forall k | 0 <= k < n ensures r[k] < |s| {
      SpliceIndex(order, i, k);
      var m := SpliceSource(n, i, k);
      assert order[m] < |succ|;
    }
    forall k | 0 <= k < n - 1 ensures s[r[k]] == r[k + 1] {
      SplicedStep(order, succ, i, k);
    }
    SpliceIndex(order, i, n - 1);
    assert SpliceSource(n, i, n - 1) == 0;
    SpliceIndex(order, i, 0);
    assert SpliceSource(n, i, 0) == 4;
    assert c != d && c != order[1] && c != order[2] && c != order[3];
    assert s[c] == succ[order[3]] == order[4];
    assert Linked(s, r);
    assert Round(order) == r;
  }

  /** The state of a game: the successor array `links` walks the circle
      `order`, which starts at the current cup. */
  ghost predicate GameState(links: seq<nat>, current: nat, order: seq<nat>) {
    && IsRing(order) && |order| >= 4
    && |links| == |order| + 1
    && order[0] == current
    && Linked(links, order)
  }

  /** A round written into the links keeps the game state, with the cup
      after the three picked-up ones as the new current cup. */
  lemma RoundKeepsState(order: seq<nat>, succ: seq<nat>, current: nat)
    requires GameState(succ, current, order)
    ensures current < |succ| && succ[current] < |succ| && succ[succ[current]] < |succ|
    ensures var p1 := succ[current];
      var p2 := succ[p1];
      var p3 := succ[p2];
      && 4 <= |succ| - 1 && 1 <= current <= |succ| - 1 && p3 < |succ|
      && 1 <= p1 <= |succ| - 1 && 1 <= p2 <= |succ| - 1 && 1 <= p3 <= |succ| - 1
      && Distinct([p1, p2, p3]) && current !in [p1, p2, p3]
      && var d := Destination(current, |succ| - 1, [p1, p2, p3]);
      var s := Spliced(succ, current, d, p1, p2, p3);
      d < |succ| && s[current] == Round(order)[0] && GameState(s, Round(order)[0], Round(order))
  {
    RoundSetup(order, succ);
    var p1, p2, p3 := order[1], order[2], order[3];
    assert order[1..4] == [p1, p2, p3];
    var d := Destination(current, |succ| - 1, [p1, p2, p3]);
    var s := Spliced(succ, current, d, p1, p2, p3);
    var r := Round(order);
    if |order| == 4 {
      RoundFour(order, succ);
      assert s == succ && s[current] == r[0];
    } else {
      RoundLinked(order, succ);
      assert s[current] == succ[p3] == r[0];
    }
    assert GameState(s, r[0], r);
  }

  /** With four cups a round writes back the links it read: the circle is
      unchanged and is read from the first picked-up cup. */
  lemma RoundFour(order: seq<nat>, succ: seq<nat>)
    requires IsRing(order) && |order| == 4 && Linked(succ, order) && |succ| == 5
    ensures Destination(order[0], 4, order[1..4]) == order[0]
    ensures Spliced(succ, order[0], order[0], order[1], order[2], order[3]) == succ
    ensures Linked(succ, Round(order))
  {
    RoundSetup(order, succ);
    var c, a, b, e := order[0], order[1], order[2], order[3];
    assert Destination(c, 4, order[1..4]) == c by {
      assert order[1..4] == [a, b, e];
      DestinationFour(c, order[1..4]);
    }
    SplicedUnchanged(succ, c, a, b, e);
    assert Round(order) == order[1..] + [order[0]];
    LinkedRotate(succ, order);
  }

  /** The links of a circle also walk it read from its second cup. */
  lemma LinkedRotate(succ: seq<nat>, order: seq<nat>)
    requires Linked(succ, order)
    ensures Linked(succ, order[1..] + [order[0]])
  {
    var r := order[1..] + [order[0]];
    forall k | 0 <= k < |r| - 1 ensures succ[r[k]] == r[k + 1] {
      if k < |order| - 2 {
        assert r[k] == order[k + 1] && r[k + 1] == order[k + 2];
      } else {
        assert r[k] == order[|order| - 1] && r[k + 1] == order[0];
      }
    }
  }


  /** Writing back the links a four-cup circle already has changes nothing. */
  lemma SplicedUnchanged(succ: seq<nat>, c: nat, a: nat, b: nat, e: nat)
    requires c < |succ| && a < |succ| && b < |succ| && e < |succ|
    requires succ[c] == a && succ[a] == b && succ[b] == e && succ[e] == c
    ensures Spliced(succ, c, c, a, b, e) == succ
  {
    assert succ[c := succ[e]][c := a] == succ;
  }

  /** One link of the spliced array: the `k`-th cup of the new circle
      points at the `k+1`-th. */
  lemma SplicedStep(order: seq<nat>, succ: seq<nat>, i: nat, k: nat)
    requires Distinct(order) && |order| >= 5 && Linked(succ, order) && |succ| == |order| + 1
    requires i < |order| - 4 && k < |order| - 1
    ensures var r := SpliceAt(order, i);
      var s := Spliced(succ, order[0], order[4 + i], order[1], order[2], order[3]);
      r[k] < |s| && s[r[k]] == r[k + 1]
  {
    var n := |order|;
    var r := SpliceAt(order, i);
    var s := Spliced(succ, order[0], order[4 + i], order[1], order[2], order[3]);
    SpliceIndex(order, i, k);
    SpliceIndex(order, i, k + 1);
    var m := SpliceSource(n, i, k);
    assert r[k] == order[m];
    if m != 0 && m != 4 + i && m != 1 && m != 2 && m != 3 {
      assert s[order[m]] == succ[order[m]];
    } else if m == 4 + i {
      assert s[order[m]] == order[1];
    } else if m == 1 {
      assert s[order[m]] == order[2];
    } else if m == 2 {
      assert s[order[m]] == order[3];
    } else {
      assert m == 3;
      assert s[order[m]] == succ[order[4 + i]];
    }
  }

  /** What a round relies on: the current cup and the three after it are
      four different labels, linked one to the next. */
  lemma RoundSetup(order: seq<nat>, succ: seq<nat>)
    requires IsRing(order) && |order| >= 4 && Linked(succ, order)
    ensures 1 <= order[0] <= |order| && Distinct(order[1..4]) && order[0] !in order[1..4]
    ensures forall k :: 0 <= k < 4 ==> 1 <= order[k] <= |order| && order[k] < |succ|
    ensures succ[order[0]] == order[1] && succ[order[1]] == order[2]
    ensures succ[order[2]] == order[3]
    ensures succ[order[3]] == if |order| == 4 then order[0] else order[4]
  {
    RingFacts(order);
    var picked := order[1..4];
    forall i, j | 0 <= i < j < 3 ensures picked[i] != picked[j] {
      assert picked[i] == order[i + 1] && picked[j] == order[j + 1];
    }
  }

  /** Walking the links from cup 1 lists the circle after cup 1. */
  lemma AfterOneLinked(order: seq<nat>, succ: seq<nat>, k: nat)
    requires IsRing(order) && |order| >= 2 && Linked(succ, order)
    requires k < |order| - 1
    ensures 1 in order && 1 < |succ|
    ensures var t := AfterOne(order) + [1];
      (k == 0 ==> succ[1] == t[0]) &&
      t[k] < |succ| && succ[t[k]] == t[k + 1] && t[k] != 1
  {
    RingFacts(order);
    var n := |order|;
    var j := IndexOf(order, 1);
    var t := AfterOne(order) + [1];
    assert t == order[j + 1..] + order[..j] + [order[j]];
    if j < n - 1 {
      assert succ[1] == order[j + 1];
    } else {
      assert succ[1] == order[0];
    }
    if j + 1 + k < n - 1 {
      assert t[k] == order[j + 1 + k] && t[k + 1] == order[j + 2 + k];
    } else if j + 1 + k == n - 1 {
      assert t[k] == order[n - 1] && t[k + 1] == order[0];
    } else {
      assert t[k] == order[j + 1 + k - n] && t[k + 1] == order[j + 2 + k - n];
    }
  }

  /** Walking the links from cup 1 visits the circle after cup 1 and then
      cup 1 itself, which it meets nowhere earlier. */
  lemma AfterOneWalk(order: seq<nat>, succ: seq<nat>)
    requires IsRing(order) && |order| >= 2 && Linked(succ, order)
    ensures 1 in order && 1 < |succ|
    ensures var t := AfterOne(order) + [1];
      && succ[1] == t[0] && t[|t| - 1] == 1
      && forall k :: 0 <= k < |t| - 1 ==> t[k] < |succ| && succ[t[k]] == t[k + 1] && t[k] != 1
  {
    AfterOneLinked(order, succ, 0);
    var t := AfterOne(order) + [1];
    forall k | 0 <= k < |t| - 1 ensures t[k] < |succ| && succ[t[k]] == t[k + 1] && t[k] != 1 {
      AfterOneLinked(order, succ, k);
    }
  }

  /** `to_linked_vec`: the successor array of the cups in input order, the
      last one linked back to the first. */
  method ToLinked(labels: seq<nat>) returns (a: array<nat>)
    requires IsRing(labels)
    ensures fresh(a) && a.Length == |labels| + 1
    ensures |labels| >= 1 ==> Linked(a[..], labels)
  {
    RingFacts(labels);
    a := new nat[|labels| + 1](_ => 0);
    if |labels| == 0 {
      // The source indexes the last cup of an empty list and panics.
      return;
    }
    var k := 0;
    while k < |labels| - 1
      invariant 0 <= k <= |labels| - 1
      invariant forall j :: 0 <= j < k ==> a[labels[j]] == labels[j + 1]
    {
      a[labels[k]] := labels[k + 1];
      k := k + 1;
    }
    a[labels[|labels| - 1]] := labels[0];
  }

  /** The labels for part two: the input followed by every label from
      one more than its largest up to `total`. */
  function Padded(labels: seq<nat>, total: nat): (r: seq<nat>)
    requires IsRing(labels) && |labels| >= 1 && |labels| <= total
    ensures IsRing(r) && |r| == total && r[..|labels|] == labels
  {
    var tail := Range(|labels| + 1, total + 1);
    var r := labels + tail;
    RangeAppend(1, |labels| + 1, total + 1);
    SameMultisetAppend(labels, Range(1, |labels| + 1), tail, Range(1, total + 1));
    assert |tail| == total - |labels|;
    RingOfLength(r, total);
    assert r[..|labels|] == labels;
    r
  }

  lemma RingOfLength(r: seq<nat>, n: nat)
    requires |r| == n && multiset(r) == multiset(Range(1, n + 1))
    ensures IsRing(r)
  {
  }

  /** Appending the same tail to two sequences with equal multisets. */
  lemma SameMultisetAppend(a: seq<nat>, b: seq<nat>, tail: seq<nat>, full: seq<nat>)
    requires multiset(a) == multiset(b) && b + tail == full
    ensures multiset(a + tail) == multiset(full)
  {
    assert multiset(a + tail) == multiset(a) + multiset(tail);
    assert multiset(b + tail) == multiset(b) + multiset(tail);
  }

  // ---------------------------------------------------------------------
  // The game

  /** The current cup and the two cups after it are valid link indices. */
  lemma PickedInRange(order: seq<nat>, succ: seq<nat>, current: nat)
    requires GameState(succ, current, order)
    ensures current < |succ| && succ[current] < |succ| && succ[succ[current]] < |succ|
  {
    RoundKeepsState(order, succ, current);
  }

  /** The three cups after the current one, as `play_round` picks them up,
      are valid labels distinct from each other and from the current cup. */
  lemma RoundPicked(order: seq<nat>, succ: seq<nat>, current: nat, p1: nat, p2: nat, p3: nat)
    requires GameState(succ, current, order)
    requires current < |succ| && p1 == succ[current]
    requires p1 < |succ| && p2 == succ[p1] && p2 < |succ| && p3 == succ[p2]
    ensures 4 <= |succ| - 1 && 1 <= current <= |succ| - 1
    ensures 1 <= p1 <= |succ| - 1 && 1 <= p2 <= |succ| - 1 && 1 <= p3 <= |succ| - 1
    ensures Distinct([p1, p2, p3]) && current !in [p1, p2, p3]
  {
    RoundKeepsState(order, succ, current);
  }

  /** Splicing the picked-up cups after the destination writes the next
      round into the links. */
  lemma RoundApplied(order: seq<nat>, succ: seq<nat>, current: nat, p1: nat, p2: nat, p3: nat, d: nat)
    requires GameState(succ, current, order)
    requires current < |succ| && p1 == succ[current]
    requires p1 < |succ| && p2 == succ[p1] && p2 < |succ| && p3 == succ[p2]
    requires d == Destination(current, |succ| - 1, [p1, p2, p3])
    ensures d < |succ| && p3 < |succ|
    ensures var s := Spliced(succ, current, d, p1, p2, p3);
      s[current] == Round(order)[0] && GameState(s, Round(order)[0], Round(order))
  {
    RoundKeepsState(order, succ, current);
  }

  /** The body of `play_round` on the links alone: picks up the three cups
      after `current`, splices them in after the destination and answers
      the cup that follows `current` afterwards. */
  method SpliceRound(cups: array<nat>, current: nat, ghost order: seq<nat>) returns (next: nat)
    requires GameState(cups[..], current, order)
    modifies cups
    ensures next == Round(order)[0] && GameState(cups[..], next, Round(order))
  {
    ghost var succ := cups[..];
    PickedInRange(order, succ, current);
    var picked1 := cups[current];
    var picked2 := cups[picked1];
    var picked3 := cups[picked2];
    RoundPicked(order, succ, current, picked1, picked2, picked3);
    var dest := FindDestination(current, cups.Length - 1, picked1, picked2, picked3);
    RoundApplied(order, succ, current, picked1, picked2, picked3, dest);
    ghost var s := Spliced(succ, current, dest, picked1, picked2, picked3);
    Relink(cups, current, dest, picked1, picked2, picked3);
    assert cups[..] == s;
    next := cups[current];
  }

  /** The five writes of `play_round`: the current cup skips the three
      picked-up cups, which go between the destination and its old
      successor. */
  method Relink(cups: array<nat>, c: nat, d: nat, p1: nat, p2: nat, p3: nat)
    requires c < cups.Length && d < cups.Length
    requires p1 < cups.Length && p2 < cups.Length && p3 < cups.Length
    modifies cups
    ensures cups[..] == Spliced(old(cups[..]), c, d, p1, p2, p3)
  {
    ghost var succ := cups[..];
    cups[c] := cups[p3];
    ghost var s1 := succ[c := succ[p3]];
    assert cups[..] == s1;
    var postDest := cups[d];
    cups[d] := p1;
    assert cups[..] == s1[d := p1];
    cups[p1] := p2;
    assert cups[..] == s1[d := p1][p1 := p2];
    cups[p2] := p3;
    assert cups[..] == s1[d := p1][p1 := p2][p2 := p3];
    cups[p3] := postDest;
    assert cups[..] == s1[d := p1][p1 := p2][p2 := p3][p3 := s1[d]];
  }

  lemma ProductNonNegative(a: nat, b: nat)
    ensures a * b >= 0
  {
  }

  class Game {
    var cups: array<nat>
    var currentCup: nat
    /** The circle read clockwise from the current cup. */
    ghost var order: seq<nat>

    ghost predicate Valid()
      reads this, cups
    {
      GameState(cups[..], currentCup, order)
    }

    /** `Game::new`, from the labels of the input in order. */
    constructor (labels: seq<nat>)
      requires IsRing(labels) && |labels| >= 4
      ensures Valid() && order == labels && fresh(cups)
    {
      var linked := ToLinked(labels);
      cups := linked;
      currentCup := labels[0];
      order := labels;
    }

    /** `play_round`: moves the three cups after the current one to just
        after the destination, and makes the next cup current. */
    method PlayRound()
      requires Valid()
      modifies this, cups
      ensures Valid() && cups == old(cups)
      ensures order == Round(old(order))
      ensures currentCup == if |old(order)| == 4 then old(order)[1] else old(order)[4]
    {
      ghost var o := order;
      var next := SpliceRound(cups, currentCup, o);
      currentCup := next;
      order := Round(o);
    }

    /** `play_game`: plays the given number of rounds. */
    method PlayGame(rounds: nat)
      requires Valid()
      modifies this, cups
      ensures Valid() && cups == old(cups)
      ensures order == Rounds(old(order), rounds)
    {
      ghost var o := order;
      assert IsRing(o) && |o| >= 4;
      var k := 0;
      while k < rounds
        invariant 0 <= k <= rounds
        invariant Valid() && cups == old(cups)
        invariant order == Rounds(o, k)
      {
        assert Rounds(o, k + 1) == Round(order);
        PlayRound();
        k := k + 1;
      }
    }

    /** `get_string_representation`: the labels clockwise after cup 1. */
    method AfterCupOne() returns (s: seq<nat>)
      requires Valid()
      ensures 1 in order && s == AfterOne(order)
    {
      ghost var succ := cups[..];
      ghost var o := order;
      AfterOneWalk(o, succ);
      ghost var t := AfterOne(o) + [1];
      s := [];
      var i := cups[1];
      while i != 1
        invariant |s| < |t| && s == t[..|s|] && i == t[|s|]
        decreases |t| - |s|
      {
        assert |s| < |t| - 1 && cups[i] == succ[t[|s|]];
        s := s + [i];
        i := cups[i];
      }
    }

    /** `get_score`: the product of the two labels clockwise after cup 1. */
    method Score() returns (r: nat)
      requires Valid()
      ensures 1 in order && |AfterOne(order)| >= 2
      ensures r == AfterOne(order)[0] * AfterOne(order)[1]
    {
      ghost var succ := cups[..];
      AfterOneLinked(order, succ, 0);
      ghost var t := AfterOne(order) + [1];
      AfterOneLinked(order, succ, 1);
      var el1 := cups[1];
      assert el1 == t[0];
      var el2 := cups[el1];
      assert el2 == succ[t[0]] == t[1];
      ProductNonNegative(el1, el2);
      r := el1 * el2;
    }
  }
}
