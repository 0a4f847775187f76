/** Snailfish numbers (2021 day 18): binary trees of digits that are
    added by pairing two trees and then reduced by repeated explosions and
    splits, and measured by their magnitude. */
module Snailfish {
  import opened Wrappers
  import opened SeqFolds

  /** A snailfish number: a regular number or a pair of snailfish numbers. */
  datatype Element = Value(n: nat) | Pair(l: Element, r: Element)

  /** What an explosion below a node hands back to its ancestors: the
      numbers still to be added to the left and right neighbours, and
      whether a pair exploded at all. */
  datatype Exploded = Exploded(tree: Element, lAdd: Option<nat>, rAdd: Option<nat>, exploded: bool)

  // ---------------------------------------------------------------------
  // Views used by the specifications

  /** The regular numbers of a tree, left to right. */
  function Leaves(e: Element): (s: seq<nat>)
    ensures |s| >= 1
  {
    match e
    case Value(n) => [n]
    case Pair(l, r) => Leaves(l) + Leaves(r)
  }

  /** The tree with every regular number replaced by 0: its pair structure. */
  function Shape(e: Element): Element {
    match e
    case Value(_) => Value(0)
    case Pair(l, r) => Pair(Shape(l), Shape(r))
  }

  function Val(o: Option<nat>): nat {
    if o.Some? then o.value else 0
  }

  /** Some pair of `e` is nested inside at least four pairs, counting the
      `depth` pairs that enclose `e`. */
  predicate HasDeepPair(e: Element, depth: nat) {
    match e
    case Value(_) => false
    case Pair(l, r) => depth >= 4 || HasDeepPair(l, depth + 1) || HasDeepPair(r, depth + 1)
  }

  /** Every pair nested inside four or more pairs holds two regular
      numbers: the trees on which an explosion never reaches its
      `unreachable!` case. */
  predicate WellNested(e: Element, depth: nat) {
    match e
    case Value(_) => true
    case Pair(l, r) =>
      if depth >= 4 then l.Value? && r.Value?
      else WellNested(l, depth + 1) && WellNested(r, depth + 1)
  }

  /** Every regular number is a single digit. */
  predicate AllSmall(e: Element) {
    forall k :: 0 <= k < |Leaves(e)| ==> Leaves(e)[k] < 10
  }

  /** A number that neither explodes nor splits. */
  predicate Reduced(e: Element) {
    !HasDeepPair(e, 0) && AllSmall(e)
  }

  /** The position of the first number of at least 10, or |s| if none. */
  function FirstBig(s: seq<nat>): (k: nat)
    ensures k <= |s| && (k < |s| ==> s[k] >= 10)
    ensures forall j :: 0 <= j < k ==> s[j] < 10
  {
    if s == [] then 0 else if s[0] >= 10 then 0 else 1 + FirstBig(s[1..])
  }

  // ---------------------------------------------------------------------
  // Adding an exploded number to the nearest regular number

  /** `add_left`: adds `v` to the leftmost regular number. */
  function AddLeft(e: Element, v: Option<nat>): Element {
    if v.None? then e
    else
      match e
      case Value(n) => Value(n + v.value)
      case Pair(l, r) => Pair(AddLeft(l, v), r)
  }

  /** `add_right`: adds `v` to the rightmost regular number. */
  function AddRight(e: Element, v: Option<nat>): Element {
    if v.None? then e
    else
      match e
      case Value(n) => Value(n + v.value)
      case Pair(l, r) => Pair(l, AddRight(r, v))
  }

  /** Adding to the left changes the leftmost regular number only, and
      adding nothing changes nothing. */
  lemma {:induction false} AddLeftLeaves(e: Element, v: Option<nat>)
    ensures v.None? ==> AddLeft(e, v) == e
    ensures Shape(AddLeft(e, v)) == Shape(e)
    ensures Leaves(AddLeft(e, v)) == [Leaves(e)[0] + Val(v)] + Leaves(e)[1..]
  {
    if v.None? {
      assert AddLeft(e, v) == e;
    } else if e.Value? {
      assert Leaves(AddLeft(e, v)) == [e.n + v.value];
    } else {
      AddLeftLeaves(e.l, v);
      var a, b := Leaves(e.l), Leaves(e.r);
      assert AddLeft(e, v) == Pair(AddLeft(e.l, v), e.r);
      assert Leaves(AddLeft(e, v)) == Leaves(AddLeft(e.l, v)) + b;
      assert Leaves(e) == a + b;
      assert (a + b)[0] == a[0] && (a + b)[1..] == a[1..] + b;
    }
  }

  /** Adding to the right changes the rightmost regular number only, and
      adding nothing changes nothing. */
  lemma {:induction false} AddRightLeaves(e: Element, v: Option<nat>)
    ensures v.None? ==> AddRight(e, v) == e
    ensures Shape(AddRight(e, v)) == Shape(e)
    ensures Leaves(AddRight(e, v)) ==
              Leaves(e)[..|Leaves(e)| - 1] + [Leaves(e)[|Leaves(e)| - 1] + Val(v)]
  {
    if v.Some? && e.Pair? {
      AddRightLeaves(e.r, v);
      var a, b := Leaves(e.l), Leaves(e.r);
      assert Leaves(e) == a + b;
      assert Leaves(e)[..|a + b| - 1] == a + b[..|b| - 1];
    }
  }

  /** Whether a pair can explode depends only on the pair structure. */
  lemma {:induction false} ShapeNesting(a: Element, b: Element, depth: nat)
    requires Shape(a) == Shape(b)
    ensures HasDeepPair(a, depth) == HasDeepPair(b, depth)
    ensures WellNested(a, depth) == WellNested(b, depth)
  {
    if a.Pair? {
      ShapeNesting(a.l, b.l, depth + 1);
      ShapeNesting(a.r, b.r, depth + 1);
    }
  }

  // ---------------------------------------------------------------------
  // Explode

  /** `explode`: the leftmost pair nested inside four pairs becomes 0 and
      its two numbers travel to the nearest regular numbers on either
      side; a number with no neighbour inside `e` is handed back. */
  function Explode(e: Element, depth: nat): Exploded
    requires WellNested(e, depth)
  {
    match e
    case Value(_) => Exploded(e, None, None, false)
    case Pair(l, r) =>
      if depth >= 4 then
        Exploded(Value(0), Some(l.n), Some(r.n), true)
      else
        var lres := Explode(l, depth + 1);
        if lres.exploded then
          Exploded(Pair(lres.tree, AddLeft(r, lres.rAdd)), lres.lAdd, None, true)
        else
          var rres := Explode(r, depth + 1);
          Exploded(Pair(AddRight(lres.tree, rres.lAdd), rres.tree), None, rres.rAdd, rres.exploded)
  }

  /** An explosion happens exactly when a pair is nested deep enough;
      when none is, nothing changes; when one does, one regular number fewer
      remains. Nesting stays well-formed either way. */
  lemma {:induction false} ExplodeShape(e: Element, depth: nat)
    requires WellNested(e, depth)
    ensures var x := Explode(e, depth);
      && (x.exploded <==> HasDeepPair(e, depth))
      && (!x.exploded ==> x.tree == e && x.lAdd.None? && x.rAdd.None?)
      && (x.exploded ==> |Leaves(x.tree)| + 1 == |Leaves(e)|)
      && WellNested(x.tree, depth)
  {
    if e.Pair? && depth < 4 {
      var l, r := e.l, e.r;
      ExplodeShape(l, depth + 1);
      var lres := Explode(l, depth + 1);
      if lres.exploded {
        AddLeftLeaves(r, lres.rAdd);
        ShapeNesting(AddLeft(r, lres.rAdd), r, depth + 1);
      } else {
        ExplodeShape(r, depth + 1);
        var rres := Explode(r, depth + 1);
        AddRightLeaves(l, rres.lAdd);
        ShapeNesting(AddRight(l, rres.lAdd), l, depth + 1);
      }
    }
  }

  /** An explosion creates no number: the numbers of the new tree and
      those handed back to the ancestors sum to the numbers of the old. */
  lemma {:induction false} ExplodeSum(e: Element, depth: nat)
    requires WellNested(e, depth)
    ensures var x := Explode(e, depth);
      Sum(Leaves(x.tree)) + Val(x.lAdd) + Val(x.rAdd) == Sum(Leaves(e))
  {
    match e
    case Value(_) =>
    case Pair(l, r) =>
      if depth >= 4 {
        SumAppend([l.n], [r.n]);
      } else {
        ExplodeSum(l, depth + 1);
        ExplodeShape(l, depth + 1);
        SumAppend(Leaves(l), Leaves(r));
        var lres := Explode(l, depth + 1);
        if lres.exploded {
          AddLeftSum(r, lres.rAdd);
          SumAppend(Leaves(lres.tree), Leaves(AddLeft(r, lres.rAdd)));
        } else {
          ExplodeSum(r, depth + 1);
          var rres := Explode(r, depth + 1);
          AddRightSum(l, rres.lAdd);
          SumAppend(Leaves(AddRight(l, rres.lAdd)), Leaves(rres.tree));
        }
      }
  }

  lemma AddLeftSum(e: Element, v: Option<nat>)
    ensures Sum(Leaves(AddLeft(e, v))) == Sum(Leaves(e)) + Val(v)
  {
    AddLeftLeaves(e, v);
    var s := Leaves(e);
    var first, rest := s[0], s[1..];
    assert s == [first] + rest;
    assert Leaves(AddLeft(e, v)) == [first + Val(v)] + rest;
    SumAppend([first], rest);
    SumAppend([first + Val(v)], rest);
    assert Sum([first]) == first && Sum([first + Val(v)]) == first + Val(v);
  }

  lemma AddRightSum(e: Element, v: Option<nat>)
    ensures Sum(Leaves(AddRight(e, v))) == Sum(Leaves(e)) + Val(v)
  {
    AddRightLeaves(e, v);
    var s := Leaves(e);
    var init, last := s[..|s| - 1], s[|s| - 1];
    assert s == init + [last];
    assert Leaves(AddRight(e, v)) == init + [last + Val(v)];
    SumAppend(init, [last]);
    SumAppend(init, [last + Val(v)]);
    assert Sum([last]) == last && Sum([last + Val(v)]) == last + Val(v);
  }

  // ---------------------------------------------------------------------
  // Split

  /** `split`: the leftmost regular number of at least 10 becomes a pair of
      its halves, rounded down and up; the flag says whether one did. */
  function Split(e: Element): (Element, bool) {
    match e
    case Value(n) =>
      if n >= 10 then (Pair(Value(n / 2), Value(n / 2 + n % 2)), true) else (e, false)
    case Pair(l, r) =>
      var ls := Split(l);
      if ls.1 then (Pair(ls.0, r), true)
      else
        var rs := Split(r);
        (Pair(ls.0, rs.0), rs.1)
  }

  /** A split happens exactly when some regular number is at least 10,
      and without one nothing changes. */
  lemma {:induction false} SplitFlag(e: Element)
    ensures Split(e).1 <==> FirstBig(Leaves(e)) < |Leaves(e)|
    ensures !Split(e).1 ==> Split(e).0 == e
  {
    if e.Pair? {
      SplitFlag(e.l);
      SplitFlag(e.r);
      FirstBigAppend(Leaves(e.l), Leaves(e.r));
    }
  }

  /** `s` with its `k`-th number `n` replaced by `n / 2` and
      `n / 2 + n % 2`. */
  function SplitAt(s: seq<nat>, k: nat): seq<nat>
    requires k < |s|
  {
    s[..k] + [s[k] / 2, s[k] / 2 + s[k] % 2] + s[k + 1..]
  }

  /** A split replaces the leftmost number of at least 10 by its two
      halves and leaves every other number where it was. */
  lemma {:induction false} SplitLeaves(e: Element)
    requires Split(e).1
    ensures FirstBig(Leaves(e)) < |Leaves(e)|
    ensures Leaves(Split(e).0) == SplitAt(Leaves(e), FirstBig(Leaves(e)))
  {
    if e.Pair? {
      var a, b := Leaves(e.l), Leaves(e.r);
      assert Leaves(e) == a + b;
      FirstBigAppend(a, b);
      SplitFlag(e.l);
      if Split(e.l).1 {
        SplitLeaves(e.l);
        assert Split(e).0 == Pair(Split(e.l).0, e.r);
        ReplaceInLeft(a, b, FirstBig(a));
      } else {
        SplitLeaves(e.r);
        assert Split(e).0 == Pair(e.l, Split(e.r).0);
        ReplaceInRight(a, b, FirstBig(b));
      }
    }
  }

  lemma ReplaceInLeft(a: seq<nat>, b: seq<nat>, k: nat)
    requires k < |a|
    ensures SplitAt(a, k) + b == SplitAt(a + b, k)
  {
    assert (a + b)[..k] == a[..k];
    assert (a + b)[k + 1..] == a[k + 1..] + b;
  }

  lemma ReplaceInRight(a: seq<nat>, b: seq<nat>, k: nat)
    requires k < |b|
    ensures a + SplitAt(b, k) == SplitAt(a + b, |a| + k)
  {
    assert (a + b)[..|a| + k] == a + b[..k];
    assert (a + b)[|a| + k + 1..] == b[k + 1..];
  }

  lemma {:induction false} FirstBigAppend(a: seq<nat>, b: seq<nat>)
    ensures FirstBig(a + b) == if FirstBig(a) < |a| then FirstBig(a) else |a| + FirstBig(b)
  {
    if a == [] {
      assert a + b == b;
    } else {
      assert (a + b)[1..] == a[1..] + b;
      FirstBigAppend(a[1..], b);
    }
  }

  /** A split keeps the sum of the regular numbers, and a split in a tree
      without deeply nested pairs keeps the nesting well-formed. */
  lemma {:induction false} SplitKeeps(e: Element, depth: nat)
    requires !HasDeepPair(e, depth)
    ensures WellNested(Split(e).0, depth)
    ensures Sum(Leaves(Split(e).0)) == Sum(Leaves(e))
  {
    match e
    case Value(n) =>
      if n >= 10 {
        SumAppend([n / 2], [n / 2 + n % 2]);
      }
    case Pair(l, r) =>
      SplitKeeps(l, depth + 1);
      SplitKeeps(r, depth + 1);
      NoDeepPairWellNested(r, depth + 1);
      SumAppend(Leaves(l), Leaves(r));
      SumAppend(Leaves(Split(l).0), Leaves(r));
      SumAppend(Leaves(Split(l).0), Leaves(Split(r).0));
  }

  lemma {:induction false} NoDeepPairWellNested(e: Element, depth: nat)
    requires !HasDeepPair(e, depth)
    ensures WellNested(e, depth)
  {
    if e.Pair? {
      NoDeepPairWellNested(e.l, depth + 1);
      NoDeepPairWellNested(e.r, depth + 1);
    }
  }

  // ---------------------------------------------------------------------
  // Reduce

  /** What `reduce` computes when it stops within `steps` explosions and
      splits; None when it has not stopped by then. */
  function ReduceSpec(e: Element, steps: nat): (r: Option<Element>)
    requires WellNested(e, 0)
    decreases steps
  {
    ExplodeShape(e, 0);
    var x := Explode(e, 0);
    if x.exploded then
      if steps == 0 then None else ReduceSpec(x.tree, steps - 1)
    else
      SplitKeeps(e, 0);
      if Split(e).1 then
        if steps == 0 then None else ReduceSpec(Split(e).0, steps - 1)
      else Some(e)
  }

  /** A number that `reduce` returns neither explodes nor splits. */
  lemma {:induction false} ReduceSpecReduced(e: Element, steps: nat)
    requires WellNested(e, 0) && ReduceSpec(e, steps).Some?
    ensures Reduced(ReduceSpec(e, steps).value)
    ensures Sum(Leaves(ReduceSpec(e, steps).value)) <= Sum(Leaves(e))
    decreases steps
  {
    ExplodeShape(e, 0);
    var x := Explode(e, 0);
    if x.exploded {
      ExplodeSum(e, 0);
      ReduceSpecReduced(x.tree, steps - 1);
    } else {
      SplitKeeps(e, 0);
      SplitFlag(e);
      if Split(e).1 {
        ReduceSpecReduced(Split(e).0, steps - 1);
      }
    }
  }

  /** `reduce`: explodes while a pair is nested too deep and otherwise
      splits, until neither applies. The source loops without bound; here
      the loop gives up (None) after `steps` actions. */
  method Reduce(e: Element, steps: nat) returns (r: Option<Element>)
    requires WellNested(e, 0)
    ensures r == ReduceSpec(e, steps)
    ensures r.Some? ==> Reduced(r.value)
  {
    var cur := e;
    var left := steps;
    while true
      invariant WellNested(cur, 0)
      invariant ReduceSpec(cur, left) == ReduceSpec(e, steps)
      decreases left
    {
      ExplodeShape(cur, 0);
      var x := Explode(cur, 0);
      if x.exploded {
        if left == 0 {
          r := None;
          return;
        }
        cur, left := x.tree, left - 1;
        continue;
      }
      SplitKeeps(cur, 0);
      var t, did := Split(cur).0, Split(cur).1;
      if did {
        if left == 0 {
          r := None;
          return;
        }
        cur, left := t, left - 1;
        continue;
      }
      r := Some(cur);
      ReduceSpecReduced(e, steps);
      return;
    }
  }

  /** Pairing two reduced numbers gives a number whose explosions never
      reach the `unreachable!` case. */
  lemma {:induction false} ReducedNests(e: Element, depth: nat)
    requires !HasDeepPair(e, depth)
    ensures WellNested(e, depth + 1)
  {
    if e.Pair? {
      ReducedNests(e.l, depth + 1);
      ReducedNests(e.r, depth + 1);
    }
  }

  /** Snailfish addition: the pair of the two numbers, reduced. */
  function AddSpec(a: Element, b: Element, steps: nat): (r: Option<Element>)
    requires WellNested(a, 1) && WellNested(b, 1)
    ensures r.Some? ==> Reduced(r.value)
  {
    if ReduceSpec(Pair(a, b), steps).Some? then
      ReduceSpecReduced(Pair(a, b), steps);
      ReduceSpec(Pair(a, b), steps)
    else None
  }

  // ---------------------------------------------------------------------
  // Magnitude

  /** `magnitude`: three times the left magnitude plus twice the right. */
  function Magnitude(e: Element): nat {
    match e
    case Value(n) => n
    case Pair(l, r) => 3 * Magnitude(l) + 2 * Magnitude(r)
  }

  /** The magnitude is at least the sum of the regular numbers, and is
      zero exactly when they all are. */
  lemma {:induction false} MagnitudeBounds(e: Element)
    ensures Magnitude(e) >= Sum(Leaves(e))
    ensures Magnitude(e) == 0 <==> Sum(Leaves(e)) == 0
  {
    if e.Pair? {
      MagnitudeBounds(e.l);
      MagnitudeBounds(e.r);
      SumAppend(Leaves(e.l), Leaves(e.r));
    }
  }

  // ---------------------------------------------------------------------
  // Part 1 and part 2

  /** The fold of snailfish addition over a list, left to right. */
  function SumAllSpec(acc: Element, xs: seq<Element>, steps: nat): (r: Option<Element>)
    requires WellNested(acc, 1) && forall k :: 0 <= k < |xs| ==> WellNested(xs[k], 1)
    decreases |xs|
  {
    if xs == [] then Some(acc)
    else
      match AddSpec(acc, xs[0], steps)
      case None => None
      case Some(s) =>
        ReducedNests(s, 0);
        SumAllSpec(s, xs[1..], steps)
  }

  /** `part1`: the magnitude of the sum of all the numbers; None for an
      empty list (where the source unwraps nothing) or when a reduction
      does not stop within `steps`. */
  method Part1(xs: seq<Element>, steps: nat) returns (r: Option<nat>)
    requires forall k :: 0 <= k < |xs| ==> WellNested(xs[k], 1)
    ensures xs == [] ==> r.None?
    ensures xs != [] ==> r == (match SumAllSpec(xs[0], xs[1..], steps)
                                case None => None
                                case Some(s) => Some(Magnitude(s)))
  {
    if xs == [] {
      return None;
    }
    var acc := xs[0];
    var i := 1;
    while i < |xs|
      invariant 1 <= i <= |xs|
      invariant WellNested(acc, 1)
      invariant SumAllSpec(xs[0], xs[1..], steps) == SumAllSpec(acc, xs[i..], steps)
    {
      assert xs[i..][0] == xs[i] && xs[i..][1..] == xs[i + 1..];
      var s := Reduce(Pair(acc, xs[i]), steps);
      if s.None? {
        return None;
      }
      ReducedNests(s.value, 0);
      acc, i := s.value, i + 1;
    }
    return Some(Magnitude(acc));
  }

  /** The magnitude of the sum of `xs[i]` and `xs[j]`. */
  function PairMagnitude(xs: seq<Element>, i: nat, j: nat, steps: nat): Option<nat>
    requires i < |xs| && j < |xs| && WellNested(xs[i], 1) && WellNested(xs[j], 1)
  {
    match AddSpec(xs[i], xs[j], steps)
    case None => None
    case Some(s) => Some(Magnitude(s))
  }

  /** `part2`: the largest magnitude of the sum of two different numbers
      of the list, in either order; None with fewer than two numbers or
      when some reduction does not stop within `steps`. */
  method Part2(xs: seq<Element>, steps: nat) returns (r: Option<nat>)
    requires forall k :: 0 <= k < |xs| ==> WellNested(xs[k], 1)
    ensures |xs| < 2 ==> r.None?
    ensures r.None? && |xs| >= 2 ==>
              exists i, j :: 0 <= i < |xs| && 0 <= j < |xs| && i != j && PairMagnitude(xs, i, j, steps).None?
    ensures r.Some? ==>
              (exists i, j :: 0 <= i < |xs| && 0 <= j < |xs| && i != j &&
                 PairMagnitude(xs, i, j, steps) == r) &&
              (forall i, j :: 0 <= i < |xs| && 0 <= j < |xs| && i != j ==>
                 PairMagnitude(xs, i, j, steps).Some? && PairMagnitude(xs, i, j, steps).value <= r.value)
  {
    var best: Option<nat> := None;
    var i := 0;
    while i < |xs|
      invariant 0 <= i <= |xs|
      invariant i == 0 ==> best.None?
      invariant i > 0 ==> (best.None? <==> |xs| < 2)
      invariant best.Some? ==>
                  (exists a, b :: 0 <= a < |xs| && 0 <= b < |xs| && a != b &&
                     PairMagnitude(xs, a, b, steps) == best) &&
                  (forall a, b :: 0 <= a < i && 0 <= b < |xs| && a != b ==>
                     PairMagnitude(xs, a, b, steps).Some? && PairMagnitude(xs, a, b, steps).value <= best.value)
    {
      var j := 0;
      var rowStart := best;
      while j < |xs|
        invariant 0 <= j <= |xs|
        invariant best.None? ==> rowStart.None? && j <= i + 1
        invariant |xs| < 2 ==> best == rowStart
        invariant best.Some? ==>
                    (exists a, b :: 0 <= a < |xs| && 0 <= b < |xs| && a != b &&
                       PairMagnitude(xs, a, b, steps) == best) &&
                    (forall a, b :: 0 <= a < i && 0 <= b < |xs| && a != b ==>
                       PairMagnitude(xs, a, b, steps).Some? && PairMagnitude(xs, a, b, steps).value <= best.value) &&
                    (forall b :: 0 <= b < j && b != i ==>
                       PairMagnitude(xs, i, b, steps).Some? && PairMagnitude(xs, i, b, steps).value <= best.value)
        invariant rowStart.Some? ==> best.Some? && best.value >= rowStart.value
      {
        if j != i {
          var s := Reduce(Pair(xs[i], xs[j]), steps);
          if s.None? {
            assert PairMagnitude(xs, i, j, steps).None?;
            return None;
          }
          var m := Magnitude(s.value);
          assert PairMagnitude(xs, i, j, steps) == Some(m);
          if best.None? || m > best.value {
            best := Some(m);
          }
        }
        j := j + 1;
      }
      i := i + 1;
    }
    return best;
  }

  // ---------------------------------------------------------------------
  // Parsing

  function DigitValue(c: char): Option<nat> {
    if '0' <= c <= '9' then Some(c as nat - '0' as nat) else None
  }

  /** Drops one character, as `next` on the character iterator; nothing
      happens at the end of the input. */
  function Skip(s: string): (t: string)
    ensures |t| <= |s|
  {
    if s == [] then s else s[1..]
  }

  /** `parse_element`: reads one number from the front of the input and
      returns it with the unread rest. The separators after the left part
      and after the right part are consumed without being looked at (the
      debug assertions are not part of a release build); None where the
      source panics: at the end of the input, and at a character that is
      neither `[` nor a digit where a number starts. */
  function ParseElement(s: string): (r: Option<(Element, string)>)
    ensures r.Some? ==> |r.value.1| < |s|
    decreases |s|
  {
    if s == [] then None
    else if s[0] == '[' then
      match ParseElement(s[1..])
      case None => None
      case Some((left, rest1)) =>
        match ParseElement(Skip(rest1))
        case None => None
        case Some((right, rest2)) => Some((Pair(left, right), Skip(rest2)))
    else
      match DigitValue(s[0])
      case None => None
      case Some(d) => Some((Value(d), s[1..]))
  }

  /** The written form of a number, as the puzzle input shows it. */
  function Show(e: Element): string
    requires AllSmall(e)
  {
    match e
    case Value(n) =>
      assert Leaves(e)[0] == n;
      [('0' as int + n) as char]
    case Pair(l, r) =>
      AllSmallPair(l, r);
      "[" + Show(l) + "," + Show(r) + "]"
  }

  lemma AllSmallPair(l: Element, r: Element)
    requires AllSmall(Pair(l, r))
    ensures AllSmall(l) && AllSmall(r)
  {
    var a, b := Leaves(l), Leaves(r);
    assert Leaves(Pair(l, r)) == a + b;
    forall k | 0 <= k < |a| ensures a[k] < 10 {
      assert (a + b)[k] == a[k];
    }
    forall k | 0 <= k < |b| ensures b[k] < 10 {
      assert (a + b)[|a| + k] == b[k];
    }
  }

  /** Parsing reads back exactly the number that was written, whatever
      follows it. */
  lemma {:induction false} ParseShow(e: Element, rest: string)
    requires AllSmall(e)
    ensures ParseElement(Show(e) + rest) == Some((e, rest))
  {
    match e
    case Value(n) =>
      assert Leaves(e)[0] == n;
      assert (Show(e) + rest)[1..] == rest;
    case Pair(l, r) =>
      AllSmallPair(l, r);
      var sl, sr := Show(l), Show(r);
      var rest1 := "," + sr + "]" + rest;
      var rest2 := "]" + rest;
      assert Show(e) + rest == "[" + (sl + rest1);
      assert (Show(e) + rest)[1..] == sl + rest1;
      ParseShow(l, rest1);
      assert Skip(rest1) == sr + rest2;
      ParseShow(r, rest2);
      assert Skip(rest2) == rest;
  }
}
