// Secret Entrance: a dial numbered 0 to 99, turned left or right by a list
// of rotations. Part 1 counts the rotations that leave the dial at 0; part
// 2 counts every click that passes the dial over 0.

module SecretEntrance {
  datatype Direction = Left | Right

  datatype Rotation = Rotation(direction: Direction, magnitude: int)

  /** The rotations of the puzzle input, in order. */
  datatype Lock = Lock(rotations: seq<Rotation>)

  /** The unreduced position after a rotation. */
  function Unreduced(r: Rotation, n: int): int {
    if r.direction == Left then n - r.magnitude else n + r.magnitude
  }

  /** `Rotation::apply`: the dial position after the rotation. */
  function Apply(r: Rotation, n: int): (p: int)
    ensures 0 <= p < 100
    ensures (Unreduced(r, n) - p) % 100 == 0
  {
    Unreduced(r, n) % 100
  }

  /** `Rotation::apply_with_pass_count`: the new position together with the
      number of times the dial passes over 0. */
  function ApplyWithPassCount(r: Rotation, n: int): (res: (int, int))
    ensures res.0 == Apply(r, n)
  {
    var u := Unreduced(r, n);
    var count := if r.direction == Left then (n - 1) / 100 - (u - 1) / 100 else u / 100;
    (u % 100, count)
  }

  /** The reference count: how many of the clicks 1..m land on 0, turning
      one position at a time from `n`. */
  function ZeroHits(n: int, d: Direction, m: nat): (c: nat)
    ensures c <= m
  {
    if m == 0 then 0
    else ZeroHits(n, d, m - 1) + (if (if d == Left then n - m else n + m) % 100 == 0 then 1 else 0)
  }

  /** Going one below `a`, the floor quotient by 100 drops exactly when `a`
      is a multiple of 100. */
  lemma QuotientStep(a: int)
    ensures a / 100 - (a - 1) / 100 == (if a % 100 == 0 then 1 else 0)
  {
    var q := a / 100;
    var r := a % 100;
    assert a == 100 * q + r && 0 <= r < 100;
    if r == 0 {
      assert a - 1 == 100 * (q - 1) + 99;
    } else {
      assert a - 1 == 100 * q + (r - 1);
    }
  }

  /** The closed-form count of a right rotation from a dial position is the
      number of clicks that land on 0. */
  lemma {:induction false} RightPasses(n: int, m: nat)
    requires 0 <= n < 100
    ensures (n + m) / 100 == ZeroHits(n, Right, m)
  {
    if m > 0 {
      RightPasses(n, m - 1);
      QuotientStep(n + m);
    }
  }

  /** The closed-form count of a left rotation is the number of clicks that
      land on 0, from any starting number. */
  lemma {:induction false} LeftPasses(n: int, m: nat)
    ensures (n - 1) / 100 - (n - m - 1) / 100 == ZeroHits(n, Left, m)
  {
    if m > 0 {
      LeftPasses(n, m - 1);
      QuotientStep(n - m);
    }
  }

  /** For a non-negative magnitude from a dial position, the pass count is
      the number of clicks that land on 0. */
  lemma PassCountIsZeroHits(r: Rotation, n: int)
    requires 0 <= n < 100 && r.magnitude >= 0
    ensures ApplyWithPassCount(r, n).1 == ZeroHits(n, r.direction, r.magnitude)
  {
    if r.direction == Left {
      LeftPasses(n, r.magnitude);
    } else {
      RightPasses(n, r.magnitude);
    }
  }

  /** `Lock::apply_rotations`: the number of rotations after which the dial
      reads 0. */
  function ApplyRotations(rotations: seq<Rotation>, start: int): (c: nat)
    ensures c <= |rotations|
  {
    if rotations == [] then 0
    else
      var p := Apply(rotations[0], start);
      (if p == 0 then 1 else 0) + ApplyRotations(rotations[1..], p)
  }

  /** `Lock::apply_rotations_with_count`: the pass counts summed along the
      same scan. */
  function ApplyRotationsWithCount(rotations: seq<Rotation>, start: int): int {
    if rotations == [] then 0
    else
      var res := ApplyWithPassCount(rotations[0], start);
      res.1 + ApplyRotationsWithCount(rotations[1..], res.0)
  }

  /** The reference for part 2: the clicks landing on 0 over the whole
      scan, every rotation turned one position at a time. */
  function Clicks(rotations: seq<Rotation>, start: int): nat
    requires forall i :: 0 <= i < |rotations| ==> rotations[i].magnitude >= 0
  {
    if rotations == [] then 0
    else
      ZeroHits(start, rotations[0].direction, rotations[0].magnitude)
        + Clicks(rotations[1..], Apply(rotations[0], start))
  }

  /** With non-negative magnitudes from a dial position, part 2's sum of
      closed-form counts is the number of clicks that land on 0. */
  lemma {:induction false} WithCountIsClicks(rotations: seq<Rotation>, start: int)
    requires 0 <= start < 100
    requires forall i :: 0 <= i < |rotations| ==> rotations[i].magnitude >= 0
    ensures ApplyRotationsWithCount(rotations, start) == Clicks(rotations, start)
  {
    if rotations != [] {
      PassCountIsZeroHits(rotations[0], start);
      WithCountIsClicks(rotations[1..], Apply(rotations[0], start));
    }
  }

  predicate PositiveMagnitudes(rotations: seq<Rotation>) {
    forall i :: 0 <= i < |rotations| ==> rotations[i].magnitude > 0
  }

  /** Every rotation that stops at 0 also passes 0 on its last click, so with
      positive magnitudes part 2 counts at least as much as part 1. */
  lemma {:induction false} StopsAreCounted(rotations: seq<Rotation>, start: int)
    requires 0 <= start < 100 && PositiveMagnitudes(rotations)
    ensures 0 <= ApplyRotations(rotations, start) <= ApplyRotationsWithCount(rotations, start)
  {
    if rotations != [] {
      var r := rotations[0];
      PassCountIsZeroHits(r, start);
      var p := Apply(r, start);
      if p == 0 {
        assert Unreduced(r, start) % 100 == 0;
        assert ZeroHits(start, r.direction, r.magnitude) >= 1;
      }
      StopsAreCounted(rotations[1..], p);
    }
  }

  /** `part1` and `part2`: the counters from the starting position 50. */
  function Part1(lock: Lock): (c: nat)
    ensures c <= |lock.rotations|
  {
    ApplyRotations(lock.rotations, 50)
  }

  function Part2(lock: Lock): (c: int)
    ensures PositiveMagnitudes(lock.rotations) ==> Part1(lock) <= c
  {
    if PositiveMagnitudes(lock.rotations) then
      StopsAreCounted(lock.rotations, 50);
      ApplyRotationsWithCount(lock.rotations, 50)
    else
      ApplyRotationsWithCount(lock.rotations, 50)
  }
}
