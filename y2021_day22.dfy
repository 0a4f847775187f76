/** Reactor reboot (2021 day 22): a list of pairwise disjoint cuboids
    holds the lit cubes; each reboot step cuts its cuboid out of every
    listed cuboid and, for an "on" step, adds it to the list. */
module ReactorReboot {
  import opened SeqFolds

  /** An integer box with inclusive bounds on every axis. */
  datatype Cuboid = Cuboid(xMin: int, xMax: int, yMin: int, yMax: int, zMin: int, zMax: int)

  datatype Cube = Cube(x: int, y: int, z: int)

  /** One line of the input: switch the cubes of a cuboid on or off. */
  datatype Step = Step(on: bool, cuboid: Cuboid)

  /** Bounds that describe at least one cube on each axis, as the puzzle
      input and the splitting always give. */
  predicate Valid(c: Cuboid) {
    c.xMin <= c.xMax && c.yMin <= c.yMax && c.zMin <= c.zMax
  }

  predicate Contains(c: Cuboid, p: Cube) {
    c.xMin <= p.x <= c.xMax && c.yMin <= p.y <= c.yMax && c.zMin <= p.z <= c.zMax
  }

  /** The overlap test of `intersect_split`: the ranges meet on all three axes. */
  predicate Overlaps(a: Cuboid, b: Cuboid) {
    (a.xMin <= b.xMax && a.xMax >= b.xMin) &&
    (a.yMin <= b.yMax && a.yMax >= b.yMin) &&
    (a.zMin <= b.zMax && a.zMax >= b.zMin)
  }

  predicate Inside(a: Cuboid, b: Cuboid) {
    b.xMin <= a.xMin && a.xMax <= b.xMax &&
    b.yMin <= a.yMin && a.yMax <= b.yMax &&
    b.zMin <= a.zMin && a.zMax <= b.zMax
  }

  predicate InAny(cs: seq<Cuboid>, p: Cube) {
    exists k :: 0 <= k < |cs| && Contains(cs[k], p)
  }

  predicate PairwiseDisjoint(cs: seq<Cuboid>) {
    forall a, b :: 0 <= a < b < |cs| ==> !Overlaps(cs[a], cs[b])
  }

  predicate AllValid(cs: seq<Cuboid>) {
    forall k :: 0 <= k < |cs| ==> Valid(cs[k])
  }

  function Max(a: int, b: int): int { if a >= b then a else b }
  function Min(a: int, b: int): int { if a <= b then a else b }

  /** The cubes two cuboids have in common. */
  function Intersection(a: Cuboid, b: Cuboid): Cuboid {
    Cuboid(Max(a.xMin, b.xMin), Min(a.xMax, b.xMax),
           Max(a.yMin, b.yMin), Min(a.yMax, b.yMax),
           Max(a.zMin, b.zMin), Min(a.zMax, b.zMax))
  }

  /** For cuboids with sensible bounds, the overlap test holds exactly
      when some cube lies in both. */
  lemma OverlapsIffCommonCube(a: Cuboid, b: Cuboid)
    requires Valid(a) && Valid(b)
    ensures Overlaps(a, b) <==> exists p :: Contains(a, p) && Contains(b, p)
    ensures Overlaps(a, b) <==> Valid(Intersection(a, b))
    ensures forall p :: Contains(Intersection(a, b), p) <==> Contains(a, p) && Contains(b, p)
  {
    if Overlaps(a, b) {
      var i := Intersection(a, b);
      assert Contains(a, Cube(i.xMin, i.yMin, i.zMin)) && Contains(b, Cube(i.xMin, i.yMin, i.zMin));
    }
  }

  // ---------------------------------------------------------------------
  // Volume

  /** `area`: the number of cubes, the product of the side lengths. */
  function Volume(c: Cuboid): (v: nat)
    requires Valid(c)
    ensures v >= 1
  {
    PositiveProduct(c.xMax - c.xMin + 1, c.yMax - c.yMin + 1, c.zMax - c.zMin + 1);
    (c.xMax - c.xMin + 1) * (c.yMax - c.yMin + 1) * (c.zMax - c.zMin + 1)
  }

  lemma PositiveProduct(a: int, b: int, c: int)
    requires a >= 1 && b >= 1 && c >= 1
    ensures a * b * c >= 1
  {
    assert a * b >= 1;
  }

  /** `part2`: the total volume of the cuboids. */
  function SumVolumes(cs: seq<Cuboid>): nat
    requires AllValid(cs)
  {
    if cs == [] then 0 else Volume(cs[0]) + SumVolumes(cs[1..])
  }

  lemma {:induction false} SumVolumesAppend(cs: seq<Cuboid>, c: Cuboid)
    requires AllValid(cs) && Valid(c)
    ensures AllValid(cs + [c]) && SumVolumes(cs + [c]) == SumVolumes(cs) + Volume(c)
  {
    if cs != [] {
      assert (cs + [c])[1..] == cs[1..] + [c];
      SumVolumesAppend(cs[1..], c);
    }
  }

  /** Cutting a cuboid in two across one axis splits its volume. */
  lemma CutVolume(w1: int, w2: int, h: int, d: int)
    ensures (w1 + w2) * h * d == w1 * h * d + w2 * h * d
    ensures h * (w1 + w2) * d == h * w1 * d + h * w2 * d
    ensures h * d * (w1 + w2) == h * d * w1 + h * d * w2
  {
    assert (w1 + w2) * h == w1 * h + w2 * h;
    assert h * (w1 + w2) == h * w1 + h * w2;
  }

  // ---------------------------------------------------------------------
  // Cutting one cuboid out of another

  /** What holds while `intersect_split` cuts slabs off `self`: the
      remaining box and the slabs cut so far partition `whole`, the slabs
      are disjoint, inside `whole`, outside `other`, and their volumes add
      up. */
  ghost predicate Partition(whole: Cuboid, other: Cuboid, cur: Cuboid, pieces: seq<Cuboid>) {
    && Valid(whole) && Valid(cur) && AllValid(pieces)
    && Inside(cur, whole)
    && (forall p :: Contains(whole, p) <==> Contains(cur, p) || InAny(pieces, p))
    && PairwiseDisjoint(pieces)
    && (forall k :: 0 <= k < |pieces| ==>
          Inside(pieces[k], whole) && !Overlaps(pieces[k], cur) && !Overlaps(pieces[k], other))
    && Volume(whole) == SumVolumes(pieces) + Volume(cur)
  }

  /** One cut: `cur` falls apart into the slab `piece` and the rest `next`. */
  lemma CutStep(whole: Cuboid, other: Cuboid, cur: Cuboid, pieces: seq<Cuboid>, piece: Cuboid, next: Cuboid)
    requires Partition(whole, other, cur, pieces)
    requires Valid(piece) && Valid(next) && Inside(piece, cur) && Inside(next, cur)
    requires !Overlaps(piece, next) && !Overlaps(piece, other)
    requires forall p :: Contains(cur, p) ==> Contains(piece, p) || Contains(next, p)
    requires Volume(cur) == Volume(piece) + Volume(next)
    ensures Partition(whole, other, next, pieces + [piece])
  {
    var ps := pieces + [piece];
    SumVolumesAppend(pieces, piece);
    forall p ensures Contains(whole, p) <==> Contains(next, p) || InAny(ps, p) {
      if InAny(pieces, p) {
        var k :| 0 <= k < |pieces| && Contains(pieces[k], p);
        assert Contains(ps[k], p);
      }
      if Contains(piece, p) {
        assert Contains(ps[|pieces|], p);
      }
      if InAny(ps, p) {
        var k :| 0 <= k < |ps| && Contains(ps[k], p);
        if k < |pieces| {
          assert Contains(pieces[k], p);
        }
      }
    }
  }

  lemma CutXBelow(whole: Cuboid, other: Cuboid, cur: Cuboid, pieces: seq<Cuboid>)
    requires Partition(whole, other, cur, pieces) && cur.xMin < other.xMin <= cur.xMax
    ensures Partition(whole, other, cur.(xMin := other.xMin), pieces + [cur.(xMax := other.xMin - 1)])
  {
    CutVolume(other.xMin - cur.xMin, cur.xMax - other.xMin + 1, cur.yMax - cur.yMin + 1, cur.zMax - cur.zMin + 1);
    CutStep(whole, other, cur, pieces, cur.(xMax := other.xMin - 1), cur.(xMin := other.xMin));
  }

  lemma CutXAbove(whole: Cuboid, other: Cuboid, cur: Cuboid, pieces: seq<Cuboid>)
    requires Partition(whole, other, cur, pieces) && cur.xMin <= other.xMax < cur.xMax
    ensures Partition(whole, other, cur.(xMax := other.xMax), pieces + [cur.(xMin := other.xMax + 1)])
  {
    CutVolume(other.xMax - cur.xMin + 1, cur.xMax - other.xMax, cur.yMax - cur.yMin + 1, cur.zMax - cur.zMin + 1);
    CutStep(whole, other, cur, pieces, cur.(xMin := other.xMax + 1), cur.(xMax := other.xMax));
  }

  lemma CutYBelow(whole: Cuboid, other: Cuboid, cur: Cuboid, pieces: seq<Cuboid>)
    requires Partition(whole, other, cur, pieces) && cur.yMin < other.yMin <= cur.yMax
    ensures Partition(whole, other, cur.(yMin := other.yMin), pieces + [cur.(yMax := other.yMin - 1)])
  {
    CutVolume(other.yMin - cur.yMin, cur.yMax - other.yMin + 1, cur.xMax - cur.xMin + 1, cur.zMax - cur.zMin + 1);
    CutStep(whole, other, cur, pieces, cur.(yMax := other.yMin - 1), cur.(yMin := other.yMin));
  }

  lemma CutYAbove(whole: Cuboid, other: Cuboid, cur: Cuboid, pieces: seq<Cuboid>)
    requires Partition(whole, other, cur, pieces) && cur.yMin <= other.yMax < cur.yMax
    ensures Partition(whole, other, cur.(yMax := other.yMax), pieces + [cur.(yMin := other.yMax + 1)])
  {
    CutVolume(other.yMax - cur.yMin + 1, cur.yMax - other.yMax, cur.xMax - cur.xMin + 1, cur.zMax - cur.zMin + 1);
    CutStep(whole, other, cur, pieces, cur.(yMin := other.yMax + 1), cur.(yMax := other.yMax));
  }

  lemma CutZBelow(whole: Cuboid, other: Cuboid, cur: Cuboid, pieces: seq<Cuboid>)
    requires Partition(whole, other, cur, pieces) && cur.zMin < other.zMin <= cur.zMax
    ensures Partition(whole, other, cur.(zMin := other.zMin), pieces + [cur.(zMax := other.zMin - 1)])
  {
    CutVolume(other.zMin - cur.zMin, cur.zMax - other.zMin + 1, cur.xMax - cur.xMin + 1, cur.yMax - cur.yMin + 1);
    CutStep(whole, other, cur, pieces, cur.(zMax := other.zMin - 1), cur.(zMin := other.zMin));
  }

  lemma CutZAbove(whole: Cuboid, other: Cuboid, cur: Cuboid, pieces: seq<Cuboid>)
    requires Partition(whole, other, cur, pieces) && cur.zMin <= other.zMax < cur.zMax
    ensures Partition(whole, other, cur.(zMax := other.zMax), pieces + [cur.(zMin := other.zMax + 1)])
  {
    CutVolume(other.zMax - cur.zMin + 1, cur.zMax - other.zMax, cur.xMax - cur.xMin + 1, cur.yMax - cur.yMin + 1);
    CutStep(whole, other, cur, pieces, cur.(zMin := other.zMax + 1), cur.(zMax := other.zMax));
  }

  /** The two cuts of `intersect_split` across x: the slab below `other`,
      then the slab above it. */
  method CutOnX(whole: Cuboid, other: Cuboid, cur: Cuboid, pieces: seq<Cuboid>)
    returns (ps: seq<Cuboid>, next: Cuboid)
    requires Partition(whole, other, cur, pieces) && Valid(other)
    requires cur.xMin == whole.xMin && cur.xMax == whole.xMax
    requires whole.xMin <= other.xMax && other.xMin <= whole.xMax
    ensures Partition(whole, other, next, ps) && |ps| <= |pieces| + 2
    ensures next == cur.(xMin := Max(whole.xMin, other.xMin), xMax := Min(whole.xMax, other.xMax))
  {
    ps, next := pieces, cur;
    if next.xMin < other.xMin {
      CutXBelow(whole, other, next, ps);
      ps, next := ps + [next.(xMax := other.xMin - 1)], next.(xMin := other.xMin);
    }
    assert Partition(whole, other, next, ps);
    if next.xMax > other.xMax {
      CutXAbove(whole, other, next, ps);
      ps, next := ps + [next.(xMin := other.xMax + 1)], next.(xMax := other.xMax);
    }
  }

  /** The two cuts across y. */
  method CutOnY(whole: Cuboid, other: Cuboid, cur: Cuboid, pieces: seq<Cuboid>)
    returns (ps: seq<Cuboid>, next: Cuboid)
    requires Partition(whole, other, cur, pieces) && Valid(other)
    requires cur.yMin == whole.yMin && cur.yMax == whole.yMax
    requires whole.yMin <= other.yMax && other.yMin <= whole.yMax
    ensures Partition(whole, other, next, ps) && |ps| <= |pieces| + 2
    ensures next == cur.(yMin := Max(whole.yMin, other.yMin), yMax := Min(whole.yMax, other.yMax))
  {
    ps, next := pieces, cur;
    if next.yMin < other.yMin {
      CutYBelow(whole, other, next, ps);
      ps, next := ps + [next.(yMax := other.yMin - 1)], next.(yMin := other.yMin);
    }
    assert Partition(whole, other, next, ps);
    if next.yMax > other.yMax {
      CutYAbove(whole, other, next, ps);
      ps, next := ps + [next.(yMin := other.yMax + 1)], next.(yMax := other.yMax);
    }
  }

  /** The two cuts across z. */
  method CutOnZ(whole: Cuboid, other: Cuboid, cur: Cuboid, pieces: seq<Cuboid>)
    returns (ps: seq<Cuboid>, next: Cuboid)
    requires Partition(whole, other, cur, pieces) && Valid(other)
    requires cur.zMin == whole.zMin && cur.zMax == whole.zMax
    requires whole.zMin <= other.zMax && other.zMin <= whole.zMax
    ensures Partition(whole, other, next, ps) && |ps| <= |pieces| + 2
    ensures next == cur.(zMin := Max(whole.zMin, other.zMin), zMax := Min(whole.zMax, other.zMax))
  {
    ps, next := pieces, cur;
    if next.zMin < other.zMin {
      CutZBelow(whole, other, next, ps);
      ps, next := ps + [next.(zMax := other.zMin - 1)], next.(zMin := other.zMin);
    }
    assert Partition(whole, other, next, ps);
    if next.zMax > other.zMax {
      CutZAbove(whole, other, next, ps);
      ps, next := ps + [next.(zMin := other.zMax + 1)], next.(zMax := other.zMax);
    }
  }

  /** Once the remaining box lies inside `other`, the slabs hold exactly
      the cubes of `whole` outside `other`. */
  lemma PartitionDone(whole: Cuboid, other: Cuboid, cur: Cuboid, pieces: seq<Cuboid>)
    requires Partition(whole, other, cur, pieces) && Inside(cur, other)
    ensures forall p :: InAny(pieces, p) <==> Contains(whole, p) && !Contains(other, p)
  {
    forall p | InAny(pieces, p) ensures !Contains(other, p) {
      var k :| 0 <= k < |pieces| && Contains(pieces[k], p);
    }
  }

  /** `intersect_split`: the cubes of `self` outside `other`, as disjoint
      slabs cut off one axis side at a time, together with what is left of
      `self` afterwards (the source shrinks `self` in place). Boxes that do
      not overlap give `[self]` and leave `self` alone. */
  method IntersectSplit(self: Cuboid, other: Cuboid) returns (pieces: seq<Cuboid>, shrunk: Cuboid)
    requires Valid(self) && Valid(other)
    ensures !Overlaps(self, other) ==> pieces == [self] && shrunk == self
    ensures Overlaps(self, other) ==> shrunk == Intersection(self, other)
    ensures |pieces| <= 6 && AllValid(pieces) && PairwiseDisjoint(pieces)
    ensures forall k :: 0 <= k < |pieces| ==> Inside(pieces[k], self)
    ensures forall p :: InAny(pieces, p) <==> Contains(self, p) && !Contains(other, p)
    ensures Overlaps(self, other) ==> Volume(self) == SumVolumes(pieces) + Volume(Intersection(self, other))
  {
    if !Overlaps(self, other) {
      forall p | Contains(self, p) ensures !Contains(other, p) {
        OverlapsIffCommonCube(self, other);
      }
      assert forall p :: Contains(self, p) ==> Contains([self][0], p);
      return [self], self;
    }
    var cur := self;
    pieces := [];
    assert Partition(self, other, cur, pieces);
    pieces, cur := CutOnX(self, other, cur, pieces);
    pieces, cur := CutOnY(self, other, cur, pieces);
    pieces, cur := CutOnZ(self, other, cur, pieces);
    SplitDone(self, other, cur, pieces);
    shrunk := cur;
  }

  /** Once every axis is cut, the remaining box is the intersection and
      the slabs are what `intersect_split` promises. */
  lemma SplitDone(whole: Cuboid, other: Cuboid, cur: Cuboid, pieces: seq<Cuboid>)
    requires Partition(whole, other, cur, pieces) && Valid(other)
    requires cur.xMin == Max(whole.xMin, other.xMin) && cur.xMax == Min(whole.xMax, other.xMax)
    requires cur.yMin == Max(whole.yMin, other.yMin) && cur.yMax == Min(whole.yMax, other.yMax)
    requires cur.zMin == Max(whole.zMin, other.zMin) && cur.zMax == Min(whole.zMax, other.zMax)
    ensures cur == Intersection(whole, other)
    ensures AllValid(pieces) && PairwiseDisjoint(pieces)
    ensures forall k :: 0 <= k < |pieces| ==> Inside(pieces[k], whole)
    ensures forall p :: InAny(pieces, p) <==> Contains(whole, p) && !Contains(other, p)
    ensures Volume(whole) == SumVolumes(pieces) + Volume(Intersection(whole, other))
  {
    assert cur == Intersection(whole, other);
    PartitionDone(whole, other, cur, pieces);
  }

  // ---------------------------------------------------------------------
  // The reboot

  /** Whether a cube is lit after the steps: the last step whose cuboid
      holds it decides; a cube no step touches stays off. */
  predicate Lit(steps: seq<Step>, p: Cube) {
    if steps == [] then false
    else if Contains(steps[|steps| - 1].cuboid, p) then steps[|steps| - 1].on
    else Lit(steps[..|steps| - 1], p)
  }

  lemma InAnyAppend(a: seq<Cuboid>, b: seq<Cuboid>, p: Cube)
    ensures InAny(a + b, p) <==> InAny(a, p) || InAny(b, p)
  {
    if InAny(a, p) {
      var k :| 0 <= k < |a| && Contains(a[k], p);
      assert Contains((a + b)[k], p);
    }
    if InAny(b, p) {
      var k :| 0 <= k < |b| && Contains(b[k], p);
      assert Contains((a + b)[|a| + k], p);
    }
    if InAny(a + b, p) {
      var k :| 0 <= k < |a + b| && Contains((a + b)[k], p);
      if k < |a| {
        assert Contains(a[k], p);
      } else {
        assert Contains(b[k - |a|], p);
      }
    }
  }

  /** One step of the fold in `parse`: every listed cuboid loses the cubes
      of the new cuboid, and an "on" step then lists the new cuboid. */
  method ApplyStep(acc: seq<Cuboid>, step: Step) returns (cuboids: seq<Cuboid>)
    requires AllValid(acc) && PairwiseDisjoint(acc) && Valid(step.cuboid)
    ensures AllValid(cuboids) && PairwiseDisjoint(cuboids)
    ensures forall p :: InAny(cuboids, p) <==>
              (if Contains(step.cuboid, p) then step.on else InAny(acc, p))
    ensures !step.on ==> forall k :: 0 <= k < |cuboids| ==> !Overlaps(cuboids[k], step.cuboid)
    ensures step.on ==> |cuboids| >= 1 && cuboids[|cuboids| - 1] == step.cuboid
  {
    var c := step.cuboid;
    cuboids := [];
    var j := 0;
    while j < |acc|
      invariant 0 <= j <= |acc|
      invariant AllValid(cuboids) && PairwiseDisjoint(cuboids)
      invariant forall a :: 0 <= a < |cuboids| ==> !Overlaps(cuboids[a], c)
      invariant forall a, k :: 0 <= a < |cuboids| && j <= k < |acc| ==> !Overlaps(cuboids[a], acc[k])
      invariant forall p :: InAny(cuboids, p) <==> InAny(acc[..j], p) && !Contains(c, p)
    {
      var pieces, _ := IntersectSplit(acc[j], c);
      forall a | 0 <= a < |pieces| ensures !Overlaps(pieces[a], c) {
        OverlapsIffCommonCube(pieces[a], c);
        assert forall p :: Contains(pieces[a], p) ==> InAny(pieces, p);
      }
      forall p ensures InAny(cuboids + pieces, p) <==> InAny(acc[..j + 1], p) && !Contains(c, p) {
        InAnyAppend(cuboids, pieces, p);
        InAnyAppend(acc[..j], [acc[j]], p);
        assert acc[..j + 1] == acc[..j] + [acc[j]];
        if InAny([acc[j]], p) {
          assert Contains(acc[j], p);
        }
        if Contains(acc[j], p) {
          assert Contains([acc[j]][0], p);
        }
      }
      cuboids := cuboids + pieces;
      j := j + 1;
    }
    assert acc[..j] == acc;
    if step.on {
      forall p ensures InAny(cuboids + [c], p) <==> Contains(c, p) || InAny(cuboids, p) {
        InAnyAppend(cuboids, [c], p);
        if InAny([c], p) {
          assert Contains([c][0], p);
        }
        if Contains(c, p) {
          assert Contains([c][0], p);
        }
      }
      cuboids := cuboids + [c];
    }
  }

  /** `parse`: folds the reboot steps into a list of disjoint cuboids whose
      cubes are exactly the lit ones. */
  method Reboot(steps: seq<Step>) returns (cuboids: seq<Cuboid>)
    requires forall k :: 0 <= k < |steps| ==> Valid(steps[k].cuboid)
    ensures AllValid(cuboids) && PairwiseDisjoint(cuboids)
    ensures forall p :: InAny(cuboids, p) <==> Lit(steps, p)
  {
    cuboids := [];
    var i := 0;
    while i < |steps|
      invariant 0 <= i <= |steps|
      invariant AllValid(cuboids) && PairwiseDisjoint(cuboids)
      invariant forall p :: InAny(cuboids, p) <==> Lit(steps[..i], p)
    {
      var next := ApplyStep(cuboids, steps[i]);
      assert steps[..i + 1][..i] == steps[..i];
      cuboids := next;
      i := i + 1;
    }
    assert steps[..i] == steps;
  }

  // ---------------------------------------------------------------------
  // The answers

  /** Inside the initialization region -50..50 on every axis. */
  predicate InRegion(c: Cuboid) {
    c.xMin >= -50 && c.xMax <= 50 && c.yMin >= -50 && c.yMax <= 50 && c.zMin >= -50 && c.zMax <= 50
  }

  /** `part1`: the volume of the listed cuboids inside the region. */
  function Part1(cs: seq<Cuboid>): (r: nat)
    requires AllValid(cs)
    ensures r <= SumVolumes(cs)
    ensures (forall k :: 0 <= k < |cs| ==> InRegion(cs[k])) ==> r == SumVolumes(cs)
  {
    if cs == [] then 0
    else (if InRegion(cs[0]) then Volume(cs[0]) else 0) + Part1(cs[1..])
  }
}
