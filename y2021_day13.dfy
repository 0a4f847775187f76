// Transparent Origami: dots on a sheet of paper folded along horizontal and
// vertical lines; after each fold the dot list is sorted and deduplicated.

module TransparentOrigami {
  import opened Wrappers

  /** A dot; coordinates are `usize`, so never negative. */
  datatype Point = Point(x: nat, y: nat)

  /** `OnY` folds along a horizontal line, `OnX` along a vertical one. */
  datatype Fold = OnY(line: nat) | OnX(line: nat)

  /** The derived ordering of `Point`: by `x`, then by `y`. */
  predicate Less(p: Point, q: Point) {
    p.x < q.x || (p.x == q.x && p.y < q.y)
  }

  /** What `sort_unstable` followed by `dedup` leaves: every neighbour
      strictly after the one before it. */
  predicate StrictlySorted(s: seq<Point>) {
    forall i :: 0 < i < |s| ==> Less(s[i - 1], s[i])
  }

  /** The dots of a list, forgetting order and repetition. */
  function Elems(s: seq<Point>): (r: set<Point>)
    ensures forall p :: p in r <==> p in s
  {
    set p | p in s
  }

  /** One coordinate under a fold: beyond the line it is mirrored against
      the far edge `edge`, otherwise unchanged. */
  function FoldCoord(c: nat, line: nat, edge: nat): (r: nat)
    requires c > line ==> c <= edge
    ensures c > line ==> r == edge - c && r < edge - line
    ensures c <= line ==> r == c
  {
    if c > line then edge - c else c
  }

  /** A fold panics (an unsigned underflow) unless the line is at least 1
      and every dot beyond the line lies within the far edge. */
  predicate Foldable(s: set<Point>, m: Point, f: Fold) {
    match f
    case OnY(line) => line >= 1 && forall p :: p in s && p.y > line ==> p.y <= m.y
    case OnX(line) => line >= 1 && forall p :: p in s && p.x > line ==> p.x <= m.x
  }

  /** Where one dot goes under a fold, the far edge being `m`. */
  function FoldPoint(p: Point, f: Fold, m: Point): (r: Point)
    requires f.OnY? && p.y > f.line ==> p.y <= m.y
    requires f.OnX? && p.x > f.line ==> p.x <= m.x
    ensures f.OnY? ==> r.x == p.x && (p.y > f.line ==> r.y == m.y - p.y) && (p.y <= f.line ==> r == p)
    ensures f.OnX? ==> r.y == p.y && (p.x > f.line ==> r.x == m.x - p.x) && (p.x <= f.line ==> r == p)
  {
    match f
    case OnY(line) => Point(p.x, FoldCoord(p.y, line, m.y))
    case OnX(line) => Point(FoldCoord(p.x, line, m.x), p.y)
  }

  /** The sheet's new far corner: the folded coordinate becomes `line - 1`. */
  function NewMax(m: Point, f: Fold): (r: Point)
    requires f.line >= 1
    ensures f.OnY? ==> r == Point(m.x, f.line - 1)
    ensures f.OnX? ==> r == Point(f.line - 1, m.y)
  {
    match f
    case OnY(line) => Point(m.x, line - 1)
    case OnX(line) => Point(line - 1, m.y)
  }

  /** The set of dots after a fold. */
  function FoldSet(s: set<Point>, f: Fold, m: Point): (r: set<Point>)
    requires Foldable(s, m, f)
    ensures forall p :: p in s ==> FoldPoint(p, f, m) in r
    ensures forall q :: q in r ==> exists p :: p in s && FoldPoint(p, f, m) == q
  {
    set p | p in s :: FoldPoint(p, f, m)
  }

  /** The dots and the corner after popping and applying every fold of
      the stack (the last entry first); `None` when one of them panics. */
  function FoldAll(s: set<Point>, m: Point, stack: seq<Fold>): (r: Option<(set<Point>, Point)>)
    decreases |stack|
    ensures stack == [] ==> r == Some((s, m))
  {
    if stack == [] then Some((s, m))
    else
      var f := stack[|stack| - 1];
      if !Foldable(s, m, f) then None
      else FoldAll(FoldSet(s, f, m), NewMax(m, f), stack[..|stack| - 1])
  }

  /** When the line is the middle of the sheet and no dot lies on it, a
      folded dot is the mirror image of the original across the line and
      lands inside the new sheet. */
  lemma FoldMirrors(p: Point, line: nat, m: Point)
    requires line >= 1 && m.y == 2 * line && p.y <= m.y && p.y != line
    ensures var q := FoldPoint(p, OnY(line), m);
      q.y <= line - 1 && q.x == p.x &&
      (p.y > line ==> line - q.y == p.y - line)
  {
  }

  /** With the line in the middle, folding a second time along the same
      line moves nothing. */
  lemma FoldIdempotent(p: Point, line: nat, m: Point)
    requires m.y == 2 * line && p.y <= m.y
    ensures var q := FoldPoint(p, OnY(line), m);
      FoldPoint(q, OnY(line), m) == q
  {
  }

  /** The smallest dot of a strictly sorted list comes first. */
  lemma {:induction false} FirstIsLeast(s: seq<Point>, j: int)
    requires StrictlySorted(s) && 0 < j < |s|
    ensures Less(s[0], s[j])
  {
    if j > 1 {
      FirstIsLeast(s, j - 1);
    }
  }

  /** A strictly sorted list is fixed by its dots: the sorted, deduplicated
      state after a fold is determined by the set of folded dots. */
  lemma {:induction false} SortedUnique(a: seq<Point>, b: seq<Point>)
    requires StrictlySorted(a) && StrictlySorted(b)
    requires forall p :: p in a <==> p in b
    ensures a == b
    decreases |a|
  {
    if b != [] {
      assert b[0] in b;
    }
    if a != [] {
      assert b != [] by { assert a[0] in b; }
      forall j | 0 < j < |a| ensures Less(a[0], a[j]) { FirstIsLeast(a, j); }
      forall j | 0 < j < |b| ensures Less(b[0], b[j]) { FirstIsLeast(b, j); }
      assert b[0] in a && a[0] in b;
      assert a[0] == b[0];
      assert a == [a[0]] + a[1..] && b == [b[0]] + b[1..];
      forall p ensures p in a[1..] <==> p in b[1..] {
        if p in a[1..] {
          var k :| 1 <= k < |a| && a[k] == p;
          assert Less(a[0], a[k]) && p in b;
          var l :| 0 <= l < |b| && b[l] == p;
          assert l != 0;
          assert b[1..][l - 1] == p;
        }
        if p in b[1..] {
          var k :| 1 <= k < |b| && b[k] == p;
          assert Less(b[0], b[k]) && p in a;
          var l :| 0 <= l < |a| && a[l] == p;
          assert l != 0;
          assert a[1..][l - 1] == p;
        }
      }
      SortedUnique(a[1..], b[1..]);
    }
  }

  /** Puts `p` into a strictly sorted list unless it is already there. */
  function InsertUnique(s: seq<Point>, p: Point): (r: seq<Point>)
    requires StrictlySorted(s)
    ensures StrictlySorted(r)
    ensures forall q :: q in r <==> q in s || q == p
    ensures |r| <= |s| + 1
    ensures r != [] && (r[0] == p || (s != [] && r[0] == s[0]))
  {
    if s == [] then [p]
    else if p == s[0] then s
    else if Less(p, s[0]) then [p] + s
    else [s[0]] + InsertUnique(s[1..], p)
  }

  /** `sort_unstable` then `dedup`: the distinct dots of `s` in order. */
  method SortDedup(s: seq<Point>) returns (r: seq<Point>)
    ensures StrictlySorted(r)
    ensures forall p :: p in r <==> p in s
    ensures |r| <= |s|
  {
    r := [];
    for i := 0 to |s|
      invariant StrictlySorted(r)
      invariant forall p :: p in r <==> p in s[..i]
      invariant |r| <= i
    {
      assert s[..i + 1] == s[..i] + [s[i]];
      r := InsertUnique(r, s[i]);
    }
    assert s[..|s|] == s;
  }

  /** The puzzle state: the dots, the sheet's far corner and the folds
      still to do, the next one last. */
  class Instruction {
    var points: seq<Point>
    var maxPoint: Point
    var foldStack: seq<Fold>

    constructor (points: seq<Point>, maxPoint: Point, foldStack: seq<Fold>)
      ensures this.points == points && this.maxPoint == maxPoint && this.foldStack == foldStack
    {
      this.points := points;
      this.maxPoint := maxPoint;
      this.foldStack := foldStack;
    }

    /** `apply_fold`: moves every dot beyond the line, moves the corner,
        then sorts and deduplicates the dots. */
    method ApplyFold(f: Fold)
      requires Foldable(Elems(points), maxPoint, f)
      modifies this
      ensures StrictlySorted(points)
      ensures Elems(points) == FoldSet(Elems(old(points)), f, old(maxPoint))
      ensures maxPoint == NewMax(old(maxPoint), f)
      ensures foldStack == old(foldStack)
      ensures |points| <= |old(points)|
    {
      var m := maxPoint;
      var pts := points;
      for i := 0 to |pts|
        invariant |pts| == |points|
        invariant forall j :: 0 <= j < i ==> pts[j] == FoldPoint(points[j], f, m)
        invariant forall j :: i <= j < |pts| ==> pts[j] == points[j]
      {
        match f
        case OnY(line) =>
          if pts[i].y > line {
            pts := pts[i := Point(pts[i].x, m.y - pts[i].y)];
          }
        case OnX(line) =>
          if pts[i].x > line {
            pts := pts[i := Point(m.x - pts[i].x, pts[i].y)];
          }
      }
      maxPoint := NewMax(m, f);
      var sorted := SortDedup(pts);
      forall q | q in sorted ensures q in FoldSet(Elems(points), f, m) {
        var j :| 0 <= j < |pts| && pts[j] == q;
        assert points[j] in Elems(points);
      }
      forall q | q in FoldSet(Elems(points), f, m) ensures q in sorted {
        var p :| p in Elems(points) && FoldPoint(p, f, m) == q;
        var j :| 0 <= j < |points| && points[j] == p;
        assert pts[j] == q;
      }
      points := sorted;
    }

    /** `apply_all_folds`: pops and applies folds until none is left. */
    method ApplyAllFolds()
      requires FoldAll(Elems(points), maxPoint, foldStack).Some?
      modifies this
      ensures foldStack == []
      ensures FoldAll(Elems(old(points)), old(maxPoint), old(foldStack)) == Some((Elems(points), maxPoint))
      ensures old(foldStack) != [] ==> StrictlySorted(points)
    {
      while foldStack != []
        invariant FoldAll(Elems(points), maxPoint, foldStack) == FoldAll(Elems(old(points)), old(maxPoint), old(foldStack))
        invariant FoldAll(Elems(points), maxPoint, foldStack).Some?
        invariant old(foldStack) != [] && foldStack == [] ==> StrictlySorted(points)
        invariant foldStack == old(foldStack) || StrictlySorted(points)
        decreases |foldStack|
      {
        var f := foldStack[|foldStack| - 1];
        foldStack := foldStack[..|foldStack| - 1];
        ApplyFold(f);
      }
    }

    /** `part1`: applies the next fold and counts the dots left; the count
        never exceeds the count before. */
    method Part1() returns (count: nat)
      requires foldStack != []
      requires Foldable(Elems(points), maxPoint, foldStack[|foldStack| - 1])
      modifies this
      ensures foldStack == old(foldStack)[..|old(foldStack)| - 1]
      ensures Elems(points) == FoldSet(Elems(old(points)), old(foldStack)[|old(foldStack)| - 1], old(maxPoint))
      ensures count == |points| == |Elems(points)| && count <= |old(points)|
    {
      var f := foldStack[|foldStack| - 1];
      foldStack := foldStack[..|foldStack| - 1];
      ApplyFold(f);
      DistinctCount(points);
      count := |points|;
    }
  }

  /** A strictly sorted list has no repeats, so its length is the number of
      distinct dots. */
  lemma {:induction false} DistinctCount(s: seq<Point>)
    requires StrictlySorted(s)
    ensures |Elems(s)| == |s|
  {
    if s != [] {
      forall j | 0 < j < |s| ensures Less(s[0], s[j]) { FirstIsLeast(s, j); }
      DistinctCount(s[1..]);
      assert Elems(s) == {s[0]} + Elems(s[1..]);
      assert s[0] !in Elems(s[1..]);
    }
  }
}
