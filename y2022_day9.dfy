// Rope Bridge: a rope of `n` knots on the integer grid. The head moves one
// unit per step; every other knot then follows the knot before it. The
// answer is the number of distinct positions the last knot occupies after
// the steps.

module RopeBridge {
  datatype Direction = R | U | L | D

  datatype Point = Point(x: int, y: int)

  /** One parsed line: a direction and how many unit steps to take. */
  datatype Motion = Motion(dir: Direction, amount: nat)

  function Abs(n: int): nat {
    if n < 0 then -n else n
  }

  function Signum(n: int): (r: int)
    ensures -1 <= r <= 1
    ensures (r == 0 <==> n == 0) && (r > 0 <==> n > 0)
  {
    if n > 0 then 1 else if n < 0 then -1 else 0
  }

  function DX(d: Direction): int {
    match d
    case R => 1
    case U => 0
    case L => -1
    case D => 0
  }

  function DY(d: Direction): int {
    match d
    case R => 0
    case U => 1
    case L => 0
    case D => -1
  }

  function Opposite(d: Direction): Direction {
    match d
    case R => L
    case U => D
    case L => R
    case D => U
  }

  /** `move_head`: one unit step in the given direction; right and up are
      the positive axes. */
  function MoveHead(p: Point, d: Direction): (q: Point)
    ensures Abs(q.x - p.x) + Abs(q.y - p.y) == 1
    ensures d == R ==> q.x > p.x
    ensures d == L ==> q.x < p.x
    ensures d == U ==> q.y > p.y
    ensures d == D ==> q.y < p.y
  {
    Point(p.x + DX(d), p.y + DY(d))
  }

  /** A step back the other way undoes a step. */
  lemma MoveHeadInverse(p: Point, d: Direction)
    ensures MoveHead(MoveHead(p, d), Opposite(d)) == p
  {
  }

  /** Two knots touch when they are at most one apart on each axis. */
  predicate Touching(a: Point, b: Point) {
    Abs(a.x - b.x) < 2 && Abs(a.y - b.y) < 2
  }

  /** `follow`: a knot that touches its leader stays; otherwise it moves one
      unit towards the leader on each axis where they differ. */
  function Follow(t: Point, h: Point): (r: Point)
    ensures r == t <==> Touching(t, h)
    ensures Abs(r.x - t.x) <= 1 && Abs(r.y - t.y) <= 1
    ensures Abs(h.x - r.x) <= Abs(h.x - t.x) && Abs(h.y - r.y) <= Abs(h.y - t.y)
  {
    if Touching(t, h) then t
    else Point(t.x + Signum(h.x - t.x), t.y + Signum(h.y - t.y))
  }

  /** A knot at most two apart from its leader on each axis touches it
      after following. */
  lemma FollowCatchesUp(t: Point, h: Point)
    requires Abs(h.x - t.x) <= 2 && Abs(h.y - t.y) <= 2
    ensures Touching(Follow(t, h), h)
  {
  }

  /** Knot `i` after one step of the whole rope: the head moves and every
      other knot follows the already-moved knot before it. */
  function Knot(ks: seq<Point>, d: Direction, i: nat): Point
    requires i < |ks|
  {
    if i == 0 then MoveHead(ks[0], d) else Follow(ks[i], Knot(ks, d, i - 1))
  }

  /** Every knot moves at most one unit on each axis in a step. */
  lemma KnotNear(ks: seq<Point>, d: Direction, i: nat)
    requires i < |ks|
    ensures Abs(Knot(ks, d, i).x - ks[i].x) <= 1 && Abs(Knot(ks, d, i).y - ks[i].y) <= 1
  {
  }

  /** One step of the rope: all knots, in order. */
  function Step(ks: seq<Point>, d: Direction): (r: seq<Point>)
    ensures |r| == |ks|
  {
    seq(|ks|, i requires 0 <= i < |ks| => Knot(ks, d, i))
  }

  /** Every knot touches the one before it. */
  predicate Taut(ks: seq<Point>) {
    forall i :: 0 <= i < |ks| - 1 ==> Touching(ks[i], ks[i + 1])
  }

  /** Knot `i + 1` touches knot `i` after a step that started taut there:
      the leader moved at most one unit on each axis, so the follower is at
      most two apart and catches up. */
  lemma KnotsTouch(ks: seq<Point>, d: Direction, i: nat)
    requires i + 1 < |ks| && Touching(ks[i], ks[i + 1])
    ensures Touching(Knot(ks, d, i), Knot(ks, d, i + 1))
  {
    var lead := Knot(ks, d, i);
    KnotNear(ks, d, i);
    assert Knot(ks, d, i + 1) == Follow(ks[i + 1], lead);
    assert Abs(lead.x - ks[i + 1].x) <= 2 && Abs(lead.y - ks[i + 1].y) <= 2;
    FollowCatchesUp(ks[i + 1], lead);
  }

  /** A step keeps a taut rope taut. */
  lemma StepKeepsTaut(ks: seq<Point>, d: Direction)
    requires Taut(ks)
    ensures Taut(Step(ks, d))
  {
    var r := Step(ks, d);
    forall i | 0 <= i < |ks| - 1
      ensures Touching(r[i], r[i + 1])
    {
      KnotsTouch(ks, d, i);
    }
  }

  /** The rope after the steps `ds`, one after another. */
  function Walk(ks: seq<Point>, ds: seq<Direction>): (r: seq<Point>)
    ensures |r| == |ks|
  {
    if ds == [] then ks else Step(Walk(ks, ds[..|ds| - 1]), ds[|ds| - 1])
  }

  /** The number of steps of `ds` in direction `d`. */
  function Count(ds: seq<Direction>, d: Direction): (c: nat)
    ensures c <= |ds|
  {
    if ds == [] then 0 else Count(ds[..|ds| - 1], d) + (if ds[|ds| - 1] == d then 1 else 0)
  }

  /** The head ends where the counts of the steps put it. */
  lemma {:induction false} HeadAfterWalk(ks: seq<Point>, ds: seq<Direction>)
    requires |ks| >= 1
    ensures Walk(ks, ds)[0].x == ks[0].x + Count(ds, R) - Count(ds, L)
    ensures Walk(ks, ds)[0].y == ks[0].y + Count(ds, U) - Count(ds, D)
  {
    if ds != [] {
      HeadAfterWalk(ks, ds[..|ds| - 1]);
    }
  }

  /** A rope that starts taut stays taut over any walk. */
  lemma {:induction false} WalkKeepsTaut(ks: seq<Point>, ds: seq<Direction>)
    requires Taut(ks)
    ensures Taut(Walk(ks, ds))
  {
    if ds != [] {
      WalkKeepsTaut(ks, ds[..|ds| - 1]);
      StepKeepsTaut(Walk(ks, ds[..|ds| - 1]), ds[|ds| - 1]);
    }
  }

  /** In a taut rope knot `i` is at most `i` units from the head on each
      axis; the tail of a rope of `n` knots stays within `n - 1`. */
  lemma {:induction false} TautSpan(ks: seq<Point>, i: nat)
    requires Taut(ks) && i < |ks|
    ensures Abs(ks[0].x - ks[i].x) <= i && Abs(ks[0].y - ks[i].y) <= i
  {
    if i > 0 {
      TautSpan(ks, i - 1);
      assert Touching(ks[i - 1], ks[i]);
    }
  }

  /** The positions of the last knot after each step of `ds`. */
  function TailSet(ks: seq<Point>, ds: seq<Direction>): set<Point>
    requires |ks| >= 1
  {
    if ds == [] then {} else TailSet(ks, ds[..|ds| - 1]) + {Walk(ks, ds)[|ks| - 1]}
  }

  /** Each step adds at most one new position, and the last one is always
      among them. */
  lemma {:induction false} TailSetBounds(ks: seq<Point>, ds: seq<Direction>)
    requires |ks| >= 1
    ensures |TailSet(ks, ds)| <= |ds|
    ensures ds != [] ==> Walk(ks, ds)[|ks| - 1] in TailSet(ks, ds) && |TailSet(ks, ds)| >= 1
  {
    if ds != [] {
      TailSetBounds(ks, ds[..|ds| - 1]);
    }
  }

  /** The unit steps of the motions, each direction repeated `amount`
      times. */
  function Expand(ms: seq<Motion>): (ds: seq<Direction>)
  {
    if ms == [] then [] else Expand(ms[..|ms| - 1]) + seq(ms[|ms| - 1].amount, _ => ms[|ms| - 1].dir)
  }

  lemma {:induction false} ExpandLength(ms: seq<Motion>)
    ensures |Expand(ms)| == Sum(ms)
  {
    if ms != [] {
      ExpandLength(ms[..|ms| - 1]);
    }
  }

  /** Total number of unit steps. */
  function Sum(ms: seq<Motion>): nat {
    if ms == [] then 0 else Sum(ms[..|ms| - 1]) + ms[|ms| - 1].amount
  }

  /** A rope of `n` knots, all at the origin. */
  function Start(n: nat): (ks: seq<Point>)
    ensures |ks| == n && Taut(ks)
  {
    seq(n, _ => Point(0, 0))
  }

  /** The step of `solve` in place: the head moves, then each knot follows
      the (already moved) knot before it. */
  method StepRope(points: array<Point>, d: Direction)
    requires points.Length >= 1
    modifies points
    ensures points[..] == Step(old(points[..]), d)
  {
    ghost var ks := points[..];
    points[0] := MoveHead(points[0], d);
    var i := 0;
    while i < points.Length - 1
      invariant 0 <= i < points.Length
      invariant FollowedUpTo(points[..], ks, d, i)
    {
      FollowNext(points, ks, d, i);
      i := i + 1;
    }
  }

  /** Knots up to `i` have taken the step; those after still hold `ks`. */
  ghost predicate FollowedUpTo(cur: seq<Point>, ks: seq<Point>, d: Direction, i: nat)
    requires i < |ks|
  {
    |cur| == |ks|
    && (forall j :: 0 <= j <= i ==> cur[j] == Knot(ks, d, j))
    && (forall j :: i < j < |ks| ==> cur[j] == ks[j])
  }

  /** One iteration of the inner loop of `solve`: knot `i + 1` follows
      knot `i`. */
  method FollowNext(points: array<Point>, ghost ks: seq<Point>, d: Direction, i: nat)
    requires i + 1 < |ks| && FollowedUpTo(points[..], ks, d, i)
    modifies points
    ensures FollowedUpTo(points[..], ks, d, i + 1)
  {
    ghost var before := points[..];
    assert points[i] == Knot(ks, d, i) && points[i + 1] == ks[i + 1];
    points[i + 1] := Follow(points[i + 1], points[i]);
    assert points[..] == before[i + 1 := Knot(ks, d, i + 1)];
  }

  /** `solve`: the number of distinct positions of the last of `n` knots
      over all unit steps. */
  method Solve(moves: seq<Motion>, n: nat) returns (count: nat)
    requires n >= 1
    ensures count == |TailSet(Start(n), Expand(moves))|
    ensures count <= Sum(moves)
    ensures Sum(moves) > 0 ==> count >= 1
  {
    var points := new Point[n](_ => Point(0, 0));
    assert points[..] == Start(n);
    var seen: set<Point> := {};
    ghost var done: seq<Direction> := [];
    for m := 0 to |moves|
      invariant done == Expand(moves[..m])
      invariant points[..] == Walk(Start(n), done)
      invariant seen == TailSet(Start(n), done)
    {
      seen, done := Repeat(points, Start(n), seen, done, moves[m].dir, moves[m].amount);
      assert moves[..m + 1][..m] == moves[..m];
    }
    assert moves[..|moves|] == moves;
    count := |seen|;
    ExpandLength(moves);
    TailSetBounds(Start(n), done);
  }

  /** The inner loop of `solve`: `amount` steps in direction `dir`, the
      last knot's position recorded after each. */
  method Repeat(points: array<Point>, ghost start: seq<Point>, seen: set<Point>, ghost done: seq<Direction>,
                dir: Direction, amount: nat)
    returns (seen': set<Point>, ghost done': seq<Direction>)
    requires |start| == points.Length >= 1
    requires points[..] == Walk(start, done) && seen == TailSet(start, done)
    modifies points
    ensures done' == done + seq(amount, _ => dir)
    ensures points[..] == Walk(start, done') && seen' == TailSet(start, done')
  {
    seen', done' := seen, done;
    for k := 0 to amount
      invariant done' == done + seq(k, _ => dir)
      invariant points[..] == Walk(start, done')
      invariant seen' == TailSet(start, done')
    {
      seen', done' := StepAndRecord(points, start, seen', done', dir);
      assert seq(k + 1, _ => dir) == seq(k, _ => dir) + [dir];
    }
  }

  /** One unit step of `solve`, the last knot's new position added to the
      set of those seen. */
  method StepAndRecord(points: array<Point>, ghost start: seq<Point>, seen: set<Point>, ghost done: seq<Direction>,
                       dir: Direction)
    returns (seen': set<Point>, ghost done': seq<Direction>)
    requires |start| == points.Length >= 1
    requires points[..] == Walk(start, done) && seen == TailSet(start, done)
    modifies points
    ensures done' == done + [dir]
    ensures points[..] == Walk(start, done') && seen' == TailSet(start, done')
  {
    StepRope(points, dir);
    done' := done + [dir];
    assert done'[..|done'| - 1] == done;
    seen' := seen + {points[points.Length - 1]};
  }

  /** `part1`: a rope of two knots. */
  method Part1(moves: seq<Motion>) returns (count: nat)
    ensures count == |TailSet(Start(2), Expand(moves))|
  {
    count := Solve(moves, 2);
  }

  /** `part2`: a rope of ten knots. */
  method Part2(moves: seq<Motion>) returns (count: nat)
    ensures count == |TailSet(Start(10), Expand(moves))|
  {
    count := Solve(moves, 10);
  }
}
