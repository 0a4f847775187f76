// Rain Risk: a ferry steered by a list of navigation instructions, either
// directly (part 1) or through a waypoint kept relative to the ferry
// (part 2). North and east are the positive y and x axes.

module RainRisk {
  datatype Direction = N | E | S | W

  datatype Turn = Left | Right

  datatype MoveType = P1 | P2

  /** One parsed line: an action letter and its unsigned value. */
  datatype Instruction = Instruction(action: char, value: nat)

  type Point = (int, int)

  /** Position of a direction in clockwise order, starting at north. */
  function Index(d: Direction): (i: nat)
    ensures i < 4
  {
    match d
    case N => 0
    case E => 1
    case S => 2
    case W => 3
  }

  function FromIndex(i: nat): (d: Direction)
    requires i < 4
    ensures Index(d) == i
  {
    if i == 0 then N else if i == 1 then E else if i == 2 then S else W
  }

  /** A quarter turn counter-clockwise. */
  function TurnLeft(d: Direction): (r: Direction)
    ensures Index(r) == (Index(d) + 3) % 4
  {
    match d
    case N => W
    case E => N
    case S => E
    case W => S
  }

  /** A quarter turn clockwise. */
  function TurnRight(d: Direction): (r: Direction)
    ensures Index(r) == (Index(d) + 1) % 4
  {
    match d
    case N => E
    case E => S
    case S => W
    case W => N
  }

  lemma TurnsInverse(d: Direction)
    ensures TurnRight(TurnLeft(d)) == d && TurnLeft(TurnRight(d)) == d
  {
  }

  lemma FourTurnsIdentity(d: Direction)
    ensures TurnLeft(TurnLeft(TurnLeft(TurnLeft(d)))) == d
    ensures TurnRight(TurnRight(TurnRight(TurnRight(d)))) == d
  {
  }

  /** The number of quarter turns an angle stands for: a non-positive angle
      gives an empty range of turns. */
  function Times(angle: int): (n: nat)
    requires angle % 90 == 0
    ensures angle >= 0 ==> n * 90 == angle
    ensures angle <= 0 ==> n == 0
  {
    if angle <= 0 then 0 else angle / 90
  }

  /** `n` quarter turns, as a rotation of the clockwise index. */
  function Turned(d: Direction, t: Turn, n: nat): Direction {
    if t == Right then FromIndex((Index(d) + n) % 4) else FromIndex((Index(d) - n) % 4)
  }

  lemma TurnedStep(d: Direction, t: Turn, n: nat)
    ensures Turned(d, t, n + 1) == (if t == Left then TurnLeft(Turned(d, t, n)) else TurnRight(Turned(d, t, n)))
  {
    var r := Turned(d, t, n + 1);
    var p := if t == Left then TurnLeft(Turned(d, t, n)) else TurnRight(Turned(d, t, n));
    assert Index(r) == Index(p);
    assert r == FromIndex(Index(r));
    assert p == FromIndex(Index(p));
  }

  /** Turning `n` times one way and `n` times the other way is the identity. */
  lemma TurnedInverse(d: Direction, t: Turn, n: nat)
    ensures Turned(Turned(d, t, n), if t == Left then Right else Left, n) == d
  {
    var r := Turned(Turned(d, t, n), if t == Left then Right else Left, n);
    assert Index(r) == Index(d);
    assert d == FromIndex(Index(d));
  }

  /** Four more turns change nothing. */
  lemma TurnedPeriod(d: Direction, t: Turn, n: nat)
    ensures Turned(d, t, n + 4) == Turned(d, t, n)
  {
  }

  /** `Direction::turn`: `angle / 90` single turns, one at a time. */
  method TurnDirection(d: Direction, t: Turn, angle: int) returns (r: Direction)
    requires angle % 90 == 0
    ensures r == Turned(d, t, Times(angle))
  {
    var times := if angle <= 0 then 0 else angle / 90;
    r := d;
    for i := 0 to times
      invariant r == Turned(d, t, i)
    {
      TurnedStep(d, t, i);
      match t
      case Left => r := TurnLeft(r);
      case Right => r := TurnRight(r);
    }
  }

  function Manhattan(p: Point): nat {
    (if p.0 < 0 then -p.0 else p.0) + (if p.1 < 0 then -p.1 else p.1)
  }

  /** A move of `m` units towards `d`. */
  function Move(p: Point, d: Direction, m: int): (r: Point)
    ensures Manhattan(r) <= Manhattan(p) + (if m < 0 then -m else m)
    ensures d == N || d == S ==> r.0 == p.0
    ensures d == E || d == W ==> r.1 == p.1
  {
    match d
    case N => (p.0, p.1 + m)
    case S => (p.0, p.1 - m)
    case E => (p.0 + m, p.1)
    case W => (p.0 - m, p.1)
  }

  lemma MoveInverse(p: Point, d: Direction, m: int)
    ensures Move(Move(p, d, m), Turned(d, Right, 2), m) == p
  {
  }

  /** The unit vector of a direction. */
  function Unit(d: Direction): (r: Point)
    ensures Manhattan(r) == 1
  {
    Move((0, 0), d, 1)
  }

  /** `n` quarter turns of a point about the origin, in closed form. */
  function Rotated(p: Point, t: Turn, n: nat): (r: Point)
    ensures Manhattan(r) == Manhattan(p)
  {
    var k := if t == Right then n % 4 else (4 - n % 4) % 4;
    if k == 0 then p
    else if k == 1 then (p.1, -p.0)
    else if k == 2 then (-p.0, -p.1)
    else (-p.1, p.0)
  }

  /** One step of the waypoint loop: swap, then negate x (left) or y (right). */
  lemma RotatedStep(p: Point, t: Turn, n: nat)
    ensures Rotated(p, t, n + 1)
      == (var q := Rotated(p, t, n); if t == Left then (-q.1, q.0) else (q.1, -q.0))
  {
  }

  lemma RotatedInverse(p: Point, t: Turn, n: nat)
    ensures Rotated(Rotated(p, t, n), if t == Left then Right else Left, n) == p
  {
  }

  /** The waypoint rotation and the heading rotation agree: rotating the
      unit vector of a heading gives the unit vector of the turned heading. */
  lemma RotatedUnit(d: Direction, t: Turn, n: nat)
    ensures Rotated(Unit(d), t, n) == Unit(Turned(d, t, n))
  {
  }

  /** The whole state of a ferry, as a value. */
  datatype Ship = Ship(pos: Point, facing: Direction, waypoint: Point)

  const Start := Ship((0, 0), E, (10, 1))

  /** The actions `execute_all_input` knows; any other letter is unreachable,
      and turns are by multiples of 90 degrees. */
  predicate ValidInstruction(i: Instruction) {
    i.action in "LRNESWF" && (i.action in "LR" ==> i.value % 90 == 0)
  }

  predicate AllValid(ins: seq<Instruction>) {
    forall k :: 0 <= k < |ins| ==> ValidInstruction(ins[k])
  }

  function TurnOf(c: char): Turn {
    if c == 'L' then Left else Right
  }

  function DirectionOf(c: char): Direction {
    if c == 'N' then N else if c == 'E' then E else if c == 'S' then S else W
  }

  /** One instruction applied to a ferry, in either part. */
  function Step(s: Ship, i: Instruction, mt: MoveType): (r: Ship)
    requires ValidInstruction(i)
    ensures mt == P1 ==> r.waypoint == s.waypoint
    ensures mt == P2 ==> r.facing == s.facing
    ensures mt == P2 && i.action in "LRNESW" ==> r.pos == s.pos
  {
    var c := i.action;
    var v := i.value;
    match mt
    case P1 =>
      if c in "LR" then s.(facing := Turned(s.facing, TurnOf(c), Times(v)))
      else if c == 'F' then s.(pos := Move(s.pos, s.facing, v))
      else s.(pos := Move(s.pos, DirectionOf(c), v))
    case P2 =>
      if c in "LR" then s.(waypoint := Rotated(s.waypoint, TurnOf(c), Times(v)))
      else if c == 'F' then s.(pos := (s.pos.0 + v * s.waypoint.0, s.pos.1 + v * s.waypoint.1))
      else s.(waypoint := Move(s.waypoint, DirectionOf(c), v))
  }

  /** The instructions applied in order. */
  function Run(s: Ship, ins: seq<Instruction>, mt: MoveType): Ship
    requires AllValid(ins)
  {
    if ins == [] then s else Step(Run(s, ins[..|ins| - 1], mt), ins[|ins| - 1], mt)
  }

  /** The distance covered by the moving instructions (everything but turns). */
  function Travel(ins: seq<Instruction>): nat {
    if ins == [] then 0
    else Travel(ins[..|ins| - 1]) + (if ins[|ins| - 1].action in "LR" then 0 else ins[|ins| - 1].value)
  }

  /** Part 1 never takes the ferry further from where it started than the
      distance its moves add up to, and leaves the waypoint alone. */
  lemma {:induction false} Part1Bound(s: Ship, ins: seq<Instruction>)
    requires AllValid(ins)
    ensures Manhattan(Run(s, ins, P1).pos) <= Manhattan(s.pos) + Travel(ins)
    ensures Run(s, ins, P1).waypoint == s.waypoint
  {
    if ins != [] {
      Part1Bound(s, ins[..|ins| - 1]);
    }
  }

  /** In part 2 turns keep the waypoint's distance and moves change it by at
      most their value; the heading never changes. */
  lemma {:induction false} Part2WaypointBound(s: Ship, ins: seq<Instruction>)
    requires AllValid(ins)
    ensures Manhattan(Run(s, ins, P2).waypoint) <= Manhattan(s.waypoint) + Travel(ins)
    ensures Run(s, ins, P2).facing == s.facing
  {
    if ins != [] {
      Part2WaypointBound(s, ins[..|ins| - 1]);
    }
  }

  class WayPoint {
    var x: int
    var y: int

    constructor (x: int, y: int)
      ensures this.x == x && this.y == y
    {
      this.x := x;
      this.y := y;
    }

    /** `update_waypoint`: moves the waypoint `magnitude` units towards
        `direction`. */
    method UpdateWaypoint(direction: Direction, magnitude: int)
      modifies this
      ensures (x, y) == Move((old(x), old(y)), direction, magnitude)
    {
      match direction
      case N => y := y + magnitude;
      case S => y := y - magnitude;
      case E => x := x + magnitude;
      case W => x := x - magnitude;
    }

    /** `turn_waypoint`: `angle / 90` quarter turns about the ferry, each a
        swap of the coordinates followed by a negation. */
    method TurnWaypoint(turn: Turn, angle: int)
      requires angle % 90 == 0
      modifies this
      ensures (x, y) == Rotated((old(x), old(y)), turn, Times(angle))
    {
      var times := if angle <= 0 then 0 else angle / 90;
      for i := 0 to times
        invariant (x, y) == Rotated((old(x), old(y)), turn, i)
      {
        RotatedStep((old(x), old(y)), turn, i);
        x, y := y, x;
        match turn
        case Left => x := -x;
        case Right => y := -y;
      }
    }
  }

  class FerryState {
    var x: int
    var y: int
    var facing: Direction
    var waypoint: WayPoint

    /** The state as a value. */
    function Snapshot(): Ship
      reads this, waypoint
    {
      Ship((x, y), facing, (waypoint.x, waypoint.y))
    }

    constructor ()
      ensures Snapshot() == Start
      ensures fresh(waypoint)
    {
      x := 0;
      y := 0;
      facing := E;
      waypoint := new WayPoint(10, 1);
    }

    /** `execute_basic_move`: moves the ferry itself. */
    method ExecuteBasicMove(direction: Direction, magnitude: int)
      modifies this
      ensures (x, y) == Move((old(x), old(y)), direction, magnitude)
      ensures facing == old(facing) && waypoint == old(waypoint)
    {
      match direction
      case N => y := y + magnitude;
      case S => y := y - magnitude;
      case E => x := x + magnitude;
      case W => x := x - magnitude;
    }

    /** `execute_waypoint`: moves the ferry `magnitude` times the waypoint. */
    method ExecuteWaypoint(magnitude: int)
      modifies this
      ensures x == old(x) + magnitude * waypoint.x && y == old(y) + magnitude * waypoint.y
      ensures facing == old(facing) && waypoint == old(waypoint)
    {
      x := x + magnitude * waypoint.x;
      y := y + magnitude * waypoint.y;
    }

    /** `execute_all_input`, on already parsed lines. */
    method ExecuteAllInput(ins: seq<Instruction>, moveType: MoveType)
      requires AllValid(ins)
      modifies this, waypoint
      ensures waypoint == old(waypoint)
      ensures Snapshot() == Run(old(Snapshot()), ins, moveType)
    {
      ghost var start := Snapshot();
      for i := 0 to |ins|
        invariant waypoint == old(waypoint)
        invariant Snapshot() == Run(start, ins[..i], moveType)
      {
        assert ins[..i + 1][..i] == ins[..i];
        ExecuteOne(ins[i], moveType);
      }
      assert ins[..|ins|] == ins;
    }

    /** The body of `execute_all_input` for a single line. */
    method ExecuteOne(i: Instruction, moveType: MoveType)
      requires ValidInstruction(i)
      modifies this, waypoint
      ensures waypoint == old(waypoint)
      ensures Snapshot() == Step(old(Snapshot()), i, moveType)
    {
      var c := i.action;
      match moveType
      case P1 =>
        if c == 'L' || c == 'R' {
          facing := TurnDirection(facing, TurnOf(c), i.value);
        } else if c == 'F' {
          ExecuteBasicMove(facing, i.value);
        } else {
          ExecuteBasicMove(DirectionOf(c), i.value);
        }
      case P2 =>
        if c == 'L' || c == 'R' {
          waypoint.TurnWaypoint(TurnOf(c), i.value);
        } else if c == 'F' {
          ExecuteWaypoint(i.value);
        } else {
          waypoint.UpdateWaypoint(DirectionOf(c), i.value);
        }
    }

    /** `calculate_man_distance`. */
    function ManDistance(): (d: nat)
      reads this
      ensures d == Manhattan((x, y))
    {
      (if x < 0 then -x else x) + (if y < 0 then -y else y)
    }
  }

  /** `part1` and `part2`: a fresh ferry runs every line and reports its
      Manhattan distance from the start. */
  method Solve(ins: seq<Instruction>, moveType: MoveType) returns (d: nat)
    requires AllValid(ins)
    ensures d == Manhattan(Run(Start, ins, moveType).pos)
    ensures moveType == P1 ==> d <= Travel(ins)
  {
    var ferry := new FerryState();
    ferry.ExecuteAllInput(ins, moveType);
    d := ferry.ManDistance();
    if moveType == P1 {
      Part1Bound(Start, ins);
    }
  }
}
