// Mine Cart Madness: carts run along a network of track pieces. Each tick
// moves every cart one square, in reading order of the carts' positions
// (top to bottom, then left to right). On a straight piece a cart keeps its
// heading, on a curve it follows the curve, and on an intersection it turns
// left, goes straight and turns right, in turn. Part 1 reports where the
// first two carts meet; part 2 removes both carts of every crash and reports
// the last cart left at the end of a tick.

module MineCartMadness {
  import opened Wrappers

  datatype Point = Point(x: int, y: int)

  datatype Facing = Up | Down | Left | Right

  /** What a cart does at its next intersection. */
  datatype CurrentChoice = TurnLeft | Straight | TurnRight

  datatype Cart = Cart(location: Point, choice: CurrentChoice, facing: Facing)

  datatype Strategy = AbortAtFirstCrash | FindLastCart

  /** The road network: each track square and the squares it connects to. */
  type Roads = map<Point, seq<Point>>

  /** `CurrentChoice::next`. */
  function Next(c: CurrentChoice): (r: CurrentChoice)
    ensures r != c
  {
    match c
    case TurnLeft => Straight
    case Straight => TurnRight
    case TurnRight => TurnLeft
  }

  /** The choices come round again after three intersections, and only then. */
  lemma NextCycle(c: CurrentChoice)
    ensures Next(Next(Next(c))) == c
    ensures Next(Next(c)) != c
  {
  }

  /** A new cart takes its first intersection to the left. */
  function NewCart(location: Point, facing: Facing): (c: Cart)
    ensures c.location == location && c.facing == facing
    ensures Next(Next(Next(c.choice))) == TurnLeft && Next(Next(c.choice)) == TurnRight
  {
    Cart(location, TurnLeft, facing)
  }

  /** The square one step from `p` in direction `f` (y grows downwards). */
  function Ahead(p: Point, f: Facing): Point {
    match f
    case Up => Point(p.x, p.y - 1)
    case Down => Point(p.x, p.y + 1)
    case Left => Point(p.x - 1, p.y)
    case Right => Point(p.x + 1, p.y)
  }

  /** `a` and `b` are one square apart horizontally or vertically. */
  predicate Adjacent(a: Point, b: Point) {
    (a.y == b.y && (b.x == a.x + 1 || b.x == a.x - 1))
    || (a.x == b.x && (b.y == a.y + 1 || b.y == a.y - 1))
  }

  /** The heading from `a` to the adjacent square `b`. */
  function Towards(a: Point, b: Point): (f: Facing)
    requires Adjacent(a, b)
    ensures Ahead(a, f) == b
  {
    if b.x - a.x == 1 then Right
    else if b.x - a.x == -1 then Left
    else if b.y - a.y == -1 then Up
    else Down
  }

  /** `Towards` recovers the heading of every step. */
  lemma TowardsAhead(a: Point, f: Facing)
    ensures Adjacent(a, Ahead(a, f))
    ensures Towards(a, Ahead(a, f)) == f
  {
  }

  /** The new heading at an intersection, for the cart's current choice. */
  function Turn(f: Facing, c: CurrentChoice): (r: Facing)
    ensures c == Straight <==> r == f
  {
    match c
    case TurnLeft => (match f case Up => Left case Down => Right case Left => Down case Right => Up)
    case Straight => f
    case TurnRight => (match f case Up => Right case Down => Left case Left => Up case Right => Down)
  }

  /** A left turn and a right turn cancel; four left turns are a full circle;
      and three intersections in a row (left, straight, right, whatever the
      choice to begin with) leave the cart heading as before. */
  lemma TurnsCancel(f: Facing, c: CurrentChoice)
    ensures Turn(Turn(f, TurnLeft), TurnRight) == f
    ensures Turn(Turn(Turn(Turn(f, TurnLeft), TurnLeft), TurnLeft), TurnLeft) == f
    ensures Turn(Turn(Turn(f, c), Next(c)), Next(Next(c))) == f
  {
  }

  /** Every road is a crossing of four links, or a piece of straight or
      curved track with two different links to neighbouring squares, as the
      parser builds them; on any other road a step panics. */
  predicate WellFormed(roads: Roads) {
    forall q :: q in roads ==>
      |roads[q]| == 4
      || (|roads[q]| == 2 && roads[q][0] != roads[q][1]
          && Adjacent(q, roads[q][0]) && Adjacent(q, roads[q][1]))
  }

  /** `Cart::take_step`: the cart moves one square ahead. On a crossing it
      turns by its choice and moves on to the next choice; on a two-link road
      it heads for the link it did not come from; off the network it keeps
      its heading. */
  function TakeStep(c: Cart, roads: Roads): (r: Cart)
    requires WellFormed(roads)
    ensures r.location == Ahead(c.location, c.facing) && Adjacent(c.location, r.location)
    ensures r.location in roads && |roads[r.location]| == 4 ==>
      r.facing == Turn(c.facing, c.choice) && r.choice == Next(c.choice)
    ensures r.location in roads && |roads[r.location]| == 2 ==>
      r.choice == c.choice
      && Ahead(r.location, r.facing) in roads[r.location]
      && Ahead(r.location, r.facing) != c.location
    ensures r.location !in roads ==> r.facing == c.facing && r.choice == c.choice
  {
    var next := Ahead(c.location, c.facing);
    TowardsAhead(c.location, c.facing);
    if next in roads then
      var links := roads[next];
      if |links| == 4 then
        Cart(next, Next(c.choice), Turn(c.facing, c.choice))
      else
        var other := if links[0] != c.location then links[0] else links[1];
        Cart(next, c.choice, Towards(next, other))
    else
      Cart(next, c.choice, c.facing)
  }

  // ---------------------------------------------------------------------
  // The order of a tick: carts sorted by (y, x)

  /** `p` comes before `q` in reading order. */
  predicate Before(p: Point, q: Point) {
    p.y < q.y || (p.y == q.y && p.x < q.x)
  }

  predicate Sorted(s: seq<Point>) {
    forall i, j :: 0 <= i < j < |s| ==> Before(s[i], s[j])
  }

  predicate IsLeast(m: Point, s: set<Point>) {
    m in s && forall q :: q in s ==> q == m || Before(m, q)
  }

  lemma {:induction false} LeastExists(s: set<Point>)
    requires s != {}
    ensures exists m :: IsLeast(m, s)
    decreases s
  {
    var x :| x in s;
    if s == {x} {
      assert IsLeast(x, s);
    } else {
      LeastExists(s - {x});
      var y :| IsLeast(y, s - {x});
      if Before(x, y) {
        forall q | q in s
          ensures q == x || Before(x, q)
        {
          if q != x {
            assert q in s - {x};
          }
        }
        assert IsLeast(x, s);
      } else {
        assert IsLeast(y, s);
      }
    }
  }

  ghost function Least(s: set<Point>): (m: Point)
    requires s != {}
    ensures IsLeast(m, s)
  {
    LeastExists(s);
    var m :| IsLeast(m, s);
    m
  }

  /** The positions of `s` in reading order, as `sort_by_key` leaves them. */
  ghost function SortedKeys(s: set<Point>): (o: seq<Point>)
    ensures Sorted(o)
    ensures forall p :: p in o <==> p in s
    ensures |o| == |s|
    decreases s
  {
    if s == {} then []
    else
      var m := Least(s);
      var rest := SortedKeys(s - {m});
      assert forall j :: 0 <= j < |rest| ==> Before(m, rest[j]);
      [m] + rest
  }

  /** `sort_by_key(|p| (p.y, p.x))` on the cart positions. */
  method SortPositions(keys: set<Point>) returns (order: seq<Point>)
    ensures order == SortedKeys(keys)
  {
    order := [];
    var rest := keys;
    while rest != {}
      invariant order + SortedKeys(rest) == SortedKeys(keys)
      decreases rest
    {
      LeastExists(rest);
      var m :| IsLeast(m, rest);
      SortedKeysFirst(rest, m);
      AppendAssoc(order, [m], SortedKeys(rest - {m}));
      order := order + [m];
      rest := rest - {m};
    }
  }

  /** The least position is unique, and it leads the sorted keys. */
  lemma SortedKeysFirst(s: set<Point>, m: Point)
    requires IsLeast(m, s)
    ensures SortedKeys(s) == [m] + SortedKeys(s - {m})
  {
    assert m == Least(s);
  }

  lemma AppendAssoc(a: seq<Point>, b: seq<Point>, c: seq<Point>)
    ensures a + (b + c) == a + b + c
  {
  }

  // ---------------------------------------------------------------------
  // One tick

  /** Every cart is stored under the square it stands on. */
  predicate Located(carts: map<Point, Cart>) {
    forall p :: p in carts ==> carts[p].location == p
  }

  /** Every position still to be visited holds a cart, unless a crash has
      put it on the removed list. */
  predicate Pending(carts: map<Point, Cart>, order: seq<Point>, i: nat, removed: seq<Point>) {
    i <= |order| && forall k :: i <= k < |order| ==> order[k] in removed || order[k] in carts
  }

  /** The state of a tick after some of its carts have moved, or the crash
      that aborted it: the crash square and the carts then, the mover having
      taken its step under its old position. */
  datatype Outcome =
    | Continue(carts: map<Point, Cart>, removed: seq<Point>)
    | Crashed(at: Point, state: map<Point, Cart>)

  /** The body of the loop of `apply_step`, from the `i`-th position of the
      order on. */
  function Tick(carts: map<Point, Cart>, order: seq<Point>, i: nat, removed: seq<Point>,
                roads: Roads, strategy: Strategy): (r: Outcome)
    requires WellFormed(roads) && Sorted(order) && Located(carts) && Pending(carts, order, i, removed)
    decreases |order| - i
  {
    if i == |order| then Continue(carts, removed)
    else
      var p := order[i];
      if p in removed then Tick(carts, order, i + 1, removed, roads, strategy)
      else
        var c := TakeStep(carts[p], roads);
        var np := c.location;
        if np in carts then
          match strategy
          case AbortAtFirstCrash => Crashed(np, carts[p := c])
          case FindLastCart =>
            assert Pending(carts - {p} - {np}, order, i + 1, removed + [np]) by {
              assert forall k :: i < k < |order| ==> order[k] != p by {
                assert forall k :: i < k < |order| ==> Before(p, order[k]);
              }
            }
            Tick(carts - {p} - {np}, order, i + 1, removed + [np], roads, strategy)
        else
          assert Pending((carts - {p})[np := c], order, i + 1, removed) by {
            assert forall k :: i < k < |order| ==> order[k] != p by {
              assert forall k :: i < k < |order| ==> Before(p, order[k]);
            }
          }
          Tick((carts - {p})[np := c], order, i + 1, removed, roads, strategy)
  }

  /** The answer of one `apply_step` and the carts after it. */
  ghost function Step(carts: map<Point, Cart>, roads: Roads, strategy: Strategy): (r: (Option<Point>, map<Point, Cart>))
    requires WellFormed(roads) && Located(carts)
    ensures r.0.None? ==> Located(r.1)
  {
    var order := SortedKeys(carts.Keys);
    TickLocated(carts, order, 0, [], roads, strategy);
    match Tick(carts, order, 0, [], roads, strategy)
    case Crashed(at, state) => (Some(at), state)
    case Continue(m, _) =>
      (Answer(m, strategy), m)
  }

  /** What `apply_step` reports when its tick did not abort. */
  ghost function Answer(m: map<Point, Cart>, strategy: Strategy): (r: Option<Point>)
    ensures r.Some? <==> strategy == FindLastCart && |m| == 1
    ensures r.Some? ==> m.Keys == {r.value}
  {
    if strategy == FindLastCart && |m| == 1 then
      var k :| k in m;
      LoneKey(m, k);
      Some(k)
    else None
  }

  /** `solve` repeats `apply_step` until it answers; the model stops after
      `fuel` ticks. */
  ghost function SolveWithin(carts: map<Point, Cart>, roads: Roads, strategy: Strategy, fuel: nat): Option<Point>
    requires WellFormed(roads) && Located(carts)
    decreases fuel
  {
    if fuel == 0 then None
    else
      var (answer, next) := Step(carts, roads, strategy);
      if answer.Some? then answer else SolveWithin(next, roads, strategy, fuel - 1)
  }

  /** One pass of the loop of a tick, for a position not on the removed list:
      the mover leaves its square; then it crashes, or it is stored under
      its new square. */
  lemma TickAt(carts: map<Point, Cart>, order: seq<Point>, i: nat, removed: seq<Point>,
               roads: Roads, strategy: Strategy)
    requires WellFormed(roads) && Sorted(order) && Located(carts) && Pending(carts, order, i, removed)
    requires i < |order| && order[i] !in removed
    ensures order[i] in carts
    ensures var p := order[i];
      var c := TakeStep(carts[p], roads);
      var np := c.location;
      && np != p
      && (np in carts && strategy == AbortAtFirstCrash ==>
            Tick(carts, order, i, removed, roads, strategy) == Crashed(np, carts[p := c]))
      && (np in carts && strategy == FindLastCart ==>
            Located(carts - {p} - {np}) && Pending(carts - {p} - {np}, order, i + 1, removed + [np])
            && Tick(carts, order, i, removed, roads, strategy)
               == Tick(carts - {p} - {np}, order, i + 1, removed + [np], roads, strategy))
      && (np !in carts ==>
            Located((carts - {p})[np := c]) && Pending((carts - {p})[np := c], order, i + 1, removed)
            && Tick(carts, order, i, removed, roads, strategy)
               == Tick((carts - {p})[np := c], order, i + 1, removed, roads, strategy))
  {
    var p := order[i];
    assert forall k :: i < k < |order| ==> order[k] != p by {
      assert forall k :: i < k < |order| ==> Before(p, order[k]);
    }
  }

  // ---------------------------------------------------------------------
  // Properties of a tick

  /** Dropping one stored key shrinks a map by one. */
  lemma RemoveCount(m: map<Point, Cart>, p: Point)
    requires p in m
    ensures |m - {p}| == |m| - 1
  {
    assert (m - {p}).Keys == m.Keys - {p};
  }

  /** The carts stay stored under their squares, and a crash is reported on a
      square where two carts stand: the one that was hit, stored there, and
      the mover, stored under the square it came from. */
  lemma {:induction false} TickLocated(carts: map<Point, Cart>, order: seq<Point>, i: nat, removed: seq<Point>,
                                       roads: Roads, strategy: Strategy)
    requires WellFormed(roads) && Sorted(order) && Located(carts) && Pending(carts, order, i, removed)
    ensures Tick(carts, order, i, removed, roads, strategy).Continue? ==>
      Located(Tick(carts, order, i, removed, roads, strategy).carts)
    ensures Tick(carts, order, i, removed, roads, strategy).Crashed? ==>
      var r := Tick(carts, order, i, removed, roads, strategy);
      r.at in r.state && r.state[r.at].location == r.at
      && exists p :: p in r.state && p != r.at && r.state[p].location == r.at
    decreases |order| - i
  {
    if i < |order| {
      var p := order[i];
      if p in removed {
        TickLocated(carts, order, i + 1, removed, roads, strategy);
      } else {
        var c := TakeStep(carts[p], roads);
        var np := c.location;
        if np in carts {
          if strategy == FindLastCart {
            TickLocated(carts - {p} - {np}, order, i + 1, removed + [np], roads, strategy);
          } else {
            assert np != p;
            assert carts[p := c][p].location == np;
          }
        } else {
          TickLocated((carts - {p})[np := c], order, i + 1, removed, roads, strategy);
        }
      }
    }
  }

  /** Under `FindLastCart` a tick never aborts, and every crash takes two
      carts away: the number of carts drops by an even number. */
  lemma {:induction false} TickRemovesPairs(carts: map<Point, Cart>, order: seq<Point>, i: nat, removed: seq<Point>,
                                            roads: Roads)
    requires WellFormed(roads) && Sorted(order) && Located(carts) && Pending(carts, order, i, removed)
    ensures Tick(carts, order, i, removed, roads, FindLastCart).Continue?
    ensures |Tick(carts, order, i, removed, roads, FindLastCart).carts| <= |carts|
    ensures |carts| % 2 == |Tick(carts, order, i, removed, roads, FindLastCart).carts| % 2
    decreases |order| - i
  {
    if i < |order| {
      var p := order[i];
      if p in removed {
        TickRemovesPairs(carts, order, i + 1, removed, roads);
      } else {
        TickAt(carts, order, i, removed, roads, FindLastCart);
        var c := TakeStep(carts[p], roads);
        var np := c.location;
        RemoveCount(carts, p);
        if np in carts {
          RemoveCount(carts - {p}, np);
          TickRemovesPairs(carts - {p} - {np}, order, i + 1, removed + [np], roads);
        } else {
          TickRemovesPairs((carts - {p})[np := c], order, i + 1, removed, roads);
        }
      }
    }
  }

  /** Until its first crash, a tick under `AbortAtFirstCrash` is the same as
      one under `FindLastCart`: a tick that does not abort loses no cart. */
  lemma {:induction false} AbortBeforeFirstCrash(carts: map<Point, Cart>, order: seq<Point>, i: nat, removed: seq<Point>,
                                                 roads: Roads)
    requires WellFormed(roads) && Sorted(order) && Located(carts) && Pending(carts, order, i, removed)
    ensures Tick(carts, order, i, removed, roads, AbortAtFirstCrash).Continue? ==>
      Tick(carts, order, i, removed, roads, AbortAtFirstCrash) == Tick(carts, order, i, removed, roads, FindLastCart)
      && |Tick(carts, order, i, removed, roads, AbortAtFirstCrash).carts| == |carts|
    decreases |order| - i
  {
    if i < |order| {
      var p := order[i];
      if p in removed {
        AbortBeforeFirstCrash(carts, order, i + 1, removed, roads);
      } else {
        var c := TakeStep(carts[p], roads);
        var np := c.location;
        if np !in carts {
          RemoveCount(carts, p);
          AbortBeforeFirstCrash((carts - {p})[np := c], order, i + 1, removed, roads);
        }
      }
    }
  }

  /** With an even number of carts `FindLastCart` never ends with exactly
      one cart, so `solve` does not answer however many ticks it runs. */
  lemma {:induction false} EvenNeverAnswers(carts: map<Point, Cart>, roads: Roads, fuel: nat)
    requires WellFormed(roads) && Located(carts) && |carts| % 2 == 0
    ensures SolveWithin(carts, roads, FindLastCart, fuel) == None
    decreases fuel
  {
    if fuel > 0 {
      var t := Tick(carts, SortedKeys(carts.Keys), 0, [], roads, FindLastCart);
      TickRemovesPairs(carts, SortedKeys(carts.Keys), 0, [], roads);
      assert Step(carts, roads, FindLastCart) == (None, t.carts);
      EvenNeverAnswers(t.carts, roads, fuel - 1);
    }
  }

  /** An answer found within some number of ticks is found, unchanged, with
      any larger allowance. */
  lemma {:induction false} SolveMonotone(carts: map<Point, Cart>, roads: Roads, strategy: Strategy, fuel: nat, more: nat)
    requires WellFormed(roads) && Located(carts) && fuel <= more
    requires SolveWithin(carts, roads, strategy, fuel).Some?
    ensures SolveWithin(carts, roads, strategy, more) == SolveWithin(carts, roads, strategy, fuel)
    decreases fuel
  {
    var (answer, next) := Step(carts, roads, strategy);
    if answer.None? {
      SolveMonotone(next, roads, strategy, fuel - 1, more - 1);
    }
  }

  // ---------------------------------------------------------------------
  // The carts, updated in place

  /** `Carts`: the carts by position and the strategy of the part. */
  class Carts {
    var carts: map<Point, Cart>
    var strategy: Strategy

    constructor (carts: map<Point, Cart>, strategy: Strategy)
      ensures this.carts == carts && this.strategy == strategy
    {
      this.carts := carts;
      this.strategy := strategy;
    }

    /** `apply_step`: one tick. Under `AbortAtFirstCrash` the answer is the
        square of the first crash, under `FindLastCart` the position of the
        only cart left at the end of the tick. */
    method ApplyStep(roads: Roads) returns (r: Option<Point>)
      requires WellFormed(roads) && Located(carts)
      modifies this
      ensures strategy == old(strategy)
      ensures r.None? ==> Located(carts)
      ensures (r, carts) == Step(old(carts), roads, strategy)
    {
      var order := SortPositions(carts.Keys);
      var removed: seq<Point> := [];
      for i := 0 to |order|
        invariant strategy == old(strategy) && Located(carts)
        invariant Pending(carts, order, i, removed)
        invariant Tick(carts, order, i, removed, roads, strategy) == Tick(old(carts), order, 0, [], roads, strategy)
      {
        var p := order[i];
        if p in removed {
          continue;
        }
        TickAt(carts, order, i, removed, roads, strategy);
        var c := TakeStep(carts[p], roads);
        var np := c.location;
        if np in carts {
          match strategy
          case AbortAtFirstCrash =>
            carts := carts[p := c];
            r := Some(np);
            return;
          case FindLastCart =>
            carts := carts - {p};
            carts := carts - {np};
            removed := removed + [np];
        } else {
          carts := carts - {p};
          carts := carts[np := c];
        }
      }
      if strategy == FindLastCart && |carts| == 1 {
        var k :| k in carts;
        LoneKey(carts, k);
        r := Some(k);
      } else {
        r := None;
      }
      assert r == Answer(carts, strategy);
    }

    /** `solve`, stopped after at most `fuel` ticks. */
    method Solve(roads: Roads, fuel: nat) returns (r: Option<Point>)
      requires WellFormed(roads) && Located(carts)
      modifies this
      ensures strategy == old(strategy)
      ensures r == SolveWithin(old(carts), roads, strategy, fuel)
    {
      var n := fuel;
      r := None;
      while n > 0
        invariant strategy == old(strategy) && Located(carts) && r.None?
        invariant SolveWithin(carts, roads, strategy, n) == SolveWithin(old(carts), roads, strategy, fuel)
        decreases n
      {
        ghost var before := carts;
        r := ApplyStep(roads);
        assert (r, carts) == Step(before, roads, strategy);
        if r.Some? {
          return;
        }
        n := n - 1;
      }
    }
  }

  /** A map with one key has no other key. */
  lemma LoneKey(m: map<Point, Cart>, k: Point)
    requires |m| == 1 && k in m
    ensures m.Keys == {k}
  {
    RemoveCount(m, k);
    assert (m - {k}).Keys == {};
  }
}
