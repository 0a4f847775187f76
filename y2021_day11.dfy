// Dumbo Octopus: a square grid of energy levels. Each step raises every
// level by one; a cell reaching 10 flashes, raising its up to eight
// neighbours, which may flash in turn; flashed cells end the step at 0.

module DumboOctopus {
  import opened Wrappers

  /** A cell as `(x, y)`; the grid is read as `map[y][x]`. */
  type Cell = (int, int)

  type Grid = seq<seq<int>>

  /** `NEIGHBOUR_INDEX`: the eight offsets, in the order they are tried. */
  const NeighbourOffsets: seq<(int, int)> :=
    [(1, 0), (-1, 0), (0, 1), (0, -1), (1, 1), (1, -1), (-1, 1), (-1, -1)]

  /** The first position from `j` on holding the offset `(dx, dy)`, 8
      when there is none. */
  function OffsetSearch(dx: int, dy: int, j: int): (k: int)
    requires 0 <= j <= 8
    decreases 8 - j
    ensures j <= k <= 8
    ensures k < 8 ==> NeighbourOffsets[k] == (dx, dy)
    ensures forall i :: j <= i < k ==> NeighbourOffsets[i] != (dx, dy)
  {
    if j == 8 then 8
    else if NeighbourOffsets[j] == (dx, dy) then j
    else OffsetSearch(dx, dy, j + 1)
  }

  /** The eight offsets are exactly the steps to an adjacent cell. */
  lemma OffsetsAdjacent(dx: int, dy: int)
    ensures (exists i :: 0 <= i < 8 && NeighbourOffsets[i] == (dx, dy)) <==>
      -1 <= dx <= 1 && -1 <= dy <= 1 && (dx, dy) != (0, 0)
  {
    if -1 <= dx <= 1 && -1 <= dy <= 1 && (dx, dy) != (0, 0) {
      if dx == 1 && dy == 0 { assert NeighbourOffsets[0] == (dx, dy); }
      else if dx == -1 && dy == 0 { assert NeighbourOffsets[1] == (dx, dy); }
      else if dx == 0 && dy == 1 { assert NeighbourOffsets[2] == (dx, dy); }
      else if dx == 0 && dy == -1 { assert NeighbourOffsets[3] == (dx, dy); }
      else if dx == 1 && dy == 1 { assert NeighbourOffsets[4] == (dx, dy); }
      else if dx == 1 && dy == -1 { assert NeighbourOffsets[5] == (dx, dy); }
      else if dx == -1 && dy == 1 { assert NeighbourOffsets[6] == (dx, dy); }
      else { assert NeighbourOffsets[7] == (dx, dy); }
    }
  }

  /** The position of an offset in `NeighbourOffsets`, 8 when it is none. */
  function OffsetIndex(dx: int, dy: int): (k: int)
    ensures 0 <= k <= 8
    ensures k < 8 <==> -1 <= dx <= 1 && -1 <= dy <= 1 && (dx, dy) != (0, 0)
    ensures k < 8 ==> NeighbourOffsets[k] == (dx, dy)
  {
    OffsetsAdjacent(dx, dy);
    OffsetSearch(dx, dy, 0)
  }

  /** Each entry of `NeighbourOffsets` is found at its own position. */
  lemma OffsetIndexAt(k: int)
    requires 0 <= k < 8
    ensures OffsetIndex(NeighbourOffsets[k].0, NeighbourOffsets[k].1) == k
  {
    assert forall i, j :: 0 <= i < j < 8 ==> NeighbourOffsets[i] != NeighbourOffsets[j];
  }

  /** The cell `c` moved by the `k`-th offset. */
  function Shift(c: Cell, k: int): Cell
    requires 0 <= k < 8
  {
    (c.0 + NeighbourOffsets[k].0, c.1 + NeighbourOffsets[k].1)
  }

  /** The cells inside the grid reached by the first `k` offsets from `c`. */
  function Tried(c: Cell, k: int, len: int): (r: set<Cell>)
    requires 0 <= k <= 8
    ensures forall d :: d in r ==> InGrid(d, len)
  {
    if k == 0 then {}
    else Tried(c, k - 1, len) + (if InGrid(Shift(c, k - 1), len) then {Shift(c, k - 1)} else {})
  }

  /** A cell is among the first `k` tries exactly when it is an adjacent
      grid cell whose offset comes before position `k`. */
  lemma {:induction false} TriedIndex(c: Cell, k: int, len: int, d: Cell)
    requires 0 <= k <= 8
    ensures d in Tried(c, k, len) <==>
      InGrid(d, len) && Adjacent(c, d) && OffsetIndex(d.0 - c.0, d.1 - c.1) < k
  {
    if k > 0 {
      TriedIndex(c, k - 1, len, d);
      var n := Shift(c, k - 1);
      var i := OffsetIndex(d.0 - c.0, d.1 - c.1);
      if d == n {
        OffsetIndexAt(k - 1);
        assert (n.0 - c.0, n.1 - c.1) == NeighbourOffsets[k - 1];
        assert i == k - 1;
      } else {
        assert i != k - 1;
      }
    }
  }

  lemma TriedIndexes(c: Cell, k: int, len: int)
    requires 0 <= k <= 8
    ensures forall d :: d in Tried(c, k, len) <==>
      InGrid(d, len) && Adjacent(c, d) && OffsetIndex(d.0 - c.0, d.1 - c.1) < k
  {
    forall d: Cell
      ensures d in Tried(c, k, len) <==>
        InGrid(d, len) && Adjacent(c, d) && OffsetIndex(d.0 - c.0, d.1 - c.1) < k
    {
      TriedIndex(c, k, len, d);
    }
  }

  /** The `k`-th offset reaches a cell the earlier ones did not. */
  lemma TriedFresh(c: Cell, k: int, len: int)
    requires 0 <= k < 8
    ensures Shift(c, k) !in Tried(c, k, len)
  {
    TriedIndexes(c, k, len);
    OffsetIndexAt(k);
  }

  /** All eight offsets reach exactly the grid cells adjacent to `c`. */
  lemma TriedAll(c: Cell, len: int)
    ensures forall d :: d in Tried(c, 8, len) <==> InGrid(d, len) && Adjacent(d, c) && Adjacent(c, d)
  {
    TriedIndexes(c, 8, len);
  }

  predicate Square(g: Grid) {
    forall y :: 0 <= y < |g| ==> |g[y]| == |g|
  }

  predicate InGrid(c: Cell, len: int) {
    0 <= c.0 < len && 0 <= c.1 < len
  }

  /** Two different cells touching by a side or a corner. */
  predicate Adjacent(c: Cell, d: Cell) {
    c != d && -1 <= d.0 - c.0 <= 1 && -1 <= d.1 - c.1 <= 1
  }

  function Get(g: Grid, c: Cell): int
    requires Square(g) && InGrid(c, |g|)
  {
    g[c.1][c.0]
  }

  /** The grid with one cell replaced. */
  function Put(g: Grid, c: Cell, v: int): (h: Grid)
    requires Square(g) && InGrid(c, |g|)
    ensures Square(h) && |h| == |g|
    ensures Get(h, c) == v
    ensures forall d :: InGrid(d, |g|) && d != c ==> Get(h, d) == Get(g, d)
  {
    g[c.1 := g[c.1][c.0 := v]]
  }

  /** The cells of a list. */
  function CellSet(s: seq<Cell>): (r: set<Cell>)
    ensures forall c :: c in r <==> c in s
  {
    set c | c in s
  }

  predicate Distinct(s: seq<Cell>) {
    forall i, j :: 0 <= i < j < |s| ==> s[i] != s[j]
  }

  /** The neighbours `get_neighbour_indexes` yields from the `k`-th offset
      on: the shifted cells that stay inside the grid. */
  function NeighboursFrom(c: Cell, len: int, k: nat): (r: seq<Cell>)
    requires k <= 8
    decreases 8 - k
    ensures |r| <= 8 - k
    ensures Distinct(r)
    ensures forall d :: d in r ==> d !in Tried(c, k, len)
    ensures forall d :: d in r || d in Tried(c, k, len) <==> d in Tried(c, 8, len)
  {
    if k == 8 then []
    else
      var d := Shift(c, k);
      var rest := NeighboursFrom(c, len, k + 1);
      TriedFresh(c, k, len);
      assert Tried(c, k + 1, len) == Tried(c, k, len) + (if InGrid(d, len) then {d} else {});
      if InGrid(d, len) then
        assert d in Tried(c, k + 1, len);
        [d] + rest
      else rest
  }

  /** `get_neighbour_indexes`: at most eight distinct cells, all inside the
      grid, exactly the cells adjacent to `(x, y)`. */
  function NeighbourIndexes(x: int, y: int, len: int): (r: seq<Cell>)
    ensures |r| <= 8 && Distinct(r)
    ensures forall d :: d in r <==> InGrid(d, len) && Adjacent((x, y), d)
  {
    TriedAll((x, y), len);
    assert Tried((x, y), 0, len) == {};
    NeighboursFrom((x, y), len, 0)
  }

  /** The cells of a `len` by `len` grid. */
  function AllCells(len: nat): (s: set<Cell>)
    ensures forall c :: c in s <==> InGrid(c, len)
  {
    set x, y | 0 <= x < len && 0 <= y < len :: (x, y)
  }

  /** The cells of rows `0..rows`. */
  function RowsBelow(len: nat, rows: nat): (s: set<Cell>)
    ensures forall c :: c in s <==> 0 <= c.0 < len && 0 <= c.1 < rows
  {
    set x, y | 0 <= x < len && 0 <= y < rows :: (x, y)
  }

  /** The first `n` cells of row `y`. */
  function RowPrefix(n: nat, y: int): (s: set<Cell>)
    ensures forall c :: c in s <==> 0 <= c.0 < n && c.1 == y
  {
    set x | 0 <= x < n :: (x, y)
  }

  lemma {:induction false} RowPrefixCard(n: nat, y: int)
    ensures |RowPrefix(n, y)| == n
  {
    if n > 0 {
      RowPrefixCard(n - 1, y);
      assert RowPrefix(n, y) == RowPrefix(n - 1, y) + {(n - 1, y)};
    }
  }

  lemma RowsBelowSplit(len: nat, rows: nat)
    requires rows > 0
    ensures RowsBelow(len, rows) == RowsBelow(len, rows - 1) + RowPrefix(len, rows - 1)
    ensures RowsBelow(len, rows - 1) !! RowPrefix(len, rows - 1)
  {
  }

  lemma {:induction false} RowsBelowCard(len: nat, rows: nat)
    ensures |RowsBelow(len, rows)| == len * rows
  {
    if rows > 0 {
      RowsBelowCard(len, rows - 1);
      RowPrefixCard(len, rows - 1);
      RowsBelowSplit(len, rows);
      assert len * rows == len * (rows - 1) + len;
    }
  }

  /** A grid of side `len` has `len * len` cells. */
  lemma AllCellsCard(len: nat)
    ensures |AllCells(len)| == len * len
  {
    RowsBelowCard(len, len);
    assert AllCells(len) == RowsBelow(len, len);
  }

  /** A list of distinct cells has as many cells as entries. */
  lemma {:induction false} DistinctCard(s: seq<Cell>)
    requires Distinct(s)
    ensures |CellSet(s)| == |s|
  {
    if s != [] {
      var t := s[..|s| - 1];
      DistinctCard(t);
      assert CellSet(s) == CellSet(t) + {s[|s| - 1]};
      assert s[|s| - 1] !in t;
    }
  }

  /** How many entries of `s` lie in `a`. */
  function CountIn(s: seq<Cell>, a: set<Cell>): (n: nat)
    ensures n <= |s|
  {
    if s == [] then 0 else (if s[0] in a then 1 else 0) + CountIn(s[1..], a)
  }

  /** Adding `c` to the set counts `c` once more when it is in the list. */
  lemma {:induction false} CountInAdd(s: seq<Cell>, a: set<Cell>, c: Cell)
    requires Distinct(s) && c !in a
    ensures CountIn(s, a + {c}) == CountIn(s, a) + (if c in s then 1 else 0)
  {
    if s != [] {
      CountInAdd(s[1..], a, c);
      assert c in s <==> c == s[0] || c in s[1..];
      assert forall j :: 0 <= j < |s| - 1 ==> s[1..][j] == s[j + 1] != s[0];
    }
  }

  /** How many neighbours of `d` lie in `a`; never more than 8. */
  function NbrCount(d: Cell, a: set<Cell>, len: int): (n: nat)
    ensures n <= 8
  {
    CountIn(NeighbourIndexes(d.0, d.1, len), a)
  }

  /** A new flash at `c` raises the neighbour count of exactly the cells
      adjacent to `c`. */
  lemma NbrCountAdd(d: Cell, a: set<Cell>, c: Cell, len: int)
    requires c !in a && InGrid(c, len)
    ensures NbrCount(d, a + {c}, len) == NbrCount(d, a, len) + (if Adjacent(d, c) then 1 else 0)
  {
    CountInAdd(NeighbourIndexes(d.0, d.1, len), a, c);
  }

  /** The first loop of `apply_step`: every cell goes up by one. */
  method IncrementAll(g: Grid) returns (h: Grid)
    requires Square(g)
    ensures Square(h) && |h| == |g|
    ensures forall d :: InGrid(d, |g|) ==> Get(h, d) == Get(g, d) + 1
  {
    h := g;
    for y := 0 to |g|
      invariant Square(h) && |h| == |g|
      invariant forall d :: InGrid(d, |g|) ==> Get(h, d) == Get(g, d) + (if d.1 < y then 1 else 0)
    {
      for x := 0 to |g|
        invariant Square(h) && |h| == |g|
        invariant forall d :: InGrid(d, |g|) ==>
          Get(h, d) == Get(g, d) + (if d.1 < y || (d.1 == y && d.0 < x) then 1 else 0)
      {
        h := Put(h, (x, y), Get(h, (x, y)) + 1);
      }
    }
  }

  /** The second loop of `apply_step`: the cells at exactly 10, row by
      row, each once. */
  method InitialFlashes(g: Grid) returns (stack: seq<Cell>)
    requires Square(g)
    ensures Distinct(stack)
    ensures forall d :: d in stack <==> InGrid(d, |g|) && Get(g, d) == 10
  {
    stack := [];
    for y := 0 to |g|
      invariant Distinct(stack)
      invariant forall d :: d in stack <==> InGrid(d, |g|) && d.1 < y && Get(g, d) == 10
    {
      for x := 0 to |g|
        invariant Distinct(stack)
        invariant forall d :: d in stack <==>
          InGrid(d, |g|) && (d.1 < y || (d.1 == y && d.0 < x)) && Get(g, d) == 10
      {
        if g[y][x] == 10 {
          stack := stack + [(x, y)];
        }
      }
    }
  }

  /** The inner loop of the propagation: the popped cell `c` raises each
      of its neighbours, tried in `NeighbourOffsets` order and kept when
      inside the grid, and one that reaches exactly 10 is pushed. */
  method FlashNeighbours(g: Grid, c: Cell, stack: seq<Cell>) returns (h: Grid, st: seq<Cell>)
    requires Square(g) && InGrid(c, |g|) && Distinct(stack)
    requires forall e :: e in stack ==> InGrid(e, |g|) && Get(g, e) != 9
    ensures Square(h) && |h| == |g|
    ensures forall d :: InGrid(d, |g|) ==> Get(h, d) == Get(g, d) + (if Adjacent(d, c) then 1 else 0)
    ensures Distinct(st)
    ensures forall e :: e in st <==> e in stack || (InGrid(e, |g|) && Adjacent(e, c) && Get(g, e) == 9)
  {
    h, st := g, stack;
    for k := 0 to 8
      invariant 0 <= k <= 8
      invariant Square(h) && |h| == |g|
      invariant forall d :: InGrid(d, |g|) ==> Get(h, d) == Get(g, d) + (if d in Tried(c, k, |g|) then 1 else 0)
      invariant Distinct(st)
      invariant forall e :: e in st <==> e in stack || (e in Tried(c, k, |g|) && Get(g, e) == 9)
    {
      var n := Shift(c, k);
      TriedFresh(c, k, |g|);
      if InGrid(n, |g|) {
        h := Put(h, n, Get(h, n) + 1);
        if Get(h, n) == 10 {
          st := st + [n];
        }
      }
    }
    TriedAll(c, |g|);
  }

  /** What holds of the propagation after the flashes in `done`, with the
      cells in `stack` waiting to flash. */
  ghost predicate Propagating(base: Grid, h: Grid, done: set<Cell>, stack: seq<Cell>)
    requires Square(base) && Square(h) && |h| == |base|
  {
    var len := |base|;
    Distinct(stack) &&
    (forall e :: e in stack ==> InGrid(e, len) && e !in done) &&
    (forall d :: InGrid(d, len) ==> Get(h, d) == Get(base, d) + NbrCount(d, done, len)) &&
    (forall d :: InGrid(d, len) ==> (Get(h, d) >= 10 <==> d in done || d in stack))
  }

  /** Popping the last cell of the stack: it is a fresh cell at 10 or
      more, and the rest of the stack still waits on cells at 10 or more. */
  lemma PopKeeps(base: Grid, h: Grid, done: set<Cell>, stack: seq<Cell>)
    requires Square(base) && Square(h) && |h| == |base| && stack != []
    requires Propagating(base, h, done, stack)
    ensures var c, rest := stack[|stack| - 1], stack[..|stack| - 1];
      InGrid(c, |base|) && c !in done && c !in rest && Distinct(rest) &&
      Get(base, c) + NbrCount(c, done, |base|) >= 10 &&
      stack == rest + [c] &&
      forall e :: e in rest ==> InGrid(e, |base|) && Get(h, e) != 9
  {
    var c, rest := stack[|stack| - 1], stack[..|stack| - 1];
    assert stack == rest + [c];
    assert forall i :: 0 <= i < |rest| ==> rest[i] == stack[i] != c;
  }

  /** Flashing the popped cell `c` keeps `Propagating`, with `c` done. */
  lemma FlashKeeps(base: Grid, g: Grid, h: Grid, done: set<Cell>, c: Cell, stack: seq<Cell>, st: seq<Cell>)
    requires Square(base) && Square(g) && Square(h) && |g| == |base| && |h| == |base|
    requires InGrid(c, |base|) && c !in done && c !in stack
    requires Propagating(base, g, done, stack + [c])
    requires forall d :: InGrid(d, |g|) ==> Get(h, d) == Get(g, d) + (if Adjacent(d, c) then 1 else 0)
    requires Distinct(st)
    requires forall e :: e in st <==> e in stack || (InGrid(e, |g|) && Adjacent(e, c) && Get(g, e) == 9)
    ensures Propagating(base, h, done + {c}, st)
  {
    var len := |base|;
    forall d | InGrid(d, len)
      ensures Get(h, d) == Get(base, d) + NbrCount(d, done + {c}, len)
    {
      NbrCountAdd(d, done, c, len);
    }
  }

  /** Each cell of `order` reaches 10 from its level in `base` and the
      flashes of the cells before it. */
  ghost predicate Justified(base: Grid, order: seq<Cell>)
    requires Square(base)
  {
    forall k :: 0 <= k < |order| ==>
      InGrid(order[k], |base|) && Get(base, order[k]) + NbrCount(order[k], CellSet(order[..k]), |base|) >= 10
  }

  lemma JustifiedAppend(base: Grid, order: seq<Cell>, c: Cell)
    requires Square(base) && Justified(base, order) && InGrid(c, |base|)
    requires Get(base, c) + NbrCount(c, CellSet(order), |base|) >= 10
    ensures Justified(base, order + [c])
  {
    var o := order + [c];
    forall k | 0 <= k < |o|
      ensures InGrid(o[k], |base|) && Get(base, o[k]) + NbrCount(o[k], CellSet(o[..k]), |base|) >= 10
    {
      if k < |order| {
        assert o[..k] == order[..k];
      } else {
        assert o[..k] == order;
      }
    }
  }

  /** The invariant of the propagation loop, `order` being the cells
      popped so far. */
  ghost predicate Spreading(base: Grid, h: Grid, order: seq<Cell>, stack: seq<Cell>)
    requires Square(base)
  {
    Square(h) && |h| == |base| && Distinct(order) &&
    (forall e :: e in order ==> InGrid(e, |base|)) &&
    Propagating(base, h, CellSet(order), stack) &&
    Justified(base, order)
  }

  lemma {:induction false} CountInEmpty(s: seq<Cell>)
    ensures CountIn(s, {}) == 0
  {
    if s != [] {
      CountInEmpty(s[1..]);
    }
  }

  /** Before any flash the stack holds exactly the cells at 10. */
  lemma SpreadingInit(base: Grid, stack0: seq<Cell>)
    requires Square(base) && Distinct(stack0)
    requires forall d :: d in stack0 <==> InGrid(d, |base|) && Get(base, d) == 10
    requires forall d :: InGrid(d, |base|) ==> Get(base, d) <= 10
    ensures Spreading(base, base, [], stack0)
  {
    var none := CellSet([]);
    assert none == {};
    forall d | InGrid(d, |base|) ensures NbrCount(d, none, |base|) == 0 {
      CountInEmpty(NeighbourIndexes(d.0, d.1, |base|));
    }
    assert Propagating(base, base, none, stack0);
  }

  /** One round of the loop: pop a cell and flash it. */
  method FlashOne(base: Grid, h: Grid, stack: seq<Cell>, ghost order: seq<Cell>)
      returns (h': Grid, stack': seq<Cell>, ghost c: Cell)
    requires Square(base) && stack != []
    requires Spreading(base, h, order, stack)
    ensures Spreading(base, h', order + [c], stack')
    ensures InGrid(c, |base|) && c !in order
  {
    var current := stack[|stack| - 1];
    var rest := stack[..|stack| - 1];
    c := current;
    PopKeeps(base, h, CellSet(order), stack);
    h', stack' := FlashNeighbours(h, current, rest);
    FlashKeeps(base, h, h', CellSet(order), c, rest, stack');
    JustifiedAppend(base, order, c);
    assert CellSet(order + [c]) == CellSet(order) + {c};
  }

  /** Flashing a fresh cell leaves fewer cells that have not flashed. */
  lemma Shrinks(len: nat, order: seq<Cell>, c: Cell)
    requires InGrid(c, len) && c !in order
    ensures |AllCells(len) - CellSet(order + [c])| < |AllCells(len) - CellSet(order)|
  {
    var before := AllCells(len) - CellSet(order);
    assert AllCells(len) - CellSet(order + [c]) == before - {c};
    assert c in before;
  }

  /** The `while let Some(current) = stack.pop()` loop. Besides the count,
      `order` lists the flashed cells in the order they were popped: each
      reached 10 from its own step's increment and the flashes before it,
      so no cell flashes without cause and none flashes twice. */
  method Propagate(base: Grid, stack0: seq<Cell>) returns (h: Grid, flashCount: nat, ghost order: seq<Cell>)
    requires Square(base) && Distinct(stack0)
    requires forall d :: d in stack0 <==> InGrid(d, |base|) && Get(base, d) == 10
    requires forall d :: InGrid(d, |base|) ==> Get(base, d) <= 10
    ensures Square(h) && |h| == |base|
    ensures flashCount == |order| && Distinct(order)
    ensures forall e :: e in order ==> InGrid(e, |base|)
    ensures forall d :: InGrid(d, |base|) ==> Get(h, d) == Get(base, d) + NbrCount(d, CellSet(order), |base|)
    ensures forall d :: InGrid(d, |base|) ==> (Get(h, d) >= 10 <==> d in order)
    ensures Justified(base, order)
  {
    var len := |base|;
    h, flashCount, order := base, 0, [];
    var stack := stack0;
    SpreadingInit(base, stack0);
    while stack != []
      invariant flashCount == |order|
      invariant Spreading(base, h, order, stack)
      decreases |AllCells(len) - CellSet(order)|
    {
      ghost var c;
      h, stack, c := FlashOne(base, h, stack, order);
      Shrinks(len, order, c);
      order := order + [c];
      flashCount := flashCount + 1;
    }
  }

  /** The last loop of `apply_step`: every cell above 9 goes back to 0. */
  method ResetFlashed(g: Grid) returns (h: Grid)
    requires Square(g)
    ensures Square(h) && |h| == |g|
    ensures forall d :: InGrid(d, |g|) ==> Get(h, d) == if Get(g, d) > 9 then 0 else Get(g, d)
  {
    h := g;
    for y := 0 to |g|
      invariant Square(h) && |h| == |g|
      invariant forall d :: InGrid(d, |g|) ==>
        Get(h, d) == if d.1 < y && Get(g, d) > 9 then 0 else Get(g, d)
    {
      for x := 0 to |g|
        invariant Square(h) && |h| == |g|
        invariant forall d :: InGrid(d, |g|) ==>
          Get(h, d) == if (d.1 < y || (d.1 == y && d.0 < x)) && Get(g, d) > 9 then 0 else Get(g, d)
      {
        if h[y][x] > 9 {
          h := Put(h, (x, y), 0);
        }
      }
    }
  }

  /** A grid as parsed: square, with one digit per cell. The side is at
      most 127 because the source measures it as an `i8`. */
  ghost predicate Levels(g: Grid) {
    Square(g) && |g| <= 127 && forall d :: InGrid(d, |g|) ==> 0 <= Get(g, d) <= 9
  }

  /** A step in which every cell flashes leaves every cell at 0. */
  lemma AllFlash(g: Grid, order: seq<Cell>)
    requires Square(g) && Distinct(order)
    requires |order| == |g| * |g|
    requires forall e :: e in order ==> InGrid(e, |g|)
    ensures forall d :: InGrid(d, |g|) ==> d in order
  {
    DistinctCard(order);
    AllCellsCard(|g|);
    var s := CellSet(order);
    assert s <= AllCells(|g|);
    assert AllCells(|g|) == s + (AllCells(|g|) - s);
    assert AllCells(|g|) - s == {};
  }

  lemma SubsetCard(a: set<Cell>, b: set<Cell>)
    requires a <= b
    ensures |a| <= |b|
  {
    assert b == a + (b - a);
  }

  /** At most every cell flashes in one step. */
  lemma FlashBound(g: Grid, order: seq<Cell>)
    requires Square(g) && Distinct(order)
    requires forall e :: e in order ==> InGrid(e, |g|)
    ensures |order| <= |g| * |g|
  {
    DistinctCard(order);
    AllCellsCard(|g|);
    SubsetCard(CellSet(order), AllCells(|g|));
  }

  // What a step determines.

  /** `h` is a step from the digit grid `g`, its flashes being `order`:
      exactly the cells in `order` are at 0, every other cell rose by one
      plus one per flashed neighbour and stays a digit, and each flash is
      caused by the step's increment and the flashes before it. */
  ghost predicate StepOf(g: Grid, h: Grid, order: seq<Cell>)
  {
    Levels(g) && Levels(h) && |h| == |g| && Distinct(order) &&
    (forall e :: e in order ==> InGrid(e, |g|)) &&
    (forall d :: InGrid(d, |g|) ==> (Get(h, d) == 0 <==> d in order)) &&
    (forall d :: InGrid(d, |g|) && Get(h, d) != 0 ==>
      Get(h, d) == Get(g, d) + 1 + NbrCount(d, CellSet(order), |g|)) &&
    (forall k :: 0 <= k < |order| ==>
      Get(g, order[k]) + 1 + NbrCount(order[k], CellSet(order[..k]), |g|) >= 10)
  }

  /** Counting in a larger set counts at least as many. */
  lemma {:induction false} CountInMono(s: seq<Cell>, a: set<Cell>, b: set<Cell>)
    requires a <= b
    ensures CountIn(s, a) <= CountIn(s, b)
  {
    if s != [] {
      CountInMono(s[1..], a, b);
    }
  }

  /** The first `k` flashes of one step from `g` are flashes of any other
      step from `g`: each was caused by flashes already in the other, and
      a cell of the other that did not flash stays below 10. */
  lemma {:induction false} FlashedWithin(g: Grid, h1: Grid, o1: seq<Cell>, h2: Grid, o2: seq<Cell>, k: nat)
    requires StepOf(g, h1, o1) && StepOf(g, h2, o2) && k <= |o1|
    ensures CellSet(o1[..k]) <= CellSet(o2)
  {
    if k > 0 {
      FlashedWithin(g, h1, o1, h2, o2, k - 1);
      var c := o1[k - 1];
      assert o1[..k] == o1[..k - 1] + [c];
      assert InGrid(c, |g|);
      CountInMono(NeighbourIndexes(c.0, c.1, |g|), CellSet(o1[..k - 1]), CellSet(o2));
      if c !in o2 {
        assert false;
      }
    }
  }

  /** Square grids of one side that agree on every cell are equal. */
  lemma GridsEqual(g: Grid, h: Grid)
    requires Square(g) && Square(h) && |g| == |h|
    requires forall d :: InGrid(d, |g|) ==> Get(g, d) == Get(h, d)
    ensures g == h
  {
    forall y | 0 <= y < |g|
      ensures g[y] == h[y]
    {
      forall x | 0 <= x < |g|
        ensures g[y][x] == h[y][x]
      {
        assert Get(g, (x, y)) == Get(h, (x, y));
      }
    }
  }

  /** Two steps from `g` with the same flashed cells agree on each cell. */
  lemma CellAgrees(g: Grid, h1: Grid, o1: seq<Cell>, h2: Grid, o2: seq<Cell>, d: Cell)
    requires StepOf(g, h1, o1) && StepOf(g, h2, o2) && CellSet(o1) == CellSet(o2) && InGrid(d, |g|)
    ensures Get(h1, d) == Get(h2, d)
  {
  }

  /** A step is determined by the grid it starts from: the same cells
      flash, as many of them, and the same grid results. */
  lemma StepUnique(g: Grid, h1: Grid, o1: seq<Cell>, h2: Grid, o2: seq<Cell>)
    requires StepOf(g, h1, o1) && StepOf(g, h2, o2)
    ensures CellSet(o1) == CellSet(o2) && |o1| == |o2| && h1 == h2
  {
    assert CellSet(o1) == CellSet(o2) by {
      FlashedWithin(g, h1, o1, h2, o2, |o1|);
      FlashedWithin(g, h2, o2, h1, o1, |o2|);
      assert o1[..|o1|] == o1 && o2[..|o2|] == o2;
    }
    DistinctCard(o1);
    DistinctCard(o2);
    forall d | InGrid(d, |g|)
      ensures Get(h1, d) == Get(h2, d)
    {
      CellAgrees(g, h1, o1, h2, o2, d);
    }
    GridsEqual(h1, h2);
  }

  /** `grids` are the grids after 0, 1, ... steps and `orders` the
      flashes of each step. */
  ghost predicate Stepped(grids: seq<Grid>, orders: seq<seq<Cell>>) {
    |grids| == |orders| + 1 &&
    forall i :: 0 <= i < |orders| ==> StepOf(grids[i], grids[i + 1], orders[i])
  }

  /** The number of flashes over all the steps. */
  function FlashTotal(orders: seq<seq<Cell>>): nat {
    if orders == [] then 0 else FlashTotal(orders[..|orders| - 1]) + |orders[|orders| - 1]|
  }

  /** Stepping a grid a given number of times has one outcome: the same
      grids and the same total of flashes. */
  lemma {:induction false} SteppedUnique(g1: seq<Grid>, o1: seq<seq<Cell>>, g2: seq<Grid>, o2: seq<seq<Cell>>)
    requires Stepped(g1, o1) && Stepped(g2, o2) && |o1| == |o2| && g1[0] == g2[0]
    ensures g1 == g2 && FlashTotal(o1) == FlashTotal(o2)
    decreases |o1|
  {
    if |o1| > 0 {
      var n := |o1| - 1;
      assert Stepped(g1[..n + 1], o1[..n]);
      assert Stepped(g2[..n + 1], o2[..n]);
      SteppedUnique(g1[..n + 1], o1[..n], g2[..n + 1], o2[..n]);
      assert g1[n] == g1[..n + 1][n];
      StepUnique(g1[n], g1[n + 1], o1[n], g2[n + 1], o2[n]);
      assert g1 == g1[..n + 1] + [g1[n + 1]];
      assert g2 == g2[..n + 1] + [g2[n + 1]];
    }
  }

  class Cavern {
    var grid: Grid

    ghost predicate Valid()
      reads this
    {
      Levels(grid)
    }

    constructor (grid: Grid)
      requires Levels(grid)
      ensures Valid() && this.grid == grid
    {
      this.grid := grid;
    }

    /** `apply_step`. The grid after the call is a step (`StepOf`) from
        the grid before: exactly the flashed cells, listed in `order`,
        are at 0, every other cell rose by one plus one per flashed
        neighbour, each flash is caused by the step's increment and the
        flashes before it, and the count is the number of flashes. */
    method ApplyStep() returns (flashCount: nat, ghost order: seq<Cell>)
      requires Valid()
      modifies this
      ensures Valid() && |grid| == |old(grid)|
      ensures flashCount == |order| && StepOf(old(grid), grid, order)
    {
      var base := IncrementAll(grid);
      var stack := InitialFlashes(base);
      var h;
      h, flashCount, order := Propagate(base, stack);
      grid := ResetFlashed(h);
    }

    /** `apply_steps`: the grid is stepped `nbSteps` times (`grids` are
        the grids passed through, `orders` the flashes of each step) and
        the result is the total of the flash counts, at most every cell
        each step. */
    method ApplySteps(nbSteps: nat) returns (total: nat, ghost grids: seq<Grid>, ghost orders: seq<seq<Cell>>)
      requires Valid()
      modifies this
      ensures Valid() && |grid| == |old(grid)|
      ensures Stepped(grids, orders) && |orders| == nbSteps && grids[0] == old(grid) && grids[nbSteps] == grid
      ensures total == FlashTotal(orders)
      ensures total <= nbSteps * |grid| * |grid|
    {
      total := 0;
      grids, orders := [grid], [];
      for i := 0 to nbSteps
        invariant Valid() && |grid| == |old(grid)|
        invariant Stepped(grids, orders) && |orders| == i && grids[0] == old(grid) && grids[i] == grid
        invariant total == FlashTotal(orders)
        invariant total <= i * |grid| * |grid|
      {
        var n;
        ghost var order;
        n, order := ApplyStep();
        FlashBound(grid, order);
        assert (orders + [order])[..i] == orders;
        grids, orders := grids + [grid], orders + [order];
        total := total + n;
      }
    }

    /** `apply_steps_until_all_flash`, searching at most `maxSteps` steps:
        `Some(i)` when step `i` is the first in which every cell flashes,
        after which every cell is 0; `None` when no step within the
        budget has every cell flash. */
    method ApplyStepsUntilAllFlash(maxSteps: nat) returns (r: Option<nat>, ghost grids: seq<Grid>, ghost orders: seq<seq<Cell>>)
      requires Valid()
      modifies this
      ensures Valid() && |grid| == |old(grid)|
      ensures Stepped(grids, orders) && grids[0] == old(grid) && grids[|orders|] == grid
      ensures r.Some? ==> 1 <= r.value <= maxSteps && |orders| == r.value && |orders[r.value - 1]| == |grid| * |grid|
      ensures r.None? ==> |orders| == maxSteps
      ensures forall k :: 0 <= k < |orders| && (r.None? || k + 1 < |orders|) ==> |orders[k]| < |grid| * |grid|
      ensures r.Some? ==> forall d :: InGrid(d, |grid|) ==> Get(grid, d) == 0
    {
      var len := |grid|;
      grids, orders := [grid], [];
      for i := 1 to maxSteps + 1
        invariant Valid() && |grid| == len
        invariant Stepped(grids, orders) && |orders| == i - 1 && grids[0] == old(grid) && grids[i - 1] == grid
        invariant forall k :: 0 <= k < |orders| ==> |orders[k]| < len * len
      {
        var n;
        ghost var order;
        n, order := ApplyStep();
        FlashBound(grid, order);
        grids, orders := grids + [grid], orders + [order];
        if n == len * len {
          AllFlash(grid, order);
          return Some(i), grids, orders;
        }
      }
      return None, grids, orders;
    }
  }

  /** `part1`: the total of the flash counts of the first hundred steps. */
  method Part1(cavern: Cavern) returns (total: nat, ghost grids: seq<Grid>, ghost orders: seq<seq<Cell>>)
    requires cavern.Valid()
    modifies cavern
    ensures cavern.Valid()
    ensures Stepped(grids, orders) && |orders| == 100 && grids[0] == old(cavern.grid) && grids[100] == cavern.grid
    ensures total == FlashTotal(orders)
    ensures total <= 100 * |cavern.grid| * |cavern.grid|
  {
    total, grids, orders := cavern.ApplySteps(100);
  }
}
