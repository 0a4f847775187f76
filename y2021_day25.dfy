// Sea Cucumber: a rectangular sea floor holds east-facing and south-facing
// sea cucumbers. In each step the east-facing herd first moves one cell to
// the right, wrapping around, wherever that cell was empty before the move;
// then the south-facing herd does the same downwards on the result. The
// answer is the number of the first step in which nothing moves.

module SeaCucumber {
  import opened Wrappers
  import opened SeqFolds

  datatype Space = EastFaced | SouthFaced | Empty

  type Grid = seq<seq<Space>>

  /** Every row of `g` is `w` cells wide. */
  predicate Rectangular(g: Grid, w: nat) {
    forall y :: 0 <= y < |g| ==> |g[y]| == w
  }

  // ---------------------------------------------------------------------
  // One herd moving along one cyclic line (a row, or a column)

  /** The cell after `i` on a cyclic line of `n` cells. */
  function Succ(i: nat, n: nat): (j: nat)
    requires i < n
    ensures j < n
  {
    if i + 1 == n then 0 else i + 1
  }

  /** ... which is the source's `(i + 1) % n`. */
  lemma SuccMod(i: nat, n: nat)
    requires i < n
    ensures Succ(i, n) == (i + 1) % n
  {
  }

  /** The cell before `i`, wrapping round. */
  function Prev(i: nat, n: nat): (j: nat)
    requires i < n
    ensures j < n && Succ(j, n) == i
  {
    if i == 0 then n - 1 else i - 1
  }

  /** The cucumber of kind `k` at `i` moves: the next cell, wrapping round,
      is empty. */
  predicate Leaves(line: seq<Space>, k: Space, i: nat)
    requires i < |line|
  {
    line[i] == k && line[Succ(i, |line|)] == Empty
  }

  /** The line after every cucumber of kind `k` whose next cell was empty
      has moved there. */
  function Shift(line: seq<Space>, k: Space): (r: seq<Space>)
    ensures |r| == |line|
  {
    seq(|line|, i requires 0 <= i < |line| =>
      if Leaves(line, k, i) then Empty
      else if line[i] == Empty && Leaves(line, k, Prev(i, |line|)) then k
      else line[i])
  }

  /** The copy of the line as the loop of the source leaves it after the
      first `n` cells: each mover writes itself into its next cell and then
      empties its own. */
  function ShiftUpTo(line: seq<Space>, k: Space, n: nat): (r: seq<Space>)
    requires n <= |line|
    ensures |r| == |line|
  {
    if n == 0 then line
    else
      var r := ShiftUpTo(line, k, n - 1);
      if Leaves(line, k, n - 1) then r[Succ(n - 1, |line|) := k][n - 1 := Empty] else r
  }

  /** A cell of the copy after the first `n` cells of the loop: emptied
      once its own cucumber has moved, filled once the cucumber before it
      has moved, and otherwise as it was. */
  function CellUpTo(line: seq<Space>, k: Space, n: nat, i: nat): Space
    requires i < |line|
  {
    if i < n && Leaves(line, k, i) then Empty
    else if line[i] == Empty && Prev(i, |line|) < n && Leaves(line, k, Prev(i, |line|)) then k
    else line[i]
  }

  /** The writes of the loop never clash. */
  lemma {:induction false} ShiftUpToCells(line: seq<Space>, k: Space, n: nat)
    requires k != Empty && n <= |line|
    ensures forall i :: 0 <= i < |line| ==> ShiftUpTo(line, k, n)[i] == CellUpTo(line, k, n, i)
  {
    if n > 0 {
      ShiftUpToCells(line, k, n - 1);
      var w := |line|;
      var t := Succ(n - 1, w);
      assert Prev(t, w) == n - 1;
      forall i | 0 <= i < w
        ensures ShiftUpTo(line, k, n)[i] == CellUpTo(line, k, n, i)
      {
        if i != n - 1 && i != t {
          assert Prev(i, w) != n - 1;
        }
      }
    }
  }

  /** After the whole line the loop has built `Shift`. */
  lemma ShiftUpToAll(line: seq<Space>, k: Space)
    requires k != Empty
    ensures ShiftUpTo(line, k, |line|) == Shift(line, k)
  {
    ShiftUpToCells(line, k, |line|);
  }

  /** Some cucumber of kind `k` can move along the line. */
  predicate AnyLeaves(line: seq<Space>, k: Space) {
    exists i :: 0 <= i < |line| && Leaves(line, k, i)
  }

  /** Something moves exactly when the line changes. */
  lemma ShiftChanges(line: seq<Space>, k: Space)
    requires k != Empty
    ensures AnyLeaves(line, k) <==> Shift(line, k) != line
  {
    if AnyLeaves(line, k) {
      var i :| 0 <= i < |line| && Leaves(line, k, i);
      assert Shift(line, k)[i] != line[i];
    } else {
      assert forall i :: 0 <= i < |line| ==> Shift(line, k)[i] == line[i] by {
        forall i | 0 <= i < |line|
          ensures Shift(line, k)[i] == line[i]
        {
          assert !Leaves(line, k, Prev(i, |line|));
        }
      }
    }
  }

  // ---------------------------------------------------------------------
  // Counting cucumbers

  function Mark(s: Space, j: Space): nat {
    if s == j then 1 else 0
  }

  /** One mark per cell of kind `j`. */
  function Marks(line: seq<Space>, j: Space): (m: seq<nat>)
    ensures |m| == |line|
  {
    seq(|line|, i requires 0 <= i < |line| => Mark(line[i], j))
  }

  function CountLine(line: seq<Space>, j: Space): nat {
    Sum(Marks(line, j))
  }

  lemma {:induction false} SumPlus(a: seq<nat>, b: seq<nat>, c: seq<nat>)
    requires |a| == |b| == |c|
    requires forall i :: 0 <= i < |c| ==> c[i] == a[i] + b[i]
    ensures Sum(c) == Sum(a) + Sum(b)
  {
    if c != [] {
      SumPlus(a[1..], b[1..], c[1..]);
    }
  }

  lemma SumRotate(s: seq<nat>)
    requires s != []
    ensures Sum(s[1..] + [s[0]]) == Sum(s)
  {
    SumAppend(s[1..], [s[0]]);
  }

  lemma SumLast(s: seq<nat>)
    requires s != []
    ensures Sum(s) == Sum(s[..|s| - 1]) + s[|s| - 1]
  {
    SumAppend(s[..|s| - 1], [s[|s| - 1]]);
    assert s[..|s| - 1] + [s[|s| - 1]] == s;
  }

  /** Moving one herd along a line keeps the number of cucumbers of each
      kind: the movers that leave are as many as the cells they enter. */
  lemma ShiftCount(line: seq<Space>, k: Space, j: Space)
    requires k != Empty && j != Empty
    ensures CountLine(Shift(line, k), j) == CountLine(line, j)
  {
    if j != k {
      assert Marks(Shift(line, k), j) == Marks(line, j);
    } else if line != [] {
      ShiftCountMovers(line, k);
    }
  }

  /** The movers of kind `k` enter as many cells as they leave. */
  lemma ShiftCountMovers(line: seq<Space>, k: Space)
    requires k != Empty && line != []
    ensures CountLine(Shift(line, k), k) == CountLine(line, k)
  {
    var n := |line|;
    var stay := seq(n, i requires 0 <= i < n => if line[i] == k && !Leaves(line, k, i) then 1 else 0);
    var leave := seq(n, i requires 0 <= i < n => if Leaves(line, k, i) then 1 else 0);
    var arrive := seq(n, i requires 0 <= i < n =>
      if line[i] == Empty && Leaves(line, k, Prev(i, n)) then 1 else 0);
    SumPlus(stay, arrive, Marks(Shift(line, k), k));
    SumPlus(stay, leave, Marks(line, k));
    ArriveRotated(line, k, leave, arrive);
    SumRotate(arrive);
  }

  /** Each cell that a mover enters is the next cell of the one it left. */
  lemma ArriveRotated(line: seq<Space>, k: Space, leave: seq<nat>, arrive: seq<nat>)
    requires line != [] && |leave| == |arrive| == |line|
    requires forall i :: 0 <= i < |line| ==> leave[i] == if Leaves(line, k, i) then 1 else 0
    requires forall i :: 0 <= i < |line| ==>
      arrive[i] == if line[i] == Empty && Leaves(line, k, Prev(i, |line|)) then 1 else 0
    ensures leave == arrive[1..] + [arrive[0]]
  {
    var n := |line|;
    forall i | 0 <= i < n
      ensures leave[i] == (arrive[1..] + [arrive[0]])[i]
    {
      assert Prev(Succ(i, n), n) == i;
    }
  }

  // ---------------------------------------------------------------------
  // The two half-steps on the whole sea floor

  /** Column `x` of a grid, top to bottom. */
  function Column(g: Grid, w: nat, x: nat): (c: seq<Space>)
    requires Rectangular(g, w) && x < w
    ensures |c| == |g|
  {
    seq(|g|, y requires 0 <= y < |g| => g[y][x])
  }

  /** The east-facing herd moves along every row. */
  function EastStep(g: Grid): (r: Grid)
    ensures |r| == |g|
    ensures forall y :: 0 <= y < |g| ==> |r[y]| == |g[y]|
  {
    seq(|g|, y requires 0 <= y < |g| => Shift(g[y], EastFaced))
  }

  /** The south-facing herd moves down every column. */
  function SouthStep(g: Grid, w: nat): (r: Grid)
    requires Rectangular(g, w)
    ensures |r| == |g| && Rectangular(r, w)
  {
    seq(|g|, y requires 0 <= y < |g| =>
      seq(w, x requires 0 <= x < w => Shift(Column(g, w, x), SouthFaced)[y]))
  }

  /** The south step moves each column as a line. */
  lemma SouthColumns(g: Grid, w: nat, x: nat)
    requires Rectangular(g, w) && x < w
    ensures Column(SouthStep(g, w), w, x) == Shift(Column(g, w, x), SouthFaced)
  {
  }

  /** The number of cells of kind `j`, row by row ... */
  function GridCount(g: Grid, j: Space): nat {
    Sum(seq(|g|, y requires 0 <= y < |g| => CountLine(g[y], j)))
  }

  /** ... and column by column. */
  function ColumnCount(g: Grid, w: nat, j: Space): nat
    requires Rectangular(g, w)
  {
    Sum(seq(w, x requires 0 <= x < w => CountLine(Column(g, w, x), j)))
  }

  lemma {:induction false} SumZeros(s: seq<nat>)
    requires forall i :: 0 <= i < |s| ==> s[i] == 0
    ensures Sum(s) == 0
  {
    if s != [] {
      SumZeros(s[1..]);
    }
  }

  lemma CountAppend(line: seq<Space>, s: Space, j: Space)
    ensures CountLine(line + [s], j) == CountLine(line, j) + Mark(s, j)
  {
    assert Marks(line + [s], j) == Marks(line, j) + [Mark(s, j)];
    SumAppend(Marks(line, j), [Mark(s, j)]);
  }

  /** Counting by rows and by columns agree. */
  lemma {:induction false} RowsColumns(g: Grid, w: nat, j: Space)
    requires Rectangular(g, w)
    ensures GridCount(g, j) == ColumnCount(g, w, j)
    decreases |g|
  {
    if g == [] {
      SumZeros(seq(w, x requires 0 <= x < w => CountLine(Column(g, w, x), j)));
    } else {
      var h := |g| - 1;
      var top := g[..h];
      RowsColumns(top, w, j);
      var rows := seq(|g|, y requires 0 <= y < |g| => CountLine(g[y], j));
      SumLast(rows);
      assert rows[..h] == seq(h, y requires 0 <= y < h => CountLine(top[y], j));
      var before := seq(w, x requires 0 <= x < w => CountLine(Column(top, w, x), j));
      var after := seq(w, x requires 0 <= x < w => CountLine(Column(g, w, x), j));
      forall x | 0 <= x < w
        ensures after[x] == before[x] + Marks(g[h], j)[x]
      {
        assert Column(g, w, x) == Column(top, w, x) + [g[h][x]];
        CountAppend(Column(top, w, x), g[h][x], j);
      }
      SumPlus(before, Marks(g[h], j), after);
    }
  }

  /** The east step keeps the number of cucumbers of each kind. */
  lemma EastStepCount(g: Grid, j: Space)
    requires j != Empty
    ensures GridCount(EastStep(g), j) == GridCount(g, j)
  {
    forall y | 0 <= y < |g|
      ensures CountLine(EastStep(g)[y], j) == CountLine(g[y], j)
    {
      ShiftCount(g[y], EastFaced, j);
    }
    assert seq(|g|, y requires 0 <= y < |g| => CountLine(EastStep(g)[y], j))
        == seq(|g|, y requires 0 <= y < |g| => CountLine(g[y], j));
  }

  /** The south step keeps the number of cucumbers of each kind. */
  lemma SouthStepCount(g: Grid, w: nat, j: Space)
    requires Rectangular(g, w) && j != Empty
    ensures GridCount(SouthStep(g, w), j) == GridCount(g, j)
  {
    var r := SouthStep(g, w);
    forall x | 0 <= x < w
      ensures CountLine(Column(r, w, x), j) == CountLine(Column(g, w, x), j)
    {
      SouthColumns(g, w, x);
      ShiftCount(Column(g, w, x), SouthFaced, j);
    }
    assert seq(w, x requires 0 <= x < w => CountLine(Column(r, w, x), j))
        == seq(w, x requires 0 <= x < w => CountLine(Column(g, w, x), j));
    RowsColumns(g, w, j);
    RowsColumns(r, w, j);
  }

  // ---------------------------------------------------------------------
  // Whole steps

  /** A cucumber can move east at (y, x) / south at (y, x). */
  predicate CanMoveEast(g: Grid, y: nat, x: nat)
    requires y < |g| && x < |g[y]|
  {
    Leaves(g[y], EastFaced, x)
  }

  predicate CanMoveSouth(g: Grid, w: nat, y: nat, x: nat)
    requires Rectangular(g, w) && y < |g| && x < w
  {
    g[y][x] == SouthFaced && g[Succ(y, |g|)][x] == Empty
  }

  predicate EastMoves(g: Grid) {
    exists y, x :: 0 <= y < |g| && 0 <= x < |g[y]| && CanMoveEast(g, y, x)
  }

  predicate SouthMoves(g: Grid, w: nat)
    requires Rectangular(g, w)
  {
    exists y, x :: 0 <= y < |g| && 0 <= x < w && CanMoveSouth(g, w, y, x)
  }

  /** The east half-step moves something exactly when it changes the grid. */
  lemma EastMovesChanges(g: Grid)
    ensures EastMoves(g) <==> EastStep(g) != g
  {
    if EastMoves(g) {
      var y, x :| 0 <= y < |g| && 0 <= x < |g[y]| && CanMoveEast(g, y, x);
      ShiftChanges(g[y], EastFaced);
      assert EastStep(g)[y] != g[y];
    } else {
      forall y | 0 <= y < |g|
        ensures EastStep(g)[y] == g[y]
      {
        if AnyLeaves(g[y], EastFaced) {
          var x :| 0 <= x < |g[y]| && Leaves(g[y], EastFaced, x);
          assert CanMoveEast(g, y, x);
        }
        ShiftChanges(g[y], EastFaced);
      }
    }
  }

  /** A cucumber moves down a column exactly when it can move south. */
  lemma ColumnLeaves(g: Grid, w: nat, x: nat, y: nat)
    requires Rectangular(g, w) && x < w && y < |g|
    ensures Leaves(Column(g, w, x), SouthFaced, y) <==> CanMoveSouth(g, w, y, x)
  {
  }

  /** The south half-step moves something exactly when it changes the grid. */
  lemma SouthMovesChanges(g: Grid, w: nat)
    requires Rectangular(g, w)
    ensures SouthMoves(g, w) <==> SouthStep(g, w) != g
  {
    if SouthMoves(g, w) {
      var y, x :| 0 <= y < |g| && 0 <= x < w && CanMoveSouth(g, w, y, x);
      ColumnLeaves(g, w, x, y);
      ShiftChanges(Column(g, w, x), SouthFaced);
      assert SouthStep(g, w)[y][x] != g[y][x];
    } else {
      forall y | 0 <= y < |g|
        ensures SouthStep(g, w)[y] == g[y]
      {
        forall x | 0 <= x < w
          ensures SouthStep(g, w)[y][x] == g[y][x]
        {
          ColumnLeaves(g, w, x, y);
          ColumnLeaves(g, w, x, Prev(y, |g|));
        }
      }
    }
  }

  /** One step: east, then south on the result. */
  function Step(g: Grid, w: nat): (r: Grid)
    requires Rectangular(g, w)
    ensures Rectangular(r, w) && |r| == |g|
  {
    SouthStep(EastStep(g), w)
  }

  /** A cucumber that moved east leaves an empty cell that the south herd
      can only fill with a south-facing cucumber, so a step in which either
      herd moves changes the sea floor, and one in which neither moves
      leaves it as it was. */
  lemma StepChanges(g: Grid, w: nat)
    requires Rectangular(g, w)
    ensures EastMoves(g) || SouthMoves(EastStep(g), w) <==> Step(g, w) != g
  {
    EastMovesChanges(g);
    var e := EastStep(g);
    if EastMoves(g) {
      var y, x :| 0 <= y < |g| && 0 <= x < |g[y]| && CanMoveEast(g, y, x);
      assert e[y][x] == Empty;
      assert Step(g, w)[y][x] == Shift(Column(e, w, x), SouthFaced)[y];
    } else {
      SouthMovesChanges(e, w);
    }
  }

  /** The sea floor after `n` steps. */
  function Iterate(g: Grid, w: nat, n: nat): (r: Grid)
    requires Rectangular(g, w)
    ensures Rectangular(r, w) && |r| == |g|
  {
    if n == 0 then g else Step(Iterate(g, w, n - 1), w)
  }

  /** Neither herd can move: the condition on which `apply_steps` stops. */
  predicate Calm(g: Grid, w: nat)
    requires Rectangular(g, w)
  {
    !EastMoves(g) && !SouthMoves(EastStep(g), w)
  }

  /** Nothing moves in step `m + 1`. */
  predicate CalmAfter(g: Grid, w: nat, m: nat)
    requires Rectangular(g, w)
  {
    Calm(Iterate(g, w, m), w)
  }

  /** Whether nothing moves, for each of the first `fuel` steps. */
  ghost function Calms(g: Grid, w: nat, fuel: nat): (c: seq<bool>)
    requires Rectangular(g, w)
    ensures |c| == fuel
  {
    seq(fuel, m requires 0 <= m < fuel => CalmAfter(g, w, m))
  }

  /** The search of `apply_steps` from step `n + 1`: the number of the first
      step after `n` in which nothing moves, among those recorded. */
  function FirstCalm(calms: seq<bool>, n: nat): Option<nat>
    decreases |calms| - n
  {
    if n >= |calms| then None
    else if calms[n] then Some(n + 1)
    else FirstCalm(calms, n + 1)
  }

  /** The search answers with the first calm step after `n`, and answers
      nothing when no recorded step after `n` is calm. */
  lemma {:induction false} FirstCalmFirst(calms: seq<bool>, n: nat)
    ensures var r := FirstCalm(calms, n);
      && (r.Some? ==> n < r.value <= |calms| && calms[r.value - 1]
                      && forall m :: n <= m < r.value - 1 ==> !calms[m])
      && (r.None? ==> forall m :: n <= m < |calms| ==> !calms[m])
    decreases |calms| - n
  {
    if n < |calms| && !calms[n] {
      FirstCalmFirst(calms, n + 1);
    }
  }

  /** ... which is the first step that leaves the sea floor as it was. */
  lemma CalmUnchanged(g: Grid, w: nat, m: nat)
    requires Rectangular(g, w)
    ensures CalmAfter(g, w, m) <==> Iterate(g, w, m + 1) == Iterate(g, w, m)
  {
    StepChanges(Iterate(g, w, m), w);
  }

  /** The copy of `step_south` once the cells of the rows above `y`, and
      the first `x` cells of row `y`, have been visited: each column is its
      own line part-way through `ShiftUpTo`. */
  predicate SouthDone(g: Grid, w: nat, next: Grid, y: nat, x: nat)
    requires Rectangular(g, w)
  {
    Rectangular(next, w) && |next| == |g|
    && forall r, c :: 0 <= r < |g| && 0 <= c < w ==>
         (if c < x then y + 1 else y) <= |g|
         && next[r][c] == ShiftUpTo(Column(g, w, c), SouthFaced, if c < x then y + 1 else y)[r]
  }

  /** Visiting cell (y, x): the mover, if any, writes itself below and
      empties its cell, which advances column `x` by one. */
  lemma SouthCellStep(g: Grid, w: nat, prev: Grid, next: Grid, y: nat, x: nat)
    requires Rectangular(g, w) && y < |g| && x < w
    requires SouthDone(g, w, prev, y, x)
    requires next == if CanMoveSouth(g, w, y, x) then
      var below := prev[Succ(y, |g|) := prev[Succ(y, |g|)][x := SouthFaced]];
      below[y := below[y][x := Empty]]
      else prev
    ensures SouthDone(g, w, next, y, x + 1)
  {
    var h := |g|;
    var col := Column(g, w, x);
    ColumnLeaves(g, w, x, y);
    assert ShiftUpTo(col, SouthFaced, y + 1) ==
      if CanMoveSouth(g, w, y, x) then ShiftUpTo(col, SouthFaced, y)[Succ(y, h) := SouthFaced][y := Empty]
      else ShiftUpTo(col, SouthFaced, y);
    forall r, c | 0 <= r < h && 0 <= c < w
      ensures next[r][c] == ShiftUpTo(Column(g, w, c), SouthFaced, if c < x + 1 then y + 1 else y)[r]
    {
      if c != x {
        assert next[r][c] == prev[r][c];
      }
    }
  }

  /** A row is finished. */
  lemma SouthDoneRow(g: Grid, w: nat, next: Grid, y: nat)
    requires Rectangular(g, w) && y < |g|
    requires SouthDone(g, w, next, y, w)
    ensures SouthDone(g, w, next, y + 1, 0)
  {
  }

  /** All rows are finished: the copy is the south step. */
  lemma SouthDoneAll(g: Grid, w: nat, next: Grid)
    requires Rectangular(g, w)
    requires SouthDone(g, w, next, |g|, 0)
    ensures next == SouthStep(g, w)
  {
    forall c | 0 <= c < w {
      ShiftUpToAll(Column(g, w, c), SouthFaced);
    }
    forall r | 0 <= r < |g|
      ensures next[r] == SouthStep(g, w)[r]
    {
    }
  }

  /** One round of the search. */
  lemma FirstCalmNext(calms: seq<bool>, n: nat)
    requires n < |calms|
    ensures FirstCalm(calms, n) == if calms[n] then Some(n + 1) else FirstCalm(calms, n + 1)
  {
  }

  /** Step `n + 1` is calm exactly when its start is. */
  lemma CalmStep(g: Grid, w: nat, fuel: nat, n: nat, start: Grid, after: Grid, calm: bool)
    requires Rectangular(g, w) && n < fuel
    requires start == Iterate(g, w, n)
    requires calm <==> Calm(start, w)
    requires after == Step(start, w)
    ensures Calms(g, w, fuel)[n] <==> calm
    ensures after == Iterate(g, w, n + 1)
  {
  }

  /** The sea floor, updated step by step. */
  class SeaBed {
    var bed: Grid

    constructor (bed: Grid)
      ensures this.bed == bed
    {
      this.bed := bed;
    }

    /** `step_east`: the east-facing herd moves on a copy of the floor, every
        mover judged on the floor before the step. */
    method StepEast() returns (moved: bool)
      requires |bed| > 0 && Rectangular(bed, |bed[0]|)
      modifies this
      ensures bed == EastStep(old(bed))
      ensures moved <==> EastMoves(old(bed))
      ensures moved <==> bed != old(bed)
    {
      var g := bed;
      var w := |g[0]|;
      var next := g;
      moved := false;
      for y := 0 to |g|
        invariant |next| == |g|
        invariant forall r :: 0 <= r < y ==> next[r] == EastStep(g)[r]
        invariant forall r :: y <= r < |g| ==> next[r] == g[r]
        invariant moved <==> exists r, x :: 0 <= r < y && 0 <= x < w && CanMoveEast(g, r, x)
      {
        ghost var before := moved;
        ghost var rows := next;
        for x := 0 to w
          invariant |next| == |g|
          invariant forall r :: 0 <= r < |g| && r != y ==> next[r] == rows[r]
          invariant next[y] == ShiftUpTo(g[y], EastFaced, x)
          invariant moved <==> before || exists i :: 0 <= i < x && CanMoveEast(g, y, i)
        {
          SuccMod(x, w);
          if g[y][x] == EastFaced && g[y][(x + 1) % w] == Empty {
            assert CanMoveEast(g, y, x);
            next := next[y := next[y][(x + 1) % w := EastFaced]];
            next := next[y := next[y][x := Empty]];
            moved := true;
          } else {
            assert !CanMoveEast(g, y, x);
          }
        }
        ShiftUpToAll(g[y], EastFaced);
      }
      EastMovesChanges(g);
      bed := next;
    }

    /** `step_south`: the south-facing herd moves on a copy of the floor,
        every mover judged on the floor before this half-step. */
    method StepSouth() returns (moved: bool)
      requires Rectangular(bed, if |bed| == 0 then 0 else |bed[0]|)
      modifies this
      ensures var w := if |old(bed)| == 0 then 0 else |old(bed)[0]|;
        bed == SouthStep(old(bed), w)
        && (moved <==> SouthMoves(old(bed), w))
        && (moved <==> bed != old(bed))
    {
      var g := bed;
      var h := |g|;
      var w := if h == 0 then 0 else |g[0]|;
      var next := g;
      moved := false;
      for y := 0 to h
        invariant SouthDone(g, w, next, y, 0)
        invariant moved <==> exists r, c :: 0 <= r < y && 0 <= c < w && CanMoveSouth(g, w, r, c)
      {
        ghost var before := moved;
        for x := 0 to w
          invariant SouthDone(g, w, next, y, x)
          invariant moved <==> before || exists c :: 0 <= c < x && CanMoveSouth(g, w, y, c)
        {
          var below := Succ(y, h);
          ghost var prev := next;
          if g[y][x] == SouthFaced && g[below][x] == Empty {
            assert CanMoveSouth(g, w, y, x);
            next := next[below := next[below][x := SouthFaced]];
            next := next[y := next[y][x := Empty]];
            moved := true;
          } else {
            assert !CanMoveSouth(g, w, y, x);
          }
          SouthCellStep(g, w, prev, next, y, x);
        }
        SouthDoneRow(g, w, next, y);
      }
      SouthDoneAll(g, w, next);
      SouthMovesChanges(g, w);
      bed := next;
    }

    /** The body of the loop of `apply_steps`: the east half-step, then the
        south half-step; the step is calm when neither moved anything. */
    method Advance(ghost w: nat) returns (calm: bool)
      requires |bed| > 0 && |bed[0]| == w && Rectangular(bed, w)
      modifies this
      ensures bed == Step(old(bed), w) && |bed| > 0 && |bed[0]| == w
      ensures calm <==> Calm(old(bed), w)
    {
      var movedEast := StepEast();
      var movedSouth := StepSouth();
      calm := !(movedEast || movedSouth);
    }

    /** `apply_steps`, giving up after `fuel` steps: the number of the first
        step in which neither herd moves, the floor being left as after that
        step. */
    method ApplySteps(fuel: nat) returns (count: Option<nat>)
      requires |bed| > 0 && Rectangular(bed, |bed[0]|)
      modifies this
      ensures count == FirstCalm(Calms(old(bed), |old(bed)[0]|, fuel), 0)
      ensures count.Some? ==> bed == Iterate(old(bed), |old(bed)[0]|, count.value)
    {
      var w := |bed[0]|;
      ghost var orig := bed;
      ghost var calms := Calms(orig, w, fuel);
      var n := 0;
      while n < fuel
        invariant n <= fuel && |bed| == |orig| && |bed[0]| == w
        invariant bed == Iterate(orig, w, n)
        invariant FirstCalm(calms, n) == FirstCalm(calms, 0)
        decreases fuel - n
      {
        ghost var start := bed;
        var calm := Advance(w);
        CalmStep(orig, w, fuel, n, start, bed, calm);
        FirstCalmNext(calms, n);
        n := n + 1;
        if calm {
          count := Some(n);
          return;
        }
      }
      count := None;
    }
  }
}
