// Giant Squid: bingo against boards of numbers. Each drawn number is marked
// on every board; part 1 scores the first board to complete a row or a
// column, part 2 the last one. A score is the sum of the board's unmarked
// numbers times the number just drawn.

module GiantSquid {
  import opened Wrappers

  /** One square of a board. */
  datatype Cell = AlreadyDrawn(n: nat) | NotDrawn(n: nat)

  type Grid = seq<seq<Cell>>

  /** Every row is at least as long as there are rows, so that
      `check_win`'s column scan over `0..rows.len()` stays in bounds. */
  predicate Square(g: Grid) {
    forall r :: 0 <= r < |g| ==> |g[r]| >= |g|
  }

  // ---------------------------------------------------------------------
  // apply_drawn
  // ---------------------------------------------------------------------

  /** A not-drawn cell holding `d` becomes drawn; every other cell stays. */
  function MarkCell(c: Cell, d: nat): (r: Cell)
    ensures r.n == c.n
    ensures r.AlreadyDrawn? <==> c.AlreadyDrawn? || c.n == d
  {
    if c.NotDrawn? && c.n == d then AlreadyDrawn(c.n) else c
  }

  function MarkRow(row: seq<Cell>, d: nat): (r: seq<Cell>)
    ensures |r| == |row|
  {
    seq(|row|, j requires 0 <= j < |row| => MarkCell(row[j], d))
  }

  /** The board after `apply_drawn(d)`. */
  function Mark(g: Grid, d: nat): (r: Grid)
    ensures |r| == |g| && forall i :: 0 <= i < |g| ==> |r[i]| == |g[i]|
    ensures Square(g) ==> Square(r)
  {
    seq(|g|, i requires 0 <= i < |g| => MarkRow(g[i], d))
  }

  /** Marking the same number twice changes nothing the second time. */
  lemma MarkIdempotent(g: Grid, d: nat)
    ensures Mark(Mark(g, d), d) == Mark(g, d)
  {
    var once := Mark(g, d);
    forall i | 0 <= i < |g|
      ensures Mark(once, d)[i] == once[i]
    {
      assert MarkRow(once[i], d) == once[i];
    }
  }

  /** The order in which two numbers are drawn does not matter. */
  lemma MarkCommutes(g: Grid, a: nat, b: nat)
    ensures Mark(Mark(g, a), b) == Mark(Mark(g, b), a)
  {
    forall i | 0 <= i < |g|
      ensures Mark(Mark(g, a), b)[i] == Mark(Mark(g, b), a)[i]
    {
      assert MarkRow(MarkRow(g[i], a), b) == MarkRow(MarkRow(g[i], b), a);
    }
  }

  // ---------------------------------------------------------------------
  // check_win
  // ---------------------------------------------------------------------

  predicate RowDrawn(row: seq<Cell>) {
    forall j :: 0 <= j < |row| ==> row[j].AlreadyDrawn?
  }

  predicate ColumnDrawn(g: Grid, c: nat)
    requires Square(g) && c < |g|
  {
    forall r :: 0 <= r < |g| ==> g[r][c].AlreadyDrawn?
  }

  /** `check_win`: some row is fully drawn, or one of the first `rows.len()`
      columns is. */
  predicate Wins(g: Grid)
    requires Square(g)
  {
    (exists r :: 0 <= r < |g| && RowDrawn(g[r]))
    || (exists c :: 0 <= c < |g| && ColumnDrawn(g, c))
  }

  /** A board that has won stays won whatever is drawn next. */
  lemma MarkKeepsWin(g: Grid, d: nat)
    requires Square(g) && Wins(g)
    ensures Wins(Mark(g, d))
  {
    var m := Mark(g, d);
    if r :| 0 <= r < |g| && RowDrawn(g[r]) {
      assert RowDrawn(m[r]);
    } else {
      var c :| 0 <= c < |g| && ColumnDrawn(g, c);
      assert ColumnDrawn(m, c);
    }
  }

  /** The number that completes a line is one of that line's numbers. */
  lemma WinNeedsNumber(g: Grid, d: nat)
    requires Square(g) && !Wins(g) && Wins(Mark(g, d))
    ensures exists r, j :: 0 <= r < |g| && 0 <= j < |g[r]| && g[r][j] == NotDrawn(d)
  {
    var m := Mark(g, d);
    if r :| 0 <= r < |g| && RowDrawn(m[r]) {
      var j :| 0 <= j < |g[r]| && !g[r][j].AlreadyDrawn?;
      assert m[r][j] == MarkCell(g[r][j], d);
      assert g[r][j] == NotDrawn(d);
    } else {
      var c :| 0 <= c < |g| && ColumnDrawn(m, c);
      assert !ColumnDrawn(g, c);
      var r :| 0 <= r < |g| && !g[r][c].AlreadyDrawn?;
      assert m[r][c] == MarkCell(g[r][c], d);
      assert g[r][c] == NotDrawn(d);
    }
  }

  /** A board with nothing drawn and at least one row has not won. */
  lemma FreshBoardNoWin(g: Grid)
    requires Square(g) && |g| >= 1
    requires forall r, j :: 0 <= r < |g| && 0 <= j < |g[r]| ==> g[r][j].NotDrawn?
    ensures !Wins(g)
  {
    forall r | 0 <= r < |g|
      ensures !RowDrawn(g[r])
    {
      assert !g[r][0].AlreadyDrawn?;
    }
    forall c | 0 <= c < |g|
      ensures !ColumnDrawn(g, c)
    {
      assert !g[0][c].AlreadyDrawn?;
    }
  }

  // ---------------------------------------------------------------------
  // sum_of_unmarked
  // ---------------------------------------------------------------------

  function RowUnmarked(row: seq<Cell>): nat {
    if row == [] then 0
    else RowUnmarked(row[..|row| - 1]) + (if row[|row| - 1].NotDrawn? then row[|row| - 1].n else 0)
  }

  /** `sum_of_unmarked`: the sum of the numbers not yet drawn. */
  function Unmarked(g: Grid): nat {
    if g == [] then 0 else Unmarked(g[..|g| - 1]) + RowUnmarked(g[|g| - 1])
  }

  /** How many not-drawn cells hold `d`. */
  function RowCount(row: seq<Cell>, d: nat): nat {
    if row == [] then 0
    else RowCount(row[..|row| - 1], d) + (if row[|row| - 1] == NotDrawn(d) then 1 else 0)
  }

  function Count(g: Grid, d: nat): nat {
    if g == [] then 0 else Count(g[..|g| - 1], d) + RowCount(g[|g| - 1], d)
  }

  lemma Distribute(d: nat, a: nat, b: nat)
    ensures d * (a + b) == d * a + d * b
  {
  }

  lemma {:induction false} RowUnmarkedMark(row: seq<Cell>, d: nat)
    ensures RowUnmarked(MarkRow(row, d)) + d * RowCount(row, d) == RowUnmarked(row)
  {
    if row != [] {
      var init := row[..|row| - 1];
      RowUnmarkedMark(init, d);
      assert MarkRow(row, d)[..|row| - 1] == MarkRow(init, d);
      Distribute(d, RowCount(init, d), if row[|row| - 1] == NotDrawn(d) then 1 else 0);
    }
  }

  /** Marking `d` takes `d` off the unmarked sum once per cell that held
      it. */
  lemma {:induction false} UnmarkedMark(g: Grid, d: nat)
    ensures Unmarked(Mark(g, d)) + d * Count(g, d) == Unmarked(g)
  {
    if g != [] {
      var init := g[..|g| - 1];
      var last := g[|g| - 1];
      UnmarkedMark(init, d);
      RowUnmarkedMark(last, d);
      assert Mark(g, d)[..|g| - 1] == Mark(init, d);
      Distribute(d, Count(init, d), RowCount(last, d));
    }
  }

  // ---------------------------------------------------------------------
  // Drawing numbers on all boards
  // ---------------------------------------------------------------------

  predicate AllSquare(gs: seq<Grid>) {
    forall k :: 0 <= k < |gs| ==> Square(gs[k])
  }

  /** Every board after `apply_drawn(d)`. */
  function MarkAll(gs: seq<Grid>, d: nat): (r: seq<Grid>)
    ensures |r| == |gs| && (AllSquare(gs) ==> AllSquare(r))
  {
    seq(|gs|, k requires 0 <= k < |gs| => Mark(gs[k], d))
  }

  /** A board after the numbers `ds` are drawn, in order. */
  function MarkSeq(g: Grid, ds: seq<nat>): (r: Grid)
    ensures Square(g) ==> Square(r)
    decreases ds
  {
    if ds == [] then g else MarkSeq(Mark(g, ds[0]), ds[1..])
  }

  lemma {:induction false} MarkSeqKeepsWin(g: Grid, ds: seq<nat>)
    requires Square(g) && Wins(g)
    ensures Wins(MarkSeq(g, ds))
    decreases ds
  {
    if ds != [] {
      MarkKeepsWin(g, ds[0]);
      MarkSeqKeepsWin(Mark(g, ds[0]), ds[1..]);
    }
  }

  /** Drawing the first number, then the first `m` of the rest, is drawing
      the first `m + 1`. */
  lemma MarkSeqShift(g: Grid, ds: seq<nat>, m: nat)
    requires m < |ds|
    ensures MarkSeq(g, ds[..m + 1]) == MarkSeq(Mark(g, ds[0]), ds[1..][..m])
  {
    assert ds[..m + 1][1..] == ds[1..][..m];
  }

  /** Board `j` has won once the first `k` numbers are drawn. */
  predicate WonBy(gs: seq<Grid>, drawn: seq<nat>, k: nat, j: nat)
    requires AllSquare(gs) && k <= |drawn| && j < |gs|
  {
    Wins(MarkSeq(gs[j], drawn[..k]))
  }

  /** The first board at or after `i`, not excluded, that has won. */
  function FirstFrom(gs: seq<Grid>, excluded: seq<bool>, i: nat): (r: Option<nat>)
    requires AllSquare(gs) && |excluded| == |gs| && i <= |gs|
    ensures r.Some? ==> i <= r.value < |gs| && !excluded[r.value] && Wins(gs[r.value])
    ensures r.Some? ==> forall k :: i <= k < r.value ==> excluded[k] || !Wins(gs[k])
    ensures r.None? ==> forall k :: i <= k < |gs| ==> excluded[k] || !Wins(gs[k])
    decreases |gs| - i
  {
    if i == |gs| then None
    else if !excluded[i] && Wins(gs[i]) then Some(i)
    else FirstFrom(gs, excluded, i + 1)
  }

  function NoneExcluded(n: nat): (r: seq<bool>)
    ensures |r| == n && forall k :: 0 <= k < n ==> !r[k]
  {
    seq(n, _ => false)
  }

  // ---------------------------------------------------------------------
  // part1
  // ---------------------------------------------------------------------

  /** `part1` on board values: after each draw, the first winning board's
      score; `None` for the final `panic!("No win")`. */
  function FirstWinScore(drawn: seq<nat>, gs: seq<Grid>): Option<nat>
    requires AllSquare(gs)
  {
    if drawn == [] then None
    else
      var marked := MarkAll(gs, drawn[0]);
      match FirstFrom(marked, NoneExcluded(|gs|), 0)
      case Some(j) => Some(Unmarked(marked[j]) * drawn[0])
      case None => FirstWinScore(drawn[1..], marked)
  }

  /** Board `j` is the first board to win, on draw `k` (counting from 0). */
  predicate FirstWin(gs: seq<Grid>, drawn: seq<nat>, k: nat, j: nat)
    requires AllSquare(gs)
  {
    k < |drawn| && j < |gs|
    && WonBy(gs, drawn, k + 1, j)
    && NoneWonBy(gs, drawn, k + 1, j)
    && (k > 0 ==> NoneWonBy(gs, drawn, k, |gs|))
  }

  /** None of the boards before `j` has won after `m` draws. */
  predicate NoneWonBy(gs: seq<Grid>, drawn: seq<nat>, m: nat, j: nat)
    requires AllSquare(gs) && m <= |drawn| && j <= |gs|
  {
    forall i :: 0 <= i < j ==> !WonBy(gs, drawn, m, i)
  }

  /** Board `j` after the first `k + 1` draws, scored by draw `k`. */
  function Score(gs: seq<Grid>, drawn: seq<nat>, k: nat, j: nat): nat
    requires k < |drawn| && j < |gs|
  {
    Unmarked(MarkSeq(gs[j], drawn[..k + 1])) * drawn[k]
  }

  ghost predicate FirstWinScored(gs: seq<Grid>, drawn: seq<nat>, v: nat)
    requires AllSquare(gs)
  {
    exists k, j :: FirstWin(gs, drawn, k, j) && v == Score(gs, drawn, k, j)
  }

  /** Drawing the first number on every board, then `m` of the rest, is
      drawing `m + 1`. */
  lemma ShiftWon(gs: seq<Grid>, drawn: seq<nat>, m: nat, i: nat)
    requires AllSquare(gs) && m < |drawn| && i < |gs|
    ensures WonBy(gs, drawn, m + 1, i) == WonBy(MarkAll(gs, drawn[0]), drawn[1..], m, i)
  {
    MarkSeqShift(gs[i], drawn, m);
  }

  lemma ShiftNoneWon(gs: seq<Grid>, drawn: seq<nat>, m: nat, j: nat)
    requires AllSquare(gs) && m < |drawn| && j <= |gs|
    ensures NoneWonBy(gs, drawn, m + 1, j) == NoneWonBy(MarkAll(gs, drawn[0]), drawn[1..], m, j)
  {
    var marked, rest, after := MarkAll(gs, drawn[0]), drawn[1..], m + 1;
    forall i | 0 <= i < j
      ensures WonBy(gs, drawn, after, i) == WonBy(marked, rest, m, i)
    {
      ShiftWon(gs, drawn, m, i);
    }
    assert NoneWonBy(gs, drawn, after, j) == NoneWonBy(marked, rest, m, j);
  }

  /** A first win found on the first draw. */
  lemma FirstWinNow(drawn: seq<nat>, gs: seq<Grid>, j: nat)
    requires AllSquare(gs) && drawn != []
    requires FirstFrom(MarkAll(gs, drawn[0]), NoneExcluded(|gs|), 0) == Some(j)
    ensures FirstWin(gs, drawn, 0, j)
    ensures Score(gs, drawn, 0, j) == Unmarked(MarkAll(gs, drawn[0])[j]) * drawn[0]
  {
    var marked := MarkAll(gs, drawn[0]);
    ShiftWon(gs, drawn, 0, j);
    ShiftNoneWon(gs, drawn, 0, j);
    assert NoneWonBy(marked, drawn[1..], 0, j);
    MarkSeqShift(gs[j], drawn, 0);
  }

  /** A first win on a later draw, seen from the boards after the first. */
  lemma FirstWinLater(drawn: seq<nat>, gs: seq<Grid>, k: nat, j: nat)
    requires AllSquare(gs) && drawn != []
    requires FirstFrom(MarkAll(gs, drawn[0]), NoneExcluded(|gs|), 0) == None
    requires FirstWin(MarkAll(gs, drawn[0]), drawn[1..], k, j)
    ensures FirstWin(gs, drawn, k + 1, j)
    ensures Score(gs, drawn, k + 1, j) == Score(MarkAll(gs, drawn[0]), drawn[1..], k, j)
  {
    var marked := MarkAll(gs, drawn[0]);
    ShiftWon(gs, drawn, k + 1, j);
    ShiftNoneWon(gs, drawn, k + 1, j);
    ShiftNoneWon(gs, drawn, k, |gs|);
    if k == 0 {
      forall i | 0 <= i < |gs|
        ensures !WonBy(marked, drawn[1..], 0, i)
      {
        assert !Wins(marked[i]);
      }
    }
    MarkSeqShift(gs[j], drawn, k + 1);
  }

  /** What `part1` returns is the score of the first board to win, at the
      draw where it first wins. */
  lemma {:induction false} FirstWinScoreSound(drawn: seq<nat>, gs: seq<Grid>)
    requires AllSquare(gs)
    ensures FirstWinScore(drawn, gs).Some? ==> FirstWinScored(gs, drawn, FirstWinScore(drawn, gs).value)
  {
    if drawn != [] {
      var marked := MarkAll(gs, drawn[0]);
      var rest := drawn[1..];
      match FirstFrom(marked, NoneExcluded(|gs|), 0)
      case Some(j) =>
        FirstWinNow(drawn, gs, j);
      case None =>
        FirstWinScoreSound(rest, marked);
        var v := FirstWinScore(drawn, gs);
        if v.Some? {
          var k, j :| FirstWin(marked, rest, k, j) && v.value == Score(marked, rest, k, j);
          FirstWinLater(drawn, gs, k, j);
        }
    }
  }

  /** If some board has won once all numbers are drawn, `part1` does not
      reach its `panic!`. */
  lemma {:induction false} FirstWinScoreComplete(drawn: seq<nat>, gs: seq<Grid>, j: nat)
    requires AllSquare(gs) && drawn != [] && j < |gs| && WonBy(gs, drawn, |drawn|, j)
    ensures FirstWinScore(drawn, gs).Some?
  {
    var marked := MarkAll(gs, drawn[0]);
    if FirstFrom(marked, NoneExcluded(|gs|), 0).None? {
      ShiftWon(gs, drawn, |drawn| - 1, j);
      assert drawn[1..][..|drawn| - 1] == drawn[1..];
      if |drawn| == 1 {
        assert false;
      } else {
        FirstWinScoreComplete(drawn[1..], marked, j);
      }
    }
  }

  // ---------------------------------------------------------------------
  // part2
  // ---------------------------------------------------------------------

  /** How many boards are done. */
  function Trues(done: seq<bool>): (c: nat)
    ensures c <= |done|
  {
    if done == [] then 0 else Trues(done[..|done| - 1]) + (if done[|done| - 1] then 1 else 0)
  }

  /** Setting one more board done counts one more. */
  lemma {:induction false} TruesSet(done: seq<bool>, j: nat)
    requires j < |done| && !done[j]
    ensures Trues(done[j := true]) == Trues(done) + 1
  {
    var init := done[..|done| - 1];
    if j < |done| - 1 {
      TruesSet(init, j);
      assert done[j := true][..|done| - 1] == init[j := true];
    } else {
      assert done[j := true][..|done| - 1] == init;
    }
  }

  /** All boards are done exactly when all are counted. */
  lemma {:induction false} TruesAll(done: seq<bool>)
    ensures Trues(done) == |done| <==> forall k :: 0 <= k < |done| ==> done[k]
  {
    if done != [] {
      TruesAll(done[..|done| - 1]);
    }
  }

  datatype SweepResult = Returned(score: nat) | Continue(done: seq<bool>, count: nat)

  /** The `while let` loop of `part2` after drawing `d`: the first board
      not yet done that has won is set done and counted; when the count
      reaches the number of boards, its score is returned. */
  function Sweep(gs: seq<Grid>, done: seq<bool>, count: nat, n: nat, d: nat): (r: SweepResult)
    requires AllSquare(gs) && |done| == |gs|
    ensures r.Continue? ==> |r.done| == |gs|
    decreases |done| - Trues(done)
  {
    match FirstFrom(gs, done, 0)
    case None => Continue(done, count)
    case Some(j) =>
      TruesSet(done, j);
      if count + 1 == n then Returned(Unmarked(gs[j]) * d)
      else Sweep(gs, done[j := true], count + 1, n, d)
  }

  /** `part2` on board values; `None` for the final `panic!("No win")`. */
  function LastWinScore(drawn: seq<nat>, gs: seq<Grid>, done: seq<bool>, count: nat, n: nat): Option<nat>
    requires AllSquare(gs) && |done| == |gs|
    decreases |drawn|
  {
    if drawn == [] then None
    else
      var marked := MarkAll(gs, drawn[0]);
      match Sweep(marked, done, count, n, drawn[0])
      case Returned(v) => Some(v)
      case Continue(done', count') => LastWinScore(drawn[1..], marked, done', count', n)
  }

  /** The flags `part2` keeps: a board is done exactly when it has won,
      and the count is the number of boards done, short of all of them. */
  predicate Tracked(gs: seq<Grid>, done: seq<bool>, count: nat, n: nat)
    requires AllSquare(gs)
  {
    |done| == |gs| == n && count == Trues(done) < n
    && forall k :: 0 <= k < n ==> (done[k] <==> Wins(gs[k]))
  }

  /** Some board that had not won before has won, every board has now won,
      and `v` is that board's score. */
  predicate LastToWin(before: seq<Grid>, gs: seq<Grid>, v: nat, d: nat)
    requires AllSquare(before) && AllSquare(gs) && |before| == |gs|
  {
    (forall k :: 0 <= k < |gs| ==> Wins(gs[k]))
    && exists j :: 0 <= j < |gs| && !Wins(before[j]) && Wins(gs[j]) && v == Unmarked(gs[j]) * d
  }

  /** A sweep either returns the score of a board that has just won when
      every board has, or ends with exactly the winners done. */
  lemma {:induction false} SweepSound(before: seq<Grid>, gs: seq<Grid>, done: seq<bool>, count: nat, n: nat, d: nat)
    requires AllSquare(before) && AllSquare(gs) && |before| == |gs|
    requires |done| == |gs| == n && count == Trues(done) < n
    requires forall k :: 0 <= k < n && Wins(before[k]) ==> done[k]
    requires forall k :: 0 <= k < n && done[k] ==> Wins(gs[k])
    ensures Sweep(gs, done, count, n, d).Returned? ==> LastToWin(before, gs, Sweep(gs, done, count, n, d).score, d)
    ensures Sweep(gs, done, count, n, d).Continue? ==>
              Tracked(gs, Sweep(gs, done, count, n, d).done, Sweep(gs, done, count, n, d).count, n)
    decreases |done| - Trues(done)
  {
    var r := Sweep(gs, done, count, n, d);
    match FirstFrom(gs, done, 0)
    case None =>
      assert r == Continue(done, count);
      assert Tracked(gs, done, count, n);
    case Some(j) =>
      var done' := done[j := true];
      TruesSet(done, j);
      if count + 1 == n {
        assert r == Returned(Unmarked(gs[j]) * d);
        SweepLast(before, gs, done, j, d);
      } else {
        assert r == Sweep(gs, done', count + 1, n, d);
        forall k | 0 <= k < n && done'[k]
          ensures Wins(gs[k])
        {
        }
        SweepSound(before, gs, done', count + 1, n, d);
      }
  }

  /** The last board counted: every board has won, and this one had not
      before the draw. */
  lemma SweepLast(before: seq<Grid>, gs: seq<Grid>, done: seq<bool>, j: nat, d: nat)
    requires AllSquare(before) && AllSquare(gs) && |before| == |gs| == |done|
    requires j < |gs| && !done[j] && Wins(gs[j]) && Trues(done[j := true]) == |gs|
    requires forall k :: 0 <= k < |gs| && Wins(before[k]) ==> done[k]
    requires forall k :: 0 <= k < |gs| && done[k] ==> Wins(gs[k])
    ensures LastToWin(before, gs, Unmarked(gs[j]) * d, d)
  {
    var done' := done[j := true];
    TruesAll(done');
    forall k | 0 <= k < |gs|
      ensures Wins(gs[k])
    {
      assert done'[k];
    }
  }

  /** Every board after the first `k` draws. */
  function After(gs: seq<Grid>, drawn: seq<nat>, k: nat): (r: seq<Grid>)
    requires AllSquare(gs) && k <= |drawn|
    ensures |r| == |gs| && AllSquare(r)
  {
    seq(|gs|, i requires 0 <= i < |gs| => MarkSeq(gs[i], drawn[..k]))
  }

  lemma ShiftAfter(gs: seq<Grid>, drawn: seq<nat>, m: nat)
    requires AllSquare(gs) && m < |drawn|
    ensures After(gs, drawn, m + 1) == After(MarkAll(gs, drawn[0]), drawn[1..], m)
  {
    forall i | 0 <= i < |gs|
      ensures After(gs, drawn, m + 1)[i] == After(MarkAll(gs, drawn[0]), drawn[1..], m)[i]
    {
      MarkSeqShift(gs[i], drawn, m);
    }
  }

  lemma AfterNone(gs: seq<Grid>, drawn: seq<nat>)
    requires AllSquare(gs)
    ensures After(gs, drawn, 0) == gs
  {
    assert drawn[..0] == [];
  }

  ghost predicate LastWinScored(gs: seq<Grid>, drawn: seq<nat>, v: nat)
    requires AllSquare(gs)
  {
    exists k :: 0 <= k < |drawn| && LastToWin(After(gs, drawn, k), After(gs, drawn, k + 1), v, drawn[k])
  }

  /** What `part2` returns is the score of a board that wins on the draw
      where the last of the boards wins, a board that had not won before
      that draw. */
  lemma {:induction false} LastWinScoreSound(drawn: seq<nat>, gs: seq<Grid>, done: seq<bool>, count: nat, n: nat)
    requires AllSquare(gs) && Tracked(gs, done, count, n)
    ensures LastWinScore(drawn, gs, done, count, n).Some? ==>
              LastWinScored(gs, drawn, LastWinScore(drawn, gs, done, count, n).value)
    decreases |drawn|
  {
    if drawn != [] {
      var marked := MarkAll(gs, drawn[0]);
      var r := LastWinScore(drawn, gs, done, count, n);
      forall k | 0 <= k < n && done[k]
        ensures Wins(marked[k])
      {
        MarkKeepsWin(gs[k], drawn[0]);
      }
      SweepSound(gs, marked, done, count, n, drawn[0]);
      match Sweep(marked, done, count, n, drawn[0])
      case Returned(v) =>
        LastWinNow(drawn, gs, v);
      case Continue(done', count') =>
        LastWinScoreSound(drawn[1..], marked, done', count', n);
        if r.Some? {
          var k :| 0 <= k < |drawn[1..]|
            && LastToWin(After(marked, drawn[1..], k), After(marked, drawn[1..], k + 1), r.value, drawn[1..][k]);
          LastWinLater(drawn, gs, k, r.value);
        }
    }
  }

  lemma LastWinNow(drawn: seq<nat>, gs: seq<Grid>, v: nat)
    requires AllSquare(gs) && drawn != []
    requires LastToWin(gs, MarkAll(gs, drawn[0]), v, drawn[0])
    ensures LastToWin(After(gs, drawn, 0), After(gs, drawn, 1), v, drawn[0])
  {
    ShiftAfter(gs, drawn, 0);
    AfterNone(gs, drawn);
    AfterNone(MarkAll(gs, drawn[0]), drawn[1..]);
  }

  lemma LastWinLater(drawn: seq<nat>, gs: seq<Grid>, k: nat, v: nat)
    requires AllSquare(gs) && k + 1 < |drawn|
    requires LastToWin(After(MarkAll(gs, drawn[0]), drawn[1..], k), After(MarkAll(gs, drawn[0]), drawn[1..], k + 1), v, drawn[1..][k])
    ensures LastToWin(After(gs, drawn, k + 1), After(gs, drawn, k + 2), v, drawn[k + 1])
  {
    ShiftAfter(gs, drawn, k);
    ShiftAfter(gs, drawn, k + 1);
  }

  /** If every board has won once all numbers are drawn, `part2` does not
      reach its `panic!`. */
  lemma {:induction false} LastWinScoreComplete(drawn: seq<nat>, gs: seq<Grid>, done: seq<bool>, count: nat, n: nat)
    requires AllSquare(gs) && Tracked(gs, done, count, n) && drawn != []
    requires forall k :: 0 <= k < n ==> WonBy(gs, drawn, |drawn|, k)
    ensures LastWinScore(drawn, gs, done, count, n).Some?
    decreases |drawn|
  {
    var marked := MarkAll(gs, drawn[0]);
    forall k | 0 <= k < n && done[k]
      ensures Wins(marked[k])
    {
      MarkKeepsWin(gs[k], drawn[0]);
    }
    SweepSound(gs, marked, done, count, n, drawn[0]);
    match Sweep(marked, done, count, n, drawn[0])
    case Returned(v) =>
    case Continue(done', count') =>
      var rest, m := drawn[1..], |drawn| - 1;
      assert rest[..m] == rest;
      forall k | 0 <= k < n
        ensures WonBy(marked, rest, m, k)
      {
        ShiftWon(gs, drawn, m, k);
      }
      if |drawn| == 1 {
        forall k | 0 <= k < n
          ensures done'[k]
        {
          assert WonBy(marked, [], 0, k);
        }
        TruesAll(done');
      } else {
        LastWinScoreComplete(drawn[1..], marked, done', count', n);
      }
  }

  /** Fresh boards, none done and none won, start `part2` tracked. */
  lemma Part2Start(gs: seq<Grid>)
    requires AllSquare(gs) && |gs| >= 1 && forall k :: 0 <= k < |gs| ==> !Wins(gs[k])
    ensures Tracked(gs, NoneExcluded(|gs|), 0, |gs|)
  {
    TruesAll(NoneExcluded(|gs|));
    FalsesCount(|gs|);
  }

  lemma {:induction false} FalsesCount(n: nat)
    ensures Trues(NoneExcluded(n)) == 0
  {
    if n > 0 {
      FalsesCount(n - 1);
      assert NoneExcluded(n)[..n - 1] == NoneExcluded(n - 1);
    }
  }

  // ---------------------------------------------------------------------
  // Boards as the program keeps them
  // ---------------------------------------------------------------------

  /** A row of parsed numbers, none drawn. */
  function FreshRow(ns: seq<nat>): (r: seq<Cell>)
    ensures |r| == |ns| && forall j :: 0 <= j < |ns| ==> r[j] == NotDrawn(ns[j])
  {
    seq(|ns|, j requires 0 <= j < |ns| => NotDrawn(ns[j]))
  }

  /** A bingo board: its cells, and whether `part2` has counted its win. */
  class Board {
    var rows: Grid
    var done: bool

    /** `Board::from` once its numbers are parsed: nothing drawn, not
        done. */
    constructor (numbers: seq<seq<nat>>)
      ensures |rows| == |numbers| && forall i :: 0 <= i < |numbers| ==> rows[i] == FreshRow(numbers[i])
      ensures !done
    {
      rows := seq(|numbers|, i requires 0 <= i < |numbers| => FreshRow(numbers[i]));
      done := false;
    }

    /** `apply_drawn`: marks `d` on every cell of every row. */
    method ApplyDrawn(d: nat)
      modifies this
      ensures rows == Mark(old(rows), d) && done == old(done)
    {
      ghost var start := rows;
      var i := 0;
      while i < |rows|
        invariant |rows| == |start| && i <= |rows|
        invariant forall k :: 0 <= k < i ==> rows[k] == MarkRow(start[k], d)
        invariant forall k :: i <= k < |rows| ==> rows[k] == start[k]
        invariant done == old(done)
      {
        var marked := MarkCells(rows[i], d);
        rows := rows[i := marked];
        i := i + 1;
      }
    }

    /** `set_done`. */
    method SetDone()
      modifies this
      ensures done && rows == old(rows)
    {
      done := true;
    }
  }

  /** The inner loop of `apply_drawn`, over the cells of one row. */
  method MarkCells(row: seq<Cell>, d: nat) returns (r: seq<Cell>)
    ensures r == MarkRow(row, d)
  {
    r := row;
    var j := 0;
    while j < |r|
      invariant |r| == |row| && j <= |r|
      invariant forall k :: 0 <= k < j ==> r[k] == MarkCell(row[k], d)
      invariant forall k :: j <= k < |r| ==> r[k] == row[k]
    {
      if r[j].NotDrawn? && r[j].n == d {
        r := r[j := AlreadyDrawn(r[j].n)];
      }
      j := j + 1;
    }
  }

  /** The boards are different objects, as a `&mut [Board]` guarantees. */
  predicate Distinct(boards: seq<Board>) {
    forall i, j :: 0 <= i < j < |boards| ==> boards[i] != boards[j]
  }

  function Grids(boards: seq<Board>): (r: seq<Grid>)
    reads boards
    ensures |r| == |boards|
  {
    seq(|boards|, k requires 0 <= k < |boards| reads boards => boards[k].rows)
  }

  function Dones(boards: seq<Board>): (r: seq<bool>)
    reads boards
    ensures |r| == |boards|
  {
    seq(|boards|, k requires 0 <= k < |boards| reads boards => boards[k].done)
  }

  /** `boards.iter_mut().for_each(|b| b.apply_drawn(d))`. */
  method ApplyAll(boards: seq<Board>, d: nat)
    requires Distinct(boards)
    modifies boards
    ensures Grids(boards) == MarkAll(old(Grids(boards)), d)
    ensures Dones(boards) == old(Dones(boards))
  {
    ghost var gs := Grids(boards);
    ghost var ds := Dones(boards);
    for i := 0 to |boards|
      invariant AppliedUpTo(boards, gs, ds, d, i)
    {
      ApplyAt(boards, gs, ds, d, i);
    }
    assert Grids(boards) == MarkAll(gs, d);
    assert Dones(boards) == ds;
  }

  /** Boards before `i` have `d` marked, the others are as they were. */
  ghost predicate AppliedUpTo(boards: seq<Board>, gs: seq<Grid>, ds: seq<bool>, d: nat, i: nat)
    reads boards
  {
    |gs| == |ds| == |boards| && i <= |boards|
    && (forall k :: 0 <= k < i ==> boards[k].rows == Mark(gs[k], d))
    && (forall k :: i <= k < |boards| ==> boards[k].rows == gs[k])
    && (forall k :: 0 <= k < |boards| ==> boards[k].done == ds[k])
  }

  /** One iteration of `for_each`: board `i` marks `d`. */
  method ApplyAt(boards: seq<Board>, ghost gs: seq<Grid>, ghost ds: seq<bool>, d: nat, i: nat)
    requires Distinct(boards) && i < |boards| && AppliedUpTo(boards, gs, ds, d, i)
    modifies boards[i]
    ensures AppliedUpTo(boards, gs, ds, d, i + 1)
  {
    boards[i].ApplyDrawn(d);
  }

  /** `boards.iter().find(...)`: the first board, not excluded, that has
      won. */
  method FindWinner(boards: seq<Board>, excluded: seq<bool>) returns (r: Option<nat>)
    requires AllSquare(Grids(boards)) && |excluded| == |boards|
    ensures r == FirstFrom(Grids(boards), excluded, 0)
  {
    ghost var gs := Grids(boards);
    var i := 0;
    while i < |boards|
      invariant i <= |boards|
      invariant FirstFrom(gs, excluded, i) == FirstFrom(gs, excluded, 0)
    {
      if !excluded[i] && Wins(boards[i].rows) {
        return Some(i);
      }
      i := i + 1;
    }
    return None;
  }

  /** `part1`: the first winning board's score. */
  method Part1(drawn: seq<nat>, boards: seq<Board>) returns (r: Option<nat>)
    requires Distinct(boards) && AllSquare(Grids(boards))
    modifies boards
    ensures r == FirstWinScore(drawn, old(Grids(boards)))
  {
    for i := 0 to |drawn|
      invariant AllSquare(Grids(boards))
      invariant FirstWinScore(drawn[i..], Grids(boards)) == FirstWinScore(drawn, old(Grids(boards)))
    {
      ApplyAll(boards, drawn[i]);
      var w := FindWinner(boards, NoneExcluded(|boards|));
      assert drawn[i..][1..] == drawn[i + 1..];
      if w.Some? {
        return Some(Unmarked(boards[w.value].rows) * drawn[i]);
      }
    }
    assert drawn[|drawn|..] == [];
    return None;
  }

  /** The `while let` loop of `part2`: boards that have won are set done
      and counted, first to last, until the count reaches `n`. */
  method SweepBoards(boards: seq<Board>, count: nat, n: nat, d: nat) returns (returned: Option<nat>, count': nat)
    requires Distinct(boards) && AllSquare(Grids(boards))
    modifies boards
    ensures Grids(boards) == old(Grids(boards))
    ensures Sweep(old(Grids(boards)), old(Dones(boards)), count, n, d).Returned? ==>
              returned == Some(Sweep(old(Grids(boards)), old(Dones(boards)), count, n, d).score)
    ensures Sweep(old(Grids(boards)), old(Dones(boards)), count, n, d).Continue? ==>
              returned == None
              && Dones(boards) == Sweep(old(Grids(boards)), old(Dones(boards)), count, n, d).done
              && count' == Sweep(old(Grids(boards)), old(Dones(boards)), count, n, d).count
  {
    ghost var gs := Grids(boards);
    ghost var goal := Sweep(gs, Dones(boards), count, n, d);
    count' := count;
    var w := FindWinner(boards, Dones(boards));
    while w.Some?
      invariant Grids(boards) == gs
      invariant Sweep(gs, Dones(boards), count', n, d) == goal
      invariant w == FirstFrom(gs, Dones(boards), 0)
      decreases |boards| - Trues(Dones(boards))
    {
      returned, count', w := SweepStep(boards, gs, goal, w, count', n, d);
      if returned.Some? {
        return;
      }
    }
    returned := None;
  }

  lemma SweepUnfold(gs: seq<Grid>, done: seq<bool>, count: nat, n: nat, d: nat, j: nat)
    requires AllSquare(gs) && |done| == |gs| && FirstFrom(gs, done, 0) == Some(j)
    ensures j < |gs| && !done[j]
    ensures count + 1 == n ==> Sweep(gs, done, count, n, d) == Returned(Unmarked(gs[j]) * d)
    ensures count + 1 != n ==> Sweep(gs, done, count, n, d) == Sweep(gs, done[j := true], count + 1, n, d)
  {
  }

  /** One iteration of the `while let` loop: the board found is set done
      and counted, and the next one is looked for. */
  method SweepStep(boards: seq<Board>, ghost gs: seq<Grid>, ghost goal: SweepResult, w: Option<nat>,
                   count: nat, n: nat, d: nat)
    returns (returned: Option<nat>, count': nat, w': Option<nat>)
    requires Distinct(boards) && AllSquare(gs) && Grids(boards) == gs
    requires w.Some? && w == FirstFrom(gs, Dones(boards), 0)
    requires Sweep(gs, Dones(boards), count, n, d) == goal
    modifies boards
    ensures Grids(boards) == gs
    ensures Trues(Dones(boards)) == old(Trues(Dones(boards))) + 1
    ensures returned.Some? ==> goal.Returned? && returned == Some(goal.score)
    ensures returned.None? ==> Sweep(gs, Dones(boards), count', n, d) == goal && w' == FirstFrom(gs, Dones(boards), 0)
  {
    var j := w.value;
    ghost var before := Dones(boards);
    TruesSet(before, j);
    SetDoneAt(boards, j);
    assert Trues(Dones(boards)) == Trues(before) + 1;
    SweepUnfold(gs, before, count, n, d, j);
    count' := count + 1;
    if count' == n {
      return Some(Unmarked(boards[j].rows) * d), count', None;
    }
    returned := None;
    w' := FindWinner(boards, Dones(boards));
  }

  /** `winner.set_done()` on board `j` of the list. */
  method SetDoneAt(boards: seq<Board>, j: nat)
    requires Distinct(boards) && j < |boards|
    modifies boards[j]
    ensures Dones(boards) == old(Dones(boards))[j := true]
    ensures Grids(boards) == old(Grids(boards))
  {
    ghost var ds, gs := Dones(boards), Grids(boards);
    boards[j].SetDone();
    assert Dones(boards) == ds[j := true];
    assert Grids(boards) == gs;
  }

  /** `part2`: the last winning board's score. */
  method Part2(drawn: seq<nat>, boards: seq<Board>) returns (r: Option<nat>)
    requires Distinct(boards) && AllSquare(Grids(boards))
    modifies boards
    ensures r == LastWinScore(drawn, old(Grids(boards)), old(Dones(boards)), 0, |boards|)
  {
    var n := |boards|;
    var count := 0;
    for i := 0 to |drawn|
      invariant AllSquare(Grids(boards))
      invariant LastWinScore(drawn[i..], Grids(boards), Dones(boards), count, n)
             == LastWinScore(drawn, old(Grids(boards)), old(Dones(boards)), 0, n)
    {
      ApplyAll(boards, drawn[i]);
      var returned;
      returned, count := SweepBoards(boards, count, n, drawn[i]);
      assert drawn[i..][1..] == drawn[i + 1..];
      if returned.Some? {
        return returned;
      }
    }
    assert drawn[|drawn|..] == [];
    return None;
  }
}
