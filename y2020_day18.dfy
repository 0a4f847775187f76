// Operation Order: a scanner that evaluates a line of arithmetic with `+`
// and `*` strictly left to right, descending into parentheses, and a
// rewriting of the line that makes `+` bind tighter than `*`.

module OperationOrder {
  import opened Wrappers

  datatype Operator = Sum | Multiply

  /** Where the scanner is: inside a number spanning `x..y` of the formula,
      or waiting for an operator or an operand. */
  datatype ParseStatus = Number(x: nat, y: nat) | AtOperator

  /** The running result after one more operand. */
  function Combine(res: int, op: Operator, n: int): int {
    match op
    case Sum => res + n
    case Multiply => res * n
  }

  predicate IsDigit(c: char) {
    '0' <= c <= '9'
  }

  /** `is_alphanumeric`, on ASCII characters. */
  predicate IsAlphanumeric(c: char) {
    IsDigit(c) || 'a' <= c <= 'z' || 'A' <= c <= 'Z'
  }

  /** `is_ascii_whitespace`: space, tab, line feed, form feed, carriage
      return. */
  predicate IsWhitespace(c: char) {
    c == ' ' || c == '\t' || c == '\n' || c == '\U{000C}' || c == '\r'
  }

  predicate IsNumeral(s: string) {
    |s| > 0 && forall i :: 0 <= i < |s| ==> IsDigit(s[i])
  }

  function DigitValue(c: char): nat
    requires IsDigit(c)
  {
    c as int - '0' as int
  }

  /** The value of a string of decimal digits. */
  function Decimal(s: string): nat
    requires forall i :: 0 <= i < |s| ==> IsDigit(s[i])
  {
    if s == [] then 0
    else Decimal(s[..|s| - 1]) * 10 + DigitValue(s[|s| - 1])
  }

  /** `parse::<isize>` on a span of the formula; `None` where the `unwrap`
      after it panics. A span holds only letters, digits and whitespace, so
      a sign never reaches the parser. */
  function Parse(s: string): (r: Option<int>)
    ensures r.Some? <==> IsNumeral(s)
  {
    if IsNumeral(s) then Some(Decimal(s)) else None
  }

  /** The number still pending when the scan stops (at `)` or at the end
      of the formula) is folded into the result; `None` where slicing or
      parsing panics. */
  function Settle(f: string, res: int, op: Operator, st: ParseStatus): Option<int> {
    match st
    case AtOperator => Some(res)
    case Number(x, y) =>
      if x <= y <= |f| then
        match Parse(f[x..y])
        case Some(n) => Some(Combine(res, op, n))
        case None => None
      else None
  }

  /** What the scan stops with: the settled result and the index. */
  function Finish(f: string, i: nat, res: int, op: Operator, st: ParseStatus): Option<(int, nat)> {
    match Settle(f, res, op, st)
    case Some(v) => Some((v, i))
    case None => None
  }

  /** The outcome of one character of the scan: go on at index `next`
      with a new state, or stop with a result (`None` for a panic). */
  datatype Move = Advance(next: nat, res: int, op: Operator, st: ParseStatus) | Stop(r: Option<(int, nat)>)

  /** One pass of the `calculate` loop at index `i`. A group is scanned by
      a fresh scan of the rest of the formula, and the outer scan resumes
      after the index where that one stopped. */
  function Step(f: string, i: nat, res: int, op: Operator, st: ParseStatus): (m: Move)
    requires i < |f|
    ensures m.Advance? ==> m.next > i
    decreases |f|, |f| - i, 0
  {
    var c := f[i];
    if IsAlphanumeric(c) then
      match st
      case AtOperator => Advance(i + 1, res, op, Number(i, i + 1))
      case Number(x, _) => Advance(i + 1, res, op, Number(x, i + 1))
    else if c == '+' || c == '*' then
      var op' := if c == '+' then Sum else Multiply;
      match st
      case AtOperator => Advance(i + 1, res, op', AtOperator)
      case Number(x, y) =>
        if x <= y <= |f| then
          match Parse(f[x..y])
          case Some(n) => Advance(i + 1, Combine(res, op, n), op', AtOperator)
          case None => Stop(None)
        else Stop(None)
    else if c == '(' then
      match Calc(f[i + 1..], 0, 0, Sum, AtOperator)
      case Some((n, ind)) => Advance(i + ind + 2, Combine(res, op, n), op, st)
      case None => Stop(None)
    else if c == ')' then Stop(Finish(f, i, res, op, st))
    else if IsWhitespace(c) then Advance(i + 1, res, op, st)
    else Stop(None)
  }

  /** The scan of `calculate` from index `i` on, with the state
      `(res, op, st)`: the pair it returns (result and the index where it
      stopped), or `None` where it panics. */
  function Calc(f: string, i: nat, res: int, op: Operator, st: ParseStatus): Option<(int, nat)>
    decreases |f|, |f| - i, 1
  {
    if i >= |f| then Finish(f, i, res, op, st)
    else
      match Step(f, i, res, op, st)
      case Advance(next, res', op', st') => Calc(f, next, res', op', st')
      case Stop(r) => r
  }

  /** `ArithmeticState`: a formula and the scanner's state over it. */
  class ArithmeticState {
    const formula: string
    var result: int
    var currentOperator: Operator
    var parseStatus: ParseStatus

    constructor(formula: string)
      ensures this.formula == formula
      ensures result == 0 && currentOperator == Sum && parseStatus == AtOperator
    {
      this.formula := formula;
      result := 0;
      currentOperator := Sum;
      parseStatus := AtOperator;
    }

    /** Folds a finished operand into the result. */
    method Apply(n: int)
      modifies this
      ensures result == Combine(old(result), currentOperator, n)
      ensures currentOperator == old(currentOperator) && parseStatus == old(parseStatus)
    {
      match currentOperator
      case Sum => result := result + n;
      case Multiply => result := result * n;
    }

    /** Slices out the number spanning `x..y`, parses it and folds it into
        the result; `false` where the slicing or the parse panics. */
    method FoldNumber(x: nat, y: nat) returns (ok: bool)
      modifies this
      ensures ok <==> Settle(formula, old(result), currentOperator, Number(x, y)).Some?
      ensures ok ==> Settle(formula, old(result), currentOperator, Number(x, y)) == Some(result)
      ensures currentOperator == old(currentOperator) && parseStatus == old(parseStatus)
    {
      if !(x <= y <= |formula|) {
        return false;
      }
      var num := Parse(formula[x..y]);
      if num.None? {
        return false;
      }
      Apply(num.value);
      return true;
    }

    /** `calculate`: scans the formula from its start and returns the
        result and the index where the scan stopped; `None` where it
        panics. */
    method Calculate() returns (r: Option<(int, nat)>)
      modifies this
      decreases |formula|
      ensures r == Calc(formula, 0, old(result), old(currentOperator), old(parseStatus))
    {
      var i: nat := 0;
      while i < |formula|
        invariant Calc(formula, i, result, currentOperator, parseStatus)
               == Calc(formula, 0, old(result), old(currentOperator), old(parseStatus))
        decreases |formula| - i
      {
        var c := formula[i];
        if IsAlphanumeric(c) {
          match parseStatus
          case AtOperator => parseStatus := Number(i, i + 1);
          case Number(x, _) => parseStatus := Number(x, i + 1);
        } else if c == '+' || c == '*' {
          var op := if c == '+' then Sum else Multiply;
          match parseStatus
          case AtOperator =>
            currentOperator := op;
          case Number(x, y) =>
            parseStatus := AtOperator;
            var ok := FoldNumber(x, y);
            if !ok {
              return None;
            }
            currentOperator := op;
        } else if c == '(' {
          var subState := new ArithmeticState(formula[i + 1..]);
          var sub := subState.Calculate();
          if sub.None? {
            return None;
          }
          var (num, ind) := sub.value;
          Apply(num);
          i := i + ind + 1;
        } else if c == ')' {
          match parseStatus {
            case AtOperator =>
            case Number(x, y) =>
              parseStatus := AtOperator;
              var ok := FoldNumber(x, y);
              if !ok {
                return None;
              }
          }
          return Some((result, i));
        } else if !IsWhitespace(c) {
          return None;
        }
        i := i + 1;
      }
      match parseStatus {
        case Number(x, y) =>
          var ok := FoldNumber(x, y);
          if !ok {
            return None;
          }
        case AtOperator =>
      }
      return Some((result, i));
    }
  }

  // Expressions, as an independent reference for what the scanner computes.

  /** An arithmetic expression whose binary operators nest to the left:
      the right operand of `Binary` is a number or a parenthesised
      expression. */
  datatype Expr = Num(digits: string) | Paren(inner: Expr) | Binary(left: Expr, op: Operator, right: Expr)

  predicate IsAtom(e: Expr) {
    !e.Binary?
  }

  predicate WellFormed(e: Expr) {
    match e
    case Num(ds) => IsNumeral(ds)
    case Paren(g) => WellFormed(g)
    case Binary(l, _, r) => WellFormed(l) && IsAtom(r) && WellFormed(r)
  }

  function Symbol(op: Operator): char {
    match op
    case Sum => '+'
    case Multiply => '*'
  }

  /** The text between two operands: the operator, with a space on each
      side as in the puzzle input, or alone. */
  function Separator(op: Operator, spaced: bool): string {
    if spaced then [' ', Symbol(op), ' '] else [Symbol(op)]
  }

  /** The text of an expression. */
  function Print(e: Expr, spaced: bool): string {
    match e
    case Num(ds) => ds
    case Paren(g) => "(" + Print(g, spaced) + ")"
    case Binary(l, op, r) => Print(l, spaced) + Separator(op, spaced) + Print(r, spaced)
  }

  /** Evaluation with `+` and `*` of equal precedence, grouped from the
      left. */
  function EvalLeftToRight(e: Expr): int
    requires WellFormed(e)
  {
    match e
    case Num(ds) => Decimal(ds)
    case Paren(g) => EvalLeftToRight(g)
    case Binary(l, op, r) => Combine(EvalLeftToRight(l), op, EvalLeftToRight(r))
  }

  /** `s` stands in `f` at position `i`. */
  predicate Occurs(f: string, i: nat, s: string) {
    i + |s| <= |f| && forall k :: 0 <= k < |s| ==> f[i + k] == s[k]
  }

  lemma OccursSplit(f: string, i: nat, a: string, b: string)
    requires Occurs(f, i, a + b)
    ensures Occurs(f, i, a) && Occurs(f, i + |a|, b)
  {
    forall k | 0 <= k < |a|
      ensures f[i + k] == a[k]
    {
      assert (a + b)[k] == a[k];
    }
    forall k | 0 <= k < |b|
      ensures f[i + |a| + k] == b[k]
    {
      assert (a + b)[|a| + k] == b[k];
    }
  }

  /** What comes after an expression in the text: an operator and the rest
      of a chain, the `)` of its group, or the end of the formula. */
  datatype Follow = ThenOp(next: Operator) | ThenClose | ThenEnd

  predicate Follows(f: string, j: nat, fl: Follow, spaced: bool) {
    match fl
    case ThenOp(o) => Occurs(f, j, Separator(o, spaced))
    case ThenClose => j < |f| && f[j] == ')'
    case ThenEnd => j == |f|
  }

  /** The expression `e` stands at `i` in `f`, followed as `fl` says. */
  predicate Placed(f: string, i: nat, e: Expr, fl: Follow, spaced: bool) {
    WellFormed(e) && Occurs(f, i, Print(e, spaced)) && Follows(f, i + |Print(e, spaced)|, fl, spaced)
  }

  /** How the scan goes on once the expression before `j` has been folded
      into the value `v`. */
  function Cont(f: string, j: nat, v: int, fl: Follow, spaced: bool): Option<(int, nat)> {
    match fl
    case ThenOp(o) => Calc(f, j + |Separator(o, spaced)|, v, o, AtOperator)
    case ThenClose => Some((v, j))
    case ThenEnd => Some((v, j))
  }

  lemma ContOp(f: string, j: nat, v: int, op: Operator, spaced: bool)
    ensures Cont(f, j, v, ThenOp(op), spaced) == Calc(f, j + |Separator(op, spaced)|, v, op, AtOperator)
  {
  }

  /** With nothing pending, the scan passes over what follows. */
  lemma CleanCont(f: string, j: nat, v: int, op: Operator, fl: Follow, spaced: bool)
    requires Follows(f, j, fl, spaced)
    ensures Calc(f, j, v, op, AtOperator) == Cont(f, j, v, fl, spaced)
  {
    if fl.ThenOp? {
      var o := fl.next;
      var sep := Separator(o, spaced);
      if spaced {
        assert sep[0] == ' ' && sep[1] == Symbol(o) && sep[2] == ' ';
        assert f[j] == ' ' && f[j + 1] == Symbol(o) && f[j + 2] == ' ';
        assert Calc(f, j, v, op, AtOperator) == Calc(f, j + 1, v, op, AtOperator);
        assert Calc(f, j + 1, v, op, AtOperator) == Calc(f, j + 2, v, o, AtOperator);
      } else {
        assert sep[0] == Symbol(o);
        assert f[j] == Symbol(o);
      }
    }
  }

  /** A run of digits extends the pending number. */
  lemma {:induction false} DigitsRun(f: string, x: nat, k: nat, j: nat, res: int, op: Operator)
    requires x < k <= j <= |f| && IsNumeral(f[x..j])
    ensures Calc(f, k, res, op, Number(x, k)) == Calc(f, j, res, op, Number(x, j))
    decreases j - k
  {
    if k < j {
      assert IsDigit(f[x..j][k - x]);
      DigitsRun(f, x, k + 1, j, res, op);
    }
  }

  /** A pending number is folded in by what follows it. */
  lemma PendingCont(f: string, x: nat, j: nat, res: int, op: Operator, fl: Follow, spaced: bool)
    requires x < j <= |f| && IsNumeral(f[x..j]) && Follows(f, j, fl, spaced)
    ensures Calc(f, j, res, op, Number(x, j)) == Cont(f, j, Combine(res, op, Decimal(f[x..j])), fl, spaced)
  {
    var v := Combine(res, op, Decimal(f[x..j]));
    if fl.ThenOp? {
      var o := fl.next;
      var sep := Separator(o, spaced);
      if spaced {
        assert sep[0] == ' ' && sep[1] == Symbol(o) && sep[2] == ' ';
        assert f[j] == ' ' && f[j + 1] == Symbol(o) && f[j + 2] == ' ';
        assert Calc(f, j, res, op, Number(x, j)) == Calc(f, j + 1, res, op, Number(x, j));
        assert Calc(f, j + 1, res, op, Number(x, j)) == Calc(f, j + 2, v, o, AtOperator);
      } else {
        assert sep[0] == Symbol(o);
        assert f[j] == Symbol(o);
      }
    }
  }

  /** Scanning a number or a group from the state `(res, op)` folds its
      value in. */
  lemma {:induction false} AtomRun(f: string, i: nat, a: Expr, res: int, op: Operator, fl: Follow, spaced: bool)
    requires IsAtom(a) && Placed(f, i, a, fl, spaced)
    ensures Calc(f, i, res, op, AtOperator) == Cont(f, i + |Print(a, spaced)|, Combine(res, op, EvalLeftToRight(a)), fl, spaced)
    decreases a, 1
  {
    if a.Num? {
      NumRun(f, i, a.digits, res, op, fl, spaced);
    } else {
      ParenRun(f, i, a, res, op, fl, spaced);
    }
  }

  lemma NumRun(f: string, i: nat, ds: string, res: int, op: Operator, fl: Follow, spaced: bool)
    requires IsNumeral(ds) && Occurs(f, i, ds) && Follows(f, i + |ds|, fl, spaced)
    ensures Calc(f, i, res, op, AtOperator) == Cont(f, i + |ds|, Combine(res, op, Decimal(ds)), fl, spaced)
  {
    var j := i + |ds|;
    assert f[i..j] == ds by {
      forall k | 0 <= k < |ds|
        ensures f[i..j][k] == ds[k]
      {
        assert f[i + k] == ds[k];
      }
    }
    assert IsDigit(ds[0]) && f[i] == ds[0];
    assert Calc(f, i, res, op, AtOperator) == Calc(f, i + 1, res, op, Number(i, i + 1));
    DigitsRun(f, i, i + 1, j, res, op);
    PendingCont(f, i, j, res, op, fl, spaced);
  }

  /** The text of a group, seen from inside: the formula after `(` holds
      the inner text followed by `)`. */
  lemma Inside(f: string, i: nat, pg: string)
    requires Occurs(f, i, "(" + pg + ")")
    ensures f[i] == '(' && Occurs(f[i + 1..], 0, pg) && Follows(f[i + 1..], |pg|, ThenClose, true)
  {
    var w := "(" + pg + ")";
    var sub := f[i + 1..];
    assert w[0] == '(' && w[|pg| + 1] == ')';
    forall k | 0 <= k < |pg|
      ensures sub[k] == pg[k]
    {
      assert w[k + 1] == pg[k];
    }
  }

  /** `(` hands the rest of the formula to a fresh scan and resumes past
      the index that scan stops at. */
  lemma OpenStep(f: string, i: nat, res: int, op: Operator, n: int, ind: nat)
    requires i < |f| && f[i] == '(' && Calc(f[i + 1..], 0, 0, Sum, AtOperator) == Some((n, ind))
    ensures Calc(f, i, res, op, AtOperator) == Calc(f, i + ind + 2, Combine(res, op, n), op, AtOperator)
  {
  }

  lemma {:induction false} ParenRun(f: string, i: nat, a: Expr, res: int, op: Operator, fl: Follow, spaced: bool)
    requires a.Paren? && Placed(f, i, a, fl, spaced)
    ensures Calc(f, i, res, op, AtOperator) == Cont(f, i + |Print(a, spaced)|, Combine(res, op, EvalLeftToRight(a)), fl, spaced)
    decreases a, 0
  {
    var g := a.inner;
    var pg := Print(g, spaced);
    Inside(f, i, pg);
    ExprRun(f[i + 1..], 0, g, ThenClose, spaced);
    OpenStep(f, i, res, op, EvalLeftToRight(g), |pg|);
    CleanCont(f, i + |pg| + 2, Combine(res, op, EvalLeftToRight(g)), op, fl, spaced);
  }

  /** Scanning an expression from a fresh state yields its left-to-right
      value. */
  lemma {:induction false} ExprRun(f: string, i: nat, e: Expr, fl: Follow, spaced: bool)
    requires Placed(f, i, e, fl, spaced)
    ensures Calc(f, i, 0, Sum, AtOperator) == Cont(f, i + |Print(e, spaced)|, EvalLeftToRight(e), fl, spaced)
    decreases e, 2
  {
    if e.Binary? {
      BinarySplit(f, i, e, fl, spaced);
      BinaryRun(f, i, e.left, e.op, e.right, fl, spaced);
    } else {
      AtomRun(f, i, e, 0, Sum, fl, spaced);
    }
  }

  /** A chain: the part before the last operator, then the operator and
      the last operand. */
  lemma {:induction false} BinaryRun(f: string, i: nat, l: Expr, op: Operator, r: Expr, fl: Follow, spaced: bool)
    requires Placed(f, i, l, ThenOp(op), spaced)
    requires IsAtom(r) && Placed(f, i + |Print(l, spaced)| + |Separator(op, spaced)|, r, fl, spaced)
    ensures Calc(f, i, 0, Sum, AtOperator)
         == Cont(f, i + |Print(l, spaced)| + |Separator(op, spaced)| + |Print(r, spaced)|,
                 Combine(EvalLeftToRight(l), op, EvalLeftToRight(r)), fl, spaced)
    decreases Binary(l, op, r), 1
  {
    AtomRun(f, i + |Print(l, spaced)| + |Separator(op, spaced)|, r, EvalLeftToRight(l), op, fl, spaced);
    LeftRun(f, i, l, op, spaced);
  }

  /** The chain before the last operator, scanned up to and including that
      operator, leaves its value and the operator in the state. */
  lemma {:induction false} LeftRun(f: string, i: nat, l: Expr, op: Operator, spaced: bool)
    requires Placed(f, i, l, ThenOp(op), spaced)
    ensures Calc(f, i, 0, Sum, AtOperator)
         == Calc(f, i + |Print(l, spaced)| + |Separator(op, spaced)|, EvalLeftToRight(l), op, AtOperator)
    decreases l, 3
  {
    ExprRun(f, i, l, ThenOp(op), spaced);
    ContOp(f, i + |Print(l, spaced)|, EvalLeftToRight(l), op, spaced);
  }

  /** The text of a chain splits into the chain before the last operator,
      the operator, and the last operand. */
  lemma BinarySplit(f: string, i: nat, e: Expr, fl: Follow, spaced: bool)
    requires e.Binary? && Placed(f, i, e, fl, spaced)
    ensures Placed(f, i, e.left, ThenOp(e.op), spaced)
    ensures Placed(f, i + |Print(e.left, spaced)| + |Separator(e.op, spaced)|, e.right, fl, spaced)
    ensures |Print(e, spaced)| == |Print(e.left, spaced)| + |Separator(e.op, spaced)| + |Print(e.right, spaced)|
  {
    var pl, sep, pr := Print(e.left, spaced), Separator(e.op, spaced), Print(e.right, spaced);
    assert Print(e, spaced) == pl + sep + pr;
    var k := i + |Print(e, spaced)|;
    assert k == i + |pl| + |sep| + |pr|;
    assert Follows(f, k, fl, spaced);
    OccursSplit(f, i, pl + sep, pr);
    OccursSplit(f, i, pl, sep);
  }

  /** `calculate` on the text of an expression returns its left-to-right
      value and stops at the end of the text. */
  lemma CalculatePrinted(e: Expr, spaced: bool)
    requires WellFormed(e)
    ensures Calc(Print(e, spaced), 0, 0, Sum, AtOperator) == Some((EvalLeftToRight(e), |Print(e, spaced)|))
  {
    ExprRun(Print(e, spaced), 0, e, ThenEnd, spaced);
  }

  // The rewriting of `part2`, which makes `+` bind tighter than `*`.

  /** `str::replace`: every occurrence of `pat`, found scanning from the
      left without overlaps, is replaced by `rep`. */
  function Replace(s: string, pat: string, rep: string): string
    requires |pat| > 0
    decreases |s|
  {
    if |s| < |pat| then s
    else if s[..|pat|] == pat then rep + Replace(s[|pat|..], pat, rep)
    else [s[0]] + Replace(s[1..], pat, rep)
  }

  /** `add_parantheses`: every parenthesis is doubled, every ` * ` closes
      one group and opens the next, the spaces go, and the whole line is
      wrapped in one more group. */
  function AddParentheses(line: string): string {
    "(" + Replace(Replace(Replace(Replace(line, "(", "(("), ")", "))"), " * ", ") * ("), " ", "") + ")"
  }

  /** How an expression is written: what opens and closes a group and what
      stands for each operator. */
  datatype Style = Style(open: string, close: string, plus: string, times: string)

  function Infix(op: Operator, st: Style): string {
    match op
    case Sum => st.plus
    case Multiply => st.times
  }

  function Render(e: Expr, st: Style): string {
    match e
    case Num(ds) => ds
    case Paren(g) => st.open + Render(g, st) + st.close
    case Binary(l, op, r) => Render(l, st) + Infix(op, st) + Render(r, st)
  }

  /** The puzzle's layout, with spaces around the operators. */
  const Spaced := Style("(", ")", " + ", " * ")
  /** The layout after each step of `add_parantheses`. */
  const Doubled := Style("((", "))", " + ", " * ")
  const Reopened := Style("((", "))", " + ", ") * (")
  const Rewritten := Style("((", "))", "+", ")*(")

  lemma {:induction false} PrintSpaced(e: Expr)
    ensures Print(e, true) == Render(e, Spaced)
  {
    match e
    case Num(_) =>
    case Paren(g) => PrintSpaced(g);
    case Binary(l, op, r) => PrintSpaced(l); PrintSpaced(r);
  }

  /** A replacement of one character works piece by piece. */
  lemma {:induction false} ReplaceCharAppend(a: string, b: string, c: char, rep: string)
    ensures Replace(a + b, [c], rep) == Replace(a, [c], rep) + Replace(b, [c], rep)
    decreases |a|
  {
    if a == [] {
      assert a + b == b;
    } else {
      assert (a + b)[..1] == a[..1] == [a[0]];
      assert (a + b)[1..] == a[1..] + b;
      ReplaceCharAppend(a[1..], b, c, rep);
    }
  }

  /** A text without the first character of the pattern is left alone. */
  lemma {:induction false} ReplaceAbsent(s: string, pat: string, rep: string)
    requires |pat| > 0 && forall k :: 0 <= k < |s| ==> s[k] != pat[0]
    ensures Replace(s, pat, rep) == s
    decreases |s|
  {
    if |s| >= |pat| {
      assert s[..|pat|][0] != pat[0];
      ReplaceAbsent(s[1..], pat, rep);
      assert [s[0]] + s[1..] == s;
    }
  }

  function ReplaceStyle(st: Style, c: char, rep: string): Style {
    Style(Replace(st.open, [c], rep), Replace(st.close, [c], rep), Replace(st.plus, [c], rep), Replace(st.times, [c], rep))
  }

  /** Replacing a character that is not a digit replaces it in the layout
      and leaves the numbers alone. */
  lemma {:induction false} RenderReplaceChar(e: Expr, st: Style, c: char, rep: string)
    requires WellFormed(e) && !IsDigit(c)
    ensures Replace(Render(e, st), [c], rep) == Render(e, ReplaceStyle(st, c, rep))
  {
    match e
    case Num(ds) =>
      ReplaceAbsent(ds, [c], rep);
    case Paren(g) =>
      ReplaceCharAppend(st.open + Render(g, st), st.close, c, rep);
      ReplaceCharAppend(st.open, Render(g, st), c, rep);
      RenderReplaceChar(g, st, c, rep);
    case Binary(l, op, r) =>
      ReplaceCharAppend(Render(l, st) + Infix(op, st), Render(r, st), c, rep);
      ReplaceCharAppend(Render(l, st), Infix(op, st), c, rep);
      RenderReplaceChar(l, st, c, rep);
      RenderReplaceChar(r, st, c, rep);
      assert Replace(Infix(op, st), [c], rep) == Infix(op, ReplaceStyle(st, c, rep));
  }

  /** A layout whose groups open with `(` and close with `)`. */
  predicate Bracketing(st: Style) {
    |st.open| > 0 && st.open[0] == '(' && |st.close| > 0 && st.close[|st.close| - 1] == ')'
  }

  /** An operand's text starts with a digit or `(` and ends with a digit
      or `)`. */
  predicate Operand(t: string) {
    |t| > 0 && (IsDigit(t[0]) || t[0] == '(') && (IsDigit(t[|t| - 1]) || t[|t| - 1] == ')')
  }

  /** The text of an expression is an operand's. */
  lemma {:induction false} RenderEnds(e: Expr, st: Style)
    requires WellFormed(e) && Bracketing(st)
    ensures Operand(Render(e, st))
  {
    match e
    case Num(ds) =>
    case Paren(g) =>
      RenderEnds(g, st);
    case Binary(l, op, r) =>
      RenderEnds(l, st);
      RenderEnds(r, st);
      var t, tl, tr := Render(e, st), Render(l, st), Render(r, st);
      assert t == tl + (Infix(op, st) + tr);
      assert t[0] == tl[0] && t[|t| - 1] == tr[|tr| - 1];
  }

  /** The replacement of ` * ` works piece by piece when the left piece
      cannot begin an occurrence that runs into the right one. The pattern
      and its replacement are parameters so that the solver does not
      evaluate the replacement on partly known text. */
  lemma {:induction false} StarAppend(a: string, b: string, pat: string, rep: string)
    requires pat == " * "
    requires a == [] || (a[|a| - 1] != ' ' && a[|a| - 1] != '*')
    ensures Replace(a + b, pat, rep) == Replace(a, pat, rep) + Replace(b, pat, rep)
    decreases |a|
  {
    var s := a + b;
    if a == [] {
      assert s == b;
    } else if |s| < 3 {
    } else if s[..3] == pat {
      assert |a| >= 3 by {
        assert s[0] == ' ' && s[1] == '*';
      }
      assert a[..3] == s[..3];
      assert s[3..] == a[3..] + b;
      StarAppend(a[3..], b, pat, rep);
    } else {
      assert s[1..] == a[1..] + b;
      StarAppend(a[1..], b, pat, rep);
      if |a| >= 3 {
        assert a[..3] == s[..3];
      }
    }
  }

  /** ` * ` is replaced where it stands. */
  lemma StarAt(x: string, pat: string, rep: string)
    requires pat == " * "
    ensures Replace(pat + x, pat, rep) == rep + Replace(x, pat, rep)
  {
    assert (pat + x)[..3] == pat;
    assert (pat + x)[3..] == x;
  }

  /** Where the text differs from the pattern at some position of its
      first `|pat|` characters, the first character is kept. */
  lemma ReplaceMiss(s: string, pat: string, rep: string, k: nat)
    requires 0 < |pat| <= |s| && k < |pat| && s[k] != pat[k]
    ensures Replace(s, pat, rep) == [s[0]] + Replace(s[1..], pat, rep)
  {
    assert s[..|pat|][k] == s[k];
  }

  /** ` + ` followed by a number or a group is left alone. */
  lemma PlusAt(x: string, pat: string, rep: string)
    requires pat == " * " && |x| > 0 && x[0] != '*'
    ensures Replace(" + " + x, pat, rep) == " + " + Replace(x, pat, rep)
  {
    var s, s1, t := " + " + x, "+ " + x, " " + x;
    assert s[1] == '+' && s[1..] == s1;
    ReplaceMiss(s, pat, rep, 1);
    assert s1[0] == '+' && s1[1..] == t;
    ReplaceMiss(s1, pat, rep, 0);
    if |t| >= 3 {
      assert t[1] == x[0] && t[1..] == x;
      ReplaceMiss(t, pat, rep, 1);
    }
  }

  /** The layout `Doubled` with ` * ` as the pattern to replace; it is
      stated by its parts so that the solver does not evaluate the
      replacement on partly known text. */
  predicate StarStyle(d: Style, pat: string) {
    pat == " * " && d.open == "((" && d.close == "))" && d.plus == " + " && d.times == pat
  }

  /** The third step of `add_parantheses` turns every ` * ` between two
      operands into `) * (`. */
  lemma {:induction false} RenderStar(e: Expr, d: Style, pat: string, rep: string)
    requires WellFormed(e) && StarStyle(d, pat)
    ensures Replace(Render(e, d), pat, rep) == Render(e, d.(times := rep))
  {
    match e
    case Num(ds) =>
      ReplaceAbsent(ds, pat, rep);
    case Paren(g) =>
      RenderStar(g, d, pat, rep);
      ParenStar(g, d, pat, rep);
    case Binary(l, op, r) =>
      RenderStar(l, d, pat, rep);
      RenderStar(r, d, pat, rep);
      BinaryStar(l, op, r, d, pat, rep);
  }

  /** Doubled brackets around an operand are left alone. */
  lemma WrapStar(t: string, open: string, close: string, pat: string, rep: string)
    requires pat == " * " && open == "((" && close == "))" && Operand(t)
    ensures Replace(open + (t + close), pat, rep) == open + (Replace(t, pat, rep) + close)
  {
    StarAppend(open, t + close, pat, rep);
    StarAppend(t, close, pat, rep);
    assert Replace(open, pat, rep) == open;
    assert Replace(close, pat, rep) == close;
  }

  lemma ParenStar(g: Expr, d: Style, pat: string, rep: string)
    requires WellFormed(g) && StarStyle(d, pat)
    requires Replace(Render(g, d), pat, rep) == Render(g, d.(times := rep))
    ensures Replace(Render(Paren(g), d), pat, rep) == Render(Paren(g), d.(times := rep))
  {
    var t := Render(g, d);
    assert Render(Paren(g), d) == d.open + (t + d.close);
    assert Replace(d.open + (t + d.close), pat, rep) == d.open + (Replace(t, pat, rep) + d.close) by {
      RenderEnds(g, d);
      WrapStar(t, d.open, d.close, pat, rep);
    }
  }

  /** Between two operands, ` + ` is kept and ` * ` replaced. */
  lemma JoinStar(tl: string, inf: string, tr: string, pat: string, rep: string)
    requires pat == " * " && Operand(tl) && Operand(tr) && (inf == " + " || inf == pat)
    ensures Replace(tl + (inf + tr), pat, rep)
      == Replace(tl, pat, rep) + ((if inf == pat then rep else inf) + Replace(tr, pat, rep))
  {
    StarAppend(tl, inf + tr, pat, rep);
    if inf == pat {
      StarAt(tr, pat, rep);
    } else {
      PlusAt(tr, pat, rep);
    }
  }

  lemma BinaryStar(l: Expr, op: Operator, r: Expr, d: Style, pat: string, rep: string)
    requires WellFormed(Binary(l, op, r)) && StarStyle(d, pat)
    requires Replace(Render(l, d), pat, rep) == Render(l, d.(times := rep))
    requires Replace(Render(r, d), pat, rep) == Render(r, d.(times := rep))
    ensures Replace(Render(Binary(l, op, r), d), pat, rep) == Render(Binary(l, op, r), d.(times := rep))
  {
    var tl, tr, inf := Render(l, d), Render(r, d), Infix(op, d);
    var o := d.(times := rep);
    assert Render(Binary(l, op, r), d) == tl + (inf + tr);
    assert Replace(tl + (inf + tr), pat, rep)
        == Replace(tl, pat, rep) + ((if inf == pat then rep else inf) + Replace(tr, pat, rep)) by {
      RenderEnds(l, d);
      RenderEnds(r, d);
      JoinStar(tl, inf, tr, pat, rep);
    }
    assert Infix(op, o) == (if inf == pat then rep else inf);
    assert Render(Binary(l, op, r), o) == Render(l, o) + (Infix(op, o) + Render(r, o));
    assert Render(l, o) == Replace(tl, pat, rep) && Render(r, o) == Replace(tr, pat, rep);
  }

  /** How each replacement of `add_parantheses` changes the layout. */
  lemma OpenStyle()
    ensures ReplaceStyle(Spaced, '(', "((") == Style("((", ")", " + ", " * ")
  {
  }

  lemma CloseStyle()
    ensures ReplaceStyle(Style("((", ")", " + ", " * "), ')', "))") == Doubled
  {
  }

  lemma SpaceStyle()
    ensures ReplaceStyle(Reopened, ' ', "") == Rewritten
  {
  }

  /** The four steps of `add_parantheses` on the puzzle's layout of an
      expression: every group gets doubled brackets, every `*` closes a
      group and opens the next, and the spaces go. */
  lemma AddParenthesesRender(e: Expr)
    requires WellFormed(e)
    ensures AddParentheses(Print(e, true)) == "(" + Render(e, Rewritten) + ")"
  {
    PrintSpaced(e);
    RenderReplaceChar(e, Spaced, '(', "((");
    OpenStyle();
    RenderReplaceChar(e, Style("((", ")", " + ", " * "), ')', "))");
    CloseStyle();
    RenderStar(e, Doubled, " * ", ") * (");
    assert Doubled.(times := ") * (") == Reopened;
    RenderReplaceChar(e, Reopened, ' ', "");
    SpaceStyle();
  }

  // Precedence: `+` before `*`.

  /** The value of an expression when `+` binds tighter than `*`. */
  function EvalPrecedence(e: Expr): int
    requires WellFormed(e)
    decreases e, 2
  {
    var (p, s) := Parts(e);
    p * s
  }

  /** A chain read with `+` before `*` is a product of sums of operands:
      the product of the factors closed by a `*` so far, and the sum of
      the factor still open. */
  function Parts(e: Expr): (int, int)
    requires WellFormed(e)
    decreases e, 1
  {
    match e
    case Binary(l, Sum, r) =>
      var (p, s) := Parts(l);
      (p, s + AtomValue(r))
    case Binary(l, Multiply, r) =>
      var (p, s) := Parts(l);
      (p * s, AtomValue(r))
    case _ => (1, AtomValue(e))
  }

  /** The value of an operand: a number, or a group read with `+` before
      `*`. */
  function AtomValue(a: Expr): int
    requires WellFormed(a) && IsAtom(a)
    decreases a, 0
  {
    match a
    case Num(ds) => Decimal(ds)
    case Paren(g) => EvalPrecedence(g)
  }

  /** An expression that `add_parantheses` produces: a single group, or a
      product whose last factor is a group. */
  predicate Product(y: Expr) {
    y.Paren? || (y.Binary? && y.op == Multiply && y.right.Paren?)
  }

  /** The product a grouped expression stands for, as its factor before
      the last group and the contents of that group. */
  function Factors(y: Expr): (int, int)
    requires WellFormed(y) && Product(y)
  {
    match y
    case Paren(s) => (1, EvalLeftToRight(s))
    case Binary(x, _, r) =>
      assert WellFormed(r);
      (EvalLeftToRight(x), EvalLeftToRight(r.inner))
  }

  /** Adds `+ a` inside the last group. */
  function Extend(y: Expr, a: Expr): Expr {
    match y
    case Paren(s) => Paren(Binary(s, Sum, a))
    case Binary(x, op, Paren(s)) => Binary(x, op, Paren(Binary(s, Sum, a)))
    case _ => y
  }

  /** The expression that the text of `add_parantheses` spells: each run
      of operands joined by `+` in its own group, the groups multiplied. */
  function Grouped(e: Expr): Expr
    decreases e, 1
  {
    match e
    case Binary(l, Sum, r) => Extend(Grouped(l), GroupedAtom(r))
    case Binary(l, Multiply, r) => Binary(Grouped(l), Multiply, Paren(GroupedAtom(r)))
    case _ => Paren(GroupedAtom(e))
  }

  /** An operand with every group inside it grouped. */
  function GroupedAtom(a: Expr): Expr
    decreases a, 0
  {
    match a
    case Paren(g) => Paren(Grouped(g))
    case _ => a
  }

  /** The grouped expression is well formed, a product, and its factors
      are those of the reading with `+` before `*`; so read from left to
      right it has the value with `+` first. */
  lemma {:induction false} GroupedParts(e: Expr)
    requires WellFormed(e)
    ensures WellFormed(Grouped(e)) && Product(Grouped(e)) && Factors(Grouped(e)) == Parts(e)
    ensures EvalLeftToRight(Grouped(e)) == EvalPrecedence(e)
    decreases e, 1
  {
    match e
    case Binary(l, op, r) =>
      GroupedParts(l);
      GroupedAtomValue(r);
    case _ =>
      GroupedAtomValue(e);
  }

  lemma {:induction false} GroupedAtomValue(a: Expr)
    requires WellFormed(a) && IsAtom(a)
    ensures WellFormed(GroupedAtom(a)) && IsAtom(GroupedAtom(a))
    ensures EvalLeftToRight(GroupedAtom(a)) == AtomValue(a)
    decreases a, 0
  {
    if a.Paren? {
      GroupedParts(a.inner);
    }
  }

  /** The text of a grouped expression, written without spaces. */
  lemma {:induction false} PrintGrouped(e: Expr)
    requires WellFormed(e)
    ensures Print(Grouped(e), false) == "(" + Render(e, Rewritten) + ")"
    decreases e, 1
  {
    match e
    case Binary(l, op, r) =>
      PrintGrouped(l);
      PrintGroupedAtom(r);
      GroupedParts(l);
      if op == Sum {
        PrintGroupedSum(l, r);
      } else {
        PrintGroupedTimes(l, r);
      }
    case _ =>
      PrintGroupedAtom(e);
  }

  lemma PrintGroupedSum(l: Expr, r: Expr)
    requires Product(Grouped(l))
    requires Print(Grouped(l), false) == "(" + Render(l, Rewritten) + ")"
    requires Print(GroupedAtom(r), false) == Render(r, Rewritten)
    ensures Print(Grouped(Binary(l, Sum, r)), false) == "(" + Render(Binary(l, Sum, r), Rewritten) + ")"
  {
    var rl, rr := Render(l, Rewritten), Render(r, Rewritten);
    var py := Print(Grouped(l), false);
    PrintExtend(Grouped(l), GroupedAtom(r));
    assert py[..|py| - 1] == "(" + rl;
    assert Render(Binary(l, Sum, r), Rewritten) == rl + "+" + rr;
  }

  lemma PrintGroupedTimes(l: Expr, r: Expr)
    requires Print(Grouped(l), false) == "(" + Render(l, Rewritten) + ")"
    requires Print(GroupedAtom(r), false) == Render(r, Rewritten)
    ensures Print(Grouped(Binary(l, Multiply, r)), false) == "(" + Render(Binary(l, Multiply, r), Rewritten) + ")"
  {
    var rl, rr := Render(l, Rewritten), Render(r, Rewritten);
    assert Separator(Multiply, false) == "*";
    assert Print(Grouped(Binary(l, Multiply, r)), false) == ("(" + rl + ")") + "*" + ("(" + rr + ")");
    assert Render(Binary(l, Multiply, r), Rewritten) == rl + ")*(" + rr;
  }

  lemma {:induction false} PrintGroupedAtom(a: Expr)
    requires WellFormed(a) && IsAtom(a)
    ensures Print(GroupedAtom(a), false) == Render(a, Rewritten)
    decreases a, 0
  {
    if a.Paren? {
      PrintGrouped(a.inner);
    }
  }

  /** Extending a product puts `+ a` before its last `)`. */
  lemma PrintExtend(y: Expr, a: Expr)
    requires Product(y)
    ensures var t := Print(y, false);
      |t| > 0 && Print(Extend(y, a), false) == t[..|t| - 1] + "+" + Print(a, false) + ")"
  {
    var t := Print(y, false);
    assert Separator(Sum, false) == "+";
    if y.Paren? {
      var s := y.inner;
      assert t[..|t| - 1] == "(" + Print(s, false);
      assert Print(Binary(s, Sum, a), false) == Print(s, false) + "+" + Print(a, false);
    } else {
      var x, s := y.left, y.right.inner;
      assert Separator(Multiply, false) == "*";
      assert Print(y.right, false) == "(" + Print(s, false) + ")";
      assert t == Print(x, false) + "*" + "(" + Print(s, false) + ")";
      assert t[..|t| - 1] == Print(x, false) + "*" + "(" + Print(s, false);
      assert Print(Binary(s, Sum, a), false) == Print(s, false) + "+" + Print(a, false);
    }
  }

  /** `part2` on one line: `calculate` on the rewritten text returns the
      value with `+` before `*`. */
  lemma CalculateRewritten(e: Expr)
    requires WellFormed(e)
    ensures var t := AddParentheses(Print(e, true));
      Calc(t, 0, 0, Sum, AtOperator) == Some((EvalPrecedence(e), |t|))
  {
    AddParenthesesRender(e);
    PrintGrouped(e);
    GroupedParts(e);
    CalculatePrinted(Grouped(e), false);
  }

  // The puzzle answers: the sum over the lines of the homework.

  /** The value `calculate` returns for a line; `None` where it panics. */
  function LineValue(line: string): Option<int> {
    match Calc(line, 0, 0, Sum, AtOperator)
    case Some((r, _)) => Some(r)
    case None => None
  }

  /** The `sum` of the line values; `None` where some line panics. */
  function SumLines(vs: seq<Option<int>>): (r: Option<int>)
    ensures r.Some? <==> forall i :: 0 <= i < |vs| ==> vs[i].Some?
  {
    if vs == [] then Some(0)
    else match (vs[0], SumLines(vs[1..]))
      case (Some(a), Some(b)) => Some(a + b)
      case _ => None
  }

  function SumInts(xs: seq<int>): int {
    if xs == [] then 0 else xs[0] + SumInts(xs[1..])
  }

  lemma {:induction false} SumLinesValues(vs: seq<Option<int>>, xs: seq<int>)
    requires |vs| == |xs| && forall i :: 0 <= i < |vs| ==> vs[i] == Some(xs[i])
    ensures SumLines(vs) == Some(SumInts(xs))
  {
    if vs != [] {
      SumLinesValues(vs[1..], xs[1..]);
    }
  }

  /** `part1`: every line evaluated from left to right. */
  function Part1(lines: seq<string>): Option<int> {
    SumLines(seq(|lines|, i requires 0 <= i < |lines| => LineValue(lines[i])))
  }

  /** `part2`: every line rewritten by `add_parantheses`, then evaluated. */
  function Part2(lines: seq<string>): Option<int> {
    SumLines(seq(|lines|, i requires 0 <= i < |lines| => LineValue(AddParentheses(lines[i]))))
  }

  /** The homework as the puzzle writes it: one expression per line. */
  function Homework(es: seq<Expr>): seq<string> {
    seq(|es|, i requires 0 <= i < |es| => Print(es[i], true))
  }

  /** The first answer is the sum of the left-to-right values. */
  lemma Part1Homework(es: seq<Expr>)
    requires forall i :: 0 <= i < |es| ==> WellFormed(es[i])
    ensures Part1(Homework(es)) == Some(SumInts(seq(|es|, i requires 0 <= i < |es| && WellFormed(es[i]) => EvalLeftToRight(es[i]))))
  {
    var lines := Homework(es);
    var vs := seq(|lines|, i requires 0 <= i < |lines| => LineValue(lines[i]));
    var xs := seq(|es|, i requires 0 <= i < |es| && WellFormed(es[i]) => EvalLeftToRight(es[i]));
    forall i | 0 <= i < |vs|
      ensures vs[i] == Some(xs[i])
    {
      CalculatePrinted(es[i], true);
    }
    SumLinesValues(vs, xs);
  }

  /** The second answer is the sum of the values with `+` before `*`. */
  lemma Part2Homework(es: seq<Expr>)
    requires forall i :: 0 <= i < |es| ==> WellFormed(es[i])
    ensures Part2(Homework(es)) == Some(SumInts(seq(|es|, i requires 0 <= i < |es| && WellFormed(es[i]) => EvalPrecedence(es[i]))))
  {
    var lines := Homework(es);
    var vs := seq(|lines|, i requires 0 <= i < |lines| => LineValue(AddParentheses(lines[i])));
    var xs := seq(|es|, i requires 0 <= i < |es| && WellFormed(es[i]) => EvalPrecedence(es[i]));
    forall i | 0 <= i < |vs|
      ensures vs[i] == Some(xs[i])
    {
      CalculateRewritten(es[i]);
    }
    SumLinesValues(vs, xs);
  }
}
