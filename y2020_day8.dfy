// Handheld Halting: a boot-code interpreter with three instructions that
// stops as soon as it would run a line a second time or leaves the program.

module HandheldHalting {
  import opened Wrappers

  datatype Op = Acc | Nop | Jmp

  datatype Instruction = Instruction(op: Op, value: int)

  /** The interpreter's registers: the next line, the accumulator and the
      lines already run. */
  datatype Config = Config(line: int, acc: int, executed: set<int>)

  const Initial := Config(0, 0, {})

  /** The line numbers of a program with `n` lines. */
  function Lines(n: nat): (s: set<int>)
    ensures forall i :: i in s <==> 0 <= i < n
  {
    if n == 0 then {} else Lines(n - 1) + {n - 1}
  }

  /** `execute_all` keeps going while the line is inside the program and
      has not been run before. */
  predicate Running(prog: seq<Instruction>, c: Config) {
    0 <= c.line < |prog| && c.line !in c.executed
  }

  /** One instruction, as `execute_next` runs it: the line is recorded
      first, then `acc` adds to the accumulator and moves on, `nop` moves
      on, `jmp` jumps by its value. */
  function Next(prog: seq<Instruction>, c: Config): (r: Config)
    requires 0 <= c.line < |prog|
    ensures r.executed == c.executed + {c.line}
  {
    var ins := prog[c.line];
    var executed := c.executed + {c.line};
    match ins.op
    case Acc => Config(c.line + 1, c.acc + ins.value, executed)
    case Nop => Config(c.line + 1, c.acc, executed)
    case Jmp => Config(c.line + ins.value, c.acc, executed)
  }

  /** Running a line takes it out of the lines still unvisited. */
  lemma NextShrinks(prog: seq<Instruction>, c: Config)
    requires Running(prog, c)
    ensures |Lines(|prog|) - Next(prog, c).executed| < |Lines(|prog|) - c.executed|
  {
    var before := Lines(|prog|) - c.executed;
    assert Lines(|prog|) - Next(prog, c).executed == before - {c.line};
    assert c.line in before;
  }

  /** The configuration `execute_all` stops in. */
  function Run(prog: seq<Instruction>, c: Config): (r: Config)
    decreases |Lines(|prog|) - c.executed|
    ensures !Running(prog, r)
  {
    if Running(prog, c) then
      NextShrinks(prog, c);
      Run(prog, Next(prog, c))
    else c
  }

  /** The lines `execute_all` runs, in order. */
  function Trace(prog: seq<Instruction>, c: Config): (t: seq<int>)
    decreases |Lines(|prog|) - c.executed|
    ensures forall x :: x in t ==> 0 <= x < |prog|
  {
    if Running(prog, c) then
      NextShrinks(prog, c);
      [c.line] + Trace(prog, Next(prog, c))
    else []
  }

  /** What the accumulator gains from running the given lines. */
  function AccGain(prog: seq<Instruction>, t: seq<int>): int
    requires forall x :: x in t ==> 0 <= x < |prog|
  {
    if t == [] then 0
    else
      assert t[0] in t && forall x :: x in t[1..] ==> x in t;
      (if prog[t[0]].op == Acc then prog[t[0]].value else 0) + AccGain(prog, t[1..])
  }

  /** A run visits lines it had not visited before and records exactly
      those lines. */
  lemma {:induction false} TraceFresh(prog: seq<Instruction>, c: Config)
    decreases |Lines(|prog|) - c.executed|
    ensures forall x :: x in Trace(prog, c) ==> x !in c.executed
    ensures Run(prog, c).executed == c.executed + (set x | x in Trace(prog, c))
  {
    if Running(prog, c) {
      NextShrinks(prog, c);
      var c' := Next(prog, c);
      TraceFresh(prog, c');
      var t, t' := Trace(prog, c), Trace(prog, c');
      assert t == [c.line] + t' && Run(prog, c) == Run(prog, c');
      assert forall x :: x in t <==> x == c.line || x in t';
      assert (set x | x in t) == {c.line} + (set x | x in t');
    }
  }

  /** A run visits each line at most once. */
  lemma {:induction false} TraceDistinct(prog: seq<Instruction>, c: Config)
    decreases |Lines(|prog|) - c.executed|
    ensures var t := Trace(prog, c);
      forall i, j :: 0 <= i < j < |t| ==> t[i] != t[j]
  {
    if Running(prog, c) {
      NextShrinks(prog, c);
      var c' := Next(prog, c);
      TraceDistinct(prog, c');
      TraceFresh(prog, c');
      var t, t' := Trace(prog, c), Trace(prog, c');
      assert t == [c.line] + t';
      forall i, j | 0 <= i < j < |t| ensures t[i] != t[j] {
        assert t[j] == t'[j - 1] && t'[j - 1] in t';
        if i > 0 {
          assert t[i] == t'[i - 1];
        }
      }
    }
  }

  /** The accumulator at the end of a run has grown by the `acc` values on
      the lines the run visited. */
  lemma {:induction false} TraceAcc(prog: seq<Instruction>, c: Config)
    decreases |Lines(|prog|) - c.executed|
    ensures Run(prog, c).acc == c.acc + AccGain(prog, Trace(prog, c))
  {
    if Running(prog, c) {
      NextShrinks(prog, c);
      var c' := Next(prog, c);
      TraceAcc(prog, c');
      var t, t' := Trace(prog, c), Trace(prog, c');
      assert t == [c.line] + t';
      assert t[1..] == t';
    }
  }

  /** `is_naturally_terminated` on a configuration: the line just past the
      last one. */
  predicate Terminated(prog: seq<Instruction>, c: Config) {
    c.line == |prog|
  }

  /** A simple loop never ends naturally: `jmp +0` runs forever in place. */
  lemma SelfJumpLoops(prog: seq<Instruction>)
    requires |prog| >= 1 && prog[0] == Instruction(Jmp, 0)
    ensures Run(prog, Initial) == Config(0, 0, {0})
    ensures !Terminated(prog, Run(prog, Initial))
  {
    var c1 := Next(prog, Initial);
    assert c1 == Config(0, 0, {0});
    assert !Running(prog, c1);
  }

  /** The sample boot code of the puzzle. */
  const Sample := [
    Instruction(Nop, 0), Instruction(Acc, 1), Instruction(Jmp, 4),
    Instruction(Acc, 3), Instruction(Jmp, -3), Instruction(Acc, -99),
    Instruction(Acc, 1), Instruction(Jmp, -4), Instruction(Acc, 6)]

  /** On the sample, the run stops before line 1 repeats, with 5 in the
      accumulator. */
  lemma SampleRun()
    ensures Run(Sample, Initial) == Config(1, 5, {0, 1, 2, 6, 7, 3, 4})
  {
    var p := Sample;
    var c1 := Config(1, 0, {0});
    var c2 := Config(2, 1, {0, 1});
    var c3 := Config(6, 1, {0, 1, 2});
    var c4 := Config(7, 2, {0, 1, 2, 6});
    var c5 := Config(3, 2, {0, 1, 2, 6, 7});
    var c6 := Config(4, 5, {0, 1, 2, 6, 7, 3});
    var c7 := Config(1, 5, {0, 1, 2, 6, 7, 3, 4});
    assert Next(p, Initial) == c1 && Run(p, Initial) == Run(p, c1);
    assert Next(p, c1) == c2 && Run(p, c1) == Run(p, c2);
    assert Next(p, c2) == c3 && Run(p, c2) == Run(p, c3);
    assert Next(p, c3) == c4 && Run(p, c3) == Run(p, c4);
    assert Next(p, c4) == c5 && Run(p, c4) == Run(p, c5);
    assert Next(p, c5) == c6 && Run(p, c5) == Run(p, c6);
    assert Next(p, c6) == c7 && Run(p, c6) == Run(p, c7);
    assert !Running(p, c7);
  }

  /** The boot code with line `i` repaired: a `nop` becomes a `jmp` and
      anything else a `nop`. */
  function Flip(prog: seq<Instruction>, i: nat): (p: seq<Instruction>)
    requires i < |prog|
    ensures |p| == |prog| && p[i].value == prog[i].value
    ensures prog[i].op == Nop ==> p[i].op == Jmp
    ensures prog[i].op != Nop ==> p[i].op == Nop
    ensures forall k :: 0 <= k < |p| && k != i ==> p[k] == prog[k]
  {
    var ins := prog[i];
    prog[i := Instruction(if ins.op == Nop then Jmp else Nop, ins.value)]
  }

  /** Repairing a `nop` or `jmp` twice gives the boot code back. */
  lemma FlipFlip(prog: seq<Instruction>, i: nat)
    requires i < |prog| && prog[i].op != Acc
    ensures Flip(Flip(prog, i), i) == prog
  {
    assert Flip(Flip(prog, i), i)[i] == prog[i];
  }

  /** Line `i` is a repair: it holds `nop` or `jmp`, and swapping it makes
      the boot code end naturally. */
  predicate Repairs(prog: seq<Instruction>, i: nat) {
    i < |prog| && prog[i].op != Acc && Terminated(prog, Run(Flip(prog, i), Initial))
  }

  /** The first repair at or after line `from`. */
  function FirstRepair(prog: seq<Instruction>, from: nat): (r: Option<nat>)
    decreases |prog| - from
    ensures r.Some? ==> from <= r.value && Repairs(prog, r.value)
    ensures forall k :: from <= k && (r.Some? ==> k < r.value) ==> !Repairs(prog, k)
  {
    if from >= |prog| then None
    else if Repairs(prog, from) then Some(from)
    else FirstRepair(prog, from + 1)
  }

  /** The answer of `part2` as its scan computes it: the accumulator of the
      first repaired run that ends naturally, or else of the last one
      tried. */
  function Part2Scan(prog: seq<Instruction>, from: nat, last: int): int
    decreases |prog| - from
  {
    if from >= |prog| then last
    else if prog[from].op == Acc then Part2Scan(prog, from + 1, last)
    else
      var r := Run(Flip(prog, from), Initial);
      if Terminated(prog, r) then r.acc else Part2Scan(prog, from + 1, r.acc)
  }

  /** When some repair exists, `part2` answers with the accumulator of the
      first one. */
  lemma {:induction false} Part2FindsFirstRepair(prog: seq<Instruction>, from: nat, last: int)
    decreases |prog| - from
    requires FirstRepair(prog, from).Some?
    ensures Part2Scan(prog, from, last) == Run(Flip(prog, FirstRepair(prog, from).value), Initial).acc
  {
    if prog[from].op == Acc || !Repairs(prog, from) {
      var last' := if prog[from].op == Acc then last else Run(Flip(prog, from), Initial).acc;
      assert Part2Scan(prog, from, last) == Part2Scan(prog, from + 1, last');
      Part2FindsFirstRepair(prog, from + 1, last');
    }
  }

  /** The interpreter of `State`. */
  class State {
    var currentLine: int
    var acc: int
    var executedLines: set<int>
    var instructions: seq<Instruction>

    function Registers(): Config
      reads this
    {
      Config(currentLine, acc, executedLines)
    }

    /** `State::new`: the parsed program, at line 0 with nothing run. */
    constructor (prog: seq<Instruction>)
      ensures Registers() == Initial && instructions == prog
    {
      currentLine := 0;
      acc := 0;
      executedLines := {};
      instructions := prog;
    }

    /** `execute_next`: records the line, then runs its instruction. */
    method ExecuteNext()
      requires 0 <= currentLine < |instructions|
      modifies this
      ensures instructions == old(instructions)
      ensures executedLines == old(executedLines) + {old(currentLine)}
      ensures var ins := instructions[old(currentLine)];
        match ins.op
        case Acc => acc == old(acc) + ins.value && currentLine == old(currentLine) + 1
        case Nop => acc == old(acc) && currentLine == old(currentLine) + 1
        case Jmp => acc == old(acc) && currentLine == old(currentLine) + ins.value
      ensures Registers() == Next(instructions, old(Registers()))
    {
      executedLines := executedLines + {currentLine};
      var ins := instructions[currentLine];
      match ins.op
      case Acc =>
        acc := acc + ins.value;
        currentLine := currentLine + 1;
      case Nop =>
        currentLine := currentLine + 1;
      case Jmp =>
        currentLine := currentLine + ins.value;
    }

    /** `execute_all`: runs until the line leaves the program or repeats. */
    method ExecuteAll()
      modifies this
      ensures instructions == old(instructions)
      ensures Registers() == Run(instructions, old(Registers()))
      ensures !(0 <= currentLine < |instructions|) || currentLine in executedLines
    {
      while 0 <= currentLine < |instructions| && currentLine !in executedLines
        invariant instructions == old(instructions)
        invariant Run(instructions, Registers()) == Run(instructions, old(Registers()))
        decreases |Lines(|instructions|) - executedLines|
      {
        NextShrinks(instructions, Registers());
        ExecuteNext();
      }
    }

    /** `is_naturally_terminated`: the run ended just past the last line. */
    function IsNaturallyTerminated(): (r: bool)
      reads this
      ensures r <==> Terminated(instructions, Registers())
    {
      currentLine == |instructions|
    }

    /** `reset`: back to line 0 with nothing run; the program is kept. */
    method Reset()
      modifies this
      ensures Registers() == Initial && instructions == old(instructions)
    {
      acc := 0;
      currentLine := 0;
      executedLines := {};
    }
  }

  /** `part1`: the accumulator when the boot code first repeats a line. */
  method Part1(prog: seq<Instruction>) returns (acc: int)
    ensures acc == Run(prog, Initial).acc
    ensures acc == AccGain(prog, Trace(prog, Initial))
  {
    var state := new State(prog);
    state.ExecuteAll();
    acc := state.acc;
    TraceAcc(prog, Initial);
  }

  /** `part2`: tries each `nop`/`jmp` swap on a fresh copy of the boot
      code, in line order, until one ends naturally. */
  method Part2(prog: seq<Instruction>) returns (resultAcc: int)
    ensures resultAcc == Part2Scan(prog, 0, 0)
    ensures FirstRepair(prog, 0).Some? ==>
      resultAcc == Run(Flip(prog, FirstRepair(prog, 0).value), Initial).acc
  {
    resultAcc := 0;
    var i := 0;
    while i < |prog|
      invariant 0 <= i <= |prog|
      invariant Part2Scan(prog, i, resultAcc) == Part2Scan(prog, 0, 0)
    {
      if prog[i].op != Acc {
        var clone := new State(Flip(prog, i));
        clone.ExecuteAll();
        ghost var last := resultAcc;
        resultAcc := clone.acc;
        if clone.IsNaturallyTerminated() {
          assert Part2Scan(prog, i, last) == resultAcc;
          break;
        }
      }
      i := i + 1;
    }
    if FirstRepair(prog, 0).Some? {
      Part2FindsFirstRepair(prog, 0, 0);
    }
  }

  /** `part2_no_clone`: the same search on one interpreter, swapping the
      line back and resetting after each failed try; it answers 0 when no
      swap works. */
  method Part2NoClone(prog: seq<Instruction>) returns (resultAcc: int)
    ensures resultAcc == match FirstRepair(prog, 0)
      case Some(i) => Run(Flip(prog, i), Initial).acc
      case None => 0
  {
    var state := new State(prog);
    resultAcc := 0;
    var i := 0;
    while i < |state.instructions|
      invariant 0 <= i <= |prog| && state.instructions == prog
      invariant state.Registers() == Initial
      invariant FirstRepair(prog, 0) == FirstRepair(prog, i)
      invariant resultAcc == 0
    {
      if state.instructions[i].op == Acc {
        i := i + 1;
        continue;
      }
      var ins := state.instructions[i];
      state.instructions := state.instructions[i := Instruction(if ins.op == Nop then Jmp else Nop, ins.value)];
      assert state.instructions == Flip(prog, i);
      state.ExecuteAll();
      if state.IsNaturallyTerminated() {
        resultAcc := state.acc;
        return;
      }
      ins := state.instructions[i];
      state.instructions := state.instructions[i := Instruction(if ins.op == Nop then Jmp else Nop, ins.value)];
      FlipFlip(prog, i);
      state.Reset();
      i := i + 1;
    }
  }
}
