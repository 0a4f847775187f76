// Syntax Scoring: lines of brackets are checked with a stack of the
// closers still owed. A wrong closer makes the line corrupted; a line that
// ends with closers still owed is incomplete and is scored by the closers
// that would complete it.

module SyntaxScoring {
  import opened Wrappers

  datatype LineScore = Incomplete(score: nat) | Corrupted(score: nat)

  /** The closer an opening bracket owes, if the character opens. */
  function CloserOf(c: char): (r: char)
  {
    match c
    case '{' => '}'
    case '(' => ')'
    case '[' => ']'
    case '<' => '>'
    case _ => c
  }

  predicate IsOpener(c: char) {
    c == '{' || c == '(' || c == '[' || c == '<'
  }

  predicate IsCloser(c: char) {
    c == '}' || c == ')' || c == ']' || c == '>'
  }

  /** The points of the first illegal closer on a corrupted line. */
  function IllegalPoints(c: char): nat
    requires IsCloser(c)
  {
    match c
    case ')' => 3
    case ']' => 57
    case '}' => 1197
    case '>' => 25137
  }

  /** The points a closer adds to a completion score. */
  function CompletionPoints(c: char): (p: nat)
    requires IsCloser(c)
    ensures 1 <= p <= 4
  {
    match c
    case ')' => 1
    case ']' => 2
    case '}' => 3
    case '>' => 4
  }

  predicate AllClosers(stack: seq<char>) {
    forall i :: 0 <= i < |stack| ==> IsCloser(stack[i])
  }

  /** What reading a line leaves: the first illegal closer, or the stack
      of closers still owed, the most recently owed last. */
  datatype Scan = Illegal(c: char) | Pending(stack: seq<char>)

  /** Reads `s` from the left with `stack` owed: an opener pushes its
      closer, a closer must match the top of the stack and pops it, and
      any other character is skipped. */
  function ScanLine(s: string, stack: seq<char>): (r: Scan)
    requires AllClosers(stack)
    ensures r.Illegal? ==> IsCloser(r.c)
    ensures r.Pending? ==> AllClosers(r.stack)
  {
    if s == [] then Pending(stack)
    else
      var c := s[0];
      if IsOpener(c) then ScanLine(s[1..], stack + [CloserOf(c)])
      else if IsCloser(c) then
        if stack != [] && stack[|stack| - 1] == c then ScanLine(s[1..], stack[..|stack| - 1])
        else Illegal(c)
      else ScanLine(s[1..], stack)
  }

  /** The completion score of the closers owed, read from the top of the
      stack: each closer multiplies the total so far by 5 and adds its
      points. */
  function Completion(stack: seq<char>): nat
    requires AllClosers(stack)
  {
    if stack == [] then 0 else CompletionPoints(stack[0]) + 5 * Completion(stack[1..])
  }

  /** The score of a line: a corrupted line scores its first illegal
      closer; a line that closes every bracket is reported as corrupted
      with 0; otherwise it is incomplete. */
  function LineScoreOf(s: string): (r: LineScore)
    ensures r.Corrupted? ==> r.score in {0, 3, 57, 1197, 25137}
    ensures r.Incomplete? ==> r.score > 0
  {
    match ScanLine(s, [])
    case Illegal(c) => Corrupted(IllegalPoints(c))
    case Pending(stack) =>
      if stack == [] then Corrupted(0) else Incomplete(Completion(stack))
  }

  // ---------------------------------------------------------------------
  // Properties of the scan

  /** Reading a line in two pieces is reading it at once. */
  lemma {:induction false} ScanAppend(s: string, t: string, stack: seq<char>)
    requires AllClosers(stack)
    ensures ScanLine(s + t, stack) ==
      match ScanLine(s, stack)
      case Illegal(c) => Illegal(c)
      case Pending(st) => ScanLine(t, st)
  {
    if s != [] {
      assert (s + t)[0] == s[0] && (s + t)[1..] == s[1..] + t;
      var c := s[0];
      if IsOpener(c) {
        ScanAppend(s[1..], t, stack + [CloserOf(c)]);
      } else if IsCloser(c) {
        if stack != [] && stack[|stack| - 1] == c {
          ScanAppend(s[1..], t, stack[..|stack| - 1]);
        }
      } else {
        ScanAppend(s[1..], t, stack);
      }
    } else {
      assert s + t == t;
    }
  }

  /** The closers owed, in the order they must be typed: the top of the
      stack first. */
  function Missing(stack: seq<char>): (t: string)
    ensures |t| == |stack|
    ensures forall i :: 0 <= i < |t| ==> t[i] == stack[|stack| - 1 - i]
  {
    if stack == [] then [] else [stack[|stack| - 1]] + Missing(stack[..|stack| - 1])
  }

  /** Typing the owed closers empties the stack. */
  lemma {:induction false} MissingCloses(stack: seq<char>)
    requires AllClosers(stack)
    ensures ScanLine(Missing(stack), stack) == Pending([])
  {
    if stack != [] {
      var t := Missing(stack);
      assert t[0] == stack[|stack| - 1] && t[1..] == Missing(stack[..|stack| - 1]);
      MissingCloses(stack[..|stack| - 1]);
    }
  }

  /** The puzzle's completion score of a string of closers: start at 0
      and, for each character in order, multiply by 5 and add its
      points. */
  function ScoreClosers(t: string): nat
    requires AllClosers(t)
    decreases |t|
  {
    if t == [] then 0
    else 5 * ScoreClosers(t[..|t| - 1]) + CompletionPoints(t[|t| - 1])
  }

  /** Folding the stack from the top scores the owed closers in typing
      order. */
  lemma {:induction false} CompletionScoresMissing(stack: seq<char>)
    requires AllClosers(stack)
    ensures AllClosers(Missing(stack))
    ensures Completion(stack) == ScoreClosers(Missing(stack))
  {
    if stack != [] {
      var t := Missing(stack);
      var rest := stack[1..];
      CompletionScoresMissing(rest);
      assert t[..|t| - 1] == Missing(rest) by {
        forall i | 0 <= i < |t| - 1 ensures t[..|t| - 1][i] == Missing(rest)[i] {
        }
      }
    }
  }

  /** An incomplete line is completed by its owed closers: the line they
      make closes every bracket, and the line's score is the puzzle's
      score of those closers. */
  lemma CompletingLine(s: string)
    requires LineScoreOf(s).Incomplete?
    ensures var t := Missing(ScanLine(s, []).stack);
      AllClosers(t) && LineScoreOf(s + t) == Corrupted(0) &&
      LineScoreOf(s).score == ScoreClosers(t)
  {
    var stack := ScanLine(s, []).stack;
    ScanAppend(s, Missing(stack), []);
    MissingCloses(stack);
    CompletionScoresMissing(stack);
  }

  // ---------------------------------------------------------------------
  // The imperative reading of a line

  /** `get_line_score`: pushes the owed closer for each opener, pops for
      each closer and stops at the first mismatch, then folds the stack
      that is left from the top. */
  method GetLineScore(s: string) returns (r: LineScore)
    ensures r == LineScoreOf(s)
  {
    var stack: seq<char> := [];
    var i := 0;
    while i < |s|
      invariant 0 <= i <= |s| && AllClosers(stack)
      invariant ScanLine(s, []) == ScanLine(s[i..], stack)
    {
      var c := s[i];
      assert s[i..][0] == c && s[i..][1..] == s[i + 1..];
      if IsOpener(c) {
        stack := stack + [CloserOf(c)];
      } else if IsCloser(c) {
        if stack != [] && stack[|stack| - 1] == c {
          stack := stack[..|stack| - 1];
        } else {
          return Corrupted(IllegalPoints(c));
        }
      }
      i := i + 1;
    }
    assert s[i..] == [];
    if stack == [] {
      return Corrupted(0);
    }
    var score := FoldFromTop(stack);
    r := Incomplete(score);
  }

  /** The fold over the stack read from the top. */
  method FoldFromTop(stack: seq<char>) returns (acc: nat)
    requires AllClosers(stack)
    ensures acc == Completion(stack)
  {
    acc := 0;
    var i := |stack|;
    while i > 0
      invariant 0 <= i <= |stack|
      invariant acc == Completion(stack[i..])
    {
      i := i - 1;
      assert stack[i..][1..] == stack[i + 1..];
      acc := acc * 5 + CompletionPoints(stack[i]);
    }
  }

  // ---------------------------------------------------------------------
  // The two answers

  /** The sum of the scores of the corrupted lines. */
  function SumCorrupted(lines: seq<string>): nat {
    if lines == [] then 0
    else
      var r := LineScoreOf(lines[|lines| - 1]);
      SumCorrupted(lines[..|lines| - 1]) + if r.Corrupted? then r.score else 0
  }

  /** `part1`. */
  method Part1(lines: seq<string>) returns (total: nat)
    ensures total == SumCorrupted(lines)
  {
    total := 0;
    var i := 0;
    while i < |lines|
      invariant 0 <= i <= |lines|
      invariant total == SumCorrupted(lines[..i])
    {
      var r := GetLineScore(lines[i]);
      assert lines[..i + 1][..i] == lines[..i];
      total := total + if r.Corrupted? then r.score else 0;
      i := i + 1;
    }
    assert lines[..i] == lines;
  }

  /** The scores of the incomplete lines, in line order. */
  function IncompleteScores(lines: seq<string>): (v: seq<nat>)
    ensures |v| <= |lines|
  {
    if lines == [] then []
    else
      var r := LineScoreOf(lines[|lines| - 1]);
      IncompleteScores(lines[..|lines| - 1]) + if r.Incomplete? then [r.score] else []
  }

  /** Each score is at most the next one. */
  predicate Sorted(s: seq<nat>) {
    forall i :: 0 < i < |s| ==> s[i - 1] <= s[i]
  }

  /** In a sorted sequence every element before position `k` is at most
      the one there, and every element after it at least. */
  lemma {:induction false} SortedAround(t: seq<nat>, k: nat)
    requires Sorted(t) && k < |t|
    ensures forall i :: 0 <= i < k ==> t[i] <= t[k]
    ensures forall i :: k < i < |t| ==> t[k] <= t[i]
    decreases |t|
  {
    if k > 0 {
      SortedAround(t[1..], k - 1);
      assert t[0] <= t[1];
    }
    if k < |t| - 1 {
      SortedAround(t[..|t| - 1], k);
      assert t[|t| - 2] <= t[|t| - 1];
    }
  }

  /** Puts `x` into a sorted sequence before the first greater element. */
  function Insert(x: nat, s: seq<nat>): (r: seq<nat>)
    requires Sorted(s)
    ensures Sorted(r) && multiset(r) == multiset(s) + multiset{x}
    ensures r[0] == if s == [] || x <= s[0] then x else s[0]
  {
    if s == [] then [x]
    else if x <= s[0] then [x] + s
    else
      var rest := Insert(x, s[1..]);
      assert multiset(s) == multiset{s[0]} + multiset(s[1..]) by {
        assert s == [s[0]] + s[1..];
      }
      [s[0]] + rest
  }

  /** The sorted order of the scores, as `sort_unstable` leaves them. */
  function Sort(s: seq<nat>): (r: seq<nat>)
    ensures Sorted(r) && multiset(r) == multiset(s)
  {
    if s == [] then []
    else
      assert s == s[..|s| - 1] + [s[|s| - 1]];
      Insert(s[|s| - 1], Sort(s[..|s| - 1]))
  }

  /** `part2`: the middle score of the incomplete lines, which the puzzle
      guarantees to be odd in number; with no incomplete line the source's
      indexing panics, here `None`. */
  method Part2(lines: seq<string>) returns (middle: Option<nat>)
    ensures middle.None? <==> IncompleteScores(lines) == []
    ensures var v := Sort(IncompleteScores(lines));
      middle.Some? ==> |v| == |IncompleteScores(lines)| && middle.value == v[|v| / 2]
    ensures middle.Some? ==> middle.value in IncompleteScores(lines)
    ensures var v := Sort(IncompleteScores(lines));
      middle.Some? ==>
      (forall i :: 0 <= i < |v| / 2 ==> v[i] <= middle.value) &&
      (forall i :: |v| / 2 < i < |v| ==> middle.value <= v[i])
  {
    var v: seq<nat> := [];
    var i := 0;
    while i < |lines|
      invariant 0 <= i <= |lines|
      invariant v == IncompleteScores(lines[..i])
    {
      var r := GetLineScore(lines[i]);
      assert lines[..i + 1][..i] == lines[..i];
      if r.Incomplete? {
        v := v + [r.score];
      }
      i := i + 1;
    }
    assert lines[..i] == lines;
    var sorted := Sort(v);
    assert |sorted| == |v| by {
      assert |multiset(sorted)| == |multiset(v)|;
    }
    if sorted == [] {
      return None;
    }
    var k := |sorted| / 2;
    middle := Some(sorted[k]);
    assert sorted[k] in v by {
      assert sorted[k] in multiset(sorted);
    }
    SortedAround(sorted, k);
  }
}
