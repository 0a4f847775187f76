// Chocolate Charts: two elves extend a scoreboard of recipe scores. Each
// step appends the digits of the sum of their current recipes' scores,
// then each elf moves forward one plus its recipe's score, wrapping around.

module ChocolateCharts {
  import opened Wrappers

  /** The scoreboard and the two elves' current recipes. */
  datatype Board = Board(scores: seq<nat>, elf1: nat, elf2: nat)

  predicate AllDigits(s: seq<nat>) {
    forall i :: 0 <= i < |s| ==> s[i] < 10
  }

  predicate ValidBoard(b: Board) {
    |b.scores| >= 2 && b.elf1 < |b.scores| && b.elf2 < |b.scores| && AllDigits(b.scores)
  }

  const Initial := Board([3, 7], 0, 1)

  function Sum(b: Board): (s: nat)
    requires ValidBoard(b)
    ensures s <= 18
  {
    b.scores[b.elf1] + b.scores[b.elf2]
  }

  /** The value of one or two decimal digits. */
  function Value(d: seq<nat>): nat
    requires 1 <= |d| <= 2
  {
    if |d| == 1 then d[0] else d[0] * 10 + d[1]
  }

  /** The new recipes a sum creates: its decimal digits, tens first. */
  function Digits(sum: nat): (d: seq<nat>)
    requires sum <= 18
    ensures 1 <= |d| <= 2 && AllDigits(d) && Value(d) == sum
    ensures |d| == 2 <==> sum >= 10
    ensures |d| == 2 ==> d[0] != 0
  {
    if sum >= 10 then [sum / 10, sum % 10] else [sum % 10]
  }

  /** `Recipes::next`, on values: every score stays a digit and each elf
      stays on the scoreboard. */
  function Step(b: Board): (r: Board)
    requires ValidBoard(b)
    ensures ValidBoard(r)
    ensures r.scores == b.scores + Digits(Sum(b))
  {
    var s := b.scores + Digits(Sum(b));
    Board(s, (b.elf1 + s[b.elf1] + 1) % |s|, (b.elf2 + s[b.elf2] + 1) % |s|)
  }

  /** The board after `k` steps. */
  function Run(k: nat): (b: Board)
    ensures ValidBoard(b) && |b.scores| >= k + 2
  {
    if k == 0 then Initial else Step(Run(k - 1))
  }

  lemma StepPrefix(b: Board)
    requires ValidBoard(b)
    ensures Step(b).scores[..|b.scores|] == b.scores
  {
    var s := Step(b).scores;
    assert s == b.scores + Digits(Sum(b));
  }

  lemma PrefixOfPrefix<T>(a: seq<T>, b: seq<T>, c: seq<T>)
    requires |a| <= |b| <= |c| && b[..|a|] == a && c[..|b|] == b
    ensures c[..|a|] == a
  {
    assert c[..|a|] == c[..|b|][..|a|];
  }

  /** The scoreboard only grows at its end. */
  lemma {:induction false} RunPrefix(k: nat, l: nat)
    requires k <= l
    ensures |Run(k).scores| <= |Run(l).scores|
    ensures Run(l).scores[..|Run(k).scores|] == Run(k).scores
    decreases l - k
  {
    if k < l {
      RunPrefix(k + 1, l);
      var a, b, c := Run(k).scores, Run(k + 1).scores, Run(l).scores;
      StepPrefix(Run(k));
      PrefixOfPrefix(a, b, c);
    }
  }

  /** The pattern sits at position `p` of the scoreboard. */
  predicate Occurs(s: seq<nat>, pat: seq<nat>, p: nat) {
    p + |pat| <= |s| && s[p..p + |pat|] == pat
  }

  /** The pattern sits at `p` and at no earlier position. */
  predicate FirstIn(s: seq<nat>, pat: seq<nat>, p: nat) {
    Occurs(s, pat, p) && forall q :: 0 <= q < p ==> !Occurs(s, pat, q)
  }

  /** The pattern sits at `p` of the board after `k` steps. */
  predicate OccursAfter(k: nat, pat: seq<nat>, p: nat) {
    Occurs(Run(k).scores, pat, p)
  }

  /** The pattern first sits at `p` of the board after `k` steps. */
  predicate FirstAfter(k: nat, pat: seq<nat>, p: nat) {
    FirstIn(Run(k).scores, pat, p)
  }

  /** Whether a window occurs does not change as the board grows. */
  lemma OccursPrefix(s: seq<nat>, t: seq<nat>, pat: seq<nat>, q: nat)
    requires |s| <= |t| && t[..|s|] == s && q + |pat| <= |s|
    ensures Occurs(s, pat, q) == Occurs(t, pat, q)
  {
    assert s[q..q + |pat|] == t[..|s|][q..q + |pat|];
  }

  lemma RunOccurs(k: nat, l: nat, pat: seq<nat>, q: nat)
    requires k <= l && q + |pat| <= |Run(k).scores|
    ensures OccursAfter(k, pat, q) == OccursAfter(l, pat, q)
  {
    RunPrefix(k, l);
    OccursPrefix(Run(k).scores, Run(l).scores, pat, q);
  }

  class Recipes {
    var scores: seq<nat>
    var elf1: nat
    var elf2: nat

    function State(): Board
      reads this
    {
      Board(scores, elf1, elf2)
    }

    /** The starting board: scores 3 and 7, one elf on each. */
    constructor ()
      ensures State() == Initial
    {
      scores := [3, 7];
      elf1 := 0;
      elf2 := 1;
    }

    /** `next`: appends the digits of the sum, moves both elves, and tells
        whether two recipes were added. */
    method Next() returns (doubleAdd: bool)
      requires ValidBoard(State())
      modifies this
      ensures State() == Step(old(State()))
      ensures doubleAdd <==> |scores| == |old(scores)| + 2
    {
      var sum := scores[elf1] + scores[elf2];
      if sum >= 10 {
        scores := scores + [sum / 10];
      }
      scores := scores + [sum % 10];
      elf1 := (elf1 + scores[elf1] + 1) % |scores|;
      elf2 := (elf2 + scores[elf2] + 1) % |scores|;
      doubleAdd := sum >= 10;
    }
  }

  function DigitChar(d: nat): (c: char)
    requires d < 10
    ensures '0' <= c <= '9' && c as int - '0' as int == d
  {
    ('0' as int + d) as char
  }

  function ToChars(s: seq<nat>): (r: string)
    requires AllDigits(s)
    ensures |r| == |s| && forall i :: 0 <= i < |s| ==> r[i] == DigitChar(s[i])
  {
    if s == [] then "" else [DigitChar(s[0])] + ToChars(s[1..])
  }

  /** Any board long enough gives the same ten scores after the first `n`,
      so `part1`'s answer does not depend on when the loop stops. */
  lemma WindowStable(n: nat, k: nat, l: nat)
    requires |Run(k).scores| >= n + 10 && |Run(l).scores| >= n + 10
    ensures Run(k).scores[n..n + 10] == Run(l).scores[n..n + 10]
    ensures TenFrom(Run(k).scores, n) == TenFrom(Run(l).scores, n)
  {
    if k <= l {
      RunPrefix(k, l);
      assert Run(l).scores[n..n + 10] == Run(l).scores[..|Run(k).scores|][n..n + 10];
    } else {
      RunPrefix(l, k);
      assert Run(k).scores[n..n + 10] == Run(k).scores[..|Run(l).scores|][n..n + 10];
    }
  }

  /** The ten scores after the first `n`, written as decimal digits. */
  function TenFrom(s: seq<nat>, n: nat): (r: string)
    requires |s| >= n + 10 && AllDigits(s)
    ensures |r| == 10 && forall i :: 0 <= i < 10 ==> '0' <= r[i] <= '9'
  {
    ToChars(s[n..n + 10])
  }

  /** The board after `k` steps has `n + 10` scores, and `r` spells the ten
      after the first `n`. */
  predicate TenAfter(k: nat, n: nat, r: string) {
    |Run(k).scores| >= n + 10 && r == TenFrom(Run(k).scores, n)
  }

  /** `part1`: steps until there are `n + 10` scores, then the ten after
      the first `n`, as digits. */
  method Part1(n: nat) returns (r: string)
    ensures |r| == 10
    ensures exists k :: TenAfter(k, n, r)
  {
    var recipes := new Recipes();
    ghost var k := 0;
    while |recipes.scores| < n + 10
      invariant recipes.State() == Run(k)
      decreases n + 10 - |recipes.scores|
    {
      var _ := recipes.Next();
      k := k + 1;
    }
    r := TenFrom(recipes.scores, n);
    assert TenAfter(k, n, r);
  }

  /** The checks `part2` makes after each step, as written: the window
      ending at the last score when `len > seq_len`, then, after a double
      add, the window ending one before when `len > seq_len + 1`. Neither
      can report position 0. */
  function CheckAsWritten(s: seq<nat>, pat: seq<nat>, doubleAdd: bool): (r: Option<nat>)
    ensures r.Some? ==> r.value > 0 && Occurs(s, pat, r.value)
    ensures r.None? && |s| > |pat| ==> !Occurs(s, pat, |s| - |pat|)
  {
    var len := |s|;
    var seqLen := |pat|;
    if len > seqLen && s[len - seqLen..len] == pat then Some(len - seqLen)
    else if doubleAdd && len > seqLen + 1 && s[len - 1 - seqLen..len - 1] == pat then Some(len - 1 - seqLen)
    else None
  }

  /** `part2` as written, with at most `fuel` steps where the source loops
      on. The starting board is never checked, and position 0 is never
      reported. */
  method Part2AsWritten(pat: seq<nat>, fuel: nat) returns (r: Option<nat>)
    ensures r.Some? ==> r.value > 0 && exists k :: OccursAfter(k, pat, r.value)
  {
    var recipes := new Recipes();
    ghost var k := 0;
    var steps := 0;
    r := None;
    while steps < fuel
      invariant recipes.State() == Run(k)
      invariant r.Some? ==> r.value > 0 && OccursAfter(k, pat, r.value)
      decreases fuel - steps, if r.None? then 1 else 0
    {
      var doubleAdd := recipes.Next();
      k := k + 1;
      steps := steps + 1;
      r := CheckAsWritten(recipes.scores, pat, doubleAdd);
      if r.Some? {
        break;
      }
    }
    if r.Some? {
      assert OccursAfter(k, pat, r.value);
    }
  }

  /** The pattern 3, 7, 1 is on the board after the first step, at
      position 0, where the as-written search cannot report it. */
  lemma ThreeSevenOneAtZero()
    ensures FirstAfter(1, [3, 7, 1], 0)
  {
    assert Run(1).scores == [3, 7, 1, 0];
  }

  /** Checks the windows starting at `from` and later that fit the board,
      in order, and reports the first that holds the pattern. */
  method ScanWindows(s: seq<nat>, pat: seq<nat>, from: nat) returns (found: Option<nat>, next: nat)
    ensures found.Some? ==> from <= found.value && Occurs(s, pat, found.value)
    ensures found.Some? ==> forall q :: from <= q < found.value ==> !Occurs(s, pat, q)
    ensures found.None? ==> from <= next && next + |pat| > |s|
    ensures found.None? ==> next == from || next - 1 + |pat| <= |s|
    ensures found.None? ==> forall q :: from <= q < next ==> !Occurs(s, pat, q)
  {
    next := from;
    found := None;
    while next + |pat| <= |s|
      invariant from <= next
      invariant next == from || next - 1 + |pat| <= |s|
      invariant forall q :: from <= q < next ==> !Occurs(s, pat, q)
      decreases |s| - next
    {
      if s[next..next + |pat|] == pat {
        found := Some(next);
        return;
      }
      next := next + 1;
    }
  }

  /** Every window starting before `c` fits the board after `k` steps and
      does not hold the pattern. */
  predicate NoneBefore(k: nat, pat: seq<nat>, c: nat) {
    (c == 0 || c - 1 + |pat| <= |Run(k).scores|)
    && forall q :: 0 <= q < c ==> !OccursAfter(k, pat, q)
  }

  lemma NoneBeforeGrows(k: nat, l: nat, pat: seq<nat>, c: nat)
    requires k <= l && NoneBefore(k, pat, c)
    ensures NoneBefore(l, pat, c)
  {
    RunPrefix(k, l);
    forall q | 0 <= q < c ensures !OccursAfter(l, pat, q) {
      RunOccurs(k, l, pat, q);
    }
  }

  /** A match found by scanning from `c`, with no match before `c`, is the
      first. */
  lemma FirstFound(k: nat, pat: seq<nat>, c: nat, p: nat)
    requires NoneBefore(k, pat, c) && c <= p && Occurs(Run(k).scores, pat, p)
    requires forall q :: c <= q < p ==> !Occurs(Run(k).scores, pat, q)
    ensures FirstAfter(k, pat, p)
  {
    forall q | 0 <= q < p ensures !Occurs(Run(k).scores, pat, q) {
      if q < c {
        assert !OccursAfter(k, pat, q);
      }
    }
  }

  lemma NoneExtend(k: nat, pat: seq<nat>, c: nat, n: nat)
    requires NoneBefore(k, pat, c) && c <= n
    requires n == c || n - 1 + |pat| <= |Run(k).scores|
    requires forall q :: c <= q < n ==> !Occurs(Run(k).scores, pat, q)
    ensures NoneBefore(k, pat, n)
  {
    forall q | 0 <= q < n ensures !OccursAfter(k, pat, q) {
      if q >= c {
        assert !Occurs(Run(k).scores, pat, q);
      }
    }
  }

  /** One round of the intended search: a step, then a scan of the windows
      the step completed. */
  method Advance(recipes: Recipes, pat: seq<nat>, k: nat, checked: nat) returns (r: Option<nat>, next: nat)
    requires recipes.State() == Run(k)
    requires checked + |pat| > |Run(k).scores| && NoneBefore(k, pat, checked)
    modifies recipes
    ensures recipes.State() == Run(k + 1)
    ensures r.Some? ==> FirstAfter(k + 1, pat, r.value)
    ensures r.None? ==> next + |pat| > |Run(k + 1).scores| && NoneBefore(k + 1, pat, next)
  {
    var _ := recipes.Next();
    NoneBeforeGrows(k, k + 1, pat, checked);
    var s := recipes.scores;
    assert s == Run(k + 1).scores;
    r, next := ScanWindows(s, pat, checked);
    if r.Some? {
      FirstFound(k + 1, pat, checked, r.value);
    } else {
      NoneExtend(k + 1, pat, checked, next);
    }
  }

  /** `part2` as intended, with at most `fuel` steps: every window is
      checked as soon as it is complete, the starting board included, so
      the first occurrence is the one reported. */
  method Part2(pat: seq<nat>, fuel: nat) returns (r: Option<nat>)
    ensures r.Some? ==> exists k :: FirstAfter(k, pat, r.value)
    ensures r.None? ==> forall q :: !OccursAfter(fuel, pat, q)
  {
    var recipes := new Recipes();
    var k := 0;
    var checked: nat;
    r, checked := ScanWindows(recipes.scores, pat, 0);
    if r.Some? {
      FirstFound(0, pat, 0, r.value);
    }
    while r.None? && k < fuel
      invariant recipes.State() == Run(k) && k <= fuel
      invariant r.Some? ==> FirstAfter(k, pat, r.value)
      invariant r.None? ==> checked + |pat| > |Run(k).scores| && NoneBefore(k, pat, checked)
      decreases fuel - k
    {
      r, checked := Advance(recipes, pat, k, checked);
      k := k + 1;
    }
    if r.Some? {
      assert FirstAfter(k, pat, r.value);
    }
  }

  /** The first occurrence of a pattern does not depend on the board it is
      read from. */
  lemma FirstUnique(k: nat, l: nat, pat: seq<nat>, p: nat, p2: nat)
    requires FirstAfter(k, pat, p) && FirstAfter(l, pat, p2)
    ensures p == p2
  {
    var lo, hi := if k <= l then k else l, if k <= l then l else k;
    if p < p2 {
      assert OccursAfter(k, pat, p) && !OccursAfter(l, pat, p);
      RunOccurs(lo, hi, pat, p);
    } else if p2 < p {
      assert OccursAfter(l, pat, p2) && !OccursAfter(k, pat, p2);
      RunOccurs(lo, hi, pat, p2);
    }
  }
}
