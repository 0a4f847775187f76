// Rambunctious Recitation: after the starting numbers, each turn says 0 if
// the previous number was new and otherwise how many turns apart its last
// two occurrences were. Turns are counted from 0 here, as the source's
// indexes are.

module RambunctiousRecitation {
  import opened Wrappers

  const UsizeMax: nat := 0xFFFF_FFFF_FFFF_FFFF

  /** The last turn before `k` at which `x` was said. */
  function LastSeen(h: seq<nat>, x: nat, k: nat): (r: Option<nat>)
    requires k <= |h|
    ensures r.Some? ==> r.value < k && h[r.value] == x
    ensures r.Some? ==> forall j :: r.value < j < k ==> h[j] != x
    ensures r.None? ==> forall j :: 0 <= j < k ==> h[j] != x
  {
    if k == 0 then None
    else if h[k - 1] == x then Some(k - 1)
    else LastSeen(h, x, k - 1)
  }

  /** Looking back from `k` only sees the first `k` turns. */
  lemma {:induction false} LastSeenPrefix(h: seq<nat>, t: seq<nat>, x: nat, k: nat)
    requires k <= |h|
    ensures LastSeen(h + t, x, k) == LastSeen(h, x, k)
  {
    if k > 0 {
      assert (h + t)[k - 1] == h[k - 1];
      LastSeenPrefix(h, t, x, k - 1);
    }
  }

  /** What is said after turn `i`: 0 for a new number, else the distance
      back to its previous occurrence. */
  function Gap(h: seq<nat>, i: nat): (g: nat)
    requires i < |h|
    ensures g <= i
    ensures g == 0 <==> forall j :: 0 <= j < i ==> h[j] != h[i]
  {
    match LastSeen(h, h[i], i)
    case None => 0
    case Some(j) => i - j
  }

  /** The game by the puzzle's rule: the starting numbers followed by `k`
      generated turns. */
  function Spoken(start: seq<nat>, k: nat): (h: seq<nat>)
    requires start != []
    ensures |h| == |start| + k && h[..|start|] == start
  {
    if k == 0 then start
    else
      var prev := Spoken(start, k - 1);
      prev + [Gap(prev, |prev| - 1)]
  }

  /** The game as both `calculate_with_*` play it: the table is filled with
      every starting number, the last one included, so the first generated
      number is always 0; after that the puzzle's rule applies. */
  function Played(start: seq<nat>, k: nat): (h: seq<nat>)
    requires start != []
    ensures |h| == |start| + k && h[..|start|] == start
  {
    if k == 0 then start
    else
      var prev := Played(start, k - 1);
      prev + [if k == 1 then 0 else Gap(prev, |prev| - 1)]
  }

  predicate Distinct(s: seq<nat>) {
    forall i, j :: 0 <= i < j < |s| ==> s[i] != s[j]
  }

  /** With distinct starting numbers the last one is new, so filling the
      table with it changes nothing: the played game is the puzzle's game. */
  lemma {:induction false} PlayedIsSpoken(start: seq<nat>, k: nat)
    requires start != [] && Distinct(start)
    ensures Played(start, k) == Spoken(start, k)
  {
    if k > 0 {
      PlayedIsSpoken(start, k - 1);
      if k == 1 {
        assert Gap(start, |start| - 1) == 0;
      }
    }
  }

  /** The number said at turn `n - 1`, the `n`th number; with `n` at most
      the number of starting numbers the loop does not run and the last
      starting number is the answer. */
  function Answer(start: seq<nat>, n: nat): nat
    requires start != []
  {
    if n <= |start| then start[|start| - 1] else Played(start, n - |start|)[n - 1]
  }

  /** The answer is the `n`th number of the puzzle's game once `n` reaches
      past the distinct starting numbers. */
  lemma AnswerIsSpoken(start: seq<nat>, n: nat)
    requires start != [] && Distinct(start) && n >= |start|
    ensures Answer(start, n) == Spoken(start, n - |start|)[n - 1]
  {
    PlayedIsSpoken(start, n - |start|);
  }

  /** The next number after turn `i`, as the source computes it from the
      table's entry `seen`: a missing entry or one after `i` gives 0. */
  function SaturatingSub(i: nat, seen: nat): (r: nat)
    ensures r <= i
  {
    if i >= seen then i - seen else 0
  }

  /** The table agrees with the history: every number's entry is its last
      turn before `b`. */
  ghost predicate TableMatches(m: map<nat, nat>, h: seq<nat>, b: nat)
    requires b <= |h|
  {
    forall x :: LastSeen(h, x, b) == (if x in m then Some(m[x]) else None)
  }

  /** One turn of the loop on the table: recording turn `i` leaves every
      number's entry at its last turn before `i + 1`. */
  lemma TableStep(h: seq<nat>, i: nat, m: map<nat, nat>, b: nat, y: nat)
    requires |h| == i + 1 && (b == i || b == i + 1) && TableMatches(m, h, b)
    ensures TableMatches(m[h[i] := i], h + [y], i + 1)
  {
    var h2, k, m2 := h + [y], i + 1, m[h[i] := i];
    forall x
      ensures LastSeen(h2, x, k) == (if x in m2 then Some(m2[x]) else None)
    {
      assert (h + [y])[i] == h[i];
      LastSeenPrefix(h, [y], x, i);
      if x != h[i] {
        assert LastSeen(h, x, i + 1) == LastSeen(h, x, i);
      }
    }
  }

  /** The looked-up position gives the played number: 0 on the first
      generated turn, the gap afterwards. */
  lemma KeyStep(start: seq<nat>, i: nat, m: map<nat, nat>, b: nat)
    requires start != [] && |start| - 1 <= i < UsizeMax
    requires var h := Played(start, i - (|start| - 1));
      b == (if i == |start| - 1 then i + 1 else i) && TableMatches(m, h, b)
    ensures var h := Played(start, i - (|start| - 1));
      Played(start, i + 1 - (|start| - 1))
        == h + [SaturatingSub(i, if h[i] in m then m[h[i]] else UsizeMax)]
  {
    var h := Played(start, i - (|start| - 1));
    var found := LastSeen(h, h[i], b);
    assert found == (if h[i] in m then Some(m[h[i]]) else None);
  }

  /** Filling the table with one more starting number. */
  lemma FillStep(h: seq<nat>, i: nat, m: map<nat, nat>)
    requires i < |h| && TableMatches(m, h, i)
    ensures TableMatches(m[h[i] := i], h, i + 1)
  {
    var k, m2 := i + 1, m[h[i] := i];
    forall x ensures LastSeen(h, x, k) == (if x in m2 then Some(m2[x]) else None) {
    }
  }

  /** The first loop of `calculate_with_map`: each starting number is
      entered with its turn, later turns overwriting earlier ones. */
  method FillMap(vec: seq<nat>) returns (m: map<nat, nat>)
    ensures TableMatches(m, vec, |vec|)
  {
    m := map[];
    for i := 0 to |vec|
      invariant TableMatches(m, vec, i)
    {
      FillStep(vec, i, m);
      m := m[vec[i] := i];
    }
  }

  /** The state `calculate_with_map` keeps at the top of turn `i`: the
      history so far, its last number as the key, and the table. */
  ghost predicate MapState(vec: seq<nat>, i: nat, m: map<nat, nat>, key: nat, h: seq<nat>) {
    vec != [] && |vec| - 1 <= i && |h| == i + 1 && h == Played(vec, i - (|vec| - 1)) && key == h[i]
    && TableMatches(m, h, if i == |vec| - 1 then i + 1 else i)
  }

  /** The body of the second loop of `calculate_with_map`: record turn `i`
      for the key and move on to the number it gives. */
  method MapTurn(ghost vec: seq<nat>, i: nat, m: map<nat, nat>, key: nat, ghost h: seq<nat>)
    returns (m2: map<nat, nat>, next: nat, ghost h2: seq<nat>)
    requires i < UsizeMax && MapState(vec, i, m, key, h)
    ensures MapState(vec, i + 1, m2, next, h2)
  {
    ghost var b := if i == |vec| - 1 then i + 1 else i;
    var oldPosition := UsizeMax;
    if key in m {
      oldPosition := m[key];
    }
    next := SaturatingSub(i, oldPosition);
    KeyStep(vec, i, m, b);
    TableStep(h, i, m, b, next);
    m2 := m[key := i];
    h2 := h + [next];
  }

  /** `calculate_with_map`: the table is a map from number to last turn. */
  method CalculateWithMap(vec: seq<nat>, n: nat) returns (key: nat)
    requires vec != [] && 1 <= n <= UsizeMax
    ensures key == Answer(vec, n)
  {
    var m: map<nat, nat> := FillMap(vec);
    key := vec[|vec| - 1];
    ghost var h := vec;
    var first := |vec| - 1;
    var i := first;
    while i < n - 1
      invariant first <= i && (i == first || i <= n - 1)
      invariant MapState(vec, i, m, key, h)
    {
      m, key, h := MapTurn(vec, i, m, key, h);
      i := i + 1;
    }
    assert n <= |vec| ==> i == first && h == vec;
    assert n > |vec| ==> i == n - 1 && i - first == n - |vec|;
  }

  /** The table a `big_vec` stands for: every slot not holding the
      `usize::MAX` sentinel maps its index to its content. */
  ghost function TableOf(s: seq<nat>): (m: map<nat, nat>)
    ensures forall x :: x in m <==> 0 <= x < |s| && s[x] != UsizeMax
    ensures forall x :: x in m ==> m[x] == s[x]
  {
    map x: nat | x < |s| && s[x] != UsizeMax :: s[x]
  }

  lemma TableOfUpdate(s: seq<nat>, k: nat, v: nat)
    requires k < |s| && v != UsizeMax
    ensures TableOf(s[k := v]) == TableOf(s)[k := v]
  {
  }

  /** The state `calculate_with_vec` keeps at the top of turn `i`: the map
      version's state, with every number said so far below `n`. */
  ghost predicate VecState(vec: seq<nat>, n: nat, i: nat, s: seq<nat>, key: nat, h: seq<nat>) {
    |s| == n && MapState(vec, i, TableOf(s), key, h) && forall j :: 0 <= j < |h| ==> h[j] < n
  }

  lemma FillVecStep(s: seq<nat>, vec: seq<nat>, i: nat)
    requires i < |vec| && vec[i] < |s| && i != UsizeMax
    requires TableMatches(TableOf(s), vec, i)
    ensures TableMatches(TableOf(s[vec[i] := i]), vec, i + 1)
  {
    FillStep(vec, i, TableOf(s));
    TableOfUpdate(s, vec[i], i);
  }

  /** The first loop of `calculate_with_vec`: every slot starts at
      `usize::MAX`, then each starting number's slot gets its turn. */
  method FillVec(vec: seq<nat>, n: nat) returns (bigVec: array<nat>)
    requires forall j :: 0 <= j < |vec| ==> vec[j] < n
    requires |vec| < UsizeMax
    ensures fresh(bigVec) && bigVec.Length == n
    ensures TableMatches(TableOf(bigVec[..]), vec, |vec|)
  {
    bigVec := new nat[n](_ => UsizeMax);
    assert TableOf(bigVec[..]) == map[];
    for i := 0 to |vec|
      invariant TableMatches(TableOf(bigVec[..]), vec, i)
    {
      FillVecStep(bigVec[..], vec, i);
      bigVec[vec[i]] := i;
    }
  }

  /** The body of the second loop of `calculate_with_vec`: the swap puts
      turn `i` in the key's slot and hands back the slot's old content. */
  method VecTurn(ghost vec: seq<nat>, n: nat, bigVec: array<nat>, i: nat, key: nat, ghost h: seq<nat>)
    returns (next: nat, ghost h2: seq<nat>)
    requires i < n - 1 && n <= UsizeMax && VecState(vec, n, i, bigVec[..], key, h)
    modifies bigVec
    ensures VecState(vec, n, i + 1, bigVec[..], next, h2)
  {
    ghost var m := TableOf(bigVec[..]);
    ghost var b := if i == |vec| - 1 then i + 1 else i;
    var loc := i;
    loc, bigVec[key] := bigVec[key], loc;
    next := SaturatingSub(i, loc);
    assert (if key in m then m[key] else UsizeMax) == loc;
    KeyStep(vec, i, m, b);
    TableStep(h, i, m, b, next);
    TableOfUpdate(old(bigVec[..]), key, i);
    h2 := h + [next];
  }

  /** `calculate_with_vec`: the table is an array indexed by number, which
      every starting number must fit. */
  method CalculateWithVec(vec: seq<nat>, n: nat) returns (key: nat)
    requires vec != [] && 1 <= n <= UsizeMax && |vec| < UsizeMax
    requires forall j :: 0 <= j < |vec| ==> vec[j] < n
    ensures key == Answer(vec, n)
  {
    var bigVec := FillVec(vec, n);
    key := vec[|vec| - 1];
    ghost var h := vec;
    var first := |vec| - 1;
    var i := first;
    while i < n - 1
      invariant first <= i && (i == first || i <= n - 1)
      invariant VecState(vec, n, i, bigVec[..], key, h)
    {
      key, h := VecTurn(vec, n, bigVec, i, key, h);
      i := i + 1;
    }
    assert n <= |vec| ==> i == first && h == vec;
    assert n > |vec| ==> i == n - 1 && i - first == n - |vec|;
  }

  /** `part1` and `part2`: the 2020th number from the map and the
      30000000th from the array; both are the puzzle's numbers when the
      starting numbers are distinct and fit the array. */
  method Part1(vec: seq<nat>) returns (r: nat)
    requires vec != []
    ensures r == Answer(vec, 2020)
    ensures Distinct(vec) && |vec| <= 2020 ==> r == Spoken(vec, 2020 - |vec|)[2019]
  {
    r := CalculateWithMap(vec, 2020);
    if Distinct(vec) && |vec| <= 2020 {
      AnswerIsSpoken(vec, 2020);
    }
  }

  method Part2(vec: seq<nat>) returns (r: nat)
    requires vec != [] && |vec| < UsizeMax
    requires forall j :: 0 <= j < |vec| ==> vec[j] < 30000000
    ensures r == Answer(vec, 30000000)
    ensures Distinct(vec) && |vec| <= 30000000 ==> r == Spoken(vec, 30000000 - |vec|)[29999999]
  {
    r := CalculateWithVec(vec, 30000000);
    if Distinct(vec) && |vec| <= 30000000 {
      AnswerIsSpoken(vec, 30000000);
    }
  }
}
