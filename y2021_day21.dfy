// Dirac Dice: two pawns move round a circular track of ten spaces numbered
// 1 to 10, each player adding the space they land on to their score. The
// practice game uses a deterministic die that cycles through 1..100 and is
// won at 1000 points; the quantum game splits the universe on every roll of
// a three-sided die and is won at 21.

module DiracDice {
  import opened Modular

  const PracticeWinScore: nat := 1000
  const QuantumWinScore: nat := 21

  /** Moving `sum` spaces forward from `pos`: lands on a space 1..10 that
      is `pos + sum` around the ten-space track. */
  function Move(pos: nat, sum: nat): (r: nat)
    requires pos + sum >= 1
    ensures 1 <= r <= 10 && (pos + sum - r) % 10 == 0
  {
    (sum + pos - 1) % 10 + 1
  }

  datatype Player = Player(pos: nat, score: nat)

  // ---------------------------------------------------------------------
  // The practice game

  /** The `n`-th value (from 0) of the die cycling through 1..100. */
  function Roll(n: nat): (r: nat)
    ensures 1 <= r <= 100
  {
    n % 100 + 1
  }

  /** The three values taken from the die after `rolled` rolls. */
  function RollSum(rolled: nat): (r: nat)
    ensures 3 <= r <= 300
  {
    Roll(rolled) + Roll(rolled + 1) + Roll(rolled + 2)
  }

  /** How the practice game ends: the two final scores and how many times
      the die was rolled. */
  datatype Ending = Ending(loserScore: nat, winnerScore: nat, rolls: nat)

  /** The practice game from the turn of `cur`, `rolled` rolls into it. */
  function PracticeFrom(cur: Player, other: Player, rolled: nat): (e: Ending)
    requires cur.score < PracticeWinScore && other.score < PracticeWinScore
    decreases 2 * PracticeWinScore - cur.score - other.score
  {
    var pos := Move(cur.pos, RollSum(rolled));
    var moved := Player(pos, cur.score + pos);
    if moved.score >= PracticeWinScore then Ending(other.score, moved.score, rolled + 3)
    else PracticeFrom(other, moved, rolled + 3)
  }

  /** The practice game stops as soon as a player reaches 1000, the other
      player still being below it, after at least one turn. */
  lemma {:induction false} PracticeEnds(cur: Player, other: Player, rolled: nat)
    requires cur.score < PracticeWinScore && other.score < PracticeWinScore
    ensures var e := PracticeFrom(cur, other, rolled);
      e.loserScore < PracticeWinScore <= e.winnerScore && e.rolls >= rolled + 3
    decreases 2 * PracticeWinScore - cur.score - other.score
  {
    var pos := Move(cur.pos, RollSum(rolled));
    var moved := Player(pos, cur.score + pos);
    if moved.score < PracticeWinScore {
      assert PracticeFrom(cur, other, rolled) == PracticeFrom(other, moved, rolled + 3);
      PracticeEnds(other, moved, rolled + 3);
    }
  }

  /** The practice answer: the loser's score times the number of rolls. */
  function PracticeAnswer(p1Starting: nat, p2Starting: nat): nat {
    var e := PracticeFrom(Player(p1Starting, 0), Player(p2Starting, 0), 0);
    e.loserScore * e.rolls
  }

  /** `practice_inner_play`: one turn takes three values from the die
      (whose position is `die`), moves the pawn, scores the space it lands
      on and counts three more rolls. With the opponent `other` (a ghost
      parameter), the turn either ends the practice game or hands it over. */
  method PracticeInnerPlay(p: nat, die: nat, score: nat, diceCount: nat, ghost other: Player)
    returns (p': nat, die': nat, score': nat, diceCount': nat)
    requires score < PracticeWinScore && other.score < PracticeWinScore
    ensures 1 <= p' <= 10 && (p + RollSum(die) - p') % 10 == 0
    ensures score' == score + p' && die' == die + 3 && diceCount' == diceCount + 3
    ensures score' >= PracticeWinScore ==>
      PracticeFrom(Player(p, score), other, die) == Ending(other.score, score', die + 3)
    ensures score' < PracticeWinScore ==>
      PracticeFrom(Player(p, score), other, die) == PracticeFrom(other, Player(p', score'), die + 3)
  {
    var sum := (die % 100 + 1) + ((die + 1) % 100 + 1) + ((die + 2) % 100 + 1);
    die' := die + 3;
    p' := (sum + p - 1) % 10 + 1;
    score' := score + p';
    diceCount' := diceCount + 3;
  }

  lemma NonNegative(a: nat, b: nat)
    ensures a * b >= 0
  {
  }

  /** `practice_play`: the players take turns until one reaches 1000; the
      answer is the loser's score times the number of rolls. The die and
      the roll count advance together. */
  method PracticePlay(p1Starting: nat, p2Starting: nat) returns (r: nat)
    ensures r == PracticeAnswer(p1Starting, p2Starting)
  {
    var die := 0;
    var p1, p2 := p1Starting, p2Starting;
    var p1Score, p2Score := 0, 0;
    var diceCount := 0;
    ghost var whole := PracticeFrom(Player(p1, 0), Player(p2, 0), 0);
    while true
      invariant p1Score < PracticeWinScore && p2Score < PracticeWinScore
      invariant die == diceCount
      invariant PracticeFrom(Player(p1, p1Score), Player(p2, p2Score), diceCount) == whole
      decreases 2 * PracticeWinScore - p1Score - p2Score
    {
      p1, die, p1Score, diceCount := PracticeInnerPlay(p1, die, p1Score, diceCount, Player(p2, p2Score));
      if p1Score >= PracticeWinScore {
        NonNegative(p2Score, diceCount);
        return p2Score * diceCount;
      }
      p2, die, p2Score, diceCount := PracticeInnerPlay(p2, die, p2Score, diceCount, Player(p1, p1Score));
      if p2Score >= PracticeWinScore {
        NonNegative(p1Score, diceCount);
        return p1Score * diceCount;
      }
    }
  }

  // ---------------------------------------------------------------------
  // The quantum game: how often each sum of three rolls occurs

  /** The sums `d1 + d2 + d3` for `d3` in `1..=3`. */
  function ThirdRoll(d1: nat, d2: nat): seq<nat> {
    [d1 + d2 + 1, d1 + d2 + 2, d1 + d2 + 3]
  }

  /** The sums for `d2` and `d3` in `1..=3`, `d2` the slower. */
  function SecondRoll(d1: nat): seq<nat> {
    ThirdRoll(d1, 1) + ThirdRoll(d1, 2) + ThirdRoll(d1, 3)
  }

  /** The sums of three rolls of the three-sided die, in the order of the
      cartesian product of `1..=3` with itself three times. */
  function TripleSums(): seq<nat> {
    SecondRoll(1) + SecondRoll(2) + SecondRoll(3)
  }

  /** How often `x` occurs in `s`. */
  function CountOf(s: seq<nat>, x: nat): (c: nat)
    ensures c > 0 <==> x in s
  {
    if s == [] then 0
    else
      assert s == s[..|s| - 1] + [s[|s| - 1]];
      CountOf(s[..|s| - 1], x) + (if s[|s| - 1] == x then 1 else 0)
  }

  lemma {:induction false} CountAppend(a: seq<nat>, b: seq<nat>, x: nat)
    ensures CountOf(a + b, x) == CountOf(a, x) + CountOf(b, x)
  {
    if b == [] {
      assert a + b == a;
    } else {
      var init := b[..|b| - 1];
      assert (a + b)[..|a + b| - 1] == a + init;
      assert (a + b)[|a + b| - 1] == b[|b| - 1];
      CountAppend(a, init, x);
    }
  }

  function Ind(b: bool): nat {
    if b then 1 else 0
  }

  lemma ThirdCount(d1: nat, d2: nat, x: nat)
    ensures CountOf(ThirdRoll(d1, d2), x) == Ind(x == d1 + d2 + 1) + Ind(x == d1 + d2 + 2) + Ind(x == d1 + d2 + 3)
  {
    var s := ThirdRoll(d1, d2);
    var s1, s2 := [d1 + d2 + 1], [d1 + d2 + 1, d1 + d2 + 2];
    assert s1[..0] == [];
    assert CountOf(s1, x) == Ind(x == d1 + d2 + 1);
    assert s2[..1] == s1;
    assert CountOf(s2, x) == Ind(x == d1 + d2 + 1) + Ind(x == d1 + d2 + 2);
    assert s[..2] == s2;
  }

  /** Two rolls after `d1` give `d1 + 2 .. d1 + 6` in 1, 2, 3, 2, 1 ways. */
  lemma SecondCount(d1: nat, x: nat)
    requires d1 >= 1
    ensures CountOf(SecondRoll(d1), x) == Spread(d1 - 1, x)
  {
    CountAppend(ThirdRoll(d1, 1) + ThirdRoll(d1, 2), ThirdRoll(d1, 3), x);
    CountAppend(ThirdRoll(d1, 1), ThirdRoll(d1, 2), x);
    ThirdCount(d1, 1, x);
    ThirdCount(d1, 2, x);
    ThirdCount(d1, 3, x);
  }

  /** The number of universes in which each sum is rolled. */
  function Weights(): map<nat, nat> {
    map[3 := 1, 4 := 3, 5 := 6, 6 := 7, 7 := 6, 8 := 3, 9 := 1]
  }

  function Spread(d1: nat, x: nat): nat {
    Ind(x == d1 + 3) + 2 * Ind(x == d1 + 4) + 3 * Ind(x == d1 + 5) + 2 * Ind(x == d1 + 6) + Ind(x == d1 + 7)
  }

  lemma TripleCount(x: nat)
    ensures CountOf(TripleSums(), x) == Spread(0, x) + Spread(1, x) + Spread(2, x)
  {
    CountAppend(SecondRoll(1) + SecondRoll(2), SecondRoll(3), x);
    CountAppend(SecondRoll(1), SecondRoll(2), x);
    SecondCount(1, x);
    SecondCount(2, x);
    SecondCount(3, x);
  }

  /** The 27 universes of a turn give the sums 3..9 with weights
      1, 3, 6, 7, 6, 3, 1, and no other sum. */
  lemma DiceWeights(x: nat)
    ensures CountOf(TripleSums(), x) == if x in Weights() then Weights()[x] else 0
  {
    TripleCount(x);
    if x < 3 || x > 9 {
    } else if x <= 5 {
      assert x == 3 || x == 4 || x == 5;
    } else {
      assert x == 6 || x == 7 || x == 8 || x == 9;
    }
  }

  /** The fold of `quantum_play`: each sum adds 1 to its entry, created at
      0 when missing. */
  method CountOutcomes(sums: seq<nat>) returns (m: map<nat, nat>)
    ensures forall x :: x in m <==> x in sums
    ensures forall x :: x in m ==> m[x] == CountOf(sums, x)
  {
    m := map[];
    for i := 0 to |sums|
      invariant forall x :: x in m <==> x in sums[..i]
      invariant forall x :: x in m ==> m[x] == CountOf(sums[..i], x)
    {
      assert sums[..i + 1][..i] == sums[..i];
      assert sums[..i + 1] == sums[..i] + [sums[i]];
      var x := sums[i];
      m := m[x := (if x in m then m[x] else 0) + 1];
    }
    assert sums[..|sums|] == sums;
  }

  /** The tally of the 27 universes is exactly the weights. */
  lemma TallyIsWeights(m: map<nat, nat>)
    requires forall x :: x in m <==> x in TripleSums()
    requires forall x :: x in m ==> m[x] == CountOf(TripleSums(), x)
    ensures m == Weights()
  {
    forall x
      ensures x in m <==> x in Weights()
      ensures x in m ==> m[x] == Weights()[x]
    {
      DiceWeights(x);
    }
  }

  // ---------------------------------------------------------------------
  // The quantum game: counting the universes each player wins in

  /** `(sum of the three rolls, number of universes)`, every sum at least 1. */
  type Outcomes = seq<(nat, nat)>

  predicate Advancing(os: Outcomes) {
    forall i :: 0 <= i < |os| ==> os[i].0 >= 1
  }

  function Cap(score: nat): nat {
    if score < QuantumWinScore then score else QuantumWinScore
  }

  /** The universes won by the player to move and by the other player,
      from the given positions and scores. If the other player has already
      reached 21 it has won this one universe. */
  function Wins(os: Outcomes, curPos: nat, curScore: nat, otherPos: nat, otherScore: nat): (nat, nat)
    requires Advancing(os) && curScore < QuantumWinScore
    decreases 2 * QuantumWinScore - curScore - Cap(otherScore), |os| + 1
  {
    if otherScore >= QuantumWinScore then (0, 1)
    else WinsOver(os, |os|, curPos, curScore, otherPos, otherScore)
  }

  /** The wins added up over the first `k` outcomes: after each outcome the
      other player is to move, so its counts come back swapped, weighted by
      the number of universes giving that outcome. */
  function WinsOver(os: Outcomes, k: nat, curPos: nat, curScore: nat, otherPos: nat, otherScore: nat): (nat, nat)
    requires Advancing(os) && k <= |os| && curScore < QuantumWinScore && otherScore < QuantumWinScore
    decreases 2 * QuantumWinScore - curScore - otherScore, k
  {
    if k == 0 then (0, 0)
    else
      var acc := WinsOver(os, k - 1, curPos, curScore, otherPos, otherScore);
      var (outcome, occ) := os[k - 1];
      var pos := Move(curPos, outcome);
      var sub := Wins(os, otherPos, otherScore, pos, curScore + pos);
      (acc.0 + sub.1 * occ, acc.1 + sub.0 * occ)
  }

  /** The number of universes over the first `k` outcomes. */
  function Universes(os: Outcomes, k: nat): nat
    requires k <= |os|
  {
    if k == 0 then 0 else Universes(os, k - 1) + os[k - 1].1
  }

  /** A player on 20 points wins in every universe of its turn: whatever
      it rolls, the move lands on a position of at least 1. */
  lemma {:induction false} OneStepFromWinning(os: Outcomes, k: nat, curPos: nat, otherPos: nat, otherScore: nat)
    requires Advancing(os) && k <= |os| && otherScore < QuantumWinScore
    ensures WinsOver(os, k, curPos, QuantumWinScore - 1, otherPos, otherScore) == (Universes(os, k), 0)
  {
    if k > 0 {
      OneStepFromWinning(os, k - 1, curPos, otherPos, otherScore);
    }
  }

  /** With the dice of this game, that is all 27 universes. */
  lemma ImmediateWin(curPos: nat, otherPos: nat, otherScore: nat)
    requires otherScore < QuantumWinScore
    ensures Wins(WeightList(), curPos, QuantumWinScore - 1, otherPos, otherScore) == (27, 0)
  {
    OneStepFromWinning(WeightList(), 7, curPos, otherPos, otherScore);
  }

  type Key = (nat, nat, nat, nat)

  /** Every cached entry holds the wins from its position and scores. */
  predicate CacheValid(os: Outcomes, cache: map<Key, (nat, nat)>)
    requires Advancing(os)
  {
    forall key :: key in cache ==>
      key.1 < QuantumWinScore && cache[key] == Wins(os, key.0, key.1, key.2, key.3)
  }

  /** `quantum_inner_play`: the wins of both players, looked up in the
      cache or counted over every outcome of the three rolls and then
      cached; the cache always agrees with the plain recursion. */
  method QuantumInnerPlay(cache: map<Key, (nat, nat)>, os: Outcomes,
                          curPos: nat, curScore: nat, otherPos: nat, otherScore: nat)
    returns (r: (nat, nat), cache': map<Key, (nat, nat)>)
    requires Advancing(os) && curScore < QuantumWinScore && CacheValid(os, cache)
    ensures r == Wins(os, curPos, curScore, otherPos, otherScore)
    ensures CacheValid(os, cache')
    decreases 2 * QuantumWinScore - curScore - Cap(otherScore)
  {
    if otherScore >= QuantumWinScore {
      return (0, 1), cache;
    }
    var key := (curPos, curScore, otherPos, otherScore);
    if key in cache {
      return cache[key], cache;
    }
    cache' := cache;
    var curWinCount, othWinCount := 0, 0;
    for i := 0 to |os|
      invariant CacheValid(os, cache')
      invariant (curWinCount, othWinCount) == WinsOver(os, i, curPos, curScore, otherPos, otherScore)
    {
      var (outcome, occ) := os[i];
      var pos := (curPos + outcome - 1) % 10 + 1;
      var score := curScore + pos;
      var sub;
      sub, cache' := QuantumInnerPlay(cache', os, otherPos, otherScore, pos, score);
      othWinCount := othWinCount + sub.0 * occ;
      curWinCount := curWinCount + sub.1 * occ;
    }
    cache' := cache'[key := (curWinCount, othWinCount)];
    r := (curWinCount, othWinCount);
  }

  /** `quantum_play`: the outcomes of a turn are tallied, then the player
      who wins in more universes gives the answer. The tally is listed in
      increasing order of the sum. */
  method QuantumPlay(p1Starting: nat, p2Starting: nat) returns (r: nat)
    ensures var w := Wins(WeightList(), p1Starting, 0, p2Starting, 0);
      r == if w.0 >= w.1 then w.0 else w.1
  {
    var occurrences := CountOutcomes(TripleSums());
    TallyIsWeights(occurrences);
    var outcomes := [(3, occurrences[3]), (4, occurrences[4]), (5, occurrences[5]), (6, occurrences[6]),
                     (7, occurrences[7]), (8, occurrences[8]), (9, occurrences[9])];
    assert outcomes == WeightList();
    var wins, _ := QuantumInnerPlay(map[], outcomes, p1Starting, 0, p2Starting, 0);
    r := if wins.0 >= wins.1 then wins.0 else wins.1;
  }

  /** The outcomes of a turn with their weights, by increasing sum. */
  function WeightList(): (os: Outcomes)
    ensures Advancing(os)
  {
    [(3, 1), (4, 3), (5, 6), (6, 7), (7, 6), (8, 3), (9, 1)]
  }
}
