// Crab Combat: two players draw the top card of their decks; the higher
// card wins the round. In the recursive variant a round may be settled by
// a sub-game on copies of the top of both decks, and a game ends at once,
// won by player 1, when a position of both decks repeats.

module CrabCombat {
  import opened Wrappers

  /** A deck, top card first. */
  type Deck = seq<nat>

  /** Player 0 is the first player, player 1 the second, as `get_winner`
      numbers them. */
  datatype Outcome = Outcome(winner: nat, p1: Deck, p2: Deck)

  // ---------------------------------------------------------------------
  // Combat

  /** The end of a round won by player `w`: the winner puts both drawn
      cards at the bottom of their deck, their own first. */
  function Award(p1: Deck, p2: Deck, w: nat): (r: (Deck, Deck))
    requires |p1| > 0 && |p2| > 0
  {
    if w == 0 then (p1[1..] + [p1[0], p2[0]], p2[1..])
    else (p1[1..], p2[1..] + [p2[0], p1[0]])
  }

  /** A round keeps every card in play. */
  lemma AwardKeepsCards(p1: Deck, p2: Deck, w: nat)
    requires |p1| > 0 && |p2| > 0
    ensures var r := Award(p1, p2, w);
      multiset(r.0 + r.1) == multiset(p1 + p2) && |r.0| + |r.1| == |p1| + |p2|
  {
    var c1, c2, r1, r2 := p1[0], p2[0], p1[1..], p2[1..];
    var core := multiset(r1 + r2) + multiset{c1, c2};
    assert p1 + p2 == [c1] + (r1 + [c2] + r2);
    assert multiset(p1 + p2) == core;
    var r := Award(p1, p2, w);
    if w == 0 {
      assert r.0 + r.1 == r1 + [c1, c2] + r2;
    } else {
      assert r.0 + r.1 == r1 + (r2 + [c2, c1]);
    }
    assert multiset(r.0 + r.1) == core;
  }

  /** One round of Combat: the higher card wins. */
  function CombatRound(p1: Deck, p2: Deck): (r: (Deck, Deck))
    requires |p1| > 0 && |p2| > 0
  {
    Award(p1, p2, if p1[0] > p2[0] then 0 else 1)
  }

  /** Combat played for at most `rounds` rounds, stopping when a deck is
      empty. */
  function Combat(p1: Deck, p2: Deck, rounds: nat): (r: (Deck, Deck))
    decreases rounds
  {
    if rounds == 0 || |p1| == 0 || |p2| == 0 then (p1, p2)
    else
      var next := CombatRound(p1, p2);
      Combat(next.0, next.1, rounds - 1)
  }

  /** However long it is played, Combat keeps every card in play. */
  lemma {:induction false} CombatKeepsCards(p1: Deck, p2: Deck, rounds: nat)
    decreases rounds
    ensures multiset(Combat(p1, p2, rounds).0 + Combat(p1, p2, rounds).1) == multiset(p1 + p2)
  {
    if rounds > 0 && |p1| > 0 && |p2| > 0 {
      AwardKeepsCards(p1, p2, if p1[0] > p2[0] then 0 else 1);
      var next := CombatRound(p1, p2);
      CombatKeepsCards(next.0, next.1, rounds - 1);
    }
  }

  // ---------------------------------------------------------------------
  // Every position of a game

  /** Every ordering of the cards of `m`. */
  function Perms(m: multiset<nat>): (ps: set<seq<nat>>)
    decreases |m|
  {
    if |m| == 0 then {[]}
    else set x, p | x in m && p in Perms(m - multiset{x}) :: [x] + p
  }

  /** Every ordering of its cards is among `Perms`. */
  lemma {:induction false} PermsComplete(s: seq<nat>)
    ensures s in Perms(multiset(s))
  {
    if s != [] {
      var m := multiset(s);
      assert s == [s[0]] + s[1..];
      assert multiset(s[1..]) == m - multiset{s[0]};
      PermsComplete(s[1..]);
    }
  }

  /** Every way of dealing the cards of `m` into two decks. */
  function Positions(m: multiset<nat>): set<(Deck, Deck)> {
    set s, k | s in Perms(m) && 0 <= k <= |s| :: (s[..k], s[k..])
  }

  /** Two decks are one of the positions of their own cards. */
  lemma InPositions(p1: Deck, p2: Deck)
    ensures (p1, p2) in Positions(multiset(p1 + p2))
  {
    var s := p1 + p2;
    PermsComplete(s);
    assert (s[..|p1|], s[|p1|..]) == (p1, p2);
  }

  /** Seeing a new position leaves fewer positions of the same cards
      unseen. */
  lemma SeenShrinks(p1: Deck, p2: Deck, seen: set<(Deck, Deck)>, q1: Deck, q2: Deck)
    requires (p1, p2) !in seen && multiset(q1 + q2) == multiset(p1 + p2)
    ensures |Positions(multiset(q1 + q2)) - (seen + {(p1, p2)})| <
            |Positions(multiset(p1 + p2)) - seen|
  {
    var m := multiset(p1 + p2);
    InPositions(p1, p2);
    assert Positions(m) - (seen + {(p1, p2)}) == (Positions(m) - seen) - {(p1, p2)};
  }

  /** A round of Recursive Combat recurses when both players hold at
      least as many cards as the value they drew. */
  predicate SubGameStarts(p1: Deck, p2: Deck) {
    |p1| > 0 && |p2| > 0 && p1[0] <= |p1| - 1 && p2[0] <= |p2| - 1
  }

  /** A prefix of a deck holds some of its cards. */
  lemma PrefixCards(s: Deck, k: nat)
    requires k <= |s|
    ensures multiset(s[..k]) <= multiset(s)
  {
    assert s == s[..k] + s[k..];
  }

  /** The decks of a sub-game: copies of as many cards, from just below
      the drawn card, as the value drawn. */
  function SubDecks(p1: Deck, p2: Deck): (r: (Deck, Deck))
    requires SubGameStarts(p1, p2)
    ensures |r.0| == p1[0] && |r.1| == p2[0]
    ensures r.0 == p1[1..1 + p1[0]] && r.1 == p2[1..1 + p2[0]]
    ensures multiset(r.0 + r.1) <= multiset(p1 + p2)
    ensures 0 !in multiset(p1 + p2) ==> |r.0| + |r.1| >= 2
  {
    var r1, r2, c1, c2 := p1[1..], p2[1..], p1[0], p2[0];
    PrefixCards(p1, 1 + c1);
    PrefixCards(p2, 1 + c2);
    assert multiset(p1 + p2) == multiset(p1) + multiset(p2);
    assert p1[1..1 + c1] == r1[..c1] && p2[1..1 + c2] == r2[..c2];
    assert p1[..1 + c1] == [c1] + r1[..c1] && p2[..1 + c2] == [c2] + r2[..c2];
    (r1[..c1], r2[..c2])
  }

  // ---------------------------------------------------------------------
  // Recursive Combat

  /** The winner `get_winner` reads off two decks: the player whose
      opponent has no cards left, and none while both hold cards. */
  function WinnerOf(p1: Deck, p2: Deck): (w: Option<nat>)
    ensures w.Some? <==> (|p1| == 0) != (|p2| == 0)
  {
    if |p1| == 0 && |p2| == 0 then None
    else if |p1| == 0 then Some(1)
    else if |p2| == 0 then Some(0)
    else None
  }

  /** The winner of a round of Recursive Combat: the winner of a
      sub-game when one starts, else the owner of the higher card. */
  function RoundWinner(p1: Deck, p2: Deck): (w: nat)
    requires 0 !in multiset(p1 + p2) && |p1| > 0 && |p2| > 0
    decreases |p1| + |p2|, 0
    ensures w == 0 || w == 1
  {
    if SubGameStarts(p1, p2) then
      var sub := SubDecks(p1, p2);
      Game(sub.0, sub.1, {}).winner
    else if p1[0] > p2[0] then 0 else 1
  }

  /** A game of Recursive Combat from the given decks, having already seen
      the positions in `seen`. Cards are positive, as in the puzzle input;
      if both players drew a zero card, the sub-game would start with two
      empty decks, which `get_winner` rejects. */
  function Game(p1: Deck, p2: Deck, seen: set<(Deck, Deck)>): (o: Outcome)
    requires 0 !in multiset(p1 + p2) && |p1| + |p2| >= 1
    decreases |p1| + |p2|, 1 + |Positions(multiset(p1 + p2)) - seen|
    ensures o.winner == 0 || o.winner == 1
  {
    if |p1| == 0 || |p2| == 0 then Outcome(if |p1| == 0 then 1 else 0, p1, p2)
    else if (p1, p2) in seen then Outcome(0, p1, p2)
    else
      var next := Award(p1, p2, RoundWinner(p1, p2));
      AwardKeepsCards(p1, p2, RoundWinner(p1, p2));
      SeenShrinks(p1, p2, seen, next.0, next.1);
      Game(next.0, next.1, seen + {(p1, p2)})
  }

  /** A round of a game that has not ended: the game goes on from the
      decks the round leaves, with the position seen. */
  lemma GameStep(p1: Deck, p2: Deck, seen: set<(Deck, Deck)>, w: nat)
    requires 0 !in multiset(p1 + p2) && |p1| > 0 && |p2| > 0 && (p1, p2) !in seen
    requires w == RoundWinner(p1, p2)
    ensures var next := Award(p1, p2, w);
      multiset(next.0 + next.1) == multiset(p1 + p2) &&
      Game(p1, p2, seen) == Game(next.0, next.1, seen + {(p1, p2)})
  {
    AwardKeepsCards(p1, p2, w);
  }

  /** A game read at a position where a deck is empty, or that was seen
      before, ends there. */
  lemma GameAtEnd(p1: Deck, p2: Deck, seen: set<(Deck, Deck)>)
    requires 0 !in multiset(p1 + p2) && |p1| + |p2| >= 1
    requires |p1| == 0 || |p2| == 0 || (p1, p2) in seen
    ensures Game(p1, p2, seen) == Outcome(if |p1| == 0 then 1 else 0, p1, p2)
  {
  }

  /** A game keeps every card in play, and ends in one of two ways: a deck
      runs out and its opponent wins, or a position repeats with both decks
      still holding cards and player 1 wins. */
  lemma {:induction false} GameOutcome(p1: Deck, p2: Deck, seen: set<(Deck, Deck)>)
    requires 0 !in multiset(p1 + p2) && |p1| + |p2| >= 1
    decreases |p1| + |p2|, 1 + |Positions(multiset(p1 + p2)) - seen|
    ensures var o := Game(p1, p2, seen);
      multiset(o.p1 + o.p2) == multiset(p1 + p2) &&
      (WinnerOf(o.p1, o.p2) == Some(o.winner) ||
       (o.winner == 0 && |o.p1| > 0 && |o.p2| > 0))
  {
    if |p1| > 0 && |p2| > 0 && (p1, p2) !in seen {
      var w := RoundWinner(p1, p2);
      var next := Award(p1, p2, w);
      AwardKeepsCards(p1, p2, w);
      SeenShrinks(p1, p2, seen, next.0, next.1);
      GameOutcome(next.0, next.1, seen + {(p1, p2)});
    }
  }

  // ---------------------------------------------------------------------
  // Scores

  /** The score of a deck: each card times its position counted from the
      bottom, starting at 1. */
  function Score(deck: Deck): nat {
    if deck == [] then 0 else |deck| * deck[0] + Score(deck[1..])
  }

  /** The sum in `calculate_score`: the deck read from the bottom, the
      `i`-th card from the bottom weighing `i + 1`. */
  method ScoreDeck(deck: Deck) returns (s: nat)
    ensures s == Score(deck)
  {
    s := 0;
    var i := 0;
    while i < |deck|
      invariant 0 <= i <= |deck|
      invariant s == Score(deck[|deck| - i..])
    {
      assert deck[|deck| - 1 - i..][1..] == deck[|deck| - i..];
      s := s + (i + 1) * deck[|deck| - 1 - i];
      i := i + 1;
    }
    assert deck[|deck| - i..] == deck;
  }

  /** The game state of `GameBoard`. */
  class GameBoard {
    var p1: Deck
    var p2: Deck
    var prevRounds: set<(Deck, Deck)>

    /** `GameBoard::new`: the two decks, no position seen yet. */
    constructor (d1: Deck, d2: Deck)
      ensures p1 == d1 && p2 == d2 && prevRounds == {}
    {
      p1 := d1;
      p2 := d2;
      prevRounds := {};
    }

    /** `is_combat_game_over`: a deck is empty. */
    function IsCombatGameOver(): (r: bool)
      reads this
    {
      |p1| == 0 || |p2| == 0
    }

    /** `get_winner`: the player whose opponent has no cards; `None` where
        the source panics. */
    function GetWinner(): (w: Option<nat>)
      reads this
      ensures w == WinnerOf(p1, p2)
    {
      match (|p1| == 0, |p2| == 0)
      case (true, true) => None
      case (true, false) => Some(1)
      case (false, true) => Some(0)
      case (false, false) => None
    }

    /** `play_combat`, for at most `maxRounds` rounds: reports whether the
        game ended within them. */
    method PlayCombat(maxRounds: nat) returns (finished: bool)
      modifies this
      ensures (p1, p2) == Combat(old(p1), old(p2), maxRounds)
      ensures prevRounds == old(prevRounds)
      ensures finished <==> IsCombatGameOver()
    {
      var k := maxRounds;
      while !IsCombatGameOver() && k > 0
        invariant prevRounds == old(prevRounds)
        invariant Combat(p1, p2, k) == Combat(old(p1), old(p2), maxRounds)
      {
        ghost var d1, d2 := p1, p2;
        var c1 := p1[0];
        p1 := p1[1..];
        var c2 := p2[0];
        p2 := p2[1..];
        if c1 > c2 {
          p1 := p1 + [c1, c2];
        } else {
          p2 := p2 + [c2, c1];
        }
        assert (p1, p2) == CombatRound(d1, d2);
        k := k - 1;
      }
      finished := IsCombatGameOver();
    }

    /** `add_to_seen_rounds`: records the position; true if it is new. */
    method AddToSeenRounds() returns (isNew: bool)
      modifies this
      ensures p1 == old(p1) && p2 == old(p2)
      ensures prevRounds == old(prevRounds) + {(p1, p2)}
      ensures isNew <==> (p1, p2) !in old(prevRounds)
    {
      isNew := (p1, p2) !in prevRounds;
      prevRounds := prevRounds + {(p1, p2)};
    }

    /** `play_recursive_combat`: plays to the end and returns the winner. */
    method PlayRecursiveCombat() returns (w: nat)
      requires 0 !in multiset(p1 + p2) && |p1| + |p2| >= 1
      modifies this
      decreases |p1| + |p2|, 2
      ensures Game(old(p1), old(p2), old(prevRounds)) == Outcome(w, p1, p2)
    {
      var d1, d2, seen;
      w, d1, d2, seen := PlayRecursiveGame(p1, p2, prevRounds);
      p1, p2, prevRounds := d1, d2, seen;
    }

    /** `calculate_score`: the score of the winner's deck. */
    method CalculateScore() returns (s: nat)
      requires GetWinner().Some?
      ensures s == Score(if GetWinner() == Some(0) then p1 else p2)
    {
      var deck := if GetWinner() == Some(0) then p1 else p2;
      s := ScoreDeck(deck);
    }
  }

  /** The loop of `play_recursive_combat` on the decks and the positions
      seen so far: rounds are played until a deck is empty or a position
      repeats, and the winner and the final decks are those of the game. */
  method PlayRecursiveGame(p1: Deck, p2: Deck, prevRounds: set<(Deck, Deck)>)
    returns (w: nat, d1: Deck, d2: Deck, seen: set<(Deck, Deck)>)
    requires 0 !in multiset(p1 + p2) && |p1| + |p2| >= 1
    decreases |p1| + |p2|, 1
    ensures Game(p1, p2, prevRounds) == Outcome(w, d1, d2)
  {
    d1, d2, seen := p1, p2, prevRounds;
    ghost var m := multiset(d1 + d2);
    ghost var n := |d1| + |d2|;
    ghost var target := Game(d1, d2, seen);
    while !(|d1| == 0 || |d2| == 0)
      invariant multiset(d1 + d2) == m && |d1| + |d2| == n
      invariant Game(d1, d2, seen) == target
      decreases |Positions(m) - seen|
    {
      if (d1, d2) in seen {
        // the position repeats: player 1 wins this game
        break;
      }
      ghost var before, e1, e2 := seen, d1, d2;
      seen := seen + {(d1, d2)};
      var roundWinner;
      d1, d2, roundWinner := PlayRecursiveRound(d1, d2);
      GameStep(e1, e2, before, roundWinner);
      SeenShrinks(e1, e2, before, d1, d2);
    }
    GameAtEnd(d1, d2, seen);
    w := if |d1| == 0 then 1 else 0;
  }

  /** One round of `play_recursive_combat` after the position is recorded:
      both players draw, a sub-game on fresh copies settles the round when
      both have enough cards, and the winner takes both cards. */
  method PlayRecursiveRound(d1: Deck, d2: Deck) returns (n1: Deck, n2: Deck, roundWinner: nat)
    requires 0 !in multiset(d1 + d2) && |d1| > 0 && |d2| > 0
    decreases |d1| + |d2|, 0
    ensures roundWinner == RoundWinner(d1, d2)
    ensures (n1, n2) == Award(d1, d2, roundWinner)
  {
    var c1 := d1[0];
    n1 := d1[1..];
    var c2 := d2[0];
    n2 := d2[1..];
    if c1 <= |n1| && c2 <= |n2| {
      var sub := new GameBoard(n1[..c1], n2[..c2]);
      assert (sub.p1, sub.p2) == SubDecks(d1, d2);
      roundWinner := sub.PlayRecursiveCombat();
    } else if c1 > c2 {
      roundWinner := 0;
    } else {
      roundWinner := 1;
    }
    if roundWinner == 0 {
      n1 := n1 + [c1, c2];
    } else {
      n2 := n2 + [c2, c1];
    }
  }

  /** `part1`: plays Combat, here for at most `maxRounds` rounds, and
      scores the winner; `None` if the game has not ended by then, or if
      both decks are empty, where `get_winner` panics. */
  method Part1(d1: Deck, d2: Deck, maxRounds: nat) returns (r: Option<nat>)
    ensures var e := Combat(d1, d2, maxRounds);
      match WinnerOf(e.0, e.1)
      case Some(w) => r == Some(Score(if w == 0 then e.0 else e.1))
      case None => r == None
  {
    var game := new GameBoard(d1, d2);
    var finished := game.PlayCombat(maxRounds);
    if !finished || game.GetWinner().None? {
      return None;
    }
    var s := game.CalculateScore();
    r := Some(s);
  }

  /** `part2` as written: plays Recursive Combat, ignores the returned
      winner and scores the decks through `get_winner`, which panics
      (`None` here) when the game ended by a repeated position. */
  method Part2AsWritten(d1: Deck, d2: Deck) returns (r: Option<nat>)
    requires 0 !in multiset(d1 + d2) && |d1| + |d2| >= 1
    ensures var o := Game(d1, d2, {});
      match WinnerOf(o.p1, o.p2)
      case Some(w) => r == Some(Score(if w == 0 then o.p1 else o.p2))
      case None => r == None
  {
    var game := new GameBoard(d1, d2);
    var _ := game.PlayRecursiveCombat();
    if game.GetWinner().None? {
      return None;
    }
    var s := game.CalculateScore();
    r := Some(s);
  }

  /** `part2` scoring the winner the game returned: a game ended by a
      repeated position is won by player 1 with their deck. */
  method Part2(d1: Deck, d2: Deck) returns (s: nat)
    requires 0 !in multiset(d1 + d2) && |d1| + |d2| >= 1
    ensures var o := Game(d1, d2, {});
      s == Score(if o.winner == 0 then o.p1 else o.p2)
    ensures var o := Game(d1, d2, {});
      |if o.winner == 0 then o.p1 else o.p2| > 0
  {
    var game := new GameBoard(d1, d2);
    var w := game.PlayRecursiveCombat();
    GameOutcome(d1, d2, {});
    var deck := if w == 0 then game.p1 else game.p2;
    s := ScoreDeck(deck);
  }

  /** A round of Recursive Combat in which no sub-game starts is a round
      of plain Combat. */
  lemma PlainRound(p1: Deck, p2: Deck, seen: set<(Deck, Deck)>)
    requires 0 !in multiset(p1 + p2) && |p1| > 0 && |p2| > 0 && (p1, p2) !in seen
    requires !SubGameStarts(p1, p2)
    ensures var next := CombatRound(p1, p2);
      multiset(next.0 + next.1) == multiset(p1 + p2) &&
      Game(p1, p2, seen) == Game(next.0, next.1, seen + {(p1, p2)})
  {
    GameStep(p1, p2, seen, if p1[0] > p2[0] then 0 else 1);
  }

  /** Position `i` of `cycle` holds positive cards, needs no sub-game, and
      its round of Combat leads to the next position, the last one leading
      back to the first. */
  predicate PlainLink(cycle: seq<(Deck, Deck)>, i: nat)
    requires i < |cycle|
  {
    var s := cycle[i];
    |s.0| > 0 && |s.1| > 0 && !SubGameStarts(s.0, s.1) &&
    CombatRound(s.0, s.1) == if i + 1 == |cycle| then cycle[0] else cycle[i + 1]
  }

  /** The positions of `cycle` before index `k`. */
  function Visited(cycle: seq<(Deck, Deck)>, k: nat): set<(Deck, Deck)>
    requires k <= |cycle|
  {
    set i | 0 <= i < k :: cycle[i]
  }

  /** With distinct positions, the next position is not yet visited, and
      visiting it adds it. */
  lemma VisitedNext(cycle: seq<(Deck, Deck)>, k: nat)
    requires k < |cycle|
    requires forall i, j :: 0 <= i < j < |cycle| ==> cycle[i] != cycle[j]
    ensures cycle[k] !in Visited(cycle, k)
    ensures Visited(cycle, k + 1) == Visited(cycle, k) + {cycle[k]}
    ensures cycle[0] in Visited(cycle, k + 1)
  {
    assert cycle[0] in Visited(cycle, k + 1);
  }

  /** Rounds of Recursive Combat that follow a cycle of distinct
      positions, each settled without a sub-game, end the game by the
      repeat rule when the first position comes round again: player 1
      wins with the decks of the first position. */
  lemma {:induction false} PlainCycle(cycle: seq<(Deck, Deck)>, k: nat)
    requires k < |cycle|
    requires forall i :: 0 <= i < |cycle| ==>
      0 !in multiset(cycle[i].0 + cycle[i].1) && |cycle[i].0| > 0 && |cycle[i].1| > 0
    requires forall i :: 0 <= i < |cycle| ==> PlainLink(cycle, i)
    requires forall i, j :: 0 <= i < j < |cycle| ==> cycle[i] != cycle[j]
    ensures Game(cycle[k].0, cycle[k].1, Visited(cycle, k))
      == Outcome(0, cycle[0].0, cycle[0].1)
    decreases |cycle| - k
  {
    assert PlainLink(cycle, k);
    var seen := Visited(cycle, k);
    var seen' := Visited(cycle, k + 1);
    VisitedNext(cycle, k);
    PlainRound(cycle[k].0, cycle[k].1, seen);
    if k + 1 == |cycle| {
      var first := cycle[0];
      assert CombatRound(cycle[k].0, cycle[k].1) == first;
      assert first in seen';
    } else {
      PlainCycle(cycle, k + 1);
    }
  }

  /** The positions of the puzzle's example of a game that would go on
      forever without the repeat rule: each round is plain Combat and the
      sixth round returns to the first position. */
  const LoopingPositions: seq<(Deck, Deck)> := [
    ([43, 19], [2, 29, 14]),
    ([19, 43, 2], [29, 14]),
    ([43, 2], [14, 29, 19]),
    ([2, 43, 14], [29, 19]),
    ([43, 14], [19, 29, 2]),
    ([14, 43, 19], [29, 2])
  ]

  /** The rounds of the example, one position at a time. */
  lemma LoopingRound0()
    ensures PlainLink(LoopingPositions, 0)
    ensures var s := LoopingPositions[0]; 0 !in multiset(s.0 + s.1)
  {
    var a: Deck, b: Deck := [43, 19], [2, 29, 14];
    assert LoopingPositions[0] == (a, b);
    assert a[1..] + [a[0], b[0]] == [19, 43, 2];
    assert b[1..] == [29, 14];
    assert a + b == [43, 19, 2, 29, 14];
  }

  lemma LoopingRound1()
    ensures PlainLink(LoopingPositions, 1)
    ensures var s := LoopingPositions[1]; 0 !in multiset(s.0 + s.1)
  {
    var a: Deck, b: Deck := [19, 43, 2], [29, 14];
    assert LoopingPositions[1] == (a, b);
    assert a[1..] == [43, 2];
    assert b[1..] + [b[0], a[0]] == [14, 29, 19];
    assert a + b == [19, 43, 2, 29, 14];
  }

  lemma LoopingRound2()
    ensures PlainLink(LoopingPositions, 2)
    ensures var s := LoopingPositions[2]; 0 !in multiset(s.0 + s.1)
  {
    var a: Deck, b: Deck := [43, 2], [14, 29, 19];
    assert LoopingPositions[2] == (a, b);
    assert a[1..] + [a[0], b[0]] == [2, 43, 14];
    assert b[1..] == [29, 19];
    assert a + b == [43, 2, 14, 29, 19];
  }

  lemma LoopingRound3()
    ensures PlainLink(LoopingPositions, 3)
    ensures var s := LoopingPositions[3]; 0 !in multiset(s.0 + s.1)
  {
    var a: Deck, b: Deck := [2, 43, 14], [29, 19];
    assert LoopingPositions[3] == (a, b);
    assert a[1..] == [43, 14];
    assert b[1..] + [b[0], a[0]] == [19, 29, 2];
    assert a + b == [2, 43, 14, 29, 19];
  }

  lemma LoopingRound4()
    ensures PlainLink(LoopingPositions, 4)
    ensures var s := LoopingPositions[4]; 0 !in multiset(s.0 + s.1)
  {
    var a: Deck, b: Deck := [43, 14], [19, 29, 2];
    assert LoopingPositions[4] == (a, b);
    assert a[1..] + [a[0], b[0]] == [14, 43, 19];
    assert b[1..] == [29, 2];
    assert a + b == [43, 14, 19, 29, 2];
  }

  lemma LoopingRound5()
    ensures PlainLink(LoopingPositions, 5)
    ensures var s := LoopingPositions[5]; 0 !in multiset(s.0 + s.1)
  {
    var a: Deck, b: Deck := [14, 43, 19], [29, 2];
    assert LoopingPositions[5] == (a, b);
    assert a[1..] == [43, 19];
    assert b[1..] + [b[0], a[0]] == [2, 29, 14];
    assert a + b == [14, 43, 19, 29, 2];
  }

  /** Each position of the example moves to the next by a round of plain
      Combat. */
  lemma LoopingRound(k: nat)
    requires k < |LoopingPositions|
    ensures PlainLink(LoopingPositions, k)
    ensures var s := LoopingPositions[k]; 0 !in multiset(s.0 + s.1)
  {
    if k == 0 {
      LoopingRound0();
    } else if k == 1 {
      LoopingRound1();
    } else if k == 2 {
      LoopingRound2();
    } else if k == 3 {
      LoopingRound3();
    } else if k == 4 {
      LoopingRound4();
    } else {
      LoopingRound5();
    }
  }

  /** The six positions of the example are distinct. */
  lemma LoopingDistinct()
    ensures forall i, j :: 0 <= i < j < |LoopingPositions| ==>
      LoopingPositions[i] != LoopingPositions[j]
  {
    var pos := LoopingPositions;
    forall i, j | 0 <= i < j < |pos|
      ensures pos[i] != pos[j]
    {
      // the first cards of player 1 tell the positions apart, except the
      // pairs starting with 43, which differ in player 1's second card
      assert pos[i].0[0] != pos[j].0[0] || pos[i].0[1] != pos[j].0[1];
    }
  }

  /** The decks of that example: `part2` as written panics on them, since
      the game returns with both decks holding cards and `get_winner` finds
      no empty deck. */
  lemma LoopingGamePanics()
    ensures var o := Game([43, 19], [2, 29, 14], {});
      o.winner == 0 && WinnerOf(o.p1, o.p2) == None
  {
    var pos := LoopingPositions;
    forall k | 0 <= k < |pos|
      ensures PlainLink(pos, k) && 0 !in multiset(pos[k].0 + pos[k].1)
      ensures |pos[k].0| > 0 && |pos[k].1| > 0
    {
      LoopingRound(k);
    }
    LoopingDistinct();
    PlainCycle(pos, 0);
    assert Visited(pos, 0) == {};
  }
}
