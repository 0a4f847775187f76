// Supply Stacks: crates are moved between numbered stacks by a crane that
// either lifts one crate at a time (the CrateMover 9000, part 1) or a
// whole block at once (the CrateMover 9001, part 2). The answer is the
// crate on top of every stack.

module SupplyStacks {
  import opened Wrappers

  /** The stacks, each listed bottom first, so its top is its last crate. */
  type Stacks = seq<seq<char>>

  /** `quantity` crates from stack `from` to stack `to`, both numbered from
      1 as in the puzzle. */
  datatype Move = Move(quantity: nat, from: nat, to: nat)

  // ---------------------------------------------------------------------
  // Building the stacks

  /** The greatest stack index in the parsed crate positions. */
  function MaxIndex(v: seq<(nat, char)>): (m: nat)
    requires |v| > 0
    ensures forall k :: 0 <= k < |v| ==> v[k].0 <= m
    ensures exists k :: 0 <= k < |v| && v[k].0 == m
  {
    if |v| == 1 then v[0].0
    else
      var m := MaxIndex(v[..|v| - 1]);
      assert forall k :: 0 <= k < |v| - 1 ==> v[..|v| - 1][k] == v[k];
      if v[|v| - 1].0 > m then v[|v| - 1].0 else m
  }

  predicate IsCrate(c: char) {
    'A' <= c <= 'Z'
  }

  /** The crates of column `i`, bottom first: the letters placed there in
      the order of `v`. */
  function Column(v: seq<(nat, char)>, i: nat): (col: seq<char>)
    ensures forall k :: 0 <= k < |col| ==> IsCrate(col[k])
  {
    if v == [] then []
    else
      var last := v[|v| - 1];
      Column(v[..|v| - 1], i) + if last.0 == i && IsCrate(last.1) then [last.1] else []
  }

  /** `create_stacks`: one stack per column up to the greatest index, each
      holding the letters of its column, bottom first; anything but a
      capital letter is left out. */
  method CreateStacks(v: seq<(nat, char)>) returns (stacks: Stacks)
    requires |v| > 0
    ensures |stacks| == MaxIndex(v) + 1
    ensures forall i :: 0 <= i < |stacks| ==> stacks[i] == Column(v, i)
  {
    var maxStack := MaxIndex(v);
    stacks := seq(maxStack + 1, _ => []);
    var k := 0;
    while k < |v|
      invariant 0 <= k <= |v| && |stacks| == maxStack + 1
      invariant forall i :: 0 <= i < |stacks| ==> stacks[i] == Column(v[..k], i)
    {
      var (i, c) := v[k];
      assert v[..k + 1][..k] == v[..k];
      if IsCrate(c) {
        stacks := stacks[i := stacks[i] + [c]];
      }
      k := k + 1;
    }
    assert v[..k] == v;
  }

  // ---------------------------------------------------------------------
  // The cranes

  predicate ValidStack(s: Stacks, n: nat) {
    1 <= n <= |s|
  }

  /** One crate from the top of `from` to the top of `to`; `None` where the
      source panics: a stack number out of range or an empty source. */
  function MoveOne(s: Stacks, from: nat, to: nat): (r: Option<Stacks>)
    ensures r.Some? ==> |r.value| == |s|
  {
    if !ValidStack(s, from) || !ValidStack(s, to) || s[from - 1] == [] then None
    else
      var src := s[from - 1];
      var t := s[from - 1 := src[..|src| - 1]];
      Some(t[to - 1 := t[to - 1] + [src[|src| - 1]]])
  }

  /** `quantity` single-crate moves, as the CrateMover 9000 makes them. */
  function Move9000(s: Stacks, quantity: nat, from: nat, to: nat): (r: Option<Stacks>)
    ensures r.Some? ==> |r.value| == |s|
    decreases quantity
  {
    if quantity == 0 then Some(s)
    else
      match MoveOne(s, from, to)
      case None => None
      case Some(t) => Move9000(t, quantity - 1, from, to)
  }

  /** The top `quantity` crates of `from` lifted as a block onto `to`, in
      their order, as the CrateMover 9001 moves them; `None` where the
      source panics. */
  function Move9001(s: Stacks, quantity: nat, from: nat, to: nat): (r: Option<Stacks>)
    ensures r.Some? ==> |r.value| == |s|
  {
    if !ValidStack(s, from) || !ValidStack(s, to) || quantity > |s[from - 1]| then None
    else
      var src := s[from - 1];
      var t := s[from - 1 := src[..|src| - quantity]];
      Some(t[to - 1 := t[to - 1] + src[|src| - quantity..]])
  }

  function Reverse(s: seq<char>): (r: seq<char>)
    ensures |r| == |s|
    ensures forall i :: 0 <= i < |s| ==> r[i] == s[|s| - 1 - i]
  {
    if s == [] then [] else [s[|s| - 1]] + Reverse(s[..|s| - 1])
  }

  /** Lifting crates one at a time between two different stacks moves the
      same block as the CrateMover 9001 but reversed, and fails exactly
      when the source holds too few crates. */
  lemma {:induction false} Move9000Reverses(s: Stacks, quantity: nat, from: nat, to: nat)
    requires ValidStack(s, from) && ValidStack(s, to) && from != to
    ensures quantity > |s[from - 1]| <==> Move9000(s, quantity, from, to).None?
    ensures quantity <= |s[from - 1]| ==>
      var src := s[from - 1];
      var t := s[from - 1 := src[..|src| - quantity]];
      Move9000(s, quantity, from, to) ==
        Some(t[to - 1 := t[to - 1] + Reverse(src[|src| - quantity..])])
    decreases quantity
  {
    var src := s[from - 1];
    if quantity == 0 {
      assert src[..|src|] == src;
      assert src[|src|..] == [];
      assert Reverse(src[|src|..]) == [];
      var t := s[from - 1 := src[..|src|]];
      assert t == s;
      assert t[to - 1] + [] == t[to - 1];
      assert t[to - 1 := t[to - 1] + []] == s;
    } else if src != [] {
      var t := MoveOne(s, from, to).value;
      var c := src[|src| - 1];
      var rest := src[..|src| - 1];
      assert t == s[from - 1 := rest][to - 1 := s[to - 1] + [c]];
      assert Move9000(s, quantity, from, to) == Move9000(t, quantity - 1, from, to);
      Move9000Reverses(t, quantity - 1, from, to);
      assert t[from - 1] == rest;
      if quantity <= |src| {
        ReverseStep(s, from, to, quantity, t);
      }
    }
  }

  /** The inductive step of `Move9000Reverses`: after the first single
      move, the remaining block lands reversed on top of the moved crate. */
  lemma ReverseStep(s: Stacks, from: nat, to: nat, quantity: nat, t: Stacks)
    requires ValidStack(s, from) && ValidStack(s, to) && from != to
    requires 0 < quantity <= |s[from - 1]|
    requires t == s[from - 1 := s[from - 1][..|s[from - 1]| - 1]][to - 1 := s[to - 1] + [s[from - 1][|s[from - 1]| - 1]]]
    ensures var rest, q, src := t[from - 1], quantity - 1, s[from - 1];
      var t2 := t[from - 1 := rest[..|rest| - q]];
      var big := s[from - 1 := src[..|src| - quantity]];
      t2[to - 1 := t2[to - 1] + Reverse(rest[|rest| - q..])] ==
        big[to - 1 := big[to - 1] + Reverse(src[|src| - quantity..])]
  {
    var src := s[from - 1];
    var c := src[|src| - 1];
    var rest := src[..|src| - 1];
    assert t[from - 1] == rest;
    var q := quantity - 1;
    BlockSplit(src, quantity);
    var r := Reverse(rest[|rest| - q..]);
    var big := s[from - 1 := src[..|src| - quantity]];
    var t2 := t[from - 1 := rest[..|rest| - q]];
    assert t2 == big[to - 1 := s[to - 1] + [c]];
    assert (s[to - 1] + [c]) + r == s[to - 1] + ([c] + r);
    assert big[to - 1] == s[to - 1];
  }

  /** Taking the top crate off a stack leaves the same crates below a
      block one shorter, and reversing the block puts that crate first. */
  lemma BlockSplit(src: seq<char>, quantity: nat)
    requires 0 < quantity <= |src|
    ensures var rest, q := src[..|src| - 1], quantity - 1;
      && rest[..|rest| - q] == src[..|src| - quantity]
      && Reverse(src[|src| - quantity..]) == [src[|src| - 1]] + Reverse(rest[|rest| - q..])
  {
    var rest, q := src[..|src| - 1], quantity - 1;
    var block := src[|src| - quantity..];
    assert rest[|rest| - q..] == block[..|block| - 1];
    assert block == block[..|block| - 1] + [src[|src| - 1]];
  }

  /** A move from a stack onto itself leaves the stacks as they were: the
      CrateMover 9000 needs a crate to lift whenever it moves any, the
      CrateMover 9001 enough crates for the block. */
  lemma {:induction false} MoveToSameStack(s: Stacks, quantity: nat, n: nat)
    requires ValidStack(s, n)
    ensures Move9000(s, quantity, n, n) ==
      if quantity > 0 && s[n - 1] == [] then None else Some(s)
    ensures Move9001(s, quantity, n, n) ==
      if quantity > |s[n - 1]| then None else Some(s)
    decreases quantity
  {
    var src := s[n - 1];
    if quantity <= |src| {
      assert src[..|src| - quantity] + src[|src| - quantity..] == src;
      var t := s[n - 1 := src[..|src| - quantity]];
      assert t[n - 1 := t[n - 1] + src[|src| - quantity..]] == s;
    }
    if quantity > 0 && src != [] {
      assert src[..|src| - 1] + [src[|src| - 1]] == src;
      var t := s[n - 1 := src[..|src| - 1]];
      assert t[n - 1 := t[n - 1] + [src[|src| - 1]]] == s;
      assert MoveOne(s, n, n) == Some(s);
      MoveToSameStack(s, quantity - 1, n);
    }
  }

  /** The number of crates on all stacks. */
  function Total(s: Stacks): nat {
    if s == [] then 0 else Total(s[..|s| - 1]) + |s[|s| - 1]|
  }

  /** Changing one stack changes the total by the change in its size. */
  lemma {:induction false} TotalUpdate(s: Stacks, i: nat, x: seq<char>)
    requires i < |s|
    ensures Total(s[i := x]) + |s[i]| == Total(s) + |x|
  {
    var t := s[i := x];
    if i < |s| - 1 {
      assert t[..|t| - 1] == s[..|s| - 1][i := x];
      TotalUpdate(s[..|s| - 1], i, x);
    } else {
      assert t[..|t| - 1] == s[..|s| - 1];
    }
  }

  /** Either crane, given enough crates, changes only the two stacks
      named and keeps every crate. */
  lemma MovesKeepCrates(s: Stacks, quantity: nat, from: nat, to: nat)
    requires ValidStack(s, from) && ValidStack(s, to) && quantity <= |s[from - 1]|
    ensures Move9000(s, quantity, from, to).Some? && Move9001(s, quantity, from, to).Some?
    ensures Total(Move9000(s, quantity, from, to).value) == Total(s)
    ensures Total(Move9001(s, quantity, from, to).value) == Total(s)
    ensures forall i :: 0 <= i < |s| && i != from - 1 && i != to - 1 ==>
      Move9000(s, quantity, from, to).value[i] == s[i] &&
      Move9001(s, quantity, from, to).value[i] == s[i]
  {
    var src := s[from - 1];
    var t := s[from - 1 := src[..|src| - quantity]];
    TotalUpdate(s, from - 1, src[..|src| - quantity]);
    TotalUpdate(t, to - 1, t[to - 1] + src[|src| - quantity..]);
    if from == to {
      MoveToSameStack(s, quantity, from);
    } else {
      Move9000Reverses(s, quantity, from, to);
      TotalUpdate(t, to - 1, t[to - 1] + Reverse(src[|src| - quantity..]));
    }
  }

  // ---------------------------------------------------------------------
  // The two answers

  /** Every move made by the CrateMover 9000, or `None` at a panic. */
  function Run9000(s: Stacks, moves: seq<Move>): Option<Stacks>
    decreases |moves|
  {
    if moves == [] then Some(s)
    else
      var m := moves[0];
      match Move9000(s, m.quantity, m.from, m.to)
      case None => None
      case Some(t) => Run9000(t, moves[1..])
  }

  /** Every move made by the CrateMover 9001, or `None` at a panic. */
  function Run9001(s: Stacks, moves: seq<Move>): Option<Stacks>
    decreases |moves|
  {
    if moves == [] then Some(s)
    else
      var m := moves[0];
      match Move9001(s, m.quantity, m.from, m.to)
      case None => None
      case Some(t) => Run9001(t, moves[1..])
  }

  /** The crate on top of each stack; `None` (a panic) if one is empty. */
  function Tops(s: Stacks): (r: Option<string>)
    ensures r.Some? ==>
      |r.value| == |s| &&
      forall i :: 0 <= i < |s| ==> |s[i]| > 0 && r.value[i] == s[i][|s[i]| - 1]
    ensures r.None? <==> exists i :: 0 <= i < |s| && s[i] == []
  {
    if s == [] then Some([])
    else
      var rest := Tops(s[..|s| - 1]);
      assert forall i :: 0 <= i < |s| - 1 ==> s[..|s| - 1][i] == s[i];
      if rest.None? || s[|s| - 1] == [] then None
      else Some(rest.value + [s[|s| - 1][|s[|s| - 1]| - 1]])
  }

  /** `part1`: the CrateMover 9000 lifts one crate at a time. */
  method Part1(stacks: Stacks, moves: seq<Move>) returns (r: Option<string>)
    ensures r == match Run9000(stacks, moves)
      case None => None
      case Some(s) => Tops(s)
  {
    var s := stacks;
    var i := 0;
    while i < |moves|
      invariant 0 <= i <= |moves|
      invariant Run9000(s, moves[i..]) == Run9000(stacks, moves)
    {
      var m := moves[i];
      assert moves[i..][0] == m && moves[i..][1..] == moves[i + 1..];
      ghost var before := s;
      var k := 0;
      while k < m.quantity
        invariant 0 <= k <= m.quantity
        invariant Move9000(s, m.quantity - k, m.from, m.to) ==
                  Move9000(before, m.quantity, m.from, m.to)
      {
        if !ValidStack(s, m.from) || s[m.from - 1] == [] || !ValidStack(s, m.to) {
          return None;
        }
        var src := s[m.from - 1];
        var tmp := src[|src| - 1];
        s := s[m.from - 1 := src[..|src| - 1]];
        s := s[m.to - 1 := s[m.to - 1] + [tmp]];
        k := k + 1;
      }
      i := i + 1;
    }
    r := Tops(s);
  }

  /** The largest quantity of any move. */
  function MaxQuantity(moves: seq<Move>): (m: nat)
    requires |moves| > 0
    ensures forall k :: 0 <= k < |moves| ==> moves[k].quantity <= m
  {
    if |moves| == 1 then moves[0].quantity
    else
      var m := MaxQuantity(moves[1..]);
      assert forall k :: 1 <= k < |moves| ==> moves[k] == moves[1..][k - 1];
      if moves[0].quantity > m then moves[0].quantity else m
  }

  /** `part2`: the CrateMover 9001 copies each block into a buffer as long
      as the largest move, cuts it off the source and puts it on the
      target. With no move at all the source panics on the largest
      quantity, so the result is `None`. */
  method Part2(stacks: Stacks, moves: seq<Move>) returns (r: Option<string>)
    ensures moves == [] ==> r == None
    ensures moves != [] ==> r == match Run9001(stacks, moves)
      case None => None
      case Some(s) => Tops(s)
  {
    if moves == [] {
      return None;
    }
    var maxMove := MaxQuantity(moves);
    var temp := new char[maxMove](_ => '0');
    var s := stacks;
    var i := 0;
    while i < |moves|
      invariant 0 <= i <= |moves|
      invariant Run9001(s, moves[i..]) == Run9001(stacks, moves)
    {
      var m := moves[i];
      assert moves[i..][0] == m && moves[i..][1..] == moves[i + 1..];
      if !ValidStack(s, m.from) || m.quantity > |s[m.from - 1]| {
        return None;
      }
      var len := |s[m.from - 1]|;
      CopyTop(s[m.from - 1], m.quantity, temp);
      s := s[m.from - 1 := s[m.from - 1][..len - m.quantity]];
      if !ValidStack(s, m.to) {
        return None;
      }
      s := s[m.to - 1 := s[m.to - 1] + temp[..m.quantity]];
      i := i + 1;
    }
    r := Tops(s);
  }

  /** The buffer copy of `part2`: the top `quantity` crates of `src` into
      the front of `temp`, in their order. */
  method CopyTop(src: seq<char>, quantity: nat, temp: array<char>)
    requires quantity <= |src| && quantity <= temp.Length
    modifies temp
    ensures temp[..quantity] == src[|src| - quantity..]
    ensures temp[quantity..] == old(temp[quantity..])
  {
    var j := 0;
    while j < quantity
      invariant 0 <= j <= quantity
      invariant temp[..j] == src[|src| - quantity..|src| - quantity + j]
      invariant temp[quantity..] == old(temp[quantity..])
    {
      temp[j] := src[|src| - quantity + j];
      j := j + 1;
    }
  }
}
