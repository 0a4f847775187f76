// Binary Boarding: a boarding pass is ten letters; the first seven pick
// the row by binary space partitioning ('F' front half, 'B' back half) and
// the last three the column ('L' or 'R'). Read as binary numbers, they give
// the seat ID row * 8 + column. Part 1 is the highest ID on the list;
// part 2 finds the one ID missing from a run of consecutive IDs.

module BinaryBoarding {
  import opened Wrappers
  import opened SeqFolds
  import opened Bits

  // ---------------------------------------------------------------------
  // One half of a boarding pass as a binary number

  /** The term `get_seat_inner_value` adds for each letter: 2^i for the
      letter `i` places from the end when it is the `one` letter. */
  function Terms(value: string, one: char): (t: seq<nat>)
    ensures |t| == |value|
  {
    seq(|value|, i requires 0 <= i < |value| =>
      if value[|value| - 1 - i] == one then Pow2(i) else 0)
  }

  /** `get_seat_inner_value`: the sum of those terms. */
  function InnerValue(value: string, one: char): nat {
    Sum(Terms(value, one))
  }

  /** The term of the last letter. */
  function Digit(c: char, one: char): (d: nat)
    ensures d < 2
  {
    if c == one then 1 else 0
  }

  /** Each term after the first is twice the term of the same letter in
      the pass without its last letter. */
  function Doubled(xs: seq<nat>): (r: seq<nat>)
    ensures |r| == |xs|
  {
    seq(|xs|, i requires 0 <= i < |xs| => 2 * xs[i])
  }

  lemma {:induction false} SumDoubled(xs: seq<nat>)
    ensures Sum(Doubled(xs)) == 2 * Sum(xs)
  {
    if xs != [] {
      assert Doubled(xs)[1..] == Doubled(xs[1..]);
      SumDoubled(xs[1..]);
    }
  }

  /** The sum of the terms read from the last letter: the last letter is
      the lowest bit, the rest of the pass a number twice as heavy. */
  lemma InnerValueLast(value: string, one: char)
    requires value != []
    ensures InnerValue(value, one)
      == Digit(value[|value| - 1], one) + 2 * InnerValue(value[..|value| - 1], one)
  {
    var front := value[..|value| - 1];
    var t := Terms(value, one);
    assert t == [Digit(value[|value| - 1], one)] + Doubled(Terms(front, one));
    SumDoubled(Terms(front, one));
  }

  /** The value fits in as many bits as the pass has letters. */
  lemma {:induction false} InnerValueBound(value: string, one: char)
    ensures InnerValue(value, one) < Pow2(|value|)
  {
    if value != [] {
      InnerValueLast(value, one);
      InnerValueBound(value[..|value| - 1], one);
    }
  }

  /** Bit `i` of the value is set exactly when the letter `i` places from
      the end is the `one` letter; there are no other bits. */
  lemma {:induction false} InnerValueBits(value: string, one: char, i: nat)
    ensures Bit(InnerValue(value, one), i)
      == if i < |value| && value[|value| - 1 - i] == one then 1 else 0
  {
    if value == [] {
      BitZero(i);
    } else {
      var front := value[..|value| - 1];
      InnerValueLast(value, one);
      if i > 0 {
        InnerValueBits(front, one, i - 1);
      }
    }
  }

  /** The `k` letters that spell `n` in binary, most significant first,
      with `one` for a set bit and `zero` for a clear one: the boarding
      pass half of a given row or column. */
  function Spell(n: nat, k: nat, one: char, zero: char): (s: string)
    ensures |s| == k
  {
    if k == 0 then [] else Spell(n / 2, k - 1, one, zero) + [if n % 2 == 1 then one else zero]
  }

  /** Spelling a number that fits and reading it back gives the number. */
  lemma {:induction false} ReadSpell(n: nat, k: nat, one: char, zero: char)
    requires one != zero && n < Pow2(k)
    ensures InnerValue(Spell(n, k, one, zero), one) == n
  {
    if k > 0 {
      var s := Spell(n, k, one, zero);
      assert s[..k - 1] == Spell(n / 2, k - 1, one, zero);
      InnerValueLast(s, one);
      ReadSpell(n / 2, k - 1, one, zero);
    }
  }

  /** Reading a half made only of the two letters and spelling the number
      back gives the same letters. */
  lemma {:induction false} SpellRead(value: string, one: char, zero: char)
    requires one != zero
    requires forall i :: 0 <= i < |value| ==> value[i] == one || value[i] == zero
    ensures Spell(InnerValue(value, one), |value|, one, zero) == value
  {
    if value != [] {
      var front := value[..|value| - 1];
      InnerValueLast(value, one);
      var n := InnerValue(value, one);
      assert n / 2 == InnerValue(front, one);
      SpellRead(front, one, zero);
      assert value == front + [value[|value| - 1]];
    }
  }

  // ---------------------------------------------------------------------
  // Seat IDs

  /** `get_seat_value`: the row read from the 'B' letters of the first
      seven letters, the column from the 'R' letters of the rest. The
      source splits at the seventh letter, which fails on a shorter
      line. */
  function SeatValue(entry: string): nat
    requires |entry| >= 7
  {
    InnerValue(entry[..7], 'B') * 8 + InnerValue(entry[7..], 'R')
  }

  /** On a ten-letter pass the row is below 128, the column below 8, and
      the seat ID below 1024, with the row and column read back from it
      by division by 8. */
  lemma SeatValueBounds(entry: string)
    requires |entry| == 10
    ensures var row := InnerValue(entry[..7], 'B');
      var col := InnerValue(entry[7..], 'R');
      && row < 128 && col < 8
      && SeatValue(entry) < 1024
      && SeatValue(entry) / 8 == row && SeatValue(entry) % 8 == col
  {
    InnerValueBound(entry[..7], 'B');
    InnerValueBound(entry[7..], 'R');
    assert Pow2(7) == 128 && Pow2(3) == 8;
  }

  /** The boarding pass of seat ID `id`. */
  function SeatPass(id: nat): (entry: string)
    requires id < 1024
    ensures |entry| == 10
  {
    Spell(id / 8, 7, 'B', 'F') + Spell(id % 8, 3, 'R', 'L')
  }

  /** Every seat ID below 1024 has a pass that reads back as it. */
  lemma SeatValuePass(id: nat)
    requires id < 1024
    ensures SeatValue(SeatPass(id)) == id
  {
    var entry := SeatPass(id);
    assert entry[..7] == Spell(id / 8, 7, 'B', 'F');
    assert entry[7..] == Spell(id % 8, 3, 'R', 'L');
    assert Pow2(7) == 128 && Pow2(3) == 8;
    ReadSpell(id / 8, 7, 'B', 'F');
    ReadSpell(id % 8, 3, 'R', 'L');
  }

  /** A well-formed pass is the pass of its own seat ID: different passes
      name different seats. */
  lemma PassSeatValue(entry: string)
    requires |entry| == 10
    requires forall i :: 0 <= i < 7 ==> entry[i] == 'F' || entry[i] == 'B'
    requires forall i :: 7 <= i < 10 ==> entry[i] == 'L' || entry[i] == 'R'
    ensures SeatValue(entry) < 1024 && SeatPass(SeatValue(entry)) == entry
  {
    SeatValueBounds(entry);
    var row, col := entry[..7], entry[7..];
    assert forall i :: 0 <= i < |row| ==> row[i] == entry[i];
    assert forall i :: 0 <= i < |col| ==> col[i] == entry[7 + i];
    SpellRead(row, 'B', 'F');
    SpellRead(col, 'R', 'L');
    assert entry == row + col;
  }

  // ---------------------------------------------------------------------
  // The two parts

  /** Every line is long enough for `split_at(7)`. */
  predicate Splittable(lines: seq<string>) {
    forall k :: 0 <= k < |lines| ==> |lines[k]| >= 7
  }

  /** The seat ID of every line. */
  function Seats(lines: seq<string>): (s: seq<nat>)
    requires Splittable(lines)
    ensures |s| == |lines|
    ensures forall k :: 0 <= k < |lines| ==> s[k] == SeatValue(lines[k])
  {
    seq(|lines|, k requires 0 <= k < |lines| => SeatValue(lines[k]))
  }

  /** `part1`: the highest seat ID. The source unwraps the maximum, so the
      list must not be empty. */
  function Part1(lines: seq<string>): (r: nat)
    requires lines != [] && Splittable(lines)
    ensures exists k :: 0 <= k < |lines| && r == SeatValue(lines[k])
    ensures forall k :: 0 <= k < |lines| ==> SeatValue(lines[k]) <= r
  {
    var seats := Seats(lines);
    MaxOf(seats)
  }

  /** The sum of 1 to n. */
  function Triangle(n: nat): nat {
    if n == 0 then 0 else Triangle(n - 1) + n
  }

  /** ... which is the `n * (n + 1) / 2` that `part2` computes. */
  lemma {:induction false} TriangleFormula(n: nat)
    ensures Triangle(n) == n * (n + 1) / 2
  {
    if n > 0 {
      TriangleFormula(n - 1);
      assert n * (n + 1) == (n - 1) * n + 2 * n;
    }
  }

  /** `part2`: the sum of 1 to the highest ID, less the IDs on the list,
      less the sum of 1 to the lowest ID minus one. The source unwraps the
      maximum and the minimum, so an empty list fails (`None`). */
  function Part2(lines: seq<string>): Option<nat>
    requires Splittable(lines)
  {
    if lines == [] then None else Gap(Seats(lines))
  }

  /** The formula of `part2` on the seat IDs. The source computes in
      unsigned integers, so a subtraction that would go below zero fails
      (`None`). */
  function Gap(seats: seq<nat>): Option<nat>
    requires seats != []
  {
    var max := MaxOf(seats);
    var min := MinOf(seats);
    var sum := Sum(seats);
    if min == 0 then None
    else if Triangle(max) < sum then None
    else if Triangle(max) - sum < Triangle(min - 1) then None
    else Some(Triangle(max) - sum - Triangle(min - 1))
  }

  /** The IDs `lo` to `hi - 1`. */
  function Range(lo: nat, hi: nat): (r: seq<nat>)
    requires lo <= hi
    ensures |r| == hi - lo
  {
    seq(hi - lo, i requires 0 <= i < hi - lo => lo + i)
  }

  /** The sum of `lo` to `hi` is the difference of two triangles. */
  lemma {:induction false} SumRange(lo: nat, hi: nat)
    requires 1 <= lo <= hi + 1
    ensures Sum(Range(lo, hi + 1)) + Triangle(lo - 1) == Triangle(hi)
    decreases hi
  {
    if lo == hi + 1 {
      assert Range(lo, hi + 1) == [];
    } else {
      assert Range(lo, hi + 1) == Range(lo, hi) + [hi];
      SumAppend(Range(lo, hi), [hi]);
      assert Sum([hi]) == hi;
      SumRange(lo, hi - 1);
    }
  }

  /** A list holding each ID from `lo` to `hi` once, in any order, sums
      to the difference of two triangles. */
  lemma PermutedRange(xs: seq<nat>, lo: nat, hi: nat)
    requires 1 <= lo <= hi + 1
    requires multiset(xs) == multiset(Range(lo, hi + 1))
    ensures Sum(xs) + Triangle(lo - 1) == Triangle(hi)
  {
    SumPermutation(xs, Range(lo, hi + 1));
    SumRange(lo, hi);
  }

  /** The formula, when none of its subtractions goes below zero. */
  lemma GapValue(seats: seq<nat>)
    requires seats != [] && MinOf(seats) >= 1
    requires Sum(seats) + Triangle(MinOf(seats) - 1) <= Triangle(MaxOf(seats))
    ensures Gap(seats) == Some(Triangle(MaxOf(seats)) - Sum(seats) - Triangle(MinOf(seats) - 1))
  {
  }

  /** The sum of a run of IDs with one missing. */
  lemma SumMissing(seats: seq<nat>, seat: nat, lo: nat, hi: nat)
    requires 1 <= lo <= hi + 1
    requires multiset(seats) + multiset{seat} == multiset(Range(lo, hi + 1))
    ensures Sum(seats) + seat + Triangle(lo - 1) == Triangle(hi)
  {
    assert multiset(seats + [seat]) == multiset(seats) + multiset{seat};
    PermutedRange(seats + [seat], lo, hi);
    SumAppend(seats, [seat]);
    assert Sum([seat]) == seat;
  }

  /** The puzzle's promise: when the IDs on the list are every ID from the
      lowest, `lo`, to the highest, `hi`, each once, except `seat`,
      `part2` finds `seat`. */
  lemma MissingSeat(seats: seq<nat>, seat: nat, lo: nat, hi: nat)
    requires seats != [] && lo == MinOf(seats) && hi == MaxOf(seats) && lo >= 1
    requires multiset(seats) + multiset{seat} == multiset(Range(lo, hi + 1))
    ensures Gap(seats) == Some(seat)
  {
    SumMissing(seats, seat, lo, hi);
    GapValue(seats);
  }

  /** ... and when no ID in the run is missing it answers 0. */
  lemma NoMissingSeat(seats: seq<nat>, lo: nat, hi: nat)
    requires seats != [] && lo == MinOf(seats) && hi == MaxOf(seats) && lo >= 1
    requires multiset(seats) == multiset(Range(lo, hi + 1))
    ensures Gap(seats) == Some(0)
  {
    PermutedRange(seats, lo, hi);
    GapValue(seats);
  }
}
