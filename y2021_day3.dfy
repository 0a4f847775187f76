// Binary Diagnostic: a report of binary numbers of `bitLen` bits. Part 1
// builds the gamma rate from the most common bit at each position and the
// epsilon rate from the least common; part 2 filters the report bit by bit,
// from the highest, down to the oxygen and CO2 ratings.

module BinaryDiagnostic {
  import opened Wrappers
  import opened Bits

  /** How many numbers of `v` have bit `i` set. */
  function Ones(v: seq<nat>, i: nat): (c: nat)
    ensures c <= |v|
  {
    if v == [] then 0 else Ones(v[..|v| - 1], i) + Bit(v[|v| - 1], i)
  }

  lemma OnesAppend(v: seq<nat>, x: nat, i: nat)
    ensures Ones(v + [x], i) == Ones(v, i) + Bit(x, i)
  {
    assert (v + [x])[..|v|] == v;
  }

  /** The fold of `part1`: one counter per bit position, each number adding
      its bits. */
  function CountBits(v: seq<nat>, bitLen: nat): (acc: seq<nat>)
    ensures |acc| == bitLen
  {
    if v == [] then seq(bitLen, i => 0)
    else
      var prev := CountBits(v[..|v| - 1], bitLen);
      seq(bitLen, i requires 0 <= i < bitLen => prev[i] + Bit(v[|v| - 1], i))
  }

  /** Each counter of the fold is the number of ones at its position. */
  lemma {:induction false} CountBitsOnes(v: seq<nat>, bitLen: nat)
    ensures forall i :: 0 <= i < bitLen ==> CountBits(v, bitLen)[i] == Ones(v, i)
  {
    if v != [] {
      CountBitsOnes(v[..|v| - 1], bitLen);
    }
  }

  /** The most common bit at position `i`, ties going to 1. */
  function MostCommon(v: seq<nat>, i: nat): (b: nat)
    ensures b < 2
    ensures b == 1 <==> Ones(v, i) >= |v| - Ones(v, i)
  {
    if 2 * Ones(v, i) >= |v| then 1 else 0
  }

  /** The gamma rate as written: bit `i` is set when the counter reaches
      `input_len / 2`, rounded down. */
  function GammaAsWritten(v: seq<nat>, bitLen: nat): (g: nat)
    ensures g < Pow2(bitLen)
  {
    var counts := CountBits(v, bitLen);
    FromBits(seq(bitLen, i requires 0 <= i < bitLen => if counts[i] >= |v| / 2 then 1 else 0))
  }

  /** The gamma rate as intended: bit `i` is the most common bit. */
  function Gamma(v: seq<nat>, bitLen: nat): (g: nat)
    ensures g < Pow2(bitLen)
  {
    var counts := CountBits(v, bitLen);
    FromBits(seq(bitLen, i requires 0 <= i < bitLen => if 2 * counts[i] >= |v| then 1 else 0))
  }

  /** `!g & ((1 << bit_len) - 1)`: the low `bitLen` bits of `g`, flipped. */
  function Epsilon(g: nat, bitLen: nat): (e: nat)
    requires g < Pow2(bitLen)
    ensures e < Pow2(bitLen)
  {
    Pow2(bitLen) - 1 - g
  }

  /** `part1` as written. */
  function Part1AsWritten(v: seq<nat>, bitLen: nat): nat {
    var g := GammaAsWritten(v, bitLen);
    g * Epsilon(g, bitLen)
  }

  /** `part1` with the intended gamma rate. */
  function Part1(v: seq<nat>, bitLen: nat): nat {
    var g := Gamma(v, bitLen);
    g * Epsilon(g, bitLen)
  }

  /** Gamma's bit `i` is the most common bit at `i` and epsilon's the least
      common; neither has bits above `bitLen`. */
  lemma GammaEpsilonBits(v: seq<nat>, bitLen: nat, i: nat)
    ensures Bit(Gamma(v, bitLen), i) == if i < bitLen then MostCommon(v, i) else 0
    ensures Bit(Epsilon(Gamma(v, bitLen), bitLen), i) == if i < bitLen then 1 - MostCommon(v, i) else 0
  {
    var counts := CountBits(v, bitLen);
    CountBitsOnes(v, bitLen);
    var bs := seq(bitLen, k requires 0 <= k < bitLen => if 2 * counts[k] >= |v| then 1 else 0);
    FromBitsBit(bs, i);
    var g := Gamma(v, bitLen);
    if i < bitLen {
      BitComplement(g, bitLen, i);
    } else {
      BitBelow(Epsilon(g, bitLen), bitLen, i);
    }
  }

  /** The as-written gamma's bit `i` is set exactly when at least
      `input_len / 2`, rounded down, of the numbers have bit `i` set. */
  lemma GammaAsWrittenBits(v: seq<nat>, bitLen: nat, i: nat)
    ensures Bit(GammaAsWritten(v, bitLen), i) == if i < bitLen && Ones(v, i) >= |v| / 2 then 1 else 0
  {
    var counts := CountBits(v, bitLen);
    CountBitsOnes(v, bitLen);
    var bs := seq(bitLen, k requires 0 <= k < bitLen => if counts[k] >= |v| / 2 then 1 else 0);
    FromBitsBit(bs, i);
  }

  /** The counters for the three numbers 01, 01 and 10. */
  lemma CountsOfExample()
    ensures CountBits([1, 1, 2], 2) == [2, 1]
  {
    var v: seq<nat> := [1, 1, 2];
    assert Bit(1, 1) == 0 && Bit(2, 1) == 1 && Bit(1, 0) == 1 && Bit(2, 0) == 0;
    CountBitsOnes(v, 2);
    assert v[..2] == [1, 1] && v[..2][..1] == [1] && v[..2][..1][..0] == [];
    assert Ones(v, 0) == 2 && Ones(v, 1) == 1;
    var c := CountBits(v, 2);
    assert c[0] == 2 && c[1] == 1;
  }

  /** With three numbers 01, 01 and 10, bit 1 is set in only one of them,
      yet the as-written gamma rate sets it (1 >= 3 / 2): `part1` gives 0
      where the most common bits give gamma 01, epsilon 10 and 2. */
  lemma OddLengthGamma()
    ensures Ones([1, 1, 2], 1) == 1 && Bit(GammaAsWritten([1, 1, 2], 2), 1) == 1
    ensures Part1AsWritten([1, 1, 2], 2) == 0
    ensures Part1([1, 1, 2], 2) == 2
  {
    var v: seq<nat> := [1, 1, 2];
    CountsOfExample();
    CountBitsOnes(v, 2);
    var bw: seq<nat> := [1, 1];
    var bi: seq<nat> := [1, 0];
    assert seq(2, k requires 0 <= k < 2 => if CountBits(v, 2)[k] >= |v| / 2 then 1 else 0) == bw;
    assert seq(2, k requires 0 <= k < 2 => if 2 * CountBits(v, 2)[k] >= |v| then 1 else 0) == bi;
    assert FromBits(bw) == 3 by {
      assert bw[1..] == [1] && bw[1..][1..] == [];
    }
    assert FromBits(bi) == 1 by {
      assert bi[1..] == [0] && bi[1..][1..] == [];
    }
    assert Bit(3, 1) == 1;
  }

  // ---------------------------------------------------------------------
  // Part 2
  // ---------------------------------------------------------------------

  /** The numbers of `v` whose bit `i` differs from `flag`, in order. */
  function Unremoved(v: seq<nat>, i: nat, flag: nat): (r: seq<nat>)
    ensures |r| <= |v|
  {
    if v == [] then []
    else Unremoved(v[..|v| - 1], i, flag) + (if Bit(v[|v| - 1], i) == flag then [] else [v[|v| - 1]])
  }

  lemma UnremovedStep(v: seq<nat>, n: nat, i: nat, flag: nat)
    requires n < |v|
    ensures Unremoved(v[..n + 1], i, flag)
         == Unremoved(v[..n], i, flag) + (if Bit(v[n], i) == flag then [] else [v[n]])
  {
    assert v[..n + 1][..n] == v[..n];
  }

  /** A number stays exactly when it was there and its bit `i` is not
      `flag`. */
  lemma {:induction false} UnremovedMembers(v: seq<nat>, i: nat, flag: nat, x: nat)
    ensures x in Unremoved(v, i, flag) <==> x in v && Bit(x, i) != flag
  {
    if v != [] {
      var init := v[..|v| - 1];
      UnremovedMembers(init, i, flag, x);
      assert v == init + [v[|v| - 1]];
    }
  }

  /** The numbers removed and those kept add up to the whole list. */
  lemma {:induction false} UnremovedCount(v: seq<nat>, i: nat)
    ensures |Unremoved(v, i, 1)| == |v| - Ones(v, i)
    ensures |Unremoved(v, i, 0)| == Ones(v, i)
  {
    if v != [] {
      UnremovedCount(v[..|v| - 1], i);
    }
  }

  /** `remove_unworthy`: removes, in place, every number whose bit `i`
      equals `flag`, keeping the others in order. */
  method RemoveUnworthy(vec: seq<nat>, i: nat, flag: bool) returns (r: seq<nat>)
    ensures r == Unremoved(vec, i, if flag then 1 else 0)
  {
    var f := if flag then 1 else 0;
    r := vec;
    var j := 0;
    ghost var done := 0;
    while j < |r|
      invariant done <= |vec| && j <= |r|
      invariant r[..j] == Unremoved(vec[..done], i, f)
      invariant r[j..] == vec[done..]
      decreases |r| - j
    {
      assert r[j] == vec[done] by {
        assert r[j..][0] == vec[done..][0];
      }
      UnremovedStep(vec, done, i, f);
      ghost var before := r;
      if (Bit(r[j], i) == 1) == flag {
        r := r[..j] + r[j + 1..];
        assert r[..j] == before[..j];
        assert r[j..] == before[j + 1..] == before[j..][1..];
      } else {
        j := j + 1;
        assert r[..j] == before[..j - 1] + [vec[done]];
        assert r[j..] == before[j - 1..][1..];
      }
      done := done + 1;
    }
    assert vec[..done] == vec by {
      assert |r[j..]| == 0;
    }
  }

  /** The bit value that the step at position `i` removes: the least
      common bit for oxygen (so the most common stays, ties keeping 1), the
      most common for CO2 (so the least common stays, ties keeping 0). */
  function RemovedBit(v: seq<nat>, i: nat, oxygen: bool): (b: nat)
    ensures oxygen ==> b == 1 - MostCommon(v, i)
    ensures !oxygen ==> b == MostCommon(v, i)
  {
    var flag := Ones(v, i) >= (|v| + 1) / 2;
    if oxygen then (if flag then 0 else 1) else (if flag then 1 else 0)
  }

  /** The scan of `part2` from bit `k - 1` down: each step removes the
      unworthy numbers and yields the first number left; the scan stops
      once none is left, and the last number yielded is the rating. */
  function RatingFrom(v: seq<nat>, k: nat, oxygen: bool, last: Option<nat>): Option<nat>
    decreases k
  {
    if k == 0 then last
    else
      var kept := Unremoved(v, k - 1, RemovedBit(v, k - 1, oxygen));
      if kept == [] then last else RatingFrom(kept, k - 1, oxygen, Some(kept[0]))
  }

  function Rating(v: seq<nat>, bitLen: nat, oxygen: bool): Option<nat> {
    RatingFrom(v, bitLen, oxygen, None)
  }

  /** The CO2 filter empties the list exactly when every number shares
      bit `i`: then the scan stops and `part2` keeps the number it had. */
  lemma CO2EmptiesWhenUnanimous(v: seq<nat>, i: nat)
    ensures Unremoved(v, i, RemovedBit(v, i, false)) == [] <==> forall x :: x in v ==> Bit(x, i) == MostCommon(v, i)
  {
    var f := RemovedBit(v, i, false);
    forall x {
      UnremovedMembers(v, i, f, x);
    }
    if Unremoved(v, i, f) != [] {
      var x := Unremoved(v, i, f)[0];
      UnremovedMembers(v, i, f, x);
    }
  }

  /** The oxygen filter never empties a non-empty list: the most common
      bit is always present. */
  lemma OxygenKeepsSome(v: seq<nat>, i: nat)
    requires v != []
    ensures Unremoved(v, i, RemovedBit(v, i, true)) != []
  {
    UnremovedCount(v, i);
  }

  /** One oxygen step of the scan: something is left and the scan goes on. */
  lemma OxygenStep(v: seq<nat>, k: nat, last: Option<nat>) returns (kept: seq<nat>)
    requires v != [] && k >= 1
    ensures kept == Unremoved(v, k - 1, RemovedBit(v, k - 1, true)) && kept != []
    ensures RatingFrom(v, k, true, last) == RatingFrom(kept, k - 1, true, Some(kept[0]))
  {
    kept := Unremoved(v, k - 1, RemovedBit(v, k - 1, true));
    OxygenKeepsSome(v, k - 1);
  }

  /** The rating is a number of the report. */
  lemma {:induction false} RatingFromMember(v: seq<nat>, k: nat, oxygen: bool, last: Option<nat>, report: seq<nat>)
    requires forall x :: x in v ==> x in report
    requires last.Some? ==> last.value in report
    ensures RatingFrom(v, k, oxygen, last).Some? ==> RatingFrom(v, k, oxygen, last).value in report
    decreases k
  {
    if k > 0 {
      var f := RemovedBit(v, k - 1, oxygen);
      var kept := Unremoved(v, k - 1, f);
      forall x | x in kept ensures x in report {
        UnremovedMembers(v, k - 1, f, x);
      }
      if kept != [] {
        RatingFromMember(kept, k - 1, oxygen, Some(kept[0]), report);
      }
    }
  }

  /** With a non-empty report and at least one bit, the oxygen rating
      exists, so its `unwrap` does not fail. */
  lemma {:induction false} OxygenExists(v: seq<nat>, k: nat, last: Option<nat>)
    requires v != [] && (k >= 1 || last.Some?)
    ensures RatingFrom(v, k, true, last).Some?
    decreases k
  {
    if k > 0 {
      var kept := OxygenStep(v, k, last);
      OxygenExists(kept, k - 1, Some(kept[0]));
    }
  }

  /** One rating of `part2`: the scan over the bits from the highest. */
  method FindRating(v: seq<nat>, bitLen: nat, oxygen: bool) returns (r: Option<nat>)
    ensures r == Rating(v, bitLen, oxygen)
  {
    var list := v;
    r := None;
    var k: nat := bitLen;
    while k > 0
      invariant k <= bitLen
      invariant RatingFrom(list, k, oxygen, r) == Rating(v, bitLen, oxygen)
    {
      var i := k - 1;
      var flag := Ones(list, i) >= (|list| + 1) / 2;
      ghost var before := list;
      assert (if (if oxygen then !flag else flag) then 1 else 0) == RemovedBit(list, i, oxygen);
      list := RemoveUnworthy(list, i, if oxygen then !flag else flag);
      assert list == Unremoved(before, k - 1, RemovedBit(before, k - 1, oxygen));
      if list == [] {
        return;
      }
      r := Some(list[0]);
      k := k - 1;
    }
  }

  /** `part2`: the product of the two ratings; `None` where an `unwrap`
      fails. Both ratings are numbers of the report, and the oxygen rating
      always exists for a non-empty report of at least one bit. */
  method Part2(v: seq<nat>, bitLen: nat) returns (r: Option<nat>)
    ensures r.Some? <==> Rating(v, bitLen, true).Some? && Rating(v, bitLen, false).Some?
    ensures r.Some? ==> r.value == Rating(v, bitLen, true).value * Rating(v, bitLen, false).value
    ensures r.Some? ==> Rating(v, bitLen, true).value in v && Rating(v, bitLen, false).value in v
    ensures v != [] && bitLen >= 1 ==> Rating(v, bitLen, true).Some?
  {
    var oxy := FindRating(v, bitLen, true);
    var co2 := FindRating(v, bitLen, false);
    RatingFromMember(v, bitLen, true, None, v);
    RatingFromMember(v, bitLen, false, None, v);
    if v != [] && bitLen >= 1 {
      OxygenExists(v, bitLen, None);
    }
    if oxy.Some? && co2.Some? {
      r := Some(oxy.value * co2.value);
    } else {
      r := None;
    }
  }
}
