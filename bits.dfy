// Bits of natural numbers, shared by the puzzles that work on binary
// numbers.

module Bits {
  /** 2 to the power `e`. */
  function Pow2(e: nat): (p: nat)
    ensures p >= 1
  {
    if e == 0 then 1 else 2 * Pow2(e - 1)
  }

  /** Bit `j` of `n`, counting from the least significant. */
  function Bit(n: nat, j: nat): (b: nat)
    ensures b < 2
  {
    if j == 0 then n % 2 else Bit(n / 2, j - 1)
  }

  lemma {:induction false} BitZero(j: nat)
    ensures Bit(0, j) == 0
  {
    if j > 0 {
      BitZero(j - 1);
    }
  }

  /** A number below 2^e has no bit set at `e` or above. */
  lemma {:induction false} BitBelow(y: nat, e: nat, j: nat)
    requires y < Pow2(e) && e <= j
    ensures Bit(y, j) == 0
  {
    if e == 0 {
      BitZero(j);
    } else if j > 0 {
      BitBelow(y / 2, e - 1, j - 1);
    }
  }

  /** Adding 2^e to a number below 2^e sets bit `e` and keeps every
      other bit. */
  lemma {:induction false} BitPlus(y: nat, e: nat, j: nat)
    requires y < Pow2(e)
    ensures Bit(y + Pow2(e), j) == if j == e then 1 else Bit(y, j)
  {
    if e == 0 {
      assert y == 0;
      if j > 0 {
        BitZero(j - 1);
      }
    } else if j > 0 {
      assert (y + Pow2(e)) / 2 == y / 2 + Pow2(e - 1);
      BitPlus(y / 2, e - 1, j - 1);
    }
  }

  /** Below 2^(e+1), bit `e` is set exactly from 2^e on. */
  lemma BitTop(y: nat, e: nat)
    requires y < Pow2(e + 1)
    ensures Bit(y, e) == 1 <==> y >= Pow2(e)
  {
    if y >= Pow2(e) {
      BitPlus(y - Pow2(e), e, e);
    } else {
      BitBelow(y, e, e);
    }
  }

  /** Below 2^L, subtracting from 2^L - 1 flips each of the low `L` bits. */
  lemma {:induction false} BitComplement(g: nat, l: nat, i: nat)
    requires g < Pow2(l) && i < l
    ensures Bit(Pow2(l) - 1 - g, i) == 1 - Bit(g, i)
  {
    var q, r := g / 2, g % 2;
    assert Pow2(l) - 1 - g == 2 * (Pow2(l - 1) - 1 - q) + (1 - r);
    if i > 0 {
      BitComplement(q, l - 1, i - 1);
    }
  }

  /** The number whose bits, lowest first, are `bs` (each 0 or 1). */
  function FromBits(bs: seq<nat>): (n: nat)
    requires forall i :: 0 <= i < |bs| ==> bs[i] < 2
    ensures n < Pow2(|bs|)
  {
    if bs == [] then 0 else bs[0] + 2 * FromBits(bs[1..])
  }

  /** Bit `i` of `FromBits(bs)` is `bs[i]`, and 0 past its end. */
  lemma {:induction false} FromBitsBit(bs: seq<nat>, i: nat)
    requires forall k :: 0 <= k < |bs| ==> bs[k] < 2
    ensures Bit(FromBits(bs), i) == if i < |bs| then bs[i] else 0
  {
    if bs == [] {
      BitZero(i);
    } else if i > 0 {
      FromBitsBit(bs[1..], i - 1);
    }
  }
}
