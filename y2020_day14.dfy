// Docking Data: groups of memory writes, each group under a 36-character
// mask of '0', '1' and 'X'. Part 1 masks the written values; part 2 masks
// the addresses, every 'X' floating to both bit values. The answer is the
// sum of all values left in memory.

module DockingData {
  import opened Bits

  // ---------------------------------------------------------------------
  // Bits and binary strings
  // ---------------------------------------------------------------------

  predicate IsBinary(s: string) {
    forall i :: 0 <= i < |s| ==> s[i] == '0' || s[i] == '1'
  }

  /** `usize::from_str_radix(s, 2)`. */
  function FromBinary(s: string): nat
    requires IsBinary(s)
  {
    if s == [] then 0 else 2 * FromBinary(s[..|s| - 1]) + (if s[|s| - 1] == '1' then 1 else 0)
  }

  /** `format!("{:b}", n)`: the binary digits of `n` without leading zeros. */
  function Binary(n: nat): (s: string)
    ensures |s| >= 1 && IsBinary(s) && FromBinary(s) == n
    ensures s[0] == '1' || s == "0"
  {
    var d := if n % 2 == 1 then '1' else '0';
    if n < 2 then [d]
    else
      var s := Binary(n / 2) + [d];
      assert s[..|s| - 1] == Binary(n / 2);
      s
  }

  lemma {:induction false} LeadingOne(s: string)
    requires IsBinary(s) && |s| >= 1 && s[0] == '1'
    ensures FromBinary(s) >= Pow2(|s| - 1)
  {
    if |s| > 1 {
      LeadingOne(s[..|s| - 1]);
    }
  }

  /** Reading a binary string without leading zeros and writing it back
      gives the same string. */
  lemma {:induction false} BinaryRoundTrip(s: string)
    requires IsBinary(s) && |s| >= 1 && (s[0] == '1' || s == "0")
    ensures Binary(FromBinary(s)) == s
  {
    if |s| > 1 {
      var init := s[..|s| - 1];
      var v := FromBinary(s);
      LeadingOne(s);
      assert Pow2(|s| - 1) >= 2;
      FromBinaryLast(s);
      assert init[0] == '1';
      BinaryRoundTrip(init);
      var d := if v % 2 == 1 then '1' else '0';
      assert d == s[|s| - 1];
      assert Binary(v) == Binary(v / 2) + [d];
      assert s == init + [s[|s| - 1]];
    }
  }

  /** `s.chars().rev().nth(j)` read as a bit: past the end of the string
      nothing is added, which reads as 0. */
  function BitAt(s: string, j: nat): (b: nat)
    ensures b < 2
  {
    if j < |s| && s[|s| - 1 - j] == '1' then 1 else 0
  }

  /** The last digit of a binary string is its lowest bit; the others
      spell the rest. */
  lemma FromBinaryLast(s: string)
    requires IsBinary(s) && s != []
    ensures IsBinary(s[..|s| - 1])
    ensures FromBinary(s) / 2 == FromBinary(s[..|s| - 1])
    ensures FromBinary(s) % 2 == if s[|s| - 1] == '1' then 1 else 0
  {
    var n, d := FromBinary(s[..|s| - 1]), (if s[|s| - 1] == '1' then 1 else 0);
    assert FromBinary(s) == 2 * n + d;
  }

  /** Reading bit `j` of a binary string is bit `j` of the number it
      spells. */
  lemma {:induction false} BitAtFromBinary(s: string, j: nat)
    requires IsBinary(s)
    ensures BitAt(s, j) == Bit(FromBinary(s), j)
  {
    if s == [] {
      BitZero(j);
    } else {
      var init := s[..|s| - 1];
      FromBinaryLast(s);
      if j > 0 {
        BitAtFromBinary(init, j - 1);
        if j < |s| {
          assert init[|init| - 1 - (j - 1)] == s[|s| - 1 - j];
        }
      }
    }
  }

  // ---------------------------------------------------------------------
  // Part 1: masking values
  // ---------------------------------------------------------------------

  predicate IsMask(m: string) {
    forall i :: 0 <= i < |m| ==> m[i] == '0' || m[i] == '1' || m[i] == 'X'
  }

  /** The mask character that governs bit `j`. */
  function MaskChar(m: string, j: nat): char
    requires j < |m|
  {
    m[|m| - 1 - j]
  }

  /** Bit `j` of a masked value: forced by '1' and '0', copied from `v`
      under 'X'. */
  function MaskBitValue(m: string, v: nat, j: nat): (b: nat)
    requires j < |m|
    ensures b < 2
  {
    var c := MaskChar(m, j);
    if c == '1' then 1 else if c == 'X' then Bit(v, j) else 0
  }

  /** The masked value's bits from `j` up, shifted down by `j`. */
  function MaskedFrom(m: string, v: nat, j: nat): nat
    decreases |m| - j
  {
    if j >= |m| then 0 else MaskBitValue(m, v, j) + 2 * MaskedFrom(m, v, j + 1)
  }

  /** The value `apply_mask` writes for the value `v`. */
  function Masked(m: string, v: nat): nat {
    MaskedFrom(m, v, 0)
  }

  lemma {:induction false} MaskedFromBits(m: string, v: nat, i: nat, j: nat)
    requires i <= |m|
    ensures Bit(MaskedFrom(m, v, i), j) == if i + j < |m| then MaskBitValue(m, v, i + j) else 0
    decreases j
  {
    if i == |m| {
      BitZero(j);
    } else if j > 0 {
      MaskedFromBits(m, v, i + 1, j - 1);
    }
  }

  lemma {:induction false} MaskedFromBound(m: string, v: nat, i: nat)
    requires i <= |m|
    ensures MaskedFrom(m, v, i) < Pow2(|m| - i)
    decreases |m| - i
  {
    if i < |m| {
      MaskedFromBound(m, v, i + 1);
    }
  }

  /** `apply_mask` sets the bits under '1', clears those under '0', copies
      the value's bit under 'X', and leaves nothing above the mask. */
  lemma MaskedBits(m: string, v: nat, j: nat)
    ensures Masked(m, v) < Pow2(|m|)
    ensures Bit(Masked(m, v), j) ==
      if j >= |m| then 0
      else if MaskChar(m, j) == '1' then 1
      else if MaskChar(m, j) == 'X' then Bit(v, j)
      else 0
  {
    MaskedFromBits(m, v, 0, j);
    MaskedFromBound(m, v, 0);
  }

  lemma MaskedStep(m: string, v: nat, exp: nat)
    requires exp < |m|
    ensures Pow2(exp) * MaskedFrom(m, v, exp)
      == Pow2(exp) * MaskBitValue(m, v, exp) + Pow2(exp + 1) * MaskedFrom(m, v, exp + 1)
  {
    var b, rest := MaskBitValue(m, v, exp), MaskedFrom(m, v, exp + 1);
    assert Pow2(exp) * (b + 2 * rest) == Pow2(exp) * b + (2 * Pow2(exp)) * rest;
  }

  /** The inner loop of `apply_mask`: adds 2^exp for every bit of the
      result that is set, lowest bit first. */
  method MaskValue(mask: string, given: string) returns (value: nat)
    requires IsMask(mask) && IsBinary(given)
    ensures value == Masked(mask, FromBinary(given))
  {
    value := 0;
    var exp := 0;
    while exp < |mask|
      invariant exp <= |mask|
      invariant value + Pow2(exp) * MaskedFrom(mask, FromBinary(given), exp) == Masked(mask, FromBinary(given))
    {
      var c := mask[|mask| - 1 - exp];
      BitAtFromBinary(given, exp);
      MaskedStep(mask, FromBinary(given), exp);
      ghost var b := MaskBitValue(mask, FromBinary(given), exp);
      ghost var before := value;
      if c == '1' {
        value := value + Pow2(exp);
      } else if c == 'X' {
        if exp < |given| && given[|given| - 1 - exp] == '1' {
          value := value + Pow2(exp);
        }
      }
      assert value == before + Pow2(exp) * b;
      exp := exp + 1;
    }
  }

  // ---------------------------------------------------------------------
  // Part 2: floating addresses
  // ---------------------------------------------------------------------

  function AddToAll(s: seq<nat>, p: nat): (r: seq<nat>)
    ensures |r| == |s| && forall i :: 0 <= i < |s| ==> r[i] == s[i] + p
  {
    seq(|s|, i requires 0 <= i < |s| => s[i] + p)
  }

  /** The addresses `apply_mask_v2` has built once the bits below `e` are
      processed: '1' adds 2^(e-1) to every address, '0' adds it when the
      written address has that bit, 'X' keeps every address and adds a
      copy with the bit set. */
  function AddressesUpTo(m: string, mem: nat, e: nat): seq<nat>
    requires e <= |m|
  {
    if e == 0 then [0]
    else
      var prev := AddressesUpTo(m, mem, e - 1);
      var c := MaskChar(m, e - 1);
      var p := Pow2(e - 1);
      if c == '1' then AddToAll(prev, p)
      else if c == 'X' then prev + AddToAll(prev, p)
      else if Bit(mem, e - 1) == 1 then AddToAll(prev, p)
      else prev
  }

  function Addresses(m: string, mem: nat): seq<nat> {
    AddressesUpTo(m, mem, |m|)
  }

  /** The number of 'X' among the mask characters for bits below `e`. */
  function CountX(m: string, e: nat): nat
    requires e <= |m|
  {
    if e == 0 then 0 else CountX(m, e - 1) + (if MaskChar(m, e - 1) == 'X' then 1 else 0)
  }

  /** Every 'X' doubles the addresses: there are 2^(number of X). */
  lemma {:induction false} AddressesCount(m: string, mem: nat, e: nat)
    requires e <= |m|
    ensures |AddressesUpTo(m, mem, e)| == Pow2(CountX(m, e))
  {
    if e > 0 {
      AddressesCount(m, mem, e - 1);
    }
  }

  /** Bit `j` of an address fits the mask: set under '1', the written
      address's bit under '0', either under 'X'. */
  predicate Fits(m: string, mem: nat, y: nat, j: nat)
    requires j < |m|
  {
    var c := MaskChar(m, j);
    (c == '1' ==> Bit(y, j) == 1) && (c == '0' ==> Bit(y, j) == Bit(mem, j))
  }

  predicate FitsBelow(m: string, mem: nat, y: nat, e: nat)
    requires e <= |m|
  {
    y < Pow2(e) && forall j :: 0 <= j < e ==> Fits(m, mem, y, j)
  }

  /** An address built from the bits below `e` keeps its bits when 2^e is
      added, and gains bit `e`. */
  lemma FitsPlus(m: string, mem: nat, y: nat, e: nat, z: nat)
    requires e < |m| && FitsBelow(m, mem, y, e) && z == y + Pow2(e)
    ensures forall j :: 0 <= j < e ==> Fits(m, mem, z, j)
    ensures Bit(z, e) == 1 && Bit(y, e) == 0 && z < Pow2(e + 1)
  {
    forall j | 0 <= j < e ensures Fits(m, mem, z, j) {
      BitPlus(y, e, j);
      assert Fits(m, mem, y, j);
    }
    BitPlus(y, e, e);
    BitBelow(y, e, e);
  }

  /** Every address built fits the mask. */
  lemma {:induction false} AddressesSound(m: string, mem: nat, e: nat, x: nat)
    requires e <= |m| && x in AddressesUpTo(m, mem, e)
    ensures FitsBelow(m, mem, x, e)
  {
    if e > 0 {
      var prev := AddressesUpTo(m, mem, e - 1);
      var p := Pow2(e - 1);
      var c := MaskChar(m, e - 1);
      var shifted := AddToAll(prev, p);
      var setsBit := c == '1' || (c != 'X' && Bit(mem, e - 1) == 1);
      if (c == 'X' || !setsBit) && x in prev {
        AddressesSound(m, mem, e - 1, x);
        FitsPlus(m, mem, x, e - 1, x + p);
        assert Fits(m, mem, x, e - 1);
      } else {
        assert x in shifted;
        var i :| 0 <= i < |prev| && x == shifted[i];
        AddressesSound(m, mem, e - 1, prev[i]);
        FitsPlus(m, mem, prev[i], e - 1, x);
        assert Fits(m, mem, x, e - 1);
      }
    }
  }

  /** Every address that fits the mask is built. */
  lemma {:induction false} AddressesComplete(m: string, mem: nat, e: nat, y: nat)
    requires IsMask(m) && e <= |m| && FitsBelow(m, mem, y, e)
    ensures y in AddressesUpTo(m, mem, e)
  {
    if e == 0 {
      assert y == 0;
    } else {
      var prev := AddressesUpTo(m, mem, e - 1);
      var p := Pow2(e - 1);
      BitTop(y, e - 1);
      var c := MaskChar(m, e - 1);
      assert Fits(m, mem, y, e - 1);
      if y < p {
        assert FitsBelow(m, mem, y, e - 1);
        AddressesComplete(m, mem, e - 1, y);
        var i :| 0 <= i < |prev| && prev[i] == y;
        if c == 'X' {
          assert (prev + AddToAll(prev, p))[i] == y;
        }
      } else {
        var z: nat := y - p;
        forall j | 0 <= j < e - 1 ensures Fits(m, mem, z, j) {
          BitPlus(z, e - 1, j);
          assert Fits(m, mem, y, j);
        }
        assert FitsBelow(m, mem, z, e - 1);
        AddressesComplete(m, mem, e - 1, z);
        var i :| 0 <= i < |prev| && prev[i] == z;
        assert AddToAll(prev, p)[i] == y;
        if c == 'X' {
          assert (prev + AddToAll(prev, p))[|prev| + i] == y;
        }
      }
    }
  }

  /** The addresses `apply_mask_v2` writes are exactly those that fit the
      mask. */
  lemma AddressesExactly(m: string, mem: nat, y: nat)
    requires IsMask(m)
    ensures y in Addresses(m, mem) <==> FitsBelow(m, mem, y, |m|)
  {
    if y in Addresses(m, mem) {
      AddressesSound(m, mem, |m|, y);
    }
    if FitsBelow(m, mem, y, |m|) {
      AddressesComplete(m, mem, |m|, y);
    }
  }

  /** The inner loop of `apply_mask_v2` that builds the floating
      addresses, lowest bit first. */
  method FloatingAddresses(mask: string, memIndex: string) returns (value: seq<nat>)
    requires IsMask(mask) && IsBinary(memIndex)
    ensures value == Addresses(mask, FromBinary(memIndex))
  {
    value := [0];
    var exp := 0;
    while exp < |mask|
      invariant exp <= |mask|
      invariant value == AddressesUpTo(mask, FromBinary(memIndex), exp)
    {
      var c := mask[|mask| - 1 - exp];
      BitAtFromBinary(memIndex, exp);
      if c == '1' {
        value := AddToAll(value, Pow2(exp));
      } else if c == '0' {
        if exp < |memIndex| && memIndex[|memIndex| - 1 - exp] == '1' {
          value := AddToAll(value, Pow2(exp));
        }
      } else {
        var clone := AddToAll(value, Pow2(exp));
        value := value + clone;
      }
      exp := exp + 1;
    }
  }

  // ---------------------------------------------------------------------
  // Memory: later writes overwrite earlier ones
  // ---------------------------------------------------------------------

  /** The writes `ms` applied in order on top of `base`, each a map from
      address to value. */
  function Overlay(base: map<nat, nat>, ms: seq<map<nat, nat>>): map<nat, nat> {
    if ms == [] then base else Overlay(base, ms[..|ms| - 1]) + ms[|ms| - 1]
  }

  lemma OverlayAppend(base: map<nat, nat>, ms: seq<map<nat, nat>>, m: map<nat, nat>)
    ensures Overlay(base, ms + [m]) == Overlay(base, ms) + m
  {
    assert (ms + [m])[..|ms|] == ms;
  }

  /** An address holds the value of the last write to it, or its value in
      `base` when nothing writes it. */
  lemma {:induction false} OverlayLast(base: map<nat, nat>, ms: seq<map<nat, nat>>, a: nat)
    ensures a in Overlay(base, ms) <==> a in base || exists i :: 0 <= i < |ms| && a in ms[i]
    ensures forall i :: 0 <= i < |ms| && a in ms[i] && (forall j :: i < j < |ms| ==> a !in ms[j]) ==>
      a in Overlay(base, ms) && Overlay(base, ms)[a] == ms[i][a]
    ensures a in base && (forall i :: 0 <= i < |ms| ==> a !in ms[i]) ==> Overlay(base, ms)[a] == base[a]
  {
    if ms != [] {
      var init := ms[..|ms| - 1];
      OverlayLast(base, init, a);
      assert forall i :: 0 <= i < |init| ==> init[i] == ms[i];
    }
  }

  datatype MaskType = P1 | P2

  /** A parsed group: the mask and its writes, address and value in
      binary. */
  datatype Group = Group(mask: string, pairs: seq<(string, string)>)

  predicate ValidGroup(g: Group) {
    IsMask(g.mask) && forall i :: 0 <= i < |g.pairs| ==> IsBinary(g.pairs[i].0) && IsBinary(g.pairs[i].1)
  }

  /** Part 1's writes of a group: each pair writes the masked value. */
  function WritesV1(g: Group): (ws: seq<map<nat, nat>>)
    requires ValidGroup(g)
    ensures |ws| == |g.pairs|
  {
    seq(|g.pairs|, i requires 0 <= i < |g.pairs| =>
      map[FromBinary(g.pairs[i].0) := Masked(g.mask, FromBinary(g.pairs[i].1))])
  }

  /** All of `addrs` written with `v`. */
  function WriteAll(addrs: seq<nat>, v: nat): map<nat, nat> {
    map x | x in addrs :: v
  }

  /** Part 2's writes of a group: each pair writes its value to every
      floating address. */
  function WritesV2(g: Group): (ws: seq<map<nat, nat>>)
    requires ValidGroup(g)
    ensures |ws| == |g.pairs|
  {
    seq(|g.pairs|, i requires 0 <= i < |g.pairs| =>
      WriteAll(Addresses(g.mask, FromBinary(g.pairs[i].0)), FromBinary(g.pairs[i].1)))
  }

  function Writes(g: Group, mt: MaskType): seq<map<nat, nat>>
    requires ValidGroup(g)
  {
    if mt == P1 then WritesV1(g) else WritesV2(g)
  }

  /** Inserts `v` at every address of `addrs`, in order. */
  method InsertAll(memory: map<nat, nat>, addrs: seq<nat>, v: nat) returns (r: map<nat, nat>)
    ensures r == memory + WriteAll(addrs, v)
  {
    r := memory;
    for k := 0 to |addrs|
      invariant r == memory + WriteAll(addrs[..k], v)
    {
      assert memory + WriteAll(addrs[..k + 1], v) == (memory + WriteAll(addrs[..k], v))[addrs[k] := v];
      r := r[addrs[k] := v];
    }
    assert addrs[..|addrs|] == addrs;
  }

  class Mask {
    const maskString: string
    const memValuePairs: seq<(string, string)>
    var calculated: map<nat, nat>

    /** `Mask::new`: no writes computed yet. */
    constructor (maskString: string, memValuePairs: seq<(string, string)>)
      ensures this.maskString == maskString && this.memValuePairs == memValuePairs
      ensures calculated == map[]
    {
      this.maskString := maskString;
      this.memValuePairs := memValuePairs;
      calculated := map[];
    }

    function AsGroup(): Group {
      Group(maskString, memValuePairs)
    }

    /** `apply_mask`: inserts each pair's masked value at its address, in
        order. */
    method ApplyMask()
      requires ValidGroup(AsGroup())
      modifies this
      ensures calculated == Overlay(old(calculated), WritesV1(AsGroup()))
    {
      ghost var base := calculated;
      ghost var ws := WritesV1(AsGroup());
      for i := 0 to |memValuePairs|
        invariant calculated == Overlay(base, ws[..i])
      {
        var memIndex := memValuePairs[i].0;
        var given := memValuePairs[i].1;
        var value := MaskValue(maskString, given);
        OverlayAppend(base, ws[..i], ws[i]);
        assert ws[..i + 1] == ws[..i] + [ws[i]];
        calculated := calculated[FromBinary(memIndex) := value];
      }
      assert ws[..|memValuePairs|] == ws;
    }

    /** `apply_mask_v2`: writes each pair's value to all its floating
        addresses, in order, then replaces the computed writes. */
    method ApplyMaskV2()
      requires ValidGroup(AsGroup())
      modifies this
      ensures calculated == Overlay(map[], WritesV2(AsGroup()))
    {
      ghost var ws := WritesV2(AsGroup());
      var memory: map<nat, nat> := map[];
      for i := 0 to |memValuePairs|
        invariant memory == Overlay(map[], ws[..i])
      {
        var memIndex := memValuePairs[i].0;
        var given := memValuePairs[i].1;
        var value := FloatingAddresses(maskString, memIndex);
        memory := InsertAll(memory, value, FromBinary(given));
        OverlayAppend(map[], ws[..i], ws[i]);
        assert ws[..i + 1] == ws[..i] + [ws[i]];
      }
      assert ws[..|memValuePairs|] == ws;
      calculated := memory;
    }
  }

  /** The writes one group computes, as a map from address to value. */
  function Calculated(g: Group, mt: MaskType): map<nat, nat>
    requires ValidGroup(g)
  {
    Overlay(map[], Writes(g, mt))
  }

  function AllCalculated(groups: seq<Group>, mt: MaskType): (cs: seq<map<nat, nat>>)
    requires forall i :: 0 <= i < |groups| ==> ValidGroup(groups[i])
    ensures |cs| == |groups|
  {
    seq(|groups|, i requires 0 <= i < |groups| => Calculated(groups[i], mt))
  }

  /** The memory after all groups: each group's computed writes inserted
      over the memory so far. */
  function Memory(groups: seq<Group>, mt: MaskType): map<nat, nat>
    requires forall i :: 0 <= i < |groups| ==> ValidGroup(groups[i])
  {
    Overlay(map[], AllCalculated(groups, mt))
  }

  /** Part 1, within a group: an address holds the masked value of the
      last pair that writes it. */
  lemma V1LastWins(g: Group, i: nat)
    requires ValidGroup(g) && i < |g.pairs|
    requires forall j :: i < j < |g.pairs| ==> FromBinary(g.pairs[j].0) != FromBinary(g.pairs[i].0)
    ensures FromBinary(g.pairs[i].0) in Calculated(g, P1)
    ensures Calculated(g, P1)[FromBinary(g.pairs[i].0)] == Masked(g.mask, FromBinary(g.pairs[i].1))
  {
    var ws := WritesV1(g);
    var a := FromBinary(g.pairs[i].0);
    OverlayLast(map[], ws, a);
    assert a in ws[i];
  }

  /** Part 2, within a group: the addresses written are exactly those that
      fit the mask for some pair's address. */
  lemma V2Addresses(g: Group, a: nat)
    requires ValidGroup(g)
    ensures a in Calculated(g, P2) <==>
      exists i :: 0 <= i < |g.pairs| && FitsBelow(g.mask, FromBinary(g.pairs[i].0), a, |g.mask|)
  {
    var ws := WritesV2(g);
    OverlayLast(map[], ws, a);
    forall i | 0 <= i < |g.pairs|
      ensures a in ws[i] <==> FitsBelow(g.mask, FromBinary(g.pairs[i].0), a, |g.mask|)
    {
      AddressesExactly(g.mask, FromBinary(g.pairs[i].0), a);
    }
  }

  /** `get_sum`: a later group's write to an address overwrites every
      earlier one. */
  lemma LaterGroupWins(groups: seq<Group>, mt: MaskType, i: nat, a: nat)
    requires forall k :: 0 <= k < |groups| ==> ValidGroup(groups[k])
    requires i < |groups| && a in Calculated(groups[i], mt)
    requires forall j :: i < j < |groups| ==> a !in Calculated(groups[j], mt)
    ensures a in Memory(groups, mt) && Memory(groups, mt)[a] == Calculated(groups[i], mt)[a]
  {
    var cs := AllCalculated(groups, mt);
    OverlayLast(map[], cs, a);
    assert a in cs[i];
    assert forall j :: i < j < |groups| ==> a !in cs[j];
  }

  /** The sum of the values left in memory. */
  ghost function SumValues(m: map<nat, nat>): nat
    decreases |m.Keys|
  {
    if m == map[] then 0
    else
      var k :| k in m;
      m[k] + SumValues(m - {k})
  }

  /** The sum does not depend on which address is taken first. */
  lemma {:induction false} SumValuesRemove(m: map<nat, nat>, k: nat)
    requires k in m
    ensures SumValues(m) == m[k] + SumValues(m - {k})
    decreases |m.Keys|
  {
    var k2 :| k2 in m && SumValues(m) == m[k2] + SumValues(m - {k2});
    if k2 != k {
      assert (m - {k2}).Keys == m.Keys - {k2};
      assert (m - {k}).Keys == m.Keys - {k};
      SumValuesRemove(m - {k2}, k);
      SumValuesRemove(m - {k}, k2);
      assert m - {k2} - {k} == m - {k} - {k2};
    }
  }

  /** `.values().sum()`: adds up the memory one address at a time. */
  method SumMemory(memory: map<nat, nat>) returns (total: nat)
    ensures total == SumValues(memory)
  {
    total := 0;
    var rest := memory;
    while rest != map[]
      invariant total + SumValues(rest) == SumValues(memory)
      decreases |rest.Keys|
    {
      var k :| k in rest;
      SumValuesRemove(rest, k);
      assert (rest - {k}).Keys == rest.Keys - {k};
      total := total + rest[k];
      rest := rest - {k};
    }
  }

  /** Builds a group's `Mask` and applies the mask of the given part. */
  method ApplyGroup(g: Group, mt: MaskType) returns (calculated: map<nat, nat>)
    requires ValidGroup(g)
    ensures calculated == Calculated(g, mt)
  {
    var mask := new Mask(g.mask, g.pairs);
    if mt == P1 {
      mask.ApplyMask();
    } else {
      mask.ApplyMaskV2();
    }
    calculated := mask.calculated;
  }

  /** `get_sum`: applies each group's mask and sums the memory left after
      inserting every group's writes in order. */
  method GetSum(groups: seq<Group>, mt: MaskType) returns (total: nat)
    requires forall i :: 0 <= i < |groups| ==> ValidGroup(groups[i])
    ensures total == SumValues(Memory(groups, mt))
  {
    var acc: map<nat, nat> := map[];
    ghost var cs := AllCalculated(groups, mt);
    for i := 0 to |groups|
      invariant acc == Overlay(map[], cs[..i])
    {
      var calculated := ApplyGroup(groups[i], mt);
      OverlayAppend(map[], cs[..i], cs[i]);
      assert cs[..i + 1] == cs[..i] + [cs[i]];
      acc := acc + calculated;
    }
    assert cs[..|groups|] == cs;
    total := SumMemory(acc);
  }
}
