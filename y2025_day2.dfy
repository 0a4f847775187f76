// Gift Shop: product IDs in given ranges are invalid when their decimal
// digits are made of a repeated block. Part 1 counts only IDs that are one
// block written twice; part 2 any block written two or more times. Each
// part adds up the invalid IDs of every range.

module GiftShop {
  import opened Modular

  /** The decimal digit character for `d`. */
  function DigitChar(d: nat): char
    requires d < 10
  {
    "0123456789"[d]
  }

  /** `n.to_string()`: the decimal digits, most significant first, with no
      leading zero. */
  function ToString(n: nat): (s: string)
    ensures |s| >= 1 && (|s| > 1 ==> s[0] != '0')
    ensures forall i :: 0 <= i < |s| ==> '0' <= s[i] <= '9'
  {
    if n < 10 then [DigitChar(n)] else ToString(n / 10) + [DigitChar(n % 10)]
  }

  /** `s[..length].repeat(times)`: the block written `times` times. */
  function Repeat(block: string, times: nat): (r: string)
    ensures |r| == |block| * times
  {
    if times == 0 then [] else block + Repeat(block, times - 1)
  }

  // ---------------------------------------------------------------------
  // Part 1

  /** `p1_invalid`: the string has even length and its two halves are the
      same. */
  predicate P1Invalid(n: nat) {
    var s := ToString(n);
    |s| % 2 == 0 && s[..|s| / 2] == s[|s| / 2..]
  }

  /** An ID is invalid for part 1 exactly when its digits are some block
      written twice. */
  lemma Part1Doubled(n: nat)
    ensures P1Invalid(n) <==> exists d :: ToString(n) == d + d
  {
    var s := ToString(n);
    if P1Invalid(n) {
      assert s == s[..|s| / 2] + s[|s| / 2..];
    }
    if d :| s == d + d {
      assert |s| == 2 * |d|;
      assert s[..|d|] == d && s[|d|..] == d;
    }
  }

  // ---------------------------------------------------------------------
  // The number a decimal string stands for

  function Pow10(k: nat): (r: nat)
    ensures r >= 1
  {
    if k == 0 then 1 else 10 * Pow10(k - 1)
  }

  predicate IsDigits(s: string) {
    forall i :: 0 <= i < |s| ==> '0' <= s[i] <= '9'
  }

  function DigitValue(c: char): nat
    requires '0' <= c <= '9'
  {
    c as int - '0' as int
  }

  /** The value of a string of digits, most significant first. */
  function Value(s: string): nat
    requires IsDigits(s)
  {
    if s == [] then 0 else Value(s[..|s| - 1]) * 10 + DigitValue(s[|s| - 1])
  }

  lemma DigitRoundTrip(d: nat)
    requires d < 10
    ensures '0' <= DigitChar(d) <= '9' && DigitValue(DigitChar(d)) == d
  {
    assert "0123456789"[d] as int == '0' as int + d by {
      if d < 5 {
        assert d == 0 || d == 1 || d == 2 || d == 3 || d == 4;
      } else {
        assert d == 5 || d == 6 || d == 7 || d == 8 || d == 9;
      }
    }
  }

  /** Reading back what `to_string` writes gives the number. */
  lemma {:induction false} ValueToString(n: nat)
    ensures IsDigits(ToString(n)) && Value(ToString(n)) == n
  {
    var s := ToString(n);
    if n < 10 {
      DigitRoundTrip(n);
    } else {
      ValueToString(n / 10);
      DigitRoundTrip(n % 10);
      assert s[..|s| - 1] == ToString(n / 10);
    }
  }

  lemma TimesTen(x: nat, y: nat, z: nat)
    ensures (x * y + z) * 10 == x * (10 * y) + z * 10
  {
  }

  /** Writing the digits of `b` after those of `a`. */
  lemma {:induction false} ValueAppend(a: string, b: string)
    requires IsDigits(a) && IsDigits(b)
    ensures IsDigits(a + b) && Value(a + b) == Value(a) * Pow10(|b|) + Value(b)
    decreases |b|
  {
    if b == [] {
      assert a + b == a;
    } else {
      var init := b[..|b| - 1];
      assert (a + b)[..|a + b| - 1] == a + init;
      assert (a + b)[|a + b| - 1] == b[|b| - 1];
      ValueAppend(a, init);
      var va, p, vi := Value(a), Pow10(|init|), Value(init);
      var dv := DigitValue(b[|b| - 1]);
      assert Value(a + b) == (va * p + vi) * 10 + dv;
      assert Value(b) == vi * 10 + dv;
      assert Pow10(|b|) == 10 * p;
      TimesTen(va, p, vi);
    }
  }

  /** A non-empty string of digits starting with a nonzero digit is worth
      at least that digit. */
  lemma {:induction false} ValueAtLeastLead(s: string)
    requires IsDigits(s) && |s| >= 1
    ensures Value(s) >= DigitValue(s[0])
  {
    if |s| > 1 {
      ValueAtLeastLead(s[..|s| - 1]);
    }
  }

  /** `to_string` of the value of a digit string without a leading zero
      gives the string back. */
  lemma {:induction false} ToStringValue(s: string)
    requires IsDigits(s) && |s| >= 1 && (|s| > 1 ==> s[0] != '0')
    ensures ToString(Value(s)) == s
  {
    var c := s[|s| - 1];
    DigitRoundTrip(DigitValue(c));
    if |s| > 1 {
      var init := s[..|s| - 1];
      ValueAtLeastLead(init);
      ToStringValue(init);
      var v := Value(s);
      assert v / 10 == Value(init) && v % 10 == DigitValue(c);
    } else {
      assert s == [c];
    }
  }

  lemma Distribute(n: nat, h: nat, p: nat)
    requires n == h * p + h
    ensures n == h * (p + 1)
  {
  }

  /** The digits of an ID invalid for part 1 split into two equal halves,
      the half being the canonical digits of a positive number. */
  lemma Halves(n: nat) returns (d: string)
    requires P1Invalid(n)
    ensures IsDigits(d) && ToString(Value(d)) == d && Value(d) >= 1
    ensures n == Value(d) * Pow10(|d|) + Value(d)
  {
    var s := ToString(n);
    Part1Doubled(n);
    ValueToString(n);
    d :| s == d + d;
    assert d == s[..|d|] && |s| >= 2;
    ToStringValue(d);
    ValueAppend(d, d);
    ValueAtLeastLead(d);
  }

  /** An ID invalid for part 1 is `h` written twice ... */
  lemma Part1Split(n: nat) returns (h: nat)
    requires P1Invalid(n)
    ensures h >= 1 && n == h * (Pow10(|ToString(h)|) + 1)
  {
    var d := Halves(n);
    h := Value(d);
    Distribute(n, h, Pow10(|d|));
  }

  /** ... and `h` written twice is invalid for part 1. */
  lemma Part1Join(n: nat, h: nat)
    requires h >= 1 && n == h * (Pow10(|ToString(h)|) + 1)
    ensures P1Invalid(n)
  {
    var d := ToString(h);
    if |d| == 1 {
      DigitRoundTrip(h);
    }
    ValueToString(h);
    ValueAppend(d, d);
    assert Value(d + d) == h * Pow10(|d|) + h;
    Distribute(Value(d + d), h, Pow10(|d|));
    assert Value(d + d) == n;
    ToStringValue(d + d);
    Part1Doubled(n);
  }

  /** An ID is invalid for part 1 exactly when it is some positive `h` times
      `10^L + 1`, `L` being the number of digits of `h`, as
      6464 = 64 * 101. */
  lemma Part1Numeric(n: nat)
    ensures P1Invalid(n) <==> exists h: nat :: h >= 1 && n == h * (Pow10(|ToString(h)|) + 1)
  {
    if P1Invalid(n) {
      var h := Part1Split(n);
    }
    if h: nat :| h >= 1 && n == h * (Pow10(|ToString(h)|) + 1) {
      Part1Join(n, h);
    }
  }

  // ---------------------------------------------------------------------
  // Part 2

  /** A block of `length` digits that, repeated, gives the whole string. */
  predicate Works(s: string, length: nat) {
    1 <= length <= |s| && |s| % length == 0 && Repeat(s[..length], |s| / length) == s
  }

  /** Some block no longer than half the string repeats into it. */
  predicate RepeatedBlock(s: string) {
    exists length :: 1 <= length <= |s| / 2 && Works(s, length)
  }

  /** `p2_invalid`: every block length from 1 to half the length that
      divides the length is tried in increasing order. */
  method P2Invalid(n: nat) returns (r: bool)
    ensures r == RepeatedBlock(ToString(n))
  {
    var s := ToString(n);
    var totalLength := |s|;
    var halfLength := totalLength / 2;
    for length := 1 to halfLength + 1
      invariant forall k :: 1 <= k < length ==> !Works(s, k)
    {
      if totalLength % length == 0 {
        var repeat := totalLength / length;
        if Repeat(s[..length], repeat) == s {
          assert 1 <= length <= |s| / 2 && Works(s, length);
          return true;
        }
      }
    }
    return false;
  }

  /** A block written `times` times starts with the block. */
  lemma {:induction false} RepeatPrefix(block: string, times: nat)
    requires times >= 1
    ensures Repeat(block, times)[..|block|] == block
  {
    assert Repeat(block, times) == block + Repeat(block, times - 1);
  }

  /** A string has a repeated block exactly when it is some non-empty block
      written at least twice. */
  lemma RepeatedBlockIff(s: string)
    ensures RepeatedBlock(s) <==> exists b, k :: |b| >= 1 && k >= 2 && s == Repeat(b, k)
  {
    if RepeatedBlock(s) {
      var length :| 1 <= length <= |s| / 2 && Works(s, length);
      var k := |s| / length;
      assert k * length == |s|;
      assert k >= 2;
      assert |s[..length]| >= 1 && s == Repeat(s[..length], k);
    }
    if b, k :| |b| >= 1 && k >= 2 && s == Repeat(b, k) {
      RepeatLength(b, k);
      RepeatPrefix(b, k);
      assert Works(s, |b|);
    }
  }

  /** The length of a repetition, divided back. */
  lemma RepeatLength(b: string, k: nat)
    requires |b| >= 1 && k >= 2
    ensures |Repeat(b, k)| % |b| == 0 && |Repeat(b, k)| / |b| == k
    ensures 1 <= |b| <= |Repeat(b, k)| / 2
  {
    var m := |b|;
    assert |Repeat(b, k)| == k * m;
    ModUnique(k * m, k, 0, m);
    assert k * m == 2 * m + (k - 2) * m;
    assert (k - 2) * m >= 0;
  }

  /** Every ID invalid for part 1 is invalid for part 2. */
  lemma Part1ImpliesPart2(n: nat)
    requires P1Invalid(n)
    ensures RepeatedBlock(ToString(n))
  {
    var s := ToString(n);
    var d := s[..|s| / 2];
    assert s == d + d;
    assert |d| >= 1;
    assert Repeat(d, 2) == d + (d + []);
    assert d + (d + []) == d + d;
    RepeatedBlockIff(s);
  }

  // ---------------------------------------------------------------------
  // Adding up the invalid IDs of the ranges

  /** The invalid IDs of `lo..=hi`, added up; an empty range gives 0. */
  function RangeSum(lo: nat, hi: nat, invalid: nat -> bool): nat
    decreases hi + 1 - lo
  {
    if lo > hi then 0 else (if invalid(lo) then lo else 0) + RangeSum(lo + 1, hi, invalid)
  }

  /** The sum over all ranges. */
  function RangesSum(ranges: seq<(nat, nat)>, invalid: nat -> bool): nat {
    if ranges == [] then 0 else RangeSum(ranges[0].0, ranges[0].1, invalid) + RangesSum(ranges[1..], invalid)
  }

  /** `part1`. */
  function Part1(ranges: seq<(nat, nat)>): nat {
    RangesSum(ranges, P1Invalid)
  }

  /** `part2`. */
  function Part2(ranges: seq<(nat, nat)>): nat {
    RangesSum(ranges, (n: nat) => RepeatedBlock(ToString(n)))
  }

  /** A weaker test adds up no more than a stronger one, range by range. */
  lemma {:induction false} RangeSumMono(lo: nat, hi: nat, p: nat -> bool, q: nat -> bool)
    requires forall n :: p(n) ==> q(n)
    ensures RangeSum(lo, hi, p) <= RangeSum(lo, hi, q)
    decreases hi + 1 - lo
  {
    if lo <= hi {
      RangeSumMono(lo + 1, hi, p, q);
    }
  }

  lemma {:induction false} RangesSumMono(ranges: seq<(nat, nat)>, p: nat -> bool, q: nat -> bool)
    requires forall n :: p(n) ==> q(n)
    ensures RangesSum(ranges, p) <= RangesSum(ranges, q)
  {
    if ranges != [] {
      RangeSumMono(ranges[0].0, ranges[0].1, p, q);
      RangesSumMono(ranges[1..], p, q);
    }
  }

  /** Part 2 is never below part 1, since every ID part 1 counts part 2
      counts too. */
  lemma Part1AtMostPart2(ranges: seq<(nat, nat)>)
    ensures Part1(ranges) <= Part2(ranges)
  {
    forall n: nat | P1Invalid(n)
      ensures RepeatedBlock(ToString(n))
    {
      Part1ImpliesPart2(n);
    }
    RangesSumMono(ranges, P1Invalid, (n: nat) => RepeatedBlock(ToString(n)));
  }
}
