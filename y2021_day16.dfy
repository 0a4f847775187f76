/** Packet decoder (2021 day 16): a hexadecimal transmission is expanded
    into bits and read, through a cursor, as a tree of packets that is then
    summed and evaluated. Bits are booleans, most significant first. */
module PacketDecoder {
  import opened Wrappers

  datatype LengthTypeId = LengthOfSub(totalLength: nat) | NumberOfSub(number: nat)

  datatype InnerPackage =
    | Literal(value: nat)
    | Operator(typeId: nat, lengthTypeId: LengthTypeId, subPackages: seq<Package>)

  datatype Package = Package(version: nat, inner: InnerPackage)

  function Pow2(n: nat): (p: nat)
    ensures p >= 1
  {
    if n == 0 then 1 else 2 * Pow2(n - 1)
  }

  /** The number written by the `n` bits of `bv` from position `i`, most
      significant bit first. */
  function ReadBits(bv: seq<bool>, i: nat, n: nat): nat
    requires i + n <= |bv|
    decreases n
  {
    if n == 0 then 0 else 2 * ReadBits(bv, i, n - 1) + (if bv[i + n - 1] then 1 else 0)
  }

  /** `n` bits write a number below two to the `n`. */
  lemma {:induction false} ReadBitsBound(bv: seq<bool>, i: nat, n: nat)
    requires i + n <= |bv|
    ensures ReadBits(bv, i, n) < Pow2(n)
  {
    if n > 0 {
      ReadBitsBound(bv, i, n - 1);
    }
  }

  /** The `n` low bits of `v`, most significant first. */
  function ToBits(v: nat, n: nat): (s: seq<bool>)
    ensures |s| == n
  {
    if n == 0 then [] else ToBits(v / 2, n - 1) + [v % 2 == 1]
  }

  /** The bit `k` places after `i`. */
  function At(bv: seq<bool>, i: nat, k: nat): bool
    requires i + k < |bv|
  {
    bv[i + k]
  }

  /** `bv` holds `e` from position `i` on. */
  predicate HoldsAt(bv: seq<bool>, i: nat, e: seq<bool>) {
    i + |e| <= |bv| && forall k {:trigger At(bv, i, k)} :: 0 <= k < |e| ==> At(bv, i, k) == e[k]
  }

  lemma HoldsAtIndex(bv: seq<bool>, i: nat, e: seq<bool>, k: nat)
    requires HoldsAt(bv, i, e) && k < |e|
    ensures bv[i + k] == e[k]
  {
    assert At(bv, i, k) == e[k];
  }

  lemma HoldsAtSplit(bv: seq<bool>, i: nat, a: seq<bool>, b: seq<bool>)
    requires HoldsAt(bv, i, a + b)
    ensures HoldsAt(bv, i, a) && HoldsAt(bv, i + |a|, b)
  {
    forall k | 0 <= k < |a|
      ensures At(bv, i, k) == a[k]
    {
      assert At(bv, i, k) == (a + b)[k];
    }
    forall k | 0 <= k < |b|
      ensures At(bv, i + |a|, k) == b[k]
    {
      assert At(bv, i, |a| + k) == (a + b)[|a| + k];
    }
  }

  /** What `b` holds at `i`, `a + b` holds at `|a| + i`. */
  lemma HoldsAtShift(a: seq<bool>, b: seq<bool>, i: nat, e: seq<bool>)
    requires HoldsAt(b, i, e)
    ensures HoldsAt(a + b, |a| + i, e)
  {
    forall k | 0 <= k < |e|
      ensures At(a + b, |a| + i, k) == e[k]
    {
      assert At(b, i, k) == e[k];
    }
  }

  /** Reading bits only looks at the bits it reads. */
  lemma {:induction false} ReadBitsHolds(bv: seq<bool>, i: nat, e: seq<bool>, n: nat)
    requires HoldsAt(bv, i, e) && n <= |e|
    ensures ReadBits(bv, i, n) == ReadBits(e, 0, n)
  {
    if n > 0 {
      ReadBitsHolds(bv, i, e, n - 1);
      HoldsAtIndex(bv, i, e, n - 1);
    }
  }

  /** A leading bit weighs two to the power of the number of bits after it. */
  lemma {:induction false} ReadBitsPrepend(bv: seq<bool>, i: nat, n: nat)
    requires i + n + 1 <= |bv|
    ensures ReadBits(bv, i, n + 1) == (if bv[i] then Pow2(n) else 0) + ReadBits(bv, i + 1, n)
  {
    if n > 0 {
      ReadBitsPrepend(bv, i, n - 1);
    }
  }

  lemma {:induction false} ToBitsValue(v: nat, n: nat)
    requires v < Pow2(n)
    ensures ReadBits(ToBits(v, n), 0, n) == v
  {
    if n > 0 {
      var s := ToBits(v, n);
      var t := ToBits(v / 2, n - 1);
      assert s == t + [v % 2 == 1];
      assert HoldsAt(s, 0, t) by {
        forall k | 0 <= k < |t|
          ensures At(s, 0, k) == t[k]
        {
        }
      }
      ReadBitsHolds(s, 0, t, n - 1);
      ToBitsValue(v / 2, n - 1);
    }
  }

  /** A field holding `v` in `n` bits reads back as `v`, and what follows
      it starts right after it. */
  lemma FieldAt(bv: seq<bool>, i: nat, v: nat, n: nat, rest: seq<bool>)
    requires v < Pow2(n) && HoldsAt(bv, i, ToBits(v, n) + rest)
    ensures i + n <= |bv| && ReadBits(bv, i, n) == v && HoldsAt(bv, i + n, rest)
  {
    HoldsAtSplit(bv, i, ToBits(v, n), rest);
    ReadBitsHolds(bv, i, ToBits(v, n), n);
    ToBitsValue(v, n);
  }

  // ---------------------------------------------------------------------
  // Hexadecimal expansion

  /** Rust's `to_digit(16)`. */
  function HexDigit(c: char): (d: Option<nat>)
    ensures d.Some? ==> d.value < 16
  {
    if '0' <= c <= '9' then Some(c as nat - '0' as nat)
    else if 'a' <= c <= 'f' then Some(c as nat - 'a' as nat + 10)
    else if 'A' <= c <= 'F' then Some(c as nat - 'A' as nat + 10)
    else None
  }

  /** Every hexadecimal digit becomes four bits, most significant first;
      a character that is not a digit makes the expansion fail. */
  function HexToBits(s: string): (r: Option<seq<bool>>)
    ensures r.Some? <==> forall k :: 0 <= k < |s| ==> HexDigit(s[k]).Some?
    ensures r.Some? ==> |r.value| == 4 * |s|
  {
    if s == [] then Some([])
    else
      match HexDigit(s[0])
      case None => None
      case Some(d) =>
        match HexToBits(s[1..])
        case None => None
        case Some(rest) => Some(ToBits(d, 4) + rest)
  }

  /** Block `k` of the expansion spells the `k`-th digit. */
  lemma {:induction false} HexToBitsBlocks(s: string, k: nat)
    requires HexToBits(s).Some? && k < |s|
    ensures HoldsAt(HexToBits(s).value, 4 * k, ToBits(HexDigit(s[k]).value, 4))
    ensures ReadBits(HexToBits(s).value, 4 * k, 4) == HexDigit(s[k]).value
  {
    var bits := HexToBits(s).value;
    var d := HexDigit(s[0]).value;
    var rest := HexToBits(s[1..]).value;
    assert bits == ToBits(d, 4) + rest;
    if k == 0 {
      HoldsAtSplit(bits, 0, ToBits(d, 4), rest);
    } else {
      HexToBitsBlocks(s[1..], k - 1);
      HoldsAtShift(ToBits(d, 4), rest, 4 * (k - 1), ToBits(HexDigit(s[k]).value, 4));
    }
    assert Pow2(4) == 16;
    assert ToBits(HexDigit(s[k]).value, 4) + [] == ToBits(HexDigit(s[k]).value, 4);
    FieldAt(bits, 4 * k, HexDigit(s[k]).value, 4, []);
  }

  // ---------------------------------------------------------------------
  // Decoding, as functions of the bits and the cursor

  /** The four payload bits of the group starting at `i`. */
  function Group(bv: seq<bool>, i: nat): (g: seq<bool>)
    requires i + 5 <= |bv|
    ensures |g| == 4
  {
    [bv[i + 1], bv[i + 2], bv[i + 3], bv[i + 4]]
  }

  /** The payload bits of a literal's groups starting at `i`: five-bit
      groups are read while their lead bit is set, and the four payload
      bits of each are concatenated. */
  function DecodeLiteral(bv: seq<bool>, i: nat): (r: Option<(seq<bool>, nat)>)
    ensures r.Some? ==> i < r.value.1 <= |bv|
    decreases |bv| - i
  {
    if i + 5 > |bv| then None
    else if !bv[i] then Some((Group(bv, i), i + 5))
    else
      match DecodeLiteral(bv, i + 5)
      case None => None
      case Some((payload, j)) => Some((Group(bv, i) + payload, j))
  }

  /** The package starting at `i` and the position just after it; None
      where the source panics (fewer than eleven bits left, or a read past
      the end). */
  function DecodePackage(bv: seq<bool>, i: nat): (r: Option<(Package, nat)>)
    ensures r.Some? ==> i < r.value.1 <= |bv|
    decreases |bv| - i, 1
  {
    if i + 11 > |bv| then None
    else
      var version := ReadBits(bv, i, 3);
      var typeId := ReadBits(bv, i + 3, 3);
      if typeId == 4 then
        match DecodeLiteral(bv, i + 6)
        case None => None
        case Some((payload, j)) => Some((Package(version, Literal(ReadBits(payload, 0, |payload|))), j))
      else
        match DecodeOperator(bv, typeId, i + 6)
        case None => None
        case Some((op, j)) => Some((Package(version, op), j))
  }

  /** An operator's length type, its length field and its subpackages. */
  function DecodeOperator(bv: seq<bool>, typeId: nat, i: nat): (r: Option<(InnerPackage, nat)>)
    requires i <= |bv|
    ensures r.Some? ==> i < r.value.1 <= |bv|
    ensures r.Some? ==> r.value.0.Operator? && r.value.0.typeId == typeId
    decreases |bv| - i, 0
  {
    if i >= |bv| then None
    else if !bv[i] then
      if i + 16 > |bv| then None
      else
        var total := ReadBits(bv, i + 1, 15);
        match DecodeByLength(bv, i + 16, total, i + 16)
        case None => None
        case Some((subs, j)) => Some((Operator(typeId, LengthOfSub(total), subs), j))
    else
      if i + 12 > |bv| then None
      else
        var number := ReadBits(bv, i + 1, 11);
        match DecodeByCount(bv, number, i + 12)
        case None => None
        case Some((subs, j)) => Some((Operator(typeId, NumberOfSub(number), subs), j))
  }

  /** Subpackages read from `j` until exactly `total` bits past `start`
      have been consumed. */
  function DecodeByLength(bv: seq<bool>, start: nat, total: nat, j: nat): (r: Option<(seq<Package>, nat)>)
    requires start <= j <= |bv|
    ensures r.Some? ==> j <= r.value.1 <= |bv| && r.value.1 == start + total
    decreases |bv| - j, 2
  {
    if j - start == total then Some(([], j))
    else
      match DecodePackage(bv, j)
      case None => None
      case Some((p, k)) =>
        match DecodeByLength(bv, start, total, k)
        case None => None
        case Some((ps, e)) => Some(([p] + ps, e))
  }

  /** Exactly `number` subpackages read one after the other from `j`. */
  function DecodeByCount(bv: seq<bool>, number: nat, j: nat): (r: Option<(seq<Package>, nat)>)
    requires j <= |bv|
    ensures r.Some? ==> j <= r.value.1 <= |bv| && |r.value.0| == number
    decreases |bv| - j, 2
  {
    if number == 0 then Some(([], j))
    else
      match DecodePackage(bv, j)
      case None => None
      case Some((p, k)) =>
        match DecodeByCount(bv, number - 1, k)
        case None => None
        case Some((ps, e)) => Some(([p] + ps, e))
  }

  // ---------------------------------------------------------------------
  // The cursor-based reader

  /** Reads `nbBits` bits at the cursor as a number, weighting the last bit
      1, the one before it 2, and so on, and advances the cursor past them. */
  method ReadNumber(bv: seq<bool>, i: nat, nbBits: nat) returns (value: nat, i': nat)
    requires i + nbBits <= |bv|
    ensures value == ReadBits(bv, i, nbBits) && value < Pow2(nbBits)
    ensures i' == i + nbBits
  {
    value := 0;
    var e := 0;
    while e < nbBits
      invariant 0 <= e <= nbBits
      invariant value == ReadBits(bv, i + nbBits - e, e)
    {
      var bit := bv[i + nbBits - 1 - e];
      ReadBitsPrepend(bv, i + nbBits - 1 - e, e);
      if bit {
        value := value + Pow2(e);
      }
      e := e + 1;
    }
    i' := i + nbBits;
    ReadBitsBound(bv, i, nbBits);
  }

  /** Prefixes the packages `done` to a decoding of what follows. */
  function Prepend(done: seq<Package>, r: Option<(seq<Package>, nat)>): Option<(seq<Package>, nat)> {
    match r
    case None => None
    case Some((ps, e)) => Some((done + ps, e))
  }

  /** Prefixes the bits `done` to a decoding of a literal's remaining
      groups. */
  function PrependBits(done: seq<bool>, r: Option<(seq<bool>, nat)>): Option<(seq<bool>, nat)> {
    match r
    case None => None
    case Some((p, e)) => Some((done + p, e))
  }

  /** One group read through the cursor: a flagged group hands over to the
      next one, an unflagged group ends the literal. */
  lemma LiteralGroupStep(bv: seq<bool>, j: nat, done: seq<bool>)
    requires j + 5 <= |bv|
    ensures bv[j] ==> PrependBits(done, DecodeLiteral(bv, j)) == PrependBits(done + Group(bv, j), DecodeLiteral(bv, j + 5))
    ensures !bv[j] ==> PrependBits(done, DecodeLiteral(bv, j)) == Some((done + Group(bv, j), j + 5))
  {
    if bv[j] {
      match DecodeLiteral(bv, j + 5)
      case None =>
      case Some((payload, e)) =>
        assert done + (Group(bv, j) + payload) == done + Group(bv, j) + payload;
    }
  }

  /** Reads the groups of a literal through the cursor. */
  method NewLiteral(bv: seq<bool>, i: nat) returns (r: Option<(nat, nat)>)
    ensures r.None? <==> DecodeLiteral(bv, i).None?
    ensures r.Some? ==> r.value == (ReadBits(DecodeLiteral(bv, i).value.0, 0, |DecodeLiteral(bv, i).value.0|), DecodeLiteral(bv, i).value.1)
  {
    var valueBv: seq<bool> := [];
    var readMore := true;
    var j := i;
    match DecodeLiteral(bv, i) {
      case None =>
      case Some((p, e)) => assert [] + p == p;
    }
    while readMore
      invariant i <= j
      invariant readMore ==> DecodeLiteral(bv, i) == PrependBits(valueBv, DecodeLiteral(bv, j))
      invariant !readMore ==> DecodeLiteral(bv, i) == Some((valueBv, j))
      decreases |bv| - j, readMore
    {
      if j + 5 > |bv| {
        return None;
      }
      LiteralGroupStep(bv, j, valueBv);
      ghost var g, v0 := j, valueBv;
      readMore := readMore && bv[j];
      j := j + 1;
      for c := 0 to 4
        invariant j == g + 1 + c
        invariant valueBv == v0 + Group(bv, g)[..c]
      {
        assert Group(bv, g)[..c + 1] == Group(bv, g)[..c] + [bv[j]];
        valueBv := valueBv + [bv[j]];
        j := j + 1;
      }
      assert Group(bv, g)[..4] == Group(bv, g);
    }
    var value, _ := ReadNumber(valueBv, 0, |valueBv|);
    return Some((value, j));
  }

  /** Reads one package at the cursor. */
  method ParsePackage(bv: seq<bool>, i: nat) returns (r: Option<(Package, nat)>)
    ensures r == DecodePackage(bv, i)
    decreases |bv| - i, 1
  {
    if i + 11 > |bv| {
      return None;
    }
    var version, j := ReadNumber(bv, i, 3);
    var typeId, k := ReadNumber(bv, j, 3);
    if typeId == 4 {
      var lit := NewLiteral(bv, k);
      if lit.None? {
        return None;
      }
      return Some((Package(version, Literal(lit.value.0)), lit.value.1));
    } else {
      var op := NewOperator(bv, typeId, k);
      if op.None? {
        return None;
      }
      return Some((Package(version, op.value.0), op.value.1));
    }
  }

  lemma PrependNothing(r: Option<(seq<Package>, nat)>)
    ensures Prepend([], r) == r
  {
    match r {
      case None =>
      case Some((ps, e)) => assert [] + ps == ps;
    }
  }

  /** One subpackage read while the announced length is not yet consumed. */
  lemma ByLengthStep(bv: seq<bool>, start: nat, total: nat, j: nat, done: seq<Package>)
    requires start <= j <= |bv| && j - start != total
    ensures DecodePackage(bv, j).None? ==> Prepend(done, DecodeByLength(bv, start, total, j)) == None
    ensures DecodePackage(bv, j).Some? ==>
      Prepend(done, DecodeByLength(bv, start, total, j)) ==
      Prepend(done + [DecodePackage(bv, j).value.0], DecodeByLength(bv, start, total, DecodePackage(bv, j).value.1))
  {
    match DecodePackage(bv, j) {
      case None =>
      case Some((p, k)) =>
        match DecodeByLength(bv, start, total, k) {
          case None =>
          case Some((ps, e)) => assert done + ([p] + ps) == done + [p] + ps;
        }
    }
  }

  /** One subpackage read while some of the announced number remain. */
  lemma ByCountStep(bv: seq<bool>, number: nat, j: nat, done: seq<Package>)
    requires j <= |bv| && number > 0
    ensures DecodePackage(bv, j).None? ==> Prepend(done, DecodeByCount(bv, number, j)) == None
    ensures DecodePackage(bv, j).Some? ==>
      Prepend(done, DecodeByCount(bv, number, j)) ==
      Prepend(done + [DecodePackage(bv, j).value.0], DecodeByCount(bv, number - 1, DecodePackage(bv, j).value.1))
  {
    match DecodePackage(bv, j) {
      case None =>
      case Some((p, k)) =>
        match DecodeByCount(bv, number - 1, k) {
          case None =>
          case Some((ps, e)) => assert done + ([p] + ps) == done + [p] + ps;
        }
    }
  }

  /** Reads subpackages from `start` until exactly `totalLength` bits
      have been consumed. */
  method ReadByLength(bv: seq<bool>, start: nat, totalLength: nat) returns (r: Option<(seq<Package>, nat)>)
    requires start <= |bv|
    ensures r == DecodeByLength(bv, start, totalLength, start)
    decreases |bv| - start, 3
  {
    var subPackages: seq<Package> := [];
    var j := start;
    PrependNothing(DecodeByLength(bv, start, totalLength, start));
    while totalLength != j - start
      invariant start <= j <= |bv|
      invariant DecodeByLength(bv, start, totalLength, start) ==
        Prepend(subPackages, DecodeByLength(bv, start, totalLength, j))
      decreases |bv| - j
    {
      ByLengthStep(bv, start, totalLength, j, subPackages);
      var sub := ParsePackage(bv, j);
      if sub.None? {
        return None;
      }
      subPackages := subPackages + [sub.value.0];
      j := sub.value.1;
    }
    assert subPackages + [] == subPackages;
    return Some((subPackages, j));
  }

  /** Reads exactly `number` subpackages from `start`. */
  method ReadByCount(bv: seq<bool>, start: nat, number: nat) returns (r: Option<(seq<Package>, nat)>)
    requires start <= |bv|
    ensures r == DecodeByCount(bv, number, start)
    decreases |bv| - start, 3
  {
    var subPackages: seq<Package> := [];
    var j := start;
    PrependNothing(DecodeByCount(bv, number, start));
    for c := 0 to number
      invariant start <= j <= |bv|
      invariant DecodeByCount(bv, number, start) ==
        Prepend(subPackages, DecodeByCount(bv, number - c, j))
    {
      ByCountStep(bv, number - c, j, subPackages);
      var sub := ParsePackage(bv, j);
      if sub.None? {
        return None;
      }
      subPackages := subPackages + [sub.value.0];
      j := sub.value.1;
    }
    assert subPackages + [] == subPackages;
    return Some((subPackages, j));
  }

  /** Reads an operator's length type, its length field and then its
      subpackages. */
  method NewOperator(bv: seq<bool>, typeId: nat, i: nat) returns (r: Option<(InnerPackage, nat)>)
    requires i <= |bv|
    ensures r == DecodeOperator(bv, typeId, i)
    decreases |bv| - i, 0
  {
    if i >= |bv| {
      return None;
    }
    var lengthType := bv[i];
    if !lengthType {
      if i + 16 > |bv| {
        return None;
      }
      var totalLength, start := ReadNumber(bv, i + 1, 15);
      var subs := ReadByLength(bv, start, totalLength);
      if subs.None? {
        return None;
      }
      return Some((Operator(typeId, LengthOfSub(totalLength), subs.value.0), subs.value.1));
    } else {
      if i + 12 > |bv| {
        return None;
      }
      var number, start := ReadNumber(bv, i + 1, 11);
      var subs := ReadByCount(bv, start, number);
      if subs.None? {
        return None;
      }
      return Some((Operator(typeId, NumberOfSub(number), subs.value.0), subs.value.1));
    }
  }

  /** Expands the hexadecimal transmission and reads the outermost package. */
  method Parse(input: string) returns (p: Option<Package>)
    ensures p.Some? <==> HexToBits(input).Some? && DecodePackage(HexToBits(input).value, 0).Some?
    ensures p.Some? ==> p.value == DecodePackage(HexToBits(input).value, 0).value.0
  {
    var bits := HexToBits(input);
    if bits.None? {
      return None;
    }
    var r := ParsePackage(bits.value, 0);
    if r.None? {
      return None;
    }
    return Some(r.value.0);
  }

  // ---------------------------------------------------------------------
  // Encoding, the inverse of decoding

  /** Number of four-bit groups the shortest encoding of `v` needs. */
  function NumGroups(v: nat): (k: nat)
    ensures k >= 1
  {
    if v < 16 then 1 else NumGroups(v / 16) + 1
  }

  /** `v` fits in the groups NumGroups counts. */
  lemma {:induction false} NumGroupsBound(v: nat)
    ensures v < Pow2(4 * NumGroups(v))
  {
    if v < 16 {
      assert Pow2(4) == 16;
    } else {
      var k := NumGroups(v / 16);
      NumGroupsBound(v / 16);
      assert Pow2(4 * (k + 1)) == 16 * Pow2(4 * k) by {
        assert Pow2(4 * k + 4) == 2 * 2 * 2 * 2 * Pow2(4 * k);
      }
    }
  }

  /** The `k` five-bit groups carrying `payload`, all but the last flagged. */
  function LiteralGroups(payload: seq<bool>, k: nat): (g: seq<bool>)
    requires k >= 1 && |payload| == 4 * k
    ensures |g| == 5 * k
  {
    if k == 1 then [false] + payload
    else [true] + payload[..4] + LiteralGroups(payload[4..], k - 1)
  }

  function EncodeLengthType(lt: LengthTypeId): seq<bool> {
    match lt
    case LengthOfSub(total) => [false] + ToBits(total, 15)
    case NumberOfSub(number) => [true] + ToBits(number, 11)
  }

  function Encode(p: Package): (e: seq<bool>)
    ensures |e| >= 11
    decreases p, 2
  {
    ToBits(p.version, 3) + EncodeInner(p.inner)
  }

  function EncodeInner(inner: InnerPackage): (e: seq<bool>)
    ensures |e| >= 8
    decreases inner, 1
  {
    match inner
    case Literal(v) => ToBits(4, 3) + LiteralGroups(ToBits(v, 4 * NumGroups(v)), NumGroups(v))
    case Operator(t, lt, subs) => ToBits(t, 3) + (EncodeLengthType(lt) + EncodeAll(subs))
  }

  function EncodeAll(ps: seq<Package>): seq<bool>
    decreases ps, 0
  {
    if ps == [] then [] else Encode(ps[0]) + EncodeAll(ps[1..])
  }

  /** Packages the format can represent: three-bit versions and type ids,
      length fields that fit and agree with the subpackages. */
  predicate WellFormed(p: Package)
    decreases p, 2
  {
    p.version < 8 && WellFormedInner(p.inner)
  }

  predicate WellFormedInner(inner: InnerPackage)
    decreases inner, 1
  {
    match inner
    case Literal(_) => true
    case Operator(t, lt, subs) =>
      t < 8 && t != 4 && AllWellFormed(subs) &&
      match lt
      case LengthOfSub(total) => total == |EncodeAll(subs)| && total < 32768
      case NumberOfSub(number) => number == |subs| && number < 2048
  }

  predicate AllWellFormed(ps: seq<Package>)
    decreases ps, 0
  {
    ps == [] || (WellFormed(ps[0]) && AllWellFormed(ps[1..]))
  }

  /** A group with lead bit `b` and payload `g` at `i` reads back as `g`. */
  lemma GroupAt(bv: seq<bool>, i: nat, b: bool, g: seq<bool>)
    requires |g| == 4 && HoldsAt(bv, i, [b] + g)
    ensures i + 5 <= |bv| && bv[i] == b && Group(bv, i) == g
  {
    var e := [b] + g;
    HoldsAtIndex(bv, i, e, 0);
    HoldsAtIndex(bv, i, e, 1);
    HoldsAtIndex(bv, i, e, 2);
    HoldsAtIndex(bv, i, e, 3);
    HoldsAtIndex(bv, i, e, 4);
  }

  lemma {:induction false} DecodeLiteralGroups(bv: seq<bool>, i: nat, payload: seq<bool>, k: nat)
    requires k >= 1 && |payload| == 4 * k
    requires HoldsAt(bv, i, LiteralGroups(payload, k))
    ensures DecodeLiteral(bv, i) == Some((payload, i + 5 * k))
    decreases k
  {
    if k == 1 {
      GroupAt(bv, i, false, payload);
    } else {
      HoldsAtSplit(bv, i, [true] + payload[..4], LiteralGroups(payload[4..], k - 1));
      GroupAt(bv, i, true, payload[..4]);
      DecodeLiteralGroups(bv, i + 5, payload[4..], k - 1);
      assert payload[..4] + payload[4..] == payload;
    }
  }

  /** Unfolds DecodePackage once for a literal header. */
  lemma PackageUnfoldLiteral(bv: seq<bool>, i: nat, version: nat, rest: seq<bool>, payload: seq<bool>, j: nat)
    requires version < 8 && HoldsAt(bv, i, ToBits(version, 3) + (ToBits(4, 3) + rest))
    requires i + 11 <= |bv| && DecodeLiteral(bv, i + 6) == Some((payload, j))
    ensures DecodePackage(bv, i) == Some((Package(version, Literal(ReadBits(payload, 0, |payload|))), j))
  {
    PackageHeaderAt(bv, i, version, 4, rest);
  }

  /** Unfolds DecodePackage once for an operator header. */
  lemma PackageUnfoldOperator(bv: seq<bool>, i: nat, version: nat, typeId: nat, rest: seq<bool>, op: InnerPackage, j: nat)
    requires version < 8 && typeId < 8 && HoldsAt(bv, i, ToBits(version, 3) + (ToBits(typeId, 3) + rest))
    requires i + 11 <= |bv| && typeId != 4 && DecodeOperator(bv, typeId, i + 6) == Some((op, j))
    ensures DecodePackage(bv, i) == Some((Package(version, op), j))
  {
    PackageHeaderAt(bv, i, version, typeId, rest);
  }

  /** The version and type id fields at `i` read back. */
  lemma PackageHeaderAt(bv: seq<bool>, i: nat, version: nat, t: nat, rest: seq<bool>)
    requires version < 8 && t < 8 && HoldsAt(bv, i, ToBits(version, 3) + (ToBits(t, 3) + rest))
    ensures i + 6 <= |bv| && ReadBits(bv, i, 3) == version && ReadBits(bv, i + 3, 3) == t
  {
    assert Pow2(3) == 8;
    FieldAt(bv, i, version, 3, ToBits(t, 3) + rest);
    FieldAt(bv, i + 3, t, 3, rest);
  }

  /** The package body starts six bits after the header. */
  lemma HeaderSkip(bv: seq<bool>, i: nat, version: nat, t: nat, rest: seq<bool>)
    requires HoldsAt(bv, i, ToBits(version, 3) + (ToBits(t, 3) + rest))
    ensures i + 6 + |rest| <= |bv| && HoldsAt(bv, i + 6, rest)
  {
    HoldsAtSplit(bv, i, ToBits(version, 3), ToBits(t, 3) + rest);
    HoldsAtSplit(bv, i + 3, ToBits(t, 3), rest);
  }

  /** The payload bits of a literal read back as its value. */
  lemma LiteralValue(v: nat)
    ensures ReadBits(ToBits(v, 4 * NumGroups(v)), 0, 4 * NumGroups(v)) == v
  {
    NumGroupsBound(v);
    ToBitsValue(v, 4 * NumGroups(v));
  }

  lemma DecodeEncodeLiteral(bv: seq<bool>, i: nat, p: Package)
    requires p.inner.Literal? && WellFormed(p) && HoldsAt(bv, i, Encode(p))
    ensures DecodePackage(bv, i) == Some((p, i + |Encode(p)|))
  {
    var v := p.inner.value;
    var k := NumGroups(v);
    var payload := ToBits(v, 4 * k);
    var groups := LiteralGroups(payload, k);
    assert Encode(p) == ToBits(p.version, 3) + (ToBits(4, 3) + groups);
    HeaderSkip(bv, i, p.version, 4, groups);
    DecodeLiteralGroups(bv, i + 6, payload, k);
    LiteralValue(v);
    PackageUnfoldLiteral(bv, i, p.version, groups, payload, i + 6 + 5 * k);
  }

  /** Decoding an encoded package gives it back and stops right after it. */
  lemma {:induction false} DecodeEncode(bv: seq<bool>, i: nat, p: Package)
    requires WellFormed(p) && HoldsAt(bv, i, Encode(p))
    ensures DecodePackage(bv, i) == Some((p, i + |Encode(p)|))
    decreases p, 2
  {
    if p.inner.Literal? {
      DecodeEncodeLiteral(bv, i, p);
    } else {
      DecodeEncodeOperator(bv, i, p);
    }
  }

  lemma {:induction false} DecodeEncodeOperator(bv: seq<bool>, i: nat, p: Package)
    requires p.inner.Operator? && WellFormed(p) && HoldsAt(bv, i, Encode(p))
    ensures DecodePackage(bv, i) == Some((p, i + |Encode(p)|))
    decreases p, 1
  {
    var t, lt, subs := p.inner.typeId, p.inner.lengthTypeId, p.inner.subPackages;
    assert p == Package(p.version, Operator(t, lt, subs));
    assert Encode(p) == ToBits(p.version, 3) + (ToBits(t, 3) + (EncodeLengthType(lt) + EncodeAll(subs)));
    OperatorAt(bv, i, p.version, t, lt, subs);
  }

  /** An operator package whose header and body are encoded at `i`. */
  lemma {:induction false} OperatorAt(bv: seq<bool>, i: nat, version: nat, t: nat, lt: LengthTypeId, subs: seq<Package>)
    requires version < 8 && WellFormedInner(Operator(t, lt, subs))
    requires HoldsAt(bv, i, ToBits(version, 3) + (ToBits(t, 3) + (EncodeLengthType(lt) + EncodeAll(subs))))
    ensures DecodePackage(bv, i) == Some((Package(version, Operator(t, lt, subs)), i + 6 + |EncodeLengthType(lt) + EncodeAll(subs)|))
    decreases subs, 4
  {
    var rest := EncodeLengthType(lt) + EncodeAll(subs);
    HeaderSkip(bv, i, version, t, rest);
    OperatorEncoded(bv, i + 6, t, lt, subs);
    PackageUnfoldOperator(bv, i, version, t, rest, Operator(t, lt, subs), i + 6 + |rest|);
  }

  /** The lead bit and the `n`-bit field of an operator's length type at
      `i` read back, and the subpackages start right after them. */
  lemma LengthTypeAt(bv: seq<bool>, i: nat, lead: bool, n: nat, v: nat, rest: seq<bool>)
    requires v < Pow2(n) && HoldsAt(bv, i, [lead] + ToBits(v, n) + rest)
    ensures i + 1 + n <= |bv| && bv[i] == lead && ReadBits(bv, i + 1, n) == v
    ensures HoldsAt(bv, i + 1 + n, rest)
  {
    HoldsAtSplit(bv, i, [lead] + ToBits(v, n), rest);
    HoldsAtSplit(bv, i, [lead], ToBits(v, n));
    HoldsAtIndex(bv, i, [lead], 0);
    ReadBitsHolds(bv, i + 1, ToBits(v, n), n);
    ToBitsValue(v, n);
  }

  /** Decoding an encoded operator body gives it back. */
  lemma {:induction false} OperatorEncoded(bv: seq<bool>, i: nat, t: nat, lt: LengthTypeId, subs: seq<Package>)
    requires WellFormedInner(Operator(t, lt, subs))
    requires HoldsAt(bv, i, EncodeLengthType(lt) + EncodeAll(subs))
    ensures i + 12 <= |bv|
    ensures DecodeOperator(bv, t, i) == Some((Operator(t, lt, subs), i + |EncodeLengthType(lt) + EncodeAll(subs)|))
    decreases subs, 3
  {
    match lt {
      case LengthOfSub(total) =>
        OperatorByLengthEncoded(bv, i, t, total, subs);
      case NumberOfSub(number) =>
        OperatorByCountEncoded(bv, i, t, number, subs);
    }
  }

  lemma {:induction false} OperatorByLengthEncoded(bv: seq<bool>, i: nat, t: nat, total: nat, subs: seq<Package>)
    requires AllWellFormed(subs) && total == |EncodeAll(subs)| && total < 32768
    requires HoldsAt(bv, i, EncodeLengthType(LengthOfSub(total)) + EncodeAll(subs))
    ensures i + 16 + total <= |bv|
    ensures DecodeOperator(bv, t, i) == Some((Operator(t, LengthOfSub(total), subs), i + 16 + total))
    decreases subs, 2
  {
    var rest := EncodeAll(subs);
    var head := EncodeLengthType(LengthOfSub(total));
    assert |head| == 16;
    HoldsAtSplit(bv, i, head, rest);
    DecodeByLengthEncoded(bv, i + 16, total, i + 16, subs);
    OperatorUnfoldByLength(bv, t, i, total, rest, subs);
  }

  lemma {:induction false} OperatorByCountEncoded(bv: seq<bool>, i: nat, t: nat, number: nat, subs: seq<Package>)
    requires AllWellFormed(subs) && number == |subs| && number < 2048
    requires HoldsAt(bv, i, EncodeLengthType(NumberOfSub(number)) + EncodeAll(subs))
    ensures i + 12 + |EncodeAll(subs)| <= |bv|
    ensures DecodeOperator(bv, t, i) == Some((Operator(t, NumberOfSub(number), subs), i + 12 + |EncodeAll(subs)|))
    decreases subs, 2
  {
    var rest := EncodeAll(subs);
    var head := EncodeLengthType(NumberOfSub(number));
    assert |head| == 12;
    assert HoldsAt(bv, i + 12, rest) by {
      HoldsAtSplit(bv, i, head, rest);
    }
    assert DecodeByCount(bv, |subs|, i + 12) == Some((subs, i + 12 + |rest|)) by {
      DecodeByCountEncoded(bv, i + 12, subs);
    }
    OperatorUnfoldByCount(bv, t, i, number, rest, subs);
  }

  /** Unfolds DecodeOperator once for a length-announcing operator. */
  lemma OperatorUnfoldByLength(bv: seq<bool>, typeId: nat, i: nat, total: nat, rest: seq<bool>, subs: seq<Package>)
    requires total < 32768 && HoldsAt(bv, i, EncodeLengthType(LengthOfSub(total)) + rest)
    requires i + 16 <= |bv| && DecodeByLength(bv, i + 16, total, i + 16) == Some((subs, i + 16 + total))
    ensures DecodeOperator(bv, typeId, i) == Some((Operator(typeId, LengthOfSub(total), subs), i + 16 + total))
  {
    assert EncodeLengthType(LengthOfSub(total)) + rest == [false] + ToBits(total, 15) + rest;
    assert Pow2(15) == 32768;
    LengthTypeAt(bv, i, false, 15, total, rest);
  }

  /** Unfolds DecodeOperator once for a count-announcing operator. */
  lemma OperatorUnfoldByCount(bv: seq<bool>, typeId: nat, i: nat, number: nat, rest: seq<bool>, subs: seq<Package>)
    requires number < 2048 && number == |subs| && HoldsAt(bv, i, EncodeLengthType(NumberOfSub(number)) + rest)
    requires i + 12 <= |bv| && DecodeByCount(bv, |subs|, i + 12) == Some((subs, i + 12 + |rest|))
    ensures DecodeOperator(bv, typeId, i) == Some((Operator(typeId, NumberOfSub(number), subs), i + 12 + |rest|))
  {
    assert EncodeLengthType(NumberOfSub(number)) + rest == [true] + ToBits(number, 11) + rest;
    assert Pow2(11) == 2048;
    LengthTypeAt(bv, i, true, 11, number, rest);
  }

  /** Unfolds DecodeByCount once. */
  lemma ByCountUnfold(bv: seq<bool>, number: nat, j: nat, p: Package, k: nat, rest: seq<Package>, e: nat)
    requires j <= |bv| && number >= 1 && DecodePackage(bv, j) == Some((p, k))
    requires DecodeByCount(bv, number - 1, k) == Some((rest, e))
    ensures DecodeByCount(bv, number, j) == Some(([p] + rest, e))
  {
  }

  /** Unfolds DecodeByLength once. */
  lemma ByLengthUnfold(bv: seq<bool>, start: nat, total: nat, j: nat, p: Package, k: nat, rest: seq<Package>, e: nat)
    requires start <= j <= |bv| && j - start != total && DecodePackage(bv, j) == Some((p, k))
    requires DecodeByLength(bv, start, total, k) == Some((rest, e))
    ensures DecodeByLength(bv, start, total, j) == Some(([p] + rest, e))
  {
  }

  /** An encoded package followed by subpackages read by count. */
  lemma {:induction false} CountStepEncoded(bv: seq<bool>, j: nat, ps: seq<Package>, e: nat)
    requires ps != [] && WellFormed(ps[0]) && HoldsAt(bv, j, Encode(ps[0]))
    requires j + |Encode(ps[0])| <= |bv| && DecodeByCount(bv, |ps[1..]|, j + |Encode(ps[0])|) == Some((ps[1..], e))
    ensures DecodeByCount(bv, |ps|, j) == Some((ps, e))
    decreases ps[0], 3
  {
    var p, rest := ps[0], ps[1..];
    DecodeEncode(bv, j, p);
    ByCountUnfold(bv, |ps|, j, p, j + |Encode(p)|, rest, e);
    assert [p] + rest == ps;
  }

  /** An encoded package followed by subpackages read by length. */
  lemma {:induction false} LengthStepEncoded(bv: seq<bool>, start: nat, total: nat, j: nat, p: Package, rest: seq<Package>, e: nat)
    requires WellFormed(p) && HoldsAt(bv, j, Encode(p)) && start <= j && j - start != total
    requires DecodeByLength(bv, start, total, j + |Encode(p)|) == Some((rest, e))
    ensures DecodeByLength(bv, start, total, j) == Some(([p] + rest, e))
    decreases p, 3
  {
    DecodeEncode(bv, j, p);
    ByLengthUnfold(bv, start, total, j, p, j + |Encode(p)|, rest, e);
  }

  /** Subpackages encoded one after the other are read back, by length. */
  lemma {:induction false} DecodeByLengthEncoded(bv: seq<bool>, start: nat, total: nat, j: nat, ps: seq<Package>)
    requires AllWellFormed(ps) && start <= j && HoldsAt(bv, j, EncodeAll(ps))
    requires total == j - start + |EncodeAll(ps)|
    ensures DecodeByLength(bv, start, total, j) == Some((ps, start + total))
    decreases ps, 1
  {
    if ps != [] {
      var p, rest := ps[0], ps[1..];
      assert EncodeAll(ps) == Encode(p) + EncodeAll(rest);
      HoldsAtSplit(bv, j, Encode(p), EncodeAll(rest));
      var k: nat := j + |Encode(p)|;
      DecodeByLengthEncoded(bv, start, total, k, rest);
      LengthStepEncoded(bv, start, total, j, p, rest, start + total);
      assert [p] + rest == ps;
    }
  }

  /** Subpackages encoded one after the other are read back, by count. */
  lemma {:induction false} DecodeByCountEncoded(bv: seq<bool>, j: nat, ps: seq<Package>)
    requires AllWellFormed(ps) && HoldsAt(bv, j, EncodeAll(ps))
    ensures DecodeByCount(bv, |ps|, j) == Some((ps, j + |EncodeAll(ps)|))
    decreases ps, 1
  {
    if ps == [] {
      assert EncodeAll(ps) == [];
      assert DecodeByCount(bv, 0, j) == Some(([], j));
    } else {
      var p, rest := ps[0], ps[1..];
      assert EncodeAll(ps) == Encode(p) + EncodeAll(rest);
      HoldsAtSplit(bv, j, Encode(p), EncodeAll(rest));
      var k: nat := j + |Encode(p)|;
      var e := k + |EncodeAll(rest)|;
      assert AllWellFormed(rest) && WellFormed(p);
      DecodeByCountEncoded(bv, k, rest);
      assert DecodeByCount(bv, |rest|, k) == Some((rest, e));
      CountStepEncoded(bv, j, ps, e);
      assert e == j + |EncodeAll(ps)|;
    }
  }

}
