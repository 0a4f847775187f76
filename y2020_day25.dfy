// Combo Breaker: a card and a door each publish `7^loop mod 20201227` for
// a secret loop size. Finding the loop size of one public key by trial and
// raising the other public key to that many steps gives the encryption key
// both sides agree on.

module ComboBreaker {
  import opened Modular

  const Divider: nat := 20201227
  const Subject: nat := 7

  /** The value after `loop` steps of the transformation: start from 1
      and, each step, multiply by `subject` and keep the remainder modulo
      `Divider`. */
  function Transform(subject: nat, loop: nat): nat {
    if loop == 0 then 1 else Transform(subject, loop - 1) * subject % Divider
  }

  function Pow(b: nat, e: nat): nat {
    if e == 0 then 1 else Pow(b, e - 1) * b
  }

  /** `k` is the least loop size whose transformation of the subject 7
      gives `key`. */
  predicate IsLoopSize(key: nat, k: nat) {
    Transform(Subject, k) == key &&
    forall j :: 0 <= j < k ==> Transform(Subject, j) != key
  }

  // ---------------------------------------------------------------------
  // The loops

  /** `get_loop_size`: tries loop sizes 0, 1, 2, ... until the
      transformation of 7 gives the key. It stops only when some loop size
      gives the key, hence the precondition. */
  method GetLoopSize(pubKey: nat) returns (cardLoop: nat)
    requires exists k: nat :: Transform(Subject, k) == pubKey
    ensures IsLoopSize(pubKey, cardLoop)
  {
    ghost var hit: nat :| Transform(Subject, hit) == pubKey;
    var value := 1;
    cardLoop := 0;
    while value != pubKey
      invariant value == Transform(Subject, cardLoop)
      invariant forall j :: 0 <= j < cardLoop ==> Transform(Subject, j) != pubKey
      invariant cardLoop <= hit
      decreases hit - cardLoop
    {
      value := value * Subject % Divider;
      cardLoop := cardLoop + 1;
    }
  }

  /** `get_encryption`: `otherLoopSize` steps of the transformation of
      `pubKey`, which is `pubKey` to that power modulo `Divider`. */
  method GetEncryption(pubKey: nat, otherLoopSize: nat) returns (value: nat)
    ensures value == Transform(pubKey, otherLoopSize)
    ensures value == Pow(pubKey, otherLoopSize) % Divider
  {
    value := 1;
    for i := 0 to otherLoopSize
      invariant value == Transform(pubKey, i)
    {
      value := value * pubKey % Divider;
    }
    TransformPow(pubKey, otherLoopSize);
  }

  /** `part1`: the door's loop size applied to the card's public key. The
      card, applying its own loop size to the door's key, finds the same
      encryption key. */
  method Part1(cardPub: nat, doorPub: nat) returns (enc: nat)
    requires exists k: nat :: Transform(Subject, k) == doorPub
    ensures exists dl :: IsLoopSize(doorPub, dl) && enc == Pow(cardPub, dl) % Divider
    ensures forall c :: Transform(Subject, c) == cardPub ==> enc == Transform(doorPub, c)
  {
    var dl := GetLoopSize(doorPub);
    enc := GetEncryption(cardPub, dl);
    forall c | Transform(Subject, c) == cardPub
      ensures enc == Transform(doorPub, c)
    {
      Symmetric(c, dl);
    }
  }

  // ---------------------------------------------------------------------
  // Powers and remainders

  /** A remainder taken twice is the remainder. */
  lemma ModTwice(x: nat, m: nat)
    requires m > 0
    ensures (x % m) % m == x % m
  {
    ModUnique(x % m, 0, x % m, m);
  }

  /** The transformation is the power, reduced modulo `Divider`. */
  lemma {:induction false} TransformPow(s: nat, k: nat)
    ensures Transform(s, k) == Pow(s, k) % Divider
  {
    if k > 0 {
      TransformPow(s, k - 1);
      ModTwice(Pow(s, k - 1), Divider);
      ModMul(Transform(s, k - 1), Pow(s, k - 1), s, Divider);
    }
  }

  /** Reducing the base first does not change the power's remainder. */
  lemma {:induction false} PowModBase(a: nat, k: nat, m: nat)
    requires m > 0
    ensures Pow(a % m, k) % m == Pow(a, k) % m
  {
    if k > 0 {
      var r, p, pr := a % m, Pow(a, k - 1), Pow(a % m, k - 1);
      PowModBase(a, k - 1, m);
      ModMul(pr, p, r, m);
      ModTwice(a, m);
      ModMul(r, a, p, m);
      assert Pow(a % m, k) == pr * r;
      assert Pow(a, k) == p * a;
    }
  }

  lemma {:induction false} PowAdd(b: nat, x: nat, y: nat)
    ensures Pow(b, x + y) == Pow(b, x) * Pow(b, y)
  {
    if y > 0 {
      PowAdd(b, x, y - 1);
      Associate(Pow(b, x), Pow(b, y - 1), b);
    }
  }

  lemma Associate(x: nat, y: nat, z: nat)
    ensures (x * y) * z == x * (y * z)
  {
  }

  lemma {:induction false} PowMul(b: nat, c: nat, d: nat)
    ensures Pow(Pow(b, c), d) == Pow(b, c * d)
  {
    if d > 0 {
      PowMul(b, c, d - 1);
      PowAdd(b, c * (d - 1), c);
      assert c * (d - 1) + c == c * d;
    }
  }

  // ---------------------------------------------------------------------
  // The handshake

  /** Each side transforms the other's public key by its own loop size and
      both find `7^(c * d) mod Divider`. */
  lemma Symmetric(c: nat, d: nat)
    ensures Transform(Transform(Subject, c), d) == Transform(Transform(Subject, d), c)
  {
    TransformPow(Subject, c);
    TransformPow(Subject, d);
    TransformPow(Transform(Subject, c), d);
    TransformPow(Transform(Subject, d), c);
    PowModBase(Pow(Subject, c), d, Divider);
    PowModBase(Pow(Subject, d), c, Divider);
    PowMul(Subject, c, d);
    PowMul(Subject, d, c);
    assert c * d == d * c;
  }

  /** The powers of 7 up to loop size 11, among them the example's public
      keys 5764801 and 17807724. */
  lemma SevenPowers()
    ensures Transform(Subject, 8) == 5764801 && Transform(Subject, 11) == 17807724
    ensures forall j :: 0 <= j < 8 ==> Transform(Subject, j) < 5764801
    ensures forall j :: 0 <= j < 11 ==> Transform(Subject, j) != 17807724
  {
    assert Transform(7, 0) == 1;
    assert Transform(7, 1) == 7;
    assert Transform(7, 2) == 49;
    assert Transform(7, 3) == 343;
    assert Transform(7, 4) == 2401;
    assert Transform(7, 5) == 16807;
    assert Transform(7, 6) == 117649;
    assert Transform(7, 7) == 823543;
    assert Transform(7, 8) == 5764801;
    assert Transform(7, 9) == 20152380;
    assert Transform(7, 10) == 19859298;
    assert Transform(7, 11) == 17807724;
  }

  /** A key has at most one least loop size. */
  lemma LoopSizeUnique(key: nat, a: nat, b: nat)
    ensures IsLoopSize(key, a) && IsLoopSize(key, b) ==> a == b
  {
  }

  /** The example: the card's key 5764801 has loop size 8, the door's key
      17807724 has loop size 11 ... */
  lemma ExampleLoopSizes()
    ensures forall k :: IsLoopSize(5764801, k) <==> k == 8
    ensures forall k :: IsLoopSize(17807724, k) <==> k == 11
  {
    SevenPowers();
    assert IsLoopSize(5764801, 8) && IsLoopSize(17807724, 11);
    forall k: nat
      ensures IsLoopSize(5764801, k) <==> k == 8
      ensures IsLoopSize(17807724, k) <==> k == 11
    {
      LoopSizeUnique(5764801, k, 8);
      LoopSizeUnique(17807724, k, 11);
    }
  }

  /** ... and both sides derive the encryption key 14897079. */
  lemma ExampleKey()
    ensures Transform(5764801, 11) == 14897079 && Transform(17807724, 8) == 14897079
  {
    assert Transform(5764801, 0) == 1;
    assert Transform(5764801, 1) == 5764801;
    assert Transform(5764801, 2) == 13239263;
    assert Transform(5764801, 3) == 6286092;
    assert Transform(5764801, 4) == 17588834;
    assert Transform(5764801, 5) == 8144799;
    assert Transform(5764801, 6) == 19339482;
    assert Transform(5764801, 7) == 16501187;
    assert Transform(5764801, 8) == 16669039;
    assert Transform(5764801, 9) == 11273191;
    assert Transform(5764801, 10) == 12070132;
    assert Transform(5764801, 11) == 14897079;
    assert Transform(17807724, 0) == 1;
    assert Transform(17807724, 1) == 17807724;
    assert Transform(17807724, 2) == 10847306;
    assert Transform(17807724, 3) == 1914476;
    assert Transform(17807724, 4) == 874663;
    assert Transform(17807724, 5) == 5243202;
    assert Transform(17807724, 6) == 8733831;
    assert Transform(17807724, 7) == 1213104;
    assert Transform(17807724, 8) == 14897079;
  }
}
