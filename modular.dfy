// Arithmetic about quotients and remainders, shared by the puzzles that
// reduce numbers modulo a divisor.

module Modular {

  /** A remainder is determined by any decomposition `q * d + r` with
      `0 <= r < d`. */
  lemma ModUnique(x: int, q: int, r: int, d: int)
    requires d > 0 && 0 <= r < d && x == q * d + r
    ensures x % d == r && x / d == q
  {
    var k := q - x / d;
    assert k * d == x % d - r;
    MulBounds(k, d);
  }

  lemma {:induction false} MulBounds(k: int, d: int)
    requires d > 0
    ensures k > 0 ==> k * d >= d
    ensures k < 0 ==> k * d <= -d
    decreases if k > 0 then k else -k
  {
    if k > 1 {
      MulBounds(k - 1, d);
      assert k * d == (k - 1) * d + d;
    } else if k < -1 {
      MulBounds(k + 1, d);
      assert k * d == (k + 1) * d - d;
    }
  }

  lemma ModShift(a: int, b: int, d: int)
    requires d > 0
    ensures (a * d + b) % d == b % d
  {
    var q, r := b / d, b % d;
    assert a * d + b == (a + q) * d + r;
    ModUnique(a * d + b, a + q, r, d);
  }

  lemma Distrib(q: int, d: int, r: int, n: int)
    ensures (q * d + r) * n == (q * n) * d + r * n
  {
  }

  /** Multiplying by the same number keeps two congruent numbers
      congruent. */
  lemma ModMul(x: nat, y: nat, n: nat, d: nat)
    requires d > 0 && x % d == y % d
    ensures (x * n) % d == (y * n) % d
  {
    var r := x % d;
    var qx, qy := x / d, y / d;
    assert x == qx * d + r;
    assert y == qy * d + r;
    Distrib(qx, d, r, n);
    Distrib(qy, d, r, n);
    ModShift(qx * n, r * n, d);
    ModShift(qy * n, r * n, d);
  }

  /** Adding the same number keeps two congruent numbers congruent. */
  lemma ModAdd(x: nat, y: nat, n: nat, d: nat)
    requires d > 0 && x % d == y % d
    ensures (x + n) % d == (y + n) % d
  {
    var r := x % d;
    var qx, qy := x / d, y / d;
    assert x == qx * d + r;
    assert y == qy * d + r;
    ModShift(qx, r + n, d);
    ModShift(qy, r + n, d);
  }

  /** Numbers congruent modulo `big` are congruent modulo every divisor of
      `big`. */
  lemma ModDivisor(x: nat, y: nat, big: nat, d: nat)
    requires big > 0 && d > 0 && big % d == 0 && x % big == y % big
    ensures x % d == y % d
  {
    var r, k := x % big, big / d;
    var qx, qy := x / big, y / big;
    assert big == k * d;
    assert x == (qx * k) * d + r by {
      assert x == qx * big + r;
    }
    assert y == (qy * k) * d + r by {
      assert y == qy * big + r;
    }
    ModShift(qx * k, r, d);
    ModShift(qy * k, r, d);
  }
}
