/** Powers of two and the bitwise operations of Python's unbounded integers. */
module Bits {

  function Pow2(k: nat): (r: nat)
    ensures r > 0
  {
    if k == 0 then 1 else 2 * Pow2(k - 1)
  }

  lemma {:induction false} PowAdd(a: nat, b: nat)
    ensures Pow2(a + b) == Pow2(a) * Pow2(b)
  {
    if a > 0 {
      PowAdd(a - 1, b);
      Double(Pow2(a - 1), Pow2(b));
    }
  }

  lemma Double(x: nat, y: nat)
    ensures (2 * x) * y == 2 * (x * y)
  {
  }

  lemma {:induction false} PowGrows(a: nat, b: nat)
    requires a <= b
    ensures Pow2(a) <= Pow2(b)
  {
    if a < b {
      PowGrows(a, b - 1);
    }
  }

  /** a | b for non-negative numbers. */
  function BitOr(a: nat, b: nat): nat {
    if a == 0 && b == 0 then 0
    else 2 * BitOr(a / 2, b / 2) + if a % 2 == 1 || b % 2 == 1 then 1 else 0
  }

  /** a & ~b for non-negative numbers. */
  function BitAndNot(a: nat, b: nat): nat {
    if a == 0 then 0
    else 2 * BitAndNot(a / 2, b / 2) + if a % 2 == 1 && b % 2 == 0 then 1 else 0
  }

  /** a | b where a may be negative: in two's complement ~(~a & ~b). */
  function Or(a: int, b: nat): int {
    if a >= 0 then BitOr(a, b) else -1 - BitAndNot(-a - 1, b)
  }

  /** Below bit k only a, from bit k on only b: or is addition. */
  lemma {:induction false} OrApart(a: nat, q: nat, k: nat)
    requires a < Pow2(k)
    ensures BitOr(a, q * Pow2(k)) == a + q * Pow2(k)
  {
    if k == 0 {
      OrZero(q);
    } else {
      var b := q * Pow2(k - 1);
      assert q * Pow2(k) == 2 * b by { Double(Pow2(k - 1), q); }
      OrApart(a / 2, q, k - 1);
      if a != 0 || b != 0 {
        assert (2 * b) / 2 == b && (2 * b) % 2 == 0;
      }
    }
  }

  lemma {:induction false} OrZero(b: nat)
    ensures BitOr(0, b) == b
  {
    if b > 0 {
      OrZero(b / 2);
    }
  }

  lemma {:induction false} AndNotApart(a: nat, q: nat, k: nat)
    requires a < Pow2(k)
    ensures BitAndNot(a, q * Pow2(k)) == a
  {
    if k > 0 && a > 0 {
      var b := q * Pow2(k - 1);
      assert q * Pow2(k) == 2 * b by { Double(Pow2(k - 1), q); }
      AndNotApart(a / 2, q, k - 1);
      assert (2 * b) / 2 == b && (2 * b) % 2 == 0;
    }
  }

  /** Cutting a sum of a low and a high part. */
  lemma Cut(a: nat, q: nat, d: nat)
    requires a < d
    ensures (a + q * d) / d == q && (a + q * d) % d == a
  {
    var x := a + q * d;
    var e := x / d;
    assert x == e * d + x % d;
    Spread(e, q, d);
    Spread(q, e, d);
  }

  lemma {:induction false} Spread(a: nat, b: nat, d: nat)
    ensures a < b ==> a * d + d <= b * d
  {
    if a < b {
      assert b * d == (b - 1) * d + d;
      Spread(a, b - 1, d);
    }
  }
}
