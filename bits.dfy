/**
 * Bitwise operators on non-negative integers, as PHP evaluates `&`, `|`
 * and `~ b & 0x7FFF` on the machine's (never negative) word values.
 * Each operator is defined bit by bit, least significant bit first.
 */
module Bits {

  function Pow2(k: nat): (r: nat)
    ensures r >= 1
  {
    if k == 0 then 1 else 2 * Pow2(k - 1)
  }

  /** Bitwise AND (`a & b`). */
  function And(a: nat, b: nat): nat
  {
    if a == 0 || b == 0 then 0
    else 2 * And(a / 2, b / 2) + (if a % 2 == 1 && b % 2 == 1 then 1 else 0)
  }

  /** Bitwise OR (`a | b`). */
  function Or(a: nat, b: nat): nat
  {
    if a == 0 then b
    else if b == 0 then a
    else 2 * Or(a / 2, b / 2) + (if a % 2 == 1 || b % 2 == 1 then 1 else 0)
  }

  /** The `k` low bits of `b`, each inverted: `~b & (2^k - 1)`. */
  function InvertLow(b: nat, k: nat): nat
  {
    if k == 0 then 0 else 2 * InvertLow(b / 2, k - 1) + (1 - b % 2)
  }

  /** The 15-bit bitwise inverse `~b & 0x7FFF`. */
  function Not15(b: nat): nat
  {
    InvertLow(b, 15)
  }

  lemma Pow2Of15()
    ensures Pow2(15) == 32768
  {
    assert Pow2(5) == 32;
    assert Pow2(10) == 1024;
  }

  /** `a & b` never exceeds either operand. */
  lemma {:induction false} AndBelowBoth(a: nat, b: nat)
    ensures And(a, b) <= a && And(a, b) <= b
  {
    if a != 0 && b != 0 {
      AndBelowBoth(a / 2, b / 2);
    }
  }

  lemma {:induction false} AndCommutes(a: nat, b: nat)
    ensures And(a, b) == And(b, a)
  {
    if a != 0 && b != 0 {
      AndCommutes(a / 2, b / 2);
    }
  }

  lemma {:induction false} OrCommutes(a: nat, b: nat)
    ensures Or(a, b) == Or(b, a)
  {
    if a != 0 && b != 0 {
      OrCommutes(a / 2, b / 2);
    }
  }

  lemma {:induction false} OrIdempotent(a: nat)
    ensures Or(a, a) == a
  {
    if a != 0 {
      OrIdempotent(a / 2);
    }
  }

  /** `a | b` has no bit above the highest bit of its operands. */
  lemma {:induction false} OrBelowPow2(a: nat, b: nat, k: nat)
    requires a < Pow2(k) && b < Pow2(k)
    ensures Or(a, b) < Pow2(k)
  {
    if a != 0 && b != 0 {
      assert k > 0;
      OrBelowPow2(a / 2, b / 2, k - 1);
    }
  }

  /** Splitting off the lowest bit of a remainder modulo `2 * p`. */
  lemma ModDoubled(b: nat, p: nat)
    requires p >= 1
    ensures b % (2 * p) == 2 * ((b / 2) % p) + b % 2
  {
    var q, r := b / 2, b % 2;
    var m, t := q / p, q % p;
    assert b == 2 * p * m + (2 * t + r) by {
      assert b == 2 * q + r;
      assert q == p * m + t;
    }
    assert 0 <= 2 * t + r < 2 * p;
    ModUnique(b, 2 * p, m, 2 * t + r);
  }

  lemma ModUnique(b: int, d: int, m: int, r: int)
    requires d > 0 && 0 <= r < d && b == d * m + r
    ensures b % d == r
  {
    var q0, r0 := b / d, b % d;
    var k := m - q0;
    assert d * k == r0 - r by {
      assert b == d * q0 + r0;
      assert d * m - d * q0 == d * k;
    }
    if k > 0 {
      MulAtLeast(d, k);
    } else if k < 0 {
      assert d * (-k) == -(d * k);
      MulAtLeast(d, -k);
    }
  }

  lemma {:induction false} MulAtLeast(d: int, k: int)
    requires d > 0 && k > 0
    ensures d * k >= d
    decreases k
  {
    if k > 1 {
      MulAtLeast(d, k - 1);
      assert d * k == d * (k - 1) + d;
    }
  }

  /** Inverting the `k` low bits is subtracting them from `2^k - 1`. */
  lemma {:induction false} InvertLowValue(b: nat, k: nat)
    ensures InvertLow(b, k) == Pow2(k) - 1 - b % Pow2(k)
  {
    if k > 0 {
      InvertLowValue(b / 2, k - 1);
      ModDoubled(b, Pow2(k - 1));
    }
  }

  /** `~b & 0x7FFF` is `32767 - (b mod 32768)`, so it is always a 15-bit value. */
  lemma Not15Value(b: nat)
    ensures Not15(b) == 32767 - b % 32768
    ensures Not15(b) < 32768
  {
    InvertLowValue(b, 15);
    Pow2Of15();
  }

  /** On 15-bit values `not` is an involution and complements to 32767. */
  lemma Not15Involution(b: nat)
    requires b < 32768
    ensures Not15(Not15(b)) == b
    ensures b + Not15(b) == 32767
  {
    Not15Value(b);
    ModUnique(b, 32768, 0, b);
    var n := Not15(b);
    assert n == 32767 - b;
    Not15Value(n);
    ModUnique(n, 32768, 0, n);
  }
}
