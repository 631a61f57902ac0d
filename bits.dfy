/**
 * Python's bit operators on non-negative integers, which have no width:
 * `x << k`, `x >> k`, `a & b` and `a | b`, and the facts the converters
 * rely on when they split an ID into bytes and join two bytes into an ID.
 */
module Bits {

  function Pow2(k: nat): (p: nat)
    ensures p >= 1
  {
    if k == 0 then 1 else 2 * Pow2(k - 1)
  }

  /** `x << k`: a zero bit appended k times. */
  function ShiftLeft(x: nat, k: nat): nat {
    if k == 0 then x else 2 * ShiftLeft(x, k - 1)
  }

  /** `x >> k` for `x >= 0`: the lowest bit dropped k times. */
  function ShiftRight(x: nat, k: nat): nat {
    if k == 0 then x else ShiftRight(x / 2, k - 1)
  }

  /** `a & b`, bit by bit from the least significant end. */
  function BitAnd(a: nat, b: nat): nat
    decreases a
  {
    if a == 0 || b == 0 then 0
    else 2 * BitAnd(a / 2, b / 2) + (if a % 2 == 1 && b % 2 == 1 then 1 else 0)
  }

  /** `a | b`, bit by bit from the least significant end. */
  function BitOr(a: nat, b: nat): nat
    decreases a + b
  {
    if a == 0 && b == 0 then 0
    else 2 * BitOr(a / 2, b / 2) + (if a % 2 == 1 || b % 2 == 1 then 1 else 0)
  }

  lemma {:induction false} OrZero(a: nat)
    ensures BitOr(a, 0) == a
  {
    if a != 0 {
      OrZero(a / 2);
    }
  }

  /** Or-ing in a number below 2^k after a shift by k is addition: the bits do not overlap. */
  lemma {:induction false} OrOfShifted(x: nat, lo: nat, k: nat)
    requires lo < Pow2(k)
    ensures BitOr(ShiftLeft(x, k), lo) == ShiftLeft(x, k) + lo
  {
    if k == 0 {
      OrZero(x);
    } else {
      var a := ShiftLeft(x, k);
      assert a / 2 == ShiftLeft(x, k - 1) && a % 2 == 0;
      OrOfShifted(x, lo / 2, k - 1);
    }
  }

  lemma {:induction false} MulAtLeast(d: nat, z: nat)
    requires z >= 1
    ensures d * z >= d
  {
    if z > 1 {
      MulAtLeast(d, z - 1);
      assert d * z == d * (z - 1) + d;
    }
  }

  /** The quotient and remainder of division are the only ones. */
  lemma DivModUnique(v: int, d: int, q: int, r: int)
    requires d > 0 && 0 <= r < d && v == d * q + r
    ensures v / d == q && v % d == r
  {
    var q', r' := v / d, v % d;
    assert v == d * q' + r';
    if q > q' {
      MulAtLeast(d, q - q');
    } else if q < q' {
      MulAtLeast(d, q' - q);
    }
  }

  /** Dividing by 2p is halving and then dividing by p; the remainder is rebuilt the same way. */
  lemma HalveDivMod(v: nat, p: nat)
    requires p >= 1
    ensures v / (2 * p) == (v / 2) / p
    ensures v % (2 * p) == 2 * ((v / 2) % p) + v % 2
  {
    var h := v / 2;
    var q, t := h / p, h % p;
    assert h == p * q + t;
    assert v == 2 * h + v % 2;
    assert v == (2 * p) * q + (2 * t + v % 2);
    DivModUnique(v, 2 * p, q, 2 * t + v % 2);
  }

  /** `x << k` is multiplication by 2^k. */
  lemma {:induction false} ShiftLeftMul(x: nat, k: nat)
    ensures ShiftLeft(x, k) == x * Pow2(k)
  {
    if k > 0 {
      ShiftLeftMul(x, k - 1);
      assert x * Pow2(k) == 2 * (x * Pow2(k - 1));
    }
  }

  /** `x >> k` is floor division by 2^k. */
  lemma {:induction false} ShiftRightDiv(x: nat, k: nat)
    ensures ShiftRight(x, k) == x / Pow2(k)
  {
    if k > 0 {
      ShiftRightDiv(x / 2, k - 1);
      HalveDivMod(x, Pow2(k - 1));
    }
  }

  /** One step of `a & (2p - 1)`: the low bit of `a` is kept, the rest is masked by `p - 1`. */
  lemma AndStep(v: nat, p: nat)
    requires v > 0 && p >= 1
    ensures BitAnd(v, 2 * p - 1) == 2 * BitAnd(v / 2, p - 1) + v % 2
  {
    var m := 2 * p - 1;
    assert m / 2 == p - 1 && m % 2 == 1;
  }

  /** Masking with 2^k - 1 keeps the k lowest bits: the remainder modulo 2^k. */
  lemma {:induction false} AndMask(v: nat, k: nat)
    ensures BitAnd(v, Pow2(k) - 1) == v % Pow2(k)
  {
    if k == 0 {
      assert Pow2(k) - 1 == 0;
    } else if v == 0 {
      assert v % Pow2(k) == 0;
    } else {
      var p := Pow2(k - 1);
      assert Pow2(k) == 2 * p;
      AndMask(v / 2, k - 1);
      AndStep(v, p);
      HalveDivMod(v, p);
      assert BitAnd(v, 2 * p - 1) == 2 * ((v / 2) % p) + v % 2;
      assert v % (2 * p) == 2 * ((v / 2) % p) + v % 2;
    }
  }
}
