// The 64-bit two's-complement arithmetic that the shell evaluates with: sums, products and
// powers wrap around, division truncates toward zero.
module Int64 {
  const MIN := -0x8000_0000_0000_0000
  const MAX := 0x7fff_ffff_ffff_ffff
  const MODULUS := 0x1_0000_0000_0000_0000

  type int64 = x: int | -0x8000_0000_0000_0000 <= x <= 0x7fff_ffff_ffff_ffff

  /** How many times 2^64 must be taken off `x` for the rest to fit in 64 signed bits. */
  function Carry(x: int): int {
    (x - MIN) / MODULUS
  }

  /** The representative of `x` modulo 2^64 that fits in 64 signed bits. */
  function Wrap(x: int): (w: int64)
    ensures x == w + Carry(x) * MODULUS
    ensures MIN <= x <= MAX ==> w == x
  {
    x - Carry(x) * MODULUS
  }

  /** Congruent integers wrap to the same word. */
  lemma {:induction false} WrapCongruent(x: int, k: int)
    ensures Wrap(x + k * MODULUS) == Wrap(x)
  {
    assert x + k * MODULUS - MIN == (x - MIN) + MODULUS * k;
    assert Carry(x + k * MODULUS) == Carry(x) + k;
  }

  /** Reducing a factor before multiplying does not change the wrapped product. */
  lemma {:induction false} WrapFactor(a: int, b: int)
    ensures Wrap(Wrap(a) * b) == Wrap(a * b)
    ensures Wrap(b * Wrap(a)) == Wrap(b * a)
  {
    var k := Carry(a);
    assert a * b == Wrap(a) * b + (k * b) * MODULUS by {
      assert (Wrap(a) + k * MODULUS) * b == Wrap(a) * b + k * MODULUS * b;
      assert k * MODULUS * b == (k * b) * MODULUS;
    }
    WrapCongruent(Wrap(a) * b, k * b);
    assert Wrap(a) * b == b * Wrap(a);
    assert a * b == b * a;
  }

  /** Go's `/` on signed integers: the quotient is truncated toward zero (and MIN / -1 wraps). */
  function TruncDiv(a: int, b: int): int
    requires b != 0
  {
    if a >= 0 then (if b > 0 then a / b else -(a / -b))
    else (if b > 0 then -(-a / b) else (-a) / (-b))
  }

  /** Go's `%`: the remainder takes the sign of the dividend. */
  function TruncMod(a: int, b: int): int
    requires b != 0
  {
    a - b * TruncDiv(a, b)
  }

  /** Truncating division is the one whose remainder is smaller than the divisor and never has
      the sign opposite to the dividend's. */
  lemma {:induction false} TruncDivMod(a: int, b: int)
    requires b != 0
    ensures a == b * TruncDiv(a, b) + TruncMod(a, b)
    ensures (if TruncMod(a, b) < 0 then -TruncMod(a, b) else TruncMod(a, b)) < (if b < 0 then -b else b)
    ensures TruncMod(a, b) != 0 ==> (TruncMod(a, b) < 0 <==> a < 0)
  {
    var m := if a < 0 then -a else a;
    var n := if b < 0 then -b else b;
    EuclideanParts(m, n);
    SignsCancel(n, m / n);
  }

  lemma EuclideanParts(m: nat, n: nat)
    requires n > 0
    ensures m == n * (m / n) + m % n && 0 <= m % n < n
  {
  }

  lemma SignsCancel(n: int, q: int)
    ensures (-n) * (-q) == n * q && n * (-q) == -(n * q) && (-n) * q == -(n * q)
  {
  }

  datatype BitOp = And | Or | Xor

  function Bit(op: BitOp, p: bool, q: bool): bool {
    match op
    case And => p && q
    case Or => p || q
    case Xor => p != q
  }

  /** The bitwise combination of two two's-complement numbers of `n` magnitude bits and a sign. */
  function Bitwise(op: BitOp, a: int, b: int, n: nat): int
    decreases n
  {
    if n == 0 then (if Bit(op, a < 0, b < 0) then -1 else 0)
    else 2 * Bitwise(op, a / 2, b / 2, n - 1) + (if Bit(op, a % 2 == 1, b % 2 == 1) then 1 else 0)
  }

  function Pow2(n: nat): (p: nat)
    ensures p >= 1
  {
    if n == 0 then 1 else 2 * Pow2(n - 1)
  }

  lemma Pow2Add(m: nat, n: nat)
    ensures Pow2(m + n) == Pow2(m) * Pow2(n)
  {
    if m > 0 { Pow2Add(m - 1, n); }
  }

  lemma Pow2Value()
    ensures Pow2(63) == 0x8000_0000_0000_0000
  {
    assert Pow2(7) == 128;
    Pow2Add(7, 7);
    Pow2Add(14, 7);
    Pow2Add(21, 21);
    Pow2Add(21, 42);
  }

  lemma {:induction false} BitwiseRange(op: BitOp, a: int, b: int, n: nat)
    ensures 0 - Pow2(n) <= Bitwise(op, a, b, n) < Pow2(n)
    decreases n
  {
    if n > 0 {
      BitwiseRange(op, a / 2, b / 2, n - 1);
    }
  }

  /** The 64-bit combination: 63 magnitude bits and the sign. */
  function Combine(op: BitOp, a: int64, b: int64): int64 {
    BitwiseRange(op, a, b, 63);
    Pow2Value();
    Bitwise(op, a, b, 63)
  }

  function Power(base: int, exp: nat): int {
    if exp == 0 then 1 else base * Power(base, exp - 1)
  }

  lemma {:induction false} PowerSquare(base: int, exp: nat)
    ensures Power(base * base, exp) == Power(base, 2 * exp)
  {
    if exp > 0 {
      PowerSquare(base, exp - 1);
      assert Power(base, 2 * exp) == base * (base * Power(base, 2 * exp - 2));
      assert base * (base * Power(base, 2 * exp - 2)) == (base * base) * Power(base, 2 * exp - 2);
    }
  }

  lemma {:induction false} WrapPower(base: int, exp: nat)
    ensures Wrap(Power(Wrap(base), exp)) == Wrap(Power(base, exp))
  {
    if exp > 0 {
      var p := Power(Wrap(base), exp - 1);
      WrapPower(base, exp - 1);
      calc {
        Wrap(Wrap(base) * p);
        { WrapFactor(base, p); }
        Wrap(base * p);
        { WrapFactor(p, base); }
        Wrap(base * Wrap(p));
        Wrap(base * Wrap(Power(base, exp - 1)));
        { WrapFactor(Power(base, exp - 1), base); }
        Wrap(base * Power(base, exp - 1));
      }
    }
  }

  /** The value of `base ** exp`: zero for a negative exponent, else the power modulo 2^64. */
  function PowerInt(base: int64, exp: int64): int64 {
    if exp < 0 then 0 else Wrap(Power(base, exp))
  }

  /** One square-and-multiply step on the exponent's lowest bit. */
  lemma {:induction false} PowerHalf(base: int, exp: nat)
    requires exp > 0
    ensures Power(base, exp) == (if exp % 2 == 1 then base else 1) * Power(base * base, exp / 2)
  {
    PowerSquare(base, exp / 2);
  }

  lemma {:induction false} PowerStep(result: int, factor: int, base: int, h: nat)
    ensures Wrap(Wrap(result * factor) * Power(Wrap(base * base), h)) == Wrap(result * (factor * Power(base * base, h)))
  {
    hide *;
    var q := Power(base * base, h);
    calc {
      Wrap(Wrap(result * factor) * Power(Wrap(base * base), h));
      { WrapFactor(result * factor, Power(Wrap(base * base), h)); }
      Wrap((result * factor) * Power(Wrap(base * base), h));
      { WrapFactor(Power(Wrap(base * base), h), result * factor); }
      Wrap((result * factor) * Wrap(Power(Wrap(base * base), h)));
      { WrapPower(base * base, h); }
      Wrap((result * factor) * Wrap(q));
      { WrapFactor(q, result * factor); }
      Wrap((result * factor) * q);
      { assert (result * factor) * q == result * (factor * q); }
      Wrap(result * (factor * q));
    }
  }

  /** What the loop still has to deliver: the running product times the remaining power. */
  ghost function Pending(result: int, base: int, exp: nat): int {
    Wrap(result * Power(base, exp))
  }

  lemma {:induction false} PendingStep(result: int64, base: int, exp: nat)
    requires exp > 0
    ensures Pending(if exp % 2 == 1 then Wrap(result * base) else result, Wrap(base * base), exp / 2)
         == Pending(result, base, exp)
  {
    PowerHalf(base, exp);
    PowerStep(result, if exp % 2 == 1 then base else 1, base, exp / 2);
    assert result * 1 == result;
  }

  /** Square-and-multiply on wrapping words computes the true power modulo 2^64. */
  method PowInt(base: int64, exp: int64) returns (result: int64)
    ensures result == PowerInt(base, exp)
  {
    if exp < 0 {
      return 0;
    }
    result := 1;
    var b: int, e: int := base, exp;
    assert Pending(result, b, e) == Wrap(Power(base, exp));
    while e > 0
      invariant 0 <= e <= exp
      invariant Pending(result, b, e) == Wrap(Power(base, exp))
    {
      hide *;
      PendingStep(result, b, e);
      if e % 2 == 1 {
        result := Wrap(result * b);
      }
      b := Wrap(b * b);
      e := e / 2;
    }
  }
}
