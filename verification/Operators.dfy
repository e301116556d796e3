// What the operators of shell arithmetic compute, said of integers and bits and not of the code.
module Operators {
  import opened Int64
  import opened Options
  import opened Arith

  predicate Congruent(x: int, y: int) { (x - y) % MODULUS == 0 }

  /** Bit `k` of a two's-complement number. */
  predicate BitAt(x: int, k: nat) { x / Pow2(k) % 2 == 1 }

  predicate Shift(op: BinOp) { op == ShiftLeft || op == ShiftRight }

  predicate Division(op: BinOp) { op == Divide || op == Modulo }

  /** A negative shift count and a zero divisor have no result. */
  predicate Defined(op: BinOp, a: int64, b: int64) {
    (Shift(op) ==> b >= 0) && (Division(op) ==> b != 0)
  }

  /** Quotient and remainder, truncated toward zero. */
  predicate Truncated(a: int, b: int, q: int, r: int) {
    a == b * q + r && Abs(r) < Abs(b) && (a >= 0 ==> r >= 0) && (a <= 0 ==> r <= 0)
  }

  function Abs(x: int): nat { if x < 0 then -x else x }

  predicate Is(w: int64, claim: bool) { w == if claim then 1 else 0 }

  /** `w` is what the operator yields. */
  ghost predicate Yields(op: BinOp, a: int64, b: int64, w: int64)
    requires Defined(op, a, b)
  {
    match op
    case LogOr => Is(w, a != 0 || b != 0)
    case LogAnd => Is(w, a != 0 && b != 0)
    case BitwiseOr => forall k: nat :: k < 64 ==> (BitAt(w, k) <==> BitAt(a, k) || BitAt(b, k))
    case BitwiseXor => forall k: nat :: k < 64 ==> (BitAt(w, k) <==> BitAt(a, k) != BitAt(b, k))
    case BitwiseAnd => forall k: nat :: k < 64 ==> (BitAt(w, k) <==> BitAt(a, k) && BitAt(b, k))
    case Equal => Is(w, a == b)
    case NotEqual => Is(w, a != b)
    case LessEqual => Is(w, a <= b)
    case GreaterEqual => Is(w, a >= b)
    case Less => Is(w, a < b)
    case Greater => Is(w, a > b)
    case ShiftLeft => Congruent(w, a * Pow2(b))
    case ShiftRight => w * Pow2(b) <= a < (w + 1) * Pow2(b)
    case Plus => Congruent(w, a + b)
    case Minus => Congruent(w, a - b)
    case Times => Congruent(w, a * b)
    case Divide => exists q, r :: Truncated(a, b, q, r) && Congruent(w, q)
    case Modulo => exists q :: Truncated(a, b, q, w)
    case Raise => if b < 0 then w == 0 else Congruent(w, Power(a, b))
  }

  ghost predicate UnaryYields(op: UnOp, a: int64, w: int64) {
    match op
    case Negate => Congruent(w, 0 - a as int)
    case Identity => w == a
    case Not => Is(w, a == 0)
    case Complement => forall k: nat :: k < 64 ==> (BitAt(w, k) <==> !BitAt(a, k))
  }

  // ----- at most one word -----

  lemma CongruentWords(v: int64, w: int64, x: int)
    requires Congruent(v, x) && Congruent(w, x)
    ensures v == w
  {
    var j, k := (v - x) / MODULUS, (w - x) / MODULUS;
    assert v - w == (j - k) * MODULUS;
  }

  lemma HalfBit(x: int, k: nat)
    ensures BitAt(x, k + 1) <==> BitAt(x / 2, k)
    ensures BitAt(x, 0) <==> x % 2 == 1
  {
    DivDiv(x, Pow2(k));
  }

  lemma DivDiv(x: int, p: nat)
    requires p > 0
    ensures x / (2 * p) == x / 2 / p
  {
    var q := x / 2 / p;
    var r := x / 2 - p * q;
    assert 0 <= r < p;
    assert x == 2 * p * q + (2 * r + x % 2) by { assert 2 * (p * q) == 2 * p * q; }
    Quotient(x, 2 * p, q, 2 * r + x % 2);
  }

  lemma Quotient(x: int, p: nat, q: int, r: nat)
    requires p > 0 && x == p * q + r && r < p
    ensures x / p == q && x % p == r
  {
    var d := x / p - q;
    assert p * d == r - x % p by { assert p * (x / p - q) == p * (x / p) - p * q; }
    assert Abs(p * d) < p;
    NoMultipleBetween(p, d);
  }

  lemma NoMultipleBetween(p: nat, d: int)
    requires Abs(p * d) < p
    ensures d == 0
  {
    if d != 0 {
      AbsProduct(p, d);
    }
  }

  lemma Multiples(p: nat, d: nat)
    requires d > 0
    ensures p * d >= p
  {
  }

  /** Numbers of `n` bits and a sign with the same bits are the same. */
  lemma {:induction false} BitsDetermine(v: int, w: int, n: nat)
    requires 0 - Pow2(n) <= v < Pow2(n) && 0 - Pow2(n) <= w < Pow2(n)
    requires forall k: nat :: k <= n ==> (BitAt(v, k) <==> BitAt(w, k))
    ensures v == w
    decreases n
  {
    if n == 0 {
      HalfBit(v, 0);
      HalfBit(w, 0);
    } else {
      HalfBit(v, 0);
      HalfBit(w, 0);
      assert BitAt(v, 0) <==> BitAt(w, 0);
      forall k: nat | k <= n - 1 ensures BitAt(v / 2, k) <==> BitAt(w / 2, k) {
        HalfBit(v, k);
        HalfBit(w, k);
        assert BitAt(v, k + 1) <==> BitAt(w, k + 1);
      }
      BitsDetermine(v / 2, w / 2, n - 1);
    }
  }

  lemma TruncatedOnce(a: int, b: int, q: int, r: int, q': int, r': int)
    requires b != 0 && Truncated(a, b, q, r) && Truncated(a, b, q', r')
    ensures q == q' && r == r'
  {
    var d := q - q';
    assert b * d == r' - r by { assert b * (q - q') == b * q - b * q'; }
    if d != 0 {
      AbsProduct(b, d);
    }
  }

  lemma AbsProduct(b: int, d: int)
    requires d != 0
    ensures Abs(b * d) >= Abs(b)
  {
    if d > 0 {
      if b >= 0 { Multiples(b, d); } else { Multiples(-b, d); assert (-b) * d == -(b * d); }
    } else {
      if b >= 0 { Multiples(b, -d); assert b * -d == -(b * d); } else { Multiples(-b, -d); assert (-b) * -d == b * d; }
    }
  }

  lemma FloorOnce(a: int, p: nat, v: int, w: int)
    requires p > 0 && v * p <= a < (v + 1) * p && w * p <= a < (w + 1) * p
    ensures v == w
  {
    if v < w {
      Ordered(v + 1, w, p);
    } else if w < v {
      Ordered(w + 1, v, p);
    }
  }

  lemma Ordered(x: int, y: int, p: nat)
    requires x <= y
    ensures x * p <= y * p
  {
    assert (y - x) * p >= 0;
    assert (y - x) * p == y * p - x * p;
  }

  /** The word an operator yields is determined. */
  lemma YieldsOne(op: BinOp, a: int64, b: int64, v: int64, w: int64)
    requires Defined(op, a, b) && Yields(op, a, b, v) && Yields(op, a, b, w)
    ensures v == w
  {
    hide BitAt, Congruent, Truncated, Power, Pow2;
    match op
    case BitwiseOr => SameBits(v, w);
    case BitwiseXor => SameBits(v, w);
    case BitwiseAnd => SameBits(v, w);
    case ShiftLeft => CongruentWords(v, w, a * Pow2(b));
    case ShiftRight => FloorOnce(a, Pow2(b), v, w);
    case Plus => CongruentWords(v, w, a + b);
    case Minus => CongruentWords(v, w, a - b);
    case Times => CongruentWords(v, w, a * b);
    case Divide =>
      var q, r :| Truncated(a, b, q, r) && Congruent(v, q);
      var q', r' :| Truncated(a, b, q', r') && Congruent(w, q');
      TruncatedOnce(a, b, q, r, q', r');
      CongruentWords(v, w, q);
    case Modulo =>
      var q :| Truncated(a, b, q, v);
      var q' :| Truncated(a, b, q', w);
      TruncatedOnce(a, b, q, v, q', w);
    case Raise => if b >= 0 { CongruentWords(v, w, Power(a, b)); }
    case _ =>
  }

  lemma SameBits(v: int64, w: int64)
    requires forall k: nat :: k < 64 ==> (BitAt(v, k) <==> BitAt(w, k))
    ensures v == w
  {
    hide BitAt;
    Pow2Value();
    BitsDetermine(v, w, 63);
  }

  lemma UnaryYieldsOne(op: UnOp, a: int64, v: int64, w: int64)
    requires UnaryYields(op, a, v) && UnaryYields(op, a, w)
    ensures v == w
  {
    hide BitAt, Congruent;
    match op
    case Negate => CongruentWords(v, w, 0 - a as int);
    case Complement => SameBits(v, w);
    case _ =>
  }

  // ----- the code yields it -----

  lemma WrapIsCongruent(x: int)
    ensures Congruent(Wrap(x), x)
  {
    assert Wrap(x) - x == -Carry(x) * MODULUS;
  }

  /** Every bit of the bitwise combination is the combination of the bits. */
  lemma {:induction false} BitwiseBits(op: BitOp, a: int, b: int, n: nat, k: nat)
    requires k <= n && 0 - Pow2(n) <= a < Pow2(n) && 0 - Pow2(n) <= b < Pow2(n)
    ensures BitAt(Bitwise(op, a, b, n), k) <==> Bit(op, BitAt(a, k), BitAt(b, k))
    decreases n
  {
    hide BitAt, Bit;
    if k == 0 {
      LowestBit(op, a, b, n);
    } else {
      HigherBits(op, a, b, n);
      HalfBit(a, k - 1);
      HalfBit(b, k - 1);
      HalfBit(Bitwise(op, a, b, n), k - 1);
      BitwiseBits(op, a / 2, b / 2, n - 1, k - 1);
    }
  }

  lemma LowestBit(op: BitOp, a: int, b: int, n: nat)
    requires 0 - Pow2(n) <= a < Pow2(n) && 0 - Pow2(n) <= b < Pow2(n)
    ensures BitAt(Bitwise(op, a, b, n), 0) <==> Bit(op, BitAt(a, 0), BitAt(b, 0))
  {
    hide BitAt, Bit, Bitwise, Pow2;
    HalfBit(a, 0);
    HalfBit(b, 0);
    HalfBit(Bitwise(op, a, b, n), 0);
    Parity(op, a, b, n);
  }

  lemma Parity(op: BitOp, a: int, b: int, n: nat)
    requires 0 - Pow2(n) <= a < Pow2(n) && 0 - Pow2(n) <= b < Pow2(n)
    ensures Bitwise(op, a, b, n) % 2 == 1 <==> Bit(op, a % 2 == 1, b % 2 == 1)
  {
    if n == 0 {
      SignIsOdd(a);
      SignIsOdd(b);
      hide Bit;
    } else {
      hide Bit;
      OddOrEven(Bitwise(op, a / 2, b / 2, n - 1));
      hide Bitwise, Pow2;
      BitwiseStep(op, a, b, n);
    }
  }

  lemma SignIsOdd(x: int)
    requires -1 <= x <= 0
    ensures x < 0 <==> x % 2 == 1
  {
  }

  lemma OddOrEven(q: int)
    ensures (2 * q + 1) % 2 == 1 && (2 * q + 0) % 2 == 0
  {
  }

  lemma BitwiseStep(op: BitOp, a: int, b: int, n: nat)
    requires n > 0
    ensures Bitwise(op, a, b, n)
         == 2 * Bitwise(op, a / 2, b / 2, n - 1) + (if Bit(op, a % 2 == 1, b % 2 == 1) then 1 else 0)
  {
    hide Bit;
  }

  lemma HigherBits(op: BitOp, a: int, b: int, n: nat)
    requires n > 0 && 0 - Pow2(n) <= a < Pow2(n) && 0 - Pow2(n) <= b < Pow2(n)
    ensures Bitwise(op, a, b, n) / 2 == Bitwise(op, a / 2, b / 2, n - 1)
    ensures 0 - Pow2(n - 1) <= a / 2 < Pow2(n - 1) && 0 - Pow2(n - 1) <= b / 2 < Pow2(n - 1)
  {
    hide Bit;
  }

  lemma CombineBits(op: BitOp, a: int64, b: int64)
    ensures forall k: nat :: k < 64 ==> (BitAt(Int64.Combine(op, a, b), k) <==> Bit(op, BitAt(a, k), BitAt(b, k)))
  {
    hide BitAt, Bit;
    Pow2Value();
    forall k: nat | k < 64 ensures BitAt(Int64.Combine(op, a, b), k) <==> Bit(op, BitAt(a, k), BitAt(b, k)) {
      BitwiseBits(op, a, b, 63, k);
    }
  }

  lemma {:induction false} ComplementBit(a: int, k: nat)
    ensures BitAt(-1 - a, k) <==> !BitAt(a, k)
    decreases k
  {
    hide BitAt;
    assert (-1 - a) / 2 == -1 - a / 2 && ((-1 - a) % 2 == 1 <==> a % 2 != 1);
    if k == 0 {
      HalfBit(a, 0);
      HalfBit(-1 - a, 0);
    } else {
      HalfBit(a, k - 1);
      HalfBit(-1 - a, k - 1);
      ComplementBit(a / 2, k - 1);
    }
  }

  lemma WidePower(n: nat)
    requires n >= 64
    ensures Pow2(n) == MODULUS * Pow2(n - 64)
  {
    Pow2Value();
    assert Pow2(64) == 2 * Pow2(63);
    Pow2Add(64, n - 64);
  }

  lemma ShiftsLeft(a: int64, n: nat)
    ensures Congruent(ShiftLeftBy(a, n), a * Pow2(n))
  {
    hide Congruent, Pow2, Wrap;
    if n >= 64 {
      WidePower(n);
      Commute(a, Pow2(n - 64));
      MultipleIsZero(a * Pow2(n - 64));
    } else {
      WrapIsCongruent(a * Pow2(n));
    }
  }

  lemma Commute(a: int, p: int)
    ensures a * (MODULUS * p) == (a * p) * MODULUS
  {
  }

  lemma MultipleIsZero(k: int)
    ensures Congruent(0, k * MODULUS)
  {
    assert 0 - k * MODULUS == (-k) * MODULUS;
  }

  lemma ShiftsRight(a: int64, n: nat)
    ensures var w := ShiftRightBy(a, n); w * Pow2(n) <= a < (w + 1) * Pow2(n)
  {
    hide Pow2, Wrap;
    if n >= 64 {
      WidePower(n);
      Multiples(MODULUS, Pow2(n - 64));
    } else {
      Floor(a, Pow2(n));
    }
  }

  lemma Floor(a: int64, p: nat)
    requires p > 0
    ensures MIN <= a / p <= MAX && (a / p) * p <= a < (a / p + 1) * p
  {
    assert a == p * (a / p) + a % p && 0 <= a % p < p;
    assert (a / p + 1) * p == p * (a / p) + p;
    Shrinks(a, p);
  }

  lemma Shrinks(a: int, p: nat)
    requires p > 0
    ensures Abs(a / p) <= Abs(a)
  {
    var q := a / p;
    assert a == p * q + a % p && 0 <= a % p < p;
    assert p * (q + 1) == p * q + p;
    if q > 0 {
      Multiples(q, p);
    } else if q < 0 {
      Multiplied(q + 1, p);
    }
  }

  lemma Multiplied(x: int, p: nat)
    requires x <= 0 && p > 0
    ensures p * x <= x
  {
    assert (p - 1) * x <= 0;
    assert (p - 1) * x == p * x - x;
  }

  lemma Truncates(a: int, b: int)
    requires b != 0
    ensures Truncated(a, b, TruncDiv(a, b), TruncMod(a, b))
  {
    hide TruncDiv, TruncMod;
    TruncDivMod(a, b);
    if a == 0 {
      TruncZero(a, b);
    }
  }

  lemma TruncZero(a: int, b: int)
    requires b != 0 && a == 0
    ensures TruncMod(a, b) == 0
  {
    assert 0 / b == 0;
  }

  /** Apart from the two errors, every operator yields what it should. */
  lemma ApplyYields(op: BinOp, a: int64, b: int64)
    requires Defined(op, a, b)
    ensures Apply(op, a, b).Value? && Apply(op, a, b).error == None && Yields(op, a, b, Apply(op, a, b).word)
  {
    hide BitAt, Congruent, Truncated, Power, Pow2, TruncDiv, TruncMod, Int64.Combine, ShiftLeftBy, ShiftRightBy, Wrap;
    match op
    case BitwiseOr => CombineBits(Or, a, b);
    case BitwiseXor => CombineBits(Xor, a, b);
    case BitwiseAnd => CombineBits(And, a, b);
    case ShiftLeft => ShiftsLeft(a, b);
    case ShiftRight => ShiftsRight(a, b);
    case Plus => WrapIsCongruent(a + b);
    case Minus => WrapIsCongruent(a - b);
    case Times => WrapIsCongruent(a * b);
    case Divide =>
      Truncates(a, b);
      WrapIsCongruent(TruncDiv(a, b));
    case Modulo =>
      Truncates(a, b);
      RemainderFits(a, b);
    case Raise => if b >= 0 { WrapIsCongruent(Power(a, b)); }
    case _ =>
  }

  lemma RemainderFits(a: int64, b: int64)
    requires b != 0
    ensures Wrap(TruncMod(a, b)) == TruncMod(a, b)
  {
    hide TruncMod;
    Truncates(a, b);
  }

  lemma UnaryApplies(op: UnOp, a: int64, e: Option<ArithError>)
    ensures var r := ApplyUnary(op, Value(a, e)); r.Value? && r.error == e && UnaryYields(op, a, r.word)
  {
    hide BitAt, Congruent, Wrap;
    match op
    case Negate => WrapIsCongruent(0 - a as int);
    case Complement =>
      forall k: nat | k < 64 ensures BitAt(-1 - a, k) <==> !BitAt(a, k) { ComplementBit(a, k); }
    case _ =>
  }

  // ----- on outcomes -----

  /** The word an operator yields. */
  ghost function Result(op: BinOp, a: int64, b: int64): (w: int64)
    requires Defined(op, a, b)
    ensures Yields(op, a, b, w)
  {
    ApplyYields(op, a, b);
    var w: int64 :| Yields(op, a, b, w);
    w
  }

  ghost function UnaryResult(op: UnOp, a: int64): (w: int64)
    ensures UnaryYields(op, a, w)
  {
    UnaryApplies(op, a, None);
    var w: int64 :| UnaryYields(op, a, w);
    w
  }

  /** Two operands, and what they leave behind: a negative shift count panics, a zero divisor is an
      error unless an operand has one already, and then the value is 0. */
  ghost function Together(op: BinOp, l: Outcome, r: Outcome): Outcome {
    match (l, r)
    case (Value(a, e), Value(b, f)) =>
      if Shift(op) && b < 0 then Crash
      else if Division(op) && b == 0 then
        Value(0, if e.Some? then e else if f.Some? then f else Some(DivideByZero))
      else Value(Result(op, a, b), if e.Some? then e else f)
    case (_, _) => Crash
  }

  ghost function Alone(op: UnOp, r: Outcome): Outcome {
    match r
    case Value(a, e) => Value(UnaryResult(op, a), e)
    case Crash => Crash
  }

  /** The code's operators on outcomes. */
  lemma CombineIsTogether(op: BinOp, l: Outcome, r: Outcome)
    ensures Arith.Combine(op, l, r) == Together(op, l, r)
  {
    if l.Value? && r.Value? {
      var a, b := l.word, r.word;
      if Defined(op, a, b) {
        hide Apply, Yields;
        ApplyYields(op, a, b);
        YieldsOne(op, a, b, Apply(op, a, b).word, Result(op, a, b));
      } else {
        Undefined(op, a, b);
      }
    }
  }

  lemma Undefined(op: BinOp, a: int64, b: int64)
    requires !Defined(op, a, b)
    ensures Apply(op, a, b) == if Shift(op) then Crash else Value(0, Some(DivideByZero))
  {
  }

  lemma ApplyUnaryIsAlone(op: UnOp, r: Outcome)
    ensures ApplyUnary(op, r) == Alone(op, r)
  {
    if r.Value? {
      hide ApplyUnary, UnaryYields;
      UnaryApplies(op, r.word, r.error);
      UnaryYieldsOne(op, r.word, ApplyUnary(op, r).word, UnaryResult(op, r.word));
    }
  }
}
