// What number literals are worth, by the alphabet of digits and the notations, written out.
module NumeralLaws {
  import opened Int64
  import opened Numerals
  import Scan

  const DIGITS := "0123456789"
  const LOWER := "abcdefghijklmnopqrstuvwxyz"
  const UPPER := "ABCDEFGHIJKLMNOPQRSTUVWXYZ"

  /** The character stands for the digit `d`: ten figures, the letters, `@` and `_`; up to base 36 a
      capital letter is the same digit as the small one. */
  predicate StandsFor(c: char, base: nat, d: nat) {
    if d < 10 then c == DIGITS[d]
    else if d < 36 then c == LOWER[d - 10] || (base <= 36 && c == UPPER[d - 10])
    else if d < 62 then c == UPPER[d - 36]
    else if d == 62 then c == '@'
    else d == 63 && c == '_'
  }

  lemma Figure(d: nat)
    requires d < 10
    ensures DIGITS[d] as int == '0' as int + d
  {
  }

  lemma Letter(d: nat)
    requires d < 26
    ensures LOWER[d] as int == 'a' as int + d && UPPER[d] as int == 'A' as int + d
  {
  }

  lemma DigitsStandFor(c: char, base: nat, d: nat)
    requires d < base <= 64
    ensures DigitValue(c, base) == d <==> StandsFor(c, base, d)
  {
    if d < 10 {
      FigureStandsFor(c, base, d);
    } else if d < 36 {
      LetterStandsFor(c, base, d);
    } else if d < 62 {
      CapitalStandsFor(c, base, d);
    }
    hide DIGITS, LOWER, UPPER;
  }

  lemma FigureStandsFor(c: char, base: nat, d: nat)
    requires d < 10
    ensures DigitValue(c, base) == d <==> c == DIGITS[d]
  {
    Figure(d);
    hide DIGITS;
  }

  lemma LetterStandsFor(c: char, base: nat, d: nat)
    requires 10 <= d < 36
    ensures DigitValue(c, base) == d <==> c == LOWER[d - 10] || (base <= 36 && c == UPPER[d - 10])
  {
    Letter(d - 10);
    hide LOWER, UPPER;
  }

  lemma CapitalStandsFor(c: char, base: nat, d: nat)
    requires 36 <= d < 62 && d < base
    ensures DigitValue(c, base) == d <==> c == UPPER[d - 36]
  {
    Letter(d - 36);
    hide UPPER;
  }

  predicate IsFigure(c: char, base: nat) { exists d: nat :: d < base && StandsFor(c, base, d) }

  /** Each character is written for a digit of the base. */
  predicate Figures(s: string, base: nat) { forall i :: 0 <= i < |s| ==> IsFigure(s[i], base) }

  lemma FiguresAreDigits(s: string, base: nat)
    requires base <= 64
    ensures AllDigits(s, base) <==> Figures(s, base)
  {
    forall i | 0 <= i < |s|
      ensures 0 <= DigitValue(s[i], base) < base <==> IsFigure(s[i], base)
    {
      FigureIsDigit(s[i], base);
    }
    hide DigitValue, IsFigure;
  }

  lemma FigureIsDigit(c: char, base: nat)
    requires base <= 64
    ensures 0 <= DigitValue(c, base) < base <==> IsFigure(c, base)
  {
    forall d: nat | d < base ensures DigitValue(c, base) == d <==> StandsFor(c, base, d) {
      DigitsStandFor(c, base, d);
    }
    hide DigitValue, StandsFor;
    var v := DigitValue(c, base);
    if 0 <= v < base {
      assert StandsFor(c, base, v);
    }
  }

  /** The digits weighed by the powers of the base, last digit first. */
  function Weighed(s: string, base: nat): int {
    if s == "" then 0 else Weighed(s[1..], base) + DigitValue(s[0], base) * Power(base, |s| - 1)
  }

  lemma {:induction false} DenotesWeighed(s: string, base: nat)
    ensures Denotes(s, base) == Weighed(s, base)
    decreases |s|
  {
    if |s| == 1 {
      assert s[..0] == "" && s[1..] == "";
      assert Power(base, 0) == 1;
    } else if |s| > 1 {
      var init, tail, last := s[..|s| - 1], s[1..], s[|s| - 1];
      assert init[1..] + [last] == tail && init[0] == s[0] && |init[1..]| == |s| - 2;
      DenotesWeighed(init, base);
      DenotesWeighed(tail, base);
      DenotesAppend(init[1..], last, base);
      DenotesWeighed(init[1..], base);
      OneMore(Weighed(init[1..], base), DigitValue(s[0], base), Power(base, |s| - 2), base);
    }
  }

  lemma OneMore(w: int, d: int, p: int, base: nat)
    ensures (w + d * p) * base == w * base + d * (base * p)
  {
    assert (d * p) * base == d * (base * p);
  }

  // ----- C constants -----

  datatype Notation = Decimal | Binary(capital: bool) | Octal(capital: bool) | Hex(capital: bool) | OldOctal

  function Prefix(n: Notation): string {
    match n
    case Decimal => ""
    case Binary(capital) => if capital then "0B" else "0b"
    case Octal(capital) => if capital then "0O" else "0o"
    case Hex(capital) => if capital then "0X" else "0x"
    case OldOctal => "0"
  }

  function Base(n: Notation): nat {
    match n
    case Decimal => 10
    case Binary(_) => 2
    case Octal(_) => 8
    case Hex(_) => 16
    case OldOctal => 8
  }

  /** The text behind the prefix does not make it another notation. */
  predicate Unambiguous(n: Notation, s: string) {
    match n
    case Decimal => s != "" && s[0] != '0'
    case OldOctal => |s| >= 2 ==> s[0] !in "bBoOxX"
    case _ => s != ""
  }

  /** Worth its digits if they are all of the base and fit in 63 bits, and 0 otherwise. */
  lemma ConstantExactly(n: Notation, s: string)
    requires Unambiguous(n, s) && '#' !in s && '_' !in s
    ensures Number(Prefix(n) + s)
         == if Figures(s, Base(n)) && Weighed(s, Base(n)) <= 0x7fff_ffff_ffff_ffff then Weighed(s, Base(n)) else 0
  {
    var w := Prefix(n) + s;
    NoHash(n, s);
    FiguresAreDigits(s, Base(n));
    DenotesWeighed(s, Base(n));
    PrefixRead(n, s);
    hide Denotes, Weighed, Figures, AllDigits, Constant, Prefix;
  }

  lemma PrefixRead(n: Notation, s: string)
    requires Unambiguous(n, s)
    ensures Constant(Prefix(n) + s) == InRange(s, Base(n))
  {
    var w := Prefix(n) + s;
    assert w[|Prefix(n)|..] == s;
    hide InRange;
  }

  lemma NoHash(n: Notation, s: string)
    requires '#' !in s
    ensures Scan.IndexOf(Prefix(n) + s, '#') == -1
  {
    var w := Prefix(n) + s;
    forall k | 0 <= k < |w| ensures w[k] != '#' {
      if k >= |Prefix(n)| {
        assert w[k] == s[k - |Prefix(n)|];
        assert w[k] in s;
      }
    }
  }

  /** A number written in any notation is read back, if it fits in 63 bits. */
  lemma ConstantRoundTrip(n: Notation, v: nat)
    requires n == Decimal ==> v > 0
    ensures Number(Prefix(n) + Digits(v, Base(n))) == if v <= 0x7fff_ffff_ffff_ffff then v else 0
  {
    var s := Digits(v, Base(n));
    hide Digits;
    forall i | 0 <= i < |s| ensures s[i] != '#' && s[i] != '_' && (Base(n) <= 10 ==> '0' <= s[i] <= '9') {
      assert 0 <= DigitValue(s[i], Base(n)) < Base(n);
    }
    assert n == OldOctal ==> s[0] !in "bBoOxX";
    ConstantExactly(n, s);
    FiguresAreDigits(s, Base(n));
    DenotesWeighed(s, Base(n));
  }

  // ----- base#digits -----

  /** `base#digits` is worth the digits modulo 2^64, and 0 if the base is no number from 2 to 64 or some
      character no digit of it. */
  lemma BaseNumberExactly(b: string, s: string)
    requires '#' !in b && (b != "" ==> b[0] !in "+-")
    ensures Number(b + "#" + s)
         == if b != "" && Figures(b, 10) && 2 <= Weighed(b, 10) <= 64 && Figures(s, Weighed(b, 10))
            then Wrap(Weighed(s, Weighed(b, 10))) else 0
  {
    var w := b + "#" + s;
    assert w[|b|] == '#' && w[..|b|] == b && w[|b| + 1..] == s;
    forall k | 0 <= k < |b| ensures w[k] != '#' {
      assert w[k] == b[k] && b[k] in b;
    }
    assert Scan.IndexOf(w, '#') == |b|;
    FiguresAreDigits(b, 10);
    DenotesWeighed(b, 10);
    hide Denotes, Weighed, Figures, AllDigits;
    if 2 <= Denotes(b, 10) <= 64 {
      FiguresAreDigits(s, Denotes(b, 10));
      DenotesWeighed(s, Denotes(b, 10));
    }
  }
}
