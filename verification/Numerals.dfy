// Number literals of shell arithmetic: `base#digits`, and C-style decimal, octal, hexadecimal
// and binary constants.
module Numerals {
  import opened Int64
  import opened Options
  import Scan

  /** The digit a character stands for, or -1. Up to base 36 letters are read without regard to
      case; above that, lower case comes first, then upper case, `@` and `_`. */
  function DigitValue(c: char, base: int): int {
    if '0' <= c <= '9' then c as int - '0' as int
    else if base <= 36 && 'A' <= c <= 'Z' then c as int - 'A' as int + 10
    else if 'a' <= c <= 'z' then c as int - 'a' as int + 10
    else if 'A' <= c <= 'Z' then c as int - 'A' as int + 36
    else if c == '@' then 62
    else if c == '_' then 63
    else -1
  }

  predicate AllDigits(s: string, base: int) {
    forall i :: 0 <= i < |s| ==> 0 <= DigitValue(s[i], base) < base
  }

  /** The number a digit string denotes, most significant digit first. */
  function Denotes(s: string, base: int): int {
    if s == "" then 0 else Denotes(s[..|s| - 1], base) * base + DigitValue(s[|s| - 1], base)
  }

  lemma {:induction false} DenotesNonNegative(s: string, base: int)
    requires base >= 0 && AllDigits(s, base)
    ensures Denotes(s, base) >= 0
  {
    if s != "" {
      DenotesNonNegative(s[..|s| - 1], base);
      MulNonNegative(Denotes(s[..|s| - 1], base), base);
    }
  }

  lemma MulNonNegative(a: int, b: int)
    requires a >= 0 && b >= 0
    ensures a * b >= 0
  {
  }

  lemma {:induction false} DenotesAppend(s: string, c: char, base: int)
    ensures Denotes(s + [c], base) == Denotes(s, base) * base + DigitValue(c, base)
  {
    assert (s + [c])[..|s|] == s;
  }

  lemma DivSmaller(n: nat, base: nat)
    requires 2 <= base <= n
    ensures n == (n / base) * base + n % base && 0 < n / base < n && 0 <= n % base < base
  {
  }

  /** What a digit string is worth to the shell: the denoted number modulo 2^64, or 0 when some
      character is not a digit of the base. */
  function DigitsWord(s: string, base: int): int64 {
    if AllDigits(s, base) then Wrap(Denotes(s, base)) else 0
  }

  /** Reads the digits one by one in wrapping arithmetic. */
  method ReadDigits(s: string, base: int) returns (value: int64)
    ensures value == DigitsWord(s, base)
  {
    value := 0;
    for i := 0 to |s|
      invariant AllDigits(s[..i], base)
      invariant value == Wrap(Denotes(s[..i], base))
    {
      var digit := DigitValue(s[i], base);
      assert s[..i + 1][..i] == s[..i];
      if digit < 0 || digit >= base {
        assert !AllDigits(s, base);
        return 0;
      }
      ghost var n := Denotes(s[..i], base);
      WrapHorner(n, base, digit);
      value := Wrap(value * base + digit);
    }
    assert s[..|s|] == s;
  }

  lemma {:induction false} WrapHorner(n: int, base: int, digit: int)
    ensures Wrap(Wrap(n) * base + digit) == Wrap(n * base + digit)
  {
    var k := Carry(n);
    assert n * base + digit == Wrap(n) * base + digit + (k * base) * MODULUS by {
      assert (Wrap(n) + k * MODULUS) * base == Wrap(n) * base + k * MODULUS * base;
      assert k * MODULUS * base == (k * base) * MODULUS;
    }
    WrapCongruent(Wrap(n) * base + digit, k * base);
  }

  /** Go's `strconv.Atoi` on unsigned text. */
  function Atoi(s: string): Option<int> {
    if s != "" && AllDigits(s, 10) && Denotes(s, 10) <= MAX then Some(Denotes(s, 10)) else None
  }

  /** `base#digits`; anything malformed is worth 0. */
  function BaseNumber(s: string): int64 {
    var hash := Scan.IndexOf(s, '#');
    if hash == -1 then 0
    else
      match Atoi(s[..hash])
      case None => 0
      case Some(base) =>
        if base < 2 || base > 64 then 0 else DigitsWord(s[hash + 1..], base)
  }

  /** A C constant that does not fit in 64 signed bits, or is not one, is worth 0. */
  function Constant(s: string): int64 {
    if s == "" then 0
    else if s[0] != '0' then InRange(s, 10)
    else if |s| >= 3 && (s[1] == 'b' || s[1] == 'B') then InRange(s[2..], 2)
    else if |s| >= 3 && (s[1] == 'o' || s[1] == 'O') then InRange(s[2..], 8)
    else if |s| >= 3 && (s[1] == 'x' || s[1] == 'X') then InRange(s[2..], 16)
    else InRange(s[1..], 8)
  }

  function InRange(s: string, base: int): int64
    requires base >= 0
  {
    if AllDigits(s, base) && Denotes(s, base) <= MAX then
      DenotesNonNegative(s, base);
      Denotes(s, base)
    else 0
  }

  function Number(s: string): int64 {
    if Scan.IndexOf(s, '#') != -1 then BaseNumber(s) else Constant(s)
  }

  // ----- writing numbers -----

  function DigitChar(d: nat): (c: char)
    requires d < 64
    ensures forall base :: d < base <= 64 ==> DigitValue(c, base) == d
  {
    if d < 10 then ('0' as int + d) as char
    else if d < 36 then ('a' as int + d - 10) as char
    else if d < 62 then ('A' as int + d - 36) as char
    else if d == 62 then '@' else '_'
  }

  /** The shortest digit string for `n`. */
  function Digits(n: nat, base: nat): (s: string)
    requires 2 <= base <= 64
    ensures s != "" && AllDigits(s, base)
    ensures n > 0 ==> s[0] != '0'
    ensures n == 0 ==> s == "0"
    ensures Denotes(s, base) == n
    decreases n
  {
    if n < base then
      DenotesAppend("", DigitChar(n), base);
      assert "" + [DigitChar(n)] == [DigitChar(n)];
      [DigitChar(n)]
    else
      DivSmaller(n, base);
      DenotesAppend(Digits(n / base, base), DigitChar(n % base), base);
      Digits(n / base, base) + [DigitChar(n % base)]
  }

  /** Decimal output, as `strconv.FormatInt` writes it. */
  function Format(v: int): (s: string) {
    if v < 0 then "-" + Digits(-v, 10) else Digits(v, 10)
  }

  /** Every digit `base#digits` can write is read back to the number modulo 2^64. */
  lemma {:induction false} BaseNumberRoundTrip(n: nat, base: nat)
    requires 2 <= base <= 64
    ensures Number(Digits(base, 10) + "#" + Digits(n, base)) == Wrap(n)
  {
    var s := Digits(base, 10) + "#" + Digits(n, base);
    var b := |Digits(base, 10)|;
    assert s[..b] == Digits(base, 10) && s[b + 1..] == Digits(n, base);
    assert forall i :: 0 <= i < b ==> s[i] != '#' by {
      forall i | 0 <= i < b ensures s[i] != '#' {
        assert s[i] == Digits(base, 10)[i];
        assert 0 <= DigitValue(Digits(base, 10)[i], 10);
      }
    }
    assert s[b] == '#';
    assert Scan.IndexOf(s, '#') == b;
  }

  /** Decimal output of a number that fits is read back unchanged; one that does not is lost. */
  lemma {:induction false} DecimalRoundTrip(n: nat)
    ensures Number(Digits(n, 10)) == if n <= MAX then n else 0
  {
    var s := Digits(n, 10);
    forall i | 0 <= i < |s| ensures s[i] != '#' {
      assert 0 <= DigitValue(s[i], 10);
    }
    assert Scan.IndexOf(s, '#') == -1;
    if n == 0 {
      assert s[1..] == "";
    } else {
      assert s[0] != '0';
    }
  }
}
