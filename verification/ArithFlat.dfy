// How a text without parentheses is evaluated: where it is split, and what comes of it.
module ArithFlat {
  import opened Int64
  import opened Options
  import opened Scan
  import opened Arith
  import opened ArithTrees
  import Numerals

  // ----- where a flat text is split -----

  predicate Plain(c: char) { IsWordChar(c) || c == ' ' }

  /** Outside the operator, which takes `n` characters from `p` on, the text holds word characters
      and blanks only, but for a sign at its start or at `q`. */
  predicate Layout(s: string, p: nat, n: nat, q: nat) {
    p + n <= |s| &&
    forall i :: 0 <= i < |s| && !(p <= i < p + n) ==> Plain(s[i]) || (s[i] == '-' && (i == 0 || i == q))
  }

  predicate OperatorAt(s: string, op: BinOp, p: nat) {
    p + |Symbol(op)| <= |s| && s[p] == Symbol(op)[0] && (|Symbol(op)| == 2 ==> s[p + 1] == Symbol(op)[1])
  }

  predicate Lacks(s: string, c: char) {
    forall i :: 0 <= i < |s| ==> s[i] != c
  }

  lemma LacksPair(s: string, a: char, b: char)
    requires Lacks(s, a)
    ensures LastPair(s, a, b, |s|) == -1
  {
  }

  lemma NoHits(level: Level, s: string)
    requires forall i :: 0 <= i < |s| ==> !Hit(level, s, i)
    ensures LastHit(level, s, |s|) == -1
  {
  }

  lemma OnlyHit(level: Level, s: string, p: nat)
    requires Hit(level, s, p)
    requires forall i :: p < i < |s| ==> !Hit(level, s, i)
    ensures LastHit(level, s, |s|) == p
  {
  }

  /** Without logical and bitwise operators, the split is decided by the weaker scans. */
  lemma NoLogical(s: string)
    requires Lacks(s, '?') && Lacks(s, '|') && Lacks(s, '&') && Lacks(s, '^')
    ensures TopOperator(s) == if TopComparison(s).Binary? then TopComparison(s) else TopArithmetic(s)
  {
    LacksPair(s, '|', '|');
    LacksPair(s, '&', '&');
    NoHits(AtPipe, s);
    NoHits(AtCaret, s);
    NoHits(AtAmpersand, s);
  }

  lemma NoComparison(s: string)
    requires Lacks(s, '=')
    requires Lacks(s, '<') || (LastIndexOf(s, '<') > 0 && s[LastIndexOf(s, '<') - 1] == '<')
    requires Lacks(s, '>') || (LastIndexOf(s, '>') > 0 && s[LastIndexOf(s, '>') - 1] == '>')
    ensures TopComparison(s) == NoOperator
  {
  }

  predicate SignSplits(s: string, op: BinOp, p: nat, q: nat) {
    Arithmetic(op) && p + |Symbol(op)| < q < |s| && s[q] == '-'
  }

  predicate Arranged(s: string, op: BinOp, p: nat, q: nat) {
    p > 0 && OperatorAt(s, op, p) && Layout(s, p, |Symbol(op)|, q) && Plain(s[p - 1]) && p + |Symbol(op)| <= q
  }

  predicate Logical(op: BinOp) { op in {LogOr, LogAnd, BitwiseOr, BitwiseXor, BitwiseAnd} }

  predicate Comparing(op: BinOp) { op in {Equal, NotEqual, LessEqual, GreaterEqual, Less, Greater} }

  lemma ArrangedLacks(s: string, op: BinOp, p: nat, q: nat, c: char)
    requires Arranged(s, op, p, q) && !Plain(c) && c != '-' && c !in Symbol(op)
    ensures Lacks(s, c)
  {
    hide IsWordChar;
  }

  /** None of the characters that the weaker scans look for, but the operator's own. */
  lemma ArrangedLacksLogical(s: string, op: BinOp, p: nat, q: nat)
    requires Arranged(s, op, p, q) && !Logical(op)
    ensures Lacks(s, '?') && Lacks(s, '|') && Lacks(s, '&') && Lacks(s, '^')
  {
    hide Arranged, Lacks;
    ArrangedLacks(s, op, p, q, '?');
    ArrangedLacks(s, op, p, q, '|');
    ArrangedLacks(s, op, p, q, '&');
    ArrangedLacks(s, op, p, q, '^');
  }

  lemma TopOfLogical(s: string, op: BinOp, p: nat, q: nat)
    requires Arranged(s, op, p, q) && Logical(op)
    ensures TopOperator(s) == Binary(op, p)
  {
    assert Lacks(s, '?');
    match op
    case LogOr =>
      assert PairAt(s, '|', '|', p);
    case LogAnd =>
      LacksPair(s, '|', '|');
      assert PairAt(s, '&', '&', p);
    case BitwiseOr =>
      LacksPair(s, '&', '&');
      OnlyHit(AtPipe, s, p);
    case BitwiseXor =>
      LacksPair(s, '|', '|');
      LacksPair(s, '&', '&');
      NoHits(AtPipe, s);
      OnlyHit(AtCaret, s, p);
    case BitwiseAnd =>
      LacksPair(s, '|', '|');
      NoHits(AtPipe, s);
      NoHits(AtCaret, s);
      OnlyHit(AtAmpersand, s, p);
  }

  lemma TopOfComparison(s: string, op: BinOp, p: nat, q: nat)
    requires Arranged(s, op, p, q) && Comparing(op)
    ensures TopOperator(s) == Binary(op, p)
  {
    hide TopOperator, TopComparison, TopArithmetic, Arranged, Lacks;
    ArrangedLacksLogical(s, op, p, q);
    NoLogical(s);
    ComparisonSplit(s, op, p, q);
  }

  lemma ComparisonSplit(s: string, op: BinOp, p: nat, q: nat)
    requires Arranged(s, op, p, q) && Comparing(op)
    ensures TopComparison(s) == Binary(op, p)
  {
    match op
    case Equal => assert PairAt(s, '=', '=', p);
    case NotEqual => assert PairAt(s, '!', '=', p);
    case LessEqual => assert PairAt(s, '<', '=', p);
    case GreaterEqual => assert PairAt(s, '>', '=', p);
    case Less =>
    case Greater =>
  }

  /** Without logical, bitwise and comparison operators the split is among the arithmetic ones. */
  lemma ArithmeticOnly(s: string)
    requires Lacks(s, '?') && Lacks(s, '|') && Lacks(s, '&') && Lacks(s, '^') && Lacks(s, '=')
    requires Lacks(s, '<') || (LastIndexOf(s, '<') > 0 && s[LastIndexOf(s, '<') - 1] == '<')
    requires Lacks(s, '>') || (LastIndexOf(s, '>') > 0 && s[LastIndexOf(s, '>') - 1] == '>')
    ensures TopOperator(s) == TopArithmetic(s)
  {
    NoLogical(s);
    NoComparison(s);
  }

  lemma ShiftIsArithmetic(s: string, op: BinOp, p: nat, q: nat)
    requires Arranged(s, op, p, q) && (op == ShiftLeft || op == ShiftRight)
    ensures TopOperator(s) == TopArithmetic(s)
  {
    hide TopOperator, TopArithmetic;
    if op == ShiftLeft {
      assert LastIndexOf(s, '<') == p + 1;
      assert Lacks(s, '>');
    } else {
      assert LastIndexOf(s, '>') == p + 1;
      assert Lacks(s, '<');
    }
    ArithmeticOnly(s);
  }

  lemma ShiftSplit(s: string, op: BinOp, p: nat, q: nat)
    requires Arranged(s, op, p, q) && (op == ShiftLeft || op == ShiftRight)
    ensures TopOperator(s) == Binary(op, p)
  {
    ShiftIsArithmetic(s, op, p, q);
    hide TopOperator;
    OnlyHit(AtShift, s, p);
  }

  lemma LackingShift(s: string)
    requires Lacks(s, '?') && Lacks(s, '|') && Lacks(s, '&') && Lacks(s, '^') && Lacks(s, '=')
    requires Lacks(s, '<') && Lacks(s, '>')
    ensures TopOperator(s) == TopArithmetic(s) && LastHit(AtShift, s, |s|) == -1
  {
    ArithmeticOnly(s);
    NoHits(AtShift, s);
  }

  lemma ArrangedLacksShift(s: string, op: BinOp, p: nat, q: nat)
    requires Arranged(s, op, p, q) && Arithmetic(op)
    ensures TopOperator(s) == TopArithmetic(s) && LastHit(AtShift, s, |s|) == -1
  {
    hide TopOperator, TopArithmetic, Arranged, Lacks;
    ArrangedLacksLogical(s, op, p, q);
    ArrangedLacks(s, op, p, q, '=');
    ArrangedLacks(s, op, p, q, '<');
    ArrangedLacks(s, op, p, q, '>');
    LackingShift(s);
  }

  lemma SumSplit(s: string, op: BinOp, p: nat, q: nat)
    requires Arranged(s, op, p, q) && (op == Plus || op == Minus) && !SignSplits(s, op, p, q)
    ensures TopOperator(s) == Binary(op, p)
  {
    ArrangedLacksShift(s, op, p, q);
    hide TopOperator;
    OnlyHit(AtSum, s, p);
  }

  lemma NoSum(s: string, op: BinOp, p: nat, q: nat)
    requires Arranged(s, op, p, q) && op in {Times, Divide, Modulo, Raise} && !SignSplits(s, op, p, q)
    ensures LastHit(AtSum, s, |s|) == -1
  {
    hide TopOperator, TopArithmetic;
    NoHits(AtSum, s);
  }

  lemma ProductSplit(s: string, op: BinOp, p: nat, q: nat)
    requires Arranged(s, op, p, q) && op in {Times, Divide, Modulo, Raise} && !SignSplits(s, op, p, q)
    ensures TopOperator(s) == Binary(op, p)
  {
    hide TopOperator, Arranged, SignSplits;
    ArrangedLacksShift(s, op, p, q);
    NoSum(s, op, p, q);
    StrongestSplit(s, op, p, q);
  }

  /** Where the scans for products and powers stop. */
  lemma StrongestSplit(s: string, op: BinOp, p: nat, q: nat)
    requires Arranged(s, op, p, q) && op in {Times, Divide, Modulo, Raise} && !SignSplits(s, op, p, q)
    ensures if op == Raise then LastHit(AtProduct, s, |s|) == -1 && FirstPair(s, '*', '*', 0) == p
            else LastHit(AtProduct, s, |s|) == p && OpAt(AtProduct, s[p]) == op
  {
    if op == Raise {
      NoHits(AtProduct, s);
      assert PairAt(s, '*', '*', p);
    } else {
      OnlyHit(AtProduct, s, p);
    }
  }

  /** A flat text with one binary operator is split there, unless a blank precedes a sign. */
  lemma TopOfBinary(s: string, op: BinOp, p: nat, q: nat)
    requires Arranged(s, op, p, q) && !SignSplits(s, op, p, q)
    ensures TopOperator(s) == Binary(op, p)
  {
    if Logical(op) {
      TopOfLogical(s, op, p, q);
    } else if Comparing(op) {
      TopOfComparison(s, op, p, q);
    } else if op == ShiftLeft || op == ShiftRight {
      ShiftSplit(s, op, p, q);
    } else if op == Plus || op == Minus {
      SumSplit(s, op, p, q);
    } else {
      ProductSplit(s, op, p, q);
    }
  }

  /** ... and then it is split at the sign. */
  lemma TopOfSign(s: string, op: BinOp, p: nat, q: nat)
    requires Arranged(s, op, p, q) && SignSplits(s, op, p, q) && s[q - 1] == ' '
    ensures TopOperator(s) == Binary(Minus, q)
  {
    ArrangedLacksShift(s, op, p, q);
    hide TopOperator;
    OnlyHit(AtSum, s, q);
  }

  predicate SignsJoin(s: string) {
    forall i :: 0 < i < |s| && (s[i] == '+' || s[i] == '-') ==> s[i - 1] == '+' || s[i - 1] == '-'
  }

  /** A text of word characters behind a run of signs has no binary operator. */
  lemma NothingToSplit(s: string)
    requires Lacks(s, '?') && Lacks(s, '|') && Lacks(s, '&') && Lacks(s, '^') && Lacks(s, '=')
    requires Lacks(s, '<') && Lacks(s, '>') && Lacks(s, '*') && Lacks(s, '/') && Lacks(s, '%')
    requires SignsJoin(s)
    ensures TopOperator(s) == NoOperator
  {
    LackingShift(s);
    hide TopOperator;
    NoHits(AtSum, s);
    NoHits(AtProduct, s);
  }

  // ----- evaluating flat texts -----

  /** A flat text is evaluated as it stands, whatever blanks surround it. */
  lemma ParseOfFlat(before: nat, s: string, after: nat)
    requires s != "" && Trimmed(s) && NoParens(s)
    ensures Parse(Blanks(before) + s + Blanks(after)) == ParseFlat(s)
  {
    TrimPadded(before, s, after);
    hide TrimSpace, Trimmed, ParseFlat;
    assert InnerClose(s) == -1;
    assert ReplaceGroups(s) == Flat(s, None);
  }

  lemma ParseOfBare(s: string)
    requires s != "" && Trimmed(s) && NoParens(s)
    ensures Parse(s) == ParseFlat(s)
  {
    ParseOfFlat(0, s, 0);
    assert Blanks(0) + s + Blanks(0) == s;
  }

  lemma ParseEmpty(n: nat)
    ensures Parse(Blanks(n)) == Word(0)
  {
    TrimBlanks(n);
  }

  lemma {:induction false} TrimBlanks(n: nat)
    ensures TrimSpace(Blanks(n)) == ""
  {
    if n > 0 {
      assert Blanks(n)[1..] == Blanks(n - 1);
      TrimBlanks(n - 1);
    }
  }

  lemma WordEvaluates(w: string)
    requires IsWord(w)
    ensures w != "" && Trimmed(w) && NoParens(w)
    ensures ParseFlat(w) == Word(Numerals.Number(w))
  {
    NothingToSplit(w);
    TrimOfTrimmed(w);
  }

  lemma DigitsAreWord(n: nat)
    ensures IsWord(Numerals.Digits(n, 10))
  {
    var d := Numerals.Digits(n, 10);
    forall i | 0 <= i < |d| ensures IsWordChar(d[i]) {
      assert 0 <= Numerals.DigitValue(d[i], 10) < 10;
    }
  }

  lemma MagnitudeEvaluates(v: int64)
    requires v < 0
    ensures IsWord(Numerals.Digits(0 - v, 10))
    ensures ParseFlat(Numerals.Digits(0 - v, 10)) == Word(Magnitude(v))
  {
    hide ParseFlat, Numerals.Number, Numerals.Digits, TopOperator, Trimmed, IsWord, NoParens;
    DigitsAreWord(0 - v);
    WordEvaluates(Numerals.Digits(0 - v, 10));
    Numerals.DecimalRoundTrip(0 - v);
  }

  /** The text of a signed operand: the sign is applied to the value of the rest. */
  lemma SignedEvaluates(op: UnOp, rest: string)
    requires rest != "" && Trimmed(rest) && NoParens(rest)
    requires TopOperator([Sign(op)] + rest) == NoOperator
    ensures ParseFlat([Sign(op)] + rest) == ApplyUnary(op, ParseFlat(rest))
  {
    hide TopOperator, Parse, ApplyUnary, NoParens, Trimmed, TrimSpace, TrimLeft;
    var s := [Sign(op)] + rest;
    SignIsTrimmed(op, rest);
    TrimOfTrimmed(s);
    assert s[1..|s|] == rest;
    ParseOfBare(rest);
  }

  lemma SignIsTrimmed(op: UnOp, rest: string)
    requires rest != "" && Trimmed(rest)
    ensures Trimmed([Sign(op)] + rest)
  {
    var s := [Sign(op)] + rest;
    assert s[|s| - 1] == rest[|rest| - 1];
  }

  lemma MinusWordUnsplit(d: string)
    requires IsWord(d)
    ensures var s := [Sign(Negate)] + d; Trimmed(s) && NoParens(s) && TopOperator(s) == NoOperator
  {
    var s := [Sign(Negate)] + d;
    assert s[|s| - 1] == d[|d| - 1];
    hide TopOperator;
    NothingToSplit(s);
  }

  lemma NegativeEvaluates(v: int64)
    requires v < 0
    ensures Text(Splice(v)) != "" && Trimmed(Text(Splice(v))) && NoParens(Text(Splice(v)))
    ensures ParseFlat(Text(Splice(v))) == Word(Reread(v))
  {
    var d := Numerals.Digits(0 - v, 10);
    assert Text(Splice(v)) == [Sign(Negate)] + d;
    hide ParseFlat, TopOperator, Numerals.Digits, Numerals.Number, Numerals.Format, NoParens, Trimmed, IsWord, Text;
    MagnitudeEvaluates(v);
    WordEvaluates(d);
    MinusWordUnsplit(d);
    SignedEvaluates(Negate, d);
  }

  /** The text of an operand reads as its value. */
  lemma LeafEvaluates(e: Expr)
    requires WellFormed(e) && IsLeaf(e)
    ensures Text(e) != "" && Trimmed(Text(e)) && NoParens(Text(e))
    ensures ParseFlat(Text(e)) == Word(EvalLeaf(e))
  {
    hide ParseFlat, TopOperator, Numerals.Digits, Numerals.Number, NoParens, Trimmed, IsWord;
    match e
    case Atom(w) => WordEvaluates(w);
    case Splice(v) =>
      if v < 0 {
        NegativeEvaluates(v);
      } else {
        DigitsAreWord(v);
        WordEvaluates(Numerals.Digits(v, 10));
        Numerals.DecimalRoundTrip(v);
      }
  }

  /** How the text of an operand looks: word characters behind at most one minus sign. */
  predicate LeafShape(t: string, negative: bool) {
    t != "" && (t[0] == '-' <==> negative) && IsWordChar(t[|t| - 1]) &&
    forall i :: 0 <= i < |t| ==> IsWordChar(t[i]) || (i == 0 && t[i] == '-')
  }

  predicate Negative(e: Expr) { e.Splice? && e.v < 0 }

  lemma LeafHasShape(e: Expr)
    requires WellFormed(e) && IsLeaf(e)
    ensures LeafShape(Text(e), Negative(e))
  {
    hide Numerals.Format, HashBefore;
    match e
    case Atom(w) =>
      assert forall i :: 0 <= i < |w| ==> IsWordChar(w[i]);
    case Splice(v) =>
      FormatChars(v);
  }

  lemma UnaryUnsplit(op: UnOp, t: string, negative: bool)
    requires LeafShape(t, negative)
    requires negative ==> op == Negate || op == Identity
    ensures TopOperator([Sign(op)] + t) == NoOperator
  {
    hide TopOperator;
    NothingToSplit([Sign(op)] + t);
  }

  lemma UnarySplit(op: UnOp, t: string)
    requires LeafShape(t, true) && (op == Not || op == Complement)
    ensures TopOperator([Sign(op)] + t) == Binary(Minus, 1)
  {
    var s := [Sign(op)] + t;
    LackingShift(s);
    hide TopOperator;
    OnlyHit(AtSum, s, 1);
  }

  lemma LoneSignEvaluates(op: UnOp)
    ensures Parse([Sign(op)]) == ApplyUnary(op, Word(0))
  {
    var s := [Sign(op)];
    NothingToSplit(s);
    TrimOfTrimmed(s);
    ParseOfBare(s);
    assert s[1..|s|] == Blanks(0);
    ParseEmpty(0);
  }

  lemma SplitEvaluates(s: string, op: BinOp, i: nat, l: string, r: string)
    requires TopOperator(s) == Binary(op, i)
    requires s[0..i] == l && s[i + |Symbol(op)|..|s|] == r
    ensures ParseFlat(s) == Arith.Combine(op, Parse(l), Parse(r))
  {
    hide TopOperator, Parse, Arith.Combine, ParseTernary;
  }

  lemma MagnitudeParses(v: int64)
    requires v < 0
    ensures Text(Splice(v)) != "" && Text(Splice(v))[1..] == Numerals.Digits(0 - v, 10)
    ensures Parse(Numerals.Digits(0 - v, 10)) == Word(Magnitude(v))
  {
    MagnitudeEvaluates(v);
    WordEvaluates(Numerals.Digits(0 - v, 10));
    ParseOfBare(Numerals.Digits(0 - v, 10));
  }

  lemma TwoSigns(c: char, t: string)
    requires t != ""
    ensures ([c] + t)[0..1] == [c] && ([c] + t)[2..|[c] + t|] == t[1..]
  {
  }

  lemma NegativeShape(v: int64)
    requires v < 0
    ensures LeafShape(Text(Splice(v)), true) && Text(Splice(v)) != ""
  {
    LeafHasShape(Splice(v));
  }

  /** `!-5` and `~-5` are read as `! - 5` and `~ - 5`. */
  lemma UnarySignEvaluates(op: UnOp, v: int64)
    requires (op == Not || op == Complement) && v < 0
    ensures ParseFlat([Sign(op)] + Text(Splice(v)))
         == Arith.Combine(Minus, ApplyUnary(op, Word(0)), Word(Magnitude(v)))
  {
    hide *;
    var t := Text(Splice(v));
    NegativeShape(v);
    UnarySplit(op, t);
    MagnitudeParses(v);
    LoneSignEvaluates(op);
    TwoSigns(Sign(op), t);
    assert |Symbol(Minus)| == 1 by { MinusLength(); }
    SplitEvaluates([Sign(op)] + t, Minus, 1, [Sign(op)], t[1..]);
  }

  lemma MinusLength()
    ensures |Symbol(Minus)| == 1
  {
  }

  lemma UnaryEvaluates(e: Expr)
    requires WellFormed(e) && IsFlat(e) && e.Unary?
    ensures ParseFlat(Text(e)) == EvalFlat(e)
  {
    var Unary(op, x) := e;
    hide ParseFlat, TopOperator, Trimmed, NoParens, Numerals.Format, Arith.Combine, ApplyUnary, LeafShape;
    if SplitAtSign(e) {
      UnarySignEvaluates(op, x.v);
    } else {
      LeafEvaluates(x);
      LeafHasShape(x);
      UnaryUnsplit(op, Text(x), Negative(x));
      SignedEvaluates(op, Text(x));
    }
  }

  lemma BinArranged(l: string, nl: bool, b: nat, op: BinOp, a: nat, r: string, nr: bool)
    requires LeafShape(l, nl) && (r == "" || LeafShape(r, nr))
    ensures var s := l + (Gap(b, Symbol(op), a) + r); var p := |l| + b; var q := p + |Symbol(op)| + a;
            Arranged(s, op, p, q) && (r != "" ==> (s[q] == '-' <==> nr)) && (a > 0 ==> s[q - 1] == ' ')
  {
    hide IsWordChar;
  }

  lemma CutText(l: string, x: string, sym: string, y: string, r: string)
    ensures var s := l + ((x + sym + y) + r); var p := |l| + |x|; var n := |sym|;
            && s[0..p] == l + x && s[p + n..|s|] == y + r
            && s[0..p + n + |y|] == (l + (x + sym)) + y
            && (r != "" ==> s[p + n + |y| + 1..|s|] == r[1..])
  {
    var s := l + ((x + sym + y) + r);
    assert s == ((l + (x + sym)) + y) + r;
    assert s == (l + x) + (sym + (y + r));
  }

  lemma NoBlanksAround(s: string)
    ensures Blanks(0) + s == s && s + Blanks(0) == s
  {
  }

  lemma BinParts(l: string, b: nat, op: BinOp, a: nat, r: string)
    ensures var s := l + (Gap(b, Symbol(op), a) + r); var p := |l| + b; var n := |Symbol(op)|;
            && s[0..p] == Blanks(0) + l + Blanks(b)
            && s[p + n..|s|] == Blanks(a) + r + Blanks(0)
            && s[0..p + n + a] == Blanks(0) + (l + (Gap(b, Symbol(op), 0) + "")) + Blanks(a)
            && (r != "" ==> s[p + n + a + 1..|s|] == r[1..])
  {
    hide Symbol;
    CutText(l, Blanks(b), Symbol(op), Blanks(a), r);
    NoBlanksAround(l);
    NoBlanksAround(Blanks(a) + r);
    NoBlanksAround(Blanks(b) + Symbol(op));
    NoBlanksAround(l + (Blanks(b) + Symbol(op)));
    assert Gap(b, Symbol(op), 0) + "" == Gap(b, Symbol(op), 0);
  }

  lemma OperatorSplits(l: Expr, b: nat, op: BinOp, a: nat, r: string)
    requires WellFormed(l) && IsLeaf(l) && (r == "" || LeafShape(r, r[0] == '-'))
    requires !(Arithmetic(op) && a > 0 && r != "" && r[0] == '-')
    ensures TopOperator(Text(l) + (Gap(b, Symbol(op), a) + r)) == Binary(op, |Text(l)| + b)
  {
    var s := Text(l) + (Gap(b, Symbol(op), a) + r);
    var p := |Text(l)| + b;
    var q := p + |Symbol(op)| + a;
    LeafHasShape(l);
    BinArranged(Text(l), Negative(l), b, op, a, r, r != "" && r[0] == '-');
    assert !SignSplits(s, op, p, q);
    hide TopOperator, LeafShape, Arranged, SignSplits;
    TopOfBinary(s, op, p, q);
  }

  lemma OperatorEvaluates(l: Expr, b: nat, op: BinOp, a: nat, r: string)
    requires WellFormed(l) && IsLeaf(l) && (r == "" || LeafShape(r, r[0] == '-'))
    requires !(Arithmetic(op) && a > 0 && r != "" && r[0] == '-')
    ensures ParseFlat(Text(l) + (Gap(b, Symbol(op), a) + r))
         == Arith.Combine(op, Word(EvalLeaf(l)), Parse(Blanks(a) + r + Blanks(0)))
  {
    hide ParseFlat, Parse, TopOperator, LeafShape, Arith.Combine, Gap, Blanks, Trimmed, NoParens, Text, WellFormed;
    var t := Text(l);
    OperatorSplits(l, b, op, a, r);
    LeafEvaluates(l);
    ParseOfFlat(0, t, b);
    BinParts(t, b, op, a, r);
    SplitEvaluates(t + (Gap(b, Symbol(op), a) + r), op, |t| + b, Blanks(0) + t + Blanks(b), Blanks(a) + r + Blanks(0));
  }

  lemma UnfinishedText(l: Expr, b: nat, op: BinOp)
    requires WellFormed(l) && IsLeaf(l)
    ensures var m := Text(l) + (Gap(b, Symbol(op), 0) + ""); m != "" && Trimmed(m) && NoParens(m)
  {
    hide *;
    var t, gap := Text(l), Gap(b, Symbol(op), 0) + "";
    LeafEvaluates(l);
    LeafTextHasNoParens(l);
    GapIsPlain(b, op);
    TrimmedConcat(t, gap);
    NoParensConcat(t, gap);
  }

  lemma GapIsPlain(b: nat, op: BinOp)
    ensures var gap := Gap(b, Symbol(op), 0) + ""; gap != "" && !IsSpace(gap[|gap| - 1]) && NoParens(gap)
  {
    var gap := Gap(b, Symbol(op), 0) + "";
    assert gap[|gap| - 1] == Symbol(op)[|Symbol(op)| - 1];
  }

  lemma TrimmedConcat(s: string, t: string)
    requires s != "" && Trimmed(s) && t != "" && !IsSpace(t[|t| - 1])
    ensures Trimmed(s + t)
  {
  }

  /** The operator in front of a sign that was split off finds no right operand. */
  lemma MissingOperand(l: Expr, b: nat, op: BinOp, a: nat)
    requires WellFormed(l) && IsLeaf(l)
    ensures Parse(Blanks(0) + (Text(l) + (Gap(b, Symbol(op), 0) + "")) + Blanks(a))
         == Arith.Combine(op, Word(EvalLeaf(l)), Word(0))
  {
    hide ParseFlat, Parse, TopOperator, LeafShape, IsWordChar, Text, Gap, Trimmed, NoParens, WellFormed;
    UnfinishedText(l, b, op);
    ParseOfFlat(0, Text(l) + (Gap(b, Symbol(op), 0) + ""), a);
    OperatorEvaluates(l, b, op, 0, "");
    assert Blanks(0) + "" + Blanks(0) == Blanks(0);
    ParseEmpty(0);
  }

  lemma BinEvaluates(e: Expr)
    requires WellFormed(e) && IsFlat(e) && e.Bin?
    ensures ParseFlat(Text(e)) == EvalFlat(e)
  {
    var Bin(op, l, b, a, r) := e;
    LeafHasShape(l);
    LeafHasShape(r);
    LeafEvaluates(r);
    if SplitAtSign(e) {
      SignEvaluates(l, b, op, a, r.v);
    } else {
      hide ParseFlat, Parse, TopOperator, Numerals.Digits, Numerals.Format;
      OperatorEvaluates(l, b, op, a, Text(r));
      ParseOfFlat(a, Text(r), 0);
    }
  }

  lemma SignSplitsText(l: Expr, b: nat, op: BinOp, a: nat, v: int64)
    requires WellFormed(l) && IsLeaf(l) && Arithmetic(op) && a > 0 && v < 0
    ensures TopOperator(Text(l) + (Gap(b, Symbol(op), a) + Text(Splice(v))))
         == Binary(Minus, |Text(l)| + b + |Symbol(op)| + a)
  {
    var t, r := Text(l), Text(Splice(v));
    var s := t + (Gap(b, Symbol(op), a) + r);
    var q := |t| + b + |Symbol(op)| + a;
    LeafHasShape(l);
    LeafHasShape(Splice(v));
    hide TopOperator, LeafShape, Arranged, Layout, IsWordChar, Text;
    BinArranged(t, Negative(l), b, op, a, r, true);
    TopOfSign(s, op, |t| + b, q);
  }

  lemma SignEvaluates(l: Expr, b: nat, op: BinOp, a: nat, v: int64)
    requires WellFormed(l) && IsLeaf(l) && Arithmetic(op) && a > 0 && v < 0
    ensures ParseFlat(Text(l) + (Gap(b, Symbol(op), a) + Text(Splice(v))))
         == Arith.Combine(Minus, Arith.Combine(op, Word(EvalLeaf(l)), Word(0)), Word(Magnitude(v)))
  {
    hide *;
    var t, r := Text(l), Text(Splice(v));
    NegativeShape(v);
    SignSplitsText(l, b, op, a, v);
    BinParts(t, b, op, a, r);
    MissingOperand(l, b, op, a);
    MagnitudeParses(v);
    MinusLength();
    SplitEvaluates(t + (Gap(b, Symbol(op), a) + r), Minus, |t| + b + |Symbol(op)| + a,
                   Blanks(0) + (t + (Gap(b, Symbol(op), 0) + "")) + Blanks(a), r[1..]);
  }

  lemma TernarySplits(c: string, g0: nat, rest: string, nc: bool)
    requires LeafShape(c, nc)
    ensures TopOperator(c + (Blanks(g0) + ("?" + rest))) == Ternary(|c| + g0)
  {
    var s := c + (Blanks(g0) + ("?" + rest));
    assert s[|c| + g0] == '?';
    assert forall i :: 0 <= i < |c| + g0 ==> s[i] != '?';
    assert IndexOf(s, '?') == |c| + g0;
  }

  lemma ColonFound(yes: string, no: string)
    requires Lacks(yes, ':')
    ensures var rest := yes + ":" + no;
            IndexOf(rest, ':') == |yes| && rest[0..|yes|] == yes && rest[|yes| + 1..|rest|] == no
  {
    var rest := yes + ":" + no;
    assert rest[|yes|] == ':';
  }

  lemma TernaryIsNext(s: string, q: nat)
    requires 0 < q < |s| && TopOperator(s) == Ternary(q)
    ensures ParseFlat(s) == ParseTernary(s, q)
  {
    hide TopOperator, Parse, ParseTernary, Arith.Combine, TrimSpace;
  }

  lemma TernaryChooses(s: string, q: nat, yes: string, no: string, w: int64)
    requires 0 < q < |s| && Parse(s[0..q]) == Word(w)
    requires var rest := s[q + 1..|s|];
             |rest| == |yes| + 1 + |no| && IndexOf(rest, ':') == |yes|
             && rest[0..|yes|] == yes && rest[|yes| + 1..|rest|] == no
    requires TrimSpace(yes) != "" && TrimSpace(no) != ""
    ensures ParseTernary(s, q) == After(None, if w != 0 then Parse(TrimSpace(yes)) else Parse(TrimSpace(no)))
  {
    hide Parse, TopOperator, TrimSpace, IndexOf, ParseFlat, Opens, After;
  }

  lemma TernaryEvaluates(s: string, q: nat, yes: string, no: string, w: int64)
    requires TopOperator(s) == Ternary(q) && q + 1 + |yes| + 1 + |no| == |s|
    requires Parse(s[0..q]) == Word(w)
    requires s[q + 1..|s|] == yes + ":" + no && Lacks(yes, ':')
    requires TrimSpace(yes) != "" && TrimSpace(no) != ""
    ensures ParseFlat(s) == if w != 0 then Parse(TrimSpace(yes)) else Parse(TrimSpace(no))
  {
    hide *;
    ColonFound(yes, no);
    TernaryIsNext(s, q);
    TernaryChooses(s, q, yes, no, w);
    AfterNothing(if w != 0 then Parse(TrimSpace(yes)) else Parse(TrimSpace(no)));
  }

  lemma AfterNothing(r: Outcome)
    ensures After(None, r) == r
  {
  }

  function Padded(before: nat, s: string, after: nat): string {
    Blanks(before) + s + Blanks(after)
  }

  lemma ChoiceText(c: string, g0: nat, g1: nat, y: string, g2: nat, g3: nat, n: string)
    ensures var s := c + (Gap(g0, "?", g1) + (y + (Gap(g2, ":", g3) + n)));
            var q := |c| + g0;
            && s == c + (Blanks(g0) + ("?" + (Padded(g1, y, g2) + ":" + Padded(g3, n, 0))))
            && q + 1 + |Padded(g1, y, g2)| + 1 + |Padded(g3, n, 0)| == |s|
            && s[0..q] == Blanks(0) + c + Blanks(g0)
            && s[q + 1..|s|] == Padded(g1, y, g2) + ":" + Padded(g3, n, 0)
  {
    var rest := Padded(g1, y, g2) + ":" + Padded(g3, n, 0);
    assert Gap(g0, "?", g1) == Blanks(g0) + "?" + Blanks(g1);
    assert rest == Blanks(g1) + (y + (Gap(g2, ":", g3) + n));
    assert c + (Gap(g0, "?", g1) + (y + (Gap(g2, ":", g3) + n))) == c + (Blanks(g0) + ("?" + rest));
  }

  lemma PaddedLacksColon(g1: nat, y: string, g2: nat, negative: bool)
    requires LeafShape(y, negative)
    ensures Lacks(Padded(g1, y, g2), ':')
  {
  }

  lemma ChoiceEvaluates(c: Expr, g0: nat, g1: nat, y: Expr, g2: nat, g3: nat, n: Expr)
    requires WellFormed(c) && IsLeaf(c) && WellFormed(y) && IsLeaf(y) && WellFormed(n) && IsLeaf(n)
    ensures ParseFlat(Text(c) + (Gap(g0, "?", g1) + (Text(y) + (Gap(g2, ":", g3) + Text(n)))))
         == Word(if EvalLeaf(c) != 0 then EvalLeaf(y) else EvalLeaf(n))
  {
    hide *;
    var tc, ty, tn := Text(c), Text(y), Text(n);
    var s := tc + (Gap(g0, "?", g1) + (ty + (Gap(g2, ":", g3) + tn)));
    var yes, no := Padded(g1, ty, g2), Padded(g3, tn, 0);
    ChoiceText(tc, g0, g1, ty, g2, g3, tn);
    LeafHasShape(c);
    LeafHasShape(y);
    TernarySplits(tc, g0, yes + ":" + no, Negative(c));
    PaddedLacksColon(g1, ty, g2, Negative(y));
    LeafEvaluates(c);
    LeafEvaluates(y);
    LeafEvaluates(n);
    ParseOfFlat(0, tc, g0);
    PaddedTrims(g1, ty, g2);
    PaddedTrims(g3, tn, 0);
    ParseOfBare(ty);
    ParseOfBare(tn);
    TernaryEvaluates(s, |tc| + g0, yes, no, EvalLeaf(c));
  }

  lemma PaddedTrims(before: nat, s: string, after: nat)
    requires Trimmed(s) && s != ""
    ensures TrimSpace(Padded(before, s, after)) == s
  {
    TrimPadded(before, s, after);
  }

  /** Every flat text evaluates as its tree does. */
  lemma FlatEvaluates(e: Expr)
    requires WellFormed(e) && IsFlat(e)
    ensures ParseFlat(Text(e)) == EvalFlat(e)
  {
    match e
    case Atom(_) => LeafEvaluates(e);
    case Splice(_) => LeafEvaluates(e);
    case Unary(_, _) => UnaryEvaluates(e);
    case Bin(_, _, _, _, _) => BinEvaluates(e);
    case Choice(c, g0, g1, y, g2, g3, n) => ChoiceEvaluates(c, g0, g1, y, g2, g3, n);
  }

  /** The text of a flat tree starts and ends with something other than a blank. */
  lemma FlatTextIsTrimmed(e: Expr)
    requires WellFormed(e) && IsFlat(e)
    ensures Text(e) != "" && Trimmed(Text(e)) && NoParens(Text(e))
  {
    hide NoParens, ParseFlat, Trimmed, Numerals.Format, Gap, WellFormed;
    FlatTextHasNoParens(e);
    FlatParts(e);
    match e
    case Atom(_) => LeafEvaluates(e);
    case Splice(_) => LeafEvaluates(e);
    case Unary(op, x) =>
      LeafEvaluates(x);
      SignIsTrimmed(op, Text(x));
    case Bin(op, l, b, a, r) =>
      LeafEvaluates(l);
      LeafEvaluates(r);
      BetweenIsTrimmed(Text(l), Gap(b, Symbol(op), a), Text(r));
    case Choice(c, g0, g1, y, g2, g3, n) =>
      LeafEvaluates(c);
      LeafEvaluates(n);
      var colon := Gap(g2, ":", g3);
      BetweenIsTrimmed(Text(c), Gap(g0, "?", g1) + (Text(y) + colon), Text(n));
      assert Gap(g0, "?", g1) + (Text(y) + (colon + Text(n))) == Gap(g0, "?", g1) + (Text(y) + colon) + Text(n);
  }

  /** The operands of a flat tree. */
  lemma FlatParts(e: Expr)
    requires WellFormed(e) && IsFlat(e)
    ensures e.Unary? ==> WellFormed(e.operand) && IsLeaf(e.operand)
    ensures e.Bin? ==> WellFormed(e.left) && WellFormed(e.right) && IsLeaf(e.left) && IsLeaf(e.right)
    ensures e.Choice? ==> WellFormed(e.cond) && WellFormed(e.no) && IsLeaf(e.cond) && IsLeaf(e.no)
  {
  }

  lemma BetweenIsTrimmed(s: string, gap: string, t: string)
    requires s != "" && Trimmed(s) && t != "" && Trimmed(t)
    ensures s + (gap + t) != "" && Trimmed(s + (gap + t))
  {
  }
}
