// The shell's arithmetic evaluator. It works on text: while the expression has a parenthesis it
// replaces the last `(` and the `)` after it by the decimal text of what they enclose, then splits
// the flat rest at its weakest operator.
module Arith {
  import opened Int64
  import opened Options
  import opened Scan
  import Numerals

  datatype ArithError = DivideByZero | MalformedTernary | SyntaxError

  /** What an evaluation leaves behind: a word and the first error noted on the way, or the run-time
      panic that Go raises for a negative shift count. */
  datatype Outcome = Value(word: int64, error: Option<ArithError>) | Crash

  /** The first error wins. */
  function First(a: Option<ArithError>, b: Option<ArithError>): Option<ArithError> {
    if a.Some? then a else b
  }

  function After(error: Option<ArithError>, r: Outcome): Outcome {
    match r
    case Value(w, e) => Value(w, First(error, e))
    case Crash => Crash
  }

  datatype BinOp =
    | LogOr | LogAnd | BitwiseOr | BitwiseXor | BitwiseAnd
    | Equal | NotEqual | LessEqual | GreaterEqual | Less | Greater
    | ShiftLeft | ShiftRight | Plus | Minus | Times | Divide | Modulo | Raise

  function Symbol(op: BinOp): (s: string)
    ensures 1 <= |s| <= 2
  {
    match op
    case LogOr => "||" case LogAnd => "&&"
    case BitwiseOr => "|" case BitwiseXor => "^" case BitwiseAnd => "&"
    case Equal => "==" case NotEqual => "!=" case LessEqual => "<=" case GreaterEqual => ">="
    case Less => "<" case Greater => ">"
    case ShiftLeft => "<<" case ShiftRight => ">>"
    case Plus => "+" case Minus => "-"
    case Times => "*" case Divide => "/" case Modulo => "%" case Raise => "**"
  }

  function Truth(b: bool): int64 { if b then 1 else 0 }

  function ShiftLeftBy(a: int64, n: nat): int64 {
    if n >= 64 then 0 else Wrap(a * Pow2(n))
  }

  function ShiftRightBy(a: int64, n: nat): int64 {
    if n >= 64 then (if a < 0 then -1 else 0) else Wrap(a / Pow2(n))
  }

  /** One binary operator on two words. */
  function Apply(op: BinOp, a: int64, b: int64): Outcome {
    match op
    case LogOr => Value(Truth(a != 0 || b != 0), None)
    case LogAnd => Value(Truth(a != 0 && b != 0), None)
    case BitwiseOr => Value(Int64.Combine(Or, a, b), None)
    case BitwiseXor => Value(Int64.Combine(Xor, a, b), None)
    case BitwiseAnd => Value(Int64.Combine(And, a, b), None)
    case Equal => Value(Truth(a == b), None)
    case NotEqual => Value(Truth(a != b), None)
    case LessEqual => Value(Truth(a <= b), None)
    case GreaterEqual => Value(Truth(a >= b), None)
    case Less => Value(Truth(a < b), None)
    case Greater => Value(Truth(a > b), None)
    case ShiftLeft => if b < 0 then Crash else Value(ShiftLeftBy(a, b), None)
    case ShiftRight => if b < 0 then Crash else Value(ShiftRightBy(a, b), None)
    case Plus => Value(Wrap(a as int + b as int), None)
    case Minus => Value(Wrap(a as int - b as int), None)
    case Times => Value(Wrap(a as int * b as int), None)
    case Divide => if b == 0 then Value(0, Some(DivideByZero)) else Value(Wrap(TruncDiv(a, b)), None)
    case Modulo => if b == 0 then Value(0, Some(DivideByZero)) else Value(Wrap(TruncMod(a, b)), None)
    case Raise => Value(PowerInt(a, b), None)
  }

  /** Both operands are evaluated, left first, also by `||` and `&&`. */
  function Combine(op: BinOp, l: Outcome, r: Outcome): Outcome {
    match (l, r)
    case (Value(a, e), Value(b, f)) => After(First(e, f), Apply(op, a, b))
    case (_, _) => Crash
  }

  datatype UnOp = Negate | Identity | Not | Complement

  function Sign(op: UnOp): char {
    match op
    case Negate => '-' case Identity => '+' case Not => '!' case Complement => '~'
  }

  function ApplyUnary(op: UnOp, r: Outcome): Outcome {
    match r
    case Crash => Crash
    case Value(w, e) =>
      match op
      case Negate => Value(Wrap(-(w as int)), e)
      case Identity => r
      case Not => Value(Truth(w == 0), e)
      case Complement => Value(-1 - w, e)
  }

  // ----- choosing the operator to split at -----

  /** The six scans that walk the flat text from its end. */
  datatype Level = AtPipe | AtCaret | AtAmpersand | AtShift | AtSum | AtProduct

  predicate Hit(level: Level, s: string, i: int) {
    0 <= i < |s| &&
    match level
    case AtPipe => s[i] == '|' && !(i > 0 && s[i - 1] == '|')
    case AtCaret => s[i] == '^'
    case AtAmpersand => s[i] == '&' && !(i > 0 && s[i - 1] == '&')
    case AtShift => PairAt(s, '<', '<', i) || PairAt(s, '>', '>', i)
    case AtSum => (s[i] == '+' || s[i] == '-') && i > 0
                  && s[i - 1] != '*' && s[i - 1] != '/' && s[i - 1] != '%' && s[i - 1] != '+' && s[i - 1] != '-'
    case AtProduct => (s[i] == '*' || s[i] == '/' || s[i] == '%')
                      && !(s[i] == '*' && ((i + 1 < |s| && s[i + 1] == '*') || (i > 0 && s[i - 1] == '*')))
  }

  function LastHit(level: Level, s: string, n: nat): (i: int)
    requires n <= |s|
    ensures -1 <= i < n
    ensures i >= 0 ==> Hit(level, s, i)
    ensures forall k :: i < k < n ==> !Hit(level, s, k)
  {
    if n == 0 then -1 else if Hit(level, s, n - 1) then n - 1 else LastHit(level, s, n - 1)
  }

  function OpAt(level: Level, c: char): BinOp {
    match level
    case AtPipe => BitwiseOr
    case AtCaret => BitwiseXor
    case AtAmpersand => BitwiseAnd
    case AtShift => if c == '<' then ShiftLeft else ShiftRight
    case AtSum => if c == '+' then Plus else Minus
    case AtProduct => if c == '*' then Times else if c == '/' then Divide else Modulo
  }

  datatype Split = Ternary(at: nat) | Binary(op: BinOp, at: nat) | NoOperator

  /** The weakest operator of a flat text and where it stands. */
  function TopOperator(s: string): (r: Split)
    ensures r.Ternary? ==> 0 < r.at < |s|
    ensures r.Binary? ==> r.at + |Symbol(r.op)| <= |s|
  {
    var q := IndexOf(s, '?');
    if q > 0 then Ternary(q) else
    var oror := LastPair(s, '|', '|', |s|);
    if oror > 0 then Binary(LogOr, oror) else
    var andand := LastPair(s, '&', '&', |s|);
    if andand > 0 then Binary(LogAnd, andand) else
    var pipe := LastHit(AtPipe, s, |s|);
    if pipe >= 0 then Binary(BitwiseOr, pipe) else
    var caret := LastHit(AtCaret, s, |s|);
    if caret >= 0 then Binary(BitwiseXor, caret) else
    var amp := LastHit(AtAmpersand, s, |s|);
    if amp >= 0 then Binary(BitwiseAnd, amp) else
    var comparison := TopComparison(s);
    if comparison.Binary? then comparison else TopArithmetic(s)
  }

  function TopArithmetic(s: string): (r: Split)
    ensures !r.Ternary?
    ensures r.Binary? ==> r.at + |Symbol(r.op)| <= |s|
  {
    var shift := LastHit(AtShift, s, |s|);
    if shift >= 0 then Binary(OpAt(AtShift, s[shift]), shift) else
    var sum := LastHit(AtSum, s, |s|);
    if sum >= 0 then Binary(OpAt(AtSum, s[sum]), sum) else
    var product := LastHit(AtProduct, s, |s|);
    if product >= 0 then Binary(OpAt(AtProduct, s[product]), product) else
    var power := FirstPair(s, '*', '*', 0);
    if power >= 0 then Binary(Raise, power) else NoOperator
  }

  /** Comparison operators are looked for one after the other, each at its last position. */
  function TopComparison(s: string): (r: Split)
    ensures !r.Ternary?
    ensures r.Binary? ==> r.at + |Symbol(r.op)| <= |s|
  {
    var eq := LastPair(s, '=', '=', |s|);
    if eq > 0 then Binary(Equal, eq) else
    var ne := LastPair(s, '!', '=', |s|);
    if ne > 0 then Binary(NotEqual, ne) else
    var le := LastPair(s, '<', '=', |s|);
    if le > 0 then Binary(LessEqual, le) else
    var ge := LastPair(s, '>', '=', |s|);
    if ge > 0 then Binary(GreaterEqual, ge) else
    var lt := LastIndexOf(s, '<');
    if lt > 0 && s[lt - 1] != '<' && !(lt + 1 < |s| && s[lt + 1] == '<') then Binary(Less, lt) else
    var gt := LastIndexOf(s, '>');
    if gt > 0 && s[gt - 1] != '>' && !(gt + 1 < |s| && s[gt + 1] == '>') then Binary(Greater, gt) else
    NoOperator
  }

  // ----- the evaluator -----

  /** How many opening parentheses a text has. */
  function Opens(s: string): nat {
    if s == "" then 0 else (if s[0] == '(' then 1 else 0) + Opens(s[1..])
  }

  lemma {:induction false} OpensConcat(s: string, t: string)
    ensures Opens(s + t) == Opens(s) + Opens(t)
  {
    if s == "" {
      assert s + t == t;
    } else {
      assert (s + t)[1..] == s[1..] + t;
      OpensConcat(s[1..], t);
    }
  }

  lemma {:induction false} OpensSlice(s: string, i: nat, j: nat)
    requires i <= j <= |s|
    ensures Opens(s[i..j]) <= Opens(s)
  {
    assert s == s[..i] + (s[i..j] + s[j..]);
    OpensConcat(s[..i], s[i..j] + s[j..]);
    OpensConcat(s[i..j], s[j..]);
  }

  lemma {:induction false} NoOpens(s: string)
    requires forall i :: 0 <= i < |s| ==> s[i] != '('
    ensures Opens(s) == 0
  {
    if s != "" {
      NoOpens(s[1..]);
    }
  }

  lemma {:induction false} OpensTrim(s: string)
    ensures Opens(TrimLeft(s)) <= Opens(s) && Opens(TrimRight(s)) <= Opens(s)
  {
    if s != "" && IsSpace(s[0]) {
      OpensTrim(s[1..]);
    }
    var t := TrimRight(s);
    assert s[0..|t|] == t;
    OpensSlice(s, 0, |t|);
  }

  lemma {:induction false} FormatHasNoOpens(v: int)
    ensures Opens(Numerals.Format(v)) == 0
  {
    var s := Numerals.Format(v);
    var d := Numerals.Digits(if v < 0 then -v else v, 10);
    assert forall i :: 0 <= i < |d| ==> d[i] != '(' by {
      forall i | 0 <= i < |d| ensures d[i] != '(' {
        assert 0 <= Numerals.DigitValue(d[i], 10);
      }
    }
    NoOpens(s);
  }

  /** The last `(` and the first `)` after it. */
  function InnerOpen(e: string): int { LastIndexOf(e, '(') }

  function InnerClose(e: string): (i: int)
    ensures i == -1 || (0 <= InnerOpen(e) < i < |e| && e[i] == ')')
  {
    var start := InnerOpen(e);
    if start == -1 then -1
    else
      var end := IndexOf(e[start..], ')');
      if end == -1 then -1 else start + end
  }

  /** The text with its innermost last group replaced by the decimal text of `v`. */
  function Spliced(e: string, v: int): string
    requires InnerClose(e) != -1
  {
    e[..InnerOpen(e)] + Numerals.Format(v) + e[InnerClose(e) + 1..]
  }

  lemma OpensGroup(before: string, inner: string, after: string)
    ensures Opens(before + "(" + inner + after) == Opens(before) + 1 + Opens(inner) + Opens(after)
  {
    OpensConcat(before + "(" + inner, after);
    OpensConcat(before + "(", inner);
    OpensConcat(before, "(");
    assert Opens("(") == 1 by { assert "("[1..] == ""; }
  }

  lemma CutGroup(e: string, a: nat, z: nat)
    requires a < z < |e| && e[a] == '('
    ensures e == e[..a] + "(" + e[a + 1..z] + (e[z..z + 1] + e[z + 1..])
  {
    assert e == e[..a] + e[a..];
    assert e[a..] == "(" + e[a + 1..];
    assert e[a + 1..] == e[a + 1..z] + e[z..];
    assert e[z..] == e[z..z + 1] + e[z + 1..];
  }

  lemma {:induction false} SpliceMeasure(e: string, v: int)
    requires InnerClose(e) != -1
    ensures Opens(e[InnerOpen(e) + 1..InnerClose(e)]) < Opens(e)
    ensures Opens(Spliced(e, v)) < Opens(e)
  {
    hide Numerals.Format, TrimSpace;
    var a, z := InnerOpen(e), InnerClose(e);
    var before, inner, close, after := e[..a], e[a + 1..z], e[z..z + 1], e[z + 1..];
    CutGroup(e, a, z);
    OpensGroup(before, inner, close + after);
    OpensConcat(close, after);
    OpensConcat(before + Numerals.Format(v), after);
    OpensConcat(before, Numerals.Format(v));
    FormatHasNoOpens(v);
  }

  datatype Splicing = Flat(text: string, error: Option<ArithError>) | Crashed

  /** Evaluates any text. The measure is the number of opening parentheses, then the length: the
      text may get longer when a group is replaced by its value, but it loses a parenthesis. */
  function Parse(expr: string): Outcome
    decreases Opens(expr), |expr|, 1
  {
    var e := TrimSpace(expr);
    if e == "" then Value(0, None)
    else
      OpensTrim(expr);
      OpensTrim(TrimLeft(expr));
      match ReplaceGroups(e)
      case Crashed => Crash
      case Flat(text, error) => After(error, ParseFlat(text))
  }

  /** The rewriting loop: groups are replaced, last one first, until none is left. */
  function ReplaceGroups(e: string): (r: Splicing)
    ensures r.Flat? ==> r.text == e || Opens(r.text) < Opens(e)
    decreases Opens(e), |e|, 0
  {
    if InnerClose(e) == -1 then Flat(e, None)
    else
      SpliceMeasure(e, 0);
      match Parse(e[InnerOpen(e) + 1..InnerClose(e)])
      case Crash => Crashed
      case Value(v, error) =>
        SpliceMeasure(e, v);
        match ReplaceGroups(Spliced(e, v))
        case Crashed => Crashed
        case Flat(text, later) => Flat(text, First(error, later))
  }

  function ParseFlat(s: string): Outcome
    decreases Opens(s), |s|, 0
  {
    match TopOperator(s)
    case Ternary(q) => ParseTernary(s, q)
    case Binary(op, i) =>
      var j := i + |Symbol(op)|;
      OpensSlice(s, 0, i);
      OpensSlice(s, j, |s|);
      Combine(op, Parse(s[0..i]), Parse(s[j..|s|]))
    case NoOperator =>
      var t := TrimSpace(s);
      OpensTrim(s);
      OpensTrim(TrimLeft(s));
      if t == "" then Value(0, None) else
      OpensSlice(t, 1, |t|);
      if t[0] == '-' then ApplyUnary(Negate, Parse(t[1..|t|]))
      else if t[0] == '+' then ApplyUnary(Identity, Parse(t[1..|t|]))
      else if t[0] == '!' then ApplyUnary(Not, Parse(t[1..|t|]))
      else if t[0] == '~' then ApplyUnary(Complement, Parse(t[1..|t|]))
      else Value(Numerals.Number(t), None)
  }

  /** Only the chosen branch is evaluated here, but parenthesised parts of both already were. */
  function ParseTernary(s: string, q: nat): Outcome
    requires 0 < q < |s|
    decreases Opens(s), |s|, -1
  {
    OpensSlice(s, 0, q);
    var cond := Parse(s[0..q]);
    var rest := s[q + 1..|s|];
    var colon := IndexOf(rest, ':');
    if cond.Crash? then Crash
    else if colon == -1 then After(cond.error, Value(0, Some(MalformedTernary)))
    else
      var yes := TrimSpace(rest[0..colon]);
      var no := TrimSpace(rest[colon + 1..|rest|]);
      OpensSlice(s, q + 1, |s|);
      OpensSlice(rest, 0, colon);
      OpensSlice(rest, colon + 1, |rest|);
      OpensTrim(rest[0..colon]);
      OpensTrim(TrimLeft(rest[0..colon]));
      OpensTrim(rest[colon + 1..|rest|]);
      OpensTrim(TrimLeft(rest[colon + 1..|rest|]));
      if yes == "" || no == "" then After(cond.error, Value(0, Some(SyntaxError)))
      else After(cond.error, if cond.word != 0 then Parse(yes) else Parse(no))
  }

  function NotingError(error: Option<ArithError>, r: Splicing): Splicing {
    match r
    case Crashed => Crashed
    case Flat(text, later) => Flat(text, First(error, later))
  }

  /** The loop as it stands in the shell: rewrite until no closed group is left. */
  method RewriteGroups(expr: string) returns (r: Splicing)
    ensures r == ReplaceGroups(expr)
  {
    var e := expr;
    var error: Option<ArithError> := None;
    while InnerClose(e) != -1
      invariant ReplaceGroups(expr) == NotingError(error, ReplaceGroups(e))
      decreases Opens(e)
    {
      hide Parse, InnerOpen, InnerClose, Spliced;
      match Parse(e[InnerOpen(e) + 1..InnerClose(e)]) {
        case Crash => return Crashed;
        case Value(v, fault) =>
          SpliceMeasure(e, v);
          e, error := Spliced(e, v), First(error, fault);
      }
    }
    r := Flat(e, error);
  }
}
