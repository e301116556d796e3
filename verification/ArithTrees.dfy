// Parenthesised expression trees, their text, and the proof that the text rewriting of module
// Arith evaluates the tree.
module ArithTrees {
  import opened Int64
  import opened Options
  import opened Scan
  import opened Arith
  import Numerals

  /** An operand is an atom, a parenthesised group, or the value a group was replaced by. Numbers
      of blanks stand around operators and inside parentheses. */
  datatype Expr =
    | Atom(word: string)
    | Splice(v: int64)
    | Group(before: nat, inner: Expr, after: nat)
    | Unary(sign: UnOp, operand: Expr)
    | Bin(op: BinOp, left: Expr, before: nat, after: nat, right: Expr)
    | Choice(cond: Expr, g0: nat, g1: nat, yes: Expr, g2: nat, g3: nat, no: Expr)

  predicate IsWordChar(c: char) {
    '0' <= c <= '9' || 'a' <= c <= 'z' || 'A' <= c <= 'Z' || c == '#' || c == '@' || c == '_'
  }

  predicate HashBefore(w: string, i: nat)
    requires i <= |w|
  {
    exists k :: 0 <= k < i && w[k] == '#'
  }

  /** Word characters; `_` only as a digit behind `#`, since Go reads it as a separator elsewhere. */
  predicate IsWord(w: string) {
    w != "" && forall i :: 0 <= i < |w| ==> IsWordChar(w[i]) && (w[i] == '_' ==> HashBefore(w, i))
  }

  predicate Operand(e: Expr) { e.Atom? || e.Splice? || e.Group? }

  /** Fully parenthesised: operators apply to operands only. */
  predicate WellFormed(e: Expr) {
    match e
    case Atom(w) => IsWord(w)
    case Splice(_) => true
    case Group(_, x, _) => WellFormed(x)
    case Unary(_, x) => Operand(x) && WellFormed(x)
    case Bin(_, l, _, _, r) => Operand(l) && WellFormed(l) && Operand(r) && WellFormed(r)
    case Choice(c, _, _, y, _, _, n) =>
      Operand(c) && WellFormed(c) && Operand(y) && WellFormed(y) && Operand(n) && WellFormed(n)
  }

  function OpenPad(n: nat): string { "(" + Blanks(n) }
  function ClosePad(n: nat): string { Blanks(n) + ")" }
  function Gap(before: nat, symbol: string, after: nat): string { Blanks(before) + symbol + Blanks(after) }

  function Text(e: Expr): string {
    match e
    case Atom(w) => w
    case Splice(v) => Numerals.Format(v)
    case Group(b, x, a) => OpenPad(b) + (Text(x) + ClosePad(a))
    case Unary(op, x) => [Sign(op)] + Text(x)
    case Bin(op, l, b, a, r) => Text(l) + (Gap(b, Symbol(op), a) + Text(r))
    case Choice(c, g0, g1, y, g2, g3, n) =>
      Text(c) + (Gap(g0, "?", g1) + (Text(y) + (Gap(g2, ":", g3) + Text(n))))
  }

  // ----- what the evaluator makes of a tree -----

  /** The digits of a negative value read on their own: -2^63 does not fit and is read as 0. */
  function Magnitude(v: int64): int64 { if v == MIN then 0 else if v < 0 then -v else v }

  /** A value written in decimal and read again. */
  function Reread(v: int64): int64 { if v == MIN then 0 else v }

  function EvalLeaf(e: Expr): int64
    requires IsLeaf(e)
  {
    match e
    case Atom(w) => Numerals.Number(w)
    case Splice(v) => Reread(v)
  }

  predicate Arithmetic(op: BinOp) {
    op in {Plus, Minus, Times, Divide, Modulo, Raise}
  }

  /** The texts in which the sign of the right operand is taken for a binary minus: a blank
      between an arithmetic operator and the sign, or `!` or `~` in front of it. */
  predicate SplitAtSign(e: Expr) {
    match e
    case Unary(op, Splice(v)) => (op == Not || op == Complement) && v < 0
    case Bin(op, _, _, after, Splice(v)) => Arithmetic(op) && after > 0 && v < 0
    case _ => false
  }

  predicate IsLeaf(e: Expr) { e.Atom? || e.Splice? }

  /** Nothing in parentheses. */
  predicate IsFlat(e: Expr) {
    match e
    case Atom(_) => true
    case Splice(_) => true
    case Group(_, _, _) => false
    case Unary(_, x) => IsLeaf(x)
    case Bin(_, l, _, _, r) => IsLeaf(l) && IsLeaf(r)
    case Choice(c, _, _, y, _, _, n) => IsLeaf(c) && IsLeaf(y) && IsLeaf(n)
  }

  function Word(w: int64): Outcome { Value(w, None) }

  /** The value of a flat text; in a text that splits at the sign, the operator is applied to a
      missing operand, worth 0, and the digits are subtracted. */
  function EvalFlat(e: Expr): Outcome
    requires WellFormed(e) && IsFlat(e)
  {
    match e
    case Atom(_) => Word(EvalLeaf(e))
    case Splice(_) => Word(EvalLeaf(e))
    case Unary(op, x) =>
      if SplitAtSign(e) then Arith.Combine(Minus, ApplyUnary(op, Word(0)), Word(Magnitude(x.v)))
      else ApplyUnary(op, Word(EvalLeaf(x)))
    case Bin(op, l, _, _, r) =>
      if SplitAtSign(e) then
        Arith.Combine(Minus, Arith.Combine(op, Word(EvalLeaf(l)), Word(0)), Word(Magnitude(r.v)))
      else Arith.Combine(op, Word(EvalLeaf(l)), Word(EvalLeaf(r)))
    case Choice(c, _, _, y, _, _, n) =>
      if EvalLeaf(c) != 0 then Word(EvalLeaf(y)) else Word(EvalLeaf(n))
  }

  datatype Settling = Settled(flat: Expr, error: Option<ArithError>) | Stuck

  function Noting(error: Option<ArithError>, s: Settling): Settling {
    match s
    case Settled(f, e) => Settled(f, First(error, e))
    case Stuck => Stuck
  }

  /** Evaluates a tree by evaluating its groups, right to left, and then the flat rest. */
  function Eval(e: Expr): Outcome
    requires WellFormed(e)
    decreases e, 1
  {
    match Settle(e)
    case Stuck => Crash
    case Settled(f, error) => After(error, EvalFlat(f))
  }

  /** The tree with each outermost group replaced by its value. */
  function Settle(e: Expr): (s: Settling)
    requires WellFormed(e)
    ensures s.Settled? ==> WellFormed(s.flat) && IsFlat(s.flat) && (Operand(e) ==> Operand(s.flat))
    decreases e, 0
  {
    match e
    case Atom(_) => Settled(e, None)
    case Splice(_) => Settled(e, None)
    case Group(_, x, _) =>
      (match Eval(x)
       case Crash => Stuck
       case Value(v, error) => Settled(Splice(v), error))
    case Unary(op, x) =>
      (match Settle(x)
       case Stuck => Stuck
       case Settled(f, error) => Settled(Unary(op, f), error))
    case Bin(op, l, b, a, r) =>
      (match (Settle(r), Settle(l))
       case (Settled(rf, re), Settled(lf, le)) => Settled(Bin(op, lf, b, a, rf), First(re, le))
       case (_, _) => Stuck)
    case Choice(c, g0, g1, y, g2, g3, n) =>
      (match (Settle(n), Settle(y), Settle(c))
       case (Settled(nf, ne), Settled(yf, ye), Settled(cf, ce)) =>
         Settled(Choice(cf, g0, g1, yf, g2, g3, nf), First(ne, First(ye, ce)))
       case (_, _, _) => Stuck)
  }

  // ----- the last group -----

  /** What the last group of a tree encloses, and the tree with that group replaced by a value. */
  function LastGroup(e: Expr): (g: Expr)
    requires WellFormed(e) && !IsFlat(e)
    ensures g.Group? && WellFormed(g.inner) && IsFlat(g.inner)
  {
    match e
    case Group(_, x, _) => if IsFlat(x) then e else LastGroup(x)
    case Unary(_, x) => LastGroup(x)
    case Bin(_, l, _, _, r) => if !IsFlat(r) then LastGroup(r) else LastGroup(l)
    case Choice(c, _, _, y, _, _, n) =>
      if !IsFlat(n) then LastGroup(n) else if !IsFlat(y) then LastGroup(y) else LastGroup(c)
  }

  function Replace(e: Expr, v: int64): (f: Expr)
    requires WellFormed(e) && !IsFlat(e)
    ensures WellFormed(f) && GroupCount(f) < GroupCount(e)
    ensures Operand(e) ==> Operand(f)
  {
    match e
    case Group(b, x, a) => if IsFlat(x) then Splice(v) else Group(b, Replace(x, v), a)
    case Unary(op, x) => Unary(op, Replace(x, v))
    case Bin(op, l, b, a, r) =>
      if !IsFlat(r) then Bin(op, l, b, a, Replace(r, v)) else Bin(op, Replace(l, v), b, a, r)
    case Choice(c, g0, g1, y, g2, g3, n) =>
      if !IsFlat(n) then Choice(c, g0, g1, y, g2, g3, Replace(n, v))
      else if !IsFlat(y) then Choice(c, g0, g1, Replace(y, v), g2, g3, n)
      else Choice(Replace(c, v), g0, g1, y, g2, g3, n)
  }

  function GroupCount(e: Expr): nat {
    match e
    case Atom(_) => 0
    case Splice(_) => 0
    case Group(_, x, _) => 1 + GroupCount(x)
    case Unary(_, x) => GroupCount(x)
    case Bin(_, l, _, _, r) => GroupCount(l) + GroupCount(r)
    case Choice(c, _, _, y, _, _, n) => GroupCount(c) + GroupCount(y) + GroupCount(n)
  }

  /** The text in front of the last group and behind it. */
  function TextBefore(e: Expr): string
    requires WellFormed(e) && !IsFlat(e)
  {
    match e
    case Group(b, x, _) => if IsFlat(x) then "" else OpenPad(b) + TextBefore(x)
    case Unary(op, x) => [Sign(op)] + TextBefore(x)
    case Bin(op, l, b, a, r) =>
      if !IsFlat(r) then Text(l) + (Gap(b, Symbol(op), a) + TextBefore(r)) else TextBefore(l)
    case Choice(c, g0, g1, y, g2, g3, n) =>
      if !IsFlat(n) then Text(c) + (Gap(g0, "?", g1) + (Text(y) + (Gap(g2, ":", g3) + TextBefore(n))))
      else if !IsFlat(y) then Text(c) + (Gap(g0, "?", g1) + TextBefore(y))
      else TextBefore(c)
  }

  function TextBehind(e: Expr): string
    requires WellFormed(e) && !IsFlat(e)
  {
    match e
    case Group(_, x, a) => if IsFlat(x) then "" else TextBehind(x) + ClosePad(a)
    case Unary(_, x) => TextBehind(x)
    case Bin(op, l, b, a, r) =>
      if !IsFlat(r) then TextBehind(r) else TextBehind(l) + (Gap(b, Symbol(op), a) + Text(r))
    case Choice(c, g0, g1, y, g2, g3, n) =>
      if !IsFlat(n) then TextBehind(n)
      else if !IsFlat(y) then TextBehind(y) + (Gap(g2, ":", g3) + Text(n))
      else TextBehind(c) + (Gap(g0, "?", g1) + (Text(y) + (Gap(g2, ":", g3) + Text(n))))
  }

  predicate NoParens(s: string) {
    forall i :: 0 <= i < |s| ==> s[i] != '(' && s[i] != ')'
  }

  lemma NoParensConcat(s: string, t: string)
    requires NoParens(s) && NoParens(t)
    ensures NoParens(s + t)
  {
  }

  lemma FormatChars(v: int)
    ensures Numerals.Format(v) != ""
    ensures forall i :: 0 <= i < |Numerals.Format(v)| ==>
              '0' <= Numerals.Format(v)[i] <= '9' || (i == 0 && v < 0 && Numerals.Format(v)[0] == '-')
    ensures v < 0 ==> Numerals.Format(v)[0] == '-' && |Numerals.Format(v)| > 1
  {
    var d := Numerals.Digits(if v < 0 then -v else v, 10);
    forall i | 0 <= i < |d| ensures '0' <= d[i] <= '9' {
      assert 0 <= Numerals.DigitValue(d[i], 10) < 10;
    }
  }

  lemma LeafTextHasNoParens(e: Expr)
    requires WellFormed(e) && IsLeaf(e)
    ensures NoParens(Text(e))
  {
    if e.Splice? {
      FormatChars(e.v);
    }
  }

  lemma SymbolHasNoParens(op: BinOp)
    ensures NoParens(Symbol(op))
  {
  }

  lemma SignHasNoParens(op: UnOp)
    ensures NoParens([Sign(op)])
  {
  }

  lemma GapHasNoParens(before: nat, symbol: string, after: nat)
    requires NoParens(symbol) || symbol in {"?", ":"}
    ensures NoParens(Gap(before, symbol, after))
  {
  }

  lemma FlatTextHasNoParens(e: Expr)
    requires WellFormed(e) && IsFlat(e)
    ensures NoParens(Text(e))
  {
    hide NoParens, Gap, Numerals.Format;
    match e
    case Atom(_) => LeafTextHasNoParens(e);
    case Splice(v) => LeafTextHasNoParens(e);
    case Unary(op, x) =>
      LeafTextHasNoParens(x);
      SignHasNoParens(op);
      NoParensConcat([Sign(op)], Text(x));
    case Bin(op, l, b, a, r) =>
      LeafTextHasNoParens(l);
      LeafTextHasNoParens(r);
      SymbolHasNoParens(op);
      GapHasNoParens(b, Symbol(op), a);
      NoParensConcat(Gap(b, Symbol(op), a), Text(r));
      NoParensConcat(Text(l), Gap(b, Symbol(op), a) + Text(r));
    case Choice(c, g0, g1, y, g2, g3, n) =>
      LeafTextHasNoParens(c);
      LeafTextHasNoParens(y);
      LeafTextHasNoParens(n);
      var colon := Gap(g2, ":", g3) + Text(n);
      GapHasNoParens(g0, "?", g1);
      GapHasNoParens(g2, ":", g3);
      NoParensConcat(Gap(g2, ":", g3), Text(n));
      NoParensConcat(Text(y), colon);
      NoParensConcat(Gap(g0, "?", g1), Text(y) + colon);
      NoParensConcat(Text(c), Gap(g0, "?", g1) + (Text(y) + colon));
  }

  predicate NoOpen(s: string) {
    forall i :: 0 <= i < |s| ==> s[i] != '('
  }

  lemma NoOpenConcat(s: string, t: string)
    requires NoOpen(s) && NoOpen(t)
    ensures NoOpen(s + t)
  {
  }

  /** A text cut in three: before a group, the group, behind it. */
  lemma Prepend(p: string, before: string, m: string, behind: string)
    ensures p + (before + m + behind) == (p + before) + m + behind
  {
  }

  lemma Append(before: string, m: string, behind: string, q: string)
    ensures (before + m + behind) + q == before + m + (behind + q)
  {
  }

  /** The three parts of a tree's text around its last group, the group being written `m`. */
  ghost predicate CutsAs(e: Expr, m: string, text: string)
    requires WellFormed(e) && !IsFlat(e)
  {
    text == TextBefore(e) + m + TextBehind(e)
  }

  /** Where the last group stands in the text, and what the text of the replaced tree is. */
  lemma {:induction false} TextAroundLastGroup(e: Expr, v: int64)
    requires WellFormed(e) && !IsFlat(e)
    ensures CutsAs(e, Text(LastGroup(e)), Text(e))
    ensures CutsAs(e, Text(Splice(v)), Text(Replace(e, v)))
    ensures NoOpen(TextBehind(e))
    decreases e, 2
  {
    hide Numerals.Format, IsWord, Gap, OpenPad, ClosePad, NoOpen;
    match e
    case Group(b, x, a) => GroupAround(e, v);
    case Unary(op, x) =>
      TextAroundLastGroup(x, v);
      Prepend([Sign(op)], TextBefore(x), Text(LastGroup(x)), TextBehind(x));
      Prepend([Sign(op)], TextBefore(x), Text(Splice(v)), TextBehind(x));
    case Bin(op, l, b, a, r) => BinAround(e, v);
    case Choice(c, g0, g1, y, g2, g3, n) => ChoiceAround(e, v);
  }

  lemma {:induction false} GroupAround(e: Expr, v: int64)
    requires WellFormed(e) && e.Group?
    ensures CutsAs(e, Text(LastGroup(e)), Text(e))
    ensures CutsAs(e, Text(Splice(v)), Text(Replace(e, v)))
    ensures NoOpen(TextBehind(e))
    decreases e, 0
  {
    hide Numerals.Format, IsWord, OpenPad;
    var Group(b, x, a) := e;
    if IsFlat(x) {
      assert Replace(e, v) == Splice(v);
      assert "" + Text(e) + "" == Text(e);
      assert "" + Text(Splice(v)) + "" == Text(Splice(v));
    } else {
      TextAroundLastGroup(x, v);
      NoOpenConcat(TextBehind(x), ClosePad(a));
      hide ClosePad, NoOpen;
      var behind := TextBehind(x) + ClosePad(a);
      Append(TextBefore(x), Text(LastGroup(x)), TextBehind(x), ClosePad(a));
      Append(TextBefore(x), Text(Splice(v)), TextBehind(x), ClosePad(a));
      Prepend(OpenPad(b), TextBefore(x), Text(LastGroup(x)), behind);
      Prepend(OpenPad(b), TextBefore(x), Text(Splice(v)), behind);
    }
  }

  lemma {:induction false} BinAround(e: Expr, v: int64)
    requires WellFormed(e) && !IsFlat(e) && e.Bin?
    ensures CutsAs(e, Text(LastGroup(e)), Text(e))
    ensures CutsAs(e, Text(Splice(v)), Text(Replace(e, v)))
    ensures NoOpen(TextBehind(e))
    decreases e, 0
  {
    hide Numerals.Format, IsWord;
    var Bin(op, l, b, a, r) := e;
    var gap := Gap(b, Symbol(op), a);
    if !IsFlat(r) {
      hide Gap, NoOpen;
      TextAroundLastGroup(r, v);
      var g, n := Text(LastGroup(r)), Text(Splice(v));
      Prepend(gap, TextBefore(r), g, TextBehind(r));
      Prepend(gap, TextBefore(r), n, TextBehind(r));
      Prepend(Text(l), gap + TextBefore(r), g, TextBehind(r));
      Prepend(Text(l), gap + TextBefore(r), n, TextBehind(r));
    } else {
      FlatTextHasNoParens(r);
      TextAroundLastGroup(l, v);
      assert NoOpen(gap + Text(r));
      NoOpenConcat(TextBehind(l), gap + Text(r));
      hide Gap, NoOpen;
      Append(TextBefore(l), Text(LastGroup(l)), TextBehind(l), gap + Text(r));
      Append(TextBefore(l), Text(Splice(v)), TextBehind(l), gap + Text(r));
    }
  }

  lemma {:induction false} ChoiceAround(e: Expr, v: int64)
    requires WellFormed(e) && !IsFlat(e) && e.Choice?
    ensures CutsAs(e, Text(LastGroup(e)), Text(e))
    ensures CutsAs(e, Text(Splice(v)), Text(Replace(e, v)))
    ensures NoOpen(TextBehind(e))
    decreases e, 1
  {
    if !IsFlat(e.no) {
      AroundNo(e, v);
    } else if !IsFlat(e.yes) {
      AroundYes(e, v);
    } else {
      AroundCond(e, v);
    }
  }

  lemma {:induction false} AroundNo(e: Expr, v: int64)
    requires WellFormed(e) && !IsFlat(e) && e.Choice? && !IsFlat(e.no)
    ensures CutsAs(e, Text(LastGroup(e)), Text(e))
    ensures CutsAs(e, Text(Splice(v)), Text(Replace(e, v)))
    ensures NoOpen(TextBehind(e))
    decreases e, 0
  {
    hide Numerals.Format, IsWord, Gap, NoOpen;
    var Choice(c, g0, g1, y, g2, g3, n) := e;
    var ask, colon := Gap(g0, "?", g1), Gap(g2, ":", g3);
    TextAroundLastGroup(n, v);
    PrependAll(Text(c), ask, Text(y), colon, TextBefore(n), Text(LastGroup(n)), TextBehind(n));
    PrependAll(Text(c), ask, Text(y), colon, TextBefore(n), Text(Splice(v)), TextBehind(n));
  }

  lemma {:induction false} AroundYes(e: Expr, v: int64)
    requires WellFormed(e) && !IsFlat(e) && e.Choice? && IsFlat(e.no) && !IsFlat(e.yes)
    ensures CutsAs(e, Text(LastGroup(e)), Text(e))
    ensures CutsAs(e, Text(Splice(v)), Text(Replace(e, v)))
    ensures NoOpen(TextBehind(e))
    decreases e, 0
  {
    hide Numerals.Format, IsWord, Gap, NoOpen, NoParens;
    var Choice(c, g0, g1, y, g2, g3, n) := e;
    var ask, colon := Gap(g0, "?", g1), Gap(g2, ":", g3);
    TextAroundLastGroup(y, v);
    FlatHasNoOpen(n);
    GapHasNoParens(g2, ":", g3);
    NoOpenOf(colon);
    var q := colon + Text(n);
    NoOpenConcat(colon, Text(n));
    NoOpenConcat(TextBehind(y), q);
    AppendPrepend(Text(c), ask, TextBefore(y), Text(LastGroup(y)), TextBehind(y), q);
    AppendPrepend(Text(c), ask, TextBefore(y), Text(Splice(v)), TextBehind(y), q);
  }

  lemma {:induction false} AroundCond(e: Expr, v: int64)
    requires WellFormed(e) && !IsFlat(e) && e.Choice? && IsFlat(e.no) && IsFlat(e.yes)
    ensures CutsAs(e, Text(LastGroup(e)), Text(e))
    ensures CutsAs(e, Text(Splice(v)), Text(Replace(e, v)))
    ensures NoOpen(TextBehind(e))
    decreases e, 0
  {
    hide Numerals.Format, IsWord, Gap, NoOpen, NoParens;
    var Choice(c, g0, g1, y, g2, g3, n) := e;
    var ask, colon := Gap(g0, "?", g1), Gap(g2, ":", g3);
    TextAroundLastGroup(c, v);
    FlatHasNoOpen(n);
    FlatHasNoOpen(y);
    GapHasNoParens(g0, "?", g1);
    GapHasNoParens(g2, ":", g3);
    NoOpenOf(ask);
    NoOpenOf(colon);
    var q := ask + (Text(y) + (colon + Text(n)));
    NoOpenConcat(colon, Text(n));
    NoOpenConcat(Text(y), colon + Text(n));
    NoOpenConcat(ask, Text(y) + (colon + Text(n)));
    NoOpenConcat(TextBehind(c), q);
    Append(TextBefore(c), Text(LastGroup(c)), TextBehind(c), q);
    Append(TextBefore(c), Text(Splice(v)), TextBehind(c), q);
  }

  lemma NoOpenOf(s: string)
    requires NoParens(s)
    ensures NoOpen(s)
  {
  }

  lemma FlatHasNoOpen(e: Expr)
    requires WellFormed(e) && IsFlat(e)
    ensures NoOpen(Text(e))
  {
    FlatTextHasNoParens(e);
    NoOpenOf(Text(e));
  }

  lemma PrependAll(p0: string, p1: string, p2: string, p3: string, before: string, m: string, behind: string)
    ensures p0 + (p1 + (p2 + (p3 + (before + m + behind)))) == (p0 + (p1 + (p2 + (p3 + before)))) + m + behind
  {
    Prepend(p3, before, m, behind);
    Prepend(p2, p3 + before, m, behind);
    Prepend(p1, p2 + (p3 + before), m, behind);
    Prepend(p0, p1 + (p2 + (p3 + before)), m, behind);
  }

  lemma AppendPrepend(p0: string, p1: string, before: string, m: string, behind: string, q: string)
    ensures p0 + (p1 + ((before + m + behind) + q)) == (p0 + (p1 + before)) + m + (behind + q)
  {
    Append(before, m, behind, q);
    Prepend(p1, before, m, behind + q);
    Prepend(p0, p1 + before, m, behind + q);
  }
}
