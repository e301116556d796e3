// The mathematical value of an expression tree, and when the shell's value is that one.
module ArithMeaning {
  import opened Int64
  import opened Options
  import opened Arith
  import opened ArithTrees
  import opened ArithFlat
  import opened ArithTheorem
  import opened Operators
  import opened Scan
  import Numerals

  /** The value of a tree over wrapping words, as C defines it: `||`, `&&` and `?:` evaluate only the
      operands they need. A zero divisor leaves an error behind, a negative shift count a panic. */
  ghost function Meaning(e: Expr): Outcome {
    match e
    case Atom(w) => Word(Numerals.Number(w))
    case Splice(v) => Word(v)
    case Group(_, x, _) => Meaning(x)
    case Unary(op, x) => Alone(op, Meaning(x))
    case Bin(op, l, _, _, r) =>
      if Decided(op, Meaning(l)) then Value(if op == LogOr then 1 else 0, Meaning(l).error)
      else Together(op, Meaning(l), Meaning(r))
    case Choice(c, _, _, y, _, _, n) =>
      match (Meaning(c), if Taken(Meaning(c)) then Meaning(y) else Meaning(n))
      case (Value(_, error), Value(v, later)) => Value(v, if error.Some? then error else later)
      case (_, _) => Crash
  }

  predicate Taken(cond: Outcome) { cond.Value? && cond.word != 0 }

  /** The left operand settles `||` or `&&`. */
  predicate Decided(op: BinOp, l: Outcome) {
    l.Value? && ((op == LogOr && l.word != 0) || (op == LogAnd && l.word == 0))
  }

  /** The value when every operand is evaluated, needed or not. */
  function Eager(e: Expr): Outcome {
    match e
    case Atom(w) => Word(Numerals.Number(w))
    case Splice(v) => Word(v)
    case Group(_, x, _) => Eager(x)
    case Unary(op, x) => ApplyUnary(op, Eager(x))
    case Bin(op, l, _, _, r) => Arith.Combine(op, Eager(l), Eager(r))
    case Choice(c, _, _, y, _, _, n) => Choose(Eager(c), Eager(y), Eager(n))
  }

  function Choose(c: Outcome, y: Outcome, n: Outcome): Outcome {
    match (c, y, n)
    case (Value(w, e), Value(v, f), Value(u, g)) => Value(if w != 0 then v else u, First(e, First(f, g)))
    case (_, _, _) => Crash
  }

  /** The value of a group is read back from decimal text without loss. */
  predicate Readable(e: Expr) {
    match Eager(e)
    case Value(v, _) => v != MIN
    case Crash => true
  }

  predicate ShowsSign(e: Expr) {
    !e.Atom? && Eager(e).Value? && Eager(e).word < 0
  }

  /** No group is worth -2^63, and no operator is kept from a negative group: not by a blank after
      a `-`, `*`, `/`, `%` or `**`, and not by being `!` or `~`. */
  predicate Faithful(e: Expr) {
    match e
    case Atom(_) => true
    case Splice(v) => v != MIN
    case Group(_, x, _) => Faithful(x) && Readable(x)
    case Unary(op, x) => Faithful(x) && (ShowsSign(x) ==> op != Not && op != Complement)
    case Bin(op, l, _, after, r) =>
      Faithful(l) && Faithful(r) && (ShowsSign(r) ==> op == Plus || after == 0 || !Arithmetic(op))
    case Choice(c, _, _, y, _, _, n) => Faithful(c) && Faithful(y) && Faithful(n)
  }

  predicate OnlyDivision(error: Option<ArithError>) {
    error == None || error == Some(DivideByZero)
  }

  predicate Mild(r: Outcome) {
    r.Value? ==> OnlyDivision(r.error)
  }

  lemma {:induction false} EagerIsMild(e: Expr)
    ensures Mild(Eager(e))
  {
    hide Numerals.Number, Wrap;
    match e
    case Atom(_) =>
    case Splice(_) =>
    case Group(_, x, _) => EagerIsMild(x);
    case Unary(_, x) => EagerIsMild(x);
    case Bin(_, l, _, _, r) => EagerIsMild(l); EagerIsMild(r);
    case Choice(c, _, _, y, _, _, n) => EagerIsMild(c); EagerIsMild(y); EagerIsMild(n);
  }

  lemma FirstCommutes(a: Option<ArithError>, b: Option<ArithError>)
    requires OnlyDivision(a) && OnlyDivision(b)
    ensures First(a, b) == First(b, a)
  {
  }

  /** Splitting at the sign does no harm to a sum: `a + -v` is `(a + 0) - v`. */
  lemma SumSurvives(a: int64, v: int64)
    requires MIN < v < 0
    ensures Arith.Combine(Minus, Arith.Combine(Plus, Word(a), Word(0)), Word(Magnitude(v)))
         == Arith.Combine(Plus, Word(a), Word(v))
  {
  }

  /** What an operand settles to when it is faithful: its value, to be read without loss. */
  predicate SettlesTo(e: Expr, s: Settling) {
    match Eager(e)
    case Crash => s == Stuck
    case Value(v, error) =>
      s.Settled? && s.error == error && IsLeaf(s.flat) && EvalLeaf(s.flat) == v
      && (if e.Atom? then s.flat == e else s.flat == Splice(v) && v != MIN)
  }

  lemma {:induction false} OperandSettles(e: Expr)
    requires WellFormed(e) && Operand(e) && Faithful(e)
    ensures SettlesTo(e, Settle(e))
    decreases e, 0
  {
    match e
    case Atom(_) =>
    case Splice(_) =>
    case Group(_, x, _) => FaithfulEvaluates(x);
  }

  lemma BinFaithful(e: Expr)
    requires WellFormed(e) && Faithful(e) && e.Bin?
    requires SettlesTo(e.left, Settle(e.left)) && SettlesTo(e.right, Settle(e.right))
    requires Mild(Eager(e.left)) && Mild(Eager(e.right))
    ensures Eval(e) == Eager(e)
  {
    var Bin(op, l, b, a, r) := e;
    if Eager(l).Value? && Eager(r).Value? {
      var f := Bin(op, Settle(l).flat, b, a, Settle(r).flat);
      assert Settle(e) == Settled(f, First(Eager(r).error, Eager(l).error));
      FirstCommutes(Eager(r).error, Eager(l).error);
      if SplitAtSign(f) {
        assert op == Plus;
        SumSurvives(Eager(l).word, Eager(r).word);
      }
    }
  }

  lemma ChoiceFaithful(e: Expr)
    requires WellFormed(e) && e.Choice?
    requires SettlesTo(e.cond, Settle(e.cond)) && SettlesTo(e.yes, Settle(e.yes)) && SettlesTo(e.no, Settle(e.no))
    requires Mild(Eager(e.cond)) && Mild(Eager(e.yes)) && Mild(Eager(e.no))
    ensures Eval(e) == Eager(e)
  {
  }

  lemma {:induction false} FaithfulEvaluates(e: Expr)
    requires WellFormed(e) && Faithful(e)
    ensures Eval(e) == Eager(e)
    decreases e, 1
  {
    match e
    case Atom(_) =>
    case Splice(_) =>
    case Group(_, x, _) => OperandSettles(e);
    case Unary(op, x) => OperandSettles(x);
    case Bin(op, l, b, a, r) =>
      OperandSettles(l);
      OperandSettles(r);
      EagerIsMild(l);
      EagerIsMild(r);
      BinFaithful(e);
    case Choice(c, g0, g1, y, g2, g3, n) =>
      OperandSettles(c);
      OperandSettles(y);
      OperandSettles(n);
      EagerIsMild(c);
      EagerIsMild(y);
      EagerIsMild(n);
      ChoiceFaithful(e);
  }

  // ----- operands that are evaluated although they are not needed -----

  /** An error or a panic. */
  predicate Failed(r: Outcome) { r.Crash? || r.error.Some? }

  /** Some operand that is not needed has an error or a negative shift count of its own. */
  ghost predicate SkippedFails(e: Expr) {
    match e
    case Atom(_) => false
    case Splice(_) => false
    case Group(_, x, _) => SkippedFails(x)
    case Unary(_, x) => SkippedFails(x)
    case Bin(op, l, _, _, r) =>
      SkippedFails(l) || (if Decided(op, Meaning(l)) then Failed(Eager(r)) else SkippedFails(r))
    case Choice(c, _, _, y, _, _, n) =>
      SkippedFails(c) ||
      (Meaning(c).Value? &&
       if Meaning(c).word != 0 then SkippedFails(y) || Failed(Eager(n)) else SkippedFails(n) || Failed(Eager(y)))
  }

  /** Evaluating too much changes no value, and hides no error. */
  predicate Covers(eager: Outcome, lazy: Outcome) {
    (Failed(lazy) ==> Failed(eager)) && (lazy.Crash? ==> eager.Crash?)
    && (eager.Value? ==> lazy.Value? && lazy.word == eager.word)
  }

  lemma {:induction false} EagerCovers(e: Expr)
    ensures Covers(Eager(e), Meaning(e))
    ensures !SkippedFails(e) && Meaning(e).Value? ==> Eager(e) == Meaning(e)
    ensures !Failed(Meaning(e)) ==> (Failed(Eager(e)) <==> SkippedFails(e))
  {
    hide Numerals.Number, Wrap, Apply, Together, Alone;
    match e
    case Atom(_) =>
    case Splice(_) =>
    case Group(_, x, _) => EagerCovers(x);
    case Unary(op, x) =>
      EagerCovers(x);
      ApplyUnaryIsAlone(op, Meaning(x));
    case Bin(op, l, _, _, r) =>
      EagerCovers(l);
      EagerCovers(r);
      CombineIsTogether(op, Meaning(l), Meaning(r));
      BinCovers(op, Eager(l), Meaning(l), Eager(r), Meaning(r));
      if Decided(op, Meaning(l)) {
        DecidedEagerly(op, Eager(l), Eager(r));
      }
    case Choice(c, _, _, y, _, _, n) =>
      EagerCovers(c);
      EagerCovers(y);
      EagerCovers(n);
  }

  lemma DecidedEagerly(op: BinOp, l: Outcome, r: Outcome)
    ensures Decided(op, l) && r.Value? ==>
              Arith.Combine(op, l, r) == Value(Truth(op == LogOr), First(l.error, r.error))
  {
  }

  lemma BinCovers(op: BinOp, el: Outcome, ll: Outcome, er: Outcome, lr: Outcome)
    requires Covers(el, ll) && Covers(er, lr)
    ensures var lazy := if Decided(op, ll) then Value(Truth(op == LogOr), ll.error) else Arith.Combine(op, ll, lr);
            Covers(Arith.Combine(op, el, er), lazy)
  {
  }

  /** Meaning is preserved: from the text of a faithful tree the shell computes the tree's value and
      its errors, unless an operand that is not needed fails. Then an expression with a meaning
      fails; one that fails anyway fails in any case. */
  lemma ParsePreservesMeaning(e: Expr, before: nat, after: nat)
    requires WellFormed(e) && Faithful(e)
    ensures var r := Parse(Padded(before, Text(e), after));
            && (!SkippedFails(e) ==> r == Meaning(e))
            && (Failed(Meaning(e)) ==> Failed(r))
            && (!Failed(Meaning(e)) ==> (r == Meaning(e) <==> !SkippedFails(e)))
            && (!Failed(Meaning(e)) ==> (Failed(r) <==> SkippedFails(e)))
  {
    ParseEvaluates(e, before, after);
    FaithfulEvaluates(e);
    EagerCovers(e);
  }

  // ----- exactly where a negative operand is lost -----

  /** After a blank, a negative right operand keeps its meaning for `+` always, for `*` and `**` by
      coincidence only, and for `-`, `/` and `%` never. */
  predicate SurvivesSplit(op: BinOp, a: int64, v: int64) {
    match op
    case Plus => true
    case Times => (a as int - 1) * v as int % MODULUS == 0
    case Raise => v == -1
    case _ => false
  }

  lemma SplitAgreesExactly(op: BinOp, l: Expr, before: nat, after: nat, v: int64)
    requires WellFormed(l) && IsLeaf(l) && Arithmetic(op) && after > 0 && MIN < v < 0
    ensures var e := Bin(op, l, before, after, Splice(v));
            EvalFlat(e) == Arith.Combine(op, Word(EvalLeaf(l)), Word(v)) <==> SurvivesSplit(op, EvalLeaf(l), v)
  {
    hide EvalLeaf, Wrap, Power, WellFormed;
    var a := EvalLeaf(l);
    match op
    case Plus => SumSurvives(a, v);
    case Minus => MinusFlips(a, v);
    case Times =>
      TimesFlips(a, v);
      ProductIs(a, v);
    case Divide =>
    case Modulo =>
    case Raise => RaiseFlips(a, v);
  }

  /** A product wraps to its own right factor exactly when 2^64 divides the difference. */
  lemma ProductIs(a: int64, v: int64)
    ensures Wrap(a as int * v as int) == v <==> (a as int - 1) * v as int % MODULUS == 0
  {
    var x := a as int * v as int;
    assert (a as int - 1) * v as int == x - v as int;
    WrapsTo(x, v);
  }

  lemma WrapsTo(x: int, v: int64)
    ensures Wrap(x) == v <==> (x - v as int) % MODULUS == 0
  {
    var k := (x - v as int) / MODULUS;
    if (x - v as int) % MODULUS == 0 {
      assert x == v as int + k * MODULUS;
      WrapCongruent(v as int, k);
    }
    assert Wrap(x) == v ==> x - v as int == Carry(x) * MODULUS;
  }

  lemma TimesFlips(a: int64, v: int64)
    requires MIN < v < 0
    ensures Arith.Combine(Minus, Arith.Combine(Times, Word(a), Word(0)), Word(Magnitude(v))) == Word(v)
  {
    assert a as int * 0 == 0;
  }

  lemma RaiseFlips(a: int64, v: int64)
    requires MIN < v < 0
    ensures Arith.Combine(Minus, Arith.Combine(Raise, Word(a), Word(0)), Word(Magnitude(v))) == Word(1 + v)
    ensures Arith.Combine(Raise, Word(a), Word(v)) == Word(0)
  {
    assert Power(a, 0) == 1;
  }

  /** `a - -k` comes out as `a - k`. */
  lemma MinusFlips(a: int64, v: int64)
    requires MIN < v < 0
    ensures Arith.Combine(Minus, Arith.Combine(Minus, Word(a), Word(0)), Word(Magnitude(v))) == Word(Wrap(a as int + v as int))
    ensures Wrap(a as int + v as int) != Wrap(a as int - v as int)
  {
    var x, y := a as int + v as int, a as int - v as int;
    assert y - x == (Carry(y) - Carry(x)) * MODULUS + (Wrap(y) - Wrap(x));
  }

  /** `!` and `~` in front of a negative operand: right for `!-1` alone. */
  lemma UnarySplitAgreesExactly(op: UnOp, v: int64)
    requires (op == Not || op == Complement) && MIN < v < 0
    ensures EvalFlat(Unary(op, Splice(v))) == ApplyUnary(op, Word(v)) <==> op == Not && v == -1
  {
  }

  function Difference(): Expr { Bin(Minus, Atom("0"), 0, 0, Atom("3")) }

  function BlankProduct(): Expr { Bin(Times, Atom("2"), 1, 1, Group(0, Difference(), 0)) }

  lemma ExampleText()
    ensures WellFormed(BlankProduct()) && Padded(0, Text(BlankProduct()), 0) == "2 * (0-3)"
  {
    assert Text(Difference()) == "0-3";
    assert Text(Group(0, Difference(), 0)) == "(0-3)";
    assert Gap(1, Symbol(Times), 1) == " * ";
  }

  lemma ExampleDifference()
    ensures Eval(Difference()) == Word(-3)
  {
    OneDigit("0");
    OneDigit("3");
    EvalOfFlat(Difference());
  }

  lemma ExampleProduct()
    ensures Eval(BlankProduct()) == Word(-3)
  {
    ExampleDifference();
    hide Wrap, EvalLeaf, Numerals.Number, Arith.Combine, Text;
    var f := Bin(Times, Atom("2"), 1, 1, Splice(-3));
    TimesFlips(EvalLeaf(Atom("2")), -3);
    assert Settle(BlankProduct()) == Settled(f, None);
    assert EvalFlat(f) == Word(-3);
  }

  /** The one text `2 * (0-3)`: a blank, and -6 becomes -3. */
  lemma BlankThenNegative()
    ensures Parse("2 * (0-3)") == Word(-3)
  {
    hide *;
    ExampleText();
    ExampleProduct();
    ParseEvaluates(BlankProduct(), 0, 0);
  }

  lemma OneDigit(w: string)
    requires |w| == 1 && '0' <= w[0] <= '9'
    ensures Numerals.Number(w) == w[0] as int - '0' as int
  {
    assert w[..0] == "" && w[1..] == "";
    assert Numerals.Denotes(w, 10) == Numerals.DigitValue(w[0], 10);
  }

  // ----- errors of operands that are not needed -----

  function Quotient(): Expr { Group(0, Bin(Divide, Atom("1"), 0, 0, Atom("0")), 0) }

  function GuardedChoice(): Expr { Choice(Atom("1"), 1, 1, Atom("2"), 1, 1, Quotient()) }

  function GuardedOr(): Expr { Bin(LogOr, Atom("1"), 1, 1, Quotient()) }

  lemma GuardedTexts()
    ensures WellFormed(GuardedChoice()) && Padded(0, Text(GuardedChoice()), 0) == "1 ? 2 : (1/0)"
    ensures WellFormed(GuardedOr()) && Padded(0, Text(GuardedOr()), 0) == "1 || (1/0)"
  {
    assert Text(Quotient()) == "(1/0)";
    assert Gap(1, "?", 1) == " ? " && Gap(1, ":", 1) == " : " && Gap(1, Symbol(LogOr), 1) == " || ";
  }

  lemma QuotientFails()
    ensures Eager(Quotient()) == Value(0, Some(DivideByZero))
  {
    OneDigit("1");
    OneDigit("0");
  }

  /** `1 ? 2 : (1/0)` is 2, and reported as a division by zero. */
  lemma UntakenBranchFails()
    ensures Meaning(GuardedChoice()) == Word(2)
    ensures Parse("1 ? 2 : (1/0)") == Value(2, Some(DivideByZero))
  {
    GuardedTexts();
    OneDigit("1");
    OneDigit("2");
    QuotientFails();
    hide Numerals.Number, Parse, Text;
    assert Eager(GuardedChoice()) == Value(2, Some(DivideByZero));
    FaithfulEvaluates(GuardedChoice());
    ParseEvaluates(GuardedChoice(), 0, 0);
  }

  /** `1 || (1/0)` is 1, and reported as a division by zero. */
  lemma DecidedOrFails()
    ensures Meaning(GuardedOr()) == Word(1)
    ensures Parse("1 || (1/0)") == Value(1, Some(DivideByZero))
  {
    GuardedTexts();
    OneDigit("1");
    QuotientFails();
    hide Numerals.Number, Parse, Text;
    assert Eager(GuardedOr()) == Value(1, Some(DivideByZero));
    FaithfulEvaluates(GuardedOr());
    ParseEvaluates(GuardedOr(), 0, 0);
  }

  // ----- which of several errors is reported -----

  const TWO_ERRORS := "(1 ? 2) + (1/0)"
  const ONE_ERROR := "(1 ? 2) + 0"
  const NO_ERROR := "0 + 0"

  lemma QuotientText()
    ensures Parse("1/0") == Value(0, Some(DivideByZero))
  {
    var e := Bin(Divide, Atom("1"), 0, 0, Atom("0"));
    QuotientParts(e);
    hide *;
    ParseEvaluates(e, 0, 0);
    EvalOfFlat(e);
  }

  lemma QuotientParts(e: Expr)
    requires e == Bin(Divide, Atom("1"), 0, 0, Atom("0"))
    ensures WellFormed(e) && IsFlat(e) && Padded(0, Text(e), 0) == "1/0" && EvalFlat(e) == Value(0, Some(DivideByZero))
  {
    assert Text(e) == "1/0";
    OneDigit("1");
    OneDigit("0");
    hide Numerals.Number, TruncDiv;
  }

  lemma SumText()
    ensures ParseFlat(NO_ERROR) == Word(0)
  {
    var e := Bin(Plus, Atom("0"), 1, 1, Atom("0"));
    assert Gap(1, Symbol(Plus), 1) == " + ";
    assert Text(e) == NO_ERROR;
    OneDigit("0");
    hide Numerals.Number, Parse, ParseFlat, Text;
    FlatEvaluates(e);
  }

  lemma HalfChoiceText()
    ensures Parse("1 ? 2") == Value(0, Some(MalformedTernary))
  {
    var s := "1 ? 2";
    HalfChoiceCondition();
    HalfChoiceScans(s);
    hide Parse, IndexOf, TopOperator, NoParens;
    ParseOfBare(s);
  }

  lemma HalfChoiceCondition()
    ensures Parse("1 ") == Word(1)
  {
    OneDigit("1");
    assert "1 " == Padded(0, Text(Atom("1")), 1);
    hide Numerals.Number, Parse, Text, Padded;
    ParseEvaluates(Atom("1"), 0, 1);
  }

  lemma HalfChoiceScans(s: string)
    requires s == "1 ? 2"
    ensures s[0..2] == "1 " && IndexOf(s[3..5], ':') == -1 && TopOperator(s) == Ternary(2)
    ensures Trimmed(s) && NoParens(s)
  {
    hide IndexOf;
    FirstIs(s, '?', 2);
    assert s[3..5] == " 2";
  }

  lemma LastIs(s: string, c: char, i: nat)
    requires i < |s| && s[i] == c && forall k :: i < k < |s| ==> s[k] != c
    ensures LastIndexOf(s, c) == i
  {
    hide LastIndexOf;
  }

  lemma FirstIs(s: string, c: char, i: nat)
    requires i < |s| && s[i] == c && forall k :: 0 <= k < i ==> s[k] != c
    ensures IndexOf(s, c) == i
  {
    hide IndexOf;
  }

  lemma InnermostGroups()
    ensures InnerOpen(TWO_ERRORS) == 10 && InnerClose(TWO_ERRORS) == 14 && TWO_ERRORS[11..14] == "1/0"
    ensures InnerOpen(ONE_ERROR) == 0 && InnerClose(ONE_ERROR) == 6 && ONE_ERROR[1..6] == "1 ? 2"
    ensures InnerClose(NO_ERROR) == -1
  {
    hide LastIndexOf, IndexOf;
    assert TWO_ERRORS[10..] == "(1/0)" && ONE_ERROR[0..] == ONE_ERROR;
    LastIs(TWO_ERRORS, '(', 10);
    FirstIs("(1/0)", ')', 4);
    LastIs(ONE_ERROR, '(', 0);
    FirstIs(ONE_ERROR, ')', 6);
    assert '(' !in NO_ERROR;
  }

  lemma SplicedTexts()
    ensures InnerClose(TWO_ERRORS) == 14 && Spliced(TWO_ERRORS, 0) == ONE_ERROR
    ensures InnerClose(ONE_ERROR) == 6 && Spliced(ONE_ERROR, 0) == NO_ERROR
  {
    InnermostGroups();
    assert Numerals.Format(0) == "0";
    assert TWO_ERRORS[..10] == "(1 ? 2) + " && TWO_ERRORS[15..] == "";
    assert ONE_ERROR[..0] == "" && ONE_ERROR[7..] == " + 0";
  }

  /** The group replaced first, the last of the text, decides: the division is reported, not the half choice before it. */
  lemma LastGroupsErrorIsReported()
    ensures Parse(TWO_ERRORS) == Value(0, Some(DivideByZero))
  {
    hide *;
    FirstRound();
    SecondRound();
    ErrorsJoin();
    SumText();
    TextIsTrimmed();
    ParseIs(TWO_ERRORS);
  }

  lemma TextIsTrimmed()
    ensures TrimSpace(TWO_ERRORS) == TWO_ERRORS && TWO_ERRORS != ""
  {
    hide TrimSpace;
    TrimOfTrimmed(TWO_ERRORS);
  }

  lemma FirstRound()
    ensures ReplaceGroups(TWO_ERRORS) == NotingError(Some(DivideByZero), ReplaceGroups(ONE_ERROR))
  {
    hide Parse, ReplaceGroups, InnerOpen, InnerClose, Spliced;
    QuotientText();
    InnermostGroups();
    SplicedTexts();
    ReplaceStep(TWO_ERRORS, 0, Some(DivideByZero));
  }

  lemma SecondRound()
    ensures ReplaceGroups(ONE_ERROR) == NotingError(Some(MalformedTernary), Flat(NO_ERROR, None))
  {
    hide Parse, ReplaceGroups, InnerOpen, InnerClose, Spliced;
    HalfChoiceText();
    InnermostGroups();
    SplicedTexts();
    ReplaceStep(ONE_ERROR, 0, Some(MalformedTernary));
    NoStep(NO_ERROR);
  }

  lemma ErrorsJoin()
    ensures NotingError(Some(DivideByZero), NotingError(Some(MalformedTernary), Flat(NO_ERROR, None)))
         == Flat(NO_ERROR, Some(DivideByZero))
    ensures After(Some(DivideByZero), Word(0)) == Value(0, Some(DivideByZero))
  {
  }

  lemma ReplaceStep(e: string, v: int64, error: Option<ArithError>)
    requires InnerClose(e) != -1 && Parse(e[InnerOpen(e) + 1..InnerClose(e)]) == Value(v, error)
    ensures ReplaceGroups(e) == NotingError(error, ReplaceGroups(Spliced(e, v)))
  {
    hide Parse, InnerOpen, InnerClose, Spliced;
  }

  lemma NoStep(e: string)
    requires InnerClose(e) == -1
    ensures ReplaceGroups(e) == Flat(e, None)
  {
  }

  lemma ParseIs(e: string)
    requires TrimSpace(e) == e && e != ""
    ensures Parse(e) == match ReplaceGroups(e) case Crashed => Crash case Flat(text, error) => After(error, ParseFlat(text))
  {
    hide ReplaceGroups, ParseFlat, TrimSpace;
  }
}
