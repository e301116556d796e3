// Expressions without parentheses: which of several operators the evaluator splits at, and when that is
// the one that binds weakest in C.
module ArithChains {
  import opened Int64
  import opened Options
  import opened Scan
  import opened Arith
  import opened ArithTrees
  import opened ArithFlat
  import opened Operators
  import Numerals

  // ----- the operators of a text and their places -----

  datatype Mark = Mark(op: BinOp, at: nat)

  function End(m: Mark): nat { m.at + |Symbol(m.op)| }

  predicate Within(m: Mark, i: int) { m.at <= i < End(m) }

  /** The operators stand where the marks say, apart from each other; all else are word characters and blanks. */
  predicate Marked(s: string, ms: seq<Mark>) {
    && (forall k :: 0 <= k < |ms| ==> Placed(s, ms[k]))
    && (forall j, k :: 0 <= j < k < |ms| ==> End(ms[j]) <= ms[k].at)
    && (forall i :: 0 <= i < |s| && !Plain(s[i]) ==> exists k :: 0 <= k < |ms| && Within(ms[k], i))
  }

  predicate Placed(s: string, m: Mark) {
    0 < m.at && End(m) < |s| && OperatorAt(s, m.op, m.at) && Plain(s[m.at - 1]) && Plain(s[End(m)])
  }

  /** The last of the operators that is in the class, or -1. */
  function LastOf(ops: seq<BinOp>, class_: set<BinOp>): (k: int)
    ensures -1 <= k < |ops|
    ensures k >= 0 ==> ops[k] in class_
    ensures forall j :: k < j < |ops| ==> ops[j] !in class_
  {
    if ops == [] then -1
    else if ops[|ops| - 1] in class_ then |ops| - 1 else LastOf(ops[..|ops| - 1], class_)
  }

  function Ops(ms: seq<Mark>): (ops: seq<BinOp>)
    ensures |ops| == |ms| && forall k :: 0 <= k < |ms| ==> ops[k] == ms[k].op
  {
    seq(|ms|, k requires 0 <= k < |ms| => ms[k].op)
  }

  function FirstOf(ops: seq<BinOp>, op: BinOp): (k: int)
    ensures -1 <= k < |ops|
    ensures k >= 0 ==> ops[k] == op && forall j :: 0 <= j < k ==> ops[j] != op
    ensures k == -1 ==> op !in ops
  {
    if ops == [] then -1
    else if ops[0] == op then 0
    else
      var k := FirstOf(ops[1..], op);
      assert forall j :: 0 < j < |ops| ==> ops[j] == ops[1..][j - 1];
      if k == -1 then -1 else k + 1
  }

  // ----- what the scans find -----

  function PairOf(op: BinOp): (char, char)
    requires op in {LogOr, LogAnd, Equal, NotEqual, LessEqual, GreaterEqual, ShiftLeft, ShiftRight, Raise}
  {
    (Symbol(op)[0], Symbol(op)[1])
  }

  predicate Paired(op: BinOp) { op in {LogOr, LogAnd, Equal, NotEqual, LessEqual, GreaterEqual, ShiftLeft, ShiftRight, Raise} }

  /** A two-character operator's text stands exactly where it is marked. */
  lemma PairIsMarked(s: string, ms: seq<Mark>, op: BinOp, i: int)
    requires Marked(s, ms) && Paired(op)
    ensures PairAt(s, PairOf(op).0, PairOf(op).1, i) <==> exists k :: 0 <= k < |ms| && ms[k].op == op && ms[k].at == i
  {
    var (a, b) := PairOf(op);
    if PairAt(s, a, b, i) {
      NotPlain(op, 0);
      var k :| 0 <= k < |ms| && Within(ms[k], i);
      assert Placed(s, ms[k]);
      PairThere(s, ms[k], op, i);
    }
  }

  lemma NotPlain(op: BinOp, j: nat)
    requires j < |Symbol(op)|
    ensures !Plain(Symbol(op)[j])
  {
  }

  lemma PairThere(s: string, m: Mark, op: BinOp, i: int)
    requires Placed(s, m) && Within(m, i) && Paired(op) && PairAt(s, PairOf(op).0, PairOf(op).1, i)
    ensures m.op == op && m.at == i
  {
    NotPlain(op, 1);
    assert i + 1 < End(m);
  }

  function Class(level: Level): set<BinOp> {
    match level
    case AtPipe => {BitwiseOr}
    case AtCaret => {BitwiseXor}
    case AtAmpersand => {BitwiseAnd}
    case AtShift => {ShiftLeft, ShiftRight}
    case AtSum => {Plus, Minus}
    case AtProduct => {Times, Divide, Modulo}
  }

  /** A scan stops exactly at the operators of its class, once the pairs of its characters are out of the way. */
  lemma HitIsMarked(level: Level, s: string, ms: seq<Mark>, i: int)
    requires Marked(s, ms) && (level == AtPipe ==> LogOr !in Ops(ms)) && (level == AtAmpersand ==> LogAnd !in Ops(ms))
    ensures Hit(level, s, i) <==> exists k :: 0 <= k < |ms| && ms[k].at == i && ms[k].op in Class(level)
  {
    if Hit(level, s, i) {
      HitNotPlain(level, s, i);
      var k :| 0 <= k < |ms| && Within(ms[k], i);
      assert Placed(s, ms[k]) && Ops(ms)[k] == ms[k].op;
      HitThere(level, s, ms[k], i);
    }
    forall k | 0 <= k < |ms| && ms[k].at == i && ms[k].op in Class(level) ensures Hit(level, s, i) {
      assert Placed(s, ms[k]);
      HitAt(level, s, ms[k]);
    }
  }

  lemma HitNotPlain(level: Level, s: string, i: int)
    requires Hit(level, s, i)
    ensures !Plain(s[i])
  {
  }

  lemma HitThere(level: Level, s: string, m: Mark, i: int)
    requires Placed(s, m) && Within(m, i) && Hit(level, s, i)
    requires (level == AtPipe ==> m.op != LogOr) && (level == AtAmpersand ==> m.op != LogAnd)
    ensures m.at == i && m.op in Class(level)
  {
  }

  lemma HitAt(level: Level, s: string, m: Mark)
    requires Placed(s, m) && m.op in Class(level)
    ensures Hit(level, s, m.at)
  {
  }

  function Where(ms: seq<Mark>, k: int): int
    requires -1 <= k < |ms|
  {
    if k == -1 then -1 else ms[k].at
  }

  lemma LastPairIs(s: string, ms: seq<Mark>, op: BinOp)
    requires Marked(s, ms) && Paired(op)
    ensures LastPair(s, PairOf(op).0, PairOf(op).1, |s|) == Where(ms, LastOf(Ops(ms), {op}))
  {
    hide PairOf, Marked, PairAt;
    var (a, b) := PairOf(op);
    var k, i := LastOf(Ops(ms), {op}), LastPair(s, a, b, |s|);
    if k >= 0 {
      PairIsMarked(s, ms, op, ms[k].at);
      PairInside(s, a, b, ms[k].at);
    }
    if i >= 0 {
      PairIsMarked(s, ms, op, i);
      var j :| 0 <= j < |ms| && ms[j].op == op && ms[j].at == i;
      assert Ops(ms)[j] == op;
      NotBehind(s, ms, j, k);
    }
  }

  lemma PairInside(s: string, a: char, b: char, i: int)
    requires PairAt(s, a, b, i)
    ensures 0 <= i < |s|
  {
  }

  lemma NotBehind(s: string, ms: seq<Mark>, j: int, k: int)
    requires Marked(s, ms) && j < |ms| && k < |ms|
    ensures 0 <= j < k ==> End(ms[j]) <= ms[k].at && ms[j].at < ms[k].at
  {
  }

  lemma StarsOf()
    ensures PairOf(Raise) == ('*', '*')
  {
  }

  lemma FirstPairIs(s: string, ms: seq<Mark>)
    requires Marked(s, ms)
    ensures FirstPair(s, '*', '*', 0) == Where(ms, FirstOf(Ops(ms), Raise))
  {
    hide PairOf, Marked, PairAt;
    StarsOf();
    var k, i := FirstOf(Ops(ms), Raise), FirstPair(s, '*', '*', 0);
    if k >= 0 {
      PairIsMarked(s, ms, Raise, ms[k].at);
      PairInside(s, '*', '*', ms[k].at);
    }
    if i >= 0 {
      PairIsMarked(s, ms, Raise, i);
      var j :| 0 <= j < |ms| && ms[j].op == Raise && ms[j].at == i;
      assert Ops(ms)[j] == Raise;
      NotBehind(s, ms, k, j);
    }
  }

  lemma LastHitIs(level: Level, s: string, ms: seq<Mark>)
    requires Marked(s, ms) && (level == AtPipe ==> LogOr !in Ops(ms)) && (level == AtAmpersand ==> LogAnd !in Ops(ms))
    ensures LastHit(level, s, |s|) == Where(ms, LastOf(Ops(ms), Class(level)))
  {
    hide Hit, Class, Marked;
    var k, i := LastOf(Ops(ms), Class(level)), LastHit(level, s, |s|);
    if k >= 0 {
      HitIsMarked(level, s, ms, ms[k].at);
      HitInside(level, s, ms[k].at);
    }
    if i >= 0 {
      HitIsMarked(level, s, ms, i);
      var j :| 0 <= j < |ms| && ms[j].at == i && ms[j].op in Class(level);
      assert Ops(ms)[j] == ms[j].op;
      NotBehind(s, ms, j, k);
    }
  }

  lemma HitInside(level: Level, s: string, i: int)
    requires Hit(level, s, i)
    ensures 0 <= i < |s|
  {
  }

  /** The last `<` or `>`, when no `<=` or `>=` is left. */
  function Angle(less: bool): char { if less then '<' else '>' }

  function Single(less: bool): BinOp { if less then Less else Greater }

  function Doubled(less: bool): BinOp { if less then ShiftLeft else ShiftRight }

  lemma LastAngle(s: string, ms: seq<Mark>, less: bool)
    requires Marked(s, ms) && LessEqual !in Ops(ms) && GreaterEqual !in Ops(ms)
    ensures var k := LastOf(Ops(ms), {Single(less), Doubled(less)});
            LastIndexOf(s, Angle(less)) == if k == -1 then -1 else End(ms[k]) - 1
  {
    hide *;
    var k, i := LastOf(Ops(ms), {Single(less), Doubled(less)}), LastIndexOf(s, Angle(less));
    LastOpIs(ms, less);
    if k >= 0 {
      AllPlaced(s, ms, k);
      AngleThere(s, ms[k], less);
    }
    if i >= 0 {
      AngleNotPlain(less);
      var j := MarkAround(s, ms, i);
      AllPlaced(s, ms, j);
      AngleIn(s, ms[j], less, i);
      NotBehind(s, ms, j, k);
    }
  }

  lemma LastOpIs(ms: seq<Mark>, less: bool)
    ensures var k := LastOf(Ops(ms), {Single(less), Doubled(less)});
            && -1 <= k < |ms| && (k >= 0 ==> ms[k].op in {Single(less), Doubled(less)} && ms[k].at < End(ms[k]))
            && forall j :: k < j < |ms| ==> ms[j].op !in {Single(less), Doubled(less)}
    ensures LessEqual !in Ops(ms) && GreaterEqual !in Ops(ms) ==>
              forall j :: 0 <= j < |ms| ==> ms[j].op != LessEqual && ms[j].op != GreaterEqual
  {
    hide Single, Doubled;
    assert forall j :: 0 <= j < |ms| ==> Ops(ms)[j] == ms[j].op && Ops(ms)[j] in Ops(ms);
  }

  lemma MarkAround(s: string, ms: seq<Mark>, i: nat) returns (j: nat)
    requires Marked(s, ms) && i < |s| && !Plain(s[i])
    ensures j < |ms| && Within(ms[j], i)
  {
    j :| 0 <= j < |ms| && Within(ms[j], i);
  }

  lemma AllPlaced(s: string, ms: seq<Mark>, k: nat)
    requires Marked(s, ms) && k < |ms|
    ensures Placed(s, ms[k])
  {
  }

  lemma AngleNotPlain(less: bool)
    ensures !Plain(Angle(less))
  {
  }

  lemma AngleThere(s: string, m: Mark, less: bool)
    requires Placed(s, m) && m.op in {Single(less), Doubled(less)}
    ensures End(m) - 1 < |s| && s[End(m) - 1] == Angle(less)
  {
  }

  lemma AngleIn(s: string, m: Mark, less: bool, i: int)
    requires Placed(s, m) && Within(m, i) && i < |s| && s[i] == Angle(less) && m.op != LessEqual && m.op != GreaterEqual
    ensures m.op in {Single(less), Doubled(less)} && i <= End(m) - 1
  {
  }

  // ----- the split -----

  /** The operator the evaluator splits at: the scans in their order, each with its last find, but for `**`. */
  function SplitAt(ops: seq<BinOp>): (k: int)
    ensures -1 <= k < |ops|
  {
    if LogicalAt(ops) >= 0 then LogicalAt(ops)
    else if ComparisonAt(ops) >= 0 then ComparisonAt(ops)
    else ArithmeticAt(ops)
  }

  function LogicalAt(ops: seq<BinOp>): (k: int)
    ensures -1 <= k < |ops|
  {
    if LastOf(ops, {LogOr}) >= 0 then LastOf(ops, {LogOr})
    else if LastOf(ops, {LogAnd}) >= 0 then LastOf(ops, {LogAnd})
    else if LastOf(ops, {BitwiseOr}) >= 0 then LastOf(ops, {BitwiseOr})
    else if LastOf(ops, {BitwiseXor}) >= 0 then LastOf(ops, {BitwiseXor})
    else LastOf(ops, {BitwiseAnd})
  }

  function ArithmeticAt(ops: seq<BinOp>): (k: int)
    ensures -1 <= k < |ops|
  {
    if LastOf(ops, {ShiftLeft, ShiftRight}) >= 0 then LastOf(ops, {ShiftLeft, ShiftRight})
    else if LastOf(ops, {Plus, Minus}) >= 0 then LastOf(ops, {Plus, Minus})
    else if LastOf(ops, {Times, Divide, Modulo}) >= 0 then LastOf(ops, {Times, Divide, Modulo})
    else FirstOf(ops, Raise)
  }

  /** Among comparisons the kinds are looked for one after the other; a `<` hides behind a later `<<`. */
  function ComparisonAt(ops: seq<BinOp>): (k: int)
    ensures -1 <= k < |ops|
  {
    if LastOf(ops, {Equal}) >= 0 then LastOf(ops, {Equal})
    else if LastOf(ops, {NotEqual}) >= 0 then LastOf(ops, {NotEqual})
    else if LastOf(ops, {LessEqual}) >= 0 then LastOf(ops, {LessEqual})
    else if LastOf(ops, {GreaterEqual}) >= 0 then LastOf(ops, {GreaterEqual})
    else if Shown(ops, true) >= 0 then Shown(ops, true)
    else Shown(ops, false)
  }

  function Shown(ops: seq<BinOp>, less: bool): (k: int)
    ensures -1 <= k < |ops|
    ensures k >= 0 ==> ops[k] == Single(less)
  {
    var k := LastOf(ops, {Single(less), Doubled(less)});
    if k >= 0 && ops[k] == Single(less) then k else -1
  }

  function SplitOf(ms: seq<Mark>, k: int): Split
    requires -1 <= k < |ms|
  {
    if k == -1 then NoOperator else Binary(ms[k].op, ms[k].at)
  }

  /** The guard around a single `<` or `>`. */
  predicate Guarded(s: string, i: int, c: char)
    requires i < |s|
  {
    i > 0 && s[i - 1] != c && !(i + 1 < |s| && s[i + 1] == c)
  }

  /** It holds exactly when no shift hides the operator. */
  lemma AngleSplit(s: string, ms: seq<Mark>, less: bool)
    requires Marked(s, ms) && LessEqual !in Ops(ms) && GreaterEqual !in Ops(ms)
    ensures var k, i := Shown(Ops(ms), less), LastIndexOf(s, Angle(less));
            && (Guarded(s, i, Angle(less)) <==> k >= 0)
            && (k >= 0 ==> i == ms[k].at)
  {
    hide *;
    LastAngle(s, ms, less);
    ShownOf(ms, less);
    NotGuarded(s, Angle(less));
    var k := LastOf(Ops(ms), {Single(less), Doubled(less)});
    if k >= 0 {
      AllPlaced(s, ms, k);
      AngleGuard(s, ms[k], less);
    }
  }

  lemma ShownOf(ms: seq<Mark>, less: bool)
    ensures var k := LastOf(Ops(ms), {Single(less), Doubled(less)});
            && (k >= 0 ==> ms[k].op in {Single(less), Doubled(less)})
            && Shown(Ops(ms), less) == if k >= 0 && ms[k].op == Single(less) then k else -1
  {
    hide LastOf, Single, Doubled;
  }

  lemma NotGuarded(s: string, c: char)
    ensures !Guarded(s, -1, c)
  {
  }

  lemma AngleGuard(s: string, m: Mark, less: bool)
    requires Placed(s, m) && m.op in {Single(less), Doubled(less)}
    ensures End(m) - 1 < |s| && (Guarded(s, End(m) - 1, Angle(less)) <==> m.op == Single(less))
    ensures m.op == Single(less) ==> End(m) - 1 == m.at
  {
  }

  /** The scans for comparisons, with their guards. */
  lemma ComparisonScans(s: string)
    ensures TopComparison(s) ==
              if LastPair(s, '=', '=', |s|) > 0 then Binary(Equal, LastPair(s, '=', '=', |s|))
              else if LastPair(s, '!', '=', |s|) > 0 then Binary(NotEqual, LastPair(s, '!', '=', |s|))
              else if LastPair(s, '<', '=', |s|) > 0 then Binary(LessEqual, LastPair(s, '<', '=', |s|))
              else if LastPair(s, '>', '=', |s|) > 0 then Binary(GreaterEqual, LastPair(s, '>', '=', |s|))
              else if Guarded(s, LastIndexOf(s, '<'), '<') then Binary(Less, LastIndexOf(s, '<'))
              else if Guarded(s, LastIndexOf(s, '>'), '>') then Binary(Greater, LastIndexOf(s, '>'))
              else NoOperator
  {
  }

  /** What a scan finds, as a split. */
  lemma PairSplit(s: string, ms: seq<Mark>, op: BinOp)
    requires Marked(s, ms) && Paired(op)
    ensures var k, i := LastOf(Ops(ms), {op}), LastPair(s, PairOf(op).0, PairOf(op).1, |s|);
            (i > 0 <==> k >= 0) && (k >= 0 ==> Binary(op, i) == SplitOf(ms, k))
  {
    hide PairOf, Marked, PairAt;
    LastPairIs(s, ms, op);
    var k := LastOf(Ops(ms), {op});
    if k >= 0 {
      AllPlaced(s, ms, k);
    }
  }

  lemma HitSplit(level: Level, s: string, ms: seq<Mark>)
    requires Marked(s, ms) && (level == AtPipe ==> LogOr !in Ops(ms)) && (level == AtAmpersand ==> LogAnd !in Ops(ms))
    ensures var k, i := LastOf(Ops(ms), Class(level)), LastHit(level, s, |s|);
            (i >= 0 <==> k >= 0) && (k >= 0 ==> Binary(OpAt(level, s[i]), i) == SplitOf(ms, k))
  {
    LastHitIs(level, s, ms);
    var k := LastOf(Ops(ms), Class(level));
    if k >= 0 {
      AllPlaced(s, ms, k);
      hide Marked, LastHit, LastOf;
      OpIsRead(level, s, ms[k]);
    }
  }

  lemma OpIsRead(level: Level, s: string, m: Mark)
    requires Placed(s, m) && m.op in Class(level)
    ensures m.at < |s| && OpAt(level, s[m.at]) == m.op
  {
  }

  lemma PowerSplit(s: string, ms: seq<Mark>)
    requires Marked(s, ms)
    ensures var k, i := FirstOf(Ops(ms), Raise), FirstPair(s, '*', '*', 0);
            (i >= 0 <==> k >= 0) && (k >= 0 ==> Binary(Raise, i) == SplitOf(ms, k))
  {
    hide Marked;
    FirstPairIs(s, ms);
  }

  lemma AngleIsSplit(s: string, ms: seq<Mark>, less: bool)
    requires Marked(s, ms) && LessEqual !in Ops(ms) && GreaterEqual !in Ops(ms)
    ensures var k, i := Shown(Ops(ms), less), LastIndexOf(s, Angle(less));
            (Guarded(s, i, Angle(less)) <==> k >= 0) && (k >= 0 ==> i >= 0 && Binary(Single(less), i) == SplitOf(ms, k))
  {
    hide Marked, Guarded;
    AngleSplit(s, ms, less);
  }

  lemma MarkedComparison(s: string, ms: seq<Mark>)
    requires Marked(s, ms)
    ensures TopComparison(s) == SplitOf(ms, ComparisonAt(Ops(ms)))
  {
    var ops := Ops(ms);
    ComparisonScans(s);
    PairSplit(s, ms, Equal);
    PairSplit(s, ms, NotEqual);
    PairSplit(s, ms, LessEqual);
    PairSplit(s, ms, GreaterEqual);
    NoneOf(ops, LessEqual);
    NoneOf(ops, GreaterEqual);
    ComparisonPairs();
    hide PairOf, Symbol, SplitOf, Placed, Plain, Marked, LastOf, LastPair, LastIndexOf, Shown, Guarded, TopComparison, Ops;
    if LastOf(ops, {LessEqual}) == -1 && LastOf(ops, {GreaterEqual}) == -1 {
      AngleIsSplit(s, ms, true);
      AngleIsSplit(s, ms, false);
    }
  }

  lemma ComparisonPairs()
    ensures PairOf(Equal) == ('=', '=') && PairOf(NotEqual) == ('!', '=')
    ensures PairOf(LessEqual) == ('<', '=') && PairOf(GreaterEqual) == ('>', '=')
  {
  }

  lemma NoneOf(ops: seq<BinOp>, op: BinOp)
    ensures LastOf(ops, {op}) == -1 <==> op !in ops
  {
  }

  lemma MarkedArithmetic(s: string, ms: seq<Mark>)
    requires Marked(s, ms)
    ensures TopArithmetic(s) == SplitOf(ms, ArithmeticAt(Ops(ms)))
  {
    ArithmeticScans(s);
    HitSplit(AtShift, s, ms);
    HitSplit(AtSum, s, ms);
    HitSplit(AtProduct, s, ms);
    PowerSplit(s, ms);
    hide Marked, LastOf, LastHit, FirstOf, FirstPair, TopArithmetic, OpAt, Ops;
  }

  lemma ArithmeticScans(s: string)
    ensures TopArithmetic(s) ==
              var shift, sum, product := LastHit(AtShift, s, |s|), LastHit(AtSum, s, |s|), LastHit(AtProduct, s, |s|);
              var power := FirstPair(s, '*', '*', 0);
              if shift >= 0 then Binary(OpAt(AtShift, s[shift]), shift)
              else if sum >= 0 then Binary(OpAt(AtSum, s[sum]), sum)
              else if product >= 0 then Binary(OpAt(AtProduct, s[product]), product)
              else if power >= 0 then Binary(Raise, power) else NoOperator
  {
    hide LastHit, FirstPair, OpAt;
  }

  lemma NoQuestion(s: string, ms: seq<Mark>)
    requires Marked(s, ms)
    ensures IndexOf(s, '?') == -1
  {
    var i := IndexOf(s, '?');
    if i >= 0 {
      var k :| 0 <= k < |ms| && Within(ms[k], i);
      assert Placed(s, ms[k]);
      NoneIsQuestion(s, ms[k], i);
    }
  }

  lemma NoneIsQuestion(s: string, m: Mark, i: int)
    requires Placed(s, m) && Within(m, i)
    ensures s[i] != '?'
  {
  }

  /** Of any number of operators the evaluator splits at the one `SplitAt` says. */
  lemma TopOfMarked(s: string, ms: seq<Mark>)
    requires Marked(s, ms)
    ensures TopOperator(s) == SplitOf(ms, SplitAt(Ops(ms)))
  {
    hide *;
    NoQuestion(s, ms);
    MarkedLogical(s, ms);
    MarkedComparison(s, ms);
    MarkedArithmetic(s, ms);
    SplitIsOneOf(ms);
  }

  lemma SplitIsOneOf(ms: seq<Mark>)
    ensures var ops := Ops(ms);
            && SplitAt(ops) == (if LogicalAt(ops) >= 0 then LogicalAt(ops) else if ComparisonAt(ops) >= 0 then ComparisonAt(ops)
                                else ArithmeticAt(ops))
            && (SplitOf(ms, ComparisonAt(ops)).Binary? <==> ComparisonAt(ops) >= 0)
  {
    hide LogicalAt, ComparisonAt, ArithmeticAt;
  }

  lemma MarkedLogical(s: string, ms: seq<Mark>)
    requires Marked(s, ms) && IndexOf(s, '?') == -1
    ensures var k := LogicalAt(Ops(ms));
            TopOperator(s) == if k >= 0 then SplitOf(ms, k) else if TopComparison(s).Binary? then TopComparison(s) else TopArithmetic(s)
  {
    var ops := Ops(ms);
    LogicalScans(s);
    PairSplit(s, ms, LogOr);
    PairSplit(s, ms, LogAnd);
    NoneOf(ops, LogOr);
    NoneOf(ops, LogAnd);
    LogicalPairs();
    hide PairOf, Symbol, SplitOf, Placed, Plain, Marked, LastOf, LastHit, LastPair, IndexOf, TopOperator, TopComparison, TopArithmetic, Ops;
    if LastOf(ops, {LogOr}) == -1 && LastOf(ops, {LogAnd}) == -1 {
      HitSplit(AtPipe, s, ms);
      HitSplit(AtCaret, s, ms);
      HitSplit(AtAmpersand, s, ms);
    }
  }

  lemma LogicalPairs()
    ensures PairOf(LogOr) == ('|', '|') && PairOf(LogAnd) == ('&', '&')
  {
  }

  lemma LogicalScans(s: string)
    requires IndexOf(s, '?') == -1
    ensures TopOperator(s) ==
              var oror, andand := LastPair(s, '|', '|', |s|), LastPair(s, '&', '&', |s|);
              var pipe, caret, amp := LastHit(AtPipe, s, |s|), LastHit(AtCaret, s, |s|), LastHit(AtAmpersand, s, |s|);
              if oror > 0 then Binary(LogOr, oror)
              else if andand > 0 then Binary(LogAnd, andand)
              else if pipe >= 0 then Binary(OpAt(AtPipe, s[pipe]), pipe)
              else if caret >= 0 then Binary(OpAt(AtCaret, s[caret]), caret)
              else if amp >= 0 then Binary(OpAt(AtAmpersand, s[amp]), amp)
              else if TopComparison(s).Binary? then TopComparison(s) else TopArithmetic(s)
  {
    hide LastHit, LastPair, TopComparison, TopArithmetic;
  }
}
