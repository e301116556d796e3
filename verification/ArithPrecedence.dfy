// The value of an expression without parentheses: operators in the order in which C binds them, and
// exactly where the evaluator departs from it.
module ArithPrecedence {
  import opened Int64
  import opened Options
  import opened Scan
  import opened Arith
  import opened ArithTrees
  import opened ArithFlat
  import opened ArithChains
  import opened ArithMeaning
  import opened Operators
  import Numerals

  /** An operator with the blanks around it and the word behind it. */
  datatype Link = Link(op: BinOp, before: nat, after: nat, word: string)

  predicate Words(first: string, ls: seq<Link>) { IsWord(first) && forall k :: 0 <= k < |ls| ==> IsWord(ls[k].word) }

  function OpsOf(ls: seq<Link>): (ops: seq<BinOp>)
    ensures |ops| == |ls| && forall k :: 0 <= k < |ls| ==> ops[k] == ls[k].op
  {
    seq(|ls|, k requires 0 <= k < |ls| => ls[k].op)
  }

  function LinkText(l: Link): string { Gap(l.before, Symbol(l.op), l.after) + l.word }

  function TextOf(first: string, ls: seq<Link>): string {
    if ls == [] then first else TextOf(first, ls[..|ls| - 1]) + LinkText(ls[|ls| - 1])
  }

  function MarksOf(first: string, ls: seq<Link>): (ms: seq<Mark>)
    ensures |ms| == |ls| && forall k :: 0 <= k < |ls| ==> ms[k].op == ls[k].op
  {
    if ls == [] then []
    else
      var init, last := ls[..|ls| - 1], ls[|ls| - 1];
      MarksOf(first, init) + [Mark(last.op, |TextOf(first, init)| + last.before)]
  }

  // ----- the order of C -----

  /** How tightly an operator binds; `**` binds tightest, and to the right. */
  function Rank(op: BinOp): nat {
    match op
    case LogOr => 0
    case LogAnd => 1
    case BitwiseOr => 2
    case BitwiseXor => 3
    case BitwiseAnd => 4
    case Equal => 5 case NotEqual => 5
    case LessEqual => 6 case GreaterEqual => 6 case Less => 6 case Greater => 6
    case ShiftLeft => 7 case ShiftRight => 7
    case Plus => 8 case Minus => 8
    case Times => 9 case Divide => 9 case Modulo => 9
    case Raise => 10
  }

  predicate IsWeakest(ops: seq<BinOp>, k: nat) {
    k < |ops| && forall j :: 0 <= j < |ops| && j != k ==>
      Rank(ops[j]) > Rank(ops[k]) || (Rank(ops[j]) == Rank(ops[k]) && if ops[k] == Raise then j > k else j < k)
  }

  /** The operator applied last: the weakest, the last one of several, but the first `**`. */
  function Weakest(ops: seq<BinOp>): (k: nat)
    requires ops != []
    ensures IsWeakest(ops, k)
  {
    var n := |ops| - 1;
    if n == 0 then 0
    else
      var k := Weakest(ops[..n]);
      assert forall j :: 0 <= j < n ==> ops[..n][j] == ops[j];
      if Rank(ops[n]) < Rank(ops[k]) || (Rank(ops[n]) == Rank(ops[k]) && ops[n] != Raise) then n else k
  }

  /** The value in C's order, every operand evaluated. */
  ghost function InOrder(first: string, ls: seq<Link>): Outcome
    decreases |ls|
  {
    if ls == [] then Word(Numerals.Number(first))
    else
      var k := Weakest(OpsOf(ls));
      Together(ls[k].op, InOrder(first, ls[..k]), InOrder(ls[k].word, ls[k + 1..]))
  }

  // ----- the order of the evaluator -----

  lemma LastOfAll(ops: seq<BinOp>, class_: set<BinOp>, k: nat)
    requires k < |ops| && ops[k] in class_
    ensures LastOf(ops, class_) >= k
  {
  }

  lemma FirstOfAll(ops: seq<BinOp>, k: nat)
    requires k < |ops| && ops[k] == Raise
    ensures FirstOf(ops, Raise) >= 0
  {
    assert ops[k] in ops;
  }

  /** With an operator there is one to split at. */
  lemma SplitsSomewhere(ops: seq<BinOp>)
    requires ops != []
    ensures SplitAt(ops) >= 0
  {
    match ops[0]
    case LogOr => LastOfAll(ops, {LogOr}, 0);
    case LogAnd => LastOfAll(ops, {LogAnd}, 0);
    case BitwiseOr => LastOfAll(ops, {BitwiseOr}, 0);
    case BitwiseXor => LastOfAll(ops, {BitwiseXor}, 0);
    case BitwiseAnd => LastOfAll(ops, {BitwiseAnd}, 0);
    case Equal => LastOfAll(ops, {Equal}, 0);
    case NotEqual => LastOfAll(ops, {NotEqual}, 0);
    case LessEqual => LastOfAll(ops, {LessEqual}, 0);
    case GreaterEqual => LastOfAll(ops, {GreaterEqual}, 0);
    case Less =>
      LastOfAll(ops, {Less, ShiftLeft}, 0);
      if ops[LastOf(ops, {Less, ShiftLeft})] == ShiftLeft {
        LastOfAll(ops, {ShiftLeft, ShiftRight}, LastOf(ops, {Less, ShiftLeft}));
      }
    case Greater =>
      LastOfAll(ops, {Greater, ShiftRight}, 0);
      if ops[LastOf(ops, {Greater, ShiftRight})] == ShiftRight {
        LastOfAll(ops, {ShiftLeft, ShiftRight}, LastOf(ops, {Greater, ShiftRight}));
      }
    case ShiftLeft => LastOfAll(ops, {ShiftLeft, ShiftRight}, 0);
    case ShiftRight => LastOfAll(ops, {ShiftLeft, ShiftRight}, 0);
    case Plus => LastOfAll(ops, {Plus, Minus}, 0);
    case Minus => LastOfAll(ops, {Plus, Minus}, 0);
    case Times => LastOfAll(ops, {Times, Divide, Modulo}, 0);
    case Divide => LastOfAll(ops, {Times, Divide, Modulo}, 0);
    case Modulo => LastOfAll(ops, {Times, Divide, Modulo}, 0);
    case Raise => FirstOfAll(ops, 0);
  }

  function Climb(first: string, ls: seq<Link>): Outcome
    decreases |ls|
  {
    if ls == [] then Word(Numerals.Number(first))
    else
      SplitsSomewhere(OpsOf(ls));
      var k := SplitAt(OpsOf(ls));
      Arith.Combine(ls[k].op, Climb(first, ls[..k]), Climb(ls[k].word, ls[k + 1..]))
  }

  // ----- the text and its marks -----

  lemma WordIsPlain(w: string)
    requires IsWord(w)
    ensures w != "" && (forall i :: 0 <= i < |w| ==> Plain(w[i]) && w[i] != ' ' && w[i] != '(' && w[i] != ')')
  {
  }

  lemma {:induction false} TextIsSound(first: string, ls: seq<Link>)
    requires Words(first, ls)
    ensures var s := TextOf(first, ls); s != "" && Trimmed(s) && NoParens(s) && Plain(s[|s| - 1])
    decreases |ls|
  {
    WordIsPlain(first);
    if ls != [] {
      var init, last := ls[..|ls| - 1], ls[|ls| - 1];
      TextIsSound(first, init);
      WordIsPlain(last.word);
      LinkEnds(last);
      Ends(TextOf(first, init), LinkText(last));
    }
  }

  lemma LinkEnds(l: Link)
    requires IsWord(l.word)
    ensures LinkText(l) != "" && NoParens(LinkText(l))
    ensures Plain(LinkText(l)[|LinkText(l)| - 1]) && !IsSpace(LinkText(l)[|LinkText(l)| - 1])
  {
    WordIsPlain(l.word);
    var t, w := LinkText(l), l.word;
    assert t[|t| - 1] == w[|w| - 1] && IsWordChar(w[|w| - 1]);
  }

  lemma Ends(s: string, t: string)
    requires s != "" && t != "" && !IsSpace(s[0]) && NoParens(s) && NoParens(t) && !IsSpace(t[|t| - 1]) && Plain(t[|t| - 1])
    ensures s + t != "" && Trimmed(s + t) && NoParens(s + t) && Plain((s + t)[|s + t| - 1])
  {
    assert (s + t)[0] == s[0] && (s + t)[|s + t| - 1] == t[|t| - 1];
  }

  /** What a link adds to a marked text. */
  lemma LinkChars(l: Link)
    requires IsWord(l.word)
    ensures var t, b, n := LinkText(l), l.before, |Symbol(l.op)|;
            && |t| == b + n + l.after + |l.word| && b + n < |t|
            && (forall i :: 0 <= i < n ==> t[b + i] == Symbol(l.op)[i])
            && (forall i :: 0 <= i < b || b + n <= i < |t| ==> Plain(t[i]))
  {
    WordIsPlain(l.word);
    var t, g := LinkText(l), Gap(l.before, Symbol(l.op), l.after);
    assert forall i :: 0 <= i < |g| ==> t[i] == g[i];
    assert forall i :: |g| <= i < |t| ==> t[i] == l.word[i - |g|];
  }

  lemma MarkedAppend(s: string, ms: seq<Mark>, l: Link)
    requires Marked(s, ms) && s != "" && Plain(s[|s| - 1]) && IsWord(l.word)
    ensures Marked(s + LinkText(l), ms + [Mark(l.op, |s| + l.before)])
  {
    LinkChars(l);
    var t := LinkText(l);
    var all, m := s + t, Mark(l.op, |s| + l.before);
    var marks := ms + [m];
    NewPlaced(s, l);
    forall k | 0 <= k < |marks| ensures Placed(all, marks[k]) {
      if k < |ms| {
        assert Placed(s, ms[k]);
        StillPlaced(s, t, ms[k]);
      }
    }
    forall i | 0 <= i < |all| && !Plain(all[i]) ensures exists k :: 0 <= k < |marks| && Within(marks[k], i) {
      if i < |s| {
        var k :| 0 <= k < |ms| && Within(ms[k], i);
        assert Within(marks[k], i);
      } else {
        assert Within(marks[|ms|], i);
      }
    }
    forall j, k | 0 <= j < k < |marks| ensures End(marks[j]) <= marks[k].at {
      assert Placed(s, ms[j]);
    }
  }

  lemma StillPlaced(s: string, t: string, m: Mark)
    requires Placed(s, m)
    ensures Placed(s + t, m)
  {
  }

  lemma NewPlaced(s: string, l: Link)
    requires s != "" && Plain(s[|s| - 1]) && IsWord(l.word)
    ensures Placed(s + LinkText(l), Mark(l.op, |s| + l.before))
  {
    LinkChars(l);
    var t, all, b, n := LinkText(l), s + LinkText(l), l.before, |Symbol(l.op)|;
    hide Plain;
    assert forall i :: 0 <= i < |t| ==> all[|s| + i] == t[i];
    assert all[|s| + b + 0] == t[b + 0] == Symbol(l.op)[0];
    assert n == 2 ==> all[|s| + b + 1] == t[b + 1];
    assert all[|s| + b - 1] == if b == 0 then s[|s| - 1] else t[b - 1];
    assert all[|s| + b + n] == t[b + n];
  }

  lemma {:induction false} TextIsMarked(first: string, ls: seq<Link>)
    requires Words(first, ls)
    ensures Marked(TextOf(first, ls), MarksOf(first, ls)) && Ops(MarksOf(first, ls)) == OpsOf(ls)
    decreases |ls|
  {
    hide *;
    SameOps(first, ls);
    WordsBefore(first, ls);
    if ls == [] {
      NothingMarked(first);
      TextOfNone(first);
    } else {
      var init, last := ls[..|ls| - 1], ls[|ls| - 1];
      TextIsSound(first, init);
      TextIsMarked(first, init);
      MarkedAppend(TextOf(first, init), MarksOf(first, init), last);
      LastLink(first, ls);
    }
  }

  lemma SameOps(first: string, ls: seq<Link>)
    ensures Ops(MarksOf(first, ls)) == OpsOf(ls) && (ls == [] ==> MarksOf(first, ls) == [])
  {
  }

  lemma WordsBefore(first: string, ls: seq<Link>)
    requires Words(first, ls)
    ensures IsWord(first) && (ls != [] ==> Words(first, ls[..|ls| - 1]) && IsWord(ls[|ls| - 1].word))
  {
  }

  lemma NothingMarked(first: string)
    requires IsWord(first)
    ensures Marked(first, [])
  {
    WordIsPlain(first);
  }

  // ----- cutting the text at an operator -----

  lemma {:induction false} TextApart(first: string, ls: seq<Link>, k: nat)
    requires k < |ls|
    ensures var l := ls[k];
            && TextOf(first, ls)
               == TextOf(first, ls[..k]) + Gap(l.before, Symbol(l.op), l.after) + TextOf(l.word, ls[k + 1..])
            && MarksOf(first, ls)[k] == Mark(l.op, |TextOf(first, ls[..k])| + l.before)
    decreases |ls|
  {
    hide TextOf, MarksOf, Gap;
    var n := |ls| - 1;
    var init, last, l := ls[..n], ls[n], ls[k];
    LastLink(first, ls);
    if k == n {
      assert ls[k + 1..] == [];
      TextOfNone(l.word);
      Regroup(TextOf(first, init), Gap(l.before, Symbol(l.op), l.after), l.word, "");
    } else {
      TextApart(first, init, k);
      assert init[..k] == ls[..k] && ls[k + 1..][..n - k - 1] == init[k + 1..] && ls[k + 1..][n - k - 1] == last;
      LastLink(l.word, ls[k + 1..]);
      Regroup(TextOf(first, ls[..k]), Gap(l.before, Symbol(l.op), l.after), TextOf(l.word, init[k + 1..]), LinkText(last));
    }
  }

  lemma LastLink(first: string, ls: seq<Link>)
    requires ls != []
    ensures var init, last := ls[..|ls| - 1], ls[|ls| - 1];
            && TextOf(first, ls) == TextOf(first, init) + LinkText(last)
            && |MarksOf(first, init)| == |ls| - 1
            && MarksOf(first, ls) == MarksOf(first, init) + [Mark(last.op, |TextOf(first, init)| + last.before)]
  {
  }

  lemma Regroup(a: string, b: string, c: string, d: string)
    ensures a + b + c + d == a + b + (c + d) && a + (b + c) == a + b + c
  {
  }

  lemma CutAt(left: string, b: nat, symbol: string, a: nat, right: string)
    ensures var s := left + Gap(b, symbol, a) + right;
            && s[0..|left| + b] == Blanks(0) + left + Blanks(b)
            && s[|left| + b + |symbol|..|s|] == Blanks(a) + right + Blanks(0)
  {
    var s := left + Gap(b, symbol, a) + right;
    assert s == (left + Blanks(b)) + symbol + (Blanks(a) + right);
    assert s[0..|left| + b] == left + Blanks(b);
    assert s[|left| + b + |symbol|..|s|] == Blanks(a) + right;
  }

  /** The evaluator splits the text where `SplitAt` says, at every depth. */
  lemma {:induction false} ChainEvaluates(first: string, ls: seq<Link>)
    requires Words(first, ls)
    ensures ParseFlat(TextOf(first, ls)) == Climb(first, ls)
    decreases |ls|
  {
    assert IsWord(first);
    hide *;
    if ls == [] {
      WordEvaluates(first);
      TextOfNone(first);
      ClimbNothing(first);
    } else {
      var k, right := ChainSplits(first, ls);
      ChainEvaluates(first, ls[..k]);
      ChainEvaluates(ls[k].word, right);
    }
  }

  lemma ClimbNothing(first: string)
    ensures Climb(first, []) == Word(Numerals.Number(first)) && InOrder(first, []) == Word(Numerals.Number(first))
  {
  }

  lemma ClimbStep(first: string, ls: seq<Link>)
    requires ls != []
    ensures SplitAt(OpsOf(ls)) >= 0
    ensures var k := SplitAt(OpsOf(ls));
            Climb(first, ls) == Arith.Combine(ls[k].op, Climb(first, ls[..k]), Climb(ls[k].word, ls[k + 1..]))
  {
    hide SplitAt, Arith.Combine;
    SplitsSomewhere(OpsOf(ls));
  }

  lemma ChainSplits(first: string, ls: seq<Link>) returns (k: nat, right: seq<Link>)
    requires Words(first, ls) && ls != []
    ensures k < |ls| && right == ls[k + 1..] && Words(first, ls[..k]) && Words(ls[k].word, right)
    ensures ParseFlat(TextOf(first, ls))
         == Arith.Combine(ls[k].op, ParseFlat(TextOf(first, ls[..k])), ParseFlat(TextOf(ls[k].word, right)))
    ensures Climb(first, ls) == Arith.Combine(ls[k].op, Climb(first, ls[..k]), Climb(ls[k].word, right))
  {
    hide *;
    ClimbStep(first, ls);
    k := SplitAt(OpsOf(ls));
    right := ls[k + 1..];
    WordsApart(first, ls, k);
    TextIsMarked(first, ls);
    TopOfMarked(TextOf(first, ls), MarksOf(first, ls));
    MarksAreLinks(first, ls, k);
    SplitIs(MarksOf(first, ls), k);
    TextApart(first, ls, k);
    CutEvaluates(TextOf(first, ls), TextOf(first, ls[..k]), ls[k], TextOf(ls[k].word, right), first, ls[..k], right);
  }

  lemma WordsApart(first: string, ls: seq<Link>, k: nat)
    requires Words(first, ls) && k < |ls|
    ensures Words(first, ls[..k]) && Words(ls[k].word, ls[k + 1..])
  {
  }

  /** A text that is split between two chains evaluates both. */
  lemma CutEvaluates(s: string, left: string, l: Link, tail: string, first: string, ls: seq<Link>, rs: seq<Link>)
    requires Words(first, ls) && Words(l.word, rs) && left == TextOf(first, ls) && tail == TextOf(l.word, rs)
    requires s == left + Gap(l.before, Symbol(l.op), l.after) + tail && TopOperator(s) == Binary(l.op, |left| + l.before)
    ensures ParseFlat(s) == Arith.Combine(l.op, ParseFlat(left), ParseFlat(tail))
  {
    hide *;
    CutAt(left, l.before, Symbol(l.op), l.after, tail);
    SplitEvaluates(s, l.op, |left| + l.before, Blanks(0) + left + Blanks(l.before), Blanks(l.after) + tail + Blanks(0));
    TextIsSound(first, ls);
    TextIsSound(l.word, rs);
    ParseOfFlat(0, left, l.before);
    ParseOfFlat(l.after, tail, 0);
  }

  lemma MarksAreLinks(first: string, ls: seq<Link>, k: nat)
    requires k < |ls|
    ensures |MarksOf(first, ls)| == |ls|
  {
  }

  lemma SplitIs(ms: seq<Mark>, k: nat)
    requires k < |ms|
    ensures SplitOf(ms, k) == Binary(ms[k].op, ms[k].at)
  {
  }

  lemma TextOfNone(first: string)
    ensures TextOf(first, []) == first
  {
  }

  // ----- where both orders agree -----

  /** At every depth the evaluator splits at the weakest operator. */
  predicate ReadAsInC(ops: seq<BinOp>)
    decreases |ops|
  {
    ops == [] || (SplitAt(ops) == Weakest(ops) && ReadAsInC(ops[..Weakest(ops)]) && ReadAsInC(ops[Weakest(ops) + 1..]))
  }

  /** Precedence and associativity are C's: where the operators are read as in C, the value is that of C's order. */
  lemma {:induction false} ClimbsInOrder(first: string, ls: seq<Link>)
    requires ReadAsInC(OpsOf(ls))
    ensures Climb(first, ls) == InOrder(first, ls)
    decreases |ls|
  {
    hide *;
    if ls == [] {
      ClimbNothing(first);
    } else {
      var k := Weakest(OpsOf(ls));
      ReadParts(ls);
      ClimbStep(first, ls);
      InOrderStep(first, ls);
      ClimbsInOrder(first, ls[..k]);
      ClimbsInOrder(ls[k].word, ls[k + 1..]);
      CombineIsTogether(ls[k].op, InOrder(first, ls[..k]), InOrder(ls[k].word, ls[k + 1..]));
    }
  }

  lemma ReadParts(ls: seq<Link>)
    requires ls != [] && ReadAsInC(OpsOf(ls))
    ensures OpsOf(ls) != []
    ensures var k := Weakest(OpsOf(ls));
            SplitAt(OpsOf(ls)) == k && ReadAsInC(OpsOf(ls[..k])) && ReadAsInC(OpsOf(ls[k + 1..]))
  {
    hide SplitAt, Weakest;
    var k := Weakest(OpsOf(ls));
    assert OpsOf(ls[..k]) == OpsOf(ls)[..k] && OpsOf(ls[k + 1..]) == OpsOf(ls)[k + 1..];
  }

  lemma InOrderStep(first: string, ls: seq<Link>)
    requires ls != []
    ensures var k := Weakest(OpsOf(ls));
            InOrder(first, ls) == Together(ls[k].op, InOrder(first, ls[..k]), InOrder(ls[k].word, ls[k + 1..]))
  {
    hide Weakest, Together;
  }

  lemma PrecedenceIsC(first: string, ls: seq<Link>, before: nat, after: nat)
    requires Words(first, ls) && ReadAsInC(OpsOf(ls))
    ensures Parse(Padded(before, TextOf(first, ls), after)) == InOrder(first, ls)
  {
    hide ParseFlat, Parse, ReadAsInC, TextOf, Climb, InOrder, Trimmed, NoParens;
    TextIsSound(first, ls);
    ParseOfFlat(before, TextOf(first, ls), after);
    ChainEvaluates(first, ls);
    ClimbsInOrder(first, ls);
  }

  predicate Later(ops: seq<BinOp>, k: nat, op: BinOp) { exists m :: k < m < |ops| && ops[m] == op }

  /** The comparisons that mislead the scans, given the weakest operator at `k`. */
  predicate Misread(ops: seq<BinOp>, k: nat)
    requires k < |ops|
  {
    match ops[k]
    case NotEqual => Equal in ops
    case GreaterEqual => LessEqual in ops
    case Less => LessEqual in ops || GreaterEqual in ops || Later(ops, k, ShiftLeft)
    case Greater =>
      || LessEqual in ops || GreaterEqual in ops || Later(ops, k, ShiftRight)
      || exists j :: 0 <= j < k && ops[j] == Less && !Later(ops, j, ShiftLeft)
    case _ => false
  }

  lemma SameLast(ops: seq<BinOp>, class_: set<BinOp>, k: nat)
    requires IsWeakest(ops, k) && ops[k] in class_ && ops[k] != Raise
    requires forall op :: op in class_ ==> Rank(op) == Rank(ops[k])
    ensures LastOf(ops, class_) == k
  {
  }

  lemma Stronger(ops: seq<BinOp>, class_: set<BinOp>, k: nat)
    requires IsWeakest(ops, k) && forall op :: op in class_ ==> Rank(op) < Rank(ops[k])
    ensures LastOf(ops, class_) == -1
  {
  }

  /** The split is C's exactly when no other comparison is looked for first and no shift hides a `<` or `>`. */
  lemma SplitsAsInC(ops: seq<BinOp>)
    requires ops != []
    ensures SplitAt(ops) == Weakest(ops) <==> !Misread(ops, Weakest(ops))
  {
    var k := Weakest(ops);
    WeakestSplit(ops, k);
  }

  lemma WeakestSplit(ops: seq<BinOp>, k: nat)
    requires IsWeakest(ops, k)
    ensures SplitAt(ops) == k <==> !Misread(ops, k)
  {
    if Rank(ops[k]) < 5 {
      WeakestLogical(ops, k);
    } else if Rank(ops[k]) > 6 {
      WeakestArithmetic(ops, k);
    } else {
      WeakestComparison(ops, k);
    }
  }

  lemma WeakestLogical(ops: seq<BinOp>, k: nat)
    requires k < |ops| && IsWeakest(ops, k) && Rank(ops[k]) < 5
    ensures SplitAt(ops) == k && !Misread(ops, k)
  {
    hide IsWeakest, LastOf, ComparisonAt, ArithmeticAt;
    SameLast(ops, {ops[k]}, k);
    if Rank(ops[k]) > 0 { Stronger(ops, {LogOr}, k); }
    if Rank(ops[k]) > 1 { Stronger(ops, {LogAnd}, k); }
    if Rank(ops[k]) > 2 { Stronger(ops, {BitwiseOr}, k); }
    if Rank(ops[k]) > 3 { Stronger(ops, {BitwiseXor}, k); }
  }

  /** Nothing logical binds weaker, so the split is among comparisons and arithmetic. */
  lemma NothingLogical(ops: seq<BinOp>, k: nat)
    requires IsWeakest(ops, k) && Rank(ops[k]) >= 5
    ensures SplitAt(ops) == if ComparisonAt(ops) >= 0 then ComparisonAt(ops) else ArithmeticAt(ops)
  {
    hide IsWeakest, LastOf, ComparisonAt, ArithmeticAt;
    Stronger(ops, {LogOr}, k);
    Stronger(ops, {LogAnd}, k);
    Stronger(ops, {BitwiseOr}, k);
    Stronger(ops, {BitwiseXor}, k);
    Stronger(ops, {BitwiseAnd}, k);
  }

  lemma NothingCompared(ops: seq<BinOp>, k: nat)
    requires IsWeakest(ops, k) && Rank(ops[k]) > 6
    ensures ComparisonAt(ops) == -1
  {
    Stronger(ops, {Equal}, k);
    Stronger(ops, {NotEqual}, k);
    Stronger(ops, {LessEqual}, k);
    Stronger(ops, {GreaterEqual}, k);
    NothingShown(ops, k, true);
    NothingShown(ops, k, false);
    hide LastOf, Shown, IsWeakest;
  }

  lemma NothingShown(ops: seq<BinOp>, k: nat, less: bool)
    requires IsWeakest(ops, k) && Rank(ops[k]) > 6
    ensures Shown(ops, less) == -1
  {
  }

  lemma WeakestArithmetic(ops: seq<BinOp>, k: nat)
    requires IsWeakest(ops, k) && Rank(ops[k]) > 6
    ensures SplitAt(ops) == k && !Misread(ops, k)
  {
    NothingLogical(ops, k);
    NothingCompared(ops, k);
    ArithmeticIsWeakest(ops, k);
    hide LastOf, SplitAt, ComparisonAt, ArithmeticAt, IsWeakest;
  }

  lemma ArithmeticIsWeakest(ops: seq<BinOp>, k: nat)
    requires k < |ops| && IsWeakest(ops, k) && Rank(ops[k]) > 6
    ensures ArithmeticAt(ops) == k
  {
    hide LastOf, FirstOf, IsWeakest;
    if Rank(ops[k]) == 7 {
      SameLast(ops, {ShiftLeft, ShiftRight}, k);
    } else {
      Stronger(ops, {ShiftLeft, ShiftRight}, k);
      if Rank(ops[k]) == 8 {
        SameLast(ops, {Plus, Minus}, k);
      } else {
        Stronger(ops, {Plus, Minus}, k);
        if Rank(ops[k]) == 9 {
          SameLast(ops, {Times, Divide, Modulo}, k);
        } else {
          Stronger(ops, {Times, Divide, Modulo}, k);
          FirstRaise(ops, k);
        }
      }
    }
  }

  lemma FirstRaise(ops: seq<BinOp>, k: nat)
    requires IsWeakest(ops, k) && Rank(ops[k]) == 10
    ensures FirstOf(ops, Raise) == k
  {
    FirstOfAll(ops, k);
  }

  lemma WeakestComparison(ops: seq<BinOp>, k: nat)
    requires IsWeakest(ops, k) && 5 <= Rank(ops[k]) <= 6
    ensures SplitAt(ops) == k <==> !Misread(ops, k)
  {
    NothingLogical(ops, k);
    hide SplitAt;
    if Rank(ops[k]) == 5 {
      WeakestEquality(ops, k);
    } else {
      WeakestOrder(ops, k);
    }
  }

  /** The last place of one operator. */
  lemma LastOfOne(ops: seq<BinOp>, op: BinOp)
    ensures LastOf(ops, {op}) >= 0 <==> op in ops
  {
  }

  lemma WeakestEquality(ops: seq<BinOp>, k: nat)
    requires IsWeakest(ops, k) && Rank(ops[k]) == 5
    ensures ComparisonAt(ops) >= 0 && (ComparisonAt(ops) == k <==> !Misread(ops, k))
  {
    LastOfOne(ops, Equal);
    if ops[k] == Equal {
      LastIs(ops, {Equal}, k);
    } else {
      LastIs(ops, {NotEqual}, k);
    }
    hide LastOf, Shown, IsWeakest;
  }

  lemma LastIs(ops: seq<BinOp>, class_: set<BinOp>, k: nat)
    requires IsWeakest(ops, k) && ops[k] in class_ && ops[k] != Raise
    requires forall op :: op in class_ ==> Rank(op) <= Rank(ops[k])
    ensures LastOf(ops, class_) == k
  {
  }

  lemma WeakestOrder(ops: seq<BinOp>, k: nat)
    requires IsWeakest(ops, k) && Rank(ops[k]) == 6
    ensures (if ComparisonAt(ops) >= 0 then ComparisonAt(ops) else ArithmeticAt(ops)) == k <==> !Misread(ops, k)
  {
    Stronger(ops, {Equal}, k);
    Stronger(ops, {NotEqual}, k);
    LastOfOne(ops, LessEqual);
    LastOfOne(ops, GreaterEqual);
    ArithmeticIsOther(ops, k);
    if ops[k] == LessEqual {
      LastIs(ops, {LessEqual}, k);
    } else if ops[k] == GreaterEqual {
      LastIs(ops, {GreaterEqual}, k);
    } else {
      ShownIs(ops, k, true);
      ShownIs(ops, k, false);
    }
    hide LastOf, Shown, IsWeakest, ArithmeticAt;
  }

  lemma ArithmeticIsOther(ops: seq<BinOp>, k: nat)
    requires k < |ops| && Rank(ops[k]) == 6
    ensures ArithmeticAt(ops) != k
  {
  }

  /** A `<` is shown if and only if it stands behind the last `<<`; likewise `>`. */
  lemma ShownIs(ops: seq<BinOp>, k: nat, less: bool)
    requires IsWeakest(ops, k) && (ops[k] == Less || ops[k] == Greater)
    ensures ops[k] == Single(less) ==> (Shown(ops, less) == k <==> !Later(ops, k, Doubled(less)))
    ensures ops[k] == Single(less) && Shown(ops, less) != k ==> Shown(ops, less) == -1
    ensures ops[k] != Single(less) ==>
              (Shown(ops, less) >= 0 <==> exists j :: 0 <= j < k && ops[j] == Single(less) && !Later(ops, j, Doubled(less)))
    ensures Shown(ops, less) == k ==> ops[k] == Single(less)
  {
    var i := LastOf(ops, {Single(less), Doubled(less)});
  }

  /** Without comparisons every expression is read as in C. */
  lemma {:induction false} WithoutComparisons(ops: seq<BinOp>)
    requires forall k :: 0 <= k < |ops| ==> !Comparing(ops[k])
    ensures ReadAsInC(ops)
    decreases |ops|
  {
    if ops != [] {
      var k := Weakest(ops);
      SplitsAsInC(ops);
      NeverMisread(ops, k);
      hide SplitAt, Weakest, Misread;
      WithoutComparisons(ops[..k]);
      WithoutComparisons(ops[k + 1..]);
    }
  }

  lemma NeverMisread(ops: seq<BinOp>, k: nat)
    requires k < |ops| && !Comparing(ops[k])
    ensures !Misread(ops, k)
  {
  }

  // ----- a comparison behind which a shift stands -----

  const HIDDEN: seq<Link> := [Link(Less, 1, 1, "2"), Link(ShiftLeft, 1, 1, "3")]

  lemma HiddenSplit()
    ensures Words("1", HIDDEN) && SplitAt(OpsOf(HIDDEN)) == 1 && Weakest(OpsOf(HIDDEN)) == 0
  {
    var ops := OpsOf(HIDDEN);
    assert ops == [Less, ShiftLeft];
    assert ops[..1] == [Less];
    assert IsWeakest(ops, 0);
    assert !IsWeakest(ops, 1);
  }

  lemma HiddenText()
    ensures Padded(0, TextOf("1", HIDDEN), 0) == "1 < 2 << 3"
  {
    assert HIDDEN[..1] == [HIDDEN[0]] && HIDDEN[..1][..0] == [];
    assert TextOf("1", [HIDDEN[0]]) == "1 < 2" by {
      assert [HIDDEN[0]][..0] == [];
      assert LinkText(HIDDEN[0]) == " < 2";
    }
    assert LinkText(HIDDEN[1]) == " << 3";
  }

  lemma HiddenParts()
    ensures HIDDEN[..1] == [Link(Less, 1, 1, "2")] && HIDDEN[1..] == [Link(ShiftLeft, 1, 1, "3")]
    ensures HIDDEN[..0] == [] && HIDDEN[2..] == [] && HIDDEN[..1][..0] == [] && HIDDEN[..1][1..] == []
    ensures HIDDEN[1..][..0] == [] && HIDDEN[1..][1..] == []
  {
  }

  lemma OneOperator(op: BinOp)
    ensures SplitAt([op]) == 0 && Weakest([op]) == 0
  {
    SplitsSomewhere([op]);
  }

  lemma OneLink(first: string, l: Link)
    ensures Climb(first, [l]) == Arith.Combine(l.op, Word(Numerals.Number(first)), Word(Numerals.Number(l.word)))
    ensures InOrder(first, [l]) == Together(l.op, Word(Numerals.Number(first)), Word(Numerals.Number(l.word)))
  {
    assert [l][..0] == [] && [l][1..] == [] && OpsOf([l]) == [l.op];
    OneOperator(l.op);
    ClimbStep(first, [l]);
    InOrderStep(first, [l]);
    ClimbNothing(first);
    ClimbNothing(l.word);
    hide *;
  }

  lemma HiddenClimb(one: Outcome, two: Outcome, three: Outcome)
    requires one == Word(Numerals.Number("1")) && two == Word(Numerals.Number("2")) && three == Word(Numerals.Number("3"))
    ensures Climb("1", HIDDEN) == Arith.Combine(ShiftLeft, Arith.Combine(Less, one, two), three)
  {
    hide SplitAt, Weakest, Climb, InOrder, Numerals.Number, Together, Arith.Combine;
    HiddenSplit();
    HiddenParts();
    ClimbStep("1", HIDDEN);
    OneLink("1", HIDDEN[0]);
    ClimbNothing("3");
  }

  lemma HiddenOrder(one: Outcome, two: Outcome, three: Outcome)
    requires one == Word(Numerals.Number("1")) && two == Word(Numerals.Number("2")) && three == Word(Numerals.Number("3"))
    ensures InOrder("1", HIDDEN) == Together(Less, one, Together(ShiftLeft, two, three))
  {
    hide SplitAt, Weakest, Climb, InOrder, Numerals.Number, Together, Arith.Combine;
    HiddenSplit();
    HiddenParts();
    InOrderStep("1", HIDDEN);
    OneLink("2", HIDDEN[1]);
    ClimbNothing("1");
  }

  lemma HiddenValue()
    ensures Climb("1", HIDDEN) == Word(8) && InOrder("1", HIDDEN) == Word(1)
  {
    OneDigit("1");
    OneDigit("2");
    OneDigit("3");
    hide Climb, InOrder, Numerals.Number, Together, Arith.Combine;
    HiddenClimb(Word(1), Word(2), Word(3));
    HiddenOrder(Word(1), Word(2), Word(3));
    HiddenWords();
  }

  lemma HiddenWords()
    ensures Arith.Combine(ShiftLeft, Arith.Combine(Less, Word(1), Word(2)), Word(3)) == Word(8)
    ensures Together(Less, Word(1), Together(ShiftLeft, Word(2), Word(3))) == Word(1)
  {
    CombineIsTogether(ShiftLeft, Word(2), Word(3));
    CombineIsTogether(Less, Word(1), Word(16));
    hide Together;
    assert Pow2(3) == 8 && Wrap(1 * 8) == 8 && Wrap(2 * 8) == 16;
  }

  /** `1 < 2 << 3` is 1 in C, where the shift comes first, and 8 here. */
  lemma ShiftHidesLess()
    ensures Parse("1 < 2 << 3") == Word(8) && InOrder("1", HIDDEN) == Word(1)
  {
    hide *;
    HiddenText();
    HiddenValue();
    HiddenSplit();
    TextIsSound("1", HIDDEN);
    ChainEvaluates("1", HIDDEN);
    ParseOfFlat(0, TextOf("1", HIDDEN), 0);
    PaddedIs(0, TextOf("1", HIDDEN), 0);
  }

  lemma PaddedIs(before: nat, s: string, after: nat)
    ensures Padded(before, s, after) == Blanks(before) + s + Blanks(after)
  {
  }
}
