// The text rewriting evaluates the tree, and when that is the tree's mathematical value.
module ArithTheorem {
  import opened Int64
  import opened Options
  import opened Scan
  import opened Arith
  import opened ArithTrees
  import opened ArithFlat
  import Numerals

  // ----- one round of the rewriting loop -----

  lemma SettleFlat(e: Expr)
    requires WellFormed(e) && IsFlat(e)
    ensures Settle(e) == Settled(e, None)
  {
  }

  lemma EvalOfFlat(e: Expr)
    requires WellFormed(e) && IsFlat(e)
    ensures Eval(e) == EvalFlat(e)
  {
    SettleFlat(e);
  }

  /** Evaluating the last group first and continuing with its value changes nothing. */
  lemma {:induction false} SettleStep(e: Expr)
    requires WellFormed(e) && !IsFlat(e)
    ensures var r := EvalFlat(LastGroup(e).inner);
            Settle(e) == if r.Crash? then Stuck else Noting(r.error, Settle(Replace(e, r.word)))
  {
    hide EvalFlat;
    match e
    case Group(b, x, a) =>
      if IsFlat(x) {
        EvalOfFlat(x);
      } else {
        SettleStep(x);
      }
    case Unary(op, x) => SettleStep(x);
    case Bin(op, l, b, a, r) =>
      if !IsFlat(r) { SettleStep(r); } else { SettleStep(l); SettleFlat(r); }
    case Choice(c, g0, g1, y, g2, g3, n) =>
      if !IsFlat(n) { SettleStep(n); }
      else if !IsFlat(y) { SettleStep(y); SettleFlat(n); }
      else { SettleStep(c); SettleFlat(y); SettleFlat(n); }
  }

  /** The loop finds the group that is cut out as `before`, `inner`, `behind`. */
  lemma InnerGroup(before: string, inner: string, behind: string, v: int)
    requires NoParens(inner) && NoOpen(behind)
    ensures var s := before + ("(" + inner + ")") + behind;
            && InnerOpen(s) == |before| && InnerClose(s) == |before| + 1 + |inner|
            && s[InnerOpen(s) + 1..InnerClose(s)] == inner
            && Spliced(s, v) == before + Numerals.Format(v) + behind
  {
    hide Numerals.Format;
    var s := before + ("(" + inner + ")") + behind;
    var start := |before|;
    assert s[start] == '(';
    assert InnerOpen(s) == start;
    var tail := s[start..];
    assert tail == "(" + inner + ")" + behind;
    assert tail[1 + |inner|] == ')';
    assert forall i :: 0 <= i < 1 + |inner| ==> tail[i] != ')';
    assert IndexOf(tail, ')') == 1 + |inner|;
  }

  lemma GroupText(b: nat, x: string, a: nat)
    ensures OpenPad(b) + (x + ClosePad(a)) == "(" + Padded(b, x, a) + ")"
  {
  }

  lemma PaddedNoParens(b: nat, s: string, a: nat)
    requires NoParens(s)
    ensures NoParens(Padded(b, s, a)) && Padded(b, s, a) == Blanks(b) + s + Blanks(a)
  {
  }

  lemma TextOfGroup(g: Expr)
    requires g.Group?
    ensures Text(g) == "(" + Padded(g.before, Text(g.inner), g.after) + ")"
  {
    GroupText(g.before, Text(g.inner), g.after);
  }

  /** What is in the last pair of parentheses is evaluated as its tree. */
  lemma InnerParses(g: Expr)
    requires g.Group? && WellFormed(g.inner) && IsFlat(g.inner)
    ensures NoParens(Padded(g.before, Text(g.inner), g.after))
    ensures Parse(Padded(g.before, Text(g.inner), g.after)) == EvalFlat(g.inner)
  {
    hide *;
    FlatTextIsTrimmed(g.inner);
    PaddedNoParens(g.before, Text(g.inner), g.after);
    FlatEvaluates(g.inner);
    ParseOfFlat(g.before, Text(g.inner), g.after);
  }

  function AsSplicing(s: Settling): Splicing {
    match s
    case Stuck => Crashed
    case Settled(f, error) => Flat(Text(f), error)
  }

  lemma LoopUnfolds(s: string, r: Outcome)
    requires InnerClose(s) != -1
    requires Parse(s[InnerOpen(s) + 1..InnerClose(s)]) == r
    ensures ReplaceGroups(s) ==
              if r.Crash? then Crashed else NotingError(r.error, ReplaceGroups(Spliced(s, r.word)))
  {
    hide Parse, InnerOpen, InnerClose, Spliced, First;
  }

  lemma LoopEnds(s: string)
    requires NoParens(s)
    ensures ReplaceGroups(s) == Flat(s, None)
  {
    assert InnerClose(s) == -1;
  }

  lemma TextOfSplice(v: int64)
    ensures Text(Splice(v)) == Numerals.Format(v)
  {
  }

  lemma TextBetween(e: Expr, m: string, text: string)
    requires WellFormed(e) && !IsFlat(e) && CutsAs(e, m, text)
    ensures text == TextBefore(e) + m + TextBehind(e)
  {
  }

  /** One round of the loop, from the text of a tree to the text of the reduced tree. */
  lemma OneRound(e: Expr)
    requires WellFormed(e) && !IsFlat(e)
    ensures var r := EvalFlat(LastGroup(e).inner);
            ReplaceGroups(Text(e)) ==
              if r.Crash? then Crashed else NotingError(r.error, ReplaceGroups(Text(Replace(e, r.word))))
  {
    hide *;
    var g := LastGroup(e);
    var r := EvalFlat(g.inner);
    var v := if r.Value? then r.word else 0;
    var inner := Padded(g.before, Text(g.inner), g.after);
    TextAroundLastGroup(e, v);
    TextBetween(e, Text(g), Text(e));
    TextBetween(e, Text(Splice(v)), Text(Replace(e, v)));
    TextOfSplice(v);
    TextOfGroup(g);
    InnerParses(g);
    InnerGroup(TextBefore(e), inner, TextBehind(e), v);
    LoopUnfolds(Text(e), r);
  }

  lemma NotingTextOf(error: Option<ArithError>, s: Settling)
    ensures NotingError(error, AsSplicing(s)) == AsSplicing(Noting(error, s))
    ensures AsSplicing(Stuck) == Crashed
  {
  }

  lemma {:induction false} GroupsReplaced(e: Expr)
    requires WellFormed(e)
    ensures ReplaceGroups(Text(e)) == AsSplicing(Settle(e))
    decreases GroupCount(e)
  {
    if IsFlat(e) {
      FlatTextHasNoParens(e);
      SettleFlat(e);
      hide ReplaceGroups, Settle, NoParens, Text;
      LoopEnds(Text(e));
    } else {
      hide *;
      OneRound(e);
      SettleStep(e);
      var r := EvalFlat(LastGroup(e).inner);
      if r.Value? {
        GroupsReplaced(Replace(e, r.word));
        NotingTextOf(r.error, Settle(Replace(e, r.word)));
      } else {
        NotingTextOf(None, Stuck);
      }
    }
  }

  lemma {:induction false} TextIsTrimmed(e: Expr)
    requires WellFormed(e)
    ensures Text(e) != "" && Trimmed(Text(e))
  {
    match e
    case Atom(_) => FlatTextIsTrimmed(e);
    case Splice(_) => FlatTextIsTrimmed(e);
    case Group(b, x, a) =>
      assert Text(e)[0] == '(' && Text(e)[|Text(e)| - 1] == ')';
    case Unary(op, x) =>
      TextIsTrimmed(x);
      assert Text(e)[|Text(e)| - 1] == Text(x)[|Text(x)| - 1];
    case Bin(op, l, b, a, r) =>
      TextIsTrimmed(l);
      TextIsTrimmed(r);
      assert Text(e)[|Text(e)| - 1] == Text(r)[|Text(r)| - 1];
    case Choice(c, g0, g1, y, g2, g3, n) =>
      TextIsTrimmed(c);
      TextIsTrimmed(n);
      assert Text(e)[|Text(e)| - 1] == Text(n)[|Text(n)| - 1];
  }

  /** The evaluator computes, from the text of any fully parenthesised tree, what `Eval` says:
      replacing the last group by its decimal text is a reduction of the tree. */
  lemma ParseEvaluates(e: Expr, before: nat, after: nat)
    requires WellFormed(e)
    ensures Parse(Padded(before, Text(e), after)) == Eval(e)
  {
    TextIsTrimmed(e);
    PaddedTrims(before, Text(e), after);
    GroupsReplaced(e);
    match Settle(e) {
      case Stuck =>
      case Settled(f, error) => FlatEvaluates(f);
    }
    hide ParseFlat, EvalFlat, ReplaceGroups, Settle, Text, TrimSpace, Trimmed, Padded, WellFormed;
  }
}
