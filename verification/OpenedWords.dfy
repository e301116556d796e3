// An argument that opens a compound for the matcher: what it does to the search for an outer end.
module OpenedWords {
  import opened Terminator
  import opened Compounds

  /** With more on the stack than the words opened last, the matcher makes the same moves, until the last
      of those words is closed: there it goes on with what lay below. */
  lemma NestedStep(tokens: seq<string>, i: nat, below: seq<string>, st: State)
    requires i < |tokens| && below != [] && st.stack != []
    ensures var whole := Step(tokens, i, st.(stack := below + st.stack));
            match Step(tokens, i, st)
            case Found => whole == Go(State(below, true, false))
            case Go(next) => next.stack != [] && whole == Go(next.(stack := below + next.stack))
  {
    var u, tok := st.stack, tokens[i];
    assert Top(below + u) == Top(u) && |below + u| > 1;
    assert below + (u + [Closer(tok)]) == (below + u) + [Closer(tok)];
    if |u| == 1 {
      assert (below + u)[..|below + u| - 1] == below;
    } else {
      assert (below + u)[..|below + u| - 1] == below + u[..|u| - 1];
    }
  }

  lemma {:induction false} SearchIsNested(tokens: seq<string>, i: nat, below: seq<string>, st: State)
    requires below != [] && st.stack != []
    ensures var j := FindFrom(tokens, i, st);
            (FindFrom(tokens, i, st.(stack := below + st.stack))
             == if j == -1 then -1 else FindFrom(tokens, j + 1, State(below, true, false)))
    decreases |tokens| - i
  {
    hide Step;
    if i < |tokens| {
      NestedStep(tokens, i, below, st);
      if Step(tokens, i, st).Go? {
        SearchIsNested(tokens, i + 1, below, Step(tokens, i, st).next);
      }
    }
  }

  lemma Opens(tokens: seq<string>, i: nat, stack: seq<string>)
    requires i < |tokens| && Closer(tokens[i]) != ""
    ensures Step(tokens, i, BEGIN).Go? && Step(tokens, i, State(stack, true, false)).Go?
    ensures var next := Step(tokens, i, BEGIN).next;
            next.stack == [Closer(tokens[i])]
            && Step(tokens, i, State(stack, true, false)).next == next.(stack := stack + next.stack)
  {
    assert [] + [Closer(tokens[i])] == [Closer(tokens[i])];
  }

  /** A word that opens a compound, where a command may start: it is closed again by the very token that the
      matcher, called on the word itself, would return; if there is none, neither is an outer end. */
  lemma OpenedUntilItsEnd(tokens: seq<string>, i: nat, stack: seq<string>)
    requires i < |tokens| && Closer(tokens[i]) != "" && stack != []
    ensures FindFrom(tokens, i, State(stack, true, false))
         == if Find(tokens, i) == -1 then -1 else FindFrom(tokens, Find(tokens, i) + 1, State(stack, true, false))
  {
    hide Step;
    Opens(tokens, i, stack);
    SearchIsNested(tokens, i + 1, stack, Step(tokens, i, BEGIN).next);
  }

  /** So the search from `start`, when it comes to such a word inside a compound, goes on behind the word's own end. */
  lemma SearchGoesOnBehind(tokens: seq<string>, start: nat, i: nat, stack: seq<string>)
    requires start <= i < |tokens| && Closer(tokens[i]) != "" && stack != []
    requires Run(tokens, start, BEGIN, i) == At(State(stack, true, false))
    ensures Find(tokens, start)
         == if Find(tokens, i) == -1 then -1 else FindFrom(tokens, Find(tokens, i) + 1, State(stack, true, false))
  {
    hide Step, Run, FindFrom;
    FindAfterRun(tokens, start, BEGIN, i);
    OpenedUntilItsEnd(tokens, i, stack);
  }
}
