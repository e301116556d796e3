// Inputs on which the matcher finds the wrong end, no end, or the right one against appearances.
module CompoundExamples {
  import opened Terminator
  import opened Compounds

  const INIF := State(["fi"], false, false)
  const INIF_READY := State(["fi"], true, false)

  lemma StepIf(ts: seq<string>, i: nat)
    requires i < |ts| && ts[i] == "if"
    ensures Step(ts, i, BEGIN) == Go(INIF) && Step(ts, i, INIF) == Go(INIF)
  {
    assert [] + ["fi"] == ["fi"];
  }

  lemma StepWord(ts: seq<string>, i: nat, st: State)
    requires i < |ts| && |ts[i]| == 1 && 'a' <= ts[i][0] <= 'z' && !st.inForList && Inside(st.stack)
    ensures Step(ts, i, st) == Go(State(st.stack, false, false))
  {
  }

  lemma StepSemicolon(ts: seq<string>, i: nat, st: State)
    requires i < |ts| && ts[i] == ";"
    ensures Step(ts, i, st) == Go(State(st.stack, true, false))
  {
  }

  lemma StepThen(ts: seq<string>, i: nat)
    requires i < |ts| && ts[i] == "then"
    ensures Step(ts, i, INIF_READY) == Go(INIF_READY)
  {
  }

  lemma StepFi(ts: seq<string>, i: nat)
    requires i < |ts| && ts[i] == "fi"
    ensures Step(ts, i, INIF_READY) == Found
  {
  }

  /** A compound as the first command of a condition: the inner `fi` is taken for the outer one. */
  lemma CompoundConditionIsCutShort()
    ensures Find(["if", "if", "a", ";", "then", "b", ";", "fi", ";", "then", "c", ";", "fi"], 0) == 7
  {
    var ts := ["if", "if", "a", ";", "then", "b", ";", "fi", ";", "then", "c", ";", "fi"];
    hide Step;
    StepIf(ts, 0);
    StepIf(ts, 1);
    StepWord(ts, 2, INIF);
    StepSemicolon(ts, 3, INIF);
    StepThen(ts, 4);
    StepWord(ts, 5, INIF_READY);
    StepSemicolon(ts, 6, INIF);
    StepFi(ts, 7);
    assert FindFrom(ts, 6, INIF) == 7;
    assert FindFrom(ts, 4, INIF_READY) == 7;
    assert FindFrom(ts, 2, INIF) == 7;
    assert FindFrom(ts, 1, INIF) == 7;
  }

  const INLOOP := State(["done"], false, false)
  const INLOOP_READY := State(["done"], true, false)

  lemma StepWhile(ts: seq<string>, i: nat)
    requires i < |ts| && ts[i] == "while"
    ensures Step(ts, i, BEGIN) == Go(INLOOP)
  {
    assert [] + ["done"] == ["done"];
  }

  lemma StepDo(ts: seq<string>, i: nat)
    requires i < |ts| && ts[i] == "do"
    ensures Step(ts, i, INLOOP_READY) == Go(INLOOP_READY) && Step(ts, i, INLOOP) == Go(INLOOP_READY)
  {
  }

  lemma StepDone(ts: seq<string>, i: nat)
    requires i < |ts| && ts[i] == "done"
    ensures Step(ts, i, INLOOP_READY) == Found
  {
  }

  /** An argument `do` followed by an argument `done`: the loop ends there for the matcher. */
  lemma ArgumentDoneAfterDoEndsTheLoop()
    ensures Find(["while", "a", ";", "do", "e", "do", "done", ";", "done"], 0) == 6
  {
    var ts := ["while", "a", ";", "do", "e", "do", "done", ";", "done"];
    hide Step;
    StepWhile(ts, 0);
    StepWord(ts, 1, INLOOP);
    StepSemicolon(ts, 2, INLOOP);
    StepDo(ts, 3);
    StepWord(ts, 4, INLOOP_READY);
    StepDo(ts, 5);
    StepDone(ts, 6);
    assert FindFrom(ts, 5, INLOOP) == 6;
    assert FindFrom(ts, 3, INLOOP_READY) == 6;
    assert FindFrom(ts, 1, INLOOP) == 6;
  }

  lemma Onwards(ts: seq<string>, i: nat, st: State, next: State)
    requires i < |ts| && Step(ts, i, st) == Go(next)
    ensures FindFrom(ts, i, st) == FindFrom(ts, i + 1, next)
  {
  }

  lemma StepLoopWords(ts: seq<string>, i: nat)
    requires i < |ts| && (ts[i] == "while" || ts[i] == "do" || ts[i] == "done")
    ensures ts[i] == "while" ==> Step(ts, i, INIF) == Go(INIF)
    ensures ts[i] == "do" ==> Step(ts, i, INIF_READY) == Go(INIF_READY)
    ensures ts[i] == "done" ==> Step(ts, i, INIF_READY) == Go(INIF)
  {
  }

  lemma FoundFi(ts: seq<string>, i: nat)
    requires i < |ts| && ts[i] == "fi"
    ensures FindFrom(ts, i, INIF_READY) == i
  {
    StepFi(ts, i);
  }

  /** A word and a semicolon inside an `if`. */
  lemma PassSimple(ts: seq<string>, i: nat, start: bool)
    requires i + 1 < |ts| && |ts[i]| == 1 && 'a' <= ts[i][0] <= 'z' && ts[i + 1] == ";"
    ensures FindFrom(ts, i, State(["fi"], start, false)) == FindFrom(ts, i + 2, INIF_READY)
  {
    hide Step, FindFrom;
    StepWord(ts, i, State(["fi"], start, false));
    Onwards(ts, i, State(["fi"], start, false), INIF);
    StepSemicolon(ts, i + 1, INIF);
    Onwards(ts, i + 1, INIF, INIF_READY);
  }

  /** A loop at the head of a condition does no harm: `done` does not close an `if`. */
  lemma LoopInConditionIsFound()
    ensures Find(["if", "while", "a", ";", "do", "b", ";", "done", ";", "then", "c", ";", "fi"], 0) == 12
  {
    var ts := ["if", "while", "a", ";", "do", "b", ";", "done", ";", "then", "c", ";", "fi"];
    hide Step, FindFrom;
    StepIf(ts, 0);
    Onwards(ts, 0, BEGIN, INIF);
    StepLoopWords(ts, 1);
    Onwards(ts, 1, INIF, INIF);
    PassSimple(ts, 2, false);
    StepLoopWords(ts, 4);
    Onwards(ts, 4, INIF_READY, INIF_READY);
    PassSimple(ts, 5, true);
    StepLoopWords(ts, 7);
    Onwards(ts, 7, INIF_READY, INIF);
    StepSemicolon(ts, 8, INIF);
    Onwards(ts, 8, INIF, INIF_READY);
    StepThen(ts, 9);
    Onwards(ts, 9, INIF_READY, INIF_READY);
    PassSimple(ts, 10, true);
    FoundFi(ts, 12);
  }

  const INIF_INLOOP := State(["done", "fi"], false, false)

  lemma StepInnerIf(ts: seq<string>, i: nat)
    requires i < |ts|
    ensures ts[i] == "if" ==> Step(ts, i, INLOOP_READY) == Go(INIF_INLOOP)
    ensures ts[i] == "done" ==> Step(ts, i, State(["done", "fi"], true, false)) == Go(INIF_INLOOP)
  {
    assert ["done"] + ["fi"] == ["done", "fi"];
  }

  lemma NothingFound(ts: seq<string>, st: State)
    ensures FindFrom(ts, |ts|, st) == -1
  {
  }

  /** An argument `do` followed by an argument `if`: the loop has no end for the matcher. */
  lemma ArgumentIfAfterDoIsNotClosed()
    ensures Find(["while", "a", ";", "do", "e", "do", "if", ";", "done"], 0) == -1
  {
    var ts := ["while", "a", ";", "do", "e", "do", "if", ";", "done"];
    hide Step, FindFrom;
    StepWhile(ts, 0);
    Onwards(ts, 0, BEGIN, INLOOP);
    StepWord(ts, 1, INLOOP);
    Onwards(ts, 1, INLOOP, INLOOP);
    StepSemicolon(ts, 2, INLOOP);
    Onwards(ts, 2, INLOOP, INLOOP_READY);
    StepDo(ts, 3);
    Onwards(ts, 3, INLOOP_READY, INLOOP_READY);
    StepWord(ts, 4, INLOOP_READY);
    Onwards(ts, 4, INLOOP_READY, INLOOP);
    StepDo(ts, 5);
    Onwards(ts, 5, INLOOP, INLOOP_READY);
    StepInnerIf(ts, 6);
    Onwards(ts, 6, INLOOP_READY, INIF_INLOOP);
    StepSemicolon(ts, 7, INIF_INLOOP);
    Onwards(ts, 7, INIF_INLOOP, State(["done", "fi"], true, false));
    StepInnerIf(ts, 8);
    Onwards(ts, 8, State(["done", "fi"], true, false), INIF_INLOOP);
    NothingFound(ts, INIF_INLOOP);
  }

  const TWO_LOOPS := ["while", "a", ";", "while", "b", ";", "do", "c", ";", "done", ";", "do", "d", ";", "done"]
  const NESTED := State(["done", "done"], false, false)
  const NESTED_READY := State(["done", "done"], true, false)

  lemma StepNested(ts: seq<string>, i: nat)
    requires i < |ts|
    ensures ts[i] == "while" ==> Step(ts, i, INLOOP_READY) == Go(NESTED)
    ensures ts[i] == "do" ==> Step(ts, i, NESTED_READY) == Go(NESTED_READY)
    ensures ts[i] == "done" ==> Step(ts, i, NESTED_READY) == Go(INLOOP_READY)
  {
    assert ["done"] + ["done"] == ["done", "done"] && ["done", "done"][..1] == ["done"];
  }

  /** A word and a semicolon inside one or two loops. */
  lemma PassWord(ts: seq<string>, i: nat, stack: seq<string>, start: bool)
    requires i + 1 < |ts| && |ts[i]| == 1 && 'a' <= ts[i][0] <= 'z' && ts[i + 1] == ";" && Inside(stack)
    ensures FindFrom(ts, i, State(stack, start, false)) == FindFrom(ts, i + 2, State(stack, true, false))
  {
    hide Step, FindFrom;
    StepWord(ts, i, State(stack, start, false));
    Onwards(ts, i, State(stack, start, false), State(stack, false, false));
    StepSemicolon(ts, i + 1, State(stack, false, false));
    Onwards(ts, i + 1, State(stack, false, false), State(stack, true, false));
  }

  /** A loop as the second command of a loop's condition. */
  lemma LoopsAreFound()
    ensures Find(TWO_LOOPS, 0) == 14
  {
    var ts := TWO_LOOPS;
    hide Step, FindFrom;
    StepWhile(ts, 0);
    Onwards(ts, 0, BEGIN, INLOOP);
    PassWord(ts, 1, ["done"], false);
    StepNested(ts, 3);
    Onwards(ts, 3, INLOOP_READY, NESTED);
    PassWord(ts, 4, ["done", "done"], false);
    StepNested(ts, 6);
    Onwards(ts, 6, NESTED_READY, NESTED_READY);
    PassWord(ts, 7, ["done", "done"], true);
    StepNested(ts, 9);
    Onwards(ts, 9, NESTED_READY, INLOOP_READY);
    StepSemicolon(ts, 10, INLOOP_READY);
    Onwards(ts, 10, INLOOP_READY, INLOOP_READY);
    StepDo(ts, 11);
    Onwards(ts, 11, INLOOP_READY, INLOOP_READY);
    PassWord(ts, 12, ["done"], true);
    FoundDone(ts, 14);
  }

  lemma FoundDone(ts: seq<string>, i: nat)
    requires i < |ts| && ts[i] == "done"
    ensures FindFrom(ts, i, INLOOP_READY) == i
  {
    StepDone(ts, i);
  }
}
