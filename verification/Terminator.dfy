// The stack-based matcher that finds where a compound command ends in a list of tokens.
module Terminator {
  /** The tokens that end a command. */
  predicate EndsCommand(t: string) {
    t == ";" || t == "\n" || t == ";;" || t == "&" || t == "&&" || t == "||"
  }

  /** The word that closes what `t` opens, or the empty string. */
  function Closer(t: string): string {
    if t == "while" || t == "until" || t == "for" then "done"
    else if t == "if" then "fi"
    else if t == "case" then "esac"
    else if t == "{" then "}"
    else ""
  }

  /** The words after which a command may start. */
  predicate Introduces(t: string) {
    t == "then" || t == "do" || t == "else" || t == "elif" || t == "in" || t == "|"
  }

  predicate EndsPattern(t: string) { t != "" && t[|t| - 1] == ')' }

  /** Each word that opens a compound, with the word that closes it. */
  const COMPOUNDS := map["while" := "done", "until" := "done", "for" := "done", "if" := "fi", "case" := "esac", "{" := "}"]

  /** These are all the words and signs that the matcher knows. */
  lemma Vocabulary(t: string)
    ensures EndsCommand(t) <==> t in {";", "\n", ";;", "&", "&&", "||"}
    ensures Introduces(t) <==> t in {"then", "do", "else", "elif", "in", "|"}
    ensures Closer(t) == if t in COMPOUNDS then COMPOUNDS[t] else ""
  {
  }

  lemma PatternsEnd(t: string)
    ensures EndsPattern(t) <==> exists s: string :: t == s + ")"
  {
    if EndsPattern(t) {
      assert t == t[..|t| - 1] + ")";
    }
  }

  datatype State = State(stack: seq<string>, startOfCmd: bool, inForList: bool)

  function Top(stack: seq<string>): string { if stack == [] then "" else stack[|stack| - 1] }

  /** Whether `in` comes before `;`, a newline or `do`. */
  function InAhead(tokens: seq<string>, j: nat): bool
    decreases |tokens| - j
  {
    if j >= |tokens| || tokens[j] == ";" || tokens[j] == "\n" then false
    else if tokens[j] == "in" then true
    else if tokens[j] == "do" then false
    else InAhead(tokens, j + 1)
  }

  datatype Move = Found | Go(next: State)

  function Step(tokens: seq<string>, i: nat, st: State): Move
    requires i < |tokens|
  {
    var tok := tokens[i];
    if EndsCommand(tok) then Go(State(st.stack, true, false))
    else if st.inForList then Go(st)
    else if st.startOfCmd && Closer(tok) != "" then
      Go(State(st.stack + [Closer(tok)], tok == "{", tok == "for" && InAhead(tokens, i + 1)))
    else if st.startOfCmd && st.stack != [] && tok == Top(st.stack) then
      if |st.stack| == 1 then Found else Go(State(st.stack[..|st.stack| - 1], true, st.inForList))
    else
      Go(State(st.stack, Introduces(tok) || (Top(st.stack) == "esac" && EndsPattern(tok)), false))
  }

  function FindFrom(tokens: seq<string>, i: nat, st: State): (r: int)
    ensures r == -1 || i <= r < |tokens|
    decreases |tokens| - i
  {
    if i >= |tokens| then -1
    else
      match Step(tokens, i, st)
      case Found => i
      case Go(next) => FindFrom(tokens, i + 1, next)
  }

  const BEGIN := State([], true, false)

  /** The index of the token that ends the command starting at `start`, or -1. */
  function Find(tokens: seq<string>, start: nat): (r: int)
    ensures r == -1 || start <= r < |tokens|
  {
    FindFrom(tokens, start, BEGIN)
  }

  /** The matcher's loop. */
  method FindMatchingTerminator(tokens: seq<string>, start: nat) returns (index: int)
    ensures index == Find(tokens, start)
  {
    var stack: seq<string> := [];
    var startOfCmd, inForList := true, false;
    var i := start;
    while i < |tokens|
      invariant FindFrom(tokens, i, State(stack, startOfCmd, inForList)) == Find(tokens, start)
    {
      var tok := tokens[i];
      ghost var was := State(stack, startOfCmd, inForList);
      if EndsCommand(tok) {
        startOfCmd, inForList := true, false;
      } else if inForList {
      } else if startOfCmd && Closer(tok) != "" {
        stack := stack + [Closer(tok)];
        startOfCmd := tok == "{";
        if tok == "for" {
          inForList := LookForIn(tokens, i + 1);
        }
      } else if startOfCmd && stack != [] && tok == stack[|stack| - 1] {
        stack := stack[..|stack| - 1];
        if stack == [] {
          return i;
        }
        startOfCmd := true;
      } else {
        startOfCmd := Introduces(tok) || (Top(stack) == "esac" && EndsPattern(tok));
        inForList := false;
      }
      assert Step(tokens, i, was) == Go(State(stack, startOfCmd, inForList));
      i := i + 1;
    }
    return -1;
  }

  method LookForIn(tokens: seq<string>, from: nat) returns (found: bool)
    ensures found == InAhead(tokens, from)
  {
    var j := from;
    while j < |tokens|
      invariant InAhead(tokens, from) == InAhead(tokens, j)
    {
      if tokens[j] == ";" || tokens[j] == "\n" {
        return false;
      }
      if tokens[j] == "in" {
        return true;
      }
      if tokens[j] == "do" {
        return false;
      }
      j := j + 1;
    }
    return false;
  }
}
