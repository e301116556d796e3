// The grammar of compound commands, and the proof that the matcher finds exactly their ends.
module Compounds {
  import opened Terminator

  /** A command: words, or a compound with the redirection words behind it. */
  datatype Command =
    | Simple(words: seq<string>)
    | While(until: bool, cond: Block, body: Block, redirs: seq<string>)
    | ForIn(name: string, list: seq<string>, seps: seq<string>, body: Block, redirs: seq<string>)
    | ForArgs(name: string, seps: seq<string>, body: Block, redirs: seq<string>)
    | If(cond: Block, yes: Block, elifs: Elifs, no: Otherwise, redirs: seq<string>)
    | Case(word: string, seps: seq<string>, branches: Branches, redirs: seq<string>)
    | Brace(body: Block, redirs: seq<string>)

  /** Commands, each with the separators behind it. */
  datatype Block = Nil | Cons(cmd: Command, seps: seq<string>, rest: Block)

  datatype Elifs = NoElif | Elif(cond: Block, yes: Block, rest: Elifs)
  datatype Otherwise = NoElse | Else(body: Block)
  datatype Branches = NoBranch | Branch(pattern: seq<string>, body: Block, seps: seq<string>, rest: Branches)

  /** The word that closes a compound. */
  function Closing(c: Command): string
    requires !c.Simple?
  {
    match c
    case If(_, _, _, _, _) => "fi"
    case Case(_, _, _, _) => "esac"
    case Brace(_, _) => "}"
    case _ => "done"
  }

  /** The tokens of a compound in front of its closing word. */
  function Front(c: Command): seq<string>
    requires !c.Simple?
    decreases c, 1
  {
    match c
    case While(until, cond, body, redirs) =>
      [if until then "until" else "while"] + (BlockTokens(cond) + (["do"] + BlockTokens(body)))
    case ForIn(name, list, seps, body, redirs) =>
      (["for", name, "in"] + list) + (seps + (["do"] + BlockTokens(body)))
    case ForArgs(name, seps, body, redirs) =>
      ["for", name] + (seps + (["do"] + BlockTokens(body)))
    case If(cond, yes, elifs, no, redirs) =>
      ["if"] + (BlockTokens(cond) + Clauses(c))
    case Case(word, seps, branches, redirs) =>
      ["case"] + ([word] + (["in"] + (seps + BranchTokens(branches))))
    case Brace(body, redirs) =>
      ["{"] + BlockTokens(body)
  }

  /** The tokens of an `if` from its first `then` on. */
  function Clauses(c: Command): seq<string>
    requires c.If?
    decreases c, 0
  {
    (["then"] + BlockTokens(c.yes)) + (ElifTokens(c.elifs) + ElseTokens(c.no))
  }

  function Tokens(c: Command): seq<string>
    decreases c, 2
  {
    if c.Simple? then c.words else Front(c) + ([Closing(c)] + c.redirs)
  }

  function BlockTokens(b: Block): seq<string> {
    match b
    case Nil => []
    case Cons(c, seps, rest) => Tokens(c) + (seps + BlockTokens(rest))
  }

  function ElifTokens(e: Elifs): seq<string> {
    match e
    case NoElif => []
    case Elif(cond, yes, rest) => ["elif"] + (BlockTokens(cond) + ((["then"] + BlockTokens(yes)) + ElifTokens(rest)))
  }

  function ElseTokens(e: Otherwise): seq<string> {
    match e
    case NoElse => []
    case Else(body) => ["else"] + BlockTokens(body)
  }

  function BranchTokens(b: Branches): seq<string> {
    match b
    case NoBranch => []
    case Branch(pattern, body, seps, rest) => (pattern + (BlockTokens(body) + seps)) + BranchTokens(rest)
  }

  // ----- which words may stand where -----

  /** Whether the matcher expects a command after the word `w`, directly inside what `top` closes. */
  predicate Restarts(w: string, top: string) {
    Introduces(w) || (top == "esac" && EndsPattern(w))
  }

  /** Words of a command, keywords included; only where the matcher expects a command, at the start and
      right after a word that introduces one, must a word not open a compound. */
  predicate PlainWords(ws: seq<string>, start: bool, top: string)
    decreases ws
  {
    ws == [] ||
    (!EndsCommand(ws[0]) && (start ==> Closer(ws[0]) == "") && PlainWords(ws[1..], Restarts(ws[0], top), top))
  }

  /** Whether a command may start after the words. */
  function AfterWords(ws: seq<string>, start: bool, top: string): bool
    decreases ws
  {
    if ws == [] then start else AfterWords(ws[1..], Restarts(ws[0], top), top)
  }

  predicate AllEnd(seps: seq<string>) {
    forall k :: 0 <= k < |seps| ==> EndsCommand(seps[k])
  }

  predicate AllJoin(seps: seq<string>) {
    forall k :: 0 <= k < |seps| ==> EndsCommand(seps[k]) || seps[k] == "|"
  }

  predicate VariableName(name: string) {
    !EndsCommand(name) && !Introduces(name)
  }

  // In what follows `start` says whether the matcher expects a command, and `top` is the word on top of
  // its stack. A compound that is not expected, behind `if`, `while` or `until`, is not pushed: its words
  // are read as words, with the closer of the compound around it still on top.

  /** Whether the tokens of the command end where a new command may start. */
  predicate EndsReady(c: Command, start: bool, top: string) {
    match c
    case Simple(ws) => AfterWords(ws, start, top)
    case _ => AfterWords(c.redirs, start, top)
  }

  predicate BlockReady(b: Block, start: bool, top: string) {
    match b
    case Nil => start
    case Cons(c, seps, rest) => BlockReady(rest, seps != [] || EndsReady(c, start, top), top)
  }

  predicate BranchReady(b: Branches, top: string)
    requires b.Branch?
  {
    b.seps != [] || BlockReady(b.body, AfterWords(b.pattern, true, top), top)
  }

  predicate BranchesReady(b: Branches, top: string) {
    b.NoBranch? || (if b.rest.NoBranch? then BranchReady(b, top) else BranchesReady(b.rest, top))
  }

  /** Whether the closing word stands where a command may start. */
  predicate PartsReady(c: Command, pushed: bool, top: string) {
    match c
    case Case(_, _, branches, _) => BranchesReady(branches, top)
    case Brace(body, _) => BlockReady(body, pushed, top)
    case _ => true
  }

  predicate WellFormed(c: Command, start: bool, top: string)
    decreases c, 1
  {
    match c
    case Simple(ws) => PlainWords(ws, start, top)
    case _ =>
      WellFormedParts(c, start, if start then Closing(c) else top)
      && (start ==> PartsReady(c, true, Closing(c))) && PlainWords(c.redirs, start, top)
  }

  /** What stands between the opening and the closing word, read with `top` on top of the stack. */
  predicate WellFormedParts(c: Command, pushed: bool, top: string)
    requires !c.Simple?
    decreases c, 0
  {
    match c
    case While(until, cond, body, redirs) => WellFormedBlock(cond, false, top) && WellFormedBody(body, top)
    case ForIn(name, list, seps, body, redirs) =>
      VariableName(name) && (forall k :: 0 <= k < |list| ==> !EndsCommand(list[k]))
      && (pushed || PlainWords(list, true, top))
      && seps != [] && AllEnd(seps) && WellFormedBody(body, top)
    case ForArgs(name, seps, body, redirs) =>
      VariableName(name) && (forall k :: 0 <= k < |seps| ==> seps[k] == ";" || seps[k] == "\n")
      && WellFormedBody(body, top)
    case If(cond, yes, elifs, no, redirs) =>
      WellFormedBlock(cond, false, top) && WellFormedBody(yes, top)
      && WellFormedElifs(elifs, top) && WellFormedElse(no, top)
    case Case(word, seps, branches, redirs) =>
      !EndsCommand(word) && AllEnd(seps) && WellFormedBranches(branches, top)
    case Brace(body, redirs) => WellFormedBlock(body, pushed, top)
  }

  /** Commands joined by separators; only the last separator may be missing, behind a compound or where
      a command may start. */
  predicate WellFormedBlock(b: Block, start: bool, top: string)
    decreases b, 0
  {
    match b
    case Nil => start
    case Cons(c, seps, rest) =>
      WellFormed(c, start, top) && AllJoin(seps)
      && (seps != [] || (rest.Nil? && (EndsReady(c, start, top) || !c.Simple?)))
      && (rest.Nil? || WellFormedBlock(rest, true, top))
  }

  /** A block behind `do`, `then` or `else`. */
  predicate WellFormedBody(b: Block, top: string)
    decreases b, 1
  {
    WellFormedBlock(b, true, top) && BlockReady(b, true, top)
  }

  predicate WellFormedElifs(e: Elifs, top: string)
    decreases e, 0
  {
    e.NoElif? || (WellFormedBlock(e.cond, true, top) && WellFormedBody(e.yes, top) && WellFormedElifs(e.rest, top))
  }

  predicate WellFormedElse(e: Otherwise, top: string)
    decreases e, 0
  {
    e.NoElse? || WellFormedBody(e.body, top)
  }

  predicate WellFormedBranches(b: Branches, top: string)
    decreases b, 0
  {
    b.NoBranch? ||
    (b.pattern != [] && EndsPattern(b.pattern[|b.pattern| - 1]) && PlainWords(b.pattern, true, top)
     && WellFormedBranchBody(b, top)
     && AllEnd(b.seps) && (";;" in b.seps || b.rest.NoBranch?)
     && WellFormedBranches(b.rest, top))
  }

  predicate WellFormedBranchBody(b: Branches, top: string)
    requires b.Branch?
    decreases b, 0, 0
  {
    b.body.Nil? || WellFormedBlock(b.body, AfterWords(b.pattern, true, top), top)
  }

  // ----- captures -----

  /** No word that stands where a command may start is the closing word on top of the stack. */
  predicate QuietWords(ws: seq<string>, start: bool, top: string)
    decreases ws
  {
    ws == [] || ((start ==> ws[0] != top) && QuietWords(ws[1..], Restarts(ws[0], top), top))
  }

  /** Neither a word nor the closing word of a compound that is not pushed is taken for `top`. */
  predicate Quiet(c: Command, start: bool, top: string)
    decreases c, 1
  {
    match c
    case Simple(ws) => QuietWords(ws, start, top)
    case _ =>
      (!start ==> QuietParts(c, false, top) && !(PartsReady(c, false, top) && Closing(c) == top))
      && QuietWords(c.redirs, start, top)
  }

  predicate QuietParts(c: Command, pushed: bool, top: string)
    requires !c.Simple?
    decreases c, 0
  {
    match c
    case While(until, cond, body, redirs) => QuietBlock(cond, false, top) && QuietBlock(body, true, top)
    case ForIn(name, list, seps, body, redirs) =>
      (pushed || QuietWords(list, true, top)) && QuietBlock(body, true, top)
    case ForArgs(name, seps, body, redirs) => QuietBlock(body, true, top)
    case If(cond, yes, elifs, no, redirs) =>
      QuietBlock(cond, false, top) && QuietBlock(yes, true, top) && QuietElifs(elifs, top) && QuietElse(no, top)
    case Case(word, seps, branches, redirs) => QuietBranches(branches, top)
    case Brace(body, redirs) => QuietBlock(body, pushed, top)
  }

  predicate QuietBlock(b: Block, start: bool, top: string)
    decreases b, 0
  {
    match b
    case Nil => true
    case Cons(c, seps, rest) =>
      Quiet(c, start, top) && QuietBlock(rest, seps != [] || EndsReady(c, start, top), top)
  }

  predicate QuietElifs(e: Elifs, top: string)
    decreases e, 0
  {
    e.NoElif? || (QuietBlock(e.cond, true, top) && QuietBlock(e.yes, true, top) && QuietElifs(e.rest, top))
  }

  predicate QuietElse(e: Otherwise, top: string)
    decreases e, 0
  {
    e.NoElse? || QuietBlock(e.body, true, top)
  }

  predicate QuietBranches(b: Branches, top: string)
    decreases b, 0
  {
    b.NoBranch? ||
    (QuietWords(b.pattern, true, top) && QuietBlock(b.body, AfterWords(b.pattern, true, top), top)
     && QuietBranches(b.rest, top))
  }

  /** Nothing inside the compound is taken for its closing word: no word of a command of its own, and no
      compound that stands unpushed at the head of a condition and is closed by that very word. */
  predicate NoCapture(c: Command)
    requires !c.Simple?
  {
    QuietParts(c, true, Closing(c))
  }

  /** Whether `ok` holds of every compound inside that the matcher pushes, the command itself included. */
  predicate Every(c: Command, start: bool, top: string, ok: Command -> bool)
    decreases c, 1
  {
    match c
    case Simple(_) => true
    case _ => (start ==> ok(c)) && EveryPart(c, start, if start then Closing(c) else top, ok)
  }

  predicate EveryPart(c: Command, pushed: bool, top: string, ok: Command -> bool)
    requires !c.Simple?
    decreases c, 0
  {
    match c
    case While(until, cond, body, redirs) => EveryBlock(cond, false, top, ok) && EveryBlock(body, true, top, ok)
    case ForIn(name, list, seps, body, redirs) => EveryBlock(body, true, top, ok)
    case ForArgs(name, seps, body, redirs) => EveryBlock(body, true, top, ok)
    case If(cond, yes, elifs, no, redirs) =>
      EveryBlock(cond, false, top, ok) && EveryBlock(yes, true, top, ok)
      && EveryElif(elifs, top, ok) && EveryElse(no, top, ok)
    case Case(word, seps, branches, redirs) => EveryBranch(branches, top, ok)
    case Brace(body, redirs) => EveryBlock(body, pushed, top, ok)
  }

  predicate EveryBlock(b: Block, start: bool, top: string, ok: Command -> bool)
    decreases b, 0
  {
    match b
    case Nil => true
    case Cons(c, seps, rest) =>
      Every(c, start, top, ok) && EveryBlock(rest, seps != [] || EndsReady(c, start, top), top, ok)
  }

  predicate EveryElif(e: Elifs, top: string, ok: Command -> bool)
    decreases e, 0
  {
    e.NoElif? || (EveryBlock(e.cond, true, top, ok) && EveryBlock(e.yes, true, top, ok) && EveryElif(e.rest, top, ok))
  }

  predicate EveryElse(e: Otherwise, top: string, ok: Command -> bool)
    decreases e, 0
  {
    e.NoElse? || EveryBlock(e.body, true, top, ok)
  }

  predicate EveryBranch(b: Branches, top: string, ok: Command -> bool)
    decreases b, 0
  {
    b.NoBranch? || (EveryBlock(b.body, AfterWords(b.pattern, true, top), top, ok) && EveryBranch(b.rest, top, ok))
  }

  /** A compound that is not cut short. */
  predicate Uncaught(c: Command) {
    !c.Simple? && NoCapture(c)
  }

  // ----- runs of the matcher over a stretch of tokens -----

  datatype Reached = Stopped | At(state: State)

  function Run(tokens: seq<string>, i: nat, st: State, e: nat): Reached
    requires e <= |tokens|
    decreases e - i
  {
    if i >= e then At(st)
    else
      match Step(tokens, i, st)
      case Found => Stopped
      case Go(next) => Run(tokens, i + 1, next, e)
  }

  /** `w` stands at `p` in the tokens, as far as they go. */
  ghost predicate Matches(tokens: seq<string>, p: nat, w: seq<string>) {
    forall k :: 0 <= k < |w| && p + k < |tokens| ==> tokens[p + k] == w[k]
  }

  /** The matcher gets over the next `n` tokens, or over what is left of them, without stopping, and
      if they are all there it ends in state `final`. */
  ghost predicate Passes(tokens: seq<string>, p: nat, st: State, n: nat, final: State) {
    p <= |tokens| ==>
      if p + n <= |tokens| then Run(tokens, p, st, p + n) == At(final) else Run(tokens, p, st, |tokens|).At?
  }

  lemma {:induction false} RunCompose(tokens: seq<string>, i: nat, st: State, e1: nat, e2: nat)
    requires i <= e1 <= e2 <= |tokens|
    ensures Run(tokens, i, st, e2) ==
              match Run(tokens, i, st, e1) case Stopped => Stopped case At(mid) => Run(tokens, e1, mid, e2)
    decreases e1 - i
  {
    if i < e1 && Step(tokens, i, st).Go? {
      RunCompose(tokens, i + 1, Step(tokens, i, st).next, e1, e2);
    }
  }

  lemma PassCompose(tokens: seq<string>, p: nat, st: State, n1: nat, mid: State, n2: nat, final: State)
    requires Passes(tokens, p, st, n1, mid) && Passes(tokens, p + n1, mid, n2, final)
    ensures Passes(tokens, p, st, n1 + n2, final)
  {
    hide Step;
    if p <= |tokens| && p + n1 <= |tokens| {
      RunCompose(tokens, p, st, p + n1, if p + n1 + n2 <= |tokens| then p + n1 + n2 else |tokens|);
    }
  }

  /** The matcher ends inside the next `n` tokens, provided that only one closer is on its stack. */
  ghost predicate Stops(tokens: seq<string>, p: nat, st: State, n: nat, only: bool) {
    only && p + n <= |tokens| ==> Run(tokens, p, st, p + n) == Stopped
  }

  /** A quiet stretch is got over; the matcher stops in one that is not. */
  ghost predicate Reads(tokens: seq<string>, p: nat, st: State, n: nat, final: State, quiet: bool, only: bool) {
    if quiet then Passes(tokens, p, st, n, final) else Stops(tokens, p, st, n, only)
  }

  lemma ReadCompose(
    tokens: seq<string>, p: nat, st: State, n1: nat, mid: State, n2: nat, final: State, q1: bool, q2: bool, only: bool)
    requires Reads(tokens, p, st, n1, mid, q1, only)
    requires q1 ==> Reads(tokens, p + n1, mid, n2, final, q2, only)
    ensures Reads(tokens, p, st, n1 + n2, final, q1 && q2, only)
  {
    hide Step, Run;
    if q1 && q2 {
      PassCompose(tokens, p, st, n1, mid, n2, final);
    } else if p + n1 + n2 <= |tokens| {
      RunCompose(tokens, p, st, p + n1, p + n1 + n2);
    }
  }

  /** Two stretches, one after the other. */
  lemma Two(tokens: seq<string>, p: nat, st: State, u: seq<string>, mid: State, v: seq<string>, final: State,
            q1: bool, q2: bool, only: bool)
    requires Reads(tokens, p, st, |u|, mid, q1, only)
    requires q1 ==> Reads(tokens, p + |u|, mid, |v|, final, q2, only)
    ensures Reads(tokens, p, st, |u + v|, final, q1 && q2, only)
  {
    ReadCompose(tokens, p, st, |u|, mid, |v|, final, q1, q2, only);
  }

  /** Three stretches, given by their lengths. */
  lemma Three(tokens: seq<string>, p: nat, st: State, n0: nat, m1: State, n1: nat, m2: State, n2: nat, final: State,
              n: nat, q0: bool, q1: bool, q2: bool, q: bool, only: bool)
    requires n == n0 + n1 + n2 && q == (q0 && q1 && q2)
    requires Reads(tokens, p, st, n0, m1, q0, only)
    requires q0 ==> Reads(tokens, p + n0, m1, n1, m2, q1, only)
    requires q0 && q1 ==> Reads(tokens, p + n0 + n1, m2, n2, final, q2, only)
    ensures Reads(tokens, p, st, n, final, q, only)
  {
    hide Reads;
    if q0 {
      ReadCompose(tokens, p + n0, m1, n1, m2, n2, final, q1, q2, only);
    }
    ReadCompose(tokens, p, st, n0, m1, n1 + n2, final, q0, q1 && q2, only);
  }

  lemma ReadNothing(tokens: seq<string>, p: nat, st: State, only: bool)
    ensures Reads(tokens, p, st, 0, st, true, only)
  {
  }

  lemma ReadOne(tokens: seq<string>, p: nat, st: State, next: State, only: bool)
    requires p < |tokens| ==> Step(tokens, p, st) == Go(next)
    ensures Reads(tokens, p, st, 1, next, true, only)
  {
  }

  lemma StopAtOne(tokens: seq<string>, p: nat, st: State, next: State, only: bool)
    requires only && p < |tokens| ==> Step(tokens, p, st) == Found
    ensures Reads(tokens, p, st, 1, next, false, only)
  {
  }

  lemma MatchSplit(tokens: seq<string>, p: nat, u: seq<string>, v: seq<string>)
    requires Matches(tokens, p, u + v)
    ensures Matches(tokens, p, u) && Matches(tokens, p + |u|, v)
  {
    forall k | 0 <= k < |u| && p + k < |tokens| ensures tokens[p + k] == u[k] {
      assert (u + v)[k] == u[k];
    }
    forall k | 0 <= k < |v| && p + |u| + k < |tokens| ensures tokens[p + |u| + k] == v[k] {
      assert (u + v)[|u| + k] == v[k];
    }
  }

  lemma MatchThree(tokens: seq<string>, p: nat, u: seq<string>, v: seq<string>, w: seq<string>)
    requires Matches(tokens, p, u + (v + w))
    ensures Matches(tokens, p, u) && Matches(tokens, p + |u|, v) && Matches(tokens, p + |u| + |v|, w)
    ensures |u + (v + w)| == |u| + |v| + |w|
  {
    hide Matches;
    MatchSplit(tokens, p, u, v + w);
    MatchSplit(tokens, p + |u|, v, w);
  }

  /** Inside some compound, whose closer is on top of the stack. */
  predicate Inside(stack: seq<string>) {
    stack != [] && (Top(stack) == "done" || Top(stack) == "fi" || Top(stack) == "esac" || Top(stack) == "}")
  }

  lemma ReadWord(tokens: seq<string>, p: nat, w: string, start: bool, stack: seq<string>)
    requires Matches(tokens, p, [w]) && !EndsCommand(w) && (start ==> Closer(w) == "") && stack != []
    ensures Reads(tokens, p, State(stack, start, false), 1, State(stack, Restarts(w, Top(stack)), false),
                  start ==> w != Top(stack), |stack| == 1)
  {
    var st, next := State(stack, start, false), State(stack, Restarts(w, Top(stack)), false);
    assert p < |tokens| ==> tokens[p] == [w][0];
    if start && w == Top(stack) {
      StopAtOne(tokens, p, st, next, |stack| == 1);
    } else {
      ReadOne(tokens, p, st, next, |stack| == 1);
    }
  }

  lemma {:induction false} ReadWords(tokens: seq<string>, p: nat, ws: seq<string>, start: bool, stack: seq<string>)
    requires Matches(tokens, p, ws) && PlainWords(ws, start, Top(stack)) && stack != []
    ensures Reads(tokens, p, State(stack, start, false), |ws|, State(stack, AfterWords(ws, start, Top(stack)), false),
                  QuietWords(ws, start, Top(stack)), |stack| == 1)
    decreases ws
  {
    hide Step, Passes, Stops;
    var st := State(stack, start, false);
    if ws == [] {
      ReadNothing(tokens, p, st, |stack| == 1);
    } else {
      var next := Restarts(ws[0], Top(stack));
      assert ws == [ws[0]] + ws[1..];
      MatchSplit(tokens, p, [ws[0]], ws[1..]);
      ReadWord(tokens, p, ws[0], start, stack);
      ReadWords(tokens, p + 1, ws[1..], next, stack);
      ReadCompose(tokens, p, st, 1, State(stack, next, false), |ws| - 1,
                  State(stack, AfterWords(ws, start, Top(stack)), false),
                  start ==> ws[0] != Top(stack), QuietWords(ws[1..], next, Top(stack)), |stack| == 1);
    }
  }

  lemma {:induction false} ReadSeparators(tokens: seq<string>, p: nat, seps: seq<string>, st: State, only: bool)
    requires Matches(tokens, p, seps) && AllJoin(seps) && Inside(st.stack)
    requires st.inForList ==> AllEnd(seps)
    ensures Reads(tokens, p, st, |seps|, if seps == [] then st else State(st.stack, true, false), true, only)
    decreases seps
  {
    if seps == [] {
      ReadNothing(tokens, p, st, only);
    } else {
      var next := State(st.stack, true, false);
      assert seps == [seps[0]] + seps[1..];
      MatchSplit(tokens, p, [seps[0]], seps[1..]);
      ReadOne(tokens, p, st, next, only);
      ReadSeparators(tokens, p + 1, seps[1..], next, only);
      ReadCompose(tokens, p, st, 1, next, |seps| - 1, next, true, true, only);
    }
  }

  /** `do`, `then`, `else`, `elif` and `in`: a command may start behind them. */
  lemma ReadKeyword(tokens: seq<string>, p: nat, kw: string, start: bool, stack: seq<string>, only: bool)
    requires Matches(tokens, p, [kw]) && Inside(stack)
    requires kw == "do" || kw == "then" || kw == "else" || kw == "elif" || kw == "in"
    ensures Reads(tokens, p, State(stack, start, false), 1, State(stack, true, false), true, only)
  {
    assert p < |tokens| ==> tokens[p] == [kw][0];
    ReadOne(tokens, p, State(stack, start, false), State(stack, true, false), only);
  }

  /** The stack behind an opening word. */
  function Opened(stack: seq<string>, closer: string, pushed: bool): seq<string> {
    if pushed then stack + [closer] else stack
  }

  /** An opening word is pushed where a command may start, and any word elsewhere. */
  lemma ReadOpener(tokens: seq<string>, p: nat, kw: string, pushed: bool, stack: seq<string>, only: bool)
    requires Matches(tokens, p, [kw]) && Closer(kw) != "" && kw != "for"
    ensures Reads(tokens, p, State(stack, pushed, false), 1,
                  State(Opened(stack, Closer(kw), pushed), pushed && kw == "{", false), true, only)
  {
    assert p < |tokens| ==> tokens[p] == [kw][0];
    ReadOne(tokens, p, State(stack, pushed, false),
            State(Opened(stack, Closer(kw), pushed), pushed && kw == "{", false), only);
  }

  lemma ReadCloser(tokens: seq<string>, p: nat, kw: string, stack: seq<string>, only: bool)
    requires Matches(tokens, p, [kw]) && Inside(stack + [kw]) && stack != []
    ensures Reads(tokens, p, State(stack + [kw], true, false), 1, State(stack, true, false), true, only)
  {
    assert (stack + [kw])[..|stack|] == stack;
    assert p < |tokens| ==> tokens[p] == [kw][0];
    ReadOne(tokens, p, State(stack + [kw], true, false), State(stack, true, false), only);
  }

  // ----- the induction over the grammar -----

  lemma {:induction false} ReadCommand(tokens: seq<string>, p: nat, c: Command, start: bool, stack: seq<string>)
    requires Matches(tokens, p, Tokens(c)) && WellFormed(c, start, Top(stack)) && Inside(stack)
    requires Every(c, start, Top(stack), Uncaught)
    ensures Reads(tokens, p, State(stack, start, false), |Tokens(c)|,
                  State(stack, EndsReady(c, start, Top(stack)), false), Quiet(c, start, Top(stack)), |stack| == 1)
    decreases c, 3
  {
    hide Step, Passes, Stops, Reads, Matches, WellFormedParts, QuietParts, EveryPart, Front;
    if c.Simple? {
      ReadWords(tokens, p, c.words, start, stack);
    } else if start {
      CalmOf(c, start, Top(stack));
      ReadPushed(tokens, p, c, stack);
    } else {
      CalmOf(c, start, Top(stack));
      ReadUnpushed(tokens, p, c, stack);
    }
  }

  lemma CalmOf(c: Command, start: bool, top: string)
    requires !c.Simple? && Every(c, start, top, Uncaught)
    ensures EveryPart(c, start, if start then Closing(c) else top, Uncaught)
    ensures start ==> NoCapture(c)
  {
  }

  lemma {:induction false} ReadPushed(tokens: seq<string>, p: nat, c: Command, stack: seq<string>)
    requires !c.Simple? && Matches(tokens, p, Tokens(c)) && WellFormed(c, true, Top(stack)) && Inside(stack)
    requires EveryPart(c, true, Closing(c), Uncaught) && NoCapture(c)
    ensures Reads(tokens, p, State(stack, true, false), |Tokens(c)|,
                  State(stack, EndsReady(c, true, Top(stack)), false), Quiet(c, true, Top(stack)), |stack| == 1)
    decreases c, 2
  {
    hide Step, Passes, Stops, Matches, WellFormedParts, QuietParts, EveryPart, Front, Run;
    var f, k, only := Front(c), Closing(c), |stack| == 1;
    var ready, quiet := EndsReady(c, true, Top(stack)), QuietWords(c.redirs, true, Top(stack));
    var st := State(stack, true, false);
    MatchSplit(tokens, p, f, [k] + c.redirs);
    MatchSplit(tokens, p + |f|, [k], c.redirs);
    ReadFront(tokens, p, c, true, stack);
    ReadCloser(tokens, p + |f|, k, stack, only);
    ReadWords(tokens, p + |f| + 1, c.redirs, true, stack);
    Two(tokens, p + |f|, State(stack + [k], true, false), [k], st, c.redirs, State(stack, ready, false), true, quiet, only);
    Two(tokens, p, st, f, State(stack + [k], true, false), [k] + c.redirs, State(stack, ready, false), true, quiet, only);
  }

  /** A compound that is not expected: its closing word is a word like the others. */
  lemma {:induction false} ReadUnpushed(tokens: seq<string>, p: nat, c: Command, stack: seq<string>)
    requires !c.Simple? && Matches(tokens, p, Tokens(c)) && WellFormed(c, false, Top(stack)) && Inside(stack)
    requires EveryPart(c, false, Top(stack), Uncaught)
    ensures Reads(tokens, p, State(stack, false, false), |Tokens(c)|,
                  State(stack, EndsReady(c, false, Top(stack)), false), Quiet(c, false, Top(stack)), |stack| == 1)
    decreases c, 2
  {
    hide Step, Passes, Stops, Matches, WellFormedParts, QuietParts, EveryPart, Front, Run;
    var f, k, top, only := Front(c), Closing(c), Top(stack), |stack| == 1;
    var closes, ready := PartsReady(c, false, top), EndsReady(c, false, top);
    var st := State(stack, false, false);
    MatchSplit(tokens, p, f, [k] + c.redirs);
    MatchSplit(tokens, p + |f|, [k], c.redirs);
    ReadFront(tokens, p, c, false, stack);
    ReadWord(tokens, p + |f|, k, closes, stack);
    ReadWords(tokens, p + |f| + 1, c.redirs, false, stack);
    Two(tokens, p + |f|, State(stack, closes, false), [k], st, c.redirs, State(stack, ready, false),
        closes ==> k != top, QuietWords(c.redirs, false, top), only);
    Two(tokens, p, st, f, State(stack, closes, false), [k] + c.redirs, State(stack, ready, false),
        QuietParts(c, false, top), (closes ==> k != top) && QuietWords(c.redirs, false, top), only);
  }

  /** From the opening word up to the closing one. */
  lemma {:induction false} ReadFront(tokens: seq<string>, p: nat, c: Command, pushed: bool, stack: seq<string>)
    requires !c.Simple? && Matches(tokens, p, Front(c))
    requires var inner := Opened(stack, Closing(c), pushed);
             Inside(inner) && WellFormedParts(c, pushed, Top(inner)) && EveryPart(c, pushed, Top(inner), Uncaught)
    ensures var inner := Opened(stack, Closing(c), pushed);
            Reads(tokens, p, State(stack, pushed, false), |Front(c)|,
                  State(inner, PartsReady(c, pushed, Top(inner)), false), QuietParts(c, pushed, Top(inner)), |inner| == 1)
    decreases c, 1
  {
    hide Step, Passes, Stops, Reads, Matches;
    match c
    case While(_, _, _, _) =>
      OpenLoop(tokens, p, c, pushed, stack);
      ReadWhile(tokens, p, c, pushed, State(stack, pushed, false), Opened(stack, "done", pushed));
    case ForIn(_, _, _, _, _) => ReadForIn(tokens, p, c, pushed, stack);
    case ForArgs(_, _, _, _) =>
      OpenForArgs(tokens, p, c, pushed, stack);
      ReadForArgs(tokens, p, c, pushed, State(stack, pushed, false), Opened(stack, "done", pushed));
    case If(_, _, _, _, _) =>
      OpenIf(tokens, p, c, pushed, stack);
      ReadIf(tokens, p, c, pushed, State(stack, pushed, false), Opened(stack, "fi", pushed));
    case Case(_, _, _, _) => ReadCase(tokens, p, c, pushed, stack);
    case Brace(body, _) =>
      var inner := Opened(stack, "}", pushed);
      var only, ready := |inner| == 1, BlockReady(body, pushed, Top(inner));
      MatchSplit(tokens, p, ["{"], BlockTokens(body));
      ReadOpener(tokens, p, "{", pushed, stack, only);
      ReadBlock(tokens, p + 1, body, pushed, inner);
      Two(tokens, p, State(stack, pushed, false), ["{"], State(inner, pushed, false),
          BlockTokens(body), State(inner, ready, false), true, QuietBlock(body, pushed, Top(inner)), only);
  }

  lemma {:induction false} ReadWhile(tokens: seq<string>, p: nat, c: Command, pushed: bool, st: State, inner: seq<string>)
    requires c.While? && Matches(tokens, p, Front(c)) && Inside(inner)
    requires WellFormedParts(c, pushed, Top(inner)) && EveryPart(c, pushed, Top(inner), Uncaught)
    requires Reads(tokens, p, st, 1, State(inner, false, false), true, |inner| == 1)
    ensures Reads(tokens, p, st, |Front(c)|, State(inner, true, false), QuietParts(c, pushed, Top(inner)), |inner| == 1)
    decreases c, 0
  {
    hide *;
    var top, body := Top(inner), c.body;
    WhileParts(tokens, p, c, pushed, top);
    var n1, n2 := |BlockTokens(c.cond)|, |["do"] + BlockTokens(body)|;
    var asking, asked, ready := State(inner, false, false), State(inner, BlockReady(c.cond, false, top), false), State(inner, true, false);
    ReadBlock(tokens, p + 1, c.cond, false, inner);
    ReadDo(tokens, p + 1 + n1, "do", body, inner, asked.startOfCmd);
    Three(tokens, p, st, 1, asking, n1, asked, n2, ready, |Front(c)|, true,
          QuietBlock(c.cond, false, top), QuietBlock(body, true, top), QuietParts(c, pushed, top), |inner| == 1);
  }

  lemma OpenLoop(tokens: seq<string>, p: nat, c: Command, pushed: bool, stack: seq<string>)
    requires c.While? && Matches(tokens, p, Front(c))
    ensures var inner := Opened(stack, "done", pushed);
            Reads(tokens, p, State(stack, pushed, false), 1, State(inner, false, false), true, |inner| == 1)
  {
    hide Matches, Reads;
    var kw := if c.until then "until" else "while";
    MatchSplit(tokens, p, [kw], BlockTokens(c.cond) + (["do"] + BlockTokens(c.body)));
    ReadOpener(tokens, p, kw, pushed, stack, |Opened(stack, "done", pushed)| == 1);
  }

  lemma WhileParts(tokens: seq<string>, p: nat, c: Command, pushed: bool, top: string)
    requires c.While? && Matches(tokens, p, Front(c)) && WellFormedParts(c, pushed, top) && EveryPart(c, pushed, top, Uncaught)
    ensures Matches(tokens, p, [if c.until then "until" else "while"]) && Matches(tokens, p + 1, BlockTokens(c.cond))
    ensures Matches(tokens, p + 1 + |BlockTokens(c.cond)|, ["do"] + BlockTokens(c.body))
    ensures |Front(c)| == 1 + |BlockTokens(c.cond)| + |["do"] + BlockTokens(c.body)|
    ensures PartsReady(c, pushed, top) && WellFormedBlock(c.cond, false, top) && WellFormedBody(c.body, top)
    ensures QuietParts(c, pushed, top) == (QuietBlock(c.cond, false, top) && QuietBlock(c.body, true, top))
    ensures EveryBlock(c.cond, false, top, Uncaught) && EveryBlock(c.body, true, top, Uncaught)
  {
    hide Matches;
    MatchThree(tokens, p, [if c.until then "until" else "while"], BlockTokens(c.cond), ["do"] + BlockTokens(c.body));
  }

  /** A keyword and the block behind it. */
  lemma {:induction false} ReadDo(tokens: seq<string>, p: nat, kw: string, body: Block, inner: seq<string>, start: bool)
    requires kw == "do" || kw == "then" || kw == "else"
    requires Matches(tokens, p, [kw] + BlockTokens(body)) && WellFormedBody(body, Top(inner)) && Inside(inner)
    requires EveryBlock(body, true, Top(inner), Uncaught)
    ensures Reads(tokens, p, State(inner, start, false), |[kw] + BlockTokens(body)|, State(inner, true, false),
                  QuietBlock(body, true, Top(inner)), |inner| == 1)
    decreases body, 1
  {
    hide Step, Passes, Stops, Reads, Matches;
    MatchSplit(tokens, p, [kw], BlockTokens(body));
    ReadKeyword(tokens, p, kw, start, inner, |inner| == 1);
    ReadBlock(tokens, p + 1, body, true, inner);
    Two(tokens, p, State(inner, start, false), [kw], State(inner, true, false), BlockTokens(body),
        State(inner, true, false), true, QuietBlock(body, true, Top(inner)), |inner| == 1);
  }

  lemma {:induction false} ReadBlock(tokens: seq<string>, p: nat, b: Block, start: bool, stack: seq<string>)
    requires Matches(tokens, p, BlockTokens(b)) && Inside(stack)
    requires b.Nil? || WellFormedBlock(b, start, Top(stack))
    requires EveryBlock(b, start, Top(stack), Uncaught)
    ensures Reads(tokens, p, State(stack, start, false), |BlockTokens(b)|,
                  State(stack, BlockReady(b, start, Top(stack)), false), QuietBlock(b, start, Top(stack)), |stack| == 1)
    decreases b, 0
  {
    hide Step, Passes, Stops, Reads, Matches, Tokens, WellFormed, Quiet, Every, EndsReady;
    var top, only := Top(stack), |stack| == 1;
    match b
    case Nil => ReadNothing(tokens, p, State(stack, start, false), only);
    case Cons(c, seps, rest) =>
      var t, r := Tokens(c), BlockTokens(rest);
      var mid := State(stack, EndsReady(c, start, top), false);
      var next := seps != [] || mid.startOfCmd;
      var final := State(stack, BlockReady(b, start, top), false);
      MatchSplit(tokens, p, t, seps + r);
      MatchSplit(tokens, p + |t|, seps, r);
      ReadCommand(tokens, p, c, start, stack);
      ReadSeparators(tokens, p + |t|, seps, mid, only);
      ReadBlock(tokens, p + |t| + |seps|, rest, next, stack);
      Two(tokens, p + |t|, mid, seps, State(stack, next, false), r, final, true, QuietBlock(rest, next, top), only);
      Two(tokens, p, State(stack, start, false), t, mid, seps + r, final, Quiet(c, start, top),
          QuietBlock(rest, next, top), only);
  }

  /** The words of a `for` list are skipped, whatever they are. */
  lemma {:induction false} ReadSkipped(tokens: seq<string>, p: nat, ws: seq<string>, st: State, only: bool)
    requires Matches(tokens, p, ws) && st.inForList && forall k :: 0 <= k < |ws| ==> !EndsCommand(ws[k])
    ensures Reads(tokens, p, st, |ws|, st, true, only)
    decreases ws
  {
    if ws == [] {
      ReadNothing(tokens, p, st, only);
    } else {
      assert ws == [ws[0]] + ws[1..];
      MatchSplit(tokens, p, [ws[0]], ws[1..]);
      ReadOne(tokens, p, st, st, only);
      ReadSkipped(tokens, p + 1, ws[1..], st, only);
      ReadCompose(tokens, p, st, 1, st, |ws| - 1, st, true, true, only);
    }
  }

  lemma ForSeesIn(tokens: seq<string>, p: nat, name: string)
    requires Matches(tokens, p, ["for", name, "in"]) && VariableName(name) && p + 2 < |tokens|
    ensures InAhead(tokens, p + 1)
  {
    assert tokens[p + 1] == ["for", name, "in"][1] && tokens[p + 2] == ["for", name, "in"][2];
    assert InAhead(tokens, p + 2);
  }

  lemma ReadForHead(tokens: seq<string>, p: nat, name: string, list: seq<string>, stack: seq<string>, only: bool)
    requires Matches(tokens, p, ["for", name, "in"] + list) && VariableName(name)
    requires forall k :: 0 <= k < |list| ==> !EndsCommand(list[k])
    ensures Reads(tokens, p, State(stack, true, false), |["for", name, "in"] + list|,
                  State(stack + ["done"], false, true), true, only)
  {
    var st, skipping := State(stack, true, false), State(stack + ["done"], false, true);
    MatchSplit(tokens, p, ["for", name, "in"], list);
    assert p < |tokens| ==> tokens[p] == ["for", name, "in"][0];
    assert p + 1 < |tokens| ==> tokens[p + 1] == ["for", name, "in"][1];
    if p + 2 < |tokens| {
      ForSeesIn(tokens, p, name);
      assert ["for", name, "in"] + list == ["for"] + ([name, "in"] + list);
      MatchSplit(tokens, p, ["for"], [name, "in"] + list);
      ReadOne(tokens, p, st, skipping, only);
      ReadSkipped(tokens, p + 1, [name, "in"] + list, skipping, only);
      Two(tokens, p, st, ["for"], skipping, [name, "in"] + list, skipping, true, true, only);
    } else if p + 1 < |tokens| {
      var next := Step(tokens, p, st).next;
      assert Step(tokens, p + 1, next).Go?;
      assert Run(tokens, p + 1, next, |tokens|).At?;
    }
  }

  /** A `for` that is not expected: its list is read as words that follow `in`. */
  lemma ReadPlainForHead(tokens: seq<string>, p: nat, name: string, list: seq<string>, stack: seq<string>)
    requires Matches(tokens, p, ["for", name, "in"] + list) && VariableName(name) && Inside(stack)
    requires PlainWords(list, true, Top(stack))
    ensures Reads(tokens, p, State(stack, false, false), |["for", name, "in"] + list|,
                  State(stack, AfterWords(list, true, Top(stack)), false), QuietWords(list, true, Top(stack)), |stack| == 1)
  {
    hide Step, Passes, Stops, Reads, Matches;
    var st, top, only := State(stack, false, false), Top(stack), |stack| == 1;
    var named, final := State(stack, Restarts(name, top), false), State(stack, AfterWords(list, true, top), false);
    assert ["for", name, "in"] + list == ["for"] + ([name] + (["in"] + list));
    MatchSplit(tokens, p, ["for"], [name] + (["in"] + list));
    MatchSplit(tokens, p + 1, [name], ["in"] + list);
    MatchSplit(tokens, p + 2, ["in"], list);
    ReadWord(tokens, p, "for", false, stack);
    ReadWord(tokens, p + 1, name, false, stack);
    ReadKeyword(tokens, p + 2, "in", named.startOfCmd, stack, only);
    ReadWords(tokens, p + 3, list, true, stack);
    Two(tokens, p + 2, named, ["in"], State(stack, true, false), list, final, true, QuietWords(list, true, top), only);
    Two(tokens, p + 1, st, [name], named, ["in"] + list, final, true, QuietWords(list, true, top), only);
    Two(tokens, p, st, ["for"], st, [name] + (["in"] + list), final, true, QuietWords(list, true, top), only);
  }

  lemma {:induction false} ReadForIn(tokens: seq<string>, p: nat, c: Command, pushed: bool, stack: seq<string>)
    requires c.ForIn? && Matches(tokens, p, Front(c))
    requires var inner := Opened(stack, "done", pushed);
             Inside(inner) && WellFormedParts(c, pushed, Top(inner)) && EveryPart(c, pushed, Top(inner), Uncaught)
    ensures var inner := Opened(stack, "done", pushed);
            Reads(tokens, p, State(stack, pushed, false), |Front(c)|, State(inner, true, false),
                  QuietParts(c, pushed, Top(inner)), |inner| == 1)
    decreases c, 0
  {
    hide Step, Passes, Stops, Reads, Matches;
    var ForIn(name, list, seps, body, redirs) := c;
    var inner := Opened(stack, "done", pushed);
    var top, only := Top(inner), |inner| == 1;
    var head, loop := ["for", name, "in"] + list, ["do"] + BlockTokens(body);
    var listed := if pushed then State(inner, false, true) else State(inner, AfterWords(list, true, top), false);
    var ready, quiet := State(inner, true, false), pushed || QuietWords(list, true, top);
    MatchSplit(tokens, p, head, seps + loop);
    MatchSplit(tokens, p + |head|, seps, loop);
    if pushed {
      ReadForHead(tokens, p, name, list, stack, only);
    } else {
      ReadPlainForHead(tokens, p, name, list, stack);
    }
    ReadSeparators(tokens, p + |head|, seps, listed, only);
    ReadDo(tokens, p + |head| + |seps|, "do", body, inner, true);
    Two(tokens, p + |head|, listed, seps, ready, loop, ready, true, QuietBlock(body, true, top), only);
    Two(tokens, p, State(stack, pushed, false), head, listed, seps + loop, ready, quiet, QuietBlock(body, true, top), only);
  }

  lemma ReadForName(tokens: seq<string>, p: nat, name: string, seps: seq<string>, pushed: bool, stack: seq<string>, only: bool)
    requires Matches(tokens, p, ["for", name]) && VariableName(name) && (!pushed ==> stack != [])
    requires Matches(tokens, p + 2, seps) && Matches(tokens, p + 2 + |seps|, ["do"])
    requires forall k :: 0 <= k < |seps| ==> seps[k] == ";" || seps[k] == "\n"
    ensures var inner := Opened(stack, "done", pushed);
            Reads(tokens, p, State(stack, pushed, false), 2, State(inner, Restarts(name, Top(inner)), false), true, only)
  {
    var inner := Opened(stack, "done", pushed);
    var st, next := State(stack, pushed, false), State(inner, false, false);
    assert p < |tokens| ==> tokens[p] == ["for", name][0];
    assert p + 1 < |tokens| ==> tokens[p + 1] == ["for", name][1];
    assert p + 2 < |tokens| ==> tokens[p + 2] == if seps == [] then ["do"][0] else seps[0];
    assert !InAhead(tokens, p + 2);
    assert !InAhead(tokens, p + 1);
    ReadOne(tokens, p, st, next, only);
    ReadOne(tokens, p + 1, next, State(inner, Restarts(name, Top(inner)), false), only);
    ReadCompose(tokens, p, st, 1, next, 1, State(inner, Restarts(name, Top(inner)), false), true, true, only);
  }

  lemma OpenForArgs(tokens: seq<string>, p: nat, c: Command, pushed: bool, stack: seq<string>)
    requires c.ForArgs? && Matches(tokens, p, Front(c)) && (!pushed ==> stack != [])
    requires VariableName(c.name) && forall k :: 0 <= k < |c.seps| ==> c.seps[k] == ";" || c.seps[k] == "\n"
    ensures var inner := Opened(stack, "done", pushed);
            Reads(tokens, p, State(stack, pushed, false), 2, State(inner, Restarts(c.name, Top(inner)), false), true, |inner| == 1)
  {
    hide Matches, Reads;
    MatchThree(tokens, p, ["for", c.name], c.seps, ["do"] + BlockTokens(c.body));
    MatchSplit(tokens, p + 2 + |c.seps|, ["do"], BlockTokens(c.body));
    ReadForName(tokens, p, c.name, c.seps, pushed, stack, |Opened(stack, "done", pushed)| == 1);
  }

  lemma ForArgsParts(tokens: seq<string>, p: nat, c: Command, pushed: bool, top: string)
    requires c.ForArgs? && Matches(tokens, p, Front(c)) && WellFormedParts(c, pushed, top) && EveryPart(c, pushed, top, Uncaught)
    ensures Matches(tokens, p + 2, c.seps) && Matches(tokens, p + 2 + |c.seps|, ["do"] + BlockTokens(c.body))
    ensures |Front(c)| == 2 + |c.seps| + |["do"] + BlockTokens(c.body)|
    ensures PartsReady(c, pushed, top) && AllJoin(c.seps) && WellFormedBody(c.body, top)
    ensures QuietParts(c, pushed, top) == QuietBlock(c.body, true, top) && EveryBlock(c.body, true, top, Uncaught)
  {
    hide Matches;
    MatchThree(tokens, p, ["for", c.name], c.seps, ["do"] + BlockTokens(c.body));
  }

  lemma {:induction false} ReadForArgs(tokens: seq<string>, p: nat, c: Command, pushed: bool, st: State, inner: seq<string>)
    requires c.ForArgs? && Matches(tokens, p, Front(c)) && Inside(inner)
    requires WellFormedParts(c, pushed, Top(inner)) && EveryPart(c, pushed, Top(inner), Uncaught)
    requires Reads(tokens, p, st, 2, State(inner, Restarts(c.name, Top(inner)), false), true, |inner| == 1)
    ensures Reads(tokens, p, st, |Front(c)|, State(inner, true, false), QuietParts(c, pushed, Top(inner)), |inner| == 1)
    decreases c, 0
  {
    hide *;
    var top, body, n1 := Top(inner), c.body, |c.seps|;
    ForArgsParts(tokens, p, c, pushed, top);
    var n2 := |["do"] + BlockTokens(body)|;
    var ready, named := State(inner, true, false), State(inner, Restarts(c.name, top), false);
    var parted := if n1 == 0 then named else ready;
    ReadSeparators(tokens, p + 2, c.seps, named, |inner| == 1);
    ReadDo(tokens, p + 2 + n1, "do", body, inner, parted.startOfCmd);
    Three(tokens, p, st, 2, named, n1, parted, n2, ready, |Front(c)|, true, true, QuietBlock(body, true, top),
          QuietParts(c, pushed, top), |inner| == 1);
  }

  lemma {:induction false} ReadIf(tokens: seq<string>, p: nat, c: Command, pushed: bool, st: State, inner: seq<string>)
    requires c.If? && Matches(tokens, p, Front(c)) && Inside(inner)
    requires WellFormedParts(c, pushed, Top(inner)) && EveryPart(c, pushed, Top(inner), Uncaught)
    requires Reads(tokens, p, st, 1, State(inner, false, false), true, |inner| == 1)
    ensures Reads(tokens, p, st, |Front(c)|, State(inner, true, false), QuietParts(c, pushed, Top(inner)), |inner| == 1)
    decreases c, 0, 1
  {
    hide *;
    var top := Top(inner);
    IfParts(tokens, p, c, pushed, top);
    var n1, n2 := |BlockTokens(c.cond)|, |Clauses(c)|;
    var asking, asked, ready := State(inner, false, false), State(inner, BlockReady(c.cond, false, top), false), State(inner, true, false);
    ReadBlock(tokens, p + 1, c.cond, false, inner);
    ReadClauses(tokens, p + 1 + n1, c, inner, asked.startOfCmd);
    Three(tokens, p, st, 1, asking, n1, asked, n2, ready, |Front(c)|, true,
          QuietBlock(c.cond, false, top), QuietClauses(c, top), QuietParts(c, pushed, top), |inner| == 1);
  }

  lemma OpenIf(tokens: seq<string>, p: nat, c: Command, pushed: bool, stack: seq<string>)
    requires c.If? && Matches(tokens, p, Front(c))
    ensures var inner := Opened(stack, "fi", pushed);
            Reads(tokens, p, State(stack, pushed, false), 1, State(inner, false, false), true, |inner| == 1)
  {
    hide Matches, Reads;
    MatchSplit(tokens, p, ["if"], BlockTokens(c.cond) + Clauses(c));
    ReadOpener(tokens, p, "if", pushed, stack, |Opened(stack, "fi", pushed)| == 1);
  }

  lemma IfParts(tokens: seq<string>, p: nat, c: Command, pushed: bool, top: string)
    requires c.If? && Matches(tokens, p, Front(c)) && WellFormedParts(c, pushed, top) && EveryPart(c, pushed, top, Uncaught)
    ensures Matches(tokens, p, ["if"]) && Matches(tokens, p + 1, BlockTokens(c.cond))
    ensures Matches(tokens, p + 1 + |BlockTokens(c.cond)|, Clauses(c))
    ensures |Front(c)| == 1 + |BlockTokens(c.cond)| + |Clauses(c)| && PartsReady(c, pushed, top)
    ensures WellFormedBlock(c.cond, false, top) && WellFormedBody(c.yes, top)
    ensures WellFormedElifs(c.elifs, top) && WellFormedElse(c.no, top)
    ensures QuietParts(c, pushed, top) == (QuietBlock(c.cond, false, top) && QuietClauses(c, top))
    ensures EveryBlock(c.cond, false, top, Uncaught) && EveryBlock(c.yes, true, top, Uncaught)
    ensures EveryElif(c.elifs, top, Uncaught) && EveryElse(c.no, top, Uncaught)
  {
    hide Matches;
    MatchThree(tokens, p, ["if"], BlockTokens(c.cond), Clauses(c));
    CalmIf(c, pushed, top);
  }

  lemma CalmIf(c: Command, pushed: bool, top: string)
    requires c.If? && EveryPart(c, pushed, top, Uncaught)
    ensures EveryBlock(c.cond, false, top, Uncaught) && EveryBlock(c.yes, true, top, Uncaught)
    ensures EveryElif(c.elifs, top, Uncaught) && EveryElse(c.no, top, Uncaught)
  {
  }

  predicate QuietClauses(c: Command, top: string)
    requires c.If?
  {
    QuietBlock(c.yes, true, top) && QuietElifs(c.elifs, top) && QuietElse(c.no, top)
  }

  lemma {:induction false} ReadClauses(tokens: seq<string>, p: nat, c: Command, inner: seq<string>, start: bool)
    requires c.If? && Inside(inner) && Matches(tokens, p, Clauses(c))
    requires WellFormedBody(c.yes, Top(inner)) && WellFormedElifs(c.elifs, Top(inner)) && WellFormedElse(c.no, Top(inner))
    requires EveryBlock(c.yes, true, Top(inner), Uncaught) && EveryElif(c.elifs, Top(inner), Uncaught)
    requires EveryElse(c.no, Top(inner), Uncaught)
    ensures Reads(tokens, p, State(inner, start, false), |Clauses(c)|, State(inner, true, false),
                  QuietClauses(c, Top(inner)), |inner| == 1)
    decreases c, 0, 0
  {
    ClausesParts(c, Top(inner));
    hide *;
    var ready, top, only := State(inner, true, false), Top(inner), |inner| == 1;
    var ty, te, tn := ["then"] + BlockTokens(c.yes), ElifTokens(c.elifs), ElseTokens(c.no);
    MatchSplit(tokens, p, ty, te + tn);
    MatchSplit(tokens, p + |ty|, te, tn);
    ReadDo(tokens, p, "then", c.yes, inner, start);
    ReadElifs(tokens, p + |ty|, c.elifs, inner);
    ReadElse(tokens, p + |ty| + |te|, c.no, inner);
    Two(tokens, p + |ty|, ready, te, ready, tn, ready, QuietElifs(c.elifs, top), QuietElse(c.no, top), only);
    Two(tokens, p, State(inner, start, false), ty, ready, te + tn, ready, QuietBlock(c.yes, true, top),
        QuietElifs(c.elifs, top) && QuietElse(c.no, top), only);
  }

  lemma ClausesParts(c: Command, top: string)
    requires c.If?
    ensures Clauses(c) == (["then"] + BlockTokens(c.yes)) + (ElifTokens(c.elifs) + ElseTokens(c.no))
    ensures QuietClauses(c, top) == (QuietBlock(c.yes, true, top) && (QuietElifs(c.elifs, top) && QuietElse(c.no, top)))
  {
  }

  lemma {:induction false} ReadElse(tokens: seq<string>, p: nat, e: Otherwise, inner: seq<string>)
    requires Matches(tokens, p, ElseTokens(e)) && WellFormedElse(e, Top(inner)) && Inside(inner)
    requires EveryElse(e, Top(inner), Uncaught)
    ensures Reads(tokens, p, State(inner, true, false), |ElseTokens(e)|, State(inner, true, false),
                  QuietElse(e, Top(inner)), |inner| == 1)
    decreases e
  {
    hide Step, Passes, Stops, Reads, Matches;
    if e.NoElse? {
      ReadNothing(tokens, p, State(inner, true, false), |inner| == 1);
    } else {
      ReadDo(tokens, p, "else", e.body, inner, true);
    }
  }

  lemma {:induction false} ReadElifs(tokens: seq<string>, p: nat, e: Elifs, inner: seq<string>)
    requires Matches(tokens, p, ElifTokens(e)) && WellFormedElifs(e, Top(inner)) && Inside(inner)
    requires EveryElif(e, Top(inner), Uncaught)
    ensures Reads(tokens, p, State(inner, true, false), |ElifTokens(e)|, State(inner, true, false),
                  QuietElifs(e, Top(inner)), |inner| == 1)
    decreases e, 1
  {
    var ready, top, only := State(inner, true, false), Top(inner), |inner| == 1;
    if e.NoElif? {
      ReadNothing(tokens, p, ready, only);
    } else {
      hide *;
      ElifParts(tokens, p, e, top);
      var n1, n2 := |BlockTokens(e.cond)|, |ElifRest(e)|;
      var asked := State(inner, BlockReady(e.cond, true, top), false);
      ReadElif(tokens, p, inner);
      ReadBlock(tokens, p + 1, e.cond, true, inner);
      ReadElifRest(tokens, p + 1 + n1, e, inner, asked.startOfCmd);
      Three(tokens, p, ready, 1, ready, n1, asked, n2, ready, |ElifTokens(e)|, true,
            QuietBlock(e.cond, true, top), QuietElifRest(e, top), QuietElifs(e, top), only);
    }
  }

  lemma ReadElif(tokens: seq<string>, p: nat, inner: seq<string>)
    requires Matches(tokens, p, ["elif"]) && Inside(inner)
    ensures Reads(tokens, p, State(inner, true, false), 1, State(inner, true, false), true, |inner| == 1)
  {
    ReadKeyword(tokens, p, "elif", true, inner, |inner| == 1);
  }

  function ElifRest(e: Elifs): seq<string>
    requires e.Elif?
  {
    (["then"] + BlockTokens(e.yes)) + ElifTokens(e.rest)
  }

  predicate QuietElifRest(e: Elifs, top: string)
    requires e.Elif?
  {
    QuietBlock(e.yes, true, top) && QuietElifs(e.rest, top)
  }

  lemma ElifParts(tokens: seq<string>, p: nat, e: Elifs, top: string)
    requires e.Elif? && Matches(tokens, p, ElifTokens(e)) && WellFormedElifs(e, top) && EveryElif(e, top, Uncaught)
    ensures Matches(tokens, p, ["elif"]) && Matches(tokens, p + 1, BlockTokens(e.cond))
    ensures Matches(tokens, p + 1 + |BlockTokens(e.cond)|, ElifRest(e))
    ensures |ElifTokens(e)| == 1 + |BlockTokens(e.cond)| + |ElifRest(e)|
    ensures WellFormedBlock(e.cond, true, top) && WellFormedBody(e.yes, top) && WellFormedElifs(e.rest, top)
    ensures QuietElifs(e, top) == (QuietBlock(e.cond, true, top) && QuietElifRest(e, top))
    ensures EveryBlock(e.cond, true, top, Uncaught) && EveryBlock(e.yes, true, top, Uncaught) && EveryElif(e.rest, top, Uncaught)
  {
    hide Matches;
    MatchThree(tokens, p, ["elif"], BlockTokens(e.cond), ElifRest(e));
  }

  lemma {:induction false} ReadElifRest(tokens: seq<string>, p: nat, e: Elifs, inner: seq<string>, start: bool)
    requires e.Elif? && Matches(tokens, p, ElifRest(e)) && Inside(inner)
    requires WellFormedBody(e.yes, Top(inner)) && WellFormedElifs(e.rest, Top(inner))
    requires EveryBlock(e.yes, true, Top(inner), Uncaught) && EveryElif(e.rest, Top(inner), Uncaught)
    ensures Reads(tokens, p, State(inner, start, false), |ElifRest(e)|, State(inner, true, false),
                  QuietElifRest(e, Top(inner)), |inner| == 1)
    decreases e, 0
  {
    hide Step, Passes, Stops, Reads, Matches, ElifTokens, BlockTokens, WellFormedBody, WellFormedElifs, EveryBlock,
         EveryElif, QuietBlock, QuietElifs;
    var ready, only := State(inner, true, false), |inner| == 1;
    var ty, tr := ["then"] + BlockTokens(e.yes), ElifTokens(e.rest);
    MatchSplit(tokens, p, ty, tr);
    ReadDo(tokens, p, "then", e.yes, inner, start);
    ReadElifs(tokens, p + |ty|, e.rest, inner);
    Two(tokens, p, State(inner, start, false), ty, ready, tr, ready, QuietBlock(e.yes, true, Top(inner)),
        QuietElifs(e.rest, Top(inner)), only);
  }

  lemma {:induction false} ReadCase(tokens: seq<string>, p: nat, c: Command, pushed: bool, stack: seq<string>)
    requires c.Case? && Matches(tokens, p, Front(c))
    requires var inner := Opened(stack, "esac", pushed);
             Inside(inner) && WellFormedParts(c, pushed, Top(inner)) && EveryPart(c, pushed, Top(inner), Uncaught)
    ensures var inner := Opened(stack, "esac", pushed);
            Reads(tokens, p, State(stack, pushed, false), |Front(c)|, State(inner, PartsReady(c, pushed, Top(inner)), false),
                  QuietParts(c, pushed, Top(inner)), |inner| == 1)
    decreases c, 0
  {
    var Case(word, seps, branches, redirs) := c;
    var inner := Opened(stack, "esac", pushed);
    var top, only := Top(inner), |inner| == 1;
    var asking, final := State(inner, false, false), State(inner, BranchesReady(branches, top), false);
    hide *;
    CaseParts(c, pushed, top);
    var rest := [word] + CaseRest(c);
    MatchSplit(tokens, p, ["case"], rest);
    OpenCase(tokens, p, pushed, stack, only);
    ReadCaseWord(tokens, p + 1, c, inner);
    Two(tokens, p, State(stack, pushed, false), ["case"], asking, rest, final, true, QuietBranches(branches, top), only);
  }

  function CaseRest(c: Command): seq<string>
    requires c.Case?
  {
    ["in"] + (c.seps + BranchTokens(c.branches))
  }

  lemma OpenCase(tokens: seq<string>, p: nat, pushed: bool, stack: seq<string>, only: bool)
    requires Matches(tokens, p, ["case"])
    ensures Reads(tokens, p, State(stack, pushed, false), 1, State(Opened(stack, "esac", pushed), false, false), true, only)
  {
    ReadOpener(tokens, p, "case", pushed, stack, only);
  }

  lemma CaseParts(c: Command, pushed: bool, top: string)
    requires c.Case? && WellFormedParts(c, pushed, top) && EveryPart(c, pushed, top, Uncaught)
    ensures Front(c) == ["case"] + ([c.word] + CaseRest(c)) && PartsReady(c, pushed, top) == BranchesReady(c.branches, top)
    ensures !EndsCommand(c.word) && AllEnd(c.seps) && WellFormedBranches(c.branches, top)
    ensures QuietParts(c, pushed, top) == QuietBranches(c.branches, top) && EveryBranch(c.branches, top, Uncaught)
  {
  }

  lemma {:induction false} ReadCaseWord(tokens: seq<string>, p: nat, c: Command, inner: seq<string>)
    requires c.Case? && Matches(tokens, p, [c.word] + CaseRest(c)) && Inside(inner)
    requires !EndsCommand(c.word) && AllEnd(c.seps) && WellFormedBranches(c.branches, Top(inner))
    requires EveryBranch(c.branches, Top(inner), Uncaught)
    ensures Reads(tokens, p, State(inner, false, false), |[c.word] + CaseRest(c)|,
                  State(inner, BranchesReady(c.branches, Top(inner)), false), QuietBranches(c.branches, Top(inner)), |inner| == 1)
    decreases c.branches, 2
  {
    hide Step, Passes, Stops, Reads, Matches, BranchTokens, BranchesReady, QuietBranches, WellFormedBranches, EveryBranch;
    var top, only := Top(inner), |inner| == 1;
    var ready, worded := State(inner, true, false), State(inner, Restarts(c.word, top), false);
    var final, tb, quiet := State(inner, BranchesReady(c.branches, top), false), BranchTokens(c.branches), QuietBranches(c.branches, top);
    MatchSplit(tokens, p, [c.word], CaseRest(c));
    MatchSplit(tokens, p + 1, ["in"], c.seps + tb);
    MatchSplit(tokens, p + 2, c.seps, tb);
    ReadWord(tokens, p, c.word, false, inner);
    ReadKeyword(tokens, p + 1, "in", worded.startOfCmd, inner, only);
    ReadSeparators(tokens, p + 2, c.seps, ready, only);
    ReadBranches(tokens, p + 2 + |c.seps|, c.branches, inner);
    Two(tokens, p + 2, ready, c.seps, ready, tb, final, true, quiet, only);
    Two(tokens, p + 1, worded, ["in"], ready, c.seps + tb, final, true, quiet, only);
    Two(tokens, p, State(inner, false, false), [c.word], worded, CaseRest(c), final, true, quiet, only);
  }

  function BranchText(b: Branches): seq<string>
    requires b.Branch?
  {
    b.pattern + (BlockTokens(b.body) + b.seps)
  }

  predicate QuietBranch(b: Branches, top: string)
    requires b.Branch?
  {
    QuietWords(b.pattern, true, top) && QuietBlock(b.body, AfterWords(b.pattern, true, top), top)
  }

  lemma BranchParts(tokens: seq<string>, p: nat, b: Branches, top: string)
    requires b.Branch? && Matches(tokens, p, BranchText(b)) && WellFormedBranches(b, top)
    ensures Matches(tokens, p, b.pattern) && Matches(tokens, p + |b.pattern|, BlockTokens(b.body))
    ensures Matches(tokens, p + |b.pattern| + |BlockTokens(b.body)|, b.seps)
    ensures |BranchText(b)| == |b.pattern| + |BlockTokens(b.body)| + |b.seps|
    ensures PlainWords(b.pattern, true, top) && AllJoin(b.seps)
    ensures b.body.Nil? || WellFormedBlock(b.body, AfterWords(b.pattern, true, top), top)
  {
    hide Matches, QuietWords, QuietBlock, AfterWords, PlainWords, WellFormedBlock, BlockTokens, EndsPattern, EndsCommand;
    MatchThree(tokens, p, b.pattern, BlockTokens(b.body), b.seps);
  }

  lemma ReadBranchEnd(tokens: seq<string>, p: nat, b: Branches, inner: seq<string>, done: State)
    requires b.Branch? && Matches(tokens, p, b.seps) && AllJoin(b.seps) && Inside(inner)
    requires done == State(inner, BlockReady(b.body, AfterWords(b.pattern, true, Top(inner)), Top(inner)), false)
    ensures Reads(tokens, p, done, |b.seps|, State(inner, BranchReady(b, Top(inner)), false), true, |inner| == 1)
  {
    ReadSeparators(tokens, p, b.seps, done, |inner| == 1);
  }

  /** A pattern, and the commands behind it. */
  lemma {:induction false} ReadBranch(tokens: seq<string>, p: nat, b: Branches, inner: seq<string>)
    requires b.Branch? && Matches(tokens, p, BranchText(b)) && WellFormedBranches(b, Top(inner)) && Inside(inner)
    requires inner != [] && EveryBlock(b.body, AfterWords(b.pattern, true, Top(inner)), Top(inner), Uncaught)
    ensures Reads(tokens, p, State(inner, true, false), |BranchText(b)|, State(inner, BranchReady(b, Top(inner)), false),
                  QuietBranch(b, Top(inner)), |inner| == 1)
    decreases b, 0
  {
    var top, only := Top(inner), |inner| == 1;
    var live := AfterWords(b.pattern, true, top);
    var q0, q1 := QuietWords(b.pattern, true, top), QuietBlock(b.body, live, top);
    assert QuietBranch(b, top) == (q0 && q1);
    hide *;
    var n0, n1 := |b.pattern|, |BlockTokens(b.body)|;
    var done, final := State(inner, BlockReady(b.body, live, top), false), State(inner, BranchReady(b, top), false);
    BranchParts(tokens, p, b, top);
    ReadWords(tokens, p, b.pattern, true, inner);
    ReadBlock(tokens, p + n0, b.body, live, inner);
    ReadBranchEnd(tokens, p + n0 + n1, b, inner, done);
    Three(tokens, p, State(inner, true, false), n0, State(inner, live, false), n1, done, |b.seps|, final, |BranchText(b)|,
          q0, q1, true, QuietBranch(b, top), only);
  }

  lemma {:induction false} ReadBranches(tokens: seq<string>, p: nat, b: Branches, inner: seq<string>)
    requires Matches(tokens, p, BranchTokens(b)) && WellFormedBranches(b, Top(inner)) && Inside(inner)
    requires EveryBranch(b, Top(inner), Uncaught)
    ensures Reads(tokens, p, State(inner, true, false), |BranchTokens(b)|, State(inner, BranchesReady(b, Top(inner)), false),
                  QuietBranches(b, Top(inner)), |inner| == 1)
    decreases b, 1
  {
    hide Step, Passes, Stops, Reads, Matches;
    var ready, top, only := State(inner, true, false), Top(inner), |inner| == 1;
    if b.NoBranch? {
      ReadNothing(tokens, p, ready, only);
    } else {
      var t, tr, q := BranchText(b), BranchTokens(b.rest), QuietBranch(b, top);
      MatchSplit(tokens, p, t, tr);
      CalmBranch(b, top);
      ReadBranch(tokens, p, b, inner);
      if b.rest.NoBranch? {
        var last := State(inner, BranchReady(b, top), false);
        ReadNothing(tokens, p + |t|, last, only);
        assert tr == [];
        Two(tokens, p, ready, t, last, tr, last, q, true, only);
      } else {
        ReadBranches(tokens, p + |t|, b.rest, inner);
        Two(tokens, p, ready, t, ready, tr, State(inner, BranchesReady(b, top), false), q, QuietBranches(b.rest, top), only);
      }
    }
  }

  lemma CalmBranch(b: Branches, top: string)
    requires b.Branch? && EveryBranch(b, top, Uncaught)
    ensures EveryBlock(b.body, AfterWords(b.pattern, true, top), top, Uncaught) && EveryBranch(b.rest, top, Uncaught)
  {
  }

  // ----- the matcher on a whole compound -----

  lemma {:induction false} FindAfterRun(tokens: seq<string>, i: nat, st: State, e: nat)
    requires i <= e <= |tokens| && Run(tokens, i, st, e).At?
    ensures FindFrom(tokens, i, st) == FindFrom(tokens, e, Run(tokens, i, st, e).state)
    decreases e - i
  {
    if i < e {
      FindAfterRun(tokens, i + 1, Step(tokens, i, st).next, e);
    }
  }

  lemma {:induction false} FindInRun(tokens: seq<string>, i: nat, st: State, e: nat)
    requires i <= e <= |tokens| && Run(tokens, i, st, e).Stopped?
    ensures i <= FindFrom(tokens, i, st) < e
    decreases e - i
  {
    if Step(tokens, i, st).Go? {
      FindInRun(tokens, i + 1, Step(tokens, i, st).next, e);
    }
  }

  /** The tokens of a compound up to its closing word. */
  function Whole(c: Command): seq<string>
    requires !c.Simple?
  {
    Front(c) + [Closing(c)]
  }

  /** A compound by the grammar, whose inner compounds the matcher gets over. */
  predicate Readable(c: Command) {
    !c.Simple? && WellFormedParts(c, true, Closing(c)) && PartsReady(c, true, Closing(c))
    && EveryPart(c, true, Closing(c), Uncaught)
  }

  lemma WholeFront(tokens: seq<string>, p: nat, c: Command)
    requires Readable(c) && Matches(tokens, p, Front(c))
    ensures Reads(tokens, p, BEGIN, |Front(c)|, State([Closing(c)], true, false), NoCapture(c), true)
  {
    ReadFront(tokens, p, c, true, []);
    assert Opened([], Closing(c), true) == [Closing(c)];
  }

  lemma StandsWhole(before: seq<string>, u: seq<string>, k: string, after: seq<string>)
    ensures var tokens := before + ((u + [k]) + after);
            Matches(tokens, |before|, u) && |before| + |u| < |tokens| && tokens[|before| + |u|] == k
  {
    var tokens := before + ((u + [k]) + after);
    assert tokens == before + (u + ([k] + after));
  }

  /**
   * The matcher returns the index of the compound's closing word, whatever stands in front of the
   * compound and whatever follows it, if and only if nothing inside is taken for that word; else it
   * returns a place inside.
   */
  lemma FindsTheEnd(before: seq<string>, c: Command, after: seq<string>)
    requires Readable(c)
    ensures var found := Find(before + (Whole(c) + after), |before|);
            && (found == |before| + |Whole(c)| - 1 <==> NoCapture(c))
            && |before| <= found < |before| + |Whole(c)|
  {
    hide Matches, WellFormedParts, Front, NoCapture;
    var tokens, p := before + (Whole(c) + after), |before|;
    var e := p + |Front(c)|;
    StandsWhole(before, Front(c), Closing(c), after);
    WholeFront(tokens, p, c);
    if NoCapture(c) {
      FindAfterRun(tokens, p, BEGIN, e);
      ClosingFinds(tokens, e, c);
    } else {
      FindInRun(tokens, p, BEGIN, e);
    }
  }

  lemma ClosingFinds(tokens: seq<string>, e: nat, c: Command)
    requires e < |tokens| && !c.Simple? && tokens[e] == Closing(c)
    ensures Step(tokens, e, State([Closing(c)], true, false)) == Found
  {
  }

  /** No proper prefix of the compound passes for a complete one. */
  lemma NotBeforeTheEnd(c: Command, n: nat)
    requires Readable(c) && NoCapture(c) && n < |Whole(c)|
    ensures Find(Whole(c)[..n], 0) == -1
  {
    var tokens := Whole(c)[..n];
    assert Matches(tokens, 0, Front(c)) by {
      forall k | 0 <= k < |Front(c)| && k < n ensures tokens[k] == Front(c)[k] {
        assert tokens[k] == Whole(c)[k];
      }
    }
    WholeFront(tokens, 0, c);
    assert Run(tokens, 0, BEGIN, n).At?;
    FindAfterRun(tokens, 0, BEGIN, n);
  }

  // ----- all compounds of a command -----

  /** The matcher, called on the compound, returns the place of its closing word. */
  predicate FoundAtEnd(c: Command) {
    !c.Simple? && Find(Whole(c), 0) == |Whole(c)| - 1
  }

  lemma FoundWhenUncaught(c: Command)
    requires Readable(c)
    ensures FoundAtEnd(c) <==> Uncaught(c)
  {
    hide Find, Front, NoCapture, WellFormedParts, EveryPart, PartsReady;
    FindsTheEnd([], c, []);
    assert [] + (Whole(c) + []) == Whole(c);
  }

  /** All compounds of a command are found at their ends if and only if none of them is captured. */
  lemma {:induction false} AllFoundExactly(c: Command, start: bool, top: string)
    requires WellFormed(c, start, top)
    ensures Every(c, start, top, FoundAtEnd) <==> Every(c, start, top, Uncaught)
    decreases c, 2
  {
    hide Find, Whole, NoCapture, EveryPart, WellFormedParts, FoundAtEnd, Uncaught;
    if !c.Simple? {
      var inner := if start then Closing(c) else top;
      AllFoundInside(c, start, inner);
      if start && EveryPart(c, true, inner, Uncaught) {
        FoundWhenUncaught(c);
      }
    }
  }

  lemma {:induction false} AllFoundInside(c: Command, pushed: bool, top: string)
    requires !c.Simple? && WellFormedParts(c, pushed, top)
    ensures EveryPart(c, pushed, top, FoundAtEnd) <==> EveryPart(c, pushed, top, Uncaught)
    decreases c, 1
  {
    hide FoundAtEnd, Uncaught, WellFormedBlock, EveryBlock, EveryElif, EveryElse, EveryBranch;
    match c
    case While(_, cond, body, _) =>
      AllFoundInBlock(cond, false, top);
      AllFoundInBody(body, top);
    case ForIn(_, _, _, body, _) => AllFoundInBody(body, top);
    case ForArgs(_, _, body, _) => AllFoundInBody(body, top);
    case If(cond, yes, elifs, no, _) =>
      AllFoundInBlock(cond, false, top);
      AllFoundInBody(yes, top);
      AllFoundInElifs(elifs, top);
      if no.Else? {
        AllFoundInBody(no.body, top);
      }
      ElseEvery(no, top);
    case Case(_, _, branches, _) => AllFoundInBranches(branches, top);
    case Brace(body, _) => AllFoundInBlock(body, pushed, top);
  }

  lemma ElseEvery(e: Otherwise, top: string)
    requires e.Else? ==> (EveryBlock(e.body, true, top, FoundAtEnd) <==> EveryBlock(e.body, true, top, Uncaught))
    ensures EveryElse(e, top, FoundAtEnd) <==> EveryElse(e, top, Uncaught)
  {
    hide EveryBlock;
  }

  lemma {:induction false} AllFoundInBody(b: Block, top: string)
    requires WellFormedBody(b, top)
    ensures EveryBlock(b, true, top, FoundAtEnd) <==> EveryBlock(b, true, top, Uncaught)
    decreases b, 1
  {
    hide EveryBlock, WellFormedBlock;
    AllFoundInBlock(b, true, top);
  }

  lemma {:induction false} AllFoundInBlock(b: Block, start: bool, top: string)
    requires b.Nil? || WellFormedBlock(b, start, top)
    ensures EveryBlock(b, start, top, FoundAtEnd) <==> EveryBlock(b, start, top, Uncaught)
    decreases b, 0
  {
    hide Every, WellFormed, EndsReady, FoundAtEnd, Uncaught;
    if b.Cons? {
      AllFoundExactly(b.cmd, start, top);
      AllFoundInBlock(b.rest, b.seps != [] || EndsReady(b.cmd, start, top), top);
    }
  }

  lemma {:induction false} AllFoundInElifs(e: Elifs, top: string)
    requires WellFormedElifs(e, top)
    ensures EveryElif(e, top, FoundAtEnd) <==> EveryElif(e, top, Uncaught)
    decreases e
  {
    hide EveryBlock, WellFormedBlock, FoundAtEnd, Uncaught;
    if e.Elif? {
      AllFoundInBlock(e.cond, true, top);
      AllFoundInBody(e.yes, top);
      AllFoundInElifs(e.rest, top);
    }
  }

  lemma {:induction false} AllFoundInBranches(b: Branches, top: string)
    requires WellFormedBranches(b, top)
    ensures EveryBranch(b, top, FoundAtEnd) <==> EveryBranch(b, top, Uncaught)
    decreases b
  {
    hide EveryBlock, WellFormedBlock, FoundAtEnd, Uncaught;
    if b.Branch? {
      AllFoundInBlock(b.body, AfterWords(b.pattern, true, top), top);
      AllFoundInBranches(b.rest, top);
    }
  }
}
