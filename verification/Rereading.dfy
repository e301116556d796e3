// Every part of a compound command is printed and read again before it is run: what that changes.
module Rereading {
  import opened Options
  import opened Clauses
  import opened Compounds
  import opened Reading
  import opened Programs
  import opened LoopSemantics
  import opened LoopRefinement
  import opened TokensRoundTrip
  import L = Loops
  import T = Tokens

  /** A part as the runner gets to see it. */
  function Again(part: seq<string>): seq<string> { T.Tokenize(T.Print(part)) }

  /** The commands of a script, every part of which is printed and read again; compounds are followed
      `depth` deep. */
  function TextRead(x: Lexicon, ts: seq<string>, depth: nat): seq<L.Command>
    decreases depth, 2, |ts|
  {
    if ts == [] then []
    else if T.IsSeparator(ts[0]) then TextRead(x, ts[1..], depth)
    else
      var n := Extent(ts);
      [TextCommand(x, ts[..n], depth)] + if n == |ts| then [] else TextRead(x, ts[n..], depth)
  }

  function TextCommand(x: Lexicon, ts: seq<string>, depth: nat): L.Command
    requires ts != []
    decreases depth, 1, |ts|
  {
    if depth == 0 then x.plain(ts)
    else if CutIf(ts).Some? then TextIf(x, CutIf(ts).value, depth)
    else if CutLoop(ts).Some? then
      var p := CutLoop(ts).value;
      L.While(ts[0] == "until", TextRead(x, Again(p.cond), depth - 1), TextRead(x, Again(p.body), depth - 1))
    else if CutFor(ts).Some? then
      (match CutFor(ts).value
       case InLoop(name, words, body) => L.For(name, x.list(words), TextRead(x, Again(body), depth - 1))
       case ArgsLoop(name, body) => L.For(name, x.args, TextRead(x, Again(body), depth - 1)))
    else if CutGroup(ts).Some? then L.Group(TextRead(x, Again(CutGroup(ts).value), depth - 1))
    else x.plain(ts)
  }

  function TextIf(x: Lexicon, p: IfParts, depth: nat): L.Command
    requires p.arms != [] && depth > 0
    decreases depth, 0, |p.arms|
  {
    var arm, rest := p.arms[0], p.arms[1..];
    L.If(TextRead(x, Again(arm.cond), depth - 1), TextRead(x, Again(arm.body), depth - 1),
         if rest == [] then TextRead(x, Again(p.no), depth - 1) else [TextIf(x, IfParts(rest, p.no), depth)])
  }

  // ----- parts that come back as they are -----

  /** Tokens that were read, in separator-normal form. */
  predicate Clean(ts: seq<string>) { AllRead(ts) && SeparatorsApart(ts) }

  /** Such a part comes back as it is if and only if it does not end in an escaped blank. */
  lemma AgainExactly(part: seq<string>)
    requires Clean(part)
    ensures Again(part) == part <==> !EndsInBlank(part)
  {
    hide T.Tokenize, T.Print, NormalFrom;
    NormalExactly(part);
    RoundTrip(part);
  }

  lemma CleanSlice(ts: seq<string>, i: nat, j: nat)
    requires Clean(ts) && i <= j <= |ts|
    ensures Clean(ts[i..j])
  {
    hide ReadToken, MayFollow;
    var part := ts[i..j];
    forall k | 0 < k < |part| ensures MayFollow(part[k - 1], part[k]) {
      assert part[k - 1] == ts[i + k - 1] && part[k] == ts[i + k];
    }
    assert "\n" in part ==> "\n" in ts;
  }

  predicate CleanParts(p: IfParts) {
    Clean(p.no) && forall a :: a in p.arms ==> Clean(a.cond) && Clean(a.body)
  }

  lemma {:induction false} ClausesClean(ts: seq<string>)
    requires Clean(ts) && CutClauses(ts).Some?
    ensures CleanParts(CutClauses(ts).value)
    decreases |ts|, 1
  {
    hide Clean, IndexToken;
    var t := IndexToken(ts, "then");
    CleanSlice(ts, 0, t);
    CleanSlice(ts, t + 1, |ts|);
    assert ts[t + 1..] == ts[t + 1..|ts|];
    BodyClean(ts[..t], ts[t + 1..]);
  }

  lemma {:induction false} BodyClean(cond: seq<string>, ts: seq<string>)
    requires Clean(cond) && Clean(ts) && CutBody(cond, ts).Some?
    ensures CleanParts(CutBody(cond, ts).value)
    decreases |ts|, 0
  {
    hide Clean, IndexToken, BodyLength;
    var n := BodyLength(ts);
    CleanSlice(ts, 0, n);
    CleanSlice(ts, 0, 0);
    assert ts[0..0] == [];
    if n < |ts| && ts[n] != "fi" {
      CleanSlice(ts, n + 1, |ts|);
      assert ts[n + 1..] == ts[n + 1..|ts|];
      if ts[n] == "else" {
        CleanSlice(ts[n + 1..], 0, IndexToken(ts[n + 1..], "fi"));
      } else {
        ClausesClean(ts[n + 1..]);
      }
    }
  }

  // ----- scripts whose parts last -----

  /** At any depth, no part that is printed ends in an escaped blank. */
  predicate Lasting(ts: seq<string>)
    decreases |ts|, 1
  {
    ts == [] ||
    (if T.IsSeparator(ts[0]) then Lasting(ts[1..])
     else
       var n := Extent(ts);
       LastingCommand(ts[..n]) && (n == |ts| || Lasting(ts[n..])))
  }

  predicate LastingCommand(ts: seq<string>)
    requires ts != []
    decreases |ts|, 0
  {
    if CutIf(ts).Some? then
      ClausesBelow(ts[1..], |ts|);
      var p := CutIf(ts).value;
      && !EndsInBlank(p.no) && Lasting(p.no)
      && forall a :: a in p.arms ==> !EndsInBlank(a.cond) && !EndsInBlank(a.body) && Lasting(a.cond) && Lasting(a.body)
    else if CutLoop(ts).Some? then
      var p := CutLoop(ts).value;
      !EndsInBlank(p.cond) && Lasting(p.cond) && !EndsInBlank(p.body) && Lasting(p.body)
    else if CutFor(ts).Some? then !EndsInBlank(CutFor(ts).value.body) && Lasting(CutFor(ts).value.body)
    else if CutGroup(ts).Some? then !EndsInBlank(CutGroup(ts).value) && Lasting(CutGroup(ts).value)
    else true
  }

  /** Every command of the script is in separator-normal form; between commands newlines may stand. */
  predicate CleanCommands(ts: seq<string>)
    decreases |ts|
  {
    ts == [] ||
    (if T.IsSeparator(ts[0]) then CleanCommands(ts[1..])
     else
       var n := Extent(ts);
       Clean(ts[..n]) && (n == |ts| || CleanCommands(ts[n..])))
  }

  lemma {:induction false} CleanIsCommands(ts: seq<string>)
    requires Clean(ts)
    ensures CleanCommands(ts)
    decreases |ts|
  {
    hide Clean, Extent;
    if ts != [] {
      if T.IsSeparator(ts[0]) {
        CleanSlice(ts, 1, |ts|);
        assert ts[1..] == ts[1..|ts|];
        CleanIsCommands(ts[1..]);
      } else {
        var n := Extent(ts);
        CleanSlice(ts, 0, n);
        CleanSlice(ts, n, |ts|);
        assert ts[n..] == ts[n..|ts|] && ts[..n] == ts[0..n];
        CleanIsCommands(ts[n..]);
      }
    }
  }

  /** Printing and reading the parts again makes no difference. */
  lemma {:induction false} TextReads(x: Lexicon, ts: seq<string>, depth: nat)
    requires CleanCommands(ts) && Lasting(ts) && depth >= |ts|
    ensures TextRead(x, ts, depth) == Read(x, ts)
    decreases |ts|, 3
  {
    hide Clean, Extent, CommandOf, TextCommand, LastingCommand;
    if ts != [] {
      if T.IsSeparator(ts[0]) {
        TextReads(x, ts[1..], depth);
      } else {
        var n := Extent(ts);
        CommandReads(x, ts[..n], depth);
        if n < |ts| {
          TextReads(x, ts[n..], depth);
        }
      }
    }
  }

  /** A part of a command. */
  lemma {:induction false} PartReads(x: Lexicon, part: seq<string>, depth: nat)
    requires Clean(part) && !EndsInBlank(part) && Lasting(part) && depth >= |part|
    ensures TextRead(x, Again(part), depth) == Read(x, part)
    decreases |part|, 4
  {
    hide Clean, Lasting, TextRead, Read, Again, EndsInBlank;
    AgainExactly(part);
    CleanIsCommands(part);
    TextReads(x, part, depth);
  }

  lemma {:induction false} CommandReads(x: Lexicon, ts: seq<string>, depth: nat)
    requires ts != [] && Clean(ts) && LastingCommand(ts) && depth >= |ts|
    ensures TextCommand(x, ts, depth) == CommandOf(x, ts)
    decreases |ts|, 2
  {
    if CutIf(ts).Some? {
      IfReads(x, ts, depth);
    } else if CutLoop(ts).Some? {
      LoopReads(x, ts, depth);
    } else if CutFor(ts).Some? {
      ForReads(x, ts, depth);
    } else if CutGroup(ts).Some? {
      GroupReads(x, ts, depth);
    }
    hide *;
  }

  lemma {:induction false} IfReads(x: Lexicon, ts: seq<string>, depth: nat)
    requires CutIf(ts).Some? && Clean(ts) && LastingCommand(ts) && depth >= |ts|
    ensures TextCommand(x, ts, depth) == CommandOf(x, ts)
    decreases |ts|, 1
  {
    hide Clean, Lasting, TextRead, Read, Again, EndsInBlank, CutClauses, TextIf, IfOf, Below;
    CleanSlice(ts, 1, |ts|);
    assert ts[1..] == ts[1..|ts|];
    ClausesClean(ts[1..]);
    ClausesBelow(ts[1..], |ts|);
    ArmsRead(x, CutIf(ts).value, |ts|, depth);
  }

  lemma {:induction false} GroupReads(x: Lexicon, ts: seq<string>, depth: nat)
    requires CutGroup(ts).Some? && Clean(ts) && LastingCommand(ts) && depth >= |ts|
    requires CutIf(ts).None? && CutLoop(ts).None? && CutFor(ts).None?
    ensures TextCommand(x, ts, depth) == CommandOf(x, ts)
    decreases |ts|, 1
  {
    hide Clean, Lasting, TextRead, Read, Again, EndsInBlank, CutIf, CutLoop, CutFor, Terminator.Find;
    CleanSlice(ts, 1, |ts| - 1);
    PartReads(x, CutGroup(ts).value, depth - 1);
  }

  lemma {:induction false} LoopReads(x: Lexicon, ts: seq<string>, depth: nat)
    requires CutLoop(ts).Some? && Clean(ts) && LastingCommand(ts) && CutIf(ts).None? && depth >= |ts|
    ensures TextCommand(x, ts, depth) == CommandOf(x, ts)
    decreases |ts|, 1
  {
    hide Clean, Lasting, TextRead, Read, Again, EndsInBlank, CutClauses, IndexToken;
    var p := CutLoop(ts).value;
    var d, e := IndexToken(ts, "do"), Terminator.Find(ts, 0);
    CleanSlice(ts, 1, d);
    CleanSlice(ts, d + 1, e);
    PartReads(x, p.cond, depth - 1);
    PartReads(x, p.body, depth - 1);
  }

  lemma {:induction false} ForReads(x: Lexicon, ts: seq<string>, depth: nat)
    requires CutFor(ts).Some? && Clean(ts) && LastingCommand(ts) && CutIf(ts).None? && CutLoop(ts).None? && depth >= |ts|
    ensures TextCommand(x, ts, depth) == CommandOf(x, ts)
    decreases |ts|, 1
  {
    hide Clean, Lasting, TextRead, Read, Again, EndsInBlank, CutClauses, IndexToken, ForDo;
    var body := CutFor(ts).value.body;
    ForBody(ts);
    PartReads(x, body, depth - 1);
  }

  lemma ForBody(ts: seq<string>)
    requires CutFor(ts).Some? && Clean(ts)
    ensures Clean(CutFor(ts).value.body) && |CutFor(ts).value.body| < |ts|
  {
    hide Clean, IndexToken, ForDo, WithoutSeparators;
    var i, d, e := IndexToken(ts, "in"), IndexToken(ts, "do"), Terminator.Find(ts, 0);
    if i == -1 {
      CleanSlice(ts, d + 1, e);
    } else {
      CleanSlice(ts, ForDo(ts, i + 2) + 1, e);
    }
  }

  predicate LastingArms(p: IfParts) {
    && !EndsInBlank(p.no) && Lasting(p.no)
    && forall a :: a in p.arms ==> !EndsInBlank(a.cond) && !EndsInBlank(a.body) && Lasting(a.cond) && Lasting(a.body)
  }

  lemma {:induction false} ArmsRead(x: Lexicon, p: IfParts, n: nat, depth: nat)
    requires p.arms != [] && Below(p, n) && CleanParts(p) && LastingArms(p) && depth >= n > 0
    ensures TextIf(x, p, depth) == IfOf(x, p, n)
    decreases n, 0, |p.arms|
  {
    hide Clean, Lasting, TextRead, Read, Again, EndsInBlank;
    var arm := p.arms[0];
    assert arm in p.arms;
    ArmIsRead(x, p, n);
    PartReads(x, arm.cond, depth - 1);
    PartReads(x, arm.body, depth - 1);
    if |p.arms| == 1 {
      PartReads(x, p.no, depth - 1);
    } else {
      ArmsRead(x, IfParts(p.arms[1..], p.no), n, depth);
    }
  }

  /**
   * A script that is read as a program whose compounds are cut right, whose commands are in separator-normal
   * form and whose parts do not end in escaped blanks: run with every part printed and read again, it ends
   * as the structured reading of the program says.
   */
  lemma ProgramsRunFromText(
    w: L.World, sub: bool, x: Lexicon, script: string, b: Block, env: L.Env, last: int, fuel: nat, depth: nat)
    requires T.Tokenize(script) == BlockTokens(b) && CutRight(b) && SoundAll(Tree(x, b))
    requires CleanCommands(T.Tokenize(script)) && Lasting(T.Tokenize(script)) && depth >= |T.Tokenize(script)|
    ensures var m := L.Machine(env, last, 0, 0, 0, false, 0, false, 0);
            var r, y := L.RunScript(w, sub, TextRead(x, T.Tokenize(script), depth), m, fuel),
                        ScriptMeaning(w, sub, Tree(x, b), 0, env, last, 0, fuel);
            && (r.Some? <==> y.Some?)
            && (r.Some? ==> r.value.m.env == y.value.env && r.value.m.last == y.value.last
                            && r.value.status == FinalStatus(y.value)
                            && (r.value.m.exiting <==> y.value.flow.Exiting?)
                            && (r.value.m.returning <==> y.value.flow.Returning?))
  {
    hide CutRight, TextRead, Read, CleanCommands, Lasting, T.Tokenize, L.RunScript, ScriptMeaning;
    TextReads(x, BlockTokens(b), depth);
    ProgramsRunAsWritten(w, sub, x, b, env, last, fuel);
  }
}
