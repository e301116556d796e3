// The runner as it stands: an object whose fields the loops and builtins update step by step. It holds a
// script as tokens, and cuts every command anew when it comes to it.
module LoopRunner {
  import opened Options
  import opened Clauses
  import opened Reading
  import L = Loops
  import T = Tokens
  import Terminator

  /** A method that ended in the step asked for, up to what the caller overwrites or ignores: the last
      status, and the status of a command that returns from the function. */
  ghost predicate Ends(status: int, exit: bool, m: L.Machine, r: L.Outcome) {
    && r.Some? && exit == r.value.exit
    && m.(last := r.value.m.last) == r.value.m
    && (m.returning || m.exiting ==> m == r.value.m)
    && (m.returning || status == r.value.status)
  }

  /** A later step that ends as an earlier one was to. */
  ghost predicate Continues(late: L.Outcome, early: L.Outcome) {
    late.Some? && Ends(late.value.status, late.value.exit, late.value.m, early)
  }

  lemma EndsLater(status: int, exit: bool, m: L.Machine, late: L.Outcome, early: L.Outcome)
    requires Ends(status, exit, m, late) && Continues(late, early)
    ensures Ends(status, exit, m, early)
  {
  }

  /** The `else` part of an `if`. */
  ghost function Otherwise(w: L.World, sub: bool, no: seq<L.Command>, m: L.Machine, fuel: nat): L.Outcome {
    match L.RunScript(w, sub, no, m, fuel)
    case None => None
    case Some(s) => Some(L.Step(if s.m.exiting then s.m.exitCode else s.status, false, s.m))
  }

  /** What is left of an `if` when the first of `arms` comes next. */
  ghost function Arms(w: L.World, sub: bool, x: Lexicon, p: IfParts, n: nat, m: L.Machine, fuel: nat): L.Outcome
    requires Below(p, n)
  {
    if p.arms == [] then Otherwise(w, sub, Read(x, p.no), m, fuel) else L.RunCommand(w, sub, IfOf(x, p, n), m, fuel)
  }

  /** An `if` whose condition failed goes on with what is in its `else` part. */
  lemma FailedCondition(w: L.World, sub: bool, c: L.Command, m: L.Machine, fuel: nat)
    requires c.If? && L.RunScript(w, sub, c.cond, m, fuel).Some?
    requires var r := L.RunScript(w, sub, c.cond, m, fuel).value; !r.m.exiting && r.status != 0
    ensures var r := L.RunScript(w, sub, c.cond, m, fuel).value;
            L.RunCommand(w, sub, c, m, fuel) == Otherwise(w, sub, c.no, r.m, fuel)
  {
    hide L.RunScript;
  }

  lemma HeldCondition(w: L.World, sub: bool, c: L.Command, m: L.Machine, fuel: nat)
    requires c.If? && L.RunScript(w, sub, c.cond, m, fuel).Some?
    requires var r := L.RunScript(w, sub, c.cond, m, fuel).value; !r.m.exiting && r.status == 0
    ensures var r := L.RunScript(w, sub, c.cond, m, fuel).value;
            L.RunCommand(w, sub, c, m, fuel) == Otherwise(w, sub, c.yes, r.m, fuel)
  {
    hide L.RunScript;
  }

  lemma ExitingCondition(w: L.World, sub: bool, c: L.Command, m: L.Machine, fuel: nat)
    requires c.If? && L.RunScript(w, sub, c.cond, m, fuel).Some?
    requires L.RunScript(w, sub, c.cond, m, fuel).value.m.exiting
    ensures var r := L.RunScript(w, sub, c.cond, m, fuel).value;
            L.RunCommand(w, sub, c, m, fuel) == Some(L.Step(r.m.exitCode, false, r.m))
  {
    hide L.RunScript;
  }

  lemma ConditionEnds(w: L.World, sub: bool, c: L.Command, m: L.Machine, fuel: nat)
    requires c.If? && L.RunCommand(w, sub, c, m, fuel).Some?
    ensures L.RunScript(w, sub, c.cond, m, fuel).Some?
  {
    hide L.RunScript;
  }

  lemma ReturningScript(w: L.World, sub: bool, cs: seq<L.Command>, m: L.Machine, fuel: nat)
    requires m.returning && !m.exiting && m.exitCode == 0
    ensures L.RunScript(w, sub, cs, m, fuel) == Some(L.Step(if cs == [] then 0 else m.returnCode, false, m))
  {
    assert m.(exiting := false, exitCode := 0) == m;
  }

  /** While the function is being returned from, an `if` does nothing. */
  lemma ReturningIf(w: L.World, sub: bool, c: L.Command, m: L.Machine, fuel: nat)
    requires c.If? && m.returning && !m.exiting && m.exitCode == 0
    ensures var r := L.RunCommand(w, sub, c, m, fuel); r.Some? && !r.value.exit && r.value.m == m
  {
    ReturningScript(w, sub, c.cond, m, fuel);
    ReturningScript(w, sub, c.yes, m, fuel);
    ReturningScript(w, sub, c.no, m, fuel);
  }

  lemma IfDoesNotExit(w: L.World, sub: bool, c: L.Command, m: L.Machine, fuel: nat)
    requires c.If? && L.RunCommand(w, sub, c, m, fuel).Some?
    ensures var r := L.RunCommand(w, sub, c, m, fuel).value; !r.exit && (r.m.exiting ==> r.status == r.m.exitCode)
  {
    hide L.RunScript;
  }

  /** An `elif` may as well be run at once as in the `else` part of the `if` before it. */
  lemma ElifContinues(w: L.World, sub: bool, c: L.Command, m: L.Machine, fuel: nat)
    requires c.If? && !m.exiting && m.exitCode == 0 && Otherwise(w, sub, [c], m, fuel).Some?
    ensures Continues(L.RunCommand(w, sub, c, m, fuel), Otherwise(w, sub, [c], m, fuel))
  {
    if m.returning {
      ReturningIf(w, sub, c, m, fuel);
      ReturningScript(w, sub, [c], m, fuel);
    } else {
      OneCommand(w, sub, c, m, fuel);
      hide L.RunCommand, L.RunScript;
      if L.RunCommand(w, sub, c, m, fuel).Some? {
        IfDoesNotExit(w, sub, c, m, fuel);
      }
    }
  }

  lemma OneCommand(w: L.World, sub: bool, c: L.Command, m: L.Machine, fuel: nat)
    requires c.If? && !m.exiting && m.exitCode == 0 && !m.returning
    ensures L.RunScript(w, sub, [c], m, fuel) ==
              match L.RunCommand(w, sub, c, m, fuel)
              case None => None
              case Some(r) =>
                if r.m.returning then Some(L.Step(r.m.returnCode, false, r.m))
                else if r.m.exiting then Some(L.Step(r.m.exitCode, false, r.m))
                else Some(L.Step(r.status, false, r.m.(last := r.status)))
  {
    assert m.(exiting := false, exitCode := 0) == m;
    assert [c][1..] == [];
    assert L.RunScript(w, sub, [c], m, fuel) == L.RunCommands(w, sub, [c], m, 0, fuel);
    if L.RunCommand(w, sub, c, m, fuel).Some? {
      IfDoesNotExit(w, sub, c, m, fuel);
    }
  }

  lemma AllArms(w: L.World, sub: bool, x: Lexicon, p: IfParts, n: nat, m: L.Machine, fuel: nat)
    requires p.arms != [] && Below(p, n) && L.RunCommand(w, sub, IfOf(x, p, n), m, fuel).Some?
    ensures Continues(Arms(w, sub, x, p, n, m, fuel), L.RunCommand(w, sub, IfOf(x, p, n), m, fuel))
  {
    hide L.RunCommand, IfOf;
  }

  /** The first arm: its condition ends; then the `if` exits, runs the body, or goes on to the other arms. */
  lemma ArmRuns(w: L.World, sub: bool, x: Lexicon, p: IfParts, n: nat, m: L.Machine, fuel: nat, whole: L.Outcome)
    requires p.arms != [] && Below(p, n) && Continues(Arms(w, sub, x, p, n, m, fuel), whole)
    ensures Below(IfParts(p.arms[1..], p.no), n) && |p.arms[0].cond| < n && |p.arms[0].body| < n && |p.no| < n
    ensures var cond := L.RunScript(w, sub, Read(x, p.arms[0].cond), m, fuel);
            && cond.Some?
            && var r := cond.value;
               if r.m.exiting then Ends(r.m.exitCode, false, r.m, whole)
               else if r.status == 0 then Continues(Otherwise(w, sub, Read(x, p.arms[0].body), r.m, fuel), whole)
               else Continues(Arms(w, sub, x, IfParts(p.arms[1..], p.no), n, r.m, fuel), whole)
  {
    ArmIsRead(x, p, n);
    var c, rest := IfOf(x, p, n), IfParts(p.arms[1..], p.no);
    assert p.arms[0] in p.arms;
    ConditionEnds(w, sub, c, m, fuel);
    var r := L.RunScript(w, sub, c.cond, m, fuel).value;
    hide L.RunScript, L.RunCommand, IfOf, Read, Otherwise;
    if r.m.exiting {
      ExitingCondition(w, sub, c, m, fuel);
    } else if r.status == 0 {
      HeldCondition(w, sub, c, m, fuel);
    } else {
      FailedCondition(w, sub, c, m, fuel);
      if rest.arms != [] {
        var next := IfOf(x, rest, n);
        ElifContinues(w, sub, next, r.m, fuel);
        var late := L.RunCommand(w, sub, next, r.m, fuel).value;
        EndsLater(late.status, late.exit, late.m, Otherwise(w, sub, [next], r.m, fuel), whole);
      }
    }
  }

  /** No arm is left. */
  lemma NoArms(w: L.World, sub: bool, x: Lexicon, p: IfParts, n: nat, m: L.Machine, fuel: nat)
    requires p.arms == [] && Below(p, n) && Arms(w, sub, x, p, n, m, fuel).Some?
    ensures Arms(w, sub, x, p, n, m, fuel) == Otherwise(w, sub, Read(x, p.no), m, fuel)
    ensures |p.no| < n && L.RunScript(w, sub, Read(x, p.no), m, fuel).Some?
    ensures p.no == [] && !m.exiting && m.exitCode == 0 ==> Arms(w, sub, x, p, n, m, fuel) == Some(L.Step(0, false, m))
  {
    assert m.(exiting := m.exiting, exitCode := m.exitCode) == m;
  }

  lemma NoMoreWords(w: L.World, sub: bool, c: L.Command, m: L.Machine, status: int, fuel: nat)
    requires c.For?
    ensures L.RunFor(w, sub, c, [], m, status, fuel) == Some(L.Step(status, false, m))
  {
  }

  class Runner {
    const world: L.World
    const lexicon: Lexicon
    const inSubshell: bool
    var env: L.Env
    var lastStatus: int
    var loopDepth: nat
    var breakCount: nat
    var continueCount: nat
    var returnFlag: bool
    var returnCode: int
    var exitFlag: bool
    var exitCode: int

    constructor (world: L.World, lexicon: Lexicon, inSubshell: bool, env: L.Env)
      ensures this.world == world && this.lexicon == lexicon && this.inSubshell == inSubshell
      ensures Snapshot() == L.Machine(env, 0, 0, 0, 0, false, 0, false, 0)
    {
      this.world, this.lexicon, this.inSubshell, this.env := world, lexicon, inSubshell, env;
      lastStatus, loopDepth, breakCount, continueCount := 0, 0, 0, 0;
      returnFlag, returnCode, exitFlag, exitCode := false, 0, false, 0;
    }

    function Snapshot(): L.Machine
      reads this
    {
      L.Machine(env, lastStatus, loopDepth, breakCount, continueCount, returnFlag, returnCode, exitFlag, exitCode)
    }

    /** Runs a script that ends: `fuel` is any number of loop rounds that suffices. */
    method RunScript(ts: seq<string>, ghost fuel: nat) returns (status: int)
      requires L.RunScript(world, inSubshell, Read(lexicon, ts), Snapshot(), fuel).Some?
      modifies this
      ensures Some(L.Step(status, false, Snapshot())) == L.RunScript(world, inSubshell, Read(lexicon, ts), old(Snapshot()), fuel)
      decreases fuel, |ts|, 4
    {
      hide L.RunCommand, Read, CommandOf, Extent;
      exitFlag, exitCode := false, 0;
      ghost var whole := L.RunCommands(world, inSubshell, Read(lexicon, ts), Snapshot(), 0, fuel);
      status := 0;
      var i := 0;
      while i < |ts|
        invariant 0 <= i <= |ts|
        invariant whole.Some? && whole == L.RunCommands(world, inSubshell, Read(lexicon, ts[i..]), Snapshot(), status, fuel)
      {
        if T.IsSeparator(ts[i]) {
          ReadPastSeparator(lexicon, ts, i);
          i := i + 1;
          continue;
        }
        ReadAt(lexicon, ts, i);
        if returnFlag {
          return returnCode;
        }
        if exitFlag {
          return exitCode;
        }
        var n := FirstCommand(ts[i..]);
        var code, exit := RunCommand(ts[i..i + n], fuel);
        if returnFlag {
          return returnCode;
        }
        if exitFlag {
          return exitCode;
        }
        lastStatus := code;
        if breakCount > 0 || continueCount > 0 {
          return lastStatus;
        }
        if exit {
          exitFlag, exitCode := true, code;
          return code;
        }
        status := code;
        i := i + n;
      }
      ReadAtEnd(lexicon, ts[i..]);
    }

    /** One command: the cuts are tried one after the other. */
    method RunCommand(ts: seq<string>, ghost fuel: nat) returns (status: int, exit: bool)
      requires ts != [] && L.RunCommand(world, inSubshell, CommandOf(lexicon, ts), Snapshot(), fuel).Some?
      modifies this
      ensures Ends(status, exit, Snapshot(), L.RunCommand(world, inSubshell, CommandOf(lexicon, ts), old(Snapshot()), fuel))
      decreases fuel, |ts|, 3
    {
      var parts := FindClauses(ts);
      if parts.Some? {
        ClausesBelow(ts[1..], |ts|);
        status := RunIf(parts.value, |ts|, fuel);
        return status, false;
      }
      var loop := FindLoopParts(ts);
      if loop.Some? {
        status := RunWhile(ts[0] == "until", loop.value.cond, loop.value.body, |ts|, fuel);
        return status, false;
      }
      var each := FindForParts(ts);
      if each.Some? {
        var list := match each.value case InLoop(_, words, _) => lexicon.list(words) case ArgsLoop(_, _) => lexicon.args;
        status := RunFor(each.value.name, list, each.value.body, |ts|, fuel);
        return status, false;
      }
      var group := FindGroup(ts);
      if group.Some? {
        status := RunScript(group.value, fuel);
        if exitFlag {
          return exitCode, true;
        }
        return status, false;
      }
      status, exit := RunPlain(lexicon.plain(ts), fuel);
    }

    method RunPlain(c: Plain, ghost fuel: nat) returns (status: int, exit: bool)
      modifies this
      ensures Some(L.Step(status, exit, Snapshot())) == L.RunCommand(world, inSubshell, c, old(Snapshot()), fuel)
    {
      exit := false;
      match c {
        case Simple(id) =>
          var (code, after) := world.run(id, lastStatus, env);
          env := after;
          status := code;
        case Break(n) =>
          if n <= 0 {
            return 1, false;
          }
          if loopDepth == 0 {
            if inSubshell {
              exitFlag, exitCode := true, 0;
              return 0, true;
            }
            return 1, false;
          }
          breakCount := if n > loopDepth then loopDepth else n;
          continueCount := 0;
          status := 0;
        case Continue(n) =>
          if n <= 0 {
            return 1, false;
          }
          if loopDepth == 0 {
            return 1, false;
          }
          continueCount := if n > loopDepth then loopDepth else n;
          breakCount := 0;
          status := 0;
        case Exit(code) =>
          status := if code.Some? then code.value else lastStatus;
          exitFlag, exitCode := true, status;
          exit := true;
        case Return(code) =>
          status := if code.Some? then code.value else lastStatus;
          returnFlag, returnCode := true, status;
          exit := true;
      }
    }

    /** The arms of an `if` in order, then its `else` part. */
    method RunIf(p: IfParts, ghost n: nat, ghost fuel: nat) returns (status: int)
      requires p.arms != [] && Below(p, n) && L.RunCommand(world, inSubshell, IfOf(lexicon, p, n), Snapshot(), fuel).Some?
      modifies this
      ensures Ends(status, false, Snapshot(), L.RunCommand(world, inSubshell, IfOf(lexicon, p, n), old(Snapshot()), fuel))
      decreases fuel, n, 2
    {
      hide L.RunScript, L.RunCommand, Arms, IfOf, Read, Below;
      ghost var whole := L.RunCommand(world, inSubshell, IfOf(lexicon, p, n), Snapshot(), fuel);
      assert IfParts(p.arms[0..], p.no) == p;
      AllArms(world, inSubshell, lexicon, p, n, Snapshot(), fuel);
      var k := 0;
      while k < |p.arms|
        invariant 0 <= k <= |p.arms| && Below(IfParts(p.arms[k..], p.no), n)
        invariant k > 0 ==> !exitFlag && exitCode == 0
        invariant Continues(Arms(world, inSubshell, lexicon, IfParts(p.arms[k..], p.no), n, Snapshot(), fuel), whole)
      {
        ghost var rest := IfParts(p.arms[k..], p.no);
        assert rest.arms[0] == p.arms[k] && rest.arms[1..] == p.arms[k + 1..];
        ArmRuns(world, inSubshell, lexicon, rest, n, Snapshot(), fuel, whole);
        var code := RunScript(p.arms[k].cond, fuel);
        if exitFlag {
          return exitCode;
        }
        if code == 0 {
          status := RunScript(p.arms[k].body, fuel);
          if exitFlag {
            return exitCode;
          }
          return status;
        }
        k := k + 1;
      }
      NoArms(world, inSubshell, lexicon, IfParts(p.arms[k..], p.no), n, Snapshot(), fuel);
      if p.no == [] {
        return 0;
      }
      status := RunScript(p.no, fuel);
      if exitFlag {
        return exitCode;
      }
    }

    /** After a condition or a body: whether the loop is left, or its next round starts. */
    method AfterPart() returns (leave: bool, again: bool)
      modifies this
      ensures match L.AfterPart(old(Snapshot()))
              case Leave(m) => leave && Snapshot() == m
              case Again(m) => !leave && again && Snapshot() == m
              case GoOn => !leave && !again && Snapshot() == old(Snapshot())
    {
      leave, again := false, false;
      if breakCount > 0 {
        breakCount := breakCount - 1;
        leave := true;
      } else if continueCount > 0 {
        continueCount := continueCount - 1;
        if continueCount == 0 {
          again := true;
        } else {
          leave := true;
        }
      }
    }

    method RunWhile(until: bool, cond: seq<string>, body: seq<string>, ghost n: nat, ghost fuel: nat) returns (status: int)
      requires |cond| < n && |body| < n
      requires L.RunCommand(world, inSubshell, L.While(until, Read(lexicon, cond), Read(lexicon, body)), Snapshot(), fuel).Some?
      modifies this
      ensures Some(L.Step(status, false, Snapshot()))
           == L.RunCommand(world, inSubshell, L.While(until, Read(lexicon, cond), Read(lexicon, body)), old(Snapshot()), fuel)
      decreases fuel, n, 2
    {
      hide L.RunLoop, Read;
      status := 0;
      loopDepth := loopDepth + 1;
      ghost var c := L.While(until, Read(lexicon, cond), Read(lexicon, body));
      ghost var whole := L.RunLoop(world, inSubshell, c, Snapshot(), 0, fuel);
      ghost var left: nat := fuel;
      var over := false;
      while !over
        invariant left <= fuel && whole.Some?
        invariant whole == if over then Some(L.Step(status, false, Snapshot()))
                           else L.RunLoop(world, inSubshell, c, Snapshot(), status, left)
        decreases !over, left
      {
        over, status := RunRound(until, cond, body, status, n, left);
        left := if over then left else left - 1;
      }
      loopDepth := loopDepth - 1;
    }

    /** One round of a loop, if there is one. */
    method RunRound(until: bool, cond: seq<string>, body: seq<string>, status: int, ghost n: nat, ghost left: nat)
      returns (over: bool, now: int)
      requires |cond| < n && |body| < n
      requires L.RunLoop(world, inSubshell, L.While(until, Read(lexicon, cond), Read(lexicon, body)), Snapshot(), status, left).Some?
      modifies this
      ensures var c := L.While(until, Read(lexicon, cond), Read(lexicon, body));
              var whole := L.RunLoop(world, inSubshell, c, old(Snapshot()), status, left);
              && left > 0
              && whole == if over then Some(L.Step(now, false, Snapshot()))
                          else L.RunLoop(world, inSubshell, c, Snapshot(), now, left - 1)
      decreases left, n, 1
    {
      hide L.RunScript, L.RunBody, Read;
      if returnFlag {
        return true, returnCode;
      }
      if exitFlag {
        return true, exitCode;
      }
      var condStatus := RunScript(cond, left);
      if returnFlag {
        return true, returnCode;
      }
      if exitFlag {
        return true, exitCode;
      }
      var leave, again := AfterPart();
      if leave || again {
        return leave, status;
      }
      if (condStatus == 0) == until {
        return true, status;
      }
      over, now := RunBody(until, cond, body, n, left);
    }

    method RunBody(until: bool, cond: seq<string>, body: seq<string>, ghost n: nat, ghost left: nat) returns (over: bool, now: int)
      requires |body| < n && left > 0
      requires L.RunBody(world, inSubshell, L.While(until, Read(lexicon, cond), Read(lexicon, body)), Snapshot(), left).Some?
      modifies this
      ensures var c := L.While(until, Read(lexicon, cond), Read(lexicon, body));
              L.RunBody(world, inSubshell, c, old(Snapshot()), left) ==
                if over then Some(L.Step(now, false, Snapshot()))
                else L.RunLoop(world, inSubshell, c, Snapshot(), now, left - 1)
      decreases left, n, 0
    {
      hide L.RunScript, L.RunLoop, Read;
      now := RunScript(body, left);
      if returnFlag {
        return true, returnCode;
      }
      if exitFlag {
        return true, exitCode;
      }
      var leave, _ := AfterPart();
      over := leave;
    }

    method RunFor(name: string, list: nat, body: seq<string>, ghost n: nat, ghost fuel: nat) returns (status: int)
      requires |body| < n && L.RunCommand(world, inSubshell, L.For(name, list, Read(lexicon, body)), Snapshot(), fuel).Some?
      modifies this
      ensures Some(L.Step(status, false, Snapshot()))
           == L.RunCommand(world, inSubshell, L.For(name, list, Read(lexicon, body)), old(Snapshot()), fuel)
      decreases fuel, n, 2
    {
      hide L.RunFor, Read;
      var words := world.words(list, env);
      status := 0;
      loopDepth := loopDepth + 1;
      ghost var c := L.For(name, list, Read(lexicon, body));
      ghost var whole := L.RunFor(world, inSubshell, c, words, Snapshot(), 0, fuel);
      var i, over := 0, false;
      while i < |words| && !over
        invariant 0 <= i <= |words| && whole.Some?
        invariant whole == if over then Some(L.Step(status, false, Snapshot()))
                           else L.RunFor(world, inSubshell, c, words[i..], Snapshot(), status, fuel)
      {
        assert words[i..][0] == words[i] && words[i..][1..] == words[i + 1..];
        over, status := RunTurn(name, list, words[i], body, words[i..], status, n, fuel);
        i := i + 1;
      }
      if !over {
        assert words[i..] == [];
        NoMoreWords(world, inSubshell, c, Snapshot(), status, fuel);
      }
      loopDepth := loopDepth - 1;
    }

    /** The turn of one word. */
    method RunTurn(name: string, list: nat, word: string, body: seq<string>, ghost words: seq<string>, ghost status: int,
                   ghost n: nat, ghost fuel: nat)
      returns (over: bool, now: int)
      requires |body| < n && words != [] && words[0] == word
      requires L.RunFor(world, inSubshell, L.For(name, list, Read(lexicon, body)), words, Snapshot(), status, fuel).Some?
      modifies this
      ensures var c := L.For(name, list, Read(lexicon, body));
              L.RunFor(world, inSubshell, c, words, old(Snapshot()), status, fuel) ==
                if over then Some(L.Step(now, false, Snapshot()))
                else L.RunFor(world, inSubshell, c, words[1..], Snapshot(), now, fuel)
      decreases fuel, n, 1
    {
      hide L.RunScript, Read;
      env := env[name := word];
      now := RunScript(body, fuel);
      if returnFlag {
        return true, returnCode;
      }
      if exitFlag {
        return true, exitCode;
      }
      var leave, _ := AfterPart();
      over := leave;
    }
  }

  lemma ReadPastSeparator(x: Lexicon, ts: seq<string>, i: nat)
    requires i < |ts| && T.IsSeparator(ts[i])
    ensures Read(x, ts[i..]) == Read(x, ts[i + 1..])
  {
    assert ts[i..][0] == ts[i] && ts[i..][1..] == ts[i + 1..];
  }

  lemma ReadAtEnd(x: Lexicon, ts: seq<string>)
    requires |ts| == 0
    ensures Read(x, ts) == []
  {
  }

  /** The next command, and the rest of the script. */
  lemma ReadAt(x: Lexicon, ts: seq<string>, i: nat)
    requires i < |ts| && !T.IsSeparator(ts[i])
    ensures var n, cs := Extent(ts[i..]), Read(x, ts[i..]);
            && i + n <= |ts| && cs != [] && cs[0] == CommandOf(x, ts[i..i + n]) && cs[1..] == Read(x, ts[i + n..])
  {
    hide CommandOf, Extent;
    var u := ts[i..];
    var n := Extent(u);
    assert u[0] == ts[i] && u[..n] == ts[i..i + n] && u[n..] == ts[i + n..];
    assert n == |u| ==> Read(x, u[n..]) == [];
  }

  /** The runner's loop that joins pieces until the compound is complete. */
  method FirstCommand(ts: seq<string>) returns (n: nat)
    requires ts != [] && !T.IsSeparator(ts[0])
    ensures n == Extent(ts)
  {
    n := EndOfPiece(ts, 1);
    if Terminator.Closer(ts[0]) != "" {
      ghost var whole := Complete(ts, n);
      while n < |ts|
        invariant n <= |ts| && Complete(ts, n) == whole
      {
        var found := Terminator.FindMatchingTerminator(ts[..n], 0);
        if found != -1 {
          break;
        }
        n := EndOfPiece(ts, n + 1);
      }
    }
  }

  method EndOfPiece(ts: seq<string>, from: nat) returns (n: nat)
    requires from <= |ts|
    ensures n == PieceEnd(ts, from)
  {
    n := from;
    while n < |ts| && !T.IsSeparator(ts[n])
      invariant n <= |ts| && PieceEnd(ts, n) == PieceEnd(ts, from)
    {
      n := n + 1;
    }
  }
}
