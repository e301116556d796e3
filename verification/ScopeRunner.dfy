// The runner's tables are objects that its fields refer to. A subshell gives the fields fresh copies
// and puts the old references back afterwards; read-only names and the frames stay shared.
module ScopeRunner {
  import opened Options
  import opened Scope
  import opened ScopeFrames

  lemma AssignRuns(w: World, name: string, value: string, st: State, fuel: nat)
    ensures RunCommand(w, Assign(name, value), st, fuel)
         == if name in st.rest.readonly then Some(Done(2, true, st.(rest := AssignFails(st.rest))))
            else Some(Done(0, false, st.(vars := st.vars[name := value])))
  {
  }

  lemma FixedRuns(w: World, c: Command, st: State, fuel: nat)
    requires c.Define? || c.Trap? || c.Untrap? || c.Return? || c.Exit?
    ensures RunCommand(w, c, st, fuel)
         == Some(Done(Fixed(c, st.rest).0, Fixed(c, st.rest).1, st.(rest := Fixed(c, st.rest).2)))
  {
  }

  lemma LocalRuns(w: World, items: seq<Declaration>, st: State, fuel: nat)
    ensures RunCommand(w, Local(items), st, fuel)
         == if st.locals == [] then Some(Done(2, false, st))
            else
              var (vars, frame) := DeclareAll(st.vars, Top(st.locals), items);
              Some(Done(0, false, st.(vars := vars, locals := Below(st.locals) + [frame])))
  {
  }

  lemma OtherRuns(w: World, id: nat, st: State, fuel: nat)
    ensures var (settings, status) := w.act(id, st.vars, st.rest.settings);
            RunCommand(w, Other(id), st, fuel) == Some(Done(status, false, st.(rest := st.rest.(settings := settings))))
  {
  }

  /** What follows a command; `exit` says that the list ends with it. */
  function AfterCommand(d: Done<State>): Done<State> {
    if MustStop(d.st.rest) then Done(StopStatus(d.st.rest), true, d.st)
    else
      var after := d.st.(rest := d.st.rest.(lastStatus := d.status));
      if Interrupted(after.rest) then Done(d.status, true, after)
      else if d.exit then Done(d.status, true, after.(rest := after.rest.(exitFlag := true, exitCode := d.status)))
      else Done(d.status, false, after)
  }

  /** One command of a list. */
  function NextCommand(w: World, c: Command, st: State, fuel: nat): Option<Done<State>> {
    if MustStop(st.rest) then Some(Done(StopStatus(st.rest), true, st))
    else
      match RunCommand(w, c, st, fuel)
      case None => None
      case Some(d) => Some(AfterCommand(d))
  }

  lemma CommandsStep(w: World, cs: Script, st: State, status: int, fuel: nat)
    requires cs != []
    ensures RunCommands(w, cs, st, status, fuel)
         == match NextCommand(w, cs[0], st, fuel)
            case None => None
            case Some(d) =>
              if d.exit then Some(d.(exit := false)) else RunCommands(w, cs[1..], d.st, d.status, fuel)
  {
  }

  lemma CallRuns(w: World, name: string, args: seq<string>, st: State, fuel: nat)
    requires name in st.rest.funcs && RunCommand(w, Invoke(name, args), st, fuel).Some?
    ensures fuel > 0
    ensures var inside := State(st.vars, st.locals + [map[]], EnterCall(st.rest, args));
            var run := RunScript(w, st.rest.funcs[name], inside, fuel - 1);
            && run.Some? && run.value.st.locals != []
            && RunCommand(w, Invoke(name, args), st, fuel)
               == (var d := run.value;
                   Some(Done(CallStatus(d.status, d.st.rest), false,
                     State(Overlay(d.st.vars, Top(d.st.locals)), Below(d.st.locals), LeaveCall(st.rest, d.st.rest)))))
  {
  }

  lemma SubshellRuns(w: World, body: Script, st: State, fuel: nat)
    requires RunCommand(w, Subshell(body), st, fuel).Some?
    ensures var run := RunScript(w, body, st.(rest := EnterSubshell(st.rest)), fuel);
            && run.Some? && RunExitTrap(w, run.value, fuel).Some?
            && RunCommand(w, Subshell(body), st, fuel)
               == (var e := RunExitTrap(w, run.value, fuel).value;
                   Some(Done(e.status, false, State(st.vars, e.st.locals, LeaveSubshell(st.rest, e.st.rest)))))
  {
  }

  lemma SpawnRuns(w: World, name: string, args: seq<string>, st: State, fuel: nat)
    requires name !in st.rest.funcs
    ensures RunCommand(w, Invoke(name, args), st, fuel) == Some(Done(w.spawn(name, args, st.vars), false, st))
  {
  }

  lemma FuelDoesNotMatter(w: World, c: Command, st: State, fuel: nat)
    requires !c.Invoke? && !c.Subshell?
    ensures RunCommand(w, c, st, fuel) == RunCommand(w, c, st, 0)
  {
  }

  lemma ExitIsHandled(w: World, cs: Script, st: State, fuel: nat)
    ensures RunScript(w, cs, st, fuel)
         == RunCommands(w, cs, st.(rest := st.rest.(exitFlag := false, exitCode := 0)), 0, fuel)
  {
  }

  lemma OverlayIs(vars: map<string, string>, frame: Frame, result: map<string, string>)
    requires forall x :: Binding(result, x) == if x in frame then frame[x] else Binding(vars, x)
    ensures result == Overlay(vars, frame)
  {
    var other := Overlay(vars, frame);
    forall x ensures (x in result <==> x in other) && (x in result ==> result[x] == other[x]) {
      assert Binding(result, x) == if x in frame then frame[x] else Binding(vars, x);
    }
  }

  lemma FramesStay(w: World, cs: Script, st: State, fuel: nat)
    requires RunScript(w, cs, st, fuel).Some?
    ensures |RunScript(w, cs, st, fuel).value.st.locals| == |st.locals|
  {
    ScriptKeepsFrames(w, cs, st, fuel);
  }

  lemma NothingLeft(w: World, st: State, status: int, fuel: nat)
    ensures RunCommands(w, [], st, status, fuel) == Some(Done(status, false, st))
  {
  }

  class Table<T> {
    var contents: T

    constructor (contents: T)
      ensures this.contents == contents
    {
      this.contents := contents;
    }
  }

  ghost function Contents(stack: seq<Table<Frame>>): (frames: seq<Frame>)
    reads stack
    ensures |frames| == |stack| && forall k :: 0 <= k < |stack| ==> frames[k] == stack[k].contents
  {
    seq(|stack|, k requires 0 <= k < |stack| reads stack => stack[k].contents)
  }

  ghost predicate Distinct(stack: seq<Table<Frame>>) {
    forall i, j :: 0 <= i < j < |stack| ==> stack[i] != stack[j]
  }

  class Runner {
    const world: World
    ghost var Repr: set<object>
    var vars: Table<map<string, string>>
    var readonly: Table<set<string>>
    var funcs: Table<map<string, Script>>
    var traps: Table<map<string, Script>>
    var settings: Table<Settings>
    var localStack: seq<Table<Frame>>
    var lastStatus: int
    var returnFlag: bool
    var returnCode: int
    var exitFlag: bool
    var exitCode: int
    var inTrap: bool
    var trapStatus: int

    constructor (world: World, initial: map<string, string>)
      ensures this.world == world && Valid() && fresh(Repr)
      ensures Snapshot().vars == initial && Snapshot().locals == []
      ensures Snapshot().rest.readonly == {} && Snapshot().rest.funcs == map[] && Snapshot().rest.traps == map[]
    {
      this.world := world;
      vars := new Table(initial);
      readonly := new Table({});
      funcs := new Table(map[]);
      traps := new Table(map[]);
      settings := new Table(Settings(map[], map[], map[], [], map[], Counters([], 1, 0, 0, 0, 0, 0)));
      localStack := [];
      Repr := {this, vars, readonly, funcs, traps, settings};
      lastStatus := 0;
      returnFlag, returnCode, exitFlag, exitCode, inTrap, trapStatus := false, 0, false, 0, false, 0;
    }

    /** All tables in use, and perhaps some that no field refers to any more; no two fields share one. */
    ghost predicate Valid()
      reads this
    {
      && this in Repr && vars in Repr && readonly in Repr && funcs in Repr && traps in Repr && settings in Repr
      && (forall k :: 0 <= k < |localStack| ==> localStack[k] in Repr)
      && funcs != traps && Distinct(localStack)
    }

    ghost function Snapshot(): State
      reads this, vars, readonly, funcs, traps, settings, localStack
    {
      State(vars.contents, Contents(localStack),
            Rest(readonly.contents, funcs.contents, traps.contents, settings.contents, lastStatus, returnFlag, returnCode,
                 exitFlag, exitCode, inTrap, trapStatus))
    }

    method AssignVariable(name: string, value: string) returns (status: int, exit: bool)
      requires Valid()
      modifies this
      ensures Valid() && old(Repr) <= Repr && fresh(Repr - old(Repr))
      ensures Some(Done(status, exit, Snapshot())) == old(RunCommand(world, Assign(name, value), Snapshot(), 0))
    {
      hide RunCommand;
      AssignRuns(world, name, value, Snapshot(), 0);
      if name in readonly.contents {
        exitFlag, exitCode := true, 2;
        return 2, true;
      }
      vars := new Table(vars.contents[name := value]);
      Repr := Repr + {vars};
      return 0, false;
    }

    method UnsetVariable(name: string)
      requires Valid()
      modifies vars, funcs, settings
      ensures Some(Done(0, false, Snapshot())) == old(RunCommand(world, Unset(name), Snapshot(), 0))
    {
      if name in readonly.contents {
        return;
      }
      vars.contents := vars.contents - {name};
      funcs.contents := funcs.contents - {name};
      var all := settings.contents;
      settings.contents := all.(exported := all.exported - {name}, aliases := all.aliases - {name});
    }

    method MakeReadonly(name: string, initial: Option<string>)
      requires Valid()
      modifies vars, readonly
      ensures Some(Done(0, false, Snapshot())) == old(RunCommand(world, Readonly(name, initial), Snapshot(), 0))
    {
      if name in readonly.contents {
        return;
      }
      if initial.Some? {
        vars.contents := vars.contents[name := initial.value];
      }
      readonly.contents := readonly.contents + {name};
    }

    method DeclareLocals(items: seq<Declaration>) returns (status: int)
      requires Valid()
      modifies vars, localStack
      ensures Some(Done(status, false, Snapshot())) == old(RunCommand(world, Local(items), Snapshot(), 0))
    {
      hide RunCommand;
      LocalRuns(world, items, Snapshot(), 0);
      if |localStack| == 0 {
        return 2;
      }
      var frame := localStack[|localStack| - 1];
      ghost var before := Contents(localStack);
      var i := 0;
      while i < |items|
        invariant 0 <= i <= |items|
        invariant DeclareAll(vars.contents, frame.contents, items[i..])
               == old(DeclareAll(vars.contents, localStack[|localStack| - 1].contents, items))
        invariant forall k :: 0 <= k < |localStack| - 1 ==> localStack[k].contents == before[k]
      {
        var item := items[i];
        assert items[i..][0] == item && items[i..][1..] == items[i + 1..];
        var alreadySaved := item.name in frame.contents;
        if !alreadySaved {
          frame.contents := frame.contents[item.name := Binding(vars.contents, item.name)];
        }
        if item.value.Some? {
          vars.contents := vars.contents[item.name := item.value.value];
        } else if !alreadySaved {
          vars.contents := vars.contents - {item.name};
        }
        i := i + 1;
      }
      assert items[i..] == [];
      assert Contents(localStack) == Below(before) + [frame.contents];
      return 0;
    }

    method DefineFunction(name: string, body: Script)
      requires Valid()
      modifies funcs
      ensures Some(Done(0, false, Snapshot())) == old(RunCommand(world, Define(name, body), Snapshot(), 0))
    {
      hide RunCommand;
      FixedRuns(world, Define(name, body), Snapshot(), 0);
      funcs.contents := funcs.contents[name := body];
    }

    method SetTrap(signal: string, action: Script)
      requires Valid()
      modifies traps
      ensures Some(Done(0, false, Snapshot())) == old(RunCommand(world, Trap(signal, action), Snapshot(), 0))
    {
      hide RunCommand;
      FixedRuns(world, Trap(signal, action), Snapshot(), 0);
      traps.contents := traps.contents[signal := action];
    }

    method ClearTrap(signal: string)
      requires Valid()
      modifies traps
      ensures Some(Done(0, false, Snapshot())) == old(RunCommand(world, Untrap(signal), Snapshot(), 0))
    {
      hide RunCommand;
      FixedRuns(world, Untrap(signal), Snapshot(), 0);
      traps.contents := traps.contents - {signal};
    }

    method ReturnNow(code: Option<int>) returns (status: int)
      modifies this`returnFlag, this`returnCode
      ensures Some(Done(status, true, Snapshot())) == old(RunCommand(world, Return(code), Snapshot(), 0))
    {
      hide RunCommand;
      FixedRuns(world, Return(code), Snapshot(), 0);
      status := if code.Some? then code.value else if inTrap then trapStatus else lastStatus;
      returnFlag := true;
      returnCode := status;
    }

    method ExitNow(code: Option<int>) returns (status: int)
      modifies this`exitFlag, this`exitCode
      ensures Some(Done(status, true, Snapshot())) == old(RunCommand(world, Exit(code), Snapshot(), 0))
    {
      hide RunCommand;
      FixedRuns(world, Exit(code), Snapshot(), 0);
      status := if code.Some? then code.value else if inTrap then trapStatus else lastStatus;
      exitFlag := true;
      exitCode := status;
    }

    method RunOther(id: nat) returns (status: int)
      requires Valid()
      modifies settings
      ensures Some(Done(status, false, Snapshot())) == old(RunCommand(world, Other(id), Snapshot(), 0))
    {
      hide RunCommand;
      OtherRuns(world, id, Snapshot(), 0);
      var (s, code) := world.act(id, vars.contents, settings.contents);
      settings.contents := s;
      return code;
    }

    // ----- scripts, calls and subshells -----

    method Run(cs: Script, ghost fuel: nat) returns (status: int)
      requires Valid() && RunScript(world, cs, Snapshot(), fuel).Some?
      modifies Repr
      ensures Valid() && old(Repr) <= Repr && fresh(Repr - old(Repr))
      ensures Some(Done(status, false, Snapshot())) == old(RunScript(world, cs, Snapshot(), fuel))
      decreases fuel, 1, cs, 1
    {
      hide RunCommand, RunCommands, RunScript, NextCommand, Distinct;
      ExitIsHandled(world, cs, Snapshot(), fuel);
      exitFlag := false;
      exitCode := 0;
      ghost var whole := RunCommands(world, cs, Snapshot(), 0, fuel);
      status := 0;
      var i := 0;
      while i < |cs|
        invariant 0 <= i <= |cs|
        invariant Valid() && old(Repr) <= Repr && fresh(Repr - old(Repr))
        invariant whole.Some? && whole == RunCommands(world, cs[i..], Snapshot(), status, fuel)
      {
        assert cs[i..][0] == cs[i] && cs[i..][1..] == cs[i + 1..];
        CommandsStep(world, cs[i..], Snapshot(), status, fuel);
        var code, stop := RunNext(cs[i], fuel);
        if stop {
          return code;
        }
        status := code;
        i := i + 1;
      }
      assert cs[i..] == [];
      NothingLeft(world, Snapshot(), status, fuel);
    }

    method HandleStatus(code: int, exit: bool) returns (status: int, stop: bool)
      modifies this`lastStatus, this`exitFlag, this`exitCode
      ensures Done(status, stop, Snapshot()) == AfterCommand(Done(code, exit, old(Snapshot())))
    {
      if returnFlag {
        return returnCode, true;
      }
      if exitFlag {
        return exitCode, true;
      }
      lastStatus := code;
      if settings.contents.counters.breakCount > 0 || settings.contents.counters.continueCount > 0 {
        return lastStatus, true;
      }
      if exit {
        exitFlag := true;
        exitCode := code;
      }
      return code, exit;
    }

    method RunNext(c: Command, ghost fuel: nat) returns (status: int, stop: bool)
      requires Valid() && NextCommand(world, c, Snapshot(), fuel).Some?
      modifies Repr
      ensures Valid() && old(Repr) <= Repr && fresh(Repr - old(Repr))
      ensures Some(Done(status, stop, Snapshot())) == old(NextCommand(world, c, Snapshot(), fuel))
      decreases fuel, 1, c, 4
    {
      hide RunCommand, Distinct, AfterCommand;
      if returnFlag {
        return returnCode, true;
      }
      if exitFlag {
        return exitCode, true;
      }
      var code, exit := RunOne(c, fuel);
      status, stop := HandleStatus(code, exit);
    }

    method RunOne(c: Command, ghost fuel: nat) returns (status: int, exit: bool)
      requires Valid() && RunCommand(world, c, Snapshot(), fuel).Some?
      modifies Repr
      ensures Valid() && old(Repr) <= Repr && fresh(Repr - old(Repr))
      ensures Some(Done(status, exit, Snapshot())) == old(RunCommand(world, c, Snapshot(), fuel))
      decreases fuel, 1, c, 3
    {
      hide RunCommand;
      if !c.Invoke? && !c.Subshell? {
        FuelDoesNotMatter(world, c, Snapshot(), fuel);
      }
      status, exit := 0, false;
      match c {
        case Assign(name, value) => status, exit := AssignVariable(name, value);
        case Unset(name) => UnsetVariable(name);
        case Readonly(name, initial) => MakeReadonly(name, initial);
        case Local(items) => status := DeclareLocals(items);
        case Define(name, body) => DefineFunction(name, body);
        case Invoke(name, args) =>
          if name in funcs.contents {
            status := Call(name, args, fuel);
          } else {
            SpawnRuns(world, name, args, Snapshot(), fuel);
            status := world.spawn(name, args, vars.contents);
          }
        case Subshell(body) => status := RunInSubshell(body, fuel);
        case Trap(signal, action) => SetTrap(signal, action);
        case Untrap(signal) => ClearTrap(signal);
        case Return(code) => status := ReturnNow(code); exit := true;
        case Exit(code) => status := ExitNow(code); exit := true;
        case Other(id) => status := RunOther(id);
      }
    }

    /** Puts back what the frame has saved, name by name. */
    method RestoreLocals(frame: Table<Frame>)
      requires Valid()
      modifies vars
      ensures vars.contents == Overlay(old(vars.contents), frame.contents)
    {
      var names := frame.contents.Keys;
      ghost var before := vars.contents;
      while names != {}
        invariant names <= frame.contents.Keys
        invariant forall x :: Binding(vars.contents, x)
                           == if x in frame.contents && x !in names then frame.contents[x] else Binding(before, x)
        decreases |names|
      {
        var name :| name in names;
        var saved := frame.contents[name];
        ghost var was := vars.contents;
        if saved.Some? {
          vars.contents := vars.contents[name := saved.value];
        } else {
          vars.contents := vars.contents - {name};
        }
        assert forall x :: Binding(vars.contents, x) == if x == name then saved else Binding(was, x);
        names := names - {name};
      }
      OverlayIs(before, frame.contents, vars.contents);
    }

    method PushFrame()
      requires Valid()
      modifies this`localStack, this`Repr
      ensures Valid() && old(Repr) <= Repr && fresh(Repr - old(Repr))
      ensures Snapshot() == old(Snapshot()).(locals := old(Snapshot().locals) + [map[]])
    {
      var frame := new Table<Frame>(map[]);
      localStack := localStack + [frame];
      Repr := Repr + {frame};
      assert Contents(localStack) == old(Contents(localStack)) + [map[]];
    }

    /** Drops the innermost frame and restores what it saved. */
    method PopFrame()
      requires Valid() && |localStack| > 0
      modifies this`localStack, vars
      ensures Valid()
      ensures Snapshot() == old(State(Overlay(Snapshot().vars, Top(Snapshot().locals)), Below(Snapshot().locals), Snapshot().rest))
    {
      hide Overlay;
      var frame := localStack[|localStack| - 1];
      localStack := localStack[..|localStack| - 1];
      assert Contents(localStack) == Below(old(Contents(localStack)));
      RestoreLocals(frame);
    }

    /** Runs a body in a frame of its own. */
    method InFrame(body: Script, ghost fuel: nat) returns (code: int)
      requires Valid() && RunScript(world, body, Snapshot().(locals := Snapshot().locals + [map[]]), fuel).Some?
      modifies Repr
      ensures Valid() && old(Repr) <= Repr && fresh(Repr - old(Repr))
      ensures var d := old(RunScript(world, body, Snapshot().(locals := Snapshot().locals + [map[]]), fuel)).value;
              && code == d.status && d.st.locals != []
              && Snapshot() == State(Overlay(d.st.vars, Top(d.st.locals)), Below(d.st.locals), d.st.rest)
      decreases fuel, 2
    {
      hide RunScript, Overlay, Distinct;
      PushFrame();
      FramesStay(world, body, Snapshot(), fuel);
      code := Run(body, fuel);
      assert |localStack| == |Snapshot().locals|;
      PopFrame();
    }

    method BeginCall(args: seq<string>)
      requires Valid()
      modifies settings, this`returnFlag, this`returnCode
      ensures Valid()
      ensures Snapshot() == old(Snapshot()).(rest := EnterCall(old(Snapshot().rest), args))
    {
      settings.contents := settings.contents.(positional := args);
      returnFlag := false;
      returnCode := 0;
    }

    method EndCall(status: int, positional: seq<string>, savedReturn: bool, savedReturnCode: int,
                   savedExitFlag: bool, savedExitCode: int, ghost before: Rest)
      returns (code: int)
      requires Valid()
      requires positional == before.settings.positional
      requires savedReturn == before.returnFlag && savedReturnCode == before.returnCode
      requires savedExitFlag == before.exitFlag && savedExitCode == before.exitCode
      modifies settings, this`returnFlag, this`returnCode, this`exitFlag, this`exitCode
      ensures Valid()
      ensures code == CallStatus(status, old(Snapshot().rest))
      ensures Snapshot() == old(Snapshot()).(rest := LeaveCall(before, old(Snapshot().rest)))
    {
      hide Distinct, CallStatus;
      code := StatusOfCall(status);
      UseArguments(positional);
      UseCallFlags(savedReturn, savedReturnCode, savedExitFlag, savedExitCode);
    }

    method UseArguments(positional: seq<string>)
      requires Valid()
      modifies settings
      ensures Snapshot().vars == old(Snapshot().vars) && Snapshot().locals == old(Snapshot().locals)
      ensures Snapshot().rest == old(Snapshot().rest).(settings := old(settings.contents).(positional := positional))
    {
      settings.contents := settings.contents.(positional := positional);
    }

    /** The caller's flags, but an exit that is under way goes on. */
    method UseCallFlags(savedReturn: bool, savedReturnCode: int, savedExitFlag: bool, savedExitCode: int)
      modifies this`returnFlag, this`returnCode, this`exitFlag, this`exitCode
      ensures Snapshot().vars == old(Snapshot().vars) && Snapshot().locals == old(Snapshot().locals)
      ensures Snapshot().rest == old(Snapshot().rest).(
                returnFlag := savedReturn, returnCode := savedReturnCode,
                exitFlag := old(exitFlag) || savedExitFlag,
                exitCode := if old(exitFlag) then old(exitCode) else savedExitCode)
    {
      var nowExit, nowCode := exitFlag, exitCode;
      returnFlag := savedReturn;
      returnCode := savedReturnCode;
      exitFlag := nowExit || savedExitFlag;
      exitCode := if nowExit then nowCode else savedExitCode;
    }

    method StatusOfCall(status: int) returns (code: int)
      ensures code == CallStatus(status, Snapshot().rest)
    {
      code := status;
      if returnFlag {
        code := returnCode;
      }
      if exitFlag {
        code := exitCode;
      }
    }

    method Call(name: string, args: seq<string>, ghost fuel: nat) returns (code: int)
      requires Valid() && name in funcs.contents && RunCommand(world, Invoke(name, args), Snapshot(), fuel).Some?
      modifies Repr
      ensures Valid() && old(Repr) <= Repr && fresh(Repr - old(Repr))
      ensures Some(Done(code, false, Snapshot())) == old(RunCommand(world, Invoke(name, args), Snapshot(), fuel))
      decreases fuel, 1, Invoke(name, args), 1
    {
      hide RunCommand, RunScript, Overlay, Distinct;
      CallRuns(world, name, args, Snapshot(), fuel);
      ghost var before := Snapshot().rest;
      var body, positional := funcs.contents[name], settings.contents.positional;
      var savedReturn, savedReturnCode, savedExitFlag, savedExitCode := returnFlag, returnCode, exitFlag, exitCode;
      BeginCall(args);
      code := InFrame(body, fuel - 1);
      code := EndCall(code, positional, savedReturn, savedReturnCode, savedExitFlag, savedExitCode, before);
    }

    /** Fresh copies of every table but the read-only names; the frames stay where they are. */
    method CopyTables()
      requires Valid()
      modifies this`vars, this`funcs, this`traps, this`settings, this`Repr
      ensures Valid() && fresh(Repr - old(Repr))
      ensures old(vars) !in Repr && old(funcs) !in Repr && old(traps) !in Repr && old(settings) !in Repr
      ensures old(Repr) <= Repr + {old(vars), old(funcs), old(traps), old(settings)}
      ensures fresh(vars) && fresh(funcs) && fresh(traps) && fresh(settings)
      ensures vars.contents == old(vars.contents) && funcs.contents == old(funcs.contents)
      ensures traps.contents == IgnoredOnly(old(traps.contents))
      ensures settings.contents == old(settings.contents).(jobs := map[], counters := Counters([], 1, 0, 0, 0, 0, 0))
    {
      hide Distinct, IgnoredOnly;
      var newVars := new Table(vars.contents);
      var newFuncs := new Table(funcs.contents);
      var newTraps := new Table(IgnoredOnly(traps.contents));
      var newSettings := new Table(settings.contents.(jobs := map[], counters := Counters([], 1, 0, 0, 0, 0, 0)));
      Repr := Repr - {vars, funcs, traps, settings};
      UseTables(newVars, newFuncs, newTraps, newSettings);
    }

    method BeginSubshell()
      requires Valid()
      modifies this
      ensures Valid() && fresh(Repr - old(Repr))
      ensures old(vars) !in Repr && old(funcs) !in Repr && old(traps) !in Repr && old(settings) !in Repr
      ensures old(Repr) <= Repr + {old(vars), old(funcs), old(traps), old(settings)}
      ensures fresh(vars) && fresh(funcs) && fresh(traps) && fresh(settings)
      ensures Snapshot() == old(Snapshot()).(rest := EnterSubshell(old(Snapshot().rest)))
    {
      hide Distinct, IgnoredOnly;
      CopyTables();
      lastStatus, returnFlag, returnCode, exitFlag, exitCode := 0, false, 0, false, 0;
    }

    method BeginTrap(code: int) returns (trapped: int)
      modifies this`exitFlag, this`lastStatus, this`inTrap, this`trapStatus
      ensures trapped == TrapStatus(code, old(Snapshot().rest))
      ensures Snapshot() == old(Snapshot()).(rest := EnterTrap(code, old(Snapshot().rest)))
    {
      trapped := if exitFlag then exitCode else code;
      exitFlag := false;
      lastStatus := trapped;
      inTrap := true;
      trapStatus := trapped;
    }

    method EndTrap(savedInTrap: bool, savedTrapStatus: int, ghost before: Rest)
      requires savedInTrap == before.inTrap && savedTrapStatus == before.trapStatus
      modifies this`inTrap, this`trapStatus
      ensures Snapshot() == old(Snapshot()).(rest := LeaveTrap(before, old(Snapshot().rest)))
    {
      inTrap := savedInTrap;
      trapStatus := savedTrapStatus;
    }

    /** The EXIT trap of the subshell, if it set one. */
    method RunTrap(code: int, ghost fuel: nat) returns (status: int)
      requires Valid() && RunExitTrap(world, Done(code, false, Snapshot()), fuel).Some?
      modifies Repr
      ensures Valid() && old(Repr) <= Repr && fresh(Repr - old(Repr))
      ensures Some(Done(status, false, Snapshot())) == old(RunExitTrap(world, Done(code, false, Snapshot()), fuel))
      decreases fuel, 0, 1
    {
      hide RunScript, Distinct, TrapStatus, LeaveTrap, EnterTrap;
      status := code;
      if "EXIT" in traps.contents && traps.contents["EXIT"] != [] {
        ghost var before := Snapshot().rest;
        var savedInTrap, savedTrapStatus := inTrap, trapStatus;
        var action := traps.contents["EXIT"];
        var trapped := BeginTrap(code);
        var ignored := Run(action, fuel - 1);
        status := if exitFlag then exitCode else trapped;
        EndTrap(savedInTrap, savedTrapStatus, before);
      }
    }

    /** Everything that happens in a subshell happens to the copies. */
    method InSubshell(body: Script, ghost fuel: nat) returns (code: int)
      requires Valid() && RunCommand(world, Subshell(body), Snapshot(), fuel).Some?
      modifies Repr - {vars, funcs, traps, settings}
      ensures Valid() && fresh(Repr - old(Repr))
      ensures old(Repr) <= Repr + {old(vars), old(funcs), old(traps), old(settings)}
      ensures Some(Done(code, false, State(old(Snapshot().vars), Snapshot().locals,
                                           LeaveSubshell(old(Snapshot().rest), Snapshot().rest))))
           == old(RunCommand(world, Subshell(body), Snapshot(), fuel))
      decreases fuel, 1, Subshell(body), 1
    {
      hide RunCommand, RunScript, RunExitTrap, Distinct, EnterSubshell, LeaveSubshell;
      SubshellRuns(world, body, Snapshot(), fuel);
      BeginSubshell();
      ghost var copies := Repr;
      assert old(Repr) <= copies + {old(vars), old(funcs), old(traps), old(settings)};
      code := Run(body, fuel);
      code := RunTrap(code, fuel);
      assert copies <= Repr;
    }

    /** The tables that were in use before are in use again, and nothing has been written to them. */
    method RunInSubshell(body: Script, ghost fuel: nat) returns (code: int)
      requires Valid() && RunCommand(world, Subshell(body), Snapshot(), fuel).Some?
      modifies Repr
      ensures Valid() && old(Repr) <= Repr && fresh(Repr - old(Repr))
      ensures Some(Done(code, false, Snapshot())) == old(RunCommand(world, Subshell(body), Snapshot(), fuel))
      ensures vars == old(vars) && funcs == old(funcs) && traps == old(traps) && settings == old(settings)
      decreases fuel, 1, Subshell(body), 2
    {
      hide RunCommand, RunScript, Distinct, LeaveSubshell, EnterSubshell, Contents;
      ghost var before, outer := Snapshot(), Repr;
      var savedVars, savedFuncs, savedTraps, savedSettings := vars, funcs, traps, settings;
      var savedLastStatus, savedReturn, savedReturnCode := lastStatus, returnFlag, returnCode;
      var savedExitFlag, savedExitCode := exitFlag, exitCode;
      code := InSubshell(body, fuel);
      Restore(savedVars, savedFuncs, savedTraps, savedSettings, savedLastStatus, savedReturn, savedReturnCode,
              savedExitFlag, savedExitCode, before, outer);
    }

    /** Puts back what a subshell saved. */
    method Restore(savedVars: Table<map<string, string>>, savedFuncs: Table<map<string, Script>>,
                   savedTraps: Table<map<string, Script>>, savedSettings: Table<Settings>, savedLastStatus: int,
                   savedReturn: bool, savedReturnCode: int, savedExitFlag: bool, savedExitCode: int,
                   ghost before: State, ghost outer: set<object>)
      requires Valid() && savedFuncs != savedTraps && outer <= Repr + {savedVars, savedFuncs, savedTraps, savedSettings}
      requires savedVars.contents == before.vars && savedFuncs.contents == before.rest.funcs
      requires savedTraps.contents == before.rest.traps && savedSettings.contents == before.rest.settings
      requires savedLastStatus == before.rest.lastStatus
      requires savedReturn == before.rest.returnFlag && savedReturnCode == before.rest.returnCode
      requires savedExitFlag == before.rest.exitFlag && savedExitCode == before.rest.exitCode
      modifies this
      ensures Valid() && outer <= Repr == old(Repr) + {savedVars, savedFuncs, savedTraps, savedSettings}
      ensures vars == savedVars && funcs == savedFuncs && traps == savedTraps && settings == savedSettings
      ensures Snapshot() == State(before.vars, old(Snapshot()).locals, LeaveSubshell(before.rest, old(Snapshot()).rest))
    {
      hide Distinct, LeaveSubshell, Contents;
      ghost var inner := Snapshot();
      UseTables(savedVars, savedFuncs, savedTraps, savedSettings);
      UseFlags(savedLastStatus, savedReturn, savedReturnCode, savedExitFlag, savedExitCode, before, inner);
    }

    method UseTables(savedVars: Table<map<string, string>>, savedFuncs: Table<map<string, Script>>,
                     savedTraps: Table<map<string, Script>>, savedSettings: Table<Settings>)
      requires this in Repr && readonly in Repr && (forall k :: 0 <= k < |localStack| ==> localStack[k] in Repr)
      requires Distinct(localStack) && savedFuncs != savedTraps
      modifies this`vars, this`funcs, this`traps, this`settings, this`Repr
      ensures Valid() && Repr == old(Repr) + {savedVars, savedFuncs, savedTraps, savedSettings}
      ensures vars == savedVars && funcs == savedFuncs && traps == savedTraps && settings == savedSettings
    {
      hide Distinct;
      Repr := Repr + {savedVars, savedFuncs, savedTraps, savedSettings};
      vars, funcs, traps, settings := savedVars, savedFuncs, savedTraps, savedSettings;
    }

    method UseFlags(savedLastStatus: int, savedReturn: bool, savedReturnCode: int, savedExitFlag: bool, savedExitCode: int,
                    ghost before: State, ghost inner: State)
      requires Contents(localStack) == inner.locals && readonly.contents == inner.rest.readonly
      requires inTrap == inner.rest.inTrap && trapStatus == inner.rest.trapStatus
      requires vars.contents == before.vars && funcs.contents == before.rest.funcs
      requires traps.contents == before.rest.traps && settings.contents == before.rest.settings
      requires savedLastStatus == before.rest.lastStatus
      requires savedReturn == before.rest.returnFlag && savedReturnCode == before.rest.returnCode
      requires savedExitFlag == before.rest.exitFlag && savedExitCode == before.rest.exitCode
      modifies this`lastStatus, this`returnFlag, this`returnCode, this`exitFlag, this`exitCode
      ensures Snapshot() == State(before.vars, inner.locals, LeaveSubshell(before.rest, inner.rest))
    {
      lastStatus, returnFlag, returnCode := savedLastStatus, savedReturn, savedReturnCode;
      exitFlag, exitCode := savedExitFlag, savedExitCode;
    }
  }
}
