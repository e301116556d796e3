// The engine as the program keeps it: an object whose maps and counters the cycle updates in place.
module SedEngine {
  import opened Options
  import opened Sed

  class Engine {
    const world: World
    const prog: seq<Command>
    const quiet: bool
    var rangeActive: map<nat, bool>
    var rangeStart: map<nat, int>
    var lineNum: int
    var prevCycleLine: int
    var lastFullCycleLine: int
    var view: View

    constructor (world: World, prog: seq<Command>, quiet: bool)
      ensures this.world == world && this.prog == prog && this.quiet == quiet
      ensures Snapshot() == INITIAL
    {
      this.world, this.prog, this.quiet := world, prog, quiet;
      rangeActive, rangeStart := map[], map[];
      lineNum, prevCycleLine, lastFullCycleLine := 0, 0, 0;
      view := View("", "", None, false, [], "");
    }

    function Snapshot(): State
      reads this
    {
      State(rangeActive, rangeStart, lineNum, prevCycleLine, lastFullCycleLine, view)
    }

    method PreActivateRanges(cmds: seq<Command>, lastLine: bool)
      modifies this
      ensures Snapshot() == PreActivate(world, cmds, old(Snapshot()), lastLine)
      decreases cmds, 0
    {
      var i := 0;
      while i < |cmds|
        invariant 0 <= i <= |cmds|
        invariant PreActivate(world, cmds[i..], Snapshot(), lastLine) == PreActivate(world, cmds, old(Snapshot()), lastLine)
      {
        var cmd := cmds[i];
        assert cmds[i..][0] == cmd && cmds[i..][1..] == cmds[i + 1..];
        if cmd.addr1.Some? && cmd.addr2.Some? && !Lookup(rangeActive, cmd.id, false) {
          if MatchesEarly(world, cmd.addr1.value, view, lineNum, lastLine) {
            rangeActive := rangeActive[cmd.id := true];
            rangeStart := rangeStart[cmd.id := lineNum];
          }
        }
        PreActivateGroup(cmd, lastLine);
        i := i + 1;
      }
      assert cmds[i..] == [];
    }

    method PreActivateGroup(cmd: Command, lastLine: bool)
      modifies this
      ensures Snapshot() == PreActivateInside(world, cmd, old(Snapshot()), lastLine)
      decreases cmd, 1
    {
      match cmd.kind {
        case Group(sub) => PreActivateRanges(sub, lastLine);
        case _ =>
      }
    }

    method AddrMatch(addr: Option<Address>, lastLine: bool) returns (m: bool)
      modifies this`view
      ensures m == MatchesNow(world, addr, old(view), lineNum, lastLine)
      ensures view == Remember(world, addr, old(view))
    {
      if addr.None? {
        return true;
      }
      var a := addr.value;
      if a.last {
        return lastLine;
      }
      if a.reuseRegex {
        return view.lastRegex.Some? && world.matches(view.lastRegex.value, view.pattern);
      }
      if a.regex.Some? {
        if world.matches(a.regex.value, view.pattern) {
          view := view.(lastRegex := a.regex);
          return true;
        }
        return false;
      }
      return NumberMatches(a, lineNum);
    }

    method Matches(cmd: Command, lastLine: bool) returns (selected: bool)
      modifies this
      ensures (selected, Snapshot()) == Select(world, cmd, old(Snapshot()), lastLine)
    {
      if cmd.addr1.None? && cmd.addr2.None? {
        return !cmd.negated;
      }
      if cmd.addr2.None? {
        var m := AddrMatch(cmd.addr1, lastLine);
        return m != cmd.negated;
      }
      var active := Lookup(rangeActive, cmd.id, false);
      if !active {
        var startMatch := AddrMatch(cmd.addr1, lastLine);
        if !startMatch && cmd.addr1.Some? && prevCycleLine > 0 && cmd.addr1.value.lineNum > 0
           && !cmd.addr1.value.last && cmd.addr1.value.regex.None?
           && cmd.addr1.value.lineNum > prevCycleLine && cmd.addr1.value.lineNum < lineNum {
          startMatch := true;
        }
        if startMatch {
          rangeActive := rangeActive[cmd.id := true];
          rangeStart := rangeStart[cmd.id := lineNum];
          if cmd.negated {
            return false;
          }
          var a2 := cmd.addr2.value;
          if a2.relative && a2.lineNum == 0 {
            rangeActive := rangeActive[cmd.id := false];
          } else if !a2.relative && a2.lineNum > 0 && a2.lineNum <= lineNum {
            rangeActive := rangeActive[cmd.id := false];
          }
          return true;
        }
        return cmd.negated;
      }
      var endMatch := EndsHere(world, cmd.addr2.value, Lookup(rangeStart, cmd.id, 0), Snapshot(), lastLine);
      if endMatch {
        rangeActive := rangeActive[cmd.id := false];
      }
      return !cmd.negated;
    }

    method RunCommand(cmd: Command, lastLine: bool) returns (flow: Flow)
      modifies this
      ensures (Snapshot(), flow) == ExecOne(world, cmd, old(Snapshot()), lastLine)
      decreases cmd, 2
    {
      match cmd.kind {
        case Group(sub) =>
          flow := RunCommands(sub, lastLine);
        case Change(text) =>
          if cmd.addr2.None? || !Lookup(rangeActive, cmd.id, false) {
            view := Write(view, text);
          }
          flow := Delete;
        case Other(code) =>
          var (v, f) := world.act(code, view, lineNum, lastLine);
          view := v;
          flow := f;
      }
    }

    method RunCommands(cmds: seq<Command>, lastLine: bool) returns (flow: Flow)
      modifies this
      ensures (Snapshot(), flow) == Exec(world, cmds, old(Snapshot()), lastLine)
      decreases cmds, 1
    {
      PreActivateRanges(cmds, lastLine);
      ghost var begun := Snapshot();
      var i := 0;
      while i < |cmds|
        invariant 0 <= i <= |cmds|
        invariant ExecFrom(world, cmds[i..], Snapshot(), lastLine) == ExecFrom(world, cmds, begun, lastLine)
      {
        assert cmds[i..][0] == cmds[i] && cmds[i..][1..] == cmds[i + 1..];
        var selected := Matches(cmds[i], lastLine);
        if !selected {
          i := i + 1;
          continue;
        }
        flow := RunCommand(cmds[i], lastLine);
        if flow != Normal {
          return if flow == Branch then Normal else flow;
        }
        i := i + 1;
      }
      assert cmds[i..] == [];
      return Normal;
    }

    method PrintAll(lines: seq<string>)
      modifies this`view
      ensures view == WriteAll(old(view), lines)
    {
      var i := 0;
      while i < |lines|
        invariant 0 <= i <= |lines|
        invariant WriteAll(view, lines[i..]) == WriteAll(old(view), lines)
      {
        assert lines[i..][0] == lines[i] && lines[i..][1..] == lines[i + 1..];
        view := Write(view, lines[i]);
        i := i + 1;
      }
      assert lines[i..] == [];
    }

    method Cycle(line: string, lastLine: bool)
      modifies this
      ensures Snapshot() == ProcessLine(world, prog, quiet, line, lastLine, old(Snapshot()))
    {
      view := view.(pattern := line, substituted := false, appended := []);
      prevCycleLine := lastFullCycleLine;
      lastFullCycleLine := lineNum;
      var flow := RunCommands(prog, lastLine);
      var appendText := view.appended;
      if flow == Delete {
        PrintAll(appendText);
        return;
      }
      if flow == QuitSilent {
        lineNum := -1;
        return;
      }
      if !quiet {
        view := Write(view, view.pattern);
      }
      PrintAll(appendText);
      if flow == Quit {
        lineNum := -1;
      }
    }

    method Run(lines: seq<string>)
      modifies this
      ensures Snapshot() == RunLines(world, prog, quiet, lines, 0, old(Snapshot()))
    {
      var pos := 0;
      while pos < |lines|
        invariant 0 <= pos <= |lines|
        invariant RunLines(world, prog, quiet, lines, pos, Snapshot()) == RunLines(world, prog, quiet, lines, 0, old(Snapshot()))
      {
        var line := lines[pos];
        lineNum := lineNum + 1;
        Cycle(line, pos + 1 == |lines|);
        pos := pos + 1;
        if lineNum < 0 {
          break;
        }
      }
    }
  }
}
