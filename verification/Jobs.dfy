// The table of background jobs: by number, by process id and in order of start; and the builtin
// that waits for them.
module Jobs {
  import opened Options

  datatype Job = Job(id: int, pid: int, status: int, done: bool)

  datatype Table = Table(jobs: map<int, Job>, jobByPid: map<int, int>, jobOrder: seq<int>, nextJobID: int)

  const EMPTY: Table := Table(map[], map[], [], 1)

  function Add(t: Table, pid: int): Table {
    var id := t.nextJobID;
    Table(t.jobs[id := Job(id, pid, 0, false)], t.jobByPid[pid := id], t.jobOrder + [id], id + 1)
  }

  /** Drops the first occurrence. */
  function Without(ids: seq<int>, id: int): seq<int> {
    if ids == [] then [] else if ids[0] == id then ids[1..] else [ids[0]] + Without(ids[1..], id)
  }

  function Remove(t: Table, id: int): Table {
    t.(jobs := t.jobs - {id},
       jobByPid := if id in t.jobs then t.jobByPid - {t.jobs[id].pid} else t.jobByPid,
       jobOrder := Without(t.jobOrder, id))
  }

  // ----- the invariant -----

  predicate Increasing(ids: seq<int>) { forall i, j :: 0 <= i < j < |ids| ==> ids[i] < ids[j] }

  /** Numbers, order and process ids tell the same story, and no listed job has ended. */
  ghost predicate Consistent(t: Table) {
    && Increasing(t.jobOrder)
    && (forall id :: id in t.jobOrder <==> id in t.jobs)
    && (forall id :: id in t.jobs ==> 0 < id < t.nextJobID && t.jobs[id].id == id && !t.jobs[id].done)
    && (forall id :: id in t.jobs ==> t.jobs[id].pid in t.jobByPid && t.jobByPid[t.jobs[id].pid] == id)
    && (forall pid :: pid in t.jobByPid ==> t.jobByPid[pid] in t.jobs && t.jobs[t.jobByPid[pid]].pid == pid)
    && t.nextJobID > 0
  }

  /** A new job fits in exactly when its process id is not one of a listed job. */
  lemma AddKeepsExactly(t: Table, pid: int)
    requires Consistent(t)
    ensures Consistent(Add(t, pid)) <==> pid !in t.jobByPid
  {
    var t', id := Add(t, pid), t.nextJobID;
    if pid in t.jobByPid {
      var first := t.jobByPid[pid];
      assert first in t'.jobs && t'.jobs[first].pid == pid && t'.jobByPid[pid] != first;
    } else {
      forall i | 0 <= i < |t.jobOrder| ensures t.jobOrder[i] in t.jobs {
        assert t.jobOrder[i] in t.jobOrder;
      }
      assert forall k :: k in t'.jobs <==> k in t.jobs || k == id;
      assert forall k :: k in t.jobs ==> t.jobs[k].pid != pid;
    }
  }

  lemma {:induction false} WithoutMember(ids: seq<int>, id: int, k: int)
    requires Increasing(ids)
    ensures k in Without(ids, id) <==> k in ids && k != id
  {
    if ids != [] {
      WithoutMember(ids[1..], id, k);
      assert k in ids <==> k == ids[0] || k in ids[1..];
      if ids[0] == id {
        assert id !in ids[1..];
      }
    }
  }

  lemma {:induction false} WithoutOne(ids: seq<int>, id: int)
    requires Increasing(ids)
    ensures Increasing(Without(ids, id))
    ensures id in ids <==> |Without(ids, id)| < |ids|
    ensures |ids| - 1 <= |Without(ids, id)| <= |ids|
  {
    if ids != [] {
      WithoutOne(ids[1..], id);
      if ids[0] != id {
        var rest := Without(ids[1..], id);
        forall i | 0 <= i < |rest| ensures ids[0] < rest[i] {
          WithoutMember(ids[1..], id, rest[i]);
        }
        assert id in ids <==> id in ids[1..];
      }
    }
  }

  /** Removing takes out one job and nothing else. */
  lemma RemoveKeeps(t: Table, id: int)
    requires Consistent(t)
    ensures Consistent(Remove(t, id))
    ensures forall k :: k in Remove(t, id).jobs <==> k in t.jobs && k != id
    ensures id in t.jobs <==> |Remove(t, id).jobOrder| < |t.jobOrder|
  {
    WithoutOne(t.jobOrder, id);
    forall k ensures k in Without(t.jobOrder, id) <==> k in t.jobOrder && k != id {
      WithoutMember(t.jobOrder, id, k);
    }
  }

  /** Adding and removing cancel out, but for the number that has been used. */
  lemma AddThenRemove(t: Table, pid: int)
    requires Consistent(t) && pid !in t.jobByPid
    ensures Remove(Add(t, pid), t.nextJobID) == t.(nextJobID := t.nextJobID + 1)
  {
    WithoutLast(t.jobOrder, t.nextJobID);
    var t' := Remove(Add(t, pid), t.nextJobID);
    assert t'.jobs == t.jobs && t'.jobByPid == t.jobByPid;
  }

  lemma {:induction false} WithoutLast(ids: seq<int>, id: int)
    requires id !in ids
    ensures Without(ids + [id], id) == ids
  {
    if ids != [] {
      assert (ids + [id])[1..] == ids[1..] + [id];
      WithoutLast(ids[1..], id);
    }
  }

  /** Two live jobs with one process id: removing the first makes the second unreachable by it. */
  lemma ReusedPidIsLost(t: Table, pid: int)
    requires Consistent(t)
    ensures var t2 := Add(Add(t, pid), pid);
            var t3 := Remove(t2, t.nextJobID);
            t.nextJobID + 1 in t3.jobs && t3.jobs[t.nextJobID + 1].pid == pid && pid !in t3.jobByPid
  {
  }

  /** Subshells get the negative of their own number. */
  ghost predicate PidsAreMarked(t: Table) {
    forall id :: id in t.jobs ==> t.jobs[id].pid > 0 || t.jobs[id].pid == -id
  }

  lemma SubshellPidIsFree(t: Table)
    requires Consistent(t) && PidsAreMarked(t)
    ensures -t.nextJobID !in t.jobByPid
    ensures Consistent(Add(t, -t.nextJobID)) && PidsAreMarked(Add(t, -t.nextJobID))
  {
    forall pid | pid in t.jobByPid ensures pid != -t.nextJobID {
      var id := t.jobByPid[pid];
      assert id in t.jobs && t.jobs[id].pid == pid;
    }
    AddKeepsExactly(t, -t.nextJobID);
  }

  // ----- waiting -----

  /** What a wait for one job sees: its exit status, its channel closed, or a signal, trapped or not. */
  datatype Event = Exited(code: int) | Closed | Signal(trapped: bool, status: int)

  /** `Blocked`: the events ended before the wait did. */
  datatype Ending = Ended(status: int) | Interrupted(status: int) | Blocked

  datatype Waited = Waited(t: Table, ending: Ending, events: seq<Event>)

  function WaitOne(t: Table, job: Job, events: seq<Event>): Waited
    decreases |events|
  {
    if job.done then Waited(t, Ended(job.status), events)
    else if events == [] then Waited(t, Blocked, [])
    else
      match events[0]
      case Exited(code) => Waited(Remove(t, job.id), Ended(code), events[1..])
      case Closed => Waited(Remove(t, job.id), Ended(0), events[1..])
      case Signal(trapped, status) =>
        if trapped then Waited(t, Interrupted(status), events[1..]) else WaitOne(t, job, events[1..])
  }

  lemma {:induction false} WaitOneKeeps(t: Table, id: int, events: seq<Event>)
    requires Consistent(t) && id in t.jobs
    ensures var r := WaitOne(t, t.jobs[id], events);
            Consistent(r.t) && r.t == if r.ending.Ended? then Remove(t, id) else t
    decreases |events|
  {
    RemoveKeeps(t, id);
    if events != [] && events[0].Signal? && !events[0].trapped {
      WaitOneKeeps(t, id, events[1..]);
    }
  }

  /** Without arguments: the jobs in order, the status of the last. */
  function WaitAll(t: Table, status: int, events: seq<Event>): Waited
    requires Consistent(t)
    decreases |t.jobOrder|
  {
    if t.jobOrder == [] then Waited(t, Ended(status), events)
    else
      var id := t.jobOrder[0];
      WaitOneKeeps(t, id, events);
      RemoveKeeps(t, id);
      var r := WaitOne(t, t.jobs[id], events);
      if r.ending.Ended? then WaitAll(r.t, r.ending.status, r.events) else r
  }

  datatype Standing = Going(t: Table, status: int, events: seq<Event>) | Over(result: Waited)

  /** Where the loop over the jobs stands after `n` rounds, on any table. */
  function Rounds(t: Table, status: int, events: seq<Event>, n: nat): Standing
    decreases n
  {
    if t.jobOrder == [] then Over(Waited(t, Ended(status), events))
    else if n == 0 then Going(t, status, events)
    else
      var id := t.jobOrder[0];
      if id !in t.jobs then Rounds(Remove(t, id), status, events, n - 1)
      else
        var r := WaitOne(t, t.jobs[id], events);
        if r.ending.Ended? then Rounds(r.t, r.ending.status, r.events, n - 1) else Over(r)
  }

  /** On a table in order as many rounds suffice as there are jobs. */
  lemma {:induction false} RoundsSuffice(t: Table, status: int, events: seq<Event>, n: nat)
    requires Consistent(t) && n >= |t.jobOrder|
    ensures Rounds(t, status, events, n) == Over(WaitAll(t, status, events))
    decreases n
  {
    hide Consistent, WaitOne, Remove;
    if t.jobOrder != [] {
      var id := t.jobOrder[0];
      FirstIsListed(t);
      WaitOneKeeps(t, id, events);
      RemoveKeeps(t, id);
      var r := WaitOne(t, t.jobs[id], events);
      if r.ending.Ended? {
        RoundsSuffice(r.t, r.ending.status, r.events, n - 1);
      }
    }
  }

  /** A listed job already marked done: however many rounds the loop makes, it stands where it stood. */
  lemma {:induction false} DoneJobIsWaitedForEver(t: Table, status: int, events: seq<Event>, n: nat)
    requires t.jobOrder != [] && t.jobOrder[0] in t.jobs && t.jobs[t.jobOrder[0]].done
    ensures Rounds(t, status, events, n) == Going(t, if n == 0 then status else t.jobs[t.jobOrder[0]].status, events)
    decreases n
  {
    if n > 0 {
      DoneJobIsWaitedForEver(t, t.jobs[t.jobOrder[0]].status, events, n - 1);
    }
  }

  /** A wait that is neither interrupted nor left without events ends with no jobs at all. */
  lemma {:induction false} WaitEmptiesTheTable(t: Table, status: int, events: seq<Event>)
    requires Consistent(t)
    ensures var r := WaitAll(t, status, events);
            && Consistent(r.t)
            && (r.ending.Ended? ==> r.t == Table(map[], map[], [], t.nextJobID))
            && (r.ending.Ended? && t.jobOrder == [] ==> r.ending.status == status)
    decreases |t.jobOrder|
  {
    if t.jobOrder == [] {
      NothingListed(t);
    } else {
      var id := t.jobOrder[0];
      WaitOneKeeps(t, id, events);
      RemoveKeeps(t, id);
      var r := WaitOne(t, t.jobs[id], events);
      if r.ending.Ended? {
        WaitEmptiesTheTable(r.t, r.ending.status, r.events);
      }
    }
  }

  lemma NothingListed(t: Table)
    requires Consistent(t) && t.jobOrder == []
    ensures t.jobs == map[] && t.jobByPid == map[]
  {
    assert forall id :: id in t.jobs ==> id in t.jobOrder;
    PidsAreListed(t);
    assert forall pid :: pid !in t.jobByPid;
  }

  lemma PidsAreListed(t: Table)
    requires Consistent(t)
    ensures forall pid :: pid in t.jobByPid ==> t.jobByPid[pid] in t.jobOrder
  {
    forall pid | pid in t.jobByPid ensures t.jobByPid[pid] in t.jobOrder {
      var id := t.jobByPid[pid];
      assert id in t.jobs;
    }
  }

  lemma FirstIsListed(t: Table)
    requires Consistent(t) && t.jobOrder != []
    ensures t.jobOrder[0] in t.jobs && !t.jobs[t.jobOrder[0]].done
  {
    assert t.jobOrder[0] in t.jobOrder;
  }

  lemma WithoutFirst(ids: seq<int>)
    requires ids != []
    ensures Without(ids, ids[0]) == ids[1..]
  {
  }

  /** However it ends, it has removed the oldest jobs, and one for every exit it has seen. */
  lemma {:induction false} WaitRemovesTheOldest(t: Table, status: int, events: seq<Event>)
    returns (gone: nat)
    requires Consistent(t)
    ensures var r := WaitAll(t, status, events);
            && gone <= |t.jobOrder| && r.t.jobOrder == t.jobOrder[gone..]
            && Exits(events) == gone + Exits(r.events)
            && r.t.nextJobID == t.nextJobID
    decreases |t.jobOrder|
  {
    hide WaitOne, Consistent, Without, Exits;
    if t.jobOrder == [] {
      gone := 0;
    } else {
      var id := t.jobOrder[0];
      FirstIsListed(t);
      WaitOneKeeps(t, id, events);
      RemoveKeeps(t, id);
      WithoutFirst(t.jobOrder);
      EventsUsed(t, t.jobs[id], events);
      var r := WaitOne(t, t.jobs[id], events);
      if r.ending.Ended? {
        var more := WaitRemovesTheOldest(r.t, r.ending.status, r.events);
        gone := 1 + more;
        assert t.jobOrder[1..][more..] == t.jobOrder[gone..];
      } else {
        gone := 0;
        assert t.jobOrder[0..] == t.jobOrder;
      }
    }
  }

  function Exits(events: seq<Event>): nat {
    if events == [] then 0 else (if events[0].Signal? then 0 else 1) + Exits(events[1..])
  }

  lemma {:induction false} EventsUsed(t: Table, job: Job, events: seq<Event>)
    requires !job.done
    ensures var r := WaitOne(t, job, events);
            Exits(events) == (if r.ending.Ended? then 1 else 0) + Exits(r.events)
    decreases |events|
  {
    if events != [] && events[0].Signal? && !events[0].trapped {
      EventsUsed(t, job, events[1..]);
    }
  }

  // ----- the status -----

  predicate Ignored(events: seq<Event>) { forall k :: 0 <= k < |events| ==> events[k].Signal? && !events[k].trapped }

  /** What a wait for a live job makes of the first event that matters, and that it goes on behind it. */
  lemma {:induction false} FirstEventDecides(t: Table, job: Job, ignored: seq<Event>, e: Event, rest: seq<Event>)
    requires !job.done && Ignored(ignored) && (e.Signal? ==> e.trapped)
    ensures WaitOne(t, job, ignored + [e] + rest)
         == (match e
             case Exited(code) => Waited(Remove(t, job.id), Ended(code), rest)
             case Closed => Waited(Remove(t, job.id), Ended(0), rest)
             case Signal(_, status) => Waited(t, Interrupted(status), rest))
    ensures WaitOne(t, job, ignored) == Waited(t, Blocked, [])
    decreases |ignored|
  {
    var events := ignored + [e] + rest;
    if ignored == [] {
      assert events[0] == e && events[1..] == rest;
    } else {
      assert events[0] == ignored[0] && events[1..] == ignored[1..] + [e] + rest;
      FirstEventDecides(t, job, ignored[1..], e, rest);
    }
  }

  function ExitsWith(codes: seq<int>): (events: seq<Event>)
    ensures |events| == |codes| && forall k :: 0 <= k < |codes| ==> events[k] == Exited(codes[k])
  {
    seq(|codes|, k requires 0 <= k < |codes| => Exited(codes[k]))
  }

  /** Without arguments: when every job exits, the status is that of the newest. */
  lemma {:induction false} WaitGivesTheLastStatus(t: Table, status: int, codes: seq<int>, rest: seq<Event>)
    requires Consistent(t) && |codes| == |t.jobOrder|
    ensures WaitAll(t, status, ExitsWith(codes) + rest)
         == Waited(Table(map[], map[], [], t.nextJobID), Ended(if codes == [] then status else codes[|codes| - 1]), rest)
    decreases |codes|
  {
    var events := ExitsWith(codes) + rest;
    if codes == [] {
      NothingListed(t);
      assert events == rest;
    } else {
      FirstIsListed(t);
      var id := t.jobOrder[0];
      WithoutFirst(t.jobOrder);
      RemoveKeeps(t, id);
      assert events == [] + [Exited(codes[0])] + (ExitsWith(codes[1..]) + rest);
      FirstEventDecides(t, t.jobs[id], [], Exited(codes[0]), ExitsWith(codes[1..]) + rest);
      WaitGivesTheLastStatus(Remove(t, id), codes[0], codes[1..], rest);
    }
  }

  /** Simple arguments: `%`, `%%` and `%+`; `%-`; `%n`; a process id; anything else. */
  datatype Arg = Current | Previous | Number(id: int) | Pid(pid: int) | Bad

  /** The job an argument means; `None` makes the builtin fail, apart from processes that are no job. */
  function Find(t: Table, arg: Arg): Option<int> {
    match arg
    case Current => if t.jobOrder == [] then None else Some(t.jobOrder[|t.jobOrder| - 1])
    case Previous => if |t.jobOrder| < 2 then None else Some(t.jobOrder[|t.jobOrder| - 2])
    case Number(id) => if id in t.jobs then Some(id) else None
    case Pid(pid) => if pid in t.jobByPid then Some(t.jobByPid[pid]) else None
    case Bad => None
  }

  /** Waiting for processes that are not jobs: the status, if the system knows the process. */
  datatype World = World(wait4: int -> Option<int>)

  function WaitEach(w: World, t: Table, args: seq<Arg>, status: int, events: seq<Event>): Waited
    decreases |args|
  {
    if args == [] then Waited(t, Ended(status), events)
    else
      match Find(t, args[0])
      case Some(id) =>
        if id !in t.jobs then Waited(t, Ended(1), events)
        else
          var r := WaitOne(t, t.jobs[id], events);
          if r.ending.Ended? then WaitEach(w, r.t, args[1..], r.ending.status, r.events) else r
      case None =>
        if !args[0].Pid? then Waited(t, Ended(1), events)
        else
          match w.wait4(args[0].pid)
          case None => Waited(t, Ended(1), events)
          case Some(code) => WaitEach(w, t, args[1..], code, events)
  }

  function Wait(w: World, t: Table, args: seq<Arg>, events: seq<Event>): Waited
    requires Consistent(t)
  {
    if t.jobs == map[] then Waited(t, Ended(if args == [] then 0 else 1), events)
    else if args == [] then WaitAll(t, 0, events)
    else WaitEach(w, t, args, 0, events)
  }

  function Numbers(ids: seq<int>): (args: seq<Arg>)
    ensures |args| == |ids| && forall k :: 0 <= k < |ids| ==> args[k] == Number(ids[k])
  {
    seq(|ids|, k requires 0 <= k < |ids| => Number(ids[k]))
  }

  /** With the numbers of jobs: they are waited for in that order, and the status is that of the last. */
  lemma {:induction false} WaitForNumbers(w: World, t: Table, ids: seq<int>, status: int, codes: seq<int>, rest: seq<Event>)
    requires Consistent(t) && |codes| == |ids| && (forall k :: 0 <= k < |ids| ==> ids[k] in t.jobs)
    requires forall j, k :: 0 <= j < k < |ids| ==> ids[j] != ids[k]
    ensures var r := WaitEach(w, t, Numbers(ids), status, ExitsWith(codes) + rest);
            && r.ending == Ended(if ids == [] then status else codes[|ids| - 1]) && r.events == rest
            && forall id :: id in r.t.jobs <==> id in t.jobs && id !in ids
    decreases |ids|
  {
    hide Consistent, WaitOne, Remove;
    var events := ExitsWith(codes) + rest;
    if ids == [] {
      assert events == rest;
    } else {
      var id, later := ids[0], ExitsWith(codes[1..]) + rest;
      JobIsLive(t, id);
      RemoveKeeps(t, id);
      assert events == [] + [Exited(codes[0])] + later && Numbers(ids)[1..] == Numbers(ids[1..]);
      FirstEventDecides(t, t.jobs[id], [], Exited(codes[0]), later);
      NumberIsWaitedFor(w, t, id, Numbers(ids[1..]), status, events, Waited(Remove(t, id), Ended(codes[0]), later));
      assert Numbers(ids) == [Number(id)] + Numbers(ids[1..]);
      hide WaitEach, Numbers, ExitsWith;
      assert forall k :: 0 <= k < |ids| - 1 ==> ids[1..][k] != id;
      WaitForNumbers(w, Remove(t, id), ids[1..], codes[0], codes[1..], rest);
      assert ids == [id] + ids[1..];
    }
  }

  lemma NumberIsWaitedFor(w: World, t: Table, id: int, more: seq<Arg>, status: int, events: seq<Event>, r: Waited)
    requires id in t.jobs && WaitOne(t, t.jobs[id], events) == r && r.ending.Ended?
    ensures WaitEach(w, t, [Number(id)] + more, status, events) == WaitEach(w, r.t, more, r.ending.status, r.events)
  {
    hide WaitOne;
    assert ([Number(id)] + more)[1..] == more;
  }

  lemma JobIsLive(t: Table, id: int)
    requires Consistent(t) && id in t.jobs
    ensures !t.jobs[id].done && t.jobs[id].id == id
  {
  }

  /** An argument that names neither a job nor a process makes the builtin fail with status 1 and wait no further; a
      process that is no job gives its own status, if the system knows it. */
  lemma OtherArguments(w: World, t: Table, arg: Arg, more: seq<Arg>, status: int, events: seq<Event>)
    requires Consistent(t)
    ensures (match arg
             case Bad => true
             case Number(id) => id !in t.jobs
             case Current => |t.jobOrder| == 0
             case Previous => |t.jobOrder| < 2
             case Pid(pid) => pid !in t.jobByPid && w.wait4(pid).None?)
            ==> WaitEach(w, t, [arg] + more, status, events) == Waited(t, Ended(1), events)
    ensures arg.Pid? && arg.pid !in t.jobByPid && w.wait4(arg.pid).Some?
            ==> WaitEach(w, t, [arg] + more, status, events) == WaitEach(w, t, more, w.wait4(arg.pid).value, events)
  {
    assert ([arg] + more)[0] == arg && ([arg] + more)[1..] == more;
  }

  lemma FindsListed(t: Table, arg: Arg)
    requires Consistent(t) && Find(t, arg).Some?
    ensures Find(t, arg).value in t.jobs
    ensures arg.Pid? ==> t.jobs[Find(t, arg).value].pid == arg.pid
  {
    if arg.Current? || arg.Previous? {
      ListedIsJob(t, Find(t, arg).value);
    }
  }

  /** `%+` needs a job, `%-` two. */
  lemma NewestAreFound(t: Table)
    ensures Find(t, Current).Some? <==> |t.jobOrder| >= 1
    ensures Find(t, Previous).Some? <==> |t.jobOrder| >= 2
  {
  }

  /** The builtin: without arguments the status of the newest job, 0 if there is none; with numbers of jobs that of the
      last; with arguments but no jobs it fails with status 1. */
  lemma WaitGivesStatus(w: World, t: Table, ids: seq<int>, codes: seq<int>, args: seq<Arg>, events: seq<Event>)
    requires Consistent(t)
    ensures |codes| == |t.jobOrder| ==>
              Wait(w, t, [], ExitsWith(codes) + events).ending == Ended(if codes == [] then 0 else codes[|codes| - 1])
    ensures ids != [] && |codes| == |ids| && (forall k :: 0 <= k < |ids| ==> ids[k] in t.jobs)
            && (forall j, k :: 0 <= j < k < |ids| ==> ids[j] != ids[k])
            ==> Wait(w, t, Numbers(ids), ExitsWith(codes) + events).ending == Ended(codes[|ids| - 1])
    ensures args != [] && t.jobOrder == [] ==> Wait(w, t, args, events) == Waited(t, Ended(1), events)
  {
    hide WaitAll, WaitEach, ExitsWith;
    if t.jobOrder == [] {
      NothingListed(t);
    } else {
      FirstIsListed(t);
    }
    if |codes| == |t.jobOrder| {
      WaitGivesTheLastStatus(t, 0, codes, events);
    }
    if ids != [] && |codes| == |ids| && (forall k :: 0 <= k < |ids| ==> ids[k] in t.jobs)
       && (forall j, k :: 0 <= j < k < |ids| ==> ids[j] != ids[k]) {
      WaitForNumbers(w, t, ids, 0, codes, events);
      assert ids[0] in t.jobs;
    }
  }

  lemma ListedIsJob(t: Table, id: int)
    requires Consistent(t) && id in t.jobOrder
    ensures id in t.jobs
  {
  }

  lemma IsNewest(t: Table, k: nat, id: int)
    requires Consistent(t) && k < |t.jobOrder| && id in t.jobs
    ensures id <= t.jobOrder[k] || exists j :: k < j < |t.jobOrder| && t.jobOrder[j] == id
  {
    assert id in t.jobOrder;
    var j :| 0 <= j < |t.jobOrder| && t.jobOrder[j] == id;
  }

  /** `%`, `%%` and `%+` mean the newest job. */
  lemma CurrentIsNewest(t: Table, id: int)
    requires Consistent(t) && Find(t, Current).Some? && id in t.jobs
    ensures id <= Find(t, Current).value
  {
    IsNewest(t, |t.jobOrder| - 1, id);
  }

  /** `%-` means the newest but one. */
  lemma PreviousIsNewestButOne(t: Table, id: int)
    requires Consistent(t) && Find(t, Previous).Some? && id in t.jobs
    ensures Find(t, Current).Some? && Find(t, Previous).value < Find(t, Current).value
    ensures id == Find(t, Current).value || id <= Find(t, Previous).value
  {
    IsNewest(t, |t.jobOrder| - 2, id);
  }

  lemma {:induction false} WaitEachKeeps(w: World, t: Table, args: seq<Arg>, status: int, events: seq<Event>)
    requires Consistent(t)
    ensures var r := WaitEach(w, t, args, status, events);
            Consistent(r.t) && r.t.nextJobID == t.nextJobID && forall id :: id in r.t.jobs ==> id in t.jobs && r.t.jobs[id] == t.jobs[id]
    decreases |args|
  {
    if args != [] {
      match Find(t, args[0])
      case Some(id) =>
        FindsListed(t, args[0]);
        WaitOneKeeps(t, id, events);
        var r := WaitOne(t, t.jobs[id], events);
        if r.ending.Ended? {
          WaitEachKeeps(w, r.t, args[1..], r.ending.status, r.events);
        }
      case None =>
        if args[0].Pid? && w.wait4(args[0].pid).Some? {
          WaitEachKeeps(w, t, args[1..], w.wait4(args[0].pid).value, events);
        }
    }
  }

  // ----- whole runs -----

  datatype Operation = Start(pid: int) | StartSubshell | WaitFor(args: seq<Arg>, events: seq<Event>)

  ghost predicate GoodTable(t: Table) { Consistent(t) && PidsAreMarked(t) }

  /** A process gets a positive id that no listed job has. */
  predicate Allowed(t: Table, op: Operation) { op.Start? ==> op.pid > 0 && op.pid !in t.jobByPid }

  function Apply(w: World, t: Table, op: Operation): Table
    requires Consistent(t)
  {
    match op
    case Start(pid) => Add(t, pid)
    case StartSubshell => Add(t, -t.nextJobID)
    case WaitFor(args, events) => Wait(w, t, args, events).t
  }

  lemma ApplyKeeps(w: World, t: Table, op: Operation)
    requires GoodTable(t) && Allowed(t, op)
    ensures GoodTable(Apply(w, t, op)) && Apply(w, t, op).nextJobID >= t.nextJobID
  {
    hide Consistent, PidsAreMarked;
    match op
    case Start(pid) =>
      AddKeepsExactly(t, pid);
      MarkedProcess(t, pid);
    case StartSubshell => SubshellPidIsFree(t);
    case WaitFor(args, events) =>
      WaitEachKeeps(w, t, args, 0, events);
      WaitAllKeepsJobs(t, 0, events);
      FewerAreMarked(t, Wait(w, t, args, events).t);
  }

  lemma MarkedProcess(t: Table, pid: int)
    requires PidsAreMarked(t) && pid > 0
    ensures PidsAreMarked(Add(t, pid))
  {
  }

  lemma FewerAreMarked(t: Table, t': Table)
    requires PidsAreMarked(t) && forall id :: id in t'.jobs ==> id in t.jobs && t'.jobs[id] == t.jobs[id]
    ensures PidsAreMarked(t')
  {
  }

  lemma {:induction false} WaitAllKeepsJobs(t: Table, status: int, events: seq<Event>)
    requires Consistent(t)
    ensures var r := WaitAll(t, status, events);
            Consistent(r.t) && r.t.nextJobID == t.nextJobID && forall id :: id in r.t.jobs ==> id in t.jobs && r.t.jobs[id] == t.jobs[id]
    decreases |t.jobOrder|
  {
    if t.jobOrder != [] {
      var id := t.jobOrder[0];
      WaitOneKeeps(t, id, events);
      RemoveKeeps(t, id);
      var r := WaitOne(t, t.jobs[id], events);
      if r.ending.Ended? {
        WaitAllKeepsJobs(r.t, r.ending.status, r.events);
      }
    }
  }

  /** The tables a run goes through, as long as new processes have ids that are free. */
  ghost predicate Reaches(w: World, ops: seq<Operation>, t: Table)
    decreases |ops|
  {
    if ops == [] then t == EMPTY
    else
      exists before :: Reaches(w, ops[..|ops| - 1], before) && Consistent(before)
        && Allowed(before, ops[|ops| - 1]) && t == Apply(w, before, ops[|ops| - 1])
  }

  /** Every table that any run reaches is in order. */
  lemma {:induction false} EveryReachedTableIsGood(w: World, ops: seq<Operation>, t: Table)
    requires Reaches(w, ops, t)
    ensures GoodTable(t)
    decreases |ops|
  {
    if ops != [] {
      var before :| Reaches(w, ops[..|ops| - 1], before) && Consistent(before)
        && Allowed(before, ops[|ops| - 1]) && t == Apply(w, before, ops[|ops| - 1]);
      EveryReachedTableIsGood(w, ops[..|ops| - 1], before);
      ApplyKeeps(w, before, ops[|ops| - 1]);
    }
  }
}
