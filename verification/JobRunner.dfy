// The job table as the runner keeps it: two maps, a list and a counter, updated in place.
module JobRunner {
  import opened Jobs

  lemma WithoutNothing(id: int)
    ensures Without([], id) == []
  {
  }

  lemma WithoutStep(ids: seq<int>, i: nat, id: int)
    requires i < |ids|
    ensures ids[i] == id ==> Without(ids[i..], id) == ids[i + 1..]
    ensures ids[i] != id ==> ids[..i] + Without(ids[i..], id) == ids[..i + 1] + Without(ids[i + 1..], id)
  {
    assert ids[i..][0] == ids[i] && ids[i..][1..] == ids[i + 1..];
    assert ids[..i + 1] == ids[..i] + [ids[i]];
  }

  class Runner {
    const world: World
    var jobs: map<int, Job>
    var jobByPid: map<int, int>
    var jobOrder: seq<int>
    var nextJobID: int

    constructor (world: World)
      ensures this.world == world && Snapshot() == EMPTY && Consistent(Snapshot())
    {
      this.world := world;
      jobs, jobByPid, jobOrder, nextJobID := map[], map[], [], 1;
    }

    function Snapshot(): Table
      reads this
    {
      Table(jobs, jobByPid, jobOrder, nextJobID)
    }

    method AddJob(pid: int) returns (id: int)
      modifies this
      ensures id == old(nextJobID) && Snapshot() == Add(old(Snapshot()), pid)
    {
      id := nextJobID;
      nextJobID := nextJobID + 1;
      jobs := jobs[id := Job(id, pid, 0, false)];
      jobByPid := jobByPid[pid := id];
      jobOrder := jobOrder + [id];
    }

    method StartSubshell() returns (id: int)
      requires GoodTable(Snapshot())
      modifies this
      ensures GoodTable(Snapshot()) && id == old(nextJobID)
      ensures Snapshot() == Add(old(Snapshot()), -old(nextJobID))
    {
      SubshellPidIsFree(Snapshot());
      id := AddJob(0 - nextJobID);
    }

    method RemoveJob(id: int)
      modifies this
      ensures Snapshot() == Remove(old(Snapshot()), id)
    {
      if id in jobs {
        jobByPid := jobByPid - {jobs[id].pid};
      }
      jobs := jobs - {id};
      hide Without;
      var i := 0;
      assert jobOrder[..i] == [] && jobOrder[i..] == jobOrder;
      while i < |jobOrder|
        invariant 0 <= i <= |jobOrder| && jobOrder == old(jobOrder)
        invariant Without(jobOrder, id) == jobOrder[..i] + Without(jobOrder[i..], id)
        invariant jobs == old(jobs) - {id} && nextJobID == old(nextJobID)
        invariant jobByPid == if id in old(jobs) then old(jobByPid) - {old(jobs)[id].pid} else old(jobByPid)
      {
        WithoutStep(jobOrder, i, id);
        if jobOrder[i] == id {
          jobOrder := jobOrder[..i] + jobOrder[i + 1..];
          return;
        }
        i := i + 1;
      }
      WithoutNothing(id);
      assert jobOrder[..i] == jobOrder && jobOrder[i..] == [];
    }

    method WaitForJob(job: Job, events: seq<Event>) returns (ending: Ending, left: seq<Event>)
      modifies this
      ensures Waited(Snapshot(), ending, left) == WaitOne(old(Snapshot()), job, events)
    {
      if job.done {
        return Ended(job.status), events;
      }
      left := events;
      while left != []
        invariant Snapshot() == old(Snapshot())
        invariant WaitOne(Snapshot(), job, left) == WaitOne(old(Snapshot()), job, events)
        decreases |left|
      {
        var event := left[0];
        left := left[1..];
        match event {
          case Exited(code) =>
            RemoveJob(job.id);
            return Ended(code), left;
          case Closed =>
            RemoveJob(job.id);
            return Ended(0), left;
          case Signal(trapped, status) =>
            if trapped {
              return Interrupted(status), left;
            }
        }
      }
      return Blocked, [];
    }

    method WaitForAll(events: seq<Event>) returns (ending: Ending, left: seq<Event>)
      requires Consistent(Snapshot())
      modifies this
      ensures Consistent(Snapshot())
      ensures Waited(Snapshot(), ending, left) == WaitAll(old(Snapshot()), 0, events)
      ensures ending.Ended? ==> jobs == map[] && jobByPid == map[] && jobOrder == []
    {
      var status := 0;
      left := events;
      while |jobOrder| > 0
        invariant Consistent(Snapshot())
        invariant WaitAll(Snapshot(), status, left) == WaitAll(old(Snapshot()), 0, events)
        decreases |jobOrder|
      {
        var id := jobOrder[0];
        assert id in jobOrder;
        WaitOneKeeps(Snapshot(), id, left);
        RemoveKeeps(Snapshot(), id);
        ending, left := WaitForJob(jobs[id], left);
        if !ending.Ended? {
          return;
        }
        status := ending.status;
      }
      NothingListed(Snapshot());
      ending := Ended(status);
    }

    method WaitForEach(args: seq<Arg>, events: seq<Event>) returns (ending: Ending, left: seq<Event>)
      modifies this
      ensures Waited(Snapshot(), ending, left) == WaitEach(world, old(Snapshot()), args, 0, events)
    {
      var status := 0;
      left := events;
      var k := 0;
      while k < |args|
        invariant 0 <= k <= |args|
        invariant WaitEach(world, Snapshot(), args[k..], status, left)
               == WaitEach(world, old(Snapshot()), args, 0, events)
      {
        var arg := args[k];
        assert args[k..][0] == arg && args[k..][1..] == args[k + 1..];
        var found := Find(Snapshot(), arg);
        if found.Some? {
          if found.value !in jobs {
            return Ended(1), left;
          }
          ending, left := WaitForJob(jobs[found.value], left);
          if !ending.Ended? {
            return;
          }
          status := ending.status;
        } else if arg.Pid? {
          var code := world.wait4(arg.pid);
          if code.None? {
            return Ended(1), left;
          }
          status := code.value;
        } else {
          return Ended(1), left;
        }
        k := k + 1;
      }
      assert args[k..] == [];
      ending := Ended(status);
    }

    method WaitBuiltin(args: seq<Arg>, events: seq<Event>) returns (ending: Ending, left: seq<Event>)
      requires GoodTable(Snapshot())
      modifies this
      ensures GoodTable(Snapshot())
      ensures Waited(Snapshot(), ending, left) == Wait(world, old(Snapshot()), args, events)
    {
      ApplyKeeps(world, Snapshot(), WaitFor(args, events));
      if |jobs| == 0 {
        assert jobs == map[];
        return Ended(if |args| == 0 then 0 else 1), events;
      }
      if |args| == 0 {
        ending, left := WaitForAll(events);
      } else {
        ending, left := WaitForEach(args, events);
      }
    }
  }
}
