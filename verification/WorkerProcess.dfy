/** The supervisor's process manager: it launches the worker process, asks after its health, restarts
    it when it is ill, and closes the two handles the operating system gave it. What the system and
    the worker answer during a call is the call's parameter and arbitrary; every public call is one
    hold of the manager's mutex.
 */
module WorkerProcess {
  import opened Wrappers

  const STILL_ACTIVE := 259

  type Positive = n: nat | n > 0 witness 1

  /** What an unsigned 64-bit counter shows after `n` steps. */
  function Word64(n: nat): nat {
    n % 0x1_0000_0000_0000_0000
  }

  // ---------------------------------------------------------------- the world outside

  /** What the worker's /health answered: the HTTP status, and the text of "status" when the body is
      an object that holds one. */
  datatype Answer = Answer(httpStatus: int, bodyStatus: Option<string>)

  datatype Probe = Probe(reachable: bool, healthy: bool, httpStatus: int, status: string)

  const UNREACHABLE := Probe(false, false, 0, "unreachable")

  function Judge(answer: Option<Answer>): Probe {
    match answer
    case None => UNREACHABLE
    case Some(a) =>
      var status :=
        if a.bodyStatus.Some? then a.bodyStatus.value
        else if a.httpStatus == 200 then "healthy" else "unhealthy";
      Probe(true, a.httpStatus == 200 && status == "healthy", a.httpStatus, status)
  }

  /** Healthy is a 200 whose body does not say otherwise, also one whose body says nothing at all. */
  lemma HealthyIff(answer: Option<Answer>)
    ensures Judge(answer).healthy <==>
              answer.Some? && answer.value.httpStatus == 200
              && (answer.value.bodyStatus.Some? ==> answer.value.bodyStatus.value == "healthy")
    ensures Judge(answer).reachable <==> answer.Some?
    ensures answer.Some? && answer.value.bodyStatus.None? && answer.value.httpStatus != 200 ==>
              Judge(answer).status == "unhealthy"
  {
  }

  /** One look at the child: whether its process is signaled as ended, and what a probe gets. */
  datatype Look = Look(ended: bool, answer: Option<Answer>)

  datatype Handles = Handles(process: Positive, thread: Positive)

  /** What one public call meets: the state of a child already there, the port and the child that a
      launch would get, and what the start-up polls until the deadline would see. */
  datatype World = World(now: Look, port: Option<Positive>, child: Option<Handles>, polls: seq<Look>)

  predicate Healthy(look: Look) {
    !look.ended && Judge(look.answer).healthy
  }

  /** A healthy answer comes before the child ends and before the deadline. */
  predicate ComesUp(polls: seq<Look>) {
    polls != [] && !polls[0].ended && (Judge(polls[0].answer).healthy || ComesUp(polls[1..]))
  }

  lemma {:induction false} ComesUpBy(polls: seq<Look>, k: nat)
    requires k < |polls| && Healthy(polls[k]) && forall j :: 0 <= j < k ==> !polls[j].ended
    ensures ComesUp(polls)
  {
    if k > 0 {
      ComesUpBy(polls[1..], k - 1);
    }
  }

  lemma {:induction false} ComesUpIff(polls: seq<Look>)
    ensures ComesUp(polls) <==>
              exists k :: 0 <= k < |polls| && Healthy(polls[k]) && forall j :: 0 <= j < k ==> !polls[j].ended
  {
    forall k | 0 <= k < |polls| && Healthy(polls[k]) && forall j :: 0 <= j < k ==> !polls[j].ended
      ensures ComesUp(polls)
    {
      ComesUpBy(polls, k);
    }
    if ComesUp(polls) {
      if Healthy(polls[0]) {
      } else {
        var rest := polls[1..];
        ComesUpIff(rest);
        var k :| 0 <= k < |rest| && Healthy(rest[k]) && forall j :: 0 <= j < k ==> !rest[j].ended;
        assert Healthy(polls[k + 1]) && forall j :: 0 < j < k + 1 ==> polls[j] == rest[j - 1];
      }
    }
  }

  predicate Launches(world: World) {
    world.port.Some? && world.child.Some?
  }

  /** A public call, and how it came out. */
  datatype Call = EnsureReady | Stop | Restart | RestartIfUnhealthy | TakeSnapshot

  datatype Outcome = Done(ready: bool) | PortFailure

  datatype RuntimeSnapshot = RuntimeSnapshot(
    processRunning: bool, workerPort: nat, generation: nat, restartCount: nat, lastExitCode: int, probe: Probe)

  // ---------------------------------------------------------------- the manager

  class WorkerProcessManager {
    var hasProcess: bool
    var workerPort: nat
    var hProcess: nat        // 0 is the null handle
    var hThread: nat
    var generation: nat
    var restartCount: nat
    var lastExitCode: int
    var lastProbe: Probe

    ghost var launches: nat            // children launched so far
    ghost var open: nat                // handles the system has given out and not yet got back
    ghost var openAtLaunch: seq<nat>   // how many of them were open when each child was launched

    constructor ()
      ensures Valid() && !hasProcess && launches == 0
    {
      hasProcess, workerPort, hProcess, hThread := false, 0, 0, 0;
      generation, restartCount, lastExitCode, lastProbe := 0, 0, STILL_ACTIVE, UNREACHABLE;
      launches, open, openAtLaunch := 0, 0, [];
    }

    /** A process is known exactly while there is a port for it, and both of its handles are open. */
    ghost predicate OneProcessAtMost()
      reads `hasProcess, `workerPort, `hProcess, `hThread, `open, `lastExitCode
    {
      && (hasProcess <==> workerPort > 0)
      && (hasProcess <==> hProcess != 0)
      && (hasProcess <==> hThread != 0)
      && open == (if hasProcess then 2 else 0)
      && (hasProcess ==> lastExitCode == STILL_ACTIVE)
    }

    /** The counters agree, and no child was launched while a handle of an earlier one was open. */
    ghost predicate EveryLaunchCounted()
      reads `generation, `restartCount, `launches, `openAtLaunch
    {
      && generation == restartCount == Word64(launches)
      && |openAtLaunch| == launches
      && (forall k :: 0 <= k < |openAtLaunch| ==> openAtLaunch[k] == 0)
    }

    ghost predicate Valid()
      reads this
    {
      OneProcessAtMost() && EveryLaunchCounted()
    }

    // -------------------------------------------------------------- private steps, mutex held

    /** CreateProcessA: two handles, or nothing. */
    method CreateProcess(child: Option<Handles>) returns (created: bool)
      modifies `open, `openAtLaunch, `launches
      ensures created <==> child.Some?
      ensures !created ==> open == old(open) && openAtLaunch == old(openAtLaunch) && launches == old(launches)
      ensures created ==>
                && open == old(open) + 2
                && openAtLaunch == old(openAtLaunch) + [old(open)]
                && launches == old(launches) + 1
    {
      created := child.Some?;
      if created {
        launches, openAtLaunch := launches + 1, openAtLaunch + [open];
        open := open + 2;
      }
    }

    method CloseProcessHandles()
      requires hProcess != 0 && hThread != 0 && open == 2
      modifies `hProcess, `hThread, `open
      ensures hProcess == 0 && hThread == 0 && open == 0
    {
      if hThread != 0 {
        open := open - 1;
        hThread := 0;
      }
      if hProcess != 0 {
        open := open - 1;
        hProcess := 0;
      }
    }

    /** Whether the child is gone; if so, its handles and its port are given up. */
    method HasExited(ended: bool) returns (exited: bool)
      requires Valid()
      modifies `hProcess, `hThread, `open, `hasProcess, `workerPort, `lastExitCode
      ensures Valid()
      ensures exited == !hasProcess
      ensures hasProcess == (old(hasProcess) && !ended)
      ensures hasProcess ==> workerPort == old(workerPort) && hProcess == old(hProcess)
      ensures !old(hasProcess) ==> lastExitCode == old(lastExitCode)
    {
      if !hasProcess {
        return true;
      }
      if !ended {
        return false;
      }
      lastExitCode := *;
      CloseProcessHandles();
      hasProcess, workerPort := false, 0;
      return true;
    }

    method HasLiveProcess(ended: bool) returns (live: bool)
      requires Valid()
      modifies `hProcess, `hThread, `open, `hasProcess, `workerPort, `lastExitCode
      ensures Valid()
      ensures live == hasProcess == (old(hasProcess) && !ended)
      ensures hasProcess ==> workerPort == old(workerPort) && hProcess == old(hProcess)
      ensures !old(hasProcess) ==> lastExitCode == old(lastExitCode)
    {
      if !hasProcess {
        return false;
      }
      var exited := HasExited(ended);
      return !exited;
    }

    /** Without a process there is nobody to ask. */
    method ProbeWorker(answer: Option<Answer>) returns (probe: Probe)
      requires Valid()
      ensures probe == if hasProcess then Judge(answer) else UNREACHABLE
    {
      if !hasProcess || workerPort <= 0 {
        return UNREACHABLE;
      }
      return Judge(answer);
    }

    /** Polls until the child is healthy or gone, or the deadline has passed. */
    method WaitForHealthyWorker(polls: seq<Look>) returns (probe: Probe)
      requires Valid() && hasProcess
      modifies `hProcess, `hThread, `open, `hasProcess, `workerPort, `lastExitCode
      ensures Valid()
      ensures probe.healthy == ComesUp(polls)
      ensures probe.healthy ==> hasProcess && workerPort == old(workerPort) && hProcess == old(hProcess)
      ensures !hasProcess ==> probe.status == "exited"
      ensures hasProcess && (forall k :: 0 <= k < |polls| ==> polls[k].answer == None) ==>
                probe.status == "startup_timeout"
    {
      probe := UNREACHABLE;
      for i := 0 to |polls|
        invariant Valid() && !probe.healthy && hasProcess
        invariant (forall k :: 0 <= k < i ==> polls[k].answer == None) ==> probe == UNREACHABLE
        invariant workerPort == old(workerPort) && hProcess == old(hProcess)
        invariant ComesUp(polls) == ComesUp(polls[i..])
      {
        assert polls[i..][1..] == polls[i + 1..];
        var live := HasLiveProcess(polls[i].ended);
        if !live {
          return probe.(status := "exited");
        }
        probe := ProbeWorker(polls[i].answer);
        if probe.healthy {
          return;
        }
      }
      if probe.status == "unreachable" {
        probe := probe.(status := "startup_timeout");
      }
    }

    /** Afterwards no process is known and both handles have been closed, each of them once. */
    method StopWorker()
      requires Valid()
      modifies `hProcess, `hThread, `open, `hasProcess, `workerPort, `lastExitCode
      ensures Valid() && !hasProcess && open == 0
      ensures !old(hasProcess) ==> lastExitCode == old(lastExitCode)
    {
      if !hasProcess {
        return;
      }
      lastExitCode := *;
      CloseProcessHandles();
      hasProcess, workerPort := false, 0;
    }

    /** Both counters are 64-bit and step together. */
    method CountLaunch(ghost before: nat)
      requires generation == restartCount == Word64(before)
      modifies `generation, `restartCount
      ensures generation == restartCount == Word64(before + 1)
    {
      generation := Word64(generation + 1);
      restartCount := Word64(restartCount + 1);
    }

    /** A port, and a child listening on it. */
    method Launch(port: Option<Positive>, child: Option<Handles>) returns (outcome: Outcome)
      requires Valid() && !hasProcess
      modifies `hProcess, `hThread, `open, `hasProcess, `workerPort, `lastExitCode
      modifies `generation, `restartCount, `launches, `openAtLaunch
      ensures Valid()
      ensures outcome == if port.None? then PortFailure else Done(child.Some?)
      ensures hasProcess == (outcome == Done(true))
      ensures hasProcess ==> workerPort == port.value && hProcess == child.value.process
      ensures launches == if hasProcess then old(launches) + 1 else old(launches)
      ensures outcome == PortFailure ==> lastExitCode == old(lastExitCode)
    {
      hide Word64;
      if port.None? {
        return PortFailure;
      }
      workerPort := port.value;
      var created := CreateProcess(child);
      if !created {
        lastExitCode, workerPort := *, 0;
        return Done(false);
      }
      hProcess, hThread, hasProcess := child.value.process, child.value.thread, true;
      CountLaunch(old(launches));
      lastExitCode := STILL_ACTIVE;
      return Done(true);
    }

    /** At most one launch. Done(true) means a process that has just answered that it is healthy; any
        other outcome, also the exception from the port allocation, leaves no process behind. */
    method StartWorker(world: World) returns (outcome: Outcome)
      requires Valid() && !hasProcess
      modifies this
      ensures Valid()
      ensures outcome == if world.port.None? then PortFailure else Done(Launches(world) && ComesUp(world.polls))
      ensures hasProcess == (outcome == Done(true))
      ensures hasProcess ==> lastProbe.healthy && workerPort == world.port.value
      ensures launches == if Launches(world) then old(launches) + 1 else old(launches)
      ensures outcome == PortFailure ==> lastExitCode == old(lastExitCode)
    {
      hide EveryLaunchCounted, ComesUp, Word64;
      outcome := Launch(world.port, world.child);
      if outcome != Done(true) {
        return;
      }
      var probe := WaitForHealthyWorker(world.polls);
      lastProbe := probe;
      if !probe.healthy {
        StopWorker();
        outcome := Done(false);
      }
    }

    method RestartWorker(world: World) returns (outcome: Outcome)
      requires Valid()
      modifies this
      ensures Valid()
      ensures outcome == if world.port.None? then PortFailure else Done(Launches(world) && ComesUp(world.polls))
      ensures hasProcess == (outcome == Done(true))
      ensures hasProcess ==> lastProbe.healthy && workerPort == world.port.value
      ensures launches == if Launches(world) then old(launches) + 1 else old(launches)
    {
      hide EveryLaunchCounted, ComesUp, Word64;
      StopWorker();
      outcome := StartWorker(world);
    }

    // -------------------------------------------------------------- public calls

    /** `ensureWorkerReady`: true exactly when a process is known afterwards, and then its last probe
        was healthy. A healthy child is kept; any other is replaced, with one launch at most. */
    method EnsureWorkerReady(world: World) returns (outcome: Outcome)
      requires Valid()
      modifies this
      ensures Valid()
      ensures outcome == Done(true) <==> hasProcess
      ensures outcome == Done(true) ==> workerPort > 0 && lastProbe.healthy
      ensures old(hasProcess) && Healthy(world.now) ==>
                outcome == Done(true) && launches == old(launches) && hProcess == old(hProcess)
      ensures !(old(hasProcess) && Healthy(world.now)) ==>
                && (outcome == Done(true) <==> Launches(world) && ComesUp(world.polls))
                && (outcome == PortFailure <==> world.port.None?)
                && launches == if Launches(world) then old(launches) + 1 else old(launches)
    {
      hide EveryLaunchCounted, ComesUp, Word64;
      var live := HasLiveProcess(world.now.ended);
      if !live {
        outcome := StartWorker(world);
        return;
      }
      var probe := ProbeWorker(world.now.answer);
      lastProbe := probe;
      if probe.healthy {
        return Done(true);
      }
      outcome := RestartWorker(world);
    }

    /** `restartIfWorkerUnhealthy` */
    method RestartIfWorkerUnhealthy(world: World) returns (outcome: Outcome)
      requires Valid()
      modifies this
      ensures Valid()
      ensures hasProcess ==> lastProbe.healthy
      ensures old(hasProcess) && Healthy(world.now) ==>
                hasProcess && launches == old(launches) && hProcess == old(hProcess)
      ensures !(old(hasProcess) && Healthy(world.now)) ==>
                && (hasProcess <==> Launches(world) && ComesUp(world.polls))
                && launches == if Launches(world) then old(launches) + 1 else old(launches)
    {
      hide EveryLaunchCounted, ComesUp, Word64;
      var live := HasLiveProcess(world.now.ended);
      if !live {
        outcome := RestartWorker(world);
        return;
      }
      var probe := ProbeWorker(world.now.answer);
      lastProbe := probe;
      if probe.healthy {
        return Done(true);
      }
      outcome := RestartWorker(world);
    }

    /** What a status request sees fits together: a port, an exit code still pending and a probe only
        for a process that runs. */
    method Snapshot(now: Look) returns (snapshot: RuntimeSnapshot)
      requires Valid()
      modifies `hProcess, `hThread, `open, `hasProcess, `workerPort, `lastExitCode, `lastProbe
      ensures Valid()
      ensures snapshot.processRunning == hasProcess == (old(hasProcess) && !now.ended)
      ensures snapshot.workerPort == if hasProcess then old(workerPort) else 0
      ensures snapshot.generation == snapshot.restartCount == launches % 0x1_0000_0000_0000_0000
      ensures snapshot.processRunning ==> snapshot.lastExitCode == 259
      ensures lastProbe == snapshot.probe == if hasProcess then Judge(now.answer) else UNREACHABLE
    {
      if hasProcess {
        var _ := HasExited(now.ended);
      }
      var probe := ProbeWorker(now.answer);
      snapshot := RuntimeSnapshot(hasProcess, workerPort, generation, restartCount, lastExitCode, probe);
      lastProbe := probe;
    }

    /** Any sequence of public calls, each meeting a world of its own: what `Valid` says holds
        throughout, no call launches more than once, and the last call's promise stands. */
    method Run(calls: seq<Call>, worlds: seq<World>) returns (outcomes: seq<Outcome>)
      requires Valid() && |worlds| == |calls|
      modifies this
      ensures Valid()
      ensures |outcomes| == |calls| && old(launches) <= launches <= old(launches) + |calls|
      ensures calls != [] && calls[|calls| - 1] == Stop ==> !hasProcess && open == 0
      ensures calls != [] && calls[|calls| - 1] == EnsureReady ==>
                (outcomes[|calls| - 1] == Done(true) <==> hasProcess) && (hasProcess ==> lastProbe.healthy)
      ensures calls != [] && calls[|calls| - 1] == Restart ==>
                var world := worlds[|calls| - 1];
                && (hasProcess <==> Launches(world) && ComesUp(world.polls)) && (hasProcess ==> lastProbe.healthy)
                && (outcomes[|calls| - 1] == PortFailure <==> world.port.None?)
      ensures calls != [] && calls[|calls| - 1] == RestartIfUnhealthy ==> hasProcess ==> lastProbe.healthy
    {
      hide EveryLaunchCounted, OneProcessAtMost, ComesUp, Word64;
      outcomes := [];
      for i := 0 to |calls|
        invariant Valid()
        invariant |outcomes| == i && old(launches) <= launches <= old(launches) + i
        invariant i > 0 && calls[i - 1] == Stop ==> !hasProcess && open == 0
        invariant i > 0 && calls[i - 1] == EnsureReady ==>
            (outcomes[i - 1] == Done(true) <==> hasProcess) && (hasProcess ==> lastProbe.healthy)
        invariant i > 0 && calls[i - 1] == Restart ==>
            var world := worlds[i - 1];
            && (hasProcess <==> Launches(world) && ComesUp(world.polls)) && (hasProcess ==> lastProbe.healthy)
            && (outcomes[i - 1] == PortFailure <==> world.port.None?)
        invariant i > 0 && calls[i - 1] == RestartIfUnhealthy ==> hasProcess ==> lastProbe.healthy
      {
        var outcome := Done(true);
        match calls[i] {
          case EnsureReady => outcome := EnsureWorkerReady(worlds[i]);
          case Stop => StopWorker();
          case Restart => outcome := RestartWorker(worlds[i]);
          case RestartIfUnhealthy => outcome := RestartIfWorkerUnhealthy(worlds[i]);
          case TakeSnapshot => var _ := Snapshot(worlds[i].now);
        }
        outcomes := outcomes + [outcome];
      }
    }
  }
}
