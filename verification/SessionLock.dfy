/** The HTTP server's session layer: any number of requests compete for the operation mutex, the
    winner registers itself as the active session, a stream remembers the reset generation and runs
    its COM calls, and reset requests come in between. A method is one step of one request; `Run`
    plays any schedule. Request ids come from the clients and may repeat.
 */
module SessionLock {
  import opened Wrappers
  import opened StreamQueries

  /** The reset generation is a 64-bit counter. */
  const GENERATIONS := 0x1_0000_0000_0000_0000

  /** A session snapshot: the client's request id, and the request all its other fields describe. */
  datatype Snapshot = Snapshot(requestId: string, request: nat)

  /** What a reset finds: the registered session, and whether its request has begun, that is, read the
      generation. */
  datatype ResetFinds = ResetFinds(session: Option<Snapshot>, begun: bool)

  datatype RequestPc =
    | Fresh
    | Rejected                         // answered "busy"
    | Locked(id: string)               // owns the operation mutex, no lease yet
    | Leased(id: string)
    | Running(id: string, observed: nat, started: bool, program: seq<ComOp>)
    | LeaseReleased(id: string)        // still owns the mutex
    | Ended
  {
    predicate OwnsMutex() { Locked? || Leased? || Running? || LeaseReleased? }

    predicate HasLease() { Leased? || Running? }

    predicate MayRelease() { Running? && (program == [] || !started) }
  }

  datatype Action =
    | TryLock(request: nat, id: string)
    | TakeLease(request: nat)
    | FailBeforeLease(request: nat)
    | Begin(request: nat, program: seq<ComOp>)
    | ComCall(request: nat, timesOut: bool)
    | ReleaseLease(request: nat)
    | Unlock(request: nat)
    | Reset
    | WorkerFaults                     // some other call of the request has timed out

  /** Calls that can be made with the component's session open or not (`open`) and leave it closed,
      and that never open it while it is open. */
  predicate Bracketed(open: bool, ops: seq<ComOp>)
    decreases ops
  {
    if ops == [] then !open
    else if ops[0].OpenOp? then !open && Bracketed(true, ops[1..])
    else Bracketed(false, ops[1..])
  }

  /** What the two query methods hand to the component is bracketed, and so is the empty list of a
      request that makes no open call at all. */
  lemma QueriesAreBracketed(initialized: bool)
    ensures Bracketed(false, QueryOps(initialized))
  {
    assert [OpenOp, CloseOp][1..] == [CloseOp] && [CloseOp][1..] == [];
  }

  class JVLinkHTTPServer {
    var mutexOwner: Option<nat>           // jvlink_operation_mutex_
    var activeSession: Option<Snapshot>   // active_session_, None when it is the empty snapshot
    var generation: nat                   // session_reset_generation_
    var requests: map<nat, RequestPc>     // a request that is absent is Fresh
    var sessionOpen: bool                 // the component has an unclosed JVOpen or JVRTOpen
    var workerFaulted: bool               // the COM thread takes no task any more

    ghost var resets: nat                 // resets so far
    ghost var finds: seq<ResetFinds>      // what each of them found
    ghost var resetsSeen: map<nat, nat>   // resets so far when a request read the generation

    constructor ()
      ensures Valid() && activeSession == None && mutexOwner == None && requests == map[] && !workerFaulted
      ensures resets == 0 && resetsSeen == map[] && finds == []
    {
      mutexOwner, activeSession, generation, requests, sessionOpen := None, None, 0, map[], false;
      workerFaulted, resets, resetsSeen, finds := false, 0, map[], [];
    }

    function Pc(r: nat): RequestPc
      reads `requests
    {
      if r in requests then requests[r] else Fresh
    }

    ghost predicate MutexHeldByItsOwner()
      reads `requests, `mutexOwner
    {
      forall r: nat :: Pc(r).OwnsMutex() <==> mutexOwner == Some(r)
    }

    /** The active session is empty, or the snapshot of the request that owns the mutex. */
    ghost predicate ActiveIsOwner()
      reads `requests, `mutexOwner, `activeSession
    {
      match activeSession
      case None => forall r: nat :: !Pc(r).HasLease()
      case Some(s) => mutexOwner == Some(s.request) && Pc(s.request).HasLease() && Pc(s.request).id == s.requestId
    }

    /** As long as the worker is sound, the component's session is open only while the request that
        opened it is running. */
    ghost predicate SessionBracketed()
      reads `requests, `mutexOwner, `sessionOpen, `workerFaulted
    {
      if workerFaulted then true
      else if mutexOwner.Some? && Pc(mutexOwner.value).Running? then
        var pc := Pc(mutexOwner.value);
        Bracketed(sessionOpen, pc.program) && (!pc.started ==> !sessionOpen)
      else !sessionOpen
    }

    ghost predicate GenerationCounts()
      reads `requests, `generation, `resets, `resetsSeen
    {
      && generation == resets % GENERATIONS
      && forall r: nat :: Pc(r).Running? ==>
           r in resetsSeen && resetsSeen[r] <= resets && Pc(r).observed == resetsSeen[r] % GENERATIONS
    }

    /** A reset finds a request only with its lease, and finds it begun if and only if it comes after
        the request has read the generation. */
    ghost predicate ResetsLogged()
      reads `requests, `finds, `resets, `resetsSeen
    {
      && |finds| == resets
      && (forall i :: 0 <= i < |finds| && finds[i].session.Some? ==>
            var r := finds[i].session.value.request;
            && !Pc(r).Fresh? && !Pc(r).Rejected? && !Pc(r).Locked?
            && (Pc(r).Leased? ==> !finds[i].begun)
            && (Pc(r).Running? && r in resetsSeen ==> (finds[i].begun <==> i >= resetsSeen[r])))
      && (forall r: nat, i: nat :: Pc(r).Running? && r in resetsSeen && resetsSeen[r] <= i < |finds| ==>
            finds[i] == ResetFinds(Some(Snapshot(Pc(r).id, r)), true))
    }

    ghost predicate Valid()
      reads this
    {
      MutexHeldByItsOwner() && ActiveIsOwner() && SessionBracketed() && GenerationCounts() && ResetsLogged()
    }

    // -------------------------------------------------------------- the steps of a request

    method TryLock(r: nat, id: string)
      requires Valid() && Pc(r) == Fresh
      modifies `requests, `mutexOwner
      ensures Valid()
      ensures if old(mutexOwner) == None then mutexOwner == Some(r) && requests == old(requests)[r := Locked(id)]
              else mutexOwner == old(mutexOwner) && requests == old(requests)[r := Rejected]
    {
      if mutexOwner == None {
        mutexOwner := Some(r);
        requests := requests[r := Locked(id)];
      } else {
        requests := requests[r := Rejected];
      }
      assert forall q :: q != r ==> Pc(q) == old(Pc(q));
    }

    method TakeLease(r: nat)
      requires Valid() && Pc(r).Locked?
      modifies `requests, `activeSession
      ensures Valid()
      ensures activeSession == Some(Snapshot(old(Pc(r)).id, r))
      ensures requests == old(requests)[r := Leased(old(Pc(r)).id)]
    {
      var id := Pc(r).id;
      activeSession := Some(Snapshot(id, r));
      requests := requests[r := Leased(id)];
      assert forall q :: q != r ==> Pc(q) == old(Pc(q));
    }

    /** An exception between lock and lease: the lock alone is undone. */
    method FailBeforeLease(r: nat)
      requires Valid() && Pc(r).Locked?
      modifies `requests, `mutexOwner
      ensures Valid()
      ensures mutexOwner == None && requests == old(requests)[r := Ended]
    {
      mutexOwner := None;
      requests := requests[r := Ended];
      assert forall q :: q != r ==> Pc(q) == old(Pc(q));
    }

    /** The request reads the reset generation; `program` is the COM calls it is going to make. */
    method Begin(r: nat, program: seq<ComOp>)
      requires Valid() && Pc(r).Leased? && Bracketed(false, program)
      modifies `requests, `resetsSeen
      ensures Valid()
      ensures requests == old(requests)[r := Running(old(Pc(r)).id, generation, false, program)]
      ensures resetsSeen == old(resetsSeen)[r := resets]
    {
      requests := requests[r := Running(Pc(r).id, generation, false, program)];
      resetsSeen := resetsSeen[r := resets];
      assert forall q :: q != r ==> Pc(q) == old(Pc(q));
    }

    /** The next call of the running request that opens or closes the component's session. A faulted
        worker refuses it. Otherwise it is carried out: an open call never finds the session open. A
        call that times out faults the worker; an open call may have had its effect all the same, a
        close call may not have had it. */
    method ComCall(r: nat, timesOut: bool)
      requires Valid() && Pc(r).Running? && Pc(r).program != []
      modifies `requests, `sessionOpen, `workerFaulted
      ensures Valid()
      ensures old(workerFaulted) ==> workerFaulted && sessionOpen == old(sessionOpen)
      ensures !old(workerFaulted) ==> workerFaulted == timesOut
      ensures !old(workerFaulted) && old(Pc(r)).program[0].OpenOp? ==> !old(sessionOpen) && sessionOpen
      ensures !old(workerFaulted) && old(Pc(r)).program[0].CloseOp? ==> sessionOpen == (timesOut && old(sessionOpen))
      ensures requests == old(requests)[r := old(Pc(r)).(started := true, program := old(Pc(r)).program[1..])]
    {
      var pc := Pc(r);
      CarryOut(pc.program[0], timesOut);
      requests := requests[r := pc.(started := true, program := pc.program[1..])];
      assert forall q :: q != r ==> Pc(q) == old(Pc(q));
    }

    /** What a call does to the component and to the worker. */
    method CarryOut(op: ComOp, timesOut: bool)
      modifies `sessionOpen, `workerFaulted
      ensures workerFaulted == (old(workerFaulted) || timesOut)
      ensures sessionOpen == if old(workerFaulted) then old(sessionOpen)
                             else op.OpenOp? || (timesOut && old(sessionOpen))
    {
      if !workerFaulted {
        if op.OpenOp? {
          sessionOpen := true;
        } else if !timesOut {
          sessionOpen := false;
        }
        workerFaulted := timesOut;
      }
    }

    /** Any other call that times out. */
    method WorkerFaults()
      requires Valid()
      modifies `workerFaulted
      ensures Valid() && workerFaulted
    {
      workerFaulted := true;
    }

    /** `clearActiveSession`: it compares request ids only. */
    method ReleaseLease(r: nat)
      requires Valid() && Pc(r).MayRelease()
      modifies `requests, `activeSession
      ensures Valid()
      ensures activeSession == None && (sessionOpen ==> workerFaulted)
      ensures requests == old(requests)[r := LeaseReleased(old(Pc(r)).id)]
    {
      var id := Pc(r).id;
      if activeSession.Some? && activeSession.value.requestId == id {
        activeSession := None;
      }
      requests := requests[r := LeaseReleased(id)];
      assert forall q :: q != r ==> Pc(q) == old(Pc(q));
    }

    method Unlock(r: nat)
      requires Valid() && Pc(r).LeaseReleased?
      modifies `requests, `mutexOwner
      ensures Valid()
      ensures mutexOwner == None && requests == old(requests)[r := Ended]
    {
      mutexOwner := None;
      requests := requests[r := Ended];
      assert forall q :: q != r ==> Pc(q) == old(Pc(q));
    }

    method Reset()
      requires Valid()
      modifies `generation, `resets, `finds
      ensures Valid()
      ensures resets == old(resets) + 1 && generation == (old(generation) + 1) % GENERATIONS
      ensures finds == old(finds) + [ResetFinds(activeSession, Begun())]
    {
      generation := (generation + 1) % GENERATIONS;
      finds := finds + [ResetFinds(activeSession, Begun())];
      resets := resets + 1;
    }

    /** The registered request is running. */
    predicate Begun()
      reads `activeSession, `requests
    {
      activeSession.Some? && Pc(activeSession.value.request).Running?
    }

    /** The stream's cancel test: true exactly when the resets since it read the generation are not
        a multiple of 2^64 -- so, short of that many, exactly when there has been one. */
    method IsResetRequested(r: nat) returns (cancel: bool)
      requires Valid() && Pc(r).Running?
      ensures cancel <==> (resets - resetsSeen[r]) % 0x1_0000_0000_0000_0000 != 0
      ensures resets - resetsSeen[r] < 0x1_0000_0000_0000_0000 ==> (cancel <==> resets > resetsSeen[r])
    {
      cancel := generation != Pc(r).observed;
      SameGeneration(resets, resetsSeen[r]);
    }

    // -------------------------------------------------------------- interleavings

    /** Plays a schedule; a step that is not possible is skipped. `unclosed` tells whether an open
        call was ever carried out while an earlier one was unclosed: it never is, not even when calls
        time out, because a worker that has faulted carries nothing out any more. */
    method Run(schedule: seq<Action>) returns (unclosed: bool)
      requires Valid()
      modifies this
      ensures Valid() && !unclosed
      ensures old(resets) <= resets
      ensures old(workerFaulted) ==> workerFaulted && sessionOpen == old(sessionOpen)
    {
      hide Valid, Bracketed;
      unclosed := false;
      for i := 0 to |schedule|
        invariant Valid() && !unclosed
        invariant old(resets) <= resets
        invariant old(workerFaulted) ==> workerFaulted && sessionOpen == old(sessionOpen)
      {
        var found := Step(schedule[i]);
        unclosed := unclosed || found;
      }
    }

    /** One step of one request, or a reset; `unclosed` tells whether it was an open call that was carried
        out while an earlier one was unclosed. */
    method Step(a: Action) returns (unclosed: bool)
      requires Valid()
      modifies this
      ensures Valid() && !unclosed
      ensures resets == if a.Reset? then old(resets) + 1 else old(resets)
      ensures old(workerFaulted) ==> workerFaulted && sessionOpen == old(sessionOpen)
      ensures match a
              case TryLock(r, id) =>
                Pc(r) == if !old(Pc(r)).Fresh? then old(Pc(r))
                         else if old(mutexOwner) == None then RequestPc.Locked(id) else Rejected
              case TakeLease(r) => old(Pc(r)).Locked? ==> Pc(r) == Leased(old(Pc(r)).id)
              case FailBeforeLease(r) => old(Pc(r)).Locked? ==> Pc(r) == Ended && mutexOwner == None
              case Begin(r, program) =>
                old(Pc(r)).Leased? && Bracketed(false, program) ==>
                  Pc(r) == Running(old(Pc(r)).id, generation, false, program)
              case ComCall(r, _) =>
                old(Pc(r)).Running? && old(Pc(r)).program != [] ==>
                  Pc(r) == old(Pc(r)).(started := true, program := old(Pc(r)).program[1..])
              case ReleaseLease(r) =>
                old(Pc(r)).MayRelease() ==> Pc(r) == LeaseReleased(old(Pc(r)).id) && activeSession == None
              case Unlock(r) => old(Pc(r)).LeaseReleased? ==> Pc(r) == Ended && mutexOwner == None
              case Reset => requests == old(requests)
              case WorkerFaults => workerFaulted && requests == old(requests)
    {
      hide Valid, Bracketed;
      unclosed := false;
      match a
      case TryLock(r, id) => if Pc(r).Fresh? { TryLock(r, id); }
      case TakeLease(r) => if Pc(r).Locked? { TakeLease(r); }
      case FailBeforeLease(r) => if Pc(r).Locked? { FailBeforeLease(r); }
      case Begin(r, program) => if Pc(r).Leased? && Bracketed(false, program) { Begin(r, program); }
      case ComCall(r, timesOut) =>
        if Pc(r).Running? && Pc(r).program != [] {
          unclosed := Pc(r).program[0].OpenOp? && sessionOpen && !workerFaulted;
          ComCall(r, timesOut);
        }
      case ReleaseLease(r) => if Pc(r).MayRelease() { ReleaseLease(r); }
      case Unlock(r) => if Pc(r).LeaseReleased? { Unlock(r); }
      case Reset => Reset();
      case WorkerFaults => WorkerFaults();
    }

    /** One request from the lock to the unlock, with no other request in between. */
    method Serve(r: nat, id: string, program: seq<ComOp>) returns (served: bool)
      requires Valid() && Pc(r) == Fresh && Bracketed(false, program)
      modifies this
      ensures Valid()
      ensures served <==> old(mutexOwner) == None
      ensures served ==> mutexOwner == None && activeSession == None && (sessionOpen ==> workerFaulted)
      ensures !served ==> Pc(r) == Rejected && mutexOwner == old(mutexOwner)
    {
      hide Valid, Bracketed;
      TryLock(r, id);
      if !Pc(r).Locked? {
        return false;
      }
      TakeLease(r);
      Begin(r, program);
      while Pc(r).program != []
        invariant Valid() && Pc(r).Running? && mutexOwner == Some(r)
        decreases |Pc(r).program|
      {
        var timesOut: bool := *;
        ComCall(r, timesOut);
      }
      ReleaseLease(r);
      Unlock(r);
      return true;
    }

    // -------------------------------------------------------------- what every run promises

    lemma AtMostOneOwner(r: nat, q: nat)
      requires Valid() && Pc(r).OwnsMutex() && Pc(q).OwnsMutex()
      ensures r == q
    {
      assert mutexOwner == Some(r) && mutexOwner == Some(q);
    }

    /** Whatever ids the clients choose: a registered session is the one that owns the mutex, and a
        request that has its lease is the registered session. */
    lemma ActiveSessionIsTheOwner(r: nat)
      requires Valid()
      ensures activeSession.Some? ==> mutexOwner == Some(activeSession.value.request)
      ensures Pc(r).HasLease() ==> activeSession == Some(Snapshot(Pc(r).id, r))
      ensures mutexOwner == None ==> activeSession == None && (sessionOpen ==> workerFaulted)
    {
      if Pc(r).HasLease() {
        assert mutexOwner == Some(r);
        assert activeSession.Some?;
      }
    }

    /** Which resets a stream notices: short of 2^64 of them, it is told to cancel if and only if some
        reset found it registered and begun. One that found it registered before it had begun does
        not count. */
    lemma NoticedIffFoundBegun(r: nat)
      requires Valid() && Pc(r).Running? && r in resetsSeen && resets - resetsSeen[r] < GENERATIONS
      ensures generation != Pc(r).observed
              <==> exists i :: 0 <= i < |finds| && finds[i] == ResetFinds(Some(Snapshot(Pc(r).id, r)), true)
      ensures forall i :: 0 <= i < |finds| && finds[i].session == Some(Snapshot(Pc(r).id, r)) ==>
                (finds[i].begun <==> i >= resetsSeen[r])
    {
      SameGeneration(resets, resetsSeen[r]);
      if resets > resetsSeen[r] {
        assert finds[resetsSeen[r]] == ResetFinds(Some(Snapshot(Pc(r).id, r)), true);
      }
    }

    /** Why the order of release matters: with the mutex released first, the snapshot of a request
        that no longer owns it stays registered. */
    method UnlockBeforeLease(r: nat)
      requires Valid() && Pc(r).MayRelease()
      modifies `requests, `mutexOwner
      ensures activeSession == Some(Snapshot(old(Pc(r)).id, r)) && mutexOwner == None
      ensures !ActiveIsOwner()
    {
      ActiveSessionIsTheOwner(r);
      mutexOwner := None;
      requests := requests[r := Ended];
    }
  }

  /** A reset that comes between the lease and the reading of the generation finds the session
      registered, and the stream goes on all the same. */
  method ResetMissesAStartingStream(id: string) returns (server: JVLinkHTTPServer, cancel: bool)
    ensures fresh(server) && server.Valid() && server.Pc(0).Running?
    ensures server.finds == [ResetFinds(Some(Snapshot(id, 0)), false)] && !cancel
  {
    hide JVLinkHTTPServer.Valid;
    server := new JVLinkHTTPServer();
    server.TryLock(0, id);
    server.TakeLease(0);
    assert server.finds == [];
    server.Reset();
    server.Begin(0, []);
    cancel := server.IsResetRequested(0);
  }

  /** 2^64 resets of a running stream look to it like none. */
  method SoManyResetsLookLikeNone(id: string) returns (server: JVLinkHTTPServer, cancel: bool)
    ensures fresh(server) && server.Valid() && server.Pc(0).Running?
    ensures server.resetsSeen == map[0 := 0] && server.resets == 0x1_0000_0000_0000_0000 && !cancel
  {
    hide JVLinkHTTPServer.Valid;
    server := new JVLinkHTTPServer();
    server.TryLock(0, id);
    server.TakeLease(0);
    server.Begin(0, []);
    for i := 0 to GENERATIONS
      invariant fresh(server) && server.Valid() && server.Pc(0).Running?
      invariant server.resetsSeen == map[0 := 0] && server.resets == i
    {
      server.Reset();
    }
    cancel := server.IsResetRequested(0);
  }

  /** A stored query as the handler runs it: under the lock, with the calls that the query makes. */
  method ServeStored(server: JVLinkHTTPServer, r: nat, id: string, s: StoredScript, filter: seq<string>,
                     maxRecords: int)
    returns (served: bool, events: seq<Event>)
    requires server.Valid() && server.Pc(r) == Fresh
    modifies server
    ensures server.Valid() && (served <==> old(server.mutexOwner) == None)
    ensures served ==> server.mutexOwner == None && (server.sessionOpen ==> server.workerFaulted)
    ensures events == if served then StoredReport(s, filter, maxRecords).events else []
  {
    var reported, ops, exit := QueryStored(s, filter, maxRecords);
    QueriesAreBracketed(s.initialized);
    served := server.Serve(r, id, ops);
    events := if served then reported else [];
  }

  method ServeRealtime(server: JVLinkHTTPServer, r: nat, id: string, s: RealtimeScript)
    returns (served: bool, events: seq<Event>)
    requires server.Valid() && server.Pc(r) == Fresh
    modifies server
    ensures server.Valid() && (served <==> old(server.mutexOwner) == None)
    ensures served ==> server.mutexOwner == None && (server.sessionOpen ==> server.workerFaulted)
    ensures events == if served then RealtimeReport(s).events else []
  {
    var reported, ops, exit := QueryRealtime(s);
    QueriesAreBracketed(s.initialized);
    served := server.Serve(r, id, ops);
    events := if served then reported else [];
  }

  lemma SameGeneration(a: nat, b: nat)
    requires b <= a
    ensures a % GENERATIONS == b % GENERATIONS <==> (a - b) % GENERATIONS == 0
    ensures a - b < GENERATIONS ==> ((a - b) % GENERATIONS == 0 <==> a == b)
  {
  }
}
