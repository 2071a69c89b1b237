/** The queue and shutdown protocol of the COM worker thread.

    Any number of posting threads call `postTask`, one thread drains the queue, a controlling
    thread starts and stops it, and a timed-out invoker may record a fault at any moment.
    A method is one step of one thread: one access to a shared flag, one mutex operation or one
    queue operation. `Run` plays any schedule of steps, that is, any interleaving of the threads.
 */
module ComThreadWorker {

  /** The `call`-th task that thread `poster` hands to `postTask`. */
  datatype Task = Task(poster: nat, call: nat)

  /** `postTask` tests three flags, in this order: m_running, m_acceptingTasks, !m_faulted. */
  const FLAG_LOADS: nat := 3

  /** Where a thread stands inside `postTask`. `loaded` counts the flags it has found good. */
  datatype PosterPc =
    | Idle
    | Early(task: Task, loaded: nat)   // first test, without the mutex
    | WantLock(task: Task)
    | Locked(task: Task, loaded: nat)  // second test, holding the mutex
    | Pushed(task: Task)               // holding the mutex, task is in the queue
    | Refused(task: Task)              // holding the mutex, about to return false
  {
    predicate HoldsMutex() { Locked? || Pushed? || Refused? }

    predicate Loading() { Early? || Locked? }
  }

  /** Where the worker thread stands. `quit` tells the drain caused by WM_QUIT from the others. */
  datatype WorkerPc =
    | Unborn
    | Booting
    | BootFailed               // has cleared m_running, not yet m_acceptingTasks
    | LoopTop
    | Draining(quit: bool)     // about to swap the queue out
    | Running(quit: bool)      // executing the tasks it swapped out
    | Peeking
    | Exited(comReady: bool)
  {
    predicate InLoop() { LoopTop? || Draining? || Running? || Peeking? }
  }

  /** Where the thread that calls `start` and then `stop` stands. */
  datatype ControlPc =
    | Fresh | MarkedRunning | Accepting | Spawned | Up
    | StartFailing             // start() saw no thread id
    | Closed                   // stop() has cleared m_acceptingTasks
    | Joining
    | Down
  {
    predicate MayAccept() { Accepting? || Spawned? || Up? }
  }

  datatype MutexOwner = Free | HeldBy(poster: nat)

  datatype Action =
    | Call(poster: nat)         // an idle thread enters postTask with a new task
    | Post(poster: nat)         // a thread inside postTask makes its next step
    | Work(lucky: bool)         // the worker's next step; `lucky`: COM starts, WM_QUIT is seen
    | Control                   // the next step of start() or stop()
    | RecordFault               // a timed-out invoker stores m_faulted
    | RefuseAfterFault          // and then clears m_acceptingTasks

  ghost predicate NoDuplicates(ts: seq<Task>) {
    forall i, j :: 0 <= i < j < |ts| ==> ts[i] != ts[j]
  }

  class ComThreadWorker {
    var running: bool
    var accepting: bool
    var faulted: bool
    var threadUp: bool               // m_threadId != 0
    var quitPosted: bool
    var mutex: MutexOwner
    var queue: seq<Task>             // m_taskQueue
    var batch: seq<Task>             // the queue the worker has swapped out
    var worker: WorkerPc
    var control: ControlPc
    var posters: map<nat, PosterPc>  // a thread that is absent is idle
    var calls: map<nat, nat>         // how often a thread has called postTask

    ghost var accepted: seq<Task>        // every push, in order
    ghost var executed: seq<Task>        // every task run, in order
    ghost var results: map<Task, bool>   // what postTask returned
    ghost var late: set<Task>            // tasks of calls that began when the worker was shut for good

    constructor ()
      ensures Valid()
      ensures control == Fresh && accepted == [] && results == map[] && !faulted
      ensures posters == map[] && calls == map[] && mutex == Free && executed == [] && queue == [] && late == {}
    {
      running, accepting, faulted, threadUp, quitPosted := false, false, false, false, false;
      mutex, queue, batch, worker, control := Free, [], [], Unborn, Fresh;
      posters, calls := map[], map[];
      accepted, executed, results, late := [], [], map[], {};
    }

    function Pc(p: nat): PosterPc
      reads `posters
    {
      if p in posters then posters[p] else Idle
    }

    function Calls(p: nat): nat
      reads `calls
    {
      if p in calls then calls[p] else 0
    }

    /** The flag that load number `n` of `postTask` looks at. */
    predicate Flag(n: nat)
      reads `running, `accepting, `faulted
    {
      if n == 0 then running else if n == 1 then accepting else !faulted
    }

    /** The worker thread has ended its loop, or has not come so far; nothing sets m_running again. */
    predicate LoopOver()
      reads `worker, `running
    {
      worker.BootFailed? || worker.Exited? || (worker.LoopTop? && !running)
    }

    /** The controlling thread has closed the queue; nothing opens it again. */
    predicate QueueClosed()
      reads `control
    {
      control.StartFailing? || control.Closed? || control.Joining? || control.Down?
    }

    /** A worker that has failed, has been stopped or has come to its end will not take a task again. */
    predicate ShutForGood()
      reads `worker, `running, `control, `faulted
    {
      LoopOver() || QueueClosed() || faulted
    }

    // -------------------------------------------------------------- invariant

    /** Tasks are never lost, duplicated or reordered on their way through the two queues. */
    ghost predicate Conserved()
      reads `executed, `batch, `queue, `accepted, `worker
    {
      executed + batch + queue == accepted && (batch != [] ==> worker.Running?)
    }

    ghost predicate MutexHeldByItsOwner()
      reads `posters, `mutex
    {
      && (forall p :: Pc(p).HoldsMutex() <==> mutex == HeldBy(p))
      && (forall p :: Pc(p).Loading() ==> Pc(p).loaded <= FLAG_LOADS)
    }

    /** What the controlling thread has done so far. */
    ghost predicate ControlPhases()
      reads `accepting, `quitPosted, `control, `worker, `running, `threadUp
    {
      && (accepting ==> control.MayAccept())
      && (quitPosted ==> control.Joining? || control.Down?)
      && (control.Fresh? || control.MarkedRunning? || control.Accepting? <==> worker.Unborn?)
      && (control.MarkedRunning? || control.Accepting? ==> running)
      && (control.StartFailing? ==> worker.BootFailed? || worker == Exited(false))
      && (control.Up? || control.Closed? ==> threadUp)
      && (control.Joining? ==> quitPosted && worker != Exited(false))
      && (control.Down? ==> worker.Exited?)
    }

    /** The worker has swapped the queue out for the last time. */
    predicate LastSwapDone()
      reads `worker, `running
    {
      worker == Running(true) || worker == Exited(true) || (worker.LoopTop? && !running)
    }

    /** What the worker may be doing. */
    ghost predicate WorkerPhases()
      reads `accepting, `quitPosted, `control, `worker, `running, `threadUp, `executed
    {
      && (threadUp <==> worker.InLoop())
      && (worker.Booting? || worker.Draining? || worker.Running? || worker.Peeking? ==> running)
      && (worker.Booting? ==> control.Spawned?)
      && (worker.BootFailed? || worker == Exited(false) ==>
            !running && (control.Spawned? || control.StartFailing? || control.Down?))
      && (worker.Unborn? || worker.Booting? || worker.BootFailed? || worker == Exited(false) ==> executed == [])
      && (worker == Exited(false) ==> !accepting)
      && (worker == Draining(true) || LastSwapDone() ==> quitPosted)
      && (LoopOver() ==> !running)
    }

    /** After the last swap nobody can push: every thread still inside `postTask` meets a cleared flag. */
    ghost predicate ClosedForGood()
      reads `worker, `running, `queue, `posters
    {
      LastSwapDone() ==>
        && queue == []
        && forall p :: !Pc(p).Pushed? && !(Pc(p).Locked? && Pc(p).loaded > 1)
    }

    /** What `postTask` returned tells whether the task was pushed. */
    ghost predicate Accounted()
      reads `accepted, `calls, `results
    {
      && NoDuplicates(accepted)
      && (forall t :: t in accepted ==> t.call < Calls(t.poster))
      && (forall t :: t in results ==> t.call < Calls(t.poster))
      && (forall t :: t in results ==> (results[t] <==> t in accepted))
    }

    /** A thread inside `postTask` is at its latest call, which has not returned and is in the
        queue only if the thread has pushed it. */
    ghost predicate InFlight()
      reads `accepted, `calls, `results, `posters
    {
      forall p :: !Pc(p).Idle? ==>
        && Pc(p).task.poster == p && Pc(p).task.call == Calls(p) - 1
        && Pc(p).task !in results
        && (Pc(p).task in accepted <==> Pc(p).Pushed?)
    }

    /** One of the flags that a call of `postTask` has still to look at is down for good. */
    predicate HeldUp(loaded: nat)
      reads `worker, `running, `control, `faulted
    {
      (loaded == 0 && LoopOver()) || (loaded <= 1 && QueueClosed()) || (loaded <= 2 && faulted)
    }

    /** A call that begins when the worker is shut for good does not get past its first test. */
    ghost predicate LateRefused()
      reads `late, `accepted, `calls, `posters, `worker, `running, `control, `faulted
    {
      && (forall t :: t in late ==> t !in accepted && t.call < Calls(t.poster))
      && (forall p :: !Pc(p).Idle? && Pc(p).task in late ==> Pc(p).Early? && HeldUp(Pc(p).loaded))
    }

    ghost predicate Valid()
      reads this
    {
      && LateRefused() && Conserved() && MutexHeldByItsOwner() && ControlPhases() && WorkerPhases()
      && ClosedForGood() && Accounted() && InFlight()
    }

    // -------------------------------------------------------------- postTask

    /** An idle thread enters `postTask` with a task of its own. */
    method EnterPostTask(p: nat)
      requires Valid() && Pc(p).Idle?
      modifies `posters, `calls, `late
      ensures Valid()
      ensures late == if ShutForGood() then old(late) + {Task(p, old(Calls(p)))} else old(late)
      ensures calls == old(calls)[p := old(Calls(p)) + 1]
      ensures posters == old(posters)[p := Early(Task(p, old(Calls(p))), 0)]
    {
      hide Conserved, ControlPhases, WorkerPhases, LastSwapDone, Accounted, InFlight, LateRefused;
      Begin(p);
      assert forall q :: q != p ==> Pc(q) == old(Pc(q));
    }

    /** What the call means for the accounts. */
    method Begin(p: nat)
      requires Accounted() && InFlight() && LateRefused() && Pc(p).Idle?
      modifies `posters, `calls, `late
      ensures Accounted() && InFlight() && LateRefused()
      ensures late == if ShutForGood() then old(late) + {Task(p, old(Calls(p)))} else old(late)
      ensures calls == old(calls)[p := old(Calls(p)) + 1]
      ensures posters == old(posters)[p := Early(Task(p, old(Calls(p))), 0)]
    {
      hide Accounted, InFlight, LateRefused, ShutForGood;
      var n := Calls(p);
      CountCall(p);
      Enter(Task(p, n));
    }

    /** A call more of this thread. */
    method CountCall(p: nat)
      requires Accounted() && InFlight() && LateRefused() && Pc(p).Idle?
      modifies `calls
      ensures Accounted() && InFlight() && LateRefused() && calls == old(calls)[p := old(Calls(p)) + 1]
      ensures var t := Task(p, old(Calls(p))); t !in accepted && t !in results && t !in late
    {
      hide NoDuplicates, HeldUp;
      calls := calls[p := Calls(p) + 1];
      assert forall q :: q != p ==> Calls(q) == old(Calls(q));
    }

    /** The call's task, not seen before. */
    method Enter(t: Task)
      requires InFlight() && LateRefused() && Pc(t.poster).Idle? && t.call == Calls(t.poster) - 1
      requires t !in accepted && t !in results && t !in late
      modifies `posters, `late
      ensures InFlight() && LateRefused() && posters == old(posters)[t.poster := Early(t, 0)]
      ensures late == if ShutForGood() then old(late) + {t} else old(late)
    {
      hide LoopOver, QueueClosed;
      posters := posters[t.poster := Early(t, 0)];
      if ShutForGood() {
        late := late + {t};
      }
      assert forall q :: q != t.poster ==> Pc(q) == old(Pc(q));
    }

    /** A flag that is up is not the one that holds a late call up. */
    lemma HeldUpFurtherOn(n: nat)
      requires Valid() && Flag(n)
      ensures HeldUp(n) ==> HeldUp(n + 1)
    {
    }

    /** A flag load before the mutex is taken: a cleared flag makes `postTask` return false. */
    method LoadFlagEarly(p: nat)
      requires Valid() && Pc(p).Early? && Pc(p).loaded < FLAG_LOADS
      modifies `posters, `results
      ensures Valid()
      ensures var Early(t, n) := old(Pc(p));
              if Flag(n) then posters == old(posters)[p := Early(t, n + 1)] && results == old(results)
              else posters == old(posters)[p := Idle] && results == old(results)[t := false]
    {
      hide Conserved, ControlPhases, WorkerPhases, LastSwapDone, LateRefused, Accounted, InFlight, ClosedForGood;
      var Early(t, n) := Pc(p);
      if Flag(n) {
        FindGood(p);
      } else {
        RefuseEarly(p);
      }
    }

    method FindGood(p: nat)
      requires Valid() && Pc(p).Early? && Pc(p).loaded < FLAG_LOADS && Flag(Pc(p).loaded)
      modifies `posters
      ensures Valid()
      ensures posters == old(posters)[p := Early(old(Pc(p)).task, old(Pc(p)).loaded + 1)]
    {
      hide Conserved, ControlPhases, WorkerPhases, LastSwapDone, HeldUp, LateRefused, Accounted, Flag;
      var Early(t, n) := Pc(p);
      HeldUpFurtherOn(n);
      posters := posters[p := Early(t, n + 1)];
      assert forall q :: q != p ==> Pc(q) == old(Pc(q));
      StillHeldUp(p);
    }

    twostate lemma StillHeldUp(p: nat)
      requires old(LateRefused()) && old(Pc(p)).Early?
      requires posters == old(posters)[p := Early(old(Pc(p)).task, old(Pc(p)).loaded + 1)]
      requires HeldUp(old(Pc(p)).loaded) ==> HeldUp(Pc(p).loaded)
      requires unchanged(`late, `accepted, `calls, `worker, `running, `control, `faulted)
      ensures LateRefused()
    {
      hide HeldUp;
      assert forall q :: q != p ==> Pc(q) == old(Pc(q));
      assert forall n: nat :: HeldUp(n) == old(HeldUp(n));
    }

    method RefuseEarly(p: nat)
      requires Valid() && Pc(p).Early?
      modifies `posters, `results
      ensures Valid()
      ensures posters == old(posters)[p := Idle] && results == old(results)[old(Pc(p)).task := false]
    {
      hide Conserved, ControlPhases, WorkerPhases, LastSwapDone, Accounted, InFlight, ClosedForGood;
      Return(p, false);
      assert forall q :: q != p ==> Pc(q) == old(Pc(q));
    }

    /** The return itself, with the value that the outcome calls for. */
    method Return(p: nat, value: bool)
      requires Accounted() && InFlight() && ClosedForGood()
      requires !Pc(p).Idle? && (value <==> Pc(p).Pushed?)
      modifies `posters, `results
      ensures Accounted() && InFlight() && ClosedForGood()
      ensures posters == old(posters)[p := Idle] && results == old(results)[old(Pc(p)).task := value]
    {
      hide LastSwapDone, NoDuplicates, Accounted, ClosedForGood;
      var task := Pc(p).task;
      CallIsCounted(p);
      Leave(p);
      Note(task, value);
    }

    lemma CallIsCounted(p: nat)
      requires InFlight() && !Pc(p).Idle?
      ensures Pc(p).task.call < Calls(Pc(p).task.poster)
    {
    }

    method Leave(p: nat)
      requires InFlight() && ClosedForGood()
      modifies `posters
      ensures InFlight() && ClosedForGood() && posters == old(posters)[p := Idle]
    {
      hide LastSwapDone;
      posters := posters[p := Idle];
      assert forall q :: q != p ==> Pc(q) == old(Pc(q));
    }

    /** The result of a call that nobody is in any more. */
    method Note(task: Task, value: bool)
      requires Accounted() && InFlight() && (value <==> task in accepted) && task.call < Calls(task.poster)
      requires forall p :: !Pc(p).Idle? ==> Pc(p).task != task
      modifies `results
      ensures Accounted() && InFlight() && results == old(results)[task := value]
    {
      hide NoDuplicates;
      results := results[task := value];
    }

    lemma ClosedAfterLastSwap()
      requires Valid()
      ensures LastSwapDone() ==> !accepting
    {
    }

    /** A flag load while the mutex is held. */
    method LoadFlagLocked(p: nat)
      requires Valid() && Pc(p).Locked? && Pc(p).loaded < FLAG_LOADS
      modifies `posters
      ensures Valid()
      ensures var Locked(t, n) := old(Pc(p));
              posters == old(posters)[p := if Flag(n) then Locked(t, n + 1) else Refused(t)]
    {
      hide Conserved, ControlPhases, WorkerPhases, LastSwapDone, Accounted, HeldUp;
      var Locked(t, n) := Pc(p);
      ClosedAfterLastSwap();
      posters := posters[p := if Flag(n) then Locked(t, n + 1) else Refused(t)];
      assert forall q :: q != p ==> Pc(q) == old(Pc(q));
    }

    method PassEarlyTest(p: nat)
      requires Valid() && Pc(p).Early? && Pc(p).loaded == FLAG_LOADS
      modifies `posters
      ensures Valid()
      ensures posters == old(posters)[p := WantLock(old(Pc(p)).task)]
    {
      hide Conserved, ControlPhases, WorkerPhases, LastSwapDone;
      posters := posters[p := WantLock(Pc(p).task)];
      assert forall q :: q != p ==> Pc(q) == old(Pc(q));
    }

    method LockMutex(p: nat)
      requires Valid() && Pc(p).WantLock? && mutex == Free
      modifies `posters, `mutex
      ensures Valid()
      ensures mutex == HeldBy(p) && posters == old(posters)[p := Locked(old(Pc(p)).task, 0)]
    {
      hide Conserved, ControlPhases, WorkerPhases, LastSwapDone;
      mutex := HeldBy(p);
      posters := posters[p := Locked(Pc(p).task, 0)];
      assert forall q :: q != p ==> Pc(q) == old(Pc(q));
    }

    method Push(p: nat)
      requires Valid() && Pc(p).Locked? && Pc(p).loaded == FLAG_LOADS
      modifies `posters, `queue, `accepted
      ensures Valid()
      ensures posters == old(posters)[p := Pushed(old(Pc(p)).task)]
      ensures queue == old(queue) + [old(Pc(p)).task] && accepted == old(accepted) + [old(Pc(p)).task]
    {
      hide ControlPhases, WorkerPhases, LastSwapDone, HeldUp;
      var t := Pc(p).task;
      queue := queue + [t];
      accepted := accepted + [t];
      posters := posters[p := Pushed(t)];
      assert executed + batch + queue == old(accepted) + [t];
      assert forall q :: q != p ==> Pc(q) == old(Pc(q));
    }

    method UnlockAndReturn(p: nat)
      requires Valid() && (Pc(p).Pushed? || Pc(p).Refused?)
      modifies `posters, `mutex, `results
      ensures Valid()
      ensures mutex == Free && posters == old(posters)[p := Idle]
      ensures results == old(results)[old(Pc(p)).task := old(Pc(p)).Pushed?]
    {
      hide Conserved, ControlPhases, WorkerPhases, LastSwapDone, Accounted, InFlight, ClosedForGood;
      Return(p, Pc(p).Pushed?);
      mutex := Free;
      assert forall q :: q != p ==> Pc(q) == old(Pc(q));
    }

    // -------------------------------------------------------------- worker thread

    method InitCom(ok: bool)
      requires Valid() && worker == Booting
      modifies `worker, `threadUp, `running
      ensures Valid()
      ensures if ok then worker == LoopTop && threadUp && running == old(running)
              else worker == BootFailed && !running && threadUp == old(threadUp)
    {
      hide MutexHeldByItsOwner, Accounted, InFlight;
      if ok {
        threadUp, worker := true, LoopTop;
      } else {
        running, worker := false, BootFailed;
      }
    }

    method GiveUpBooting()
      requires Valid() && worker == BootFailed
      modifies `worker, `accepting
      ensures Valid()
      ensures worker == Exited(false) && !accepting
    {
      hide MutexHeldByItsOwner, Accounted, InFlight;
      accepting, worker := false, Exited(false);
    }

    /** `while (m_running)`, and the clean-up after the loop. */
    method TestLoop()
      requires Valid() && worker == LoopTop
      modifies `worker, `threadUp
      ensures Valid()
      ensures if running then worker == Draining(false) && threadUp == old(threadUp)
              else worker == Exited(true) && !threadUp
    {
      hide MutexHeldByItsOwner, Accounted, InFlight;
      if running {
        worker := Draining(false);
      } else {
        threadUp, worker := false, Exited(true);
      }
    }

    /** The swap at the head of `executeQueuedTasks`. */
    method SwapQueue()
      requires Valid() && worker.Draining? && mutex == Free
      modifies `worker, `queue, `batch
      ensures Valid()
      ensures worker == Running(old(worker).quit) && batch == old(queue) && queue == []
    {
      hide Accounted, InFlight;
      queue, batch, worker := [], queue, Running(worker.quit);
    }

    method ExecuteFront()
      requires Valid() && worker.Running? && batch != []
      modifies `batch, `executed
      ensures Valid()
      ensures executed == old(executed) + [old(batch)[0]] && batch == old(batch)[1..]
    {
      hide MutexHeldByItsOwner, Accounted, InFlight;
      executed := executed + [batch[0]];
      batch := batch[1..];
      assert old(batch) == [old(batch)[0]] + batch;
      assert executed + batch + queue == old(executed) + ([old(batch)[0]] + batch) + queue;
    }

    /** The end of `executeQueuedTasks`; after WM_QUIT the loop is told to end. */
    method FinishBatch()
      requires Valid() && worker.Running? && batch == []
      modifies `worker, `running
      ensures Valid()
      ensures if old(worker).quit then worker == LoopTop && !running
              else worker == Peeking && running == old(running)
    {
      hide MutexHeldByItsOwner, Accounted, InFlight;
      if worker.quit {
        running, worker := false, LoopTop;
      } else {
        worker := Peeking;
      }
    }

    method PeekMessages(quitSeen: bool)
      requires Valid() && worker == Peeking
      requires quitSeen ==> quitPosted
      modifies `worker
      ensures Valid()
      ensures worker == if quitSeen then Draining(true) else LoopTop
    {
      hide MutexHeldByItsOwner, Accounted, InFlight;
      worker := if quitSeen then Draining(true) else LoopTop;
    }

    // -------------------------------------------------------------- start, stop, faults

    method MarkRunning()
      requires Valid() && control == Fresh
      modifies `running, `control
      ensures Valid() && running && control == MarkedRunning
    {
      hide MutexHeldByItsOwner, Accounted, InFlight;
      running, control := true, MarkedRunning;
    }

    method OpenQueue()
      requires Valid() && control == MarkedRunning
      modifies `accepting, `control
      ensures Valid() && accepting && control == Accepting
    {
      hide MutexHeldByItsOwner, Accounted, InFlight;
      accepting, control := true, Accepting;
    }

    method SpawnThread()
      requires Valid() && control == Accepting
      modifies `worker, `control
      ensures Valid() && worker == Booting && control == Spawned
    {
      hide MutexHeldByItsOwner, Accounted, InFlight;
      worker, control := Booting, Spawned;
    }

    /** One turn of start()'s wait for the thread id. */
    method AwaitThread()
      requires Valid() && control == Spawned
      modifies `accepting, `control
      ensures Valid()
      ensures if threadUp then control == Up && accepting == old(accepting)
              else if !running then control == StartFailing && !accepting
              else control == Spawned && accepting == old(accepting)
    {
      hide MutexHeldByItsOwner, Accounted, InFlight;
      if threadUp {
        control := Up;
      } else if !running {
        accepting, control := false, StartFailing;
      }
    }

    method JoinAfterFailedStart()
      requires Valid() && control == StartFailing && worker.Exited?
      modifies `control
      ensures Valid() && control == Down
    {
      hide MutexHeldByItsOwner, Accounted, InFlight;
      control := Down;
    }

    method CloseQueue()
      requires Valid() && control == Up
      modifies `accepting, `control
      ensures Valid() && !accepting && control == Closed
    {
      hide MutexHeldByItsOwner, Accounted, InFlight;
      accepting, control := false, Closed;
    }

    method PostQuitMessage()
      requires Valid() && control == Closed
      modifies `quitPosted, `control
      ensures Valid() && quitPosted && control == Joining
    {
      hide MutexHeldByItsOwner, Accounted, InFlight;
      if threadUp { quitPosted := true; }
      control := Joining;
    }

    method Join()
      requires Valid() && control == Joining && worker.Exited?
      modifies `running, `threadUp, `control
      ensures Valid() && !running && !threadUp && control == Down
    {
      hide MutexHeldByItsOwner, Accounted, InFlight;
      running, threadUp, control := false, false, Down;
    }

    method RecordFault()
      requires Valid()
      modifies `faulted
      ensures Valid() && faulted && ShutForGood()
    {
      hide MutexHeldByItsOwner, Accounted, InFlight;
      faulted := true;
    }

    method RefuseAfterFault()
      requires Valid() && faulted
      modifies `accepting
      ensures Valid() && !accepting
    {
      hide MutexHeldByItsOwner, Accounted, InFlight;
      accepting := false;
    }

    // -------------------------------------------------------------- interleavings

    /** A thread that is busy makes no call. */
    method CallStep(p: nat, ghost before: map<nat, nat>)
      requires Valid()
      modifies `posters, `calls, `late
      ensures Valid()
      ensures ShutForGood() && old(LateSince(before)) ==> LateSince(before)
      ensures posters == if old(Pc(p)).Idle? then old(posters)[p := Early(Task(p, old(Calls(p))), 0)] else old(posters)
    {
      hide Valid, ShutForGood;
      if Pc(p).Idle? {
        EnterPostTask(p);
      }
    }

    /** The next step of a call of `postTask`: three tests, the mutex, the same three tests, the push, the
        return. */
    method PosterStep(p: nat)
      requires Valid()
      modifies `posters, `mutex, `queue, `accepted, `results
      ensures Valid()
      ensures match old(Pc(p))
              case Idle => posters == old(posters) && results == old(results) && accepted == old(accepted)
              case Early(t, n) =>
                if n < 3 && !Flag(n) then posters == old(posters)[p := Idle] && results == old(results)[t := false]
                else
                  && posters == old(posters)[p := if n < 3 then Early(t, n + 1) else WantLock(t)]
                  && results == old(results)
              case WantLock(t) =>
                posters == (if old(mutex) == Free then old(posters)[p := Locked(t, 0)] else old(posters))
              case Locked(t, n) =>
                && posters == old(posters)[p := if n == 3 then Pushed(t) else if Flag(n) then Locked(t, n + 1)
                                                else Refused(t)]
                && accepted == if n == 3 then old(accepted) + [t] else old(accepted)
              case Pushed(t) => posters == old(posters)[p := Idle] && results == old(results)[t := true]
              case Refused(t) => posters == old(posters)[p := Idle] && results == old(results)[t := false]
      ensures old(accepted) <= accepted
      ensures LastSwapDone() ==> accepted == old(accepted)
    {
      hide Conserved, ControlPhases, WorkerPhases, Accounted, InFlight, LastSwapDone;
      var pc := Pc(p);
      if pc.Early? && pc.loaded < FLAG_LOADS {
        LoadFlagEarly(p);
      } else if pc.Locked? && pc.loaded < FLAG_LOADS {
        LoadFlagLocked(p);
      } else if pc.Early? {
        PassEarlyTest(p);
      } else if pc.WantLock? && mutex == Free {
        LockMutex(p);
      } else if pc.Locked? {
        Push(p);
      } else if pc.Pushed? || pc.Refused? {
        UnlockAndReturn(p);
      }
    }

    /** The worker thread's next step. */
    method WorkerStep(lucky: bool)
      requires Valid()
      modifies `worker, `threadUp, `running, `accepting, `queue, `batch, `executed
      ensures Valid()
      ensures match old(worker)
              case Unborn | Exited(_) => worker == old(worker)
              case Booting => worker == if lucky then LoopTop else BootFailed
              case BootFailed => worker == Exited(false)
              case LoopTop => worker == if old(running) then Draining(false) else Exited(true)
              case Draining(quit) =>
                if mutex == Free then worker == Running(quit) && batch == old(queue) && queue == []
                else worker == old(worker)
              case Running(quit) =>
                if old(batch) == [] then worker == (if quit then LoopTop else Peeking) && (quit ==> !running)
                else
                  worker == old(worker) && executed == old(executed) + [old(batch)[0]] && batch == old(batch)[1..]
              case Peeking => worker == if quitPosted && lucky then Draining(true) else LoopTop
      ensures old(LastSwapDone()) ==> LastSwapDone()
      ensures old(ShutForGood()) ==> ShutForGood()
      ensures old(executed) <= executed
    {
      hide Conserved, MutexHeldByItsOwner, ControlPhases, ClosedForGood, Accounted, InFlight;
      match worker
      case Unborn =>
      case Booting => InitCom(lucky);
      case BootFailed => GiveUpBooting();
      case LoopTop => TestLoop();
      case Draining(_) => if mutex == Free { SwapQueue(); }
      case Running(_) => if batch != [] { ExecuteFront(); } else { FinishBatch(); }
      case Peeking => PeekMessages(quitPosted && lucky);
      case Exited(_) =>
    }

    /** The next step of start(), and then of stop(). */
    method ControlStep()
      requires Valid()
      modifies `running, `accepting, `worker, `quitPosted, `control, `threadUp
      ensures Valid()
      ensures match old(control)
              case Fresh => running && control == MarkedRunning
              case MarkedRunning => accepting && control == Accepting
              case Accepting => worker == Booting && control == Spawned
              case Spawned => control == if threadUp then Up else if running then Spawned else StartFailing
              case StartFailing | Joining => control == if worker.Exited? then Down else old(control)
              case Up => !accepting && control == Closed
              case Closed => quitPosted && control == Joining
              case Down => control == Down
      ensures old(control) != Accepting ==> worker == old(worker)
      ensures old(LastSwapDone()) ==> LastSwapDone()
      ensures old(ShutForGood()) ==> ShutForGood()
    {
      hide Conserved, MutexHeldByItsOwner, ClosedForGood, Accounted, InFlight;
      match control
      case Fresh => MarkRunning();
      case MarkedRunning => OpenQueue();
      case Accepting => SpawnThread();
      case Spawned => AwaitThread();
      case StartFailing => if worker.Exited? { JoinAfterFailedStart(); }
      case Up => CloseQueue();
      case Closed => PostQuitMessage();
      case Joining => if worker.Exited? { Join(); }
      case Down =>
    }

    /** All calls begun since these counts are late. */
    ghost predicate LateSince(before: map<nat, nat>)
      reads `late, `calls
    {
      forall t: Task :: (t.poster in before ==> t.call >= before[t.poster]) && t.call < Calls(t.poster) ==> t in late
    }

    lemma LateReturnsFalse(before: map<nat, nat>)
      requires Valid() && LateSince(before)
      ensures forall t :: t in results && (t.poster in before ==> t.call >= before[t.poster]) ==> !results[t]
    {
    }

    /** Plays a schedule; a step whose thread has to wait is skipped. What was accepted and executed
        only grows, a fault is final, after the last swap nothing is accepted any more, and a call made
        once the worker has faulted, has been stopped or has ended returns false. */
    method Run(schedule: seq<Action>)
      requires Valid()
      modifies this
      ensures Valid()
      ensures old(accepted) <= accepted && old(executed) <= executed
      ensures old(faulted) ==> faulted
      ensures old(LastSwapDone()) ==> LastSwapDone() && accepted == old(accepted)
      ensures old(ShutForGood()) ==> forall t :: t in results && t.call >= old(Calls(t.poster)) ==> !results[t]
    {
      hide Valid, LastSwapDone, ShutForGood;
      for i := 0 to |schedule|
        invariant Valid()
        invariant old(accepted) <= accepted && old(executed) <= executed
        invariant old(faulted) ==> faulted
        invariant old(LastSwapDone()) ==> LastSwapDone() && accepted == old(accepted)
        invariant old(ShutForGood()) ==> ShutForGood() && LateSince(old(calls))
      {
        match schedule[i]
        case Call(p) => CallStep(p, old(calls));
        case Post(p) => PosterStep(p);
        case Work(lucky) => WorkerStep(lucky);
        case Control => ControlStep();
        case RecordFault => RecordFault();
        case RefuseAfterFault => if faulted { RefuseAfterFault(); }
      }
      if old(ShutForGood()) {
        LateReturnsFalse(old(calls));
      }
    }

    // -------------------------------------------------------------- what every run promises

    /** Once the worker thread has exited nothing is left in its hands, and the tasks it ran are all
        the tasks ever pushed -- exactly when COM came up, or nothing had been pushed at all. */
    lemma ExitLosesNothingIffComCameUp()
      requires Valid() && worker.Exited?
      ensures batch == []
      ensures worker.comReady ==> queue == []
      ensures executed == accepted <==> worker.comReady || accepted == []
    {
      assert batch == [];
      if worker.comReady {
        assert queue == [] && executed + [] + [] == executed;
      }
    }

    /** The promise of `postTask`: after a regular exit, a call that returned true had its task run
        exactly once, and a call that returned false had it never run. */
    lemma PostTaskKeepsItsPromise(t: Task)
      requires Valid() && worker == Exited(true) && t in results
      ensures multiset(executed)[t] == if results[t] then 1 else 0
    {
      ExitLosesNothingIffComCameUp();
      OccursAtMostOnce(executed, t);
    }

    /** While stop() waits for the thread to end, the quit message has been posted and, the thread
        being gone or still in its loop, can end it; and nothing is accepted from then on. */
    lemma StopCanJoin()
      requires Valid() && control == Joining
      ensures quitPosted && !accepting
      ensures worker.InLoop() || worker == Exited(true)
    {
    }
  }

  /** How many states of its loop a worker has before it that finds WM_QUIT at its next look. */
  function Phase(w: ComThreadWorker): nat
    reads w`worker, w`running
  {
    match w.worker
    case LoopTop => if w.running then 7 else 1
    case Draining(quit) => if quit then 3 else 6
    case Running(quit) => if quit then 2 else 5
    case Peeking => 4
    case _ => 0
  }

  /** `stop()` on a worker that is up: whatever has been posted, the thread comes to its end, and every
      task that was accepted has been run -- if no other thread holds the mutex for good. */
  method StopRunsEverything(w: ComThreadWorker)
    requires w.Valid() && w.control == Up && w.mutex == Free
    modifies w
    ensures w.Valid() && w.control == Down && w.worker == Exited(true)
    ensures w.executed == w.accepted == old(w.accepted) && w.results == old(w.results)
  {
    hide ComThreadWorker.Valid;
    w.ControlStep();
    w.ControlStep();
    w.StopCanJoin();
    while w.worker.InLoop()
      invariant w.Valid() && w.control == Joining && w.quitPosted && w.mutex == Free
      invariant w.worker.InLoop() || w.worker == Exited(true)
      invariant w.accepted == old(w.accepted) && w.results == old(w.results)
      decreases Phase(w), |w.batch|
    {
      w.WorkerStep(true);
      w.StopCanJoin();
    }
    w.ControlStep();
    w.ExitLosesNothingIffComCameUp();
  }

  lemma {:induction false} OccursAtMostOnce(ts: seq<Task>, t: Task)
    requires NoDuplicates(ts)
    ensures multiset(ts)[t] == if t in ts then 1 else 0
  {
    if ts != [] {
      assert ts == ts[..|ts| - 1] + [ts[|ts| - 1]];
      OccursAtMostOnce(ts[..|ts| - 1], t);
    }
  }

  /** Why a working COM runtime has to be assumed: start() opens the queue before the thread has
      initialised COM, so a task accepted in that window is lost when the initialisation fails. */
  method TaskLostWhenComInitFails() returns (w: ComThreadWorker)
    ensures fresh(w) && w.Valid()
    ensures w.worker == Exited(false) && w.results == map[Task(7, 0) := true] && w.executed == []
  {
    hide ComThreadWorker.Valid;
    w := new ComThreadWorker();
    w.MarkRunning();
    w.OpenQueue();
    PostOneTask(w, 7);
    w.SpawnThread();
    w.InitCom(false);
    w.GiveUpBooting();
  }

  /** A call of `postTask` that no other thread disturbs, on an open queue. */
  method PostOneTask(w: ComThreadWorker, p: nat)
    requires w.Valid() && w.Pc(p).Idle? && w.mutex == Free
    requires w.running && w.accepting && !w.faulted
    modifies w`posters, w`calls, w`mutex, w`queue, w`accepted, w`results, w`late
    ensures w.Valid() && w.Pc(p).Idle? && w.mutex == Free
    ensures var t := Task(p, old(w.Calls(p)));
            w.results == old(w.results)[t := true] && w.accepted == old(w.accepted) + [t]
  {
    hide ComThreadWorker.Valid;
    w.EnterPostTask(p);
    var t := w.Pc(p).task;
    PassBeforeLock(w, p, t);
    w.LockMutex(p);
    PassUnderLock(w, p, t);
    w.Push(p);
    w.UnlockAndReturn(p);
  }

  method PassBeforeLock(w: ComThreadWorker, p: nat, t: Task)
    requires w.Valid() && w.Pc(p) == Early(t, 0)
    requires w.running && w.accepting && !w.faulted
    modifies w`posters, w`results
    ensures w.Valid() && w.Pc(p) == WantLock(t) && w.results == old(w.results)
  {
    hide ComThreadWorker.Valid;
    for n := 0 to FLAG_LOADS
      invariant w.Valid() && w.Pc(p) == Early(t, n) && w.results == old(w.results)
    {
      w.LoadFlagEarly(p);
    }
    w.PassEarlyTest(p);
  }

  method PassUnderLock(w: ComThreadWorker, p: nat, t: Task)
    requires w.Valid() && w.Pc(p) == Locked(t, 0)
    requires w.running && w.accepting && !w.faulted
    modifies w`posters
    ensures w.Valid() && w.Pc(p) == Locked(t, FLAG_LOADS)
  {
    hide ComThreadWorker.Valid;
    for n := 0 to FLAG_LOADS
      invariant w.Valid() && w.Pc(p) == Locked(t, n)
    {
      w.LoadFlagLocked(p);
    }
  }
}
