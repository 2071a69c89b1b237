/** How a timed-out COM call disables the wrapper for good. Two flags take part: the wrapper's own,
    which `initialize` clears, and the worker's, which nothing clears. Public calls come one after
    the other and never from the COM thread; what each COM task does is a choice of the caller of
    the model, so `Run` covers every history of calls and every behaviour of the component.
 */
module FaultLatch {
  import opened Wrappers
  import opened ErrorCodes

  /** What a task does once the worker thread runs it. */
  datatype Behaviour = Completes(value: int) | Raises | TakesTooLong

  /** How `ComThreadWorker::invokeTask` comes back. */
  datatype TaskResult = TaskValue(value: int) | TaskRaised | TaskRefused | TaskTimedOut

  /** How `invokeComCall` comes back: with a value, with the exception of the task or the worker, or
      with the fatal exception. */
  datatype CallResult = Value(value: int) | Exception | Fatal

  datatype InitResult = Succeeded | Failed | Threw

  datatype InitScript = InitScript(create: Behaviour, jvInit: Behaviour, cleanup: Behaviour,
                                   close: Behaviour, hasHandler: bool, connect: Behaviour)
  {
    /** All steps up to the one that sets is_initialized_ succeed. */
    predicate ReachesEnd() {
      create.Completes? && create.value != 0 && jvInit == Completes(JV_SUCCESS) && close.Completes?
    }
  }

  datatype PublicCall =
    | Initialize(script: InitScript)
    | Shutdown(task: Behaviour)
    | Query(calls: seq<Behaviour>, close: Behaviour)   // queryStored, queryRealtime
    | Simple(task: Behaviour)                          // every operation that is one COM call

  class JVLinkWrapper {
    // the worker's flags; m_running stays set from the wrapper's constructor to its destructor
    var workerFaulted: bool
    var workerAccepting: bool
    // the wrapper's
    var initialized: bool
    var faulted: bool
    var currentOperation: Option<string>

    ghost var callTimedOut: bool     // invokeComCall has seen a timeout
    ghost var guardTimedOut: bool    // the session guard's close has timed out
    ghost var tasksRun: nat          // tasks handed to the worker thread

    constructor ()
      ensures Valid() && !initialized && !workerFaulted
    {
      workerFaulted, workerAccepting := false, true;
      initialized, faulted, currentOperation := false, false, None;
      callTimedOut, guardTimedOut, tasksRun := false, false, 0;
    }

    predicate Operational()
      reads `initialized, `faulted
    {
      initialized && !faulted
    }

    /** The `status` of the health snapshot. */
    function Status(): string
      reads `initialized, `faulted
    {
      if faulted then "faulted" else if initialized then "healthy" else "uninitialized"
    }

    ghost predicate Latched()
      reads this
    {
      && (workerFaulted <==> callTimedOut || guardTimedOut)
      && (workerAccepting <==> !workerFaulted)
      && !(callTimedOut && guardTimedOut)
      && (callTimedOut ==> !initialized)
      && (guardTimedOut ==> initialized && !faulted)
      && (faulted ==> callTimedOut)
    }

    /** Between public calls no operation is on record, except the one that timed out. */
    ghost predicate Valid()
      reads this
    {
      Latched() && (!faulted ==> currentOperation == None)
    }

    // -------------------------------------------------------------- the two ways to the COM thread

    method InvokeTask(task: Behaviour) returns (r: TaskResult)
      requires workerAccepting <==> !workerFaulted
      modifies `workerFaulted, `workerAccepting, `tasksRun
      ensures workerAccepting <==> !workerFaulted
      ensures old(workerFaulted) ==> r == TaskRefused && tasksRun == old(tasksRun) && workerFaulted
      ensures !old(workerFaulted) ==>
                && tasksRun == old(tasksRun) + 1
                && (workerFaulted <==> task.TakesTooLong?)
                && r == match task
                        case Completes(v) => TaskValue(v)
                        case Raises => TaskRaised
                        case TakesTooLong => TaskTimedOut
    {
      if workerFaulted {
        return TaskRefused;
      }
      if !workerAccepting {
        return TaskRefused;
      }
      tasksRun := tasksRun + 1;
      match task
      case Completes(v) => r := TaskValue(v);
      case Raises => r := TaskRaised;
      case TakesTooLong =>
        workerFaulted := true;
        workerAccepting := false;
        r := TaskTimedOut;
    }

    method InvokeComCall(name: string, task: Behaviour) returns (r: CallResult)
      requires Latched()
      modifies `workerFaulted, `workerAccepting, `initialized, `faulted, `currentOperation, `callTimedOut, `tasksRun
      ensures Latched() && guardTimedOut == old(guardTimedOut)
      ensures !faulted ==> currentOperation == None || currentOperation == old(currentOperation)
      ensures !faulted && !old(faulted) ==> currentOperation == None
      ensures old(workerFaulted) ==>
                && tasksRun == old(tasksRun) && workerFaulted && callTimedOut == old(callTimedOut)
                && initialized == old(initialized) && faulted == old(faulted)
                && r == if old(faulted) then Fatal else Exception
      ensures !old(workerFaulted) ==> tasksRun == old(tasksRun) + 1
      ensures !old(workerFaulted) && !task.TakesTooLong? ==>
                && !workerFaulted && initialized == old(initialized) && !faulted && !callTimedOut
                && r == if task.Completes? then Value(task.value) else Exception
      ensures !old(workerFaulted) && task.TakesTooLong? ==>
                && r == Fatal && faulted && !initialized && callTimedOut && currentOperation == Some(name)
    {
      if faulted {
        return Fatal;
      }
      currentOperation := Some(name);
      var t := InvokeTask(task);
      match t
      case TaskValue(v) =>
        currentOperation := None;
        r := Value(v);
      case TaskTimedOut =>
        MarkFatalFault();
        r := Fatal;
      case TaskRaised =>
        currentOperation := None;
        r := Exception;
      case TaskRefused =>
        currentOperation := None;
        r := Exception;
    }

    method MarkFatalFault()
      modifies `faulted, `initialized, `callTimedOut
      ensures faulted && !initialized && callTimedOut
    {
      faulted, initialized := true, false;
      callTimedOut := true;
    }

    /** The destructor of the session guard: it bypasses `invokeComCall` and swallows everything. */
    method CloseSession(close: Behaviour)
      requires Latched() && (initialized || workerFaulted)
      modifies `workerFaulted, `workerAccepting, `guardTimedOut, `tasksRun
      ensures Latched() && initialized == old(initialized)
      ensures old(workerFaulted) ==> tasksRun == old(tasksRun) && guardTimedOut == old(guardTimedOut)
      ensures !old(workerFaulted) ==> guardTimedOut == close.TakesTooLong?
    {
      var t := InvokeTask(close);
      if t == TaskTimedOut {
        guardTimedOut := true;
      }
    }

    // -------------------------------------------------------------- public calls

    method Initialize(s: InitScript) returns (r: InitResult)
      requires Valid()
      modifies `workerFaulted, `workerAccepting, `initialized, `faulted, `currentOperation, `callTimedOut, `tasksRun
      ensures Valid() && guardTimedOut == old(guardTimedOut)
      ensures old(callTimedOut) ==> callTimedOut && r == Threw && !faulted
      ensures old(initialized) ==> r == Succeeded && initialized
      ensures r == Succeeded ==> Operational()
      ensures !old(initialized) && Operational() ==> s.ReachesEnd()
      ensures !old(initialized) && !old(workerFaulted) ==>
                && (initialized <==> s.ReachesEnd() && !(s.hasHandler && s.connect.TakesTooLong?))
                && r == (if !s.create.Completes? then Threw
                         else if s.create.value == 0 then Failed
                         else if !s.jvInit.Completes? then Threw
                         else if s.jvInit.value != 0 || !s.close.Completes? then Failed
                         else if s.hasHandler && !s.connect.Completes? then Threw else Succeeded)
                && tasksRun - old(tasksRun) == (if !s.create.Completes? || s.create.value == 0 then 1
                                                else if !s.jvInit.Completes? then 2
                                                else if s.ReachesEnd() && s.hasHandler then 4 else 3)
      ensures old(workerFaulted) ==> tasksRun == old(tasksRun)
    {
      if initialized {
        return Succeeded;
      }
      faulted := false;
      currentOperation := None;
      var c := InvokeComCall("create_jvlink_instance", s.create);
      if !c.Value? {
        return Threw;
      }
      if c.value == 0 {
        return Failed;
      }
      c := InvokeComCall("jv_init", s.jvInit);
      if !c.Value? {
        return Threw;
      }
      if c.value != JV_SUCCESS {
        c := InvokeComCall("cleanup_after_jvinit_failure", s.cleanup);
        if c.Value? {
          initialized := false;
        }
        return Failed;
      }
      c := InvokeComCall("initial_jvclose", s.close);
      if !c.Value? {
        return Failed;
      }
      initialized := true;
      if s.hasHandler {
        c := InvokeComCall("connect_event_sink", s.connect);
        if !c.Value? {
          return Threw;
        }
      }
      return Succeeded;
    }

    method Shutdown(task: Behaviour)
      requires Valid()
      modifies `workerFaulted, `workerAccepting, `initialized, `faulted, `currentOperation, `callTimedOut, `tasksRun
      ensures Valid() && guardTimedOut == old(guardTimedOut)
      ensures old(callTimedOut) ==> callTimedOut
      ensures task.Completes? && !old(workerFaulted) ==> !initialized
      ensures old(workerFaulted) ==> tasksRun == old(tasksRun)
    {
      if faulted {
        initialized := false;
        return;
      }
      var c := InvokeComCall("shutdown_wrapper", task);
      if c.Value? {
        initialized := false;
      }
    }

    /** `queryStored` or `queryRealtime`: COM calls until one throws or they are all made, and then
        the guard's close. */
    method Query(calls: seq<Behaviour>, close: Behaviour) returns (made: nat)
      requires Valid()
      modifies `workerFaulted, `workerAccepting, `initialized, `faulted, `currentOperation,
               `callTimedOut, `guardTimedOut, `tasksRun
      ensures Valid()
      ensures old(callTimedOut) ==> callTimedOut
      ensures old(guardTimedOut) ==> guardTimedOut
      ensures old(workerFaulted) ==> tasksRun == old(tasksRun)
      ensures made <= |calls|
      ensures old(initialized) && !old(workerFaulted) ==>
                && (callTimedOut <==> made > 0 && calls[made - 1].TakesTooLong?)
                && (guardTimedOut <==> !callTimedOut && close.TakesTooLong?)
      ensures forall k :: 0 <= k < made - 1 ==> calls[k].Completes?
    {
      made := 0;
      if !initialized {
        return;
      }
      var goOn := true;
      while goOn && made < |calls|
        invariant Valid() && made <= |calls|
        invariant (initialized || workerFaulted) && guardTimedOut == old(guardTimedOut)
        invariant old(workerFaulted) ==> workerFaulted && tasksRun == old(tasksRun) && callTimedOut == old(callTimedOut)
        invariant !old(workerFaulted) ==> (callTimedOut <==> made > 0 && calls[made - 1].TakesTooLong?)
        invariant forall k :: 0 <= k < made - 1 ==> calls[k].Completes?
        invariant goOn && made > 0 ==> calls[made - 1].Completes?
        decreases |calls| - made, goOn
      {
        var c := InvokeComCall("jv_call", calls[made]);
        made := made + 1;
        goOn := c.Value?;
      }
      CloseSession(close);
    }

    method Simple(task: Behaviour) returns (r: CallResult)
      requires Valid()
      modifies `workerFaulted, `workerAccepting, `initialized, `faulted, `currentOperation, `callTimedOut, `tasksRun
      ensures Valid() && guardTimedOut == old(guardTimedOut)
      ensures old(callTimedOut) ==> callTimedOut
      ensures old(workerFaulted) ==> tasksRun == old(tasksRun) && !r.Value?
      ensures !old(workerFaulted) && task.TakesTooLong? ==> callTimedOut
    {
      r := InvokeComCall("simple", task);
    }

    // -------------------------------------------------------------- histories

    /** Any later history of public calls keeps a timeout in force: no task reaches the COM thread
        again, and after a timeout that `invokeComCall` saw the wrapper is not operational at its end
        -- and so, histories being closed under prefixes, at any point of it. */
    method Run(calls: seq<PublicCall>)
      requires Valid()
      modifies this
      ensures Valid()
      ensures old(callTimedOut) ==> callTimedOut && !Operational()
      ensures old(guardTimedOut) ==> guardTimedOut && Operational()
      ensures old(workerFaulted) ==> workerFaulted && tasksRun == old(tasksRun)
    {
      for i := 0 to |calls|
        invariant Valid()
        invariant old(callTimedOut) ==> callTimedOut
        invariant old(guardTimedOut) ==> guardTimedOut
        invariant old(workerFaulted) ==> workerFaulted && tasksRun == old(tasksRun)
      {
        match calls[i]
        case Initialize(s) => var _ := Initialize(s);
        case Shutdown(task) => Shutdown(task);
        case Query(cs, close) => var _ := Query(cs, close);
        case Simple(task) => var _ := Simple(task);
      }
    }

    /** The status of a health report. */
    lemma StatusTells()
      requires Valid()
      ensures Status() == "healthy" <==> Operational()
      ensures Status() == "faulted" <==> faulted
      ensures Status() == "uninitialized" <==> !initialized && !faulted
    {
    }

    /** Which faults of the worker the wrapper notices: exactly those it met in `invokeComCall`. One
        met by the guard's close leaves it reporting "healthy" although every call is refused. */
    lemma NoticedIffMetByACall()
      requires Valid() && workerFaulted
      ensures Operational() <==> guardTimedOut
      ensures callTimedOut <==> !guardTimedOut
      ensures guardTimedOut ==> Status() == "healthy"
    {
    }
  }

  /** The unnoticed fault happens: initialise, run one query, let the close time out. */
  method HealthyButDead() returns (w: JVLinkWrapper)
    ensures fresh(w) && w.Valid()
    ensures w.workerFaulted && w.Operational() && w.Status() == "healthy"
  {
    w := new JVLinkWrapper();
    var ok := Completes(1);
    var r := w.Initialize(InitScript(ok, Completes(0), ok, ok, false, ok));
    var _ := w.Query([ok], TakesTooLong);
  }
}
