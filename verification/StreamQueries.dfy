/** The two streaming queries of the JV-Link wrapper with their session guard, and the lines the HTTP
    handlers make of what the queries report: at most one meta line, before any record, and at most
    one error line, after everything else.
 */
module StreamQueries {
  import opened Wrappers
  import opened ErrorCodes
  import opened StoredRead

  /** What a query reports through its callbacks. */
  datatype Event = MetaEvent | ErrorEvent(code: int) | RecordEvent(record: Record)

  /** The COM calls that matter for the exclusiveness of the component's single session. */
  datatype ComOp = OpenOp | CloseOp

  /** How a query comes back to the handler that called it. */
  datatype QueryExit =
    | Normal
    | ClientGone                  // a callback threw because the client is gone
    | OperationCanceled
    | StreamReadFailed(code: int)
    | FatalFailure                // a COM call timed out, or the wrapper was faulted already
    | OtherFailure
    | ScriptEnds                  // the script is too short to show the end

  /** What happens when the meta callback is called: the line is written, or it is handed to the writer
      and a write fails at some byte of it, or it cannot be rendered and nothing is handed on. */
  datatype MetaOutcome = MetaWritten | MetaClientGone | MetaFailed

  datatype Call<T> = Returns(value: T) | Throws(fatal: bool)

  datatype OpenAnswer = OpenAnswer(code: int, readCount: int, downloadCount: int)

  /** One turn of the wait for the download. */
  datatype Poll = Poll(cancel: bool, status: Call<int>)

  datatype StoredScript = StoredScript(
    initialized: bool,
    open: Call<OpenAnswer>,
    cancelAfterOpen: bool,
    polls: seq<Poll>,
    cancelAfterWait: bool,
    cancelBeforeMeta: bool,
    meta: MetaOutcome,
    turns: seq<Turn>,
    comFailureIsFatal: bool)      // whether a COM call that throws in the read loop has timed out

  // ---------------------------------------------------------------- waiting for the download

  const BASE_POLLS := 3000
  const POLLS_PER_FILE := 60

  predicate Covers(p: Poll, downloadCount: int) {
    p.status.Returns? && p.status.value >= downloadCount
  }

  datatype WaitResult =
    | Downloaded
    | WaitFailed(status: int)     // waitForDownload returned false
    | WaitThrew(fatal: bool)
    | WaitUnfinished              // the script is too short

  function Budget(downloadCount: int): nat
    requires downloadCount > 0
  {
    BASE_POLLS + POLLS_PER_FILE * downloadCount
  }

  /** A poll that leaves the wait going on. */
  predicate InProgress(p: Poll, downloadCount: int) {
    !p.cancel && p.status.Returns? && 0 <= p.status.value < downloadCount
  }

  /** What a poll that does not makes of the wait. */
  function Verdict(p: Poll, downloadCount: int): WaitResult {
    if p.cancel then WaitFailed(JV_ERROR_DOWNLOAD_FAILED)
    else if p.status.Throws? then WaitThrew(p.status.fatal)
    else if p.status.value >= downloadCount then Downloaded
    else WaitFailed(p.status.value)
  }

  function Wait(polls: seq<Poll>, downloadCount: int, budget: nat): WaitResult {
    if budget == 0 then WaitFailed(JV_ERROR_DOWNLOAD_FAILED)
    else if polls == [] then WaitUnfinished
    else if InProgress(polls[0], downloadCount) then Wait(polls[1..], downloadCount, budget - 1)
    else Verdict(polls[0], downloadCount)
  }

  /** Poll `k` is made and settles the wait. */
  predicate Settles(polls: seq<Poll>, downloadCount: int, budget: nat, k: nat) {
    && k < |polls| && k < budget && !InProgress(polls[k], downloadCount)
    && forall j :: 0 <= j < k ==> InProgress(polls[j], downloadCount)
  }

  /** The polls up to `n` leave the wait going on, and there is no other. */
  predicate AllInProgress(polls: seq<Poll>, downloadCount: int, n: nat) {
    n <= |polls| && forall j :: 0 <= j < n ==> InProgress(polls[j], downloadCount)
  }

  lemma {:induction false} WaitBehind(polls: seq<Poll>, downloadCount: int, budget: nat, n: nat)
    requires AllInProgress(polls, downloadCount, n) && n <= budget
    ensures Wait(polls, downloadCount, budget) == Wait(polls[n..], downloadCount, budget - n)
  {
    if n > 0 {
      WaitBehind(polls[1..], downloadCount, budget - 1, n - 1);
      assert polls[1..][n - 1..] == polls[n..];
    } else {
      assert polls[0..] == polls;
    }
  }

  lemma {:induction false} WaitCases(polls: seq<Poll>, downloadCount: int, budget: nat)
    ensures forall k: nat :: Settles(polls, downloadCount, budget, k) ==>
              Wait(polls, downloadCount, budget) == Verdict(polls[k], downloadCount)
    ensures AllInProgress(polls, downloadCount, budget) ==>
              Wait(polls, downloadCount, budget) == WaitFailed(JV_ERROR_DOWNLOAD_FAILED)
    ensures |polls| < budget && AllInProgress(polls, downloadCount, |polls|) <==>
              Wait(polls, downloadCount, budget) == WaitUnfinished
    ensures (exists k: nat :: Settles(polls, downloadCount, budget, k))
            || AllInProgress(polls, downloadCount, budget)
            || (|polls| < budget && AllInProgress(polls, downloadCount, |polls|))
  {
    if budget > 0 && polls != [] {
      var rest := polls[1..];
      if InProgress(polls[0], downloadCount) {
        WaitCases(rest, downloadCount, budget - 1);
        assert forall j :: 0 < j < |polls| ==> polls[j] == rest[j - 1];
        assert AllInProgress(polls, downloadCount, |polls|) <==> AllInProgress(rest, downloadCount, |rest|);
        assert AllInProgress(polls, downloadCount, budget) <==> AllInProgress(rest, downloadCount, budget - 1);
        forall k: nat | Settles(polls, downloadCount, budget, k)
          ensures Wait(polls, downloadCount, budget) == Verdict(polls[k], downloadCount)
        {
          assert Settles(rest, downloadCount, budget - 1, k - 1);
        }
        var left := budget - 1;
        if k: nat :| Settles(rest, downloadCount, left, k) {
          assert Settles(polls, downloadCount, budget, k + 1);
        }
      } else {
        assert Settles(polls, downloadCount, budget, 0);
      }
    }
  }

  /** What the wait of a query comes to: the answer of the first poll that leaves it, the wait's own code
      for a cancellation and for a budget used up, or nothing in a script that is too short. One of the
      three is the case. */
  lemma WaitEndsIff(polls: seq<Poll>, downloadCount: int)
    requires downloadCount > 0
    ensures var (wait, budget) := (Wait(polls, downloadCount, Budget(downloadCount)), 3000 + 60 * downloadCount);
            && (forall k: nat :: Settles(polls, downloadCount, budget, k) ==>
                  wait == if polls[k].cancel then WaitFailed(-502)
                          else if polls[k].status.Throws? then WaitThrew(polls[k].status.fatal)
                          else if polls[k].status.value < 0 then WaitFailed(polls[k].status.value)
                          else Downloaded)
            && (AllInProgress(polls, downloadCount, budget) ==> wait == WaitFailed(-502))
            && (wait == WaitUnfinished <==> |polls| < budget && AllInProgress(polls, downloadCount, |polls|))
            && ((exists k: nat :: Settles(polls, downloadCount, budget, k))
                || AllInProgress(polls, downloadCount, budget) || wait == WaitUnfinished)
  {
    hide Wait, Verdict, InProgress, AllInProgress;
    var budget := Budget(downloadCount);
    WaitCases(polls, downloadCount, budget);
    forall k: nat | Settles(polls, downloadCount, budget, k) {
      VerdictOf(polls[k], downloadCount);
    }
  }

  lemma VerdictOf(p: Poll, downloadCount: int)
    requires downloadCount > 0 && !InProgress(p, downloadCount)
    ensures Verdict(p, downloadCount) ==
            if p.cancel then WaitFailed(-502)
            else if p.status.Throws? then WaitThrew(p.status.fatal)
            else if p.status.value < 0 then WaitFailed(p.status.value)
            else Downloaded
  {
  }

  /** The download is waited for successfully if and only if, within 3000 polls and 60 more for each file,
      one covers all files, none is cancelled, and every earlier one answers with less and no error. */
  lemma DownloadedIff(polls: seq<Poll>, downloadCount: int)
    requires downloadCount > 0
    ensures Wait(polls, downloadCount, Budget(downloadCount)) == Downloaded
            <==> exists k: nat :: && k < |polls| && k < 3000 + 60 * downloadCount
                                  && !polls[k].cancel && Covers(polls[k], downloadCount)
                                  && forall j :: 0 <= j < k ==>
                                       && !polls[j].cancel && polls[j].status.Returns?
                                       && 0 <= polls[j].status.value < downloadCount
  {
    hide Wait;
    WaitCases(polls, downloadCount, Budget(downloadCount));
    if k: nat :| && k < |polls| && k < 3000 + 60 * downloadCount
                 && !polls[k].cancel && Covers(polls[k], downloadCount)
                 && forall j :: 0 <= j < k ==> && !polls[j].cancel && polls[j].status.Returns?
                                               && 0 <= polls[j].status.value < downloadCount
    {
      assert Settles(polls, downloadCount, Budget(downloadCount), k);
    }
  }

  /** Polls the download at most 3000 + 60 * `downloadCount` times; `made` is how often it has asked. */
  method WaitForDownload(polls: seq<Poll>, downloadCount: int) returns (w: WaitResult, made: nat)
    requires downloadCount > 0
    ensures w == Wait(polls, downloadCount, Budget(downloadCount))
    ensures made <= |polls| && made <= 3000 + 60 * downloadCount
    ensures forall k :: 0 <= k < made - 1 ==> InProgress(polls[k], downloadCount)
  {
    made := 0;
    for i := 0 to Budget(downloadCount)
      invariant made == i && AllInProgress(polls, downloadCount, i)
    {
      WaitBehind(polls, downloadCount, Budget(downloadCount), i);
      if i == |polls| {
        return WaitUnfinished, made;
      }
      assert polls[i..][0] == polls[i] && polls[i..][1..] == polls[i + 1..];
      if polls[i].cancel {
        return WaitFailed(JV_ERROR_DOWNLOAD_FAILED), made;
      }
      made := made + 1;
      if polls[i].status.Throws? {
        return WaitThrew(polls[i].status.fatal), made;
      }
      var status := polls[i].status.value;
      if status >= downloadCount {
        return Downloaded, made;
      }
      if status < 0 {
        return WaitFailed(status), made;
      }
    }
    WaitBehind(polls, downloadCount, Budget(downloadCount), Budget(downloadCount));
    w := WaitFailed(JV_ERROR_DOWNLOAD_FAILED);
  }

  // ---------------------------------------------------------------- stored query

  predicate AllRecords(events: seq<Event>) {
    forall i :: 0 <= i < |events| ==> events[i].RecordEvent?
  }

  /** The shapes a query's reports may have: nothing; one error, and the query ends with it; or one meta
      report and then records. */
  predicate WellFormedReport(events: seq<Event>, exit: QueryExit) {
    || events == []
    || (|events| == 1 && events[0].ErrorEvent? && (exit.Normal? || exit.ClientGone?))
    || (events[0].MetaEvent? && AllRecords(events[1..]))
  }

  function AsEvents(rs: seq<Record>): (es: seq<Event>)
    ensures |es| == |rs| && AllRecords(es)
    ensures forall i :: 0 <= i < |rs| ==> es[i] == RecordEvent(rs[i])
  {
    seq(|rs|, i requires 0 <= i < |rs| => RecordEvent(rs[i]))
  }

  function LoopExit(exit: Exit, fatal: bool): QueryExit {
    match exit
    case Unfinished => ScriptEnds
    case Completed => Normal
    case Canceled => OperationCanceled
    case ReadError(code) => StreamReadFailed(code)
    case RetriesExhausted => StreamReadFailed(JV_ERROR_DOWNLOAD_FAILED)
    case CallbackThrew => ClientGone
    case ComCallThrew => if fatal then FatalFailure else OtherFailure
  }

  function MetaExit(meta: MetaOutcome): QueryExit {
    match meta
    case MetaWritten => Normal
    case MetaClientGone => ClientGone
    case MetaFailed => OtherFailure
  }

  /** A report is handed to the writer even if the write then fails; what gets out of it is the writer's
      matter. One that cannot be rendered leaves no trace. */
  function Reported(e: Event, meta: MetaOutcome): seq<Event> {
    if meta.MetaFailed? then [] else [e]
  }

  /** The codes of JVOpen that end the query with an error report. */
  predicate OpenRefused(code: int) {
    code < 0 && code != JV_ERROR_NO_DATA
  }

  datatype Report = Report(events: seq<Event>, exit: QueryExit)

  function FailureExit(fatal: bool): QueryExit { if fatal then FatalFailure else OtherFailure }

  /** A single report, and how the query ends by it. */
  function Single(e: Event, meta: MetaOutcome): Report { Report(Reported(e, meta), MetaExit(meta)) }

  /** The meta report and the records behind it. */
  function WithRecords(s: StoredScript, filter: seq<string>, maxRecords: int): Report {
    if s.cancelBeforeMeta then Report([], OperationCanceled)
    else if !s.meta.MetaWritten? || s.open.Throws? || s.open.value.readCount <= 0 then Single(MetaEvent, s.meta)
    else
      var out := Play(s.turns, filter, EffectiveLimit(maxRecords), 0);
      Report([MetaEvent] + AsEvents(out.delivered), LoopExit(out.exit, s.comFailureIsFatal))
  }

  /** What a stored query reports, and how it ends. */
  function StoredReport(s: StoredScript, filter: seq<string>, maxRecords: int): Report {
    if !s.initialized then Single(ErrorEvent(0), s.meta)
    else if s.open.Throws? then Report([], FailureExit(s.open.fatal))
    else if s.cancelAfterOpen then Report([], OperationCanceled)
    else
      var OpenAnswer(code, _, downloadCount) := s.open.value;
      if OpenRefused(code) then Single(ErrorEvent(code), s.meta)
      else if downloadCount <= 0 then WithRecords(s, filter, maxRecords)
      else
        match Wait(s.polls, downloadCount, Budget(downloadCount))
        case WaitUnfinished => Report([], ScriptEnds)
        case WaitThrew(fatal) => Report([], FailureExit(fatal))
        case WaitFailed(status) =>
          if s.cancelAfterWait then Report([], OperationCanceled) else Single(ErrorEvent(status), s.meta)
        case Downloaded =>
          if s.cancelAfterWait then Report([], OperationCanceled) else WithRecords(s, filter, maxRecords)
  }

  /** The component has opened the data, and the download is complete. */
  predicate Opened(s: StoredScript) {
    && s.initialized && s.open.Returns? && !s.cancelAfterOpen && (s.open.value.code >= 0 || s.open.value.code == -1)
    && (s.open.value.downloadCount > 0 ==>
          && !s.cancelAfterWait
          && Wait(s.polls, s.open.value.downloadCount, Budget(s.open.value.downloadCount)) == Downloaded)
  }

  /** The shape of the reports, and when there is a meta report: if and only if the data could be
      opened and downloaded, nothing was cancelled before, and the report could be rendered. */
  lemma StoredReportShape(s: StoredScript, filter: seq<string>, maxRecords: int)
    ensures var Report(events, exit) := StoredReport(s, filter, maxRecords);
            && WellFormedReport(events, exit)
            && (exit.Normal? ==> events != [])
            && (events != [] && events[0].MetaEvent? <==> Opened(s) && !s.cancelBeforeMeta && !s.meta.MetaFailed?)
            && (events != [] && events[0].ErrorEvent? && s.initialized ==> events[0].code < 0)
  {
    hide Play, Wait;
    if s.open.Returns? && s.open.value.downloadCount > 0 {
      FailedStatusIsNegative(s.polls, s.open.value.downloadCount, Budget(s.open.value.downloadCount));
    }
  }

  lemma {:induction false} FailedStatusIsNegative(polls: seq<Poll>, downloadCount: int, budget: nat)
    ensures Wait(polls, downloadCount, budget).WaitFailed? ==> Wait(polls, downloadCount, budget).status < 0
  {
    if budget > 0 && polls != [] && InProgress(polls[0], downloadCount) {
      FailedStatusIsNegative(polls[1..], downloadCount, budget - 1);
    }
  }

  /** The calls of a query that open or close the component's session. */
  function QueryOps(initialized: bool): seq<ComOp> {
    if initialized then [OpenOp, CloseOp] else []
  }

  /** `queryStored`. The session guard makes every way out of the body pass through JVClose: by
      return, by an exception of the component, by a cancellation or by a callback that throws. */
  method QueryStored(s: StoredScript, filter: seq<string>, maxRecords: int)
    returns (events: seq<Event>, ops: seq<ComOp>, exit: QueryExit)
    ensures ops == QueryOps(s.initialized)
    ensures WellFormedReport(events, exit)
    ensures Report(events, exit) == StoredReport(s, filter, maxRecords)
  {
    StoredReportShape(s, filter, maxRecords);
    if !s.initialized {
      return Reported(ErrorEvent(0), s.meta), [], MetaExit(s.meta);
    }
    events, ops, exit := StoredBody(s, filter, maxRecords);
    ops := ops + [CloseOp];
  }

  method StoredBody(s: StoredScript, filter: seq<string>, maxRecords: int)
    returns (events: seq<Event>, ops: seq<ComOp>, exit: QueryExit)
    requires s.initialized
    ensures ops == [OpenOp]
    ensures Report(events, exit) == StoredReport(s, filter, maxRecords)
  {
    hide Play, Wait;
    events, ops := [], [OpenOp];
    if s.open.Throws? {
      exit := if s.open.fatal then FatalFailure else OtherFailure;
      return;
    }
    var OpenAnswer(openResult, readCount, downloadCount) := s.open.value;
    if s.cancelAfterOpen {
      exit := OperationCanceled;
      return;
    }
    if OpenRefused(openResult) {
      return Reported(ErrorEvent(openResult), s.meta), ops, MetaExit(s.meta);
    }
    if downloadCount > 0 {
      var wait, _ := WaitForDownload(s.polls, downloadCount);
      if wait.WaitUnfinished? {
        exit := ScriptEnds;
        return;
      }
      if wait.WaitThrew? {
        exit := if wait.fatal then FatalFailure else OtherFailure;
        return;
      }
      if s.cancelAfterWait {
        exit := OperationCanceled;
        return;
      }
      if wait.WaitFailed? {
        return Reported(ErrorEvent(wait.status), s.meta), ops, MetaExit(s.meta);
      }
    }
    if s.cancelBeforeMeta {
      exit := OperationCanceled;
      return;
    }
    events := Reported(MetaEvent, s.meta);
    exit := MetaExit(s.meta);
    if !s.meta.MetaWritten? {
      return;
    }
    if readCount > 0 {
      var out := ReadRecords(s.turns, filter, maxRecords);
      events := events + AsEvents(out.delivered);
      exit := LoopExit(out.exit, s.comFailureIsFatal);
    }
  }

  // ---------------------------------------------------------------- realtime query

  datatype RealtimeScript = RealtimeScript(
    initialized: bool,
    open: Call<int>,
    cancelAfterOpen: bool,
    cancelBeforeMeta: bool,
    meta: MetaOutcome,
    turns: seq<Turn>,
    comFailureIsFatal: bool)

  /** What the loop hands on for an answer with data: a success without a buffer is an empty record. */
  function RecordOf(buffer: Option<Record>): Record {
    match buffer
    case Some(r) => r
    case None => ""
  }

  datatype RealtimeOutcome = RealtimeOutcome(delivered: seq<Record>, exit: QueryExit) {
    function After(earlier: seq<Record>): RealtimeOutcome { RealtimeOutcome(earlier + delivered, exit) }
  }

  /** The realtime read loop; there is no limit, no filter and no retry budget. */
  function PlayRealtime(turns: seq<Turn>, fatal: bool): RealtimeOutcome {
    if turns == [] then RealtimeOutcome([], ScriptEnds)
    else if turns[0].cancelAtTop then RealtimeOutcome([], OperationCanceled)
    else if turns[0].gets.GetsThrew? then RealtimeOutcome([], FailureExit(fatal))
    else if turns[0].cancelAfterGets then RealtimeOutcome([], OperationCanceled)
    else
      var Returned(code, buffer) := turns[0].gets;
      if code > 0 then
        if turns[0].callbackThrows then RealtimeOutcome([RecordOf(buffer)], ClientGone)
        else if turns[0].cancelAfterCallback then RealtimeOutcome([RecordOf(buffer)], OperationCanceled)
        else PlayRealtime(turns[1..], fatal).After([RecordOf(buffer)])
      else if code == JV_SUCCESS then RealtimeOutcome([], Normal)
      else if code == JV_ERROR_FILE_SWITCHING || code == JV_ERROR_DOWNLOAD_IN_PROGRESS then
        PlayRealtime(turns[1..], fatal)
      else RealtimeOutcome([], StreamReadFailed(code))
  }

  /** The recursive form, unfolded at turn `i` behind what has been handed on. */
  lemma RealtimeTurn(turns: seq<Turn>, i: nat, fatal: bool, earlier: seq<Record>)
    requires i < |turns|
    ensures var (t, out) := (turns[i], PlayRealtime(turns[i..], fatal).After(earlier));
            if t.cancelAtTop then out == RealtimeOutcome(earlier, OperationCanceled)
            else if t.gets.GetsThrew? then out == RealtimeOutcome(earlier, FailureExit(fatal))
            else if t.cancelAfterGets then out == RealtimeOutcome(earlier, OperationCanceled)
            else
              var (code, more) := (t.gets.code, earlier + [RecordOf(t.gets.buffer)]);
              if code > 0 then
                if t.callbackThrows then out == RealtimeOutcome(more, ClientGone)
                else if t.cancelAfterCallback then out == RealtimeOutcome(more, OperationCanceled)
                else out == PlayRealtime(turns[i + 1..], fatal).After(more)
              else if code == JV_SUCCESS then out == RealtimeOutcome(earlier, Normal)
              else if code == JV_ERROR_FILE_SWITCHING || code == JV_ERROR_DOWNLOAD_IN_PROGRESS then
                out == PlayRealtime(turns[i + 1..], fatal).After(earlier)
              else out == RealtimeOutcome(earlier, StreamReadFailed(code))
  {
    assert turns[i..][0] == turns[i] && turns[i..][1..] == turns[i + 1..];
    assert earlier + [] == earlier;
    var rest := PlayRealtime(turns[i + 1..], fatal).delivered;
    if turns[i].gets.Returned? {
      var r := RecordOf(turns[i].gets.buffer);
      assert earlier + ([r] + rest) == (earlier + [r]) + rest;
    }
  }

  lemma RealtimeScriptEnds(fatal: bool, earlier: seq<Record>)
    ensures PlayRealtime([], fatal).After(earlier) == RealtimeOutcome(earlier, ScriptEnds)
  {
    assert earlier + [] == earlier;
  }

  method ReadRealtime(turns: seq<Turn>, fatal: bool) returns (delivered: seq<Record>, exit: QueryExit)
    ensures RealtimeOutcome(delivered, exit) == PlayRealtime(turns, fatal)
  {
    hide PlayRealtime;
    delivered := [];
    var i := 0;
    assert turns[0..] == turns && [] + PlayRealtime(turns, fatal).delivered == PlayRealtime(turns, fatal).delivered;
    while i < |turns|
      invariant i <= |turns|
      invariant PlayRealtime(turns, fatal) == PlayRealtime(turns[i..], fatal).After(delivered)
    {
      var t := turns[i];
      RealtimeTurn(turns, i, fatal, delivered);
      if t.cancelAtTop {
        return delivered, OperationCanceled;
      }
      i := i + 1;
      if t.gets.GetsThrew? {
        return delivered, if fatal then FatalFailure else OtherFailure;
      }
      if t.cancelAfterGets {
        return delivered, OperationCanceled;
      }
      var ret := t.gets.code;
      if ret > 0 {
        delivered := delivered + [RecordOf(t.gets.buffer)];
        if t.callbackThrows {
          return delivered, ClientGone;
        }
        if t.cancelAfterCallback {
          return delivered, OperationCanceled;
        }
      } else if ret == JV_SUCCESS {
        return delivered, Normal;
      } else if ret == JV_ERROR_FILE_SWITCHING {
        continue;
      } else if ret == JV_ERROR_DOWNLOAD_IN_PROGRESS {
        continue;
      } else {
        return delivered, StreamReadFailed(ret);
      }
    }
    assert turns[i..] == [];
    RealtimeScriptEnds(fatal, delivered);
    exit := ScriptEnds;
  }

  /** The script shows a reader of these records: data comes in order, the end only at the end. */
  ghost predicate RealtimeFrom(turns: seq<Turn>, records: seq<Record>) {
    turns == [] ||
    match turns[0].gets
    case GetsThrew => true
    case Returned(code, buffer) =>
      if code > 0 && buffer.Some? then
        records != [] && buffer.value == records[0] && code == |records[0]| && RealtimeFrom(turns[1..], records[1..])
      else if code == JV_SUCCESS then records == []
      else RealtimeFrom(turns[1..], records)
  }

  function NonEmpty(rs: seq<Record>): seq<Record> {
    if rs == [] then [] else (if rs[0] == "" then [] else [rs[0]]) + NonEmpty(rs[1..])
  }

  /** Apart from the empty records that answers without a buffer leave, a realtime query delivers a
      prefix of the records, and all of them when it ends normally. */
  lemma {:induction false} RealtimeDelivery(turns: seq<Turn>, records: seq<Record>, fatal: bool)
    requires RealtimeFrom(turns, records)
    ensures var out := PlayRealtime(turns, fatal);
            NonEmpty(out.delivered) <= records && (out.exit.Normal? ==> NonEmpty(out.delivered) == records)
  {
    if turns != [] && turns[0].gets.Returned? {
      var Returned(code, buffer) := turns[0].gets;
      var rest := if code > 0 && buffer.Some? then records[1..] else records;
      if code != JV_SUCCESS {
        RealtimeDelivery(turns[1..], rest, fatal);
      }
      if code > 0 {
        var (r, behind) := (RecordOf(buffer), PlayRealtime(turns[1..], fatal).delivered);
        assert ([r] + behind)[1..] == behind && [r][1..] == [];
        assert NonEmpty([r] + behind) == (if r == "" then [] else [r]) + NonEmpty(behind);
        assert NonEmpty([r]) == (if r == "" then [] else [r]) + NonEmpty([]);
      }
    }
  }

  /** How many answers the loop acts on by handing on a record or by going on. */
  function ActedOn(turns: seq<Turn>): nat {
    if turns == [] || turns[0].cancelAtTop || turns[0].gets.GetsThrew? || turns[0].cancelAfterGets then 0
    else
      var code := turns[0].gets.code;
      if code > 0 && (turns[0].callbackThrows || turns[0].cancelAfterCallback) then 1
      else if code > 0 || code == JV_ERROR_FILE_SWITCHING || code == JV_ERROR_DOWNLOAD_IN_PROGRESS then
        1 + ActedOn(turns[1..])
      else 0
  }

  /** Data announced without a buffer. */
  predicate Hollow(t: Turn) {
    t.gets.Returned? && t.gets.code > 0 && t.gets.buffer.None?
  }

  lemma {:induction false} ActedOnBound(turns: seq<Turn>)
    ensures ActedOn(turns) <= |turns|
  {
    if turns != [] {
      ActedOnBound(turns[1..]);
    }
  }

  /** A realtime query delivers a prefix of the reader's records, and nothing else, if and only if no
      answer that it acted on announced data without a buffer. Records are not empty, since their size
      is what the component returns for them. */
  lemma {:induction false} RealtimeIsAPrefixIff(turns: seq<Turn>, records: seq<Record>, fatal: bool)
    requires RealtimeFrom(turns, records) && "" !in records
    ensures ActedOn(turns) <= |turns|
    ensures PlayRealtime(turns, fatal).delivered <= records
            <==> forall k :: 0 <= k < ActedOn(turns) ==> !Hollow(turns[k])
  {
    ActedOnBound(turns);
    if ActedOn(turns) > 0 {
      var (code, buffer) := (turns[0].gets.code, turns[0].gets.buffer);
      var rest := if code > 0 && buffer.Some? then records[1..] else records;
      assert forall k :: 0 < k < |turns| ==> turns[k] == turns[1..][k - 1];
      var behind := PlayRealtime(turns[1..], fatal).delivered;
      if Hollow(turns[0]) {
        assert PlayRealtime(turns, fatal).delivered[0] == "";
      } else if !(code > 0 && (turns[0].callbackThrows || turns[0].cancelAfterCallback)) {
        RealtimeIsAPrefixIff(turns[1..], rest, fatal);
        if code > 0 {
          assert records == [records[0]] + rest;
          assert PlayRealtime(turns, fatal).delivered == [records[0]] + behind;
          PrefixBehind(records[0], behind, rest);
        }
      }
    }
  }

  lemma PrefixBehind(r: Record, a: seq<Record>, b: seq<Record>)
    ensures [r] + a <= [r] + b <==> a <= b
  {
    assert ([r] + a)[1..] == a && ([r] + b)[1..] == b;
    if [r] + a <= [r] + b {
      assert a == ([r] + b)[..|a| + 1][1..];
      assert a == b[..|a|];
    }
  }

  /** One such answer, and the client gets a record of a reader that has none. */
  lemma RecordOutOfNothing(fatal: bool) returns (turns: seq<Turn>)
    ensures RealtimeFrom(turns, []) && PlayRealtime(turns, fatal) == RealtimeOutcome([""], Normal)
  {
    var hollow := Turn(false, Returned(1, None), false, SkipReturned(0), false, false);
    var end := Turn(false, Returned(JV_SUCCESS, None), false, SkipReturned(0), false, false);
    turns := [hollow, end];
    assert turns[1..] == [end];
    assert PlayRealtime([end], fatal) == RealtimeOutcome([], Normal) && [""] + [] == [""];
  }

  /** What a realtime query reports, and how it ends. */
  function RealtimeReport(s: RealtimeScript): Report {
    if !s.initialized then Single(ErrorEvent(0), s.meta)
    else if s.open.Throws? then Report([], FailureExit(s.open.fatal))
    else if s.cancelAfterOpen then Report([], OperationCanceled)
    else if s.open.value == JV_ERROR_NO_DATA then Single(MetaEvent, s.meta)
    else if s.open.value != 0 then Single(ErrorEvent(s.open.value), s.meta)
    else if s.cancelBeforeMeta then Report([], OperationCanceled)
    else if !s.meta.MetaWritten? then Single(MetaEvent, s.meta)
    else
      var out := PlayRealtime(s.turns, s.comFailureIsFatal);
      Report([MetaEvent] + AsEvents(out.delivered), out.exit)
  }

  lemma RealtimeReportShape(s: RealtimeScript)
    ensures var Report(events, exit) := RealtimeReport(s);
            && WellFormedReport(events, exit)
            && (exit.Normal? ==> events != [])
            && (events != [] && events[0].MetaEvent? <==>
                  && s.initialized && s.open.Returns? && !s.cancelAfterOpen && !s.meta.MetaFailed?
                  && (s.open.value == JV_ERROR_NO_DATA || (s.open.value == 0 && !s.cancelBeforeMeta)))
  {
    hide PlayRealtime;
  }

  method QueryRealtime(s: RealtimeScript) returns (events: seq<Event>, ops: seq<ComOp>, exit: QueryExit)
    ensures ops == QueryOps(s.initialized)
    ensures WellFormedReport(events, exit)
    ensures Report(events, exit) == RealtimeReport(s)
  {
    RealtimeReportShape(s);
    if !s.initialized {
      return Reported(ErrorEvent(0), s.meta), [], MetaExit(s.meta);
    }
    events, ops, exit := RealtimeBody(s);
    ops := ops + [CloseOp];
  }

  method RealtimeBody(s: RealtimeScript) returns (events: seq<Event>, ops: seq<ComOp>, exit: QueryExit)
    requires s.initialized
    ensures ops == [OpenOp]
    ensures Report(events, exit) == RealtimeReport(s)
  {
    hide PlayRealtime;
    events, ops := [], [OpenOp];
    if s.open.Throws? {
      exit := if s.open.fatal then FatalFailure else OtherFailure;
      return;
    }
    if s.cancelAfterOpen {
      exit := OperationCanceled;
      return;
    }
    if s.open.value == JV_ERROR_NO_DATA {
      return Reported(MetaEvent, s.meta), ops, MetaExit(s.meta);
    } else if s.open.value != 0 {
      return Reported(ErrorEvent(s.open.value), s.meta), ops, MetaExit(s.meta);
    }
    if s.cancelBeforeMeta {
      exit := OperationCanceled;
      return;
    }
    if !s.meta.MetaWritten? {
      return Reported(MetaEvent, s.meta), ops, MetaExit(s.meta);
    }
    var delivered, loopExit := ReadRealtime(s.turns, s.comFailureIsFatal);
    events, exit := [MetaEvent] + AsEvents(delivered), loopExit;
  }

  // ---------------------------------------------------------------- the handler's lines

  datatype Line = MetaLine | ErrorLine(code: int) | RecordLine(record: Record)

  const CODE_UNAVAILABLE := -50301
  const CODE_INTERNAL := -500

  /** The lines for the reports. A record that cannot be rendered as JSON is left out. */
  function ReportLines(events: seq<Event>, renders: Record -> bool): seq<Line> {
    if events == [] then []
    else
      (match events[0]
       case MetaEvent => [MetaLine]
       case ErrorEvent(code) => [ErrorLine(code)]
       case RecordEvent(r) => if renders(r) then [RecordLine(r)] else [])
      + ReportLines(events[1..], renders)
  }

  /** What the handler's catch clauses append. */
  function FinalLines(exit: QueryExit): seq<Line> {
    match exit
    case StreamReadFailed(code) => [ErrorLine(code)]
    case FatalFailure => [ErrorLine(CODE_UNAVAILABLE)]
    case OtherFailure => [ErrorLine(CODE_INTERNAL)]
    case Normal | ClientGone | OperationCanceled | ScriptEnds => []
  }

  function StreamLines(events: seq<Event>, exit: QueryExit, renders: Record -> bool): seq<Line> {
    ReportLines(events, renders) + FinalLines(exit)
  }

  function StoredLines(s: StoredScript, filter: seq<string>, maxRecords: int, renders: Record -> bool): seq<Line> {
    var Report(events, exit) := StoredReport(s, filter, maxRecords);
    StreamLines(events, exit, renders)
  }

  function RealtimeLines(s: RealtimeScript, renders: Record -> bool): seq<Line> {
    var Report(events, exit) := RealtimeReport(s);
    StreamLines(events, exit, renders)
  }

  predicate AllRecordLines(lines: seq<Line>) {
    forall i :: 0 <= i < |lines| ==> lines[i].RecordLine?
  }

  /** The grammar of a stream: nothing, one error, or one meta line, records, and at most one error. */
  ghost predicate StreamGrammar(lines: seq<Line>) {
    || lines == []
    || (|lines| == 1 && lines[0].ErrorLine?)
    || (lines[0].MetaLine? && AllRecordLines(lines[1..]))
    || (|lines| >= 2 && lines[0].MetaLine? && AllRecordLines(lines[1..|lines| - 1]) && lines[|lines| - 1].ErrorLine?)
  }

  lemma {:induction false} RecordReportsGiveRecordLines(events: seq<Event>, renders: Record -> bool)
    requires AllRecords(events)
    ensures AllRecordLines(ReportLines(events, renders))
  {
    if events != [] {
      RecordReportsGiveRecordLines(events[1..], renders);
    }
  }

  /** The lines the handler makes of a well-formed report obey the grammar, whatever exception ends it. */
  lemma ReportsObeyTheGrammar(events: seq<Event>, exit: QueryExit, renders: Record -> bool)
    requires WellFormedReport(events, exit)
    ensures StreamGrammar(StreamLines(events, exit, renders))
  {
    var lines := ReportLines(events, renders);
    if events != [] && events[0].MetaEvent? {
      RecordReportsGiveRecordLines(events[1..], renders);
      assert lines == [MetaLine] + ReportLines(events[1..], renders);
      assert lines[1..] == ReportLines(events[1..], renders);
      var all := StreamLines(events, exit, renders);
      if FinalLines(exit) == [] {
        assert all == lines;
      } else {
        assert all[1..|all| - 1] == lines[1..];
      }
    } else if events != [] {
      assert lines == [ErrorLine(events[0].code)] + ReportLines([], renders);
      assert StreamLines(events, exit, renders) == lines;
    }
  }

  // ---------------------------------------------------------------- which records the lines carry

  /** The records of a stream's lines. */
  function RecordsIn(lines: seq<Line>): seq<Record> {
    if lines == [] then []
    else (if lines[0].RecordLine? then [lines[0].record] else []) + RecordsIn(lines[1..])
  }

  function Rendered(rs: seq<Record>, renders: Record -> bool): seq<Record> {
    if rs == [] then [] else (if renders(rs[0]) then [rs[0]] else []) + Rendered(rs[1..], renders)
  }

  lemma {:induction false} RecordsInConcat(a: seq<Line>, b: seq<Line>)
    ensures RecordsIn(a + b) == RecordsIn(a) + RecordsIn(b)
  {
    if a == [] {
      assert a + b == b;
    } else {
      assert (a + b)[1..] == a[1..] + b;
      RecordsInConcat(a[1..], b);
    }
  }

  lemma {:induction false} RenderedConcat(a: seq<Record>, b: seq<Record>, renders: Record -> bool)
    ensures Rendered(a + b, renders) == Rendered(a, renders) + Rendered(b, renders)
  {
    if a == [] {
      assert a + b == b;
    } else {
      assert (a + b)[1..] == a[1..] + b;
      RenderedConcat(a[1..], b, renders);
    }
  }

  lemma RenderedPrefix(a: seq<Record>, b: seq<Record>, renders: Record -> bool)
    requires a <= b
    ensures Rendered(a, renders) <= Rendered(b, renders)
  {
    assert b == a + b[|a|..];
    RenderedConcat(a, b[|a|..], renders);
  }

  lemma {:induction false} RecordsOfReports(delivered: seq<Record>, renders: Record -> bool)
    ensures RecordsIn(ReportLines(AsEvents(delivered), renders)) == Rendered(delivered, renders)
  {
    if delivered != [] {
      RecordsOfReports(delivered[1..], renders);
      var events := AsEvents(delivered);
      assert events[1..] == AsEvents(delivered[1..]);
      var head := if renders(delivered[0]) then [RecordLine(delivered[0])] else [];
      assert ReportLines(events, renders) == head + ReportLines(events[1..], renders);
      RecordsInConcat(head, ReportLines(events[1..], renders));
      assert [RecordLine(delivered[0])][1..] == [];
    }
  }

  /** The lines of a query that reports meta data and then these records. */
  lemma RecordsOfAStream(delivered: seq<Record>, exit: QueryExit, renders: Record -> bool)
    ensures RecordsIn(StreamLines([MetaEvent] + AsEvents(delivered), exit, renders)) == Rendered(delivered, renders)
  {
    var (tail, final) := (ReportLines(AsEvents(delivered), renders), FinalLines(exit));
    assert ([MetaEvent] + AsEvents(delivered))[1..] == AsEvents(delivered);
    assert StreamLines([MetaEvent] + AsEvents(delivered), exit, renders) == [MetaLine] + tail + final;
    RecordsInConcat([MetaLine] + tail, final);
    RecordsInConcat([MetaLine], tail);
    RecordsOfReports(delivered, renders);
    assert final == [] || final[1..] == [];
    assert [MetaLine][1..] == [];
  }

  /** A stream without a meta report carries no record. */
  lemma NoRecordsWithoutMeta(events: seq<Event>, exit: QueryExit, renders: Record -> bool)
    requires WellFormedReport(events, exit) && (events == [] || !events[0].MetaEvent?)
    ensures RecordsIn(StreamLines(events, exit, renders)) == []
  {
    var final := FinalLines(exit);
    assert final == [] || final[1..] == [];
    if events != [] {
      assert events[1..] == [] && ReportLines([], renders) == [] && final == [];
      assert ReportLines(events, renders) == [ErrorLine(events[0].code)] + ReportLines(events[1..], renders);
      assert [ErrorLine(events[0].code)][1..] == [];
    }
  }

  /** End to end: the records in the lines of a stored stream are, in order, a beginning of the wanted
      records up to the limit, as far as they can be rendered; they are all of them when the query
      reported meta data, had something to read and ended normally. */
  lemma StoredStreamCarries(s: StoredScript, files: seq<seq<Record>>, filter: seq<string>, maxRecords: int,
                            renders: Record -> bool)
    requires forall i :: 0 <= i < |files| ==> OneType(files[i])
    requires ReadFrom(s.turns, Reader([], files), filter)
    ensures var Report(events, exit) := StoredReport(s, filter, maxRecords);
            var carried := RecordsIn(StreamLines(events, exit, renders));
            var wanted := Rendered(Take(Filter(Flatten(files), filter), EffectiveLimit(maxRecords)), renders);
            && carried <= wanted
            && (exit.Normal? && events[0].MetaEvent? && s.open.value.readCount > 0 ==> carried == wanted)
  {
    hide Play, Wait;
    StoredReportShape(s, filter, maxRecords);
    var Report(events, exit) := StoredReport(s, filter, maxRecords);
    if events != [] && events[0].MetaEvent? {
      var out := Play(s.turns, filter, EffectiveLimit(maxRecords), 0);
      var want := Take(Filter(Flatten(files), filter), EffectiveLimit(maxRecords));
      var delivered := if s.open.value.readCount > 0 && s.meta.MetaWritten? then out.delivered else [];
      assert [MetaEvent] + AsEvents([]) == [MetaEvent];
      assert events == [MetaEvent] + AsEvents(delivered);
      StoredDelivery(s.turns, files, filter, maxRecords);
      RecordsOfAStream(delivered, exit, renders);
      RenderedPrefix(delivered, want, renders);
    } else {
      NoRecordsWithoutMeta(events, exit, renders);
    }
  }

  /** The same for a realtime stream, whose records are those of its reader and the empty ones. */
  lemma RealtimeStreamCarries(s: RealtimeScript, renders: Record -> bool)
    ensures var Report(events, exit) := RealtimeReport(s);
            var carried := RecordsIn(StreamLines(events, exit, renders));
            var all := Rendered(PlayRealtime(s.turns, s.comFailureIsFatal).delivered, renders);
            && carried == (if events != [] && events[0].MetaEvent? && s.open.value == 0 && s.meta.MetaWritten? then all
                           else [])
  {
    hide PlayRealtime;
    RealtimeReportShape(s);
    var Report(events, exit) := RealtimeReport(s);
    if events != [] && events[0].MetaEvent? {
      var reading := s.open.value == 0 && s.meta.MetaWritten?;
      var delivered := if reading then PlayRealtime(s.turns, s.comFailureIsFatal).delivered else [];
      assert [MetaEvent] + AsEvents([]) == [MetaEvent];
      assert events == [MetaEvent] + AsEvents(delivered);
      RecordsOfAStream(delivered, exit, renders);
    } else {
      NoRecordsWithoutMeta(events, exit, renders);
    }
  }

  // ---------------------------------------------------------------- failures show in the stream

  predicate NoErrorLine(lines: seq<Line>) {
    forall i :: 0 <= i < |lines| ==> !lines[i].ErrorLine?
  }

  predicate EndsInError(lines: seq<Line>, code: int) {
    lines != [] && lines[|lines| - 1] == ErrorLine(code)
  }

  /** The query comes as far as its read loop. */
  predicate Reads(s: StoredScript) {
    Opened(s) && !s.cancelBeforeMeta && s.meta.MetaWritten? && s.open.value.readCount > 0
  }

  /** How the lines of a stream with a meta line end. */
  lemma EndOfAReading(delivered: seq<Record>, exit: QueryExit, renders: Record -> bool)
    ensures var lines := StreamLines([MetaEvent] + AsEvents(delivered), exit, renders);
            match exit
            case StreamReadFailed(code) => EndsInError(lines, code)
            case FatalFailure => EndsInError(lines, -50301)
            case OtherFailure => EndsInError(lines, -500)
            case Normal | ClientGone | OperationCanceled | ScriptEnds => NoErrorLine(lines)
  {
    var tail := ReportLines(AsEvents(delivered), renders);
    assert ([MetaEvent] + AsEvents(delivered))[1..] == AsEvents(delivered);
    assert StreamLines([MetaEvent] + AsEvents(delivered), exit, renders) == [MetaLine] + tail + FinalLines(exit);
    RecordReportsGiveRecordLines(AsEvents(delivered), renders);
  }

  lemma LinesOfOne(e: Event, meta: MetaOutcome, renders: Record -> bool)
    requires !e.RecordEvent?
    ensures var lines := StreamLines(Single(e, meta).events, Single(e, meta).exit, renders);
            lines == if meta.MetaFailed? then [ErrorLine(-500)]
                     else [if e.MetaEvent? then MetaLine else ErrorLine(e.code)]
    ensures Single(e, meta).exit == if meta.MetaWritten? then Normal else if meta.MetaFailed? then OtherFailure
                                    else ClientGone
  {
    assert ReportLines([], renders) == [] && [e][1..] == [];
    assert ReportLines([e], renders) == [if e.MetaEvent? then MetaLine else ErrorLine(e.code)] + [];
    assert [] + [ErrorLine(-500)] == [ErrorLine(-500)];
  }

  lemma LinesOfNone(exit: QueryExit, renders: Record -> bool)
    requires exit.FatalFailure? || exit.OtherFailure? || exit.OperationCanceled? || exit.ScriptEnds?
    ensures StreamLines([], exit, renders) ==
            if exit.FatalFailure? then [ErrorLine(-50301)] else if exit.OtherFailure? then [ErrorLine(-500)] else []
  {
    assert ReportLines([], renders) == [];
  }

  /** A stored query that comes to its read loop: the stream ends in an error line exactly when the loop
      ends in a failure, and the line has the failure's code. */
  lemma ReadFailureShows(s: StoredScript, filter: seq<string>, maxRecords: int, renders: Record -> bool)
    requires Reads(s)
    ensures var lines := StoredLines(s, filter, maxRecords, renders);
            match Play(s.turns, filter, EffectiveLimit(maxRecords), 0).exit
            case ReadError(code) => EndsInError(lines, code)
            case RetriesExhausted => EndsInError(lines, -502)
            case ComCallThrew => EndsInError(lines, if s.comFailureIsFatal then -50301 else -500)
            case Completed | Canceled | CallbackThrew | Unfinished => NoErrorLine(lines)
    ensures var exit := StoredReport(s, filter, maxRecords).exit;
            match Play(s.turns, filter, EffectiveLimit(maxRecords), 0).exit
            case Completed => exit == Normal
            case Unfinished => exit == ScriptEnds
            case _ => exit != Normal && exit != ScriptEnds
  {
    hide Play, Wait, StreamLines, EffectiveLimit, EndsInError, NoErrorLine;
    var out := Play(s.turns, filter, EffectiveLimit(maxRecords), 0);
    EndOfAReading(out.delivered, LoopExit(out.exit, s.comFailureIsFatal), renders);
  }

  /** One that does not: the lines of the stream, all of them. */
  lemma EarlyEndShows(s: StoredScript, filter: seq<string>, maxRecords: int, renders: Record -> bool)
    requires !Reads(s)
    ensures var lines := StoredLines(s, filter, maxRecords, renders);
            if !s.initialized then lines == [ErrorLine(if s.meta.MetaFailed? then -500 else 0)]
            else if s.open.Throws? then lines == [ErrorLine(if s.open.fatal then -50301 else -500)]
            else if s.cancelAfterOpen then lines == []
            else
              var OpenAnswer(code, _, downloadCount) := s.open.value;
              var begun := if s.cancelBeforeMeta then []
                           else if s.meta.MetaFailed? then [ErrorLine(-500)] else [MetaLine];
              if code < 0 && code != -1 then lines == [ErrorLine(if s.meta.MetaFailed? then -500 else code)]
              else if downloadCount <= 0 then lines == begun
              else
                match Wait(s.polls, downloadCount, Budget(downloadCount))
                case WaitUnfinished => lines == []
                case WaitThrew(fatal) => lines == [ErrorLine(if fatal then -50301 else -500)]
                case WaitFailed(status) =>
                  if s.cancelAfterWait then lines == []
                  else lines == [ErrorLine(if s.meta.MetaFailed? then -500 else status)]
                case Downloaded => lines == if s.cancelAfterWait then [] else begun
  {
    hide Play, Wait, Budget, StreamLines, EffectiveLimit;
    LinesOfNone(FatalFailure, renders);
    LinesOfNone(OtherFailure, renders);
    LinesOfNone(OperationCanceled, renders);
    LinesOfNone(ScriptEnds, renders);
    LinesOfOne(MetaEvent, s.meta, renders);
    LinesOfOne(ErrorEvent(0), s.meta, renders);
    if s.initialized && s.open.Returns? {
      var OpenAnswer(code, _, downloadCount) := s.open.value;
      LinesOfOne(ErrorEvent(code), s.meta, renders);
      if downloadCount > 0 {
        match Wait(s.polls, downloadCount, Budget(downloadCount))
        case WaitFailed(status) => LinesOfOne(ErrorEvent(status), s.meta, renders);
        case _ =>
      }
    }
  }

  /** Nobody cancels, no client goes away, and the script shows the query to its end. */
  predicate Undisturbed(s: StoredScript, filter: seq<string>, maxRecords: int) {
    && !s.cancelAfterOpen && !s.cancelAfterWait && !s.cancelBeforeMeta && !s.meta.MetaClientGone?
    && (forall i :: 0 <= i < |s.turns| ==> Calm(s.turns[i]))
    && StoredReport(s, filter, maxRecords).exit != ScriptEnds
  }

  predicate Calm(t: Turn) {
    !t.cancelAtTop && !t.cancelAfterGets && !t.cancelAfterCallback && !t.callbackThrows
  }

  lemma CalmExit(turns: seq<Turn>, filter: seq<string>, left: nat)
    requires forall i :: 0 <= i < |turns| ==> Calm(turns[i])
    ensures var exit := Play(turns, filter, left, 0).exit; !exit.Canceled? && !exit.CallbackThrew?
  {
    hide Play, Handed, GoesOn;
    ExitTells(turns, filter, left, 0);
  }

  /** The client's view: an undisturbed stream without an error line carries all that is wanted and can be
      rendered -- all of it, if the component found something to read, and nothing if not. */
  lemma NoErrorLineMeansAll(s: StoredScript, files: seq<seq<Record>>, filter: seq<string>, maxRecords: int,
                            renders: Record -> bool)
    requires forall i :: 0 <= i < |files| ==> OneType(files[i])
    requires ReadFrom(s.turns, Reader([], files), filter)
    requires Undisturbed(s, filter, maxRecords)
    ensures var lines := StoredLines(s, filter, maxRecords, renders);
            var wanted := Rendered(Take(Filter(Flatten(files), filter), EffectiveLimit(maxRecords)), renders);
            NoErrorLine(lines) ==>
              Opened(s) && lines != [] && lines[0] == MetaLine
              && RecordsIn(lines) == if s.open.value.readCount > 0 then wanted else []
  {
    hide Play, Wait, EffectiveLimit, StreamLines, RecordsIn, Rendered, Take, Filter;
    var lines := StoredLines(s, filter, maxRecords, renders);
    if NoErrorLine(lines) {
      if Reads(s) {
        ReadFailureShows(s, filter, maxRecords, renders);
        CalmExit(s.turns, filter, EffectiveLimit(maxRecords));
        StoredStreamCarries(s, files, filter, maxRecords, renders);
        MetaLineFirst(Play(s.turns, filter, EffectiveLimit(maxRecords), 0).delivered, Normal, renders);
      } else {
        EarlyEndShows(s, filter, maxRecords, renders);
        assert !lines[0].ErrorLine?;
        assert lines == [MetaLine];
        NoRecordsInMeta();
      }
    }
  }

  lemma MetaLineFirst(delivered: seq<Record>, exit: QueryExit, renders: Record -> bool)
    ensures var lines := StreamLines([MetaEvent] + AsEvents(delivered), exit, renders);
            lines != [] && lines[0] == MetaLine
  {
  }

  lemma NoRecordsInMeta()
    ensures RecordsIn([MetaLine]) == []
  {
    assert [MetaLine][1..] == [];
  }

  /** A turn of the realtime loop that is not the last. */
  predicate RealtimeGoesOn(t: Turn) {
    && !t.cancelAtTop && t.gets.Returned? && !t.cancelAfterGets
    && (t.gets.code == -1 || t.gets.code == -3 || (t.gets.code > 0 && !t.callbackThrows && !t.cancelAfterCallback))
  }

  /** The realtime loop ends at its first turn that does not go on; the records announced up to there have
      been handed on, and the turn alone tells why it ended. */
  lemma {:induction false} RealtimeEndsAt(turns: seq<Turn>, n: nat, fatal: bool)
    requires n < |turns| && !RealtimeGoesOn(turns[n]) && forall i :: 0 <= i < n ==> RealtimeGoesOn(turns[i])
    ensures var (t, out) := (turns[n], PlayRealtime(turns, fatal));
            && out.delivered == Announced(turns[..n + 1])
            && out.exit == if t.cancelAtTop then OperationCanceled
                           else if t.gets.GetsThrew? then (if fatal then FatalFailure else OtherFailure)
                           else if t.cancelAfterGets then OperationCanceled
                           else if t.gets.code > 0 then (if t.callbackThrows then ClientGone else OperationCanceled)
                           else if t.gets.code == 0 then Normal
                           else StreamReadFailed(t.gets.code)
  {
    var t := turns[0];
    assert turns[..n + 1][0] == t && turns[..n + 1][1..] == turns[1..][..n];
    if n > 0 {
      assert forall i :: 0 < i < |turns| ==> turns[i] == turns[1..][i - 1];
      RealtimeEndsAt(turns[1..], n - 1, fatal);
    }
  }

  /** The records of the answers in these turns; one that announces data and has none is an empty record. */
  function Announced(turns: seq<Turn>): seq<Record> {
    if turns == [] then []
    else
      var t := turns[0];
      (if t.cancelAtTop || t.gets.GetsThrew? || t.cancelAfterGets || t.gets.code <= 0 then []
       else [if t.gets.buffer.Some? then t.gets.buffer.value else ""])
      + Announced(turns[1..])
  }

  /** A realtime query that comes to its loop: the same as for a stored one. */
  lemma RealtimeFailureShows(s: RealtimeScript, n: nat, renders: Record -> bool)
    requires s.initialized && s.open == Returns(0) && !s.cancelAfterOpen && !s.cancelBeforeMeta && s.meta.MetaWritten?
    requires n < |s.turns| && !RealtimeGoesOn(s.turns[n]) && forall i :: 0 <= i < n ==> RealtimeGoesOn(s.turns[i])
    ensures var (t, lines) := (s.turns[n], RealtimeLines(s, renders));
            && RecordsIn(lines) == Rendered(Announced(s.turns[..n + 1]), renders)
            && if t.cancelAtTop then NoErrorLine(lines)
               else if t.gets.GetsThrew? then EndsInError(lines, if s.comFailureIsFatal then -50301 else -500)
               else if t.cancelAfterGets || t.gets.code >= 0 then NoErrorLine(lines)
               else EndsInError(lines, t.gets.code)
  {
    hide PlayRealtime, StreamLines, EndsInError, NoErrorLine, Announced, RecordsIn, Rendered;
    var out := PlayRealtime(s.turns, s.comFailureIsFatal);
    RealtimeEndsAt(s.turns, n, s.comFailureIsFatal);
    EndOfAReading(out.delivered, out.exit, renders);
    RecordsOfAStream(out.delivered, out.exit, renders);
  }

  /** One that does not come so far. */
  lemma RealtimeEarlyEndShows(s: RealtimeScript, renders: Record -> bool)
    ensures var lines := RealtimeLines(s, renders);
            && (!s.initialized ==> lines == [ErrorLine(if s.meta.MetaFailed? then -500 else 0)])
            && (s.initialized && s.open.Throws? ==> lines == [ErrorLine(if s.open.fatal then -50301 else -500)])
            && (s.initialized && s.open.Returns? && s.cancelAfterOpen ==> lines == [])
            && (s.initialized && s.open.Returns? && !s.cancelAfterOpen ==>
                  && (s.open.value == -1 ==> lines == [if s.meta.MetaFailed? then ErrorLine(-500) else MetaLine])
                  && (s.open.value != -1 && s.open.value != 0 ==>
                        lines == [ErrorLine(if s.meta.MetaFailed? then -500 else s.open.value)])
                  && (s.open.value == 0 && s.cancelBeforeMeta ==> lines == [])
                  && (s.open.value == 0 && !s.cancelBeforeMeta && !s.meta.MetaWritten? ==>
                        lines == [if s.meta.MetaFailed? then ErrorLine(-500) else MetaLine]))
  {
    hide PlayRealtime, StreamLines;
    LinesOfNone(FatalFailure, renders);
    LinesOfNone(OtherFailure, renders);
    LinesOfNone(OperationCanceled, renders);
    LinesOfOne(MetaEvent, s.meta, renders);
    LinesOfOne(ErrorEvent(0), s.meta, renders);
    if s.open.Returns? {
      LinesOfOne(ErrorEvent(s.open.value), s.meta, renders);
    }
  }

  lemma {:induction false} NonEmptyRendered(rs: seq<Record>, renders: Record -> bool)
    ensures NonEmpty(Rendered(rs, renders)) == Rendered(NonEmpty(rs), renders)
  {
    if rs != [] {
      NonEmptyRendered(rs[1..], renders);
      var (some, rest) := (NonEmpty(rs[1..]), Rendered(rs[1..], renders));
      assert ([rs[0]] + rest)[1..] == rest && ([rs[0]] + some)[1..] == some;
      assert NonEmpty(rs) == (if rs[0] == "" then some else [rs[0]] + some);
      assert Rendered(rs, renders) == (if renders(rs[0]) then [rs[0]] + rest else rest);
    }
  }

  /** The client's view of a realtime stream: apart from empty records out of nothing it carries the records
      of the reader that can be rendered. */
  lemma NoErrorLineMeansAllRealtime(s: RealtimeScript, records: seq<Record>, renders: Record -> bool)
    requires RealtimeFrom(s.turns, records)
    requires !s.cancelAfterOpen && !s.cancelBeforeMeta && !s.meta.MetaClientGone?
    requires forall i :: 0 <= i < |s.turns| ==> Calm(s.turns[i])
    requires RealtimeReport(s).exit != ScriptEnds
    ensures var lines := RealtimeLines(s, renders);
            NoErrorLine(lines) ==>
              && s.initialized && s.open.Returns? && (s.open.value == 0 || s.open.value == -1)
              && lines != [] && lines[0] == MetaLine
              && NonEmpty(RecordsIn(lines)) == if s.open.value == 0 then Rendered(records, renders) else []
  {
    hide StreamLines, RecordsIn, Rendered;
    var lines := RealtimeLines(s, renders);
    RealtimeEarlyEndShows(s, renders);
    if NoErrorLine(lines) && s.initialized && s.open == Returns(0) && s.meta.MetaWritten? {
      var out := PlayRealtime(s.turns, s.comFailureIsFatal);
      CalmRealtimeExit(s.turns, s.comFailureIsFatal);
      EndOfAReading(out.delivered, out.exit, renders);
      MetaLineFirst(out.delivered, out.exit, renders);
      RecordsOfAStream(out.delivered, out.exit, renders);
      RealtimeDelivery(s.turns, records, s.comFailureIsFatal);
      NonEmptyRendered(out.delivered, renders);
    } else if NoErrorLine(lines) {
      assert !lines[0].ErrorLine?;
      NoRecordsInMeta();
    }
  }

  lemma {:induction false} CalmRealtimeExit(turns: seq<Turn>, fatal: bool)
    requires forall i :: 0 <= i < |turns| ==> Calm(turns[i])
    ensures var exit := PlayRealtime(turns, fatal).exit; !exit.OperationCanceled? && !exit.ClientGone?
  {
    if turns != [] {
      assert Calm(turns[0]);
      CalmRealtimeExit(turns[1..], fatal);
    }
  }

  /** The whole stored stream: the query, its guard and the handler around it. */
  method StoredStream(s: StoredScript, filter: seq<string>, maxRecords: int, renders: Record -> bool)
    returns (lines: seq<Line>, ops: seq<ComOp>)
    ensures StreamGrammar(lines)
    ensures lines == StoredLines(s, filter, maxRecords, renders)
    ensures ops == QueryOps(s.initialized)
  {
    var events, exit;
    events, ops, exit := QueryStored(s, filter, maxRecords);
    ReportsObeyTheGrammar(events, exit, renders);
    lines := StreamLines(events, exit, renders);
  }

  method RealtimeStream(s: RealtimeScript, renders: Record -> bool) returns (lines: seq<Line>, ops: seq<ComOp>)
    ensures StreamGrammar(lines)
    ensures lines == RealtimeLines(s, renders)
    ensures ops == QueryOps(s.initialized)
  {
    var events, exit;
    events, ops, exit := QueryRealtime(s);
    ReportsObeyTheGrammar(events, exit, renders);
    lines := StreamLines(events, exit, renders);
  }
}
