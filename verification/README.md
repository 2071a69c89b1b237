# A verified model of the JV-Link HTTP server

The server puts one single-session COM component behind HTTP: a worker thread owns the component and
takes tasks from other threads, a wrapper turns its blocking calls into queries, an HTTP layer lets one
request at a time use it and streams the records as lines of JSON, and a supervisor process relays those
streams from a worker process that it restarts when needed. This project models those parts in Dafny,
together with the pieces of the vendored HTTP library that the streams pass through, and proves what they
promise.

## How the model is laid out

| file | what it models |
|---|---|
| `ComThreadWorker.dfy` | the task queue of the COM thread: every load, lock, push, swap and store is a step of its own |
| `FaultLatch.dfy` | how a timed-out COM call disables worker and wrapper |
| `StoredRead.dfy` | the read loop of a stored query, JVSkip, the corruption retry |
| `StreamQueries.dfy` | stored and realtime query from open to close, and the lines the handler makes of them |
| `SessionLock.dfy` | operation mutex, session lease, reset generation |
| `NdjsonWriter.dfy` | the writer thread and the heartbeat thread on one sink |
| `StreamingProxy.dfy` | the supervisor's byte relay and its restart decision |
| `WorkerProcess.dfy` | the supervisor's child process |
| `EventQueue.dfy` | component events on their way to the SSE clients |
| `QueryResponse.dfy` | a query's response composed, from the component to the lines of its stream |
| `EndToEnd.dfy` | the whole way of those lines: chunked coding, the supervisor's reader, the relay, the client |
| `ChunkedCoding.dfy` | chunked transfer coding, from hexadecimal sizes to the buffered socket |
| `ChunkedFailures.dfy` | the same over a wire that fails half-way |
| `ChunkedSenders.dfy` | the reader against other senders' coding |
| `Multipart.dfy` | the body state of the streaming multipart parser |
| `ByteRanges.dfy` | the range check and the two passes over a multipart range answer |
| `Base64.dfy`, `PercentCoding.dfy` | the two text codings |
| `Records.dfy` | record types and the parsers of H1, H6, O1 and O2 |
| `Wrappers.dfy` | `Option`, and the component's return codes |

Objects that the program updates in place are classes. Threads are modelled by methods that are one atomic
step each; a `Run` method takes an arbitrary schedule of such steps, skips a step whose thread would have to
wait, and shows that the class invariant `Valid()` holds after every prefix of every interleaving. What the
world answers -- the component, the operating system, sockets, clients, timers -- is a parameter and
arbitrary, unless a line below says otherwise.

Assumptions: WM_QUIT is posted by `stop()` alone and a worker is started and stopped once; the wrapper's
public calls do not overlap; an answer of the component without a buffer does not use up a record; a close
call that the worker carries out in time closes the component's session; a stored file holds records of one
type (include/core/jv_link_wrapper.h:255), where a statement says so; the closure of a streaming response
releases the lease before the lock.

## What turned out different from the expectation

- A task for which `postTask` returned true is lost when COM fails to initialise: `start()` opens the queue
  before the thread has come up. Tasks run are tasks accepted exactly when COM came up or nothing had been
  accepted (`ExitLosesNothingIffComCameUp`, and the run in `TaskLostWhenComInitFails`).
- A worker fault does not always reach the wrapper: a timeout in the session guard's destructor leaves the
  wrapper "healthy" while every later task is refused. The wrapper is operational despite a faulted worker
  exactly when the fault came from that destructor (`NoticedIffMetByACall`, and the run in `HealthyButDead`).
- JVSkip loses records unless in every file no wanted record stands behind an unwanted one
  (`SkippingIsLosslessIff`, and the run in `SkipLosesARecord`); files of one type meet that condition.
- Chunked coding loses a chunk of 2^32-1 bytes or more where `unsigned long` has 32 bits, because `strtoul`
  saturates and the reader takes the saturated value for an error (`RoundTripIff`, `FourGigabytesAreLost`).
- A suffix range longer than the body is refused, where section 14.1.2 of RFC 9110 means the whole body;
  it is the only disagreement (`FollowsRfcIff`, `LongSuffixIsRefused`).
- After a corruption code the wrapper deletes the file of the last read that named one, since a failed read
  names none. That is the file being read if and only if that last read was of the same file
  (`DeletesTheFileBeingReadIff`, and the run in `DeletesTheWrongFile`).
- A reset that finds a stream's session registered need not stop it: the lease is taken before the generation
  is read. Short of 2^64 resets a stream is told to cancel if and only if some reset found it registered and
  begun (`NoticedIffFoundBegun`, and the runs in `ResetMissesAStartingStream` and `SoManyResetsLookLikeNone`).
- Were the mutex released before the lease, a session would be registered that owns nothing
  (`UnlockBeforeLease`).
- The relay closes a response normally also when the upstream failed half-way (`HalfABodyClosedNormally`).
  A normally closed response is the whole upstream response if and only if the upstream send succeeded, when
  the body's end is marked by a length or by chunked coding; a body that ends with the connection may be
  short even then, and nobody notices (`FinishedIsCompleteIff`, `ShortBodyUnnoticed`).
- The streaming routes also get HEAD requests. The client library hands no response head on for them (nor
  for status 204), so the relay rejects them as if the worker had failed. A streamed response starts if and
  only if a head came that is handed on; a rejected request asks for a restart if and only if the send failed
  (`ResponseStartsIff`, and the run in `HeadRequestIsRejected`).
- A realtime query delivers a prefix of the reader's records if and only if no answer that it acts on
  announces data without a buffer; each that does becomes an empty record (`RealtimeIsAPrefixIff`, and the
  run in `RecordOutOfNothing`).
- A client that is lost while the meta line is written may have all of that line: the heartbeat's newline can
  finish it before the writer's own newline fails (`MetaLineOfALostClient`).
- A worker that answers 200 with a body that says nothing counts as healthy (`HealthyIff`).

## Model

| member | source | states |
|---|---|---|
| ComThreadWorker.ComThreadWorker.Run | src/core/com_thread_worker.cpp:26-201 | in every interleaving of posters, worker, start/stop and fault, executed ++ batch ++ queue is the accepted tasks in order; accepted and executed only grow; after the worker's last swap nothing is accepted; a fault stays; and a post that begins once the worker has faulted, its queue has been closed or its loop has ended returns false |
| ComThreadWorker.ComThreadWorker.ExitLosesNothingIffComCameUp | src/core/com_thread_worker.cpp:126-153 | after the thread has exited no task is in its hands, none is queued if COM came up, and the executed tasks are the accepted ones if and only if COM came up or none had been accepted |
| ComThreadWorker.ComThreadWorker.PostTaskKeepsItsPromise | src/core/com_thread_worker.cpp:108-124 | after a regular exit a task whose post returned true was run exactly once, one whose post returned false never |
| ComThreadWorker.ComThreadWorker.StopCanJoin | src/core/com_thread_worker.cpp:54-77 | when stop() joins, WM_QUIT has been posted to a thread that is in its loop or has left it, and the queue is closed |
| ComThreadWorker.StopRunsEverything | src/core/com_thread_worker.cpp:54-77 | stop() on a worker that is up, in any state of queue and loop: driven on, the thread comes to its end and every accepted task has been run |
| ComThreadWorker.ComThreadWorker.PosterStep | src/core/com_thread_worker.cpp:108-124 | one step of a post: three tests, the mutex, the same three tests, push, return |
| ComThreadWorker.ComThreadWorker.WorkerStep | src/core/com_thread_worker.cpp:126-201 | one step of the worker thread, from every state |
| ComThreadWorker.ComThreadWorker.ControlStep | src/core/com_thread_worker.cpp:26-77 | one step of start() and stop() |
| ComThreadWorker.ComThreadWorker.Push | src/core/com_thread_worker.cpp:108-124 | the push happens at the end of the queue, under the mutex, behind the second test of all three flags |
| ComThreadWorker.ComThreadWorker.UnlockAndReturn | src/core/com_thread_worker.cpp:108-124 | the result is true exactly when the task was pushed |
| ComThreadWorker.ComThreadWorker.SwapQueue | src/core/com_thread_worker.cpp:184-190 | the worker takes the whole queue, in order, only while the mutex is free |
| ComThreadWorker.ComThreadWorker.FinishBatch | src/core/com_thread_worker.cpp:155-182 | the batch drained after WM_QUIT is the last one: it clears the running flag |
| ComThreadWorker.ComThreadWorker.AwaitThread | src/core/com_thread_worker.cpp:36-48 | start() ends with the thread up, or finds that it failed and closes the queue |
| ComThreadWorker.ComThreadWorker.PostQuitMessage | src/core/com_thread_worker.cpp:60-65 | the queue is closed before the quit message is posted |
| ComThreadWorker.TaskLostWhenComInitFails | src/core/com_thread_worker.cpp:26-48 | a run in which a post returned true and the task never runs |
| ComThreadWorker.PostOneTask | src/core/com_thread_worker.cpp:108-124 | an undisturbed post on an open queue succeeds and appends its task |
| FaultLatch.JVLinkWrapper.InvokeTask | include/core/com_thread_worker.h:68-104 | a faulted worker refuses every task and runs none; otherwise the task runs once, and a timeout and nothing else makes the worker faulted |
| FaultLatch.JVLinkWrapper.InvokeComCall | include/core/jv_link_wrapper.h:479-506 | the five outcomes of a COM call, and that a timeout leaves both flags set and the operation on record |
| FaultLatch.JVLinkWrapper.CloseSession | include/core/jv_link_wrapper.h:372-409 | a timeout of the guard's close faults the worker and leaves the wrapper's flags alone |
| FaultLatch.JVLinkWrapper.Initialize | src/core/jv_link_wrapper.cpp:89-162 | it throws for ever after a seen timeout, although it clears the wrapper's own flag; on a sound worker, which step's failure ends it how, and how many calls it makes |
| FaultLatch.JVLinkWrapper.Query | src/core/jv_link_wrapper.cpp:259-502 | a query notices exactly the timeouts of its own calls; a timeout of the closing alone goes unnoticed |
| FaultLatch.JVLinkWrapper.Run | src/core/jv_link_wrapper.cpp:89-185 | after a timeout seen by a COM call no later sequence of public calls makes the wrapper operational, and no task ever reaches a faulted worker |
| FaultLatch.JVLinkWrapper.NoticedIffMetByACall | src/core/jv_link_wrapper.cpp:182-240 | with a faulted worker the wrapper is operational, and reports "healthy", if and only if the fault came from the session guard |
| FaultLatch.JVLinkWrapper.StatusTells | src/core/jv_link_wrapper.cpp:182-240 | the three words of the status, and that "healthy" is said exactly of an operational wrapper |
| FaultLatch.HealthyButDead | include/core/jv_link_wrapper.h:372-409 | a run that ends healthy with a faulted worker |
| StoredRead.ReadRecords | src/core/jv_link_wrapper.cpp:357-496 | the loop with its two counters computes the recursive meaning `Play` of its script |
| StoredRead.HandleAnswer | src/core/jv_link_wrapper.cpp:378-482 | one answer of the component: every code and cancellation point leads where `TurnResult` says |
| StoredRead.Listed | src/core/jv_link_wrapper.cpp:401-428 | the scan of the filter list decides membership |
| StoredRead.PlayRefinesFilterAndTake | src/core/jv_link_wrapper.cpp:357-496 | from any state of the loop: what is delivered is a prefix of "filter the rest, take what is left of the limit", all of it on a normal end, whichever skips fail |
| StoredRead.StoredDelivery | src/core/jv_link_wrapper.cpp:357-496 | the same from the start, for files of one type each, any filter, limit, retries and cancellations |
| StoredRead.OneTypeIsSkipSafe | include/core/jv_link_wrapper.h:254-257 | the documented property of files is enough for JVSkip |
| StoredRead.RecordStep | src/core/jv_link_wrapper.cpp:401-428 | handing out a record, skipping the rest of its file or not, preserves the filtered stream |
| StoredRead.SkippingIsLosslessIff | src/core/jv_link_wrapper.cpp:401-428 | when every skip works, a stream read to its end loses no wanted record if and only if no file has one behind an unwanted one |
| StoredRead.SkipLosesARecord | src/core/jv_link_wrapper.cpp:401-428 | a stream of one file that loses its wanted record |
| StoredRead.FastFormIsAllIffSafe | src/core/jv_link_wrapper.cpp:401-428 | "the wanted beginning of every file" is "everything wanted" if and only if all files are safe |
| StoredRead.ReadLoopIsBounded | src/core/jv_link_wrapper.cpp:374-489 | with a positive limit and no filter the loop ends against any reader within 10000 reads for each record of the limit |
| StoredRead.PlayIsBounded | src/core/jv_link_wrapper.cpp:374-489 | the same from any counters, by records left and retries left |
| StoredRead.FiniteStreamIsReadToAnEnd | src/core/jv_link_wrapper.cpp:374-489 | with any filter and limit the loop ends against every reader of finitely many records |
| StoredRead.ExitTells | src/core/jv_link_wrapper.cpp:374-489 | for every script: which turns the loop goes through, what each of its seven exits says about the last turn or the limits reached (codes -1, -3 and 10000 fruitless reads in a row written out), and that the callback was given exactly the wanted records of those turns |
| StoredRead.EndsNormally | src/core/jv_link_wrapper.cpp:470-473 | file switches (-1), downloads in progress (-3) and missing buffers are normal: with nothing cancelled or thrown, fewer than 10000 of them in a row and the end (0) at last, the loop ends normally |
| StoredRead.EverythingComes | src/core/jv_link_wrapper.cpp:357-496 | and then the client has all wanted records of the files, or the first so many; without a limit all, short of 2^63 |
| StoredRead.FilterKeeps | src/core/jv_link_wrapper.cpp:401-428 | what filtering means: records without a type and those of a listed type, as often as they come; without a list everything |
| StoredRead.JvGetsWithRetry | src/core/jv_link_wrapper.cpp:570-628 | at most max(1, attempts) calls, one without retry; all but the last found corruption; a corruption code comes back only if the budget is used up; one delete fewer than calls, each of the remembered file |
| StoredRead.DeletesTheFileBeingReadIff | src/core/jv_link_wrapper.cpp:592-600 | the deleted file is the one being read if and only if the last call that named a file was reading the same one |
| StoredRead.DeletesTheWrongFile | src/core/jv_link_wrapper.cpp:592-600 | a run that deletes the file before the corrupted one |
| StoredRead.JvGets | src/core/jv_link_wrapper.cpp:630-723 | the buffer is written with accessible data only; the name also when the bytes cannot be accessed, but not when it is empty or too long |
| StreamQueries.WaitForDownload | src/core/jv_link_wrapper.cpp:1150-1243 | the polling loop computes the recursive meaning `Wait` of its polls, with at most 3000 + 60 per file of them |
| StreamQueries.DownloadedIff | src/core/jv_link_wrapper.cpp:1150-1243 | the wait succeeds if and only if, within 3000 + 60 per file polls, one covers the download while all earlier ones answer with less and no error and none is cancelled |
| StreamQueries.WaitEndsIff | src/core/jv_link_wrapper.cpp:1150-1243 | every other end of the wait: -502 for a cancellation or a budget used up, a negative status as it is, an exception as it is |
| StreamQueries.QueryStored | src/core/jv_link_wrapper.cpp:259-502 | reports and exit are those of `StoredReport`, and an initialised query opens once and closes once on every way out |
| StreamQueries.StoredBody | src/core/jv_link_wrapper.cpp:277-496 | every branch of open, wait, cancellation and read loop leads where `StoredReport` says |
| StreamQueries.StoredReportShape | src/core/jv_link_wrapper.cpp:277-356 | the reports are nothing, one error, or one meta report and then records; there is a meta report if and only if open and download succeeded, nothing was cancelled before and it could be rendered |
| StreamQueries.ReadRealtime | src/core/jv_link_wrapper.cpp:1344-1404 | the loop computes the recursive meaning `PlayRealtime` of its script: delivered records and exit |
| StreamQueries.RealtimeDelivery | src/core/jv_link_wrapper.cpp:1344-1404 | apart from empty records for missing buffers, a prefix of the reader's records, and all of them on a normal end |
| StreamQueries.RealtimeIsAPrefixIff | src/core/jv_link_wrapper.cpp:1344-1404 | what is delivered is a prefix of the reader's records if and only if no answer acted on announced data without a buffer |
| StreamQueries.RecordOutOfNothing | src/core/jv_link_wrapper.cpp:1363-1374 | a run that delivers a record of a reader that has none |
| StreamQueries.QueryRealtime | src/core/jv_link_wrapper.cpp:1295-1407 | reports and exit are those of `RealtimeReport`; one open and one close on every way out |
| StreamQueries.RealtimeReportShape | src/core/jv_link_wrapper.cpp:1295-1340 | the shape of the reports, and when there is a meta report; no data is an empty success |
| StreamQueries.ReportsObeyTheGrammar | src/server/main.cpp:1102-1245 | whatever exception ends the query, the lines are nothing, one error, or one meta line, records and at most one final error |
| StreamQueries.StoredStreamCarries | src/server/main.cpp:1128-1245 | end to end: the records in a stored stream's lines are a beginning of the renderable ones of "filter the files, take the limit", and all of them when the query reported meta data, had something to read and ended normally |
| StreamQueries.RealtimeStreamCarries | src/server/main.cpp:1984-2060 | the records in a realtime stream's lines are the renderable ones the loop delivered |
| StreamQueries.ReadFailureShows | src/server/main.cpp:1226-1241 | when the read loop of a stored query stops at an error code, the last line is the error line of that code; -502 when its retries run out, -50301 after a timed-out call, -500 after another exception; on every other exit there is no error line |
| StreamQueries.EarlyEndShows | src/server/main.cpp:1199-1245 | all the lines of a stored query that does not come to its read loop, by what ended it: not initialised, open failed or refused, wait failed, cancelled, nothing to read, report not to be rendered |
| StreamQueries.NoErrorLineMeansAll | src/server/main.cpp:1199-1245 | the client's view: a stream that nobody cancelled, whose client stayed and that has no error line was opened, begins with the meta line and carries all wanted renderable records |
| StreamQueries.RealtimeEndsAt | src/core/jv_link_wrapper.cpp:1344-1404 | the realtime loop ends at its first turn that does not go on (-1, -3 and data go on); that turn alone tells why, and the records announced up to it have been handed on |
| StreamQueries.RealtimeFailureShows | src/server/main.cpp:2047-2064 | the error line of a realtime query's failure, as for a stored one, and the records in the lines |
| StreamQueries.RealtimeEarlyEndShows | src/server/main.cpp:2031-2064 | all the lines of a realtime query that does not come to its loop |
| StreamQueries.NoErrorLineMeansAllRealtime | src/server/main.cpp:2031-2064 | the client's view: without an error line an undisturbed realtime stream carries, apart from empty records, all renderable records of the reader |
| StreamQueries.StoredStream | src/server/main.cpp:1049-1252 | query and handler together write exactly the lines of the query's reports and exit (what those are, failures included: `ReadFailureShows`, `EarlyEndShows`), and keep the grammar |
| StreamQueries.RealtimeStream | src/server/main.cpp:1937-2070 | the same for the realtime endpoint (`RealtimeFailureShows`, `RealtimeEarlyEndShows`) |
| QueryResponse.RespondStored | src/server/main.cpp:1085-1252 | query, handler, writer, heartbeat and failing writes together: every finished line at the client is the text of the line in its place; and when the stream is stopped or closed with no write failed, and its client was not found to be gone, the client's lines are the texts of all |
| QueryResponse.RespondRealtime | src/server/main.cpp:1955-2070 | the same for the realtime endpoint |
| QueryResponse.MetaLineOfALostClient | src/server/main.cpp:1117-1122 | a run in which the meta callback throws and the client has the finished meta line |
| EndToEnd.StoredToTheClient | src/server/supervisor_http_server.cpp:848-965 | a stored query from the component to the client, with failures of the writer, the worker's transport, its connection and the client, under any schedule: the client's finished lines are the texts of the first lines; and of all of them when no write failed, the client was not found to be gone, and the relay's send succeeded |
| EndToEnd.RealtimeToTheClient | src/server/supervisor_http_server.cpp:848-965 | the same for a realtime query |
| EndToEnd.EverythingArrives | src/server/supervisor_http_server.cpp:848-965 | with nobody in its way a response arrives: the client's lines are all that the handler had to say, closed as complete |
| EndToEnd.CarryToTheClient | src/server/supervisor_http_server.cpp:848-965 | any state of a line stream through chunked coding and relay: the client's text is a beginning of what was written, and a normally closed response is complete if and only if the send succeeded |
| EndToEnd.PlayRelay | src/server/supervisor_http_server.cpp:871-896 | a relay fed by what the chunked reader gives ends with success only if that reader did and all of its body was accepted |
| SessionLock.JVLinkHTTPServer.Run | src/server/main.cpp:576-587 | over every interleaving of requests, resets and calls that time out, no open call is carried out while an earlier one is unclosed |
| SessionLock.JVLinkHTTPServer.Step | src/server/main.cpp:576-587 | what each step of a request does to it |
| SessionLock.JVLinkHTTPServer.ComCall | src/server/main.cpp:1049-1056 | an open call that a sound worker carries out finds the component's session closed; a faulted worker carries nothing out |
| SessionLock.QueriesAreBracketed | include/core/jv_link_wrapper.h:372-409 | what both queries hand to the component, on every way out, opens and closes in turn |
| SessionLock.JVLinkHTTPServer.Serve | src/server/main.cpp:576-587 | a request gets the lock if and only if it is free, and leaves lock, registered session and, with a sound worker, the component as they were |
| SessionLock.ServeStored | src/server/main.cpp:1049-1056 | the same with the calls and the reports of a stored query |
| SessionLock.ServeRealtime | src/server/main.cpp:1937-1944 | the same with those of a realtime query |
| SessionLock.JVLinkHTTPServer.AtMostOneOwner | src/server/main.cpp:576-587 | two requests never own the mutex together |
| SessionLock.JVLinkHTTPServer.ActiveSessionIsTheOwner | src/server/main.cpp:436-446 | a registered session is the snapshot of the request that owns the mutex, whatever ids clients choose, and nobody owning it means nobody registered |
| SessionLock.JVLinkHTTPServer.ReleaseLease | src/server/main.cpp:224-250 | clearing by request id clears the request's own session, never another's |
| SessionLock.JVLinkHTTPServer.IsResetRequested | src/server/main.cpp:478-484 | a stream cancels if and only if the resets since it read the generation are no multiple of 2^64; below that, if and only if there was one |
| SessionLock.JVLinkHTTPServer.NoticedIffFoundBegun | src/server/main.cpp:1049-1056 | short of 2^64 resets, a stream cancels if and only if some reset found it registered and begun |
| SessionLock.ResetMissesAStartingStream | src/server/main.cpp:1049-1056 | a run in which a reset finds the session registered and the stream goes on |
| SessionLock.SoManyResetsLookLikeNone | src/server/main.cpp:478-484 | 2^64 resets of a running stream that it does not notice |
| SessionLock.SameGeneration | src/server/main.cpp:478-484 | when two counts of resets show the same generation |
| SessionLock.JVLinkHTTPServer.UnlockBeforeLease | src/server/main.cpp:224-250 | the other order of release breaks the invariant |
| NdjsonWriter.NdjsonStream.Run | src/server/main.cpp:1097-1250 | any interleaving of writer and heartbeat, with writes failing at any byte or behind the last, and a handler that stops or goes on, keeps `Valid()` -- a writer that has stopped with no write failed has written every payload, unless its client was found to be gone -- and nothing goes out after the sink is closed; after two steps for each payload and two more the writer has stopped |
| NdjsonWriter.NdjsonStream.StoppedMeansEverything | src/server/main.cpp:1097-1250 | a stopped or closed stream without a failed write and without a lost client: the client's lines are all the payloads |
| NdjsonWriter.NdjsonStream.MainStep | src/server/main.cpp:1097-1250 | a step of the streaming thread brings it nearer to its end, unless it waits for the heartbeat thread |
| NdjsonWriter.NdjsonStream.WriteEverything | src/server/main.cpp:1097-1250 | with nobody in its way it comes to its end, and the client has all payloads |
| NdjsonWriter.NdjsonStream.GiveUp | src/server/main.cpp:1131-1135 | the query is given up only when the record callback finds the connection closed, or once a heartbeat has ended by a failed write or a closed connection |
| NdjsonWriter.NdjsonStream.LinesAreThePayloads | src/server/main.cpp:1097-1250 | without a failed write, splitting the output at newlines and dropping blank lines gives exactly the payloads written so far, in order |
| NdjsonWriter.NdjsonStream.FailedStreamIsAPrefix | src/server/main.cpp:1097-1196 | after a failed write the finished lines are still the first payloads |
| NdjsonWriter.NdjsonStream.WriteBlank | src/server/main.cpp:1175-1196 | a newline from either thread ends the line it falls on and changes no other |
| NdjsonWriter.NdjsonStream.WritePayload | src/server/main.cpp:1128-1172 | what a payload's write gets out, and that a failure stops the writer unless it goes on, as the realtime handler does with its meta line |
| NdjsonWriter.NdjsonStream.WriteLineAtOnce | src/server/main.cpp:75-89 | the error line: payload and newline under one lock |
| NdjsonWriter.AppendText | src/server/main.cpp:1146-1147 | text without a newline extends the unfinished line only |
| NdjsonWriter.AppendNewline | src/server/main.cpp:1189-1189 | a newline finishes the last line and adds no line a client sees |
| NdjsonWriter.FinishedOfABeginning | src/server/main.cpp:1097-1250 | the finished lines of a text cut off anywhere are the first lines of the text |
| StreamingProxy.StreamingProxyState.Run | src/server/supervisor_http_server.cpp:848-965 | in every interleaving and for every method, head and way of failing, accepted = sent ++ chunk in hand ++ queue, upstream body = accepted ++ not yet received; what is sent is final; after a cancel not one more byte is accepted |
| StreamingProxy.StreamingProxyState.FinishedIsCompleteIff | src/server/supervisor_http_server.cpp:881-948 | a normally closed response is the whole upstream response if and only if the send succeeded (body with a marked end), or succeeded with nothing left (body that ends with the connection); its bytes are always a beginning of it |
| StreamingProxy.HalfABodyClosedNormally | src/server/supervisor_http_server.cpp:926-948 | a run in which half a body is closed normally |
| StreamingProxy.ShortBodyUnnoticed | include/httplib.h:4404-4419 | a run in which a body that ends with the connection is cut and no restart is asked for |
| StreamingProxy.StreamingProxyState.ResponseStartsIff | src/server/supervisor_http_server.cpp:899-913 | a streamed response starts if and only if a head came, the method is not HEAD and the status is not 204; a rejected request asks for a restart if and only if the send failed, that is, if no head came |
| StreamingProxy.HeadRequestIsRejected | include/httplib.h:8187-8197 | a HEAD request that the worker answers is rejected, without a restart or a health check |
| StreamingProxy.WholeBodyRelayed | src/server/supervisor_http_server.cpp:848-965 | a GET or POST whose body is relayed in two chunks: complete, closed normally, no restart |
| StreamingProxy.StreamingProxyState.OnHead | include/httplib.h:8187-8197 | the response handler is called for every method but HEAD and every status but 204; it asks for a restart exactly on a marked 503 |
| StreamingProxy.StreamingProxyState.SendReturned | src/server/supervisor_http_server.cpp:881-896 | how the send ends in each state -- a refused body as cancelled, a marked body that is not complete as failed -- and that a failure which is no cancellation asks for a restart |
| StreamingProxy.StreamingProxyState.ConsumerStep | src/server/supervisor_http_server.cpp:899-965 | one step of the request's thread, from every state; a response is cancelled only by a failed write or a closed connection |
| StreamingProxy.StreamingProxyState.ProducerStep | src/server/supervisor_http_server.cpp:852-896 | one step of the producer's thread |
| StreamingProxy.StreamingProxyState.DoneMeansEverythingSent | src/server/supervisor_http_server.cpp:926-948 | the response is closed only with everything accepted sent and the producer finished |
| StreamingProxy.StreamingProxyState.SentIsAPrefix | src/server/supervisor_http_server.cpp:926-948 | at any moment the client has a prefix of what was accepted, and that is a prefix of the upstream body |
| StreamingProxy.StreamingProxyState.CancelAloneNeverRestarts | src/server/supervisor_http_server.cpp:881-896 | a restart is asked for if and only if the worker reported itself unavailable or the send failed; a cancelled send is no failure |
| StreamingProxy.StreamingProxyState.ContentReceiver | src/server/supervisor_http_server.cpp:871-879 | a chunk is queued if and only if the cancel flag is clear at the push |
| StreamingProxy.StreamingProxyState.DecideRestart | src/server/supervisor_http_server.cpp:949-965 | the releaser restarts or only checks, as the producer has decided |
| StreamingProxy.StreamingProxyState.StartOrReject | src/server/supervisor_http_server.cpp:899-913 | with headers the response starts; without, the request is rejected, with a restart exactly when the send failed |
| WorkerProcess.WorkerProcessManager.Run | src/server/supervisor_http_server.cpp:209-255 | after every public call a process is known iff port > 0 iff both handles are open, generation equals restart count, and no child was ever launched with an earlier handle open |
| WorkerProcess.WorkerProcessManager.EnsureWorkerReady | src/server/supervisor_http_server.cpp:209-285 | true if and only if a process is known, whose last probe was healthy; a healthy child is kept, any other replaced, with success if and only if a port, a child and a healthy answer come in time |
| WorkerProcess.WorkerProcessManager.RestartIfWorkerUnhealthy | src/server/supervisor_http_server.cpp:224-236 | the same for the check after a stream |
| WorkerProcess.WorkerProcessManager.StartWorker | src/server/supervisor_http_server.cpp:287-334 | failed port, failed launch, early exit and start-up timeout leave no process, port or handle behind |
| WorkerProcess.WorkerProcessManager.StopWorker | src/server/supervisor_http_server.cpp:341-363 | afterwards no process is known and each handle has been closed once |
| WorkerProcess.WorkerProcessManager.HasExited | src/server/supervisor_http_server.cpp:372-387 | a dead child costs its handles and its port at once |
| WorkerProcess.WorkerProcessManager.WaitForHealthyWorker | src/server/supervisor_http_server.cpp:400-421 | healthy if and only if a healthy answer comes before the child ends and before the deadline |
| WorkerProcess.ComesUpIff | src/server/supervisor_http_server.cpp:400-421 | that condition, in terms of the polls |
| WorkerProcess.HealthyIff | src/server/supervisor_http_server.cpp:423-460 | a probe is healthy if and only if it got a 200 whose body does not say otherwise |
| WorkerProcess.WorkerProcessManager.Snapshot | src/server/supervisor_http_server.cpp:238-255 | port, counters, exit code and probe of one status report belong together |
| EventQueue.EventQueue.Push | src/server/main.cpp:2144-2157 | at most 100 events; an event is evicted exactly when the queue was full, and it is the oldest |
| EventQueue.EventQueue.Drain | src/server/main.cpp:2261-2281 | a client gets all waiting events in order, or as many as its connection takes and loses the next |
| EventQueue.EventQueue.Run | src/server/main.cpp:2144-2281 | over every interleaving the queue is a contiguous suffix of all pushes, fates are final, streams only grow |
| EventQueue.EventQueue.StreamIsASubsequence | src/server/main.cpp:2261-2281 | what a client got is a strictly increasing subsequence of the pushes |
| EventQueue.EventQueue.LosesOneAtMost | src/server/main.cpp:2261-2281 | a client that is gone has cost one event at most, and gets none after it |
| EventQueue.EventQueue.NoEventTwice | src/server/main.cpp:2261-2281 | no event reaches two clients |
| EventQueue.EventQueue.NothingElseIsLost | src/server/main.cpp:2144-2281 | an event neither waiting nor delivered was taken for a client that is gone, or evicted with 100 newer ones behind it |
| ChunkedCoding.RoundTripIff | include/httplib.h:4421-4485 | decoding what any writes and one done() put on the wire gives their concatenation and leaves the rest of the connection if and only if every write is below ULONG_MAX bytes |
| ChunkedCoding.DecodeOfEncoded | include/httplib.h:4421-4485 | and otherwise fails with a prefix |
| ChunkedCoding.FourGigabytesAreLost | include/httplib.h:4435-4441 | one write of ULONG_MAX bytes is not received |
| ChunkedCoding.FromIToHex | include/httplib.h:2741-2749 | the loop prints the hexadecimal digits of the number |
| ChunkedCoding.HexOfIsHex | include/httplib.h:2741-2749 | those digits are worth the number |
| ChunkedCoding.StrtoulOfHex | include/httplib.h:4435-4445 | `strtoul` reads them back, saturating at ULONG_MAX, and stops behind them |
| ChunkedCoding.ChunkedSink.Write | include/httplib.h:4714-4811 | the wire grows by one chunk, or by a beginning of it and the sink's latch falls; an empty write puts nothing on it and ends the provider's loop |
| ChunkedCoding.ChunkedSink.Done | include/httplib.h:4714-4811 | the last chunk and the empty trailer end the wire, each as far as the transport gets it out |
| ChunkedCoding.SocketStream.Read | include/httplib.h:6111-6155 | a read passes on at least one and at most so many of the pending bytes, in order, through buffer or not, however short the socket's reads; an error or a timeout shows only behind all of them |
| ChunkedCoding.StreamLineReader.Append | include/httplib.h:3106-3117 | one more byte at the end of the text, also where it moves to the growable buffer |
| ChunkedCoding.StreamLineReader.GetLine | include/httplib.h:3066-3104 | the reader finds the line that `ScanLine` finds in the pending bytes and consumes exactly it |
| ChunkedCoding.ReadContentWithLength | include/httplib.h:4372-4392 | exactly so many bytes or a failure with all there were |
| ChunkedCoding.ReadChunk | include/httplib.h:4421-4485 | the data of a chunk and the CRLF behind it |
| ChunkedCoding.ReadContentChunked | include/httplib.h:4421-4485 | for every schedule of short reads the loop delivers what `Decode` says of the bytes |
| ChunkedCoding.ReadTrailers | include/httplib.h:4421-4485 | trailers are read up to the empty line and add nothing |
| ChunkedCoding.SendAndReceive | include/httplib.h:4714-4811 | writer, wire, socket and reader composed: the body is the concatenation of the writes |
| ChunkedFailures.SendAndReceiveOverAFailingWire | include/httplib.h:4714-4811 | with a transport that fails at any byte of any write and a connection that ends in any way, the receiver gets a beginning of the writes, and all of them if it succeeds |
| ChunkedFailures.StreamCutShort | include/httplib.h:4421-4485 | a stream cut before its last chunk is a failure with a beginning of what was written |
| ChunkedFailures.ChunkCutShort | include/httplib.h:4421-4485 | so is a cut anywhere in a chunk: size line, data or line end |
| ChunkedFailures.EndCutShort | include/httplib.h:4450-4485 | nothing of a cut last chunk is taken for content |
| ChunkedSenders.LegalCodingIsRead | include/httplib.h:4421-4485 | whatever legal coding another sender chooses (sizes in either case, leading zeros, extensions, trailers), the reader gets the data and leaves what follows, within its limits for lines and sizes |
| ChunkedSenders.SizeLineIsRead | include/httplib.h:4435-4445 | such a size line is found as a line, and its size in it |
| ChunkedSenders.TrailersAreSkipped | include/httplib.h:4465-4482 | trailer lines are skipped up to the empty line |
| ChunkedSenders.LastChunkAlone | include/httplib.h:4463-4465 | the empty line behind the last chunk may be missing |
| ChunkedSenders.StrtoulOfNumber | include/httplib.h:4434-4436 | `strtoul` with base 16 as the C standard has it: spaces, sign, 0x, saturation, and a minus sign that negates modulo 2^32 |
| ChunkedSenders.NoSizeIsRefused | include/httplib.h:4435-4441 | a line that cannot begin a number is no size line |
| ChunkedSenders.ChunkWithoutLineEnd | include/httplib.h:4443-4449 | a chunk whose data no line end follows is a failure behind its data |
| ChunkedSenders.LongLineIsGivenUp | include/httplib.h:3066-3104 | a line without an end in 32768 bytes is given up |
| ChunkedSenders.LongTrailerIsRefused | include/httplib.h:4467-4482 | so is a trailer line of more than 8192 |
| Multipart.MultipartFormDataParser.FeedPieces | include/httplib.h:5077-5098 | for every split of the input the content handed on is the bytes before the first CRLF--boundary of the whole, or what is safe to hand on while there is none; if the callback refuses, a beginning of that |
| Multipart.MultipartFormDataParser.FeedBody | include/httplib.h:5077-5098 | one call of the body state keeps that relation to all input so far; a refusal ends the parsing with nothing more handed on |
| Multipart.MultipartFormDataParser.BufFind | include/httplib.h:5171-5192 | the hopping search with early exit finds the first occurrence |
| Multipart.MultipartFormDataParser.BufAppend | include/httplib.h:5194-5210 | moving, growing and copying append to the buffered bytes |
| Multipart.MultipartFormDataParser.StartsWith | include/httplib.h:5152-5160 | the comparison decides an occurrence |
| Multipart.SearchInKept | include/httplib.h:5077-5098 | searching the bytes kept back and the new ones is searching everything |
| Multipart.NothingLost | include/httplib.h:5077-5098 | the input is what has been handed on, the boundary and what is kept, with no boundary before; or there is none, and no more is kept than its length |
| Multipart.FoundStaysFound | include/httplib.h:5077-5098 | later input does not change what came before the boundary |
| ByteRanges.RangeError | include/httplib.h:5301-5365 | refuses exactly the lists that are too long, unsatisfiable, not ascending or overlapping more than twice, and rewrites the others to the bytes they denote |
| ByteRanges.CheckRanges | include/httplib.h:5316-5361 | the loop with its three remembered values decides acceptability |
| ByteRanges.AcceptableSnoc | include/httplib.h:5347-5360 | the tests on one range decide for the list so far, and a failed one for good |
| ByteRanges.FollowsRfcIff | include/httplib.h:5322-5344 | for a body of any length the rewriting agrees with section 14.1.2 of RFC 9110 except for suffixes longer than the body |
| ByteRanges.LongSuffixIsRefused | include/httplib.h:5322-5350 | such a suffix is refused where the RFC gives the whole body |
| ByteRanges.MakeMultipartRangesData | include/httplib.h:5391-5441 | the writing pass puts out, part by part, exactly the bytes of each range |
| ByteRanges.GetMultipartRangesDataLength | include/httplib.h:5443-5460 | the counting pass gives the length of that answer for every body of the length |
| ByteRanges.OffsetAndLength | include/httplib.h:5367-5375 | on an accepted range the assertions hold and the bytes lie in the body |
| ByteRanges.AnswerIsRead | include/httplib.h:5391-5441 | a client that reads the multipart answer by its delimiters and Content-Range fields gets, for every range, first and last byte, total length and exactly its bytes, whatever the body contains |
| ByteRanges.PlaceIsRead | include/httplib.h:5377-5389 | a Content-Range field tells first byte, last byte and total length |
| ByteRanges.Respond | include/httplib.h:7132-7204 | from the check to the answer, for no range, one, or more, and any status: what is sent is the body, the slice or the multipart answer, Content-Length is its length, and a client reads the place of every range in it |
| Base64.Base64Encode | include/httplib.h:2785-2811 | the loop over an accumulator that wraps computes the encoding of section 4 of RFC 4648, for every byte string |
| Base64.EncodeInverts | include/httplib.h:2785-2811 | a strict decoder maps the text back to the input |
| Base64.EncodedLength | include/httplib.h:2785-2811 | four digits for every three bytes begun |
| Base64.SixBitsOf | include/httplib.h:2798-2800 | the six bits at each shift depend on the last two bytes only, whatever the accumulator holds above |
| Base64.ShiftInMoves | include/httplib.h:2796-2797 | shifting a byte in keeps the low half right through wrap-around |
| Base64.DrainDigits | include/httplib.h:2798-2801 | the inner loop takes one digit, or two when twelve bits are there |
| Base64.Finish | include/httplib.h:2804-2808 | left-over bits and padding complete the encoding |
| Base64.Lookup | include/httplib.h:2786-2787 | the lookup string is the RFC's alphabet |
| PercentCoding.DecodeOfEncoded | include/httplib.h:2923-2958 | decoding an encoded value gives it back, for every byte string and either reading of '+' |
| PercentCoding.EncodeQueryParam | include/httplib.h:2870-2889 | the loop computes the encoding |
| PercentCoding.EncodedByte | include/httplib.h:2870-2889 | which bytes stand for themselves, and the upper-case %XX of the others |
| PercentCoding.EncodedIsInert | include/httplib.h:2870-2889 | an encoded value contains nothing that a query string is split at |
| PercentCoding.DecodeUrl | include/httplib.h:2923-2958 | the index loop computes the decoding, with %uXXXX and malformed escapes |
| PercentCoding.FromHexToI | include/httplib.h:2724-2739 | exactly so many hexadecimal digits, none past the end |
| PercentCoding.DecodeOfTokens | include/httplib.h:2923-2958 | whatever encoder wrote it: bytes that stand for themselves, +, %XX and %uXXXX with each digit in either case are decoded to what they mean |
| PercentCoding.StrayPercentStays | include/httplib.h:2923-2958 | a % that begins no escape stands for itself |
| PercentCoding.Utf8Stands | include/httplib.h:2751-2783 | %uXXXX yields the UTF-8 sequence of its code (section 3 of RFC 3629), a surrogate nothing |
| Records.ParsedRecord.ParseH1Fields | src/data/records/h1_record.cpp:4-154 | every item of a full record has the width, every table the entries and columns that the specification lists; put together they are bytes 2 to 28953; a short record loses less than one field |
| Records.ParsedRecord.ParseH6Fields | src/data/records/h6_record.cpp:4-46 | the same for H6 and its 4896 entries |
| Records.ParsedRecord.ParseO1Fields | src/data/records/o1_record.cpp:4-77 | the same for O1 and its three tables |
| Records.ParsedRecord.ParseO2Fields | src/data/records/o2_record.cpp:4-44 | the same for O2 and its 153 entries |
| Records.H1RoundTrip | python/src/pyjvlink/_internal/protocol/schema/domain/h1.md:7-69 | items of the specified widths, written one behind the other, are what the parser makes of the record: no byte of one ends up in another |
| Records.H6RoundTrip | python/src/pyjvlink/_internal/protocol/schema/domain/h6.md:7-24 | the same for H6 |
| Records.O1RoundTrip | python/src/pyjvlink/_internal/protocol/schema/domain/o1.md:7-37 | the same for O1 |
| Records.O2RoundTrip | python/src/pyjvlink/_internal/protocol/schema/domain/o2.md:7-23 | the same for O2 |
| Records.ReadBack | src/data/record_parser.cpp:252-261 | any parser that reads the whole of a layout gets back the items a record was written from |
| Records.ValuesDetermined | python/src/pyjvlink/_internal/protocol/schema/domain/o2.md:7-23 | the text of a record determines its items, given their widths |
| Records.ParsedRecord.Entries | src/data/records/h1_record.cpp:52-61 | a table is its entries, each cut at its stride and columns, and covers its bytes without a gap |
| Records.FieldRead | src/data/record_parser.cpp:252-261 | a field that follows the last one extends what has been read, or is the first not to fit |
| Records.TypeIsTheFirstTwoBytes | src/server/main.cpp:58-73 | the emitted type is the first two bytes of the record, of a known type or not |
| Records.LookedUpByName | src/data/record_parser.cpp:303-401 | a type that is found carries the name that was looked up |
| Records.KnownIff | src/data/record_parser.cpp:303-320 | exactly 38 names are found |

## Left out

- COM and Win32 calls, code-page conversion, TLS, compression, DNS, regular expressions: foreign code; their answers are parameters.
- Real time: timeouts and deadlines are choices of the schedule or the script, poll counts stay numbers and do not overflow.
- The JSON library: rendering gives one non-empty line without newlines or throws, and a record whose rendering throws is dropped. JSON member names are replaced by item numbers, so a name used twice would not show.
- Stopping a worker from a thread of its own, a second start, WM_QUIT from elsewhere, overlapping public calls of the wrapper, and the direct call that the wrapper makes while no worker runs.
- Multipart: the states before the body, whose result depends on how the input is split.
- ByteRanges: the Range header's parser; the model takes any list it can yield.
- PercentCoding: `encode_url`, codes above FFFF, and whole query strings, whose keys the library does not encode; characters are classified as in the "C" locale.
- Base64: shifting a negative accumulator to the left is taken as two's-complement wrap-around, which C++ guarantees from C++20 on.
- WorkerProcess: command line, logging, the HTTP request inside a probe, and the texts of restart reasons; what a terminated child's exit code is, is arbitrary.
- EventQueue: greeting and ping messages, which carry no event.
- Records: the other record types; HR, KS and HN have reserved gaps, the rest would repeat the layout argument. The dispatch by type in `parseBasicFields` is not part of this model.
- StreamingProxy.StreamingProxyState.Run: says what holds in every schedule, not that a schedule makes progress; what a step does is in `ProducerStep` and `ConsumerStep`, and `WholeBodyRelayed` is a run to the end.
- EndToEnd.PlayRelay: the same; `EverythingArrives` is a run to the end.
- SessionLock.JVLinkHTTPServer.Run: the same; what a step does is in `Step`, and `Serve` is a request to the end.
- EventQueue.EventQueue.Run: the same; what a step does is in `Push` and `Drain`.
- ComThreadWorker.ComThreadWorker.Run: the same; fairness of the threads is not modelled, and `StopRunsEverything` drives the worker itself.
- OpenAPI document, logging, argument parsing, CORS, the Python client and the code generators: plumbing.
