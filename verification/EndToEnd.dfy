/** The whole way of a query's lines: writer and heartbeat in the worker process, chunked coding on the
    internal connection, the reader of the supervisor's client, and the relay to the client.
 */
module EndToEnd {
  import opened Wrappers
  import opened Pieces
  import opened StoredRead
  import opened StreamQueries
  import opened NdjsonWriter
  import opened QueryResponse
  import opened ChunkedCoding
  import ChunkedFailures
  import Proxy = StreamingProxy

  /** The relay fed by a send that gets `body` and comes back with `ok`. Everything else -- how the body
      is split, when the send ends, what the request's thread and the client do -- is the schedule's.
      Here it is the chunked coding that keeps a body from ending early with success. */
  method PlayRelay(relay: Proxy.StreamingProxyState, body: string, ok: bool, schedule: seq<Proxy.Action>)
    requires relay.Valid() && relay.producer == Proxy.Receiving && relay.accepted == ""
    requires body <= relay.remaining && (ok ==> body == relay.remaining)
    modifies relay
    ensures relay.Valid()
    ensures relay.upstream == old(relay.upstream) && relay.head == old(relay.head)
    ensures relay.accepted <= body
    ensures relay.producer == Proxy.Ended(Proxy.Success) ==> ok && relay.accepted == body
    ensures relay.producer == Proxy.Ended(Proxy.Failed) ==> !ok
  {
    hide Proxy.StreamingProxyState.Valid;
    var left := body;
    assert "" + body == body;
    for i := 0 to |schedule|
      invariant relay.Valid() && relay.upstream == old(relay.upstream) && relay.head == old(relay.head)
      invariant relay.producer.Receiving? || relay.producer.Refused? || relay.producer.Ended?
      invariant body == relay.accepted + left
      invariant relay.producer.Receiving? ==> left <= relay.remaining && (ok ==> left == relay.remaining)
      invariant relay.producer == Proxy.Ended(Proxy.Success) ==> ok && left == ""
      invariant relay.producer == Proxy.Ended(Proxy.Failed) ==> !ok
    {
      match schedule[i]
      case ReceiveHead(_, _) =>
      case Receive(length) =>
        if relay.producer.Receiving? && 0 < length <= |left| {
          left := ReceivePiece(relay, left, length);
        }
      case SendEnds(_) =>
        if relay.producer.Refused? || (relay.producer.Receiving? && left == "") {
          relay.SendReturned(!ok);
        }
      case other => relay.ConsumerStep(other);
    }
  }

  /** The next bytes of the body come to the content receiver. */
  method ReceivePiece(relay: Proxy.StreamingProxyState, left: string, length: nat) returns (rest: string)
    requires relay.Valid() && relay.producer == Proxy.Receiving && left <= relay.remaining && 0 < length <= |left|
    modifies relay
    ensures relay.Valid() && relay.upstream == old(relay.upstream) && relay.head == old(relay.head)
    ensures relay.accepted + rest == old(relay.accepted) + left
    ensures relay.producer.Receiving? || relay.producer.Refused?
    ensures relay.producer.Receiving? ==> rest <= relay.remaining
    ensures relay.producer.Receiving? && left == old(relay.remaining) ==> rest == relay.remaining
  {
    hide Proxy.StreamingProxyState.Valid;
    var piece := left[..length];
    assert left == piece + left[length..];
    var more := relay.ContentReceiver(piece);
    if !more {
      return left;
    }
    rest := left[length..];
    assert old(relay.accepted) + left == (old(relay.accepted) + piece) + rest;
    assert old(relay.remaining)[length..] == relay.remaining;
  }

  /** A line stream, in any state of its writing, carried to the client: the client's text is a beginning
      of what the handler wrote, its finished lines are the first payloads, and a response that is
      closed normally is complete if and only if the send succeeded -- in which case the client has all
      that was written. `bytes`, `marker` and `crlf` say where the worker's transport fails, `broken` how
      its connection ends. */
  method CarryToTheClient(stream: NdjsonStream, bytes: nat -> nat, marker: nat, crlf: nat, broken: bool,
                          schedule: seq<Proxy.Action>)
    returns (relay: Proxy.StreamingProxyState)
    requires stream.Valid() && forall i :: 0 <= i < |stream.payloads| ==> |stream.payloads[i]| <= SIZE_MAX
    ensures fresh(relay) && relay.Valid()
    ensures relay.sent <= Concat(stream.writes) && FinishedLines(relay.sent) <= stream.payloads
    ensures relay.consumer == Proxy.Finished ==>
              (relay.Complete() <==> relay.producer == Proxy.Ended(Proxy.Success))
    ensures relay.consumer == Proxy.Finished && relay.producer == Proxy.Ended(Proxy.Success) ==>
              relay.sent == Concat(stream.writes)
  {
    hide Lines, FinishedLines, LastLine, Concat, Proxy.StreamingProxyState.Valid;
    var writes := stream.writes;
    assert Sized(writes);
    var cuts := seq(|writes|, i requires 0 <= i => bytes(i));
    var ok, body := ChunkedFailures.SendAndReceiveOverAFailingWire(writes, cuts, marker, crlf, broken);
    relay := new Proxy.StreamingProxyState(Proxy.Post);
    relay.OnHead(Proxy.ResponseHead(200, false, true), Concat(writes));
    PlayRelay(relay, body, ok, schedule);
    relay.SentIsAPrefix();
    FinishedOfABeginning(relay.sent, Concat(writes));
    if relay.consumer == Proxy.Finished {
      relay.FinishedIsCompleteIff();
    }
  }

  /** A stored query, from the component to the client. */
  method StoredToTheClient(s: StoredScript, filter: seq<string>, maxRecords: int, renders: Record -> bool,
                           dump: Line -> string, writing: seq<NdjsonWriter.Action>, bytes: nat -> nat, marker: nat,
                           crlf: nat, broken: bool, relaying: seq<Proxy.Action>)
    returns (stream: NdjsonStream, lines: seq<Line>, relay: Proxy.StreamingProxyState)
    requires forall l :: IsPayload(dump(l)) && |dump(l)| <= SIZE_MAX
    ensures fresh(stream) && fresh(relay) && StreamGrammar(lines)
    ensures lines == StoredLines(s, filter, maxRecords, renders)
    ensures FinishedLines(relay.sent) <= Texts(lines, dump)
    ensures Undropped(stream, writing)
            && relay.consumer == Proxy.Finished && relay.producer == Proxy.Ended(Proxy.Success) ==>
              Lines(relay.sent) == Texts(lines, dump)
  {
    hide StoredLines, StreamGrammar, Lines, FinishedLines, LastLine, Concat;
    stream, lines := RespondStored(s, filter, maxRecords, renders, dump, writing);
    relay := CarryToTheClient(stream, bytes, marker, crlf, broken, relaying);
  }

  /** A realtime query, from the component to the client. */
  method RealtimeToTheClient(s: RealtimeScript, renders: Record -> bool, dump: Line -> string,
                             writing: seq<NdjsonWriter.Action>, bytes: nat -> nat, marker: nat, crlf: nat, broken: bool,
                             relaying: seq<Proxy.Action>)
    returns (stream: NdjsonStream, lines: seq<Line>, relay: Proxy.StreamingProxyState)
    requires forall l :: IsPayload(dump(l)) && |dump(l)| <= SIZE_MAX
    ensures fresh(stream) && fresh(relay) && StreamGrammar(lines)
    ensures lines == RealtimeLines(s, renders)
    ensures FinishedLines(relay.sent) <= Texts(lines, dump)
    ensures Undropped(stream, writing)
            && relay.consumer == Proxy.Finished && relay.producer == Proxy.Ended(Proxy.Success) ==>
              Lines(relay.sent) == Texts(lines, dump)
  {
    hide RealtimeLines, StreamGrammar, Lines, FinishedLines, LastLine, Concat;
    stream, lines := RespondRealtime(s, renders, dump, writing);
    relay := CarryToTheClient(stream, bytes, marker, crlf, broken, relaying);
  }

  /** With nobody in its way a query's response arrives: written, coded, read and relayed it is, line by
      line, what the handler had to say; and the response is closed as complete. What the lines carry is
      the matter of `NoErrorLineMeansAll`. */
  method EverythingArrives(lines: seq<Line>, dump: Line -> string) returns (relay: Proxy.StreamingProxyState)
    requires forall l :: IsPayload(dump(l)) && |dump(l)| < ULONG_MAX
    ensures fresh(relay) && relay.Valid() && relay.consumer == Proxy.Finished && relay.Complete()
    ensures Lines(relay.sent) == Texts(lines, dump)
  {
    hide Lines, LastLine, CutAfter, Proxy.StreamingProxyState.Valid;
    var stream := new NdjsonStream(Texts(lines, dump));
    stream.WriteEverything(Fate(ULONG_MAX, true), false);
    assert stream.wire == Concat(stream.writes);
    var ok, body := SendAndReceive(stream.writes, "", false);
    relay := Proxy.Started(Proxy.Post, Proxy.ResponseHead(200, false, true), body);
    if body != "" {
      Proxy.RelayChunk(relay, body);
      assert body == body + relay.remaining;
    }
    Proxy.EndWell(relay);
    assert relay.sent == "" + body == body;
  }
}
