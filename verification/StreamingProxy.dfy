/** The supervisor's streaming relay. A producer thread receives the worker process's response and
    queues its chunks, the HTTP server's thread takes them out and sends them downstream, and either
    end may fail. Each method is one hold of the state's mutex, or one write to the client; `Run`
    plays any schedule.
 */
module StreamingProxy {
  import opened Wrappers
  import opened Pieces

  type Chunk = string

  /** The methods that the routes let through; a HEAD request is dispatched to the GET routes. */
  datatype Method = Get | Post | Head

  /** What comes before an upstream body: the status, the worker's own mark of being unavailable, and
      whether the body's end can be told from a broken connection (a length or chunked coding). */
  datatype ResponseHead = ResponseHead(status: int, markedUnavailable: bool, delimited: bool)

  /** The client library calls response handler and content receiver only for these. */
  predicate HandsOn(m: Method, status: int) {
    m != Head && status != 204
  }

  /** How the upstream request can end. `Canceled` is the client library's answer to a content
      receiver that returned false; every other failure is `Failed`. */
  datatype SendResult = Success | Canceled | Failed

  datatype ProducerPc =
    | AwaitingHead
    | HeadOnly            // the head has come and is not handed on; the send is as good as over
    | Receiving
    | Refused             // the content receiver has returned false
    | Ended(result: SendResult)

  datatype ConsumerPc =
    | AwaitingStart       // the request handler waits for the response headers
    | Rejected            // it has answered "unavailable" instead of streaming
    | Ready               // about to take the next chunk
    | Holding(chunk: Chunk)
    | Finished            // sink.done() called
    | Aborted(chunk: Chunk)  // the response is over, this chunk has not been taken

  /** What is asked of the process manager in the end; a rejected request may leave it alone. */
  datatype Decision = Undecided | Restart | CheckHealth | LeaveAlone

  datatype Action =
    | ReceiveHead(head: ResponseHead, body: string)
    | Receive(length: nat)
    | SendEnds(failed: bool)
    | StartOrReject
    | TakeOrFinish
    | WriteDownstream(ok: bool)
    | ConnectionCloses
    | Release

  class StreamingProxyState {
    const upstreamMethod: Method
    var chunks: seq<Chunk>
    var headersReady: bool
    var finished: bool
    var downstreamCanceled: bool
    var transportFailed: bool
    var shouldRestart: bool
    var producer: ProducerPc
    var consumer: ConsumerPc
    var decision: Decision

    var head: Option<ResponseHead>   // what the worker has answered with
    var remaining: string            // what it has of the body that has not been received
    ghost var accepted: string       // bytes the content receiver has taken from upstream
    ghost var sent: string           // bytes of chunks the client has taken
    ghost var upstream: string       // the whole upstream body
    ghost var readToItsEnd: bool     // the upstream response has been read to its very end

    constructor (m: Method)
      ensures Valid()
      ensures upstreamMethod == m && consumer == AwaitingStart && producer == AwaitingHead
      ensures accepted == sent == "" && chunks == [] && !downstreamCanceled && decision == Undecided && !shouldRestart
    {
      upstreamMethod := m;
      chunks, headersReady, finished, downstreamCanceled := [], false, false, false;
      transportFailed, shouldRestart, decision := false, false, Undecided;
      producer, consumer := AwaitingHead, AwaitingStart;
      head, accepted, sent, upstream, remaining, readToItsEnd := None, "", "", "", "", false;
    }

    function InHand(): string
      reads `consumer
    {
      match consumer
      case Holding(c) => c
      case Aborted(c) => c
      case _ => ""
    }

    /** The response handler has run. */
    predicate HandedOn()
      reads `head
    {
      head.Some? && HandsOn(upstreamMethod, head.value.status)
    }

    /** The worker's own report of being unavailable, as far as the relay gets to see it. */
    ghost predicate ReportedUnavailable()
      reads `head
    {
      HandedOn() && head.value.status == 503 && head.value.markedUnavailable
    }

    /** Bytes accepted from upstream = bytes taken by the client, the chunk in hand, the queue. */
    ghost predicate BytesConserved()
      reads `accepted, `sent, `consumer, `chunks
    {
      accepted == sent + InHand() + Concat(chunks)
    }

    ghost predicate UpstreamConserved()
      reads `upstream, `accepted, `remaining, `readToItsEnd, `producer, `head
    {
      && upstream == accepted + remaining
      && (readToItsEnd <==> producer == Ended(Success) && HandedOn() && remaining == "")
      && (producer == Ended(Success) && HandedOn() && head.value.delimited ==> remaining == "")
    }

    ghost predicate ProducerPhases()
      reads `producer, `headersReady, `finished, `downstreamCanceled, `accepted, `head
    {
      && (headersReady <==> HandedOn())
      && (producer.AwaitingHead? ==> head.None?)
      && (producer.HeadOnly? ==> head.Some? && !headersReady)
      && (producer.Receiving? || producer.Refused? || producer == Ended(Canceled) ==> headersReady)
      && (producer == Ended(Success) ==> head.Some?)
      && (producer == Ended(Failed) ==> head.None? || headersReady)
      && (finished <==> producer.Ended?)
      && (producer.Refused? || producer == Ended(Canceled) ==> downstreamCanceled)
      && (!headersReady ==> accepted == "")
    }

    ghost predicate ConsumerPhases()
      reads `consumer, `headersReady, `finished, `chunks, `downstreamCanceled, `producer
    {
      && (!consumer.AwaitingStart? && !consumer.Rejected? ==> headersReady)
      && (consumer.Rejected? ==> finished && !headersReady)
      && (consumer.Finished? ==> finished && chunks == [] && producer != Ended(Canceled))
      && (consumer.Aborted? ==> downstreamCanceled)
      && (downstreamCanceled ==> consumer.Aborted? || consumer.Finished?)
    }

    /** A restart is asked for exactly when the worker said it is unavailable or the transport
        failed by itself; a cancellation that came from downstream is neither. */
    ghost predicate RestartJustified()
      reads `shouldRestart, `transportFailed, `producer, `head
    {
      && (transportFailed <==> producer == Ended(Failed))
      && (shouldRestart <==> ReportedUnavailable() || transportFailed)
    }

    ghost predicate Decided()
      reads `decision, `shouldRestart, `finished, `consumer
    {
      && (decision != Undecided ==> finished && (decision == Restart <==> shouldRestart))
      && (consumer.AwaitingStart? ==> decision == Undecided)
      && (decision == CheckHealth ==> !consumer.Rejected?)
      && (consumer.Rejected? ==> decision != Undecided)
      && (decision == LeaveAlone ==> consumer.Rejected?)
    }

    ghost predicate Valid()
      reads this
    {
      && BytesConserved() && UpstreamConserved()
      && ProducerPhases() && ConsumerPhases() && RestartJustified() && Decided()
    }

    // -------------------------------------------------------------- producer thread

    /** The response's head arrives. For a HEAD request, and for status 204, the client library calls
        neither handler nor receiver. After status 304 no body is read either. */
    method OnHead(h: ResponseHead, body: string)
      requires Valid() && producer == AwaitingHead
      modifies `headersReady, `shouldRestart, `producer, `head, `upstream, `remaining
      ensures Valid()
      ensures head == Some(h) && (headersReady <==> upstreamMethod != Head && h.status != 204)
      ensures producer == if headersReady then Receiving else HeadOnly
      ensures upstream == remaining == if headersReady && h.status != 304 then body else ""
      ensures shouldRestart <==> headersReady && h.status == 503 && h.markedUnavailable
    {
      hide BytesConserved, Concat;
      head := Some(h);
      if HandsOn(upstreamMethod, h.status) {
        headersReady, producer := true, Receiving;
        if h.status == 503 && h.markedUnavailable {
          shouldRestart := true;
        }
      } else {
        producer := HeadOnly;
      }
      remaining := if headersReady && h.status != 304 then body else "";
      upstream := remaining;
    }

    /** The content receiver: test of the cancel flag and push under one hold of the mutex. */
    method ContentReceiver(chunk: Chunk) returns (more: bool)
      requires Valid() && producer == Receiving && chunk <= remaining
      modifies `chunks, `producer, `accepted, `remaining
      ensures Valid()
      ensures more == !downstreamCanceled
      ensures if more then chunks == old(chunks) + [chunk] && accepted == old(accepted) + chunk && producer == Receiving
              else chunks == old(chunks) && accepted == old(accepted) && producer == Refused
      ensures old(remaining) == (if more then chunk else "") + remaining
    {
      if downstreamCanceled {
        producer := Refused;
        return false;
      }
      ConcatSnoc(chunks, chunk);
      chunks := chunks + [chunk];
      accepted, remaining := accepted + chunk, remaining[|chunk|..];
      assert accepted == sent + InHand() + Concat(chunks);
      return true;
    }

    /** What `client.send` comes back with: it fails without a head, succeeds on a head alone, and ends
        as `Canceled` after a refusal. A body with a marked end does not end early and succeed; one
        that ends with the connection does. */
    function Outcome(failed: bool): SendResult
      reads `producer, `head, `remaining
    {
      match producer
      case HeadOnly => Success
      case Receiving => if failed || (head.Some? && head.value.delimited && remaining != "") then Failed else Success
      case Refused => Canceled
      case _ => Failed
    }

    /** What follows `client.send`. */
    method SendReturned(failed: bool)
      requires Valid() && !producer.Ended?
      modifies `finished, `transportFailed, `shouldRestart, `producer, `readToItsEnd
      ensures Valid() && finished
      ensures producer == Ended(match old(producer)
                                case HeadOnly => Success
                                case Receiving => if failed || (head.value.delimited && remaining != "") then Failed
                                                  else Success
                                case Refused => Canceled
                                case _ => Failed)
      ensures shouldRestart == (old(shouldRestart) || producer == Ended(Failed))
    {
      hide BytesConserved, Concat;
      var error := Outcome(failed);
      readToItsEnd := error == Success && HandedOn() && remaining == "";
      producer, finished := Ended(error), true;
      if error != Success && !(downstreamCanceled && error == Canceled) {
        transportFailed := true;
        if !shouldRestart {
          shouldRestart := true;
        }
      }
    }

    // -------------------------------------------------------------- request thread

    /** The handler's decision once headers are there or the producer has given up. */
    method StartOrReject()
      requires Valid() && consumer == AwaitingStart && (headersReady || finished)
      modifies `consumer, `decision
      ensures Valid()
      ensures if headersReady then consumer == Ready && decision == old(decision)
              else consumer == Rejected && decision == if producer == Ended(Failed) then Restart else LeaveAlone
    {
      if headersReady {
        consumer := Ready;
      } else {
        consumer := Rejected;
        decision := if shouldRestart then Restart else LeaveAlone;
      }
    }

    method TakeOrFinish()
      requires Valid() && consumer == Ready && (chunks != [] || finished)
      modifies `consumer, `chunks
      ensures Valid()
      ensures if old(chunks) != [] then consumer == Holding(old(chunks)[0]) && chunks == old(chunks)[1..]
              else consumer == Finished && chunks == old(chunks)
    {
      if chunks != [] {
        consumer, chunks := Holding(chunks[0]), chunks[1..];
        assert accepted == sent + InHand() + Concat(chunks);
      } else {
        consumer := Finished;
      }
    }

    method WriteDownstream(ok: bool)
      requires Valid() && consumer.Holding?
      modifies `consumer, `sent, `downstreamCanceled
      ensures Valid()
      ensures if ok then consumer == Ready && sent == old(sent) + old(consumer).chunk
                         && downstreamCanceled == old(downstreamCanceled)
              else consumer == Aborted(old(consumer).chunk) && sent == old(sent) && downstreamCanceled
    {
      if ok {
        sent := sent + consumer.chunk;
        consumer := Ready;
        assert accepted == sent + InHand() + Concat(chunks);
      } else {
        consumer, downstreamCanceled := Aborted(consumer.chunk), true;
      }
    }

    /** The first half of the resource releaser: it runs when the response is over for any reason,
        also when the connection broke before the provider was called. */
    method CancelUpstream()
      requires Valid() && (consumer.Ready? || consumer.Finished? || consumer.Aborted?)
      modifies `downstreamCanceled, `consumer
      ensures Valid() && downstreamCanceled
      ensures consumer == if old(consumer).Ready? then Aborted("") else old(consumer)
    {
      downstreamCanceled := true;
      if consumer.Ready? {
        consumer := Aborted("");
      }
    }

    /** The second half, after the producer thread has been joined. */
    method DecideRestart()
      requires Valid() && downstreamCanceled && finished
      modifies `decision
      ensures Valid()
      ensures decision == if shouldRestart then Restart else CheckHealth
    {
      decision := if shouldRestart then Restart else CheckHealth;
    }

    // -------------------------------------------------------------- interleavings

    /** Plays a schedule; a step that has to wait is skipped. What is sent only grows; after a
        cancellation not one more byte is accepted, and a response that is over stays as it is. */
    method Run(schedule: seq<Action>)
      requires Valid()
      modifies this
      ensures Valid()
      ensures old(sent) <= sent && old(accepted) <= accepted
      ensures old(downstreamCanceled) ==> downstreamCanceled && accepted == old(accepted)
      ensures old(consumer).Finished? ==> consumer.Finished? && sent == old(sent) && accepted == old(accepted)
      ensures old(consumer).Rejected? ==> consumer.Rejected? && decision == old(decision)
    {
      hide BytesConserved, UpstreamConserved, RestartJustified, Decided, Concat;
      for i := 0 to |schedule|
        invariant Valid()
        invariant old(sent) <= sent && old(accepted) <= accepted
        invariant old(downstreamCanceled) ==> downstreamCanceled && accepted == old(accepted)
        invariant old(consumer).Finished? ==> consumer.Finished? && sent == old(sent) && accepted == old(accepted)
        invariant old(consumer).Rejected? ==> consumer.Rejected? && decision == old(decision)
      {
        ProducerStep(schedule[i]);
        ConsumerStep(schedule[i]);
      }
    }

    /** A step of the producer thread. */
    method ProducerStep(a: Action)
      requires Valid()
      modifies `headersReady, `finished, `transportFailed, `shouldRestart, `producer, `readToItsEnd
      modifies `chunks, `accepted, `remaining, `head, `upstream
      ensures Valid()
      ensures old(accepted) <= accepted && (downstreamCanceled ==> accepted == old(accepted))
      ensures old(finished) ==> finished && chunks == old(chunks) && accepted == old(accepted)
      ensures match a
              case ReceiveHead(h, _) => if old(producer) == AwaitingHead then head == Some(h) else head == old(head)
              case Receive(length) =>
                if old(producer) == Receiving && 0 < length <= |old(remaining)| && !downstreamCanceled then
                  && chunks == old(chunks) + [old(remaining)[..length]]
                  && accepted == old(accepted) + old(remaining)[..length]
                else chunks == old(chunks) && accepted == old(accepted)
              case SendEnds(_) => finished && chunks == old(chunks)
              case _ =>
                producer == old(producer) && head == old(head) && chunks == old(chunks) && finished == old(finished)
    {
      hide BytesConserved, UpstreamConserved, RestartJustified, Decided, Concat;
      match a
      case ReceiveHead(h, body) => if producer == AwaitingHead { OnHead(h, body); }
      case Receive(length) =>
        if producer == Receiving && 0 < length <= |remaining| { var _ := ContentReceiver(remaining[..length]); }
      case SendEnds(failed) => if !producer.Ended? { SendReturned(failed); }
      case _ =>
    }

    /** A step of the request's thread; one that has to wait, or is none, changes nothing. The response is
        cancelled by a failed write or a closed connection, and by nothing else. */
    method ConsumerStep(a: Action)
      requires Valid()
      modifies `consumer, `decision, `chunks, `sent, `downstreamCanceled
      ensures Valid()
      ensures old(sent) <= sent && (old(downstreamCanceled) ==> downstreamCanceled)
      ensures old(consumer).Finished? ==> consumer.Finished? && sent == old(sent)
      ensures old(consumer).Rejected? ==> consumer.Rejected? && decision == old(decision)
      ensures downstreamCanceled ==>
                old(downstreamCanceled) || a == Action.WriteDownstream(false) || a == ConnectionCloses
      ensures match a
              case StartOrReject =>
                consumer == if old(consumer) != AwaitingStart || !(headersReady || finished) then old(consumer)
                            else if headersReady then Ready else Rejected
              case TakeOrFinish =>
                if old(consumer) == Ready && old(chunks) != [] then
                  consumer == Holding(old(chunks)[0]) && chunks == old(chunks)[1..]
                else consumer == if old(consumer) == Ready && finished then Finished else old(consumer)
              case WriteDownstream(ok) =>
                if old(consumer).Holding? && ok then consumer == Ready && sent == old(sent) + old(consumer).chunk
                else sent == old(sent) && (old(consumer).Holding? ==> consumer == Aborted(old(consumer).chunk))
              case ConnectionCloses => old(consumer) == Ready ==> consumer == Aborted("")
              case Release => old(downstreamCanceled) && finished ==> decision == Restart || decision == CheckHealth
              case _ => consumer == old(consumer) && chunks == old(chunks) && decision == old(decision)
    {
      hide BytesConserved, UpstreamConserved, RestartJustified, Decided, Concat;
      match a
      case StartOrReject => if consumer == AwaitingStart && (headersReady || finished) { StartOrReject(); }
      case TakeOrFinish => if consumer == Ready && (chunks != [] || finished) { TakeOrFinish(); }
      case WriteDownstream(ok) => if consumer.Holding? { WriteDownstream(ok); }
      case ConnectionCloses =>
        if consumer.Ready? || consumer.Finished? || consumer.Aborted? { CancelUpstream(); }
      case Release => if downstreamCanceled && finished { DecideRestart(); }
      case _ =>
    }

    // -------------------------------------------------------------- what every run promises

    /** The response is closed only when all that was accepted has been sent, and nothing more can come. */
    lemma DoneMeansEverythingSent()
      requires Valid() && consumer == Finished
      ensures sent == accepted && finished
    {
      assert Concat(chunks) == "" && sent + "" + "" == sent;
    }

    /** The client has been sent the whole upstream body, and the upstream response was read to its end. */
    ghost predicate Complete()
      reads `sent, `upstream, `readToItsEnd
    {
      sent == upstream && readToItsEnd
    }

    /** What a normally closed response is worth. Its bytes are a beginning of the upstream body and
        the rest is what was never received. It is complete if and only if the send succeeded, when
        the body's end is marked; a body that ends with the connection may be short even so. */
    lemma FinishedIsCompleteIff()
      requires Valid() && consumer == Finished
      ensures upstream == sent + remaining
      ensures producer == Ended(Success) || producer == Ended(Failed)
      ensures head.Some? && (head.value.delimited ==> (Complete() <==> producer == Ended(Success)))
      ensures Complete() <==> producer == Ended(Success) && remaining == ""
      ensures sent == upstream <==> remaining == ""
    {
      DoneMeansEverythingSent();
      assert producer.result.Success? || producer.result.Canceled? || producer.result.Failed?;
      assert upstream == sent + remaining;
      assert |upstream| == |sent| + |remaining|;
      assert remaining == "" ==> sent + remaining == sent;
    }

    /** At any moment the client has a prefix of what was accepted. */
    lemma SentIsAPrefix()
      requires Valid()
      ensures sent <= accepted <= upstream
    {
    }

    /** Which requests get a streamed response: those whose upstream head has come, for a method other than
        HEAD and with a status other than 204. The others are rejected, and ask for a restart if and only if
        the send failed. */
    lemma ResponseStartsIff()
      requires Valid() && !consumer.AwaitingStart?
      ensures !consumer.Rejected? <==> head.Some? && upstreamMethod != Head && head.value.status != 204
      ensures consumer.Rejected? ==> producer == Ended(Failed) || producer == Ended(Success)
      ensures consumer.Rejected? ==> decision == if producer == Ended(Failed) then Restart else LeaveAlone
      ensures consumer.Rejected? ==> (producer == Ended(Failed) <==> head.None?)
    {
      assert producer.Ended? ==> producer.result.Success? || producer.result.Canceled? || producer.result.Failed?;
    }

    /** A restart is never the doing of the client: when the upstream send ended because the client
        went away, only the worker's own report of being unavailable can have asked for one. And a
        transport failure always asks for one. */
    lemma CancelAloneNeverRestarts()
      requires Valid() && producer.Ended?
      ensures producer.result != Failed ==> (shouldRestart <==> ReportedUnavailable())
      ensures producer.result == Failed ==> shouldRestart
      ensures decision != Undecided ==> (decision == Restart <==> ReportedUnavailable() || producer.result == Failed)
    {
    }
  }

  /** A HEAD request on a streaming route: the worker answers, the library hands nothing on, and the
      client is told that the worker failed. Nobody restarts or checks it. */
  method HeadRequestIsRejected(h: ResponseHead) returns (s: StreamingProxyState)
    ensures fresh(s) && s.Valid()
    ensures s.producer == Ended(Success) && s.head == Some(h)
    ensures s.consumer == Rejected && s.decision == LeaveAlone && !s.shouldRestart
  {
    hide StreamingProxyState.Valid;
    s := new StreamingProxyState(Head);
    s.OnHead(h, "");
    s.SendReturned(false);
    s.StartOrReject();
  }

  /** A request that nothing disturbs: the whole body, in two chunks, and nobody is restarted. */
  method WholeBodyRelayed(m: Method, x: string, y: string) returns (s: StreamingProxyState)
    requires m != Head && x != "" && y != ""
    ensures fresh(s) && s.Valid() && s.upstreamMethod == m
    ensures s.consumer == Finished && s.sent == x + y && s.Complete()
    ensures s.producer == Ended(Success) && s.decision == CheckHealth && !s.shouldRestart
  {
    hide StreamingProxyState.Valid, Concat;
    s := Started(m, ResponseHead(200, false, true), x + y);
    RelayChunk(s, x);
    assert y == (x + y)[|x|..] == s.remaining;
    RelayChunk(s, y);
    assert s.sent == "" + x + y == x + y && s.remaining == "";
    EndWell(s);
  }

  /** The worker's answer, and the beginning of the client's. */
  method Started(m: Method, h: ResponseHead, body: string) returns (s: StreamingProxyState)
    requires m != Head && h.status == 200
    ensures fresh(s) && s.Valid() && s.upstreamMethod == m && s.head == Some(h) && s.upstream == s.remaining == body
    ensures s.producer == Receiving && s.consumer == Ready && s.chunks == []
    ensures !s.downstreamCanceled && !s.shouldRestart && s.sent == "" && s.decision == Undecided
  {
    hide StreamingProxyState.Valid, Concat;
    s := new StreamingProxyState(m);
    s.OnHead(h, body);
    s.StartOrReject();
  }

  /** The end of a body that has been read and relayed. */
  method EndWell(s: StreamingProxyState)
    requires s.Valid() && s.producer == Receiving && s.consumer == Ready && s.chunks == [] && s.remaining == ""
    requires !s.shouldRestart
    modifies s
    ensures s.Valid() && s.producer == Ended(Success) && s.consumer == Finished && s.Complete()
    ensures s.decision == CheckHealth && !s.shouldRestart && s.sent == old(s.sent) && s.upstream == old(s.upstream)
  {
    hide StreamingProxyState.Valid, Concat;
    s.SendReturned(false);
    s.TakeOrFinish();
    s.CancelUpstream();
    s.DecideRestart();
    s.FinishedIsCompleteIff();
  }

  /** One chunk, from the worker to a client that takes it. */
  method RelayChunk(s: StreamingProxyState, chunk: Chunk)
    requires s.Valid() && s.producer == Receiving && s.consumer == Ready && s.chunks == [] && !s.downstreamCanceled
    requires chunk <= s.remaining
    modifies s`chunks, s`producer, s`accepted, s`remaining, s`consumer, s`sent, s`downstreamCanceled
    ensures s.Valid() && s.producer == Receiving && s.consumer == Ready && s.chunks == [] && !s.downstreamCanceled
    ensures old(s.remaining) == chunk + s.remaining && s.sent == old(s.sent) + chunk
  {
    hide StreamingProxyState.Valid, Concat;
    var _ := s.ContentReceiver(chunk);
    s.TakeOrFinish();
    s.WriteDownstream(true);
  }

  /** A connection that breaks behind `x` of the body `x + y`: the client's response is closed normally
      all the same. */
  method HalfABodyClosedNormally(x: string, y: string) returns (s: StreamingProxyState)
    requires x != "" && y != ""
    ensures fresh(s) && s.Valid()
    ensures s.consumer == Finished && s.producer == Ended(Failed) && s.shouldRestart
    ensures s.sent == x && s.upstream == x + y && !s.Complete()
  {
    hide StreamingProxyState.Valid, Concat;
    s := Started(Post, ResponseHead(200, false, true), x + y);
    var _ := s.ContentReceiver(x);
    s.SendReturned(true);
    RelayTheLastChunk(s);
  }

  /** The provider's last turns when one chunk is left and the client takes it. */
  method RelayTheLastChunk(s: StreamingProxyState)
    requires s.Valid() && s.consumer == Ready && |s.chunks| == 1 && s.finished
    modifies s`consumer, s`chunks, s`sent, s`downstreamCanceled
    ensures s.Valid() && s.consumer == Finished && s.sent == old(s.sent) + old(s.chunks)[0]
  {
    hide StreamingProxyState.Valid, Concat;
    s.TakeOrFinish();
    s.WriteDownstream(true);
    s.TakeOrFinish();
  }

  /** And one whose end is the end of the connection may lose bytes with nobody noticing. */
  method ShortBodyUnnoticed() returns (s: StreamingProxyState)
    ensures fresh(s) && s.Valid()
    ensures s.consumer == Finished && s.producer == Ended(Success)
    ensures s.sent == "" && s.upstream == "x" && !s.shouldRestart
  {
    hide StreamingProxyState.Valid;
    s := Started(Post, ResponseHead(200, false, false), "x");
    s.SendReturned(false);
    s.TakeOrFinish();
  }
}
