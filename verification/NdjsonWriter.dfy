/** The line stream of a query response. The streaming thread writes each payload and its newline
    in two separate locked writes, a heartbeat thread writes lone newlines whenever it likes, and
    after the heartbeat has been joined the sink is closed. A method is one step of one thread;
    `Run` plays any schedule of steps.
 */
module NdjsonWriter {
  import opened Pieces

  // ---------------------------------------------------------------- lines of a text

  /** The pieces between newlines; the last one is the unfinished line. */
  function Split(s: string): (pieces: seq<string>)
    ensures pieces != []
  {
    if s == "" then [""]
    else
      var front := Split(s[..|s| - 1]);
      if s[|s| - 1] == '\n' then front + [""]
      else front[..|front| - 1] + [front[|front| - 1] + [s[|s| - 1]]]
  }

  function DropBlank(lines: seq<string>): seq<string> {
    if lines == [] then []
    else DropBlank(lines[..|lines| - 1]) + (if lines[|lines| - 1] == "" then [] else [lines[|lines| - 1]])
  }

  /** The lines a client sees that splits at newlines and skips blank lines. */
  function Lines(s: string): seq<string> { DropBlank(Split(s)) }

  /** The finished lines among them. */
  function FinishedLines(s: string): seq<string> {
    var pieces := Split(s);
    DropBlank(pieces[..|pieces| - 1])
  }

  function LastLine(s: string): string {
    var pieces := Split(s);
    pieces[|pieces| - 1]
  }

  lemma LinesAreFinishedAndLast(s: string)
    ensures Lines(s) == FinishedLines(s) + (if LastLine(s) == "" then [] else [LastLine(s)])
  {
  }

  lemma AppendNewline(s: string)
    ensures FinishedLines(s + "\n") == Lines(s) && LastLine(s + "\n") == "" && Lines(s + "\n") == Lines(s)
  {
    var t := s + "\n";
    assert t[..|t| - 1] == s;
    assert Split(t) == Split(s) + [""];
    assert (Split(s) + [""])[..|Split(t)| - 1] == Split(s);
  }

  lemma AppendChar(s: string, c: char)
    requires c != '\n'
    ensures FinishedLines(s + [c]) == FinishedLines(s) && LastLine(s + [c]) == LastLine(s) + [c]
  {
    var t := s + [c];
    assert t[..|t| - 1] == s;
    var front := Split(s);
    assert Split(t) == front[..|front| - 1] + [front[|front| - 1] + [c]];
    assert Split(t)[..|Split(t)| - 1] == front[..|front| - 1];
  }

  lemma {:induction false} AppendText(s: string, text: string)
    requires '\n' !in text
    ensures FinishedLines(s + text) == FinishedLines(s) && LastLine(s + text) == LastLine(s) + text
    decreases |text|
  {
    hide FinishedLines, LastLine;
    if text == "" {
      assert s + text == s && LastLine(s) + text == LastLine(s);
    } else {
      var c, rest := text[0], text[1..];
      AppendChar(s, c);
      AppendText(s + [c], rest);
      assert s + text == (s + [c]) + rest && LastLine(s) + text == (LastLine(s) + [c]) + rest;
    }
  }

  /** The finished lines of a text that is cut off are the first lines of the text. */
  lemma {:induction false} FinishedOfABeginning(p: string, s: string)
    requires p <= s
    ensures FinishedLines(p) <= Lines(s)
    decreases |s| - |p|
  {
    hide FinishedLines, Lines, LastLine;
    LinesAreFinishedAndLast(p);
    assert |p| == |s| ==> p == s;
    if |p| < |s| {
      var c := s[|p|];
      FinishedOfABeginning(p + [c], s);
      if c == '\n' {
        AppendNewline(p);
        assert p + [c] == p + "\n";
      } else {
        AppendChar(p, c);
      }
    }
  }

  // ---------------------------------------------------------------- the two threads

  /** A payload as the JSON library renders it: one non-empty line. */
  predicate IsPayload(p: string) { p != "" && '\n' !in p }

  datatype MainPc =
    | BeforePayload
    | BeforeNewline
    | HeartbeatStopped   // has cleared streaming_active, waits for the heartbeat thread
    | Closed             // sink.done() called

  datatype HeartbeatPc = Sleeping | AboutToWrite | Ended

  /** What becomes of one write: how many of its bytes get through, and whether the end of the chunk
      that carries them does. The write fails unless all of it does. */
  datatype Fate = Fate(bytes: nat, framed: bool) {
    function Through(text: string): string { if bytes < |text| then text[..bytes] else text }

    predicate Fails(text: string) { bytes < |text| || !framed }
  }

  /** `goesOn`: the realtime handler ignores that a meta line or a newline could not be written. */
  datatype Action =
    | Main(fate: Fate, second: Fate, atomicLine: bool, goesOn: bool)
    | Heartbeat(fate: Fate, writable: bool)
    | GiveUp(found: bool)       // the query ends early: a callback has found the client gone, or a heartbeat had

  predicate NoGiveUp(schedule: seq<Action>) {
    forall i :: 0 <= i < |schedule| ==> !schedule[i].GiveUp?
  }

  /** How many of the steps are the streaming thread's. */
  function MainSteps(schedule: seq<Action>): nat {
    if schedule == [] then 0
    else MainSteps(schedule[..|schedule| - 1]) + if schedule[|schedule| - 1].Main? then 1 else 0
  }

  /** Neither heartbeat nor callback finds the connection closed. */
  predicate ClientStays(schedule: seq<Action>) {
    forall i :: 0 <= i < |schedule| ==>
      && (schedule[i].Heartbeat? ==> schedule[i].writable)
      && (schedule[i].GiveUp? ==> !schedule[i].found)
  }

  /** What is left of a stream cut short while payload number `n` was being written, or before its newline. */
  predicate CutAfter(wire: string, payloads: seq<string>, n: nat)
    requires n <= |payloads|
  {
    && FinishedLines(wire) == payloads[..n]
    && (LastLine(wire) == "" || (n < |payloads| && LastLine(wire) <= payloads[n]))
  }

  /** Where a stream is cut whose next newline fails. */
  lemma CutHere(wire: string, payloads: seq<string>, next: nat)
    requires next <= |payloads| && Lines(wire) == payloads[..next]
    ensures if LastLine(wire) == "" then CutAfter(wire, payloads, next)
            else next > 0 && CutAfter(wire, payloads, next - 1)
  {
    LinesAreFinishedAndLast(wire);
    if LastLine(wire) != "" {
      assert payloads[..next] == payloads[..next - 1] + [payloads[next - 1]];
    }
  }

  /** What a payload's write makes of a stream whose last line is finished. */
  lemma PayloadGoesOut(wire: string, payloads: seq<string>, next: nat, fate: Fate)
    requires next < |payloads| && IsPayload(payloads[next])
    requires Lines(wire) == payloads[..next] && LastLine(wire) == ""
    ensures Lines(wire + payloads[next]) == payloads[..next + 1]
    ensures !fate.Fails(payloads[next]) ==> fate.Through(payloads[next]) == payloads[next]
    ensures CutAfter(wire + fate.Through(payloads[next]), payloads, next)
  {
    hide Lines, FinishedLines, LastLine;
    var p := payloads[next];
    var sent := fate.Through(p);
    LinesAreFinishedAndLast(wire);
    AppendText(wire, sent);
    AppendText(wire, p);
    LinesAreFinishedAndLast(wire + p);
    assert payloads[..next + 1] == payloads[..next] + [p] && "" + p == p && "" + sent == sent;
  }

  class NdjsonStream {
    const payloads: seq<string>
    var next: nat               // payloads whose text has been written
    var main: MainPc
    var heartbeat: HeartbeatPc
    var streamingActive: bool
    var sinkOk: bool            // the sink's latch: once a write has failed all later ones fail
    var wire: string            // what has gone out, before chunked coding
    var writes: seq<string>     // what the sink has been given, up to the write that failed
    ghost var cut: nat          // the payload at which the first write failed
    ghost var clientGone: bool  // heartbeat or callback has found the connection closed
    ghost var gaveUp: bool      // the query has ended before its last payload

    constructor (payloads: seq<string>)
      requires forall i :: 0 <= i < |payloads| ==> IsPayload(payloads[i])
      ensures Valid() && this.payloads == payloads
      ensures wire == "" && main == BeforePayload && sinkOk && writes == []
      ensures next == 0 && heartbeat == Sleeping && streamingActive && !gaveUp && !clientGone
    {
      this.payloads := payloads;
      next, main, heartbeat := 0, BeforePayload, Sleeping;
      streamingActive, sinkOk, wire, writes, cut := true, true, "", [], 0;
      clientGone, gaveUp := false, false;
    }

    /** While writes succeed the client sees exactly the payloads written so far, and only the line
        whose newline is still to come may be unfinished. A failed write cuts the text, possibly
        inside a payload: then the finished lines are the first payloads. The writer stops before the
        last payload only if a write has failed or the client was found to be gone. */
    ghost predicate Valid()
      reads this
    {
      && (forall i :: 0 <= i < |payloads| ==> IsPayload(payloads[i]))
      && next <= |payloads|
      && (main.BeforeNewline? ==> next > 0)
      && (sinkOk ==> Lines(wire) == payloads[..next])
      && (sinkOk && !main.BeforeNewline? ==> LastLine(wire) == "")
      && (!sinkOk ==> cut <= |payloads| && CutAfter(wire, payloads, cut))
      && (streamingActive <==> main.BeforePayload? || main.BeforeNewline?)
      && (main.Closed? ==> heartbeat.Ended?)
      && (heartbeat.Ended? ==> !streamingActive || !sinkOk || clientGone)
      && (gaveUp ==> !sinkOk || clientGone)
      && (!streamingActive && sinkOk && !gaveUp ==> next == |payloads|)
      && GivenToTheSink()
    }

    /** What has gone out is what the sink was given, less what failed; and all of that would have made
        the first payloads, too. */
    ghost predicate GivenToTheSink()
      reads this
    {
      && (sinkOk ==> wire == Concat(writes))
      && wire <= Concat(writes)
      && Lines(Concat(writes)) <= payloads
      && forall i :: 0 <= i < |writes| ==> writes[i] == "\n" || writes[i] in payloads
    }

    /** One locked write of the sink. */
    method SinkWrite(text: string, fate: Fate) returns (ok: bool)
      modifies `wire, `sinkOk, `writes
      ensures ok == sinkOk == (old(sinkOk) && !fate.Fails(text))
      ensures wire == if old(sinkOk) then old(wire) + fate.Through(text) else old(wire)
      ensures writes == if old(sinkOk) then old(writes) + [text] else old(writes)
      ensures old(sinkOk) ==> Concat(writes) == Concat(old(writes)) + text
    {
      if sinkOk {
        ConcatSnoc(writes, text);
        writes := writes + [text];
        wire := wire + fate.Through(text);
        sinkOk := !fate.Fails(text);
      }
      ok := sinkOk;
    }

    /** A payload goes out whole, or in part, or not at all; after a failure the handler stops, unless
        it does not look. */
    method WritePayload(fate: Fate, goesOn: bool)
      requires Valid() && main == BeforePayload && next < |payloads|
      modifies `wire, `sinkOk, `writes, `cut, `next, `main, `streamingActive
      ensures Valid()
      ensures next == old(next) + 1 && main == if sinkOk || goesOn then BeforeNewline else HeartbeatStopped
      ensures streamingActive == (sinkOk || goesOn)
      ensures !old(sinkOk) ==> !sinkOk && wire == old(wire)
      ensures old(sinkOk) ==> wire == old(wire) + fate.Through(payloads[old(next)])
      ensures old(sinkOk) ==> sinkOk == !fate.Fails(payloads[old(next)])
    {
      hide Lines, FinishedLines, LastLine, Concat, CutAfter;
      var p := payloads[next];
      if sinkOk {
        PayloadGoesOut(wire, payloads, next, fate);
      }
      var ok := SinkWrite(p, fate);
      if old(sinkOk) && !sinkOk {
        cut := next;
      }
      next := next + 1;
      if ok || goesOn {
        main := BeforeNewline;
      } else {
        streamingActive, main := false, HeartbeatStopped;
      }
    }

    method WriteNewline(fate: Fate, goesOn: bool)
      requires Valid() && main == BeforeNewline
      modifies `wire, `sinkOk, `writes, `cut, `main, `streamingActive
      ensures Valid()
      ensures main == if sinkOk || goesOn then BeforePayload else HeartbeatStopped
      ensures !old(sinkOk) ==> !sinkOk && wire == old(wire)
      ensures old(sinkOk) ==> sinkOk == !fate.Fails("\n") && wire == old(wire) + fate.Through("\n")
    {
      hide Lines, FinishedLines, LastLine, CutAfter, IsPayload;
      WriteBlank(fate);
      if sinkOk || goesOn {
        main := BeforePayload;
      } else {
        streamingActive, main := false, HeartbeatStopped;
      }
    }

    /** A newline from either thread changes nothing but the end of the line it falls on. */
    method WriteBlank(fate: Fate)
      requires Valid()
      modifies `wire, `sinkOk, `writes, `cut
      ensures Valid() && (sinkOk ==> LastLine(wire) == "")
      ensures !old(sinkOk) ==> !sinkOk && wire == old(wire)
      ensures old(sinkOk) ==> sinkOk == !fate.Fails("\n") && wire == old(wire) + fate.Through("\n")
    {
      hide Lines, FinishedLines, LastLine, IsPayload, Concat;
      LinesAreFinishedAndLast(wire);
      AppendNewline(wire);
      assert fate.Through("\n") == if fate.bytes == 0 then "" else "\n";
      assert wire + "" == wire;
      var ok := SinkWrite("\n", fate);
      if old(sinkOk) && !sinkOk {
        if fate.bytes == 0 {
          CutHere(wire, payloads, next);
          cut := if LastLine(wire) == "" then next else next - 1;
        } else {
          cut := next;
        }
      }
    }

    /** The final error line: payload and newline under one hold of the lock, whatever the first
        write comes to. */
    method WriteLineAtOnce(fate: Fate, second: Fate)
      requires Valid() && main == BeforePayload && next < |payloads|
      modifies `wire, `sinkOk, `writes, `cut, `next, `main, `streamingActive
      ensures Valid()
      ensures next == old(next) + 1 && main == BeforePayload
      ensures old(sinkOk) && !fate.Fails(payloads[old(next)]) && !second.Fails("\n") ==>
                sinkOk && wire == old(wire) + payloads[old(next)] + "\n"
      ensures !old(sinkOk) ==> wire == old(wire)
    {
      hide Lines, FinishedLines, LastLine, CutAfter, IsPayload;
      WritePayload(fate, true);
      WriteNewline(second, true);
    }

    /** Nothing is left to write. */
    method StopHeartbeat()
      requires Valid() && main == BeforePayload && next == |payloads|
      modifies `main, `streamingActive
      ensures Valid() && main == HeartbeatStopped && !streamingActive
    {
      streamingActive, main := false, HeartbeatStopped;
    }

    /** The query is cancelled because a heartbeat has failed, or the record callback has found the
        connection closed and throws. */
    method GiveUp(found: bool)
      requires Valid() && main == BeforePayload && (found || heartbeat == Ended)
      modifies `main, `streamingActive, `gaveUp, `clientGone
      ensures Valid() && main == HeartbeatStopped && !streamingActive
      ensures gaveUp && (!sinkOk || clientGone) && clientGone == (old(clientGone) || found)
    {
      streamingActive, main := false, HeartbeatStopped;
      gaveUp, clientGone := true, clientGone || found;
    }

    method JoinAndClose()
      requires Valid() && main == HeartbeatStopped && heartbeat == Ended
      modifies `main
      ensures Valid() && main == Closed
    {
      main := Closed;
    }

    method HeartbeatWakes()
      requires Valid() && heartbeat == Sleeping
      modifies `heartbeat
      ensures Valid() && heartbeat == if streamingActive then AboutToWrite else Ended
    {
      heartbeat := if streamingActive then AboutToWrite else Ended;
    }

    method HeartbeatWrites(fate: Fate, writable: bool)
      requires Valid() && heartbeat == AboutToWrite
      modifies `heartbeat, `wire, `sinkOk, `writes, `cut, `clientGone
      ensures Valid()
      ensures heartbeat == if sinkOk && writable then Sleeping else Ended
      ensures clientGone == (old(clientGone) || !writable)
      ensures !old(sinkOk) || !writable ==> wire == old(wire) && sinkOk == old(sinkOk)
      ensures old(sinkOk) && writable ==> sinkOk == !fate.Fails("\n") && wire == old(wire) + fate.Through("\n")
    {
      hide Lines, FinishedLines, LastLine, CutAfter, IsPayload;
      if !writable {
        heartbeat, clientGone := Ended, true;
        return;
      }
      WriteBlank(fate);
      heartbeat := if sinkOk then Sleeping else Ended;
    }

    /** A step of the heartbeat thread. */
    method HeartbeatStep(fate: Fate, writable: bool)
      requires Valid()
      modifies `heartbeat, `wire, `sinkOk, `writes, `cut, `clientGone
      ensures Valid()
      ensures writable ==> clientGone == old(clientGone)
      ensures match old(heartbeat)
              case Sleeping => heartbeat == (if streamingActive then AboutToWrite else Ended) && wire == old(wire)
              case AboutToWrite => heartbeat == if writable && sinkOk then Sleeping else Ended
              case Ended => heartbeat == Ended && wire == old(wire)
      ensures old(sinkOk) && !sinkOk ==> writable && old(heartbeat) == AboutToWrite && fate.Fails("\n")
    {
      hide Lines, FinishedLines, LastLine, CutAfter, IsPayload;
      match heartbeat
      case Sleeping => HeartbeatWakes();
      case AboutToWrite => HeartbeatWrites(fate, writable);
      case Ended =>
    }

    /** How many steps the streaming thread has before it, at most. */
    function Ahead(): nat
      requires next <= |payloads|
      reads `main, `next
    {
      match main
      case BeforePayload => 2 * (|payloads| - next) + 2
      case BeforeNewline => 2 * (|payloads| - next) + 3
      case HeartbeatStopped => 1
      case Closed => 0
    }

    /** No write fails with this fate. */
    predicate Carries(fate: Fate) {
      fate.framed && fate.bytes > 0 && forall i :: 0 <= i < |payloads| ==> |payloads[i]| <= fate.bytes
    }

    /** A step of the streaming thread: a step ahead, unless it waits for the heartbeat thread. */
    method MainStep(fate: Fate, second: Fate, atomicLine: bool, goesOn: bool)
      requires Valid()
      modifies `wire, `sinkOk, `writes, `cut, `next, `main, `streamingActive
      ensures Valid()
      ensures old(main) == Closed ==> wire == old(wire) && main == Closed
      ensures if old(main) == Closed || (old(main) == HeartbeatStopped && heartbeat != Ended) then main == old(main)
              else Ahead() < old(Ahead())
      ensures next == if old(main) == BeforePayload && old(next) < |payloads| then old(next) + 1 else old(next)
      ensures old(sinkOk) && Carries(fate) && Carries(second) ==> sinkOk
    {
      hide Lines, FinishedLines, LastLine, CutAfter, IsPayload;
      match main
      case BeforePayload =>
        if next == |payloads| {
          StopHeartbeat();
        } else if atomicLine {
          WriteLineAtOnce(fate, second);
        } else {
          WritePayload(fate, goesOn);
        }
      case BeforeNewline => WriteNewline(fate, goesOn);
      case HeartbeatStopped =>
        if heartbeat == Ended {
          JoinAndClose();
        }
      case Closed =>
    }

    /** Plays a schedule. Nothing goes out after the sink has been closed. The streaming thread needs two
        steps for each payload and one to stop. */
    method Run(schedule: seq<Action>)
      requires Valid()
      modifies this
      ensures Valid()
      ensures old(main) == Closed ==> wire == old(wire) && main == Closed
      ensures NoGiveUp(schedule) ==> gaveUp == old(gaveUp)
      ensures ClientStays(schedule) ==> clientGone == old(clientGone)
      ensures MainSteps(schedule) >= old(Ahead()) ==> main == HeartbeatStopped || main == Closed
    {
      hide Lines, FinishedLines, LastLine, CutAfter, IsPayload;
      for i := 0 to |schedule|
        invariant Valid()
        invariant old(main) == Closed ==> wire == old(wire) && main == Closed
        invariant NoGiveUp(schedule) ==> gaveUp == old(gaveUp)
        invariant ClientStays(schedule) ==> clientGone == old(clientGone)
        invariant Ahead() <= 1 || Ahead() + MainSteps(schedule[..i]) <= old(Ahead())
      {
        assert schedule[..i + 1][..i] == schedule[..i];
        match schedule[i]
        case Main(fate, second, atomicLine, goesOn) => MainStep(fate, second, atomicLine, goesOn);
        case Heartbeat(fate, writable) => HeartbeatStep(fate, writable);
        case GiveUp(found) =>
          if main == BeforePayload && (found || heartbeat == Ended) {
            GiveUp(found);
          }
      }
      assert schedule[..|schedule|] == schedule;
    }

    /** With nobody in its way a stream comes to its end, and the client has all of it. */
    method WriteEverything(fate: Fate, atomicLine: bool)
      requires Valid() && sinkOk && main == BeforePayload && heartbeat == Sleeping && !gaveUp && Carries(fate)
      modifies this
      ensures Valid() && main == Closed && sinkOk && Lines(wire) == payloads
    {
      hide GivenToTheSink, Lines, LastLine, CutAfter, IsPayload, Carries;
      while main != HeartbeatStopped && main != Closed
        invariant Valid() && sinkOk && heartbeat == Sleeping && !gaveUp
        decreases Ahead()
      {
        MainStep(fate, fate, atomicLine, false);
      }
      HeartbeatWakes();
      MainStep(fate, fate, atomicLine, false);
      StoppedMeansEverything();
    }

    /** In every interleaving without a failed write, splitting what went out at newlines and
        dropping blank lines gives exactly the payloads written so far, in order. */
    lemma LinesAreThePayloads()
      requires Valid() && sinkOk
      ensures Lines(wire) == payloads[..next]
      ensures main.Closed? ==> LastLine(wire) == "" && FinishedLines(wire) == payloads[..next]
    {
      LinesAreFinishedAndLast(wire);
    }

    /** A stream that has been closed, or is about to be, without a failed write has all payloads, unless
        its client was found to be gone and the query gave up. */
    lemma StoppedMeansEverything()
      requires Valid() && sinkOk && (main.HeartbeatStopped? || main.Closed?) && (!gaveUp || !clientGone)
      ensures next == |payloads| && Lines(wire) == payloads
    {
      assert payloads[..|payloads|] == payloads;
    }

    /** And when a write fails, at whatever byte, the finished lines are still the first payloads:
        a client never sees a finished line that is not one of them. */
    lemma FailedStreamIsAPrefix()
      requires Valid() && !sinkOk
      ensures FinishedLines(wire) <= payloads
    {
    }
  }
}
