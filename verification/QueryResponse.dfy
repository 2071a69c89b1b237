/** A query's response from the component to the client: the lines that the handler makes of the query's
    reports are the payloads of its line stream.
 */
module QueryResponse {
  import opened StoredRead
  import opened StreamQueries
  import opened NdjsonWriter

  function Texts(lines: seq<Line>, dump: Line -> string): (texts: seq<string>)
    ensures |texts| == |lines| && forall i :: 0 <= i < |lines| ==> texts[i] == dump(lines[i])
  {
    if lines == [] then [] else [dump(lines[0])] + Texts(lines[1..], dump)
  }

  /** A stream that has been closed, or is about to be, or whose writer has had its steps, with no write
      failed and its query not given up; a query is given up only for a client that heartbeat or callback
      finds to be gone. */
  predicate Undropped(stream: NdjsonStream, schedule: seq<Action>)
    reads stream`main, stream`sinkOk
  {
    && (stream.main == HeartbeatStopped || stream.main == Closed || MainSteps(schedule) >= 2 * |stream.payloads| + 2)
    && stream.sinkOk && (NoGiveUp(schedule) || ClientStays(schedule))
  }

  /** A stored query served under any schedule of the writer, the heartbeat and the failing of writes.
      Every finished line that the client gets is the text of the line in its place, and when the stream
      is closed with no write failed and its client still there, the client's lines are the texts of all
      of them. What the lines carry is the matter of `StoredStreamCarries` and `NoErrorLineMeansAll`. */
  method RespondStored(s: StoredScript, filter: seq<string>, maxRecords: int, renders: Record -> bool,
                       dump: Line -> string, schedule: seq<Action>)
    returns (stream: NdjsonStream, lines: seq<Line>)
    requires forall l :: IsPayload(dump(l))
    ensures fresh(stream) && stream.Valid() && stream.payloads == Texts(lines, dump)
    ensures StreamGrammar(lines)
    ensures lines == StoredLines(s, filter, maxRecords, renders)
    ensures FinishedLines(stream.wire) <= Texts(lines, dump)
    ensures Undropped(stream, schedule) ==> Lines(stream.wire) == Texts(lines, dump)
  {
    hide StoredLines, StreamGrammar, Lines, FinishedLines, LastLine;
    var ops;
    lines, ops := StoredStream(s, filter, maxRecords, renders);
    stream := Serve(lines, dump, schedule);
  }

  /** The same for a realtime query, whose handler also goes on after failed writes. */
  method RespondRealtime(s: RealtimeScript, renders: Record -> bool, dump: Line -> string, schedule: seq<Action>)
    returns (stream: NdjsonStream, lines: seq<Line>)
    requires forall l :: IsPayload(dump(l))
    ensures fresh(stream) && stream.Valid() && stream.payloads == Texts(lines, dump)
    ensures StreamGrammar(lines)
    ensures lines == RealtimeLines(s, renders)
    ensures FinishedLines(stream.wire) <= Texts(lines, dump)
    ensures Undropped(stream, schedule) ==> Lines(stream.wire) == Texts(lines, dump)
  {
    hide RealtimeLines, StreamGrammar, Lines, FinishedLines, LastLine;
    var ops;
    lines, ops := RealtimeStream(s, renders);
    stream := Serve(lines, dump, schedule);
  }

  method Serve(lines: seq<Line>, dump: Line -> string, schedule: seq<Action>) returns (stream: NdjsonStream)
    requires forall l :: IsPayload(dump(l))
    ensures fresh(stream) && stream.Valid() && stream.payloads == Texts(lines, dump)
    ensures FinishedLines(stream.wire) <= Texts(lines, dump)
    ensures Undropped(stream, schedule) ==> Lines(stream.wire) == Texts(lines, dump)
  {
    hide Lines, FinishedLines, LastLine;
    var texts := Texts(lines, dump);
    stream := new NdjsonStream(texts);
    stream.Run(schedule);
    if stream.sinkOk {
      stream.LinesAreThePayloads();
      LinesAreFinishedAndLast(stream.wire);
      if Undropped(stream, schedule) {
        stream.StoppedMeansEverything();
      }
    } else {
      stream.FailedStreamIsAPrefix();
    }
  }

  /** A client is lost while the meta line is written, and has all of it all the same: the payload, the
      heartbeat's newline, and then the writer's own newline fails. */
  method MetaLineOfALostClient(dump: Line -> string) returns (stream: NdjsonStream)
    requires IsPayload(dump(MetaLine))
    ensures fresh(stream) && stream.Valid() && !stream.sinkOk && stream.main == HeartbeatStopped
    ensures stream.payloads == [dump(MetaLine)] && FinishedLines(stream.wire) == [dump(MetaLine)]
    ensures var open := Returns(OpenAnswer(0, 1, 0));
            var s := StoredScript(true, open, false, [], false, false, MetaClientGone, [], false);
            && StoredReport(s, [], 0) == Report([MetaEvent], ClientGone)
            && Texts([MetaLine], dump) == stream.payloads
  {
    hide Lines, FinishedLines, LastLine, CutAfter, IsPayload, NdjsonStream.Valid;
    var p := dump(MetaLine);
    stream := new NdjsonStream([p]);
    stream.WritePayload(Fate(|p|, true), false);
    stream.HeartbeatWakes();
    stream.HeartbeatWrites(Fate(1, true), true);
    stream.WriteNewline(Fate(0, false), false);
    assert stream.wire == p + "\n";
    OneLine(p);
    assert [MetaLine][1..] == [];
  }

  lemma OneLine(p: string)
    requires IsPayload(p)
    ensures FinishedLines(p + "\n") == [p]
  {
    hide Lines, FinishedLines, LastLine;
    assert FinishedLines("") == [] && LastLine("") == "" by {
      NothingWritten();
    }
    AppendText("", p);
    assert "" + p == p;
    LinesAreFinishedAndLast(p);
    AppendNewline(p);
  }

  lemma NothingWritten()
    ensures FinishedLines("") == [] && LastLine("") == ""
  {
  }
}
