/** The read loop of a stored query: records come out of a set of files through a reader that may
    interleave waits, file switches, empty buffers and errors, and a filter is applied partly by
    telling the reader to skip the rest of a file.

    What the reader and the two callbacks do is a script, one `Turn` for each time round the loop,
    so a statement about all scripts is a statement about all readers, cancellations and clients.
 */
module StoredRead {
  import opened Wrappers
  import opened ErrorCodes

  type Record = string

  const MAX_RETRIES := 10000
  const UNLIMITED := 0x7FFF_FFFF_FFFF_FFFF  // the largest long long

  /** What the COM call that fetches a record comes back with. */
  datatype Gets = Returned(code: int, buffer: Option<Record>) | GetsThrew

  datatype Skip = SkipReturned(code: int) | SkipThrew

  datatype Turn = Turn(
    cancelAtTop: bool,
    gets: Gets,
    cancelAfterGets: bool,
    skip: Skip,                // looked at only when the record is filtered out
    callbackThrows: bool,
    cancelAfterCallback: bool)

  datatype Exit =
    | Unfinished               // the script ends before the loop does
    | Completed
    | Canceled
    | ReadError(code: int)
    | RetriesExhausted
    | CallbackThrew
    | ComCallThrew

  /** `delivered`: the records handed to the record callback; `readCount`: the JVGets calls. */
  datatype Outcome = Outcome(delivered: seq<Record>, exit: Exit, readCount: nat) {
    function After(earlier: seq<Record>, n: nat): Outcome {
      Outcome(earlier + delivered, exit, n + readCount)
    }
  }

  function EffectiveLimit(maxRecords: int): nat {
    if maxRecords > 0 then maxRecords else UNLIMITED
  }

  /** A record too short to have a type passes every filter. */
  predicate Passes(r: Record, filter: seq<string>) {
    filter == [] || |r| < 2 || r[..2] in filter
  }

  // ---------------------------------------------------------------- one turn

  datatype Progress = Continue(delivered: seq<Record>, retries: nat) | Stop(delivered: seq<Record>, exit: Exit)

  /** What one time round the loop does, given the number of fruitless reads before it. */
  function TurnResult(t: Turn, filter: seq<string>, retries: nat): Progress {
    if t.gets.GetsThrew? then Stop([], ComCallThrew)
    else if t.cancelAfterGets then Stop([], Canceled)
    else
      var Returned(code, buffer) := t.gets;
      if code > 0 && buffer.Some? then
        if Passes(buffer.value, filter) then
          if t.callbackThrows then Stop([buffer.value], CallbackThrew)
          else if t.cancelAfterCallback then Stop([buffer.value], Canceled)
          else Continue([buffer.value], 0)
        else if t.skip.SkipThrew? then Stop([], ComCallThrew)
        else Continue([], 0)
      else if code > 0 || code == JV_ERROR_DOWNLOAD_IN_PROGRESS || code == JV_ERROR_FILE_SWITCHING then
        Continue([], retries + 1)
      else if code == JV_SUCCESS then Stop([], Completed)
      else Stop([], ReadError(code))
  }

  /** The whole loop, with `left` records still to deliver and `retries` fruitless reads so far. */
  function Play(turns: seq<Turn>, filter: seq<string>, left: nat, retries: nat): Outcome {
    if retries >= MAX_RETRIES then Outcome([], RetriesExhausted, 0)
    else if left == 0 then Outcome([], Completed, 0)
    else if turns == [] then Outcome([], Unfinished, 0)
    else if turns[0].cancelAtTop then Outcome([], Canceled, 0)
    else
      match TurnResult(turns[0], filter, retries)
      case Stop(delivered, exit) => Outcome(delivered, exit, 1)
      case Continue(delivered, retries') =>
        var rest := Play(turns[1..], filter, if delivered == [] then left else left - 1, retries');
        rest.After(delivered, 1)
  }

  /** The recursive form, unfolded at turn `i` behind an accumulated result. */
  lemma PlayOneTurn(turns: seq<Turn>, i: nat, filter: seq<string>, left: nat, retries: nat, earlier: seq<Record>)
    requires i < |turns| && 0 < left && retries < MAX_RETRIES && !turns[i].cancelAtTop
    ensures var progress := TurnResult(turns[i], filter, retries);
            Play(turns[i..], filter, left, retries).After(earlier, i) ==
            if progress.Stop? then Outcome(earlier + progress.delivered, progress.exit, i + 1)
            else Play(turns[i + 1..], filter, left - |progress.delivered|, progress.retries)
                 .After(earlier + progress.delivered, i + 1)
  {
    assert turns[i..][1..] == turns[i + 1..];
    var progress := TurnResult(turns[i], filter, retries);
    if progress.Continue? {
      var rest := Play(turns[i + 1..], filter, left - |progress.delivered|, progress.retries);
      assert earlier + (progress.delivered + rest.delivered) == (earlier + progress.delivered) + rest.delivered;
    }
  }

  lemma AtMostOneRecord(t: Turn, filter: seq<string>, retries: nat)
    ensures |TurnResult(t, filter, retries).delivered| <= 1
  {
  }

  /** Where the recursive form comes to an end before a turn. */
  lemma PlayStops(turns: seq<Turn>, i: nat, filter: seq<string>, left: nat, retries: nat, earlier: seq<Record>)
    requires i <= |turns|
    ensures var stopped := Play(turns[i..], filter, left, retries).After(earlier, i);
            && (retries >= MAX_RETRIES ==> stopped == Outcome(earlier, RetriesExhausted, i))
            && (retries < MAX_RETRIES && left == 0 ==> stopped == Outcome(earlier, Completed, i))
            && (retries < MAX_RETRIES && left > 0 && i == |turns| ==> stopped == Outcome(earlier, Unfinished, i))
            && (retries < MAX_RETRIES && left > 0 && i < |turns| && turns[i].cancelAtTop ==>
                  stopped == Outcome(earlier, Canceled, i))
  {
    assert earlier + [] == earlier;
  }

  /** The loop as it is written, with its two counters. */
  method ReadRecords(turns: seq<Turn>, filter: seq<string>, maxRecords: int) returns (out: Outcome)
    ensures out == Play(turns, filter, EffectiveLimit(maxRecords), 0)
  {
    hide TurnResult, EffectiveLimit, Play;
    var limit := EffectiveLimit(maxRecords);
    var actualRecords, retryCount, readCount := 0, 0, 0;
    var delivered := [];
    ghost var whole := Play(turns, filter, limit, 0);
    assert turns[0..] == turns && [] + whole.delivered == whole.delivered;
    while actualRecords < limit && retryCount < MAX_RETRIES
      invariant actualRecords <= limit && readCount <= |turns| && retryCount >= 0
      invariant var rest := Play(turns[readCount..], filter, limit - actualRecords, retryCount);
                Play(turns, filter, limit, 0) == rest.After(delivered, readCount)
      decreases |turns| - readCount
    {
      PlayStops(turns, readCount, filter, limit - actualRecords, retryCount, delivered);
      if readCount == |turns| {
        return Outcome(delivered, Unfinished, readCount);
      }
      var t := turns[readCount];
      if t.cancelAtTop {
        return Outcome(delivered, Canceled, readCount);
      }
      var progress := HandleAnswer(t, filter, retryCount);
      PlayOneTurn(turns, readCount, filter, limit - actualRecords, retryCount, delivered);
      AtMostOneRecord(t, filter, retryCount);
      readCount := readCount + 1;
      delivered := delivered + progress.delivered;
      if progress.Stop? {
        return Outcome(delivered, progress.exit, readCount);
      }
      actualRecords := actualRecords + |progress.delivered|;
      retryCount := progress.retries;
    }
    PlayStops(turns, readCount, filter, limit - actualRecords, retryCount, delivered);
    out := Outcome(delivered, if retryCount >= MAX_RETRIES then RetriesExhausted else Completed, readCount);
  }

  /** The body of the loop from the JVGets call on. */
  method HandleAnswer(t: Turn, filter: seq<string>, retryCount: nat) returns (progress: Progress)
    ensures progress == TurnResult(t, filter, retryCount)
  {
    if t.gets.GetsThrew? {
      return Stop([], ComCallThrew);
    }
    if t.cancelAfterGets {
      return Stop([], Canceled);
    }
    var ret, buffer := t.gets.code, t.gets.buffer;
    if ret > 0 && buffer.Some? {
      var record := buffer.value;
      if filter != [] && |record| >= 2 {
        var wanted := Listed(filter, record[..2]);
        if !wanted {
          if t.skip.SkipThrew? {
            return Stop([], ComCallThrew);
          }
          return Continue([], 0);
        }
      }
      if t.callbackThrows {
        return Stop([record], CallbackThrew);
      }
      if t.cancelAfterCallback {
        return Stop([record], Canceled);
      }
      return Continue([record], 0);
    } else if ret > 0 {
      return Continue([], retryCount + 1);
    } else if ret == JV_SUCCESS {
      return Stop([], Completed);
    } else if ret == JV_ERROR_DOWNLOAD_IN_PROGRESS {
      return Continue([], retryCount + 1);
    } else if ret == JV_ERROR_FILE_SWITCHING {
      return Continue([], retryCount + 1);
    } else {
      return Stop([], ReadError(ret));
    }
  }

  /** The scan of the list of wanted record types. */
  method Listed(types: seq<string>, recordType: string) returns (found: bool)
    ensures found <==> recordType in types
  {
    found := false;
    for i := 0 to |types|
      invariant found <==> recordType in types[..i]
    {
      if types[i] == recordType {
        found := true;
        break;
      }
    }
  }

  // ---------------------------------------------------------------- the reader

  /** What the reader still holds: the rest of the file of the last record, and the files behind it. */
  datatype Reader = Reader(current: seq<Record>, later: seq<seq<Record>>) {

    function Rest(): seq<Record> { current + Flatten(later) }

    /** Moves on to the next file that still has a record. */
    function Settled(): (r: Reader)
      ensures r.Rest() == Rest()
      ensures r.current == [] ==> r.Rest() == []
      decreases |later|
    {
      if current == [] && later != [] then
        assert [] + Flatten(later) == later[0] + Flatten(later[1..]);
        Reader(later[0], later[1..]).Settled()
      else this
    }
  }

  function Flatten(files: seq<seq<Record>>): seq<Record> {
    if files == [] then [] else files[0] + Flatten(files[1..])
  }

  /** The reader after it has handed out a record in turn `t`. */
  function AfterRecord(reader: Reader, t: Turn, filter: seq<string>): Reader
    requires reader.Settled().current != []
  {
    var s := reader.Settled();
    if !Passes(s.current[0], filter) && t.skip == SkipReturned(0) then Reader([], s.later)
    else Reader(s.current[1..], s.later)
  }

  /** The script shows a reader of these files: data comes in order and with its size as the return
      code, the end is reported only at the end, and only data and JVSkip move the reader. */
  ghost predicate ReadFrom(turns: seq<Turn>, reader: Reader, filter: seq<string>) {
    turns == [] ||
    match turns[0].gets
    case GetsThrew => true
    case Returned(code, buffer) =>
      if code > 0 && buffer.Some? then
        && reader.Settled().current != []
        && buffer.value == reader.Settled().current[0]
        && code == |buffer.value|
        && ReadFrom(turns[1..], AfterRecord(reader, turns[0], filter), filter)
      else if code == JV_SUCCESS then reader.Rest() == []
      else ReadFrom(turns[1..], reader, filter)
  }

  // ---------------------------------------------------------------- the simple form

  function Filter(rs: seq<Record>, filter: seq<string>): seq<Record> {
    if rs == [] then []
    else if Passes(rs[0], filter) then [rs[0]] + Filter(rs[1..], filter)
    else Filter(rs[1..], filter)
  }

  function Take(rs: seq<Record>, n: nat): seq<Record> {
    if n < |rs| then rs[..n] else rs
  }

  /** No wanted record of the file stands behind an unwanted one. */
  ghost predicate SkipSafe(file: seq<Record>, filter: seq<string>) {
    forall i, j :: 0 <= i < j < |file| && Passes(file[j], filter) ==> Passes(file[i], filter)
  }

  ghost predicate ReaderSkipSafe(reader: Reader, filter: seq<string>) {
    SkipSafe(reader.current, filter) && forall i :: 0 <= i < |reader.later| ==> SkipSafe(reader.later[i], filter)
  }

  /** A stored file as it is documented: all its records are of one type. */
  ghost predicate OneType(file: seq<Record>) {
    && (forall i :: 0 <= i < |file| ==> |file[i]| >= 2)
    && (forall i, j :: 0 <= i < |file| && 0 <= j < |file| ==> file[i][..2] == file[j][..2])
  }

  lemma OneTypeIsSkipSafe(file: seq<Record>, filter: seq<string>)
    requires OneType(file)
    ensures SkipSafe(file, filter)
  {
  }

  lemma {:induction false} FilterConcat(a: seq<Record>, b: seq<Record>, filter: seq<string>)
    ensures Filter(a + b, filter) == Filter(a, filter) + Filter(b, filter)
  {
    if a == [] {
      assert a + b == b;
    } else {
      assert (a + b)[1..] == a[1..] + b;
      FilterConcat(a[1..], b, filter);
    }
  }

  lemma {:induction false} FilterOfUnwanted(rs: seq<Record>, filter: seq<string>)
    requires forall i :: 0 <= i < |rs| ==> !Passes(rs[i], filter)
    ensures Filter(rs, filter) == []
  {
    if rs != [] {
      FilterOfUnwanted(rs[1..], filter);
    }
  }

  lemma {:induction false} SettledStaysSafe(reader: Reader, filter: seq<string>)
    requires ReaderSkipSafe(reader, filter)
    ensures ReaderSkipSafe(reader.Settled(), filter)
    decreases |reader.later|
  {
    if reader.current == [] && reader.later != [] {
      SettledStaysSafe(Reader(reader.later[0], reader.later[1..]), filter);
    }
  }

  /** Handing out a record, with or without a successful skip, leaves the filtered rest as it should be. */
  lemma RecordStep(reader: Reader, t: Turn, filter: seq<string>)
    requires ReaderSkipSafe(reader, filter) && reader.Settled().current != []
    ensures var r := reader.Settled().current[0];
            var next := AfterRecord(reader, t, filter);
            && ReaderSkipSafe(next, filter)
            && Filter(reader.Rest(), filter) == (if Passes(r, filter) then [r] else []) + Filter(next.Rest(), filter)
  {
    hide Passes, Filter, SkipSafe, Flatten;
    SettledStaysSafe(reader, filter);
    var s := reader.Settled();
    var (r, rest, behind) := (s.current[0], s.current[1..], Flatten(s.later));
    assert s.Rest() == [r] + (rest + behind);
    FilterCons(r, rest + behind, filter);
    FilterConcat(rest, behind, filter);
    TailStaysSafe(s.current, filter);
    if !Passes(r, filter) {
      NothingBehindUnwanted(s.current, filter);
      assert [] + behind == behind && [] + Filter(behind, filter) == Filter(behind, filter);
    }
  }

  lemma FilterCons(r: Record, rs: seq<Record>, filter: seq<string>)
    ensures Filter([r] + rs, filter) == (if Passes(r, filter) then [r] else []) + Filter(rs, filter)
  {
    assert ([r] + rs)[1..] == rs;
  }

  lemma TailStaysSafe(file: seq<Record>, filter: seq<string>)
    requires file != [] && SkipSafe(file, filter)
    ensures SkipSafe(file[1..], filter) && SkipSafe([], filter)
  {
  }

  lemma NothingBehindUnwanted(file: seq<Record>, filter: seq<string>)
    requires file != [] && SkipSafe(file, filter) && !Passes(file[0], filter)
    ensures Filter(file[1..], filter) == []
  {
    FilterOfUnwanted(file[1..], filter);
  }

  lemma TakeCons(r: Record, rs: seq<Record>, n: nat)
    requires n > 0
    ensures Take([r] + rs, n) == [r] + Take(rs, n - 1)
  {
  }

  /** The loop delivers a prefix of "filter everything, take the first so many", and all of it when
      it ends normally. Induction over the script. */
  lemma {:induction false} PlayRefinesFilterAndTake(turns: seq<Turn>, reader: Reader, filter: seq<string>,
                                                    left: nat, retries: nat)
    requires ReadFrom(turns, reader, filter) && ReaderSkipSafe(reader, filter)
    ensures var out := Play(turns, filter, left, retries);
            var want := Take(Filter(reader.Rest(), filter), left);
            out.delivered <= want && (out.exit == Completed ==> out.delivered == want)
    decreases turns
  {
    if retries < MAX_RETRIES && left > 0 && turns != [] && !turns[0].cancelAtTop {
      var t := turns[0];
      if t.gets.Returned? && t.gets.code > 0 && t.gets.buffer.Some? {
        RecordStep(reader, t, filter);
        var next := AfterRecord(reader, t, filter);
        var r := t.gets.buffer.value;
        if Passes(r, filter) {
          TakeCons(r, Filter(next.Rest(), filter), left);
        } else {
          assert [] + Filter(next.Rest(), filter) == Filter(next.Rest(), filter);
        }
        match TurnResult(t, filter, retries)
        case Stop(_, _) =>
        case Continue(delivered, retries') =>
          PlayRefinesFilterAndTake(turns[1..], next, filter, if delivered == [] then left else left - 1, retries');
      } else {
        match TurnResult(t, filter, retries)
        case Stop(_, _) =>
        case Continue(_, retries') =>
          PlayRefinesFilterAndTake(turns[1..], reader, filter, left, retries');
      }
    }
  }

  /** Stored delivery, as documented: for any filter, any limit, any interleaving of waits, file
      switches and empty buffers, and any pattern of JVSkip success and failure, the client gets the
      first `maxRecords` wanted records of the whole multi-file stream -- or, when the loop ends
      with an exception or is canceled, the beginning of that. */
  lemma StoredDelivery(turns: seq<Turn>, files: seq<seq<Record>>, filter: seq<string>, maxRecords: int)
    requires forall i :: 0 <= i < |files| ==> OneType(files[i])
    requires ReadFrom(turns, Reader([], files), filter)
    ensures var out := Play(turns, filter, EffectiveLimit(maxRecords), 0);
            var want := Take(Filter(Flatten(files), filter), EffectiveLimit(maxRecords));
            out.delivered <= want && (out.exit == Completed ==> out.delivered == want)
  {
    forall i | 0 <= i < |files| ensures SkipSafe(files[i], filter) {
      OneTypeIsSkipSafe(files[i], filter);
    }
    assert Reader([], files).Rest() == Flatten(files);
    PlayRefinesFilterAndTake(turns, Reader([], files), filter, EffectiveLimit(maxRecords), 0);
  }

  // ---------------------------------------------------------------- when skipping loses nothing

  function WantedPrefix(file: seq<Record>, filter: seq<string>): seq<Record> {
    if file == [] || !Passes(file[0], filter) then [] else [file[0]] + WantedPrefix(file[1..], filter)
  }

  /** What a reader whose JVSkip always works lets through. */
  function FastForm(files: seq<seq<Record>>, filter: seq<string>): seq<Record> {
    if files == [] then [] else WantedPrefix(files[0], filter) + FastForm(files[1..], filter)
  }

  ghost predicate SkipsAllWork(turns: seq<Turn>) {
    forall i :: 0 <= i < |turns| ==> turns[i].skip == SkipReturned(0)
  }

  lemma {:induction false} WantedPrefixIsAllIffSafe(file: seq<Record>, filter: seq<string>)
    ensures |WantedPrefix(file, filter)| <= |Filter(file, filter)|
    ensures WantedPrefix(file, filter) == Filter(file, filter) <==> SkipSafe(file, filter)
    ensures |WantedPrefix(file, filter)| == |Filter(file, filter)| ==> SkipSafe(file, filter)
  {
    if file != [] {
      WantedPrefixIsAllIffSafe(file[1..], filter);
      if Passes(file[0], filter) {
        assert SkipSafe(file, filter) <==> SkipSafe(file[1..], filter) by {
          assert forall i :: 0 < i < |file| ==> file[i] == file[1..][i - 1];
        }
      } else {
        SafeBehindUnwanted(file, filter);
      }
    }
  }

  lemma SafeBehindUnwanted(file: seq<Record>, filter: seq<string>)
    requires file != [] && !Passes(file[0], filter)
    ensures SkipSafe(file, filter) <==> Filter(file, filter) == []
  {
    if SkipSafe(file, filter) {
      FilterOfUnwanted(file, filter);
    } else {
      var i, j :| 0 <= i < j < |file| && Passes(file[j], filter) && !Passes(file[i], filter);
      assert file == file[..j] + file[j..];
      FilterConcat(file[..j], file[j..], filter);
    }
  }

  lemma {:induction false} FastFormIsAllIffSafe(files: seq<seq<Record>>, filter: seq<string>)
    ensures |FastForm(files, filter)| <= |Filter(Flatten(files), filter)|
    ensures FastForm(files, filter) == Filter(Flatten(files), filter)
            <==> forall i :: 0 <= i < |files| ==> SkipSafe(files[i], filter)
    ensures |FastForm(files, filter)| == |Filter(Flatten(files), filter)|
            ==> forall i :: 0 <= i < |files| ==> SkipSafe(files[i], filter)
  {
    if files != [] {
      FilterConcat(files[0], Flatten(files[1..]), filter);
      WantedPrefixIsAllIffSafe(files[0], filter);
      FastFormIsAllIffSafe(files[1..], filter);
      assert forall i :: 0 < i < |files| ==> files[i] == files[1..][i - 1];
    }
  }

  lemma {:induction false} SettledFastForm(reader: Reader, filter: seq<string>)
    ensures var s := reader.Settled();
            FastForm([reader.current] + reader.later, filter) == FastForm([s.current] + s.later, filter)
    decreases |reader.later|
  {
    if reader.current == [] && reader.later != [] {
      assert ([reader.current] + reader.later)[1..] == reader.later;
      assert reader.later == [reader.later[0]] + reader.later[1..];
      SettledFastForm(Reader(reader.later[0], reader.later[1..]), filter);
    }
  }

  /** One record more, and behind an unwanted one the rest of its file is gone. */
  lemma FastFormStep(reader: Reader, t: Turn, filter: seq<string>)
    requires reader.Settled().current != [] && t.skip == SkipReturned(0)
    ensures var r := reader.Settled().current[0];
            var next := AfterRecord(reader, t, filter);
            FastForm([reader.current] + reader.later, filter)
            == (if Passes(r, filter) then [r] else []) + FastForm([next.current] + next.later, filter)
  {
    SettledFastForm(reader, filter);
    var s := reader.Settled();
    var next := AfterRecord(reader, t, filter);
    assert ([s.current] + s.later)[1..] == s.later;
    assert ([next.current] + next.later)[1..] == next.later;
  }

  lemma {:induction false} PlayIsFastForm(turns: seq<Turn>, reader: Reader, filter: seq<string>,
                                          left: nat, retries: nat)
    requires ReadFrom(turns, reader, filter) && SkipsAllWork(turns)
    requires Play(turns, filter, left, retries).exit == Completed
    requires |Play(turns, filter, left, retries).delivered| < left
    ensures Play(turns, filter, left, retries).delivered == FastForm([reader.current] + reader.later, filter)
    decreases turns
  {
    hide FastForm, Passes, AfterRecord;
    var t := turns[0];
    var files := [reader.current] + reader.later;
    if t.gets.code > 0 && t.gets.buffer.Some? {
      FastFormStep(reader, t, filter);
      var next := AfterRecord(reader, t, filter);
      var Continue(delivered, retries') := TurnResult(t, filter, retries);
      PlayIsFastForm(turns[1..], next, filter, if delivered == [] then left else left - 1, retries');
    } else if t.gets.code == JV_SUCCESS {
      EmptyFilesFastForm(files, filter);
    } else {
      PlayIsFastForm(turns[1..], reader, filter, left, retries + 1);
    }
  }

  lemma {:induction false} EmptyFilesFastForm(files: seq<seq<Record>>, filter: seq<string>)
    requires Flatten(files) == []
    ensures FastForm(files, filter) == []
  {
    if files != [] {
      EmptyFilesFastForm(files[1..], filter);
    }
  }

  /** The shortcut is exact for the documented files and for no worse ones: when JVSkip works and
      the stream is read to its end below the limit, nothing wanted is lost if and only if in no
      file a wanted record stands behind an unwanted one. */
  lemma SkippingIsLosslessIff(turns: seq<Turn>, files: seq<seq<Record>>, filter: seq<string>, maxRecords: int)
    requires ReadFrom(turns, Reader([], files), filter) && SkipsAllWork(turns)
    requires var out := Play(turns, filter, EffectiveLimit(maxRecords), 0);
             out.exit == Completed && |out.delivered| < EffectiveLimit(maxRecords)
    ensures Play(turns, filter, EffectiveLimit(maxRecords), 0).delivered == Filter(Flatten(files), filter)
            <==> forall i :: 0 <= i < |files| ==> SkipSafe(files[i], filter)
  {
    PlayIsFastForm(turns, Reader([], files), filter, EffectiveLimit(maxRecords), 0);
    assert ([[]] + files)[1..] == files;
    FastFormIsAllIffSafe(files, filter);
  }

  /** A file of two types, outside what is documented: the wanted record behind the unwanted one is
      skipped, and the query ends normally without it. */
  lemma SkipLosesARecord() returns (turns: seq<Turn>)
    ensures var files := [["ZZa", "AAb"]];
            && ReadFrom(turns, Reader([], files), ["AA"]) && SkipsAllWork(turns)
            && Play(turns, ["AA"], EffectiveLimit(0), 0) == Outcome([], Completed, 2)
            && Filter(Flatten(files), ["AA"]) == ["AAb"]
  {
    var (file, filter) := (["ZZa", "AAb"], ["AA"]);
    var unwanted := Turn(false, Returned(3, Some("ZZa")), false, SkipReturned(0), false, false);
    var end := Turn(false, Returned(JV_SUCCESS, None), false, SkipReturned(0), false, false);
    turns := [unwanted, end];
    assert turns[1..] == [end];
    var reader := Reader([], [file]);
    var nothing: seq<seq<Record>> := [];
    assert [file][1..] == nothing && reader.Settled() == Reader(file, []);
    assert "ZZa"[..2] == "ZZ" && "AAb"[..2] == "AA" && "ZZ"[0] != "AA"[0];
    assert !Passes("ZZa", filter) && Passes("AAb", filter);
    assert AfterRecord(reader, unwanted, filter) == Reader([], []);
    assert ReadFrom([end], Reader([], []), filter);
    assert Play([end], filter, EffectiveLimit(0), 0) == Outcome([], Completed, 1);
    assert Flatten([file]) == file && file[1..] == ["AAb"] && ["AAb"][1..] == [];
    assert Filter(["AAb"], filter) == ["AAb"];
  }

  // ---------------------------------------------------------------- termination

  /** Against any script, without a filter, the loop is over within 10000 reads for each record it
      may still deliver, less the fruitless reads it has behind it. */
  lemma {:induction false} PlayIsBounded(turns: seq<Turn>, left: nat, retries: nat)
    requires 0 < left && retries < MAX_RETRIES
    ensures var out := Play(turns, [], left, retries);
            && out.readCount <= MAX_RETRIES * left - retries
            && (out.exit == Unfinished ==> |turns| < MAX_RETRIES * left - retries)
    decreases turns
  {
    if turns != [] && !turns[0].cancelAtTop {
      match TurnResult(turns[0], [], retries)
      case Stop(_, _) =>
      case Continue(delivered, retries') =>
        var left' := if delivered == [] then left else left - 1;
        if left' > 0 && retries' < MAX_RETRIES {
          PlayIsBounded(turns[1..], left', retries');
        }
    }
  }

  /** With a positive limit and no filter the loop ends against any reader at all within
      10000 * limit reads. */
  lemma ReadLoopIsBounded(turns: seq<Turn>, maxRecords: int)
    requires maxRecords > 0
    ensures var out := Play(turns, [], EffectiveLimit(maxRecords), 0);
            && out.readCount <= 10000 * maxRecords
            && (|turns| >= 10000 * maxRecords ==> out.exit != Unfinished)
  {
    PlayIsBounded(turns, maxRecords, 0);
  }

  /** With any filter and any limit it ends against every reader of finitely many records. */
  lemma {:induction false} FiniteStreamIsReadToAnEnd(turns: seq<Turn>, reader: Reader, filter: seq<string>,
                                                     left: nat, retries: nat)
    requires ReadFrom(turns, reader, filter) && retries < MAX_RETRIES
    requires |turns| >= 10000 * (|reader.Rest()| + 1) - retries
    ensures Play(turns, filter, left, retries).exit != Unfinished
    decreases turns
  {
    if left > 0 && !turns[0].cancelAtTop {
      var t := turns[0];
      match TurnResult(t, filter, retries)
      case Stop(_, _) =>
      case Continue(delivered, retries') =>
        var left' := if delivered == [] then left else left - 1;
        if t.gets.code > 0 && t.gets.buffer.Some? {
          FiniteStreamIsReadToAnEnd(turns[1..], AfterRecord(reader, t, filter), filter, left', retries');
        } else if retries' < MAX_RETRIES {
          FiniteStreamIsReadToAnEnd(turns[1..], reader, filter, left', retries');
        }
    }
  }

  // ---------------------------------------------------------------- how the loop ends

  /** The answer brings a record. */
  predicate Brings(t: Turn) {
    t.gets.Returned? && t.gets.code > 0 && t.gets.buffer.Some?
  }

  /** The answer brings none, and is no reason to end: -1 is a change of files, -3 a download in
      progress, and a size without a buffer is tried again. */
  predicate Fruitless(t: Turn) {
    t.gets.Returned? && ((t.gets.code > 0 && t.gets.buffer.None?) || t.gets.code == -1 || t.gets.code == -3)
  }

  /** The record is one of those asked for. */
  predicate Wanted(t: Turn, filter: seq<string>)
    requires Brings(t)
  {
    var r := t.gets.buffer.value;
    filter == [] || |r| < 2 || exists k :: 0 <= k < |filter| && filter[k] == r[..2]
  }

  /** Nothing in the turn makes the loop end. */
  predicate GoesOn(t: Turn, filter: seq<string>) {
    && !t.cancelAtTop && !t.cancelAfterGets
    && (Fruitless(t) || Brings(t))
    && (Brings(t) && Wanted(t, filter) ==> !t.callbackThrows && !t.cancelAfterCallback)
    && (Brings(t) && !Wanted(t, filter) ==> !t.skip.SkipThrew?)
  }

  /** What the record callback is given in these turns. */
  function Handed(turns: seq<Turn>, filter: seq<string>): seq<Record> {
    if turns == [] then []
    else
      var t := turns[0];
      (if Brings(t) && !t.cancelAfterGets && Wanted(t, filter) then [t.gets.buffer.value] else [])
      + Handed(turns[1..], filter)
  }

  /** Why the loop has ended after `n` reads. */
  predicate EndedBy(turns: seq<Turn>, filter: seq<string>, left: nat, retries: nat, out: Outcome)
    requires out.readCount <= |turns|
  {
    var n := out.readCount;
    match out.exit
    case Unfinished => n == |turns|
    case Completed => |out.delivered| == left || (n > 0 && !turns[n - 1].cancelAfterGets && Answers(turns[n - 1], 0))
    case ReadError(code) =>
      && code < 0 && code != -1 && code != -3
      && n > 0 && !turns[n - 1].cancelAfterGets && Answers(turns[n - 1], code)
    case RetriesExhausted =>
      || (n >= 10000 && forall i :: n - 10000 <= i < n ==> Fruitless(turns[i]))
      || (n + retries >= 10000 && forall i :: 0 <= i < n ==> Fruitless(turns[i]))
    case Canceled =>
      || (n < |turns| && turns[n].cancelAtTop)
      || (n > 0 && !turns[n - 1].gets.GetsThrew? && turns[n - 1].cancelAfterGets)
      || (n > 0 && Brings(turns[n - 1]) && Wanted(turns[n - 1], filter) && turns[n - 1].cancelAfterCallback)
    case CallbackThrew => n > 0 && Brings(turns[n - 1]) && Wanted(turns[n - 1], filter) && turns[n - 1].callbackThrows
    case ComCallThrew =>
      n > 0 && (turns[n - 1].gets.GetsThrew? ||
                (Brings(turns[n - 1]) && !Wanted(turns[n - 1], filter) && turns[n - 1].skip.SkipThrew?))
  }

  predicate Answers(t: Turn, code: int) {
    t.gets.Returned? && t.gets.code == code
  }

  /** The end of the loop behind one more turn. */
  lemma EndedByBehind(turns: seq<Turn>, filter: seq<string>, left: nat, retries: nat, delivered: seq<Record>,
                      out: Outcome)
    requires turns != [] && GoesOn(turns[0], filter) && |delivered| <= left && out.readCount < |turns|
    requires EndedBy(turns[1..], filter, left - |delivered|, if Fruitless(turns[0]) then retries + 1 else 0, out)
    ensures EndedBy(turns, filter, left, retries, out.After(delivered, 1))
  {
    hide GoesOn, Brings, Fruitless, Wanted, Answers;
    assert forall i :: 0 < i < |turns| ==> turns[i] == turns[1..][i - 1];
    if out.exit.RetriesExhausted? {
      assert forall i :: 0 < i <= out.readCount ==> (Fruitless(turns[i]) <==> Fruitless(turns[1..][i - 1]));
    }
  }

  /** What the loop does with any script: it goes through turns that go on, up to one that does not or to
      a limit; the exit tells which it was; and the callback was given the wanted records of those turns. */
  lemma {:induction false} ExitTells(turns: seq<Turn>, filter: seq<string>, left: nat, retries: nat)
    ensures var out := Play(turns, filter, left, retries);
            && out.readCount <= |turns|
            && (forall i :: 0 <= i < out.readCount - 1 ==> GoesOn(turns[i], filter))
            && (out.readCount > 0 ==> !turns[out.readCount - 1].cancelAtTop)
            && out.delivered == Handed(turns[..out.readCount], filter)
            && |out.delivered| <= left
            && EndedBy(turns, filter, left, retries, out)
    decreases turns, 1
  {
    var out := Play(turns, filter, left, retries);
    var n := out.readCount;
    if n > 0 {
      var t := turns[0];
      WantedIsPassing(t, filter);
      match TurnResult(t, filter, retries)
      case Stop(_, _) =>
        assert turns[..1][0] == t && turns[..1][1..] == [];
      case Continue(delivered, retries') =>
        TurnGoesOn(t, filter, retries);
        ExitTellsBehind(turns, filter, left, retries, delivered, retries');
    }
  }

  lemma TurnGoesOn(t: Turn, filter: seq<string>, retries: nat)
    requires !t.cancelAtTop && TurnResult(t, filter, retries).Continue?
    ensures var Continue(delivered, retries') := TurnResult(t, filter, retries);
            && GoesOn(t, filter) && delivered == Handed([t], filter) && |delivered| <= 1
            && retries' == if Fruitless(t) then retries + 1 else 0
  {
    WantedIsPassing(t, filter);
    assert [t][1..] == [];
  }

  lemma {:induction false} ExitTellsBehind(turns: seq<Turn>, filter: seq<string>, left: nat, retries: nat,
                                           delivered: seq<Record>, retries': nat)
    requires left > 0 && retries < MAX_RETRIES && turns != []
    requires GoesOn(turns[0], filter) && TurnResult(turns[0], filter, retries) == Continue(delivered, retries')
    requires delivered == Handed(turns[..1], filter) && |delivered| <= 1
    requires retries' == if Fruitless(turns[0]) then retries + 1 else 0
    ensures var out := Play(turns, filter, left, retries);
            && 0 < out.readCount <= |turns|
            && (forall i :: 0 <= i < out.readCount - 1 ==> GoesOn(turns[i], filter))
            && !turns[out.readCount - 1].cancelAtTop
            && out.delivered == Handed(turns[..out.readCount], filter)
            && |out.delivered| <= left
            && EndedBy(turns, filter, left, retries, out)
    decreases turns, 0
  {
    hide TurnResult, EndedBy;
    ExitTells(turns[1..], filter, left - |delivered|, retries');
    var rest := Play(turns[1..], filter, left - |delivered|, retries');
    hide Play, Handed, Brings, Fruitless, Wanted;
    EndedByBehind(turns, filter, left, retries, delivered, rest);
    HandedCons(turns, filter, rest.readCount + 1);
    assert forall i :: 0 < i < |turns| ==> turns[i] == turns[1..][i - 1];
  }

  lemma HandedCons(turns: seq<Turn>, filter: seq<string>, n: nat)
    requires 0 < n <= |turns|
    ensures Handed(turns[..n], filter) == Handed(turns[..1], filter) + Handed(turns[1..][..n - 1], filter)
  {
    assert turns[..n][0] == turns[0] && turns[..n][1..] == turns[1..][..n - 1];
    assert turns[..1][0] == turns[0] && turns[..1][1..] == [];
  }

  lemma WantedIsPassing(t: Turn, filter: seq<string>)
    ensures Brings(t) ==> (Wanted(t, filter) <==> Passes(t.gets.buffer.value, filter))
  {
  }

  /** Fewer than 10000 fruitless answers in a row, `fruitless` of them before. */
  predicate Patient(turns: seq<Turn>, fruitless: nat) {
    && fruitless < 10000
    && (turns == [] || Patient(turns[1..], if Fruitless(turns[0]) then fruitless + 1 else 0))
  }

  /** When a loop ends normally: nothing cancels or throws, every answer is a record, one of the codes
      that mean going on, or the end, and fewer than 10000 in a row are fruitless. */
  lemma {:induction false} EndsNormally(turns: seq<Turn>, filter: seq<string>, left: nat, retries: nat)
    requires turns != [] && Patient(turns, retries)
    requires forall i :: 0 <= i < |turns| - 1 ==> GoesOn(turns[i], filter)
    requires var t := turns[|turns| - 1]; Answers(t, 0) && !t.cancelAtTop && !t.cancelAfterGets
    ensures Play(turns, filter, left, retries).exit == Completed
    decreases turns
  {
    if left > 0 && |turns| > 1 {
      var t := turns[0];
      WantedIsPassing(t, filter);
      var Continue(delivered, retries') := TurnResult(t, filter, retries);
      EndsNormally(turns[1..], filter, if delivered == [] then left else left - 1, retries');
    }
  }

  /** And with files of one type each, whatever the pattern of skips, the whole of what is wanted comes, or
      as much as was asked for; without a limit that is less than 2^63 records. */
  lemma EverythingComes(turns: seq<Turn>, files: seq<seq<Record>>, filter: seq<string>, maxRecords: int)
    requires forall i :: 0 <= i < |files| ==> OneType(files[i])
    requires ReadFrom(turns, Reader([], files), filter)
    requires turns != [] && Patient(turns, 0)
    requires forall i :: 0 <= i < |turns| - 1 ==> GoesOn(turns[i], filter)
    requires var t := turns[|turns| - 1]; Answers(t, 0) && !t.cancelAtTop && !t.cancelAfterGets
    ensures var out := Play(turns, filter, EffectiveLimit(maxRecords), 0);
            var wanted := Filter(Flatten(files), filter);
            && out.exit == Completed
            && (0 < maxRecords < |wanted| ==> out.delivered == wanted[..maxRecords])
            && (maxRecords >= |wanted| ==> out.delivered == wanted)
            && (maxRecords <= 0 && |wanted| < 0x8000_0000_0000_0000 ==> out.delivered == wanted)
  {
    EndsNormally(turns, filter, EffectiveLimit(maxRecords), 0);
    StoredDelivery(turns, files, filter, maxRecords);
  }

  /** What filtering means: the records that have no type, or one of those listed, as often as they come
      and in their order; without a list all of them. */
  lemma {:induction false} FilterKeeps(rs: seq<Record>, filter: seq<string>, r: Record)
    ensures multiset(Filter(rs, filter))[r]
            == if filter == [] || |r| < 2 || r[..2] in filter then multiset(rs)[r] else 0
    ensures filter == [] ==> Filter(rs, filter) == rs
  {
    if rs != [] {
      FilterKeeps(rs[1..], filter, r);
      assert rs == [rs[0]] + rs[1..];
    }
  }

  // ---------------------------------------------------------------- retry on corrupted files

  datatype RetryConfig = RetryConfig(autoRetry: bool, maxRetryAttempts: int)

  const FILENAME_BUFFER_SIZE := 256

  /** The array that a JVGets call hands over; its bytes may turn out not to be accessible. */
  datatype SafeArray = NoArray | Unreadable | Bytes(data: Record)

  /** One raw JVGets call. `reading` is the file the component works on, whether it tells or not. */
  datatype RawGets = RawGets(code: int, safeArray: SafeArray, filename: string, reading: string)

  /** The call tells the name of its file: it has an array, and a name that fits the buffer. */
  predicate Names(raw: RawGets) {
    raw.code > 0 && !raw.safeArray.NoArray? && 0 < |raw.filename| < FILENAME_BUFFER_SIZE
  }

  /** What a call leaves in the name buffer. */
  function NameAfter(raw: RawGets, before: string): string {
    if Names(raw) then raw.filename else before
  }

  function BufferOf(raw: RawGets): Option<Record> {
    if raw.code > 0 && raw.safeArray.Bytes? then Some(raw.safeArray.data) else None
  }

  function MaxCalls(config: RetryConfig): nat {
    if config.autoRetry && config.maxRetryAttempts > 1 then config.maxRetryAttempts else 1
  }

  /** `script[k]` is what the k-th raw call would answer. The wrapper retries exactly as long as
      calls answer "corrupted" and it has attempts left; it hands out the answer of the last call
      and no buffer of an earlier one. Each delete names the file of the last record read before --
      a corrupted answer carries no name of its own. */
  method JvGetsWithRetry(script: seq<RawGets>, config: RetryConfig, lastFile: string)
    returns (ret: int, buffer: Option<Record>, filename: string, calls: nat, deleted: seq<string>)
    requires |script| >= MaxCalls(config)
    ensures 1 <= calls <= if config.autoRetry && config.maxRetryAttempts > 1 then config.maxRetryAttempts else 1
    ensures ret == script[calls - 1].code && buffer == BufferOf(script[calls - 1])
    ensures filename == NameAfter(script[calls - 1], lastFile)
    ensures forall k :: 0 <= k < calls - 1 ==> script[k].code == -402 || script[k].code == -403
    ensures (ret == -402 || ret == -403) && config.autoRetry ==> calls >= config.maxRetryAttempts
    ensures |deleted| == calls - 1 && forall k :: 0 <= k < |deleted| ==> deleted[k] == lastFile
  {
    filename := lastFile;
    buffer, deleted, calls := None, [], 0;
    if !config.autoRetry {
      ret, buffer, filename := JvGets(script[0], buffer, filename);
      return ret, buffer, filename, 1, deleted;
    }
    var totalAttempts := if config.maxRetryAttempts > 1 then config.maxRetryAttempts else 1;
    ret := 0;
    for attempt := 0 to totalAttempts
      invariant calls == attempt == |deleted|
      invariant buffer == None && filename == lastFile
      invariant forall k :: 0 <= k < attempt ==> IsCorruption(script[k].code)
      invariant forall k :: 0 <= k < attempt ==> deleted[k] == lastFile
      invariant attempt < totalAttempts
    {
      ret, buffer, filename := JvGets(script[attempt], buffer, filename);
      calls := calls + 1;
      if IsCorruption(ret) {
        if attempt < totalAttempts - 1 {
          deleted := deleted + [filename];
          buffer := None;
          continue;
        }
      }
      return;
    }
  }

  /** A raw call. The name is written also when the array's bytes cannot be accessed; an empty name, or
      one that does not fit, leaves the old one in place. */
  method JvGets(raw: RawGets, oldBuffer: Option<Record>, oldName: string)
    returns (ret: int, buffer: Option<Record>, filename: string)
    ensures ret == raw.code
    ensures filename == if raw.code > 0 && !raw.safeArray.NoArray? && 0 < |raw.filename| < 256 then raw.filename
                        else oldName
    ensures buffer == if raw.code > 0 && raw.safeArray.Bytes? then Some(raw.safeArray.data) else oldBuffer
  {
    ret, buffer, filename := raw.code, oldBuffer, oldName;
    if ret > 0 && !raw.safeArray.NoArray? {
      if raw.safeArray.Bytes? {
        buffer := Some(raw.safeArray.data);
      }
      if |raw.filename| > 0 {
        var fnSize := |raw.filename| + 1;
        if fnSize <= FILENAME_BUFFER_SIZE {
          filename := raw.filename;
        }
      }
    }
  }

  /** The name in the buffer after a history of calls. */
  function NameAfterAll(history: seq<RawGets>): string {
    if history == [] then "" else NameAfter(history[|history| - 1], NameAfterAll(history[..|history| - 1]))
  }

  /** Call `k` was the last one to tell a name. */
  predicate LastToName(history: seq<RawGets>, k: nat) {
    k < |history| && Names(history[k]) && forall j :: k < j < |history| ==> !Names(history[j])
  }

  lemma {:induction false} NamedByTheLast(history: seq<RawGets>)
    ensures NameAfterAll(history) == "" <==> forall k :: 0 <= k < |history| ==> !Names(history[k])
    ensures forall k: nat :: LastToName(history, k) ==> NameAfterAll(history) == history[k].filename
    ensures NameAfterAll(history) != "" ==> exists k: nat :: LastToName(history, k)
  {
    if history != [] {
      var n := |history| - 1;
      NamedByTheLast(history[..n]);
      if Names(history[n]) {
        assert LastToName(history, n);
      } else {
        assert forall k :: 0 <= k < n ==> history[..n][k] == history[k];
        assert forall k: nat :: LastToName(history, k) <==> LastToName(history[..n], k);
      }
    }
  }

  /** When a delete hits the file that was being read: if and only if the last call that told a name
      was reading that same file. A component that names files names the ones it reads. */
  lemma DeletesTheFileBeingReadIff(history: seq<RawGets>, corrupted: RawGets)
    requires forall k :: 0 <= k < |history| && Names(history[k]) ==> history[k].filename == history[k].reading
    requires corrupted.reading != ""
    ensures NameAfterAll(history) == corrupted.reading
            <==> exists k: nat :: LastToName(history, k) && history[k].reading == corrupted.reading
  {
    NamedByTheLast(history);
    if NameAfterAll(history) == corrupted.reading {
      var k: nat :| LastToName(history, k);
      assert history[k].filename == history[k].reading;
    }
  }

  /** It can be another: file A has been read to its end, and B, which is corrupted, is next. */
  method DeletesTheWrongFile(record: Record) returns (deleted: seq<string>, corrupted: RawGets)
    ensures IsCorruption(corrupted.code) && corrupted.reading == "B" && deleted == ["A"]
  {
    var config := RetryConfig(true, 2);
    var good := RawGets(1, Bytes(record), "A", "A");
    var end := RawGets(JV_SUCCESS, NoArray, "", "B");
    corrupted := RawGets(JV_ERROR_FILE_CORRUPTED_HEADER, NoArray, "", "B");
    var script := [good, end];
    var _, _, name, _, _ := JvGetsWithRetry(script, config, "");
    assert !IsCorruption(script[0].code) && Names(script[0]) && name == "A";
    script := [corrupted, end];
    var _, _, _, calls, names := JvGetsWithRetry(script, config, name);
    assert IsCorruption(script[0].code);
    deleted := names;
  }
}
