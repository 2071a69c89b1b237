/** What a receiver of chunked content makes of a sender, or a connection, that fails half-way: it may
    get less than was written, but never anything else, and it is not told that it got everything
    unless it did.
 */
module ChunkedFailures {
  import opened Wrappers
  import opened Pieces
  import opened ChunkedCoding

  // ---------------------------------------------------------------- cut inside a size line

  lemma {:induction false} UnfinishedLine(line: string, text: string, broken: bool)
    requires LF !in text && |line| + |text| < MAX_LINE_LENGTH
    ensures ScanLine(line, text, broken) == if broken || line + text == "" then None else Some((line + text, ""))
    decreases |text|
  {
    if text == "" {
      assert line + text == line;
    } else {
      UnfinishedLine(line + [text[0]], text[1..], broken);
      assert line + [text[0]] + text[1..] == line + text;
    }
  }

  /** The first digits of a positive number are those of a positive number: there is no leading zero. */
  lemma {:induction false} FirstDigits(n: nat, k: nat) returns (m: nat)
    requires n > 0 && 0 < k <= |HexOf(n)|
    ensures m > 0 && HexOf(n)[..k] == HexOf(m)
  {
    if k == |HexOf(n)| {
      m := n;
    } else {
      assert n >= 16 && HexOf(n)[..k] == HexOf(n / 16)[..k];
      m := FirstDigits(n / 16, k);
    }
  }

  /** A size line that has no end yet is never taken for the last chunk. */
  lemma SizeCutShort(n: nat, p: string, broken: bool)
    requires 0 < n <= SIZE_MAX && p <= HexOf(n) + [CR]
    ensures Decode(p, broken) == Failure("")
  {
    hide HexOf, Strtoul, CString, ScanLine;
    BeginningOfASize(n, p);
    UnfinishedLine("", p, broken);
    assert "" + p == p;
    if p != "" && !broken {
      PositiveBeginning(n, p);
      CStringOfPlain(p);
    }
  }

  lemma BeginningOfASize(n: nat, p: string)
    requires n <= SIZE_MAX && p <= HexOf(n) + [CR]
    ensures |p| <= 17 && LF !in p && '\0' !in p
  {
    hide HexOf;
    SizeHasSixteenDigits();
    HexLength(n, 16);
    forall i | 0 <= i < |p| ensures p[i] != LF && p[i] != '\0' {
      assert p[i] == (HexOf(n) + [CR])[i];
    }
  }

  lemma PositiveBeginning(n: nat, p: string)
    requires n > 0 && p != "" && p <= HexOf(n) + [CR]
    ensures Strtoul(p).0 > 0
  {
    hide HexOf, Strtoul;
    var hex := HexOf(n);
    var k := if |p| < |hex| then |p| else |hex|;
    var m := FirstDigits(n, k);
    var tail := p[k..];
    assert p[..k] == hex[..k] && p == HexOf(m) + tail;
    assert tail != "" ==> p[k] == (hex + [CR])[k];
    StrtoulOfHex(m, tail);
  }

  // ---------------------------------------------------------------- cut anywhere in a chunk

  lemma ChunkCutShort(data: string, p: string, broken: bool)
    requires data != "" && |data| <= SIZE_MAX && p < EncodeChunk(data)
    ensures Decode(p, broken).Failure? && Decode(p, broken).body <= data
  {
    hide HexOf, Strtoul, CString, ScanLine;
    var (n, hex) := (|data|, HexOf(|data|));
    var size := hex + CRLF;
    assert EncodeChunk(data) == size + (data + CRLF);
    if |p| < |size| {
      assert p <= hex + [CR];
      SizeCutShort(n, p, broken);
    } else {
      var q := p[|size|..];
      assert p == hex + CRLF + q && q < data + CRLF;
      SizeLine(n, q, broken);
      if n < ULONG_MAX && |q| >= n {
        var separator := q[n..];
        assert q[..n] == data && separator < CRLF;
        SeparatorCutShort(separator, broken);
      }
    }
  }

  lemma SeparatorCutShort(separator: string, broken: bool)
    requires separator < CRLF
    ensures var line := ScanLine("", separator, broken); line.Some? ==> CString(line.value.0) != CRLF
  {
    assert |separator| < 2 && (separator == "" || separator == [CR]);
    UnfinishedLine("", separator, broken);
    assert "" + separator == separator;
    CStringOfPlain(separator);
  }

  // ---------------------------------------------------------------- cut anywhere in a stream

  /** Complete chunks in front of anything. */
  lemma {:induction false} DecodeBehindChunks(writes: seq<string>, t: string, broken: bool)
    requires Sized(writes)
    ensures var d := Decode(EncodeChunks(writes) + t, broken);
            if Sendable(writes) then d == Prepend(Concat(writes), Decode(t, broken))
            else d.Failure? && d.body <= Concat(writes)
  {
    hide EncodeChunk, Decode;
    if writes == [] {
      assert EncodeChunks(writes) + t == t;
      assert "" + Decode(t, broken).body == Decode(t, broken).body;
    } else {
      var (data, behind) := (writes[0], EncodeChunks(writes[1..]) + t);
      assert EncodeChunks(writes) + t == EncodeChunk(data) + behind;
      assert forall i :: 0 < i < |writes| ==> writes[i] == writes[1..][i - 1];
      DecodeBehindChunks(writes[1..], t, broken);
      OneMoreChunk(data, behind, broken);
      PrependTwice(data, Concat(writes[1..]), Decode(t, broken));
    }
  }

  lemma OneMoreChunk(data: string, behind: string, broken: bool)
    requires |data| <= SIZE_MAX
    ensures Decode(EncodeChunk(data) + behind, broken)
            == if |data| < ULONG_MAX then Prepend(data, Decode(behind, broken)) else Failure("")
  {
    hide Decode;
    if data == "" {
      assert EncodeChunk(data) + behind == behind;
      assert "" + Decode(behind, broken).body == Decode(behind, broken).body;
    } else {
      DecodeOneChunk(data, behind, broken);
    }
  }

  /** A beginning of the coded writes, without any of the last chunk: a failure, and a beginning of what
      was written. */
  lemma {:induction false} StreamCutShort(writes: seq<string>, p: string, broken: bool)
    requires Sized(writes) && p <= EncodeChunks(writes)
    ensures Decode(p, broken).Failure? && Decode(p, broken).body <= Concat(writes)
  {
    hide EncodeChunk, Decode;
    if writes == [] {
      NothingIsAFailure(broken);
    } else {
      var (data, behind) := (writes[0], EncodeChunks(writes[1..]));
      var chunk := EncodeChunk(data);
      assert forall i :: 0 < i < |writes| ==> writes[i] == writes[1..][i - 1];
      if |p| < |chunk| {
        EmptyWriteSendsNothing();
        assert p < chunk;
        ChunkCutShort(data, p, broken);
      } else {
        var q := p[|chunk|..];
        assert p == chunk + q && q <= behind;
        StreamCutShort(writes[1..], q, broken);
        OneMoreChunk(data, q, broken);
      }
    }
  }

  lemma NothingIsAFailure(broken: bool)
    ensures Decode("", broken) == Failure("")
  {
  }

  // ---------------------------------------------------------------- cut inside the last chunk

  /** Whatever of the last chunk and its line end gets out, nothing of it is taken for content. */
  lemma EndCutShort(marker: nat, crlf: nat, broken: bool)
    ensures Decode(GetsOut("0\r\n", marker) + GetsOut(CRLF, crlf), broken).body == ""
  {
    hide ScanLine, Strtoul, CString, SkipTrailers;
    var t := GetsOut("0\r\n", marker) + GetsOut(CRLF, crlf);
    if ScanLine("", t, broken).Some? {
      var (line, rest) := ScanLine("", t, broken).value;
      ScanLineConsumes("", t, broken);
      assert "" + t == t && t == line + rest && line[0] == t[0];
      if marker == 0 {
        assert t == GetsOut(CRLF, crlf) && |t| <= 2;
        assert forall i :: 0 <= i < |line| ==> line[i] == t[i] && IsSpace(t[i]);
        BlankIsNoNumber(line);
      } else {
        EndBeginsWithZero(marker, crlf);
        assert line == t[..|line|];
        ZeroIsZero(line);
      }
    }
  }

  lemma EndBeginsWithZero(marker: nat, crlf: nat)
    requires marker > 0
    ensures var t := GetsOut("0\r\n", marker) + GetsOut(CRLF, crlf);
            t != "" && t[0] == '0' && (|t| > 1 ==> t[1] == CR)
  {
    if marker == 1 {
      assert GetsOut("0\r\n", marker) == "0";
    } else if marker == 2 {
      assert GetsOut("0\r\n", marker) == "0\r";
    }
  }

  lemma BlankIsNoNumber(line: string)
    requires 0 < |line| <= 2 && forall i :: 0 <= i < |line| ==> IsSpace(line[i])
    ensures Strtoul(CString(line)) == (0, 0)
  {
    CStringOfPlain(line);
    assert SkipSpaces(line, |line|) == |line|;
    assert SkipSpaces(line, |line| - 1) == |line|;
  }

  lemma ZeroIsZero(line: string)
    requires line != "" && line[0] == '0' && (|line| > 1 ==> line[1] == CR)
    ensures Strtoul(CString(line)).0 == 0
  {
    var tail := CString(line[1..]);
    assert CString(line) == ['0'] + tail && HexOf(0) == ['0'];
    StrtoulOfHex(0, tail);
  }

  lemma {:induction false} ConcatOfBeginning(writes: seq<string>, k: nat)
    requires k <= |writes|
    ensures Concat(writes[..k]) <= Concat(writes)
  {
    if k > 0 {
      assert writes[..k][0] == writes[0] && writes[..k][1..] == writes[1..][..k - 1];
      ConcatOfBeginning(writes[1..], k - 1);
    }
  }

  /** What a failed sink leaves on the wire, as a receiver reads it. */
  lemma FailedWire(sink: ChunkedSink, broken: bool)
    requires sink.Valid() && !sink.ok && Sized(sink.writes)
    ensures var d := Decode(sink.wire, broken);
            d.body <= Concat(sink.writes) && (d.Success? ==> sink.done && d.body == Concat(sink.writes))
  {
    hide Decode, EncodeChunks, Concat, GetsOut;
    if sink.done {
      var m, n: nat :| sink.wire == EncodeChunks(sink.writes) + GetsOut("0\r\n", m) + GetsOut(CRLF, n);
      var t := GetsOut("0\r\n", m) + GetsOut(CRLF, n);
      assert sink.wire == EncodeChunks(sink.writes) + t;
      DecodeBehindChunks(sink.writes, t, broken);
      EndCutShort(m, n, broken);
      assert Concat(sink.writes) + "" == Concat(sink.writes);
    } else {
      StreamCutShort(sink.writes, sink.wire, broken);
    }
  }

  /** Writer, wire and reader, with a transport that may fail at any byte of any write, and a connection
      that ends cleanly or not: the receiver gets a beginning of the writes, and all of them if it
      succeeds. */
  method SendAndReceiveOverAFailingWire(writes: seq<string>, bytes: seq<nat>, marker: nat, crlf: nat, broken: bool)
    returns (ok: bool, body: string)
    requires Sized(writes) && |bytes| == |writes|
    ensures body <= Concat(writes) && (ok ==> body == Concat(writes))
  {
    hide Decode, EncodeChunks, EncodeChunk, Concat, GetsOut, Sendable;
    var sink := new ChunkedSink();
    ghost var sent := 0;
    for i := 0 to |writes|
      invariant sink.Valid() && !sink.done && fresh(sink)
      invariant sent <= i && sink.writes == writes[..sent] && (sink.ok ==> sent == i)
    {
      sent := if sink.ok then i + 1 else sent;
      var _ := sink.Write(writes[i], bytes[i]);
    }
    sink.Done(marker, crlf);
    assert writes[..|writes|] == writes;
    var strm := new SocketStream(sink.wire, broken);
    ConcatOfBeginning(writes, sent);
    if sink.ok {
      assert sink.wire == Wire(writes, "");
      DecodeOfEncoded(writes, "", broken);
    } else {
      FailedWire(sink, broken);
    }
    ok, body := ReadContentChunked(strm);
  }
}
