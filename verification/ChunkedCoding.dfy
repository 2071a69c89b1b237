/** The chunked transfer coding (section 7.1 of RFC 9112) as the HTTP library writes and reads it:
    hexadecimal sizes, a reader that takes lines through a small fixed buffer that spills into a
    growing one, and a socket stream that buffers short reads.
 */
module ChunkedCoding {
  import opened Wrappers
  import opened Pieces

  const CR := '\r'
  const LF := '\n'
  const CRLF := "\r\n"
  const ULONG_MAX := 0xFFFF_FFFF           // unsigned long has 32 bits on Windows
  const SIZE_MAX := 0xFFFF_FFFF_FFFF_FFFF  // size_t has 64
  const MAX_LINE_LENGTH := 32768
  const HEADER_MAX_LENGTH := 8192
  const RECV_BUFSIZ := 16384
  const READ_BUFF_SIZE := 4096
  const LINE_BUFSIZ := 16

  // ---------------------------------------------------------------- hexadecimal numbers

  function HexDigit(d: nat): char
    requires d < 16
  {
    "0123456789abcdef"[d]
  }

  predicate IsHexDigit(c: char) {
    '0' <= c <= '9' || 'a' <= c <= 'f'
  }

  /** The value of a hexadecimal digit of either case, 16 for any other character. */
  function HexValue(c: char): (v: nat)
    ensures v <= 16
  {
    if '0' <= c <= '9' then c as int - '0' as int
    else if 'a' <= c <= 'f' then c as int - 'a' as int + 10
    else if 'A' <= c <= 'F' then c as int - 'A' as int + 10
    else 16
  }

  function HexOf(n: nat): (s: string)
    ensures s != "" && forall i :: 0 <= i < |s| ==> IsHexDigit(s[i])
  {
    if n < 16 then [HexDigit(n)] else HexOf(n / 16) + [HexDigit(n % 16)]
  }

  lemma MoveDigit(m: nat, tail: string)
    ensures var longer := [HexDigit(m % 16)] + tail;
            HexOf(m) + tail == if m < 16 then longer else HexOf(m / 16) + longer
  {
    hide HexDigit;
    if m >= 16 {
      var (front, digit) := (HexOf(m / 16), [HexDigit(m % 16)]);
      assert HexOf(m) == front + digit && (front + digit) + tail == front + (digit + tail);
    }
  }

  method FromIToHex(n: nat) returns (ret: string)
    ensures ret == HexOf(n)
  {
    hide HexDigit, HexOf;
    var m := n;
    assert [HexDigit(n % 16)] + "" == [HexDigit(n % 16)] && HexOf(n) + "" == HexOf(n);
    MoveDigit(n, "");
    ret := [HexDigit(m % 16)];
    m := m / 16;
    while m > 0
      invariant HexOf(n) == if m == 0 then ret else HexOf(m) + ret
    {
      MoveDigit(m, ret);
      ret := [HexDigit(m % 16)] + ret;
      m := m / 16;
    }
  }

  function Power16(k: nat): nat {
    if k == 0 then 1 else 16 * Power16(k - 1)
  }

  lemma {:induction false} HexLength(n: nat, k: nat)
    requires n < Power16(k) && k > 0
    ensures |HexOf(n)| <= k
  {
    if n >= 16 {
      HexLength(n / 16, k - 1);
    }
  }

  lemma SizeHasSixteenDigits()
    ensures Power16(16) == SIZE_MAX + 1
  {
    assert Power16(4) == 0x1_0000 by {
      assert Power16(2) == 256;
    }
    assert Power16(8) == 0x1_0000_0000 by {
      assert Power16(6) == 0x100_0000;
    }
    assert Power16(12) == 0x1_0000_0000_0000 by {
      assert Power16(10) == 0x100_0000_0000;
    }
    assert Power16(14) == 0x100_0000_0000_0000;
  }

  // ---------------------------------------------------------------- strtoul

  predicate IsSpace(c: char) {
    c == ' ' || c == '\t' || c == '\n' || c == 11 as char || c == 12 as char || c == '\r'
  }

  function SkipSpaces(s: string, i: nat): (j: nat)
    requires i <= |s|
    ensures i <= j <= |s|
    decreases |s| - i
  {
    if i < |s| && IsSpace(s[i]) then SkipSpaces(s, i + 1) else i
  }

  /** The value and the end of the run of hexadecimal digits at `i`. */
  function Digits(s: string, i: nat, value: nat): (nat, nat)
    requires i <= |s|
    decreases |s| - i
  {
    if i < |s| && HexValue(s[i]) < 16 then Digits(s, i + 1, 16 * value + HexValue(s[i])) else (value, i)
  }

  /** `strtoul` with base 16: leading space, a sign, an optional 0x, digits; it saturates at
      ULONG_MAX. The second result is where it stopped, 0 when it found no number. */
  function Strtoul(s: string): (nat, nat) {
    var start := SkipSpaces(s, 0);
    var negative := start < |s| && s[start] == '-';
    var signed := if start < |s| && (s[start] == '-' || s[start] == '+') then start + 1 else start;
    var prefixed := signed + 2 < |s| && s[signed] == '0' && (s[signed + 1] == 'x' || s[signed + 1] == 'X')
                    && HexValue(s[signed + 2]) < 16;
    var first := if prefixed then signed + 2 else signed;
    var (value, end) := Digits(s, first, 0);
    if end == first then (0, 0)
    else if value > ULONG_MAX then (ULONG_MAX, end)
    else if negative && value > 0 then (ULONG_MAX + 1 - value, end)
    else (value, end)
  }

  lemma HexDigitValue(d: nat)
    requires d < 16
    ensures HexValue(HexDigit(d)) == d && !IsSpace(HexDigit(d))
    ensures HexDigit(d) != '-' && HexDigit(d) != '+' && HexDigit(d) != 'x' && HexDigit(d) != 'X'
  {
  }

  predicate AllHex(s: string) { forall i :: 0 <= i < |s| ==> HexValue(s[i]) < 16 }

  /** The number that digits `s` make when they follow digits worth `value`. */
  function ValueOf(value: nat, s: string): nat {
    if s == "" then value else 16 * ValueOf(value, s[..|s| - 1]) + HexValue(s[|s| - 1])
  }

  lemma {:induction false} HexOfIsHex(n: nat)
    ensures AllHex(HexOf(n)) && ValueOf(0, HexOf(n)) == n
  {
    if n < 16 {
      HexDigitValue(n);
      assert HexOf(n)[..0] == "";
    } else {
      HexOfIsHex(n / 16);
      HexDigitValue(n % 16);
      assert HexOf(n)[..|HexOf(n)| - 1] == HexOf(n / 16);
    }
  }

  /** The scan goes over a run of digits and arrives behind it with its value. */
  lemma {:induction false} DigitsScan(s: string, i: nat, j: nat, value: nat)
    requires i <= j <= |s| && AllHex(s[i..j])
    ensures Digits(s, i, value) == Digits(s, j, ValueOf(value, s[i..j]))
  {
    if i == j {
      assert s[i..j] == "";
    } else {
      assert s[i..j][..j - i - 1] == s[i..j - 1];
      assert s[i..j][j - i - 1] == s[j - 1];
      DigitsScan(s, i, j - 1, value);
    }
  }

  /** `strtoul` reads a run of digits that no further digit and no 'x' follows, up to its saturation. */
  lemma StrtoulOfDigits(hex: string, tail: string)
    requires hex != "" && AllHex(hex)
    requires tail == "" || (HexValue(tail[0]) == 16 && tail[0] != 'x' && tail[0] != 'X')
    ensures var n := ValueOf(0, hex); Strtoul(hex + tail) == (if n > ULONG_MAX then ULONG_MAX else n, |hex|)
  {
    hide IsSpace, HexValue, Strtoul, ValueOf;
    var s := hex + tail;
    assert s[..|hex|] == hex && s[0] == hex[0];
    PlainDigit(hex[0]);
    assert |s| > 1 ==> s[1] != 'x' && s[1] != 'X' by {
      if |hex| > 1 {
        assert s[1] == hex[1];
        PlainDigit(hex[1]);
      }
    }
    assert s[0..|hex|] == hex;
    DigitsScan(s, 0, |hex|, 0);
    var n := ValueOf(0, hex);
    assert Digits(s, |hex|, n) == (n, |hex|);
    StrtoulOfPlain(s, |hex|, n);
  }

  /** `strtoul` inverts the hexadecimal printing up to its saturation, whatever of a line end follows. */
  lemma StrtoulOfHex(n: nat, tail: string)
    requires tail == "" || tail[0] == CR
    ensures Strtoul(HexOf(n) + tail) == (if n > ULONG_MAX then ULONG_MAX else n, |HexOf(n)|)
  {
    hide Strtoul;
    HexOfIsHex(n);
    StrtoulOfDigits(HexOf(n), tail);
  }

  /** A text that begins with its digits: no space, no sign, no 0x. */
  lemma StrtoulOfPlain(s: string, end: nat, value: nat)
    requires s != "" && !IsSpace(s[0]) && s[0] != '-' && s[0] != '+' && (|s| > 1 ==> s[1] != 'x' && s[1] != 'X')
    requires end > 0 && Digits(s, 0, 0) == (value, end)
    ensures Strtoul(s) == (if value > ULONG_MAX then ULONG_MAX else value, end)
  {
    hide Digits, IsSpace;
    assert SkipSpaces(s, 0) == 0;
  }

  lemma PlainDigit(c: char)
    requires HexValue(c) < 16
    ensures !IsSpace(c) && c != '-' && c != '+' && c != 'x' && c != 'X'
  {
  }

  // ---------------------------------------------------------------- lines

  /** What `getline` makes of the bytes still to come, having read `line`: the line with its CRLF and
      the rest; at the end of the input the unfinished line; nothing if it gets too long. The input is
      `broken` when it ends in an error or a timeout and not in the end of the stream: then there is no
      unfinished line either. */
  function ScanLine(line: string, input: string, broken: bool): Option<(string, string)>
    decreases |input|
  {
    if |line| >= MAX_LINE_LENGTH then None
    else if input == "" then (if broken || line == "" then None else Some((line, "")))
    else
      var longer := line + [input[0]];
      if line != "" && line[|line| - 1] == CR && input[0] == LF then Some((longer, input[1..]))
      else ScanLine(longer, input[1..], broken)
  }

  /** One turn of the loop that reads a line. */
  lemma ScanOneByte(line: string, input: string, broken: bool)
    ensures ScanLine(line, input, broken)
            == if |line| >= MAX_LINE_LENGTH then None
               else if input == "" then (if broken || line == "" then None else Some((line, "")))
               else if line != "" && line[|line| - 1] == CR && input[0] == LF then Some((line + [input[0]], input[1..]))
               else ScanLine(line + [input[0]], input[1..], broken)
  {
  }

  lemma {:induction false} ScanLineConsumes(line: string, input: string, broken: bool)
    requires ScanLine(line, input, broken).Some?
    ensures var (found, rest) := ScanLine(line, input, broken).value;
            line + input == found + rest && (line == "" ==> |rest| < |input|) && |found| > 0 && |rest| <= |input|
    decreases |input|
  {
    if input != "" {
      var longer := line + [input[0]];
      assert line + input == longer + input[1..];
      if !(line != "" && line[|line| - 1] == CR && input[0] == LF) {
        ScanLineConsumes(longer, input[1..], broken);
      }
    }
  }

  /** A text without a carriage return, then CRLF, is found as one line. */
  lemma {:induction false} ScanLineFinds(line: string, text: string, rest: string, broken: bool)
    requires CR !in text && |line| + |text| + 2 <= MAX_LINE_LENGTH
    requires line == "" || line[|line| - 1] != CR
    ensures ScanLine(line, text + CRLF + rest, broken) == Some((line + text + CRLF, rest))
    decreases |text|
  {
    var input := text + CRLF + rest;
    if text == "" {
      assert input == CRLF + rest;
      assert input[1..] == [LF] + rest && ([LF] + rest)[1..] == rest;
      assert line + [CR] + [LF] == line + text + CRLF;
      assert ScanLine(line + [CR], [LF] + rest, broken) == Some((line + [CR] + [LF], rest));
    } else {
      assert input[1..] == text[1..] + CRLF + rest;
      ScanLineFinds(line + [text[0]], text[1..], rest, broken);
      assert line + [text[0]] + text[1..] == line + text;
    }
  }

  /** What C string functions see of a text. */
  function CString(s: string): string {
    if s == "" || s[0] == '\0' then "" else [s[0]] + CString(s[1..])
  }

  lemma {:induction false} CStringOfPlain(s: string)
    requires '\0' !in s
    ensures CString(s) == s
  {
    if s != "" {
      CStringOfPlain(s[1..]);
    }
  }

  // ---------------------------------------------------------------- decoding, as a function

  /** `rest` is what is left of the input of a successful decoding. */
  datatype Decoded = Failure(body: string) | Success(body: string, rest: string)

  function Prepend(data: string, d: Decoded): Decoded {
    match d
    case Failure(body) => Failure(data + body)
    case Success(body, rest) => Success(data + body, rest)
  }

  /** The trailer section: lines up to an empty one. It adds nothing to the body. */
  function SkipTrailers(line: string, input: string, broken: bool): (d: Decoded)
    ensures d.body == ""
    decreases |input|
  {
    if CString(line) == CRLF then Success("", input)
    else if |line| > HEADER_MAX_LENGTH then Failure("")
    else
      match ScanLine("", input, broken)
      case None => Failure("")
      case Some((next, rest)) =>
        ScanLineConsumes("", input, broken);
        SkipTrailers(next, rest, broken)
  }

  /** What a receiver gets out of chunked input; on a failure, what it has been given so far. */
  function Decode(input: string, broken: bool): Decoded
    decreases |input|
  {
    match ScanLine("", input, broken)
    case None => Failure("")
    case Some((line, afterSize)) =>
      ScanLineConsumes("", input, broken);
      var (size, end) := Strtoul(CString(line));
      if end == 0 || size == ULONG_MAX then Failure("")
      else if size == 0 then
        match ScanLine("", afterSize, broken)
        case None => Success("", "")
        case Some((trailer, rest)) => SkipTrailers(trailer, rest, broken)
      else if |afterSize| < size then Failure(afterSize)
      else
        var data := afterSize[..size];
        match ScanLine("", afterSize[size..], broken)
        case None => Failure(data)
        case Some((separator, afterChunk)) =>
          ScanLineConsumes("", afterSize[size..], broken);
          if CString(separator) != CRLF then Failure(data)
          else Prepend(data, Decode(afterChunk, broken))
  }

  // ---------------------------------------------------------------- encoding, as a function

  /** An empty write sends nothing. */
  function EncodeChunk(data: string): string {
    if data == "" then "" else HexOf(|data|) + CRLF + data + CRLF
  }

  const LAST_CHUNK := "0\r\n\r\n"

  function EncodeChunks(writes: seq<string>): string {
    if writes == [] then "" else EncodeChunk(writes[0]) + EncodeChunks(writes[1..])
  }

  lemma HexHasNoSpecials(n: nat)
    ensures CR !in HexOf(n) && '\0' !in HexOf(n)
  {
  }

  lemma SizeLine(n: nat, rest: string, broken: bool)
    requires n <= SIZE_MAX
    ensures ScanLine("", HexOf(n) + CRLF + rest, broken) == Some((HexOf(n) + CRLF, rest))
    ensures CString(HexOf(n) + CRLF) == HexOf(n) + CRLF
    ensures Strtoul(HexOf(n) + CRLF) == (if n > ULONG_MAX then ULONG_MAX else n, |HexOf(n)|)
  {
    SizeHasSixteenDigits();
    HexLength(n, 16);
    HexHasNoSpecials(n);
    ScanLineFinds("", HexOf(n), rest, broken);
    assert "" + HexOf(n) + CRLF == HexOf(n) + CRLF;
    CStringOfPlain(HexOf(n) + CRLF);
    StrtoulOfHex(n, CRLF);
  }

  lemma BlankLine(rest: string, broken: bool)
    ensures ScanLine("", CRLF + rest, broken) == Some((CRLF, rest)) && CString(CRLF) == CRLF
  {
    ScanLineFinds("", "", rest, broken);
    assert "" + CRLF + rest == CRLF + rest && "" + "" + CRLF == CRLF;
    CStringOfPlain(CRLF);
  }

  lemma TakeAndDrop(a: string, b: string)
    ensures (a + b)[..|a|] == a && (a + b)[|a|..] == b
  {
  }

  lemma DecodeOneChunk(data: string, rest: string, broken: bool)
    requires data != "" && |data| <= SIZE_MAX
    ensures Decode(EncodeChunk(data) + rest, broken)
            == if |data| < ULONG_MAX then Prepend(data, Decode(rest, broken)) else Failure("")
  {
    hide HexOf, Strtoul, CString, ScanLine;
    var size := HexOf(|data|) + CRLF;
    var afterSize := data + (CRLF + rest);
    assert EncodeChunk(data) + rest == size + afterSize;
    SizeLine(|data|, afterSize, broken);
    TakeAndDrop(data, CRLF + rest);
    BlankLine(rest, broken);
  }

  lemma DecodeLastChunk(rest: string, broken: bool)
    ensures Decode(LAST_CHUNK + rest, broken) == Success("", rest)
  {
    var input := LAST_CHUNK + rest;
    assert HexOf(0) == "0";
    assert input == HexOf(0) + CRLF + (CRLF + rest);
    SizeLine(0, CRLF + rest, broken);
    BlankLine(rest, broken);
  }

  /** Every write is too short to saturate the size that the reader parses. */
  predicate Sendable(writes: seq<string>) {
    forall i :: 0 <= i < |writes| ==> |writes[i]| < ULONG_MAX
  }

  predicate Sized(writes: seq<string>) {
    forall i :: 0 <= i < |writes| ==> |writes[i]| <= SIZE_MAX
  }

  /** Writes, one `done()`, and whatever follows on the connection. */
  function Wire(writes: seq<string>, rest: string): string {
    EncodeChunks(writes) + LAST_CHUNK + rest
  }

  lemma WireHead(writes: seq<string>, rest: string)
    requires writes != []
    ensures Wire(writes, rest) == EncodeChunk(writes[0]) + Wire(writes[1..], rest)
    ensures Sendable(writes) <==> |writes[0]| < ULONG_MAX && Sendable(writes[1..])
    ensures Sized(writes) ==> Sized(writes[1..])
  {
    hide EncodeChunk;
    assert forall i :: 0 < i < |writes| ==> writes[i] == writes[1..][i - 1];
  }

  /** What the reader makes of any sequence of writes. */
  lemma {:induction false} DecodeOfEncoded(writes: seq<string>, rest: string, broken: bool)
    requires Sized(writes)
    ensures var d := Decode(Wire(writes, rest), broken);
            if Sendable(writes) then d == Success(Concat(writes), rest) else d.Failure? && d.body <= Concat(writes)
  {
    if writes == [] {
      assert Wire(writes, rest) == LAST_CHUNK + rest;
      DecodeLastChunk(rest, broken);
    } else {
      WireHead(writes, rest);
      DecodeOfEncoded(writes[1..], rest, broken);
      var data, tail := writes[0], Wire(writes[1..], rest);
      if data == "" {
        assert EncodeChunk(data) + tail == tail;
        assert Concat(writes) == Concat(writes[1..]);
      } else {
        DecodeOneChunk(data, tail, broken);
      }
    }
  }

  /** The round trip, and exactly when it holds: the receiver gets the concatenation of the writes
      and leaves what follows untouched if and only if no write reaches ULONG_MAX bytes. */
  lemma RoundTripIff(writes: seq<string>, rest: string, broken: bool)
    requires Sized(writes)
    ensures Decode(Wire(writes, rest), broken) == Success(Concat(writes), rest) <==> Sendable(writes)
  {
    DecodeOfEncoded(writes, rest, broken);
  }

  /** One write of ULONG_MAX bytes is lost, whatever its bytes are. */
  lemma FourGigabytesAreLost(data: string, rest: string, broken: bool)
    requires |data| == 0xFFFF_FFFF
    ensures Decode(Wire([data], rest), broken) == Failure("")
  {
    WireHead([data], rest);
    DecodeOneChunk(data, Wire([data][1..], rest), broken);
  }

  // ---------------------------------------------------------------- the writer

  /** What a transport write that gets `bytes` of a text out makes of it. */
  function GetsOut(text: string, bytes: nat): string {
    if bytes < |text| then text[..bytes] else text
  }

  method ChunkOf(data: string) returns (chunk: string)
    requires data != ""
    ensures chunk == EncodeChunk(data)
  {
    hide HexOf;
    var hex := FromIToHex(|data|);
    chunk := hex + CRLF + data + CRLF;
  }

  lemma EmptyWriteSendsNothing()
    ensures EncodeChunk("") == ""
  {
  }

  class ChunkedSink {
    var ok: bool
    var wire: string
    var dataAvailable: bool
    ghost var writes: seq<string>    // with the one that failed, without those behind it
    ghost var done: bool

    constructor ()
      ensures Valid() && ok && wire == "" && writes == [] && !done
    {
      ok, wire, dataAvailable, writes, done := true, "", true, [], false;
    }

    /** While all is well the wire holds the coded writes; a failed write leaves a beginning of them,
        and a failed end all of them and two pieces of the last chunk. */
    ghost predicate Valid()
      reads this
    {
      if ok then
        wire == EncodeChunks(writes) + if done then LAST_CHUNK else ""
      else if done then
        exists m, n: nat :: wire == EncodeChunks(writes) + GetsOut("0\r\n", m) + GetsOut(CRLF, n)
      else
        wire <= EncodeChunks(writes)
    }

    /** `bytes`: how many bytes of the chunk the transport gets out; fewer than all is a failure, and
        the sink's latch makes all later writes fail without a try. */
    method Write(data: string, bytes: nat) returns (r: bool)
      requires Valid() && !done
      modifies this
      ensures Valid() && !done && r == ok
      ensures !old(ok) ==> !ok && wire == old(wire) && writes == old(writes) && dataAvailable == old(dataAvailable)
      ensures old(ok) ==> writes == old(writes) + [data] && dataAvailable == (data != "")
      ensures old(ok) ==> wire == old(wire) + GetsOut(EncodeChunk(data), bytes)
      ensures old(ok) ==> ok == (bytes >= |EncodeChunk(data)|)
    {
      hide EncodeChunks, EncodeChunk;
      if ok {
        assert wire + "" == wire;
        EmptyWriteSendsNothing();
        dataAvailable := |data| > 0;
        if data != "" {
          var chunk := ChunkOf(data);
          wire := wire + GetsOut(chunk, bytes);
          ok := bytes >= |chunk|;
        }
        EncodeSnoc(writes, data);
        writes := writes + [data];
      }
      return ok;
    }

    /** `done()`: two transport writes, the second tried even when the first has failed. */
    method Done(marker: nat, crlf: nat)
      requires Valid() && !done
      modifies this
      ensures Valid() && writes == old(writes)
      ensures !old(ok) ==> !ok && !done && wire == old(wire)
      ensures old(ok) ==> done && !dataAvailable && ok == (marker >= 3 && crlf >= 2)
      ensures old(ok) ==> wire == old(wire) + GetsOut("0\r\n", marker) + GetsOut(CRLF, crlf)
    {
      hide EncodeChunks;
      if !ok {
        return;
      }
      dataAvailable := false;
      wire := wire + GetsOut("0\r\n", marker);
      if marker < 3 {
        ok := false;
      }
      wire := wire + GetsOut(CRLF, crlf);
      if crlf < 2 {
        ok := false;
      }
      done := true;
      assert "0\r\n" + CRLF == LAST_CHUNK;
      assert wire == EncodeChunks(writes) + GetsOut("0\r\n", marker) + GetsOut(CRLF, crlf);
    }
  }

  lemma {:induction false} EncodeSnoc(writes: seq<string>, data: string)
    ensures EncodeChunks(writes + [data]) == EncodeChunks(writes) + EncodeChunk(data)
  {
    if writes == [] {
      assert [] + [data] == [data] && [data][1..] == [];
      assert EncodeChunks([data]) == EncodeChunk(data) + "";
    } else {
      assert (writes + [data])[1..] == writes[1..] + [data];
      EncodeSnoc(writes[1..], data);
    }
  }

  // ---------------------------------------------------------------- the buffered socket stream

  class SocketStream {
    var socket: string              // bytes the peer has sent that recv has not returned
    const broken: bool              // behind them comes an error or a timeout, not the end
    const readBuff: array<char>
    var readBuffOff: nat
    var readBuffContentSize: nat

    constructor (bytes: string, broken: bool)
      ensures Valid() && Pending() == bytes && fresh(readBuff) && this.broken == broken
    {
      socket, this.broken := bytes, broken;
      readBuff := new char[READ_BUFF_SIZE](_ => '\0');
      readBuffOff, readBuffContentSize := 0, 0;
    }

    ghost predicate Valid()
      reads this
    {
      readBuffOff <= readBuffContentSize <= readBuff.Length == READ_BUFF_SIZE
    }

    /** The bytes a reader has still to get. */
    ghost function Pending(): string
      requires Valid()
      reads this, readBuff
    {
      readBuff[readBuffOff..readBuffContentSize] + socket
    }

    /** `recv`: any number of bytes from one up to what there is and fits; none only at the end. */
    method ReadSocket(size: nat) returns (data: string, error: bool)
      requires size > 0
      modifies `socket
      ensures old(socket) == data + socket && |data| <= size && (data == "" ==> old(socket) == "")
      ensures error == (data == "" && broken)
    {
      error := false;
      if socket == "" {
        return "", broken;
      }
      var n: nat :| 1 <= n <= size && n <= |socket|;
      data, socket := socket[..n], socket[n..];
    }

    /** At least one and at most `size` of the pending bytes, in order; none only at the end, and an
        error only there. */
    method Read(size: nat) returns (data: string, error: bool)
      requires Valid() && size > 0
      modifies this, readBuff
      ensures Valid()
      ensures old(Pending()) == data + Pending() && |data| <= size && (data == "" ==> old(Pending()) == "")
      ensures error == (data == "" && broken)
    {
      error := false;
      if readBuffOff < readBuffContentSize {
        var remaining := readBuffContentSize - readBuffOff;
        if size <= remaining {
          data := readBuff[readBuffOff..readBuffOff + size];
          readBuffOff := readBuffOff + size;
        } else {
          data := readBuff[readBuffOff..readBuffOff + remaining];
          readBuffOff := readBuffOff + remaining;
        }
        assert old(Pending()) == data + Pending();
        return;
      }
      readBuffOff, readBuffContentSize := 0, 0;
      assert old(Pending()) == socket;
      if size < READ_BUFF_SIZE {
        var got, failed := ReadSocket(READ_BUFF_SIZE);
        error := failed;
        forall i | 0 <= i < |got| {
          readBuff[i] := got[i];
        }
        assert readBuff[..|got|] == got;
        if |got| <= size {
          data := got;
        } else {
          data := got[..size];
          readBuffOff, readBuffContentSize := size, |got|;
          assert readBuff[size..|got|] == got[size..];
        }
      } else {
        data, error := ReadSocket(size);
      }
    }
  }

  // ---------------------------------------------------------------- the line reader

  class StreamLineReader {
    const strm: SocketStream
    const fixedBuffer: array<char>
    var fixedBufferUsedSize: nat
    var growableBuffer: string

    constructor (strm: SocketStream, fixedBuffer: array<char>)
      requires strm.Valid() && fixedBuffer.Length > 0 && strm.readBuff != fixedBuffer
      ensures Valid() && this.strm == strm && this.fixedBuffer == fixedBuffer
    {
      this.strm, this.fixedBuffer := strm, fixedBuffer;
      fixedBufferUsedSize, growableBuffer := 0, "";
    }

    ghost predicate Valid()
      reads this, strm
    {
      && strm.Valid() && fixedBuffer != strm.readBuff
      && fixedBufferUsedSize < fixedBuffer.Length
      && (growableBuffer != "" ==> |growableBuffer| >= fixedBuffer.Length)
    }

    /** The bytes that `ptr()` points at. */
    function Text(): string
      requires fixedBufferUsedSize < fixedBuffer.Length
      reads this, fixedBuffer
    {
      if growableBuffer == "" then fixedBuffer[..fixedBufferUsedSize] else growableBuffer
    }

    method Append(c: char)
      requires Valid() && (growableBuffer != "" ==> fixedBufferUsedSize == fixedBuffer.Length - 1)
      modifies this, fixedBuffer
      ensures Valid() && (growableBuffer != "" ==> fixedBufferUsedSize == fixedBuffer.Length - 1)
      ensures Text() == old(Text()) + [c]
    {
      if fixedBufferUsedSize < fixedBuffer.Length - 1 {
        fixedBuffer[fixedBufferUsedSize] := c;
        fixedBufferUsedSize := fixedBufferUsedSize + 1;
        fixedBuffer[fixedBufferUsedSize] := '\0';
        assert fixedBuffer[..fixedBufferUsedSize] == old(fixedBuffer[..fixedBufferUsedSize]) + [c];
      } else {
        if growableBuffer == "" {
          growableBuffer := fixedBuffer[..fixedBufferUsedSize];
        }
        growableBuffer := growableBuffer + [c];
      }
    }

    /** One line through the two buffers, byte by byte: what `ScanLine` says of the pending bytes. */
    method GetLine() returns (ok: bool)
      requires Valid()
      modifies this, fixedBuffer, strm, strm.readBuff
      ensures Valid()
      ensures match ScanLine("", old(strm.Pending()), strm.broken)
              case None => !ok
              case Some((line, rest)) => ok && Text() == line && strm.Pending() == rest
    {
      hide ScanLine;
      ghost var input := strm.Pending();
      fixedBufferUsedSize, growableBuffer := 0, "";
      var prevByte := '\0';
      var i := 0;
      while true
        invariant Valid() && (growableBuffer != "" ==> fixedBufferUsedSize == fixedBuffer.Length - 1)
        invariant i == |Text()|
        invariant ScanLine("", input, strm.broken) == ScanLine(Text(), strm.Pending(), strm.broken)
        invariant prevByte == if i == 0 then '\0' else Text()[i - 1]
        decreases |strm.Pending()|
      {
        ghost var pending, line := strm.Pending(), Text();
        ScanOneByte(line, pending, strm.broken);
        if |Text()| >= MAX_LINE_LENGTH {
          return false;
        }
        var data, error := strm.Read(1);
        assert Text() == line;
        if error {
          return false;
        }
        if data == "" {
          if i == 0 {
            return false;
          }
          break;
        }
        var byte := data[0];
        assert pending == [byte] + strm.Pending() && pending[1..] == strm.Pending();
        Append(byte);
        assert Text() == line + [byte];
        if prevByte == CR && byte == LF {
          break;
        }
        prevByte := byte;
        i := i + 1;
      }
      return true;
    }
  }

  // ---------------------------------------------------------------- the reader of chunked content

  /** Passes exactly `len` bytes on, however the reads are split, or all there are and fails. */
  method ReadContentWithLength(strm: SocketStream, len: nat) returns (ok: bool, data: string)
    requires strm.Valid()
    modifies strm, strm.readBuff
    ensures strm.Valid()
    ensures ok <==> |old(strm.Pending())| >= len
    ensures if ok then |data| == len && old(strm.Pending()) == data + strm.Pending()
            else data == old(strm.Pending())
  {
    data := "";
    ghost var input := strm.Pending();
    assert input == "" + strm.Pending();
    while |data| < len
      invariant strm.Valid() && |data| <= len && input == data + strm.Pending()
      decreases len - |data|
    {
      var readLen := len - |data|;
      ghost var pending := strm.Pending();
      var got, error := strm.Read(if readLen < RECV_BUFSIZ then readLen else RECV_BUFSIZ);
      if error || got == "" {
        assert data + "" == data;
        return false, data;
      }
      assert data + (got + strm.Pending()) == (data + got) + strm.Pending();
      data := data + got;
    }
    return true, data;
  }

  /** The data of one chunk and the CRLF behind it. */
  method ReadChunk(lineReader: StreamLineReader, size: nat) returns (ok: bool, data: string)
    requires lineReader.Valid()
    modifies lineReader, lineReader.fixedBuffer, lineReader.strm, lineReader.strm.readBuff
    ensures lineReader.Valid()
    ensures var input := old(lineReader.strm.Pending());
            if |input| < size then !ok && data == input
            else
              && data == input[..size]
              && match ScanLine("", input[size..], lineReader.strm.broken)
                 case None => !ok
                 case Some((separator, rest)) =>
                   ok == (CString(separator) == CRLF) && (ok ==> lineReader.strm.Pending() == rest)
    ensures ok ==> |lineReader.strm.Pending()| < |old(lineReader.strm.Pending())|
  {
    ghost var input := lineReader.strm.Pending();
    ok, data := ReadContentWithLength(lineReader.strm, size);
    if !ok {
      return;
    }
    assert input[..size] == data && input[size..] == lineReader.strm.Pending();
    ok := lineReader.GetLine();
    if ok {
      ScanLineConsumes("", input[size..], lineReader.strm.broken);
      ok := CString(lineReader.Text()) == CRLF;
    }
  }

  /** `read_content_chunked`: for any schedule of short reads it delivers what `Decode` says. */
  method ReadContentChunked(strm: SocketStream) returns (ok: bool, body: string)
    requires strm.Valid()
    modifies strm, strm.readBuff
    ensures strm.Valid()
    ensures match Decode(old(strm.Pending()), strm.broken)
            case Failure(given) => !ok && body == given
            case Success(all, rest) => ok && body == all && (rest != "" ==> strm.Pending() == rest)
  {
    hide ScanLine, CString, Strtoul, SkipTrailers;
    var buf := new char[LINE_BUFSIZ](_ => '\0');
    var lineReader := new StreamLineReader(strm, buf);
    ghost var input := strm.Pending();
    body := "";
    var more := lineReader.GetLine();
    if !more {
      return false, body;
    }
    ghost var current := input;  // the input from the size line on
    while true
      invariant lineReader.Valid() && lineReader.strm == strm && lineReader.fixedBuffer == buf
      invariant fresh(lineReader) && fresh(buf)
      invariant ScanLine("", current, strm.broken) == Some((lineReader.Text(), strm.Pending()))
      invariant Decode(input, strm.broken) == Prepend(body, Decode(current, strm.broken))
      decreases |strm.Pending()|
    {
      ghost var afterSize := strm.Pending();
      var (chunkLen, end) := Strtoul(CString(lineReader.Text()));
      if end == 0 || chunkLen == ULONG_MAX {
        assert body + "" == body;
        return false, body;
      }
      if chunkLen == 0 {
        break;
      }
      var got, data := ReadChunk(lineReader, chunkLen);
      if !got {
        return false, body + data;
      }
      ghost var next := strm.Pending();
      assert Decode(current, strm.broken) == Prepend(data, Decode(next, strm.broken));
      PrependTwice(body, data, Decode(next, strm.broken));
      body := body + data;
      more := lineReader.GetLine();
      if !more {
        assert body + "" == body;
        return false, body;
      }
      ScanLineConsumes("", next, strm.broken);
      current := next;
    }
    assert body + "" == body;
    ok := ReadTrailers(lineReader);
  }

  lemma PrependTwice(a: string, b: string, d: Decoded)
    ensures Prepend(a, Prepend(b, d)) == Prepend(a + b, d)
  {
    assert a + (b + d.body) == (a + b) + d.body;
  }

  /** The lines behind the last chunk, up to an empty one. */
  method ReadTrailers(lineReader: StreamLineReader) returns (ok: bool)
    requires lineReader.Valid()
    modifies lineReader, lineReader.fixedBuffer, lineReader.strm, lineReader.strm.readBuff
    ensures lineReader.Valid()
    ensures match ScanLine("", old(lineReader.strm.Pending()), lineReader.strm.broken)
            case None => ok
            case Some((line, rest)) =>
              match SkipTrailers(line, rest, lineReader.strm.broken)
              case Failure(_) => !ok
              case Success(_, left) => ok && lineReader.strm.Pending() == left
  {
    ghost var input := lineReader.strm.Pending();
    var more := lineReader.GetLine();
    if !more {
      return true;
    }
    ghost var (firstLine, firstRest) := ScanLine("", input, lineReader.strm.broken).value;
    while CString(lineReader.Text()) != CRLF
      invariant lineReader.Valid()
      invariant SkipTrailers(lineReader.Text(), lineReader.strm.Pending(), lineReader.strm.broken)
                == SkipTrailers(firstLine, firstRest, lineReader.strm.broken)
      decreases |lineReader.strm.Pending()|
    {
      if |lineReader.Text()| > HEADER_MAX_LENGTH {
        return false;
      }
      ghost var before := lineReader.strm.Pending();
      more := lineReader.GetLine();
      if !more {
        return false;
      }
      ScanLineConsumes("", before, lineReader.strm.broken);
    }
    return true;
  }

  /** Writer, wire and reader put together, with any bytes behind the coded ones. */
  method SendAndReceive(writes: seq<string>, rest: string, broken: bool) returns (ok: bool, body: string)
    requires Sendable(writes)
    ensures ok && body == Concat(writes)
  {
    hide EncodeChunk, EncodeChunks, GetsOut, Concat, Decode;
    var sink := new ChunkedSink();
    for i := 0 to |writes|
      invariant sink.Valid() && sink.ok && !sink.done && sink.writes == writes[..i]
      invariant fresh(sink)
    {
      var _ := sink.Write(writes[i], |EncodeChunk(writes[i])|);
    }
    sink.Done(3, 2);
    assert writes[..|writes|] == writes;
    var strm := new SocketStream(sink.wire + rest, broken);
    assert strm.Pending() == Wire(writes, rest);
    DecodeOfEncoded(writes, rest, broken);
    ok, body := ReadContentChunked(strm);
  }
}
