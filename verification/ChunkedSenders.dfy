/** Chunked coding as other senders may write it (section 7.1 of RFC 9112): sizes in either case and with
    leading zeros, chunk extensions, trailers. The reader takes all of it, within its own limits.
 */
module ChunkedSenders {
  import opened Wrappers
  import opened ChunkedCoding

  datatype Digit = Digit(value: nat, upper: bool)

  predicate IsDigit(d: Digit) { d.value < 16 }

  function Glyph(d: Digit): char
    requires IsDigit(d)
  {
    if d.upper then "0123456789ABCDEF"[d.value] else "0123456789abcdef"[d.value]
  }

  function Spelled(ds: seq<Digit>): (s: string)
    requires forall i :: 0 <= i < |ds| ==> IsDigit(ds[i])
    ensures |s| == |ds|
  {
    if ds == [] then "" else Spelled(ds[..|ds| - 1]) + [Glyph(ds[|ds| - 1])]
  }

  function Number(ds: seq<Digit>): nat {
    if ds == [] then 0 else 16 * Number(ds[..|ds| - 1]) + ds[|ds| - 1].value
  }

  datatype Chunk = Chunk(size: seq<Digit>, extension: string, data: string)

  /** What the grammar asks of a size and an extension, and that their line is not too long. */
  predicate IsSizeLine(size: seq<Digit>, extension: string) {
    && size != [] && (forall i :: 0 <= i < |size| ==> IsDigit(size[i]))
    && CR !in extension && (extension == "" || extension[0] == ';' || extension[0] == ' ' || extension[0] == '\t')
    && |size| + |extension| + 2 <= 32768
  }

  predicate IsChunk(c: Chunk) {
    IsSizeLine(c.size, c.extension) && Number(c.size) == |c.data| && 0 < |c.data| < 0xFFFF_FFFF
  }

  function SizeLineText(size: seq<Digit>, extension: string): string
    requires IsSizeLine(size, extension)
  {
    Spelled(size) + extension + CRLF
  }

  function Coded(chunks: seq<Chunk>): string
    requires forall i :: 0 <= i < |chunks| ==> IsChunk(chunks[i])
  {
    if chunks == [] then ""
    else
      var c := chunks[0];
      assert IsChunk(c);
      SizeLineText(c.size, c.extension) + c.data + CRLF + Coded(chunks[1..])
  }

  function Datas(chunks: seq<Chunk>): string {
    if chunks == [] then "" else chunks[0].data + Datas(chunks[1..])
  }

  /** A trailer's line, which the reader drops. */
  predicate IsTrailer(line: string) { line != "" && CR !in line && |line| + 2 <= 8192 }

  function Trailers(lines: seq<string>): string {
    if lines == [] then CRLF else lines[0] + CRLF + Trailers(lines[1..])
  }

  lemma GlyphIsHex(d: Digit)
    requires IsDigit(d)
    ensures HexValue(Glyph(d)) == d.value && Glyph(d) != CR && Glyph(d) != '\0'
  {
  }

  lemma {:induction false} SpelledIsHex(ds: seq<Digit>)
    requires forall i :: 0 <= i < |ds| ==> IsDigit(ds[i])
    ensures AllHex(Spelled(ds)) && ValueOf(0, Spelled(ds)) == Number(ds)
    ensures CR !in Spelled(ds) && '\0' !in Spelled(ds)
  {
    hide Glyph, HexValue;
    if ds != [] {
      var (front, d) := (ds[..|ds| - 1], ds[|ds| - 1]);
      SpelledIsHex(front);
      GlyphIsHex(d);
      assert Spelled(ds)[..|Spelled(ds)| - 1] == Spelled(front);
    }
  }

  lemma {:induction false} CStringBehind(a: string, b: string)
    requires '\0' !in a
    ensures CString(a + b) == a + CString(b)
  {
    if a == "" {
      assert a + b == b;
    } else {
      assert (a + b)[1..] == a[1..] + b;
      CStringBehind(a[1..], b);
    }
  }

  lemma NoDigit(c: char)
    requires c == CR || c == ';' || c == ' ' || c == '\t'
    ensures HexValue(c) == 16 && c != 'x' && c != 'X'
  {
  }

  /** The size line is found as a line, and `strtoul` finds the size in it. */
  lemma SizeLineIsRead(size: seq<Digit>, extension: string, rest: string, broken: bool)
    requires IsSizeLine(size, extension) && Number(size) <= ULONG_MAX
    ensures var line := SizeLineText(size, extension);
            ScanLine("", line + rest, broken) == Some((line, rest)) && Strtoul(CString(line)) == (Number(size), |size|)
  {
    hide Strtoul, HexValue, ScanLine, AllHex, ValueOf;
    var (digits, tail) := (Spelled(size), extension + CRLF);
    SpelledIsHex(size);
    var line := SizeLineText(size, extension);
    assert line == digits + tail;
    ScanLineFinds("", digits + extension, rest, broken);
    assert "" + (digits + extension) + CRLF == line && digits + extension + CRLF + rest == line + rest;
    CStringBehind(digits, tail);
    NoDigit(tail[0]);
    StrtoulOfDigits(digits, CString(tail));
  }

  lemma ChunkIsRead(c: Chunk, rest: string, broken: bool)
    requires IsChunk(c)
    ensures Decode(SizeLineText(c.size, c.extension) + c.data + CRLF + rest, broken)
            == Prepend(c.data, Decode(rest, broken))
  {
    hide Strtoul, CString, ScanLine, SizeLineText;
    var line := SizeLineText(c.size, c.extension);
    var afterSize := c.data + (CRLF + rest);
    assert line + c.data + CRLF + rest == line + afterSize;
    SizeLineIsRead(c.size, c.extension, afterSize, broken);
    TakeAndDrop(c.data, CRLF + rest);
    BlankLine(rest, broken);
  }

  lemma NotBlank(line: string)
    requires line != "" && CR !in line
    ensures CString(line + CRLF) != CRLF
  {
    assert (line + CRLF)[0] == line[0];
    assert CString(line + CRLF) == CRLF ==> CString(line + CRLF)[0] == CR;
  }

  lemma {:induction false} TrailersAreSkipped(lines: seq<string>, rest: string, broken: bool)
    requires forall i :: 0 <= i < |lines| ==> IsTrailer(lines[i])
    ensures match ScanLine("", Trailers(lines) + rest, broken)
            case None => false
            case Some((line, left)) => SkipTrailers(line, left, broken) == Success("", rest)
  {
    hide ScanLine, CString;
    if lines == [] {
      BlankLine(rest, broken);
    } else {
      var (line, more) := (lines[0], Trailers(lines[1..]) + rest);
      assert Trailers(lines) + rest == line + CRLF + more;
      ScanLineFinds("", line, more, broken);
      assert "" + line + CRLF == line + CRLF;
      NotBlank(line);
      TrailersAreSkipped(lines[1..], rest, broken);
    }
  }

  /** Whatever legal coding of its data a sender chooses, the reader gets the data and leaves what follows. */
  lemma {:induction false} LegalCodingIsRead(chunks: seq<Chunk>, zeros: seq<Digit>, extension: string,
                                             trailers: seq<string>, rest: string, broken: bool)
    requires forall i :: 0 <= i < |chunks| ==> IsChunk(chunks[i])
    requires IsSizeLine(zeros, extension) && Number(zeros) == 0
    requires forall i :: 0 <= i < |trailers| ==> IsTrailer(trailers[i])
    ensures Decode(Coded(chunks) + SizeLineText(zeros, extension) + Trailers(trailers) + rest, broken)
            == Success(Datas(chunks), rest)
  {
    hide Strtoul, CString, ScanLine, SizeLineText;
    var last := SizeLineText(zeros, extension) + (Trailers(trailers) + rest);
    if chunks == [] {
      assert "" + SizeLineText(zeros, extension) + Trailers(trailers) + rest == last;
      SizeLineIsRead(zeros, extension, Trailers(trailers) + rest, broken);
      TrailersAreSkipped(trailers, rest, broken);
    } else {
      var c := chunks[0];
      var behind := Coded(chunks[1..]) + SizeLineText(zeros, extension) + Trailers(trailers) + rest;
      assert Coded(chunks) + SizeLineText(zeros, extension) + Trailers(trailers) + rest
          == SizeLineText(c.size, c.extension) + c.data + CRLF + behind;
      ChunkIsRead(c, behind, broken);
      LegalCodingIsRead(chunks[1..], zeros, extension, trailers, rest, broken);
    }
  }

  /** The empty line behind the last chunk may be missing. */
  lemma LastChunkAlone(zeros: seq<Digit>, extension: string, broken: bool)
    requires IsSizeLine(zeros, extension) && Number(zeros) == 0
    ensures Decode(SizeLineText(zeros, extension), broken) == Success("", "")
  {
    hide Strtoul, CString, SizeLineText;
    SizeLineIsRead(zeros, extension, "", broken);
    assert SizeLineText(zeros, extension) + "" == SizeLineText(zeros, extension);
  }

  // ---------------------------------------------------------------- numbers as C allows them

  lemma {:induction false} SpacesAreSkipped(spaces: string, rest: string, i: nat)
    requires i <= |spaces| && forall k :: 0 <= k < |spaces| ==> IsSpace(spaces[k])
    requires rest == "" || !IsSpace(rest[0])
    ensures SkipSpaces(spaces + rest, i) == |spaces|
    decreases |spaces| - i
  {
    hide IsSpace;
    var s := spaces + rest;
    if i < |spaces| {
      assert s[i] == spaces[i];
      SpacesAreSkipped(spaces, rest, i + 1);
    } else if rest != "" {
      assert s[i] == rest[0];
    }
  }

  /** A number found where spaces, sign and prefix end. */
  lemma StrtoulAt(s: string, start: nat, sign: string, prefix: string, value: nat, end: nat)
    requires start + |sign| + |prefix| < |s| && SkipSpaces(s, 0) == start
    requires if sign == "" then s[start] != '-' && s[start] != '+'
             else (sign == "+" || sign == "-") && s[start] == sign[0]
    requires var signed := start + |sign|;
             if prefix == "" then signed + 1 < |s| ==> s[signed + 1] != 'x' && s[signed + 1] != 'X'
             else (prefix == "0x" || prefix == "0X") && s[signed..][..2] == prefix && HexValue(s[signed + 2]) < 16
    requires Digits(s, start + |sign| + |prefix|, 0) == (value, end) && end > start + |sign| + |prefix|
    ensures Strtoul(s) == (if value > 0xFFFF_FFFF then 0xFFFF_FFFF
                           else if sign == "-" && value > 0 then 0x1_0000_0000 - value else value, end)
  {
    hide Digits, SkipSpaces, HexValue;
    var signed := start + |sign|;
    if prefix != "" {
      assert s[signed] == s[signed..][..2][0] && s[signed + 1] == s[signed..][..2][1];
    }
  }

  /** The run of digits behind `front`. */
  lemma DigitsBehind(front: string, hex: string, tail: string)
    requires AllHex(hex) && (tail == "" || HexValue(tail[0]) == 16)
    ensures Digits(front + hex + tail, |front|, 0) == (ValueOf(0, hex), |front + hex|)
  {
    hide HexValue, ValueOf;
    var (s, end) := (front + hex + tail, |front + hex|);
    assert s[|front|..end] == hex;
    DigitsScan(s, |front|, end, 0);
    assert end < |s| ==> s[end] == tail[0];
  }

  /** `strtoul` with base 16 as the C standard has it: spaces, a sign, an optional 0x, digits. A minus sign
      negates modulo 2^32. */
  lemma StrtoulOfNumber(spaces: string, sign: string, prefix: string, hex: string, tail: string)
    requires forall k :: 0 <= k < |spaces| ==> IsBlank(spaces[k])
    requires (sign == "" || sign == "+" || sign == "-") && (prefix == "" || prefix == "0x" || prefix == "0X")
    requires hex != "" && AllHex(hex)
    requires tail == "" || (HexValue(tail[0]) == 16 && tail[0] != 'x' && tail[0] != 'X')
    ensures var n := ValueOf(0, hex);
            Strtoul(spaces + sign + prefix + hex + tail) ==
            (if n > 0xFFFF_FFFF then 0xFFFF_FFFF else if sign == "-" && n > 0 then 0x1_0000_0000 - n else n,
             |spaces + sign + prefix + hex|)
  {
    hide IsSpace, HexValue, ValueOf, Strtoul, Digits, SkipSpaces, AllHex, IsBlank;
    var (s, number) := (spaces + sign + prefix + hex + tail, prefix + hex + tail);
    Assembled(spaces, sign, prefix, hex, tail);
    FirstOfNumber(prefix, hex, tail);
    BlanksAreSpaces(spaces);
    SignsAreNoSpace();
    SpacesAreSkipped(spaces, s[|spaces|..], 0);
    DigitsBehind(spaces + sign + prefix, hex, tail);
    var signed := |spaces| + |sign|;
    assert s[signed] == number[0] && (|number| > 1 ==> s[signed + 1] == number[1]);
    assert |number| > 2 ==> s[signed + 2] == number[2];
    StrtoulAt(s, |spaces|, sign, prefix, ValueOf(0, hex), |spaces + sign + prefix + hex|);
  }

  lemma Assembled(spaces: string, sign: string, prefix: string, hex: string, tail: string)
    requires hex != ""
    ensures var (s, number) := (spaces + sign + prefix + hex + tail, prefix + hex + tail);
            && s == spaces + s[|spaces|..] && (sign != "" ==> s[|spaces|] == sign[0])
            && |s| == |spaces| + |sign| + |number|
            && s[|spaces| + |sign|..][..|prefix|] == prefix
            && forall k: nat :: k < |number| ==> s[|spaces| + |sign| + k] == number[k]
  {
    var number := prefix + hex + tail;
    var s := spaces + sign + prefix + hex + tail;
    assert s == spaces + sign + number;
    assert s[|spaces| + |sign|..] == number;
  }

  lemma FirstOfNumber(prefix: string, hex: string, tail: string)
    requires (prefix == "" || prefix == "0x" || prefix == "0X") && hex != "" && AllHex(hex)
    requires tail == "" || (HexValue(tail[0]) == 16 && tail[0] != 'x' && tail[0] != 'X')
    ensures var number := prefix + hex + tail;
            && !IsSpace(number[0]) && number[0] != '-' && number[0] != '+'
            && (prefix == "" && |number| > 1 ==> number[1] != 'x' && number[1] != 'X')
            && (prefix != "" ==> HexValue(number[2]) < 16)
  {
    hide HexValue;
    var number := prefix + hex + tail;
    PlainDigit(hex[0]);
    if prefix == "" {
      assert number[0] == hex[0];
      if |hex| > 1 {
        PlainDigit(hex[1]);
        assert number[1] == hex[1];
      }
    } else {
      assert number[0] == '0' && number[2] == hex[0];
    }
  }

  predicate IsBlank(c: char) { c in " \t\n\r" || c == 11 as char || c == 12 as char }

  lemma BlanksAreSpaces(spaces: string)
    requires forall k :: 0 <= k < |spaces| ==> IsBlank(spaces[k])
    ensures forall k :: 0 <= k < |spaces| ==> IsSpace(spaces[k])
  {
  }

  lemma SignsAreNoSpace()
    ensures !IsSpace('+') && !IsSpace('-')
  {
  }

  // ---------------------------------------------------------------- what is not taken

  /** A line that begins with none of the characters a number can begin with is no size line. */
  lemma NoSizeIsRefused(c: char, line: string, rest: string, broken: bool)
    requires c !in "0123456789abcdefABCDEF" && c !in "+- \t\n\r" && c != 11 as char && c != 12 as char
    requires CR !in line && |line| < 32760
    ensures Decode([c] + line + CRLF + rest, broken) == Failure("")
  {
    hide ScanLine;
    HexIsListed(c);
    var text := [c] + line;
    ScanLineFinds("", text, rest, broken);
    assert "" + text + CRLF == text + CRLF && text + CRLF + rest == [c] + line + CRLF + rest;
    var s := CString(text + CRLF);
    assert (text + CRLF)[0] == c;
    assert s == "" || s[0] == c;
    assert SkipSpaces(s, 0) == 0;
    assert Digits(s, 0, 0) == (0, 0);
  }

  lemma HexIsListed(c: char)
    ensures HexValue(c) < 16 ==> c in "0123456789abcdefABCDEF"
  {
  }

  /** A chunk whose data is followed by anything but a line end gets its data out, and is a failure. */
  lemma ChunkWithoutLineEnd(c: Chunk, other: string, rest: string, broken: bool)
    requires IsChunk(c) && other != "" && CR !in other && |other| + 2 <= 32768
    ensures Decode(SizeLineText(c.size, c.extension) + c.data + other + CRLF + rest, broken) == Failure(c.data)
  {
    hide Strtoul, CString, ScanLine, SizeLineText;
    var line := SizeLineText(c.size, c.extension);
    var afterSize := c.data + (other + CRLF + rest);
    assert line + c.data + other + CRLF + rest == line + afterSize;
    SizeLineIsRead(c.size, c.extension, afterSize, broken);
    TakeAndDrop(c.data, other + CRLF + rest);
    ScanLineFinds("", other, rest, broken);
    assert "" + other + CRLF == other + CRLF;
    NotBlank(other);
  }

  /** A line that has no end within 32768 bytes is given up. */
  lemma {:induction false} LongLineIsGivenUp(line: string, text: string, rest: string, broken: bool)
    requires CR !in text && CR !in line && |line| + |text| >= 32768
    ensures ScanLine(line, text + rest, broken) == None
    decreases |text|
  {
    if |line| < 32768 {
      assert (text + rest)[0] == text[0] && (text + rest)[1..] == text[1..] + rest;
      LongLineIsGivenUp(line + [text[0]], text[1..], rest, broken);
    }
  }

  /** So is a trailer section with a line of more than 8192 bytes. */
  lemma LongTrailerIsRefused(line: string, rest: string, broken: bool)
    requires line != "" && CR !in line && |line| + 2 > 8192
    ensures SkipTrailers(line + CRLF, rest, broken) == Failure("")
  {
    NotBlank(line);
  }
}
