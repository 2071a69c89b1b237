/** Byte ranges (sections 14.1.2 and 14.2 of RFC 9110): the check that rewrites the requested ranges
    in place, and the two passes over them that compute the length of a multipart answer and build it.
 */
module ByteRanges {
  import opened Wrappers

  const RANGE_MAX_COUNT := 1024
  const SSIZE_MAX := 0x7FFF_FFFF_FFFF_FFFF
  const MAX_OVERLAPS := 2

  /** A requested range as the header parser leaves it: -1 stands for an absent number. */
  datatype Range = Range(first: int, last: int)

  predicate FromParser(r: Range) {
    -1 <= r.first <= SSIZE_MAX && -1 <= r.last <= SSIZE_MAX
  }

  // ---------------------------------------------------------------- what the check decides

  /** The bytes a range denotes in a body of `len` bytes. */
  function Resolve(r: Range, len: nat): Range {
    if r == Range(-1, -1) then Range(0, len - 1)
    else if r.first == -1 then Range(len - r.last, len - 1)
    else if r.last == -1 || r.last >= len then Range(r.first, len - 1)
    else r
  }

  predicate Satisfiable(r: Range, len: nat) { 0 <= r.first <= r.last < len }

  predicate Satisfied(rs: seq<Range>, len: nat) { forall i :: 0 <= i < |rs| ==> Satisfiable(rs[i], len) }

  function MaxLast(rs: seq<Range>): int {
    if rs == [] then -1
    else
      var front := MaxLast(rs[..|rs| - 1]);
      if rs[|rs| - 1].last > front then rs[|rs| - 1].last else front
  }

  /** How many ranges begin at or before the end of an earlier one. */
  function Overlaps(rs: seq<Range>): nat {
    if rs == [] then 0
    else
      Overlaps(rs[..|rs| - 1]) + if rs[|rs| - 1].first <= MaxLast(rs[..|rs| - 1]) then 1 else 0
  }

  ghost predicate Ascending(rs: seq<Range>) {
    forall i, j :: 0 <= i < j < |rs| ==> rs[i].first < rs[j].first
  }

  ghost predicate Acceptable(rs: seq<Range>, len: nat) {
    && (forall i :: 0 <= i < |rs| ==> Satisfiable(rs[i], len))
    && Ascending(rs)
    && Overlaps(rs) <= 2
  }

  function ResolveAll(rs: seq<Range>, len: nat): (resolved: seq<Range>)
    ensures |resolved| == |rs| && forall i :: 0 <= i < |rs| ==> resolved[i] == Resolve(rs[i], len)
  {
    seq(|rs|, i requires 0 <= i < |rs| => Resolve(rs[i], len))
  }

  /** An unacceptable beginning makes the whole list unacceptable. */
  lemma {:induction false} AcceptablePrefix(rs: seq<Range>, n: nat, len: nat)
    requires n <= |rs| && Acceptable(rs, len)
    ensures Acceptable(rs[..n], len)
  {
    FewerOverlaps(rs, n);
  }

  lemma {:induction false} FewerOverlaps(rs: seq<Range>, n: nat)
    requires n <= |rs|
    ensures Overlaps(rs[..n]) <= Overlaps(rs)
    decreases |rs|
  {
    if n < |rs| {
      assert rs[..|rs| - 1][..n] == rs[..n];
      FewerOverlaps(rs[..|rs| - 1], n);
    } else {
      assert rs[..n] == rs;
    }
  }

  /** The tests on range `n`, behind acceptable ones. */
  predicate Fits(rs: seq<Range>, n: nat, len: nat)
    requires n < |rs|
  {
    && Satisfiable(rs[n], len)
    && (n > 0 ==> rs[n - 1].first < rs[n].first)
    && Overlaps(rs[..n]) + (if rs[n].first <= MaxLast(rs[..n]) then 1 else 0) <= MAX_OVERLAPS
  }

  /** One more range on an acceptable list: the tests decide, and a failed one decides for good. */
  lemma AcceptableSnoc(rs: seq<Range>, n: nat, len: nat)
    requires n < |rs| && Acceptable(rs[..n], len)
    ensures Overlaps(rs[..n + 1]) == Overlaps(rs[..n]) + if rs[n].first <= MaxLast(rs[..n]) then 1 else 0
    ensures MaxLast(rs[..n + 1]) == if rs[n].last > MaxLast(rs[..n]) then rs[n].last else MaxLast(rs[..n])
    ensures if Fits(rs, n, len) then Acceptable(rs[..n + 1], len) else !Acceptable(rs, len)
  {
    var longer := rs[..n + 1];
    assert longer[..n] == rs[..n] && longer[n] == rs[n];
    if Fits(rs, n, len) {
      assert forall i :: 0 <= i < n ==> longer[i] == rs[..n][i];
      assert Ascending(longer);
    } else if Acceptable(rs, len) {
      AcceptablePrefix(rs, n + 1, len);
    }
  }

  /** The rewriting of one range in place. */
  method ResolveInPlace(ranges: array<Range>, i: nat, contentLen: nat)
    requires i < ranges.Length && FromParser(ranges[i])
    modifies ranges
    ensures ranges[i] == Resolve(old(ranges[i]), contentLen)
    ensures forall k :: 0 <= k < ranges.Length && k != i ==> ranges[k] == old(ranges[k])
  {
    var first, last := ranges[i].first, ranges[i].last;
    if first == -1 && last == -1 {
      first, last := 0, contentLen;
    }
    if first == -1 {
      first := contentLen - last;
      last := contentLen - 1;
    }
    if last == -1 || last >= contentLen {
      last := contentLen - 1;
    }
    ranges[i] := Range(first, last);
  }

  /** `range_error`: refuses exactly the lists that are too long, unsatisfiable, out of order or
      overlapping too often, and leaves the resolved ranges behind when it does not refuse. Without
      ranges, or with a status outside 200..299, it looks at nothing. */
  method RangeError(ranges: array<Range>, status: int, contentLen: nat) returns (refused: bool)
    requires contentLen <= SSIZE_MAX
    requires forall i :: 0 <= i < ranges.Length ==> FromParser(ranges[i])
    modifies ranges
    ensures ranges.Length == 0 || !(200 <= status < 300) ==> !refused && ranges[..] == old(ranges[..])
    ensures var applies := ranges.Length > 0 && 200 <= status < 300;
            var resolved := ResolveAll(old(ranges[..]), contentLen);
            applies ==>
              && (refused <==> ranges.Length > 1024 || !Acceptable(resolved, contentLen))
              && (!refused ==> ranges[..] == resolved)
  {
    if !(ranges.Length > 0 && 200 <= status < 300) {
      return false;
    }
    if ranges.Length > RANGE_MAX_COUNT {
      return true;
    }
    refused := CheckRanges(ranges, contentLen);
  }

  /** What the loop remembers of the first `n` ranges. */
  ghost predicate Remembered(rs: seq<Range>, n: nat, len: nat, prevFirst: int, prevLast: int, overlaps: nat) {
    && n <= |rs| && Acceptable(rs[..n], len)
    && prevFirst == (if n == 0 then -1 else rs[n - 1].first)
    && prevLast == MaxLast(rs[..n]) && overlaps == Overlaps(rs[..n])
  }

  /** The tests of the loop on a resolved range. */
  method TestRange(r: Range, len: nat, ghost rs: seq<Range>, ghost n: nat,
                   prevFirst: int, prevLast: int, overlaps: nat)
    returns (refused: bool, prevFirst': int, prevLast': int, overlaps': nat)
    requires n < |rs| && r == rs[n] && Remembered(rs, n, len, prevFirst, prevLast, overlaps)
    ensures if refused then !Acceptable(rs, len) else Remembered(rs, n + 1, len, prevFirst', prevLast', overlaps')
  {
    AcceptableSnoc(rs, n, len);
    prevFirst', prevLast', overlaps' := prevFirst, prevLast, overlaps;
    if !(0 <= r.first <= r.last <= len - 1) {
      refused := true;
      return;
    }
    if r.first <= prevFirst {
      refused := true;
      return;
    }
    if r.first <= prevLast {
      overlaps' := overlaps' + 1;
      if overlaps' > MAX_OVERLAPS {
        refused := true;
        return;
      }
    }
    prevFirst' := if prevFirst > r.first then prevFirst else r.first;
    prevLast' := if prevLast > r.last then prevLast else r.last;
    refused := false;
  }

  method CheckRanges(ranges: array<Range>, contentLen: nat) returns (refused: bool)
    requires forall i :: 0 <= i < ranges.Length ==> FromParser(ranges[i])
    modifies ranges
    ensures var resolved := ResolveAll(old(ranges[..]), contentLen);
            (refused <==> !Acceptable(resolved, contentLen)) && (!refused ==> ranges[..] == resolved)
  {
    ghost var resolved := ResolveAll(ranges[..], contentLen);
    var prevFirst, prevLast, overlaps := -1, -1, 0;
    for i := 0 to ranges.Length
      invariant forall k :: 0 <= k < i ==> ranges[k] == resolved[k]
      invariant forall k :: i <= k < ranges.Length ==> ranges[k] == old(ranges[k])
      invariant overlaps >= 0 && Remembered(resolved, i, contentLen, prevFirst, prevLast, overlaps)
    {
      assert FromParser(ranges[i]);
      ResolveInPlace(ranges, i, contentLen);
      refused, prevFirst, prevLast, overlaps :=
        TestRange(ranges[i], contentLen, resolved, i, prevFirst, prevLast, overlaps);
      if refused {
        return true;
      }
    }
    assert resolved[..ranges.Length] == resolved;
    return false;
  }

  // ---------------------------------------------------------------- compared with the RFC

  /** Section 14.1.2: offset and length of what a range denotes, nothing when it is unsatisfiable. Of an
      empty body a suffix of some length denotes the whole, which is nothing. */
  function Denoted(r: Range, len: nat): Option<(int, int)> {
    if r.first == -1 then
      if r.last == 0 then None
      else if r.last > len then Some((0, len))
      else Some((len - r.last, r.last))
    else if r.first >= len then None
    else Some((r.first, (if r.last == -1 || r.last >= len then len else r.last + 1) - r.first))
  }

  /** What the check makes of a single range. */
  function Granted(r: Range, len: nat): Option<(int, int)> {
    var resolved := Resolve(r, len);
    if Satisfiable(resolved, len) then
      var (offset, length) := OffsetAndLength(resolved, len);
      Some((offset, length))
    else None
  }

  /** The check follows the RFC for every range the parser lets through, and any body, but for one kind:
      a suffix longer than the body denotes the whole body, and is refused here. */
  lemma FollowsRfcIff(r: Range, len: nat)
    requires FromParser(r) && r != Range(-1, -1) && (r.first == -1 || r.last == -1 || r.first <= r.last)
    ensures Granted(r, len) == Denoted(r, len) <==> !(r.first == -1 && r.last > len)
    ensures len > 0 ==> Granted(Range(-1, -1), len) == Some((0, len))
  {
  }

  /** The disagreement happens: the last 11 bytes of 10. */
  lemma LongSuffixIsRefused()
    ensures var r := Range(-1, 11);
            FromParser(r) && !Acceptable([Resolve(r, 10)], 10) && Denoted(r, 10) == Some((0, 10))
  {
    assert !Satisfiable([Resolve(Range(-1, 11), 10)][0], 10);
  }

  // ---------------------------------------------------------------- the multipart answer

  function Decimal(n: nat): string {
    if n < 10 then ["0123456789"[n]] else Decimal(n / 10) + ["0123456789"[n % 10]]
  }

  /** Offset and length of a range; its assertions are the precondition. */
  function OffsetAndLength(r: Range, len: nat): (p: (nat, nat))
    requires Satisfiable(r, len)
    ensures p.0 + p.1 <= len && p.1 > 0
  {
    (r.first, r.last - r.first + 1)
  }

  function ContentRange(r: Range, len: nat): string
    requires Satisfiable(r, len)
  {
    var (st, n) := OffsetAndLength(r, len);
    "bytes " + Decimal(st) + "-" + Decimal(st + n - 1) + "/" + Decimal(len)
  }

  function PartHead(r: Range, boundary: string, contentType: string, len: nat): string
    requires Satisfiable(r, len)
  {
    "--" + boundary + "\r\n"
    + (if contentType == "" then "" else "Content-Type: " + contentType + "\r\n")
    + "Content-Range: " + ContentRange(r, len) + "\r\n" + "\r\n"
  }

  function OnePart(r: Range, boundary: string, contentType: string, body: string): string
    requires Satisfiable(r, |body|)
  {
    PartHead(r, boundary, contentType, |body|) + body[r.first..r.last + 1] + "\r\n"
  }

  /** A multipart answer: each part is its head, exactly the bytes first..last of the body, and CRLF. */
  function Answer(rs: seq<Range>, boundary: string, contentType: string, body: string): string
    requires forall i :: 0 <= i < |rs| ==> Satisfiable(rs[i], |body|)
  {
    Parts(rs, boundary, contentType, body) + "--" + boundary + "--"
  }

  function Parts(rs: seq<Range>, boundary: string, contentType: string, body: string): string
    requires forall i :: 0 <= i < |rs| ==> Satisfiable(rs[i], |body|)
  {
    if rs == [] then ""
    else
      Parts(rs[..|rs| - 1], boundary, contentType, body) + OnePart(rs[|rs| - 1], boundary, contentType, body)
  }

  lemma PartsSnoc(rs: seq<Range>, r: Range, boundary: string, contentType: string, body: string)
    requires Satisfied(rs, |body|) && Satisfiable(r, |body|)
    ensures Parts(rs + [r], boundary, contentType, body)
            == Parts(rs, boundary, contentType, body) + OnePart(r, boundary, contentType, body)
  {
    hide OnePart;
    assert (rs + [r])[..|rs|] == rs;
  }

  lemma PartInPieces(before: string, r: Range, boundary: string, contentType: string, body: string)
    requires Satisfiable(r, |body|)
    ensures before + PartHead(r, boundary, contentType, |body|) + body[r.first..r.last + 1] + "\r\n"
            == before + OnePart(r, boundary, contentType, body)
  {
    hide PartHead;
  }

  /** The pass that builds the answer; `substr` would cut a range that left the body short. */
  method MakeMultipartRangesData(ranges: array<Range>, boundary: string, contentType: string, body: string)
    returns (data: string)
    requires forall i :: 0 <= i < ranges.Length ==> Satisfiable(ranges[i], |body|)
    ensures data == Answer(ranges[..], boundary, contentType, body)
  {
    hide Parts, OnePart, PartHead;
    data := "";
    NoParts(boundary, contentType, body);
    for i := 0 to ranges.Length
      invariant data == Parts(ranges[..i], boundary, contentType, body)
    {
      var r := ranges[i];
      assert ranges[..i + 1] == ranges[..i] + [r];
      PartsSnoc(ranges[..i], r, boundary, contentType, body);
      PartInPieces(data, r, boundary, contentType, body);
      var (offset, length) := OffsetAndLength(r, |body|);
      data := data + PartHead(r, boundary, contentType, |body|);
      data := data + SubStr(body, offset, length);
      data := data + "\r\n";
    }
    assert ranges[..ranges.Length] == ranges[..];
    data := data + "--" + boundary + "--";
  }

  function SubStr(s: string, offset: nat, length: nat): string
    requires offset <= |s|
  {
    if offset + length <= |s| then s[offset..offset + length] else s[offset..]
  }

  /** The pass that only counts. */
  method GetMultipartRangesDataLength(ranges: array<Range>, boundary: string, contentType: string, len: nat)
    returns (dataLength: nat)
    requires forall i :: 0 <= i < ranges.Length ==> Satisfiable(ranges[i], len)
    ensures forall body: string :: |body| == len ==>
              dataLength == |Answer(ranges[..], boundary, contentType, body)|
  {
    dataLength := 0;
    for i := 0 to ranges.Length
      invariant forall body: string :: |body| == len ==>
                  dataLength == |Parts(ranges[..i], boundary, contentType, body)|
    {
      var r := ranges[i];
      assert ranges[..i + 1][..i] == ranges[..i];
      var (_, length) := OffsetAndLength(r, len);
      dataLength := dataLength + |"--"| + |boundary| + |"\r\n"|;
      if contentType != "" {
        dataLength := dataLength + |"Content-Type: "| + |contentType| + |"\r\n"|;
      }
      dataLength := dataLength + |"Content-Range: "| + |ContentRange(r, len)| + |"\r\n"| + |"\r\n"|;
      dataLength := dataLength + length;
      dataLength := dataLength + |"\r\n"|;
    }
    assert ranges[..ranges.Length] == ranges[..];
    dataLength := dataLength + |"--"| + |boundary| + |"--"|;
  }

  // ---------------------------------------------------------------- what a client reads in it

  /** A run of decimal digits behind digits worth `n`: the number, and what follows. */
  function Number(s: string, n: nat): (nat, string) {
    if s != "" && '0' <= s[0] <= '9' then Number(s[1..], 10 * n + (s[0] as int - '0' as int)) else (n, s)
  }

  /** Where the bytes of a part belong: first and last byte, and the length of the whole. */
  datatype Place = Place(first: nat, last: nat, total: nat)

  function ReadPlace(s: string): Option<(Place, string)> {
    if !("bytes " <= s) then None
    else
      var (first, s1) := Number(s[6..], 0);
      if !("-" <= s1) then None
      else
        var (last, s2) := Number(s1[1..], 0);
        if !("/" <= s2) then None
        else
          var (total, s3) := Number(s2[1..], 0);
          Some((Place(first, last, total), s3))
  }

  /** A part: its place, as many bytes as it says, and a line end. */
  function ReadPart(s: string, boundary: string, contentType: string): Option<((Place, string), string)> {
    var head := "--" + boundary + "\r\n" + (if contentType == "" then "" else "Content-Type: " + contentType + "\r\n")
                + "Content-Range: ";
    if !(head <= s) then None
    else
      match ReadPlace(s[|head|..])
      case None => None
      case Some((place, s1)) =>
        if !("\r\n\r\n" <= s1) || place.last < place.first then None
        else
          var (s2, n) := (s1[4..], place.last - place.first + 1);
          if |s2| < n + 2 || s2[n..n + 2] != "\r\n" then None else Some(((place, s2[..n]), s2[n + 2..]))
  }

  /** `count` parts and the closing delimiter, and nothing behind it. */
  function ReadParts(s: string, boundary: string, contentType: string, count: nat): Option<seq<(Place, string)>>
    decreases count
  {
    if count == 0 then (if s == "--" + boundary + "--" then Some([]) else None)
    else
      match ReadPart(s, boundary, contentType)
      case None => None
      case Some((part, rest)) =>
        match ReadParts(rest, boundary, contentType, count - 1)
        case None => None
        case Some(parts) => Some([part] + parts)
  }

  /** What the client has asked for. */
  function Wanted(rs: seq<Range>, body: string): seq<(Place, string)>
    requires forall i :: 0 <= i < |rs| ==> Satisfiable(rs[i], |body|)
  {
    seq(|rs|, i requires 0 <= i < |rs| =>
        assert Satisfiable(rs[i], |body|);
        (Place(rs[i].first, rs[i].last, |body|), body[rs[i].first..rs[i].last + 1]))
  }

  lemma {:induction false} NumberOfDecimal(n: nat, tail: string)
    ensures Number(Decimal(n) + tail, 0) == Number(tail, n)
  {
    var digit := ["0123456789"[n % 10]];
    assert (digit + tail)[1..] == tail && (digit + tail)[0] as int - '0' as int == n % 10;
    if n >= 10 {
      NumberOfDecimal(n / 10, digit + tail);
      assert Decimal(n) + tail == Decimal(n / 10) + (digit + tail);
    }
  }

  lemma DecimalIsRead(n: nat, tail: string)
    requires tail == "" || !('0' <= tail[0] <= '9')
    ensures Number(Decimal(n) + tail, 0) == (n, tail)
  {
    NumberOfDecimal(n, tail);
  }

  /** The field tells a client where the bytes belong. */
  lemma PlaceIsRead(r: Range, len: nat, tail: string)
    requires Satisfiable(r, len) && (tail == "" || tail[0] == '\r')
    ensures ReadPlace(ContentRange(r, len) + tail) == Some((Place(r.first, r.last, len), tail))
  {
    hide Number, Decimal;
    var s3 := Decimal(len) + tail;
    var s2 := Decimal(r.last) + ("/" + s3);
    var s1 := Decimal(r.first) + ("-" + s2);
    assert ContentRange(r, len) + tail == "bytes " + s1;
    assert ("bytes " + s1)[6..] == s1 && ("-" + s2)[1..] == s2 && ("/" + s3)[1..] == s3;
    DecimalIsRead(r.first, "-" + s2);
    DecimalIsRead(r.last, "/" + s3);
    DecimalIsRead(len, tail);
  }

  lemma PartIsRead(r: Range, boundary: string, contentType: string, body: string, tail: string)
    requires Satisfiable(r, |body|)
    ensures ReadPart(OnePart(r, boundary, contentType, body) + tail, boundary, contentType)
            == Some(((Place(r.first, r.last, |body|), body[r.first..r.last + 1]), tail))
  {
    hide ReadPlace, ContentRange;
    var head := "--" + boundary + "\r\n" + (if contentType == "" then "" else "Content-Type: " + contentType + "\r\n")
                + "Content-Range: ";
    var data := body[r.first..r.last + 1];
    var s2 := data + ("\r\n" + tail);
    var s1 := "\r\n\r\n" + s2;
    var s := head + (ContentRange(r, |body|) + s1);
    assert OnePart(r, boundary, contentType, body) + tail == s;
    assert s[|head|..] == ContentRange(r, |body|) + s1 && s1[4..] == s2;
    PlaceIsRead(r, |body|, s1);
    assert s2[..|data|] == data && s2[|data|..|data| + 2] == "\r\n" && s2[|data| + 2..] == tail;
  }

  lemma {:induction false} PartsCons(rs: seq<Range>, boundary: string, contentType: string, body: string)
    requires rs != [] && forall i :: 0 <= i < |rs| ==> Satisfiable(rs[i], |body|)
    ensures Parts(rs, boundary, contentType, body)
            == OnePart(rs[0], boundary, contentType, body) + Parts(rs[1..], boundary, contentType, body)
  {
    hide OnePart, Parts;
    var (n, last) := (|rs| - 1, rs[|rs| - 1]);
    assert rs == rs[..n] + [last];
    PartsSnoc(rs[..n], last, boundary, contentType, body);
    NoParts(boundary, contentType, body);
    if n > 0 {
      PartsCons(rs[..n], boundary, contentType, body);
      assert rs[1..] == rs[..n][1..] + [last];
      PartsSnoc(rs[..n][1..], last, boundary, contentType, body);
    }
  }

  lemma NoParts(boundary: string, contentType: string, body: string)
    ensures Parts([], boundary, contentType, body) == ""
  {
  }

  /** A client that knows the boundary and asks for so many parts gets for every range its place and exactly
      its bytes, whatever the body contains. */
  lemma {:induction false} AnswerIsRead(rs: seq<Range>, boundary: string, contentType: string, body: string)
    requires forall i :: 0 <= i < |rs| ==> Satisfiable(rs[i], |body|)
    ensures ReadParts(Answer(rs, boundary, contentType, body), boundary, contentType, |rs|) == Some(Wanted(rs, body))
  {
    hide ReadPart, OnePart, Parts, Answer, Wanted;
    if rs == [] {
      EmptyAnswer(boundary, contentType, body);
    } else {
      var rest := Answer(rs[1..], boundary, contentType, body);
      AnswerCons(rs, boundary, contentType, body);
      PartIsRead(rs[0], boundary, contentType, body, rest);
      AnswerIsRead(rs[1..], boundary, contentType, body);
    }
  }

  lemma EmptyAnswer(boundary: string, contentType: string, body: string)
    ensures Answer([], boundary, contentType, body) == "--" + boundary + "--" && Wanted([], body) == []
  {
    assert "" + "--" + boundary + "--" == "--" + boundary + "--";
  }

  lemma AnswerCons(rs: seq<Range>, boundary: string, contentType: string, body: string)
    requires rs != [] && forall i :: 0 <= i < |rs| ==> Satisfiable(rs[i], |body|)
    ensures Answer(rs, boundary, contentType, body)
            == OnePart(rs[0], boundary, contentType, body) + Answer(rs[1..], boundary, contentType, body)
    ensures var r := rs[0];
            Wanted(rs, body) == [(Place(r.first, r.last, |body|), body[r.first..r.last + 1])] + Wanted(rs[1..], body)
  {
    hide OnePart, Parts;
    PartsCons(rs, boundary, contentType, body);
    var (part, parts) := (OnePart(rs[0], boundary, contentType, body), Parts(rs[1..], boundary, contentType, body));
    assert part + parts + "--" + boundary + "--" == part + (parts + "--" + boundary + "--");
  }

  /** What is sent for ranges that have passed the check: the whole body unless the answer is partial,
      the bytes first..last for a single range, a multipart answer for more. */
  function Reply(rs: seq<Range>, status: int, boundary: string, contentType: string, body: string): string
    requires status == 206 ==> forall i :: 0 <= i < |rs| ==> Satisfiable(rs[i], |body|)
  {
    if rs == [] || status != 206 then body
    else if |rs| == 1 then
      assert Satisfiable(rs[0], |body|);
      body[rs[0].first..rs[0].last + 1]
    else Answer(rs, boundary, contentType, body)
  }

  /** A request, with ranges or without, from the check to the answer: when the check passes, the
      announced length is the length of what is sent, and a client reads in the answer, for each of its
      ranges, the place and the bytes. */
  method Respond(ranges: array<Range>, status: int, boundary: string, contentType: string, body: string)
    returns (refused: bool, contentLength: nat, contentRange: string, data: string)
    requires |body| <= SSIZE_MAX
    requires forall i :: 0 <= i < ranges.Length ==> FromParser(ranges[i])
    modifies ranges
    ensures !refused && ranges.Length > 0 && 200 <= status < 300 ==> Acceptable(ranges[..], |body|)
    ensures !refused && ranges.Length > 0 && 200 <= status < 300 ==> ranges[..] == ResolveAll(old(ranges[..]), |body|)
    ensures !refused ==> data == Reply(ranges[..], status, boundary, contentType, body)
    ensures !refused ==> contentLength == |data|
    ensures !refused && (ranges.Length == 0 || status != 206) ==> data == body
    ensures !refused && status == 206 && ranges.Length == 1 ==>
              Satisfiable(ranges[0], |body|) && data == body[ranges[0].first..ranges[0].last + 1]
    ensures !refused && status == 206 && ranges.Length == 1 ==>
              ReadPlace(contentRange) == Some((Place(ranges[0].first, ranges[0].last, |body|), ""))
    ensures !refused && status == 206 && ranges.Length > 1 ==>
              Satisfied(ranges[..], |body|) &&
              ReadParts(data, boundary, contentType, ranges.Length) == Some(Wanted(ranges[..], body))
    ensures !(status == 206 && ranges.Length == 1) ==> contentRange == ""
  {
    hide Answer, ReadPlace, ReadParts, Wanted;
    refused := RangeError(ranges, status, |body|);
    contentLength, contentRange, data := 0, "", "";
    if !refused {
      if ranges.Length == 0 || status != 206 {
        contentLength, data := |body|, body;
        return;
      }
      assert forall i :: 0 <= i < ranges.Length ==> ranges[i] == ranges[..][i];
      if ranges.Length == 1 {
        var (offset, length) := OffsetAndLength(ranges[0], |body|);
        contentRange := ContentRange(ranges[0], |body|);
        contentLength, data := length, SubStr(body, offset, length);
        PlaceIsRead(ranges[0], |body|, "");
        assert contentRange + "" == contentRange;
      } else {
        contentLength := GetMultipartRangesDataLength(ranges, boundary, contentType, |body|);
        data := MakeMultipartRangesData(ranges, boundary, contentType, body);
        AnswerIsRead(ranges[..], boundary, contentType, body);
      }
    }
  }
}
