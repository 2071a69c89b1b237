/** Base64 (section 4 of RFC 4648) as the HTTP library encodes it: bits are shifted through a 32-bit
    accumulator that is never masked and therefore wraps, and the digits are taken from its low end.
 */
module Base64 {
  import opened Wrappers

  type Byte = b: nat | b < 256
  type Sextet = d: nat | d < 64

  // ---------------------------------------------------------------- three bytes, four sextets

  function First(a: Byte): Sextet { a / 4 }

  function Second(a: Byte, b: Byte): Sextet { a % 4 * 16 + b / 16 }

  function Third(b: Byte, c: Byte): Sextet { b % 16 * 4 + c / 64 }

  function Fourth(c: Byte): Sextet { c % 64 }

  function Upper(p: Sextet, q: Sextet): Byte { p * 4 + q / 16 }

  function Middle(q: Sextet, r: Sextet): Byte { q % 16 * 16 + r / 4 }

  function Lower(r: Sextet, s: Sextet): Byte { r % 4 * 64 + s }

  lemma BytesComeBack(a: Byte, b: Byte, c: Byte)
    ensures Upper(First(a), Second(a, b)) == a
    ensures Middle(Second(a, b), Third(b, c)) == b
    ensures Lower(Third(b, c), Fourth(c)) == c
    ensures Second(a, 0) % 16 == 0 && Third(b, 0) % 4 == 0
  {
  }

  // ---------------------------------------------------------------- the alphabet

  /** Table 1 of the RFC. */
  function Digit(d: Sextet): char {
    if d < 26 then 'A' + d as char
    else if d < 52 then 'a' + (d - 26) as char
    else if d < 62 then '0' + (d - 52) as char
    else if d == 62 then '+' else '/'
  }

  /** The encoder's lookup string, cut into four, spells that table. */
  method Lookup(d: Sextet) returns (c: char)
    ensures c == Digit(d)
  {
    if d < 16 {
      c := "ABCDEFGHIJKLMNOP"[d];
    } else if d < 32 {
      c := "QRSTUVWXYZabcdef"[d - 16];
    } else if d < 48 {
      c := "ghijklmnopqrstuv"[d - 32];
    } else {
      c := "wxyz0123456789+/"[d - 48];
    }
  }

  function DigitValue(c: char): Option<Sextet> {
    if 'A' <= c <= 'Z' then Some((c - 'A') as int)
    else if 'a' <= c <= 'z' then Some((c - 'a') as int + 26)
    else if '0' <= c <= '9' then Some((c - '0') as int + 52)
    else if c == '+' then Some(62)
    else if c == '/' then Some(63)
    else None
  }

  lemma DigitInverts(d: Sextet)
    ensures DigitValue(Digit(d)) == Some(d) && Digit(d) != '='
  {
  }

  // ---------------------------------------------------------------- the encoding, as the RFC has it

  function Quad(a: Byte, b: Byte, c: Byte): (s: string)
    ensures |s| == 4
  {
    [Digit(First(a)), Digit(Second(a, b)), Digit(Third(b, c)), Digit(Fourth(c))]
  }

  function PaddedOne(a: Byte): (s: string)
    ensures |s| == 4
  {
    [Digit(First(a)), Digit(Second(a, 0)), '=', '=']
  }

  function PaddedTwo(a: Byte, b: Byte): (s: string)
    ensures |s| == 4
  {
    [Digit(First(a)), Digit(Second(a, b)), Digit(Third(b, 0)), '=']
  }

  /** The digits of the first `groups` groups of three bytes. */
  function FullGroups(bytes: seq<Byte>, groups: nat): (s: string)
    requires 3 * groups <= |bytes|
    ensures |s| == 4 * groups
  {
    if groups == 0 then ""
    else
      var n := 3 * groups;
      FullGroups(bytes, groups - 1) + Quad(bytes[n - 3], bytes[n - 2], bytes[n - 1])
  }

  function Encode(bytes: seq<Byte>): string {
    var (groups, n) := (|bytes| / 3, |bytes|);
    if n == 3 * groups then FullGroups(bytes, groups)
    else if n == 3 * groups + 1 then FullGroups(bytes, groups) + PaddedOne(bytes[n - 1])
    else FullGroups(bytes, groups) + PaddedTwo(bytes[n - 2], bytes[n - 1])
  }

  /** Four digits for every three bytes, begun or complete. */
  lemma EncodedLength(bytes: seq<Byte>)
    ensures |Encode(bytes)| == (|bytes| + 2) / 3 * 4
  {
    hide FullGroups, PaddedOne, PaddedTwo;
    var (groups, extra) := (|bytes| / 3, |bytes| % 3);
    assert |bytes| == 3 * groups + extra;
    assert (|bytes| + 2) / 3 == if extra == 0 then groups else groups + 1;
  }

  // ---------------------------------------------------------------- a decoder

  /** The bytes of one group of four characters; padding is allowed in the last, over zero bits only. */
  function DecodeGroup(g: string, last: bool): Option<seq<Byte>>
    requires |g| == 4
  {
    var (p, q, r, s) := (DigitValue(g[0]), DigitValue(g[1]), DigitValue(g[2]), DigitValue(g[3]));
    if p.None? || q.None? then None
    else if r.Some? && s.Some? then
      Some([Upper(p.value, q.value), Middle(q.value, r.value), Lower(r.value, s.value)])
    else if last && r.Some? && g[3] == '=' && r.value % 4 == 0 then
      Some([Upper(p.value, q.value), Middle(q.value, r.value)])
    else if last && g[2] == '=' && g[3] == '=' && q.value % 16 == 0 then
      Some([Upper(p.value, q.value)])
    else None
  }

  /** The bytes of the first `groups` groups of four characters, none of them padded. */
  function DecodeFull(s: string, groups: nat): Option<seq<Byte>>
    requires 4 * groups <= |s|
  {
    if groups == 0 then Some([])
    else
      var (front, group) := (DecodeFull(s, groups - 1), DecodeGroup(s[4 * groups - 4..4 * groups], false));
      if front.Some? && group.Some? then Some(front.value + group.value) else None
  }

  function Decode(s: string): Option<seq<Byte>> {
    var groups := |s| / 4;
    if |s| != 4 * groups then None
    else if groups == 0 then Some([])
    else
      var (front, group) := (DecodeFull(s, groups - 1), DecodeGroup(s[4 * groups - 4..], true));
      if front.Some? && group.Some? then Some(front.value + group.value) else None
  }

  lemma GroupOfDigits(p: Sextet, q: Sextet, r: Sextet, s: Sextet, last: bool)
    ensures DecodeGroup([Digit(p), Digit(q), Digit(r), Digit(s)], last)
            == Some([Upper(p, q), Middle(q, r), Lower(r, s)])
    ensures r % 4 == 0 ==> DecodeGroup([Digit(p), Digit(q), Digit(r), '='], true) == Some([Upper(p, q), Middle(q, r)])
    ensures q % 16 == 0 ==> DecodeGroup([Digit(p), Digit(q), '=', '='], true) == Some([Upper(p, q)])
  {
    DigitInverts(p);
    DigitInverts(q);
    DigitInverts(r);
    DigitInverts(s);
  }

  lemma GroupsInvert(a: Byte, b: Byte, c: Byte, last: bool)
    ensures DecodeGroup(Quad(a, b, c), last) == Some([a, b, c])
    ensures DecodeGroup(PaddedTwo(a, b), true) == Some([a, b])
    ensures DecodeGroup(PaddedOne(a), true) == Some([a])
  {
    GroupOfDigits(First(a), Second(a, b), Third(b, c), Fourth(c), last);
    BytesComeBack(a, b, c);
    GroupOfDigits(First(a), Second(a, b), Third(b, 0), 0, last);
    BytesComeBack(a, b, 0);
    GroupOfDigits(First(a), Second(a, 0), 0, 0, last);
    BytesComeBack(a, 0, 0);
  }

  lemma {:induction false} FullGroupsInvert(bytes: seq<Byte>, groups: nat, tail: string)
    requires 3 * groups <= |bytes|
    ensures DecodeFull(FullGroups(bytes, groups) + tail, groups) == Some(bytes[..3 * groups])
  {
    hide Quad, DecodeGroup;
    if groups > 0 {
      var n := 3 * groups;
      var (a, b, c) := (bytes[n - 3], bytes[n - 2], bytes[n - 1]);
      var s := FullGroups(bytes, groups) + tail;
      FullGroupsInvert(bytes, groups - 1, Quad(a, b, c) + tail);
      assert s == FullGroups(bytes, groups - 1) + (Quad(a, b, c) + tail);
      assert s[4 * groups - 4..4 * groups] == Quad(a, b, c);
      GroupsInvert(a, b, c, false);
      assert bytes[..n] == bytes[..n - 3] + [a, b, c];
    }
  }

  lemma DecodeBehindFull(bytes: seq<Byte>, groups: nat, group: string, rest: seq<Byte>)
    requires 3 * groups <= |bytes| && |group| == 4
    requires DecodeGroup(group, true) == Some(rest)
    ensures Decode(FullGroups(bytes, groups) + group) == Some(bytes[..3 * groups] + rest)
  {
    hide Quad, DecodeGroup, FullGroups;
    var s := FullGroups(bytes, groups) + group;
    assert |s| == 4 * groups + 4;
    FullGroupsInvert(bytes, groups, group);
    assert s[4 * groups..] == group;
  }

  /** A decoder gets every byte string back. */
  lemma EncodeInverts(bytes: seq<Byte>)
    ensures Decode(Encode(bytes)) == Some(bytes)
  {
    hide Quad, PaddedOne, PaddedTwo, FullGroups, Decode, DecodeGroup;
    var (groups, n) := (|bytes| / 3, |bytes|);
    if n == 0 {
      NothingEncoded();
    } else if n == 3 * groups + 1 {
      var a := bytes[n - 1];
      GroupsInvert(a, 0, 0, true);
      DecodeBehindFull(bytes, groups, PaddedOne(a), [a]);
      assert bytes == bytes[..n - 1] + [a];
    } else if n == 3 * groups + 2 {
      var (a, b) := (bytes[n - 2], bytes[n - 1]);
      GroupsInvert(a, b, 0, true);
      DecodeBehindFull(bytes, groups, PaddedTwo(a, b), [a, b]);
      assert bytes == bytes[..n - 2] + [a, b];
    } else {
      LastGroupFull(bytes, groups);
    }
  }

  lemma LastGroupFull(bytes: seq<Byte>, groups: nat)
    requires 0 < groups && |bytes| == 3 * groups
    ensures Decode(FullGroups(bytes, groups)) == Some(bytes)
  {
    hide Quad, Decode, DecodeGroup;
    var n := 3 * groups;
    var (a, b, c) := (bytes[n - 3], bytes[n - 2], bytes[n - 1]);
    GroupsInvert(a, b, c, true);
    DecodeBehindFull(bytes, groups - 1, Quad(a, b, c), [a, b, c]);
    assert bytes == bytes[..n - 3] + [a, b, c];
  }

  lemma NothingEncoded()
    ensures Decode(Encode([])) == Some([])
  {
    hide DecodeGroup;
    assert Encode([]) == "";
  }

  // ---------------------------------------------------------------- the accumulator

  lemma AtLeast(k: int, d: int)
    requires k >= 1 && d >= 1
    ensures k * d >= d
  {
  }

  lemma OneQuotient(p: int, q: int, s: int, r: int, d: int)
    requires 0 <= r < d && 0 <= s < d && p * d + s == q * d + r
    ensures p == q && r == s
  {
    if p > q {
      AtLeast(p - q, d);
    } else if p < q {
      AtLeast(q - p, d);
    }
  }

  lemma Quotient(x: int, d: int, q: int, r: int)
    requires 0 <= r < d && x == q * d + r
    ensures x / d == q && x % d == r
  {
    OneQuotient(x / d, q, x % d, r, d);
  }

  /** An int of 32 bits, in two's complement. */
  function Wrap32(x: int): (w: int)
    ensures -0x8000_0000 <= w < 0x8000_0000
    ensures w % 0x1_0000 == x % 0x1_0000
  {
    var k := (x + 0x8000_0000) / 0x1_0000_0000;
    SameLowHalf(x, -k);
    x - k * 0x1_0000_0000
  }

  lemma SameLowHalf(x: int, k: int)
    ensures (x + k * 0x1_0000_0000) % 0x1_0000 == x % 0x1_0000
  {
    var (q, r) := (x / 0x1_0000, x % 0x1_0000);
    assert x + k * 0x1_0000_0000 == (q + k * 0x1_0000) * 0x1_0000 + r;
  }

  /** `(val << 8) + c` */
  function ShiftIn(val: int, c: Byte): int {
    Wrap32(val * 256 + c)
  }

  /** One more byte moves the two at the low end up by one place. */
  lemma ShiftInMoves(val: int, hi: int, lo: int, c: int)
    requires 0 <= lo < 256 && 0 <= c < 256
    requires val % 0x1_0000 == hi * 256 + lo
    ensures ShiftIn(val, c) % 0x1_0000 == lo * 256 + c
  {
    hide Wrap32;
    var q := val / 0x1_0000;
    Quotient(val * 256 + c, 0x1_0000, q * 256 + hi, lo * 256 + c);
  }

  /** `(val >> k) & 0x3F` for the shifts that occur: the shift is arithmetic, and `/` rounds down. */
  function SixBits(val: int, k: int): Sextet
    requires k == 0 || k == 2 || k == 4 || k == 6
  {
    (if k == 0 then val else if k == 2 then val / 4 else if k == 4 then val / 16 else val / 64) % 64
  }

  /** Six bits taken anywhere in the low half depend on the last two bytes alone. */
  lemma SixBitsOf(val: int, hi: int, lo: int)
    requires 0 <= hi < 256 && 0 <= lo < 256
    requires val % 0x1_0000 == hi * 256 + lo
    ensures SixBits(val, 0) == Fourth(lo) && SixBits(val, 2) == First(lo)
    ensures SixBits(val, 4) == Second(hi, lo) && SixBits(val, 6) == Third(hi, lo)
  {
    var q := val / 0x1_0000;
    Quotient(val, 64, q * 1024 + hi * 4 + lo / 64, lo % 64);
    Quotient(val, 4, q * 0x4000 + hi * 64 + lo / 4, lo % 4);
    Quotient(val / 4, 64, q * 256 + hi, lo / 4);
    Quotient(val, 16, q * 0x1000 + hi * 16 + lo / 16, lo % 16);
    Quotient(val / 16, 64, q * 64 + hi / 4, hi % 4 * 16 + lo / 16);
    Quotient(val / 64, 64, q * 16 + hi / 16, hi % 16 * 4 + lo / 64);
  }

  // ---------------------------------------------------------------- the encoder

  /** What the loop has put out after so many complete groups and the begun bytes of the next. */
  function Emitted(bytes: seq<Byte>, groups: nat, begun: nat): (s: string)
    requires 3 * groups + begun <= |bytes| && begun < 3
    ensures |s| == 4 * groups + begun
  {
    var i := 3 * groups + begun;
    FullGroups(bytes, groups) +
    (if begun == 0 then ""
     else if begun == 1 then [Digit(First(bytes[i - 1]))]
     else [Digit(First(bytes[i - 2])), Digit(Second(bytes[i - 2], bytes[i - 1]))])
  }

  /** The byte that came `back` places ago, or the zero the accumulator started with. */
  function Earlier(bytes: seq<Byte>, i: nat, back: nat): Byte
    requires i <= |bytes|
  {
    if 0 < back <= i then bytes[i - back] else 0
  }

  /** The low half of the accumulator after `i` bytes. */
  ghost predicate Holds(val: int, bytes: seq<Byte>, i: nat)
    requires i <= |bytes|
  {
    val % 0x1_0000 == Earlier(bytes, i, 2) as int * 256 + Earlier(bytes, i, 1)
  }

  lemma HoldsNext(val: int, bytes: seq<Byte>, i: nat)
    requires i < |bytes| && Holds(val, bytes, i)
    ensures Holds(ShiftIn(val, bytes[i]), bytes, i + 1)
  {
    ShiftInMoves(val, Earlier(bytes, i, 2), Earlier(bytes, i, 1), bytes[i]);
  }

  /** The digits that the next byte makes available, and where they stand in the accumulator. */
  lemma EmittedNext(bytes: seq<Byte>, groups: nat, begun: nat, val: int)
    requires begun < 3 && 3 * groups + begun < |bytes| && Holds(val, bytes, 3 * groups + begun + 1)
    ensures begun == 0 ==> Emitted(bytes, groups, 1) == Emitted(bytes, groups, 0) + [Digit(SixBits(val, 2))]
    ensures begun == 1 ==> Emitted(bytes, groups, 2) == Emitted(bytes, groups, 1) + [Digit(SixBits(val, 4))]
    ensures begun == 2 ==>
              Emitted(bytes, groups + 1, 0)
              == Emitted(bytes, groups, 2) + [Digit(SixBits(val, 6))] + [Digit(SixBits(val, 0))]
  {
    hide First, Second, Third, Fourth, Digit, SixBits;
    var i := 3 * groups + begun;
    SixBitsOf(val, Earlier(bytes, i + 1, 2), bytes[i]);
    if begun == 2 {
      var (a, b, c) := (bytes[i - 2], bytes[i - 1], bytes[i]);
      assert Quad(a, b, c) == [Digit(First(a)), Digit(Second(a, b))] + [Digit(Third(b, c))] + [Digit(Fourth(c))];
    }
  }

  /** `base64_encode`. For inputs over four bytes the accumulator wraps; the text is right all the same. */
  method Base64Encode(input: seq<Byte>) returns (out: string)
    ensures out == Encode(input)
  {
    hide Digit, SixBits, ShiftIn, Holds, Encode;
    out := "";
    var val, valb := 0, -6;
    ghost var groups, begun: nat := 0, 0;
    NothingHeld(input);
    for i := 0 to |input|
      invariant i == 3 * groups + begun && begun < 3 && valb == begun * 2 - 6
      invariant Holds(val, input, i)
      invariant out == Emitted(input, groups, begun)
    {
      HoldsNext(val, input, i);
      val := ShiftIn(val, input[i]);
      valb := valb + 8;
      EmittedNext(input, groups, begun, val);
      out, valb := DrainDigits(out, val, valb);
      groups, begun := if begun == 2 then groups + 1 else groups, if begun == 2 then 0 else begun + 1;
    }
    out := Finish(input, groups, begun, out, val, valb);
  }

  lemma NothingHeld(bytes: seq<Byte>)
    ensures Holds(0, bytes, 0)
  {
  }

  /** The inner loop: digits as long as six bits are there. */
  method DrainDigits(before: string, val: int, start: int) returns (out: string, valb: int)
    requires start == 2 || start == 4 || start == 6
    ensures start < 6 ==> valb == start - 6 && out == before + [Digit(SixBits(val, start))]
    ensures start == 6 ==> valb == -6 && out == before + [Digit(SixBits(val, 6))] + [Digit(SixBits(val, 0))]
  {
    hide Digit, SixBits;
    out, valb := before, start;
    while valb >= 0
      invariant valb == start || valb == start - 6 || (start == 6 && valb == -6)
      invariant valb == start ==> out == before
      invariant valb == start - 6 ==> out == before + [Digit(SixBits(val, start))]
      invariant start == 6 && valb == -6 ==> out == before + [Digit(SixBits(val, 6))] + [Digit(SixBits(val, 0))]
    {
      var c := Lookup(SixBits(val, valb));
      out := out + [c];
      valb := valb - 6;
    }
  }

  /** The bits left over are the last digit of a padded group. */
  lemma LeftOverBits(input: seq<Byte>, groups: nat, begun: nat, val: int)
    requires |input| == 3 * groups + begun && 0 < begun < 3 && Holds(val, input, |input|)
    ensures var shifted := ShiftIn(val, 0);
            Encode(input) == Emitted(input, groups, begun)
              + (if begun == 1 then [Digit(SixBits(shifted, 4))] + "==" else [Digit(SixBits(shifted, 6))] + "=")
  {
    hide First, Second, Third, Fourth, Digit, SixBits;
    var n := |input|;
    ShiftInMoves(val, Earlier(input, n, 2), input[n - 1], 0);
    SixBitsOf(ShiftIn(val, 0), input[n - 1], 0);
  }

  lemma NothingLeftOver(input: seq<Byte>, groups: nat)
    requires |input| == 3 * groups
    ensures Encode(input) == Emitted(input, groups, 0)
  {
    hide FullGroups;
  }

  /** The bits left over, and the padding. */
  method Finish(ghost input: seq<Byte>, ghost groups: nat, ghost begun: nat, before: string, val: int, valb: int)
    returns (out: string)
    requires |input| == 3 * groups + begun && begun < 3 && valb == begun * 2 - 6
    requires before == Emitted(input, groups, begun) && Holds(val, input, |input|)
    ensures out == Encode(input)
  {
    hide Digit, SixBits, ShiftIn, Holds, Emitted, FullGroups, Encode;
    out := before;
    if valb > -6 {
      LeftOverBits(input, groups, begun, val);
      var c := Lookup(SixBits(ShiftIn(val, 0), valb + 8));
      out := out + [c];
    } else {
      NothingLeftOver(input, groups);
    }
    out := Pad(out, groups, if begun == 0 then 0 else begun + 1);
  }

  /** `while (out.size() % 4) out.push_back('=')`, for a text that is at most two short. */
  method Pad(before: string, ghost q: nat, ghost r: nat) returns (out: string)
    requires |before| == 4 * q + r && (r == 0 || r == 2 || r == 3)
    ensures out == if r == 0 then before else before + (if r == 3 then "=" else "==")
  {
    out := before;
    ghost var added := 0;
    assert before + "" == before && before + "=" + "=" == before + "==";
    while |out| % 4 != 0
      invariant |out| == 4 * q + r + added
      invariant added == 0 || (added == 1 && r >= 2) || (added == 2 && r == 2)
      invariant out == before + (if added == 0 then "" else if added == 1 then "=" else "==")
      decreases 4 * q + 4 - |out|
    {
      out, added := out + "=", added + 1;
    }
  }
}
