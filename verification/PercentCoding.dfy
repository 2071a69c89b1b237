/** Percent-encoding of query parameters (section 2.1 of RFC 3986), and the HTTP library's decoder, which
    also knows '+' for a blank and the non-standard %uXXXX. Characters are bytes.
 */
module PercentCoding {
  import opened Wrappers

  predicate IsBytes(s: string) {
    forall k :: 0 <= k < |s| ==> s[k] < 256 as char
  }

  // ---------------------------------------------------------------- encoder

  predicate Unescaped(c: char) {
    || 'A' <= c <= 'Z'
    || 'a' <= c <= 'z'
    || '0' <= c <= '9'
    || c in {'-', '_', '.', '!', '~', '*', '\'', '(', ')'}
  }

  function UpperHex(d: nat): char
    requires d < 16
  {
    if d < 10 then '0' + d as char else 'A' + (d - 10) as char
  }

  function EncodeChar(c: char): string
    requires c < 256 as char
  {
    if Unescaped(c) then [c] else ['%', UpperHex(c as int / 16), UpperHex(c as int % 16)]
  }

  function Encoded(value: string): string
    requires IsBytes(value)
  {
    if value == "" then "" else EncodeChar(value[0]) + Encoded(value[1..])
  }

  lemma {:induction false} EncodedSnoc(value: string, c: char)
    requires IsBytes(value) && c < 256 as char
    ensures IsBytes(value + [c]) && Encoded(value + [c]) == Encoded(value) + EncodeChar(c)
  {
    if value == "" {
      assert [c][1..] == "" && value + [c] == [c];
    } else {
      EncodedSnoc(value[1..], c);
      assert (value + [c])[1..] == value[1..] + [c];
    }
  }

  method EncodeQueryParam(value: string) returns (escaped: string)
    requires IsBytes(value)
    ensures escaped == Encoded(value)
  {
    escaped := "";
    for i := 0 to |value|
      invariant escaped == Encoded(value[..i])
    {
      EncodedSnoc(value[..i], value[i]);
      assert value[..i + 1] == value[..i] + [value[i]];
      if Unescaped(value[i]) {
        escaped := escaped + [value[i]];
      } else {
        escaped := escaped + ['%', UpperHex(value[i] as int / 16), UpperHex(value[i] as int % 16)];
      }
    }
    assert value[..|value|] == value;
  }

  /** An encoded value has nothing in it that a query string is split at, no blank and no '+'. */
  lemma {:induction false} EncodedIsInert(value: string)
    requires IsBytes(value)
    ensures forall k :: 0 <= k < |Encoded(value)| ==> Inert(Encoded(value)[k])
  {
    if value != "" {
      EncodedIsInert(value[1..]);
      CharIsInert(value[0]);
    }
  }

  predicate Inert(c: char) {
    && ' ' < c < 127 as char
    && c != '&' && c != '=' && c != '+' && c != '#' && c != ';' && c != '?' && c != '/' && c != ':' && c != '"'
  }

  lemma CharIsInert(c: char)
    requires c < 256 as char
    ensures forall k :: 0 <= k < |EncodeChar(c)| ==> Inert(EncodeChar(c)[k])
  {
  }

  /** Which bytes stand for themselves, the unreserved ones of section 2.3 of RFC 3986 and five more, and
      how the others are spelled. */
  lemma EncodedByte(c: char)
    requires c < 256 as char
    ensures var (n, digits) := (c as nat, "0123456789ABCDEF");
            EncodeChar(c) == if 'A' <= c <= 'Z' || 'a' <= c <= 'z' || '0' <= c <= '9' || c in "-._~" || c in "!*'()"
                             then [c] else ['%', digits[n / 16], digits[n % 16]]
  {
    var (high, low) := (c as nat / 16, c as nat % 16);
    assert UpperHex(high) == "0123456789ABCDEF"[high] && UpperHex(low) == "0123456789ABCDEF"[low];
  }

  // ---------------------------------------------------------------- decoder

  function HexValue(c: char): Option<nat> {
    if '0' <= c <= '9' then Some((c - '0') as int)
    else if 'A' <= c <= 'F' then Some((c - 'A') as int + 10)
    else if 'a' <= c <= 'f' then Some((c - 'a') as int + 10)
    else None
  }

  /** `from_hex_to_i`: exactly `count` digits, none of them past the end. */
  function HexDigits(s: string, i: nat, count: nat, val: nat): Option<nat>
    decreases count
  {
    if count == 0 then Some(val)
    else if i >= |s| then None
    else
      var v := HexValue(s[i]);
      if v.None? then None else HexDigits(s, i + 1, count - 1, val * 16 + v.value)
  }

  lemma {:induction false} HexDigitsBound(s: string, i: nat, count: nat, val: nat, bound: nat)
    requires val < bound
    ensures HexDigits(s, i, count, val).Some? ==> i + count <= |s| || count == 0
    ensures count == 2 && val == 0 && HexDigits(s, i, count, val).Some? ==> HexDigits(s, i, count, val).value < 256
    decreases count
  {
    if count > 0 && i < |s| && HexValue(s[i]).Some? {
      var next := val * 16 + HexValue(s[i]).value;
      HexDigitsBound(s, i + 1, count - 1, next, next + 1);
    }
  }

  /** `to_utf8`, for the codes that four digits can spell; a surrogate yields nothing. */
  function Utf8(code: nat): string {
    if code < 0x80 then [code as char]
    else if code < 0x800 then [(0xC0 + code / 64 % 32) as char, (0x80 + code % 64) as char]
    else if 0xD800 <= code < 0xE000 then ""
    else [(0xE0 + code / 4096 % 16) as char, (0x80 + code / 64 % 64) as char, (0x80 + code % 64) as char]
  }

  datatype Piece = Piece(text: string, consumed: nat)

  /** What the decoder puts out for the front of `s`, and how far it moves on. */
  function Front(s: string, plusIsSpace: bool): (p: Piece)
    requires s != ""
    ensures 1 <= p.consumed <= |s|
  {
    if s[0] == '%' && 1 < |s| then
      var (at, count) := if s[1] == 'u' then (2, 4) else (1, 2);
      var val := HexDigits(s, at, count, 0);
      HexDigitsBound(s, at, count, 0, 1);
      if val.None? then Piece([s[0]], 1)
      else if s[1] == 'u' then Piece(Utf8(val.value), 6)
      else Piece([val.value as char], 3)
    else if plusIsSpace && s[0] == '+' then Piece(" ", 1)
    else Piece([s[0]], 1)
  }

  function Decoded(s: string, plusIsSpace: bool): string {
    if s == "" then ""
    else
      var p := Front(s, plusIsSpace);
      p.text + Decoded(s[p.consumed..], plusIsSpace)
  }

  /** `from_hex_to_i`; a read at the very end of the string yields NUL, which is no digit. */
  method FromHexToI(s: string, start: nat, count: nat) returns (val: Option<nat>)
    ensures count > 0 ==> val == HexDigits(s, start, count, 0)
  {
    hide HexValue;
    if start >= |s| {
      return None;
    }
    var v, i := 0, start;
    while i < start + count
      invariant start <= i <= start + count
      invariant HexDigits(s, start, count, 0) == HexDigits(s, i, start + count - i, v)
    {
      if i >= |s| {
        return None;
      }
      var digit := HexValue(s[i]);
      if digit.None? {
        return None;
      }
      i, v := i + 1, v * 16 + digit.value;
    }
    return Some(v);
  }

  /** What one turn of the decoder's loop appends, and the index it goes on with. */
  method Turn(s: string, i: nat, plusIsSpace: bool) returns (text: string, next: nat)
    requires i < |s|
    ensures i < next <= |s| && Front(s[i..], plusIsSpace) == Piece(text, next - i)
  {
    hide HexDigits, Utf8;
    assert forall k :: 0 <= k < |s| - i ==> s[i..][k] == s[i + k];
    if s[i] == '%' && i + 1 < |s| {
      if s[i + 1] == 'u' {
        var val := FromHexToI(s, i + 2, 4);
        HexDigitsShift(s, i, 2, 4, 0);
        HexDigitsBound(s, i + 2, 4, 0, 1);
        return if val.Some? then Utf8(val.value) else [s[i]], if val.Some? then i + 6 else i + 1;
      }
      var val := FromHexToI(s, i + 1, 2);
      HexDigitsShift(s, i, 1, 2, 0);
      HexDigitsBound(s, i + 1, 2, 0, 1);
      return if val.Some? then [val.value as char] else [s[i]], if val.Some? then i + 3 else i + 1;
    }
    return if plusIsSpace && s[i] == '+' then " " else [s[i]], i + 1;
  }

  lemma {:induction false} HexDigitsShift(s: string, i: nat, at: nat, count: nat, val: nat)
    requires i <= |s|
    ensures HexDigits(s, i + at, count, val) == HexDigits(s[i..], at, count, val)
    decreases count
  {
    hide HexValue;
    if count > 0 && i + at < |s| {
      assert s[i..][at] == s[i + at];
    }
    if count > 0 && i + at < |s| && HexValue(s[i + at]).Some? {
      HexDigitsShift(s, i, at + 1, count - 1, val * 16 + HexValue(s[i + at]).value);
    }
  }

  method DecodeUrl(s: string, plusIsSpace: bool) returns (result: string)
    ensures result == Decoded(s, plusIsSpace)
  {
    hide Front;
    result := "";
    var i := 0;
    while i < |s|
      invariant i <= |s|
      invariant Decoded(s, plusIsSpace) == result + Decoded(s[i..], plusIsSpace)
    {
      var text, next := Turn(s, i, plusIsSpace);
      assert s[i..][next - i..] == s[next..];
      assert result + (text + Decoded(s[next..], plusIsSpace)) == result + text + Decoded(s[next..], plusIsSpace);
      result, i := result + text, next;
    }
    assert s[|s|..] == "";
  }

  lemma DigitOfUpperHex(d: nat)
    requires d < 16
    ensures HexValue(UpperHex(d)) == Some(d) && UpperHex(d) != 'u'
  {
  }

  lemma FrontOfEncoded(c: char, rest: string, plusIsSpace: bool)
    requires c < 256 as char
    ensures Front(EncodeChar(c) + rest, plusIsSpace) == Piece([c], |EncodeChar(c)|)
  {
    if !Unescaped(c) {
      var s := EncodeChar(c) + rest;
      DigitOfUpperHex(c as int / 16);
      DigitOfUpperHex(c as int % 16);
      assert s[1] == UpperHex(c as int / 16) && s[2] == UpperHex(c as int % 16);
      assert HexDigits(s, 3, 0, c as int) == Some(c as int);
      assert HexDigits(s, 2, 1, c as int / 16) == Some(c as int);
      assert HexDigits(s, 1, 2, 0) == Some(c as int);
    }
  }

  /** Every value comes back, whether or not '+' is read as a blank. */
  lemma {:induction false} DecodeOfEncoded(value: string, plusIsSpace: bool)
    requires IsBytes(value)
    ensures Decoded(Encoded(value), plusIsSpace) == value
  {
    hide Front, EncodeChar;
    if value != "" {
      var (head, rest) := (EncodeChar(value[0]), Encoded(value[1..]));
      FrontOfEncoded(value[0], rest, plusIsSpace);
      DecodeOfEncoded(value[1..], plusIsSpace);
      assert (head + rest)[|head|..] == rest;
      assert [value[0]] + value[1..] == value;
    }
  }

  // ---------------------------------------------------------------- other encoders

  /** What an encoder may write for a piece of its text: a byte that stands for itself, '+' for a blank,
      %XX for a byte, %uXXXX for a code, with each digit in either case. */
  datatype Token =
    | Literal(c: char)
    | Blank
    | Octet(value: nat, upper: seq<bool>)
    | Unicode(code: nat, upper: seq<bool>)

  predicate IsToken(t: Token, plusIsSpace: bool) {
    match t
    case Literal(c) => c != '%' && (plusIsSpace ==> c != '+')
    case Blank => plusIsSpace
    case Octet(value, upper) => value < 0x100 && |upper| == 2
    case Unicode(code, upper) => code < 0x1_0000 && |upper| == 4
  }

  function Glyph(d: nat, upper: bool): char {
    if upper then "0123456789ABCDEF"[d % 16] else "0123456789abcdef"[d % 16]
  }

  function Spelling(t: Token, plusIsSpace: bool): string
    requires IsToken(t, plusIsSpace)
  {
    match t
    case Literal(c) => [c]
    case Blank => "+"
    case Octet(value, u) => ['%', Glyph(value / 16, u[0]), Glyph(value, u[1])]
    case Unicode(code, u) =>
      ['%', 'u', Glyph(code / 4096, u[0]), Glyph(code / 256, u[1]), Glyph(code / 16, u[2]), Glyph(code, u[3])]
  }

  function Meaning(t: Token, plusIsSpace: bool): string
    requires IsToken(t, plusIsSpace)
  {
    match t
    case Literal(c) => [c]
    case Blank => " "
    case Octet(value, _) => [value as char]
    case Unicode(code, _) => Utf8(code)
  }

  predicate AreTokens(ts: seq<Token>, plusIsSpace: bool) {
    forall i :: 0 <= i < |ts| ==> IsToken(ts[i], plusIsSpace)
  }

  function SpellAll(ts: seq<Token>, plusIsSpace: bool): string
    requires AreTokens(ts, plusIsSpace)
  {
    if ts == [] then "" else Spelling(ts[0], plusIsSpace) + SpellAll(ts[1..], plusIsSpace)
  }

  function MeanAll(ts: seq<Token>, plusIsSpace: bool): string
    requires AreTokens(ts, plusIsSpace)
  {
    if ts == [] then "" else Meaning(ts[0], plusIsSpace) + MeanAll(ts[1..], plusIsSpace)
  }

  lemma GlyphValue(d: nat, upper: bool)
    ensures HexValue(Glyph(d, upper)) == Some(d % 16) && Glyph(d, upper) != 'u'
  {
  }

  lemma OneDigit(s: string, i: nat, count: nat, val: nat, d: nat, upper: bool)
    requires i < |s| && s[i] == Glyph(d, upper) && count > 0
    ensures HexDigits(s, i, count, val) == HexDigits(s, i + 1, count - 1, val * 16 + d % 16)
  {
    hide HexValue;
    GlyphValue(d, upper);
  }

  lemma FrontOfToken(t: Token, rest: string, plusIsSpace: bool)
    requires IsToken(t, plusIsSpace)
    ensures Front(Spelling(t, plusIsSpace) + rest, plusIsSpace)
            == Piece(Meaning(t, plusIsSpace), |Spelling(t, plusIsSpace)|)
  {
    hide HexDigits, Utf8, HexValue, Glyph;
    var text := Spelling(t, plusIsSpace);
    var s := text + rest;
    assert forall k :: 0 <= k < |text| ==> s[k] == text[k];
    match t
    case Literal(_) =>
    case Blank =>
    case Octet(value, u) => OctetDigits(s, value, u);
    case Unicode(code, u) => UnicodeDigits(s, code, u);
  }

  lemma OctetDigits(s: string, value: nat, u: seq<bool>)
    requires value < 0x100 && |u| == 2 && |s| >= 3
    requires s[1] == Glyph(value / 16, u[0]) && s[2] == Glyph(value, u[1])
    ensures HexDigits(s, 1, 2, 0) == Some(value) && s[1] != 'u'
  {
    hide HexValue, Glyph;
    GlyphValue(value / 16, u[0]);
    OneDigit(s, 1, 2, 0, value / 16, u[0]);
    OneDigit(s, 2, 1, value / 16, value, u[1]);
  }

  lemma UnicodeDigits(s: string, code: nat, u: seq<bool>)
    requires code < 0x1_0000 && |u| == 4 && |s| >= 6
    requires s[2] == Glyph(code / 4096, u[0]) && s[3] == Glyph(code / 256, u[1])
    requires s[4] == Glyph(code / 16, u[2]) && s[5] == Glyph(code, u[3])
    ensures HexDigits(s, 2, 4, 0) == Some(code)
  {
    hide HexValue, Glyph, HexDigits;
    FourDigits(code);
    OneDigit(s, 2, 4, 0, code / 4096, u[0]);
    OneDigit(s, 3, 3, code / 4096, code / 256, u[1]);
    OneDigit(s, 4, 2, code / 256, code / 16, u[2]);
    OneDigit(s, 5, 1, code / 16, code, u[3]);
    AllDigits(s, 6, code);
  }

  lemma AllDigits(s: string, i: nat, val: nat)
    ensures HexDigits(s, i, 0, val) == Some(val)
  {
  }

  lemma FourDigits(code: nat)
    requires code < 0x1_0000
    ensures code / 4096 % 16 == code / 4096
    ensures code / 4096 * 16 + code / 256 % 16 == code / 256
    ensures code / 256 * 16 + code / 16 % 16 == code / 16
    ensures code / 16 * 16 + code % 16 == code
  {
  }

  /** Whatever encoder has written it, a text of tokens is decoded to what they mean. */
  lemma {:induction false} DecodeOfTokens(ts: seq<Token>, plusIsSpace: bool)
    requires AreTokens(ts, plusIsSpace)
    ensures Decoded(SpellAll(ts, plusIsSpace), plusIsSpace) == MeanAll(ts, plusIsSpace)
  {
    hide Front, Spelling, Meaning, IsToken;
    if ts != [] {
      var (head, rest) := (Spelling(ts[0], plusIsSpace), SpellAll(ts[1..], plusIsSpace));
      FrontOfToken(ts[0], rest, plusIsSpace);
      DecodeOfTokens(ts[1..], plusIsSpace);
      assert (head + rest)[|head|..] == rest;
    }
  }

  predicate IsHex(c: char) { c in "0123456789abcdefABCDEF" }

  /** A '%' that begins no escape stands for itself. */
  lemma StrayPercentStays(s: string, plusIsSpace: bool)
    requires s != "" && s[0] == '%'
    requires !(|s| >= 3 && IsHex(s[1]) && IsHex(s[2]))
    requires !(|s| >= 6 && s[1] == 'u' && forall k :: 2 <= k < 6 ==> IsHex(s[k]))
    ensures Decoded(s, plusIsSpace) == "%" + Decoded(s[1..], plusIsSpace)
  {
    hide HexValue, IsHex;
    var (at, count) := if |s| > 1 && s[1] == 'u' then (2, 4) else (1, 2);
    DigitsAreHex(s, at, count, 0);
    if |s| > 1 {
      assert 'u' != s[1] || !IsHex(s[1]) by { UIsNoDigit(); }
    }
  }

  lemma UIsNoDigit()
    ensures !IsHex('u')
  {
  }

  lemma {:induction false} DigitsAreHex(s: string, i: nat, count: nat, val: nat)
    ensures HexDigits(s, i, count, val).Some? && count > 0 ==>
              i + count <= |s| && forall k :: i <= k < i + count ==> IsHex(s[k])
    decreases count
  {
    hide HexValue, IsHex;
    if count > 0 && i < |s| && HexValue(s[i]).Some? {
      ValuedIsHex(s[i]);
      DigitsAreHex(s, i + 1, count - 1, val * 16 + HexValue(s[i]).value);
    }
  }

  lemma ValuedIsHex(c: char)
    ensures HexValue(c).Some? ==> IsHex(c)
  {
  }

  /** The code that a UTF-8 sequence of up to three bytes stands for (section 3 of RFC 3629). */
  function CodeOf(bytes: string): Option<nat> {
    if |bytes| == 1 && bytes[0] as nat < 0x80 then Some(bytes[0] as nat)
    else if |bytes| == 2 && 0xC2 <= bytes[0] as nat < 0xE0 && 0x80 <= bytes[1] as nat < 0xC0 then
      Some((bytes[0] as nat - 0xC0) * 64 + (bytes[1] as nat - 0x80))
    else if |bytes| == 3 && 0xE0 <= bytes[0] as nat < 0xF0
            && 0x80 <= bytes[1] as nat < 0xC0 && 0x80 <= bytes[2] as nat < 0xC0 then
      var code := (bytes[0] as nat - 0xE0) * 4096 + (bytes[1] as nat - 0x80) * 64 + (bytes[2] as nat - 0x80);
      if code >= 0x800 && !(0xD800 <= code < 0xE000) then Some(code) else None
    else None
  }

  /** %uXXXX yields the UTF-8 sequence of its code; a surrogate has none. */
  lemma Utf8Stands(code: nat)
    requires code < 0x1_0000
    ensures if 0xD800 <= code < 0xE000 then Utf8(code) == "" else CodeOf(Utf8(code)) == Some(code)
  {
    hide CodeOf;
    var (a, b, c) := (code / 4096, code / 64 % 64, code % 64);
    SixBitGroups(code);
    if code < 0x80 {
      OneByte(code);
    } else if code < 0x800 {
      TwoBytes(code / 64, c);
    } else if !(0xD800 <= code < 0xE000) {
      ThreeBytes(a, b, c);
    }
  }

  lemma SixBitGroups(code: nat)
    requires code < 0x1_0000
    ensures code == code / 64 * 64 + code % 64 && code / 64 == code / 4096 * 64 + code / 64 % 64
    ensures code / 4096 % 16 == code / 4096 && (code < 0x800 ==> code / 64 % 32 == code / 64)
  {
    assert code / 64 / 64 == code / 4096;
  }

  lemma OneByte(a: nat)
    requires a < 0x80
    ensures CodeOf([a as char]) == Some(a)
  {
  }

  lemma TwoBytes(a: nat, b: nat)
    requires 2 <= a < 32 && b < 64
    ensures CodeOf([(0xC0 + a) as char, (0x80 + b) as char]) == Some(a * 64 + b)
  {
  }

  lemma ThreeBytes(a: nat, b: nat, c: nat)
    requires a < 16 && b < 64 && c < 64
    requires var code := a * 4096 + b * 64 + c; code >= 0x800 && !(0xD800 <= code < 0xE000)
    ensures CodeOf([(0xE0 + a) as char, (0x80 + b) as char, (0x80 + c) as char]) == Some(a * 4096 + b * 64 + c)
  {
  }
}
