/** The body state of the streaming multipart parser (section 5.1.1 of RFC 2046): content is handed
    on while the closing CRLF--boundary is looked for in a sliding buffer, whatever pieces the input
    arrives in.
 */
module Multipart {

  // ---------------------------------------------------------------- searching, as a function

  predicate OccursAt(s: string, pattern: string, i: nat) {
    i + |pattern| <= |s| && s[i..i + |pattern|] == pattern
  }

  /** The first place where `pattern` occurs in `s`, |s| if there is none. */
  function FirstIndex(s: string, pattern: string, from: nat): (k: nat)
    requires pattern != "" && from <= |s|
    ensures from <= k <= |s|
    ensures k < |s| ==> OccursAt(s, pattern, k)
    ensures forall i :: from <= i < k ==> !OccursAt(s, pattern, i)
    decreases |s| - from
  {
    if from + |pattern| > |s| then |s|
    else if OccursAt(s, pattern, from) then from
    else FirstIndex(s, pattern, from + 1)
  }

  predicate Found(s: string, pattern: string)
    requires pattern != ""
  {
    FirstIndex(s, pattern, 0) < |s|
  }

  /** What the body state has handed on after input `s`: everything before the boundary, or, while it
      has not come, all but the last bytes that could be part of it. */
  function Delivered(s: string, pattern: string): string
    requires pattern != ""
  {
    if Found(s, pattern) then s[..FirstIndex(s, pattern, 0)]
    else if |s| < |pattern| then ""
    else s[..|s| - |pattern|]
  }

  /** What it still holds: the bytes behind the boundary, or those it keeps back. */
  function Kept(s: string, pattern: string): string
    requires pattern != ""
  {
    if Found(s, pattern) then s[FirstIndex(s, pattern, 0) + |pattern|..]
    else s[|Delivered(s, pattern)|..]
  }

  /** What that means: the input is what has been handed on, the boundary, and what is kept, and the
      boundary stands nowhere before; or there is none, and no more is kept than its length. */
  lemma NothingLost(s: string, pattern: string)
    requires pattern != ""
    ensures var (given, kept) := (Delivered(s, pattern), Kept(s, pattern));
            if exists k: nat :: OccursAt(s, pattern, k) then
              s == given + pattern + kept && forall i: nat :: i < |given| ==> !OccursAt(s, pattern, i)
            else s == given + kept && |kept| <= |pattern|
  {
    var k := FirstIndex(s, pattern, 0);
    if Found(s, pattern) {
      assert OccursAt(s, pattern, k);
      assert s == s[..k] + s[k..k + |pattern|] + s[k + |pattern|..];
    }
  }

  lemma UniqueFirst(s: string, pattern: string, k: nat)
    requires pattern != "" && OccursAt(s, pattern, k)
    requires forall i :: 0 <= i < k ==> !OccursAt(s, pattern, i)
    ensures FirstIndex(s, pattern, 0) == k && Found(s, pattern)
  {
  }

  lemma NoneFound(s: string, pattern: string)
    requires pattern != "" && forall i: nat :: i < |s| ==> !OccursAt(s, pattern, i)
    ensures !Found(s, pattern)
  {
  }

  lemma OccursShifted(given: string, window: string, pattern: string, i: nat)
    ensures OccursAt(given + window, pattern, |given| + i) <==> OccursAt(window, pattern, i)
  {
    if i + |pattern| <= |window| {
      assert (given + window)[|given| + i..|given| + i + |pattern|] == window[i..i + |pattern|];
    }
  }

  lemma NoneInDelivered(s: string, more: string, pattern: string, i: nat)
    requires pattern != "" && !Found(s, pattern) && i < |Delivered(s, pattern)|
    ensures !OccursAt(s + more, pattern, i)
  {
    assert (s + more)[i..i + |pattern|] == s[i..i + |pattern|];
    assert !OccursAt(s, pattern, i);
  }

  /** The search may be confined to the bytes kept back and those that follow. */
  lemma SearchInKept(s: string, more: string, pattern: string)
    requires pattern != "" && !Found(s, pattern)
    ensures var given, window := Delivered(s, pattern), Kept(s, pattern) + more;
            && s + more == given + window
            && (Found(s + more, pattern) <==> Found(window, pattern))
            && (Found(window, pattern) ==>
                  FirstIndex(s + more, pattern, 0) == |given| + FirstIndex(window, pattern, 0))
  {
    hide FirstIndex, OccursAt;
    var given, window := Delivered(s, pattern), Kept(s, pattern) + more;
    assert s + more == given + window;
    var k := FirstIndex(window, pattern, 0);
    forall i: nat | i < |given| + k ensures !OccursAt(s + more, pattern, i) {
      if i < |given| {
        NoneInDelivered(s, more, pattern, i);
      } else {
        OccursShifted(given, window, pattern, i - |given|);
      }
    }
    if Found(window, pattern) {
      OccursShifted(given, window, pattern, k);
      UniqueFirst(s + more, pattern, |given| + k);
    } else {
      NoneFound(s + more, pattern);
    }
  }

  /** How much of the buffered bytes is handed on: those before the boundary, or all but the last that
      could be part of it. */
  function Cut(window: string, pattern: string): (n: nat)
    requires pattern != ""
    ensures n <= |window| && (Found(window, pattern) ==> n + |pattern| <= |window|)
  {
    if Found(window, pattern) then
      assert OccursAt(window, pattern, FirstIndex(window, pattern, 0));
      FirstIndex(window, pattern, 0)
    else if |window| < |pattern| then 0
    else |window| - |pattern|
  }

  /** What one more piece of input changes, seen from the buffer. */
  lemma OneMorePiece(s: string, more: string, pattern: string)
    requires pattern != "" && !Found(s, pattern)
    ensures var given, window := Delivered(s, pattern), Kept(s, pattern) + more;
            var n := Cut(window, pattern);
            && (Found(s + more, pattern) <==> Found(window, pattern))
            && Delivered(s + more, pattern) == given + window[..n]
            && Kept(s + more, pattern) == window[if Found(window, pattern) then n + |pattern| else n..]
  {
    hide FirstIndex, OccursAt, Found, Cut;
    SearchInKept(s, more, pattern);
    HandedOn(Delivered(s, pattern), Kept(s, pattern) + more, pattern);
  }

  lemma HandedOn(given: string, window: string, pattern: string)
    requires pattern != "" && (given != "" ==> |window| >= |pattern|)
    requires Found(given + window, pattern) <==> Found(window, pattern)
    requires Found(window, pattern) ==>
               FirstIndex(given + window, pattern, 0) == |given| + FirstIndex(window, pattern, 0)
    ensures var n := Cut(window, pattern);
            && Delivered(given + window, pattern) == given + window[..n]
            && Kept(given + window, pattern) == window[if Found(window, pattern) then n + |pattern| else n..]
  {
    hide FirstIndex, OccursAt, Found;
    var n := Cut(window, pattern);
    TakeAndDrop(given, window, n);
    if Found(window, pattern) {
      TakeAndDrop(given, window, n + |pattern|);
    }
  }

  lemma TakeAndDrop(a: string, b: string, n: nat)
    requires n <= |b|
    ensures (a + b)[..|a| + n] == a + b[..n] && (a + b)[|a| + n..] == b[n..]
  {
  }

  // ---------------------------------------------------------------- the parser

  class MultipartFormDataParser {
    const crlfDashBoundary: string
    var buf: array<char>
    var bufSpos: nat
    var bufEpos: nat
    var isValid: bool                   // is_valid_: no callback has refused
    var inBody: bool            // state 3; false: the boundary has been passed
    var content: string         // all that the content callback has been given
    ghost var input: string     // all that has been fed in the body state

    constructor (boundary: string)
      ensures Valid() && isValid && fresh(buf) && input == "" && inBody
      ensures crlfDashBoundary == "\r\n--" + boundary
    {
      crlfDashBoundary := "\r\n--" + boundary;
      buf, bufSpos, bufEpos := new char[0], 0, 0;
      isValid, inBody, content, input := true, true, "", "";
    }

    /** As long as the callback has taken everything, what it was given is all that the input so far
        allows; once it has refused, it is a beginning of that. */
    ghost predicate Valid()
      reads this, buf
    {
      && crlfDashBoundary != ""
      && bufSpos <= bufEpos <= buf.Length
      && content <= Delivered(input, crlfDashBoundary)
      && (isValid ==>
            && content == Delivered(input, crlfDashBoundary)
            && BufData() == Kept(input, crlfDashBoundary)
            && (inBody <==> !Found(input, crlfDashBoundary)))
    }

    function BufData(): string
      requires bufSpos <= bufEpos <= buf.Length
      reads this, buf
    {
      buf[bufSpos..bufEpos]
    }

    function BufSize(): nat
      requires bufSpos <= bufEpos
      reads this
    {
      bufEpos - bufSpos
    }

    method MoveToFront()
      requires bufSpos <= bufEpos <= buf.Length
      modifies this`bufSpos, this`bufEpos, buf
      ensures bufSpos == 0 && bufEpos <= buf.Length && BufData() == old(BufData())
    {
      var remaining := bufEpos - bufSpos;
      ghost var before := BufData();
      if remaining > 0 && bufSpos > 0 {
        for i := 0 to remaining
          invariant bufSpos == old(bufSpos) && bufEpos == old(bufEpos)
          invariant forall k :: 0 <= k < i ==> buf[k] == before[k]
          invariant forall k :: i <= k < remaining ==> buf[bufSpos + k] == before[k]
        {
          buf[i] := buf[bufSpos + i];
        }
        assert buf[..remaining] == before;
      }
      bufSpos, bufEpos := 0, remaining;
    }

    method Grow(size: nat)
      requires bufSpos == 0 && bufEpos <= buf.Length < size
      modifies this`buf
      ensures fresh(buf) && buf.Length == size && BufData() == old(BufData())
    {
      var larger := new char[size](_ => '\0');
      forall i | 0 <= i < bufEpos {
        larger[i] := buf[i];
      }
      assert larger[..bufEpos] == buf[..bufEpos];
      buf := larger;
    }

    method CopyBehind(data: string)
      requires bufEpos + |data| <= buf.Length
      modifies buf
      ensures buf[..bufEpos] == old(buf[..bufEpos]) && buf[bufEpos..bufEpos + |data|] == data
    {
      for i := 0 to |data|
        invariant forall k :: 0 <= k < bufEpos ==> buf[k] == old(buf[k])
        invariant forall k :: 0 <= k < i ==> buf[bufEpos + k] == data[k]
      {
        buf[bufEpos + i] := data[i];
      }
    }

    /** Moves the buffered bytes to the front, grows the buffer if need be, and appends. */
    method BufAppend(data: string)
      requires bufSpos <= bufEpos <= buf.Length
      modifies this`buf, this`bufSpos, this`bufEpos, buf
      ensures bufSpos <= bufEpos <= buf.Length
      ensures buf == old(buf) || fresh(buf)
      ensures BufData() == old(BufData()) + data
    {
      MoveToFront();
      if bufEpos + |data| > buf.Length {
        Grow(bufEpos + |data|);
      }
      assert buf[..bufEpos] == old(BufData());
      CopyBehind(data);
      bufEpos := bufEpos + |data|;
    }

    method StartsWith(pos: nat, s: string) returns (yes: bool)
      requires bufSpos <= pos <= bufEpos <= buf.Length
      ensures yes <==> OccursAt(BufData(), s, pos - bufSpos)
    {
      if bufEpos - pos < |s| {
        return false;
      }
      ghost var data, o := BufData(), pos - bufSpos;
      for i := 0 to |s|
        invariant forall k :: 0 <= k < i ==> data[o + k] == s[k]
      {
        assert data[o + i] == buf[pos + i];
        if buf[pos + i] != s[i] {
          assert data[o..o + |s|][i] != s[i];
          return false;
        }
      }
      assert data[o..o + |s|] == s;
      return true;
    }

    /** The search hops from one occurrence of the first character to the next and gives up as soon
        as the pattern no longer fits. */
    method BufFind(s: string) returns (r: nat)
      requires bufSpos <= bufEpos <= buf.Length && s != ""
      ensures r == FirstIndex(BufData(), s, 0)
    {
      var off := bufSpos;
      while off < bufEpos
        invariant bufSpos <= off <= bufEpos
        invariant forall i :: 0 <= i < off - bufSpos ==> !OccursAt(BufData(), s, i)
      {
        var pos := off;
        while true
          invariant off <= pos <= bufEpos
          invariant forall i :: 0 <= i < pos - bufSpos ==> !OccursAt(BufData(), s, i)
          decreases bufEpos - pos
        {
          if pos == bufEpos {
            return BufSize();
          }
          if buf[pos] == s[0] {
            break;
          }
          assert BufData()[pos - bufSpos] != s[0];
          pos := pos + 1;
        }
        if |s| > bufEpos - pos {
          return BufSize();
        }
        var here := StartsWith(pos, s);
        if here {
          UniqueFirst(BufData(), s, pos - bufSpos);
          return pos - bufSpos;
        }
        off := pos + 1;
      }
      return BufSize();
    }

    /** One call of `parse` in the body state: afterwards what has been handed on, and what is kept,
        depend on all the input fed so far and not on how it was cut into pieces. */
    method FeedBody(data: string, accepts: bool) returns (ok: bool)
      requires Valid() && isValid && inBody
      modifies this, buf
      ensures Valid() && (buf == old(buf) || fresh(buf))
      ensures input == old(input) + data && ok == isValid
      ensures accepts ==> ok
      ensures !ok ==> content == old(content)
    {
      hide FirstIndex, OccursAt, Delivered, Kept, Found, Cut;
      OneMorePiece(input, data, crlfDashBoundary);
      BufAppend(data);
      input := input + data;
      var n, found := Scan();
      if n > 0 || found {
        if !accepts {
          isValid := false;
          return false;
        }
        PassOn(n);
        if found {
          bufSpos := bufSpos + |crlfDashBoundary|;
          inBody := false;
        }
      }
      return true;
    }

    /** How far the buffered bytes can be handed on, and whether the boundary comes next. */
    method Scan() returns (n: nat, found: bool)
      requires bufSpos <= bufEpos <= buf.Length && crlfDashBoundary != ""
      ensures n == Cut(BufData(), crlfDashBoundary) && found == Found(BufData(), crlfDashBoundary)
    {
      hide FirstIndex, OccursAt;
      if |crlfDashBoundary| > BufSize() {
        NotFoundInShort(BufData(), crlfDashBoundary);
        return 0, false;
      }
      var pos := BufFind(crlfDashBoundary);
      if pos < BufSize() {
        return pos, true;
      }
      return BufSize() - |crlfDashBoundary|, false;
    }

    /** The content callback takes `n` bytes, which are erased. */
    method PassOn(n: nat)
      requires bufSpos <= bufEpos <= buf.Length && n <= BufSize()
      modifies `content, `bufSpos
      ensures bufSpos == old(bufSpos) + n
      ensures content == old(content) + old(BufData())[..n] && BufData() == old(BufData())[n..]
    {
      content := content + buf[bufSpos..bufSpos + n];
      bufSpos := bufSpos + n;
    }

    /** Any cut of the input, up to the piece in which the boundary is completed or the callback
        refuses: what the callback has been given is a function of the whole input alone, or, if it
        refused, a beginning of that. */
    method FeedPieces(pieces: seq<string>, accepts: seq<bool>) returns (ok: bool, used: nat)
      requires Valid() && isValid && inBody && input == "" && |accepts| == |pieces|
      modifies this, buf
      ensures Valid() && used <= |pieces| && ok == isValid
      ensures content <= Delivered(Joined(pieces), crlfDashBoundary)
      ensures ok ==> content == Delivered(Joined(pieces), crlfDashBoundary)
      ensures ok ==> (inBody <==> !Found(Joined(pieces), crlfDashBoundary))
      ensures ok && inBody ==> used == |pieces|
      ensures ok ==> BufData() == Kept(Joined(pieces[..used]), crlfDashBoundary)
      ensures (forall i :: 0 <= i < |accepts| ==> accepts[i]) ==> ok
    {
      ok, used := true, 0;
      while used < |pieces| && inBody && ok
        invariant Valid() && used <= |pieces| && ok == isValid
        invariant input == Joined(pieces[..used])
        invariant buf == old(buf) || fresh(buf)
        invariant (forall i :: 0 <= i < |accepts| ==> accepts[i]) ==> ok
      {
        assert pieces[..used + 1][..used] == pieces[..used];
        ok := FeedBody(pieces[used], accepts[used]);
        used := used + 1;
      }
      assert pieces[..|pieces|] == pieces;
      DeliveredGrows(pieces, used, crlfDashBoundary);
      if ok && !inBody {
        FoundStaysFound(pieces, used, crlfDashBoundary);
      }
    }
  }

  function Joined(pieces: seq<string>): string {
    if pieces == [] then "" else Joined(pieces[..|pieces| - 1]) + pieces[|pieces| - 1]
  }

  lemma NotFoundInShort(s: string, pattern: string)
    requires pattern != "" && |s| < |pattern|
    ensures !Found(s, pattern)
  {
  }

  lemma {:induction false} FoundStaysFound(pieces: seq<string>, n: nat, pattern: string)
    requires n <= |pieces| && pattern != "" && Found(Joined(pieces[..n]), pattern)
    ensures Found(Joined(pieces), pattern)
    ensures Delivered(Joined(pieces), pattern) == Delivered(Joined(pieces[..n]), pattern)
    decreases |pieces|
  {
    if n < |pieces| {
      var front := pieces[..|pieces| - 1];
      assert front[..n] == pieces[..n];
      FoundStaysFound(front, n, pattern);
      FoundInLonger(Joined(front), pieces[|pieces| - 1], pattern);
    } else {
      assert pieces[..n] == pieces;
    }
  }

  /** More input only adds to what is handed on. */
  lemma {:induction false} DeliveredGrows(pieces: seq<string>, n: nat, pattern: string)
    requires n <= |pieces| && pattern != ""
    ensures Delivered(Joined(pieces[..n]), pattern) <= Delivered(Joined(pieces), pattern)
    decreases |pieces|
  {
    hide Delivered;
    if n < |pieces| {
      var front := pieces[..|pieces| - 1];
      assert front[..n] == pieces[..n];
      DeliveredGrows(front, n, pattern);
      OneMoreGrows(Joined(front), pieces[|pieces| - 1], pattern);
    } else {
      assert pieces[..n] == pieces;
    }
  }

  lemma OneMoreGrows(s: string, more: string, pattern: string)
    requires pattern != ""
    ensures Delivered(s, pattern) <= Delivered(s + more, pattern)
  {
    if Found(s, pattern) {
      FoundInLonger(s, more, pattern);
    } else {
      OneMorePiece(s, more, pattern);
    }
  }

  lemma FoundInLonger(s: string, more: string, pattern: string)
    requires pattern != "" && Found(s, pattern)
    ensures Found(s + more, pattern) && Delivered(s + more, pattern) == Delivered(s, pattern)
  {
    var k := FirstIndex(s, pattern, 0);
    var all := s + more;
    assert all[k..k + |pattern|] == s[k..k + |pattern|];
    forall i | 0 <= i < k ensures !OccursAt(all, pattern, i) {
      assert !OccursAt(s, pattern, i);
      assert i + |pattern| <= |s|;
      assert all[i..i + |pattern|] == s[i..i + |pattern|];
    }
    UniqueFirst(all, pattern, k);
  }
}
