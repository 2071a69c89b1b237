/** Records are fixed-width text. A parser cuts out field by field and table entry by table entry, at
    positions written into the code; the parsers of H1, H6, O1 and O2 leave nothing out. The members of
    the JSON object are known here by their item number in the record's specification, in order from
    item 2, and code-page conversion is the identity.
 */
module Records {
  // ---------------------------------------------------------------- record types

  datatype RecordType =
    | JG | RA | RC | SE | UM | KS | CH | WE | WH | HR | H1 | H6 | HY | HC | WC | O1 | O2 | O3
    | O4 | O5 | O6 | TK | BT | BR | BN | HN | SK | TC | YS | AV | JC | DM | TM | WF | CS | CC
    | CK | HS | UNKNOWN

  /** The lookup table, in four pieces. */
  function Lookup1(s: string): RecordType {
    if s == "JG" then JG else if s == "RA" then RA else if s == "RC" then RC
    else if s == "SE" then SE else if s == "UM" then UM else if s == "KS" then KS
    else if s == "CH" then CH else if s == "WE" then WE else if s == "WH" then WH
    else if s == "HR" then HR
    else UNKNOWN
  }

  function Lookup2(s: string): RecordType {
    if s == "H1" then H1 else if s == "H6" then H6 else if s == "HY" then HY
    else if s == "HC" then HC else if s == "WC" then WC else if s == "O1" then O1
    else if s == "O2" then O2 else if s == "O3" then O3 else if s == "O4" then O4
    else if s == "O5" then O5
    else UNKNOWN
  }

  function Lookup3(s: string): RecordType {
    if s == "O6" then O6 else if s == "TK" then TK else if s == "BT" then BT
    else if s == "BR" then BR else if s == "BN" then BN else if s == "HN" then HN
    else if s == "SK" then SK else if s == "TC" then TC else if s == "YS" then YS
    else if s == "AV" then AV
    else UNKNOWN
  }

  function Lookup4(s: string): RecordType {
    if s == "JC" then JC else if s == "DM" then DM else if s == "TM" then TM
    else if s == "WF" then WF else if s == "CS" then CS else if s == "CC" then CC
    else if s == "CK" then CK else if s == "HS" then HS
    else UNKNOWN
  }

  function StringToRecordType(s: string): RecordType {
    if Lookup1(s) != UNKNOWN then Lookup1(s)
    else if Lookup2(s) != UNKNOWN then Lookup2(s)
    else if Lookup3(s) != UNKNOWN then Lookup3(s)
    else Lookup4(s)
  }

  function RecordTypeToString(t: RecordType): string {
    match t
    case JG => "JG"
    case RA => "RA"
    case RC => "RC"
    case SE => "SE"
    case UM => "UM"
    case KS => "KS"
    case CH => "CH"
    case WE => "WE"
    case WH => "WH"
    case HR => "HR"
    case H1 => "H1"
    case H6 => "H6"
    case HY => "HY"
    case HC => "HC"
    case WC => "WC"
    case O1 => "O1"
    case O2 => "O2"
    case O3 => "O3"
    case O4 => "O4"
    case O5 => "O5"
    case O6 => "O6"
    case TK => "TK"
    case BT => "BT"
    case BR => "BR"
    case BN => "BN"
    case HN => "HN"
    case SK => "SK"
    case TC => "TC"
    case YS => "YS"
    case AV => "AV"
    case JC => "JC"
    case DM => "DM"
    case TM => "TM"
    case WF => "WF"
    case CS => "CS"
    case CC => "CC"
    case CK => "CK"
    case HS => "HS"
    case UNKNOWN => "UNKNOWN"
  }

  /** `parseRecord` puts the first two bytes aside; the handler prefers the name of a known type. */
  function ResolveRecordTypeForOutput(raw: string): string {
    var id := if |raw| < 2 then "" else raw[..2];
    var mapped := RecordTypeToString(if |raw| < 2 then UNKNOWN else StringToRecordType(id));
    if mapped != "UNKNOWN" then mapped
    else if id != "" then id
    else if |raw| >= 2 then raw[..2]
    else mapped
  }

  lemma ByName1(s: string)
    ensures Lookup1(s) != UNKNOWN ==> RecordTypeToString(Lookup1(s)) == s
  {
  }

  lemma ByName2(s: string)
    ensures Lookup2(s) != UNKNOWN ==> RecordTypeToString(Lookup2(s)) == s
  {
  }

  lemma ByName3(s: string)
    ensures Lookup3(s) != UNKNOWN ==> RecordTypeToString(Lookup3(s)) == s
  {
  }

  lemma ByName4(s: string)
    ensures Lookup4(s) != UNKNOWN ==> RecordTypeToString(Lookup4(s)) == s
  {
  }

  /** A type that is found carries the name that was looked up. */
  lemma LookedUpByName(s: string)
    ensures StringToRecordType(s) != UNKNOWN ==> RecordTypeToString(StringToRecordType(s)) == s
  {
    hide Lookup1, Lookup2, Lookup3, Lookup4, RecordTypeToString;
    ByName1(s);
    ByName2(s);
    ByName3(s);
    ByName4(s);
  }

  lemma Known1(s: string)
    ensures Lookup1(s) != UNKNOWN <==> s in ["JG", "RA", "RC", "SE", "UM", "KS", "CH", "WE", "WH", "HR"]
  {
  }

  lemma Known2(s: string)
    ensures Lookup2(s) != UNKNOWN <==> s in ["H1", "H6", "HY", "HC", "WC", "O1", "O2", "O3", "O4", "O5"]
  {
  }

  lemma Known3(s: string)
    ensures Lookup3(s) != UNKNOWN <==> s in ["O6", "TK", "BT", "BR", "BN", "HN", "SK", "TC", "YS", "AV"]
  {
  }

  lemma Known4(s: string)
    ensures Lookup4(s) != UNKNOWN <==> s in ["JC", "DM", "TM", "WF", "CS", "CC", "CK", "HS"]
  {
  }

  /** The types that are known, 38 of them. */
  lemma KnownIff(s: string)
    ensures StringToRecordType(s) != UNKNOWN <==>
              || s in ["JG", "RA", "RC", "SE", "UM", "KS", "CH", "WE", "WH", "HR"]
              || s in ["H1", "H6", "HY", "HC", "WC", "O1", "O2", "O3", "O4", "O5"]
              || s in ["O6", "TK", "BT", "BR", "BN", "HN", "SK", "TC", "YS", "AV"]
              || s in ["JC", "DM", "TM", "WF", "CS", "CC", "CK", "HS"]
  {
    hide Lookup1, Lookup2, Lookup3, Lookup4;
    Known1(s);
    Known2(s);
    Known3(s);
    Known4(s);
  }

  lemma NameOfKnownType(t: RecordType)
    ensures RecordTypeToString(t) == "UNKNOWN" <==> t == UNKNOWN
  {
    assert t != UNKNOWN ==> |RecordTypeToString(t)| == 2;
  }

  /** The emitted type is the first two bytes of the record, whether the type is known or not. */
  lemma TypeIsTheFirstTwoBytes(raw: string)
    ensures |raw| >= 2 ==> ResolveRecordTypeForOutput(raw) == raw[..2]
    ensures |raw| < 2 ==> ResolveRecordTypeForOutput(raw) == "UNKNOWN"
  {
    if |raw| >= 2 {
      hide StringToRecordType, RecordTypeToString;
      LookedUpByName(raw[..2]);
      NameOfKnownType(StringToRecordType(raw[..2]));
    }
  }

  // ---------------------------------------------------------------- fields

  /** Nothing at all, when the field does not fit. */
  function ExtractField(raw: string, start: nat, length: nat): string {
    if start + length > |raw| then "" else raw[start..start + length]
  }

  datatype Value = Text(text: string) | List(entries: seq<seq<string>>)

  function Joined(texts: seq<string>): string {
    if texts == [] then "" else Joined(texts[..|texts| - 1]) + texts[|texts| - 1]
  }

  function JoinedEntries(entries: seq<seq<string>>): string {
    if entries == [] then "" else JoinedEntries(entries[..|entries| - 1]) + Joined(entries[|entries| - 1])
  }

  function Content(v: Value): string {
    match v
    case Text(text) => text
    case List(entries) => JoinedEntries(entries)
  }

  /** Everything that has been extracted, in layout order. */
  function JoinedValues(values: seq<Value>): string {
    if values == [] then "" else JoinedValues(values[..|values| - 1]) + Content(values[|values| - 1])
  }

  lemma JoinedNothing()
    ensures Joined([]) == ""
  {
  }

  lemma JoinedSnoc(texts: seq<string>, t: string)
    ensures Joined(texts + [t]) == Joined(texts) + t
  {
    assert (texts + [t])[..|texts|] == texts;
  }

  lemma NoEntriesJoined()
    ensures JoinedEntries([]) == ""
  {
  }

  lemma EntriesSnoc(entries: seq<seq<string>>, entry: seq<string>)
    ensures JoinedEntries(entries + [entry]) == JoinedEntries(entries) + Joined(entry)
  {
    assert (entries + [entry])[..|entries|] == entries;
  }

  lemma ValuesSnoc(values: seq<Value>, v: Value)
    ensures JoinedValues(values + [v]) == JoinedValues(values) + Content(v)
  {
    assert (values + [v])[..|values|] == values;
  }

  // ---------------------------------------------------------------- layouts

  /** What a record's specification says of an item: its width, or the number of its entries and the
      widths of their columns. */
  datatype Shape = One(width: nat) | Many(count: nat, widths: seq<nat>)

  function Sum(widths: seq<nat>): nat {
    if widths == [] then 0 else Sum(widths[..|widths| - 1]) + widths[|widths| - 1]
  }

  function Size(s: Shape): nat {
    match s
    case One(width) => width
    case Many(count, widths) => count * Sum(widths)
  }

  /** The bytes of the first `n` items. */
  function SizeOf(layout: seq<Shape>, n: nat): nat
    requires n <= |layout|
  {
    if n == 0 then 0 else SizeOf(layout, n - 1) + Size(layout[n - 1])
  }

  ghost predicate EntryFits(entry: seq<string>, widths: seq<nat>) {
    |entry| == |widths| && forall j :: 0 <= j < |entry| ==> |entry[j]| == widths[j]
  }

  ghost predicate EntriesFit(entries: seq<seq<string>>, widths: seq<nat>) {
    forall i :: 0 <= i < |entries| ==> EntryFits(entries[i], widths)
  }

  ghost predicate ValueFits(v: Value, s: Shape) {
    match s
    case One(width) => v.Text? && |v.text| == width
    case Many(count, widths) => v.List? && |v.entries| == count && EntriesFit(v.entries, widths)
  }

  /** These are the first items of a record of the layout. */
  ghost predicate Fits(values: seq<Value>, layout: seq<Shape>) {
    |values| <= |layout| && forall k :: 0 <= k < |values| ==> ValueFits(values[k], layout[k])
  }

  lemma SameEnds(x: string, y: string, x': string, y': string)
    requires x + y == x' + y' && |y| == |y'|
    ensures x == x' && y == y'
  {
    assert (x + y)[..|x|] == x && (x' + y')[..|x'|] == x';
    assert (x + y)[|x|..] == y && (x' + y')[|x'|..] == y';
  }

  lemma {:induction false} EntrySize(entry: seq<string>, widths: seq<nat>)
    requires EntryFits(entry, widths)
    ensures |Joined(entry)| == Sum(widths)
  {
    if entry != [] {
      EntrySize(entry[..|entry| - 1], widths[..|widths| - 1]);
    }
  }

  lemma {:induction false} EntriesSize(entries: seq<seq<string>>, widths: seq<nat>)
    requires EntriesFit(entries, widths)
    ensures |JoinedEntries(entries)| == |entries| * Sum(widths)
  {
    hide EntryFits, Sum;
    if entries != [] {
      var n := |entries| - 1;
      EntriesSize(entries[..n], widths);
      EntrySize(entries[n], widths);
      OneMore(n, Sum(widths));
    }
  }

  lemma OneMore(n: nat, size: nat)
    ensures (n + 1) * size == n * size + size
  {
  }

  lemma ValueSize(v: Value, s: Shape)
    requires ValueFits(v, s)
    ensures |Content(v)| == Size(s)
  {
    hide EntriesFit;
    if v.List? {
      EntriesSize(v.entries, s.widths);
    }
  }

  lemma {:induction false} ValuesSize(values: seq<Value>, layout: seq<Shape>)
    requires Fits(values, layout)
    ensures |JoinedValues(values)| == SizeOf(layout, |values|)
  {
    hide ValueFits, Content, Size;
    if values != [] {
      var n := |values| - 1;
      ValuesSize(values[..n], layout);
      ValueSize(values[n], layout[n]);
    }
  }

  /** The text of an entry determines its columns, that of a table its entries, that of a record its items. */
  lemma {:induction false} EntryDetermined(a: seq<string>, b: seq<string>, widths: seq<nat>)
    requires EntryFits(a, widths) && EntryFits(b, widths) && Joined(a) == Joined(b)
    ensures a == b
  {
    if a != [] {
      var n := |a| - 1;
      SameEnds(Joined(a[..n]), a[n], Joined(b[..n]), b[n]);
      EntryDetermined(a[..n], b[..n], widths[..n]);
      assert a == a[..n] + [a[n]] && b == b[..n] + [b[n]];
    }
  }

  lemma {:induction false} EntriesDetermined(a: seq<seq<string>>, b: seq<seq<string>>, widths: seq<nat>)
    requires EntriesFit(a, widths) && EntriesFit(b, widths) && |a| == |b| && JoinedEntries(a) == JoinedEntries(b)
    ensures a == b
  {
    hide EntryFits, Joined;
    if a != [] {
      var n := |a| - 1;
      EntrySize(a[n], widths);
      EntrySize(b[n], widths);
      SameEnds(JoinedEntries(a[..n]), Joined(a[n]), JoinedEntries(b[..n]), Joined(b[n]));
      EntryDetermined(a[n], b[n], widths);
      EntriesDetermined(a[..n], b[..n], widths);
      assert a == a[..n] + [a[n]] && b == b[..n] + [b[n]];
    }
  }

  lemma ValueDetermined(a: Value, b: Value, s: Shape)
    requires ValueFits(a, s) && ValueFits(b, s) && Content(a) == Content(b)
    ensures a == b
  {
    hide EntriesFit, JoinedEntries;
    if a.List? {
      EntriesDetermined(a.entries, b.entries, s.widths);
    }
  }

  lemma {:induction false} ValuesDetermined(a: seq<Value>, b: seq<Value>, layout: seq<Shape>)
    requires Fits(a, layout) && Fits(b, layout) && |a| == |b| && JoinedValues(a) == JoinedValues(b)
    ensures a == b
  {
    hide ValueFits, Content;
    if a != [] {
      var n := |a| - 1;
      ValueSize(a[n], layout[n]);
      ValueSize(b[n], layout[n]);
      SameEnds(JoinedValues(a[..n]), Content(a[n]), JoinedValues(b[..n]), Content(b[n]));
      ValueDetermined(a[n], b[n], layout[n]);
      ValuesDetermined(a[..n], b[..n], layout);
      assert a == a[..n] + [a[n]] && b == b[..n] + [b[n]];
    }
  }

  // The items of the four record types, from item 2 on, as the record specifications list them.

  const RACE := [One(1), One(8), One(4), One(4), One(2), One(2), One(2), One(2)]

  const H1_LAYOUT :=
    RACE
    + [One(2), One(2), One(1), One(1), One(1), One(1), One(1), One(1), One(1), One(1), One(28), One(8), One(8)]
    + [Many(28, [2, 11, 2]), Many(28, [2, 11, 2]), Many(36, [2, 11, 2]), Many(153, [4, 11, 3]),
       Many(153, [4, 11, 3]), Many(306, [4, 11, 3]), Many(816, [6, 11, 3])]
    + [One(11), One(11), One(11), One(11), One(11), One(11), One(11), One(11), One(11), One(11), One(11), One(11),
       One(11), One(11)]

  const H6_LAYOUT :=
    RACE + [One(2), One(2), One(1), One(18), Many(4896, [6, 11, 4]), One(11), One(11)]

  const O1_LAYOUT :=
    RACE
    + [One(8), One(2), One(2), One(1), One(1), One(1), One(1)]
    + [Many(28, [2, 4, 2]), Many(28, [2, 4, 4, 2]), Many(36, [2, 5, 2]), One(11), One(11), One(11)]

  const O2_LAYOUT :=
    RACE + [One(8), One(2), One(2), One(1), Many(153, [4, 6, 3]), One(11)]

  // ---------------------------------------------------------------- what has been read

  const WIDEST := 28

  /** Fields up to position `covered` have been asked for, and `text` came back: bytes 2 up to `cut`.
      The cut falls behind only when the record ends inside a field, which is then the one that is lost. */
  ghost predicate Progress(raw: string, covered: nat, cut: nat, text: string) {
    && 2 <= cut <= covered && cut <= |raw| && text == raw[2..cut]
    && (covered <= |raw| ==> cut == covered)
    && (covered > |raw| ==> |raw| - cut < WIDEST)
  }

  function CutAfter(raw: string, covered: nat, cut: nat, length: nat): nat {
    if covered + length <= |raw| then covered + length else cut
  }

  lemma FieldRead(raw: string, covered: nat, cut: nat, text: string, length: nat)
    requires Progress(raw, covered, cut, text) && 0 < length <= WIDEST
    ensures Progress(raw, covered + length, CutAfter(raw, covered, cut, length),
                     text + ExtractField(raw, covered, length))
  {
    if covered + length <= |raw| {
      assert raw[2..covered] + raw[covered..covered + length] == raw[2..covered + length];
    }
  }

  /** A column of a table: where it begins in the entry, and its width. */
  datatype Column = Column(offset: nat, width: nat)

  function ColumnsEnd(columns: seq<Column>, j: nat): nat
    requires j <= |columns|
  {
    if j == 0 then 0 else columns[j - 1].offset + columns[j - 1].width
  }

  ghost predicate ColumnsTile(columns: seq<Column>, stride: nat) {
    && (forall j :: 0 <= j < |columns| ==>
          columns[j].offset == ColumnsEnd(columns, j) && 0 < columns[j].width <= WIDEST)
    && ColumnsEnd(columns, |columns|) == stride
  }

  lemma ColumnsEnds(columns: seq<Column>, stride: nat)
    requires ColumnsTile(columns, stride)
    ensures ColumnsEnd(columns, 0) == 0 && ColumnsEnd(columns, |columns|) == stride
  {
  }

  lemma ColumnAt(columns: seq<Column>, stride: nat, j: nat)
    requires ColumnsTile(columns, stride) && j < |columns|
    ensures columns[j].offset == ColumnsEnd(columns, j) && 0 < columns[j].width <= WIDEST
    ensures ColumnsEnd(columns, j + 1) == columns[j].offset + columns[j].width
  {
  }

  lemma ColumnRead(raw: string, start: nat, columns: seq<Column>, stride: nat, j: nat, cut: nat, text: string)
    requires ColumnsTile(columns, stride) && j < |columns|
    requires Progress(raw, start + ColumnsEnd(columns, j), cut, text)
    ensures var (at, width) := (start + columns[j].offset, columns[j].width);
            Progress(raw, start + ColumnsEnd(columns, j + 1), CutAfter(raw, at, cut, width),
                     text + ExtractField(raw, at, width))
  {
    hide *;
    ColumnAt(columns, stride, j);
    FieldRead(raw, start + columns[j].offset, cut, text, columns[j].width);
  }

  function EntryStart(first: nat, stride: nat, i: nat): nat {
    first + i * stride
  }

  lemma EntryStartNext(first: nat, stride: nat, i: nat)
    ensures EntryStart(first, stride, 0) == first
    ensures EntryStart(first, stride, i) + stride == EntryStart(first, stride, i + 1)
  {
  }

  lemma EntryStartWithin(first: nat, stride: nat, i: nat, count: nat)
    requires i < count
    ensures EntryStart(first, stride, i) + stride <= EntryStart(first, stride, count)
  {
    assert (count - 1 - i) * stride >= 0;
    assert EntryStart(first, stride, count) == EntryStart(first, stride, i) + stride + (count - 1 - i) * stride;
  }

  ghost predicate EntryIs(entry: seq<string>, raw: string, start: nat, columns: seq<Column>) {
    && |entry| == |columns|
    && forall j :: 0 <= j < |columns| ==> entry[j] == ExtractField(raw, start + columns[j].offset, columns[j].width)
  }

  lemma SumOfThree(a: nat, b: nat, c: nat)
    ensures Sum([a, b, c]) == a + b + c
  {
    assert [a, b, c][..2] == [a, b];
    assert [a, b][..1] == [a];
    assert Sum([a]) == Sum([a][..0]) + a == a;
  }

  lemma SumOfFour(a: nat, b: nat, c: nat, d: nat)
    ensures Sum([a, b, c, d]) == a + b + c + d
  {
    SumOfThree(a, b, c);
    assert [a, b, c, d][..3] == [a, b, c];
  }

  /** An entry that lies in the record has its columns. */
  lemma EntryIsWhole(entry: seq<string>, raw: string, start: nat, columns: seq<Column>, widths: seq<nat>, stride: nat)
    requires EntryIs(entry, raw, start, columns) && start + stride <= |raw|
    requires |columns| == |widths|
    requires forall j :: 0 <= j < |columns| ==>
               columns[j].width == widths[j] && columns[j].offset + columns[j].width <= stride
    ensures EntryFits(entry, widths)
  {
  }

  class ParsedRecord {
    const raw: string
    var values: seq<Value>
    ghost const layout: seq<Shape>   // what the record's specification says
    ghost var covered: nat
    ghost var cut: nat

    constructor (data: string, ghost layout: seq<Shape>)
      requires |data| >= 2
      ensures raw == data && this.layout == layout && Valid() && covered == 2 && values == []
    {
      raw, values, covered, cut := data, [], 2, 2;
      this.layout := layout;
    }

    /** So many items have been read, without a gap, and while the record lasts each is as specified. */
    ghost predicate Valid()
      reads this
    {
      && Progress(raw, covered, cut, JoinedValues(values))
      && |values| <= |layout| && covered == 2 + SizeOf(layout, |values|)
      && (covered <= |raw| ==> Fits(values, layout))
    }

    /** The next item of the specification. */
    ghost predicate Next(s: Shape)
      reads this
    {
      |values| < |layout| && layout[|values|] == s
    }

    /** One member of the object. */
    method Field(start: nat, length: nat)
      requires Valid() && start == covered && 0 < length <= WIDEST && Next(One(length))
      modifies this
      ensures Valid() && covered == start + length && |values| == old(|values|) + 1
      ensures values == old(values) + [Text(ExtractField(raw, start, length))]
    {
      hide Progress, CutAfter, JoinedValues;
      var text := ExtractField(raw, start, length);
      FieldRead(raw, covered, cut, JoinedValues(values), length);
      ValuesSnoc(values, Text(text));
      cut := CutAfter(raw, covered, cut, length);
      values, covered := values + [Text(text)], covered + length;
    }

    /** One entry of a table. */
    method Entry(start: nat, columns: seq<Column>, stride: nat, ghost from: nat, ghost before: string)
      returns (entry: seq<string>, ghost cutAfter: nat)
      requires ColumnsTile(columns, stride) && Progress(raw, start, from, before)
      ensures EntryIs(entry, raw, start, columns)
      ensures Progress(raw, start + stride, cutAfter, before + Joined(entry))
    {
      hide Progress, ExtractField, CutAfter, ColumnsTile, ColumnsEnd, Joined;
      entry, cutAfter := [], from;
      ColumnsEnds(columns, stride);
      assert Joined([]) == "" by { JoinedNothing(); }
      assert before + "" == before;
      for j := 0 to |columns|
        invariant |entry| == j
        invariant forall m :: 0 <= m < j ==>
                    entry[m] == ExtractField(raw, start + columns[m].offset, columns[m].width)
        invariant Progress(raw, start + ColumnsEnd(columns, j), cutAfter, before + Joined(entry))
      {
        var (at, width) := (start + columns[j].offset, columns[j].width);
        var text := ExtractField(raw, at, width);
        ColumnRead(raw, start, columns, stride, j, cutAfter, before + Joined(entry));
        JoinedSnoc(entry, text);
        assert before + Joined(entry) + text == before + Joined(entry + [text]);
        cutAfter := CutAfter(raw, at, cutAfter, width);
        entry := entry + [text];
      }
    }

    /** One table: `count` entries of `stride` bytes each. */
    method Entries(first: nat, stride: nat, count: nat, columns: seq<Column>)
      returns (entries: seq<seq<string>>, ghost cutAfter: nat)
      requires Progress(raw, first, cut, JoinedValues(values)) && ColumnsTile(columns, stride)
      ensures |entries| == count
      ensures forall i :: 0 <= i < count ==> EntryIs(entries[i], raw, EntryStart(first, stride, i), columns)
      ensures Progress(raw, EntryStart(first, stride, count), cutAfter, JoinedValues(values) + JoinedEntries(entries))
    {
      hide Progress, EntryStart, ColumnsTile, EntryIs;
      hide Joined, JoinedEntries, JoinedValues, ExtractField, CutAfter, ColumnsEnd;
      entries, cutAfter := [], cut;
      ghost var before := JoinedValues(values);
      assert before + "" == before;
      NoEntriesJoined();
      EntryStartNext(first, stride, 0);
      for i := 0 to count
        invariant |entries| == i
        invariant forall k :: 0 <= k < i ==> EntryIs(entries[k], raw, EntryStart(first, stride, k), columns)
        invariant Progress(raw, EntryStart(first, stride, i), cutAfter, before + JoinedEntries(entries))
      {
        var basePos := EntryStart(first, stride, i);
        var entry, cutNow := Entry(basePos, columns, stride, cutAfter, before + JoinedEntries(entries));
        EntriesSnoc(entries, entry);
        assert before + JoinedEntries(entries) + Joined(entry) == before + JoinedEntries(entries + [entry]);
        EntryStartNext(first, stride, i);
        entries, cutAfter := entries + [entry], cutNow;
      }
    }

    /** A member that is a table. */
    method Table(first: nat, stride: nat, count: nat, columns: seq<Column>, ghost widths: seq<nat>)
      requires Valid() && first == covered && Next(Many(count, widths))
      requires ColumnsTile(columns, stride) && stride == Sum(widths) && |columns| == |widths|
      requires forall j :: 0 <= j < |columns| ==>
                 columns[j].width == widths[j] && columns[j].offset + columns[j].width <= stride
      modifies this
      ensures Valid() && covered == EntryStart(first, stride, count)
      ensures |values| == old(|values|) + 1
    {
      hide Progress, ColumnsTile, EntryIs, EntryFits, JoinedEntries, JoinedValues;
      var entries, cutAfter := Entries(first, stride, count, columns);
      if EntryStart(first, stride, count) <= |raw| {
        forall i | 0 <= i < count ensures EntryFits(entries[i], widths) {
          EntryStartWithin(first, stride, i, count);
          EntryIsWhole(entries[i], raw, EntryStart(first, stride, i), columns, widths, stride);
        }
      }
      ValuesSnoc(values, List(entries));
      values, covered, cut := values + [List(entries)], EntryStart(first, stride, count), cutAfter;
    }

    /** A table of entries with three columns. */
    method Triples(first: nat, stride: nat, count: nat, a: Column, b: Column, c: Column)
      requires Valid() && first == covered && Next(Many(count, [a.width, b.width, c.width]))
      requires a.offset == 0 && b.offset == a.width && c.offset == b.offset + b.width && stride == c.offset + c.width
      requires 0 < a.width <= WIDEST && 0 < b.width <= WIDEST && 0 < c.width <= WIDEST
      modifies this
      ensures Valid() && covered == EntryStart(first, stride, count) && |values| == old(|values|) + 1
    {
      hide Valid, EntryStart;
      SumOfThree(a.width, b.width, c.width);
      Table(first, stride, count, [a, b, c], [a.width, b.width, c.width]);
    }

    /** A table of entries with four columns. */
    method Quadruples(first: nat, stride: nat, count: nat, a: Column, b: Column, c: Column, d: Column)
      requires Valid() && first == covered && Next(Many(count, [a.width, b.width, c.width, d.width]))
      requires a.offset == 0 && b.offset == a.width && c.offset == b.offset + b.width && d.offset == c.offset + c.width
      requires stride == d.offset + d.width
      requires 0 < a.width <= WIDEST && 0 < b.width <= WIDEST && 0 < c.width <= WIDEST && 0 < d.width <= WIDEST
      modifies this
      ensures Valid() && covered == EntryStart(first, stride, count) && |values| == old(|values|) + 1
    {
      hide Valid, EntryStart;
      SumOfFour(a.width, b.width, c.width, d.width);
      Table(first, stride, count, [a, b, c, d], [a.width, b.width, c.width, d.width]);
    }

    /** What a parser keeps of a record whose last field ends at `end`: of a full one everything
        between the type and the line end, of a short one everything but a part of one field. */
    ghost predicate LosesNothing(end: nat)
      requires end >= 2
      reads this
    {
      && (|raw| >= end ==> JoinedValues(values) == raw[2..end])
      && (|raw| < end ==> exists k :: 2 <= k <= |raw| && |raw| - WIDEST < k && JoinedValues(values) == raw[2..k])
    }

    lemma AllRead(end: nat)
      requires Valid() && covered == end >= 2
      ensures LosesNothing(end) && (|raw| >= end ==> Fits(values, layout))
    {
    }

    /** The items that every record about a race begins with. */
    method ParseRace()
      requires Valid() && values == [] && covered == 2 && RACE <= layout
      modifies this
      ensures Valid() && |values| == 8 && covered == 27
    {
      hide Valid;
      Field(2, 1); Field(3, 8); Field(11, 4); Field(15, 4);
      Field(19, 2); Field(21, 2); Field(23, 2); Field(25, 2);
    }

    /** H1, the votes of all bets but the trifecta: seven tables; 28955 bytes with the line end. */
    method ParseH1Fields()
      requires Valid() && values == [] && covered == 2 && layout == H1_LAYOUT
      modifies this
      ensures Valid() && |values| == 42 && LosesNothing(28953) && (|raw| >= 28953 ==> Fits(values, H1_LAYOUT))
    {
      hide Valid;
      ParseRace();
      ParseSale();
      ParseVotes();
      ParseTotals();
      AllRead(28953);
    }

    method ParseSale()
      requires Valid() && covered == 27 && |values| == 8 && layout == H1_LAYOUT
      modifies this
      ensures Valid() && covered == 83 && |values| == 21
    {
      hide Valid;
      Field(27, 2); Field(29, 2); Field(31, 1); Field(32, 1); Field(33, 1); Field(34, 1); Field(35, 1);
      Field(36, 1); Field(37, 1); Field(38, 1); Field(39, 28); Field(67, 8); Field(75, 8);
    }

    method ParseVotes()
      requires Valid() && covered == 83 && |values| == 21 && layout == H1_LAYOUT
      modifies this
      ensures Valid() && covered == 28799 && |values| == 28
    {
      hide Valid;
      Triples(83, 15, 28, Column(0, 2), Column(2, 11), Column(13, 2));
      Triples(503, 15, 28, Column(0, 2), Column(2, 11), Column(13, 2));
      Triples(923, 15, 36, Column(0, 2), Column(2, 11), Column(13, 2));
      Triples(1463, 18, 153, Column(0, 4), Column(4, 11), Column(15, 3));
      Triples(4217, 18, 153, Column(0, 4), Column(4, 11), Column(15, 3));
      Triples(6971, 18, 306, Column(0, 4), Column(4, 11), Column(15, 3));
      Triples(12479, 20, 816, Column(0, 6), Column(6, 11), Column(17, 3));
    }

    method ParseTotals()
      requires Valid() && covered == 28799 && |values| == 28 && layout == H1_LAYOUT
      modifies this
      ensures Valid() && covered == 28953 && |values| == 42
    {
      hide Valid;
      Field(28799, 11); Field(28810, 11); Field(28821, 11); Field(28832, 11); Field(28843, 11);
      Field(28854, 11); Field(28865, 11); Field(28876, 11); Field(28887, 11); Field(28898, 11);
      Field(28909, 11); Field(28920, 11); Field(28931, 11); Field(28942, 11);
    }

    /** H6, the votes of the trifecta: 4896 entries; 102890 bytes with the line end. */
    method ParseH6Fields()
      requires Valid() && values == [] && covered == 2 && layout == H6_LAYOUT
      modifies this
      ensures Valid() && |values| == 15 && LosesNothing(102888) && (|raw| >= 102888 ==> Fits(values, H6_LAYOUT))
    {
      hide Valid;
      ParseRace();
      Field(27, 2); Field(29, 2); Field(31, 1); Field(32, 18);
      Triples(50, 21, 4896, Column(0, 6), Column(6, 11), Column(17, 4));
      Field(102866, 11); Field(102877, 11);
      AllRead(102888);
    }

    /** O1, the odds of win, place and bracket quinella; 962 bytes with the line end. */
    method ParseO1Fields()
      requires Valid() && values == [] && covered == 2 && layout == O1_LAYOUT
      modifies this
      ensures Valid() && |values| == 21 && LosesNothing(960) && (|raw| >= 960 ==> Fits(values, O1_LAYOUT))
    {
      hide Valid;
      ParseRace();
      Field(27, 8); Field(35, 2); Field(37, 2); Field(39, 1); Field(40, 1); Field(41, 1); Field(42, 1);
      Triples(43, 8, 28, Column(0, 2), Column(2, 4), Column(6, 2));
      Quadruples(267, 12, 28, Column(0, 2), Column(2, 4), Column(6, 4), Column(10, 2));
      Triples(603, 9, 36, Column(0, 2), Column(2, 5), Column(7, 2));
      Field(927, 11); Field(938, 11); Field(949, 11);
      AllRead(960);
    }

    /** O2, the odds of the quinella: 153 entries; 2042 bytes with the line end. */
    method ParseO2Fields()
      requires Valid() && values == [] && covered == 2 && layout == O2_LAYOUT
      modifies this
      ensures Valid() && |values| == 14 && LosesNothing(2040) && (|raw| >= 2040 ==> Fits(values, O2_LAYOUT))
    {
      hide Valid;
      ParseRace();
      Field(27, 8); Field(35, 2); Field(37, 2); Field(39, 1);
      Triples(40, 13, 153, Column(0, 4), Column(4, 6), Column(10, 3));
      Field(2029, 11);
      AllRead(2040);
    }
  }
  // ---------------------------------------------------------------- round trips

  /** A record written from its items. */
  function Written(recordType: string, items: seq<Value>, lineEnd: string): string {
    recordType + JoinedValues(items) + lineEnd
  }

  /** A parser that reads the whole layout gets back the items that a record was written from. */
  lemma ReadBack(p: ParsedRecord, recordType: string, items: seq<Value>, lineEnd: string)
    requires p.Valid() && |p.values| == |p.layout|
    requires |recordType| == 2 && p.raw == Written(recordType, items, lineEnd)
    requires Fits(items, p.layout) && |items| == |p.layout|
    ensures p.values == items
  {
    hide Fits, JoinedValues;
    ValuesSize(items, p.layout);
    assert p.raw[2..p.covered] == JoinedValues(items);
    ValuesDetermined(p.values, items, p.layout);
  }

  /** Items of the widths that the specification gives, written one behind the other, are what the parser
      makes of the record: no byte of one item ends up in another. */
  method H1RoundTrip(items: seq<Value>, lineEnd: string) returns (p: ParsedRecord)
    requires Fits(items, H1_LAYOUT) && |items| == |H1_LAYOUT|
    ensures fresh(p) && p.raw == Written("H1", items, lineEnd) && p.values == items
  {
    hide Fits, JoinedValues, ParsedRecord.Valid;
    p := new ParsedRecord(Written("H1", items, lineEnd), H1_LAYOUT);
    p.ParseH1Fields();
    ReadBack(p, "H1", items, lineEnd);
  }

  method H6RoundTrip(items: seq<Value>, lineEnd: string) returns (p: ParsedRecord)
    requires Fits(items, H6_LAYOUT) && |items| == |H6_LAYOUT|
    ensures fresh(p) && p.raw == Written("H6", items, lineEnd) && p.values == items
  {
    hide Fits, JoinedValues, ParsedRecord.Valid;
    p := new ParsedRecord(Written("H6", items, lineEnd), H6_LAYOUT);
    p.ParseH6Fields();
    ReadBack(p, "H6", items, lineEnd);
  }

  method O1RoundTrip(items: seq<Value>, lineEnd: string) returns (p: ParsedRecord)
    requires Fits(items, O1_LAYOUT) && |items| == |O1_LAYOUT|
    ensures fresh(p) && p.raw == Written("O1", items, lineEnd) && p.values == items
  {
    hide Fits, JoinedValues, ParsedRecord.Valid;
    p := new ParsedRecord(Written("O1", items, lineEnd), O1_LAYOUT);
    p.ParseO1Fields();
    ReadBack(p, "O1", items, lineEnd);
  }

  method O2RoundTrip(items: seq<Value>, lineEnd: string) returns (p: ParsedRecord)
    requires Fits(items, O2_LAYOUT) && |items| == |O2_LAYOUT|
    ensures fresh(p) && p.raw == Written("O2", items, lineEnd) && p.values == items
  {
    hide Fits, JoinedValues, ParsedRecord.Valid;
    p := new ParsedRecord(Written("O2", items, lineEnd), O2_LAYOUT);
    p.ParseO2Fields();
    ReadBack(p, "O2", items, lineEnd);
  }
}
