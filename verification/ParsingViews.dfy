/** The other lists that are parsed lazily: the columns of a RowDescription and the mechanisms
    of a SASL request (src/messages.cpp, include/nativepg/protocol/views.hpp). Their items
    start with a string whose end is found by an unchecked search for a NUL. */
module ParsingViews {
  import opened Messages
  import opened DataRows

  predicate NoNul(s: Text) {
    forall i | 0 <= i < |s| :: s[i] != 0
  }

  /** The unchecked search for the end of a string stays inside the message. */
  predicate StringInBounds(data: Text, p: nat) {
    p <= |data| && NulFrom(data, p) < |data|
  }

  function StringAt(data: Text, p: nat): (s: Text)
    requires StringInBounds(data, p)
    ensures NoNul(s)
  {
    data[p..NulFrom(data, p)]
  }

  function AfterString(data: Text, p: nat): (q: nat)
    requires StringInBounds(data, p)
    ensures p < q <= |data|
  {
    NulFrom(data, p) + 1
  }

  function EncodeString(s: Text): Text {
    s + [0]
  }

  lemma {:induction false} StringIsEncoded(data: Text, p: nat)
    requires StringInBounds(data, p)
    ensures data[p..AfterString(data, p)] == EncodeString(StringAt(data, p))
  {
  }

  lemma {:induction false} EncodedString(data: Text, p: nat, s: Text)
    requires NoNul(s) && p + |s| + 1 <= |data| && data[p..p + |s| + 1] == EncodeString(s)
    ensures StringInBounds(data, p) && StringAt(data, p) == s && AfterString(data, p) == p + |s| + 1
  {
    var e := EncodeString(s);
    assert forall i | 0 <= i < |e| :: data[p + i] == e[i];
    NulAt(data, p, p + |s|);
    assert data[p..p + |s|] == data[p..p + |s| + 1][..|s|] == e[..|s|] == s;
  }

  lemma {:induction false} NulAt(data: Text, p: nat, q: nat)
    requires p <= q < |data| && data[q] == 0 && forall i | p <= i < q :: data[i] != 0
    ensures NulFrom(data, p) == q
  {
  }

  // ----- the mechanisms of a SASL request

  datatype Mechanisms = Mechanisms(count: nat, begin: nat, end: nat) | Malformed(error: ClientError)

  datatype ListWalk = Reaches(count: nat, at: nat) | Stuck

  /** The strings from p on, up to an empty one: how many, and the position after it. */
  function WalkStrings(data: Text, p: nat): ListWalk
    requires p <= |data|
    decreases |data| - p
  {
    if !StringInBounds(data, p) then Stuck
    else if StringAt(data, p) == [] then Reaches(0, AfterString(data, p))
    else
      match WalkStrings(data, AfterString(data, p))
      case Stuck => Stuck
      case Reaches(n, at) => Reaches(n + 1, at)
  }

  /** The view ends one byte before the position reached: the empty string is not an item. */
  function ParseMechanisms(data: Text): Mechanisms {
    match WalkStrings(data, 0)
    case Stuck => Malformed(IncompleteMessage)
    case Reaches(n, at) => if at != |data| then Malformed(ExtraBytes) else Mechanisms(n, 0, if at > 0 then at - 1 else at)
  }

  /** parse, for a SASL request. */
  method ParseSasl(data: Text) returns (r: Mechanisms)
    ensures r == ParseMechanisms(data)
  {
    hide WalkStrings, More, StringAt, NulFrom;
    var ctx := new ParseContext(data);
    var begin, n := ctx.first, 0;
    NoneMore(WalkStrings(data, 0));
    OneString(data, 0, 0);
    var s := ctx.GetString();
    while s != []
      invariant ctx.Valid() && ctx.data == data && fresh(ctx) && begin == 0
      invariant WalkStrings(data, 0) == After(n, ctx.error, s, data, ctx.first)
      invariant ctx.error.Some? ==> s == [] && ctx.error == Some(IncompleteMessage)
      invariant ctx.error.None? ==> ctx.first > 0
      decreases |data| - ctx.first, |s|
    {
      n := n + 1;
      OneString(data, ctx.first, n);
      s := ctx.GetString();
    }
    var current := ctx.first;
    var e := ctx.Check();
    r := if e.Some? then Malformed(e.value) else Mechanisms(n, begin, if current > begin then current - 1 else current);
  }

  /** The whole walk, when n strings before s were read and the cursor is behind s. */
  function After(n: nat, error: Option<ClientError>, s: Text, data: Text, at: nat): ListWalk
    requires at <= |data|
  {
    if error.Some? then Stuck else if s == [] then Reaches(n, at) else More(n + 1, WalkStrings(data, at))
  }

  lemma {:induction false} NoneMore(w: ListWalk)
    ensures More(0, w) == w
  {
  }

  lemma {:induction false} OneString(data: Text, p: nat, n: nat)
    requires p <= |data|
    ensures More(n, WalkStrings(data, p)) ==
      if NulFrom(data, p) == |data| then Stuck
      else if NulFrom(data, p) == p then Reaches(n, p + 1)
      else More(n + 1, WalkStrings(data, NulFrom(data, p) + 1))
  {
  }

  function More(n: nat, w: ListWalk): ListWalk {
    match w
    case Stuck => Stuck
    case Reaches(k, at) => Reaches(n + k, at)
  }

  /** Iterating from p to the end pointer is safe, and meets it. */
  predicate StringsIterable(data: Text, p: nat, end: nat)
    decreases end - p
  {
    p == end ||
    (p < end && StringInBounds(data, p) && AfterString(data, p) <= end && StringsIterable(data, AfterString(data, p), end))
  }

  function VisitStrings(data: Text, p: nat, end: nat): seq<Text>
    requires StringsIterable(data, p, end)
    decreases end - p
  {
    if p == end then [] else [StringAt(data, p)] + VisitStrings(data, AfterString(data, p), end)
  }

  predicate GoodNames(ss: seq<Text>) {
    forall i | 0 <= i < |ss| :: ss[i] != [] && NoNul(ss[i])
  }

  function EncodeStrings(ss: seq<Text>): Text {
    if ss == [] then [] else EncodeString(ss[0]) + EncodeStrings(ss[1..])
  }

  /** The list on the wire: each name, then an empty one. */
  function EncodeMechanisms(ss: seq<Text>): Text {
    EncodeStrings(ss) + [0]
  }

  lemma {:induction false} WalkVisitsStrings(data: Text, p: nat)
    requires p <= |data| && WalkStrings(data, p).Reaches?
    ensures var r := WalkStrings(data, p);
      && p < r.at <= |data| && data[r.at - 1] == 0 && StringsIterable(data, p, r.at - 1)
      && var ss := VisitStrings(data, p, r.at - 1);
         |ss| == r.count && GoodNames(ss) && data[p..r.at - 1] == EncodeStrings(ss)
    decreases |data| - p
  {
    hide StringAt, EncodeString;
    StringEmpty(data, p);
    if StringAt(data, p) != [] {
      StringIsEncoded(data, p);
      var q := AfterString(data, p);
      WalkVisitsStrings(data, q);
      var end := WalkStrings(data, q).at - 1;
      var rest := VisitStrings(data, q, end);
      var ss := [StringAt(data, p)] + rest;
      assert VisitStrings(data, p, end) == ss && ss[1..] == rest;
      assert data[p..end] == data[p..q] + data[q..end];
    }
  }

  lemma {:induction false} StringEmpty(data: Text, p: nat)
    requires StringInBounds(data, p)
    ensures StringAt(data, p) == [] <==> AfterString(data, p) == p + 1
    ensures data[AfterString(data, p) - 1] == 0 && NoNul(StringAt(data, p))
  {
  }

  lemma {:induction false} EncodedStringsWalk(data: Text, p: nat, ss: seq<Text>)
    requires GoodNames(ss) && p + |EncodeStrings(ss)| < |data|
    requires data[p..p + |EncodeStrings(ss)|] == EncodeStrings(ss) && data[p + |EncodeStrings(ss)|] == 0
    ensures var q := p + |EncodeStrings(ss)|;
      WalkStrings(data, p) == Reaches(|ss|, q + 1) && StringsIterable(data, p, q) && VisitStrings(data, p, q) == ss
    decreases |ss|
  {
    hide WalkStrings, VisitStrings, StringsIterable;
    if ss == [] {
      NulAt(data, p, p);
      LastString(data, p);
    } else {
      var b, rest := EncodeString(ss[0]), EncodeStrings(ss[1..]);
      assert EncodeStrings(ss) == b + rest;
      hide StringAt, NulFrom, EncodeStrings, StringInBounds, AfterString;
      SplitIn(data, p, b, rest);
      EncodedString(data, p, ss[0]);
      EncodedStringsWalk(data, p + |b|, ss[1..]);
      NextString(data, p, p + |b| + |rest|);
      assert [ss[0]] + ss[1..] == ss;
    }
  }

  lemma {:induction false} LastString(data: Text, p: nat)
    requires StringInBounds(data, p) && StringAt(data, p) == []
    ensures WalkStrings(data, p) == Reaches(0, AfterString(data, p)) && StringsIterable(data, p, p) && VisitStrings(data, p, p) == []
  {
  }

  lemma {:induction false} NextString(data: Text, p: nat, end: nat)
    requires StringInBounds(data, p) && StringAt(data, p) != []
    ensures WalkStrings(data, p) == More(1, WalkStrings(data, AfterString(data, p)))
    ensures AfterString(data, p) <= end && StringsIterable(data, AfterString(data, p), end) ==>
      StringsIterable(data, p, end) && VisitStrings(data, p, end) == [StringAt(data, p)] + VisitStrings(data, AfterString(data, p), end)
  {
    hide StringAt, NulFrom;
  }

  /** Every list of mechanisms comes back from its message, and iterating its view meets the
      end pointer. */
  lemma {:induction false} MechanismsRoundTrip(ss: seq<Text>)
    requires GoodNames(ss)
    ensures var data := EncodeMechanisms(ss); var end := |data| - 1;
      && ParseMechanisms(data) == Mechanisms(|ss|, 0, end)
      && StringsIterable(data, 0, end) && VisitStrings(data, 0, end) == ss
  {
    hide WalkStrings, VisitStrings, StringsIterable, EncodeStrings;
    var data := EncodeMechanisms(ss);
    assert data[0..0 + |EncodeStrings(ss)|] == EncodeStrings(ss);
    EncodedStringsWalk(data, 0, ss);
  }

  /** A list that is accepted is the encoding of what its view visits, as many as counted. */
  lemma {:induction false} ParsedMechanismsAreEncoded(data: Text)
    requires ParseMechanisms(data).Mechanisms?
    ensures var r := ParseMechanisms(data);
      && r.begin <= r.end < |data| && StringsIterable(data, r.begin, r.end)
      && var ss := VisitStrings(data, r.begin, r.end);
         |ss| == r.count && GoodNames(ss) && data == EncodeMechanisms(ss)
  {
    hide WalkStrings, VisitStrings, StringsIterable, EncodeStrings;
    WalkVisitsStrings(data, 0);
    assert data == data[0..|data| - 1] + [data[|data| - 1]];
  }

  // ----- the columns of a row description

  datatype Column = Column(name: Text, tableOid: int, attribute: int, typeOid: int, typeLength: int, modifier: int, format: int)

  predicate Is16(n: int) {
    -0x8000 <= n < 0x8000
  }

  predicate Is32(n: int) {
    -0x8000_0000 <= n < 0x8000_0000
  }

  /** The format code is text or binary. */
  predicate GoodFormat(n: int) {
    n == 0 || n == 1
  }

  predicate GoodColumn(c: Column) {
    && NoNul(c.name) && Is32(c.tableOid) && Is16(c.attribute) && Is32(c.typeOid) && Is16(c.typeLength) && Is32(c.modifier)
    && GoodFormat(c.format)
  }

  /** The eighteen bytes after the name. */
  function EncodeFixed(c: Column): (b: Text)
    requires GoodColumn(c)
    ensures |b| == 18
  {
    Bytes32(c.tableOid) + Bytes16(c.attribute) + Bytes32(c.typeOid) + Bytes16(c.typeLength) + Bytes32(c.modifier) + Bytes16(c.format)
  }

  function FixedAt(name: Text, data: Text, p: nat): Column
    requires p + 18 <= |data|
  {
    Column(name, Int32(data, p), Int16(data, p + 4), Int32(data, p + 6), Int16(data, p + 10), Int32(data, p + 12), Int16(data, p + 16))
  }

  function EncodeColumn(c: Column): Text
    requires GoodColumn(c)
  {
    EncodeString(c.name) + EncodeFixed(c)
  }

  lemma {:induction false} FixedIsEncoded(name: Text, data: Text, p: nat)
    requires p + 18 <= |data| && NoNul(name) && GoodFormat(Int16(data, p + 16))
    ensures GoodColumn(FixedAt(name, data, p)) && data[p..p + 18] == EncodeFixed(FixedAt(name, data, p))
  {
    hide Int32, Int16, Bytes32, Bytes16, NoNul;
    BytesInt32(data, p);
    BytesInt16(data, p + 4);
    BytesInt32(data, p + 6);
    BytesInt16(data, p + 10);
    BytesInt32(data, p + 12);
    BytesInt16(data, p + 16);
    assert data[p..p + 18] ==
      data[p..p + 4] + data[p + 4..p + 6] + data[p + 6..p + 10] + data[p + 10..p + 12] + data[p + 12..p + 16] + data[p + 16..p + 18];
  }

  lemma {:induction false} EncodedFixed(data: Text, p: nat, c: Column)
    requires GoodColumn(c) && p + 18 <= |data| && data[p..p + 18] == EncodeFixed(c)
    ensures FixedAt(c.name, data, p) == c
  {
    hide Int32, Int16, Bytes32, Bytes16;
    var e := EncodeFixed(c);
    FixedPieces(c);
    SliceOf(data, p, e, 0, 4);
    SliceOf(data, p, e, 4, 6);
    SliceOf(data, p, e, 6, 10);
    SliceOf(data, p, e, 10, 12);
    SliceOf(data, p, e, 12, 16);
    SliceOf(data, p, e, 16, 18);
    Int32Bytes(c.tableOid, data, p);
    Int16Bytes(c.attribute, data, p + 4);
    Int32Bytes(c.typeOid, data, p + 6);
    Int16Bytes(c.typeLength, data, p + 10);
    Int32Bytes(c.modifier, data, p + 12);
    Int16Bytes(c.format, data, p + 16);
  }

  lemma {:induction false} SliceOf(data: Text, p: nat, e: Text, i: nat, j: nat)
    requires p + |e| <= |data| && data[p..p + |e|] == e && i <= j <= |e|
    ensures data[p + i..p + j] == e[i..j]
  {
    forall k | 0 <= k < j - i ensures data[p + i..p + j][k] == e[i..j][k] {
      assert data[p..p + |e|][i + k] == e[i + k];
    }
  }

  lemma {:induction false} FixedPieces(c: Column)
    requires GoodColumn(c)
    ensures var e := EncodeFixed(c);
      && e[0..4] == Bytes32(c.tableOid) && e[4..6] == Bytes16(c.attribute) && e[6..10] == Bytes32(c.typeOid)
      && e[10..12] == Bytes16(c.typeLength) && e[12..16] == Bytes32(c.modifier) && e[16..18] == Bytes16(c.format)
  {
    hide Bytes32, Bytes16;
  }

  datatype Columns = Columns(count: nat, begin: nat, end: nat) | BadColumns(error: ClientError)

  predicate ColumnInBounds(data: Text, p: nat) {
    StringInBounds(data, p) && AfterString(data, p) + 18 <= |data|
  }

  function ColumnAt(data: Text, p: nat): Column
    requires ColumnInBounds(data, p)
  {
    FixedAt(StringAt(data, p), data, AfterString(data, p))
  }

  function AfterColumn(data: Text, p: nat): (q: nat)
    requires ColumnInBounds(data, p)
    ensures p < q <= |data|
  {
    AfterString(data, p) + 18
  }

  function WalkColumns(data: Text, p: nat, n: nat): Walk
    requires p <= |data|
    decreases n
  {
    if n == 0 then Ends(p)
    else if !ColumnInBounds(data, p) then Stops(IncompleteMessage)
    else if !GoodFormat(ColumnAt(data, p).format) then Stops(ProtocolValueError)
    else WalkColumns(data, AfterColumn(data, p), n - 1)
  }

  function ParseColumns(data: Text): Columns {
    if |data| < 2 then BadColumns(IncompleteMessage)
    else if Int16(data, 0) < 0 then BadColumns(ProtocolValueError)
    else match WalkColumns(data, 2, Int16(data, 0))
      case Stops(e) => BadColumns(e)
      case Ends(at) => if at == |data| then Columns(Int16(data, 0), 2, at) else BadColumns(ExtraBytes)
  }

  /** One column in the loop below: the cursor moves behind it, or the first error is noted. */
  method CheckColumn(ctx: ParseContext)
    requires ctx.Valid()
    modifies ctx
    ensures ctx.Valid()
    ensures old(ctx.error).Some? ==> ctx.error == old(ctx.error)
    ensures old(ctx.error).None? ==>
      if !ColumnInBounds(ctx.data, old(ctx.first)) then ctx.error == Some(IncompleteMessage)
      else if !GoodFormat(ColumnAt(ctx.data, old(ctx.first)).format) then ctx.error == Some(ProtocolValueError)
      else ctx.error == None && ctx.first == AfterColumn(ctx.data, old(ctx.first))
  {
    hide Int32, Int16, NulFrom;
    var _ := ctx.GetString();
    ctx.CheckSizeAndAdvance(16);
    var format := ctx.GetInt16();
    if !GoodFormat(format) {
      ctx.AddError(ProtocolValueError);
    }
  }

  /** parse, for a RowDescription. */
  method ParseRowDescription(data: Text) returns (r: Columns)
    ensures r == ParseColumns(data)
  {
    hide ColumnAt, ColumnInBounds, AfterColumn;
    var ctx := new ParseContext(data);
    var n := ctx.GetCount();
    var begin := ctx.first;
    for i := 0 to n
      invariant ctx.Valid() && ctx.data == data && fresh(ctx) && begin <= |data|
      invariant ctx.error.None? ==>
        |data| >= 2 && Int16(data, 0) == n && begin == 2 && WalkColumns(data, ctx.first, n - i) == WalkColumns(data, 2, n)
      invariant ctx.error.Some? ==> ParseColumns(data) == BadColumns(ctx.error.value)
    {
      CheckColumn(ctx);
    }
    var end := ctx.first;
    var e := ctx.Check();
    r := if e.Some? then BadColumns(e.value) else Columns(n, begin, end);
  }

  /** Iterating from p to the end pointer is safe, and meets it. */
  predicate ColumnsIterable(data: Text, p: nat, end: nat)
    decreases end - p
  {
    p == end ||
    (p < end && ColumnInBounds(data, p) && AfterColumn(data, p) <= end && ColumnsIterable(data, AfterColumn(data, p), end))
  }

  function VisitColumns(data: Text, p: nat, end: nat): seq<Column>
    requires ColumnsIterable(data, p, end)
    decreases end - p
  {
    if p == end then [] else [ColumnAt(data, p)] + VisitColumns(data, AfterColumn(data, p), end)
  }

  predicate GoodColumns(cs: seq<Column>) {
    forall i | 0 <= i < |cs| :: GoodColumn(cs[i])
  }

  function EncodeColumns(cs: seq<Column>): Text
    requires GoodColumns(cs)
  {
    if cs == [] then [] else EncodeColumn(cs[0]) + EncodeColumns(cs[1..])
  }

  function EncodeRowDescription(cs: seq<Column>): Text
    requires GoodColumns(cs) && |cs| < 0x8000
  {
    Bytes16(|cs|) + EncodeColumns(cs)
  }

  lemma {:induction false} ColumnIsEncoded(data: Text, p: nat)
    requires ColumnInBounds(data, p) && GoodFormat(ColumnAt(data, p).format)
    ensures GoodColumn(ColumnAt(data, p)) && data[p..AfterColumn(data, p)] == EncodeColumn(ColumnAt(data, p))
  {
    hide Int32, Int16, EncodeFixed, EncodeString, NulFrom;
    var q := AfterString(data, p);
    StringIsEncoded(data, p);
    FixedIsEncoded(StringAt(data, p), data, q);
    assert data[p..q + 18] == data[p..q] + data[q..q + 18];
  }

  lemma {:induction false} EncodedColumn(data: Text, p: nat, c: Column)
    requires GoodColumn(c) && p + |EncodeColumn(c)| <= |data| && data[p..p + |EncodeColumn(c)|] == EncodeColumn(c)
    ensures ColumnInBounds(data, p) && ColumnAt(data, p) == c && AfterColumn(data, p) == p + |EncodeColumn(c)|
  {
    hide FixedAt, EncodeFixed, NulFrom, GoodColumn;
    SplitIn(data, p, EncodeString(c.name), EncodeFixed(c));
    NameHasNoNul(c);
    EncodedString(data, p, c.name);
    EncodedFixed(data, p + |c.name| + 1, c);
  }

  lemma {:induction false} NameHasNoNul(c: Column)
    requires GoodColumn(c)
    ensures NoNul(c.name)
  {
  }

  /** After a successful walk the view visits the declared number of columns, in bounds, and
      they are the ones on the wire. */
  lemma {:induction false} WalkVisitsColumns(data: Text, p: nat, n: nat)
    requires p <= |data| && WalkColumns(data, p, n).Ends?
    ensures var q := WalkColumns(data, p, n).at;
      && p <= q <= |data| && ColumnsIterable(data, p, q)
      && var cs := VisitColumns(data, p, q); |cs| == n && GoodColumns(cs) && data[p..q] == EncodeColumns(cs)
    decreases n
  {
    hide ColumnAt, ColumnInBounds, AfterColumn, EncodeColumn, GoodColumn;
    if n > 0 {
      ColumnIsEncoded(data, p);
      var next := AfterColumn(data, p);
      WalkVisitsColumns(data, next, n - 1);
      var q := WalkColumns(data, p, n).at;
      var rest := VisitColumns(data, next, q);
      var cs := [ColumnAt(data, p)] + rest;
      assert VisitColumns(data, p, q) == cs && cs[1..] == rest;
      assert data[p..q] == data[p..next] + data[next..q];
    }
  }

  lemma {:induction false} NextColumn(data: Text, p: nat, n: nat, end: nat)
    requires ColumnInBounds(data, p) && GoodFormat(ColumnAt(data, p).format) && n > 0
    ensures WalkColumns(data, p, n) == WalkColumns(data, AfterColumn(data, p), n - 1)
    ensures AfterColumn(data, p) <= end && ColumnsIterable(data, AfterColumn(data, p), end) ==>
      ColumnsIterable(data, p, end) && VisitColumns(data, p, end) == [ColumnAt(data, p)] + VisitColumns(data, AfterColumn(data, p), end)
  {
    hide ColumnAt;
  }

  lemma {:induction false} NoColumns(data: Text, p: nat)
    requires p <= |data|
    ensures WalkColumns(data, p, 0) == Ends(p) && ColumnsIterable(data, p, p) && VisitColumns(data, p, p) == []
  {
  }

  lemma {:induction false} EncodedColumnsWalk(data: Text, p: nat, cs: seq<Column>)
    requires GoodColumns(cs) && p + |EncodeColumns(cs)| <= |data| && data[p..p + |EncodeColumns(cs)|] == EncodeColumns(cs)
    ensures var q := p + |EncodeColumns(cs)|;
      WalkColumns(data, p, |cs|) == Ends(q) && ColumnsIterable(data, p, q) && VisitColumns(data, p, q) == cs
    decreases |cs|
  {
    hide EncodeColumn, ColumnAt, ColumnInBounds, AfterColumn, WalkColumns, VisitColumns, ColumnsIterable, GoodColumn;
    if cs == [] {
      NoColumns(data, p);
    } else {
      var b, rest := EncodeColumn(cs[0]), EncodeColumns(cs[1..]);
      assert EncodeColumns(cs) == b + rest;
      hide EncodeColumns;
      SplitIn(data, p, b, rest);
      EncodedColumn(data, p, cs[0]);
      FormatIsGood(cs[0]);
      EncodedColumnsWalk(data, p + |b|, cs[1..]);
      NextColumn(data, p, |cs|, p + |b| + |rest|);
      assert [cs[0]] + cs[1..] == cs;
    }
  }

  lemma {:induction false} FormatIsGood(c: Column)
    requires GoodColumn(c)
    ensures GoodFormat(c.format)
  {
  }

  /** Every row description comes back from its message, and iterating its view meets the end
      pointer. */
  lemma {:induction false} ColumnsRoundTrip(cs: seq<Column>)
    requires GoodColumns(cs) && |cs| < 0x8000
    ensures var data := EncodeRowDescription(cs);
      && ParseColumns(data) == Columns(|cs|, 2, |data|)
      && ColumnsIterable(data, 2, |data|) && VisitColumns(data, 2, |data|) == cs
  {
    hide Bytes16, Int16, WalkColumns, VisitColumns, ColumnsIterable, EncodeColumns, GoodColumns;
    var data := EncodeRowDescription(cs);
    assert data[0..2] == Bytes16(|cs|) && data[2..2 + |EncodeColumns(cs)|] == EncodeColumns(cs);
    Int16Bytes(|cs|, data, 0);
    EncodedColumnsWalk(data, 2, cs);
  }

  /** A message that is accepted is the encoding of the columns its view visits, as many as
      declared, with known format codes. */
  lemma {:induction false} ParsedColumnsAreEncoded(data: Text)
    requires ParseColumns(data).Columns?
    ensures var r := ParseColumns(data);
      && r.begin <= r.end == |data| && ColumnsIterable(data, r.begin, r.end)
      && var cs := VisitColumns(data, r.begin, r.end);
         |cs| == r.count < 0x8000 && GoodColumns(cs) && data == EncodeRowDescription(cs)
  {
    hide WalkColumns, VisitColumns, ColumnsIterable, EncodeColumns, GoodColumns, Int16, Bytes16;
    WalkVisitsColumns(data, 2, Int16(data, 0));
    assert data == data[0..2] + data[2..|data|];
    BytesInt16(data, 0);
  }
}
