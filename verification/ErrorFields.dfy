/** The fields of errors and notices (src/messages.cpp) and the SQLSTATE among them
    (include/nativepg/sqlstate.hpp, src/sqlstate.cpp). */
module ErrorFields {
  import opened Messages
  import opened DataRows
  import opened ParsingViews

  // ----- the fields

  /** The letters that the parser knows. */
  predicate Known(t: Byte) {
    t in [83, 86, 67, 77, 68, 72, 80, 112, 113, 87, 115, 116, 99, 100, 110, 70, 76, 82]
  }

  /** The letter of the SQLSTATE. */
  const StateLetter: Byte := 67

  /** They are those of the table of error and notice fields of the protocol. */
  lemma {:induction false} KnownLetters(t: Byte)
    ensures Known(t) <==> t in Ascii("SVCMDHPpqWstcdnFLR")
    ensures StateLetter == 'C' as int
  {
    assert Ascii("SVCMDHPpqWstcdnFLR") == [83, 86, 67, 77, 68, 72, 80, 112, 113, 87, 115, 116, 99, 100, 110, 70, 76, 82];
  }

  type Fields = map<Byte, Text>

  datatype Notice = Notice(fields: Fields) | BadNotice(error: ClientError)

  /** The loop from position p on, when some fields were read: the value of a known letter is
      the string behind it, and nothing is read behind an unknown letter. */
  function Scan(data: Text, p: nat, got: Fields): Notice
    requires p <= |data|
    decreases |data| - p
  {
    if p == |data| then BadNotice(IncompleteMessage)
    else if data[p] == 0 then if p + 1 == |data| then Notice(got) else BadNotice(ExtraBytes)
    else if !Known(data[p]) then Scan(data, p + 1, got)
    else
      var q := NulFrom(data, p + 1);
      if q == |data| then BadNotice(IncompleteMessage) else Scan(data, q + 1, got[data[p] := data[p + 1..q]])
  }

  function ParseNotice(data: Text): Notice {
    Scan(data, 0, map[])
  }

  /** populate_field. */
  method Populate(ctx: ParseContext, t: Byte, fields: Fields) returns (fields': Fields)
    requires ctx.Valid()
    modifies ctx
    ensures ctx.Valid()
    ensures !Known(t) ==> fields' == fields && ctx.first == old(ctx.first) && ctx.error == old(ctx.error)
    ensures Known(t) && old(ctx.error).None? ==>
      var q := NulFrom(ctx.data, old(ctx.first));
      if q == |ctx.data| then ctx.error == Some(IncompleteMessage)
      else ctx.error == None && ctx.first == q + 1 && fields' == fields[t := ctx.data[old(ctx.first)..q]]
  {
    fields' := fields;
    if Known(t) {
      var value := ctx.GetString();
      fields' := fields[t := value];
    }
  }

  /** parse_error_notice. */
  method ParseErrorNotice(data: Text) returns (r: Notice)
    ensures r == ParseNotice(data)
  {
    hide Known, NulFrom;
    var ctx := new ParseContext(data);
    var fields: Fields := map[];
    var t := ctx.GetByte();
    while t != 0
      invariant ctx.Valid() && ctx.data == data && fresh(ctx)
      invariant ctx.error.Some? ==> t == 0 && ParseNotice(data) == BadNotice(ctx.error.value)
      invariant ctx.error.None? ==> ctx.first > 0 && data[ctx.first - 1] == t && ParseNotice(data) == Scan(data, ctx.first - 1, fields)
      decreases ctx.error.None?, |data| - ctx.first, t
    {
      fields := Populate(ctx, t, fields);
      t := ctx.GetByte();
    }
    var e := ctx.Check();
    r := if e.Some? then BadNotice(e.value) else Notice(fields);
  }

  // ----- what a server sends, and what is read of it

  /** A field as the server sends it: a letter and a string. */
  datatype Entry = Entry(kind: Byte, value: Text)

  predicate GoodEntry(e: Entry) {
    e.kind != 0 && NoNul(e.value)
  }

  predicate GoodEntries(es: seq<Entry>) {
    forall i | 0 <= i < |es| :: GoodEntry(es[i])
  }

  function EncodeEntry(e: Entry): Text {
    [e.kind] + e.value + [0]
  }

  function EncodeEntries(es: seq<Entry>): Text {
    if es == [] then [0] else EncodeEntry(es[0]) + EncodeEntries(es[1..])
  }

  /** The fields of the known letters; the last one of each counts. */
  function Collect(es: seq<Entry>, got: Fields): Fields {
    if es == [] then got
    else Collect(es[1..], if Known(es[0].kind) then got[es[0].kind := es[0].value] else got)
  }

  /** Where the first known letter from i on is, or the end. */
  function KnownFrom(v: Text, i: nat): (j: nat)
    requires i <= |v|
    ensures i <= j <= |v| && (forall k | i <= k < j :: !Known(v[k])) && (j < |v| ==> Known(v[j]))
    decreases |v| - i
  {
    if i == |v| || Known(v[i]) then i else KnownFrom(v, i + 1)
  }

  /** What is read of an entry: of an unknown one, the part from the first known letter on. */
  function Reading(e: Entry): Option<Entry> {
    if Known(e.kind) then Some(e)
    else
      var i := KnownFrom(e.value, 0);
      if i == |e.value| then None else Some(Entry(e.value[i], e.value[i + 1..]))
  }

  predicate Readable(es: seq<Entry>) {
    forall i | 0 <= i < |es| :: Reading(es[i]).Some?
  }

  /** The entries as they are read. */
  function Readings(es: seq<Entry>): seq<Entry>
    requires Readable(es)
  {
    if es == [] then [] else [Reading(es[0]).value] + Readings(es[1..])
  }

  /** Unknown letters are passed one by one. */
  lemma {:induction false} PassUnknown(data: Text, p: nat, q: nat, got: Fields)
    requires p <= q <= |data| && forall k | p <= k < q :: data[k] != 0 && !Known(data[k])
    ensures Scan(data, p, got) == Scan(data, q, got)
    decreases q - p
  {
    hide Known;
    if p < q {
      PassUnknown(data, p + 1, q, got);
    }
  }

  /** A known letter, its string, and the NUL. */
  lemma {:induction false} TakeKnown(data: Text, p: nat, q: nat, got: Fields)
    requires p < q < |data| && Known(data[p]) && data[p] != 0 && data[q] == 0 && forall k | p < k < q :: data[k] != 0
    ensures Scan(data, p, got) == Scan(data, q + 1, got[data[p] := data[p + 1..q]])
  {
    hide Known;
    assert NulFrom(data, p + 1) == q;
  }

  lemma {:induction false} KnownIsLetter(t: Byte)
    ensures Known(t) ==> t != 0
  {
  }

  /** One entry in front of the rest. */
  lemma {:induction false} ScanEntry(data: Text, p: nat, e: Entry, got: Fields)
    requires GoodEntry(e) && p + |e.value| + 2 < |data| && data[p] == e.kind && data[p + 1 + |e.value|] == 0
    requires data[p + 1..p + 1 + |e.value|] == e.value
    ensures match Reading(e)
      case None => Scan(data, p, got) == BadNotice(ExtraBytes)
      case Some(x) => Scan(data, p, got) == Scan(data, p + |e.value| + 2, got[x.kind := x.value])
  {
    hide Known, Scan;
    var v, end := e.value, p + 1 + |e.value|;
    assert forall k | p < k < end :: data[k] == v[k - p - 1];
    if Known(e.kind) {
      TakeKnown(data, p, end, got);
    } else {
      var i := KnownFrom(v, 0);
      var q := p + 1 + i;
      PassUnknown(data, p, q, got);
      if i < |v| {
        KnownIsLetter(v[i]);
        TakeKnown(data, q, end, got);
        assert data[q + 1..end] == v[i + 1..];
      } else {
        StopEarly(data, q, got);
      }
    }
  }

  lemma {:induction false} StopEarly(data: Text, p: nat, got: Fields)
    requires p + 1 < |data| && data[p] == 0
    ensures Scan(data, p, got) == BadNotice(ExtraBytes)
  {
  }

  lemma {:induction false} EntryLayout(before: Text, e: Entry, rest: Text)
    ensures var data := before + (EncodeEntry(e) + rest); var p := |before|;
      && |data| == p + |e.value| + 2 + |rest|
      && data[p] == e.kind && data[p + 1 + |e.value|] == 0
      && data[p + 1..p + 1 + |e.value|] == e.value
  {
    var data, p := before + (EncodeEntry(e) + rest), |before|;
    assert data == before + [e.kind] + e.value + [0] + rest;
  }

  /** The entries from a position on. */
  lemma {:induction false} ScanEntries(before: Text, es: seq<Entry>, got: Fields)
    requires GoodEntries(es)
    ensures var r := Scan(before + EncodeEntries(es), |before|, got);
      if Readable(es) then r == Notice(Collect(Readings(es), got)) else r == BadNotice(ExtraBytes)
    decreases |es|
  {
    hide Reading, Known;
    if es == [] {
      var data := before + [0];
      assert data[|before|] == 0;
    } else {
      var e, rest := es[0], EncodeEntries(es[1..]);
      var data := before + (EncodeEntry(e) + rest);
      EntriesEnd(es[1..]);
      EntryLayout(before, e, rest);
      hide EncodeEntries, Scan;
      EncodeHead(es);
      ScanEntry(data, |before|, e, got);
      ReadableHead(es);
      if Reading(e).Some? {
        var x := Reading(e).value;
        assert before + EncodeEntry(e) + rest == data;
        ScanEntries(before + EncodeEntry(e), es[1..], got[x.kind := x.value]);
        if Readable(es) {
          CollectHead(es, got);
        }
      }
    }
  }

  lemma {:induction false} EncodeHead(es: seq<Entry>)
    requires es != []
    ensures EncodeEntries(es) == EncodeEntry(es[0]) + EncodeEntries(es[1..])
  {
  }

  lemma {:induction false} EntriesEnd(es: seq<Entry>)
    ensures EncodeEntries(es) != []
  {
  }

  lemma {:induction false} ReadableHead(es: seq<Entry>)
    requires es != []
    ensures Readable(es) <==> Reading(es[0]).Some? && Readable(es[1..])
  {
    hide Reading;
    assert forall i | 0 <= i < |es[1..]| :: es[1..][i] == es[i + 1];
    assert forall i | 0 < i < |es| :: es[i] == es[1..][i - 1];
  }

  lemma {:induction false} CollectHead(es: seq<Entry>, got: Fields)
    requires es != [] && Readable(es)
    ensures Readable(es[1..]) && Reading(es[0]).Some?
    ensures var x := Reading(es[0]).value; Collect(Readings(es), got) == Collect(Readings(es[1..]), got[x.kind := x.value])
  {
    ReadableHead(es);
    var x := Reading(es[0]).value;
    assert Known(x.kind);
    hide Reading, Known;
    assert Readings(es) == [x] + Readings(es[1..]);
    assert ([x] + Readings(es[1..]))[1..] == Readings(es[1..]);
  }

  /** For every list of fields that a server may send: the message is accepted if and only if
      the value of every unknown field has a known letter in it, and then what is read is the
      fields with each unknown one replaced by its part from that letter on. */
  lemma {:induction false} NoticeExactly(es: seq<Entry>)
    requires GoodEntries(es)
    ensures ParseNotice(EncodeEntries(es)) ==
      if Readable(es) then Notice(Collect(Readings(es), map[])) else BadNotice(ExtraBytes)
  {
    hide EncodeEntries, Collect, Readable;
    ScanEntries([], es, map[]);
    assert [] + EncodeEntries(es) == EncodeEntries(es);
  }

  lemma {:induction false} KnownAsTheyAre(es: seq<Entry>)
    requires forall i | 0 <= i < |es| :: Known(es[i].kind)
    ensures Readable(es) && Readings(es) == es
    decreases |es|
  {
    if es != [] {
      assert forall i | 0 <= i < |es[1..]| :: es[1..][i] == es[i + 1];
      KnownAsTheyAre(es[1..]);
      ReadableHead(es);
      hide Known;
      assert [es[0]] + es[1..] == es;
    }
  }

  /** Known fields come back from their message. */
  lemma {:induction false} FieldsRoundTrip(es: seq<Entry>)
    requires GoodEntries(es) && forall i | 0 <= i < |es| :: Known(es[i].kind)
    ensures ParseNotice(EncodeEntries(es)) == Notice(Collect(es, map[]))
  {
    hide Known, GoodEntry, EncodeEntries, Collect, Readable;
    KnownAsTheyAre(es);
    NoticeExactly(es);
  }

  lemma {:induction false} CollectLast(es: seq<Entry>, e: Entry, got: Fields)
    ensures Collect(es + [e], got) == if Known(e.kind) then Collect(es, got)[e.kind := e.value] else Collect(es, got)
    decreases |es|
  {
    hide Known;
    if es == [] {
      assert es + [e] == [e] && [e][1..] == [];
    } else {
      assert (es + [e])[1..] == es[1..] + [e];
      CollectLast(es[1..], e, if Known(es[0].kind) then got[es[0].kind := es[0].value] else got);
    }
  }

  lemma {:induction false} ReadingsLast(es: seq<Entry>, e: Entry)
    requires forall i | 0 <= i < |es| :: Known(es[i].kind)
    ensures Readable(es + [e]) <==> Reading(e).Some?
    ensures Reading(e).Some? ==> Readings(es + [e]) == es + [Reading(e).value]
    decreases |es|
  {
    hide Known;
    ReadableHead(es + [e]);
    if es == [] {
      assert es + [e] == [e] && [e][1..] == [];
    } else {
      assert forall i | 0 <= i < |es[1..]| :: es[1..][i] == es[i + 1];
      assert (es + [e])[1..] == es[1..] + [e];
      ReadingsLast(es[1..], e);
      assert [es[0]] + (es[1..] + [e]) == es + [e];
    }
  }

  /** The value of the last entry with a letter. */
  function LastOf(es: seq<Entry>, k: Byte): Option<Text> {
    if es == [] then None
    else if es[|es| - 1].kind == k then Some(es[|es| - 1].value)
    else LastOf(es[..|es| - 1], k)
  }

  lemma {:induction false} CollectIs(es: seq<Entry>, k: Byte)
    ensures var fields := Collect(es, map[]);
      && (k in fields <==> Known(k) && LastOf(es, k).Some?)
      && (k in fields ==> LastOf(es, k) == Some(fields[k]))
    decreases |es|
  {
    hide Known;
    if es != [] {
      var init, e := es[..|es| - 1], es[|es| - 1];
      assert init + [e] == es;
      CollectIs(init, k);
      CollectLast(init, e, map[]);
      hide Collect;
    }
  }

  /** Unknown fields are meant to be ignored. They are, if and only if the value of each has a
      known letter in it, and no field that is read so comes last of its letter with a value
      that the server did not send last. */
  lemma {:induction false} UnknownIgnoredExactly(es: seq<Entry>)
    requires GoodEntries(es)
    ensures ParseNotice(EncodeEntries(es)) == Notice(Collect(es, map[])) <==>
      Readable(es) && forall k | Known(k) :: LastOf(Readings(es), k) == LastOf(es, k)
  {
    hide Known, GoodEntry, EncodeEntries, Readable, Readings, LastOf, Collect;
    NoticeExactly(es);
    if Readable(es) {
      var was, meant := Collect(Readings(es), map[]), Collect(es, map[]);
      forall k: Byte
        ensures Known(k) && LastOf(Readings(es), k) != LastOf(es, k) ==> was != meant
        ensures Known(k) && LastOf(Readings(es), k) == LastOf(es, k) ==> (k in was <==> k in meant) && (k in was ==> was[k] == meant[k])
        ensures !Known(k) ==> k !in was && k !in meant
      {
        CollectIs(Readings(es), k);
        CollectIs(es, k);
      }
      if forall k | Known(k) :: LastOf(Readings(es), k) == LastOf(es, k) {
        assert was == meant;
      }
    }
  }

  /** One that follows known fields is, if and only if its value has a known letter, and the
      part behind the first one repeats the field of that letter that was sent before. */
  lemma {:induction false} UnknownLastExactly(es: seq<Entry>, u: Entry)
    requires GoodEntries(es) && GoodEntry(u) && !Known(u.kind) && forall i | 0 <= i < |es| :: Known(es[i].kind)
    ensures var i := KnownFrom(u.value, 0); var meant := Collect(es, map[]);
      ParseNotice(EncodeEntries(es + [u])) == Notice(meant) <==>
        i < |u.value| && u.value[i] in meant && meant[u.value[i]] == u.value[i + 1..]
  {
    hide Known, GoodEntry, EncodeEntries, Readable, Readings;
    NoticeExactly(es + [u]);
    ReadingsLast(es, u);
    if Reading(u).Some? {
      CollectLast(es, Reading(u).value, map[]);
      hide Collect;
      var i, meant := KnownFrom(u.value, 0), Collect(es, map[]);
      var k, v := u.value[i], u.value[i + 1..];
      if meant[k := v] == meant {
        assert meant[k := v][k] == v;
      }
    }
  }

  // ----- the SQLSTATE

  /** A character of an SQLSTATE as a number, or -1; and back. */
  function StateDigit(c: Byte): int {
    if 48 <= c <= 57 then c - 48 else if 65 <= c <= 90 then c - 65 + 10 else -1
  }

  function StateChar(v: int): Byte {
    if v < 0 then 0 else if v < 10 then 48 + v else if v <= 35 then 65 + v - 10 else 0
  }

  /** Five groups of six bits. */
  function Pack(a: int, b: int, c: int, d: int, e: int): int {
    (((a * 64 + b) * 64 + c) * 64 + d) * 64 + e
  }

  /** sqlstate_as_int: the groups of the characters, or -1. */
  function StateNumber(s: Text): int {
    if |s| != 5 then -1
    else
      var a, b, c, d, e := StateDigit(s[0]), StateDigit(s[1]), StateDigit(s[2]), StateDigit(s[3]), StateDigit(s[4]);
      if a == -1 || b == -1 || c == -1 || d == -1 || e == -1 then -1
      else Pack(a, b, c, d, e)
  }

  /** The groups of a number, the highest one first. */
  function Groups(v: nat): (g: seq<nat>)
    ensures |g| == 5
  {
    var q := v / 64;
    var r := q / 64;
    var s := r / 64;
    [s / 64, s % 64, r % 64, q % 64, v % 64]
  }

  /** is_valid_sqlstate. */
  predicate ValidState(v: int) {
    0 <= v <= 0x3fff_ffff && forall i | 0 <= i < 5 :: StateChar(Groups(v)[i]) != 0
  }

  /** sqlstate_as_string. */
  function StateText(v: nat): Text {
    var g := Groups(v);
    [StateChar(g[0]), StateChar(g[1]), StateChar(g[2]), StateChar(g[3]), StateChar(g[4])]
  }

  lemma {:induction false} DigitChar(c: Byte)
    ensures StateDigit(c) != -1 ==> 0 <= StateDigit(c) <= 35 && StateChar(StateDigit(c)) == c && c != 0
  {
  }

  lemma {:induction false} CharDigit(v: nat)
    ensures StateChar(v) != 0 ==> v <= 35 && StateDigit(StateChar(v)) == v
  {
  }

  lemma {:induction false} LastGroup(x: nat, y: nat)
    requires y < 64
    ensures (x * 64 + y) / 64 == x && (x * 64 + y) % 64 == y
  {
  }

  lemma {:induction false} Unpacked(a: nat, b: nat, c: nat, d: nat, e: nat)
    requires a < 64 && b < 64 && c < 64 && d < 64 && e < 64
    ensures 0 <= Pack(a, b, c, d, e) <= 0x3fff_ffff && Groups(Pack(a, b, c, d, e)) == [a, b, c, d, e]
  {
    var s := a * 64 + b;
    var r := s * 64 + c;
    var q := r * 64 + d;
    LastGroup(a, b);
    LastGroup(s, c);
    LastGroup(r, d);
    LastGroup(q, e);
  }

  lemma {:induction false} Repacked(v: nat)
    ensures var g := Groups(v); Pack(g[0], g[1], g[2], g[3], g[4]) == v
  {
  }

  /** Every SQLSTATE comes back from its number, which is valid. */
  lemma {:induction false} StateRoundTrip(s: Text)
    requires StateNumber(s) != -1
    ensures ValidState(StateNumber(s)) && StateText(StateNumber(s)) == s
  {
    hide StateDigit, StateChar, Groups, Pack;
    var a, b, c, d, e := StateDigit(s[0]), StateDigit(s[1]), StateDigit(s[2]), StateDigit(s[3]), StateDigit(s[4]);
    DigitChar(s[0]);
    DigitChar(s[1]);
    DigitChar(s[2]);
    DigitChar(s[3]);
    DigitChar(s[4]);
    Unpacked(a, b, c, d, e);
    assert s == [s[0], s[1], s[2], s[3], s[4]];
  }

  /** The valid numbers are exactly those of some SQLSTATE. */
  lemma {:induction false} NumberRoundTrip(v: nat)
    ensures ValidState(v) ==> StateNumber(StateText(v)) == v
    ensures ValidState(v) <==> exists s: Text :: StateNumber(s) == v
  {
    hide StateDigit, StateChar, Groups, Pack;
    if ValidState(v) {
      Repacked(v);
      var g := Groups(v);
      assert StateChar(g[0]) != 0 && StateChar(g[1]) != 0 && StateChar(g[2]) != 0 && StateChar(g[3]) != 0 && StateChar(g[4]) != 0;
      CharDigit(g[0]);
      CharDigit(g[1]);
      CharDigit(g[2]);
      CharDigit(g[3]);
      CharDigit(g[4]);
      assert StateNumber(StateText(v)) == v;
    }
    if s: Text :| StateNumber(s) == v {
      StateRoundTrip(s);
    }
  }

  const ZeroText: Text := [48, 48, 48, 48, 48]

  /** The number of an SQLSTATE is zero, which is no error, exactly for 00000. */
  lemma {:induction false} ZeroExactly(s: Text)
    ensures StateNumber(s) == 0 <==> s == ZeroText
  {
    if StateNumber(s) == 0 {
      StateRoundTrip(s);
    }
  }

  /** The SQLSTATE of an error, the empty one if there is none. */
  function StateOf(m: BackendMessage): Text {
    match ParseNotice(m.body)
    case Notice(fields) => if StateLetter in fields then fields[StateLetter] else []
    case BadNotice(_) => []
  }

  /** parse_sqlstate gives no error for the message. */
  predicate ZeroState(m: BackendMessage) {
    StateNumber(StateOf(m)) == 0
  }

  lemma {:induction false} ZeroStateExactly(m: BackendMessage)
    ensures ZeroState(m) <==> StateOf(m) == ZeroText
  {
    hide ParseNotice;
    ZeroExactly(StateOf(m));
  }

  /** A known field with the SQLSTATE, and an unknown one whose value starts with C. */
  lemma {:induction false} StateThenUnknown(state: Text, letter: Byte, hidden: Text)
    requires NoNul(state) && NoNul(hidden) && letter != 0 && !Known(letter)
    ensures var es := [Entry(StateLetter, state)] + [Entry(letter, [StateLetter] + hidden)];
      && GoodEntries(es) && Collect(es, map[]) == map[StateLetter := state]
      && ParseNotice(EncodeEntries(es)) == Notice(map[StateLetter := hidden])
  {
    var c, u := Entry(StateLetter, state), Entry(letter, [StateLetter] + hidden);
    assert Known(StateLetter) && Reading(u) == Some(Entry(StateLetter, hidden)) by {
      assert KnownFrom(u.value, 0) == 0 && u.value[1..] == hidden;
    }
    hide Known, EncodeEntries, Readable, Readings, Reading;
    assert Collect([c], map[]) == map[StateLetter := state] by {
      assert [c][1..] == [];
    }
    hide Collect;
    CollectLast([c], u, map[]);
    NoticeExactly([c] + [u]);
    ReadingsLast([c], u);
    CollectLast([c], Entry(StateLetter, hidden), map[]);
  }

  /** An error with any SQLSTATE and an unknown field behind it, Z with the value C00000. */
  function Masked(state: Text): seq<Entry> {
    [Entry(StateLetter, state)] + [Entry(90, [StateLetter] + ZeroText)]
  }

  /** It is read as an error with the SQLSTATE 00000. */
  lemma {:induction false} UnknownFieldHidesTheState(state: Text)
    requires NoNul(state)
    ensures GoodEntries(Masked(state)) && Collect(Masked(state), map[]) == map[StateLetter := state]
    ensures ZeroState(BackendMessage(ErrorResponse, EncodeEntries(Masked(state))))
  {
    assert !Known(90);
    hide Known, Collect, EncodeEntries, ParseNotice, StateNumber, GoodEntries;
    StateThenUnknown(state, 90, ZeroText);
    ZeroExactly(ZeroText);
  }
}
