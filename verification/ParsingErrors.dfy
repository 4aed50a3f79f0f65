/** The errors of the parsers of lists (src/messages.cpp): after the items that are whole, what follows
    decides which error it is. */
module ParsingErrors {
  import opened Messages
  import opened DataRows
  import opened ParsingViews
  import opened ErrorFields

  // ----- row descriptions

  lemma {:induction false} WalkPastColumns(data: Text, p: nat, cs: seq<Column>, n: nat)
    requires GoodColumns(cs) && |cs| <= n && p + |EncodeColumns(cs)| <= |data| && data[p..p + |EncodeColumns(cs)|] == EncodeColumns(cs)
    ensures WalkColumns(data, p, n) == WalkColumns(data, p + |EncodeColumns(cs)|, n - |cs|)
    decreases |cs|
  {
    hide EncodeColumn, ColumnAt, ColumnInBounds, AfterColumn, WalkColumns, GoodColumn, EncodeColumns;
    if cs == [] {
      NothingEncoded();
    } else {
      var b, rest := EncodeColumn(cs[0]), EncodeColumns(cs[1..]);
      ColumnsHead(cs);
      SplitIn(data, p, b, rest);
      EncodedColumn(data, p, cs[0]);
      FormatIsGood(cs[0]);
      NextColumn(data, p, n, |data|);
      WalkPastColumns(data, p + |b|, cs[1..], n - 1);
    }
  }

  lemma {:induction false} ColumnsHead(cs: seq<Column>)
    requires GoodColumns(cs) && cs != []
    ensures EncodeColumns(cs) == EncodeColumn(cs[0]) + EncodeColumns(cs[1..])
  {
  }

  lemma {:induction false} NothingEncoded()
    ensures EncodeColumns([]) == [] && EncodeStrings([]) == []
  {
  }

  /** A row description whose columns up to q are whole: with all columns there, anything more is too
      much; otherwise a column that is not all there is incomplete, and one with an unknown format is
      refused. */
  lemma {:induction false} ColumnErrorsExactly(data: Text, n: nat, cs: seq<Column>)
    requires GoodColumns(cs) && |cs| <= n < 0x8000 && 2 + |EncodeColumns(cs)| <= |data|
    requires data[0..2] == Bytes16(n) && data[2..2 + |EncodeColumns(cs)|] == EncodeColumns(cs)
    ensures var q := 2 + |EncodeColumns(cs)|; var r := ParseColumns(data);
      if |cs| == n then q < |data| ==> r == BadColumns(ExtraBytes)
      else if !ColumnInBounds(data, q) then r == BadColumns(IncompleteMessage)
      else !GoodFormat(ColumnAt(data, q).format) ==> r == BadColumns(ProtocolValueError)
  {
    hide Bytes16, EncodeColumns, ColumnAt, ColumnInBounds, AfterColumn, GoodColumn, Int16;
    Int16Bytes(n, data, 0);
    WalkPastColumns(data, 2, cs, n);
  }

  // ----- mechanism lists

  lemma {:induction false} WalkPastStrings(data: Text, p: nat, ss: seq<Text>)
    requires GoodNames(ss) && p + |EncodeStrings(ss)| <= |data| && data[p..p + |EncodeStrings(ss)|] == EncodeStrings(ss)
    ensures WalkStrings(data, p) == More(|ss|, WalkStrings(data, p + |EncodeStrings(ss)|))
    decreases |ss|
  {
    hide StringAt, NulFrom, EncodeStrings, StringInBounds, AfterString, WalkStrings;
    if ss == [] {
      NothingEncoded();
      NoneMore(WalkStrings(data, p));
    } else {
      var b, rest := EncodeString(ss[0]), EncodeStrings(ss[1..]);
      StringsHead(ss);
      SplitIn(data, p, b, rest);
      EncodedString(data, p, ss[0]);
      WalkPastStrings(data, p + |b|, ss[1..]);
      NextString(data, p, |data|);
    }
  }

  lemma {:induction false} StringsHead(ss: seq<Text>)
    requires ss != []
    ensures EncodeStrings(ss) == EncodeString(ss[0]) + EncodeStrings(ss[1..])
  {
  }

  /** A list whose names up to q are whole: if no NUL follows it is incomplete, and what stands behind
      the final NUL is too much. */
  lemma {:induction false} MechanismErrorsExactly(data: Text, ss: seq<Text>)
    requires GoodNames(ss) && |EncodeStrings(ss)| <= |data| && data[0..|EncodeStrings(ss)|] == EncodeStrings(ss)
    ensures var q := |EncodeStrings(ss)|; var r := ParseMechanisms(data);
      && ((forall i | q <= i < |data| :: data[i] != 0) ==> r == Malformed(IncompleteMessage))
      && (q + 1 < |data| && data[q] == 0 ==> r == Malformed(ExtraBytes))
  {
    hide EncodeStrings, WalkStrings;
    var q := |EncodeStrings(ss)|;
    WalkPastStrings(data, 0, ss);
    if forall i | q <= i < |data| :: data[i] != 0 {
      StringsStop(data, q);
    } else if data[q] == 0 {
      NulAt(data, q, q);
      LastString(data, q);
    }
  }

  lemma {:induction false} StringsStop(data: Text, q: nat)
    requires q <= |data| && forall i | q <= i < |data| :: data[i] != 0
    ensures WalkStrings(data, q) == Stuck
  {
  }

  // ----- errors and notices

  /** The fields without the NUL at their end. */
  function OpenEntries(es: seq<Entry>): Text {
    if es == [] then [] else EncodeEntry(es[0]) + OpenEntries(es[1..])
  }

  lemma {:induction false} OpenHead(es: seq<Entry>, got: Fields)
    requires es != [] && Known(es[0].kind)
    ensures OpenEntries(es) == EncodeEntry(es[0]) + OpenEntries(es[1..])
    ensures Collect(es, got) == Collect(es[1..], got[es[0].kind := es[0].value])
  {
    hide Known, EncodeEntry;
  }

  lemma {:induction false} KnownIsTaken(before: Text, e: Entry, more: Text, got: Fields)
    requires GoodEntry(e) && Known(e.kind) && more != []
    ensures var data := before + (EncodeEntry(e) + more);
      |EncodeEntry(e)| == |e.value| + 2 && Scan(data, |before|, got) == Scan(data, |before| + |EncodeEntry(e)|, got[e.kind := e.value])
  {
    hide Known, Scan;
    EntryLayout(before, e, more);
    ScanEntry(before + (EncodeEntry(e) + more), |before|, e, got);
  }

  lemma {:induction false} Regrouped(before: Text, a: Text, b: Text, rest: Text)
    ensures before + ((a + b) + rest) == (before + a) + (b + rest) == before + (a + (b + rest))
  {
  }

  lemma {:induction false} ScanPast(before: Text, es: seq<Entry>, rest: Text, got: Fields)
    requires GoodEntries(es) && (forall i | 0 <= i < |es| :: Known(es[i].kind)) && rest != []
    ensures var data := before + (OpenEntries(es) + rest); var at := |before| + |OpenEntries(es)|;
      at <= |data| && Scan(data, |before|, got) == Scan(data, at, Collect(es, got))
    decreases |es|
  {
    hide Known, Scan, OpenEntries, Collect, EncodeEntry, GoodEntry;
    if es == [] {
      NoneOpen(got);
    } else {
      var e, b := es[0], OpenEntries(es[1..]);
      OpenHead(es, got);
      KnownIsTaken(before, e, b + rest, got);
      Regrouped(before, EncodeEntry(e), b, rest);
      ScanPast(before + EncodeEntry(e), es[1..], rest, got[e.kind := e.value]);
    }
  }

  lemma {:induction false} NoneOpen(got: Fields)
    ensures OpenEntries([]) == [] && Collect([], got) == got
  {
  }

  lemma {:induction false} ScanEnd(before: Text, rest: Text, got: Fields)
    requires rest != []
    ensures var r := Scan(before + rest, |before|, got);
      if rest[0] == 0 then r == if |rest| == 1 then Notice(got) else BadNotice(ExtraBytes)
      else Known(rest[0]) && (forall i | 0 < i < |rest| :: rest[i] != 0) ==> r == BadNotice(IncompleteMessage)
  {
    hide Known, NulFrom;
    var data, at := before + rest, |before|;
    assert data[at] == rest[0];
    if rest[0] != 0 && forall i | 0 < i < |rest| :: rest[i] != 0 {
      assert forall i | at < i < |data| :: data[i] == rest[i - at];
      NoNulFrom(data, at + 1);
    }
  }

  lemma {:induction false} NoNulFrom(data: Text, p: nat)
    requires p <= |data| && forall i | p <= i < |data| :: data[i] != 0
    ensures NulFrom(data, p) == |data|
  {
  }

  /** Known fields, and then: nothing but the NUL is a notice; more behind it is too much; a letter
      without the NUL of its value is incomplete. */
  lemma {:induction false} NoticeErrorsExactly(es: seq<Entry>, rest: Text)
    requires GoodEntries(es) && (forall i | 0 <= i < |es| :: Known(es[i].kind)) && rest != []
    ensures var r := ParseNotice(OpenEntries(es) + rest);
      if rest[0] == 0 then r == if |rest| == 1 then Notice(Collect(es, map[])) else BadNotice(ExtraBytes)
      else Known(rest[0]) && (forall i | 0 < i < |rest| :: rest[i] != 0) ==> r == BadNotice(IncompleteMessage)
  {
    hide Known, Scan, OpenEntries, Collect;
    ScanPast([], es, rest, map[]);
    assert [] + (OpenEntries(es) + rest) == OpenEntries(es) + rest;
    ScanEnd(OpenEntries(es), rest, Collect(es, map[]));
  }
}
