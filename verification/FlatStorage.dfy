/** The flattened storage of several resultsets (include/nativepg/responses/resultsets.hpp,
    rows_view.hpp, src/responses.cpp): all bytes in one buffer, all values in one vector, and
    for each resultset the part of the vector that it owns. */
module FlatStorage {
  import opened Messages
  import opened DataRows

  /** The length that stands for NULL. */
  const NullLength: nat := 0xffff_ffff_ffff_ffff

  datatype Span = Span(offset: nat, length: nat)

  datatype Descriptor = Descriptor(names: Span, values: Span)

  predicate InData(data: seq<Byte>, s: Span) {
    s.length == NullLength || s.offset + s.length <= |data|
  }

  function ToField(data: seq<Byte>, s: Span): Field
    requires InData(data, s)
  {
    if s.length == NullLength then None else Some(data[s.offset..s.offset + s.length])
  }

  predicate AllInData(data: seq<Byte>, spans: seq<Span>) {
    forall i | 0 <= i < |spans| :: InData(data, spans[i])
  }

  function ToFields(data: seq<Byte>, spans: seq<Span>): (fs: seq<Field>)
    requires AllInData(data, spans)
    ensures |fs| == |spans| && forall i | 0 <= i < |fs| :: fs[i] == ToField(data, spans[i])
  {
    seq(|spans|, i requires 0 <= i < |spans| => ToField(data, spans[i]))
  }

  /** More bytes do not alter the values stored before. */
  lemma {:induction false} GrownSame(data: seq<Byte>, more: seq<Byte>, spans: seq<Span>)
    requires AllInData(data, spans)
    ensures AllInData(data + more, spans) && ToFields(data + more, spans) == ToFields(data, spans)
  {
    forall i | 0 <= i < |spans| ensures InData(data + more, spans[i]) && ToField(data + more, spans[i]) == ToField(data, spans[i]) {
      var s := spans[i];
      if s.length != NullLength {
        assert (data + more)[s.offset..s.offset + s.length] == data[s.offset..s.offset + s.length];
      }
    }
  }

  lemma {:induction false} OneMoreField(data: seq<Byte>, spans: seq<Span>, v: seq<Byte>)
    requires AllInData(data, spans) && |v| != NullLength
    ensures var all := spans + [Span(|data|, |v|)];
      AllInData(data + v, all) && ToFields(data + v, all) == ToFields(data, spans) + [Some(v)]
  {
    GrownSame(data, v, spans);
    assert (data + v)[|data|..|data| + |v|] == v;
  }

  lemma {:induction false} OneMoreNull(data: seq<Byte>, spans: seq<Span>)
    requires AllInData(data, spans)
    ensures var all := spans + [Span(0, NullLength)];
      AllInData(data, all) && ToFields(data, all) == ToFields(data, spans) + [None]
  {
  }

  // ----- what is stored

  /** A resultset as it came from the server: the names of its columns and its rows. */
  datatype Table = Table(names: seq<seq<Byte>>, rows: seq<seq<Field>>)

  predicate Storable(f: Field) {
    f.Some? ==> |f.value| != NullLength
  }

  predicate WellShaped(t: Table) {
    && (forall i | 0 <= i < |t.names| :: |t.names[i]| != NullLength)
    && (forall r | 0 <= r < |t.rows| :: GoodRow(t.rows[r], |t.names|))
  }

  predicate GoodRow(row: seq<Field>, columns: nat) {
    |row| == columns && forall c | 0 <= c < |row| :: Storable(row[c])
  }

  /** Row by row: the field at row r and column c is at r * columns + c. */
  lemma {:induction false} FlatAt(rows: seq<seq<Field>>, columns: nat, r: nat, c: nat)
    requires forall k | 0 <= k < |rows| :: |rows[k]| == columns
    requires r < |rows| && c < columns
    ensures |Flat(rows)| == |rows| * columns && r * columns + c < |rows| * columns && Flat(rows)[r * columns + c] == rows[r][c]
    decreases |rows|
  {
    var n := |rows| - 1;
    var init := rows[..n];
    FlatLength(init, columns);
    FlatLength(rows, columns);
    Below(r, n, columns, c);
    if r < n {
      FlatAt(init, columns, r, c);
    }
  }

  lemma {:induction false} FlatLength(rows: seq<seq<Field>>, columns: nat)
    requires forall k | 0 <= k < |rows| :: |rows[k]| == columns
    ensures |Flat(rows)| == |rows| * columns
    decreases |rows|
  {
    if rows != [] {
      FlatLength(rows[..|rows| - 1], columns);
      assert |rows| * columns == (|rows| - 1) * columns + columns;
    } else {
      assert 0 * columns == 0;
    }
  }

  lemma {:induction false} Below(r: nat, n: nat, columns: nat, c: nat)
    requires r <= n && c < columns
    ensures r * columns + c < (n + 1) * columns && (r < n ==> r * columns + c < n * columns) && n * columns <= (n + 1) * columns
  {
    assert (n + 1) * columns == n * columns + columns;
    if r < n {
      assert n * columns == r * columns + (n - r) * columns;
      assert (n - r) * columns >= columns by {
        assert (n - r) * columns == (n - r - 1) * columns + columns;
      }
    }
  }

  // ----- the storage

  class Resultsets {
    var names: seq<Span>
    var values: seq<Span>
    var sets: seq<Descriptor>
    var data: seq<Byte>

    ghost predicate Valid()
      reads this
    {
      && AllInData(data, names) && AllInData(data, values)
      && (forall i | 0 <= i < |sets| ::
            sets[i].names.offset + sets[i].names.length <= |names| && sets[i].values.offset + sets[i].values.length <= |values|)
    }

    /** Every value and every name stored so far. */
    ghost function Values(): seq<Field>
      reads this
      requires Valid()
    {
      ToFields(data, values)
    }

    ghost function Names(): seq<Field>
      reads this
      requires Valid()
    {
      ToFields(data, names)
    }

    constructor ()
      ensures Valid() && Values() == [] && Names() == [] && sets == []
    {
      names, values, sets, data := [], [], [], [];
    }

    method InsertData(v: seq<Byte>) returns (s: Span)
      modifies this`data
      ensures data == old(data) + v && s == Span(|old(data)|, |v|)
    {
      s := Span(|data|, |v|);
      data := data + v;
    }

    method AddNames(ns: seq<seq<Byte>>)
      requires Valid() && forall i | 0 <= i < |ns| :: |ns[i]| != NullLength
      modifies this`names, this`data
      ensures Valid() && Values() == old(Values())
      ensures Names() == old(Names()) + seq(|ns|, i requires 0 <= i < |ns| => Some(ns[i]))
    {
      hide ToFields;
      for i := 0 to |ns|
        invariant Valid() && Values() == old(Values())
        invariant Names() == old(Names()) + seq(i, k requires 0 <= k < i => Some(ns[k]))
      {
        OneMoreField(data, names, ns[i]);
        GrownSame(data, ns[i], values);
        var s := InsertData(ns[i]);
        names := names + [s];
      }
    }

    /** add_row: the values of the row follow those stored before, which do not change. */
    method AddRow(row: seq<Field>)
      requires Valid() && forall c | 0 <= c < |row| :: Storable(row[c])
      modifies this`values, this`data
      ensures Valid() && Names() == old(Names()) && Values() == old(Values()) + row
    {
      hide ToFields;
      for c := 0 to |row|
        invariant Valid() && Names() == old(Names()) && Values() == old(Values()) + row[..c]
      {
        assert row[..c + 1] == row[..c] + [row[c]];
        match row[c] {
          case None =>
            OneMoreNull(data, values);
            values := values + [Span(0, NullLength)];
          case Some(v) =>
            OneMoreField(data, values, v);
            GrownSame(data, v, names);
            var s := InsertData(v);
            values := values + [s];
        }
      }
      assert row[..|row|] == row;
    }

    method FinishResultset(rows: nat, columns: nat)
      requires Valid() && columns <= |names| && columns * rows <= |values|
      modifies this`sets
      ensures Valid()
      ensures sets == old(sets) + [Descriptor(Span(|names| - columns, columns), Span(|values| - columns * rows, columns * rows))]
    {
      sets := sets + [Descriptor(Span(|names| - columns, columns), Span(|values| - columns * rows, columns * rows))];
    }

    /** The number of rows that a resultset reports. */
    function NumRows(i: nat): nat
      reads this
      requires i < |sets|
    {
      if sets[i].names.length == 0 then 0 else sets[i].values.length / sets[i].names.length
    }

    /** The field at row r and column c of a resultset. */
    function At(i: nat, r: nat, c: nat): Field
      reads this
      requires Valid() && i < |sets| && c < sets[i].names.length
      requires r * sets[i].names.length + c < sets[i].values.length
    {
      ToField(data, values[sets[i].values.offset + (r * sets[i].names.length + c)])
    }

    /** What the part of the storage that a resultset owns holds. */
    ghost predicate Holds(i: nat, t: Table)
      reads this
      requires Valid() && i < |sets|
    {
      var n, v := sets[i].names, sets[i].values;
      && n.length == |t.names|
      && Names()[n.offset..n.offset + n.length] == seq(|t.names|, k requires 0 <= k < |t.names| => Some(t.names[k]))
      && v.length == |t.names| * |t.rows| && Values()[v.offset..v.offset + v.length] == Flat(t.rows)
    }
  }

  /** One resultset: its description, its rows, its end. The resultsets before it stay. */
  method StoreOne(s: Resultsets, t: Table)
    requires s.Valid() && WellShaped(t)
    modifies s
    ensures s.Valid() && |s.sets| == |old(s.sets)| + 1 && s.sets[..|old(s.sets)|] == old(s.sets)
    ensures |s.Names()| >= |old(s.Names())| && s.Names()[..|old(s.Names())|] == old(s.Names())
    ensures |s.Values()| >= |old(s.Values())| && s.Values()[..|old(s.Values())|] == old(s.Values())
    ensures s.Holds(|old(s.sets)|, t)
  {
    hide ToFields, Flat, Storable;
    ghost var before, names := s.Values(), s.Names();
    s.AddNames(t.names);
    NoRows();
    for r := 0 to |t.rows|
      invariant s.Valid() && s.sets == old(s.sets)
      invariant s.Names() == names + seq(|t.names|, k requires 0 <= k < |t.names| => Some(t.names[k]))
      invariant s.Values() == before + Flat(t.rows[..r])
    {
      FlatOne(t.rows[..r], t.rows[r]);
      assert t.rows[..r + 1] == t.rows[..r] + [t.rows[r]] && GoodRow(t.rows[r], |t.names|);
      s.AddRow(t.rows[r]);
    }
    assert t.rows[..|t.rows|] == t.rows;
    assert forall k | 0 <= k < |t.rows| :: GoodRow(t.rows[k], |t.names|);
    FlatLength(t.rows, |t.names|);
    assert |t.names| * |t.rows| == |t.rows| * |t.names|;
    s.FinishResultset(|t.rows|, |t.names|);
  }

  lemma {:induction false} NoRows()
    ensures Flat<Field>([]) == []
  {
  }

  /** Any number of resultsets: each of them is there, field by field, NULL and empty values
      told apart, and it reports its number of rows exactly when it has columns, or no rows. */
  method StoreAll(tables: seq<Table>) returns (s: Resultsets)
    requires forall i | 0 <= i < |tables| :: WellShaped(tables[i])
    ensures s.Valid() && |s.sets| == |tables|
    ensures forall i | 0 <= i < |tables| :: Readable(s, i, tables[i])
  {
    hide Flat, ToFields, WellShaped;
    s := new Resultsets();
    for i := 0 to |tables|
      invariant s.Valid() && |s.sets| == i && fresh(s)
      invariant forall k | 0 <= k < i :: s.Holds(k, tables[k])
    {
      ghost var sets, names, values := s.sets, s.Names(), s.Values();
      StoreOne(s, tables[i]);
      forall k | 0 <= k < i ensures s.Holds(k, tables[k]) {
        assert s.sets[k] == s.sets[..i][k];
        Prefix(names, s.Names(), s.sets[k].names);
        Prefix(values, s.Values(), s.sets[k].values);
      }
    }
    forall i | 0 <= i < |tables| ensures Readable(s, i, tables[i]) {
      HeldIsReadable(s, i, tables[i]);
    }
  }

  /** A resultset without columns, as `SELECT` alone gives: it reports no row, however many it
      has. */
  method StoreWithoutColumns(rows: nat) returns (s: Resultsets)
    ensures s.Valid() && |s.sets| == 1 && Readable(s, 0, Table([], seq(rows, _ => [])))
    ensures s.NumRows(0) == 0 && (s.NumRows(0) == rows <==> rows == 0)
  {
    s := StoreAll([Table([], seq(rows, _ => []))]);
    assert Readable(s, 0, [Table([], seq(rows, _ => []))][0]);
  }

  lemma {:induction false} Prefix(old_: seq<Field>, all: seq<Field>, s: Span)
    requires |old_| <= |all| && all[..|old_|] == old_ && s.offset + s.length <= |old_|
    ensures all[s.offset..s.offset + s.length] == old_[s.offset..s.offset + s.length]
  {
    forall k | s.offset <= k < s.offset + s.length ensures all[k] == old_[k] {
      assert all[k] == all[..|old_|][k];
    }
  }

  /** What a reader sees of a resultset. */
  ghost predicate Readable(s: Resultsets, i: nat, t: Table)
    reads s
    requires s.Valid() && i < |s.sets|
  {
    && s.sets[i].names.length == |t.names|
    && (s.NumRows(i) == |t.rows| <==> t.names != [] || t.rows == [])
    && forall r, c | 0 <= r < |t.rows| && 0 <= c < |t.names| :: ReadsBack(s, i, t, r, c)
  }

  ghost predicate ReadsBack(s: Resultsets, i: nat, t: Table, r: nat, c: nat)
    reads s
    requires s.Valid() && i < |s.sets| && s.sets[i].names.length == |t.names| && r < |t.rows| && c < |t.names|
  {
    && r * |t.names| + c < s.sets[i].values.length
    && c < |t.rows[r]| && s.At(i, r, c) == t.rows[r][c]
  }

  lemma {:induction false} HeldIsReadable(s: Resultsets, i: nat, t: Table)
    requires s.Valid() && i < |s.sets| && s.Holds(i, t) && WellShaped(t)
    ensures Readable(s, i, t)
  {
    hide Flat, Storable;
    assert forall k | 0 <= k < |t.rows| :: GoodRow(t.rows[k], |t.names|);
    var v := s.sets[i].values;
    if t.names != [] {
      Divides(|t.names|, |t.rows|);
    }
    forall r, c | 0 <= r < |t.rows| && 0 <= c < |t.names| ensures ReadsBack(s, i, t, r, c) {
      FlatAt(t.rows, |t.names|, r, c);
      assert |t.names| * |t.rows| == |t.rows| * |t.names|;
      var k := r * |t.names| + c;
      assert s.Values()[v.offset..v.offset + v.length][k] == s.Values()[v.offset + k];
    }
  }

  lemma {:induction false} Divides(a: nat, b: nat)
    requires a > 0
    ensures a * b / a == b
  {
    var n := a * b;
    Quotient(a, b, n, n / a);
  }

  lemma {:induction false} Quotient(a: nat, b: nat, n: nat, q: nat)
    requires a > 0 && n == a * b && a * q <= n < a * q + a
    ensures q == b
  {
    if b < q {
      Times(a, q - b);
    } else if q < b {
      Times(a, b - q);
    }
  }

  lemma {:induction false} Times(a: nat, k: nat)
    requires a > 0 && k > 0
    ensures a * k >= a
  {
  }
}
