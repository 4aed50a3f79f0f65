/** Rows: the parser of DataRow messages (src/messages.cpp, src/parse_context.hpp) and the lazy
    view over a parsed row (include/nativepg/protocol/views.hpp). */
module DataRows {
  import opened Messages

  /** A field of a row; None is NULL, which is not the empty value. */
  type Field = Option<seq<Byte>>

  // ----- the wire format

  /** A big-endian signed integer of two bytes, and of four. */
  function Int16(data: seq<Byte>, p: nat): (n: int)
    requires p + 2 <= |data|
    ensures -0x8000 <= n < 0x8000
  {
    var u := data[p] as int * 0x100 + data[p + 1] as int;
    if u < 0x8000 then u else u - 0x1_0000
  }

  lemma {:induction false} Int16IsBigEndian(data: seq<Byte>, p: nat)
    requires p + 2 <= |data|
    ensures var v := BigEndian(data[p..p + 2]); Int16(data, p) == if v < 0x8000 then v else v - 0x1_0000
  {
    var s := data[p..p + 2];
    assert s[..1][..0] == [] && BigEndian([]) == 0;
    assert BigEndian(s[..1]) == s[0] as int;
  }

  function Bytes16(n: int): (b: seq<Byte>)
    requires -0x8000 <= n < 0x8000
    ensures |b| == 2
  {
    var u := if n < 0 then n + 0x1_0000 else n;
    [u / 0x100, u % 0x100]
  }

  predicate Fits(f: Field) {
    f.Some? ==> |f.value| < 0x8000_0000
  }

  /** A field on the wire: its length, or -1 for NULL, and its bytes. */
  function EncodeField(f: Field): (b: seq<Byte>)
    requires Fits(f)
    ensures |b| == 4 + if f.Some? then |f.value| else 0
  {
    match f
    case None => Bytes32(-1)
    case Some(v) => Bytes32(|v|) + v
  }

  predicate AllFit(fs: seq<Field>) {
    forall i | 0 <= i < |fs| :: Fits(fs[i])
  }

  function EncodeFields(fs: seq<Field>): seq<Byte>
    requires AllFit(fs)
  {
    if fs == [] then [] else EncodeField(fs[0]) + EncodeFields(fs[1..])
  }

  /** A DataRow message: the number of columns and the fields. */
  function EncodeRow(fs: seq<Field>): seq<Byte>
    requires AllFit(fs) && |fs| < 0x8000
  {
    Bytes16(|fs|) + EncodeFields(fs)
  }

  // ----- the view over the serialized fields

  predicate FieldInBounds(data: seq<Byte>, p: nat) {
    p + 4 <= |data| && (Int32(data, p) == -1 || (0 <= Int32(data, p) && p + 4 + Int32(data, p) <= |data|))
  }

  /** The field at a position of the view, and the position after it. */
  function Dereference(data: seq<Byte>, p: nat): Field
    requires FieldInBounds(data, p)
  {
    var size := Int32(data, p);
    if size == -1 then None else Some(data[p + 4..p + 4 + size])
  }

  function Advance(data: seq<Byte>, p: nat): (q: nat)
    requires FieldInBounds(data, p)
    ensures p + 4 <= q <= |data|
  {
    var size := Int32(data, p);
    p + 4 + if size > 0 then size else 0
  }

  /** Iterating from p to the end pointer is safe: no read is out of bounds, and the iterator
      meets the end pointer. */
  predicate Iterable(data: seq<Byte>, p: nat, end: nat)
    decreases end - p
  {
    p == end || (p < end && FieldInBounds(data, p) && Advance(data, p) <= end && Iterable(data, Advance(data, p), end))
  }

  /** What iterating from p to the end pointer visits. */
  function Visit(data: seq<Byte>, p: nat, end: nat): seq<Field>
    requires Iterable(data, p, end)
    decreases end - p
  {
    if p == end then [] else [Dereference(data, p)] + Visit(data, Advance(data, p), end)
  }

  // ----- parsing

  datatype Parsed = Row(count: nat, begin: nat, end: nat) | Invalid(error: ClientError)

  /** The fields from position p on: where they end, or the first error. */
  datatype Walk = Ends(at: nat) | Stops(error: ClientError)

  function WalkFields(data: seq<Byte>, p: nat, n: nat): Walk
    requires p <= |data|
    decreases n
  {
    if n == 0 then Ends(p)
    else if p + 4 > |data| then Stops(IncompleteMessage)
    else if Int32(data, p) == -1 then WalkFields(data, p + 4, n - 1)
    else if Int32(data, p) < 0 then Stops(ProtocolValueError)
    else if p + 4 + Int32(data, p) > |data| then Stops(IncompleteMessage)
    else WalkFields(data, p + 4 + Int32(data, p), n - 1)
  }

  function ParseRow(data: seq<Byte>): Parsed {
    if |data| < 2 then Invalid(IncompleteMessage)
    else if Int16(data, 0) < 0 then Invalid(ProtocolValueError)
    else match WalkFields(data, 2, Int16(data, 0))
      case Stops(e) => Invalid(e)
      case Ends(at) => if at == |data| then Row(Int16(data, 0), 2, at) else Invalid(ExtraBytes)
  }

  /** Where the first NUL from p on is, or the end. */
  function NulFrom(data: seq<Byte>, p: nat): (q: nat)
    requires p <= |data|
    ensures p <= q <= |data| && (forall i | p <= i < q :: data[i] != 0) && (q < |data| ==> data[q] == 0)
    decreases |data| - p
  {
    if p == |data| || data[p] == 0 then p else NulFrom(data, p + 1)
  }

  /** The cursor of a parser: the position advances, and the first error sticks. */
  class ParseContext {
    const data: seq<Byte>
    var first: nat
    var error: Option<ClientError>

    ghost predicate Valid()
      reads this
    {
      first <= |data|
    }

    constructor (data: seq<Byte>)
      ensures Valid() && this.data == data && first == 0 && error == None
    {
      this.data := data;
      first, error := 0, None;
    }

    method AddError(e: ClientError)
      modifies this`error
      ensures error == if old(error).None? then Some(e) else old(error)
    {
      if error.None? {
        error := Some(e);
      }
    }

    /** get_byte: zero on an error. */
    method GetByte() returns (b: Byte)
      requires Valid()
      modifies this
      ensures Valid()
      ensures old(error).None? && old(first) < |data| ==> error == None && first == old(first) + 1 && b == data[old(first)]
      ensures old(error).None? && old(first) == |data| ==> error == Some(IncompleteMessage)
      ensures old(error).Some? ==> error == old(error)
      ensures error.Some? ==> b == 0 && first == old(first)
    {
      if first == |data| {
        AddError(IncompleteMessage);
      }
      if error.Some? {
        return 0;
      }
      b := data[first];
      first := first + 1;
    }

    method GetInt32() returns (n: int)
      requires Valid()
      modifies this
      ensures Valid()
      ensures old(error).None? && old(first) + 4 <= |data| ==> error == None && first == old(first) + 4 && n == Int32(data, old(first))
      ensures old(error).None? && old(first) + 4 > |data| ==> error == Some(IncompleteMessage)
      ensures old(error).Some? ==> error == old(error)
      ensures error.Some? ==> n == 0 && first == old(first)
    {
      if |data| - first < 4 {
        AddError(IncompleteMessage);
      }
      if error.Some? {
        return 0;
      }
      n := Int32(data, first);
      first := first + 4;
    }

    method GetCount() returns (n: nat)
      requires Valid()
      modifies this
      ensures Valid()
      ensures old(error).None? && old(first) + 2 <= |data| && Int16(data, old(first)) >= 0 ==>
        error == None && first == old(first) + 2 && n == Int16(data, old(first))
      ensures old(error).None? && old(first) + 2 <= |data| && Int16(data, old(first)) < 0 ==> error == Some(ProtocolValueError)
      ensures old(error).None? && old(first) + 2 > |data| ==> error == Some(IncompleteMessage)
      ensures old(error).Some? ==> error == old(error)
      ensures error.Some? ==> n == 0
    {
      if |data| - first < 2 {
        AddError(IncompleteMessage);
      }
      if error.Some? {
        return 0;
      }
      var r := Int16(data, first);
      first := first + 2;
      if r < 0 {
        AddError(ProtocolValueError);
        return 0;
      }
      n := r;
    }

    method GetInt16() returns (n: int)
      requires Valid()
      modifies this
      ensures Valid()
      ensures old(error).None? && old(first) + 2 <= |data| ==> error == None && first == old(first) + 2 && n == Int16(data, old(first))
      ensures old(error).None? && old(first) + 2 > |data| ==> error == Some(IncompleteMessage)
      ensures old(error).Some? ==> error == old(error)
      ensures error.Some? ==> n == 0 && first == old(first)
    {
      if |data| - first < 2 {
        AddError(IncompleteMessage);
      }
      if error.Some? {
        return 0;
      }
      n := Int16(data, first);
      first := first + 2;
    }

    /** get_string: up to the next NUL; the empty string on an error. */
    method GetString() returns (s: seq<Byte>)
      requires Valid()
      modifies this
      ensures Valid()
      ensures old(error).None? && NulFrom(data, old(first)) < |data| ==>
        error == None && first == NulFrom(data, old(first)) + 1 && s == data[old(first)..first - 1]
      ensures old(error).None? && NulFrom(data, old(first)) == |data| ==> error == Some(IncompleteMessage)
      ensures old(error).Some? ==> error == old(error)
      ensures error.Some? ==> s == [] && first == old(first)
    {
      if error.Some? {
        return [];
      }
      var q := first;
      while q < |data| && data[q] != 0
        invariant first <= q <= |data| && NulFrom(data, q) == NulFrom(data, first)
      {
        q := q + 1;
      }
      if q == |data| {
        AddError(IncompleteMessage);
        return [];
      }
      s := data[first..q];
      first := q + 1;
    }

    method CheckSizeAndAdvance(n: nat)
      requires Valid()
      modifies this
      ensures Valid()
      ensures first == if old(first) + n <= |data| then old(first) + n else old(first)
      ensures error == if old(error).None? && old(first) + n > |data| then Some(IncompleteMessage) else old(error)
    {
      if n > |data| - first {
        AddError(IncompleteMessage);
      } else {
        first := first + n;
      }
    }

    method Check() returns (e: Option<ClientError>)
      requires Valid()
      modifies this`error
      ensures e == if old(error).None? && first != |data| then Some(ExtraBytes) else old(error)
    {
      if first != |data| {
        AddError(ExtraBytes);
      }
      e := error;
    }
  }

  /** parse, for a DataRow. */
  method ParseDataRow(data: seq<Byte>) returns (r: Parsed)
    ensures r == ParseRow(data)
  {
    var ctx := new ParseContext(data);
    var n := ctx.GetCount();
    var begin := ctx.first;
    for i := 0 to n
      invariant ctx.Valid() && ctx.data == data && fresh(ctx) && begin <= |data|
      invariant ctx.error.None? ==>
        |data| >= 2 && Int16(data, 0) == n && begin == 2 && WalkFields(data, ctx.first, n - i) == WalkFields(data, 2, n)
      invariant ctx.error.Some? ==> ParseRow(data) == Invalid(ctx.error.value)
    {
      var size := ctx.GetInt32();
      if size == -1 {
        continue;
      }
      if size >= 0 {
        ctx.CheckSizeAndAdvance(size);
      } else {
        ctx.AddError(ProtocolValueError);
      }
    }
    var end := ctx.first;
    var e := ctx.Check();
    r := if e.Some? then Invalid(e.value) else Row(n, begin, end);
  }

  // ----- the parser accepts exactly the encodings

  lemma {:induction false} Int32Bytes(n: int, data: seq<Byte>, p: nat)
    requires -0x8000_0000 <= n < 0x8000_0000 && p + 4 <= |data| && data[p..p + 4] == Bytes32(n)
    ensures Int32(data, p) == n
  {
    var b := Bytes32(n);
    assert data[p] == b[0] && data[p + 1] == b[1] && data[p + 2] == b[2] && data[p + 3] == b[3];
    var u := if n < 0 then n + 0x1_0000_0000 else n;
    Horner(u);
  }

  lemma {:induction false} Horner(u: nat)
    requires u < 0x1_0000_0000
    ensures u == u / 0x100_0000 * 0x100_0000 + u / 0x1_0000 % 0x100 * 0x1_0000 + u / 0x100 % 0x100 * 0x100 + u % 0x100
  {
    var a, b := u / 0x100, u / 0x1_0000;
    assert a / 0x100 == b && b / 0x100 == u / 0x100_0000;
    assert u == 0x100 * a + u % 0x100 && a == 0x100 * b + a % 0x100 && b == 0x100 * (b / 0x100) + b % 0x100;
  }

  lemma {:induction false} BytesInt32(data: seq<Byte>, p: nat)
    requires p + 4 <= |data|
    ensures data[p..p + 4] == Bytes32(Int32(data, p))
  {
    var u := data[p] as int * 0x100_0000 + data[p + 1] as int * 0x1_0000 + data[p + 2] as int * 0x100 + data[p + 3] as int;
    Unhorner(data[p], data[p + 1], data[p + 2], data[p + 3]);
  }

  lemma {:induction false} Unhorner(a: Byte, b: Byte, c: Byte, d: Byte)
    ensures var u := a as int * 0x100_0000 + b as int * 0x1_0000 + c as int * 0x100 + d as int;
      u / 0x100_0000 == a && u / 0x1_0000 % 0x100 == b && u / 0x100 % 0x100 == c && u % 0x100 == d
  {
    var u := a as int * 0x100_0000 + b as int * 0x1_0000 + c as int * 0x100 + d as int;
    var x := a as int * 0x1_0000 + b as int * 0x100 + c as int;
    var y := a as int * 0x100 + b as int;
    assert u == 0x100 * x + d && u / 0x100 == x;
    assert x == 0x100 * y + c && x / 0x100 == y;
    assert u / 0x1_0000 == y && y / 0x100 == a && u / 0x100_0000 == a;
  }

  lemma {:induction false} Int16Bytes(n: int, data: seq<Byte>, p: nat)
    requires -0x8000 <= n < 0x8000 && p + 2 <= |data| && data[p..p + 2] == Bytes16(n)
    ensures Int16(data, p) == n
  {
    assert data[p] == Bytes16(n)[0] && data[p + 1] == Bytes16(n)[1];
  }

  lemma {:induction false} BytesInt16(data: seq<Byte>, p: nat)
    requires p + 2 <= |data|
    ensures data[p..p + 2] == Bytes16(Int16(data, p))
  {
    assert data[p..p + 2] == [data[p], data[p + 1]];
  }

  /** A field in bounds is the encoding of what it dereferences to. */
  lemma {:induction false} FieldIsEncoded(data: seq<Byte>, p: nat)
    requires FieldInBounds(data, p)
    ensures Fits(Dereference(data, p)) && data[p..Advance(data, p)] == EncodeField(Dereference(data, p))
  {
    hide Bytes32;
    BytesInt32(data, p);
    var q := Advance(data, p);
    assert data[p..q] == data[p..p + 4] + data[p + 4..q];
  }

  /** After a successful walk the view visits the declared number of fields, in bounds, and
      they are the ones on the wire. */
  lemma {:induction false} WalkVisits(data: seq<Byte>, p: nat, n: nat)
    requires p <= |data| && WalkFields(data, p, n).Ends?
    ensures var q := WalkFields(data, p, n).at;
      && p <= q <= |data| && Iterable(data, p, q)
      && var fs := Visit(data, p, q); |fs| == n && AllFit(fs) && data[p..q] == EncodeFields(fs)
    decreases n
  {
    hide Dereference, EncodeField, Int32, WalkFields, Visit, Iterable, EncodeFields, FieldInBounds, Advance;
    WalkStep(data, p, n);
    if n > 0 {
      FieldIsEncoded(data, p);
      var next := Advance(data, p);
      WalkVisits(data, next, n - 1);
      VisitStep(data, p, WalkFields(data, p, n).at);
    } else {
      VisitNone(data, p);
    }
  }

  lemma {:induction false} WalkStep(data: seq<Byte>, p: nat, n: nat)
    requires p <= |data| && WalkFields(data, p, n).Ends?
    ensures n == 0 ==> WalkFields(data, p, n) == Ends(p)
    ensures n > 0 ==> FieldInBounds(data, p) && WalkFields(data, p, n) == WalkFields(data, Advance(data, p), n - 1)
  {
    hide Int32;
  }

  lemma {:induction false} VisitNone(data: seq<Byte>, p: nat)
    requires p <= |data|
    ensures Iterable(data, p, p) && Visit(data, p, p) == [] && data[p..p] == EncodeFields([])
  {
  }

  /** One field in front of the others. */
  lemma {:induction false} VisitStep(data: seq<Byte>, p: nat, q: nat)
    requires FieldInBounds(data, p) && Advance(data, p) <= q <= |data| && Iterable(data, Advance(data, p), q)
    requires Fits(Dereference(data, p)) && data[p..Advance(data, p)] == EncodeField(Dereference(data, p))
    requires var rest := Visit(data, Advance(data, p), q); AllFit(rest) && data[Advance(data, p)..q] == EncodeFields(rest)
    ensures Iterable(data, p, q)
    ensures var fs, rest := Visit(data, p, q), Visit(data, Advance(data, p), q);
      |fs| == 1 + |rest| && AllFit(fs) && data[p..q] == EncodeFields(fs)
  {
    hide Dereference, EncodeField, Int32, Fits;
    var next := Advance(data, p);
    var rest := Visit(data, next, q);
    var fs := [Dereference(data, p)] + rest;
    assert Visit(data, p, q) == fs && fs[1..] == rest;
    assert data[p..q] == data[p..next] + data[next..q];
  }

  lemma {:induction false} EncodedField(data: seq<Byte>, p: nat, f: Field)
    requires Fits(f) && p + |EncodeField(f)| <= |data| && data[p..p + |EncodeField(f)|] == EncodeField(f)
    ensures FieldInBounds(data, p) && Dereference(data, p) == f && Advance(data, p) == p + |EncodeField(f)|
  {
    hide Bytes32, Int32;
    var b := EncodeField(f);
    assert data[p..p + 4] == b[..4];
    Int32Bytes(if f.None? then -1 else |f.value|, data, p);
    if f.Some? {
      assert data[p + 4..p + |b|] == b[4..] == f.value;
    }
  }

  lemma {:induction false} SplitIn(data: seq<Byte>, p: nat, b: seq<Byte>, rest: seq<Byte>)
    requires p + |b + rest| <= |data| && data[p..p + |b + rest|] == b + rest
    ensures data[p..p + |b|] == b && data[p + |b|..p + |b| + |rest|] == rest
  {
    var d := data[p..p + |b + rest|];
    assert d[..|b|] == data[p..p + |b|] && d[|b|..] == data[p + |b|..p + |b| + |rest|];
  }

  /** One step of the walk, and one of the view. */
  lemma {:induction false} OneField(data: seq<Byte>, p: nat, n: nat, end: nat)
    requires FieldInBounds(data, p) && n > 0
    ensures WalkFields(data, p, n) == WalkFields(data, Advance(data, p), n - 1)
    ensures Advance(data, p) <= end && Iterable(data, Advance(data, p), end) ==>
      Iterable(data, p, end) && Visit(data, p, end) == [Dereference(data, p)] + Visit(data, Advance(data, p), end)
  {
    hide Dereference;
  }

  lemma {:induction false} EncodedWalk(data: seq<Byte>, p: nat, fs: seq<Field>)
    requires AllFit(fs) && p + |EncodeFields(fs)| <= |data| && data[p..p + |EncodeFields(fs)|] == EncodeFields(fs)
    ensures var q := p + |EncodeFields(fs)|;
      WalkFields(data, p, |fs|) == Ends(q) && Iterable(data, p, q) && Visit(data, p, q) == fs
    decreases |fs|
  {
    hide EncodeField, Dereference, FieldInBounds, Advance, WalkFields, Visit, Iterable, EncodeFields;
    EncodeFieldsHead(fs);
    if fs == [] {
      NoFields(data, p);
    } else {
      var b, rest := EncodeField(fs[0]), EncodeFields(fs[1..]);
      SplitIn(data, p, b, rest);
      EncodedField(data, p, fs[0]);
      EncodedWalk(data, p + |b|, fs[1..]);
      OneField(data, p, |fs|, p + |b + rest|);
      assert [fs[0]] + fs[1..] == fs;
    }
  }

  lemma {:induction false} EncodeFieldsHead(fs: seq<Field>)
    requires AllFit(fs)
    ensures EncodeFields(fs) == if fs == [] then [] else EncodeField(fs[0]) + EncodeFields(fs[1..])
  {
  }

  lemma {:induction false} NoFields(data: seq<Byte>, p: nat)
    requires p <= |data|
    ensures WalkFields(data, p, 0) == Ends(p) && Iterable(data, p, p) && Visit(data, p, p) == []
  {
  }

  lemma {:induction false} WalkPast(data: seq<Byte>, p: nat, fs: seq<Field>, n: nat)
    requires AllFit(fs) && |fs| <= n && p + |EncodeFields(fs)| <= |data| && data[p..p + |EncodeFields(fs)|] == EncodeFields(fs)
    ensures WalkFields(data, p, n) == WalkFields(data, p + |EncodeFields(fs)|, n - |fs|)
    decreases |fs|
  {
    hide EncodeField, Dereference, FieldInBounds, Advance, WalkFields, EncodeFields;
    EncodeFieldsHead(fs);
    if fs != [] {
      var b, rest := EncodeField(fs[0]), EncodeFields(fs[1..]);
      SplitIn(data, p, b, rest);
      EncodedField(data, p, fs[0]);
      OneField(data, p, n, |data|);
      WalkPast(data, p + |b|, fs[1..], n - 1);
    }
  }

  /** The errors: after as many fields as are whole, what follows decides. With all fields there,
      anything more is too much; otherwise a length below -1 is no length, and what is too short for
      a length or for its bytes is incomplete. */
  lemma {:induction false} RowErrorsExactly(n: nat, fs: seq<Field>, rest: seq<Byte>)
    requires AllFit(fs) && |fs| <= n < 0x8000
    ensures var r := ParseRow(Bytes16(n) + EncodeFields(fs) + rest);
      if |fs| == n then rest != [] ==> r == Invalid(ExtraBytes)
      else if |rest| < 4 then r == Invalid(IncompleteMessage)
      else
        && (Int32(rest, 0) < -1 ==> r == Invalid(ProtocolValueError))
        && (Int32(rest, 0) > |rest| - 4 ==> r == Invalid(IncompleteMessage))
  {
    hide Bytes16, EncodeFields, Int32;
    var data := Bytes16(n) + EncodeFields(fs) + rest;
    var q := 2 + |EncodeFields(fs)|;
    assert data[0..2] == Bytes16(n) && data[2..q] == EncodeFields(fs) && data[q..] == rest;
    Int16Bytes(n, data, 0);
    WalkPast(data, 2, fs, n);
    if |rest| >= 4 {
      SameInt32(data, q, rest);
    }
  }

  lemma {:induction false} SameInt32(data: seq<Byte>, q: nat, rest: seq<Byte>)
    requires q + 4 <= |data| && |rest| >= 4 && data[q..] == rest
    ensures Int32(data, q) == Int32(rest, 0)
  {
    assert forall i | 0 <= i < 4 :: data[q + i] == rest[i];
  }

  /** And before the fields: a message without a number is incomplete, and no number is negative. */
  lemma {:induction false} CountErrors(data: seq<Byte>)
    ensures |data| < 2 ==> ParseRow(data) == Invalid(IncompleteMessage)
    ensures |data| >= 2 && Int16(data, 0) < 0 ==> ParseRow(data) == Invalid(ProtocolValueError)
  {
    hide Int16;
  }

  /** Round trip: every row comes back from its message, NULL fields and empty ones included,
      and iterating its view ends at the end pointer. */
  lemma {:induction false} RowRoundTrip(fs: seq<Field>)
    requires AllFit(fs) && |fs| < 0x8000
    ensures var data := EncodeRow(fs);
      && ParseRow(data) == Row(|fs|, 2, |data|)
      && Iterable(data, 2, |data|) && Visit(data, 2, |data|) == fs
  {
    hide Bytes16, WalkFields, Visit, Iterable, EncodeFields;
    var data := EncodeRow(fs);
    assert data[..2] == Bytes16(|fs|) && data[2..] == EncodeFields(fs);
    assert data[0..2] == data[..2];
    Int16Bytes(|fs|, data, 0);
    EncodedWalk(data, 2, fs);
  }

  /** The parser accepts nothing but rows: a message that it accepts is the encoding of the
      fields that its view visits. */
  lemma {:induction false} ParsedRowIsEncoded(data: seq<Byte>)
    requires ParseRow(data).Row?
    ensures var r := ParseRow(data);
      && r.begin <= r.end == |data| && Iterable(data, r.begin, r.end)
      && var fs := Visit(data, r.begin, r.end);
         |fs| == r.count < 0x8000 && AllFit(fs) && data == EncodeRow(fs)
  {
    hide WalkFields, Visit, Iterable, EncodeFields;
    WalkVisits(data, 2, Int16(data, 0));
    assert data == data[0..2] + data[2..];
    BytesInt16(data, 0);
  }
}
