/** The operations that build a request (include/nativepg/request.hpp, src/request.cpp) and the
    serializers of their messages (src/messages.cpp). */
module RequestOperations {
  import opened Messages
  import opened CheckRequest
  import opened DataRows
  import opened ParsingViews
  import opened RequestBuilder

  type Int32Value = n: int | -0x8000_0000 <= n < 0x8000_0000

  datatype Format = TextFormat | BinaryFormat

  /** A parameter: its type, and what it writes in each format. */
  datatype Param = Param(oid: Int32Value, text: Parameter, binary: Parameter)

  datatype Operation =
    | SimpleQuery(query: Text)
    | ExtendedQuery(query: Text, params: seq<Param>, paramFormat: Format, resultFormat: Format, maxRows: Int32Value)
    | Prepare(query: Text, name: Text, oids: seq<Int32Value>)
    | ExecuteStatement(name: Text, params: seq<Param>, paramFormat: Format, resultFormat: Format, maxRows: Int32Value)
    | DescribeStatement(name: Text)
    | DescribePortal(name: Text)
    | CloseStatement(name: Text)
    | ClosePortal(name: Text)

  // ----- the bodies of the messages

  function Chosen(ps: seq<Param>, format: Format): (cs: seq<Parameter>)
    ensures |cs| == |ps|
    ensures forall i | 0 <= i < |ps| :: cs[i] == if format == BinaryFormat then ps[i].binary else ps[i].text
  {
    seq(|ps|, i requires 0 <= i < |ps| => if format == BinaryFormat then ps[i].binary else ps[i].text)
  }

  function OidsOf(ps: seq<Param>): (oids: seq<Int32Value>)
    ensures |oids| == |ps| && forall i | 0 <= i < |ps| :: oids[i] == ps[i].oid
  {
    seq(|ps|, i requires 0 <= i < |ps| => ps[i].oid)
  }

  function EncodeOids(oids: seq<Int32Value>): Text {
    if oids == [] then [] else EncodeOids(oids[..|oids| - 1]) + Bytes32(oids[|oids| - 1])
  }

  /** serialize_fmt_codes: no code for text, one for binary. */
  function Codes(f: Format): Text {
    if f == BinaryFormat then Bytes16(1) + Bytes16(1) else Bytes16(0)
  }

  function ParseBody(name: Text, query: Text, oids: seq<Int32Value>): Text
    requires |oids| <= 0x7fff
  {
    EncodeString(name) + EncodeString(query) + Bytes16(|oids|) + EncodeOids(oids)
  }

  function BindBody(portal: Text, name: Text, ps: seq<Parameter>, paramFormat: Format, resultFormat: Format): Text
    requires AllFit(Values(ps)) && |ps| <= 0x7fff
  {
    EncodeString(portal) + EncodeString(name) + Codes(paramFormat) + EncodeRow(Values(ps)) + Codes(resultFormat)
  }

  function TargetBody(letter: Byte, name: Text): Text {
    [letter] + EncodeString(name)
  }

  function ExecuteBody(portal: Text, maxRows: Int32Value): Text {
    EncodeString(portal) + Bytes32(maxRows)
  }

  // ----- the messages of an operation

  /** The parameters can be written, and there are not too many of them. */
  predicate Writable(ps: seq<Param>, format: Format) {
    AllGood(Chosen(ps, format)) && |ps| <= 0x7fff
  }

  /** No serializer fails. */
  predicate Good(op: Operation) {
    match op
    case ExtendedQuery(_, ps, format, _, _) => Writable(ps, format)
    case ExecuteStatement(_, ps, format, _, _) => Writable(ps, format)
    case Prepare(_, _, oids) => |oids| <= 0x7fff
    case _ => true
  }

  function Plain(kind: RequestMessage, body: Text): Addition {
    Addition(kind, body, false)
  }

  /** maybe_add_sync. */
  function MaybeSync(autosync: bool): seq<Addition> {
    if autosync then [Plain(Sync, [])] else []
  }

  /** add_execute: a bind of the unnamed portal, its description and its execution. */
  function ExecuteAdditions(name: Text, ps: seq<Param>, paramFormat: Format, resultFormat: Format, maxRows: Int32Value, autosync: bool): seq<Addition>
    requires Writable(ps, paramFormat)
  {
    GoodFits(Chosen(ps, paramFormat));
    [Plain(Bind, BindBody([], name, Chosen(ps, paramFormat), paramFormat, resultFormat)),
     Plain(Describe, TargetBody(80, [])),
     Plain(Execute, ExecuteBody([], maxRows))] + MaybeSync(autosync)
  }

  function Additions(op: Operation, autosync: bool): seq<Addition>
    requires Good(op)
  {
    match op
    case SimpleQuery(q) => [Plain(Query, EncodeString(q))]
    case ExtendedQuery(q, ps, paramFormat, resultFormat, maxRows) =>
      [Plain(Parse, ParseBody([], q, OidsOf(ps)))] + ExecuteAdditions([], ps, paramFormat, resultFormat, maxRows, autosync)
    case Prepare(q, name, oids) => [Plain(Parse, ParseBody(name, q, oids))] + MaybeSync(autosync)
    case ExecuteStatement(name, ps, paramFormat, resultFormat, maxRows) =>
      ExecuteAdditions(name, ps, paramFormat, resultFormat, maxRows, autosync)
    case DescribeStatement(name) => [Plain(Describe, TargetBody(83, name))] + MaybeSync(autosync)
    case DescribePortal(name) => [Plain(Describe, TargetBody(80, name))] + MaybeSync(autosync)
    case CloseStatement(name) => [Plain(Close, TargetBody(83, name))] + MaybeSync(autosync)
    case ClosePortal(name) => [Plain(Close, TargetBody(80, name))] + MaybeSync(autosync)
  }

  predicate AllGoodOps(ops: seq<Operation>) {
    forall i | 0 <= i < |ops| :: Good(ops[i])
  }

  /** All the additions of a sequence of operations. */
  function AllAdditions(ops: seq<Operation>, autosync: bool): seq<Addition>
    requires AllGoodOps(ops)
  {
    if ops == [] then [] else Additions(ops[0], autosync) + AllAdditions(ops[1..], autosync)
  }

  // ----- with autosync on, the static check passes

  predicate NoneFails(adds: seq<Addition>) {
    forall i | 0 <= i < |adds| :: !adds[i].failed
  }

  lemma {:induction false} TypesAppend(a: seq<Addition>, b: seq<Addition>)
    ensures Types(a + b) == Types(a) + Types(b)
    decreases |a|
  {
    if a == [] {
      assert a + b == b;
    } else {
      assert (a + b)[1..] == a[1..] + b;
      TypesAppend(a[1..], b);
    }
  }

  lemma {:induction false} TypesAre(adds: seq<Addition>)
    requires NoneFails(adds)
    ensures |Types(adds)| == |adds| && forall i | 0 <= i < |adds| :: Types(adds)[i] == adds[i].kind
    decreases |adds|
  {
    if adds != [] {
      assert forall i | 0 <= i < |adds[1..]| :: adds[1..][i] == adds[i + 1];
      TypesAre(adds[1..]);
    }
  }

  /** With autosync on, every operation adds a whole unit. */
  lemma {:induction false} OperationIsUnit(op: Operation)
    requires Good(op)
    ensures NoneFails(Additions(op, true)) && IsUnit(Types(Additions(op, true)))
  {
    hide Types, ParseBody, BindBody, TargetBody, ExecuteBody, EncodeString;
    var adds := Additions(op, true);
    TypesAre(adds);
    var ts := Types(adds);
    if op.SimpleQuery? {
      assert ts == [Query];
    } else {
      assert forall i | 0 <= i < |ts| - 1 :: ts[i] == adds[i].kind;
    }
  }

  lemma {:induction false} UnitFirst(u: seq<RequestMessage>, rest: seq<RequestMessage>)
    requires IsUnit(u) && Closed(rest, false)
    ensures Closed(u + rest, false)
  {
    if u == [Query] {
      assert (u + rest)[1..] == rest;
    } else {
      UnitThenClosed(u, rest, false);
    }
  }

  lemma {:induction false} OperationsAreClosed(ops: seq<Operation>)
    requires AllGoodOps(ops)
    ensures Closed(Types(AllAdditions(ops, true)), false)
    decreases |ops|
  {
    hide IsUnit, Additions, Good;
    if ops != [] {
      var a, b := Additions(ops[0], true), AllAdditions(ops[1..], true);
      OperationsAreClosed(ops[1..]);
      OperationIsUnit(ops[0]);
      TypesAppend(a, b);
      UnitFirst(Types(a), Types(b));
    }
  }

  /** A request built with autosync on, by any operations of which none fails, passes the static
      check, unless there are none. */
  lemma {:induction false} AutosyncIsAccepted(ops: seq<Operation>)
    requires ops != [] && AllGoodOps(ops)
    ensures Accepted(Types(AllAdditions(ops, true)))
  {
    hide Closed, Additions, Good, IsUnit;
    OperationsAreClosed(ops);
    OperationIsUnit(ops[0]);
    UnitIsSome(Types(Additions(ops[0], true)));
    TypesAppend(Additions(ops[0], true), AllAdditions(ops[1..], true));
  }

  lemma {:induction false} UnitIsSome(u: seq<RequestMessage>)
    requires IsUnit(u)
    ensures u != []
  {
  }

  // ----- the operations in place

  lemma {:induction false} PayloadAppend(a: seq<Addition>, b: seq<Addition>)
    ensures Payload(a + b) == Payload(a) + Payload(b)
    decreases |a|
  {
    hide Written;
    if a == [] {
      assert a + b == b;
    } else {
      assert (a + b)[1..] == a[1..] + b;
      PayloadAppend(a[1..], b);
    }
  }

  lemma {:induction false} OneAdded(a: Addition)
    ensures Payload([a]) == Written(a) && Types([a]) == if a.failed then [] else [a.kind]
  {
    hide Written;
    assert [a][1..] == [];
  }

  /** add, for a serializer that cannot fail. */
  method AddPlain(r: Request, kind: RequestMessage, body: Text)
    modifies r
    ensures r.buffer == old(r.buffer) + Payload([Plain(kind, body)]) && r.types == old(r.types) + Types([Plain(kind, body)])
    ensures r.autosync == old(r.autosync)
  {
    hide Payload, Types, Written;
    OneAdded(Plain(kind, body));
    var _ := r.Add(Plain(kind, body));
  }

  method MaybeAddSync(r: Request)
    modifies r
    ensures r.buffer == old(r.buffer) + Payload(MaybeSync(r.autosync)) && r.types == old(r.types) + Types(MaybeSync(r.autosync))
    ensures r.autosync == old(r.autosync)
  {
    if r.autosync {
      AddPlain(r, Sync, []);
    }
  }

  /** serialize, for a parse. */
  method AddParse(r: Request, name: Text, query: Text, oids: seq<Int32Value>) returns (thrown: bool)
    modifies r
    ensures thrown <==> |oids| > 0x7fff
    ensures r.autosync == old(r.autosync) && old(r.buffer) <= r.buffer && old(r.types) <= r.types
    ensures !thrown ==>
      var adds := [Plain(Parse, ParseBody(name, query, oids))];
      r.buffer == old(r.buffer) + Payload(adds) && r.types == old(r.types) + Types(adds)
  {
    hide Payload, Types, Written, Bytes32, Bytes16;
    var body := EncodeString(name) + EncodeString(query);
    if |oids| > 0x7fff {
      thrown := r.Add(Addition(Parse, body, true));
      return true;
    }
    body := body + Bytes16(|oids|);
    ghost var start := body;
    for i := 0 to |oids|
      invariant body == start + EncodeOids(oids[..i])
    {
      assert oids[..i + 1][..i] == oids[..i];
      body := body + Bytes32(oids[i]);
    }
    assert oids[..|oids|] == oids;
    OneAdded(Plain(Parse, body));
    thrown := r.Add(Plain(Parse, body));
  }

  /** add_bind. */
  method AddBind(r: Request, portal: Text, name: Text, ps: seq<Param>, paramFormat: Format, resultFormat: Format) returns (thrown: bool)
    modifies r
    ensures thrown <==> !Writable(ps, paramFormat)
    ensures r.autosync == old(r.autosync) && old(r.buffer) <= r.buffer && old(r.types) <= r.types
    ensures !thrown ==>
      AllFit(Values(Chosen(ps, paramFormat))) &&
      var adds := [Plain(Bind, BindBody(portal, name, Chosen(ps, paramFormat), paramFormat, resultFormat))];
      r.buffer == old(r.buffer) + Payload(adds) && r.types == old(r.types) + Types(adds)
  {
    hide Payload, Types, Written, Bytes16, EncodeRow, AllGood, AllFit;
    var body := EncodeString(portal) + EncodeString(name);
    body := body + Codes(paramFormat);
    var failed;
    body, failed := SerializeParams(body, Chosen(ps, paramFormat));
    body := body + Codes(resultFormat);
    OneAdded(Addition(Bind, body, failed));
    thrown := r.Add(Addition(Bind, body, failed));
  }

  /** add_execute. */
  method AddExecute(r: Request, name: Text, ps: seq<Param>, paramFormat: Format, resultFormat: Format, maxRows: Int32Value)
    returns (thrown: bool)
    modifies r
    ensures thrown <==> !Writable(ps, paramFormat)
    ensures r.autosync == old(r.autosync) && old(r.buffer) <= r.buffer && old(r.types) <= r.types
    ensures !thrown ==>
      var adds := ExecuteAdditions(name, ps, paramFormat, resultFormat, maxRows, r.autosync);
      r.buffer == old(r.buffer) + Payload(adds) && r.types == old(r.types) + Types(adds)
  {
    hide Payload, Types, Written, BindBody, TargetBody, ExecuteBody, AllGood, AllFit, MaybeSync;
    thrown := AddBind(r, [], name, ps, paramFormat, resultFormat);
    if thrown {
      return;
    }
    AddPlain(r, Describe, TargetBody(80, []));
    AddPlain(r, Execute, ExecuteBody([], maxRows));
    MaybeAddSync(r);
    GoodFits(Chosen(ps, paramFormat));
    ghost var a := Plain(Bind, BindBody([], name, Chosen(ps, paramFormat), paramFormat, resultFormat));
    FourAdded(a, Plain(Describe, TargetBody(80, [])), Plain(Execute, ExecuteBody([], maxRows)), MaybeSync(r.autosync), old(r.buffer), old(r.types));
  }

  lemma {:induction false} FourAdded(a: Addition, b: Addition, c: Addition, rest: seq<Addition>, buffer: Text, types: seq<RequestMessage>)
    ensures buffer + Payload([a]) + Payload([b]) + Payload([c]) + Payload(rest) == buffer + Payload([a, b, c] + rest)
    ensures types + Types([a]) + Types([b]) + Types([c]) + Types(rest) == types + Types([a, b, c] + rest)
  {
    hide Payload, Types;
    assert [a, b, c] + rest == [a] + ([b] + ([c] + rest));
    PayloadAppend([c], rest);
    PayloadAppend([b], [c] + rest);
    PayloadAppend([a], [b] + ([c] + rest));
    TypesAppend([c], rest);
    TypesAppend([b], [c] + rest);
    TypesAppend([a], [b] + ([c] + rest));
    Gathered(buffer, Payload([a]), Payload([b]), Payload([c]), Payload(rest));
    Gathered(types, Types([a]), Types([b]), Types([c]), Types(rest));
  }

  lemma {:induction false} Gathered<T>(s: seq<T>, a: seq<T>, b: seq<T>, c: seq<T>, d: seq<T>)
    ensures s + a + b + c + d == s + (a + (b + (c + d)))
  {
  }

  lemma {:induction false} TwoAdded(a: seq<Addition>, b: seq<Addition>, buffer: Text, types: seq<RequestMessage>)
    ensures buffer + Payload(a) + Payload(b) == buffer + Payload(a + b)
    ensures types + Types(a) + Types(b) == types + Types(a + b)
  {
    hide Payload, Types;
    PayloadAppend(a, b);
    TypesAppend(a, b);
    assert buffer + Payload(a) + Payload(b) == buffer + (Payload(a) + Payload(b));
    assert types + Types(a) + Types(b) == types + (Types(a) + Types(b));
  }

  /** The operations of the request: each throws exactly if a serializer fails, and otherwise adds
      its messages. */
  method Perform(r: Request, op: Operation) returns (thrown: bool)
    modifies r
    ensures thrown <==> !Good(op)
    ensures r.autosync == old(r.autosync) && old(r.buffer) <= r.buffer && old(r.types) <= r.types
    ensures !thrown ==>
      var adds := Additions(op, r.autosync);
      r.buffer == old(r.buffer) + Payload(adds) && r.types == old(r.types) + Types(adds)
  {
    hide Payload, Types, Written, ParseBody, BindBody, TargetBody, ExecuteBody, Writable, MaybeSync, ExecuteAdditions;
    ghost var buffer, types := r.buffer, r.types;
    thrown := false;
    match op {
      case SimpleQuery(q) =>
        AddPlain(r, Query, EncodeString(q));
      case ExtendedQuery(q, ps, paramFormat, resultFormat, maxRows) =>
        TooManyOids(ps, paramFormat);
        thrown := AddParse(r, [], q, OidsOf(ps));
        if !thrown {
          thrown := AddExecute(r, [], ps, paramFormat, resultFormat, maxRows);
          if !thrown {
            TwoAdded([Plain(Parse, ParseBody([], q, OidsOf(ps)))],
                     ExecuteAdditions([], ps, paramFormat, resultFormat, maxRows, r.autosync), buffer, types);
          }
        }
      case Prepare(q, name, oids) =>
        thrown := AddParse(r, name, q, oids);
        if !thrown {
          MaybeAddSync(r);
          TwoAdded([Plain(Parse, ParseBody(name, q, oids))], MaybeSync(r.autosync), buffer, types);
        }
      case ExecuteStatement(name, ps, paramFormat, resultFormat, maxRows) =>
        thrown := AddExecute(r, name, ps, paramFormat, resultFormat, maxRows);
      case DescribeStatement(name) =>
        AddTarget(r, Describe, 83, name);
      case DescribePortal(name) =>
        AddTarget(r, Describe, 80, name);
      case CloseStatement(name) =>
        AddTarget(r, Close, 83, name);
      case ClosePortal(name) =>
        AddTarget(r, Close, 80, name);
    }
  }

  lemma {:induction false} TooManyOids(ps: seq<Param>, format: Format)
    ensures |ps| > 0x7fff ==> !Writable(ps, format)
  {
  }

  method AddTarget(r: Request, kind: RequestMessage, letter: Byte, name: Text)
    modifies r
    ensures var adds := [Plain(kind, TargetBody(letter, name))] + MaybeSync(r.autosync);
      r.buffer == old(r.buffer) + Payload(adds) && r.types == old(r.types) + Types(adds) && r.autosync == old(r.autosync)
  {
    hide Payload, Types, Written, TargetBody, MaybeSync;
    ghost var buffer, types := r.buffer, r.types;
    AddPlain(r, kind, TargetBody(letter, name));
    MaybeAddSync(r);
    TwoAdded([Plain(kind, TargetBody(letter, name))], MaybeSync(r.autosync), buffer, types);
  }
}
