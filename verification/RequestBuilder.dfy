/** Requests as they are built (include/nativepg/request.hpp, src/request.cpp): each message is
    serialized behind the others, with its length stored last
    (include/nativepg/protocol/detail/serialization_context.hpp), and its type is noted. */
module RequestBuilder {
  import opened Messages
  import opened CheckRequest
  import opened DataRows

  function Letter(m: RequestMessage): Byte {
    match m
    case Bind => 66
    case Close => 67
    case Describe => 68
    case Execute => 69
    case Flush => 72
    case Parse => 80
    case Query => 81
    case Sync => 83
  }

  /** The letters are those of the protocol. */
  lemma {:induction false} LettersAre()
    ensures Letter(Bind) == 'B' as int && Letter(Close) == 'C' as int && Letter(Describe) == 'D' as int && Letter(Execute) == 'E' as int
    ensures Letter(Flush) == 'H' as int && Letter(Parse) == 'P' as int && Letter(Query) == 'Q' as int && Letter(Sync) == 'S' as int
  {
  }

  /** What a serializer writes behind the header, and whether it noted an error. */
  datatype Addition = Addition(kind: RequestMessage, body: Text, failed: bool)

  /** The serializer succeeds, and the length fits in 31 bits. */
  predicate Fine(a: Addition) {
    !a.failed && |a.body| < 0x7fff_fffc
  }

  /** The bytes of an addition: the length is stored only if it is fine. */
  function Written(a: Addition): Text {
    if Fine(a) then Frame(Letter(a.kind), a.body) else [Letter(a.kind)] + Room + a.body
  }

  function Payload(adds: seq<Addition>): Text {
    if adds == [] then [] else Written(adds[0]) + Payload(adds[1..])
  }

  /** The types that were noted: those of the additions without an error. */
  function Types(adds: seq<Addition>): seq<RequestMessage> {
    if adds == [] then []
    else (if adds[0].failed then [] else [adds[0].kind]) + Types(adds[1..])
  }

  /** The additions that are made: an error throws, so the first one that fails is the last. */
  function Made(adds: seq<Addition>): seq<Addition> {
    if adds == [] then [] else [adds[0]] + if adds[0].failed then [] else Made(adds[1..])
  }

  // ----- the builder

  class Request {
    var buffer: Text
    var types: seq<RequestMessage>
    var autosync: bool

    constructor (autosync: bool)
      ensures buffer == [] && types == [] && this.autosync == autosync
    {
      buffer, types := [], [];
      this.autosync := autosync;
    }

    /** add_advanced_impl, with the serializer and finalize_message. */
    method Add(a: Addition) returns (thrown: bool)
      modifies this`buffer, this`types
      ensures thrown == a.failed
      ensures buffer == old(buffer) + Written(a)
      ensures types == old(types) + if a.failed then [] else [a.kind]
    {
      hide Bytes32, Letter;
      var header := |buffer|;
      buffer := buffer + [Letter(a.kind)] + Room;
      buffer := buffer + a.body;
      assert buffer == old(buffer) + ([Letter(a.kind)] + Room + a.body);
      if a.failed {
        return true;
      }
      var size := |buffer| - header - 1;
      if size <= 0x7fff_ffff {
        Patched(old(buffer) + [Letter(a.kind)], a.body, Bytes32(size));
        buffer := buffer[..header + 1] + Bytes32(size) + buffer[header + 5..];
      }
      types := types + [a.kind];
      return false;
    }

    /** Several messages, one after the other. */
    method AddAll(adds: seq<Addition>) returns (thrown: bool)
      modifies this`buffer, this`types
      ensures thrown <==> exists i :: 0 <= i < |adds| && adds[i].failed
      ensures buffer == old(buffer) + Payload(Made(adds)) && types == old(types) + Types(Made(adds))
    {
      hide Payload, Types, Made, Written;
      NothingMade(buffer, types);
      ghost var was, noted := buffer, types;
      for i := 0 to |adds|
        invariant forall k | 0 <= k < i :: !adds[k].failed
        invariant was + Payload(Made(adds)) == buffer + Payload(Made(adds[i..]))
        invariant noted + Types(Made(adds)) == types + Types(Made(adds[i..]))
      {
        OneMade(adds[i..], buffer, types);
        assert adds[i..][1..] == adds[i + 1..];
        thrown := Add(adds[i]);
        if thrown {
          return true;
        }
      }
      assert adds[|adds|..] == [];
      return false;
    }
  }

  lemma {:induction false} NothingMade(buffer: Text, types: seq<RequestMessage>)
    ensures Payload(Made([])) == [] && Types(Made([])) == []
    ensures buffer + [] == buffer && types + [] == types
  {
  }

  /** The first of several additions. */
  lemma {:induction false} OneMade(adds: seq<Addition>, buffer: Text, types: seq<RequestMessage>)
    requires adds != []
    ensures var more := if adds[0].failed then [] else Made(adds[1..]);
      && buffer + Payload(Made(adds)) == buffer + Written(adds[0]) + Payload(more)
      && types + Types(Made(adds)) == types + (if adds[0].failed then [] else [adds[0].kind]) + Types(more)
    ensures Payload([]) == [] && Types([]) == []
  {
    hide Made, Written, Payload, Types;
    var more := if adds[0].failed then [] else Made(adds[1..]);
    MadeFirst(adds);
    AddedFirst(adds[0], more);
    NothingAdded();
    assert buffer + (Written(adds[0]) + Payload(more)) == buffer + Written(adds[0]) + Payload(more);
  }

  lemma {:induction false} MadeFirst(adds: seq<Addition>)
    requires adds != []
    ensures Made(adds) == [adds[0]] + if adds[0].failed then [] else Made(adds[1..])
  {
  }

  lemma {:induction false} AddedFirst(a: Addition, more: seq<Addition>)
    ensures Payload([a] + more) == Written(a) + Payload(more)
    ensures Types([a] + more) == (if a.failed then [] else [a.kind]) + Types(more)
  {
    hide Written;
    assert ([a] + more)[1..] == more;
  }

  lemma {:induction false} NothingAdded()
    ensures Payload([]) == [] && Types([]) == []
  {
  }

  // ----- what the server reads

  datatype Packet = Packet(letter: Byte, body: Text)

  /** The packets of a payload, or none if it is not made of packets. */
  function Split(data: Text): Option<seq<Packet>>
    decreases |data|
  {
    if data == [] then Some([])
    else if |data| < 5 then None
    else
      var n := Int32(data, 1);
      if n < 4 || |data| < n + 1 then None
      else match Split(data[n + 1..])
        case None => None
        case Some(ps) => Some([Packet(data[0], data[5..n + 1])] + ps)
  }

  function Packets(adds: seq<Addition>): seq<Packet> {
    if adds == [] then [] else [Packet(Letter(adds[0].kind), adds[0].body)] + Packets(adds[1..])
  }

  predicate AllFine(adds: seq<Addition>) {
    forall i | 0 <= i < |adds| :: Fine(adds[i])
  }

  lemma {:induction false} SplitFrame(letter: Byte, body: Text, rest: Text)
    requires |body| < 0x7fff_fffc
    ensures Split(Frame(letter, body) + rest) ==
      match Split(rest) case None => None case Some(ps) => Some([Packet(letter, body)] + ps)
  {
    hide Bytes32, Int32;
    var data, n := Frame(letter, body) + rest, |body| + 4;
    assert data[1..5] == Bytes32(n);
    Int32Bytes(n, data, 1);
    assert data[0] == letter && data[5..n + 1] == body && data[n + 1..] == rest;
  }

  lemma {:induction false} SplitUnfinished(letter: Byte, body: Text, rest: Text)
    ensures Split([letter] + Room + body + rest) == None
  {
    var data := [letter] + Room + body + rest;
    assert data[1] == 0 && data[2] == 0 && data[3] == 0 && data[4] == 0;
  }

  lemma {:induction false} AllFineHead(adds: seq<Addition>)
    requires adds != []
    ensures AllFine(adds) <==> Fine(adds[0]) && AllFine(adds[1..])
  {
    hide Fine;
    assert forall i | 0 <= i < |adds[1..]| :: adds[1..][i] == adds[i + 1];
    assert forall i | 0 < i < |adds| :: adds[i] == adds[1..][i - 1];
  }

  lemma {:induction false} PayloadSplits(adds: seq<Addition>)
    ensures Split(Payload(adds)) == if AllFine(adds) then Some(Packets(adds)) else None
    decreases |adds|
  {
    hide Split, AllFine, Frame, Letter;
    if adds == [] {
      NothingSplits();
    } else {
      var a, rest := adds[0], Payload(adds[1..]);
      PayloadSplits(adds[1..]);
      AllFineHead(adds);
      if Fine(a) {
        SplitFrame(Letter(a.kind), a.body, rest);
      } else {
        SplitUnfinished(Letter(a.kind), a.body, rest);
      }
    }
  }

  lemma {:induction false} NothingSplits()
    ensures Split([]) == Some([]) && AllFine([])
  {
  }

  function Letters(ts: seq<RequestMessage>): seq<Byte> {
    if ts == [] then [] else [Letter(ts[0])] + Letters(ts[1..])
  }

  function LettersOf(ps: seq<Packet>): seq<Byte> {
    if ps == [] then [] else [ps[0].letter] + LettersOf(ps[1..])
  }

  lemma {:induction false} TypesOfPackets(adds: seq<Addition>)
    requires AllFine(adds)
    ensures LettersOf(Packets(adds)) == Letters(Types(adds))
    decreases |adds|
  {
    hide Letter;
    if adds != [] {
      AllFineHead(adds);
      TypesOfPackets(adds[1..]);
      hide AllFine;
      var p, ps := Packet(Letter(adds[0].kind), adds[0].body), Packets(adds[1..]);
      assert ([p] + ps)[1..] == ps;
      assert ([adds[0].kind] + Types(adds[1..]))[1..] == Types(adds[1..]);
    }
  }

  /** For every sequence of messages added to a request, those that threw included: the payload
      is made of packets whose letters are those of the noted types, with the bodies as they
      were added, if and only if every serializer succeeded and every length fits. */
  lemma {:induction false} PayloadSplitsExactly(adds: seq<Addition>)
    ensures (Split(Payload(adds)).Some? && LettersOf(Split(Payload(adds)).value) == Letters(Types(adds))) <==> AllFine(adds)
    ensures AllFine(adds) ==> Split(Payload(adds)) == Some(Packets(adds))
  {
    hide Split, Payload, Packets, AllFine, Types, Letters, LettersOf;
    PayloadSplits(adds);
    if AllFine(adds) {
      TypesOfPackets(adds);
    }
  }

  /** The builder goes on after an error, and the static check does not notice: a parse that
      fails and then a query. */
  lemma {:induction false} FailedAdditionPassesTheCheck(body: Text, query: Text)
    ensures var adds := [Addition(Parse, body, true)] + [Addition(Query, query, false)];
      Types(adds) == [Query] && Accepted(Types(adds)) && Split(Payload(adds)) == None
  {
    hide Split, Payload, Packets;
    var a, b := Addition(Parse, body, true), Addition(Query, query, false);
    var adds := [a] + [b];
    assert adds[1..] == [b] && [b][1..] == [];
    assert Types([b]) == [Query];
    assert [Query][1..] == [];
    assert !Fine(adds[0]);
    PayloadSplits(adds);
  }

  // ----- the parameters of a bind

  /** A parameter: the bytes that it writes, and whether that failed. */
  datatype Parameter = Parameter(bytes: Text, failed: bool)

  predicate GoodParameter(p: Parameter) {
    !p.failed && |p.bytes| <= 0x7fff_ffff
  }

  function Values(ps: seq<Parameter>): (fs: seq<Field>)
    ensures |fs| == |ps| && forall i | 0 <= i < |ps| :: fs[i] == Some(ps[i].bytes)
  {
    seq(|ps|, i requires 0 <= i < |ps| => Some(ps[i].bytes))
  }

  predicate AllGood(ps: seq<Parameter>) {
    forall i | 0 <= i < |ps| :: GoodParameter(ps[i])
  }

  /** The context of the callback that writes the parameters: the length of a parameter is stored
      when the next one starts. */
  class BindContext {
    var buffer: Text
    var offset: Option<nat>
    var failed: bool

    constructor (buffer: Text)
      ensures this.buffer == buffer && offset == None && !failed
    {
      this.buffer := buffer;
      offset, failed := None, false;
    }

    /** maybe_finish_parameter. */
    method MaybeFinish()
      requires offset.Some? ==> offset.value + 4 <= |buffer|
      modifies this
      ensures old(offset).None? ==> buffer == old(buffer) && failed == old(failed) && offset == None
      ensures old(offset).Some? ==>
        var at := old(offset).value; var size := |old(buffer)| - at - 4;
        if size > 0x7fff_ffff then failed && buffer == old(buffer) && offset == old(offset)
        else buffer == old(buffer)[..at] + Bytes32(size) + old(buffer)[at + 4..] && failed == old(failed) && offset == None
    {
      if offset.None? {
        return;
      }
      var at := offset.value;
      var size := |buffer| - at - 4;
      if size > 0x7fff_ffff {
        failed := true;
        return;
      }
      buffer := buffer[..at] + Bytes32(size) + buffer[at + 4..];
      offset := None;
    }

    /** start_parameter. */
    method Start()
      requires offset.Some? ==> offset.value + 4 <= |buffer|
      modifies this
      ensures |buffer| >= 4 && offset == Some(|buffer| - 4) && buffer[|buffer| - 4..] == Room
      ensures old(offset).None? ==> buffer == old(buffer) + Room && failed == old(failed)
      ensures old(offset).Some? ==>
        var at := old(offset).value; var size := |old(buffer)| - at - 4;
        if size > 0x7fff_ffff then failed && buffer == old(buffer) + Room
        else buffer == old(buffer)[..at] + Bytes32(size) + old(buffer)[at + 4..] + Room && failed == old(failed)
    {
      MaybeFinish();
      offset := Some(|buffer|);
      buffer := buffer + Room;
    }
  }

  /** The parameters written so far, the last one without its length. */
  ghost predicate Pending(ctx: BindContext, base: Text, ps: seq<Parameter>)
    reads ctx
  {
    && |base| <= |ctx.buffer|
    && (ps == [] ==> ctx.offset.None? && !ctx.failed && ctx.buffer == base)
    && (ps != [] ==>
          var init, p := ps[..|ps| - 1], ps[|ps| - 1];
          && ctx.offset.Some? && ctx.offset.value + 4 + |p.bytes| == |ctx.buffer|
          && (ctx.failed <==> p.failed || !AllGood(init))
          && (!ctx.failed ==>
                var pre := base + EncodeFields(Values(init));
                ctx.buffer == pre + Room + p.bytes && ctx.offset.value == |pre|))
  }

  lemma {:induction false} AllGoodLast(ps: seq<Parameter>, p: Parameter)
    ensures AllGood(ps + [p]) <==> AllGood(ps) && GoodParameter(p)
    ensures (ps + [p])[..|ps|] == ps
  {
    hide GoodParameter;
    var all := ps + [p];
    assert all[|ps|] == p && forall i | 0 <= i < |ps| :: all[i] == ps[i];
  }

  lemma {:induction false} GoodFits(ps: seq<Parameter>)
    requires AllGood(ps)
    ensures AllFit(Values(ps))
  {
  }

  lemma {:induction false} EncodeLast(fs: seq<Field>, f: Field)
    requires AllFit(fs) && Fits(f)
    ensures AllFit(fs + [f]) && EncodeFields(fs + [f]) == EncodeFields(fs) + EncodeField(f)
    decreases |fs|
  {
    hide EncodeField, Fits;
    if fs == [] {
      assert fs + [f] == [f] && [f][1..] == [];
    } else {
      assert (fs + [f])[1..] == fs[1..] + [f];
      assert forall i | 0 <= i < |fs[1..]| :: fs[1..][i] == fs[i + 1];
      EncodeLast(fs[1..], f);
    }
  }

  /** The length of the last parameter is stored. */
  lemma {:induction false} Finished(base: Text, ps: seq<Parameter>)
    requires ps != [] && AllGood(ps)
    ensures var init, p := ps[..|ps| - 1], ps[|ps| - 1]; AllGood(init) && AllFit(Values(init)) && AllFit(Values(ps))
    ensures var init, p := ps[..|ps| - 1], ps[|ps| - 1];
      var pre := base + EncodeFields(Values(init)); var b := pre + Room + p.bytes;
      b[..|pre|] + Bytes32(|p.bytes|) + b[|pre| + 4..] == base + EncodeFields(Values(ps))
  {
    hide EncodeFields, Bytes32;
    var init, p := ps[..|ps| - 1], ps[|ps| - 1];
    assert init + [p] == ps;
    AllGoodLast(init, p);
    GoodFits(init);
    GoodFits(ps);
    var pre := base + EncodeFields(Values(init));
    Patched(pre, p.bytes, Bytes32(|p.bytes|));
    assert Values(ps) == Values(init) + [Some(p.bytes)];
    EncodeLast(Values(init), Some(p.bytes));
    assert pre + (Bytes32(|p.bytes|) + p.bytes) == pre + Bytes32(|p.bytes|) + p.bytes;
  }

  /** One parameter of the loop below. */
  method WriteParameter(ctx: BindContext, ghost base: Text, ghost done: seq<Parameter>, p: Parameter)
    requires Pending(ctx, base, done)
    modifies ctx
    ensures Pending(ctx, base, done + [p])
  {
    hide Bytes32, EncodeFields, Values;
    AllGoodLast(done, p);
    if done != [] {
      DoneSplit(done);
      if AllGood(done) {
        Finished(base, done);
      }
    } else {
      NoParameters(base);
    }
    ctx.Start();
    ctx.buffer := ctx.buffer + p.bytes;
    if p.failed {
      ctx.failed := true;
    }
  }

  lemma {:induction false} DoneSplit(done: seq<Parameter>)
    requires done != []
    ensures var init, p := done[..|done| - 1], done[|done| - 1]; AllGood(done) <==> AllGood(init) && GoodParameter(p)
  {
    hide GoodParameter;
    var init, p := done[..|done| - 1], done[|done| - 1];
    assert init + [p] == done;
    AllGoodLast(init, p);
  }

  lemma {:induction false} NoParameters(base: Text)
    ensures AllGood([]) && Values([]) == [] && base + EncodeFields([]) == base
  {
  }

  /** serialize_params: it fails exactly if a parameter does, a length does not fit or there are
      too many; otherwise what it adds is the number of parameters and each with its length, as
      the fields of a row. */
  method SerializeParams(buffer: Text, ps: seq<Parameter>) returns (buffer': Text, failed: bool)
    ensures failed <==> !AllGood(ps) || |ps| > 0x7fff
    ensures !failed ==> AllFit(Values(ps)) && buffer' == buffer + EncodeRow(Values(ps))
  {
    hide Bytes32, Bytes16, EncodeFields, Values;
    var at := |buffer|;
    ghost var base := buffer + [0, 0];
    var ctx := new BindContext(buffer + [0, 0]);
    for i := 0 to |ps|
      invariant fresh(ctx) && Pending(ctx, base, ps[..i])
    {
      assert ps[..i + 1] == ps[..i] + [ps[i]];
      WriteParameter(ctx, base, ps[..i], ps[i]);
    }
    assert ps[..|ps|] == ps;
    if ps != [] {
      DoneSplit(ps);
      if AllGood(ps) {
        Finished(base, ps);
      }
    } else {
      NoParameters(base);
    }
    ctx.MaybeFinish();
    if |ps| > 0x7fff {
      return ctx.buffer, true;
    }
    failed := ctx.failed;
    buffer' := ctx.buffer;
    if !failed {
      GoodFits(ps);
      ghost var fields := EncodeFields(Values(ps));
      assert buffer' == buffer + [0, 0] + fields;
      assert buffer'[..at] == buffer && buffer'[at + 2..] == fields;
    }
    buffer' := buffer'[..at] + Bytes16(|ps|) + buffer'[at + 2..];
  }
}
