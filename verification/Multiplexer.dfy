/** One connection shared by many requests: the queue of requests and the stream of their
    replies (src/nativepg_internal/multiplexed_connection/multiplexer.hpp).

    The functions give the meaning of each operation on a snapshot of the queue; the class at
    the end is the queue itself, updated in place and proved against them. */
module Multiplexer {
  import opened Messages
  import opened CheckRequest
  import opened ResponseFsm

  datatype Request = Request(messages: seq<RequestMessage>, payload: seq<Byte>)

  datatype Status = Pending | InFlight | AbandonedPending | AbandonedInFlight

  /** An element of the queue. The id stands for its address, its handler and its completion
      callback; a cancelled element has lost its request and both of them. */
  datatype Elem = Elem(id: nat, req: Option<Request>, status: Status, numReady: nat)

  datatype Stream = Initial | Reading(fsm: Fsm) | Ignoring(remaining: nat)

  datatype Mux = Mux(elems: seq<Elem>, numPending: nat, stream: Stream)

  /** What an operation does to the outside: a callback on the handler of a request, the
      completion of a request, or a request handed to the connection. The last one notes
      that the caller cancelled a request. */
  datatype Effect =
    | Handled(id: nat, call: Call)
    | Completed(id: nat, error: Option<ClientError>)
    | Wrote(id: nat)
    | Cancelled(id: nat)

  datatype Outcome = Outcome(mux: Mux, error: Option<ClientError>, effects: seq<Effect>, fault: bool)

  /** Where the pending elements start. */
  function PendingOffset(x: Mux): nat
    requires x.numPending <= |x.elems|
  {
    |x.elems| - x.numPending
  }

  function Add(x: Mux, id: nat, req: Request): Mux {
    x.(elems := x.elems + [Elem(id, Some(req), Pending, 0)], numPending := x.numPending + 1)
  }

  /** The element can still be cancelled: it has not been cancelled before. */
  predicate Live(e: Elem) {
    e.req.Some? && (e.status == Pending || e.status == InFlight)
  }

  /** What the stream still has to discard when the request being read is abandoned. */
  function Abandon(f: Fsm): Stream
    requires f.current <= |f.messages|
  {
    Ignoring(ExpectedReady(f.messages[f.current..]))
  }

  /** cancel, on the element at index i. */
  function Cancel(x: Mux, i: nat): Mux
    requires i < |x.elems| && Live(x.elems[i])
    requires x.stream.Reading? ==> x.stream.fsm.current <= |x.stream.fsm.messages|
  {
    var e := x.elems[i];
    if e.status == Pending then
      x.(elems := x.elems[i := Elem(e.id, None, AbandonedPending, e.numReady)])
    else if i == 0 && x.stream.Reading? then
      x.(elems := x.elems[i := Elem(e.id, None, AbandonedInFlight, e.numReady)], stream := Abandon(x.stream.fsm))
    else
      x.(elems := x.elems[i := Elem(e.id, None, AbandonedInFlight, ExpectedReady(e.req.value.messages))])
  }

  function Written(e: Elem): Elem {
    if e.status == Pending then e.(status := InFlight) else e
  }

  /** The elements after a write: the healthy ones are now in flight. */
  function MarkWritten(es: seq<Elem>): (r: seq<Elem>)
    ensures |r| == |es|
    ensures forall i | 0 <= i < |es| :: r[i] == Written(es[i])
  {
    if es == [] then [] else [Written(es[0])] + MarkWritten(es[1..])
  }

  function Payloads(es: seq<Elem>): seq<Byte> {
    if es == [] then []
    else (if es[0].status == Pending && es[0].req.Some? then es[0].req.value.payload else []) + Payloads(es[1..])
  }

  function Writes(es: seq<Elem>): seq<Effect> {
    if es == [] then []
    else (if es[0].status == Pending then [Wrote(es[0].id)] else []) + Writes(es[1..])
  }

  /** prepare_write: every pending request that was not cancelled goes out. */
  function PrepareWrite(x: Mux): Outcome
    requires x.numPending <= |x.elems|
  {
    var off := PendingOffset(x);
    Outcome(x.(elems := x.elems[..off] + MarkWritten(x.elems[off..]), numPending := 0), None, Writes(x.elems[off..]), false)
  }

  /** The first element, from k on, that was not cancelled before being written. */
  function FirstWritten(es: seq<Elem>, k: nat): (r: nat)
    requires k <= |es|
    ensures k <= r <= |es|
    ensures forall i | k <= i < r :: es[i].status == AbandonedPending
    ensures r < |es| ==> es[r].status != AbandonedPending
    decreases |es| - k
  {
    if k == |es| || es[k].status != AbandonedPending then k else FirstWritten(es, k + 1)
  }

  /** The queue without its leading elements that were cancelled before being written. */
  function DropAbandoned(es: seq<Elem>): (r: seq<Elem>)
    ensures r != [] ==> r[0].status != AbandonedPending
    ensures |r| <= |es| && r == es[|es| - |r|..]
    ensures forall i | 0 <= i < |es| - |r| :: es[i].status == AbandonedPending
  {
    es[FirstWritten(es, 0)..]
  }

  function HandledAll(id: nat, cs: seq<Call>): (r: seq<Effect>)
    ensures |r| == |cs|
    ensures forall i | 0 <= i < |cs| :: r[i] == Handled(id, cs[i])
  {
    seq(|cs|, i requires 0 <= i < |cs| => Handled(id, cs[i]))
  }

  /** A message while the reply to the front request is being read. */
  function ReadOne(x: Mux, m: BackendMessage): Outcome
    requires x.stream.Reading? && x.elems != []
  {
    var s := Resume(x.stream.fsm, m);
    var id := x.elems[0].id;
    match s.verdict
    case Read => Outcome(x.(stream := Reading(s.fsm)), None, HandledAll(id, s.calls), false)
    case Done(e) =>
      Outcome(x.(elems := x.elems[1..], stream := Initial), e, HandledAll(id, s.calls) + [Completed(id, e)], false)
    case Fault => Outcome(x.(stream := Reading(s.fsm)), None, HandledAll(id, s.calls), true)
  }

  /** A message while the rest of an abandoned reply is being discarded. */
  function IgnoreOne(x: Mux, m: BackendMessage): Outcome
    requires x.stream.Ignoring? && x.elems != []
  {
    if x.stream.remaining == 0 then Outcome(x, None, [], true)
    else if m.kind != ReadyForQuery then Outcome(x, None, [], false)
    else if x.stream.remaining == 1 then Outcome(x.(elems := x.elems[1..], stream := Initial), None, [], false)
    else Outcome(x.(stream := Ignoring(x.stream.remaining - 1)), None, [], false)
  }

  /** The stream once it has found out whose reply the next message belongs to. */
  function Begin(x: Mux): Mux
    requires DropAbandoned(x.elems) != []
  {
    var es := DropAbandoned(x.elems);
    if es[0].status == AbandonedInFlight then x.(elems := es, stream := Ignoring(es[0].numReady))
    else if es[0].req.Some? then x.(elems := es, stream := Reading(Init(es[0].req.value.messages, false)))
    else x.(elems := es)
  }

  /** The first message of a reply: find out whose it is. */
  function Start(x: Mux, m: BackendMessage): Outcome {
    var es := DropAbandoned(x.elems);
    if es == [] then Outcome(x.(elems := es), Some(UnmatchedRequest), [], false)
    else if es[0].status == AbandonedInFlight then
      IgnoreOne(x.(elems := es, stream := Ignoring(es[0].numReady)), m)
    else if es[0].status == InFlight && es[0].req.Some? then
      ReadOne(x.(elems := es, stream := Reading(Init(es[0].req.value.messages, false))), m)
    else Outcome(x.(elems := es), None, [], true)
  }

  function OnMessage(x: Mux, m: BackendMessage): Outcome {
    if IsAsync(m.kind) then Outcome(x, None, [], false)
    else if x.stream.Initial? then Start(x, m)
    else if x.elems == [] then Outcome(x, None, [], true)
    else if x.stream.Reading? then ReadOne(x, m)
    else IgnoreOne(x, m)
  }

  function Cancellations(es: seq<Elem>): seq<Effect> {
    if es == [] then []
    else (if es[0].req.Some? then [Completed(es[0].id, Some(OperationCanceled))] else []) + Cancellations(es[1..])
  }

  /** cleanup: the connection is lost, so the requests that were written fail. */
  function Cleanup(x: Mux): Outcome
    requires x.numPending <= |x.elems|
  {
    var off := PendingOffset(x);
    Outcome(Mux(x.elems[off..], x.numPending, Initial), None, Cancellations(x.elems[..off]), false)
  }

  /** Elements of the queue by their index. */
  predicate Elems(es: seq<Elem>, numPending: nat) {
    && numPending <= |es|
    && (forall i | 0 <= i < |es| && es[i].req.Some? :: Accepted(es[i].req.value.messages))
    && (forall i | 0 <= i < |es| && es[i].status == Pending :: es[i].req.Some?)
    && (forall i | |es| - numPending <= i < |es| :: es[i].status == Pending || es[i].status == AbandonedPending)
  }

  lemma {:induction false} PayloadsHead(es: seq<Elem>)
    ensures Payloads([]) == []
    ensures es != [] ==> Payloads(es) == Payloads([es[0]]) + Payloads(es[1..])
  {
    if es != [] {
      assert [es[0]][1..] == [];
    }
  }

  lemma {:induction false} PayloadsLast(es: seq<Elem>, e: Elem)
    ensures Payloads(es + [e]) == Payloads(es) + Payloads([e])
    decreases |es|
  {
    hide Payloads;
    PayloadsHead(es);
    if es == [] {
      assert es + [e] == [e] && [] + Payloads([e]) == Payloads([e]);
    } else {
      PayloadsHead(es + [e]);
      assert (es + [e])[1..] == es[1..] + [e];
      PayloadsLast(es[1..], e);
      var a, b := Payloads([es[0]]), Payloads(es[1..]);
      assert a + (b + Payloads([e])) == a + b + Payloads([e]);
    }
  }

  lemma {:induction false} WritesHead(es: seq<Elem>)
    ensures Writes([]) == []
    ensures es != [] ==> Writes(es) == Writes([es[0]]) + Writes(es[1..])
  {
    if es != [] {
      assert [es[0]][1..] == [];
    }
  }

  lemma {:induction false} WritesLast(es: seq<Elem>, e: Elem)
    ensures Writes(es + [e]) == Writes(es) + Writes([e])
    decreases |es|
  {
    hide Writes;
    WritesHead(es);
    if es == [] {
      assert es + [e] == [e] && [] + Writes([e]) == Writes([e]);
    } else {
      WritesHead(es + [e]);
      assert (es + [e])[1..] == es[1..] + [e];
      WritesLast(es[1..], e);
      var a, b := Writes([es[0]]), Writes(es[1..]);
      assert a + (b + Writes([e])) == a + b + Writes([e]);
    }
  }

  lemma {:induction false} WriteOneMore(all: seq<Elem>, off: nat, i: nat)
    requires off <= i < |all|
    ensures Payloads(all[off..i + 1]) ==
      Payloads(all[off..i]) + if all[i].status == Pending && all[i].req.Some? then all[i].req.value.payload else []
    ensures Writes(all[off..i + 1]) == Writes(all[off..i]) + if all[i].status == Pending then [Wrote(all[i].id)] else []
  {
    assert all[off..i + 1] == all[off..i] + [all[i]];
    PayloadsLast(all[off..i], all[i]);
    WritesLast(all[off..i], all[i]);
    assert [all[i]][1..] == [];
  }

  lemma {:induction false} WrittenElems(all: seq<Elem>, es: seq<Elem>, off: nat)
    requires off <= |all| == |es| && Elems(all, |all| - off)
    requires forall k | 0 <= k < |all| :: es[k] == if k < off then all[k] else Written(all[k])
    ensures Elems(es, 0) && es == all[..off] + MarkWritten(all[off..])
  {
    hide Closed, MarkWritten;
    forall k | 0 <= k < |es| && es[k].status == Pending ensures es[k].req.Some? {
      assert es[k] == all[k];
    }
    forall k | 0 <= k < |es| && es[k].req.Some? ensures Accepted(es[k].req.value.messages) {
      assert es[k].req == all[k].req;
    }
  }

  lemma {:induction false} CancellationsHead(es: seq<Elem>)
    ensures Cancellations([]) == []
    ensures es != [] ==> Cancellations(es) == Cancellations([es[0]]) + Cancellations(es[1..])
  {
    if es != [] {
      assert [es[0]][1..] == [];
    }
  }

  lemma {:induction false} CancellationsLast(es: seq<Elem>, e: Elem)
    ensures Cancellations(es + [e]) == Cancellations(es) + Cancellations([e])
    decreases |es|
  {
    hide Cancellations;
    CancellationsHead(es);
    if es == [] {
      assert es + [e] == [e] && [] + Cancellations([e]) == Cancellations([e]);
    } else {
      CancellationsHead(es + [e]);
      assert (es + [e])[1..] == es[1..] + [e];
      CancellationsLast(es[1..], e);
      var a, b := Cancellations([es[0]]), Cancellations(es[1..]);
      assert a + (b + Cancellations([e])) == a + b + Cancellations([e]);
    }
  }

  datatype StreamStatus = StreamInitial | StreamReading | StreamIgnoring

  /** The queue, updated in place. */
  class RequestQueue {
    var elems: seq<Elem>
    var numPending: nat
    var writeBuffer: seq<Byte>
    var status: StreamStatus
    var fsm: ReadResponseFsm?
    var remaining: nat
    var nextId: nat
    /** What was done to the outside so far. */
    var log: seq<Effect>

    ghost function Repr(): set<object>
      reads this
    {
      if fsm == null then {this} else {this, fsm}
    }

    ghost predicate Valid()
      reads Repr()
    {
      && Elems(elems, numPending)
      && (status == StreamReading ==> fsm != null && Consistent(fsm.State()) && !fsm.allowCopy)
      && (status != StreamInitial ==> numPending < |elems|)
    }

    /** The snapshot that the functions of this module speak about. */
    ghost function State(): Mux
      reads Repr()
    {
      Mux(elems, numPending,
        match status
        case StreamInitial => Initial
        case StreamReading => if fsm == null then Initial else Reading(fsm.State())
        case StreamIgnoring => Ignoring(remaining))
    }

    constructor ()
      ensures Valid() && fresh(Repr()) && State() == Mux([], 0, Initial) && log == []
    {
      elems, numPending, writeBuffer, status, fsm := [], 0, [], StreamInitial, null;
      remaining, nextId, log := 0, 0, [];
    }

    method AddRequest(req: Request) returns (id: nat)
      requires Valid() && Accepted(req.messages)
      modifies this
      ensures Valid() && fsm == old(fsm) && log == old(log)
      ensures id == old(nextId) && nextId == id + 1
      ensures State() == Add(old(State()), id, req)
    {
      id := nextId;
      nextId := nextId + 1;
      elems := elems + [Elem(id, Some(req), Pending, 0)];
      numPending := numPending + 1;
    }

    method CancelRequest(i: nat)
      requires Valid() && i < |elems| && Live(elems[i])
      modifies this
      ensures Valid() && fsm == old(fsm) && nextId == old(nextId)
      ensures State() == Cancel(old(State()), i)
      ensures log == old(log) + [Cancelled(old(elems)[i].id)]
    {
      var e := elems[i];
      if e.status == Pending {
        e := e.(status := AbandonedPending);
      } else {
        e := e.(status := AbandonedInFlight);
        if i == 0 && status == StreamReading {
          remaining := ExpectedReady(fsm.RemainingMessages());
          status := StreamIgnoring;
        } else {
          e := e.(numReady := ExpectedReady(e.req.value.messages));
        }
      }
      elems := elems[i := e.(req := None)];
      log := log + [Cancelled(e.id)];
    }

    method WriteElem(i: nat)
      requires i < |elems| && (elems[i].status == Pending ==> elems[i].req.Some?)
      modifies this`elems, this`writeBuffer, this`log
      ensures elems == old(elems)[i := Written(old(elems)[i])]
      ensures writeBuffer == old(writeBuffer) + if old(elems)[i].status == Pending then old(elems)[i].req.value.payload else []
      ensures log == old(log) + if old(elems)[i].status == Pending then [Wrote(old(elems)[i].id)] else []
    {
      var e := elems[i];
      if e.status == Pending {
        writeBuffer := writeBuffer + e.req.value.payload;
        elems := elems[i := e.(status := InFlight)];
        log := log + [Wrote(e.id)];
      }
    }

    /** The loop of prepare_write. */
    method WriteFrom(off: nat)
      requires off <= |elems| && forall k | off <= k < |elems| && elems[k].status == Pending :: elems[k].req.Some?
      modifies this`elems, this`writeBuffer, this`log
      ensures |elems| == |old(elems)|
      ensures forall k | 0 <= k < |elems| :: elems[k] == if k < off then old(elems)[k] else Written(old(elems)[k])
      ensures writeBuffer == Payloads(old(elems)[off..])
      ensures log == old(log) + Writes(old(elems)[off..])
    {
      hide Payloads, Writes;
      PayloadsHead([]);
      WritesHead([]);
      writeBuffer := [];
      ghost var all := elems;
      var i := off;
      assert all[off..off] == [];
      while i < |elems|
        invariant off <= i <= |elems| == |all|
        invariant forall k | 0 <= k < |all| :: elems[k] == if off <= k < i then Written(all[k]) else all[k]
        invariant writeBuffer == Payloads(all[off..i])
        invariant log == old(log) + Writes(all[off..i])
      {
        WriteOneMore(all, off, i);
        WriteElem(i);
        i := i + 1;
      }
      assert all[off..i] == all[off..];
    }

    /** prepare_write: the buffer holds the payloads of the pending requests that were not
        cancelled, in order, and nothing else. */
    method WritePending()
      requires Valid()
      modifies this
      ensures Valid() && fsm == old(fsm) && nextId == old(nextId)
      ensures State() == PrepareWrite(old(State())).mux
      ensures log == old(log) + PrepareWrite(old(State())).effects
      ensures writeBuffer == Payloads(old(elems)[PendingOffset(old(State()))..])
    {
      hide MarkWritten, Payloads, Writes, Consistent;
      var off := |elems| - numPending;
      WriteFrom(off);
      WrittenElems(old(elems), elems, off);
      numPending := 0;
    }

    /** The part of on_message that runs once the stream knows whose reply it reads. */
    method ReadMessage(m: BackendMessage) returns (error: Option<ClientError>)
      requires Valid() && status == StreamReading && elems != []
      modifies Repr()
      ensures Valid() && fsm == old(fsm) && nextId == old(nextId)
      ensures var o := ReadOne(old(State()), m);
        State() == o.mux && error == o.error && log == old(log) + o.effects && !o.fault
    {
      var n := |fsm.calls|;
      var v := fsm.ResumeInPlace(m);
      log := log + HandledAll(elems[0].id, fsm.calls[n..]);
      error := None;
      if v.Done? {
        error := v.error;
        log := log + [Completed(elems[0].id, error)];
        elems := elems[1..];
        status := StreamInitial;
      }
    }

    method IgnoreMessage(m: BackendMessage)
      requires Valid() && status == StreamIgnoring && elems != [] && remaining > 0
      modifies this
      ensures Valid() && fsm == old(fsm) && nextId == old(nextId) && log == old(log)
      ensures State() == IgnoreOne(old(State()), m).mux
    {
      if m.kind == ReadyForQuery {
        remaining := remaining - 1;
        if remaining == 0 {
          elems := elems[1..];
          status := StreamInitial;
        }
      }
    }

    /** Drop the leading elements that expect no message back. */
    method EraseAbandoned()
      requires Valid()
      modifies this`elems
      ensures elems == DropAbandoned(old(elems))
    {
      var k := 0;
      while k < |elems| && elems[k].status == AbandonedPending
        invariant k <= |elems|
        invariant forall i | 0 <= i < k :: elems[i].status == AbandonedPending
      {
        k := k + 1;
      }
      elems := elems[k..];
    }

    /** The part of on_message that finds out whose reply a message belongs to, if any: the
        assertion of the source is the precondition. */
    method BeginReply() returns (found: bool)
      requires Valid() && status == StreamInitial
      requires var es := DropAbandoned(elems);
        es != [] ==> es[0].status == AbandonedInFlight || (es[0].status == InFlight && es[0].req.Some?)
      modifies this
      ensures fresh(Repr() - old(Repr())) && nextId == old(nextId) && log == old(log) && numPending == old(numPending)
      ensures found <==> DropAbandoned(old(elems)) != []
      ensures found ==> Valid() && State() == Begin(old(State())) && status != StreamInitial
      ensures !found ==> State() == old(State()).(elems := [])
      ensures !found && numPending == 0 ==> Valid()
    {
      hide FirstWritten, DropAbandoned, Closed, Consistent;
      ghost var all := elems;
      EraseAbandoned();
      assert forall i | 0 <= i < |elems| :: elems[i] == all[|all| - |elems| + i];
      if elems == [] {
        return false;
      }
      if elems[0].status == AbandonedInFlight {
        status := StreamIgnoring;
        remaining := elems[0].numReady;
      } else {
        status := StreamReading;
        InitConsistent(elems[0].req.value.messages, false);
        fsm := new ReadResponseFsm(elems[0].req.value.messages, false);
      }
      return true;
    }

    /** on_message, where the assertions of the source hold. The queue is valid afterwards
        exactly if no element was dropped that still counts as pending. */
    method HandleMessage(m: BackendMessage) returns (error: Option<ClientError>)
      requires Valid() && !OnMessage(State(), m).fault
      modifies Repr()
      ensures fresh(Repr() - old(Repr())) && nextId == old(nextId)
      ensures var o := OnMessage(old(State()), m);
        State() == o.mux && error == o.error && log == old(log) + o.effects
      ensures Valid() <==> numPending <= |elems|
    {
      hide Resume, Consistent, HandledAll, DropAbandoned;
      if IsAsync(m.kind) {
        return None;
      }
      if status == StreamInitial {
        var found := BeginReply();
        if !found {
          return Some(UnmatchedRequest);
        }
      }
      if status == StreamReading {
        error := ReadMessage(m);
      } else {
        IgnoreMessage(m);
        error := None;
      }
    }

    /** cleanup: the connection is lost. */
    method FailWritten()
      requires Valid()
      modifies this
      ensures Valid() && fsm == old(fsm) && nextId == old(nextId)
      ensures State() == Cleanup(old(State())).mux
      ensures log == old(log) + Cleanup(old(State())).effects
    {
      var off := |elems| - numPending;
      for i := 0 to off
        invariant unchanged(this`elems, this`numPending, this`fsm, this`nextId)
        invariant log == old(log) + Cancellations(elems[..i])
      {
        CancellationsLast(elems[..i], elems[i]);
        assert elems[..i + 1] == elems[..i] + [elems[i]];
        if elems[i].req.Some? {
          log := log + [Completed(elems[i].id, Some(OperationCanceled))];
        }
      }
      elems := elems[off..];
      status := StreamInitial;
    }
  }
}
