/** Correct demultiplexing: whatever the interleaving of submissions, cancellations, writes,
    messages and lost connections, every message of the reply to a request reaches the handler
    of that request, or is dropped if the request was cancelled
    (src/nativepg_internal/multiplexed_connection/multiplexer.hpp). */
module Demultiplexing {
  import opened Messages
  import opened CheckRequest
  import opened ResponseFsm
  import opened Grammar
  import opened Verdicts
  import S = Script
  import opened Multiplexer

  /** A request the server still has to answer, and the part of the reply it has sent. */
  datatype Pledge = Pledge(id: nat, sent: seq<BackendMessage>)

  /** The queue, the requests submitted so far (the id of a request is its position), what the
      server owes, what each request has heard of its reply while it was not cancelled, and
      everything that happened. */
  datatype World = World(
    mux: Mux,
    requests: seq<Request>,
    owed: seq<Pledge>,
    heard: seq<seq<BackendMessage>>,
    log: seq<Effect>)

  datatype Event =
    | Submit(req: Request)
    | CancelAt(index: nat)
    | Write
    | Message(msg: BackendMessage)
    | ConnectionLost

  const Empty: World := World(Mux([], 0, Initial), [], [], [], [])

  /** The machine that reads the reply to a request: COPY is off. */
  function Fresh(req: Request): Fsm {
    Init(req.messages, false)
  }

  /** The machine that knows every reply a server may give, COPY OUT included. */
  function Full(req: Request): Fsm {
    Init(req.messages, true)
  }

  // ----- the server

  /** The word continues to a correct reply. */
  ghost predicate Continues(req: Request, sent: seq<BackendMessage>) {
    Extends(req.messages, true, sent)
  }

  /** An honest server sends asynchronous messages at any time, and otherwise answers the
      requests it was sent in order, each with a word of the reply grammar. It starts a COPY
      OUT only if the request was cancelled, because the queue reads replies with COPY off. */
  ghost predicate Honest(w: World, m: BackendMessage) {
    IsAsync(m.kind) ||
    (w.owed != [] && w.owed[0].id < |w.requests| &&
     Continues(w.requests[w.owed[0].id], w.owed[0].sent + [m]) &&
     (m.kind == CopyOutResponse ==> Cancelled(w.owed[0].id) in w.log))
  }

  /** The element was written and not answered yet. */
  predicate Waits(e: Elem) {
    e.status == InFlight || e.status == AbandonedInFlight
  }

  /** The elements that wait for a reply, oldest first. */
  function Awaiting(es: seq<Elem>): seq<nat> {
    if es == [] then []
    else if Waits(es[0]) then [es[0].id] + Awaiting(es[1..])
    else Awaiting(es[1..])
  }

  /** The requests that a write hands to the connection. */
  function PendingIds(es: seq<Elem>): seq<nat> {
    if es == [] then []
    else (if es[0].status == Pending then [es[0].id] else []) + PendingIds(es[1..])
  }

  function Pledges(ids: seq<nat>): (ps: seq<Pledge>)
    ensures |ps| == |ids| && forall i | 0 <= i < |ps| :: ps[i] == Pledge(ids[i], [])
  {
    seq(|ids|, i requires 0 <= i < |ids| => Pledge(ids[i], []))
  }

  /** One more message of the oldest reply; the pledge is gone when the reply is complete. */
  ghost function Paid(w: World, m: BackendMessage): seq<Pledge>
    requires w.owed != [] && w.owed[0].id < |w.requests|
  {
    var p := w.owed[0];
    if IsReply(w.requests[p.id].messages, true, p.sent + [m]) then w.owed[1..]
    else [Pledge(p.id, p.sent + [m])] + w.owed[1..]
  }

  /** The request that the reply is for hears the message, unless it was cancelled before. */
  ghost function Hear(w: World, m: BackendMessage): seq<seq<BackendMessage>>
    requires w.owed != []
  {
    var id := w.owed[0].id;
    if Cancelled(id) in w.log || id >= |w.heard| then w.heard else w.heard[id := w.heard[id] + [m]]
  }

  // ----- runs

  ghost predicate Enabled(w: World, e: Event) {
    match e
    case Submit(req) => Accepted(req.messages)
    case CancelAt(i) => i < |w.mux.elems| && Live(w.mux.elems[i])
    case Write => true
    case Message(m) => Honest(w, m)
    case ConnectionLost => true
  }

  /** What the operations need of the queue. */
  predicate Runnable(w: World) {
    && w.mux.numPending <= |w.mux.elems|
    && (w.mux.stream.Reading? ==> w.mux.stream.fsm.current <= |w.mux.stream.fsm.messages|)
  }

  function DoSubmit(w: World, req: Request): World {
    w.(mux := Add(w.mux, |w.requests|, req), requests := w.requests + [req], heard := w.heard + [[]])
  }

  function DoCancel(w: World, i: nat): World
    requires Runnable(w) && i < |w.mux.elems| && Live(w.mux.elems[i])
  {
    w.(mux := Cancel(w.mux, i), log := w.log + [Cancelled(w.mux.elems[i].id)])
  }

  function DoWrite(w: World): World
    requires Runnable(w)
  {
    var o := PrepareWrite(w.mux);
    w.(mux := o.mux, log := w.log + o.effects,
       owed := w.owed + Pledges(PendingIds(w.mux.elems[PendingOffset(w.mux)..])))
  }

  ghost function DoMessage(w: World, m: BackendMessage): World
    requires Honest(w, m)
  {
    var o := OnMessage(w.mux, m);
    if IsAsync(m.kind) then w.(mux := o.mux, log := w.log + o.effects)
    else w.(mux := o.mux, log := w.log + o.effects, owed := Paid(w, m), heard := Hear(w, m))
  }

  function DoLost(w: World): World
    requires Runnable(w)
  {
    var o := Cleanup(w.mux);
    w.(mux := o.mux, log := w.log + o.effects, owed := [])
  }

  /** One event. No event is lost to the first case: every reachable world is runnable. */
  ghost function Next(w: World, e: Event): World
    requires Enabled(w, e)
  {
    if !Runnable(w) then w
    else match e
      case Submit(req) => DoSubmit(w, req)
      case CancelAt(i) => DoCancel(w, i)
      case Write => DoWrite(w)
      case Message(m) => DoMessage(w, m)
      case ConnectionLost => DoLost(w)
  }

  ghost predicate ValidRun(w: World, es: seq<Event>)
    decreases |es|
  {
    es == [] || (Enabled(w, es[0]) && ValidRun(Next(w, es[0]), es[1..]))
  }

  ghost function After(w: World, es: seq<Event>): World
    requires ValidRun(w, es)
    decreases |es|
  {
    if es == [] then w else After(Next(w, es[0]), es[1..])
  }

  // ----- the invariant

  predicate GoodElem(e: Elem, requests: seq<Request>) {
    && e.id < |requests|
    && (e.req.Some? <==> e.status == Pending || e.status == InFlight)
    && (e.req.Some? ==> e.req.value == requests[e.id])
  }

  /** The shape of the queue: written elements, then exactly num_pending_ pending ones, in
      the order of submission. */
  predicate Queue(x: Mux, requests: seq<Request>) {
    && x.numPending <= |x.elems|
    && (forall i | 0 <= i < |x.elems| :: GoodElem(x.elems[i], requests))
    && (forall i | 0 <= i < |x.elems| - x.numPending :: x.elems[i].status != Pending)
    && (forall i | |x.elems| - x.numPending <= i < |x.elems| ::
          x.elems[i].status == Pending || x.elems[i].status == AbandonedPending)
    && (forall i, j | 0 <= i < j < |x.elems| :: x.elems[i].id < x.elems[j].id)
  }

  /** Every abandoned element knows how many ReadyForQuery messages it has to let pass. */
  predicate Counted(x: Mux, requests: seq<Request>)
    requires Queue(x, requests)
  {
    forall i | 0 <= i < |x.elems| ::
      x.elems[i].status == AbandonedInFlight && !(i == 0 && x.stream.Ignoring?) ==>
        x.elems[i].numReady == ExpectedReady(requests[x.elems[i].id].messages)
  }

  predicate GoodPledge(p: Pledge, requests: seq<Request>) {
    p.id < |requests| && NoAsync(p.sent) && Run(Full(requests[p.id]), p.sent).verdict.Read?
  }

  /** What the stream knows about the oldest reply. */
  predicate InStep(w: World)
    requires Queue(w.mux, w.requests)
  {
    match w.mux.stream
    case Initial => w.owed != [] ==> w.owed[0].sent == []
    case Reading(f) =>
      && w.owed != [] && GoodPledge(w.owed[0], w.requests) && w.mux.elems != []
      && w.mux.elems[0].status == InFlight && w.mux.elems[0].id == w.owed[0].id
      && NoCopyOut(w.owed[0].sent) && f == Run(Fresh(w.requests[w.owed[0].id]), w.owed[0].sent).fsm
    case Ignoring(r) =>
      && w.owed != [] && GoodPledge(w.owed[0], w.requests) && w.mux.elems != []
      && w.mux.elems[0].status == AbandonedInFlight && w.mux.elems[0].id == w.owed[0].id
      && r > 0
      && r + CountReady(w.owed[0].sent) == ExpectedReady(w.requests[w.owed[0].id].messages)
  }

  function Ids(ps: seq<Pledge>): (ids: seq<nat>)
    ensures |ids| == |ps| && forall i | 0 <= i < |ps| :: ids[i] == ps[i].id
  {
    seq(|ps|, i requires 0 <= i < |ps| => ps[i].id)
  }

  /** The server owes exactly the replies that the queue waits for. */
  predicate Owed(w: World) {
    && Ids(w.owed) == Awaiting(w.mux.elems)
    && (forall i | 0 <= i < |w.owed| :: GoodPledge(w.owed[i], w.requests))
    && (forall i | 0 < i < |w.owed| :: w.owed[i].sent == [])
  }

  /** The callbacks made on the handler of a request. */
  function CallsOf(log: seq<Effect>, id: nat): seq<Call> {
    if log == [] then []
    else CallsOf(log[..|log| - 1], id) +
         var last := log[|log| - 1];
         if last.Handled? && last.id == id then [last.call] else []
  }

  /** A request has heard the part of its reply that was sent, as long as it is in the queue. */
  predicate Listening(w: World) {
    forall i | 0 <= i < |w.mux.elems| && w.mux.elems[i].req.Some? ::
      && w.mux.elems[i].id < |w.heard|
      && w.heard[w.mux.elems[i].id] ==
           if i == 0 && w.mux.stream.Reading? && w.owed != [] then w.owed[0].sent else []
  }

  /** Each handler saw exactly the callbacks of its own reply, as far as it was heard. */
  ghost predicate RoutedTo(w: World, id: nat)
    requires id < |w.requests| && id < |w.heard|
  {
    var s := Run(Fresh(w.requests[id]), w.heard[id]);
    CallsOf(w.log, id) == s.calls && (s.verdict == Read || s.verdict == Done(None))
  }

  ghost predicate Hearing(w: World) {
    && |w.heard| == |w.requests|
    && Listening(w)
    && forall id | 0 <= id < |w.requests| :: RoutedTo(w, id)
  }

  /** Completions: never of a request that is still in the queue; a success only after the
      whole reply was heard, and otherwise because the connection was lost. */
  ghost predicate GoodCompletion(w: World, e: Effect)
    requires e.Completed? && e.id < |w.requests| && e.id < |w.heard|
  {
    && (forall k | 0 <= k < |w.mux.elems| :: e.id < w.mux.elems[k].id)
    && match e.error
       case None => Accepts(Fresh(w.requests[e.id]), w.heard[e.id])
       case Some(c) => c == OperationCanceled
  }

  /** Writes: never of a request that is still pending. */
  predicate GoodWrite(w: World, e: Effect) {
    forall k | 0 <= k < |w.mux.elems| && k >= |w.mux.elems| - w.mux.numPending :: e.id < w.mux.elems[k].id
  }

  /** A cancelled request is never alive again. */
  predicate GoodCancel(w: World, e: Effect) {
    forall k | 0 <= k < |w.mux.elems| && w.mux.elems[k].id == e.id :: w.mux.elems[k].req.None?
  }

  ghost predicate GoodEntry(w: World, e: Effect) {
    && e.id < |w.requests| && e.id < |w.heard|
    && (e.Completed? ==> GoodCompletion(w, e))
    && (e.Wrote? ==> GoodWrite(w, e))
    && (e.Cancelled? ==> GoodCancel(w, e))
  }

  /** Completions come in the order of submission, so do writes, and nothing happens to a
      request after it was cancelled. */
  predicate InOrder(a: Effect, b: Effect) {
    && (a.Completed? && b.Completed? ==> a.id < b.id)
    && (a.Wrote? && b.Wrote? ==> a.id < b.id)
    && (a.Cancelled? ==> a.id != b.id)
  }

  predicate Chronicle(log: seq<Effect>) {
    forall i, j | 0 <= i < j < |log| :: InOrder(log[i], log[j])
  }

  ghost predicate History(w: World) {
    (forall i | 0 <= i < |w.log| :: GoodEntry(w, w.log[i])) && Chronicle(w.log)
  }

  ghost predicate Requests(w: World) {
    forall i | 0 <= i < |w.requests| :: Accepted(w.requests[i].messages)
  }

  predicate Shape(w: World) {
    Queue(w.mux, w.requests) && Counted(w.mux, w.requests)
  }

  predicate Service(w: World) {
    Queue(w.mux, w.requests) && Owed(w) && InStep(w)
  }

  /** An element that lost its request was cancelled. */
  predicate Marked(w: World) {
    forall k | 0 <= k < |w.mux.elems| && w.mux.elems[k].req.None? :: Cancelled(w.mux.elems[k].id) in w.log
  }

  ghost predicate Inv(w: World) {
    Requests(w) && Shape(w) && Service(w) && Hearing(w) && History(w) && Marked(w)
  }

  /** The front request is heard exactly when it was not cancelled. */
  lemma {:induction false} FrontHears(w: World, m: BackendMessage)
    requires Queue(w.mux, w.requests) && History(w) && Marked(w) && |w.heard| == |w.requests|
    requires w.owed != [] && w.mux.elems != [] && w.mux.elems[0].id == w.owed[0].id
    ensures var e := w.mux.elems[0];
      Hear(w, m) == if e.req.Some? then w.heard[e.id := w.heard[e.id] + [m]] else w.heard
  {
    hide Accepts;
    assert GoodElem(w.mux.elems[0], w.requests);
  }

  // ----- the oldest reply, message by message

  lemma {:induction false} RunPrefix(f: Fsm, sent: seq<BackendMessage>, m: BackendMessage)
    requires Run(f, sent).verdict.Read?
    ensures var s := Resume(Run(f, sent).fsm, m); var t := Run(f, sent + [m]);
      t.fsm == s.fsm && t.verdict == s.verdict && t.calls == Run(f, sent).calls + s.calls
  {
    hide Run, Resume;
    RunAppend(f, sent, [m]);
    RunOne(Run(f, sent).fsm, m);
  }

  /** The next message of a correct reply: the machine of the request takes it; it is the last
      one exactly when the machine is done, and exactly when as many ReadyForQuery messages
      have come as the request expects. */
  lemma {:induction false} ReplyStep(req: Request, sent: seq<BackendMessage>, m: BackendMessage)
    requires Accepted(req.messages) && NoAsync(sent) && !IsAsync(m.kind)
    requires Continues(req, sent + [m])
    ensures Run(Full(req), sent).verdict.Read?
    ensures var s := Resume(Run(Full(req), sent).fsm, m);
      if IsReply(req.messages, true, sent + [m]) then
        && s.verdict == Done(None) && Accepts(Full(req), sent + [m])
        && CountReady(sent + [m]) == ExpectedReady(req.messages)
        && m.kind == ReadyForQuery
      else
        && s.verdict == Read && Run(Full(req), sent + [m]).verdict == Read
        && CountReady(sent + [m]) < ExpectedReady(req.messages)
  {
    hide Run, Resume, Accepts, IsReply;
    var f := Full(req);
    var word := sent + [m];
    var rest :| NoAsync(rest) && IsReply(req.messages, true, word + rest);
    if rest == [] {
      assert word + rest == word;
    }
    NonEmptyAccepted(req, word + rest);
    assert word + rest == sent + ([m] + rest);
    AcceptsSplit(f, sent, [m] + rest);
    AcceptsHead(Run(f, sent).fsm, m, rest);
    RunPrefix(f, sent, m);
    ReadySoFar(req, word, rest);
    if IsReply(req.messages, true, word) {
      assert [m] + [] == [m];
      NonEmptyAccepted(req, word);
      AcceptsSplit(f, sent, [m]);
      AcceptsHead(Run(f, sent).fsm, m, []);
      ReadySoFar(req, word, []);
      assert word + [] == word;
    }
  }

  lemma {:induction false} NonEmptyAccepted(req: Request, v: seq<BackendMessage>)
    requires Accepted(req.messages) && v != [] && NoAsync(v)
    ensures Accepts(Full(req), v) <==> IsReply(req.messages, true, v)
  {
    hide Accepts, IsReply;
    LanguageEquivalence(req.messages, true, v);
  }

  lemma {:induction false} AcceptsHead(f: Fsm, m: BackendMessage, rest: seq<BackendMessage>)
    requires Accepts(f, [m] + rest)
    ensures Resume(f, m).verdict == if rest == [] then Done(None) else Read
  {
    hide Resume;
    assert ([m] + rest)[1..] == rest;
  }

  lemma {:induction false} ReadySoFar(req: Request, word: seq<BackendMessage>, rest: seq<BackendMessage>)
    requires Accepted(req.messages) && word != [] && Accepts(Full(req), word + rest)
    ensures CountReady(word) <= ExpectedReady(req.messages)
    ensures rest == [] ==> CountReady(word) == ExpectedReady(req.messages) && word[|word| - 1].kind == ReadyForQuery
    ensures rest != [] ==> CountReady(word) < ExpectedReady(req.messages)
  {
    hide Accepts, Run;
    var v := word + rest;
    AbandonStopsAtTheEnd(req.messages, true, [], v) by {
      assert [] + v == v;
    }
    RunNone(Full(req));
    assert req.messages[0..] == req.messages;
    if rest == [] {
      assert v == word;
    } else {
      assert v[..|word|] == word;
    }
  }

  // ----- the elements that wait for a reply

  lemma {:induction false} AwaitingAppend(es: seq<Elem>, fs: seq<Elem>)
    ensures Awaiting(es + fs) == Awaiting(es) + Awaiting(fs)
    decreases |es|
  {
    if es == [] {
      assert es + fs == fs;
    } else {
      AwaitingAppend(es[1..], fs);
      AwaitingHead(es);
      AwaitingHead(es + fs);
      hide Awaiting;
      assert (es + fs)[1..] == es[1..] + fs;
    }
  }

  lemma {:induction false} AwaitingHead(es: seq<Elem>)
    requires es != []
    ensures Awaiting(es) == (if Waits(es[0]) then [es[0].id] else []) + Awaiting(es[1..])
  {
  }

  lemma {:induction false} AwaitingNone(es: seq<Elem>)
    requires forall i | 0 <= i < |es| :: es[i].status == Pending || es[i].status == AbandonedPending
    ensures Awaiting(es) == []
    decreases |es|
  {
    if es != [] {
      AwaitingNone(es[1..]);
    }
  }

  lemma {:induction false} AwaitingWritten(es: seq<Elem>)
    requires forall i | 0 <= i < |es| :: es[i].status == Pending || es[i].status == AbandonedPending
    ensures Awaiting(MarkWritten(es)) == PendingIds(es)
    decreases |es|
  {
    if es != [] {
      AwaitingWritten(es[1..]);
      assert MarkWritten(es)[1..] == MarkWritten(es[1..]);
    }
  }

  lemma {:induction false} AwaitingUpdate(es: seq<Elem>, i: nat, e: Elem)
    requires i < |es| && e.id == es[i].id
    requires (e.status == InFlight || e.status == AbandonedInFlight) <==>
      (es[i].status == InFlight || es[i].status == AbandonedInFlight)
    ensures Awaiting(es[i := e]) == Awaiting(es)
    decreases |es|
  {
    if i == 0 {
      assert es[i := e][1..] == es[1..];
    } else {
      assert es[i := e][1..] == es[1..][i - 1 := e];
      AwaitingUpdate(es[1..], i - 1, e);
    }
  }

  lemma {:induction false} AwaitingDrop(es: seq<Elem>)
    ensures Awaiting(DropAbandoned(es)) == Awaiting(es)
  {
    hide Awaiting, DropAbandoned;
    var k := |es| - |DropAbandoned(es)|;
    assert es == es[..k] + es[k..];
    AwaitingAppend(es[..k], es[k..]);
    AwaitingNone(es[..k]);
  }

  /** If a reply is owed, the queue drops only elements that were written, and what remains
      starts with the request the reply is for. */
  lemma {:induction false} FrontIsOwed(w: World)
    requires Queue(w.mux, w.requests) && Owed(w) && w.owed != []
    ensures var es := DropAbandoned(w.mux.elems);
      && es != [] && w.mux.numPending < |es|
      && es[0].id == w.owed[0].id
      && (es[0].status == InFlight || es[0].status == AbandonedInFlight)
  {
    hide GoodPledge, GoodElem, Run;
    var x := w.mux;
    var es := DropAbandoned(x.elems);
    AwaitingDrop(x.elems);
    assert Ids(w.owed)[0] == w.owed[0].id;
    assert es != [];
    var k := |x.elems| - |es|;
    assert es[0] == x.elems[k];
    if |es| <= x.numPending {
      forall i | 0 <= i < |es| ensures es[i].status == Pending || es[i].status == AbandonedPending {
        assert es[i] == x.elems[k + i];
      }
      AwaitingNone(es);
    }
  }

  // ----- each event keeps the invariant

  /** What was true of the log stays true when entries are added. */
  lemma {:induction false} HistoryGrows(w: World, w': World, added: seq<Effect>)
    requires History(w) && w'.log == w.log + added
    requires forall i | 0 <= i < |w.log| :: GoodEntry(w', w.log[i])
    requires forall i | 0 <= i < |added| :: GoodEntry(w', added[i])
    requires Chronicle(added)
    requires forall i, j | 0 <= i < |w.log| && 0 <= j < |added| :: InOrder(w.log[i], added[j])
    ensures History(w')
  {
    hide GoodEntry, InOrder;
    forall i | 0 <= i < |w'.log| ensures GoodEntry(w', w'.log[i]) {
      if i >= |w.log| {
        assert w'.log[i] == added[i - |w.log|];
      }
    }
    forall i, j | 0 <= i < j < |w'.log| ensures InOrder(w'.log[i], w'.log[j]) {
      if i >= |w.log| {
        assert w'.log[i] == added[i - |w.log|] && w'.log[j] == added[j - |w.log|];
      } else if j >= |w.log| {
        assert w'.log[j] == added[j - |w.log|];
      }
    }
  }

  lemma {:induction false} CallsAppend(log: seq<Effect>, added: seq<Effect>, id: nat)
    ensures CallsOf(log + added, id) == CallsOf(log, id) + CallsOf(added, id)
    decreases |added|
  {
    if added == [] {
      assert log + added == log;
    } else {
      assert (log + added)[..|log + added| - 1] == log + added[..|added| - 1];
      CallsAppend(log, added[..|added| - 1], id);
    }
  }

  lemma {:induction false} NoCalls(log: seq<Effect>, id: nat)
    requires forall i | 0 <= i < |log| :: !log[i].Handled? || log[i].id != id
    ensures CallsOf(log, id) == []
    decreases |log|
  {
    if log != [] {
      NoCalls(log[..|log| - 1], id);
    }
  }

  // Submission.

  lemma {:induction false} SubmitShape(w: World, req: Request)
    requires Shape(w)
    ensures Shape(DoSubmit(w, req))
  {
  }

  lemma {:induction false} SubmitService(w: World, req: Request)
    requires Service(w)
    ensures Service(DoSubmit(w, req))
  {
    hide Run;
    var e := Elem(|w.requests|, Some(req), Pending, 0);
    SubmitQueue(w, req);
    AwaitingAppend(w.mux.elems, [e]);
    AwaitingNone([e]);
    forall i | 0 <= i < |w.owed| ensures GoodPledge(w.owed[i], w.requests + [req]) {
      assert GoodPledge(w.owed[i], w.requests);
    }
  }

  lemma {:induction false} SubmitQueue(w: World, req: Request)
    requires Queue(w.mux, w.requests)
    ensures Queue(Add(w.mux, |w.requests|, req), w.requests + [req])
  {
  }

  lemma {:induction false} SubmitHearing(w: World, req: Request)
    requires Shape(w) && Service(w) && Hearing(w) && History(w)
    ensures Hearing(DoSubmit(w, req))
  {
    hide Run, GoodPledge, CallsOf, Counted;
    var w' := DoSubmit(w, req);
    forall id | 0 <= id < |w'.requests| ensures RoutedTo(w', id) {
      if id == |w.requests| {
        NoCalls(w.log, id);
        RunNone(Fresh(req));
      } else {
        assert RoutedTo(w, id);
      }
    }
  }

  lemma {:induction false} SubmitHistory(w: World, req: Request)
    requires Queue(w.mux, w.requests) && |w.heard| == |w.requests| && History(w)
    ensures History(DoSubmit(w, req))
  {
    hide Accepts;
    var w' := DoSubmit(w, req);
    forall i | 0 <= i < |w.log| ensures GoodEntry(w', w.log[i]) {
      assert GoodEntry(w, w.log[i]);
    }
  }

  lemma {:induction false} SubmitKeeps(w: World, req: Request)
    requires Inv(w) && Accepted(req.messages)
    ensures Inv(DoSubmit(w, req))
  {
    hide History, Queue, Counted, Owed, InStep, Listening, RoutedTo;
    assert Marked(DoSubmit(w, req));
    SubmitShape(w, req);
    SubmitService(w, req);
    SubmitHearing(w, req);
    SubmitHistory(w, req);
  }

  // Cancellation.

  lemma {:induction false} InvRunnable(w: World)
    requires Requests(w) && Service(w)
    ensures Runnable(w)
  {
    hide Run;
    if w.mux.stream.Reading? {
      var p := w.owed[0];
      assert Accepted(w.requests[p.id].messages);
      InitConsistent(w.requests[p.id].messages, false);
      RunCopyOff(Full(w.requests[p.id]), p.sent);
      RunGood(Fresh(w.requests[p.id]), p.sent);
    }
  }

  lemma {:induction false} CancelShape(w: World, i: nat)
    requires Shape(w) && Runnable(w) && i < |w.mux.elems| && Live(w.mux.elems[i])
    ensures Shape(DoCancel(w, i))
  {
    hide ExpectedReady;
  }

  /** Abandoning the reply being read leaves exactly the ReadyForQuery messages to come. */
  lemma {:induction false} AbandonCounts(w: World)
    requires Requests(w) && Service(w) && Runnable(w) && w.mux.stream.Reading?
    ensures var r := Abandon(w.mux.stream.fsm).remaining;
      r > 0 && r + CountReady(w.owed[0].sent) == ExpectedReady(w.requests[w.owed[0].id].messages)
  {
    hide Run, ExpectedReady;
    var p := w.owed[0];
    var ms := w.requests[p.id].messages;
    assert Accepted(ms);
    InitConsistent(ms, false);
    RunCopyOff(Init(ms, true), p.sent);
    RunGood(Init(ms, false), p.sent);
    ReadyConservation(ms, false, p.sent);
    ClosedExpectsReady(ms[w.mux.stream.fsm.current..], false);
  }

  lemma {:induction false} CancelService(w: World, i: nat)
    requires Requests(w) && Shape(w) && Service(w) && Runnable(w) && i < |w.mux.elems| && Live(w.mux.elems[i])
    ensures Service(DoCancel(w, i))
  {
    hide Run, ExpectedReady, CountReady, Counted, Requests;
    var w' := DoCancel(w, i);
    CancelShape(w, i);
    AwaitingUpdate(w.mux.elems, i, w'.mux.elems[i]);
    if w.mux.stream.Reading? {
      AbandonCounts(w);
    }
  }

  lemma {:induction false} CancelHearing(w: World, i: nat)
    requires Shape(w) && Service(w) && Hearing(w) && Runnable(w) && i < |w.mux.elems| && Live(w.mux.elems[i])
    ensures Hearing(DoCancel(w, i))
  {
    hide Run, GoodPledge, CallsOf, Counted, ExpectedReady, Awaiting;
    var w' := DoCancel(w, i);
    forall id | 0 <= id < |w.requests| ensures RoutedTo(w', id) {
      assert RoutedTo(w, id);
      CallsAppend(w.log, [Cancelled(w.mux.elems[i].id)], id);
      NoCalls([Cancelled(w.mux.elems[i].id)], id);
    }
  }

  lemma {:induction false} CancelHistory(w: World, i: nat)
    requires Queue(w.mux, w.requests) && |w.heard| == |w.requests| && History(w) && Runnable(w)
    requires i < |w.mux.elems| && Live(w.mux.elems[i])
    ensures History(DoCancel(w, i))
  {
    hide Accepts, ExpectedReady;
    var w' := DoCancel(w, i);
    var e := Cancelled(w.mux.elems[i].id);
    forall k | 0 <= k < |w.log| ensures GoodEntry(w', w.log[k]) && InOrder(w.log[k], e) {
      assert GoodEntry(w, w.log[k]);
    }
    HistoryGrows(w, w', [e]);
  }

  lemma {:induction false} CancelKeeps(w: World, i: nat)
    requires Inv(w) && Runnable(w) && i < |w.mux.elems| && Live(w.mux.elems[i])
    ensures Inv(DoCancel(w, i))
  {
    hide History, Queue, Counted, Owed, InStep, Listening, RoutedTo;
    assert Marked(DoCancel(w, i));
    CancelShape(w, i);
    CancelService(w, i);
    CancelHearing(w, i);
    CancelHistory(w, i);
  }

  // Writing.

  lemma {:induction false} WriteShape(w: World)
    requires Shape(w) && Runnable(w)
    ensures Shape(DoWrite(w))
  {
    hide ExpectedReady, Writes, PendingIds, MarkWritten;
    var x, x' := w.mux, DoWrite(w).mux;
    var off := PendingOffset(x);
    forall i | 0 <= i < |x.elems|
      ensures x'.elems[i] == if i >= off && x.elems[i].status == Pending then x.elems[i].(status := InFlight) else x.elems[i]
    {
      if i >= off {
        assert x.elems[off..][i - off] == x.elems[i];
      }
    }
  }

  lemma {:induction false} PendingIdsKnown(es: seq<Elem>, n: nat)
    requires forall i | 0 <= i < |es| :: es[i].id < n
    ensures forall i | 0 <= i < |PendingIds(es)| :: PendingIds(es)[i] < n
    decreases |es|
  {
    if es != [] {
      PendingIdsKnown(es[1..], n);
    }
  }

  lemma {:induction false} WriteService(w: World)
    requires Shape(w) && Service(w) && Runnable(w)
    ensures Service(DoWrite(w))
  {
    hide Run, ExpectedReady, CountReady, Counted, Awaiting, PendingIds, MarkWritten;
    var x, w' := w.mux, DoWrite(w);
    var off := PendingOffset(x);
    var todo := PendingIds(x.elems[off..]);
    WriteShape(w);
    assert x.elems == x.elems[..off] + x.elems[off..];
    AwaitingAppend(x.elems[..off], x.elems[off..]);
    AwaitingAppend(x.elems[..off], MarkWritten(x.elems[off..]));
    AwaitingNone(x.elems[off..]);
    AwaitingWritten(x.elems[off..]);
    PendingIdsKnown(x.elems[off..], |w.requests|);
    assert Ids(w'.owed) == Ids(w.owed) + todo;
    forall i | 0 <= i < |w'.owed| ensures GoodPledge(w'.owed[i], w.requests) {
      if i < |w.owed| {
        assert GoodPledge(w.owed[i], w.requests);
      } else {
        RunNone(Full(w.requests[w'.owed[i].id]));
      }
    }
    WriteFront(w);
  }

  /** A write does not touch the front of the queue while a reply is in progress. */
  lemma {:induction false} WriteFront(w: World)
    requires Queue(w.mux, w.requests) && Runnable(w) && InStep(w)
    ensures !w.mux.stream.Initial? ==> DoWrite(w).mux.elems != [] && DoWrite(w).mux.elems[0] == w.mux.elems[0]
  {
    hide Run, ExpectedReady, CountReady, GoodPledge;
  }

  lemma {:induction false} ChroniclePrepend(e: Effect, log: seq<Effect>)
    requires Chronicle(log) && forall k | 0 <= k < |log| :: InOrder(e, log[k])
    ensures Chronicle([e] + log)
  {
    hide InOrder;
    var all := [e] + log;
    forall i, j | 0 <= i < j < |all| ensures InOrder(all[i], all[j]) {
      assert all[j] == log[j - 1];
      if i > 0 {
        assert all[i] == log[i - 1];
      }
    }
  }

  /** The entry is the write of a pending element. */
  ghost predicate WriteOf(e: Effect, es: seq<Elem>) {
    e.Wrote? && exists i :: 0 <= i < |es| && es[i].status == Pending && es[i].id == e.id
  }

  lemma {:induction false} WriteOfTail(e: Effect, es: seq<Elem>)
    requires es != [] && WriteOf(e, es[1..])
    requires forall i, j | 0 <= i < j < |es| :: es[i].id < es[j].id
    ensures WriteOf(e, es) && e.id > es[0].id
  {
    var i :| 0 <= i < |es[1..]| && es[1..][i].status == Pending && es[1..][i].id == e.id;
    assert es[i + 1] == es[1..][i];
  }

  lemma {:induction false} WritesAre(es: seq<Elem>)
    requires forall i, j | 0 <= i < j < |es| :: es[i].id < es[j].id
    ensures forall k | 0 <= k < |Writes(es)| :: WriteOf(Writes(es)[k], es)
    ensures Chronicle(Writes(es))
    decreases |es|
  {
    if es != [] {
      var rest := Writes(es[1..]);
      WritesAre(es[1..]);
      forall k | 0 <= k < |rest| ensures WriteOf(rest[k], es) && rest[k].id > es[0].id {
        WriteOfTail(rest[k], es);
      }
      if es[0].status == Pending {
        hide Chronicle;
        ChroniclePrepend(Wrote(es[0].id), rest);
        assert Writes(es) == [Wrote(es[0].id)] + rest;
      } else {
        assert Writes(es) == rest;
      }
    }
  }

  lemma {:induction false} WriteHearing(w: World)
    requires Shape(w) && Service(w) && Hearing(w) && Runnable(w)
    ensures Hearing(DoWrite(w))
  {
    hide Run, GoodPledge, CallsOf, Counted, ExpectedReady, Awaiting, Writes, PendingIds, MarkWritten, GoodElem;
    var w' := DoWrite(w);
    var todo := w.mux.elems[PendingOffset(w.mux)..];
    WritesAre(todo);
    WrittenElems(w);
    forall id | 0 <= id < |w.requests| ensures RoutedTo(w', id) {
      assert RoutedTo(w, id);
      CallsAppend(w.log, Writes(todo), id);
      NoCalls(Writes(todo), id);
    }
    WriteListening(w);
  }

  lemma {:induction false} WriteListening(w: World)
    requires Queue(w.mux, w.requests) && InStep(w) && Listening(w) && Runnable(w)
    ensures Listening(DoWrite(w))
  {
    hide Run, GoodPledge, ExpectedReady, Writes, PendingIds, MarkWritten, GoodElem, CountReady;
    WrittenElems(w);
  }

  lemma {:induction false} WriteHistory(w: World)
    requires Queue(w.mux, w.requests) && |w.heard| == |w.requests| && History(w) && Runnable(w)
    ensures History(DoWrite(w))
  {
    hide Accepts, Writes, PendingIds, MarkWritten;
    var x, w' := w.mux, DoWrite(w);
    var todo := x.elems[PendingOffset(x)..];
    WritesAre(todo);
    WrittenElems(w);
    forall k | 0 <= k < |w.log| ensures GoodEntry(w', w.log[k]) {
      assert GoodEntry(w, w.log[k]);
    }
    forall j | 0 <= j < |Writes(todo)|
      ensures GoodEntry(w', Writes(todo)[j])
      ensures forall k | 0 <= k < |w.log| :: InOrder(w.log[k], Writes(todo)[j])
    {
      WriteIsNew(w, Writes(todo)[j]);
    }
    HistoryGrows(w, w', Writes(todo));
  }

  lemma {:induction false} WrittenElems(w: World)
    requires Runnable(w)
    ensures var es' := DoWrite(w).mux.elems;
      |es'| == |w.mux.elems| &&
      forall i | 0 <= i < |es'| :: es'[i].id == w.mux.elems[i].id && es'[i].req == w.mux.elems[i].req
  {
    hide Writes, PendingIds, MarkWritten;
    var off := PendingOffset(w.mux);
    forall i | off <= i < |w.mux.elems| ensures w.mux.elems[off..][i - off] == w.mux.elems[i] {
    }
  }

  /** A pending request was never written, cancelled or completed before. */
  lemma {:induction false} WriteIsNew(w: World, e: Effect)
    requires Queue(w.mux, w.requests) && |w.heard| == |w.requests| && History(w) && Runnable(w)
    requires WriteOf(e, w.mux.elems[PendingOffset(w.mux)..])
    ensures e.id < |w.requests|
    ensures forall k | 0 <= k < |w.log| :: InOrder(w.log[k], e)
  {
    hide Accepts;
    var off := PendingOffset(w.mux);
    var i :| 0 <= i < |w.mux.elems[off..]| && w.mux.elems[off..][i].status == Pending && w.mux.elems[off..][i].id == e.id;
    assert w.mux.elems[off + i] == w.mux.elems[off..][i];
    forall k | 0 <= k < |w.log| ensures InOrder(w.log[k], e) {
      assert GoodEntry(w, w.log[k]);
    }
  }

  lemma {:induction false} WriteMarked(w: World)
    requires Marked(w) && Runnable(w)
    ensures Marked(DoWrite(w))
  {
    WrittenElems(w);
    hide Writes, PendingIds, MarkWritten;
  }

  lemma {:induction false} WriteKeeps(w: World)
    requires Inv(w) && Runnable(w)
    ensures Inv(DoWrite(w))
  {
    hide History, Queue, Counted, Owed, InStep, Listening, RoutedTo, PrepareWrite;
    WriteMarked(w);
    WriteShape(w);
    WriteService(w);
    WriteHearing(w);
    WriteHistory(w);
  }

  // A lost connection.

  lemma {:induction false} LostShape(w: World)
    requires Shape(w) && Runnable(w) && Service(w)
    ensures Shape(DoLost(w)) && Service(DoLost(w))
  {
    hide ExpectedReady, Cancellations, Run, CountReady, GoodPledge, Queue, Awaiting, Owed, InStep;
    var x := w.mux;
    var off := PendingOffset(x);
    PendingSuffix(x, w.requests);
    AwaitingNone(x.elems[off..]);
    LostOwes(DoLost(w));
  }

  /** What a lost connection leaves in the queue. */
  lemma {:induction false} PendingSuffix(x: Mux, requests: seq<Request>)
    requires Queue(x, requests)
    ensures var es := x.elems[PendingOffset(x)..];
      && Queue(Mux(es, x.numPending, Initial), requests)
      && forall i | 0 <= i < |es| :: es[i].status == Pending || es[i].status == AbandonedPending
  {
    hide GoodElem;
    var off := PendingOffset(x);
    assert forall i | 0 <= i < |x.elems[off..]| :: x.elems[off..][i] == x.elems[off + i];
  }

  lemma {:induction false} LostOwes(w: World)
    requires Queue(w.mux, w.requests) && w.owed == [] && Awaiting(w.mux.elems) == [] && w.mux.stream.Initial?
    ensures Owed(w) && InStep(w)
  {
    hide Queue;
  }

  /** The entry is the failure of a written request that was not cancelled. */
  ghost predicate FailureOf(e: Effect, es: seq<Elem>) {
    e.Completed? && e.error == Some(OperationCanceled) && exists i :: 0 <= i < |es| && es[i].req.Some? && es[i].id == e.id
  }

  lemma {:induction false} FailureOfTail(e: Effect, es: seq<Elem>)
    requires es != [] && FailureOf(e, es[1..])
    requires forall i, j | 0 <= i < j < |es| :: es[i].id < es[j].id
    ensures FailureOf(e, es) && e.id > es[0].id
  {
    var i :| 0 <= i < |es[1..]| && es[1..][i].req.Some? && es[1..][i].id == e.id;
    assert es[i + 1] == es[1..][i];
  }

  lemma {:induction false} FailuresAre(es: seq<Elem>)
    requires forall i, j | 0 <= i < j < |es| :: es[i].id < es[j].id
    ensures forall k | 0 <= k < |Cancellations(es)| :: FailureOf(Cancellations(es)[k], es)
    ensures Chronicle(Cancellations(es))
    decreases |es|
  {
    if es != [] {
      var rest := Cancellations(es[1..]);
      FailuresAre(es[1..]);
      forall k | 0 <= k < |rest| ensures FailureOf(rest[k], es) && rest[k].id > es[0].id {
        FailureOfTail(rest[k], es);
      }
      if es[0].req.Some? {
        hide Chronicle;
        var e := Completed(es[0].id, Some(OperationCanceled));
        ChroniclePrepend(e, rest);
        assert Cancellations(es) == [e] + rest;
      } else {
        assert Cancellations(es) == rest;
      }
    }
  }

  lemma {:induction false} LostHearing(w: World)
    requires Shape(w) && Service(w) && Hearing(w) && Runnable(w)
    ensures Hearing(DoLost(w))
  {
    hide Run, GoodPledge, CallsOf, Counted, ExpectedReady, Awaiting, Cancellations, CountReady;
    var w' := DoLost(w);
    var off := PendingOffset(w.mux);
    FailuresAre(w.mux.elems[..off]);
    forall id | 0 <= id < |w.requests| ensures RoutedTo(w', id) {
      assert RoutedTo(w, id);
      CallsAppend(w.log, Cancellations(w.mux.elems[..off]), id);
      NoCalls(Cancellations(w.mux.elems[..off]), id);
    }
    forall i | 0 <= i < |w'.mux.elems| ensures w'.mux.elems[i] == w.mux.elems[off + i] {
    }
  }

  lemma {:induction false} LostHistory(w: World)
    requires Queue(w.mux, w.requests) && |w.heard| == |w.requests| && History(w) && Runnable(w)
    ensures History(DoLost(w))
  {
    hide Accepts, Cancellations;
    var x, w' := w.mux, DoLost(w);
    var off := PendingOffset(x);
    var failed := Cancellations(x.elems[..off]);
    FailuresAre(x.elems[..off]);
    forall i | 0 <= i < |w'.mux.elems| ensures w'.mux.elems[i] == x.elems[off + i] {
    }
    forall k | 0 <= k < |w.log| ensures GoodEntry(w', w.log[k]) {
      assert GoodEntry(w, w.log[k]);
    }
    forall j | 0 <= j < |failed|
      ensures GoodEntry(w', failed[j])
      ensures forall k | 0 <= k < |w.log| :: InOrder(w.log[k], failed[j])
    {
      FailureIsNew(w, failed[j]);
    }
    HistoryGrows(w, w', failed);
  }

  lemma {:induction false} FailureIsNew(w: World, e: Effect)
    requires Queue(w.mux, w.requests) && |w.heard| == |w.requests| && History(w) && Runnable(w)
    requires FailureOf(e, w.mux.elems[..PendingOffset(w.mux)])
    ensures GoodEntry(DoLost(w), e)
    ensures forall k | 0 <= k < |w.log| :: InOrder(w.log[k], e)
  {
    hide Accepts, Cancellations;
    var off := PendingOffset(w.mux);
    var i :| 0 <= i < |w.mux.elems[..off]| && w.mux.elems[..off][i].req.Some? && w.mux.elems[..off][i].id == e.id;
    assert w.mux.elems[i] == w.mux.elems[..off][i];
    forall k | 0 <= k < |w.mux.elems[off..]| ensures w.mux.elems[off..][k] == w.mux.elems[off + k] {
    }
    forall k | 0 <= k < |w.log| ensures InOrder(w.log[k], e) {
      assert GoodEntry(w, w.log[k]);
    }
  }

  lemma {:induction false} LostMarked(w: World)
    requires Marked(w) && Runnable(w)
    ensures Marked(DoLost(w))
  {
    hide Cancellations;
    var off := PendingOffset(w.mux);
    forall k | 0 <= k < |w.mux.elems[off..]| ensures w.mux.elems[off..][k] == w.mux.elems[off + k] {
    }
  }

  lemma {:induction false} LostKeeps(w: World)
    requires Inv(w) && Runnable(w)
    ensures Inv(DoLost(w))
  {
    hide History, Queue, Counted, Owed, InStep, Listening, RoutedTo;
    LostMarked(w);
    LostShape(w);
    LostHearing(w);
    LostHistory(w);
  }

  // A message.

  lemma {:induction false} BeginSame(w: World, m: BackendMessage)
    requires Queue(w.mux, w.requests) && Owed(w) && w.owed != [] && w.mux.stream.Initial?
    requires Honest(w, m) && !IsAsync(m.kind)
    ensures DropAbandoned(w.mux.elems) != []
    ensures DoMessage(w.(mux := Begin(w.mux)), m) == DoMessage(w, m)
    ensures !Begin(w.mux).stream.Initial?
  {
    hide Queue, Owed, DropAbandoned, IsReply, ReadOne, IgnoreOne, Continues;
    FrontIsOwed(w);
    FrontIsLive(w);
  }

  lemma {:induction false} FrontIsLive(w: World)
    requires Queue(w.mux, w.requests) && DropAbandoned(w.mux.elems) != []
    ensures GoodElem(DropAbandoned(w.mux.elems)[0], w.requests)
  {
    var es := DropAbandoned(w.mux.elems);
    assert es[0] == w.mux.elems[|w.mux.elems| - |es|];
  }

  lemma {:induction false} BeginShape(w: World)
    requires Shape(w) && Owed(w) && w.owed != [] && w.mux.stream.Initial?
    ensures DropAbandoned(w.mux.elems) != [] && Shape(w.(mux := Begin(w.mux)))
  {
    hide Owed, ExpectedReady, DropAbandoned;
    FrontIsOwed(w);
    var es := DropAbandoned(w.mux.elems);
    forall i | 0 <= i < |es| ensures es[i] == w.mux.elems[|w.mux.elems| - |es| + i] {
    }
  }

  lemma {:induction false} BeginService(w: World)
    requires Requests(w) && Shape(w) && Service(w) && w.owed != [] && w.mux.stream.Initial?
    ensures DropAbandoned(w.mux.elems) != [] && Service(w.(mux := Begin(w.mux)))
  {
    hide ExpectedReady, DropAbandoned, Run;
    BeginShape(w);
    FrontIsOwed(w);
    FrontIsLive(w);
    AwaitingDrop(w.mux.elems);
    var es := DropAbandoned(w.mux.elems);
    var p := w.owed[0];
    assert GoodPledge(p, w.requests);
    RunNone(Fresh(w.requests[p.id]));
    assert Accepted(w.requests[p.id].messages);
    ClosedExpectsReady(w.requests[p.id].messages, false);
    assert es[0] == w.mux.elems[|w.mux.elems| - |es|];
  }

  lemma {:induction false} BeginRest(w: World)
    requires Shape(w) && Service(w) && Hearing(w) && History(w) && w.owed != [] && w.mux.stream.Initial?
    ensures DropAbandoned(w.mux.elems) != []
    ensures Hearing(w.(mux := Begin(w.mux))) && History(w.(mux := Begin(w.mux)))
  {
    hide ExpectedReady, DropAbandoned, Run, CallsOf, GoodPledge, Awaiting, Accepts;
    FrontIsOwed(w);
    var w' := w.(mux := Begin(w.mux));
    var es := DropAbandoned(w.mux.elems);
    forall i | 0 <= i < |es| ensures es[i] == w.mux.elems[|w.mux.elems| - |es| + i] {
    }
    forall id | 0 <= id < |w.requests| ensures RoutedTo(w', id) {
      assert RoutedTo(w, id);
    }
    forall k | 0 <= k < |w.log| ensures GoodEntry(w', w.log[k]) {
      assert GoodEntry(w, w.log[k]);
    }
  }

  lemma {:induction false} BeginKeeps(w: World)
    requires Inv(w) && w.owed != [] && w.mux.stream.Initial?
    ensures DropAbandoned(w.mux.elems) != [] && Inv(w.(mux := Begin(w.mux)))
  {
    hide History, Queue, Counted, Owed, InStep, Listening, RoutedTo, DropAbandoned;
    FrontIsOwed(w);
    var es := DropAbandoned(w.mux.elems);
    forall i | 0 <= i < |es| ensures es[i] == w.mux.elems[|w.mux.elems| - |es| + i] {
    }
    assert Marked(w.(mux := Begin(w.mux)));
    BeginShape(w);
    BeginService(w);
    BeginRest(w);
  }

  /** A message that the reading of a reply may meet. */
  predicate InText(k: Kind) {
    !IsAsync(k) && k != CopyOutResponse
  }

  /** The server starts no COPY OUT in a reply that is read. */
  lemma {:induction false} ReadIsInText(w: World, m: BackendMessage)
    requires Inv(w) && w.mux.stream.Reading? && Honest(w, m) && !IsAsync(m.kind)
    ensures InText(m.kind)
  {
    hide Inv, Continues;
    FrontCancelled(w);
  }

  /** What a message of the reply does while it is read. */
  lemma {:induction false} ReadFacts(w: World, m: BackendMessage)
    requires Requests(w) && Service(w) && w.mux.stream.Reading? && Honest(w, m) && InText(m.kind)
    ensures var s := Resume(w.mux.stream.fsm, m); var p := w.owed[0]; var req := w.requests[p.id];
      && s.fsm == Run(Fresh(req), p.sent + [m]).fsm
      && Run(Fresh(req), p.sent + [m]).calls == Run(Fresh(req), p.sent).calls + s.calls
      && NoCopyOut(p.sent + [m])
      && Run(Fresh(req), p.sent + [m]).verdict == s.verdict
      && if IsReply(req.messages, true, p.sent + [m]) then
           s.verdict == Done(None) && Accepts(Fresh(req), p.sent + [m])
         else
           s.verdict == Read && Run(Full(req), p.sent + [m]).verdict == Read
  {
    hide Run, Resume, Accepts, IsReply, Continues, Awaiting;
    var p := w.owed[0];
    assert GoodPledge(p, w.requests) && Accepted(w.requests[p.id].messages);
    var full := Full(w.requests[p.id]);
    ReplyStep(w.requests[p.id], p.sent, m);
    RunCopyOff(full, p.sent);
    RunPrefix(Off(full), p.sent, m);
    ResumeCopyOff(Run(full, p.sent).fsm, m);
    AcceptsCopyOff(full, p.sent + [m]);
  }

  /** What a message of the reply does to the queue while it is read. */
  lemma {:induction false} ReadOutcome(w: World, m: BackendMessage)
    requires Requests(w) && Service(w) && w.mux.stream.Reading? && Honest(w, m) && InText(m.kind)
    ensures var p := w.owed[0]; var req := w.requests[p.id]; var o := OnMessage(w.mux, m);
      var s := Resume(w.mux.stream.fsm, m);
      && o.mux.numPending == w.mux.numPending
      && if IsReply(req.messages, true, p.sent + [m]) then
           && o.mux.elems == w.mux.elems[1..] && o.mux.stream == Initial
           && o.effects == HandledAll(p.id, s.calls) + [Completed(p.id, None)]
         else
           && o.mux.elems == w.mux.elems && o.mux.stream.Reading?
           && o.effects == HandledAll(p.id, s.calls)
  {
    ReadFacts(w, m);
    hide Run, Resume, Accepts, IsReply, Continues, Queue, Owed, GoodPledge, HandledAll;
  }

  lemma {:induction false} ReadShape(w: World, m: BackendMessage)
    requires Requests(w) && Shape(w) && Service(w) && w.mux.stream.Reading? && Honest(w, m) && InText(m.kind)
    ensures Shape(DoMessage(w, m))
  {
    hide Run, Resume, Accepts, IsReply, Continues, Owed, ExpectedReady, Paid, Hear, HandledAll;
    ReadFacts(w, m);
    assert forall i | 0 <= i < |w.mux.elems[1..]| :: w.mux.elems[1..][i] == w.mux.elems[i + 1];
    ReadLeavesPending(w);
  }

  /** The request being read was written. */
  lemma {:induction false} ReadLeavesPending(w: World)
    requires Queue(w.mux, w.requests) && InStep(w) && !w.mux.stream.Initial?
    ensures w.mux.numPending < |w.mux.elems|
  {
    hide Run, ExpectedReady, CountReady, GoodPledge, GoodElem;
  }

  /** What the server owes after one more message of the oldest reply. */
  lemma {:induction false} PaidGood(w: World, m: BackendMessage)
    requires Owed(w) && w.owed != [] && w.owed[0].id < |w.requests| && !IsAsync(m.kind)
    requires var p := w.owed[0]; var req := w.requests[p.id];
      !IsReply(req.messages, true, p.sent + [m]) ==> Run(Full(req), p.sent + [m]).verdict == Read
    ensures var ps := Paid(w, m);
      && (forall i | 0 <= i < |ps| :: GoodPledge(ps[i], w.requests))
      && (forall i | 0 < i < |ps| :: ps[i].sent == [])
      && (ps != [] ==> GoodPledge(ps[0], w.requests))
  {
    hide Run, IsReply, Awaiting, Full;
    var ps := Paid(w, m);
    forall i | 0 <= i < |ps| ensures GoodPledge(ps[i], w.requests) {
      assert GoodPledge(w.owed[0], w.requests);
      if ps == w.owed[1..] {
        assert GoodPledge(w.owed[i + 1], w.requests);
      } else if i > 0 {
        assert GoodPledge(w.owed[i], w.requests);
      }
    }
  }

  lemma {:induction false} PaidHead(w: World, m: BackendMessage)
    requires w.owed != [] && w.owed[0].id < |w.requests|
    requires forall i | 0 < i < |w.owed| :: w.owed[i].sent == []
    ensures var ps := Paid(w, m); var p := w.owed[0];
      if IsReply(w.requests[p.id].messages, true, p.sent + [m]) then
        Ids(ps) == Ids(w.owed)[1..] && (ps != [] ==> ps[0].sent == [])
      else ps != [] && ps[0] == Pledge(p.id, p.sent + [m]) && Ids(ps) == Ids(w.owed)
  {
    hide IsReply;
    var ps := Paid(w, m);
    if ps == w.owed[1..] {
      assert Ids(w.owed)[1..] == Ids(w.owed[1..]);
    }
  }

  lemma {:induction false} ReadService(w: World, m: BackendMessage)
    requires Requests(w) && Shape(w) && Service(w) && w.mux.stream.Reading? && Honest(w, m) && InText(m.kind)
    ensures Service(DoMessage(w, m))
  {
    hide Run, Resume, Accepts, IsReply, Continues, Counted, ExpectedReady, Hear, HandledAll, Queue, Paid, GoodPledge;
    ReadShape(w, m);
    ReadFacts(w, m);
    PaidGood(w, m);
    PaidHead(w, m);
  }

  lemma {:induction false} ReadHearing(w: World, m: BackendMessage)
    requires Requests(w) && Shape(w) && Service(w) && Hearing(w) && History(w) && Marked(w)
    requires w.mux.stream.Reading? && Honest(w, m) && InText(m.kind)
    ensures Hearing(DoMessage(w, m))
  {
    hide RoutedTo, Listening, Service, Shape, Requests, History, Marked, OnMessage, Paid, Continues;
    var w' := DoMessage(w, m);
    forall id | 0 <= id < |w.requests| ensures RoutedTo(w', id) {
      ReadRouted(w, m, id);
    }
    ReadListening(w, m);
  }

  lemma {:induction false} ReadRouted(w: World, m: BackendMessage, id: nat)
    requires Requests(w) && Shape(w) && Service(w) && Hearing(w) && History(w) && Marked(w)
    requires w.mux.stream.Reading? && Honest(w, m) && InText(m.kind) && id < |w.requests|
    ensures |Hear(w, m)| == |w.requests| && RoutedTo(DoMessage(w, m), id)
  {
    FrontHears(w, m);
    ReadFacts(w, m);
    ReadEffects(w, m, id);
    hide Hear, History, Run, Resume, Accepts, IsReply, Continues, Counted, ExpectedReady, CallsOf, GoodPledge, Owed, Marked,
      OnMessage, Paid, Honest;
    assert RoutedTo(w, id);
  }

  lemma {:induction false} ReadListening(w: World, m: BackendMessage)
    requires Requests(w) && Shape(w) && Service(w) && Hearing(w) && History(w) && Marked(w)
    requires w.mux.stream.Reading? && Honest(w, m) && InText(m.kind)
    ensures Listening(DoMessage(w, m))
  {
    FrontHears(w, m);
    ReadOutcome(w, m);
    PaidHead(w, m);
    hide Hear, History, Run, Resume, Accepts, IsReply, Continues, Counted, ExpectedReady, RoutedTo, GoodPledge, Marked,
      OnMessage, Paid, Honest, HandledAll, Requests;
    assert forall i | 0 <= i < |w.mux.elems[1..]| :: w.mux.elems[1..][i] == w.mux.elems[i + 1];
  }

  lemma {:induction false} CallsHandled(id: nat, cs: seq<Call>)
    ensures CallsOf(HandledAll(id, cs), id) == cs
    decreases |cs|
  {
    if cs != [] {
      CallsHandled(id, cs[..|cs| - 1]);
      assert HandledAll(id, cs)[..|cs| - 1] == HandledAll(id, cs[..|cs| - 1]);
    }
  }

  /** The callbacks of a step go to the request being read and to no other. */
  lemma {:induction false} ReadEffects(w: World, m: BackendMessage, id: nat)
    requires w.mux.stream.Reading? && w.mux.elems != [] && !IsAsync(m.kind) && Honest(w, m)
    ensures CallsOf(DoMessage(w, m).log, id) ==
      CallsOf(w.log, id) + if id == w.mux.elems[0].id then Resume(w.mux.stream.fsm, m).calls else []
  {
    hide Resume, Honest, IsReply, Hear, Continues, CallsOf, Start, IgnoreOne, Paid;
    var s := Resume(w.mux.stream.fsm, m);
    var front := w.mux.elems[0].id;
    var handled := HandledAll(front, s.calls);
    var effects := OnMessage(w.mux, m).effects;
    CallsAppend(w.log, effects, id);
    if s.verdict.Done? {
      CallsAppend(handled, [Completed(front, s.verdict.error)], id);
      NoCalls([Completed(front, s.verdict.error)], id);
    }
    if id == front {
      CallsHandled(front, s.calls);
    } else {
      NoCalls(handled, id);
    }
  }

  /** An earlier entry of the log stays good when the front request e0 leaves the queue, or
      hears one more message. */
  lemma {:induction false} OldEntry(w: World, w': World, e: Effect)
    requires Queue(w.mux, w.requests) && w.mux.elems != [] && GoodEntry(w, e) && w.mux.elems[0].req.Some?
    requires w'.requests == w.requests && |w'.heard| == |w.heard|
    requires w'.mux.numPending == w.mux.numPending < |w.mux.elems|
    requires w'.mux.elems == w.mux.elems || w'.mux.elems == w.mux.elems[1..]
    requires forall id | 0 <= id < |w.heard| && id != w.mux.elems[0].id :: w'.heard[id] == w.heard[id]
    ensures GoodEntry(w', e)
    ensures e.Completed? ==> e.id < w.mux.elems[0].id
    ensures e.Cancelled? ==> e.id != w.mux.elems[0].id
  {
    hide Accepts, GoodElem;
    if w'.mux.elems == w.mux.elems[1..] {
      assert forall i | 0 <= i < |w'.mux.elems| :: w'.mux.elems[i] == w.mux.elems[i + 1];
    }
  }

  lemma {:induction false} ReadHistory(w: World, m: BackendMessage)
    requires Requests(w) && Shape(w) && Service(w) && Hearing(w) && History(w) && Marked(w)
    requires w.mux.stream.Reading? && Honest(w, m) && InText(m.kind)
    ensures History(DoMessage(w, m))
  {
    FrontHears(w, m);
    ReadFacts(w, m);
    ReadLeavesPending(w);
    ReadNewEntries(w, m);
    hide Hear, Run, Resume, Accepts, IsReply, Continues, Counted, ExpectedReady, Awaiting, RoutedTo, GoodPledge,
      GoodEntry, HandledAll, Chronicle, Listening;
    var w' := DoMessage(w, m);
    var effects := OnMessage(w.mux, m).effects;
    forall k | 0 <= k < |w.log|
      ensures GoodEntry(w', w.log[k])
      ensures forall j | 0 <= j < |effects| :: InOrder(w.log[k], effects[j])
    {
      OldEntry(w, w', w.log[k]);
    }
    HistoryGrows(w, w', effects);
  }

  lemma {:induction false} ReadNewEntries(w: World, m: BackendMessage)
    requires Requests(w) && Shape(w) && Service(w) && Hearing(w) && History(w) && Marked(w)
    requires w.mux.stream.Reading? && Honest(w, m) && InText(m.kind)
    ensures var effects := OnMessage(w.mux, m).effects;
      && Chronicle(effects)
      && forall j | 0 <= j < |effects| ::
           && GoodEntry(DoMessage(w, m), effects[j])
           && effects[j].id == w.mux.elems[0].id && !effects[j].Wrote? && !effects[j].Cancelled?
  {
    ReadOutcome(w, m);
    hide Run, Resume, IsReply, Continues, Counted, ExpectedReady, RoutedTo, GoodPledge, OnMessage, Paid, Hear, GoodEntry,
      Listening, History, HandledAll, Owed;
    var effects := OnMessage(w.mux, m).effects;
    forall j | 0 <= j < |effects| && effects[j].Handled? ensures GoodEntry(DoMessage(w, m), effects[j]) {
      HandledEntry(DoMessage(w, m), effects[j]);
    }
    if effects != [] && effects[|effects| - 1].Completed? {
      ReadCompletion(w, m);
    }
  }

  lemma {:induction false} HandledEntry(w: World, e: Effect)
    requires e.Handled? && e.id < |w.requests| && e.id < |w.heard|
    ensures GoodEntry(w, e)
  {
    hide GoodCompletion;
  }

  /** The completion that ends a reply: the whole reply was heard, and no older request waits. */
  lemma {:induction false} ReadCompletion(w: World, m: BackendMessage)
    requires Requests(w) && Shape(w) && Service(w) && Hearing(w) && History(w) && Marked(w)
    requires w.mux.stream.Reading? && Honest(w, m) && InText(m.kind)
    requires IsReply(w.requests[w.owed[0].id].messages, true, w.owed[0].sent + [m])
    ensures GoodEntry(DoMessage(w, m), Completed(w.owed[0].id, None))
  {
    FrontHears(w, m);
    ReadFacts(w, m);
    ReadOutcome(w, m);
    hide Hear, History, Run, Resume, Accepts, IsReply, Continues, Counted, ExpectedReady, Awaiting, RoutedTo, GoodPledge, OnMessage, Paid;
    assert forall i | 0 <= i < |w.mux.elems[1..]| :: w.mux.elems[1..][i] == w.mux.elems[i + 1];
  }

  lemma {:induction false} ReadKeeps(w: World, m: BackendMessage)
    requires Inv(w) && w.mux.stream.Reading? && Honest(w, m) && !IsAsync(m.kind)
    ensures Inv(DoMessage(w, m))
  {
    ReadIsInText(w, m);
    hide History, Queue, Counted, Owed, Listening, RoutedTo, OnMessage, Paid, Hear, Honest, ExpectedReady, Run;
    ReadShape(w, m);
    ReadService(w, m);
    ReadHearing(w, m);
    ReadHistory(w, m);
    ReadMarked(w, m);
  }

  lemma {:induction false} ReadMarked(w: World, m: BackendMessage)
    requires Marked(w) && !w.mux.stream.Initial? && w.mux.elems != [] && Honest(w, m) && !IsAsync(m.kind)
    ensures Marked(DoMessage(w, m))
  {
    hide Resume, Honest, Paid, Hear, HandledAll;
    assert forall i | 0 <= i < |w.mux.elems[1..]| :: w.mux.elems[1..][i] == w.mux.elems[i + 1];
  }

  // While the rest of a reply is discarded.

  lemma {:induction false} IgnoreFacts(w: World, m: BackendMessage)
    requires Requests(w) && Service(w) && w.mux.stream.Ignoring? && Honest(w, m) && !IsAsync(m.kind)
    ensures var p := w.owed[0]; var req := w.requests[p.id]; var r := w.mux.stream.remaining;
      if IsReply(req.messages, true, p.sent + [m]) then r == 1 && m.kind == ReadyForQuery
      else
        && Run(Full(req), p.sent + [m]).verdict == Read
        && (m.kind == ReadyForQuery ==> r > 1)
        && r - (if m.kind == ReadyForQuery then 1 else 0) + CountReady(p.sent + [m]) == ExpectedReady(req.messages)
  {
    hide Run, Resume, Accepts, IsReply, Continues, Awaiting, ExpectedReady, CountReady;
    var p := w.owed[0];
    assert GoodPledge(p, w.requests) && Accepted(w.requests[p.id].messages);
    ReplyStep(w.requests[p.id], p.sent, m);
    CountReadyAppend(p.sent, m);
  }

  lemma {:induction false} IgnoreShape(w: World, m: BackendMessage)
    requires Requests(w) && Shape(w) && Service(w) && w.mux.stream.Ignoring? && Honest(w, m) && !IsAsync(m.kind)
    ensures Shape(DoMessage(w, m))
  {
    hide Run, IsReply, Continues, Owed, ExpectedReady, Paid, Hear, CountReady, OnMessage, Service, GoodElem, Requests, Honest;
    IgnoreOutcome(w, m);
    assert forall i | 0 <= i < |w.mux.elems[1..]| :: w.mux.elems[1..][i] == w.mux.elems[i + 1];
  }

  lemma {:induction false} IgnoreService(w: World, m: BackendMessage)
    requires Requests(w) && Shape(w) && Service(w) && w.mux.stream.Ignoring? && Honest(w, m) && !IsAsync(m.kind)
    ensures Service(DoMessage(w, m))
  {
    hide Run, IsReply, Continues, Counted, ExpectedReady, Hear, CountReady, Queue, Paid, GoodPledge;
    IgnoreShape(w, m);
    IgnoreFacts(w, m);
    PaidGood(w, m);
    PaidHead(w, m);
  }

  lemma {:induction false} IgnoreRest(w: World, m: BackendMessage)
    requires Requests(w) && Shape(w) && Service(w) && Hearing(w) && History(w) && Marked(w)
    requires w.mux.stream.Ignoring? && Honest(w, m) && !IsAsync(m.kind)
    ensures Hearing(DoMessage(w, m)) && History(DoMessage(w, m))
  {
    FrontHears(w, m);
    IgnoreOutcome(w, m);
    hide Hear, Run, IsReply, Continues, Counted, ExpectedReady, CallsOf, GoodPledge, CountReady, Accepts, Owed, Marked,
      OnMessage, Paid, Honest, GoodEntry, Listening;
    var w' := DoMessage(w, m);
    assert w'.log == w.log;
    forall id | 0 <= id < |w.requests| ensures RoutedTo(w', id) {
      assert RoutedTo(w, id);
    }
    forall k | 0 <= k < |w.log| ensures GoodEntry(w', w.log[k]) {
      IgnoredEntry(w, w', w.log[k]);
    }
    IgnoreListening(w, w');
  }

  /** A message that is discarded changes the queue at most by removing its front. */
  lemma {:induction false} IgnoreOutcome(w: World, m: BackendMessage)
    requires Shape(w) && Service(w) && w.mux.stream.Ignoring? && !IsAsync(m.kind)
    ensures var o := OnMessage(w.mux, m);
      && o.effects == [] && o.mux.numPending == w.mux.numPending < |w.mux.elems|
      && ((o.mux.elems == w.mux.elems && o.mux.stream.Ignoring?) || (o.mux.elems == w.mux.elems[1..] && o.mux.stream.Initial?))
  {
    ReadLeavesPending(w);
    hide Queue, Owed, GoodPledge, ExpectedReady, CountReady, Counted, Run, Resume, Start, ReadOne;
  }

  lemma {:induction false} IgnoredEntry(w: World, w': World, e: Effect)
    requires GoodEntry(w, e) && w'.requests == w.requests && w'.heard == w.heard
    requires w'.mux.numPending == w.mux.numPending < |w.mux.elems|
    requires w'.mux.elems == w.mux.elems || w'.mux.elems == w.mux.elems[1..]
    ensures GoodEntry(w', e)
  {
    hide Accepts;
    if w'.mux.elems == w.mux.elems[1..] {
      assert forall i | 0 <= i < |w'.mux.elems| :: w'.mux.elems[i] == w.mux.elems[i + 1];
    }
  }

  lemma {:induction false} IgnoreListening(w: World, w': World)
    requires Listening(w) && w.mux.stream.Ignoring? && w'.heard == w.heard && !w'.mux.stream.Reading?
    requires w'.mux.elems == w.mux.elems || (w.mux.elems != [] && w'.mux.elems == w.mux.elems[1..])
    ensures Listening(w')
  {
    if w'.mux.elems != w.mux.elems {
      assert forall i | 0 <= i < |w'.mux.elems| :: w'.mux.elems[i] == w.mux.elems[i + 1];
    }
  }

  lemma {:induction false} IgnoreKeeps(w: World, m: BackendMessage)
    requires Inv(w) && w.mux.stream.Ignoring? && Honest(w, m) && !IsAsync(m.kind)
    ensures Inv(DoMessage(w, m))
  {
    hide History, Queue, Counted, Owed, Listening, RoutedTo, OnMessage, Paid, Hear, Honest, ExpectedReady, Run;
    IgnoreShape(w, m);
    IgnoreService(w, m);
    IgnoreRest(w, m);
    ReadMarked(w, m);
  }

  lemma {:induction false} MessageKeeps(w: World, m: BackendMessage)
    requires Inv(w) && Honest(w, m)
    ensures Inv(DoMessage(w, m))
  {
    hide Inv, DoMessage, Begin;
    if IsAsync(m.kind) {
      AsyncKeeps(w, m);
    } else {
      var w1 := w;
      if w.mux.stream.Initial? {
        BeginKeeps(w);
        InvQueue(w);
        BeginSame(w, m);
        w1 := w.(mux := Begin(w.mux));
      }
      if w1.mux.stream.Reading? {
        ReadKeeps(w1, m);
      } else {
        IgnoreKeeps(w1, m);
      }
    }
  }

  lemma {:induction false} InvQueue(w: World)
    requires Inv(w)
    ensures Queue(w.mux, w.requests) && Owed(w)
  {
    hide Queue, Owed, Counted, InStep, Hearing, History, Marked;
  }

  lemma {:induction false} InvIsRunnable(w: World)
    requires Inv(w)
    ensures Runnable(w)
  {
    hide Shape, Service, Hearing, History, Marked, Requests;
    InvRunnable(w);
  }

  lemma {:induction false} AsyncKeeps(w: World, m: BackendMessage)
    requires Inv(w) && IsAsync(m.kind)
    ensures Inv(DoMessage(w, m)) && DoMessage(w, m) == w
  {
    assert w.log + [] == w.log;
    assert DoMessage(w, m) == w;
  }

  /** Every event keeps the invariant, and no operation is ever used where it is undefined. */
  lemma {:induction false} NextKeeps(w: World, e: Event)
    requires Inv(w) && Enabled(w, e)
    ensures Runnable(w) && Inv(Next(w, e))
  {
    hide DoSubmit, DoCancel, DoWrite, DoMessage, DoLost, Shape, Service, Hearing, History, Marked;
    InvRunnable(w);
    match e {
      case Submit(req) => SubmitKeeps(w, req);
      case CancelAt(i) => CancelKeeps(w, i);
      case Write => WriteKeeps(w);
      case Message(m) => MessageKeeps(w, m);
      case ConnectionLost => LostKeeps(w);
    }
  }

  lemma {:induction false} RunKeeps(w: World, es: seq<Event>)
    requires Inv(w) && ValidRun(w, es)
    ensures Inv(After(w, es))
    decreases |es|
  {
    hide Inv, Next, Enabled;
    if es != [] {
      NextKeeps(w, es[0]);
      RunKeeps(Next(w, es[0]), es[1..]);
    }
  }

  lemma {:induction false} EmptyInv()
    ensures Inv(Empty)
  {
  }

  // ----- what holds of every run

  /** Demultiplexing: at every point of every run, the callbacks made on the handler of a
      request are exactly those of its own machine on the messages of its own reply that the
      server sent before the request was cancelled. */
  lemma {:induction false} EveryHandlerSeesItsReply(es: seq<Event>)
    requires ValidRun(Empty, es)
    ensures var w := After(Empty, es);
      |w.heard| == |w.requests| &&
      forall id | 0 <= id < |w.requests| ::
        CallsOf(w.log, id) == Run(Fresh(w.requests[id]), w.heard[id]).calls
  {
    hide ValidRun, After, CallsOf, Run, Shape, Service, History, Marked, Requests, Listening;
    EmptyInv();
    RunKeeps(Empty, es);
    var w := After(Empty, es);
    forall id | 0 <= id < |w.requests|
      ensures CallsOf(w.log, id) == Run(Fresh(w.requests[id]), w.heard[id]).calls
    {
      assert RoutedTo(w, id);
    }
  }

  /** And these are the callbacks of the script of that part of the reply. */
  lemma {:induction false} EveryHandlerHearsTheScript(es: seq<Event>)
    requires ValidRun(Empty, es)
    ensures var w := After(Empty, es);
      |w.heard| == |w.requests| &&
      forall id | 0 <= id < |w.requests| :: CallsOf(w.log, id) == S.Script(w.requests[id].messages, w.heard[id])
  {
    hide ValidRun, After, CallsOf, Run, Shape, Service, History, Marked, Listening, S.Script, S.Place, Accepted;
    EmptyInv();
    RunKeeps(Empty, es);
    var w := After(Empty, es);
    forall id | 0 <= id < |w.requests|
      ensures CallsOf(w.log, id) == S.Script(w.requests[id].messages, w.heard[id])
    {
      assert RoutedTo(w, id) && Accepted(w.requests[id].messages);
      S.CallbacksAreTheScript(w.requests[id].messages, false, w.heard[id]);
    }
  }

  /** One message of the server: nothing faults, no protocol error is reported, and the effects
      are on the request the reply is for. A cancelled request sees nothing; another one gets
      the callbacks of its machine, and its completion with the last message of the reply. */
  lemma {:induction false} EveryMessageIsRouted(es: seq<Event>, m: BackendMessage)
    requires ValidRun(Empty, es) && Honest(After(Empty, es), m) && !IsAsync(m.kind)
    ensures var w := After(Empty, es); var o := OnMessage(w.mux, m);
      && w.owed != [] && w.owed[0].id < |w.requests|
      && !o.fault && o.error == None
      && var id := w.owed[0].id; var req := w.requests[id]; var sent := w.owed[0].sent;
         o.effects ==
           if Cancelled(id) in w.log then []
           else HandledAll(id, Resume(Run(Fresh(req), sent).fsm, m).calls) +
                if IsReply(req.messages, true, sent + [m]) then [Completed(id, None)] else []
  {
    hide ValidRun, After, Inv;
    EmptyInv();
    RunKeeps(Empty, es);
    var w := After(Empty, es);
    var w1 := w;
    if w.mux.stream.Initial? {
      BeginKeeps(w);
      InvQueue(w);
      BeginSameOutcome(w, m);
      w1 := w.(mux := Begin(w.mux));
    }
    RoutedMessage(w1, m);
  }

  lemma {:induction false} BeginSameOutcome(w: World, m: BackendMessage)
    requires Queue(w.mux, w.requests) && Owed(w) && w.owed != [] && w.mux.stream.Initial? && !IsAsync(m.kind)
    ensures DropAbandoned(w.mux.elems) != [] && !Begin(w.mux).stream.Initial?
    ensures OnMessage(Begin(w.mux), m) == OnMessage(w.mux, m)
  {
    hide Queue, Owed, DropAbandoned, ReadOne, IgnoreOne;
    FrontIsOwed(w);
    FrontIsLive(w);
  }

  lemma {:induction false} RoutedMessage(w: World, m: BackendMessage)
    requires Inv(w) && !w.mux.stream.Initial? && Honest(w, m) && !IsAsync(m.kind)
    ensures var o := OnMessage(w.mux, m);
      && w.owed != [] && w.owed[0].id < |w.requests|
      && !o.fault && o.error == None
      && var id := w.owed[0].id; var req := w.requests[id]; var sent := w.owed[0].sent;
         o.effects ==
           if Cancelled(id) in w.log then []
           else HandledAll(id, Resume(Run(Fresh(req), sent).fsm, m).calls) +
                if IsReply(req.messages, true, sent + [m]) then [Completed(id, None)] else []
  {
    if w.mux.stream.Reading? {
      ReadIsInText(w, m);
      ReadFacts(w, m);
    } else {
      IgnoreFacts(w, m);
    }
    FrontCancelled(w);
    hide Run, Resume, IsReply, Continues, Counted, ExpectedReady, Awaiting, GoodPledge, History, Hearing, Marked, Requests,
      CountReady, Accepts;
  }

  lemma {:induction false} FrontCancelled(w: World)
    requires Inv(w) && !w.mux.stream.Initial?
    ensures w.owed != [] && w.mux.elems != [] && w.mux.elems[0].id == w.owed[0].id
    ensures Cancelled(w.owed[0].id) in w.log <==> w.mux.stream.Ignoring?
  {
    hide Run, Accepts, CallsOf, Counted, ExpectedReady, Awaiting, GoodPledge, CountReady, RoutedTo, Listening;
    assert GoodElem(w.mux.elems[0], w.requests);
  }

  /** Completion and write order, across reconnections: completions come in the order of
      submission, so no request completes twice, and so do writes; after its cancellation
      nothing more happens to a request, so a request cancelled while pending is never written
      and a cancelled one never completes; a completion reports success only once the whole
      reply was heard, and otherwise that the connection was lost. */
  lemma {:induction false} EveryRunIsOrdered(es: seq<Event>)
    requires ValidRun(Empty, es)
    ensures var w := After(Empty, es);
      && |w.heard| == |w.requests|
      && (forall i, j | 0 <= i < j < |w.log| ::
            && (w.log[i].Completed? && w.log[j].Completed? ==> w.log[i].id < w.log[j].id)
            && (w.log[i].Wrote? && w.log[j].Wrote? ==> w.log[i].id < w.log[j].id)
            && (w.log[i].Cancelled? ==> w.log[i].id != w.log[j].id))
      && (forall i | 0 <= i < |w.log| && w.log[i].Completed? ::
            && w.log[i].id < |w.requests|
            && (w.log[i].error == None ==> IsReply(w.requests[w.log[i].id].messages, false, w.heard[w.log[i].id]))
            && (w.log[i].error != None ==> w.log[i].error == Some(OperationCanceled)))
  {
    hide ValidRun, After, CallsOf, Run, Accepts, IsReply, Shape, Service, Marked, Listening, RoutedTo;
    EmptyInv();
    RunKeeps(Empty, es);
    var w := After(Empty, es);
    forall i | 0 <= i < |w.log| && w.log[i].Completed? && w.log[i].error == None
      ensures w.log[i].id < |w.requests| && IsReply(w.requests[w.log[i].id].messages, false, w.heard[w.log[i].id])
    {
      assert GoodEntry(w, w.log[i]);
      LanguageEquivalence(w.requests[w.log[i].id].messages, false, w.heard[w.log[i].id]);
    }
    assert forall i | 0 <= i < |w.log| :: GoodEntry(w, w.log[i]);
    assert forall i, j | 0 <= i < j < |w.log| :: InOrder(w.log[i], w.log[j]);
  }

  /** The queue in every run: written elements first, then exactly num_pending_ elements that
      were not; cleanup completes exactly the written ones that were not cancelled and keeps
      the others. */
  lemma {:induction false} EveryQueueIsSplit(es: seq<Event>)
    requires ValidRun(Empty, es)
    ensures var x := After(Empty, es).mux;
      && x.numPending <= |x.elems|
      && (forall i | 0 <= i < PendingOffset(x) :: x.elems[i].status != Pending)
      && (forall i | PendingOffset(x) <= i < |x.elems| ::
            x.elems[i].status == Pending || x.elems[i].status == AbandonedPending)
      && Cleanup(x).mux.elems == x.elems[PendingOffset(x)..]
      && (forall id :: Completed(id, Some(OperationCanceled)) in Cleanup(x).effects <==>
            exists i :: 0 <= i < PendingOffset(x) && x.elems[i].id == id && x.elems[i].status == InFlight)
  {
    hide ValidRun, After, CallsOf, Run, Service, History, Hearing, Marked, Counted, Cancellations;
    EmptyInv();
    RunKeeps(Empty, es);
    var w := After(Empty, es);
    var x := w.mux;
    var off := PendingOffset(x);
    forall id: nat
      ensures Completed(id, Some(OperationCanceled)) in Cancellations(x.elems[..off]) <==>
        exists i :: 0 <= i < off && x.elems[i].id == id && x.elems[i].status == InFlight
    {
      FailuresExactly(x.elems[..off], id);
      assert forall i | 0 <= i < off :: x.elems[..off][i] == x.elems[i] && GoodElem(x.elems[i], w.requests);
    }
  }

  lemma {:induction false} FailuresExactly(es: seq<Elem>, id: nat)
    ensures Completed(id, Some(OperationCanceled)) in Cancellations(es) <==>
      exists i :: 0 <= i < |es| && es[i].id == id && es[i].req.Some?
    decreases |es|
  {
    if es != [] {
      FailuresExactly(es[1..], id);
      assert forall i | 0 <= i < |es[1..]| :: es[1..][i] == es[i + 1];
      assert forall i | 0 < i < |es| :: es[i] == es[1..][i - 1];
    }
  }

  /** The bytes of the requests that the log says were written. */
  function Wire(log: seq<Effect>, requests: seq<Request>): seq<Byte> {
    if log == [] then []
    else (if log[0].Wrote? && log[0].id < |requests| then requests[log[0].id].payload else []) + Wire(log[1..], requests)
  }

  lemma {:induction false} WireHead(e: Effect, log: seq<Effect>, requests: seq<Request>)
    requires e.Wrote? && e.id < |requests|
    ensures Wire([e] + log, requests) == requests[e.id].payload + Wire(log, requests)
  {
    assert ([e] + log)[1..] == log;
  }

  lemma {:induction false} PayloadsHead(es: seq<Elem>)
    requires es != []
    ensures Payloads(es) == (if es[0].status == Pending && es[0].req.Some? then es[0].req.value.payload else []) + Payloads(es[1..])
    ensures Writes(es) == (if es[0].status == Pending then [Wrote(es[0].id)] else []) + Writes(es[1..])
  {
  }

  lemma {:induction false} PayloadsAreTheWire(es: seq<Elem>, requests: seq<Request>)
    requires forall i | 0 <= i < |es| :: GoodElem(es[i], requests)
    ensures Payloads(es) == Wire(Writes(es), requests)
    decreases |es|
  {
    if es != [] {
      hide Payloads, Wire, Writes;
      PayloadsAreTheWire(es[1..], requests);
      PayloadsHead(es);
      assert GoodElem(es[0], requests);
      if es[0].status == Pending {
        WireHead(Wrote(es[0].id), Writes(es[1..]), requests);
      } else {
        assert [] + Writes(es[1..]) == Writes(es[1..]);
        assert [] + Payloads(es[1..]) == Payloads(es[1..]);
      }
    }
  }

  /** In every run: what a write puts on the connection is the payload of each request that it
      marks as written, unaltered and in order; with the order of the log, each payload goes
      out at most once, in the order of submission, and never if cancelled while pending. */
  lemma {:induction false} EveryWriteIsThePayloads(es: seq<Event>)
    requires ValidRun(Empty, es)
    ensures var w := After(Empty, es); var x := w.mux;
      && x.numPending <= |x.elems|
      && Payloads(x.elems[PendingOffset(x)..]) == Wire(PrepareWrite(x).effects, w.requests)
  {
    hide ValidRun, After, CallsOf, Run, Service, History, Hearing, Marked, Counted, Payloads, Wire, Writes, MarkWritten;
    EmptyInv();
    RunKeeps(Empty, es);
    var w := After(Empty, es);
    var x := w.mux;
    var pending := x.elems[PendingOffset(x)..];
    forall i | 0 <= i < |pending| ensures GoodElem(pending[i], w.requests) {
      assert pending[i] == x.elems[PendingOffset(x) + i];
    }
    PayloadsAreTheWire(pending, w.requests);
  }

  /** In every run, on a message of an honest server: what the in-place queue requires of its
      state and of the message holds, and none of its assertions fails. */
  lemma {:induction false} EveryRunIsServed(es: seq<Event>, m: BackendMessage)
    requires ValidRun(Empty, es) && Honest(After(Empty, es), m)
    ensures var x := After(Empty, es).mux;
      && Elems(x.elems, x.numPending)
      && (x.stream.Reading? ==> Consistent(x.stream.fsm) && !x.stream.fsm.allowCopy)
      && (!x.stream.Initial? ==> x.numPending < |x.elems|)
      && (x.stream.Initial? && !IsAsync(m.kind) ==> x.numPending < |DropAbandoned(x.elems)|)
      && !OnMessage(x, m).fault
  {
    EmptyInv();
    RunKeeps(Empty, es);
    if !IsAsync(m.kind) {
      EveryMessageIsRouted(es, m);
    }
    var w := After(Empty, es);
    hide ValidRun, After, Inv, OnMessage, DropAbandoned, Continues;
    InvQueue(w);
    if w.mux.stream.Initial? && !IsAsync(m.kind) {
      FrontIsOwed(w);
    }
    ServedQueue(w);
    ServedStream(w);
  }

  lemma {:induction false} ServedQueue(w: World)
    requires Requests(w) && Queue(w.mux, w.requests)
    ensures Elems(w.mux.elems, w.mux.numPending)
  {
    forall i | 0 <= i < |w.mux.elems|
      ensures w.mux.elems[i].status == Pending ==> w.mux.elems[i].req.Some?
      ensures w.mux.elems[i].req.Some? ==> Accepted(w.mux.elems[i].req.value.messages)
    {
      assert GoodElem(w.mux.elems[i], w.requests);
    }
  }

  lemma {:induction false} ServedStream(w: World)
    requires Requests(w) && Service(w)
    ensures var x := w.mux;
      && (x.stream.Reading? ==> Consistent(x.stream.fsm) && !x.stream.fsm.allowCopy)
      && (!x.stream.Initial? ==> x.numPending < |x.elems|)
  {
    hide Run, Consistent, ExpectedReady, CountReady, Owed, GoodElem;
    if !w.mux.stream.Initial? {
      ReadLeavesPending(w);
    }
    if w.mux.stream.Reading? {
      var p := w.owed[0];
      assert Accepted(w.requests[p.id].messages);
      InitConsistent(w.requests[p.id].messages, false);
      RunCopyOff(Full(w.requests[p.id]), p.sent);
      RunGood(Fresh(w.requests[p.id]), p.sent);
    }
  }

  // ----- such runs exist

  /** A request of a single sync, as the ping of a pooled connection. */
  function Ping(payload: seq<Byte>): Request {
    Request([Sync], payload)
  }

  lemma {:induction false} PingReply(payload: seq<Byte>, ready: BackendMessage)
    requires ready.kind == ReadyForQuery
    ensures Accepted([Sync]) && IsReply([Sync], true, [ready]) && Continues(Ping(payload), [] + [ready])
    ensures Resume(Init([Sync], false), ready) == Step(Fsm([Sync], false, 1, MsgFirst), Done(None), [])
  {
    hide IsReply;
    assert [Sync][1..] == [];
    assert SkipFlush([Sync], 0) == 0;
    LanguageEquivalence([Sync], true, [ready]);
    assert [ready][1..] == [];
    assert [] + [ready] == [ready] && [ready] + [] == [ready];
  }

  /** After a ping was submitted and written. */
  lemma {:induction false} PingWritten(payload: seq<Byte>)
    ensures Enabled(Empty, Submit(Ping(payload))) && Runnable(Empty)
    ensures var w1 := Next(Empty, Submit(Ping(payload))); var e := Elem(0, Some(Ping(payload)), InFlight, 0);
      && Runnable(w1) && Enabled(w1, Write)
      && Next(w1, Write) == World(Mux([e], 0, Initial), [Ping(payload)], [Pledge(0, [])], [[]], [Wrote(0)])
  {
    assert [Sync][1..] == [];
    var e := Elem(0, Some(Ping(payload)), Pending, 0);
    var w1 := Next(Empty, Submit(Ping(payload)));
    assert w1.mux == Mux([e], 1, Initial) && w1.requests == [Ping(payload)] && w1.heard == [[]];
    assert [e][0..] == [e] && [e][1..] == [] && [e][..0] == [];
    assert PendingIds([]) == [] && Writes([]) == [];
    assert PendingIds([e]) == [0] && Writes([e]) == [Wrote(0)] + [];
    assert MarkWritten([e]) == [e.(status := InFlight)];
    assert Pledges([0]) == [Pledge(0, [])];
  }

  /** The definitions are not empty: a ping that is submitted, written and answered completes;
      one that is cancelled in between does not, and the queue is empty again. */
  lemma {:induction false} PingRuns(payload: seq<Byte>, ready: BackendMessage)
    requires ready.kind == ReadyForQuery
    ensures var es := [Submit(Ping(payload)), Write, Message(ready)];
      ValidRun(Empty, es) && After(Empty, es).log == [Wrote(0), Completed(0, None)] && After(Empty, es).mux.elems == []
    ensures var es := [Submit(Ping(payload)), Write, CancelAt(0), Message(ready)];
      ValidRun(Empty, es) && After(Empty, es).log == [Wrote(0), Cancelled(0)] && After(Empty, es).mux.elems == []
  {
    hide Resume, IsReply, Continues, Accepted, DoSubmit, DoWrite, DoMessage, DoCancel, DoLost;
    PingReply(payload, ready);
    PingWritten(payload);
    var w1 := Next(Empty, Submit(Ping(payload)));
    var w2 := Next(w1, Write);
    PingAnswered(payload, ready, w2);
    PingCancelled(payload, ready, w2);
    var es := [Message(ready)];
    OneEvent(w2, Message(ready));
    var w3 := Next(w2, CancelAt(0));
    OneEvent(w3, Message(ready));
    Prepend(w2, CancelAt(0), es);
    Prepend(w1, Write, es);
    Prepend(Empty, Submit(Ping(payload)), [Write] + es);
    Prepend(w1, Write, [CancelAt(0)] + es);
    Prepend(Empty, Submit(Ping(payload)), [Write] + ([CancelAt(0)] + es));
    assert [Submit(Ping(payload))] + ([Write] + es) == [Submit(Ping(payload)), Write, Message(ready)];
    assert [Submit(Ping(payload))] + ([Write] + ([CancelAt(0)] + es)) == [Submit(Ping(payload)), Write, CancelAt(0), Message(ready)];
  }

  lemma {:induction false} OneEvent(w: World, e: Event)
    requires Enabled(w, e)
    ensures ValidRun(w, [e]) && After(w, [e]) == Next(w, e)
  {
    hide Next, Enabled;
    assert [e][1..] == [];
  }

  lemma {:induction false} Prepend(w: World, e: Event, es: seq<Event>)
    requires Enabled(w, e) && ValidRun(Next(w, e), es)
    ensures ValidRun(w, [e] + es) && After(w, [e] + es) == After(Next(w, e), es)
  {
    hide Next, Enabled;
    assert ([e] + es)[1..] == es;
  }

  lemma {:induction false} PingAnswered(payload: seq<Byte>, ready: BackendMessage, w: World)
    requires ready.kind == ReadyForQuery
    requires w == World(Mux([Elem(0, Some(Ping(payload)), InFlight, 0)], 0, Initial), [Ping(payload)], [Pledge(0, [])], [[]], [Wrote(0)])
    ensures Enabled(w, Message(ready))
    ensures var w' := Next(w, Message(ready)); w'.log == [Wrote(0), Completed(0, None)] && w'.mux.elems == []
  {
    hide IsReply, Continues, Resume, OnMessage, Paid, Hear;
    PingReply(payload, ready);
    PingOutcome(payload, ready, w.mux);
    assert [Wrote(0)] + [Completed(0, None)] == [Wrote(0), Completed(0, None)];
  }

  /** The queue on the answer to a ping. */
  lemma {:induction false} PingOutcome(payload: seq<Byte>, ready: BackendMessage, x: Mux)
    requires ready.kind == ReadyForQuery && x == Mux([Elem(0, Some(Ping(payload)), InFlight, 0)], 0, Initial)
    ensures OnMessage(x, ready) == Outcome(Mux([], 0, Initial), None, [Completed(0, None)], false)
  {
    hide IsReply, Continues, Resume;
    PingReply(payload, ready);
    assert FirstWritten(x.elems, 0) == 0;
    assert x.elems[0..] == x.elems && x.elems[1..] == [];
    assert HandledAll(0, []) + [Completed(0, None)] == [Completed(0, None)];
  }

  lemma {:induction false} PingCancelled(payload: seq<Byte>, ready: BackendMessage, w: World)
    requires ready.kind == ReadyForQuery
    requires w == World(Mux([Elem(0, Some(Ping(payload)), InFlight, 0)], 0, Initial), [Ping(payload)], [Pledge(0, [])], [[]], [Wrote(0)])
    ensures Enabled(w, CancelAt(0))
    ensures var w' := Next(w, CancelAt(0));
      && Enabled(w', Message(ready))
      && var w'' := Next(w', Message(ready)); w''.log == [Wrote(0), Cancelled(0)] && w''.mux.elems == []
  {
    hide IsReply, Continues, Resume;
    PingReply(payload, ready);
    assert [Sync][1..] == [];
    var w' := Next(w, CancelAt(0));
    assert w'.mux.elems == [Elem(0, None, AbandonedInFlight, 1)];
    assert w'.mux.elems[0].numReady == 1;
    assert DropAbandoned(w'.mux.elems) == w'.mux.elems by {
      assert FirstWritten(w'.mux.elems, 0) == 0;
    }
  }

  // ----- any message, from any server

  /** A message is handled safely: no assertion fails, and the pending requests are still in
      the queue. */
  predicate Safe(o: Outcome) {
    !o.fault && o.mux.numPending <= |o.mux.elems|
  }

  /** In every run, for every message, honest or not: it is handled safely if and only if it is
      asynchronous, some written request waits for a reply, or nothing is pending. */
  lemma {:induction false} UnsolicitedMessage(es: seq<Event>, m: BackendMessage)
    requires ValidRun(Empty, es)
    ensures var x := After(Empty, es).mux;
      Safe(OnMessage(x, m)) <==> IsAsync(m.kind) || Awaiting(x.elems) != [] || x.numPending == 0
  {
    hide ValidRun, After, Inv, OnMessage, Awaiting;
    EmptyInv();
    RunKeeps(Empty, es);
    var w := After(Empty, es);
    InvQueue(w);
    if IsAsync(m.kind) {
      AsyncIsSafe(w, m);
    } else if w.owed == [] {
      UnawaitedExactly(w, m);
    } else {
      assert Ids(w.owed)[0] == w.owed[0].id;
      var w1 := w;
      if w.mux.stream.Initial? {
        BeginKeeps(w);
        BeginSameOutcome(w, m);
        w1 := w.(mux := Begin(w.mux));
      }
      AwaitedIsSafe(w1, m);
    }
  }

  lemma {:induction false} AsyncIsSafe(w: World, m: BackendMessage)
    requires Queue(w.mux, w.requests) && IsAsync(m.kind)
    ensures Safe(OnMessage(w.mux, m))
  {
    hide Start, ReadOne, IgnoreOne;
  }

  /** While a reply is in progress every message is safe. */
  lemma {:induction false} AwaitedIsSafe(w: World, m: BackendMessage)
    requires Inv(w) && !w.mux.stream.Initial? && !IsAsync(m.kind)
    ensures Safe(OnMessage(w.mux, m))
  {
    hide Hearing, History, Marked, Counted, Resume, Run, ExpectedReady, Awaiting, GoodElem, CountReady;
    ReadLeavesPending(w);
    if w.mux.stream.Reading? {
      var p := w.owed[0];
      assert Accepted(w.requests[p.id].messages);
      InitConsistent(w.requests[p.id].messages, false);
      RunCopyOff(Full(w.requests[p.id]), p.sent);
      RunGood(Fresh(w.requests[p.id]), p.sent);
      ResumeGood(w.mux.stream.fsm, m);
    }
  }

  /** When nothing waits for a reply, a message is safe exactly if nothing is pending. */
  lemma {:induction false} UnawaitedExactly(w: World, m: BackendMessage)
    requires Inv(w) && w.owed == [] && !IsAsync(m.kind)
    ensures Awaiting(w.mux.elems) == [] && (Safe(OnMessage(w.mux, m)) <==> w.mux.numPending == 0)
  {
    hide Hearing, History, Marked, Counted, Run, ExpectedReady, Awaiting, DropAbandoned, ReadOne, IgnoreOne, GoodElem;
    var x := w.mux;
    var es := DropAbandoned(x.elems);
    DropNoneWait(x.elems, PendingOffset(x));
    NoneWaits(x.elems);
  }

  /** An assertion fails: submit, then any message of a reply before the write. */
  lemma {:induction false} UnsolicitedMessageFailsTheAssertion(req: Request, m: BackendMessage)
    requires m.kind == ErrorResponse
    ensures OnMessage(Add(Empty.mux, 0, req), m).fault
  {
    var x := Add(Empty.mux, 0, req);
    assert FirstWritten(x.elems, 0) == 0;
    assert x.elems[0..] == x.elems;
  }

  /** The part about the count alone: it survives a message exactly unless nothing waits for a
      reply and the oldest pending request was cancelled; then the queue drops that element
      without counting it, and the next cleanup would start before the queue. */
  lemma {:induction false} CountSurvivesExactly(x: Mux, requests: seq<Request>, m: BackendMessage)
    requires Queue(x, requests) && (!x.stream.Initial? ==> x.numPending < |x.elems|)
    ensures var x' := OnMessage(x, m).mux;
      x'.numPending <= |x'.elems| <==>
        !(!IsAsync(m.kind) && x.stream.Initial? && Awaiting(x.elems) == [] && x.numPending > 0 &&
          x.elems[PendingOffset(x)].status == AbandonedPending)
  {
    hide Resume, GoodElem, Queue, DropAbandoned, Awaiting;
    if x.stream.Initial? {
      DropCount(x, requests);
    }
  }

  lemma {:induction false} DropCount(x: Mux, requests: seq<Request>)
    requires Queue(x, requests)
    ensures var es := DropAbandoned(x.elems);
      && (Awaiting(x.elems) == [] ==> es == [] || !Waits(es[0]))
      && (Awaiting(x.elems) != [] ==> x.numPending < |es|)
      && (Awaiting(x.elems) == [] && x.numPending > 0 ==>
            (x.numPending <= |es| <==> x.elems[PendingOffset(x)].status != AbandonedPending))
  {
    hide GoodElem, DropAbandoned, Awaiting;
    if Awaiting(x.elems) == [] {
      DropNoneWait(x.elems, PendingOffset(x));
    } else {
      DropSomeWait(x.elems, PendingOffset(x));
    }
  }

  lemma {:induction false} DropSomeWait(all: seq<Elem>, off: nat)
    requires off <= |all| && Awaiting(all) != []
    requires forall i | off <= i < |all| :: all[i].status == Pending || all[i].status == AbandonedPending
    ensures |all| - off < |DropAbandoned(all)|
  {
    hide Awaiting, DropAbandoned;
    var es := DropAbandoned(all);
    AwaitingDrop(all);
    if |es| <= |all| - off {
      forall i | 0 <= i < |es| ensures es[i].status == Pending || es[i].status == AbandonedPending {
        assert es[i] == all[|all| - |es| + i];
      }
      AwaitingNone(es);
    }
  }

  lemma {:induction false} DropNoneWait(all: seq<Elem>, off: nat)
    requires off <= |all| && Awaiting(all) == []
    requires forall i | 0 <= i < off :: all[i].status != Pending
    ensures DropAbandoned(all) == [] || !Waits(DropAbandoned(all)[0])
    ensures off < |all| ==> (|all| - off <= |DropAbandoned(all)| <==> all[off].status != AbandonedPending)
  {
    hide Awaiting, DropAbandoned;
    var es := DropAbandoned(all);
    NoneWaits(all);
    var d := |all| - |es|;
    assert forall i | 0 <= i < off :: all[i].status == AbandonedPending;
    if es != [] {
      assert es[0] == all[d];
    }
  }

  lemma {:induction false} NoneWaits(es: seq<Elem>)
    requires Awaiting(es) == []
    ensures forall i | 0 <= i < |es| :: !Waits(es[i])
    decreases |es|
  {
    if es != [] {
      NoneWaits(es[1..]);
      assert forall i | 0 < i < |es| :: es[i] == es[1..][i - 1];
    }
  }

  /** The case does occur: submit, cancel before the write, then any message of a reply. */
  lemma {:induction false} UnsolicitedMessageBreaksTheCount(req: Request, m: BackendMessage)
    requires m.kind == ErrorResponse
    ensures var x := OnMessage(Cancel(Add(Empty.mux, 0, req), 0), m).mux;
      x.elems == [] && x.numPending == 1
  {
    var x := Cancel(Add(Empty.mux, 0, req), 0);
    assert x.elems == [Elem(0, None, AbandonedPending, 0)];
    assert x.elems[1..] == [];
  }
}
