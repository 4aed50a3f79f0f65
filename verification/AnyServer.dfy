/** The queue of a shared connection against a server that may send anything
    (src/nativepg_internal/multiplexed_connection/multiplexer.hpp): after every run, what a message
    completes, reports and discards, by the grammar of the replies alone. */
module AnyServer {
  import opened Messages
  import opened CheckRequest
  import opened ResponseFsm
  import G = Grammar
  import opened Verdicts
  import opened Multiplexer
  import opened Demultiplexing

  /** The error of a message that no reply has there. */
  ghost function ErrorOf(req: Request, word: seq<BackendMessage>): ClientError
    requires word != []
  {
    ErrorFor(word[|word| - 1], Extends(req.messages, true, word))
  }

  /** How a request ends with the last message of a word: well if the word is a reply, not yet if
      it can be continued to one, and otherwise with the error. */
  ghost function EndOf(id: nat, req: Request, word: seq<BackendMessage>): seq<Effect>
    requires word != []
  {
    if G.IsReply(req.messages, false, word) then [Completed(id, None)]
    else if Extends(req.messages, false, word) then []
    else [Completed(id, Some(ErrorOf(req, word)))]
  }

  /** What the queue does with the last message of a word of the reply that is read. */
  ghost predicate Judged(o: Outcome, id: nat, req: Request, word: seq<BackendMessage>, calls: seq<Call>, waiting: seq<Elem>)
    requires word != [] && waiting != []
  {
    var goesOn := Extends(req.messages, false, word);
    var done := G.IsReply(req.messages, false, word);
    && !o.fault
    && o.effects == HandledAll(id, calls) + EndOf(id, req, word)
    && (!goesOn ==> calls == [])
    && o.error == (if done || goesOn then None else Some(ErrorOf(req, word)))
    && (if goesOn && !done then o.mux.elems == waiting && o.mux.stream.Reading?
        else o.mux.elems == waiting[1..] && o.mux.stream.Initial?)
  }

  /** The state of a reply that is read, in the invariant. */
  lemma {:induction false} ReadingIs(w: World)
    requires Inv(w) && w.mux.stream.Reading?
    ensures w.owed != [] && w.mux.elems != [] && w.mux.elems[0].id == w.owed[0].id < |w.requests| == |w.heard|
    ensures var id := w.owed[0].id; var req := w.requests[id];
      && Accepted(req.messages) && w.heard[id] == w.owed[0].sent
      && Run(Fresh(req), w.heard[id]).verdict.Read? && w.mux.stream.fsm == Run(Fresh(req), w.heard[id]).fsm
  {
    hide Run, History, Marked, Counted, Awaiting, RoutedTo, Accepted, ExpectedReady, CountReady;
    assert GoodElem(w.mux.elems[0], w.requests);
    RunCopyOff(Full(w.requests[w.owed[0].id]), w.owed[0].sent);
  }

  lemma {:induction false} ReadingJudged(w: World, m: BackendMessage)
    requires Inv(w) && w.mux.stream.Reading? && !IsAsync(m.kind)
    ensures w.owed != [] && w.owed[0].id < |w.requests| == |w.heard| && w.mux.elems != []
    ensures var id := w.owed[0].id; var req := w.requests[id]; var sent := w.heard[id];
      Judged(OnMessage(w.mux, m), id, req, sent + [m], Resume(Run(Fresh(req), sent).fsm, m).calls, w.mux.elems)
  {
    hide Inv, Run, Resume, G.IsReply, Extends, Accepted, Start, IgnoreOne, HandledAll;
    ReadingIs(w);
    var id := w.owed[0].id;
    var req, sent := w.requests[id], w.heard[id];
    VerdictExactly(req.messages, false, sent, m);
    ReplyExtends(req.messages, false, sent + [m]);
    assert (sent + [m])[|sent + [m]| - 1] == m;
    var h := HandledAll(id, Resume(w.mux.stream.fsm, m).calls);
    assert h + [] == h;
  }

  lemma {:induction false} ReplyExtends(ms: seq<RequestMessage>, allowCopy: bool, word: seq<BackendMessage>)
    ensures G.IsReply(ms, allowCopy, word) ==> Extends(ms, allowCopy, word)
  {
    hide G.IsReply;
    assert word + [] == word && NoAsync([]);
  }

  /** After any run, while a request that was not cancelled waits for its reply or is in the
      middle of it, for every message of any server that is not asynchronous: it completes with
      success exactly if what it has heard is now a reply; it goes on exactly if that can be
      continued to one; otherwise it completes with the error, which is also reported, and its
      handler gets nothing. */
  lemma {:induction false} AnyMessageIsJudged(es: seq<Event>, m: BackendMessage)
    requires ValidRun(Empty, es) && !IsAsync(m.kind)
    requires var w := After(Empty, es); w.owed != [] && Cancelled(w.owed[0].id) !in w.log
    ensures var w := After(Empty, es); w.owed[0].id < |w.requests| == |w.heard| && DropAbandoned(w.mux.elems) != []
    ensures var w := After(Empty, es); var id := w.owed[0].id; var req := w.requests[id]; var sent := w.heard[id];
      Judged(OnMessage(w.mux, m), id, req, sent + [m], Resume(Run(Fresh(req), sent).fsm, m).calls,
        if w.mux.stream.Initial? then DropAbandoned(w.mux.elems) else w.mux.elems)
  {
    hide ValidRun, After, Inv, OnMessage, Judged, Run, Resume, DropAbandoned, Begin;
    EmptyInv();
    RunKeeps(Empty, es);
    var w := After(Empty, es);
    InvQueue(w);
    FrontIsOwed(w);
    var w1 := w;
    if w.mux.stream.Initial? {
      BeginKeeps(w);
      BeginSameOutcome(w, m);
      BeginElems(w.mux);
      w1 := w.(mux := Begin(w.mux));
    }
    FrontCancelled(w1);
    ReadingJudged(w1, m);
  }

  lemma {:induction false} BeginElems(x: Mux)
    requires DropAbandoned(x.elems) != []
    ensures Begin(x).elems == DropAbandoned(x.elems)
  {
    hide DropAbandoned;
  }

  /** The same in the terms of a caller: success exactly for a reply, and an error exactly for what
      no reply has, by name. */
  lemma {:induction false} CompletedExactly(es: seq<Event>, m: BackendMessage)
    requires ValidRun(Empty, es) && !IsAsync(m.kind)
    requires var w := After(Empty, es); w.owed != [] && Cancelled(w.owed[0].id) !in w.log
    ensures var w := After(Empty, es); var o := OnMessage(w.mux, m); var id := w.owed[0].id;
      && id < |w.requests| == |w.heard|
      && var ms := w.requests[id].messages; var word := w.heard[id] + [m];
         && (Completed(id, None) in o.effects <==> G.IsReply(ms, false, word))
         && (o.error.Some? <==> !Extends(ms, false, word))
         && (!Extends(ms, false, word) ==> o.effects == [Completed(id, o.error)])
         && (o.error == Some(CopyNotAllowed) <==>
               !Extends(ms, false, word) && m.kind == CopyOutResponse && Extends(ms, true, word))
         && (o.error.Some? && o.error != Some(CopyNotAllowed) ==> o.error == Some(UnexpectedMessage))
  {
    hide ValidRun, After, OnMessage, Run, Resume, DropAbandoned, Extends, G.IsReply, HandledAll;
    AnyMessageIsJudged(es, m);
    var w := After(Empty, es);
    var id := w.owed[0].id;
    var req, sent := w.requests[id], w.heard[id];
    var word := sent + [m];
    ReplyExtends(req.messages, false, word);
    var calls := Resume(Run(Fresh(req), sent).fsm, m).calls;
    var h, e := HandledAll(id, calls), EndOf(id, req, word);
    assert word[|word| - 1] == m;
    HandledOnly(id, calls, e);
    if !Extends(req.messages, false, word) {
      assert h == [] && h + e == e;
    }
  }

  lemma {:induction false} HandledOnly(id: nat, calls: seq<Call>, e: seq<Effect>)
    ensures forall x: Effect :: x.Completed? ==> (x in HandledAll(id, calls) + e <==> x in e)
  {
    var h := HandledAll(id, calls);
    forall x: Effect | x.Completed? ensures x in h + e <==> x in e {
    }
  }

  /** While a cancelled request waits for its reply, or is in the middle of it: nothing happens to
      anybody, whatever the server sends, and the reply is over exactly with the last
      ReadyForQuery that the request expects. */
  lemma {:induction false} AnyMessageIsDiscarded(es: seq<Event>, m: BackendMessage)
    requires ValidRun(Empty, es) && !IsAsync(m.kind)
    requires var w := After(Empty, es); w.owed != [] && Cancelled(w.owed[0].id) in w.log
    ensures var w := After(Empty, es); w.owed[0].id < |w.requests| && DropAbandoned(w.mux.elems) != []
    ensures var w := After(Empty, es); var o := OnMessage(w.mux, m); var p := w.owed[0];
      var waiting := if w.mux.stream.Initial? then DropAbandoned(w.mux.elems) else w.mux.elems;
      && !o.fault && o.error == None && o.effects == []
      && if m.kind == ReadyForQuery && CountReady(p.sent + [m]) == ExpectedReady(w.requests[p.id].messages)
         then waiting != [] && o.mux.elems == waiting[1..] && o.mux.stream.Initial?
         else o.mux.elems == waiting && o.mux.stream.Ignoring?
  {
    hide ValidRun, After, Inv, OnMessage, DropAbandoned, Begin, CountReady, ExpectedReady;
    EmptyInv();
    RunKeeps(Empty, es);
    var w := After(Empty, es);
    InvQueue(w);
    FrontIsOwed(w);
    var w1 := w;
    if w.mux.stream.Initial? {
      BeginKeeps(w);
      BeginSameOutcome(w, m);
      BeginElems(w.mux);
      w1 := w.(mux := Begin(w.mux));
    }
    FrontCancelled(w1);
    DiscardedIs(w1, m);
  }

  lemma {:induction false} DiscardedIs(w: World, m: BackendMessage)
    requires Inv(w) && w.mux.stream.Ignoring? && !IsAsync(m.kind)
    ensures w.owed != [] && w.owed[0].id < |w.requests| && w.mux.elems != []
    ensures var o := OnMessage(w.mux, m); var p := w.owed[0];
      && !o.fault && o.error == None && o.effects == []
      && if m.kind == ReadyForQuery && CountReady(p.sent + [m]) == ExpectedReady(w.requests[p.id].messages)
         then o.mux.elems == w.mux.elems[1..] && o.mux.stream.Initial?
         else o.mux.elems == w.mux.elems && o.mux.stream.Ignoring?
  {
    hide Run, History, Hearing, Marked, Counted, Awaiting, Accepted, ExpectedReady, CountReady, Start, ReadOne, GoodElem;
    CountReadyAppend(w.owed[0].sent, m);
  }

  /** When nothing was written and nothing is pending, a message is an error, and nobody hears
      of it. */
  lemma {:induction false} UnmatchedMessage(es: seq<Event>, m: BackendMessage)
    requires ValidRun(Empty, es) && !IsAsync(m.kind)
    requires var w := After(Empty, es); w.owed == [] && w.mux.numPending == 0
    ensures OnMessage(After(Empty, es).mux, m) == Outcome(Mux([], 0, Initial), Some(UnmatchedRequest), [], false)
  {
    hide ValidRun, After, Run, History, Hearing, Marked, Counted, Awaiting, ExpectedReady, ReadOne, IgnoreOne, DropAbandoned;
    EmptyInv();
    RunKeeps(Empty, es);
    var w := After(Empty, es);
    DropNoneWait(w.mux.elems, |w.mux.elems|);
    AllDropped(w);
  }

  lemma {:induction false} AllDropped(w: World)
    requires Queue(w.mux, w.requests) && Owed(w) && w.owed == [] && w.mux.numPending == 0
    ensures DropAbandoned(w.mux.elems) == []
  {
    hide Run, Awaiting, DropAbandoned, GoodElem;
    NoneWaits(w.mux.elems);
  }

  /** An asynchronous message is nobody's. */
  lemma {:induction false} AsyncMessage(x: Mux, m: BackendMessage)
    requires IsAsync(m.kind)
    ensures OnMessage(x, m) == Outcome(x, None, [], false)
  {
    hide Start, ReadOne, IgnoreOne;
  }

  /** The input of a COPY that is not allowed: a query in flight, answered with CopyOutResponse. */
  lemma {:induction false} CopyOutIsReported(x: Mux, payload: seq<Byte>, m: BackendMessage)
    requires m.kind == CopyOutResponse && x == Mux([Elem(0, Some(Request([Query], payload)), InFlight, 0)], 0, Initial)
    ensures OnMessage(x, m) == Outcome(Mux([], 0, Initial), Some(CopyNotAllowed), [Completed(0, Some(CopyNotAllowed))], false)
  {
    var f := Init([Query], false);
    assert SkipFlush([Query], 0) == 0;
    assert Resume(f, m) == Step(f, Done(Some(CopyNotAllowed)), []);
    hide Resume;
    assert FirstWritten(x.elems, 0) == 0;
    assert x.elems[0..] == x.elems && x.elems[1..] == [];
    assert HandledAll(0, []) + [Completed(0, Some(CopyNotAllowed))] == [Completed(0, Some(CopyNotAllowed))];
  }
}
