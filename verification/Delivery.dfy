/** Conservation of messages: what the response handler is given is what the server sent for it
    (src/read_response_fsm.cpp). */
module Delivery {
  import opened Messages
  import opened CheckRequest
  import opened ResponseFsm
  import opened Callbacks

  /** Messages that the handler is not given: they are asynchronous, end a batch, or are
      replaced by a made-up row description or handled as COPY data. */
  predicate Kept(k: Kind) {
    IsAsync(k) || k == ReadyForQuery || k == NoData || k == CopyOutResponse || k == CopyData || k == CopyDone
  }

  function Visible(w: seq<BackendMessage>): seq<BackendMessage> {
    if w == [] then [] else (if Kept(w[0].kind) then [] else [w[0]]) + Visible(w[1..])
  }

  /** The messages among the callbacks. */
  function Delivered(cs: seq<Call>): seq<BackendMessage> {
    if cs == [] then [] else (if cs[0].event.Deliver? then [cs[0].event.msg] else []) + Delivered(cs[1..])
  }

  lemma {:induction false} DeliveredAppend(cs: seq<Call>, ds: seq<Call>)
    ensures Delivered(cs + ds) == Delivered(cs) + Delivered(ds)
    decreases |cs|
  {
    if cs == [] {
      assert cs + ds == ds;
    } else {
      DeliveredHead(cs);
      DeliveredHead(cs + ds);
      hide Delivered;
      assert (cs + ds)[1..] == cs[1..] + ds;
      DeliveredAppend(cs[1..], ds);
    }
  }

  lemma {:induction false} DeliveredHead(cs: seq<Call>)
    requires cs != []
    ensures Delivered(cs) == (if cs[0].event.Deliver? then [cs[0].event.msg] else []) + Delivered(cs[1..])
  {
  }

  lemma {:induction false} SkipsDeliverNothing(ms: seq<RequestMessage>, i: nat, j: nat)
    requires i <= j <= |ms|
    ensures Delivered(Skips(ms, i, j)) == []
    decreases j - i
  {
    if i < j {
      SkipsDeliverNothing(ms, i + 1, j);
      if ms[i] == Flush {
        assert Skips(ms, i, j) == Skips(ms, i + 1, j);
      } else {
        assert Skips(ms, i, j)[1..] == Skips(ms, i + 1, j);
      }
    }
  }

  /** The step hands over the message, unaltered and once, if it is one for the handler. */
  ghost predicate HandsOver(s: Step, m: BackendMessage) {
    Ongoing(s) ==> Delivered(s.calls) == Visible([m])
  }

  lemma {:induction false} OneVisible(m: BackendMessage)
    ensures Visible([m]) == if Kept(m.kind) then [] else [m]
  {
    assert [m][1..] == [];
  }

  lemma {:induction false} OneDelivered(o: nat, e: HandlerEvent)
    ensures Delivered([]) == [] && Delivered([Call(o, e)]) == if e.Deliver? then [e.msg] else []
  {
    assert [Call(o, e)][1..] == [];
  }

  // The ways in which a step hands a message over.

  lemma {:induction false} Given(s: Step, o: nat, m: BackendMessage)
    requires s.calls == [Call(o, Deliver(m))] && !Kept(m.kind)
    ensures HandsOver(s, m)
  {
    hide Delivered, Visible;
    OneVisible(m);
    OneDelivered(o, Deliver(m));
  }

  lemma {:induction false} NotGiven(s: Step, o: nat, m: BackendMessage)
    requires Kept(m.kind) && (s.calls == [] || s.calls == [Call(o, SyntheticRowDescription)])
    ensures HandsOver(s, m)
  {
    hide Delivered, Visible;
    OneVisible(m);
    OneDelivered(o, SyntheticRowDescription);
  }

  lemma {:induction false} GivenAfter(s: Step, o: nat, m: BackendMessage)
    requires s.calls == [Call(o, SyntheticRowDescription)] + [Call(o, Deliver(m))] && !Kept(m.kind)
    ensures HandsOver(s, m)
  {
    hide Delivered, Visible;
    OneVisible(m);
    OneDelivered(o, SyntheticRowDescription);
    OneDelivered(o, Deliver(m));
    DeliveredAppend([Call(o, SyntheticRowDescription)], [Call(o, Deliver(m))]);
  }

  lemma {:induction false} GivenBefore(s: Step, o: nat, m: BackendMessage, skips: seq<Call>)
    requires s.calls == [Call(o, Deliver(m))] + skips && !Kept(m.kind) && Delivered(skips) == []
    ensures HandsOver(s, m)
  {
    hide Delivered, Visible;
    OneVisible(m);
    OneDelivered(o, Deliver(m));
    DeliveredAppend([Call(o, Deliver(m))], skips);
  }

  lemma {:induction false} Stopped(s: Step, m: BackendMessage)
    ensures !Ongoing(s) ==> HandsOver(s, m)
  {
  }

  lemma {:induction false} ErrorCalls(f: Fsm, m: BackendMessage)
    requires f.current < |f.messages| && m.kind == ErrorResponse
    ensures !Kept(m.kind)
    ensures HandleError(f, m).calls ==
      [Call(f.current, Deliver(m))] + Skips(f.messages, f.current + 1, NextSync(f.messages, f.current + 1))
  {
    hide Skips, NextSync;
  }

  lemma {:induction false} ErrorHandsOver(f: Fsm, m: BackendMessage)
    requires f.current < |f.messages| && m.kind == ErrorResponse
    ensures HandsOver(HandleError(f, m), m)
  {
    hide Delivered, HandsOver, Skips, NextSync, HandleError, Kept;
    var j := NextSync(f.messages, f.current + 1);
    ErrorCalls(f, m);
    SkipsDeliverNothing(f.messages, f.current + 1, j);
    GivenBefore(HandleError(f, m), f.current, m, Skips(f.messages, f.current + 1, j));
  }

  lemma {:induction false} ExecuteHandsOver(f: Fsm, m: BackendMessage)
    requires f.current < |f.messages|
    ensures HandsOver(HandleExecute(f, m), m)
  {
    hide HandleError, HandsOver;
    var s := HandleExecute(f, m);
    Stopped(s, m);
    if m.kind == ErrorResponse {
      ErrorHandsOver(f, m);
    } else if Ongoing(s) {
      ExecuteCalls(f, m);
      hide HandleExecute;
      if Kept(m.kind) {
        NotGiven(s, f.current, m);
      } else {
        Given(s, f.current, m);
      }
    }
  }

  lemma {:induction false} ExecuteCalls(f: Fsm, m: BackendMessage)
    requires f.current < |f.messages| && m.kind != ErrorResponse && Ongoing(HandleExecute(f, m))
    ensures var cs := HandleExecute(f, m).calls;
      if Kept(m.kind) then cs == [] || cs == [Call(f.current, SyntheticRowDescription)] else cs == [Call(f.current, Deliver(m))]
  {
    hide HandleError;
  }

  lemma {:induction false} QueryHandsOver(f: Fsm, m: BackendMessage)
    requires f.current < |f.messages|
    ensures HandsOver(HandleQuery(f, m), m)
  {
    hide HandsOver;
    var s := HandleQuery(f, m);
    Stopped(s, m);
    if Ongoing(s) {
      if Kept(m.kind) {
        NotGiven(s, f.current, m);
      } else if m.kind == CommandComplete && (f.phase == MsgFirst || f.phase == QueryFirst) {
        GivenAfter(s, f.current, m);
      } else {
        Given(s, f.current, m);
      }
    }
  }

  lemma {:induction false} AckHandsOver(f: Fsm, m: BackendMessage, ack: Kind)
    requires f.current < |f.messages| && !Kept(ack)
    ensures HandsOver(HandleAck(f, m, ack), m)
  {
    hide HandleError, HandsOver;
    var s := HandleAck(f, m, ack);
    Stopped(s, m);
    if m.kind == ErrorResponse {
      ErrorHandsOver(f, m);
    } else if Ongoing(s) {
      Given(s, f.current, m);
    }
  }

  lemma {:induction false} DescribeHandsOver(f: Fsm, m: BackendMessage)
    requires f.current < |f.messages|
    ensures HandsOver(HandleDescribe(f, m), m)
  {
    hide HandleError, HandsOver;
    var s := HandleDescribe(f, m);
    Stopped(s, m);
    if m.kind == ErrorResponse {
      ErrorHandsOver(f, m);
    } else if Ongoing(s) {
      if m.kind == NoData {
        NotGiven(s, f.current, m);
      } else {
        Given(s, f.current, m);
      }
    }
  }

  lemma {:induction false} SyncHandsOver(f: Fsm, m: BackendMessage)
    ensures HandsOver(HandleSync(f, m), m)
  {
    hide HandsOver;
    var s := HandleSync(f, m);
    Stopped(s, m);
    if Ongoing(s) {
      NotGiven(s, f.current, m);
    }
  }

  lemma {:induction false} DispatchHandsOver(f: Fsm, m: BackendMessage)
    requires f.current < |f.messages| && f.messages[f.current] != Flush
    ensures HandsOver(Dispatch(f, m), m)
  {
    hide HandsOver, HandleExecute, HandleQuery, HandleAck, HandleDescribe, HandleSync;
    match f.messages[f.current] {
      case Bind => AckHandsOver(f, m, BindComplete);
      case Close => AckHandsOver(f, m, CloseComplete);
      case Parse => AckHandsOver(f, m, ParseComplete);
      case Describe => DescribeHandsOver(f, m);
      case Execute => ExecuteHandsOver(f, m);
      case Query => QueryHandsOver(f, m);
      case Sync => SyncHandsOver(f, m);
    }
  }

  lemma {:induction false} ResumeHandsOver(f: Fsm, m: BackendMessage)
    requires Consistent(f)
    ensures HandsOver(Resume(f, m), m)
  {
    hide Delivered, Visible, Dispatch;
    if IsAsync(m.kind) {
      OneVisible(m);
      OneDelivered(0, MessageSkipped);
    } else {
      SkipFlushSafe(f.messages, f.current);
      DispatchHandsOver(f.(current := SkipFlush(f.messages, f.current)), m);
    }
  }

  lemma {:induction false} RunHandsOver(f: Fsm, w: seq<BackendMessage>)
    requires Consistent(f) && Ongoing(Run(f, w)) && (Run(f, w).verdict.Done? ==> Accepts(f, w))
    ensures Delivered(Run(f, w).calls) == Visible(w)
    decreases |w|
  {
    hide Resume, Consistent;
    if w != [] {
      ResumeGood(f, w[0]);
      ResumeHandsOver(f, w[0]);
      var s := Resume(f, w[0]);
      OneVisible(w[0]);
      if s.verdict.Read? {
        RunHandsOver(s.fsm, w[1..]);
        DeliveredAppend(s.calls, Run(s.fsm, w[1..]).calls);
      } else {
        assert w == [w[0]];
      }
    }
  }

  /** Conservation of messages: in every run that still reads, and for every accepted reply,
      the handler was given exactly the messages that are for it, each once, in order and
      unaltered. */
  lemma {:induction false} EveryMessageIsDeliveredOnce(ms: seq<RequestMessage>, allowCopy: bool, w: seq<BackendMessage>)
    requires Accepted(ms)
    requires Run(Init(ms, allowCopy), w).verdict.Read? || Accepts(Init(ms, allowCopy), w)
    ensures Delivered(Run(Init(ms, allowCopy), w).calls) == Visible(w)
  {
    hide Run, Accepts, Delivered, Visible;
    InitConsistent(ms, allowCopy);
    AcceptedRuns(Init(ms, allowCopy), w);
    RunHandsOver(Init(ms, allowCopy), w);
  }

  lemma {:induction false} AcceptedRuns(f: Fsm, w: seq<BackendMessage>)
    ensures Accepts(f, w) ==> Run(f, w).verdict == Done(None)
    decreases |w|
  {
    hide Resume;
    if w != [] && Resume(f, w[0]).verdict.Read? {
      AcceptedRuns(Resume(f, w[0]).fsm, w[1..]);
    }
  }
}
