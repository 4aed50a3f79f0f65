/** The state machine that reads the reply to one request
    (src/read_response_fsm.cpp, include/nativepg/protocol/read_response_fsm.hpp).

    The functions below give the meaning of one call to each handler of the source on a
    snapshot of the machine; the class at the end is the machine itself, updated in place
    and proved against them. A failed assertion or an out-of-range read of the request is
    the verdict Fault, so that safety is a theorem instead of a precondition. */
module ResponseFsm {
  import opened Messages
  import opened CheckRequest

  datatype Phase =
    | MsgFirst
    | QueryFirst
    | QueryNeedsReady
    | QueryRows
    | ExecCopyOut
    | ExecCopyOutNeedsCommandComplete
    | QueryCopyOut
    | QueryCopyOutNeedsCommandComplete

  datatype Fsm = Fsm(messages: seq<RequestMessage>, allowCopy: bool, current: nat, phase: Phase)

  /** What a response handler is handed: a message of the server, a row description made up
      by the machine, or the note that a message was skipped. */
  datatype HandlerEvent = Deliver(msg: BackendMessage) | SyntheticRowDescription | MessageSkipped

  /** One callback: the event and the offset of the request message it answers. */
  datatype Call = Call(offset: nat, event: HandlerEvent)

  datatype Verdict = Read | Done(error: Option<ClientError>) | Fault

  datatype Step = Step(fsm: Fsm, verdict: Verdict, calls: seq<Call>)

  function Init(ms: seq<RequestMessage>, allowCopy: bool): Fsm {
    Fsm(ms, allowCopy, 0, MsgFirst)
  }

  /** get_expected_rfqs: one ReadyForQuery per query or sync. */
  function ExpectedReady(ms: seq<RequestMessage>): nat {
    if ms == [] then 0
    else (if ms[0] == Query || ms[0] == Sync then 1 else 0) + ExpectedReady(ms[1..])
  }

  // ----- one step of the machine

  function Fail(f: Fsm, e: ClientError): Step {
    Step(f, Done(Some(e)), [])
  }

  function Stay(f: Fsm, phase: Phase, calls: seq<Call>): Step {
    Step(f.(phase := phase), Read, calls)
  }

  /** A callback for the current message. */
  function At(f: Fsm, e: HandlerEvent): seq<Call> {
    [Call(f.current, e)]
  }

  /** advance, after the given callbacks and the return to the initial state: the current
      message is finished. */
  function Advance(f: Fsm, calls: seq<Call>): Step {
    Step(f.(current := f.current + 1, phase := MsgFirst),
         if f.current + 1 >= |f.messages| then Done(None) else Read,
         calls)
  }

  /** The first sync at or after i, or the end of the request. */
  function NextSync(ms: seq<RequestMessage>, i: nat): (j: nat)
    requires i <= |ms|
    ensures i <= j <= |ms|
    ensures forall k | i <= k < j :: ms[k] != Sync
    ensures j < |ms| ==> ms[j] == Sync
    decreases |ms| - i
  {
    if i == |ms| || ms[i] == Sync then i else NextSync(ms, i + 1)
  }

  /** The skip notes for the messages from i up to j. */
  function Skips(ms: seq<RequestMessage>, i: nat, j: nat): seq<Call>
    requires i <= j <= |ms|
    decreases j - i
  {
    if i == j then []
    else (if ms[i] == Flush then [] else [Call(i, MessageSkipped)]) + Skips(ms, i + 1, j)
  }

  /** handle_error: report the error, then skip to the next sync. */
  function HandleError(f: Fsm, m: BackendMessage): Step
    requires f.current < |f.messages|
  {
    var j := NextSync(f.messages, f.current + 1);
    Step(f.(current := j, phase := MsgFirst),
         if j < |f.messages| then Read else Fault,
         [Call(f.current, Deliver(m))] + Skips(f.messages, f.current + 1, j))
  }

  /** handle_bind, handle_close and handle_parse: one acknowledgement, or an error. */
  function HandleAck(f: Fsm, m: BackendMessage, ack: Kind): Step
    requires f.current < |f.messages|
  {
    if f.phase != MsgFirst then Step(f, Fault, [])
    else if m.kind == ErrorResponse then HandleError(f, m)
    else if m.kind == ack then Advance(f, At(f, Deliver(m)))
    else Fail(f, UnexpectedMessage)
  }

  function HandleDescribe(f: Fsm, m: BackendMessage): Step
    requires f.current < |f.messages|
  {
    if f.phase != MsgFirst then Step(f, Fault, [])
    else match m.kind
      case ErrorResponse => HandleError(f, m)
      case RowDescription => Advance(f, At(f, Deliver(m)))
      case NoData => Advance(f, At(f, SyntheticRowDescription))
      case _ => Fail(f, UnexpectedMessage)
  }

  function HandleSync(f: Fsm, m: BackendMessage): Step {
    if f.phase != MsgFirst then Step(f, Fault, [])
    else if m.kind != ReadyForQuery then Fail(f, UnexpectedMessage)
    else Advance(f, [])
  }

  function HandleExecute(f: Fsm, m: BackendMessage): Step
    requires f.current < |f.messages|
  {
    match f.phase
    case MsgFirst =>
      (match m.kind
       case CopyOutResponse =>
         if !f.allowCopy then Fail(f, CopyNotAllowed)
         else Stay(f, ExecCopyOut, At(f, SyntheticRowDescription))
       case ErrorResponse => HandleError(f, m)
       case CommandComplete => Advance(f, At(f, Deliver(m)))
       case EmptyQueryResponse => Advance(f, At(f, Deliver(m)))
       case PortalSuspended => Advance(f, At(f, Deliver(m)))
       case DataRow => Stay(f, MsgFirst, At(f, Deliver(m)))
       case _ => Fail(f, UnexpectedMessage))
    case ExecCopyOut =>
      (match m.kind
       case CopyData => Stay(f, ExecCopyOut, [])
       case ErrorResponse => HandleError(f, m)
       case CopyDone => Stay(f, ExecCopyOutNeedsCommandComplete, [])
       case _ => Fail(f, UnexpectedMessage))
    case ExecCopyOutNeedsCommandComplete =>
      (match m.kind
       case ErrorResponse => HandleError(f, m)
       case CommandComplete => Advance(f, At(f, Deliver(m)))
       case _ => Fail(f, UnexpectedMessage))
    case _ => Fail(f, UnexpectedMessage)
  }

  function HandleQuery(f: Fsm, m: BackendMessage): Step {
    match f.phase
    case MsgFirst => HandleQueryFirst(f, m)
    case QueryFirst => HandleQueryFirst(f, m)
    case QueryRows =>
      (match m.kind
       case ErrorResponse => Stay(f, QueryNeedsReady, At(f, Deliver(m)))
       case DataRow => Stay(f, QueryRows, At(f, Deliver(m)))
       case CommandComplete => Stay(f, QueryFirst, At(f, Deliver(m)))
       case _ => Fail(f, UnexpectedMessage))
    case QueryNeedsReady =>
      if m.kind == ReadyForQuery then Advance(f, []) else Fail(f, UnexpectedMessage)
    case QueryCopyOut =>
      (match m.kind
       case CopyData => Stay(f, QueryCopyOut, [])
       case ErrorResponse => Stay(f, QueryNeedsReady, At(f, Deliver(m)))
       case CopyDone => Stay(f, QueryCopyOutNeedsCommandComplete, [])
       case _ => Fail(f, UnexpectedMessage))
    case QueryCopyOutNeedsCommandComplete =>
      (match m.kind
       case ErrorResponse => Stay(f, QueryNeedsReady, At(f, Deliver(m)))
       case CommandComplete => Stay(f, QueryFirst, At(f, Deliver(m)))
       case _ => Fail(f, UnexpectedMessage))
    case _ => Step(f, Fault, [])
  }

  /** The part of handle_query that runs before a resultset. */
  function HandleQueryFirst(f: Fsm, m: BackendMessage): Step {
    match m.kind
    case CopyOutResponse =>
      if !f.allowCopy then Fail(f, CopyNotAllowed)
      else Stay(f, QueryCopyOut, At(f, SyntheticRowDescription))
    case ErrorResponse => Stay(f, QueryNeedsReady, At(f, Deliver(m)))
    case RowDescription => Stay(f, QueryRows, At(f, Deliver(m)))
    case CommandComplete => Stay(f, QueryFirst, At(f, SyntheticRowDescription) + At(f, Deliver(m)))
    case EmptyQueryResponse =>
      if f.phase != MsgFirst then Fail(f, UnexpectedMessage)
      else Stay(f, QueryNeedsReady, At(f, Deliver(m)))
    case ReadyForQuery =>
      if f.phase != QueryFirst then Fail(f, UnexpectedMessage) else Advance(f, [])
    case _ => Fail(f, UnexpectedMessage)
  }

  /** Where the flush loop of resume stops: the first message at or after i that expects an answer. */
  function SkipFlush(ms: seq<RequestMessage>, i: nat): (j: nat)
    requires i <= |ms|
    ensures i <= j <= |ms|
    ensures forall k | i <= k < j :: ms[k] == Flush
    ensures j < |ms| ==> ms[j] != Flush
    decreases |ms| - i
  {
    if i == |ms| || ms[i] != Flush then i else SkipFlush(ms, i + 1)
  }

  function Dispatch(f: Fsm, m: BackendMessage): Step
    requires f.current < |f.messages| && f.messages[f.current] != Flush
  {
    match f.messages[f.current]
    case Bind => HandleAck(f, m, BindComplete)
    case Close => HandleAck(f, m, CloseComplete)
    case Parse => HandleAck(f, m, ParseComplete)
    case Describe => HandleDescribe(f, m)
    case Execute => HandleExecute(f, m)
    case Query => HandleQuery(f, m)
    case Sync => HandleSync(f, m)
  }

  /** resume: one message of the server. */
  function Resume(f: Fsm, m: BackendMessage): Step {
    if IsAsync(m.kind) then Step(f, Read, [])
    else if f.current > |f.messages| then Step(f, Fault, [])
    else
      var i := SkipFlush(f.messages, f.current);
      if i == |f.messages| then Step(f.(current := i), Fault, [])
      else Dispatch(f.(current := i), m)
  }

  /** The machine on a word of messages: it stops reading when it is done. */
  function Run(f: Fsm, w: seq<BackendMessage>): Step
    decreases |w|
  {
    if w == [] then Step(f, Read, [])
    else
      var s := Resume(f, w[0]);
      if !s.verdict.Read? then s
      else
        var t := Run(s.fsm, w[1..]);
        t.(calls := s.calls + t.calls)
  }

  /** The word is exactly what the machine reads before it ends in success. */
  predicate Accepts(f: Fsm, w: seq<BackendMessage>)
    decreases |w|
  {
    w != [] &&
    var s := Resume(f, w[0]);
    if s.verdict.Read? then Accepts(s.fsm, w[1..])
    else s.verdict == Done(None) && |w| == 1
  }

  // ----- safety: the static check rules out every fault

  /** The states the machine may rest in between two messages. */
  predicate Consistent(f: Fsm) {
    && f.current < |f.messages|
    && Closed(f.messages[f.current..], false)
    && match f.phase
       case MsgFirst => true
       case ExecCopyOut => f.messages[f.current] == Execute
       case ExecCopyOutNeedsCommandComplete => f.messages[f.current] == Execute
       case _ => f.messages[f.current] == Query
  }

  /** What one step of a consistent machine leaves behind. */
  predicate GoodStep(f: Fsm, m: BackendMessage, s: Step) {
    && !s.verdict.Fault?
    && s.fsm.messages == f.messages
    && s.fsm.allowCopy == f.allowCopy
    && (s.verdict.Read? ==> Consistent(s.fsm))
    && f.current <= s.fsm.current <= |f.messages|
    && (s.verdict == Done(None) <==> s.fsm.current == |f.messages|)
    && (s.verdict == Done(None) ==> s.fsm.phase == MsgFirst)
    && (s.verdict.Read? || s.verdict == Done(None) ==>
          (if m.kind == ReadyForQuery then 1 else 0) + ExpectedReady(s.fsm.messages[s.fsm.current..])
          == ExpectedReady(f.messages[f.current..]))
  }

  lemma {:induction false} Drop(ms: seq<RequestMessage>, i: nat)
    requires i < |ms|
    ensures ms[i..][1..] == ms[i + 1..]
  {
  }

  lemma {:induction false} SkipFlushSafe(ms: seq<RequestMessage>, i: nat)
    requires i < |ms| && Closed(ms[i..], false)
    ensures var j := SkipFlush(ms, i);
      j < |ms| && Closed(ms[j..], false) && ExpectedReady(ms[j..]) == ExpectedReady(ms[i..])
    decreases |ms| - i
  {
    if ms[i] == Flush {
      Drop(ms, i);
      assert Closed(ms[i + 1..], true);
      ClosedWeaken(ms[i + 1..]);
      SkipFlushSafe(ms, i + 1);
    }
  }

  /** In an open batch the skip loop always finds a sync, and skips no query on the way. */
  lemma {:induction false} NextSyncSafe(ms: seq<RequestMessage>, i: nat)
    requires i <= |ms| && Closed(ms[i..], true)
    ensures var j := NextSync(ms, i);
      && j < |ms| && Closed(ms[j..], false)
      && ExpectedReady(ms[j..]) == ExpectedReady(ms[i..])
      && forall k | i <= k < j :: ms[k] != Query
    decreases |ms| - i
  {
    Drop(ms, i);
    if ms[i] == Sync {
      ClosedWeaken(ms[i..]);
    } else {
      NextSyncSafe(ms, i + 1);
    }
  }

  lemma {:induction false} HandleErrorGood(f: Fsm, m: BackendMessage)
    requires Consistent(f) && m.kind == ErrorResponse
    requires f.messages[f.current] != Query && f.messages[f.current] != Sync
    ensures GoodStep(f, m, HandleError(f, m))
  {
    Drop(f.messages, f.current);
    NextSyncSafe(f.messages, f.current + 1);
  }

  lemma {:induction false} AdvanceGood(f: Fsm, m: BackendMessage, calls: seq<Call>)
    requires Consistent(f)
    requires m.kind == ReadyForQuery <==> f.messages[f.current] == Query || f.messages[f.current] == Sync
    ensures GoodStep(f, m, Advance(f, calls))
  {
    Drop(f.messages, f.current);
    if f.messages[f.current] != Query && f.messages[f.current] != Sync {
      assert Closed(f.messages[f.current + 1..], true);
      ClosedWeaken(f.messages[f.current + 1..]);
    }
  }

  lemma {:induction false} StayGood(f: Fsm, m: BackendMessage, phase: Phase, calls: seq<Call>)
    requires Consistent(f) && Consistent(f.(phase := phase)) && m.kind != ReadyForQuery
    ensures GoodStep(f, m, Stay(f, phase, calls))
  {
  }

  lemma {:induction false} FailGood(f: Fsm, m: BackendMessage, e: ClientError)
    requires Consistent(f)
    ensures GoodStep(f, m, Fail(f, e))
  {
  }

  lemma {:induction false} ExecuteGood(f: Fsm, m: BackendMessage)
    requires Consistent(f) && f.messages[f.current] == Execute
    ensures GoodStep(f, m, HandleExecute(f, m))
  {
    hide GoodStep, HandleError, Advance, Stay, Fail;
    FailGood(f, m, UnexpectedMessage);
    FailGood(f, m, CopyNotAllowed);
    if m.kind == ErrorResponse {
      HandleErrorGood(f, m);
    } else if m.kind == CommandComplete || m.kind == EmptyQueryResponse || m.kind == PortalSuspended {
      AdvanceGood(f, m, At(f, Deliver(m)));
    } else if m.kind == DataRow {
      StayGood(f, m, MsgFirst, At(f, Deliver(m)));
    } else if m.kind == CopyOutResponse {
      StayGood(f, m, ExecCopyOut, At(f, SyntheticRowDescription));
    } else if m.kind == CopyData {
      StayGood(f, m, ExecCopyOut, []);
    } else if m.kind == CopyDone {
      StayGood(f, m, ExecCopyOutNeedsCommandComplete, []);
    }
  }

  lemma {:induction false} QueryGood(f: Fsm, m: BackendMessage)
    requires Consistent(f) && f.messages[f.current] == Query
    ensures GoodStep(f, m, HandleQuery(f, m))
  {
    hide GoodStep, HandleError, Advance, Stay, Fail;
    FailGood(f, m, UnexpectedMessage);
    FailGood(f, m, CopyNotAllowed);
    if m.kind == ReadyForQuery {
      AdvanceGood(f, m, []);
    } else if m.kind == ErrorResponse || m.kind == EmptyQueryResponse {
      StayGood(f, m, QueryNeedsReady, At(f, Deliver(m)));
    } else if m.kind == CommandComplete {
      StayGood(f, m, QueryFirst, At(f, SyntheticRowDescription) + At(f, Deliver(m)));
      StayGood(f, m, QueryFirst, At(f, Deliver(m)));
    } else if m.kind == DataRow || m.kind == RowDescription {
      StayGood(f, m, QueryRows, At(f, Deliver(m)));
    } else if m.kind == CopyOutResponse {
      StayGood(f, m, QueryCopyOut, At(f, SyntheticRowDescription));
    } else if m.kind == CopyData {
      StayGood(f, m, QueryCopyOut, []);
    } else if m.kind == CopyDone {
      StayGood(f, m, QueryCopyOutNeedsCommandComplete, []);
    }
  }

  /** Messages answered by a single acknowledgement. */
  predicate IsAcked(r: RequestMessage) {
    r == Bind || r == Close || r == Parse
  }

  lemma {:induction false} AckGood(f: Fsm, m: BackendMessage, ack: Kind)
    requires Consistent(f) && ack != ReadyForQuery
    requires IsAcked(f.messages[f.current])
    ensures GoodStep(f, m, HandleAck(f, m, ack))
  {
    hide GoodStep, HandleError, Advance, Stay, Fail;
    FailGood(f, m, UnexpectedMessage);
    if m.kind == ErrorResponse {
      HandleErrorGood(f, m);
    } else if m.kind == ack {
      AdvanceGood(f, m, At(f, Deliver(m)));
    }
  }

  lemma {:induction false} DescribeGood(f: Fsm, m: BackendMessage)
    requires Consistent(f) && f.messages[f.current] == Describe
    ensures GoodStep(f, m, HandleDescribe(f, m))
  {
    hide GoodStep, HandleError, Advance, Stay, Fail;
    FailGood(f, m, UnexpectedMessage);
    if m.kind == ErrorResponse {
      HandleErrorGood(f, m);
    } else if m.kind == RowDescription {
      AdvanceGood(f, m, At(f, Deliver(m)));
    } else if m.kind == NoData {
      AdvanceGood(f, m, At(f, SyntheticRowDescription));
    }
  }

  lemma {:induction false} DispatchGood(f: Fsm, m: BackendMessage)
    requires Consistent(f) && f.messages[f.current] != Flush
    ensures GoodStep(f, m, Dispatch(f, m))
  {
    hide GoodStep, HandleAck, HandleDescribe, HandleExecute, HandleQuery, Advance, Fail;
    FailGood(f, m, UnexpectedMessage);
    match f.messages[f.current] {
      case Bind => AckGood(f, m, BindComplete);
      case Close => AckGood(f, m, CloseComplete);
      case Parse => AckGood(f, m, ParseComplete);
      case Describe => DescribeGood(f, m);
      case Execute => ExecuteGood(f, m);
      case Query => QueryGood(f, m);
      case Sync =>
        if m.kind == ReadyForQuery {
          AdvanceGood(f, m, []);
        }
    }
  }

  /** Every step of a consistent machine is safe and conserves ReadyForQuery messages. */
  lemma {:induction false} ResumeGood(f: Fsm, m: BackendMessage)
    requires Consistent(f)
    ensures GoodStep(f, m, Resume(f, m))
  {
    if !IsAsync(m.kind) {
      SkipFlushSafe(f.messages, f.current);
      DispatchGood(f.(current := SkipFlush(f.messages, f.current)), m);
    }
  }

  lemma {:induction false} InitConsistent(ms: seq<RequestMessage>, allowCopy: bool)
    requires Accepted(ms)
    ensures Consistent(Init(ms, allowCopy))
  {
    assert ms[0..] == ms;
  }

  /** Conservation over whole runs: from a consistent state, no word faults, and the
      ReadyForQuery messages read plus those still expected stay the same. */
  lemma {:induction false} RunGood(f: Fsm, w: seq<BackendMessage>)
    requires Consistent(f)
    ensures var s := Run(f, w);
      && !s.verdict.Fault?
      && s.fsm.messages == f.messages && s.fsm.allowCopy == f.allowCopy
      && f.current <= s.fsm.current <= |f.messages|
      && (s.verdict.Read? ==> Consistent(s.fsm))
      && (s.verdict == Done(None) <==> s.fsm.current == |f.messages|)
      && (s.verdict.Read? ==>
            CountReady(w) + ExpectedReady(f.messages[s.fsm.current..]) == ExpectedReady(f.messages[f.current..]))
    decreases |w|
  {
    if w != [] {
      ResumeGood(f, w[0]);
      var s := Resume(f, w[0]);
      if s.verdict.Read? {
        RunGood(s.fsm, w[1..]);
      }
    }
  }

  /** The static check implies run-time safety: on an accepted request, whatever the server
      sends, no assertion fails, the request is never read out of range, the flush and skip
      loops stop inside it, and success is reported exactly when it is exhausted. */
  lemma {:induction false} AcceptedRequestIsSafe(ms: seq<RequestMessage>, allowCopy: bool, w: seq<BackendMessage>)
    requires Accepted(ms)
    ensures var s := Run(Init(ms, allowCopy), w);
      && !s.verdict.Fault?
      && s.fsm.current <= |ms|
      && (s.verdict == Done(None) <==> s.fsm.current == |ms|)
  {
    InitConsistent(ms, allowCopy);
    RunGood(Init(ms, allowCopy), w);
  }

  /** ReadyForQuery conservation: in every reachable state that still reads, the messages
      read so far and the ones expected for the rest of the request add up to the ones
      expected for the whole request. */
  lemma {:induction false} ReadyConservation(ms: seq<RequestMessage>, allowCopy: bool, w: seq<BackendMessage>)
    requires Accepted(ms)
    requires Run(Init(ms, allowCopy), w).verdict.Read?
    ensures Run(Init(ms, allowCopy), w).fsm.current < |ms|
    ensures CountReady(w) + ExpectedReady(ms[Run(Init(ms, allowCopy), w).fsm.current..]) == ExpectedReady(ms)
  {
    InitConsistent(ms, allowCopy);
    RunGood(Init(ms, allowCopy), w);
    assert ms[0..] == ms;
  }

  /** A request that has not been fully answered still expects a ReadyForQuery. */
  lemma {:induction false} ClosedExpectsReady(ms: seq<RequestMessage>, open: bool)
    requires Closed(ms, open) && (ms != [] || open)
    ensures ExpectedReady(ms) > 0
    decreases |ms|
  {
    if ms[0] != Query && ms[0] != Sync {
      ClosedExpectsReady(ms[1..], true);
    }
  }

  // ----- words: prefixes and acceptance

  lemma {:induction false} RunStep(f: Fsm, v: seq<BackendMessage>)
    requires v != []
    ensures var s := Resume(f, v[0]);
      Run(f, v) == if s.verdict.Read? then var t := Run(s.fsm, v[1..]); t.(calls := s.calls + t.calls) else s
  {
    hide Resume;
  }

  lemma {:induction false} RunNone(f: Fsm)
    ensures Run(f, []) == Step(f, Read, [])
  {
  }

  lemma {:induction false} RunAppend(f: Fsm, v: seq<BackendMessage>, w: seq<BackendMessage>)
    ensures var s := Run(f, v);
      Run(f, v + w) ==
        if s.verdict.Read? then var t := Run(s.fsm, w); t.(calls := s.calls + t.calls) else s
    decreases |v|
  {
    hide Run, Resume;
    if v == [] {
      RunNone(f);
      assert v + w == w && [] + Run(f, w).calls == Run(f, w).calls;
    } else {
      RunStep(f, v);
      RunStep(f, v + w);
      assert (v + w)[1..] == v[1..] + w;
      var s := Resume(f, v[0]);
      if s.verdict.Read? {
        RunAppend(s.fsm, v[1..], w);
        var s1 := Run(s.fsm, v[1..]);
        if s1.verdict.Read? {
          var t := Run(s1.fsm, w);
          assert s.calls + (s1.calls + t.calls) == (s.calls + s1.calls) + t.calls;
        }
      }
    }
  }

  lemma {:induction false} RunOne(f: Fsm, m: BackendMessage)
    ensures Run(f, [m]).verdict == Resume(f, m).verdict
    ensures Run(f, [m]).fsm == Resume(f, m).fsm
    ensures Run(f, [m]).calls == Resume(f, m).calls
  {
    var s := Resume(f, m);
    assert [m][1..] == [];
    assert s.calls + [] == s.calls;
  }

  /** Acceptance split at any point: the machine still reads before the word is over. */
  lemma {:induction false} AcceptsSplit(f: Fsm, v: seq<BackendMessage>, w: seq<BackendMessage>)
    requires w != []
    ensures Accepts(f, v + w) <==> Run(f, v).verdict.Read? && Accepts(Run(f, v).fsm, w)
    decreases |v|
  {
    if v == [] {
      assert v + w == w;
    } else {
      assert (v + w)[1..] == v[1..] + w;
      var s := Resume(f, v[0]);
      if s.verdict.Read? {
        AcceptsSplit(s.fsm, v[1..], w);
      }
    }
  }

  /** Abandoning a reply: after any part v of an accepted reply v + w, exactly the
      ReadyForQuery messages expected for the remaining request are still to come, the last
      of them ends the reply, and none of the others does. This is what makes counting
      ReadyForQuery messages a correct way to discard the rest of a reply. */
  lemma {:induction false} AbandonStopsAtTheEnd(ms: seq<RequestMessage>, allowCopy: bool, v: seq<BackendMessage>, w: seq<BackendMessage>)
    requires Accepted(ms) && w != []
    requires Accepts(Init(ms, allowCopy), v + w)
    ensures Run(Init(ms, allowCopy), v).verdict.Read? && Run(Init(ms, allowCopy), v).fsm.current < |ms|
    ensures CountReady(w) == ExpectedReady(ms[Run(Init(ms, allowCopy), v).fsm.current..]) > 0
    ensures w[|w| - 1].kind == ReadyForQuery
    ensures forall k | 0 <= k < |w| :: CountReady(w[..k]) < CountReady(w)
  {
    var f := Init(ms, allowCopy);
    InitConsistent(ms, allowCopy);
    AcceptsSplit(f, v, w);
    RunGood(f, v);
    AcceptedWordReady(Run(f, v).fsm, w);
  }

  lemma {:induction false} AcceptedWordReady(f: Fsm, w: seq<BackendMessage>)
    requires Consistent(f) && Accepts(f, w)
    ensures CountReady(w) == ExpectedReady(f.messages[f.current..]) > 0
    ensures w[|w| - 1].kind == ReadyForQuery
    ensures forall k | 0 <= k < |w| :: CountReady(w[..k]) < CountReady(w)
    decreases |w|
  {
    hide Resume, ExpectedReady, Closed, Accepts, CountReady;
    AcceptsUnfold(f, w);
    CountReadyHead(w);
    ClosedExpectsReady(f.messages[f.current..], false);
    ResumeGood(f, w[0]);
    var s := Resume(f, w[0]);
    if s.verdict.Read? {
      AcceptedWordReady(s.fsm, w[1..]);
      AcceptsUnfold(s.fsm, w[1..]);
      assert w[|w| - 1] == w[1..][|w| - 2];
      forall k | 0 <= k < |w| ensures CountReady(w[..k]) < CountReady(w) {
        CountReadyHead(w[..k]);
        if k > 0 {
          assert w[..k][1..] == w[1..][..k - 1];
        }
      }
    } else {
      assert w[1..] == [] && w[..0] == [];
      CountReadyHead([]);
      NothingExpected(f.messages);
    }
  }

  lemma {:induction false} NothingExpected(ms: seq<RequestMessage>)
    ensures ExpectedReady(ms[|ms|..]) == 0
  {
  }

  lemma {:induction false} AcceptsUnfold(f: Fsm, w: seq<BackendMessage>)
    requires Accepts(f, w)
    ensures w != [] && var s := Resume(f, w[0]);
      if s.verdict.Read? then Accepts(s.fsm, w[1..]) else s.verdict == Done(None) && |w| == 1
  {
    hide Resume;
  }

  // ----- the machine, updated in place

  /** The handlers of the class below follow the functions of the same names. */
  class ReadResponseFsm {
    const messages: seq<RequestMessage>
    const allowCopy: bool
    var current: nat
    var phase: Phase
    /** The callbacks made so far on the response handler. */
    var calls: seq<Call>

    ghost function State(): Fsm
      reads this
    {
      Fsm(messages, allowCopy, current, phase)
    }

    constructor (messages: seq<RequestMessage>, allowCopy: bool)
      ensures State() == Init(messages, allowCopy) && calls == []
    {
      this.messages := messages;
      this.allowCopy := allowCopy;
      current, phase, calls := 0, MsgFirst, [];
    }

    method CallHandler(e: HandlerEvent)
      modifies this`calls
      ensures calls == old(calls) + [Call(current, e)]
    {
      calls := calls + [Call(current, e)];
    }

    /** get_remaining_messages. */
    function RemainingMessages(): (rest: seq<RequestMessage>)
      requires current <= |messages|
      reads this
      ensures |rest| == |messages| - current
      ensures messages[..current] + rest == messages
    {
      messages[current..]
    }

    /** The skip loop of handle_error. */
    method SkipToSync() returns (v: Verdict)
      requires current <= |messages|
      modifies this`current, this`calls
      ensures current == NextSync(messages, old(current))
      ensures calls == old(calls) + Skips(messages, old(current), current)
      ensures v == if current < |messages| then Read else Fault
    {
      ghost var stop := NextSync(messages, current);
      while current < |messages|
        invariant old(current) <= current <= stop == NextSync(messages, current)
        invariant calls + Skips(messages, current, stop) == old(calls) + Skips(messages, old(current), stop)
      {
        match messages[current] {
          case Sync =>
            return Read;
          case Flush =>
          case _ =>
            assert calls + [Call(current, MessageSkipped)] + Skips(messages, current + 1, stop)
                == calls + Skips(messages, current, stop);
            CallHandler(MessageSkipped);
        }
        current := current + 1;
      }
      return Fault;
    }

    method HandleErrorInPlace(m: BackendMessage) returns (v: Verdict)
      requires current < |messages|
      modifies this
      ensures Follows(HandleError(old(State()), m), old(calls), v)
    {
      CallHandler(Deliver(m));
      current := current + 1;
      phase := MsgFirst;
      v := SkipToSync();
    }

    /** The step s was taken: its state, its verdict, and its callbacks after the earlier ones. */
    ghost predicate Follows(s: Step, earlier: seq<Call>, v: Verdict)
      reads this
    {
      State() == s.fsm && v == s.verdict && calls == earlier + s.calls
    }

    /** advance, once the callbacks of the current message are made. Its callers are in the
        initial state, or return to it just before. */
    method AdvanceInPlace() returns (v: Verdict)
      requires current < |messages|
      modifies this`current, this`phase
      ensures current == old(current) + 1 && phase == MsgFirst
      ensures v == if current >= |messages| then Done(None) else Read
    {
      phase := MsgFirst;
      current := current + 1;
      if current >= |messages| {
        return Done(None);
      }
      return Read;
    }

    method HandleAckInPlace(m: BackendMessage, ack: Kind) returns (v: Verdict)
      requires current < |messages|
      modifies this
      ensures Follows(HandleAck(old(State()), m, ack), old(calls), v)
    {
      if phase != MsgFirst {
        return Fault;
      }
      if m.kind == ErrorResponse {
        v := HandleErrorInPlace(m);
      } else if m.kind == ack {
        CallHandler(Deliver(m));
        v := AdvanceInPlace();
      } else {
        return Done(Some(UnexpectedMessage));
      }
    }

    method HandleDescribeInPlace(m: BackendMessage) returns (v: Verdict)
      requires current < |messages|
      modifies this
      ensures Follows(HandleDescribe(old(State()), m), old(calls), v)
    {
      if phase != MsgFirst {
        return Fault;
      }
      match m.kind {
        case ErrorResponse =>
          v := HandleErrorInPlace(m);
        case RowDescription =>
          CallHandler(Deliver(m));
          v := AdvanceInPlace();
        case NoData =>
          CallHandler(SyntheticRowDescription);
          v := AdvanceInPlace();
        case _ =>
          return Done(Some(UnexpectedMessage));
      }
    }

    method HandleSyncInPlace(m: BackendMessage) returns (v: Verdict)
      requires current < |messages|
      modifies this
      ensures Follows(HandleSync(old(State()), m), old(calls), v)
    {
      if phase != MsgFirst {
        return Fault;
      }
      if m.kind != ReadyForQuery {
        return Done(Some(UnexpectedMessage));
      }
      v := AdvanceInPlace();
    }

    method HandleExecuteInPlace(m: BackendMessage) returns (v: Verdict)
      requires current < |messages|
      modifies this
      ensures Follows(HandleExecute(old(State()), m), old(calls), v)
    {
      hide HandleError;
      match phase {
        case MsgFirst =>
          match m.kind {
            case CopyOutResponse =>
              if !allowCopy {
                return Done(Some(CopyNotAllowed));
              }
              CallHandler(SyntheticRowDescription);
              phase := ExecCopyOut;
              return Read;
            case ErrorResponse =>
              v := HandleErrorInPlace(m);
            case CommandComplete =>
              CallHandler(Deliver(m));
              v := AdvanceInPlace();
            case EmptyQueryResponse =>
              CallHandler(Deliver(m));
              v := AdvanceInPlace();
            case PortalSuspended =>
              CallHandler(Deliver(m));
              v := AdvanceInPlace();
            case DataRow =>
              CallHandler(Deliver(m));
              return Read;
            case _ =>
              return Done(Some(UnexpectedMessage));
          }
        case ExecCopyOut =>
          match m.kind {
            case CopyData =>
              return Read;
            case ErrorResponse =>
              v := HandleErrorInPlace(m);
            case CopyDone =>
              phase := ExecCopyOutNeedsCommandComplete;
              return Read;
            case _ =>
              return Done(Some(UnexpectedMessage));
          }
        case ExecCopyOutNeedsCommandComplete =>
          match m.kind {
            case ErrorResponse =>
              v := HandleErrorInPlace(m);
            case CommandComplete =>
              CallHandler(Deliver(m));
              v := AdvanceInPlace();
            case _ =>
              return Done(Some(UnexpectedMessage));
          }
        case _ =>
          return Done(Some(UnexpectedMessage));
      }
    }

    /** Store the new phase and hand the message over, as most branches of handle_query do. */
    method EnterPhase(next: Phase, m: BackendMessage) returns (v: Verdict)
      modifies this`phase, this`calls
      ensures phase == next && v == Read && calls == old(calls) + [Call(current, Deliver(m))]
    {
      phase := next;
      CallHandler(Deliver(m));
      return Read;
    }

    method HandleQueryFirstInPlace(m: BackendMessage) returns (v: Verdict)
      requires current < |messages|
      modifies this
      ensures Follows(HandleQueryFirst(old(State()), m), old(calls), v)
    {
      match m.kind {
        case CopyOutResponse =>
          if !allowCopy {
            return Done(Some(CopyNotAllowed));
          }
          CallHandler(SyntheticRowDescription);
          phase := QueryCopyOut;
          return Read;
        case ErrorResponse =>
          v := EnterPhase(QueryNeedsReady, m);
        case RowDescription =>
          v := EnterPhase(QueryRows, m);
        case CommandComplete =>
          CallHandler(SyntheticRowDescription);
          v := EnterPhase(QueryFirst, m);
        case EmptyQueryResponse =>
          if phase != MsgFirst {
            return Done(Some(UnexpectedMessage));
          }
          v := EnterPhase(QueryNeedsReady, m);
        case ReadyForQuery =>
          if phase != QueryFirst {
            return Done(Some(UnexpectedMessage));
          }
          v := AdvanceInPlace();
        case _ =>
          return Done(Some(UnexpectedMessage));
      }
    }

    method HandleQueryInPlace(m: BackendMessage) returns (v: Verdict)
      requires current < |messages|
      modifies this
      ensures Follows(HandleQuery(old(State()), m), old(calls), v)
    {
      hide HandleQueryFirst;
      match phase {
        case MsgFirst =>
          v := HandleQueryFirstInPlace(m);
        case QueryFirst =>
          v := HandleQueryFirstInPlace(m);
        case QueryRows =>
          match m.kind {
            case ErrorResponse => v := EnterPhase(QueryNeedsReady, m);
            case DataRow => v := EnterPhase(QueryRows, m);
            case CommandComplete => v := EnterPhase(QueryFirst, m);
            case _ => return Done(Some(UnexpectedMessage));
          }
        case QueryNeedsReady =>
          if m.kind == ReadyForQuery {
            v := AdvanceInPlace();
          } else {
            return Done(Some(UnexpectedMessage));
          }
        case QueryCopyOut =>
          match m.kind {
            case CopyData => return Read;
            case ErrorResponse => v := EnterPhase(QueryNeedsReady, m);
            case CopyDone =>
              phase := QueryCopyOutNeedsCommandComplete;
              return Read;
            case _ => return Done(Some(UnexpectedMessage));
          }
        case QueryCopyOutNeedsCommandComplete =>
          match m.kind {
            case ErrorResponse => v := EnterPhase(QueryNeedsReady, m);
            case CommandComplete => v := EnterPhase(QueryFirst, m);
            case _ => return Done(Some(UnexpectedMessage));
          }
        case _ =>
          return Fault;
      }
    }

    method DispatchInPlace(m: BackendMessage) returns (v: Verdict)
      requires current < |messages| && messages[current] != Flush
      modifies this
      ensures Follows(Dispatch(old(State()), m), old(calls), v)
    {
      match messages[current] {
        case Bind => v := HandleAckInPlace(m, BindComplete);
        case Close => v := HandleAckInPlace(m, CloseComplete);
        case Parse => v := HandleAckInPlace(m, ParseComplete);
        case Describe => v := HandleDescribeInPlace(m);
        case Execute => v := HandleExecuteInPlace(m);
        case Query => v := HandleQueryInPlace(m);
        case Sync => v := HandleSyncInPlace(m);
      }
    }

    /** resume, on an accepted request that is not answered yet: it takes the step of the
        machine and never faults. */
    method ResumeInPlace(m: BackendMessage) returns (v: Verdict)
      requires Consistent(State())
      modifies this
      ensures Follows(Resume(old(State()), m), old(calls), v)
      ensures v != Fault && (v == Read ==> Consistent(State()))
      ensures v == Done(None) <==> current == |messages|
    {
      ResumeGood(State(), m);
      if IsAsync(m.kind) {
        return Read;
      }
      SkipFlushSafe(messages, current);
      while messages[current] == Flush
        invariant old(current) <= current < |messages|
        invariant SkipFlush(messages, current) == SkipFlush(messages, old(current)) < |messages|
        invariant phase == old(phase) && calls == old(calls)
        decreases |messages| - current
      {
        current := current + 1;
      }
      v := DispatchInPlace(m);
    }
  }
}
