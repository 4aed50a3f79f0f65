/** What the machine says of a message, by the grammar alone: it goes on, it is done, or it fails
    with which error (src/read_response_fsm.cpp). */
module Verdicts {
  import opened Messages
  import opened CheckRequest
  import opened ResponseFsm
  import opened Grammar

  predicate NoAsync(w: seq<BackendMessage>) {
    forall k | 0 <= k < |w| :: !IsAsync(w[k].kind)
  }

  /** The word is a reply, or can be continued to one. */
  ghost predicate Extends(ms: seq<RequestMessage>, allowCopy: bool, v: seq<BackendMessage>) {
    exists rest :: NoAsync(rest) && IsReply(ms, allowCopy, v + rest)
  }

  // ----- every reply can be brought to an end

  /** A message that brings a reply closer to its end. */
  function Closing(f: Fsm): BackendMessage
    requires f.current <= |f.messages|
  {
    var i := SkipFlush(f.messages, f.current);
    BackendMessage(if f.phase == QueryNeedsReady || (i < |f.messages| && f.messages[i] == Sync) then ReadyForQuery else ErrorResponse, [])
  }

  function Rank(f: Fsm): int {
    2 * (|f.messages| - f.current) + if f.phase == QueryNeedsReady then 0 else 1
  }

  lemma {:induction false} ClosingStep(f: Fsm)
    requires Consistent(f)
    ensures !IsAsync(Closing(f).kind)
    ensures var s := Resume(f, Closing(f));
      s.verdict == Done(None) || (s.verdict == Read && Consistent(s.fsm) && 0 <= Rank(s.fsm) < Rank(f))
  {
    var m := Closing(f);
    ResumeGood(f, m);
    SkipFlushSafe(f.messages, f.current);
    ClosingDispatch(f.(current := SkipFlush(f.messages, f.current)), m);
    hide Consistent, Dispatch, Closed;
  }

  lemma {:induction false} ClosingDispatch(f: Fsm, m: BackendMessage)
    requires Consistent(f) && f.messages[f.current] != Flush
    requires m.kind == if f.phase == QueryNeedsReady || f.messages[f.current] == Sync then ReadyForQuery else ErrorResponse
    ensures var s := Dispatch(f, m);
      s.verdict == Done(None) || (s.verdict == Read && |s.fsm.messages| == |f.messages| && Rank(s.fsm) < Rank(f)) || s.verdict == Fault
  {
    hide NextSync, Skips, Closed;
  }

  /** From every state between two messages there is a way to the end of the reply. */
  lemma {:induction false} CanFinish(f: Fsm) returns (rest: seq<BackendMessage>)
    requires Consistent(f)
    ensures rest != [] && NoAsync(rest) && Accepts(f, rest)
    decreases Rank(f)
  {
    hide Resume, Consistent, IsAsync;
    RankPositive(f);
    var m := Closing(f);
    ClosingStep(f);
    var s := Resume(f, m);
    if s.verdict == Done(None) {
      rest := [m];
      AcceptsOne(f, m);
    } else {
      var more := CanFinish(s.fsm);
      AcceptsMore(f, m, more);
      rest := [m] + more;
    }
  }

  lemma {:induction false} RankPositive(f: Fsm)
    requires Consistent(f)
    ensures Rank(f) > 0 && f.current <= |f.messages|
  {
    hide Closed;
  }

  // ----- the verdict on a message

  lemma {:induction false} AcceptsAfter(f: Fsm, v: seq<BackendMessage>, m: BackendMessage, rest: seq<BackendMessage>)
    requires Run(f, v).verdict.Read?
    ensures var s := Resume(Run(f, v).fsm, m);
      Accepts(f, v + [m] + rest) <==>
        if rest == [] then s.verdict == Done(None) else s.verdict.Read? && Accepts(s.fsm, rest)
  {
    hide Run, Resume;
    assert v + [m] + rest == v + ([m] + rest);
    AcceptsSplit(f, v, [m] + rest);
    assert ([m] + rest)[1..] == rest;
  }

  lemma {:induction false} ReplyIs(ms: seq<RequestMessage>, allowCopy: bool, v: seq<BackendMessage>)
    requires Accepted(ms) && v != [] && !IsAsync(v[|v| - 1].kind)
    ensures Accepts(Init(ms, allowCopy), v) <==> IsReply(ms, allowCopy, v)
  {
    hide Accepts, IsReply, IsAsync;
    LanguageEquivalence(ms, allowCopy, v);
  }

  /** The message goes on with the reply exactly if the machine takes it. */
  lemma {:induction false} TakenExactly(ms: seq<RequestMessage>, allowCopy: bool, v: seq<BackendMessage>, m: BackendMessage)
    requires Accepted(ms) && !IsAsync(m.kind) && Run(Init(ms, allowCopy), v).verdict.Read?
    ensures var s := Resume(Run(Init(ms, allowCopy), v).fsm, m);
      && (s.verdict == Done(None) <==> IsReply(ms, allowCopy, v + [m]))
      && (s.verdict == Done(None) || s.verdict == Read <==> Extends(ms, allowCopy, v + [m]))
      && !s.verdict.Fault?
  {
    hide Run, Resume, Accepts, IsReply, Consistent, IsAsync, Accepted;
    var f := Init(ms, allowCopy);
    var s := Resume(Run(f, v).fsm, m);
    InitConsistent(ms, allowCopy);
    RunGood(f, v);
    ResumeGood(Run(f, v).fsm, m);
    AcceptsAfter(f, v, m, []);
    assert v + [m] + [] == v + [m];
    ReplyIs(ms, allowCopy, v + [m]);
    if s.verdict == Read {
      var rest := CanFinish(s.fsm);
      AcceptsAfter(f, v, m, rest);
      LastOf(v + [m], rest);
      ReplyIs(ms, allowCopy, v + [m] + rest);
    }
    if Extends(ms, allowCopy, v + [m]) {
      var rest :| NoAsync(rest) && IsReply(ms, allowCopy, v + [m] + rest);
      if rest != [] {
        LastOf(v + [m], rest);
        ReplyIs(ms, allowCopy, v + [m] + rest);
        AcceptsAfter(f, v, m, rest);
      }
    }
  }

  lemma {:induction false} LastOf(v: seq<BackendMessage>, rest: seq<BackendMessage>)
    requires rest != [] && NoAsync(rest)
    ensures v + rest != [] && !IsAsync((v + rest)[|v + rest| - 1].kind)
  {
    hide IsAsync;
  }

  // ----- where no COPY OUT starts, it does not matter whether COPY is on

  predicate NoCopyOut(w: seq<BackendMessage>) {
    forall k | 0 <= k < |w| :: w[k].kind != CopyOutResponse
  }

  function Off(f: Fsm): Fsm {
    f.(allowCopy := false)
  }

  function StepOff(s: Step): Step {
    s.(fsm := Off(s.fsm))
  }

  /** How a step may end, with COPY on and off. */
  lemma {:induction false} EndsOff(f: Fsm, m: BackendMessage, phase: Phase, calls: seq<Call>, e: ClientError)
    requires f.current < |f.messages|
    ensures HandleError(Off(f), m) == StepOff(HandleError(f, m))
    ensures Advance(Off(f), calls) == StepOff(Advance(f, calls))
    ensures Stay(Off(f), phase, calls) == StepOff(Stay(f, phase, calls))
    ensures Fail(Off(f), e) == StepOff(Fail(f, e))
  {
    hide NextSync, Skips;
  }

  lemma {:induction false} AckOff(f: Fsm, m: BackendMessage, ack: Kind)
    requires f.current < |f.messages|
    ensures HandleAck(Off(f), m, ack) == StepOff(HandleAck(f, m, ack))
    ensures HandleDescribe(Off(f), m) == StepOff(HandleDescribe(f, m))
    ensures HandleSync(Off(f), m) == StepOff(HandleSync(f, m))
  {
    hide HandleError, Advance, Stay, Fail;
    EndsOff(f, m, MsgFirst, At(f, Deliver(m)), UnexpectedMessage);
    EndsOff(f, m, MsgFirst, At(f, SyntheticRowDescription), UnexpectedMessage);
    EndsOff(f, m, MsgFirst, [], UnexpectedMessage);
  }

  lemma {:induction false} ExecuteOff(f: Fsm, m: BackendMessage)
    requires f.current < |f.messages| && m.kind != CopyOutResponse
    ensures HandleExecute(Off(f), m) == StepOff(HandleExecute(f, m))
  {
    hide HandleError, Advance, Fail;
    EndsOff(f, m, MsgFirst, At(f, Deliver(m)), UnexpectedMessage);
  }

  lemma {:induction false} QueryFirstOff(f: Fsm, m: BackendMessage)
    requires f.current < |f.messages| && m.kind != CopyOutResponse
    ensures HandleQueryFirst(Off(f), m) == StepOff(HandleQueryFirst(f, m))
  {
  }

  lemma {:induction false} QueryOff(f: Fsm, m: BackendMessage)
    requires f.current < |f.messages| && m.kind != CopyOutResponse
    ensures HandleQuery(Off(f), m) == StepOff(HandleQuery(f, m))
  {
    hide HandleQueryFirst, Advance, At;
    QueryFirstOff(f, m);
    EndsOff(f, m, MsgFirst, [], UnexpectedMessage);
    AtOff(f, Deliver(m));
  }

  lemma {:induction false} AtOff(f: Fsm, e: HandlerEvent)
    ensures At(Off(f), e) == At(f, e)
  {
  }

  lemma {:induction false} DispatchOff(f: Fsm, m: BackendMessage)
    requires f.current < |f.messages| && f.messages[f.current] != Flush && m.kind != CopyOutResponse
    ensures Dispatch(Off(f), m) == StepOff(Dispatch(f, m))
  {
    hide HandleAck, HandleDescribe, HandleSync, HandleExecute, HandleQuery;
    AckOff(f, m, BindComplete);
    AckOff(f, m, CloseComplete);
    AckOff(f, m, ParseComplete);
    ExecuteOff(f, m);
    QueryOff(f, m);
  }

  lemma {:induction false} ResumeCopyOff(f: Fsm, m: BackendMessage)
    requires m.kind != CopyOutResponse
    ensures Resume(Off(f), m) == StepOff(Resume(f, m))
  {
    hide Dispatch, SkipFlush;
    if f.current <= |f.messages| && SkipFlush(f.messages, f.current) < |f.messages| {
      DispatchOff(f.(current := SkipFlush(f.messages, f.current)), m);
    }
  }

  lemma {:induction false} RunCopyOff(f: Fsm, v: seq<BackendMessage>)
    requires NoCopyOut(v)
    ensures Run(Off(f), v) == StepOff(Run(f, v))
    decreases |v|
  {
    hide Run, Resume;
    if v == [] {
      RunNone(f);
      RunNone(Off(f));
    } else {
      ResumeCopyOff(f, v[0]);
      RunStep(f, v);
      RunStep(Off(f), v);
      RunCopyOff(Resume(f, v[0]).fsm, v[1..]);
    }
  }

  lemma {:induction false} AcceptsCopyOff(f: Fsm, v: seq<BackendMessage>)
    requires NoCopyOut(v)
    ensures Accepts(Off(f), v) <==> Accepts(f, v)
    decreases |v|
  {
    hide Resume;
    if v != [] {
      ResumeCopyOff(f, v[0]);
      AcceptsCopyOff(Resume(f, v[0]).fsm, v[1..]);
    }
  }

  /** With COPY off, a machine that still reads has met no COPY OUT. */
  lemma {:induction false} OffMeetsNone(f: Fsm, m: BackendMessage)
    requires f.current <= |f.messages| && !f.allowCopy && m.kind == CopyOutResponse
    ensures !Resume(f, m).verdict.Read?
  {
    hide NextSync, Skips, HandleError;
  }

  lemma {:induction false} ReadsNoCopyOut(f: Fsm, v: seq<BackendMessage>)
    requires Consistent(f) && !f.allowCopy && Run(f, v).verdict.Read?
    ensures NoCopyOut(v)
    decreases |v|
  {
    hide Run, Resume, Consistent;
    if v != [] {
      RunStep(f, v);
      ResumeGood(f, v[0]);
      RankPositive(f);
      if v[0].kind == CopyOutResponse {
        OffMeetsNone(f, v[0]);
      }
      ReadsNoCopyOut(Resume(f, v[0]).fsm, v[1..]);
    }
  }

  // ----- the errors

  function On(f: Fsm): Fsm {
    f.(allowCopy := true)
  }

  /** The error of a message that is refused: COPY is not allowed exactly where a COPY OUT would
      be taken with COPY on. */
  function ErrorFor(m: BackendMessage, takenWithCopy: bool): ClientError {
    if m.kind == CopyOutResponse && takenWithCopy then CopyNotAllowed else UnexpectedMessage
  }

  lemma {:induction false} FailureIs(f: Fsm, m: BackendMessage)
    requires Consistent(f)
    ensures var s := Resume(f, m);
      s.verdict.Done? && s.verdict.error.Some? ==>
        s.calls == [] && s.verdict.error.value == ErrorFor(m, Resume(On(f), m).verdict.Read?)
  {
    hide Dispatch, Consistent;
    RankPositive(f);
    SkipsFlush(f);
    DispatchFailure(f.(current := SkipFlush(f.messages, f.current)), m);
  }

  lemma {:induction false} SkipsFlush(f: Fsm)
    requires Consistent(f)
    ensures var i := SkipFlush(f.messages, f.current); i < |f.messages| && f.messages[i] != Flush
  {
    SkipFlushSafe(f.messages, f.current);
  }

  /** If s fails, it makes no callback and has the right error; t is the step with COPY on. */
  predicate FailsWith(s: Step, t: Step, m: BackendMessage) {
    s.verdict.Done? && s.verdict.error.Some? ==> s.calls == [] && s.verdict.error.value == ErrorFor(m, t.verdict.Read?)
  }

  lemma {:induction false} DispatchFailure(f: Fsm, m: BackendMessage)
    requires f.current < |f.messages| && f.messages[f.current] != Flush
    ensures FailsWith(Dispatch(f, m), Dispatch(On(f), m), m)
  {
    hide HandleAck, HandleDescribe, HandleSync, HandleExecute, HandleQuery, FailsWith;
    AckFailure(f, m, BindComplete);
    AckFailure(f, m, CloseComplete);
    AckFailure(f, m, ParseComplete);
    ExecuteFailure(f, m);
    QueryFailure(f, m);
  }

  lemma {:induction false} AckFailure(f: Fsm, m: BackendMessage, ack: Kind)
    requires f.current < |f.messages| && ack != CopyOutResponse
    ensures FailsWith(HandleAck(f, m, ack), HandleAck(On(f), m, ack), m)
    ensures FailsWith(HandleDescribe(f, m), HandleDescribe(On(f), m), m) && FailsWith(HandleSync(f, m), HandleSync(On(f), m), m)
  {
    hide HandleError;
    ErrorReads(f, m);
  }

  lemma {:induction false} ExecuteFailure(f: Fsm, m: BackendMessage)
    requires f.current < |f.messages|
    ensures FailsWith(HandleExecute(f, m), HandleExecute(On(f), m), m)
  {
    hide HandleError;
    ErrorReads(f, m);
  }

  lemma {:induction false} QueryFailure(f: Fsm, m: BackendMessage)
    ensures FailsWith(HandleQuery(f, m), HandleQuery(On(f), m), m)
  {
    hide HandleQueryFirst;
    QueryFirstFailure(f, m);
  }

  lemma {:induction false} QueryFirstFailure(f: Fsm, m: BackendMessage)
    ensures FailsWith(HandleQueryFirst(f, m), HandleQueryFirst(On(f), m), m)
  {
  }

  lemma {:induction false} ErrorReads(f: Fsm, m: BackendMessage)
    requires f.current < |f.messages|
    ensures !HandleError(f, m).verdict.Done?
  {
    hide NextSync, Skips;
  }

  /** The same state with COPY on. */
  lemma {:induction false} StandingOn(ms: seq<RequestMessage>, allowCopy: bool, v: seq<BackendMessage>)
    requires Accepted(ms) && Run(Init(ms, allowCopy), v).verdict.Read?
    ensures Run(Init(ms, true), v).verdict.Read? && Run(Init(ms, true), v).fsm == On(Run(Init(ms, allowCopy), v).fsm)
  {
    hide Run, Consistent, Accepted;
    InitConsistent(ms, allowCopy);
    RunGood(Init(ms, allowCopy), v);
    if !allowCopy {
      ReadsNoCopyOut(Init(ms, false), v);
      RunCopyOff(Init(ms, true), v);
      InitConsistent(ms, true);
      RunGood(Init(ms, true), v);
    }
  }

  /** The verdict on every message that is not asynchronous, for every accepted request and every
      word that still reads, COPY on or off: done exactly if the word is now a reply; going on
      exactly if it can be continued to one; otherwise an error without callbacks, which is that
      COPY is not allowed exactly for a COPY OUT that the grammar with COPY has there. */
  lemma {:induction false} VerdictExactly(ms: seq<RequestMessage>, allowCopy: bool, v: seq<BackendMessage>, m: BackendMessage)
    requires Accepted(ms) && !IsAsync(m.kind) && Run(Init(ms, allowCopy), v).verdict.Read?
    ensures var s := Resume(Run(Init(ms, allowCopy), v).fsm, m); var word := v + [m];
      && s.verdict ==
           (if IsReply(ms, allowCopy, word) then Done(None)
            else if Extends(ms, allowCopy, word) then Read
            else Done(Some(ErrorFor(m, Extends(ms, true, word)))))
      && (!Extends(ms, allowCopy, word) ==> s.calls == [])
  {
    hide Run, Resume, Extends, IsReply, Consistent, IsAsync, Accepted;
    var f := Run(Init(ms, allowCopy), v).fsm;
    TakenExactly(ms, allowCopy, v, m);
    StandingOn(ms, allowCopy, v);
    TakenExactly(ms, true, v, m);
    InitConsistent(ms, allowCopy);
    RunGood(Init(ms, allowCopy), v);
    FailureIs(f, m);
    CopyOutEndsNothing(On(f), m);
  }

  lemma {:induction false} CopyOutEndsNothing(f: Fsm, m: BackendMessage)
    ensures m.kind == CopyOutResponse ==> Resume(f, m).verdict != Done(None)
  {
    hide NextSync, Skips, HandleError;
  }
}
