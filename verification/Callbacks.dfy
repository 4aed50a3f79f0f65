/** What the response handler sees: the discipline of the callbacks made by the response
    state machine (src/read_response_fsm.cpp). */
module Callbacks {
  import opened Messages
  import opened CheckRequest
  import opened ResponseFsm

  /** Messages that never get a callback. */
  predicate Silent(r: RequestMessage) {
    r == Sync || r == Flush
  }

  /** Messages of the extended protocol that are answered. */
  predicate Extended(r: RequestMessage) {
    !Silent(r) && r != Query
  }

  predicate IsError(e: HandlerEvent) {
    e.Deliver? && e.msg.kind == ErrorResponse
  }

  /** The callbacks that finish a message. Those that do not are the rows of an execute and the
      row description that announces its COPY data. */
  predicate Finishes(r: RequestMessage, e: HandlerEvent) {
    r == Execute ==>
      || e.MessageSkipped?
      || IsError(e)
      || (e.Deliver? && e.msg.kind in {CommandComplete, EmptyQueryResponse, PortalSuspended})
  }

  /** How many of the callbacks finish the message at o. */
  function Finished(ms: seq<RequestMessage>, cs: seq<Call>, o: nat): nat
    requires o < |ms|
  {
    if cs == [] then 0
    else
      var last := cs[|cs| - 1];
      Finished(ms, cs[..|cs| - 1], o) + if last.offset == o && Finishes(ms[o], last.event) then 1 else 0
  }

  ghost predicate CalledAt(cs: seq<Call>, o: nat) {
    exists i :: 0 <= i < |cs| && cs[i].offset == o
  }

  ghost predicate SkippedAt(cs: seq<Call>, o: nat) {
    exists i :: 0 <= i < |cs| && cs[i].offset == o && cs[i].event == MessageSkipped
  }

  ghost predicate ErrorAt(cs: seq<Call>, o: nat) {
    exists i :: 0 <= i < |cs| && cs[i].offset == o && IsError(cs[i].event)
  }

  /** An extended message before o failed, and no sync stands between it and o. */
  ghost predicate Dead(ms: seq<RequestMessage>, cs: seq<Call>, o: nat)
    requires o <= |ms|
  {
    exists e :: 0 <= e < o && ErrorAt(cs, e) && Extended(ms[e]) && forall k | e <= k < o :: ms[k] != Sync
  }

  predicate Ordered(cs: seq<Call>) {
    forall i, j | 0 <= i < j < |cs| :: cs[i].offset <= cs[j].offset
  }

  /** The message at o is behind the machine and was answered as it must be. */
  ghost predicate Answered(ms: seq<RequestMessage>, cs: seq<Call>, o: nat)
    requires o < |ms|
  {
    && (Extended(ms[o]) ==> Finished(ms, cs, o) == 1)
    && (ms[o] == Query ==> CalledAt(cs, o))
    && (SkippedAt(cs, o) <==> !Silent(ms[o]) && Dead(ms, cs, o))
  }

  /** The message at c is the current one and is not answered yet. */
  ghost predicate Unanswered(ms: seq<RequestMessage>, phase: Phase, cs: seq<Call>, c: nat)
    requires c < |ms|
  {
    && (Extended(ms[c]) ==> Finished(ms, cs, c) == 0)
    && !SkippedAt(cs, c)
    && (Extended(ms[c]) ==> !ErrorAt(cs, c))
    && (ms[c] != Sync ==> !Dead(ms, cs, c))
    && (phase != MsgFirst && ms[c] == Query ==> CalledAt(cs, c))
  }

  /** The callbacks made so far, when the machine rests in state f. */
  ghost predicate Disciplined(f: Fsm, cs: seq<Call>) {
    && f.current <= |f.messages|
    && Ordered(cs)
    && (forall i | 0 <= i < |cs| :: cs[i].offset <= f.current && cs[i].offset < |f.messages|)
    && (forall i | 0 <= i < |cs| :: !Silent(f.messages[cs[i].offset]))
    && (forall o | 0 <= o < f.current :: Answered(f.messages, cs, o))
    && (f.current < |f.messages| ==> Unanswered(f.messages, f.phase, cs, f.current))
  }

  lemma {:induction false} FinishedAppend(ms: seq<RequestMessage>, cs: seq<Call>, ds: seq<Call>, o: nat)
    requires o < |ms|
    ensures Finished(ms, cs + ds, o) == Finished(ms, cs, o) + Finished(ms, ds, o)
    decreases |ds|
  {
    if ds == [] {
      assert cs + ds == cs;
    } else {
      assert (cs + ds)[..|cs + ds| - 1] == cs + ds[..|ds| - 1];
      FinishedAppend(ms, cs, ds[..|ds| - 1], o);
    }
  }

  lemma {:induction false} FinishedElsewhere(ms: seq<RequestMessage>, cs: seq<Call>, o: nat)
    requires o < |ms| && forall i | 0 <= i < |cs| :: cs[i].offset != o || !Finishes(ms[o], cs[i].event)
    ensures Finished(ms, cs, o) == 0
    decreases |cs|
  {
    if cs != [] {
      FinishedElsewhere(ms, cs[..|cs| - 1], o);
    }
  }

  /** The callbacks ds are for offsets from c on: what lies before c stays as it was. */
  lemma {:induction false} AnsweredStays(ms: seq<RequestMessage>, cs: seq<Call>, ds: seq<Call>, c: nat, o: nat)
    requires o < c <= |ms| && Answered(ms, cs, o)
    requires forall i | 0 <= i < |ds| :: ds[i].offset >= c
    ensures Answered(ms, cs + ds, o)
  {
    FinishedAppend(ms, cs, ds, o);
    FinishedElsewhere(ms, ds, o);
    DeadStays(ms, cs, ds, o);
    CalledAppend(cs, ds, o);
  }

  lemma {:induction false} CalledAppend(cs: seq<Call>, ds: seq<Call>, o: nat)
    ensures CalledAt(cs + ds, o) <==> CalledAt(cs, o) || CalledAt(ds, o)
    ensures SkippedAt(cs + ds, o) <==> SkippedAt(cs, o) || SkippedAt(ds, o)
    ensures ErrorAt(cs + ds, o) <==> ErrorAt(cs, o) || ErrorAt(ds, o)
  {
    var es := cs + ds;
    forall i | 0 <= i < |ds| ensures es[|cs| + i] == ds[i] {
    }
    forall i | 0 <= i < |cs| ensures es[i] == cs[i] {
    }
    forall i | |cs| <= i < |es| ensures es[i] == ds[i - |cs|] {
    }
  }

  lemma {:induction false} DeadStays(ms: seq<RequestMessage>, cs: seq<Call>, ds: seq<Call>, o: nat)
    requires o <= |ms| && forall i | 0 <= i < |ds| :: ds[i].offset >= o
    ensures Dead(ms, cs + ds, o) <==> Dead(ms, cs, o)
  {
    forall e: nat | e < o ensures ErrorAt(cs + ds, e) <==> ErrorAt(cs, e) {
      CalledAppend(cs, ds, e);
    }
  }

  // ----- each way of taking a step keeps the discipline

  /** The callbacks ds are for the message at c and do not say that it was skipped. */
  predicate ForMessage(ds: seq<Call>, c: nat) {
    forall i | 0 <= i < |ds| :: ds[i].offset == c && ds[i].event != MessageSkipped
  }

  /** The parts of the discipline about offsets only. */
  lemma {:induction false} OffsetsStay(f: Fsm, cs: seq<Call>, ds: seq<Call>)
    requires Disciplined(f, cs) && f.current < |f.messages|
    requires ForMessage(ds, f.current) && (ds != [] ==> !Silent(f.messages[f.current]))
    ensures Ordered(cs + ds)
    ensures forall i | 0 <= i < |cs + ds| ::
      (cs + ds)[i].offset <= f.current && !Silent(f.messages[(cs + ds)[i].offset])
    ensures forall o | 0 <= o < f.current :: Answered(f.messages, cs + ds, o)
  {
    forall o | 0 <= o < f.current ensures Answered(f.messages, cs + ds, o) {
      AnsweredStays(f.messages, cs, ds, f.current, o);
    }
  }

  lemma {:induction false} StayDisciplined(f: Fsm, cs: seq<Call>, phase: Phase, ds: seq<Call>)
    requires Disciplined(f, cs) && f.current < |f.messages| && !Silent(f.messages[f.current])
    requires ForMessage(ds, f.current)
    requires Extended(f.messages[f.current]) ==>
      forall i | 0 <= i < |ds| :: !Finishes(f.messages[f.current], ds[i].event) && !IsError(ds[i].event)
    requires f.messages[f.current] == Query ==> f.phase != MsgFirst || ds != []
    ensures Disciplined(f.(phase := phase), cs + ds)
  {
    hide Answered;
    var c := f.current;
    OffsetsStay(f, cs, ds);
    CalledAppend(cs, ds, c);
    DeadStays(f.messages, cs, ds, c);
    FinishedAppend(f.messages, cs, ds, c);
    if Extended(f.messages[c]) {
      FinishedElsewhere(f.messages, ds, c);
    }
    if ds != [] {
      assert ds[0].offset == c;
    }
  }

  lemma {:induction false} AdvanceDisciplined(f: Fsm, cs: seq<Call>, ds: seq<Call>)
    requires Disciplined(f, cs) && f.current < |f.messages| && f.messages[f.current] != Flush
    requires ForMessage(ds, f.current)
    requires Extended(f.messages[f.current]) ==>
      Finished(f.messages, ds, f.current) == 1 && forall i | 0 <= i < |ds| :: !IsError(ds[i].event)
    requires f.messages[f.current] == Query ==> f.phase != MsgFirst
    requires !Extended(f.messages[f.current]) ==> ds == []
    ensures Disciplined(Advance(f, ds).fsm, cs + ds)
  {
    var c, ms := f.current, f.messages;
    hide Answered, Unanswered, CalledAt, SkippedAt, ErrorAt, Dead, Finished;
    OffsetsStay(f, cs, ds);
    AdvanceAnswers(f, cs, ds);
    if c + 1 < |ms| {
      NotReached(ms, cs + ds, c + 1);
    }
  }

  lemma {:induction false} AdvanceAnswers(f: Fsm, cs: seq<Call>, ds: seq<Call>)
    requires f.current < |f.messages| && Unanswered(f.messages, f.phase, cs, f.current) && f.messages[f.current] != Flush
    requires ForMessage(ds, f.current)
    requires Extended(f.messages[f.current]) ==>
      Finished(f.messages, ds, f.current) == 1 && forall i | 0 <= i < |ds| :: !IsError(ds[i].event)
    requires f.messages[f.current] == Query ==> f.phase != MsgFirst
    ensures Answered(f.messages, cs + ds, f.current)
    ensures f.messages[f.current] != Sync ==> !Dead(f.messages, cs + ds, f.current)
    ensures Extended(f.messages[f.current]) ==> !ErrorAt(cs + ds, f.current)
  {
    CalledAppend(cs, ds, f.current);
    DeadStays(f.messages, cs, ds, f.current);
    FinishedAppend(f.messages, cs, ds, f.current);
  }

  /** The message after the current one, once that is behind the machine. */
  lemma {:induction false} NotReached(ms: seq<RequestMessage>, cs: seq<Call>, o: nat)
    requires 0 < o < |ms| && forall i | 0 <= i < |cs| :: cs[i].offset < o
    requires ms[o - 1] != Sync ==> !Dead(ms, cs, o - 1)
    requires Extended(ms[o - 1]) ==> !ErrorAt(cs, o - 1)
    ensures Unanswered(ms, MsgFirst, cs, o)
  {
    FinishedElsewhere(ms, cs, o);
  }

  lemma {:induction false} FlushDisciplined(f: Fsm, cs: seq<Call>)
    requires Disciplined(f, cs) && f.current < |f.messages|
    requires f.phase != MsgFirst ==> f.messages[f.current] != Flush
    requires SkipFlush(f.messages, f.current) < |f.messages|
    ensures Disciplined(f.(current := SkipFlush(f.messages, f.current)), cs)
    decreases |f.messages| - f.current
  {
    var c, ms := f.current, f.messages;
    if ms[c] == Flush {
      assert !CalledAt(cs, c);
      assert Answered(ms, cs, c);
      NotReached(ms, cs, c + 1);
      FlushDisciplined(f.(current := c + 1), cs);
    }
  }

  lemma {:induction false} OrderedAppend(cs: seq<Call>, ds: seq<Call>)
    requires Ordered(cs) && Ordered(ds)
    requires forall i, j | 0 <= i < |cs| && 0 <= j < |ds| :: cs[i].offset <= ds[j].offset
    ensures Ordered(cs + ds)
  {
  }

  /** Skip notes are for messages from i up to j other than a flush. */
  predicate AreSkips(ms: seq<RequestMessage>, i: nat, j: nat, ds: seq<Call>) {
    forall k | 0 <= k < |ds| ::
      i <= ds[k].offset < j && j <= |ms| && ms[ds[k].offset] != Flush && ds[k].event == MessageSkipped
  }

  lemma {:induction false} SkipsUnroll(ms: seq<RequestMessage>, i: nat, j: nat)
    requires i <= j <= |ms|
    ensures i == j ==> Skips(ms, i, j) == []
    ensures i < j && ms[i] == Flush ==> Skips(ms, i, j) == Skips(ms, i + 1, j)
    ensures i < j && ms[i] != Flush ==> Skips(ms, i, j) == [Call(i, MessageSkipped)] + Skips(ms, i + 1, j)
  {
  }

  lemma {:induction false} SkipsShape(ms: seq<RequestMessage>, i: nat, j: nat)
    requires i <= j <= |ms|
    ensures Ordered(Skips(ms, i, j))
    ensures AreSkips(ms, i, j, Skips(ms, i, j))
    decreases j - i
  {
    hide Skips;
    SkipsUnroll(ms, i, j);
    if i < j {
      SkipsShape(ms, i + 1, j);
      if ms[i] != Flush {
        OrderedAppend([Call(i, MessageSkipped)], Skips(ms, i + 1, j));
      }
    }
  }

  lemma {:induction false} One(ms: seq<RequestMessage>, c: nat, e: HandlerEvent, o: nat)
    requires o < |ms|
    ensures Finished(ms, [Call(c, e)], o) == if c == o && Finishes(ms[o], e) then 1 else 0
    ensures SkippedAt([Call(c, e)], o) <==> c == o && e == MessageSkipped
    ensures ErrorAt([Call(c, e)], o) <==> c == o && IsError(e)
  {
    var cs := [Call(c, e)];
    assert cs[..0] == [];
    assert cs[0] == Call(c, e);
  }

  lemma {:induction false} SkipsCount(ms: seq<RequestMessage>, i: nat, j: nat, o: nat)
    requires i <= j <= |ms| && o < |ms|
    ensures Finished(ms, Skips(ms, i, j), o) == if i <= o < j && ms[o] != Flush then 1 else 0
    ensures SkippedAt(Skips(ms, i, j), o) <==> i <= o < j && ms[o] != Flush
    decreases j - i
  {
    hide Skips;
    SkipsUnroll(ms, i, j);
    if i < j {
      hide Finished, SkippedAt, ErrorAt, CalledAt;
      SkipsCount(ms, i + 1, j, o);
      if ms[i] != Flush {
        One(ms, i, MessageSkipped, o);
        FinishedAppend(ms, [Call(i, MessageSkipped)], Skips(ms, i + 1, j), o);
        CalledAppend([Call(i, MessageSkipped)], Skips(ms, i + 1, j), o);
      }
    }
  }

  /** What an error adds to the callbacks, message by message. */
  lemma {:induction false} ErrorCounts(ms: seq<RequestMessage>, cs: seq<Call>, m: BackendMessage, c: nat, j: nat, o: nat)
    requires c < j <= |ms| && o < |ms| && m.kind == ErrorResponse
    ensures var es := cs + ([Call(c, Deliver(m))] + Skips(ms, c + 1, j));
      && Finished(ms, es, o) == Finished(ms, cs, o) +
           (if o == c || (c < o < j && ms[o] != Flush) then 1 else 0)
      && (SkippedAt(es, o) <==> SkippedAt(cs, o) || (c < o < j && ms[o] != Flush))
      && (o == c ==> ErrorAt(es, o))
  {
    hide Finished, SkippedAt, ErrorAt, CalledAt, Skips;
    var err, skips := [Call(c, Deliver(m))], Skips(ms, c + 1, j);
    One(ms, c, Deliver(m), o);
    SkipsCount(ms, c + 1, j, o);
    CalledAppend(err, skips, o);
    CalledAppend(cs, err + skips, o);
    FinishedAppend(ms, err, skips, o);
    FinishedAppend(ms, cs, err + skips, o);
  }

  /** The failed message itself, and the messages skipped after it. */
  lemma {:induction false} ErrorAnswers(ms: seq<RequestMessage>, cs: seq<Call>, m: BackendMessage, c: nat, j: nat, o: nat)
    requires c <= o < j <= |ms| && Extended(ms[c]) && m.kind == ErrorResponse
    requires forall k | c <= k < j :: ms[k] != Sync && ms[k] != Query
    requires forall i | 0 <= i < |cs| :: cs[i].offset <= c
    requires exists phase :: Unanswered(ms, phase, cs, c)
    ensures Answered(ms, cs + ([Call(c, Deliver(m))] + Skips(ms, c + 1, j)), o)
  {
    hide Finished, ErrorAt, CalledAt, Skips;
    var ds := [Call(c, Deliver(m))] + Skips(ms, c + 1, j);
    SkipsShape(ms, c + 1, j);
    ErrorCounts(ms, cs, m, c, j, o);
    if o == c {
      DeadStays(ms, cs, ds, c);
    } else {
      FinishedElsewhere(ms, cs, o);
      ErrorCounts(ms, cs, m, c, j, c);
      assert Dead(ms, cs + ds, o);
    }
  }

  lemma {:induction false} ErrorOffsets(ms: seq<RequestMessage>, cs: seq<Call>, m: BackendMessage, c: nat, j: nat)
    requires c < j <= |ms| && !Silent(ms[c]) && Ordered(cs)
    requires forall k | c <= k < j :: ms[k] != Sync
    requires forall i | 0 <= i < |cs| :: cs[i].offset <= c && !Silent(ms[cs[i].offset])
    ensures var es := cs + ([Call(c, Deliver(m))] + Skips(ms, c + 1, j));
      Ordered(es) && forall i | 0 <= i < |es| :: es[i].offset < j && !Silent(ms[es[i].offset])
  {
    hide Skips;
    SkipsShape(ms, c + 1, j);
    OrderedAppend([Call(c, Deliver(m))], Skips(ms, c + 1, j));
    OrderedAppend(cs, [Call(c, Deliver(m))] + Skips(ms, c + 1, j));
  }

  lemma {:induction false} ErrorDisciplined(f: Fsm, cs: seq<Call>, m: BackendMessage)
    requires Disciplined(f, cs) && Consistent(f) && m.kind == ErrorResponse
    requires Extended(f.messages[f.current])
    ensures Disciplined(HandleError(f, m).fsm, cs + HandleError(f, m).calls)
  {
    hide Answered, Unanswered, Closed, Skips, NextSync, ExpectedReady;
    var c, ms := f.current, f.messages;
    var j := NextSync(ms, c + 1);
    var es := cs + HandleError(f, m).calls;
    OpenAfter(ms, c);
    NextSyncSafe(ms, c + 1);
    ErrorOffsets(ms, cs, m, c, j);
    forall o | 0 <= o < j ensures Answered(ms, es, o) {
      if o < c {
        SkipsShape(ms, c + 1, j);
        AnsweredStays(ms, cs, HandleError(f, m).calls, c, o);
      } else {
        ErrorAnswers(ms, cs, m, c, j, o);
      }
    }
    SyncUnanswered(ms, es, j);
  }

  lemma {:induction false} SyncUnanswered(ms: seq<RequestMessage>, cs: seq<Call>, j: nat)
    requires j < |ms| && ms[j] == Sync && forall i | 0 <= i < |cs| :: cs[i].offset < j
    ensures Unanswered(ms, MsgFirst, cs, j)
  {
  }

  lemma {:induction false} OpenAfter(ms: seq<RequestMessage>, c: nat)
    requires c < |ms| && Closed(ms[c..], false) && ms[c] != Sync && ms[c] != Query
    ensures Closed(ms[c + 1..], true)
  {
    Drop(ms, c);
  }

  // ----- every step, and whole runs

  /** The step ends without an error. */
  predicate Ongoing(s: Step) {
    s.verdict.Read? || s.verdict == Done(None)
  }

  ghost predicate Keeps(s: Step, cs: seq<Call>) {
    Ongoing(s) ==> Disciplined(s.fsm, cs + s.calls)
  }

  lemma {:induction false} ExecuteDisciplined(f: Fsm, cs: seq<Call>, m: BackendMessage)
    requires f.current < |f.messages| && f.messages[f.current] == Execute
    requires Disciplined(f, cs) && Consistent(f)
    ensures Keeps(HandleExecute(f, m), cs)
  {
    hide Disciplined, Consistent, HandleError, Finished;
    if Ongoing(HandleExecute(f, m)) {
      if m.kind == ErrorResponse {
        ErrorDisciplined(f, cs, m);
      } else if m.kind == DataRow {
        StayDisciplined(f, cs, MsgFirst, At(f, Deliver(m)));
      } else if m.kind == CopyOutResponse {
        StayDisciplined(f, cs, ExecCopyOut, At(f, SyntheticRowDescription));
      } else if m.kind == CopyData {
        StayDisciplined(f, cs, ExecCopyOut, []);
      } else if m.kind == CopyDone {
        StayDisciplined(f, cs, ExecCopyOutNeedsCommandComplete, []);
      } else {
        One(f.messages, f.current, Deliver(m), f.current);
        AdvanceDisciplined(f, cs, At(f, Deliver(m)));
      }
    }
  }

  lemma {:induction false} AckDisciplined(f: Fsm, cs: seq<Call>, m: BackendMessage, ack: Kind)
    requires f.current < |f.messages| && IsAcked(f.messages[f.current]) && ack != ErrorResponse
    requires Disciplined(f, cs) && Consistent(f)
    ensures Keeps(HandleAck(f, m, ack), cs)
  {
    hide Disciplined, Consistent, HandleError, Finished;
    if Ongoing(HandleAck(f, m, ack)) {
      if m.kind == ErrorResponse {
        ErrorDisciplined(f, cs, m);
      } else {
        One(f.messages, f.current, Deliver(m), f.current);
        AdvanceDisciplined(f, cs, At(f, Deliver(m)));
      }
    }
  }

  lemma {:induction false} DescribeDisciplined(f: Fsm, cs: seq<Call>, m: BackendMessage)
    requires f.current < |f.messages| && f.messages[f.current] == Describe
    requires Disciplined(f, cs) && Consistent(f)
    ensures Keeps(HandleDescribe(f, m), cs)
  {
    hide Disciplined, Consistent, HandleError, Finished;
    if Ongoing(HandleDescribe(f, m)) {
      if m.kind == ErrorResponse {
        ErrorDisciplined(f, cs, m);
      } else if m.kind == RowDescription {
        One(f.messages, f.current, Deliver(m), f.current);
        AdvanceDisciplined(f, cs, At(f, Deliver(m)));
      } else {
        One(f.messages, f.current, SyntheticRowDescription, f.current);
        AdvanceDisciplined(f, cs, At(f, SyntheticRowDescription));
      }
    }
  }

  lemma {:induction false} QueryDisciplined(f: Fsm, cs: seq<Call>, m: BackendMessage)
    requires f.current < |f.messages| && f.messages[f.current] == Query
    requires Disciplined(f, cs) && Consistent(f)
    ensures Keeps(HandleQuery(f, m), cs)
  {
    hide Disciplined, Finished;
    var s := HandleQuery(f, m);
    if Ongoing(s) {
      if m.kind == ReadyForQuery {
        AdvanceDisciplined(f, cs, []);
      } else {
        assert ForMessage(s.calls, f.current);
        StayDisciplined(f, cs, s.fsm.phase, s.calls);
      }
    }
  }

  lemma {:induction false} DispatchDisciplined(f: Fsm, cs: seq<Call>, m: BackendMessage)
    requires f.current < |f.messages| && f.messages[f.current] != Flush
    requires Disciplined(f, cs) && Consistent(f)
    ensures Keeps(Dispatch(f, m), cs)
  {
    hide Disciplined, Consistent, HandleAck, HandleDescribe, HandleExecute, HandleQuery, Finished;
    match f.messages[f.current] {
      case Bind => AckDisciplined(f, cs, m, BindComplete);
      case Close => AckDisciplined(f, cs, m, CloseComplete);
      case Parse => AckDisciplined(f, cs, m, ParseComplete);
      case Describe => DescribeDisciplined(f, cs, m);
      case Execute => ExecuteDisciplined(f, cs, m);
      case Query => QueryDisciplined(f, cs, m);
      case Sync => AdvanceDisciplined(f, cs, []);
    }
  }

  /** Every step keeps the discipline. */
  lemma {:induction false} ResumeDisciplined(f: Fsm, cs: seq<Call>, m: BackendMessage)
    requires Disciplined(f, cs) && Consistent(f)
    ensures Keeps(Resume(f, m), cs)
  {
    hide Disciplined, Dispatch;
    if IsAsync(m.kind) {
      assert cs + [] == cs;
    } else {
      SkipFlushSafe(f.messages, f.current);
      FlushDisciplined(f, cs);
      DispatchDisciplined(f.(current := SkipFlush(f.messages, f.current)), cs, m);
    }
  }

  lemma {:induction false} RunDisciplined(f: Fsm, cs: seq<Call>, w: seq<BackendMessage>)
    requires Disciplined(f, cs) && Consistent(f)
    ensures Keeps(Run(f, w), cs)
    decreases |w|
  {
    hide Disciplined, Resume, Consistent;
    if w == [] {
      assert cs + [] == cs;
    } else {
      ResumeDisciplined(f, cs, w[0]);
      ResumeGood(f, w[0]);
      var s := Resume(f, w[0]);
      if s.verdict.Read? {
        RunDisciplined(s.fsm, cs + s.calls, w[1..]);
        assert cs + (s.calls + Run(s.fsm, w[1..]).calls) == (cs + s.calls) + Run(s.fsm, w[1..]).calls;
      }
    }
  }

  lemma {:induction false} StartDisciplined(ms: seq<RequestMessage>, allowCopy: bool)
    requires Accepted(ms)
    ensures Disciplined(Init(ms, allowCopy), [])
  {
  }

  /** The callbacks of any run that has not failed, at any point of it. */
  lemma {:induction false} RunFromStart(ms: seq<RequestMessage>, allowCopy: bool, w: seq<BackendMessage>)
    requires Accepted(ms) && Ongoing(Run(Init(ms, allowCopy), w))
    ensures var s := Run(Init(ms, allowCopy), w); Disciplined(s.fsm, s.calls) && s.fsm.messages == ms
  {
    hide Disciplined, Run, Consistent;
    InitConsistent(ms, allowCopy);
    StartDisciplined(ms, allowCopy);
    RunDisciplined(Init(ms, allowCopy), [], w);
    RunGood(Init(ms, allowCopy), w);
    var s := Run(Init(ms, allowCopy), w);
    assert [] + s.calls == s.calls;
  }

  /** Callback discipline: in every successful run on an accepted request, the offsets handed
      to the handler never decrease; syncs and flushes get no callback; each bind, parse,
      close, describe and execute gets exactly one callback that finishes it; each query gets
      at least one; and the skip notes go to exactly the messages other than a flush that
      stand between a failed extended message and the next sync. */
  lemma {:induction false} CallbackDiscipline(ms: seq<RequestMessage>, allowCopy: bool, w: seq<BackendMessage>)
    requires Accepted(ms) && Run(Init(ms, allowCopy), w).verdict == Done(None)
    ensures var cs := Run(Init(ms, allowCopy), w).calls;
      && Ordered(cs)
      && (forall i | 0 <= i < |cs| :: cs[i].offset < |ms| && !Silent(ms[cs[i].offset]))
      && (forall o | 0 <= o < |ms| && Extended(ms[o]) :: Finished(ms, cs, o) == 1)
      && (forall o | 0 <= o < |ms| && ms[o] == Query :: CalledAt(cs, o))
      && (forall o | 0 <= o < |ms| :: SkippedAt(cs, o) <==> !Silent(ms[o]) && Dead(ms, cs, o))
  {
    hide Run, Finished, CalledAt, SkippedAt, Dead;
    RunFromStart(ms, allowCopy, w);
    AcceptedRequestIsSafe(ms, allowCopy, w);
    var cs := Run(Init(ms, allowCopy), w).calls;
    forall o | 0 <= o < |ms|
      ensures Extended(ms[o]) ==> Finished(ms, cs, o) == 1
      ensures ms[o] == Query ==> CalledAt(cs, o)
      ensures SkippedAt(cs, o) <==> !Silent(ms[o]) && Dead(ms, cs, o)
    {
      assert Answered(ms, cs, o);
    }
  }
}
