/** The callbacks of a reply, read off its messages: for which message of the request each one is,
    and where a description is made up (src/read_response_fsm.cpp). Nothing here knows the states
    of the machine. */
module Script {
  import opened Messages
  import opened CheckRequest
  import opened ResponseFsm

  /** The message is the last one of the answer to r, errors of extended messages aside. */
  predicate Ends(r: RequestMessage, k: Kind) {
    if r == Query || r == Sync then k == ReadyForQuery
    else k != DataRow && k != CopyOutResponse && k != CopyData && k != CopyDone
  }

  /** The server skips to the next sync after an error, unless it was in a query. */
  predicate Skipping(r: RequestMessage, k: Kind) {
    k == ErrorResponse && r != Query && r != Sync
  }

  /** The request message that is answered after message k of the answer to the one at i. */
  function Onward(ms: seq<RequestMessage>, i: nat, k: Kind): (j: nat)
    requires i < |ms|
    ensures j <= |ms|
  {
    if Skipping(ms[i], k) then NextSync(ms, i + 1)
    else if Ends(ms[i], k) then SkipFlush(ms, i + 1)
    else i
  }

  /** The request message that the next message of the reply is for; the end of the request when
      the reply is over. */
  function Place(ms: seq<RequestMessage>, v: seq<BackendMessage>): (i: nat)
    ensures i <= |ms|
  {
    if v == [] then SkipFlush(ms, 0)
    else
      var i, k := Place(ms, v[..|v| - 1]), v[|v| - 1].kind;
      if IsAsync(k) || i == |ms| then i else Onward(ms, i, k)
  }

  /** The message before, if it belongs to the same answer. */
  function Before(ms: seq<RequestMessage>, v: seq<BackendMessage>): Kind {
    if v == [] then NoMessage
    else
      var init, k := v[..|v| - 1], v[|v| - 1].kind;
      if IsAsync(k) then Before(ms, init)
      else if Place(ms, v) == Place(ms, init) then k
      else NoMessage
  }

  /** A CommandComplete of a query that no description, row or copy came before. */
  predicate BareCommand(r: RequestMessage, before: Kind, k: Kind) {
    r == Query && k == CommandComplete && before != RowDescription && before != DataRow && before != CopyDone
  }

  /** What the handler is told on a message of the answer to the request message at i. */
  function Told(i: nat, r: RequestMessage, before: Kind, m: BackendMessage): seq<Call> {
    if m.kind == NoData || m.kind == CopyOutResponse then [Call(i, SyntheticRowDescription)]
    else if BareCommand(r, before, m.kind) then [Call(i, SyntheticRowDescription), Call(i, Deliver(m))]
    else if m.kind == CopyData || m.kind == CopyDone || m.kind == ReadyForQuery then []
    else [Call(i, Deliver(m))]
  }

  /** The callbacks for a word. */
  function Script(ms: seq<RequestMessage>, v: seq<BackendMessage>): seq<Call> {
    if v == [] then []
    else
      var init, m := v[..|v| - 1], v[|v| - 1];
      Script(ms, init) + Line(ms, Place(ms, init), Before(ms, init), m)
  }

  /** The callbacks for one message: an error is followed by a note for every request message that
      the server skips, flushes aside. */
  function Line(ms: seq<RequestMessage>, i: nat, before: Kind, m: BackendMessage): seq<Call>
    requires i <= |ms|
  {
    if IsAsync(m.kind) || i == |ms| then []
    else Told(i, ms[i], before, m) + if Skipping(ms[i], m.kind) then Skips(ms, i + 1, NextSync(ms, i + 1)) else []
  }

  // ----- the machine follows the script

  /** The state of a machine that waits in the answer to a query, by the message before. */
  predicate Tuned(r: RequestMessage, phase: Phase, before: Kind) {
    r == Query ==>
      match phase
      case MsgFirst => before == NoMessage
      case QueryFirst => before == CommandComplete
      case QueryRows => before == RowDescription || before == DataRow
      case QueryCopyOut => before == CopyOutResponse || before == CopyData
      case QueryCopyOutNeedsCommandComplete => before == CopyDone
      case _ => true
  }

  /** The step s on message m, in the answer to the request message at i, follows the script. */
  predicate Follows(f: Fsm, before: Kind, m: BackendMessage, s: Step)
    requires f.current < |f.messages|
  {
    s.verdict == Read || s.verdict == Done(None) ==>
      var ms, i := f.messages, f.current; var j := Onward(ms, i, m.kind);
      && s.fsm.messages == ms && s.fsm.current <= |ms| && SkipFlush(ms, s.fsm.current) == j
      && s.calls == Line(ms, i, before, m)
      && (j < |ms| ==> Tuned(ms[j], s.fsm.phase, if j == i then m.kind else NoMessage))
  }

  lemma {:induction false} StaysPut(ms: seq<RequestMessage>, i: nat)
    requires i <= |ms|
    ensures SkipFlush(ms, SkipFlush(ms, i)) == SkipFlush(ms, i)
    ensures i < |ms| && ms[i] != Flush ==> SkipFlush(ms, i) == i
  {
  }

  lemma {:induction false} SyncStays(ms: seq<RequestMessage>, i: nat)
    requires i <= |ms|
    ensures SkipFlush(ms, NextSync(ms, i)) == NextSync(ms, i)
  {
  }

  lemma {:induction false} ErrorFollows(f: Fsm, before: Kind, m: BackendMessage)
    requires f.current < |f.messages| && m.kind == ErrorResponse && f.messages[f.current] != Query && f.messages[f.current] != Sync
    ensures Follows(f, before, m, HandleError(f, m))
  {
    hide NextSync, Skips, SkipFlush, Line, Onward, Tuned;
    SyncStays(f.messages, f.current + 1);
    ErrorLine(f, before, m);
    NewAnswer(f.messages[NextSync(f.messages, f.current + 1)..]);
  }

  lemma {:induction false} ErrorLine(f: Fsm, before: Kind, m: BackendMessage)
    requires f.current < |f.messages| && m.kind == ErrorResponse && f.messages[f.current] != Query && f.messages[f.current] != Sync
    ensures var j := NextSync(f.messages, f.current + 1);
      && Onward(f.messages, f.current, m.kind) == j
      && Line(f.messages, f.current, before, m) == [Call(f.current, Deliver(m))] + Skips(f.messages, f.current + 1, j)
  {
    hide NextSync, Skips, SkipFlush;
  }

  lemma {:induction false} NewAnswer(ms: seq<RequestMessage>)
    ensures ms != [] ==> Tuned(ms[0], MsgFirst, NoMessage)
  {
  }

  lemma {:induction false} AdvanceFollows(f: Fsm, before: Kind, m: BackendMessage, calls: seq<Call>)
    requires f.current < |f.messages| && Ends(f.messages[f.current], m.kind) && !Skipping(f.messages[f.current], m.kind)
    requires calls == Line(f.messages, f.current, before, m)
    ensures Follows(f, before, m, Advance(f, calls))
  {
    hide NextSync, Skips, SkipFlush, Line;
  }

  lemma {:induction false} StayFollows(f: Fsm, before: Kind, m: BackendMessage, phase: Phase, calls: seq<Call>)
    requires f.current < |f.messages| && f.messages[f.current] != Flush
    requires !Ends(f.messages[f.current], m.kind) && !Skipping(f.messages[f.current], m.kind)
    requires calls == Line(f.messages, f.current, before, m) && Tuned(f.messages[f.current], phase, m.kind)
    ensures Follows(f, before, m, Stay(f, phase, calls))
  {
    hide NextSync, Skips, SkipFlush, Line;
    StaysPut(f.messages, f.current);
  }

  lemma {:induction false} FailFollows(f: Fsm, before: Kind, m: BackendMessage, e: ClientError)
    requires f.current < |f.messages|
    ensures Follows(f, before, m, Fail(f, e))
  {
  }

  lemma {:induction false} FaultFollows(f: Fsm, before: Kind, m: BackendMessage, s: Step)
    requires f.current < |f.messages| && s.verdict.Fault?
    ensures Follows(f, before, m, s)
  {
  }

  /** The line of a message that is handed over as it is. */
  lemma {:induction false} PlainLine(f: Fsm, before: Kind, m: BackendMessage)
    requires f.current < |f.messages| && !IsAsync(m.kind) && !Skipping(f.messages[f.current], m.kind)
    ensures Line(f.messages, f.current, before, m) == Told(f.current, f.messages[f.current], before, m)
  {
    hide Told, Skips;
    assert Told(f.current, f.messages[f.current], before, m) + [] == Told(f.current, f.messages[f.current], before, m);
  }

  lemma {:induction false} AckFollows(f: Fsm, before: Kind, m: BackendMessage, ack: Kind)
    requires f.current < |f.messages| && !IsAsync(m.kind) && f.messages[f.current] != Query && f.messages[f.current] != Sync
    requires ack == BindComplete || ack == CloseComplete || ack == ParseComplete
    ensures Follows(f, before, m, HandleAck(f, m, ack))
  {
    hide HandleError, Advance, Fail, Follows, Line;
    FailFollows(f, before, m, UnexpectedMessage);
    FaultFollows(f, before, m, Step(f, Fault, []));
    if m.kind == ErrorResponse {
      ErrorFollows(f, before, m);
    } else if m.kind == ack {
      PlainLine(f, before, m);
      AdvanceFollows(f, before, m, At(f, Deliver(m)));
    }
  }

  lemma {:induction false} DescribeFollows(f: Fsm, before: Kind, m: BackendMessage)
    requires f.current < |f.messages| && !IsAsync(m.kind) && f.messages[f.current] == Describe
    ensures Follows(f, before, m, HandleDescribe(f, m))
  {
    hide HandleError, Advance, Fail, Follows, Line;
    FailFollows(f, before, m, UnexpectedMessage);
    FaultFollows(f, before, m, Step(f, Fault, []));
    if m.kind == ErrorResponse {
      ErrorFollows(f, before, m);
    } else if m.kind == RowDescription {
      PlainLine(f, before, m);
      AdvanceFollows(f, before, m, At(f, Deliver(m)));
    } else if m.kind == NoData {
      PlainLine(f, before, m);
      AdvanceFollows(f, before, m, At(f, SyntheticRowDescription));
    }
  }

  lemma {:induction false} SyncFollows(f: Fsm, before: Kind, m: BackendMessage)
    requires f.current < |f.messages| && !IsAsync(m.kind) && f.messages[f.current] == Sync
    ensures Follows(f, before, m, HandleSync(f, m))
  {
    hide Advance, Fail, Follows, Line;
    FailFollows(f, before, m, UnexpectedMessage);
    FaultFollows(f, before, m, Step(f, Fault, []));
    PlainLine(f, before, m);
    if m.kind == ReadyForQuery {
      AdvanceFollows(f, before, m, []);
    }
  }

  lemma {:induction false} ExecuteFollows(f: Fsm, before: Kind, m: BackendMessage)
    requires f.current < |f.messages| && !IsAsync(m.kind) && f.messages[f.current] == Execute
    ensures Follows(f, before, m, HandleExecute(f, m))
  {
    hide HandleError, Advance, Stay, Fail, Follows, Line;
    FailFollows(f, before, m, UnexpectedMessage);
    FailFollows(f, before, m, CopyNotAllowed);
    if m.kind == ErrorResponse {
      ErrorFollows(f, before, m);
    } else {
      PlainLine(f, before, m);
      match m.kind {
        case CopyOutResponse => StayFollows(f, before, m, ExecCopyOut, At(f, SyntheticRowDescription));
        case DataRow => StayFollows(f, before, m, MsgFirst, At(f, Deliver(m)));
        case CopyData => StayFollows(f, before, m, ExecCopyOut, []);
        case CopyDone => StayFollows(f, before, m, ExecCopyOutNeedsCommandComplete, []);
        case CommandComplete => AdvanceFollows(f, before, m, At(f, Deliver(m)));
        case EmptyQueryResponse => AdvanceFollows(f, before, m, At(f, Deliver(m)));
        case PortalSuspended => AdvanceFollows(f, before, m, At(f, Deliver(m)));
        case _ =>
      }
    }
  }

  lemma {:induction false} QueryFirstFollows(f: Fsm, before: Kind, m: BackendMessage)
    requires f.current < |f.messages| && !IsAsync(m.kind) && f.messages[f.current] == Query
    requires before == NoMessage || before == CommandComplete
    ensures Follows(f, before, m, HandleQueryFirst(f, m))
  {
    hide Advance, Stay, Fail, Follows, Line;
    FailFollows(f, before, m, UnexpectedMessage);
    FailFollows(f, before, m, CopyNotAllowed);
    PlainLine(f, before, m);
    match m.kind {
      case CopyOutResponse => StayFollows(f, before, m, QueryCopyOut, At(f, SyntheticRowDescription));
      case ErrorResponse => StayFollows(f, before, m, QueryNeedsReady, At(f, Deliver(m)));
      case EmptyQueryResponse => StayFollows(f, before, m, QueryNeedsReady, At(f, Deliver(m)));
      case RowDescription => StayFollows(f, before, m, QueryRows, At(f, Deliver(m)));
      case CommandComplete => StayFollows(f, before, m, QueryFirst, At(f, SyntheticRowDescription) + At(f, Deliver(m)));
      case ReadyForQuery => AdvanceFollows(f, before, m, []);
      case _ =>
    }
  }

  lemma {:induction false} QueryFollows(f: Fsm, before: Kind, m: BackendMessage)
    requires f.current < |f.messages| && !IsAsync(m.kind) && f.messages[f.current] == Query && Tuned(Query, f.phase, before)
    ensures Follows(f, before, m, HandleQuery(f, m))
  {
    hide Advance, Stay, Fail, Follows, Line, HandleQueryFirst;
    FailFollows(f, before, m, UnexpectedMessage);
    FaultFollows(f, before, m, Step(f, Fault, []));
    PlainLine(f, before, m);
    if f.phase == MsgFirst || f.phase == QueryFirst {
      QueryFirstFollows(f, before, m);
    } else if m.kind == ReadyForQuery {
      AdvanceFollows(f, before, m, []);
    } else if m.kind == ErrorResponse {
      StayFollows(f, before, m, QueryNeedsReady, At(f, Deliver(m)));
    } else if m.kind == DataRow {
      StayFollows(f, before, m, QueryRows, At(f, Deliver(m)));
    } else if m.kind == CopyData {
      StayFollows(f, before, m, QueryCopyOut, []);
    } else if m.kind == CopyDone {
      StayFollows(f, before, m, QueryCopyOutNeedsCommandComplete, []);
    } else if m.kind == CommandComplete && (f.phase == QueryRows || f.phase == QueryCopyOutNeedsCommandComplete) {
      StayFollows(f, before, m, QueryFirst, At(f, Deliver(m)));
    }
  }

  lemma {:induction false} DispatchFollows(f: Fsm, before: Kind, m: BackendMessage)
    requires f.current < |f.messages| && !IsAsync(m.kind) && f.messages[f.current] != Flush
    requires Tuned(f.messages[f.current], f.phase, before)
    ensures Follows(f, before, m, Dispatch(f, m))
  {
    hide HandleAck, HandleDescribe, HandleExecute, HandleSync, HandleQuery, Follows;
    match f.messages[f.current] {
      case Bind => AckFollows(f, before, m, BindComplete);
      case Close => AckFollows(f, before, m, CloseComplete);
      case Parse => AckFollows(f, before, m, ParseComplete);
      case Describe => DescribeFollows(f, before, m);
      case Execute => ExecuteFollows(f, before, m);
      case Sync => SyncFollows(f, before, m);
      case Query => QueryFollows(f, before, m);
    }
  }

  /** The machine and the script stand at the same place. */
  predicate InTune(ms: seq<RequestMessage>, v: seq<BackendMessage>, s: Step) {
    && s.fsm.messages == ms && s.fsm.current <= |ms|
    && SkipFlush(ms, s.fsm.current) == Place(ms, v)
    && s.calls == Script(ms, v)
    && (Place(ms, v) < |ms| ==> Tuned(ms[Place(ms, v)], s.fsm.phase, Before(ms, v)))
  }

  lemma {:induction false} OneMore(ms: seq<RequestMessage>, v: seq<BackendMessage>, m: BackendMessage)
    ensures var i := Place(ms, v);
      && Place(ms, v + [m]) == (if IsAsync(m.kind) || i == |ms| then i else Onward(ms, i, m.kind))
      && Before(ms, v + [m]) == (if IsAsync(m.kind) then Before(ms, v) else if Place(ms, v + [m]) == i then m.kind else NoMessage)
      && Script(ms, v + [m]) == Script(ms, v) + Line(ms, i, Before(ms, v), m)
  {
    hide Onward, Line, SkipFlush;
    assert (v + [m])[..|v|] == v;
  }

  lemma {:induction false} ResumeInTune(ms: seq<RequestMessage>, v: seq<BackendMessage>, s: Step, m: BackendMessage)
    requires InTune(ms, v, s) && s.verdict.Read?
    ensures var t := Resume(s.fsm, m);
      t.verdict == Read || t.verdict == Done(None) ==> InTune(ms, v + [m], t.(calls := s.calls + t.calls))
  {
    hide SkipFlush, Dispatch, Place, Before, Script, Onward, Line;
    OneMore(ms, v, m);
    var i := Place(ms, v);
    if IsAsync(m.kind) {
      NoLine(ms, i, Before(ms, v), m);
      assert s.calls + [] == s.calls;
    } else if i < |ms| {
      var g := s.fsm.(current := i);
      DispatchFollows(g, Before(ms, v), m);
    }
  }

  lemma {:induction false} NoLine(ms: seq<RequestMessage>, i: nat, before: Kind, m: BackendMessage)
    requires i <= |ms| && IsAsync(m.kind)
    ensures Line(ms, i, before, m) == []
  {
  }

  lemma {:induction false} StartInTune(ms: seq<RequestMessage>, allowCopy: bool)
    ensures InTune(ms, [], Step(Init(ms, allowCopy), Read, []))
  {
    hide SkipFlush;
  }

  lemma {:induction false} RunInTune(ms: seq<RequestMessage>, allowCopy: bool, v: seq<BackendMessage>)
    requires Accepted(ms)
    requires var s := Run(Init(ms, allowCopy), v); s.verdict == Read || s.verdict == Done(None)
    ensures InTune(ms, v, Run(Init(ms, allowCopy), v))
    ensures Run(Init(ms, allowCopy), v).verdict == Done(None) <==> Place(ms, v) == |ms|
    decreases |v|
  {
    hide Run, Resume, InTune, Accepted;
    var f := Init(ms, allowCopy);
    if v == [] {
      RunNone(f);
      StartInTune(ms, allowCopy);
    } else {
      var init, m := v[..|v| - 1], v[|v| - 1];
      assert init + [m] == v;
      RunLast(f, init, m);
      RunInTune(ms, allowCopy, init);
      if Run(f, init).verdict == Read {
        ResumeInTune(ms, init, Run(f, init), m);
      } else {
        OverInTune(ms, init, Run(f, init), m);
      }
    }
    InTunePlace(ms, allowCopy, v);
  }

  /** The reply is over exactly when the script is at the end of the request. */
  lemma {:induction false} InTunePlace(ms: seq<RequestMessage>, allowCopy: bool, v: seq<BackendMessage>)
    requires Accepted(ms) && InTune(ms, v, Run(Init(ms, allowCopy), v))
    requires var s := Run(Init(ms, allowCopy), v); s.verdict == Read || s.verdict == Done(None)
    ensures Run(Init(ms, allowCopy), v).verdict == Done(None) <==> Place(ms, v) == |ms|
  {
    hide Run, Script, Place, Before, Tuned, SkipFlush, Closed, Accepted;
    InitConsistent(ms, allowCopy);
    RunGood(Init(ms, allowCopy), v);
    var s := Run(Init(ms, allowCopy), v);
    if s.verdict == Read {
      SkipFlushSafe(ms, s.fsm.current);
    } else {
      EndStays(ms);
    }
  }

  lemma {:induction false} EndStays(ms: seq<RequestMessage>)
    ensures SkipFlush(ms, |ms|) == |ms|
  {
  }

  /** Messages behind the end of a reply are nobody's. */
  lemma {:induction false} OverInTune(ms: seq<RequestMessage>, v: seq<BackendMessage>, s: Step, m: BackendMessage)
    requires InTune(ms, v, s) && Place(ms, v) == |ms|
    ensures InTune(ms, v + [m], s)
  {
    hide SkipFlush, Place, Before, Script, Onward, Tuned;
    OneMore(ms, v, m);
    assert s.calls + [] == s.calls;
  }

  /** The last message of a word that is still read, or that ends the reply. */
  lemma {:induction false} RunLast(f: Fsm, v: seq<BackendMessage>, m: BackendMessage)
    ensures var s := Run(f, v); var t := Run(f, v + [m]);
      if s.verdict.Read? then
        var r := Resume(s.fsm, m); t == r.(calls := s.calls + r.calls)
      else t == s
  {
    hide Run, Resume;
    RunAppend(f, v, [m]);
    RunOneStep(if Run(f, v).verdict.Read? then Run(f, v).fsm else f, m);
  }

  lemma {:induction false} RunOneStep(f: Fsm, m: BackendMessage)
    ensures Run(f, [m]) == Resume(f, m)
  {
    hide Resume;
    RunStep(f, [m]);
    RunNone(Resume(f, m).fsm);
    assert Resume(f, m).calls + [] == Resume(f, m).calls;
  }

  /** For every accepted request, COPY on or off, and every word that is still read or that ends
      the reply: the callbacks are the script of the word, event by event and offset by offset,
      and the reply is over exactly when the script is at the end of the request. */
  lemma {:induction false} CallbacksAreTheScript(ms: seq<RequestMessage>, allowCopy: bool, v: seq<BackendMessage>)
    requires Accepted(ms)
    requires var s := Run(Init(ms, allowCopy), v); s.verdict == Read || s.verdict == Done(None)
    ensures var s := Run(Init(ms, allowCopy), v);
      s.calls == Script(ms, v) && (s.verdict == Done(None) <==> Place(ms, v) == |ms|)
  {
    hide Run, Script, Place, SkipFlush, Tuned, Before, Accepted;
    RunInTune(ms, allowCopy, v);
  }
}
