/** The handler that reads one resultset (include/nativepg/responses/resultset_callback.hpp),
    when its slice is an extended query: it is given a row description before any row and
    before the end, whatever the server answers, exactly when no sync stands between the
    describe and the execute of its slice. An empty query makes it fail an assertion. */
module ResultsetHandler {
  import opened Messages
  import opened CheckRequest
  import opened ResponseFsm
  import opened Callbacks
  import opened Routing
  import E = ErrorFields

  /** The state of the handler; Asserted is a failed assertion. */
  datatype State = ParsingMeta | ParsingData | Complete | Asserted

  /** The error that the handler reports in the end: that of the server, or that a step of its slice
      was skipped. */
  datatype Trouble = FromServer(msg: BackendMessage) | StepSkipped

  /** store_error and maybe_store_error: the first error stays; the SQLSTATE 00000 is none. */
  function Noted(was: Option<Trouble>, e: HandlerEvent): Option<Trouble> {
    if was.Some? then was
    else if e.MessageSkipped? then Some(StepSkipped)
    else if e.Deliver? && e.msg.kind == ErrorResponse && !E.ZeroState(e.msg) then Some(FromServer(e.msg))
    else None
  }

  predicate IsDescription(e: HandlerEvent) {
    e.SyntheticRowDescription? || (e.Deliver? && e.msg.kind == RowDescription)
  }

  /** Events that leave the state alone: an error is stored and a skipped step is an error. */
  predicate Neutral(e: HandlerEvent) {
    || e.MessageSkipped?
    || (e.Deliver? && (e.msg.kind == ErrorResponse || e.msg.kind == ParseComplete || e.msg.kind == BindComplete))
  }

  predicate IsEmptyQuery(e: HandlerEvent) {
    e.Deliver? && e.msg.kind == EmptyQueryResponse
  }

  /** on_message. */
  function Feed(st: State, e: HandlerEvent): State {
    if st == Asserted || Neutral(e) then st
    else if IsDescription(e) then if st == ParsingMeta then ParsingData else Asserted
    else if !e.Deliver? then Asserted
    else if e.msg.kind == DataRow then if st == ParsingData then ParsingData else Asserted
    else if e.msg.kind == CommandComplete || e.msg.kind == PortalSuspended then
      if st == ParsingData then Complete else Asserted
    else Asserted
  }

  predicate InSlice(c: Call, lo: nat, hi: nat) {
    lo <= c.offset < hi
  }

  /** The state of a fresh handler after the callbacks of its slice. */
  function FeedAll(cs: seq<Call>, lo: nat, hi: nat): State {
    if cs == [] then ParsingMeta
    else
      var last, st := cs[|cs| - 1], FeedAll(cs[..|cs| - 1], lo, hi);
      if InSlice(last, lo, hi) then Feed(st, last.event) else st
  }

  /** The server answered that the query of the slice was empty. */
  ghost predicate EmptyIn(cs: seq<Call>, lo: nat, hi: nat) {
    exists i :: 0 <= i < |cs| && InSlice(cs[i], lo, hi) && IsEmptyQuery(cs[i].event)
  }

  /** The handler, updated in place. */
  class ResultsetCallback {
    var state: State
    var error: Option<Trouble>

    constructor ()
      ensures state == ParsingMeta && error == None
    {
      state, error := ParsingMeta, None;
    }

    method StoreError(t: Trouble)
      modifies this`error
      ensures error == if old(error).Some? then old(error) else Some(t)
    {
      if error.None? {
        error := Some(t);
      }
    }

    method OnMessage(e: HandlerEvent)
      modifies this
      ensures state == Feed(old(state), e)
      ensures old(state) != Asserted ==> error == Noted(old(error), e)
    {
      if state == Asserted {
        return;
      }
      match e {
        case MessageSkipped =>
          StoreError(StepSkipped);
        case SyntheticRowDescription =>
          state := if state == ParsingMeta then ParsingData else Asserted;
        case Deliver(m) =>
          match m.kind {
            case ErrorResponse =>
              if !E.ZeroState(m) {
                StoreError(FromServer(m));
              }
            case ParseComplete =>
            case BindComplete =>
            case RowDescription =>
              state := if state == ParsingMeta then ParsingData else Asserted;
            case DataRow =>
              state := if state == ParsingData then ParsingData else Asserted;
            case CommandComplete =>
              state := if state == ParsingData then Complete else Asserted;
            case PortalSuspended =>
              state := if state == ParsingData then Complete else Asserted;
            case _ =>
              state := Asserted;
          }
      }
    }
  }

  lemma {:induction false} FeedOne(cs: seq<Call>, c: Call, lo: nat, hi: nat)
    ensures FeedAll(cs + [c], lo, hi) == if InSlice(c, lo, hi) then Feed(FeedAll(cs, lo, hi), c.event) else FeedAll(cs, lo, hi)
    ensures EmptyIn(cs + [c], lo, hi) <==> EmptyIn(cs, lo, hi) || (InSlice(c, lo, hi) && IsEmptyQuery(c.event))
  {
    var all := cs + [c];
    assert all[..|cs|] == cs && all[|cs|] == c;
    assert forall i | 0 <= i < |cs| :: all[i] == cs[i];
  }

  /** Callbacks that leave the handler of the slice alone. */
  predicate Quiet(ds: seq<Call>, lo: nat, hi: nat) {
    forall i | 0 <= i < |ds| && InSlice(ds[i], lo, hi) :: Neutral(ds[i].event)
  }

  lemma {:induction false} FeedQuiet(cs: seq<Call>, ds: seq<Call>, lo: nat, hi: nat)
    requires Quiet(ds, lo, hi)
    ensures FeedAll(cs + ds, lo, hi) == FeedAll(cs, lo, hi)
    ensures EmptyIn(cs + ds, lo, hi) <==> EmptyIn(cs, lo, hi)
    decreases |ds|
  {
    if ds == [] {
      assert cs + ds == cs;
    } else {
      var last := |ds| - 1;
      FeedQuiet(cs, ds[..last], lo, hi);
      FeedOne(cs + ds[..last], ds[last], lo, hi);
      assert cs + ds == cs + ds[..last] + [ds[last]];
    }
  }

  // ----- one step of the machine, seen from the slice

  /** No COPY is under way. */
  predicate NoCopy(f: Fsm) {
    && !f.allowCopy && f.phase != ExecCopyOut && f.phase != ExecCopyOutNeedsCommandComplete
    && f.phase != QueryCopyOut && f.phase != QueryCopyOutNeedsCommandComplete
  }

  /** What a step that does not fail does, for a machine at message c that is no flush. */
  ghost predicate StepFrom(f: Fsm, c: nat, s: Step)
    requires c < |f.messages| && f.messages[c] != Flush
  {
    var r := f.messages[c];
    || (&& s.calls == [] && (s.fsm.current == c || s.fsm.current == c + 1)
        && (s.fsm.current == c + 1 ==> r == Sync || r == Query) && (s.fsm.current == c ==> r == Query))
    || (&& r == Query && s.fsm.current == c && forall i | 0 <= i < |s.calls| :: s.calls[i].offset == c)
    || (&& s.fsm.current == c + 1 && |s.calls| == 1 && s.calls[0].offset == c && Fits(r, s.calls[0].event))
    || (&& r == Execute && s.fsm.current == c && |s.calls| == 1 && s.calls[0].offset == c
        && s.calls[0].event.Deliver? && s.calls[0].event.msg.kind == DataRow)
    || (&& Extended(r) && s.fsm.current == NextSync(f.messages, c + 1)
        && (forall i | 0 <= i < |s.calls| :: s.calls[i].offset >= c && (IsError(s.calls[i].event) || s.calls[i].event == MessageSkipped)))
  }

  /** The callbacks that finish a message well. */
  predicate Fits(r: RequestMessage, e: HandlerEvent) {
    match r
    case Parse => e.Deliver? && e.msg.kind == ParseComplete
    case Bind => e.Deliver? && e.msg.kind == BindComplete
    case Close => e.Deliver? && e.msg.kind == CloseComplete
    case Describe => IsDescription(e)
    case Execute => e.Deliver? && (e.msg.kind == CommandComplete || e.msg.kind == PortalSuspended || e.msg.kind == EmptyQueryResponse)
    case _ => false
  }

  lemma {:induction false} SkipsAreSkips(ms: seq<RequestMessage>, i: nat, j: nat)
    requires i <= j <= |ms|
    ensures forall k | 0 <= k < |Skips(ms, i, j)| :: Skips(ms, i, j)[k].offset >= i && Skips(ms, i, j)[k].event == MessageSkipped
    decreases j - i
  {
    if i < j {
      SkipsAreSkips(ms, i + 1, j);
    }
  }

  lemma {:induction false} ErrorFrom(f: Fsm, m: BackendMessage)
    requires f.current < |f.messages| && Extended(f.messages[f.current]) && m.kind == ErrorResponse
    ensures StepFrom(f, f.current, HandleError(f, m)) && HandleError(f, m).fsm.phase == MsgFirst
  {
    SkipsAreSkips(f.messages, f.current + 1, NextSync(f.messages, f.current + 1));
    hide Skips;
  }

  lemma {:induction false} ErrorSame(f: Fsm, m: BackendMessage)
    requires f.current < |f.messages| && NoCopy(f)
    ensures NoCopy(HandleError(f, m).fsm)
  {
  }

  lemma {:induction false} AdvanceFrom(f: Fsm, e: HandlerEvent)
    requires f.current < |f.messages| && NoCopy(f) && Fits(f.messages[f.current], e)
    ensures f.messages[f.current] != Flush && StepFrom(f, f.current, Advance(f, At(f, e))) && NoCopy(Advance(f, At(f, e)).fsm)
  {
  }

  lemma {:induction false} RowFrom(f: Fsm, m: BackendMessage)
    requires f.current < |f.messages| && NoCopy(f) && f.messages[f.current] == Execute && m.kind == DataRow
    ensures StepFrom(f, f.current, Stay(f, MsgFirst, At(f, Deliver(m)))) && NoCopy(Stay(f, MsgFirst, At(f, Deliver(m))).fsm)
  {
  }

  lemma {:induction false} SyncFrom(f: Fsm)
    requires f.current < |f.messages| && NoCopy(f) && f.messages[f.current] == Sync
    ensures StepFrom(f, f.current, Advance(f, [])) && NoCopy(Advance(f, []).fsm)
  {
  }

  lemma {:induction false} ExecuteFrom(f: Fsm, m: BackendMessage)
    requires f.current < |f.messages| && f.messages[f.current] == Execute && NoCopy(f) && Consistent(f) && Ongoing(HandleExecute(f, m))
    ensures StepFrom(f, f.current, HandleExecute(f, m)) && NoCopy(HandleExecute(f, m).fsm)
  {
    hide HandleError, StepFrom, Advance, Stay, At, Closed;
    if m.kind == ErrorResponse {
      ErrorFrom(f, m);
      ErrorSame(f, m);
    } else if m.kind == DataRow {
      RowFrom(f, m);
    } else if m.kind == CommandComplete || m.kind == EmptyQueryResponse || m.kind == PortalSuspended {
      AdvanceFrom(f, Deliver(m));
    }
  }

  lemma {:induction false} OtherFrom(f: Fsm, m: BackendMessage)
    requires f.current < |f.messages| && NoCopy(f)
    requires f.messages[f.current] != Execute && f.messages[f.current] != Query && f.messages[f.current] != Flush
    requires Ongoing(ResponseFsm.Dispatch(f, m))
    ensures StepFrom(f, f.current, ResponseFsm.Dispatch(f, m)) && NoCopy(ResponseFsm.Dispatch(f, m).fsm)
  {
    hide HandleError, StepFrom, Advance, At, HandleExecute, HandleQuery;
    var r := f.messages[f.current];
    if r == Sync {
      SyncFrom(f);
    } else if m.kind == ErrorResponse {
      ErrorFrom(f, m);
      ErrorSame(f, m);
    } else if r == Describe && m.kind == NoData {
      AdvanceFrom(f, SyntheticRowDescription);
    } else {
      AdvanceFrom(f, Deliver(m));
    }
  }

  lemma {:induction false} QueryFrom(f: Fsm, m: BackendMessage)
    requires f.current < |f.messages| && f.messages[f.current] == Query && NoCopy(f) && Ongoing(HandleQuery(f, m))
    ensures StepFrom(f, f.current, HandleQuery(f, m)) && NoCopy(HandleQuery(f, m).fsm)
  {
  }

  /** The handler of the slice is where the machine is: before the describe it knows nothing,
      up to the execute it has the row description, and only an empty query upsets it. */
  ghost predicate Track(f: Fsm, cs: seq<Call>, lo: nat, hi: nat, d: nat, x: nat) {
    && NoCopy(f)
    && (f.current <= d ==> FeedAll(cs, lo, hi) == ParsingMeta)
    && (d < f.current <= x ==> FeedAll(cs, lo, hi) == ParsingData)
    && (FeedAll(cs, lo, hi) == Asserted <==> EmptyIn(cs, lo, hi))
  }

  /** An extended slice whose describe and execute are in the same batch. */
  predicate OneBatch(ms: seq<RequestMessage>, lo: nat, hi: nat, d: nat, x: nat) {
    ExtendedSlice(ms, lo, hi, d, x) && forall k | d <= k <= x :: ms[k] != Sync
  }

  lemma {:induction false} TrackQuiet(f: Fsm, g: Fsm, cs: seq<Call>, ds: seq<Call>, lo: nat, hi: nat, d: nat, x: nat)
    requires Track(f, cs, lo, hi, d, x) && Quiet(ds, lo, hi) && NoCopy(g) && d < x
    requires f.current <= d && g.current <= x ==> g.current <= d
    requires d < f.current ==> d < g.current
    requires x < f.current ==> x < g.current
    ensures Track(g, cs + ds, lo, hi, d, x)
  {
    hide FeedAll, EmptyIn;
    FeedQuiet(cs, ds, lo, hi);
  }

  lemma {:induction false} QuietOutside(ds: seq<Call>, c: nat, lo: nat, hi: nat)
    requires !(lo <= c < hi) && forall i | 0 <= i < |ds| :: ds[i].offset == c
    ensures Quiet(ds, lo, hi)
  {
  }

  /** One step from message c. */
  lemma {:induction false} TrackStep(f: Fsm, s: Step, cs: seq<Call>, lo: nat, hi: nat, d: nat, x: nat)
    requires OneBatch(f.messages, lo, hi, d, x) && f.current < |f.messages| && f.messages[f.current] != Flush
    requires Track(f, cs, lo, hi, d, x) && StepFrom(f, f.current, s) && NoCopy(s.fsm)
    ensures Track(s.fsm, cs + s.calls, lo, hi, d, x)
  {
    hide FeedAll, EmptyIn, Quiet;
    var c, r, g := f.current, f.messages[f.current], s.fsm;
    if s.calls == [] {
      NothingQuiet(lo, hi);
      TrackQuiet(f, g, cs, s.calls, lo, hi, d, x);
    } else if r == Query && g.current == c {
      QuietOutside(s.calls, c, lo, hi);
      TrackQuiet(f, g, cs, s.calls, lo, hi, d, x);
    } else if g.current == c + 1 && |s.calls| == 1 && s.calls[0].offset == c && Fits(r, s.calls[0].event) {
      assert s.calls == [s.calls[0]];
      TrackOne(f, g, cs, s.calls[0], lo, hi, d, x);
    } else if r == Execute && g.current == c && |s.calls| == 1 && s.calls[0].event.Deliver? && s.calls[0].event.msg.kind == DataRow {
      assert s.calls == [s.calls[0]];
      FeedOne(cs, s.calls[0], lo, hi);
    } else {
      assert Quiet(s.calls, lo, hi) by {
        ErrorsQuiet(s.calls, lo, hi);
      }
      TrackQuiet(f, g, cs, s.calls, lo, hi, d, x);
    }
  }

  lemma {:induction false} NothingQuiet(lo: nat, hi: nat)
    ensures Quiet([], lo, hi)
  {
  }

  lemma {:induction false} ErrorsQuiet(ds: seq<Call>, lo: nat, hi: nat)
    requires forall i | 0 <= i < |ds| :: IsError(ds[i].event) || ds[i].event == MessageSkipped
    ensures Quiet(ds, lo, hi)
  {
  }

  lemma {:induction false} TrackOne(f: Fsm, g: Fsm, cs: seq<Call>, call: Call, lo: nat, hi: nat, d: nat, x: nat)
    requires OneBatch(f.messages, lo, hi, d, x) && f.current < |f.messages| && NoCopy(g)
    requires Track(f, cs, lo, hi, d, x) && call.offset == f.current && Fits(f.messages[f.current], call.event)
    requires g.current == f.current + 1
    ensures Track(g, cs + [call], lo, hi, d, x)
  {
    hide FeedAll, EmptyIn;
    FeedOne(cs, call, lo, hi);
  }

  lemma {:induction false} DispatchFrom(f: Fsm, m: BackendMessage)
    requires Consistent(f) && NoCopy(f) && f.messages[f.current] != Flush && Ongoing(ResponseFsm.Dispatch(f, m))
    ensures StepFrom(f, f.current, ResponseFsm.Dispatch(f, m)) && NoCopy(ResponseFsm.Dispatch(f, m).fsm)
  {
    hide StepFrom, HandleQuery, HandleExecute, HandleAck, HandleDescribe, HandleSync, NoCopy;
    if f.messages[f.current] == Query {
      QueryFrom(f, m);
    } else if f.messages[f.current] == Execute {
      ExecuteFrom(f, m);
    } else {
      OtherFrom(f, m);
    }
  }

  lemma {:induction false} TrackFlush(f: Fsm, cs: seq<Call>, lo: nat, hi: nat, d: nat, x: nat)
    requires f.current <= |f.messages| && OneBatch(f.messages, lo, hi, d, x) && Track(f, cs, lo, hi, d, x)
    ensures Track(f.(current := SkipFlush(f.messages, f.current)), cs, lo, hi, d, x)
  {
    hide FeedAll, EmptyIn;
  }

  lemma {:induction false} ResumeTrack(f: Fsm, m: BackendMessage, cs: seq<Call>, lo: nat, hi: nat, d: nat, x: nat)
    requires Consistent(f) && OneBatch(f.messages, lo, hi, d, x) && Track(f, cs, lo, hi, d, x) && Ongoing(Resume(f, m))
    ensures Track(Resume(f, m).fsm, cs + Resume(f, m).calls, lo, hi, d, x)
  {
    hide FeedAll, EmptyIn, StepFrom, ResponseFsm.Dispatch, OneBatch;
    if IsAsync(m.kind) {
      assert cs + [] == cs;
    } else {
      SkipFlushSafe(f.messages, f.current);
      var g := f.(current := SkipFlush(f.messages, f.current));
      TrackFlush(f, cs, lo, hi, d, x);
      DispatchFrom(g, m);
      TrackStep(g, ResponseFsm.Dispatch(g, m), cs, lo, hi, d, x);
    }
  }

  lemma {:induction false} RunTrack(f: Fsm, w: seq<BackendMessage>, cs: seq<Call>, lo: nat, hi: nat, d: nat, x: nat)
    requires Consistent(f) && OneBatch(f.messages, lo, hi, d, x) && Track(f, cs, lo, hi, d, x)
    ensures var all := cs + Run(f, w).calls; FeedAll(all, lo, hi) == Asserted <==> EmptyIn(all, lo, hi)
    decreases |w|
  {
    hide FeedAll, EmptyIn, Resume, Consistent, OneBatch, NoCopy;
    if w == [] {
      assert cs + [] == cs;
    } else {
      ResumeGood(f, w[0]);
      var s := Resume(f, w[0]);
      if Ongoing(s) {
        ResumeTrack(f, w[0], cs, lo, hi, d, x);
      } else {
        FailureIsSilent(f, w[0]);
        assert cs + [] == cs;
      }
      if s.verdict.Read? {
        RunTrack(s.fsm, w[1..], cs + s.calls, lo, hi, d, x);
        assert cs + (s.calls + Run(s.fsm, w[1..]).calls) == cs + s.calls + Run(s.fsm, w[1..]).calls;
      }
    }
  }

  /** In every run, with COPY off and no sync between the describe and the execute, only an
      empty query makes the handler of the slice fail an assertion: it gets the row
      description, once, before any row and before the end, and nothing after that. */
  lemma {:induction false} DescribedBeforeRows(ms: seq<RequestMessage>, w: seq<BackendMessage>, lo: nat, hi: nat, d: nat, x: nat)
    requires Accepted(ms) && OneBatch(ms, lo, hi, d, x)
    ensures var cs := Run(Init(ms, false), w).calls; FeedAll(cs, lo, hi) == Asserted <==> EmptyIn(cs, lo, hi)
  {
    InitConsistent(ms, false);
    RunTrack(Init(ms, false), w, [], lo, hi, d, x);
    hide FeedAll, EmptyIn, Run;
    assert [] + Run(Init(ms, false), w).calls == Run(Init(ms, false), w).calls;
  }

  // ----- a sync in between breaks it

  function M(kind: Kind): BackendMessage {
    BackendMessage(kind, [])
  }

  /** A good answer to a request message. */
  function GoodReply(r: RequestMessage): seq<BackendMessage> {
    match r
    case Bind => [M(BindComplete)]
    case Close => [M(CloseComplete)]
    case Describe => [M(NoData)]
    case Execute => [M(CommandComplete)]
    case Flush => []
    case Parse => [M(ParseComplete)]
    case Query => [M(CommandComplete), M(ReadyForQuery)]
    case Sync => [M(ReadyForQuery)]
  }

  function GoodCalls(r: RequestMessage, i: nat): seq<Call> {
    match r
    case Bind => [Call(i, Deliver(M(BindComplete)))]
    case Close => [Call(i, Deliver(M(CloseComplete)))]
    case Describe => [Call(i, SyntheticRowDescription)]
    case Execute => [Call(i, Deliver(M(CommandComplete)))]
    case Flush => []
    case Parse => [Call(i, Deliver(M(ParseComplete)))]
    case Query => [Call(i, SyntheticRowDescription), Call(i, Deliver(M(CommandComplete)))]
    case Sync => []
  }

  function GoodReplies(ms: seq<RequestMessage>, i: nat, j: nat): seq<BackendMessage>
    requires i <= j <= |ms|
    decreases j - i
  {
    if i == j then [] else GoodReply(ms[i]) + GoodReplies(ms, i + 1, j)
  }

  function GoodCallsAll(ms: seq<RequestMessage>, i: nat, j: nat): seq<Call>
    requires i <= j <= |ms|
    decreases j - i
  {
    if i == j then [] else GoodCalls(ms[i], i) + GoodCallsAll(ms, i + 1, j)
  }

  lemma {:induction false} RunFirst(f: Fsm, m: BackendMessage, v: seq<BackendMessage>)
    requires Resume(f, m).verdict == Read
    ensures Run(f, [m] + v).calls == Resume(f, m).calls + Run(Resume(f, m).fsm, v).calls
  {
    assert ([m] + v)[1..] == v;
  }

  lemma {:induction false} GoodResume(f: Fsm)
    requires f.current + 1 < |f.messages| && f.phase == MsgFirst && f.messages[f.current] != Flush && f.messages[f.current] != Query
    ensures Resume(f, GoodReply(f.messages[f.current])[0]) ==
      Step(f.(current := f.current + 1), Read, GoodCalls(f.messages[f.current], f.current))
  {
    hide HandleError, HandleQuery;
    assert SkipFlush(f.messages, f.current) == f.current;
  }

  lemma {:induction false} GoodQueryResume(f: Fsm)
    requires f.current + 1 < |f.messages| && f.phase == MsgFirst && f.messages[f.current] == Query
    ensures Resume(f, M(CommandComplete)) == Step(f.(phase := QueryFirst), Read, GoodCalls(Query, f.current))
    ensures Resume(f.(phase := QueryFirst), M(ReadyForQuery)) == Step(f.(current := f.current + 1), Read, [])
  {
    assert SkipFlush(f.messages, f.current) == f.current;
  }

  lemma {:induction false} FlushResume(f: Fsm, m: BackendMessage)
    requires f.current < |f.messages| && f.messages[f.current] == Flush && !IsAsync(m.kind)
    ensures Resume(f, m) == Resume(f.(current := f.current + 1), m)
  {
    hide ResponseFsm.Dispatch;
  }

  /** A good answer takes the machine to the next message. */
  lemma {:induction false} PassOne(f: Fsm, v: seq<BackendMessage>)
    requires f.current + 1 < |f.messages| && f.phase == MsgFirst && v != [] && !IsAsync(v[0].kind)
    ensures Run(f, GoodReply(f.messages[f.current]) + v).calls ==
      GoodCalls(f.messages[f.current], f.current) + Run(f.(current := f.current + 1), v).calls
  {
    hide Run, Resume;
    var r, g := f.messages[f.current], f.(current := f.current + 1);
    if r == Flush {
      assert GoodReply(r) + v == v;
      FlushResume(f, v[0]);
      SameRun(f, g, v);
    } else if r == Query {
      var u := [M(ReadyForQuery)] + v;
      assert GoodReply(r) + v == [M(CommandComplete)] + u;
      GoodQueryResume(f);
      RunFirst(f, M(CommandComplete), u);
      RunFirst(f.(phase := QueryFirst), M(ReadyForQuery), v);
    } else {
      GoodResume(f);
      assert GoodReply(r) == [GoodReply(r)[0]];
      RunFirst(f, GoodReply(r)[0], v);
    }
  }

  lemma {:induction false} SameRun(f: Fsm, g: Fsm, v: seq<BackendMessage>)
    requires v != [] && Resume(f, v[0]) == Resume(g, v[0])
    ensures Run(f, v) == Run(g, v)
  {
    hide Resume;
  }

  /** The machine before the message at i. */
  function Standing(ms: seq<RequestMessage>, i: nat): Fsm {
    Fsm(ms, false, i, MsgFirst)
  }

  lemma {:induction false} PassStanding(ms: seq<RequestMessage>, i: nat, v: seq<BackendMessage>)
    requires i + 1 < |ms| && v != [] && !IsAsync(v[0].kind)
    ensures Run(Standing(ms, i), GoodReply(ms[i]) + v).calls == GoodCalls(ms[i], i) + Run(Standing(ms, i + 1), v).calls
  {
    hide Run, GoodReply, GoodCalls;
    PassOne(Standing(ms, i), v);
  }

  lemma {:induction false} PassAll(ms: seq<RequestMessage>, i: nat, j: nat, v: seq<BackendMessage>)
    requires i <= j < |ms| && v != [] && !IsAsync(v[0].kind)
    ensures Run(Standing(ms, i), GoodReplies(ms, i, j) + v).calls == GoodCallsAll(ms, i, j) + Run(Standing(ms, j), v).calls
    decreases j - i
  {
    hide Run, GoodReply, GoodCalls, Standing;
    if i == j {
      assert GoodReplies(ms, i, j) + v == v;
    } else {
      Unfolded(ms, i, j);
      GoodRepliesHead(ms, i + 1, j, v);
      PassAll(ms, i + 1, j, v);
      var u := GoodReplies(ms, i + 1, j) + v;
      PassStanding(ms, i, u);
      PassJoin(ms, i, j, v);
    }
  }

  lemma {:induction false} PassJoin(ms: seq<RequestMessage>, i: nat, j: nat, v: seq<BackendMessage>)
    requires i < j < |ms|
    ensures GoodReplies(ms, i, j) + v == GoodReply(ms[i]) + (GoodReplies(ms, i + 1, j) + v)
    ensures forall t: seq<Call> :: GoodCallsAll(ms, i, j) + t == GoodCalls(ms[i], i) + (GoodCallsAll(ms, i + 1, j) + t)
  {
    Unfolded(ms, i, j);
    hide GoodReplies, GoodCallsAll, GoodReply, GoodCalls;
  }

  lemma {:induction false} Unfolded(ms: seq<RequestMessage>, i: nat, j: nat)
    requires i < j <= |ms|
    ensures GoodReplies(ms, i, j) == GoodReply(ms[i]) + GoodReplies(ms, i + 1, j)
    ensures GoodCallsAll(ms, i, j) == GoodCalls(ms[i], i) + GoodCallsAll(ms, i + 1, j)
  {
  }

  lemma {:induction false} GoodRepliesHead(ms: seq<RequestMessage>, i: nat, j: nat, v: seq<BackendMessage>)
    requires i <= j <= |ms| && v != [] && !IsAsync(v[0].kind)
    ensures var u := GoodReplies(ms, i, j) + v; u != [] && !IsAsync(u[0].kind)
    decreases j - i
  {
    hide GoodReplies, GoodReply, IsAsync;
    if i < j {
      GoodRepliesHead(ms, i + 1, j, v);
      Unfolded(ms, i, j);
      FirstOfReply(ms[i]);
      FirstOfBoth(GoodReply(ms[i]), GoodReplies(ms, i + 1, j), v);
    } else {
      NoReplies(ms, i);
      assert [] + v == v;
    }
  }

  lemma {:induction false} FirstOfBoth(g: seq<BackendMessage>, h: seq<BackendMessage>, v: seq<BackendMessage>)
    requires h + v != [] && !IsAsync((h + v)[0].kind) && (g != [] ==> !IsAsync(g[0].kind))
    ensures g + h + v != [] && !IsAsync((g + h + v)[0].kind)
  {
    hide IsAsync;
    if g == [] {
      assert g + h + v == h + v;
    }
  }

  lemma {:induction false} NoReplies(ms: seq<RequestMessage>, i: nat)
    requires i <= |ms|
    ensures GoodReplies(ms, i, i) == []
  {
  }

  lemma {:induction false} FirstOfReply(m: RequestMessage)
    ensures GoodReply(m) != [] ==> !IsAsync(GoodReply(m)[0].kind)
  {
  }

  lemma {:induction false} GoodCallsQuiet(ms: seq<RequestMessage>, i: nat, j: nat, lo: nat, hi: nat)
    requires i <= j <= |ms|
    requires forall k | i <= k < j && lo <= k < hi :: Silent(ms[k]) || ms[k] == Parse || ms[k] == Bind
    ensures Quiet(GoodCallsAll(ms, i, j), lo, hi)
    decreases j - i
  {
    if i < j {
      GoodCallsQuiet(ms, i + 1, j, lo, hi);
    }
  }

  /** The server fails the describe, answers the sync after it, and then sends a row. */
  lemma {:induction false} SyncBetweenBreaks(ms: seq<RequestMessage>, lo: nat, hi: nat, d: nat, x: nat, k: nat)
    returns (w: seq<BackendMessage>)
    requires Accepted(ms) && ExtendedSlice(ms, lo, hi, d, x) && d < k < x && ms[k] == Sync
    ensures var cs := Run(Init(ms, false), w).calls; FeedAll(cs, lo, hi) == Asserted && !EmptyIn(cs, lo, hi)
  {
    hide Run, Resume, FeedAll, EmptyIn, GoodCallsAll, GoodReplies, Quiet, Accepted;
    var j := NextSync(ms, d + 1);
    w := BrokenReply(ms, d, j, x);
    BrokenRun(ms, d, x);
    var b := Resume(Standing(ms, d), M(ErrorResponse)).calls;
    GoodCallsQuiet(ms, 0, d, lo, hi);
    GoodCallsQuiet(ms, j, x, lo, hi);
    ErrorsQuiet(b, lo, hi);
    RowUpsets(GoodCallsAll(ms, 0, d), b, GoodCallsAll(ms, j, x), Call(x, Deliver(M(DataRow))), lo, hi);
  }

  function BrokenReply(ms: seq<RequestMessage>, d: nat, j: nat, x: nat): seq<BackendMessage>
    requires d <= |ms| && j <= x <= |ms|
  {
    GoodReplies(ms, 0, d) + ([M(ErrorResponse)] + (GoodReplies(ms, j, x) + [M(DataRow)]))
  }

  lemma {:induction false} BrokenRun(ms: seq<RequestMessage>, d: nat, x: nat)
    requires d < x < |ms| && ms[d] == Describe && ms[x] == Execute && NextSync(ms, d + 1) < x
    ensures var j := NextSync(ms, d + 1); var s := Resume(Standing(ms, d), M(ErrorResponse));
      && Run(Standing(ms, 0), BrokenReply(ms, d, j, x)).calls ==
           GoodCallsAll(ms, 0, d) + (s.calls + (GoodCallsAll(ms, j, x) + [Call(x, Deliver(M(DataRow)))]))
      && forall i | 0 <= i < |s.calls| :: IsError(s.calls[i].event) || s.calls[i].event == MessageSkipped
  {
    hide Run, Resume, GoodCallsAll, GoodReplies, NextSync, Standing;
    var j := NextSync(ms, d + 1);
    var tail := GoodReplies(ms, j, x) + [M(DataRow)];
    PassAll(ms, 0, d, [M(ErrorResponse)] + tail);
    StandingError(ms, d);
    RunFirst(Standing(ms, d), M(ErrorResponse), tail);
    BrokenTail(ms, j, x);
  }

  lemma {:induction false} BrokenTail(ms: seq<RequestMessage>, j: nat, x: nat)
    requires j <= x < |ms| && ms[x] == Execute
    ensures Run(Standing(ms, j), GoodReplies(ms, j, x) + [M(DataRow)]).calls ==
      GoodCallsAll(ms, j, x) + [Call(x, Deliver(M(DataRow)))]
  {
    hide Run, GoodCallsAll, GoodReplies;
    PassAll(ms, j, x, [M(DataRow)]);
    RowStep(Standing(ms, x), M(DataRow));
  }

  lemma {:induction false} RowUpsets(a: seq<Call>, b: seq<Call>, c: seq<Call>, row: Call, lo: nat, hi: nat)
    requires Quiet(a, lo, hi) && Quiet(b, lo, hi) && Quiet(c, lo, hi) && InSlice(row, lo, hi) && row.event == Deliver(M(DataRow))
    ensures var cs := a + (b + (c + [row])); FeedAll(cs, lo, hi) == Asserted && !EmptyIn(cs, lo, hi)
  {
    hide FeedAll, EmptyIn, Quiet;
    assert a + (b + (c + [row])) == [] + a + b + c + [row];
    NothingFed(lo, hi);
    FeedQuiet([], a, lo, hi);
    FeedQuiet([] + a, b, lo, hi);
    FeedQuiet([] + a + b, c, lo, hi);
    FeedOne([] + a + b + c, row, lo, hi);
  }

  lemma {:induction false} NothingFed(lo: nat, hi: nat)
    ensures FeedAll([], lo, hi) == ParsingMeta && !EmptyIn([], lo, hi)
  {
  }

  lemma {:induction false} ErrorStep(f: Fsm, m: BackendMessage)
    requires f.current < |f.messages| && f.messages[f.current] == Describe && f.phase == MsgFirst && m.kind == ErrorResponse
    requires NextSync(f.messages, f.current + 1) < |f.messages|
    ensures var s := Resume(f, m);
      && s.verdict == Read && s.fsm == f.(current := NextSync(f.messages, f.current + 1))
      && forall i | 0 <= i < |s.calls| :: IsError(s.calls[i].event) || s.calls[i].event == MessageSkipped
  {
    hide Resume, Skips, NextSync;
    DescribeError(f, m);
    SkipsAreSkips(f.messages, f.current + 1, NextSync(f.messages, f.current + 1));
  }

  lemma {:induction false} StandingError(ms: seq<RequestMessage>, d: nat)
    requires d < |ms| && ms[d] == Describe && NextSync(ms, d + 1) < |ms|
    ensures var s := Resume(Standing(ms, d), M(ErrorResponse));
      && s.verdict == Read && s.fsm == Standing(ms, NextSync(ms, d + 1))
      && forall i | 0 <= i < |s.calls| :: IsError(s.calls[i].event) || s.calls[i].event == MessageSkipped
  {
    hide Resume, NextSync;
    ErrorStep(Standing(ms, d), M(ErrorResponse));
  }

  lemma {:induction false} DescribeError(f: Fsm, m: BackendMessage)
    requires f.current < |f.messages| && f.messages[f.current] == Describe && f.phase == MsgFirst && m.kind == ErrorResponse
    ensures Resume(f, m) == HandleError(f, m)
  {
    hide HandleError;
    assert SkipFlush(f.messages, f.current) == f.current;
  }

  lemma {:induction false} RowStep(f: Fsm, m: BackendMessage)
    requires f.current < |f.messages| && f.messages[f.current] == Execute && f.phase == MsgFirst && m.kind == DataRow
    ensures Run(f, [m]).calls == [Call(f.current, Deliver(m))]
  {
    RunOne(f, m);
  }

  /** The answers w do not make the handler of the slice fail an assertion, unless they say
      that the query was empty. */
  ghost predicate SafeOn(ms: seq<RequestMessage>, w: seq<BackendMessage>, lo: nat, hi: nat) {
    var cs := Run(Init(ms, false), w).calls; FeedAll(cs, lo, hi) == Asserted ==> EmptyIn(cs, lo, hi)
  }

  /** The exact condition: the slice that resultset_setup accepts is safe whatever the server
      answers if and only if no sync stands between its describe and its execute. */
  lemma {:induction false} SafeExactlyInOneBatch(ms: seq<RequestMessage>, lo: nat, hi: nat, d: nat, x: nat)
    requires Accepted(ms) && ExtendedSlice(ms, lo, hi, d, x)
    ensures (forall w :: SafeOn(ms, w, lo, hi)) <==> (forall k | d < k < x :: ms[k] != Sync)
  {
    hide FeedAll, EmptyIn, Run, Accepted;
    if forall k | d < k < x :: ms[k] != Sync {
      forall w ensures SafeOn(ms, w, lo, hi) {
        DescribedBeforeRows(ms, w, lo, hi, d, x);
      }
    } else {
      var k: nat :| d < k < x && ms[k] == Sync;
      var w := SyncBetweenBreaks(ms, lo, hi, d, x, k);
      assert !SafeOn(ms, w, lo, hi);
    }
  }

  /** Such a slice passes both the static check and the setup. */
  lemma {:induction false} SyncBetweenIsAccepted()
    ensures var ms := [Describe, Sync, Execute, Sync];
      Accepted(ms) && ResultsetSetup(ms, 0) == Slice(4) && ExtendedSlice(ms, 0, 4, 0, 2)
  {
    var ms := [Describe, Sync, Execute, Sync];
    assert Closed([], false);
    assert [Sync][1..] == [] && [Execute, Sync][1..] == [Sync] && [Sync, Execute, Sync][1..] == [Execute, Sync];
    assert Closed([Sync], true);
    assert Closed([Execute, Sync], false);
    assert Closed([Sync, Execute, Sync], true);
    assert ms[1..] == [Sync, Execute, Sync];
    assert FirstLoud(ms, 3) == 4;
  }
}
