/** The handler of one resultset when its slice is a single query
    (include/nativepg/responses/resultset_callback.hpp): a second resultset in the reply makes
    it fail an assertion, as does an empty query, and nothing else does. */
module QuerySlice {
  import opened Messages
  import opened CheckRequest
  import opened ResponseFsm
  import opened Callbacks
  import opened Routing
  import opened ResultsetHandler

  /** The slice is a query, after syncs and flushes. */
  predicate IsQuerySlice(ms: seq<RequestMessage>, lo: nat, hi: nat) {
    lo < hi <= |ms| && ms[hi - 1] == Query && forall k | lo <= k < hi - 1 :: Silent(ms[k])
  }

  /** How many row descriptions reach the slice. */
  function Descriptions(cs: seq<Call>, lo: nat, hi: nat): nat {
    if cs == [] then 0
    else
      var last := cs[|cs| - 1];
      Descriptions(cs[..|cs| - 1], lo, hi) + if InSlice(last, lo, hi) && IsDescription(last.event) then 1 else 0
  }

  predicate IsRowOrEnd(e: HandlerEvent) {
    e.Deliver? && (e.msg.kind == DataRow || e.msg.kind == CommandComplete || e.msg.kind == PortalSuspended)
  }

  /** No row and no end of a resultset comes before a row description. */
  predicate Announced(cs: seq<Call>, lo: nat, hi: nat) {
    forall i | 0 <= i < |cs| && InSlice(cs[i], lo, hi) && IsRowOrEnd(cs[i].event) :: Descriptions(cs[..i], lo, hi) > 0
  }

  /** What is known of the callbacks so far. */
  datatype Summary = Summary(state: State, descriptions: nat, empty: bool, announced: bool)

  ghost function SummaryOf(cs: seq<Call>, lo: nat, hi: nat): Summary {
    Summary(FeedAll(cs, lo, hi), Descriptions(cs, lo, hi), EmptyIn(cs, lo, hi), Announced(cs, lo, hi))
  }

  /** One more callback. */
  function Add(s: Summary, inSlice: bool, e: HandlerEvent): Summary {
    if !inSlice then s
    else
      Summary(Feed(s.state, e), s.descriptions + (if IsDescription(e) then 1 else 0), s.empty || IsEmptyQuery(e),
        s.announced && (IsRowOrEnd(e) ==> s.descriptions > 0))
  }

  lemma {:induction false} DescriptionsOne(cs: seq<Call>, c: Call, lo: nat, hi: nat)
    ensures Descriptions(cs + [c], lo, hi) ==
      Descriptions(cs, lo, hi) + if InSlice(c, lo, hi) && IsDescription(c.event) then 1 else 0
  {
    assert (cs + [c])[..|cs|] == cs;
  }

  lemma {:induction false} AnnouncedOne(cs: seq<Call>, c: Call, lo: nat, hi: nat)
    ensures Announced(cs + [c], lo, hi) <==>
      Announced(cs, lo, hi) && (InSlice(c, lo, hi) && IsRowOrEnd(c.event) ==> Descriptions(cs, lo, hi) > 0)
  {
    hide Descriptions;
    var all := cs + [c];
    forall i | 0 <= i < |cs| ensures all[i] == cs[i] && all[..i] == cs[..i] {
    }
    assert all[|cs|] == c && all[..|cs|] == cs;
  }

  lemma {:induction false} AddOne(cs: seq<Call>, c: Call, lo: nat, hi: nat)
    ensures SummaryOf(cs + [c], lo, hi) == Add(SummaryOf(cs, lo, hi), InSlice(c, lo, hi), c.event)
  {
    hide FeedAll, EmptyIn, Descriptions, Announced, Feed;
    FeedOne(cs, c, lo, hi);
    DescriptionsOne(cs, c, lo, hi);
    AnnouncedOne(cs, c, lo, hi);
  }

  lemma {:induction false} AddQuiet(cs: seq<Call>, ds: seq<Call>, lo: nat, hi: nat)
    requires Quiet(ds, lo, hi)
    ensures SummaryOf(cs + ds, lo, hi) == SummaryOf(cs, lo, hi)
    decreases |ds|
  {
    hide SummaryOf;
    if ds == [] {
      assert cs + ds == cs;
    } else {
      var last := |ds| - 1;
      AddQuiet(cs, ds[..last], lo, hi);
      AddOne(cs + ds[..last], ds[last], lo, hi);
      assert cs + ds == cs + ds[..last] + [ds[last]];
    }
  }

  /** The handler of the slice, when the machine is at message c in a phase. */
  predicate Fit(s: Summary, q: nat, c: nat, phase: Phase) {
    && s.announced
    && (s.state == Asserted <==> s.empty || s.descriptions >= 2)
    && (c < q || (c == q && phase == MsgFirst) ==> s.state == ParsingMeta && s.descriptions == 0 && !s.empty)
    && (c == q && phase == QueryRows ==> s.descriptions >= 1 && !s.empty && (s.descriptions == 1 ==> s.state == ParsingData))
    && (c == q && phase == QueryFirst ==> s.descriptions >= 1 && !s.empty && (s.descriptions == 1 ==> s.state == Complete))
  }

  ghost predicate Track(f: Fsm, cs: seq<Call>, lo: nat, hi: nat)
    requires hi > 0
  {
    NoCopy(f) && Fit(SummaryOf(cs, lo, hi), hi - 1, f.current, f.phase)
  }

  /** What handle_query does: nothing, or the message, or a made-up description before it. */
  lemma {:induction false} QueryCalls(f: Fsm, m: BackendMessage)
    requires f.current < |f.messages| && NoCopy(f) && Ongoing(HandleQuery(f, m))
    ensures var t := HandleQuery(f, m); var given := Call(f.current, Deliver(m)); var g := t.fsm;
      && NoCopy(g)
      && if m.kind == ReadyForQuery then t.calls == [] && g.current == f.current + 1
         else
           && g.current == f.current
           && if m.kind == CommandComplete && f.phase != QueryRows then
                t.calls == [Call(f.current, SyntheticRowDescription)] + [given] && g.phase == QueryFirst &&
                (f.phase == MsgFirst || f.phase == QueryFirst)
              else
                && t.calls == [given]
                && ((m.kind == ErrorResponse && g.phase == QueryNeedsReady)
                    || (m.kind == RowDescription && g.phase == QueryRows && (f.phase == MsgFirst || f.phase == QueryFirst))
                    || (m.kind == DataRow && f.phase == QueryRows && g.phase == QueryRows)
                    || (m.kind == CommandComplete && f.phase == QueryRows && g.phase == QueryFirst)
                    || (m.kind == EmptyQueryResponse && f.phase == MsgFirst && g.phase == QueryNeedsReady))
  {
  }

  lemma {:induction false} QueryTrack(f: Fsm, m: BackendMessage, cs: seq<Call>, lo: nat, hi: nat)
    requires lo < hi <= |f.messages| && f.current == hi - 1 && Track(f, cs, lo, hi) && Ongoing(HandleQuery(f, m))
    ensures Track(HandleQuery(f, m).fsm, cs + HandleQuery(f, m).calls, lo, hi)
  {
    hide HandleQuery, SummaryOf;
    QueryCalls(f, m);
    var t := HandleQuery(f, m);
    var given := Call(f.current, Deliver(m));
    if m.kind == ReadyForQuery {
      assert cs + [] == cs;
    } else if m.kind == CommandComplete && f.phase != QueryRows {
      var made := Call(f.current, SyntheticRowDescription);
      AddOne(cs, made, lo, hi);
      AddOne(cs + [made], given, lo, hi);
      assert cs + [made] + [given] == cs + ([made] + [given]);
    } else {
      AddOne(cs, given, lo, hi);
    }
  }

  lemma {:induction false} MoveTrack(f: Fsm, g: Fsm, cs: seq<Call>, ds: seq<Call>, lo: nat, hi: nat)
    requires hi > 0 && Track(f, cs, lo, hi) && Quiet(ds, lo, hi) && NoCopy(g)
    requires g.current >= hi || (f.current < hi - 1 && (g.current < hi - 1 || g.phase == MsgFirst))
    ensures Track(g, cs + ds, lo, hi)
  {
    hide SummaryOf;
    AddQuiet(cs, ds, lo, hi);
  }

  /** The machine is in its initial state when it comes to another message. */
  lemma {:induction false} FreshMessage(f: Fsm, m: BackendMessage)
    requires f.current < |f.messages| && f.messages[f.current] != Flush
    ensures var s := ResponseFsm.Dispatch(f, m); s.fsm.current != f.current ==> s.fsm.phase == MsgFirst
  {
    hide NextSync, Skips;
  }

  /** The callbacks of a message other than the query of the slice are not for the slice, or
      leave its handler alone, and the machine does not pass the query. */
  lemma {:induction false} OtherTrack(f: Fsm, m: BackendMessage, cs: seq<Call>, lo: nat, hi: nat)
    requires IsQuerySlice(f.messages, lo, hi) && Consistent(f) && f.messages[f.current] != Flush && f.current != hi - 1
    requires Track(f, cs, lo, hi) && Ongoing(ResponseFsm.Dispatch(f, m))
    ensures Track(ResponseFsm.Dispatch(f, m).fsm, cs + ResponseFsm.Dispatch(f, m).calls, lo, hi)
  {
    hide ResponseFsm.Dispatch, SummaryOf, Fit, Quiet;
    DispatchFrom(f, m);
    FreshMessage(f, m);
    var s := ResponseFsm.Dispatch(f, m);
    StepQuiet(f, s, lo, hi);
    if f.current < hi - 1 {
      StepDoesNotPass(f, s, hi - 1);
    } else {
      StepMovesOn(f, s);
    }
    MoveTrack(f, s.fsm, cs, s.calls, lo, hi);
  }

  lemma {:induction false} StepQuiet(f: Fsm, s: Step, lo: nat, hi: nat)
    requires IsQuerySlice(f.messages, lo, hi) && f.current < |f.messages| && f.messages[f.current] != Flush && f.current != hi - 1
    requires StepFrom(f, f.current, s)
    ensures Quiet(s.calls, lo, hi)
  {
  }

  lemma {:induction false} StepDoesNotPass(f: Fsm, s: Step, q: nat)
    requires Consistent(f) && f.messages[f.current] != Flush && f.current < q < |f.messages| && f.messages[q] == Query
    requires StepFrom(f, f.current, s)
    ensures s.fsm.current <= q
  {
    hide Closed;
    if Extended(f.messages[f.current]) {
      OpenAfter(f.messages, f.current);
      NextSyncSafe(f.messages, f.current + 1);
    }
  }

  lemma {:induction false} StepMovesOn(f: Fsm, s: Step)
    requires f.current < |f.messages| && f.messages[f.current] != Flush && StepFrom(f, f.current, s)
    ensures s.fsm.current >= f.current
  {
  }

  lemma {:induction false} FlushTrack(f: Fsm, cs: seq<Call>, lo: nat, hi: nat)
    requires IsQuerySlice(f.messages, lo, hi) && Consistent(f) && Track(f, cs, lo, hi)
    ensures Track(f.(current := SkipFlush(f.messages, f.current)), cs, lo, hi)
  {
    hide SummaryOf;
    SkipFlushSafe(f.messages, f.current);
    FlushIsFresh(f);
  }

  /** A flush that is current was never answered. */
  lemma {:induction false} FlushIsFresh(f: Fsm)
    requires Consistent(f)
    ensures f.messages[f.current] == Flush ==> f.phase == MsgFirst
  {
    hide Closed;
  }

  lemma {:induction false} ResumeTracks(f: Fsm, m: BackendMessage, cs: seq<Call>, lo: nat, hi: nat)
    requires Consistent(f) && IsQuerySlice(f.messages, lo, hi) && Track(f, cs, lo, hi) && Ongoing(Resume(f, m))
    ensures Track(Resume(f, m).fsm, cs + Resume(f, m).calls, lo, hi)
  {
    hide Track, HandleQuery, HandleAck, HandleDescribe, HandleExecute, HandleSync;
    if IsAsync(m.kind) {
      assert cs + [] == cs;
    } else {
      SkipFlushSafe(f.messages, f.current);
      var g := f.(current := SkipFlush(f.messages, f.current));
      FlushTrack(f, cs, lo, hi);
      if g.current == hi - 1 {
        QueryTrack(g, m, cs, lo, hi);
      } else {
        OtherTrack(g, m, cs, lo, hi);
      }
    }
  }

  lemma {:induction false} RunTracks(f: Fsm, w: seq<BackendMessage>, cs: seq<Call>, lo: nat, hi: nat)
    requires Consistent(f) && IsQuerySlice(f.messages, lo, hi) && Track(f, cs, lo, hi)
    ensures var s := SummaryOf(cs + Run(f, w).calls, lo, hi);
      s.announced && (s.state == Asserted <==> s.empty || s.descriptions >= 2)
    decreases |w|
  {
    hide SummaryOf, Resume, Consistent, IsQuerySlice, NoCopy;
    if w == [] {
      assert cs + [] == cs;
    } else {
      ResumeGood(f, w[0]);
      var s := Resume(f, w[0]);
      if Ongoing(s) {
        ResumeTracks(f, w[0], cs, lo, hi);
      } else {
        FailureIsSilent(f, w[0]);
        assert cs + [] == cs;
      }
      if s.verdict.Read? {
        RunTracks(s.fsm, w[1..], cs + s.calls, lo, hi);
        assert cs + (s.calls + Run(s.fsm, w[1..]).calls) == cs + s.calls + Run(s.fsm, w[1..]).calls;
      }
    }
  }

  /** In every run, with COPY off: the handler of a query fails an assertion exactly if the
      server answers that the query was empty, or describes a second resultset; and no row
      and no end of a resultset comes before a description. */
  lemma {:induction false} QuerySliceExactly(ms: seq<RequestMessage>, w: seq<BackendMessage>, lo: nat, hi: nat)
    requires Accepted(ms) && IsQuerySlice(ms, lo, hi)
    ensures var cs := Run(Init(ms, false), w).calls;
      && (FeedAll(cs, lo, hi) == Asserted <==> EmptyIn(cs, lo, hi) || Descriptions(cs, lo, hi) >= 2)
      && Announced(cs, lo, hi)
  {
    InitConsistent(ms, false);
    RunTracks(Init(ms, false), w, [], lo, hi);
    hide FeedAll, EmptyIn, Descriptions, Announced, Run;
    assert [] + Run(Init(ms, false), w).calls == Run(Init(ms, false), w).calls;
  }

  /** Where the handler fails no assertion, whatever the slice: no row and no end of a
      resultset came before a description. */
  lemma {:induction false} NotAssertedIsAnnounced(cs: seq<Call>, lo: nat, hi: nat)
    ensures FeedAll(cs, lo, hi) != Asserted ==>
      Announced(cs, lo, hi) && (Descriptions(cs, lo, hi) == 0 <==> FeedAll(cs, lo, hi) == ParsingMeta)
    decreases |cs|
  {
    if cs != [] {
      var last := |cs| - 1;
      NotAssertedIsAnnounced(cs[..last], lo, hi);
      assert cs == cs[..last] + [cs[last]];
      AddOne(cs[..last], cs[last], lo, hi);
      hide FeedAll, Descriptions, Announced, EmptyIn;
    }
  }

  // ----- the input that fails

  lemma {:induction false} TwoCommands(ms: seq<RequestMessage>, q: nat)
    requires q < |ms| && ms[q] == Query
    ensures Run(Standing(ms, q), [M(CommandComplete), M(CommandComplete)]).calls ==
      GoodCalls(Query, q) + GoodCalls(Query, q)
  {
    var f := Standing(ms, q);
    var g := f.(phase := QueryFirst);
    var m := M(CommandComplete);
    assert SkipFlush(ms, q) == q;
    assert Resume(f, m) == Step(g, Read, GoodCalls(Query, q));
    assert Resume(g, m) == Step(g, Read, GoodCalls(Query, q));
    hide Resume;
    assert [m, m] == [m] + [m];
    RunFirst(f, m, [m]);
    RunOne(g, m);
  }

  /** A reply of two commands to the query of the slice. */
  lemma {:induction false} TwoResultsetsBreak(ms: seq<RequestMessage>, lo: nat, hi: nat) returns (w: seq<BackendMessage>)
    requires Accepted(ms) && IsQuerySlice(ms, lo, hi)
    ensures var cs := Run(Init(ms, false), w).calls; FeedAll(cs, lo, hi) == Asserted && !EmptyIn(cs, lo, hi)
  {
    hide Run, FeedAll, EmptyIn, GoodCallsAll, GoodReplies, Quiet, Accepted;
    var q := hi - 1;
    var two := [M(CommandComplete), M(CommandComplete)];
    w := GoodReplies(ms, 0, q) + two;
    PassAll(ms, 0, q, two);
    TwoCommands(ms, q);
    GoodCallsQuiet(ms, 0, q, lo, hi);
    SecondUpsets(GoodCallsAll(ms, 0, q), q, lo, hi);
  }

  lemma {:induction false} SecondUpsets(a: seq<Call>, q: nat, lo: nat, hi: nat)
    requires Quiet(a, lo, hi) && lo <= q < hi
    ensures var cs := a + (GoodCalls(Query, q) + GoodCalls(Query, q)); FeedAll(cs, lo, hi) == Asserted && !EmptyIn(cs, lo, hi)
  {
    hide FeedAll, EmptyIn, Quiet;
    var made, given := Call(q, SyntheticRowDescription), Call(q, Deliver(M(CommandComplete)));
    NothingFed(lo, hi);
    FeedQuiet([], a, lo, hi);
    assert [] + a == a;
    FeedOne(a, made, lo, hi);
    FeedOne(a + [made], given, lo, hi);
    FeedOne(a + [made] + [given], made, lo, hi);
    FeedOne(a + [made] + [given] + [made], given, lo, hi);
    assert a + (GoodCalls(Query, q) + GoodCalls(Query, q)) == a + [made] + [given] + [made] + [given];
  }

  lemma {:induction false} EmptyAnswer(ms: seq<RequestMessage>, q: nat)
    requires q < |ms| && (ms[q] == Query || ms[q] == Execute)
    ensures Run(Standing(ms, q), [M(EmptyQueryResponse)]).calls == [Call(q, Deliver(M(EmptyQueryResponse)))]
  {
    assert SkipFlush(ms, q) == q;
    RunOne(Standing(ms, q), M(EmptyQueryResponse));
    hide Run, NextSync, Skips;
  }

  lemma {:induction false} EmptyUpsets(a: seq<Call>, q: nat, lo: nat, hi: nat)
    requires lo <= q < hi
    ensures var cs := a + [Call(q, Deliver(M(EmptyQueryResponse)))]; FeedAll(cs, lo, hi) == Asserted && EmptyIn(cs, lo, hi)
  {
    hide FeedAll, EmptyIn;
    FeedOne(a, Call(q, Deliver(M(EmptyQueryResponse))), lo, hi);
  }

  /** For every slice that resultset_setup accepts, a reply that says that the query was empty
      and makes its handler fail an assertion. */
  lemma {:induction false} EmptyQueryBreaks(ms: seq<RequestMessage>, lo: nat) returns (w: seq<BackendMessage>)
    requires Accepted(ms) && lo <= |ms| && ResultsetSetup(ms, lo).Slice?
    ensures var cs := Run(Init(ms, false), w).calls; var hi := ResultsetSetup(ms, lo).end;
      FeedAll(cs, lo, hi) == Asserted && EmptyIn(cs, lo, hi)
  {
    hide Run, FeedAll, EmptyIn, GoodCallsAll, GoodReplies, Accepted, ResultsetSetup;
    var hi := ResultsetSetup(ms, lo).end;
    ResultsetSlice(ms, lo);
    var q := hi - 1;
    if ms[q] != Query {
      var d: nat, x: nat :| ExtendedSlice(ms, lo, hi, d, x);
      q := x;
    }
    var empty := [M(EmptyQueryResponse)];
    w := GoodReplies(ms, 0, q) + empty;
    PassAll(ms, 0, q, empty);
    EmptyAnswer(ms, q);
    EmptyUpsets(GoodCallsAll(ms, 0, q), q, lo, hi);
  }

  /** The shortest such reply. */
  lemma {:induction false} EmptyQueryAsserts()
    ensures Accepted([Query]) && ResultsetSetup([Query], 0) == Slice(1)
    ensures FeedAll(Run(Init([Query], false), [M(EmptyQueryResponse)]).calls, 0, 1) == Asserted
  {
    hide Run, FeedAll, Accepted, ResultsetSetup;
    QueryIsAccepted();
    EmptyAnswer([Query], 0);
    EmptyUpsets([], 0, 0, 1);
    assert [] + [Call(0, Deliver(M(EmptyQueryResponse)))] == [Call(0, Deliver(M(EmptyQueryResponse)))];
  }

  /** Such a slice passes both the static check and the setup: a request of one query. */
  lemma {:induction false} QueryIsAccepted()
    ensures Accepted([Query]) && ResultsetSetup([Query], 0) == Slice(1) && IsQuerySlice([Query], 0, 1)
  {
    assert [Query][1..] == [];
    assert FirstLoud([Query], 0) == 0;
  }

  /** The exact condition, for every slice that resultset_setup accepts: its handler is safe
      whatever the server answers, empty queries aside, if and only if the slice is an
      extended query with no sync between its describe and its execute. */
  lemma {:induction false} SafeSlicesExactly(ms: seq<RequestMessage>, lo: nat)
    requires Accepted(ms) && lo <= |ms| && ResultsetSetup(ms, lo).Slice?
    ensures var hi := ResultsetSetup(ms, lo).end;
      (forall w :: SafeOn(ms, w, lo, hi)) <==> exists d: nat, x: nat :: OneBatch(ms, lo, hi, d, x)
  {
    hide FeedAll, EmptyIn, Run, Accepted, ResultsetSetup;
    var hi := ResultsetSetup(ms, lo).end;
    ResultsetSlice(ms, lo);
    if IsQuerySlice(ms, lo, hi) {
      var w := TwoResultsetsBreak(ms, lo, hi);
      assert !SafeOn(ms, w, lo, hi);
      assert !Silent(ms[hi - 1]) && ms[hi - 1] != Execute;
    } else {
      var d: nat, x: nat :| ExtendedSlice(ms, lo, hi, d, x);
      SafeExactlyInOneBatch(ms, lo, hi, d, x);
      OneShape(ms, lo, hi, d, x);
    }
  }

  /** The describe and the execute of a slice are determined by it. */
  lemma {:induction false} OneShape(ms: seq<RequestMessage>, lo: nat, hi: nat, d: nat, x: nat)
    requires ExtendedSlice(ms, lo, hi, d, x)
    ensures (exists e: nat, y: nat :: OneBatch(ms, lo, hi, e, y)) <==> forall k | d < k < x :: ms[k] != Sync
  {
    if forall k | d < k < x :: ms[k] != Sync {
      assert OneBatch(ms, lo, hi, d, x);
    }
    if e: nat, y: nat :| OneBatch(ms, lo, hi, e, y) {
      assert e == d && y == x;
    }
  }
}
