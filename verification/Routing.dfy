/** Response dispatch: a response of several handlers splits the request into slices, one for
    each handler, and hands every callback of the state machine to the handler whose slice it
    is for (include/nativepg/responses/response.hpp, src/responses.cpp). */
module Routing {
  import opened Messages
  import opened CheckRequest
  import opened ResponseFsm
  import opened Callbacks

  // ----- the slices

  /** The outcome of a setup: the end of the slice, or a refusal. The setup of a resultset
      reads past the end of a request that has no message for it. */
  datatype Setup = Slice(end: nat) | Refused(error: ClientError) | ReadPastTheEnd

  datatype Handler = Resultset | CheckOne(expected: RequestMessage)

  /** The first message at or after i that gets callbacks. */
  function FirstLoud(ms: seq<RequestMessage>, i: nat): (j: nat)
    requires i <= |ms|
    ensures i <= j <= |ms|
    ensures forall k | i <= k < j :: Silent(ms[k])
    ensures j < |ms| ==> !Silent(ms[j])
    decreases |ms| - i
  {
    if i == |ms| || !Silent(ms[i]) then i else FirstLoud(ms, i + 1)
  }

  /** An extended query from i on: one describe, one execute, and around them parses, binds,
      flushes and syncs. */
  function ScanExtended(ms: seq<RequestMessage>, i: nat, described: bool): Setup
    requires i <= |ms|
    decreases |ms| - i
  {
    if i == |ms| then Refused(IncompatibleResponseType)
    else match ms[i]
      case Sync => ScanExtended(ms, i + 1, described)
      case Flush => ScanExtended(ms, i + 1, described)
      case Parse => ScanExtended(ms, i + 1, described)
      case Bind => ScanExtended(ms, i + 1, described)
      case Describe => if described then Refused(IncompatibleResponseType) else ScanExtended(ms, i + 1, true)
      case Execute => if described then Slice(FirstLoud(ms, i + 1)) else Refused(IncompatibleResponseType)
      case _ => Refused(IncompatibleResponseType)
  }

  /** resultset_setup. */
  function ResultsetSetup(ms: seq<RequestMessage>, offset: nat): Setup
    requires offset <= |ms|
  {
    var a := FirstLoud(ms, offset);
    if a == |ms| then ReadPastTheEnd
    else if ms[a] == Query then Slice(a + 1)
    else ScanExtended(ms, a, false)
  }

  /** check_setup_impl. */
  function CheckSetup(ms: seq<RequestMessage>, offset: nat, expected: RequestMessage): Setup
    requires offset <= |ms|
  {
    var a := FirstLoud(ms, offset);
    if a == |ms| || ms[a] != expected then Refused(IncompatibleResponseType) else Slice(FirstLoud(ms, a + 1))
  }

  function HandlerSetup(ms: seq<RequestMessage>, offset: nat, h: Handler): Setup
    requires offset <= |ms|
  {
    match h
    case Resultset => ResultsetSetup(ms, offset)
    case CheckOne(expected) => CheckSetup(ms, offset, expected)
  }

  /** The loop of resultset_setup and the ones around it, as they run. */
  method SetupResultset(ms: seq<RequestMessage>, offset: nat) returns (r: Setup)
    requires offset <= |ms|
    ensures r == ResultsetSetup(ms, offset)
  {
    var it := SkipSilent(ms, offset);
    if it == |ms| {
      return ReadPastTheEnd;
    }
    if ms[it] == Query {
      return Slice(it + 1);
    }
    var described, executed := false, false;
    while it < |ms| && !executed
      invariant it <= |ms|
      invariant ResultsetSetup(ms, offset) == if executed then Slice(FirstLoud(ms, it)) else ScanExtended(ms, it, described)
      decreases |ms| - it
    {
      match ms[it] {
        case Describe =>
          if described {
            return Refused(IncompatibleResponseType);
          }
          described := true;
        case Execute =>
          if !described {
            return Refused(IncompatibleResponseType);
          }
          executed := true;
        case Sync =>
        case Flush =>
        case Parse =>
        case Bind =>
        case _ =>
          return Refused(IncompatibleResponseType);
      }
      it := it + 1;
    }
    it := SkipSilent(ms, it);
    return if executed then Slice(it) else Refused(IncompatibleResponseType);
  }

  method SkipSilent(ms: seq<RequestMessage>, i: nat) returns (j: nat)
    requires i <= |ms|
    ensures j == FirstLoud(ms, i)
  {
    j := i;
    while j < |ms| && (ms[j] == Sync || ms[j] == Flush)
      invariant i <= j <= |ms| && FirstLoud(ms, j) == FirstLoud(ms, i)
    {
      j := j + 1;
    }
  }

  /** The shape of a slice for an extended query: the describe is at d, the execute at x. */
  predicate ExtendedSlice(ms: seq<RequestMessage>, lo: nat, hi: nat, d: nat, x: nat) {
    && lo <= d < x < hi <= |ms| && ms[d] == Describe && ms[x] == Execute
    && (forall k | lo <= k < x && k != d :: Silent(ms[k]) || ms[k] == Parse || ms[k] == Bind)
    && (forall k | x < k < hi :: Silent(ms[k]))
  }

  /** The part of it after the describe. */
  predicate ExecuteSlice(ms: seq<RequestMessage>, lo: nat, hi: nat, x: nat) {
    && lo <= x < hi <= |ms| && ms[x] == Execute
    && (forall k | lo <= k < x :: Silent(ms[k]) || ms[k] == Parse || ms[k] == Bind)
    && (forall k | x < k < hi :: Silent(ms[k]))
  }

  lemma {:induction false} ScanShape(ms: seq<RequestMessage>, i: nat, described: bool)
    requires i <= |ms|
    ensures match ScanExtended(ms, i, described)
      case Slice(hi) =>
        && i < hi <= |ms|
        && (hi == |ms| || !Silent(ms[hi]))
        && (!described ==> exists d: nat, x: nat :: ExtendedSlice(ms, i, hi, d, x))
        && (described ==> exists x: nat :: ExecuteSlice(ms, i, hi, x))
      case Refused(_) => true
      case ReadPastTheEnd => false
    decreases |ms| - i
  {
    if i < |ms| {
      if ms[i] == Execute {
        if described {
          assert ExecuteSlice(ms, i, FirstLoud(ms, i + 1), i);
        }
      } else if ms[i] == Describe {
        ScanShape(ms, i + 1, true);
        if !described && ScanExtended(ms, i, described).Slice? {
          var hi := ScanExtended(ms, i, described).end;
          var x: nat :| ExecuteSlice(ms, i + 1, hi, x);
          assert ExtendedSlice(ms, i, hi, i, x);
        }
      } else {
        ScanShape(ms, i + 1, described);
        if ScanExtended(ms, i, described).Slice? {
          var hi := ScanExtended(ms, i, described).end;
          if described {
            var x: nat :| ExecuteSlice(ms, i + 1, hi, x);
            assert ExecuteSlice(ms, i, hi, x);
          } else {
            var d: nat, x: nat :| ExtendedSlice(ms, i + 1, hi, d, x);
            assert ExtendedSlice(ms, i, hi, d, x);
          }
        }
      }
    }
  }

  /** What resultset_setup accepts: a single query, or an extended query of the shape above,
      up to the next message that gets callbacks. */
  lemma {:induction false} ResultsetSlice(ms: seq<RequestMessage>, lo: nat)
    requires lo <= |ms|
    ensures match ResultsetSetup(ms, lo)
      case Slice(hi) =>
        && lo < hi <= |ms|
        && ((ms[hi - 1] == Query && forall k | lo <= k < hi - 1 :: Silent(ms[k])) ||
            ((hi == |ms| || !Silent(ms[hi])) && exists d: nat, x: nat :: ExtendedSlice(ms, lo, hi, d, x)))
      case Refused(_) => true
      case ReadPastTheEnd => forall k | lo <= k < |ms| :: Silent(ms[k])
  {
    var a := FirstLoud(ms, lo);
    ScanShape(ms, a, false);
    if a < |ms| && ms[a] != Query && ResultsetSetup(ms, lo).Slice? {
      var hi := ResultsetSetup(ms, lo).end;
      var d: nat, x: nat :| ExtendedSlice(ms, a, hi, d, x);
      assert ExtendedSlice(ms, lo, hi, d, x);
    }
  }

  // ----- a response of several handlers

  datatype Slices = Slices(ends: seq<nat>) | Failure(error: ClientError) | Undefined

  /** response_setup. */
  function ResponseSetup(ms: seq<RequestMessage>, offset: nat, hs: seq<Handler>): Slices
    decreases |hs|
  {
    if hs == [] then Slices([])
    else if offset > |ms| then Undefined
    else match HandlerSetup(ms, offset, hs[0])
      case Refused(e) => Failure(e)
      case ReadPastTheEnd => Undefined
      case Slice(end) =>
        match ResponseSetup(ms, end, hs[1..])
        case Slices(ends) => Slices([end] + ends)
        case other => other
  }

  datatype Readiness = Passed | Rejected(why: ClientError) | ReadsPastTheEnd

  /** setup_request: the static check, the setup of the response, and that it covers the
      request. */
  function SetupRequest(ms: seq<RequestMessage>, hs: seq<Handler>): Readiness {
    if ms == [] then Rejected(EmptyRequest)
    else match Scan(ms, false)
      case Some(e) => Rejected(e)
      case None =>
        match ResponseSetup(ms, 0, hs)
        case Failure(e) => Rejected(e)
        case Undefined => ReadsPastTheEnd
        case Slices(ends) =>
          if ends != [] && ends[|ends| - 1] == |ms| then Passed else Rejected(IncompatibleResponseLength)
  }

  /** Where slice k starts, when the first slice starts at offset. */
  function StartOf(offset: nat, ends: seq<nat>, k: nat): nat
    requires k < |ends|
  {
    if k == 0 then offset else ends[k - 1]
  }

  ghost predicate HasLoud(ms: seq<RequestMessage>, lo: nat, hi: nat)
    requires hi <= |ms|
  {
    exists k :: lo <= k < hi && !Silent(ms[k])
  }

  /** The slices follow each other, and each has a message that gets callbacks. */
  ghost predicate Partition(ms: seq<RequestMessage>, offset: nat, ends: seq<nat>) {
    forall k | 0 <= k < |ends| :: GoodSlice(ms, offset, ends, k)
  }

  ghost predicate GoodSlice(ms: seq<RequestMessage>, offset: nat, ends: seq<nat>, k: nat)
    requires k < |ends|
  {
    StartOf(offset, ends, k) < ends[k] <= |ms| && HasLoud(ms, StartOf(offset, ends, k), ends[k])
  }

  lemma {:induction false} HandlerSlice(ms: seq<RequestMessage>, lo: nat, h: Handler)
    requires lo <= |ms| && HandlerSetup(ms, lo, h).Slice?
    requires h.CheckOne? ==> !Silent(h.expected)
    ensures var hi := HandlerSetup(ms, lo, h).end; lo < hi <= |ms| && HasLoud(ms, lo, hi)
  {
    match h {
      case CheckOne(_) =>
        var a := FirstLoud(ms, lo);
        assert lo <= a < HandlerSetup(ms, lo, h).end && !Silent(ms[a]);
      case Resultset =>
        ResultsetSlice(ms, lo);
        var hi := HandlerSetup(ms, lo, h).end;
        if !(ms[hi - 1] == Query) {
          var d: nat, x: nat :| ExtendedSlice(ms, lo, hi, d, x);
          assert !Silent(ms[x]);
        } else {
          assert !Silent(ms[hi - 1]);
        }
    }
  }

  /** The handlers that exist expect a message that gets callbacks. */
  predicate Sensible(hs: seq<Handler>) {
    forall i | 0 <= i < |hs| && hs[i].CheckOne? :: !Silent(hs[i].expected)
  }

  lemma {:induction false} SetupPartitions(ms: seq<RequestMessage>, offset: nat, hs: seq<Handler>)
    requires offset <= |ms| && Sensible(hs) && ResponseSetup(ms, offset, hs).Slices?
    ensures var ends := ResponseSetup(ms, offset, hs).ends; |ends| == |hs| && Partition(ms, offset, ends)
    decreases |hs|
  {
    if hs != [] {
      HandlerSlice(ms, offset, hs[0]);
      var end := HandlerSetup(ms, offset, hs[0]).end;
      SetupPartitions(ms, end, hs[1..]);
      var rest := ResponseSetup(ms, end, hs[1..]).ends;
      var ends := [end] + rest;
      forall k | 0 <= k < |ends|
        ensures GoodSlice(ms, offset, ends, k)
      {
        if k > 0 {
          assert GoodSlice(ms, end, rest, k - 1);
          assert StartOf(offset, ends, k) == StartOf(end, rest, k - 1) && ends[k] == rest[k - 1];
        }
      }
    }
  }

  // ----- no callback is missing in between

  lemma {:induction false} FinishedIsCalled(ms: seq<RequestMessage>, cs: seq<Call>, o: nat)
    requires o < |ms| && Finished(ms, cs, o) > 0
    ensures CalledAt(cs, o)
    decreases |cs|
  {
    var last := |cs| - 1;
    if cs[last].offset != o {
      FinishedIsCalled(ms, cs[..last], o);
      var i :| 0 <= i < |cs[..last]| && cs[..last][i].offset == o;
      assert cs[i].offset == o;
    }
  }

  /** The callbacks come in order, and none is made before those of every earlier message
      that gets any. */
  ghost predicate Gapless(ms: seq<RequestMessage>, cs: seq<Call>) {
    && Ordered(cs)
    && (forall i | 0 <= i < |cs| :: cs[i].offset < |ms|)
    && (forall i, o | 0 <= i < |cs| && 0 <= o < cs[i].offset && o < |ms| && !Silent(ms[o]) :: CalledAt(cs[..i], o))
  }

  lemma {:induction false} DisciplinedIsGapless(f: Fsm, cs: seq<Call>)
    requires Disciplined(f, cs)
    ensures Gapless(f.messages, cs)
  {
    hide Finished, Dead, SkippedAt, ErrorAt, Unanswered;
    forall i, o | 0 <= i < |cs| && 0 <= o < cs[i].offset && o < |f.messages| && !Silent(f.messages[o])
      ensures CalledAt(cs[..i], o)
    {
      assert Answered(f.messages, cs, o);
      if f.messages[o] != Query {
        FinishedIsCalled(f.messages, cs, o);
      }
      var j :| 0 <= j < |cs| && cs[j].offset == o;
      assert cs[..i][j].offset == o;
    }
  }

  /** A step that fails makes no callback. */
  lemma {:induction false} FailureIsSilent(f: Fsm, m: BackendMessage)
    requires Resume(f, m).verdict.Done? && Resume(f, m).verdict.error.Some?
    ensures Resume(f, m).calls == []
  {
    hide HandleError, SkipFlush, HandleExecute, HandleQuery, HandleAck, HandleDescribe, HandleSync;
    if !IsAsync(m.kind) && f.current <= |f.messages| && SkipFlush(f.messages, f.current) < |f.messages| {
      var g := f.(current := SkipFlush(f.messages, f.current));
      QueryFailureIsSilent(g, m);
      ExecuteFailureIsSilent(g, m);
      OtherFailureIsSilent(g, m);
    }
  }

  predicate Silently(s: Step) {
    s.verdict.Done? && s.verdict.error.Some? ==> s.calls == []
  }

  lemma {:induction false} QueryFailureIsSilent(f: Fsm, m: BackendMessage)
    ensures Silently(HandleQuery(f, m))
  {
  }

  lemma {:induction false} ExecuteFailureIsSilent(f: Fsm, m: BackendMessage)
    requires f.current < |f.messages|
    ensures Silently(HandleExecute(f, m))
  {
    hide HandleError;
    ErrorIsNoFailure(f, m);
  }

  lemma {:induction false} OtherFailureIsSilent(f: Fsm, m: BackendMessage)
    requires f.current < |f.messages|
    ensures Silently(HandleAck(f, m, BindComplete)) && Silently(HandleAck(f, m, CloseComplete))
    ensures Silently(HandleAck(f, m, ParseComplete)) && Silently(HandleDescribe(f, m)) && Silently(HandleSync(f, m))
  {
    hide HandleError;
    ErrorIsNoFailure(f, m);
  }

  lemma {:induction false} ErrorIsNoFailure(f: Fsm, m: BackendMessage)
    requires f.current < |f.messages|
    ensures !HandleError(f, m).verdict.Done?
  {
  }

  lemma {:induction false} FailedRunIsSilent(f: Fsm, cs: seq<Call>, w: seq<BackendMessage>)
    requires Disciplined(f, cs) && Consistent(f)
    ensures Gapless(f.messages, cs + Run(f, w).calls)
    decreases |w|
  {
    hide Disciplined, Resume, Consistent, Gapless;
    if w == [] {
      assert cs + [] == cs;
      DisciplinedIsGapless(f, cs);
    } else {
      ResumeGood(f, w[0]);
      ResumeDisciplined(f, cs, w[0]);
      var s := Resume(f, w[0]);
      if s.verdict.Read? {
        FailedRunIsSilent(s.fsm, cs + s.calls, w[1..]);
        assert cs + (s.calls + Run(s.fsm, w[1..]).calls) == cs + s.calls + Run(s.fsm, w[1..]).calls;
      } else if s.verdict == Done(None) {
        DisciplinedIsGapless(s.fsm, cs + s.calls);
      } else {
        FailureIsSilent(f, w[0]);
        assert cs + [] == cs;
        DisciplinedIsGapless(f, cs);
      }
    }
  }

  /** The callbacks of every run on an accepted request, successful or not. */
  lemma {:induction false} EveryRunIsGapless(ms: seq<RequestMessage>, allowCopy: bool, w: seq<BackendMessage>)
    requires Accepted(ms)
    ensures Gapless(ms, Run(Init(ms, allowCopy), w).calls)
  {
    hide Disciplined, Run, Consistent, Gapless;
    InitConsistent(ms, allowCopy);
    StartDisciplined(ms, allowCopy);
    FailedRunIsSilent(Init(ms, allowCopy), [], w);
    assert [] + Run(Init(ms, allowCopy), w).calls == Run(Init(ms, allowCopy), w).calls;
  }

  // ----- routing

  /** The callbacks for the messages from lo up to hi. */
  function CallsIn(cs: seq<Call>, lo: nat, hi: nat): seq<Call> {
    if cs == [] then []
    else CallsIn(cs[..|cs| - 1], lo, hi) +
         var last := cs[|cs| - 1]; if lo <= last.offset < hi then [last] else []
  }

  lemma {:induction false} CallsInOne(cs: seq<Call>, c: Call, lo: nat, hi: nat)
    ensures CallsIn(cs + [c], lo, hi) == CallsIn(cs, lo, hi) + if lo <= c.offset < hi then [c] else []
  {
    assert (cs + [c])[..|cs|] == cs;
  }

  lemma {:induction false} NotCalledYet(cs: seq<Call>, i: nat, o: nat)
    requires Ordered(cs) && i < |cs| && (i > 0 ==> cs[i - 1].offset < o)
    ensures !CalledAt(cs[..i], o)
  {
    forall j | 0 <= j < |cs[..i]| ensures cs[..i][j].offset != o {
      assert cs[..i][j] == cs[j] && (j < i - 1 ==> cs[j].offset <= cs[i - 1].offset);
    }
  }

  /** No slice lies between two callbacks that follow each other. */
  lemma {:induction false} NotSkipped(ms: seq<RequestMessage>, ends: seq<nat>, cs: seq<Call>, i: nat, k: nat)
    requires Gapless(ms, cs) && Partition(ms, 0, ends) && i < |cs| && k < |ends|
    requires i > 0 ==> cs[i - 1].offset < StartOf(0, ends, k)
    ensures cs[i].offset < ends[k]
  {
    assert GoodSlice(ms, 0, ends, k);
    var o :| StartOf(0, ends, k) <= o < ends[k] && !Silent(ms[o]);
    NotCalledYet(cs, i, o);
  }

  /** The next callback is for the current slice or for the one after it. */
  lemma {:induction false} NextSlice(ms: seq<RequestMessage>, ends: seq<nat>, cs: seq<Call>, i: nat, current: nat)
    requires Gapless(ms, cs) && Partition(ms, 0, ends) && i < |cs| && current < |ends|
    requires ends[|ends| - 1] == |ms|
    requires i == 0 ==> current == 0
    requires i > 0 ==> StartOf(0, ends, current) <= cs[i - 1].offset < ends[current]
    ensures cs[i].offset < ends[current] ==> StartOf(0, ends, current) <= cs[i].offset
    ensures cs[i].offset >= ends[current] ==> current + 1 < |ends| && ends[current] <= cs[i].offset < ends[current + 1]
  {
    hide Partition;
    if i == 0 {
      NotSkipped(ms, ends, cs, i, 0);
    } else {
      assert cs[i - 1].offset <= cs[i].offset;
      if current + 1 < |ends| {
        NotSkipped(ms, ends, cs, i, current + 1);
      }
    }
  }

  /** A response: the ends of the slices, the current slice, and what each handler was given. */
  class Response {
    const ends: seq<nat>
    var current: nat
    var given: seq<seq<Call>>

    constructor (ends: seq<nat>)
      ensures this.ends == ends && current == 0 && given == seq(|ends|, _ => [])
    {
      this.ends := ends;
      current := 0;
      given := seq(|ends|, _ => []);
    }

    /** on_message: advance at most one slice; the assertion of the source is the precondition. */
    method OnMessage(c: Call)
      requires current < |ends| == |given|
      requires c.offset >= ends[current] ==> current + 1 < |ends| && c.offset < ends[current + 1]
      modifies this
      ensures current == old(current) + if c.offset >= ends[old(current)] then 1 else 0
      ensures current < |ends| && given == old(given)[current := old(given)[current] + [c]]
    {
      if c.offset >= ends[current] {
        current := current + 1;
      }
      given := given[current := given[current] + [c]];
    }
  }

  /** Routing: for a fresh response whose slices cover the request, every callback of every
      run reaches the one handler whose slice it is for, and the range assertion holds. */
  method RouteRun(ms: seq<RequestMessage>, hs: seq<Handler>, allowCopy: bool, w: seq<BackendMessage>) returns (r: Response)
    requires Sensible(hs) && hs != [] && SetupRequest(ms, hs) == Passed
    ensures ResponseSetup(ms, 0, hs) == Slices(r.ends) && |r.given| == |r.ends| == |hs|
    ensures forall k | 0 <= k < |hs| :: r.given[k] == SliceCalls(Run(Init(ms, allowCopy), w).calls, r.ends, k)
  {
    hide Run, Accepted, Gapless, Partition, SliceCalls, ResponseSetup, SetupRequest, StartOf;
    PassedCovers(ms, hs);
    SetupPartitions(ms, 0, hs);
    EveryRunIsGapless(ms, allowCopy, w);
    r := RouteCalls(ms, ResponseSetup(ms, 0, hs).ends, Run(Init(ms, allowCopy), w).calls);
  }

  lemma {:induction false} PassedCovers(ms: seq<RequestMessage>, hs: seq<Handler>)
    requires SetupRequest(ms, hs) == Passed
    ensures Accepted(ms) && ResponseSetup(ms, 0, hs).Slices?
    ensures var ends := ResponseSetup(ms, 0, hs).ends; ends != [] && ends[|ends| - 1] == |ms|
  {
    hide ResponseSetup, Scan;
  }

  /** Callbacks without gaps, for slices that cover the request. */
  method RouteCalls(ghost ms: seq<RequestMessage>, ends: seq<nat>, cs: seq<Call>) returns (r: Response)
    requires Gapless(ms, cs) && Partition(ms, 0, ends) && ends != [] && ends[|ends| - 1] == |ms|
    ensures r.ends == ends && |r.given| == |ends| && r.current == CurrentAfter(ends, 0, cs)
    ensures forall k | 0 <= k < |ends| :: r.given[k] == SliceCalls(cs, ends, k)
  {
    hide Gapless, Partition, Placed, SliceCalls, CurrentAfter;
    CurrentStart(ends, cs);
    r := new Response(ends);
    PlacedStart(ends, cs);
    for i := 0 to |cs|
      invariant r.ends == ends && r.current < |ends| == |r.given|
      invariant Placed(ends, cs, i, r.current, r.given) && r.current == CurrentAfter(ends, 0, cs[..i])
    {
      CurrentStep(ends, 0, cs, i);
      PlacedStep(ms, ends, cs, i, r.current, r.given);
      r.OnMessage(cs[i]);
    }
    PlacedEnd(ends, cs, r.current, r.given);
  }

  /** Where a response stands after i callbacks. */
  ghost predicate Placed(ends: seq<nat>, cs: seq<Call>, i: nat, current: nat, given: seq<seq<Call>>)
    requires i <= |cs| && current < |ends|
  {
    && (i == 0 ==> current == 0)
    && (i > 0 ==> StartOf(0, ends, current) <= cs[i - 1].offset < ends[current])
    && |given| == |ends|
    && forall k | 0 <= k < |ends| :: given[k] == SliceCalls(cs[..i], ends, k)
  }

  lemma {:induction false} PlacedStart(ends: seq<nat>, cs: seq<Call>)
    requires ends != []
    ensures Placed(ends, cs, 0, 0, seq(|ends|, _ => []))
  {
    hide SliceCalls, StartOf;
    NoSliceCalls(ends);
    assert cs[..0] == [];
  }

  lemma {:induction false} PlacedEnd(ends: seq<nat>, cs: seq<Call>, current: nat, given: seq<seq<Call>>)
    requires current < |ends| && Placed(ends, cs, |cs|, current, given)
    ensures |given| == |ends| && forall k | 0 <= k < |ends| :: given[k] == SliceCalls(cs, ends, k)
  {
    hide SliceCalls, StartOf;
    assert cs[..|cs|] == cs;
  }

  lemma {:induction false} PlacedStep(ms: seq<RequestMessage>, ends: seq<nat>, cs: seq<Call>, i: nat, current: nat, given: seq<seq<Call>>)
    requires Gapless(ms, cs) && Partition(ms, 0, ends) && ends != [] && ends[|ends| - 1] == |ms|
    requires i < |cs| && current < |ends| && Placed(ends, cs, i, current, given)
    ensures cs[i].offset >= ends[current] ==> current + 1 < |ends| && cs[i].offset < ends[current + 1]
    ensures var now := current + if cs[i].offset >= ends[current] then 1 else 0;
      |given| == |ends| && Placed(ends, cs, i + 1, now, given[now := given[now] + [cs[i]]])
  {
    hide Gapless, Partition, SliceCalls, StartOf;
    NextSlice(ms, ends, cs, i, current);
    StartAfter(ends, current);
    var now := current + if cs[i].offset >= ends[current] then 1 else 0;
    assert cs[..i + 1] == cs[..i] + [cs[i]];
    NextSliceCalls(ms, ends, now, cs[..i], cs[i]);
  }

  /** The callbacks for the messages of slice k. */
  function SliceCalls(cs: seq<Call>, ends: seq<nat>, k: nat): seq<Call>
    requires k < |ends|
  {
    CallsIn(cs, StartOf(0, ends, k), ends[k])
  }

  lemma {:induction false} NoSliceCalls(ends: seq<nat>)
    ensures forall k | 0 <= k < |ends| :: SliceCalls([], ends, k) == []
  {
  }

  lemma {:induction false} StartAfter(ends: seq<nat>, k: nat)
    requires k < |ends|
    ensures k + 1 < |ends| ==> StartOf(0, ends, k + 1) == ends[k]
  {
  }

  lemma {:induction false} NextSliceCalls(ms: seq<RequestMessage>, ends: seq<nat>, current: nat, cs: seq<Call>, c: Call)
    requires Partition(ms, 0, ends) && current < |ends| && StartOf(0, ends, current) <= c.offset < ends[current]
    ensures forall k | 0 <= k < |ends| ::
      SliceCalls(cs + [c], ends, k) == SliceCalls(cs, ends, k) + if k == current then [c] else []
  {
    OneSlice(ms, ends, current, c.offset);
    forall k | 0 <= k < |ends|
      ensures SliceCalls(cs + [c], ends, k) == SliceCalls(cs, ends, k) + if k == current then [c] else []
    {
      CallsInOne(cs, c, StartOf(0, ends, k), ends[k]);
    }
  }

  lemma {:induction false} EndsGrow(ms: seq<RequestMessage>, ends: seq<nat>, i: nat, j: nat)
    requires Partition(ms, 0, ends) && i < j < |ends|
    ensures ends[i] <= StartOf(0, ends, j) < ends[j]
    decreases j - i
  {
    assert GoodSlice(ms, 0, ends, j);
    if i + 1 < j {
      EndsGrow(ms, ends, i, j - 1);
    }
  }

  /** The slices do not overlap. */
  lemma {:induction false} OneSlice(ms: seq<RequestMessage>, ends: seq<nat>, k: nat, o: nat)
    requires Partition(ms, 0, ends) && k < |ends| && StartOf(0, ends, k) <= o < ends[k]
    ensures forall j | 0 <= j < |ends| && StartOf(0, ends, j) <= o < ends[j] :: j == k
  {
    forall j | 0 <= j < |ends| && StartOf(0, ends, j) <= o < ends[j] ensures j == k {
      if j < k {
        EndsGrow(ms, ends, j, k);
      } else if k < j {
        EndsGrow(ms, ends, k, j);
      }
    }
  }

  // ----- a response that was used before

  /** The current slice of a response that stood at slice c, after some callbacks. */
  function CurrentAfter(ends: seq<nat>, c: nat, cs: seq<Call>): nat {
    if cs == [] then c
    else
      var k := CurrentAfter(ends, c, cs[..|cs| - 1]);
      if k < |ends| && cs[|cs| - 1].offset >= ends[k] then k + 1 else k
  }

  lemma {:induction false} CurrentStart(ends: seq<nat>, cs: seq<Call>)
    ensures CurrentAfter(ends, 0, cs[..0]) == 0 && cs[..|cs|] == cs
  {
  }

  lemma {:induction false} CurrentStep(ends: seq<nat>, c: nat, cs: seq<Call>, i: nat)
    requires i < |cs|
    ensures CurrentAfter(ends, c, cs[..0]) == c
    ensures var k := CurrentAfter(ends, c, cs[..i]);
      CurrentAfter(ends, c, cs[..i + 1]) == if k < |ends| && cs[i].offset >= ends[k] then k + 1 else k
  {
    assert cs[..i + 1][..i] == cs[..i];
  }

  /** The callback at i reaches the handler whose slice it is for. */
  predicate RightAt(ends: seq<nat>, c: nat, cs: seq<Call>, i: nat)
    requires i < |cs|
  {
    var k := CurrentAfter(ends, c, cs[..i + 1]);
    k < |ends| && StartOf(0, ends, k) <= cs[i].offset < ends[k]
  }

  predicate RoutedRight(ends: seq<nat>, c: nat, cs: seq<Call>) {
    forall i | 0 <= i < |cs| :: RightAt(ends, c, cs, i)
  }

  lemma {:induction false} FreshIsRight(ms: seq<RequestMessage>, ends: seq<nat>, cs: seq<Call>, i: nat)
    requires Gapless(ms, cs) && Partition(ms, 0, ends) && ends != [] && ends[|ends| - 1] == |ms| && i < |cs|
    ensures RightAt(ends, 0, cs, i)
    decreases i
  {
    hide Gapless, Partition, CurrentAfter, StartOf;
    CurrentStep(ends, 0, cs, i);
    var k := CurrentAfter(ends, 0, cs[..i]);
    if i > 0 {
      FreshIsRight(ms, ends, cs, i - 1);
    }
    NextSlice(ms, ends, cs, i, k);
    StartAfter(ends, k);
  }

  lemma {:induction false} UsedIsWrong(ms: seq<RequestMessage>, ends: seq<nat>, cs: seq<Call>, c: nat)
    requires Gapless(ms, cs) && Partition(ms, 0, ends) && 0 < c < |ends| && cs != []
    ensures !RightAt(ends, c, cs, 0)
  {
    hide Gapless, Partition, CurrentAfter, StartOf;
    CurrentStep(ends, c, cs, 0);
    NotSkipped(ms, ends, cs, 0, 0);
    EndsGrow(ms, ends, 0, c);
  }

  /** Why a response has to be fresh, for every request and handlers that pass `setup_request`
      and every run that makes callbacks: they all reach the handlers they are for if and only
      if the response stands at its first slice. */
  lemma {:induction false} RoutedRightExactly(ms: seq<RequestMessage>, hs: seq<Handler>, allowCopy: bool, w: seq<BackendMessage>, c: nat)
    requires Sensible(hs) && SetupRequest(ms, hs) == Passed && c < |hs| && Run(Init(ms, allowCopy), w).calls != []
    ensures ResponseSetup(ms, 0, hs).Slices?
    ensures RoutedRight(ResponseSetup(ms, 0, hs).ends, c, Run(Init(ms, allowCopy), w).calls) <==> c == 0
  {
    hide Run, Accepted, Gapless, Partition, ResponseSetup, SetupRequest, StartOf, RightAt;
    PassedCovers(ms, hs);
    SetupPartitions(ms, 0, hs);
    EveryRunIsGapless(ms, allowCopy, w);
    var ends, cs := ResponseSetup(ms, 0, hs).ends, Run(Init(ms, allowCopy), w).calls;
    if c > 0 {
      UsedIsWrong(ms, ends, cs, c);
    } else {
      forall i | 0 <= i < |cs| ensures RightAt(ends, c, cs, i) {
        FreshIsRight(ms, ends, cs, i);
      }
    }
  }

  /** A response used for the same request twice: the second run is routed right if and only if
      the callbacks of the first one never left the first slice. */
  lemma {:induction false} SecondUseExactly(ms: seq<RequestMessage>, hs: seq<Handler>, allowCopy: bool, v: seq<BackendMessage>,
      w: seq<BackendMessage>)
    requires Sensible(hs) && hs != [] && SetupRequest(ms, hs) == Passed
    requires Run(Init(ms, allowCopy), v).calls != [] && Run(Init(ms, allowCopy), w).calls != []
    ensures ResponseSetup(ms, 0, hs).Slices? && ResponseSetup(ms, 0, hs).ends != []
    ensures var ends := ResponseSetup(ms, 0, hs).ends; var cs := Run(Init(ms, allowCopy), v).calls;
      RoutedRight(ends, CurrentAfter(ends, 0, cs), Run(Init(ms, allowCopy), w).calls) <==> cs[|cs| - 1].offset < ends[0]
  {
    hide Run, Accepted, Gapless, Partition, ResponseSetup, SetupRequest, StartOf, CurrentAfter, RoutedRight;
    PassedCovers(ms, hs);
    SetupPartitions(ms, 0, hs);
    EveryRunIsGapless(ms, allowCopy, v);
    var ends, cs := ResponseSetup(ms, 0, hs).ends, Run(Init(ms, allowCopy), v).calls;
    var last := |cs| - 1;
    FreshIsRight(ms, ends, cs, last);
    assert cs[..last + 1] == cs;
    var k := CurrentAfter(ends, 0, cs);
    if k > 0 {
      EndsGrow(ms, ends, 0, k);
    }
    RoutedRightExactly(ms, hs, allowCopy, w, k);
  }
}
