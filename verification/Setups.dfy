/** Which responses fit a request: the setups of src/responses.cpp and of
    include/nativepg/responses/response.hpp by the shape of the request alone, in both directions. */
module Setups {
  import opened Messages
  import opened CheckRequest
  import opened Callbacks
  import opened Routing

  /** Up to hi, and the next message gets callbacks. */
  predicate UpToLoud(ms: seq<RequestMessage>, hi: nat) {
    hi <= |ms| && (hi == |ms| || !Silent(ms[hi]))
  }

  /** A query, after syncs and flushes. */
  predicate QueryShape(ms: seq<RequestMessage>, lo: nat, hi: nat) {
    lo < hi <= |ms| && ms[hi - 1] == Query && forall k | lo <= k < hi - 1 :: Silent(ms[k])
  }

  /** The expected message at a, among syncs and flushes. */
  predicate OneShape(ms: seq<RequestMessage>, lo: nat, hi: nat, a: nat, expected: RequestMessage) {
    lo <= a < hi <= |ms| && ms[a] == expected && !Silent(expected) && forall k | lo <= k < hi && k != a :: Silent(ms[k])
  }

  /** The part of the request from lo up to hi is for the handler. */
  ghost predicate IsFor(ms: seq<RequestMessage>, lo: nat, hi: nat, h: Handler) {
    match h
    case Resultset => QueryShape(ms, lo, hi) || (UpToLoud(ms, hi) && exists d: nat, x: nat :: ExtendedSlice(ms, lo, hi, d, x))
    case CheckOne(expected) => UpToLoud(ms, hi) && exists a: nat :: OneShape(ms, lo, hi, a, expected)
  }

  lemma {:induction false} LoudIs(ms: seq<RequestMessage>, i: nat, j: nat)
    requires i <= j <= |ms| && (forall k | i <= k < j :: Silent(ms[k])) && (j < |ms| ==> !Silent(ms[j]))
    ensures FirstLoud(ms, i) == j
  {
  }

  /** The scan of an extended query of the right shape finds its end. */
  lemma {:induction false} ScanReaches(ms: seq<RequestMessage>, i: nat, d: nat, x: nat)
    requires i <= x < |ms| && d < x && ms[d] == Describe && ms[x] == Execute
    requires forall k | i <= k < x && k != d :: Silent(ms[k]) || ms[k] == Parse || ms[k] == Bind
    ensures ScanExtended(ms, i, i > d) == Slice(FirstLoud(ms, x + 1))
    decreases x - i
  {
    if i < x {
      ScanReaches(ms, i + 1, d, x);
    }
  }

  lemma {:induction false} ResultsetFound(ms: seq<RequestMessage>, lo: nat, hi: nat)
    requires lo <= |ms| && IsFor(ms, lo, hi, Resultset)
    ensures ResultsetSetup(ms, lo) == Slice(hi)
  {
    var a := FirstLoud(ms, lo);
    if QueryShape(ms, lo, hi) {
      LoudIs(ms, lo, hi - 1);
    } else {
      var d: nat, x: nat :| ExtendedSlice(ms, lo, hi, d, x);
      assert a <= d by {
        assert !Silent(ms[d]);
      }
      ScanReaches(ms, a, d, x);
      LoudIs(ms, x + 1, hi);
    }
  }

  lemma {:induction false} OneFound(ms: seq<RequestMessage>, lo: nat, hi: nat, expected: RequestMessage)
    requires lo <= |ms| && !Silent(expected)
    ensures CheckSetup(ms, lo, expected) == Slice(hi) <==> IsFor(ms, lo, hi, CheckOne(expected))
  {
    var a := FirstLoud(ms, lo);
    if CheckSetup(ms, lo, expected) == Slice(hi) {
      assert OneShape(ms, lo, hi, a, expected);
    }
    if IsFor(ms, lo, hi, CheckOne(expected)) {
      var b: nat :| OneShape(ms, lo, hi, b, expected);
      LoudIs(ms, lo, b);
      LoudIs(ms, b + 1, hi);
    }
  }

  /** The setup of a handler accepts exactly the parts that are for it, and nothing else is an end of
      a part: in both directions. */
  lemma {:induction false} HandlerExactly(ms: seq<RequestMessage>, lo: nat, hi: nat, h: Handler)
    requires lo <= |ms| && (h.CheckOne? ==> !Silent(h.expected))
    ensures HandlerSetup(ms, lo, h) == Slice(hi) <==> IsFor(ms, lo, hi, h)
  {
    hide IsFor, ResultsetSetup, CheckSetup;
    match h {
      case Resultset =>
        if ResultsetSetup(ms, lo) == Slice(hi) {
          ResultsetSlice(ms, lo);
          ShapeIs(ms, lo, hi);
        }
        if IsFor(ms, lo, hi, Resultset) {
          ResultsetFound(ms, lo, hi);
        }
      case CheckOne(expected) => OneFound(ms, lo, hi, expected);
    }
  }

  lemma {:induction false} ShapeIs(ms: seq<RequestMessage>, lo: nat, hi: nat)
    requires lo < hi <= |ms|
    requires (ms[hi - 1] == Query && forall k | lo <= k < hi - 1 :: Silent(ms[k])) ||
      ((hi == |ms| || !Silent(ms[hi])) && exists d: nat, x: nat :: ExtendedSlice(ms, lo, hi, d, x))
    ensures IsFor(ms, lo, hi, Resultset)
  {
  }

  /** The refusals: a part is of the wrong type, or it is read past the end of the request, exactly if
      a resultset is asked for where no message gets callbacks. */
  lemma {:induction false} RefusalsExactly(ms: seq<RequestMessage>, lo: nat, h: Handler)
    requires lo <= |ms|
    ensures HandlerSetup(ms, lo, h).Refused? ==> HandlerSetup(ms, lo, h).error == IncompatibleResponseType
    ensures HandlerSetup(ms, lo, h).ReadPastTheEnd? <==> h.Resultset? && forall k | lo <= k < |ms| :: Silent(ms[k])
  {
    var a := FirstLoud(ms, lo);
    ScanRefuses(ms, a, false);
    if (forall k | lo <= k < |ms| :: Silent(ms[k])) {
      LoudIs(ms, lo, |ms|);
    }
    hide ScanExtended;
  }

  lemma {:induction false} ScanRefuses(ms: seq<RequestMessage>, i: nat, described: bool)
    requires i <= |ms|
    ensures var r := ScanExtended(ms, i, described); (r.Refused? ==> r.error == IncompatibleResponseType) && !r.ReadPastTheEnd?
    decreases |ms| - i
  {
    if i < |ms| {
      ScanRefuses(ms, i + 1, described);
      ScanRefuses(ms, i + 1, true);
    }
  }

  /** The parts that the handlers get, one after the other. */
  ghost predicate Shares(ms: seq<RequestMessage>, offset: nat, ends: seq<nat>, hs: seq<Handler>) {
    |ends| == |hs| && forall k | 0 <= k < |hs| :: IsFor(ms, StartOf(offset, ends, k), ends[k], hs[k])
  }

  lemma {:induction false} SharesHead(ms: seq<RequestMessage>, offset: nat, ends: seq<nat>, hs: seq<Handler>)
    requires hs != [] && |ends| == |hs|
    ensures Shares(ms, offset, ends, hs) <==> IsFor(ms, offset, ends[0], hs[0]) && Shares(ms, ends[0], ends[1..], hs[1..])
  {
    hide IsFor;
    var es, gs := ends[1..], hs[1..];
    assert forall k | 0 <= k < |gs| :: gs[k] == hs[k + 1] && es[k] == ends[k + 1] && StartOf(ends[0], es, k) == StartOf(offset, ends, k + 1);
    if Shares(ms, offset, ends, hs) {
      assert IsFor(ms, StartOf(offset, ends, 0), ends[0], hs[0]);
      forall k | 0 <= k < |gs| ensures IsFor(ms, StartOf(ends[0], es, k), es[k], gs[k]) {
        assert IsFor(ms, StartOf(offset, ends, k + 1), ends[k + 1], hs[k + 1]);
      }
    }
    if IsFor(ms, offset, ends[0], hs[0]) && Shares(ms, ends[0], es, gs) {
      forall k | 0 <= k < |hs| ensures IsFor(ms, StartOf(offset, ends, k), ends[k], hs[k]) {
        if k > 0 {
          assert IsFor(ms, StartOf(ends[0], es, k - 1), es[k - 1], gs[k - 1]);
        }
      }
    }
  }

  lemma {:induction false} ForIsInside(ms: seq<RequestMessage>, lo: nat, hi: nat, h: Handler)
    requires IsFor(ms, lo, hi, h)
    ensures hi <= |ms|
  {
  }

  lemma {:induction false} ResponseExactly(ms: seq<RequestMessage>, offset: nat, hs: seq<Handler>, ends: seq<nat>)
    requires offset <= |ms| && Sensible(hs)
    ensures ResponseSetup(ms, offset, hs) == Slices(ends) <==> Shares(ms, offset, ends, hs)
    decreases |hs|
  {
    hide HandlerSetup, IsFor;
    if hs != [] {
      var first := HandlerSetup(ms, offset, hs[0]);
      assert Sensible(hs[1..]);
      if first.Slice? {
        HandlerExactly(ms, offset, first.end, hs[0]);
        ForIsInside(ms, offset, first.end, hs[0]);
      }
      if |ends| == |hs| {
        SharesHead(ms, offset, ends, hs);
        HandlerExactly(ms, offset, ends[0], hs[0]);
        assert [ends[0]] + ends[1..] == ends;
        if first.Slice? {
          ResponseExactly(ms, first.end, hs[1..], ends[1..]);
        }
      }
      SetupLength(ms, offset, hs);
      if first.Slice? && ResponseSetup(ms, first.end, hs[1..]).Slices? {
        var rest := ResponseSetup(ms, first.end, hs[1..]).ends;
        assert ([first.end] + rest)[1..] == rest;
      }
    }
  }

  lemma {:induction false} SetupLength(ms: seq<RequestMessage>, offset: nat, hs: seq<Handler>)
    ensures ResponseSetup(ms, offset, hs).Slices? ==> |ResponseSetup(ms, offset, hs).ends| == |hs|
    decreases |hs|
  {
    hide HandlerSetup;
    if hs != [] && offset <= |ms| && HandlerSetup(ms, offset, hs[0]).Slice? {
      SetupLength(ms, HandlerSetup(ms, offset, hs[0]).end, hs[1..]);
    }
  }

  /** For every request and all handlers: the setup passes if and only if the static check accepts the
      request and it is cut, without a rest, into one part for each handler. */
  lemma {:induction false} PassedExactly(ms: seq<RequestMessage>, hs: seq<Handler>)
    requires Sensible(hs) && hs != []
    ensures SetupRequest(ms, hs) == Passed <==>
      Accepted(ms) && exists ends: seq<nat> :: SharesAll(ms, ends, hs)
  {
    hide ResponseSetup, Shares, Scan;
    SetupLength(ms, 0, hs);
    if SetupRequest(ms, hs) == Passed {
      ResponseExactly(ms, 0, hs, ResponseSetup(ms, 0, hs).ends);
      assert SharesAll(ms, ResponseSetup(ms, 0, hs).ends, hs);
    }
    if ends: seq<nat> :| SharesAll(ms, ends, hs) {
      ResponseExactly(ms, 0, hs, ends);
    }
  }

  ghost predicate SharesAll(ms: seq<RequestMessage>, ends: seq<nat>, hs: seq<Handler>)
    requires hs != []
  {
    Shares(ms, 0, ends, hs) && |ends| == |hs| && ends[|hs| - 1] == |ms|
  }

  /** A request that the static check refuses is refused for the reason of the check, whatever the
      handlers are. */
  lemma {:induction false} CheckComesFirst(ms: seq<RequestMessage>, hs: seq<Handler>)
    requires !Accepted(ms)
    ensures SetupRequest(ms, hs) == Rejected(
      if ms == [] then EmptyRequest
      else if QueryInside(ms) then RequestMixesSimpleAdvancedProtocols
      else RequestEndsWithoutSync)
  {
    hide Scan, QueryInside, EndsOpen, ResponseSetup;
    if ms != [] {
      ErrorsExactly(ms);
    }
  }

  /** The errors, for a request that the static check accepts: its length does not match exactly if it
      is cut into parts for the handlers and a rest; otherwise a part is of the wrong type. */
  lemma {:induction false} RejectedExactly(ms: seq<RequestMessage>, hs: seq<Handler>)
    requires Sensible(hs) && hs != [] && Accepted(ms)
    ensures SetupRequest(ms, hs) == Rejected(IncompatibleResponseLength) <==>
      exists ends: seq<nat> :: SharesSome(ms, ends, hs)
    ensures SetupRequest(ms, hs).Rejected? ==>
      SetupRequest(ms, hs).why == IncompatibleResponseLength || SetupRequest(ms, hs).why == IncompatibleResponseType
  {
    hide ResponseSetup, Shares, Scan;
    SetupLength(ms, 0, hs);
    FailureIs(ms, 0, hs);
    var r := ResponseSetup(ms, 0, hs);
    if r.Slices? {
      ResponseExactly(ms, 0, hs, r.ends);
      if r.ends[|hs| - 1] != |ms| {
        assert SharesSome(ms, r.ends, hs);
      }
    }
    if ends: seq<nat> :| SharesSome(ms, ends, hs) {
      ResponseExactly(ms, 0, hs, ends);
    }
  }

  ghost predicate SharesSome(ms: seq<RequestMessage>, ends: seq<nat>, hs: seq<Handler>)
    requires hs != []
  {
    Shares(ms, 0, ends, hs) && |ends| == |hs| && ends[|hs| - 1] != |ms|
  }

  lemma {:induction false} FailureIs(ms: seq<RequestMessage>, offset: nat, hs: seq<Handler>)
    ensures ResponseSetup(ms, offset, hs).Failure? ==> ResponseSetup(ms, offset, hs).error == IncompatibleResponseType
    decreases |hs|
  {
    hide HandlerSetup;
    if hs != [] && offset <= |ms| {
      RefusalsExactly(ms, offset, hs[0]);
      if HandlerSetup(ms, offset, hs[0]).Slice? {
        FailureIs(ms, HandlerSetup(ms, offset, hs[0]).end, hs[1..]);
      }
    }
  }
}
