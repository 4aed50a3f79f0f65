/** The static well-formedness check run before a request is sent
    (src/nativepg_internal/check_request.hpp). */
module CheckRequest {
  import opened Messages

  /** What the check computes on the messages still to scan, given whether an extended
      batch is open. */
  function Scan(ms: seq<RequestMessage>, open: bool): Option<ClientError> {
    if ms == [] then
      if open then Some(RequestEndsWithoutSync) else None
    else if ms[0] == Query then
      if open then Some(RequestMixesSimpleAdvancedProtocols) else Scan(ms[1..], false)
    else
      Scan(ms[1..], ms[0] != Sync)
  }

  predicate Closed(ms: seq<RequestMessage>, open: bool) {
    Scan(ms, open).None?
  }

  predicate Accepted(ms: seq<RequestMessage>) {
    ms != [] && Closed(ms, false)
  }

  /** A unit of a request: one simple query, or extended messages ended by a sync. */
  predicate IsUnit(u: seq<RequestMessage>) {
    || u == [Query]
    || (u != [] && u[|u| - 1] == Sync && forall i | 0 <= i < |u| - 1 :: u[i] != Sync && u[i] != Query)
  }

  /** check_request: the loop over the messages of the request. */
  method Check(ms: seq<RequestMessage>) returns (r: Option<ClientError>)
    ensures r.None? <==> Accepted(ms)
    ensures r == Some(EmptyRequest) <==> ms == []
    ensures r ==
      if ms == [] then Some(EmptyRequest)
      else if QueryInside(ms) then Some(RequestMixesSimpleAdvancedProtocols)
      else if EndsOpen(ms) then Some(RequestEndsWithoutSync)
      else None
  {
    if ms == [] {
      return Some(EmptyRequest);
    }
    ErrorsExactly(ms);
    var isExtendedBatch := false;
    for i := 0 to |ms|
      invariant Scan(ms[i..], isExtendedBatch) == Scan(ms, false)
    {
      assert ms[i..][1..] == ms[i + 1..];
      match ms[i] {
        case Query =>
          if isExtendedBatch {
            return Some(RequestMixesSimpleAdvancedProtocols);
          }
        case Sync =>
          isExtendedBatch := false;
        case _ =>
          isExtendedBatch := true;
      }
    }
    if isExtendedBatch {
      return Some(RequestEndsWithoutSync);
    }
    return None;
  }

  /** The message leaves a batch open. */
  predicate Opens(m: RequestMessage) {
    m != Query && m != Sync
  }

  /** A query stands inside a batch. */
  predicate QueryInside(ms: seq<RequestMessage>) {
    exists i :: 0 < i < |ms| && ms[i] == Query && Opens(ms[i - 1])
  }

  /** The last batch is open. */
  predicate EndsOpen(ms: seq<RequestMessage>) {
    ms != [] && Opens(ms[|ms| - 1])
  }

  lemma {:induction false} QueryInsideHead(ms: seq<RequestMessage>)
    requires |ms| > 1
    ensures QueryInside(ms) <==> (Opens(ms[0]) && ms[1] == Query) || QueryInside(ms[1..])
  {
    var t := ms[1..];
    assert forall i | 0 <= i < |t| :: t[i] == ms[i + 1];
    if i :| 0 < i < |ms| && ms[i] == Query && Opens(ms[i - 1]) {
      if i > 1 {
        assert t[i - 1] == Query && Opens(t[i - 1 - 1]);
      }
    }
    if i :| 0 < i < |t| && t[i] == Query && Opens(t[i - 1]) {
      assert ms[i + 1] == Query && Opens(ms[i + 1 - 1]);
    }
  }

  /** What the loop reports, from any point on: mixing if a query stands inside a batch, otherwise
      the missing sync if the last batch is open. */
  lemma {:induction false} ScanIs(ms: seq<RequestMessage>, open: bool)
    ensures Scan(ms, open) ==
      if (open && ms != [] && ms[0] == Query) || QueryInside(ms) then Some(RequestMixesSimpleAdvancedProtocols)
      else if (if ms == [] then open else EndsOpen(ms)) then Some(RequestEndsWithoutSync)
      else None
    decreases |ms|
  {
    if |ms| == 1 {
      assert ms[1..] == [];
    } else if |ms| > 1 {
      QueryInsideHead(ms);
      hide QueryInside;
      ScanIs(ms[1..], Opens(ms[0]));
    }
  }

  lemma {:induction false} ErrorsExactly(ms: seq<RequestMessage>)
    requires ms != []
    ensures Scan(ms, false) ==
      if QueryInside(ms) then Some(RequestMixesSimpleAdvancedProtocols)
      else if EndsOpen(ms) then Some(RequestEndsWithoutSync)
      else None
  {
    ScanIs(ms, false);
  }

  /** Dropping messages from the front never breaks the check. */
  lemma {:induction false} ClosedWeaken(ms: seq<RequestMessage>)
    requires Closed(ms, true)
    ensures Closed(ms, false)
  {
  }

  /** The closed part of a batch: everything up to its sync, which must exist. */
  function BatchEnd(ms: seq<RequestMessage>): (n: nat)
    requires Closed(ms, true)
    ensures n < |ms| && ms[n] == Sync
    ensures forall i | 0 <= i < n :: ms[i] != Sync && ms[i] != Query
    ensures Closed(ms[n + 1..], false)
  {
    if ms[0] == Sync then 0
    else
      var n := BatchEnd(ms[1..]);
      assert ms[1..][n + 1..] == ms[n + 2..];
      n + 1
  }

  lemma {:induction false} UnitThenClosed(u: seq<RequestMessage>, rest: seq<RequestMessage>, open: bool)
    requires u != [] && u[|u| - 1] == Sync
    requires forall i | 0 <= i < |u| - 1 :: u[i] != Sync && u[i] != Query
    requires Closed(rest, false)
    ensures Closed(u + rest, open)
  {
    assert (u + rest)[1..] == u[1..] + rest;
    if |u| == 1 {
      assert u[1..] + rest == rest;
    } else {
      UnitThenClosed(u[1..], rest, true);
    }
  }

  lemma {:induction false} UnitsAreClosed(us: seq<seq<RequestMessage>>)
    requires forall u | u in us :: IsUnit(u)
    ensures Closed(Flat(us), false)
  {
    if us != [] {
      assert IsUnit(us[0]) by { assert us[0] in us; }
      UnitsAreClosed(us[1..]);
      FlatHead(us);
      if us[0] == [Query] {
        assert Flat(us)[1..] == Flat(us[1..]);
      } else {
        UnitThenClosed(us[0], Flat(us[1..]), false);
      }
    }
  }

  lemma {:induction false} ClosedIsUnits(ms: seq<RequestMessage>) returns (us: seq<seq<RequestMessage>>)
    requires Closed(ms, false)
    ensures forall u | u in us :: IsUnit(u)
    ensures Flat(us) == ms
    decreases |ms|
  {
    hide Flat;
    if ms == [] {
      us := [];
      NothingIsFlat();
    } else if ms[0] == Query {
      var rest := ClosedIsUnits(ms[1..]);
      us := [[Query]] + rest;
      assert us[1..] == rest;
      FlatHead(us);
    } else {
      var n := if ms[0] == Sync then 0 else BatchEnd(ms[1..]) + 1;
      if ms[0] != Sync {
        assert ms[1..][n..] == ms[n + 1..];
      }
      assert forall i | 0 < i < n :: ms[i] == ms[1..][i - 1];
      var rest := ClosedIsUnits(ms[n + 1..]);
      us := [ms[..n + 1]] + rest;
      assert us[1..] == rest;
      FlatHead(us);
    }
  }

  lemma {:induction false} NothingIsFlat()
    ensures Flat<RequestMessage>([]) == []
  {
  }

  ghost predicate IsUnits(ms: seq<RequestMessage>) {
    exists us: seq<seq<RequestMessage>> :: (forall u | u in us :: IsUnit(u)) && Flat(us) == ms
  }

  /** The check accepts exactly the non-empty sequences of whole units. */
  lemma {:induction false} AcceptedIffUnits(ms: seq<RequestMessage>)
    ensures Accepted(ms) <==> ms != [] && IsUnits(ms)
  {
    if Closed(ms, false) {
      var us := ClosedIsUnits(ms);
    }
    if IsUnits(ms) {
      var us :| (forall u | u in us :: IsUnit(u)) && Flat(us) == ms;
      UnitsAreClosed(us);
    }
  }

  /** A flush opens a batch, so a query may not follow it, although a flush expects no answer. */
  lemma {:induction false} FlushThenQueryIsRefused(rest: seq<RequestMessage>)
    ensures Scan([Flush, Query] + rest, false) == Some(RequestMixesSimpleAdvancedProtocols)
  {
    var ms := [Flush, Query] + rest;
    assert ms[1..] == [Query] + rest;
  }
}
