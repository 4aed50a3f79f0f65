/** The result of the handler of one resultset (include/nativepg/responses/resultset_callback.hpp):
    what its state and its error say about what it was given. */
module HandlerResults {
  import opened Messages
  import opened CheckRequest
  import opened ResponseFsm
  import opened Callbacks
  import opened Routing
  import opened ResultsetHandler
  import E = ErrorFields

  /** The error after the callbacks of the slice. */
  function NotedAll(cs: seq<Call>, lo: nat, hi: nat): Option<Trouble> {
    if cs == [] then None
    else
      var last, was := cs[|cs| - 1], NotedAll(cs[..|cs| - 1], lo, hi);
      if InSlice(last, lo, hi) then Noted(was, last.event) else was
  }

  /** The callback at i is the end of a resultset of the slice. */
  predicate EndAt(cs: seq<Call>, lo: nat, hi: nat, i: nat) {
    i < |cs| && InSlice(cs[i], lo, hi) && cs[i].event.Deliver? &&
    (cs[i].event.msg.kind == CommandComplete || cs[i].event.msg.kind == PortalSuspended)
  }

  /** The handler that failed no assertion is complete exactly if it was given an end. */
  lemma {:induction false} CompleteExactly(cs: seq<Call>, lo: nat, hi: nat)
    requires FeedAll(cs, lo, hi) != Asserted
    ensures FeedAll(cs, lo, hi) == Complete <==> exists i: nat :: EndAt(cs, lo, hi, i)
    decreases |cs|
  {
    if cs != [] {
      var init, last := cs[..|cs| - 1], cs[|cs| - 1];
      CompleteExactly(init, lo, hi);
      assert forall i: nat :: i < |init| ==> cs[i] == init[i];
      if i: nat :| EndAt(init, lo, hi, i) {
        assert EndAt(cs, lo, hi, i);
      }
      if i: nat :| EndAt(cs, lo, hi, i) {
        if i < |init| {
          assert EndAt(init, lo, hi, i);
        }
      }
      if FeedAll(cs, lo, hi) == Complete && FeedAll(init, lo, hi) != Complete {
        assert EndAt(cs, lo, hi, |init|);
      }
    }
  }

  /** The callback at i is a trouble of the slice. */
  predicate TroubleAt(cs: seq<Call>, lo: nat, hi: nat, i: nat) {
    i < |cs| && InSlice(cs[i], lo, hi) &&
    (cs[i].event.MessageSkipped? || (cs[i].event.Deliver? && cs[i].event.msg.kind == ErrorResponse && !E.ZeroState(cs[i].event.msg)))
  }

  /** The error is that of the first trouble of the slice, and there is none exactly without one. */
  lemma {:induction false} FirstTroubleIsReported(cs: seq<Call>, lo: nat, hi: nat)
    ensures NotedAll(cs, lo, hi) == None <==> forall i: nat :: !TroubleAt(cs, lo, hi, i)
    ensures NotedAll(cs, lo, hi).Some? ==>
      exists i: nat :: TroubleAt(cs, lo, hi, i) && (forall k: nat | k < i :: !TroubleAt(cs, lo, hi, k)) &&
        NotedAll(cs, lo, hi) == Some(if cs[i].event.MessageSkipped? then StepSkipped else FromServer(cs[i].event.msg))
    decreases |cs|
  {
    hide E.ZeroState;
    if cs != [] {
      var init, n := cs[..|cs| - 1], |cs| - 1;
      FirstTroubleIsReported(init, lo, hi);
      assert forall i: nat :: i < n ==> cs[i] == init[i];
      assert forall i: nat :: i < n ==> (TroubleAt(cs, lo, hi, i) <==> TroubleAt(init, lo, hi, i));
      if NotedAll(init, lo, hi).Some? {
        var i: nat :| TroubleAt(init, lo, hi, i) && (forall k: nat | k < i :: !TroubleAt(init, lo, hi, k)) &&
          NotedAll(init, lo, hi) == Some(if init[i].event.MessageSkipped? then StepSkipped else FromServer(init[i].event.msg));
        assert TroubleAt(cs, lo, hi, i);
      } else if NotedAll(cs, lo, hi).Some? {
        assert TroubleAt(cs, lo, hi, n);
      }
    }
  }

  /** A message that got its finishing callback got one. */
  lemma {:induction false} FinishingCallback(ms: seq<RequestMessage>, cs: seq<Call>, o: nat) returns (i: nat)
    requires o < |ms| && Finished(ms, cs, o) > 0
    ensures i < |cs| && cs[i].offset == o && Finishes(ms[o], cs[i].event)
    decreases |cs|
  {
    hide Finishes;
    var last := |cs| - 1;
    if cs[last].offset == o && Finishes(ms[o], cs[last].event) {
      i := last;
    } else {
      i := FinishingCallback(ms, cs[..last], o);
    }
  }

  /** No error that reached the slice hides behind the SQLSTATE 00000. */
  predicate Frank(cs: seq<Call>) {
    forall i | 0 <= i < |cs| && cs[i].event.Deliver? && cs[i].event.msg.kind == ErrorResponse :: !E.ZeroState(cs[i].event.msg)
  }

  /** For every reply to an extended slice, with COPY off and no sync between its describe and its
      execute: if no error is reported and the query was not empty, then the handler failed no
      assertion and was given the whole resultset. */
  lemma {:induction false} SuccessIsComplete(ms: seq<RequestMessage>, w: seq<BackendMessage>, lo: nat, hi: nat, d: nat, x: nat)
    requires Accepted(ms) && OneBatch(ms, lo, hi, d, x) && Run(Init(ms, false), w).verdict == Done(None)
    requires Frank(Run(Init(ms, false), w).calls)
    ensures var cs := Run(Init(ms, false), w).calls;
      NotedAll(cs, lo, hi) == None && !EmptyIn(cs, lo, hi) ==> FeedAll(cs, lo, hi) == Complete
  {
    hide Run, FeedAll, NotedAll, Accepted, Finished, E.ZeroState;
    var cs := Run(Init(ms, false), w).calls;
    DescribedBeforeRows(ms, w, lo, hi, d, x);
    if NotedAll(cs, lo, hi) == None && !EmptyIn(cs, lo, hi) {
      CallbackDiscipline(ms, false, w);
      assert Extended(ms[x]);
      var i := FinishingCallback(ms, cs, x);
      FirstTroubleIsReported(cs, lo, hi);
      assert !TroubleAt(cs, lo, hi, i);
      assert InSlice(cs[i], lo, hi) && !IsEmptyQuery(cs[i].event);
      assert EndAt(cs, lo, hi, i);
      CompleteExactly(cs, lo, hi);
    }
  }
}
