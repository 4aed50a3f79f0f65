/** What the connections of a pool went through in a run, read off its events, and what their states
    say about it (src/nativepg_internal/connection_pool/). */
module PoolHistory {
  import opened Messages
  import opened ConnectionPool

  // ----- runs, event by event

  lemma {:induction false} RunInit(p: Pool, es: seq<Event>)
    requires es != [] && ValidRun(p, es)
    ensures var init, e := es[..|es| - 1], es[|es| - 1];
      ValidRun(p, init) && Enabled(After(p, init), e) && After(p, es) == Next(After(p, init), e)
    decreases |es|
  {
    hide Next, Enabled;
    var init := es[..|es| - 1];
    if |es| > 1 {
      RunInit(Next(p, es[0]), es[1..]);
      assert es[1..][..|es| - 2] == init[1..];
    } else {
      assert es[1..] == [];
    }
  }

  // ----- the history of one connection

  /** Its coroutine began; an action of it finished, well or not; a call took it; it was given
      back. */
  datatype Item = Began | Did(action: Action, ok: bool) | TakenBy(call: nat) | GaveBack(reset: bool)

  /** What an event adds to the history of connection i. A reset that is due is done at once. */
  function Items(p: Pool, e: Event, i: nat): seq<Item>
    requires Enabled(p, e)
  {
    if i >= |p.nodes| then []
    else match e
      case NodeStep(j, ok, choice, exit) =>
        if j != i then []
        else
          var n := p.nodes[i];
          (match ActionOf(n.status)
           case None => if n.status == NotStarted then [Began] else []
           case Some(a) => [Did(a, ok)]) +
          if !exit && NextStatus(n.status, ok, n.collection) == ResetInProgress then [Did(Reset, true)] else []
      case Return(j, reset) => if j == i then [GaveBack(reset)] else []
      case _ =>
        var q := Next(p, e);
        if i < |q.nodes| && q.nodes[i].holder.Some? && p.nodes[i].holder != q.nodes[i].holder then [TakenBy(q.nodes[i].holder.value)] else []
  }

  function History(p: Pool, es: seq<Event>, i: nat): seq<Item>
    requires ValidRun(p, es)
  {
    if es == [] then []
    else
      RunInit(p, es);
      var init, e := es[..|es| - 1], es[|es| - 1];
      History(p, init, i) + Items(After(p, init), e, i)
  }

  // ----- what a history says

  /** Who has the connection: the pool, a call, or the pool again as soon as it notices. */
  datatype Custody = Pooled | Held(call: nat) | Back(reset: bool)

  function CustodyOf(h: seq<Item>): Custody {
    if h == [] then Pooled
    else
      var was := CustodyOf(h[..|h| - 1]);
      match h[|h| - 1]
      case TakenBy(c) => Held(c)
      case GaveBack(reset) => Back(reset)
      case Did(IdleWait, _) => if was.Back? then Pooled else was
      case _ => was
  }

  /** What the connection has to do after a history: connect first; after a failed connect, wait and
      connect again; after a failed ping or reset, connect; otherwise wait until something happens:
      if it is given back with a reset, reset; if nobody has it when the wait is over, ping. */
  function Due(h: seq<Item>): Option<Action> {
    if h == [] then None
    else
      var init := h[..|h| - 1];
      match h[|h| - 1]
      case Began => Some(Connect)
      case Did(Connect, ok) => Some(if ok then IdleWait else RetryWait)
      case Did(RetryWait, _) => Some(Connect)
      case Did(Ping, ok) => Some(if ok then IdleWait else Connect)
      case Did(Reset, ok) => Some(if ok then IdleWait else Connect)
      case Did(IdleWait, _) =>
        (match CustodyOf(init)
         case Pooled => Some(Ping)
         case Held(_) => Some(IdleWait)
         case Back(reset) => Some(if reset then Reset else IdleWait))
      case _ => Due(init)
  }

  /** The last connect went well, and no ping or reset failed since. */
  ghost predicate Healthy(h: seq<Item>) {
    exists k: nat :: ConnectedAt(h, k)
  }

  /** After the item it is open whether the connection is there. */
  predicate Breaks(x: Item) {
    match x
    case Began => true
    case Did(Connect, _) => true
    case Did(Ping, ok) => !ok
    case Did(Reset, ok) => !ok
    case _ => false
  }

  ghost predicate ConnectedAt(h: seq<Item>, k: nat) {
    k < |h| && h[k] == Did(Connect, true) && forall j | k < j < |h| :: !Breaks(h[j])
  }

  lemma {:induction false} OneMore(h: seq<Item>, x: Item)
    ensures (h + [x])[..|h|] == h && (h + [x])[|h|] == x
  {
  }

  /** Every item of the history was due. */
  ghost predicate Lawful(h: seq<Item>) {
    forall k | 0 <= k < |h| :: (h[k].Did? ==> Due(h[..k]) == Some(h[k].action)) && (h[k].Began? ==> Due(h[..k]) == None)
  }

  lemma {:induction false} LawfulOne(h: seq<Item>, x: Item)
    ensures Lawful(h + [x]) <==>
      Lawful(h) && (x.Did? ==> Due(h) == Some(x.action)) && (x.Began? ==> Due(h) == None)
  {
    hide Due;
    var t := h + [x];
    OneMore(h, x);
    assert forall k | 0 <= k < |h| :: t[k] == h[k] && t[..k] == h[..k];
    if Lawful(t) {
      assert t[|h|] == x;
    }
  }

  lemma {:induction false} StillConnected(h: seq<Item>, x: Item)
    requires Healthy(h) && !Breaks(x)
    ensures Healthy(h + [x])
  {
    var k: nat :| ConnectedAt(h, k);
    OneMore(h, x);
    assert ConnectedAt(h + [x], k);
  }

  lemma {:induction false} NowConnected(h: seq<Item>)
    ensures Healthy(h + [Did(Connect, true)])
  {
    OneMore(h, Did(Connect, true));
    assert ConnectedAt(h + [Did(Connect, true)], |h|);
  }

  /** A connection that has anything to do but connecting is connected. */
  lemma {:induction false} DueIsHealthy(h: seq<Item>)
    requires Lawful(h)
    ensures Due(h).Some? && Due(h) != Some(Connect) && Due(h) != Some(RetryWait) ==> Healthy(h)
    decreases |h|
  {
    hide Healthy, CustodyOf;
    if h != [] {
      var init, x := h[..|h| - 1], h[|h| - 1];
      assert init + [x] == h;
      LawfulOne(init, x);
      DueIsHealthy(init);
      hide Lawful;
      if x == Did(Connect, true) {
        NowConnected(init);
      } else if Due(h).Some? && Due(h) != Some(Connect) && Due(h) != Some(RetryWait) {
        StillConnected(init, x);
      }
    }
  }

  // ----- the states follow the history

  /** The state of a connection is what its history says. */
  predicate Agrees(n: Node, h: seq<Item>) {
    && ActionOf(n.status) == Due(h)
    && n.status != Terminated
    && (n.status == InUse <==> CustodyOf(h) != Pooled)
    && (n.holder.Some? <==> CustodyOf(h).Held?) && (n.holder.Some? ==> CustodyOf(h) == Held(n.holder.value))
    && (n.collection == NotReturned <==> !CustodyOf(h).Back?)
    && (CustodyOf(h).Back? ==> n.collection == if CustodyOf(h).reset then NeedsCollectWithReset else NeedsCollect)
  }

  /** One item more. */
  lemma {:induction false} HistoryOne(h: seq<Item>, x: Item)
    ensures CustodyOf(h + [x]) ==
      (match x
       case TakenBy(c) => Held(c)
       case GaveBack(reset) => Back(reset)
       case Did(IdleWait, _) => if CustodyOf(h).Back? then Pooled else CustodyOf(h)
       case _ => CustodyOf(h))
    ensures Due(h + [x]) ==
      (match x
       case Began => Some(Connect)
       case Did(Connect, ok) => Some(if ok then IdleWait else RetryWait)
       case Did(RetryWait, _) => Some(Connect)
       case Did(Ping, ok) => Some(if ok then IdleWait else Connect)
       case Did(Reset, ok) => Some(if ok then IdleWait else Connect)
       case Did(IdleWait, _) =>
         (match CustodyOf(h) case Pooled => Some(Ping) case Held(_) => Some(IdleWait) case Back(reset) => Some(if reset then Reset else IdleWait))
       case _ => Due(h))
  {
    OneMore(h, x);
  }

  /** The coroutine of the connection goes on. */
  lemma {:induction false} StepAgrees(p: Pool, i: nat, ok: bool, choice: nat, exit: bool, h: seq<Item>)
    requires Inv(p) && Enabled(p, NodeStep(i, ok, choice, exit)) && Agrees(p.nodes[i], h) && Lawful(h)
    ensures var q := Next(p, NodeStep(i, ok, choice, exit)); var h' := h + Items(p, NodeStep(i, ok, choice, exit), i);
      i < |q.nodes| && Agrees(q.nodes[i], h') && Lawful(h')
  {
    hide Inv, SetStatus, Lawful, CustodyOf, Due;
    var n := p.nodes[i];
    var s := NextStatus(n.status, ok, n.collection);
    StepNodeIs(p, i, ok, choice, exit);
    var x := if n.status == NotStarted then Began else Did(if ActionOf(n.status).Some? then ActionOf(n.status).value else Connect, ok);
    HistoryOne(h, x);
    LawfulOne(h, x);
    assert h + ([x] + []) == h + [x] && [x] + [] == [x];
    if s == ResetInProgress && !exit {
      HistoryOne(h + [x], Did(Reset, true));
      LawfulOne(h + [x], Did(Reset, true));
      assert h + ([x] + [Did(Reset, true)]) == h + [x] + [Did(Reset, true)];
    }
  }

  /** What a step of its coroutine does to a connection. */
  lemma {:induction false} StepNodeIs(p: Pool, i: nat, ok: bool, choice: nat, exit: bool)
    requires i < |p.nodes|
    ensures var q := StepNode(p, i, ok, choice, exit); var n := p.nodes[i]; var s := NextStatus(n.status, ok, n.collection);
      && |q.nodes| == |p.nodes| && (forall j | 0 <= j < |p.nodes| && j != i :: q.nodes[j] == p.nodes[j])
      && q.nodes[i] == Taken(n).(status := if s == ResetInProgress && !exit then Idle else s, finished := exit || n.finished)
  {
    hide SetStatus, NextStatus;
    var p1, s := p.(nodes := p.nodes[i := Taken(p.nodes[i])]), NextStatus(p.nodes[i].status, ok, p.nodes[i].collection);
    SetStatusNodes(p1, i, s, choice);
    SetStatusNodes(SetStatus(p1, i, s, choice), i, Idle, choice);
  }

  /** A call goes on: it takes the first idle connection, or none. */
  lemma {:induction false} ProceedNodes(p: Pool, c: nat, stop: bool)
    requires IdleExactly(p)
    ensures var q := Proceed(p, c, stop);
      && |q.nodes| == |p.nodes|
      && if p.phase != Stopped && p.idle != [] then
           && p.idle[0] < |p.nodes| && p.nodes[p.idle[0]].status == Idle && q.answers == p.answers[c := Got(p.idle[0])]
           && q.nodes == p.nodes[p.idle[0] := p.nodes[p.idle[0]].(status := InUse, holder := Some(c))]
         else q.nodes == p.nodes && (q.answers == p.answers || (q.answers == p.answers[c := Failed] && (p.phase == Stopped || stop)))
  {
    hide SetStatus;
    if p.idle != [] {
      assert p.idle[0] in p.idle;
      SetStatusNodes(p, p.idle[0], InUse, 0);
    }
  }

  lemma {:induction false} CallAgrees(p: Pool, q: Pool, c: nat, i: nat, h: seq<Item>)
    requires i < |p.nodes| == |q.nodes| && Agrees(p.nodes[i], h) && Lawful(h) && Owned(p.nodes[i])
    requires q.nodes[i] == p.nodes[i] || (p.nodes[i].status == Idle && q.nodes[i] == p.nodes[i].(status := InUse, holder := Some(c)))
    ensures var h' := if q.nodes[i].holder.Some? && p.nodes[i].holder != q.nodes[i].holder then h + [TakenBy(q.nodes[i].holder.value)] else h;
      Agrees(q.nodes[i], h') && Lawful(h')
  {
    hide Lawful, CustodyOf, Due;
    HistoryOne(h, TakenBy(c));
    LawfulOne(h, TakenBy(c));
  }

  lemma {:induction false} NextAgrees(p: Pool, e: Event, i: nat, h: seq<Item>)
    requires Inv(p) && Enabled(p, e) && (if i < |p.nodes| then Agrees(p.nodes[i], h) && Lawful(h) else h == [])
    ensures var q := Next(p, e); var h' := h + Items(p, e, i);
      |p.nodes| <= |q.nodes| && if i < |q.nodes| then Agrees(q.nodes[i], h') && Lawful(h') else h' == []
  {
    hide Agrees, Lawful, SetStatus, Coming, NextStatus, Inv, Proceed, Remove, StepNode;
    assert h + [] == h;
    FreshAgrees();
    match e {
      case NodeStep(j, ok, choice, exit) =>
        StepNodeIs(p, j, ok, choice, exit);
        if j == i {
          StepAgrees(p, i, ok, choice, exit, h);
        }
      case Return(j, reset) =>
        if j == i {
          ReturnAgrees(p, i, reset, h);
        }
      case Get => CallNext(p, e, i, h);
      case CallResume(_) => CallNext(p, e, i, h);
      case _ =>
    }
  }

  lemma {:induction false} CallNext(p: Pool, e: Event, i: nat, h: seq<Item>)
    requires Inv(p) && Enabled(p, e) && (e.Get? || e.CallResume?)
    requires if i < |p.nodes| then Agrees(p.nodes[i], h) && Lawful(h) else h == []
    ensures var q := Next(p, e); var h' := h + Items(p, e, i);
      |p.nodes| <= |q.nodes| && if i < |q.nodes| then Agrees(q.nodes[i], h') && Lawful(h') else h' == []
  {
    hide Agrees, Lawful, Proceed, Items, Awake, Served, Counters, Calls, Ownership;
    if e.Get? {
      ProceedNodes(p.(calls := p.calls + 1), p.calls, false);
      CallStep(p, Next(p, e), e, p.calls, i, h);
    } else {
      var k := e.index;
      ProceedNodes(Leave(p, k), p.woken[k], p.woken[k] in p.stopRequested);
      CallStep(p, Next(p, e), e, p.woken[k], i, h);
    }
  }

  lemma {:induction false} CallStep(p: Pool, q: Pool, e: Event, c: nat, i: nat, h: seq<Item>)
    requires Inv(p) && Enabled(p, e) && (e.Get? || e.CallResume?) && q == Next(p, e)
    requires (if i < |p.nodes| then Agrees(p.nodes[i], h) && Lawful(h) else h == [])
    requires |q.nodes| == |p.nodes|
    requires forall j | 0 <= j < |p.nodes| :: q.nodes[j] == p.nodes[j] || (p.nodes[j].status == Idle && q.nodes[j] == p.nodes[j].(status := InUse, holder := Some(c)))
    ensures var h' := h + Items(p, e, i); if i < |q.nodes| then Agrees(q.nodes[i], h') && Lawful(h') else h' == []
  {
    hide Agrees, Lawful, Next, IdleExactly, Awake, Served, Counters, Calls;
    assert h + [] == h;
    if i < |p.nodes| {
      assert Owned(p.nodes[i]);
      CallAgrees(p, q, c, i, h);
    }
  }

  lemma {:induction false} FreshAgrees()
    ensures Agrees(Fresh, []) && Lawful([])
  {
  }

  lemma {:induction false} ReturnAgrees(p: Pool, i: nat, reset: bool, h: seq<Item>)
    requires i < |p.nodes| && p.nodes[i].holder.Some? && Agrees(p.nodes[i], h) && Lawful(h)
    ensures Agrees(GiveBack(p, i, reset).nodes[i], h + [GaveBack(reset)]) && Lawful(h + [GaveBack(reset)])
  {
    hide Lawful, CustodyOf, Due;
    HistoryOne(h, GaveBack(reset));
    LawfulOne(h, GaveBack(reset));
  }

  lemma {:induction false} RunAgrees(initialSize: nat, maxSize: nat, es: seq<Event>, i: nat)
    requires initialSize <= maxSize && ValidRun(Created(initialSize, maxSize), es)
    ensures var p := After(Created(initialSize, maxSize), es); var h := History(Created(initialSize, maxSize), es, i);
      if i < |p.nodes| then Agrees(p.nodes[i], h) && Lawful(h) else h == []
    decreases |es|
  {
    hide Agrees, Lawful, Inv, Next, Enabled, Items, ValidRun, After;
    var p0 := Created(initialSize, maxSize);
    if es == [] {
      NothingYet(p0);
    } else {
      RunInit(p0, es);
      var init, e := es[..|es| - 1], es[|es| - 1];
      RunAgrees(initialSize, maxSize, init, i);
      EveryRun(initialSize, maxSize, init);
      NextAgrees(After(p0, init), e, i, History(p0, init, i));
    }
  }

  lemma {:induction false} NothingYet(p: Pool)
    ensures ValidRun(p, []) && After(p, []) == p
  {
    hide Enabled;
  }

  /** In every run, for every connection: what it is doing is what its history makes due, and so was
      everything it ever did; who has it is what the history says; and if it is idle, in use, pinged
      or reset, then its last connect went well and no ping or reset failed since. */
  lemma {:induction false} StatesFollowTheHistory(initialSize: nat, maxSize: nat, es: seq<Event>, i: nat)
    requires initialSize <= maxSize && ValidRun(Created(initialSize, maxSize), es)
    requires i < |After(Created(initialSize, maxSize), es).nodes|
    ensures var n := After(Created(initialSize, maxSize), es).nodes[i]; var h := History(Created(initialSize, maxSize), es, i);
      && ActionOf(n.status) == Due(h) && Lawful(h)
      && (n.status == InUse <==> CustodyOf(h) != Pooled)
      && (n.holder == match CustodyOf(h) case Held(c) => Some(c) case _ => None)
      && (n.status == Idle || n.status == InUse || n.status == PingInProgress || n.status == ResetInProgress ==> Healthy(h))
  {
    hide ValidRun, After, History, Due, CustodyOf, Lawful, Healthy;
    RunAgrees(initialSize, maxSize, es, i);
    DueIsHealthy(History(Created(initialSize, maxSize), es, i));
  }

  // ----- the answers of the calls

  /** An event answers at most one call, and never changes an answer; a connection is handed out only
      while the pool is not stopped, and it is the first of the idle ones; a call fails only if
      the pool is stopped, or it was asked to stop and no connection is idle. */
  lemma {:induction false} AnswersAreRight(initialSize: nat, maxSize: nat, es: seq<Event>, e: Event, c: nat)
    requires initialSize <= maxSize && ValidRun(Created(initialSize, maxSize), es)
    requires var p := After(Created(initialSize, maxSize), es); Enabled(p, e) && c in Next(p, e).answers
    ensures var p := After(Created(initialSize, maxSize), es); var q := Next(p, e);
      if c in p.answers then q.answers[c] == p.answers[c]
      else match q.answers[c]
        case Got(i) => p.phase != Stopped && p.idle != [] && i == p.idle[0]
        case Failed => p.phase == Stopped || (c in p.stopRequested && p.idle == [])
  {
    hide ValidRun, After, SetStatus, NextStatus, Coming, Ownership, Awake, Served, Counters;
    EveryRun(initialSize, maxSize, es);
    var p := After(Created(initialSize, maxSize), es);
    match e {
      case NodeStep(i, ok, choice, exit) => StepAnswers(p, i, ok, choice, exit);
      case Get => ProceedNodes(p.(calls := p.calls + 1), p.calls, false);
      case CallResume(k) =>
        assert p.woken[k] in p.woken;
        ProceedNodes(Leave(p, k), p.woken[k], p.woken[k] in p.stopRequested);
      case _ =>
    }
  }

  lemma {:induction false} StepAnswers(p: Pool, i: nat, ok: bool, choice: nat, exit: bool)
    requires i < |p.nodes|
    ensures StepNode(p, i, ok, choice, exit).answers == p.answers
  {
    hide NextStatus, SetStatus;
    var p1, s := p.(nodes := p.nodes[i := Taken(p.nodes[i])]), NextStatus(p.nodes[i].status, ok, p.nodes[i].collection);
    SetStatusNodes(p1, i, s, choice);
    SetStatusNodes(SetStatus(p1, i, s, choice), i, Idle, choice);
  }

  /** A call that was asked to stop does not sleep. */
  ghost predicate StopsAwake(p: Pool) {
    forall c: nat :: c in p.stopRequested ==> c < p.calls && c !in p.sleeping
  }

  lemma {:induction false} ProceedSleeping(p: Pool, c: nat, stop: bool)
    ensures var q := Proceed(p, c, stop);
      q.stopRequested == p.stopRequested && q.calls == p.calls && (q.sleeping == p.sleeping || (!stop && q.sleeping == p.sleeping + [c]))
  {
    hide Remove;
  }

  lemma {:induction false} StepSleeping(p: Pool, i: nat, ok: bool, choice: nat, exit: bool)
    requires i < |p.nodes|
    ensures var q := StepNode(p, i, ok, choice, exit);
      q.stopRequested == p.stopRequested && q.calls == p.calls && forall c: nat :: c in q.sleeping ==> c in p.sleeping
  {
    hide NextStatus, SetStatus;
    var p1, s := p.(nodes := p.nodes[i := Taken(p.nodes[i])]), NextStatus(p.nodes[i].status, ok, p.nodes[i].collection);
    StatusSleeping(p1, i, s, choice);
    SetStatusNodes(p1, i, s, choice);
    StatusSleeping(SetStatus(p1, i, s, choice), i, Idle, choice);
  }

  lemma {:induction false} StatusSleeping(p: Pool, i: nat, s: Status, choice: nat)
    requires i < |p.nodes|
    ensures var q := SetStatus(p, i, s, choice);
      q.stopRequested == p.stopRequested && q.calls == p.calls && forall c: nat :: c in q.sleeping ==> c in p.sleeping
  {
    hide Remove;
  }

  lemma {:induction false} NextStopsAwake(p: Pool, e: Event)
    requires Inv(p) && Enabled(p, e) && StopsAwake(p)
    ensures StopsAwake(Next(p, e))
  {
    hide IdleExactly, Ownership, Awake, Served, Counters, Proceed, StepNode, Coming, Remove;
    match e {
      case NodeStep(i, ok, choice, exit) => StepSleeping(p, i, ok, choice, exit);
      case Get => ProceedSleeping(p.(calls := p.calls + 1), p.calls, false);
      case CallResume(k) =>
        assert p.woken[k] in p.woken;
        ProceedSleeping(Leave(p, k), p.woken[k], p.woken[k] in p.stopRequested);
      case CallStop(c) => RemoveSame(p.sleeping, c);
      case _ =>
    }
  }

  /** In every run no call that was asked to stop sleeps: it is woken, or was answered. */
  lemma {:induction false} StoppedCallsDoNotSleep(initialSize: nat, maxSize: nat, es: seq<Event>)
    requires initialSize <= maxSize && ValidRun(Created(initialSize, maxSize), es)
    ensures StopsAwake(After(Created(initialSize, maxSize), es))
    decreases |es|
  {
    hide ValidRun, After, Next, Enabled, Inv;
    var p0 := Created(initialSize, maxSize);
    if es == [] {
      NothingYet(p0);
    } else {
      RunInit(p0, es);
      StoppedCallsDoNotSleep(initialSize, maxSize, es[..|es| - 1]);
      EveryRun(initialSize, maxSize, es[..|es| - 1]);
      NextStopsAwake(After(p0, es[..|es| - 1]), es[|es| - 1]);
    }
  }

  // ----- the order of the idle connections

  /** The number of events after which the connection last became idle. */
  function IdleSince(p: Pool, es: seq<Event>, i: nat): nat
    requires ValidRun(p, es)
  {
    if es == [] then 0
    else
      RunInit(p, es);
      var init := es[..|es| - 1];
      var a, b := After(p, init), After(p, es);
      if i < |b.nodes| && b.nodes[i].status == Idle && !(i < |a.nodes| && a.nodes[i].status == Idle) then |es| else IdleSince(p, init, i)
  }

  lemma {:induction false} IdleSinceBound(p: Pool, es: seq<Event>, i: nat)
    requires ValidRun(p, es)
    ensures IdleSince(p, es, i) <= |es|
    decreases |es|
  {
    hide ValidRun, After;
    if es != [] {
      RunInit(p, es);
      IdleSinceBound(p, es[..|es| - 1], i);
    }
  }

  /** What an event does to the list: a connection joins it at its end, one leaves it, or nothing. */
  ghost predicate ListStep(p: Pool, q: Pool) {
    || q.idle == p.idle
    || (exists i: nat :: Joins(p, q, i))
    || (exists k: nat :: Leaves(p, q, k))
  }

  predicate Joins(p: Pool, q: Pool, i: nat) {
    i < |q.nodes| && q.idle == p.idle + [i] && q.nodes[i].status == Idle && !(i < |p.nodes| && p.nodes[i].status == Idle)
  }

  predicate Leaves(p: Pool, q: Pool, k: nat) {
    k < |p.idle| && q.idle == p.idle[..k] + p.idle[k + 1..]
  }

  lemma {:induction false} RemoveIs(s: seq<nat>, x: nat) returns (k: nat)
    requires x in s
    ensures k < |s| && s[k] == x && Remove(s, x) == s[..k] + s[k + 1..]
  {
    if s[0] == x {
      k := 0;
    } else {
      var j := RemoveIs(s[1..], x);
      k := j + 1;
      assert s[..k] == [s[0]] + s[1..][..j] && s[k + 1..] == s[1..][j + 1..];
    }
  }

  lemma {:induction false} StatusList(p: Pool, i: nat, s: Status, choice: nat)
    requires i < |p.nodes| && (p.nodes[i].status == Idle <==> i in p.idle)
    ensures var q := SetStatus(p, i, s, choice);
      if s == Idle && p.nodes[i].status != Idle then q.idle == p.idle + [i]
      else if s != Idle && p.nodes[i].status == Idle then q.idle == Remove(p.idle, i)
      else q.idle == p.idle
  {
    hide Remove;
  }

  lemma {:induction false} StepList(p: Pool, i: nat, ok: bool, choice: nat, exit: bool)
    requires Inv(p) && i < |p.nodes|
    ensures ListStep(p, StepNode(p, i, ok, choice, exit))
  {
    hide SetStatus, Ownership, Calls, Awake, Served, Counters;
    var n := p.nodes[i];
    var p1, s := p.(nodes := p.nodes[i := Taken(n)]), NextStatus(n.status, ok, n.collection);
    var q1 := SetStatus(p1, i, s, choice);
    SetStatusNodes(p1, i, s, choice);
    SetStatusNodes(q1, i, Idle, choice);
    StatusList(p1, i, s, choice);
    StepNodeIs(p, i, ok, choice, exit);
    var q := StepNode(p, i, ok, choice, exit);
    if s == ResetInProgress && !exit {
      assert n.status != Idle && i !in p.idle;
      StatusList(q1, i, Idle, choice);
      assert Joins(p, q, i);
    } else if s == Idle && n.status != Idle {
      assert Joins(p, q, i);
    } else if s != Idle && n.status == Idle {
      var k := RemoveIs(p.idle, i);
      assert Leaves(p, q, k);
    }
  }

  lemma {:induction false} TakeList(p: Pool, c: nat, stop: bool)
    requires IdleExactly(p)
    ensures var q := Proceed(p, c, stop); q.idle == p.idle || (p.idle != [] && q.idle == p.idle[1..])
  {
    hide SetStatus;
    if p.idle != [] {
      var i := p.idle[0];
      assert i in p.idle;
      StatusList(p, i, InUse, 0);
    }
  }

  lemma {:induction false} NextList(p: Pool, e: Event)
    requires Inv(p) && Enabled(p, e)
    ensures ListStep(p, Next(p, e))
  {
    hide SetStatus, NextStatus, Ownership, Calls, Awake, Served, Counters, Coming, Remove, ListStep, Proceed;
    match e {
      case NodeStep(i, ok, choice, exit) => StepList(p, i, ok, choice, exit);
      case Get =>
        TakeList(p.(calls := p.calls + 1), p.calls, false);
        FirstLeaves(p, Next(p, e));
      case CallResume(k) =>
        TakeList(Leave(p, k), p.woken[k], p.woken[k] in p.stopRequested);
        FirstLeaves(p, Next(p, e));
      case _ => FirstLeaves(p, Next(p, e));
    }
  }

  lemma {:induction false} FirstLeaves(p: Pool, q: Pool)
    requires q.idle == p.idle || (p.idle != [] && q.idle == p.idle[1..])
    ensures ListStep(p, q)
  {
    if p.idle != [] && q.idle == p.idle[1..] {
      assert p.idle[..0] + p.idle[0 + 1..] == p.idle[1..];
      assert Leaves(p, q, 0);
    }
  }

  /** The list is in the order in which its connections became idle. */
  ghost predicate InOrder(p0: Pool, es: seq<Event>, idle: seq<nat>)
    requires ValidRun(p0, es)
  {
    forall a, b | 0 <= a < b < |idle| :: IdleSince(p0, es, idle[a]) < IdleSince(p0, es, idle[b])
  }

  /** In every run the idle connections are listed in the order in which they became idle, so that
      the first one, which is handed out next, has been idle for the longest. */
  lemma {:induction false} OldestIdleFirst(initialSize: nat, maxSize: nat, es: seq<Event>)
    requires initialSize <= maxSize && ValidRun(Created(initialSize, maxSize), es)
    ensures InOrder(Created(initialSize, maxSize), es, After(Created(initialSize, maxSize), es).idle)
    decreases |es|
  {
    hide ValidRun, After, Next, Enabled, Ownership, Calls, Awake, Served, Counters, Inv, IdleSince;
    var p0 := Created(initialSize, maxSize);
    if es == [] {
      NothingYet(p0);
    } else {
      RunInit(p0, es);
      var init, e := es[..|es| - 1], es[|es| - 1];
      OldestIdleFirst(initialSize, maxSize, init);
      EveryRun(initialSize, maxSize, init);
      EveryRun(initialSize, maxSize, es);
      NextList(After(p0, init), e);
      OrderKept(p0, es);
    }
  }

  lemma {:induction false} OrderKept(p0: Pool, es: seq<Event>)
    requires es != [] && ValidRun(p0, es) && ValidRun(p0, es[..|es| - 1])
    requires var p, q := After(p0, es[..|es| - 1]), After(p0, es); Inv(p) && Inv(q) && ListStep(p, q) && InOrder(p0, es[..|es| - 1], p.idle)
    ensures InOrder(p0, es, After(p0, es).idle)
  {
    hide ValidRun, After, Ownership, Calls, Awake, Served, Counters, IdleSince;
    var init := es[..|es| - 1];
    var p, q := After(p0, init), After(p0, es);
    if i: nat :| Joins(p, q, i) {
      OrderJoins(p0, es, i);
    } else {
      forall a, b | 0 <= a < b < |q.idle| ensures IdleSince(p0, es, q.idle[a]) < IdleSince(p0, es, q.idle[b]) {
        var c, d := a, b;
        if k: nat :| Leaves(p, q, k) {
          c, d := if a < k then a else a + 1, if b < k then b else b + 1;
        }
        assert q.idle[a] == p.idle[c] && q.idle[b] == p.idle[d] && c < d;
        OldPair(p0, es, c, d);
      }
    }
  }

  lemma {:induction false} OldPair(p0: Pool, es: seq<Event>, c: nat, d: nat)
    requires es != [] && ValidRun(p0, es) && ValidRun(p0, es[..|es| - 1])
    requires var p := After(p0, es[..|es| - 1]); Inv(p) && c < d < |p.idle| && InOrder(p0, es[..|es| - 1], p.idle)
    ensures var idle := After(p0, es[..|es| - 1]).idle; IdleSince(p0, es, idle[c]) < IdleSince(p0, es, idle[d])
  {
    hide ValidRun, After, Ownership, Calls, Awake, Served, Counters, IdleSince;
    var p := After(p0, es[..|es| - 1]);
    assert p.idle[c] in p.idle && p.idle[d] in p.idle;
    SinceOld(p0, es, p.idle[c]);
    SinceOld(p0, es, p.idle[d]);
  }

  lemma {:induction false} OrderJoins(p0: Pool, es: seq<Event>, i: nat)
    requires es != [] && ValidRun(p0, es) && ValidRun(p0, es[..|es| - 1])
    requires var p, q := After(p0, es[..|es| - 1]), After(p0, es); Inv(p) && Joins(p, q, i) && InOrder(p0, es[..|es| - 1], p.idle)
    ensures InOrder(p0, es, After(p0, es).idle)
  {
    hide ValidRun, After, Ownership, Calls, Awake, Served, Counters, IdleSince;
    var init := es[..|es| - 1];
    var p, q := After(p0, init), After(p0, es);
    SinceNew(p0, es, i);
    forall a, b | 0 <= a < b < |q.idle| ensures IdleSince(p0, es, q.idle[a]) < IdleSince(p0, es, q.idle[b]) {
      assert q.idle[a] == p.idle[a];
      if b < |p.idle| {
        assert q.idle[b] == p.idle[b];
        OldPair(p0, es, a, b);
      } else {
        assert p.idle[a] in p.idle;
        SinceOld(p0, es, p.idle[a]);
        IdleSinceBound(p0, init, p.idle[a]);
      }
    }
  }

  lemma {:induction false} SinceOld(p0: Pool, es: seq<Event>, i: nat)
    requires es != [] && ValidRun(p0, es) && ValidRun(p0, es[..|es| - 1])
    requires var p := After(p0, es[..|es| - 1]); i < |p.nodes| && p.nodes[i].status == Idle
    ensures IdleSince(p0, es, i) == IdleSince(p0, es[..|es| - 1], i)
  {
    hide ValidRun, After;
  }

  lemma {:induction false} SinceNew(p0: Pool, es: seq<Event>, i: nat)
    requires es != [] && ValidRun(p0, es) && ValidRun(p0, es[..|es| - 1])
    requires var p, q := After(p0, es[..|es| - 1]), After(p0, es);
      i < |q.nodes| && q.nodes[i].status == Idle && !(i < |p.nodes| && p.nodes[i].status == Idle)
    ensures IdleSince(p0, es, i) == |es|
  {
    hide ValidRun, After;
  }
}
