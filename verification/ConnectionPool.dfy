/** The connection pool: the state machine of one pooled connection, the state the connections
    share, and the calls that wait for a connection
    (src/nativepg_internal/connection_pool/).

    The pool is single threaded and its coroutines interleave only where they wait, so a run
    is a sequence of events, each of them the code between two waits of one coroutine. The
    functions give the meaning of the operations on a snapshot of the pool; the class at the
    end is the pool itself, updated in place and proved against them. */
module ConnectionPool {
  import opened Messages

  datatype Status =
    | NotStarted
    | ConnectInProgress
    | SleepConnectFailed
    | ResetInProgress
    | PingInProgress
    | Idle
    | InUse
    | Terminated

  /** Whether a connection in use was given back and not collected yet. */
  datatype Collection = NotReturned | NeedsCollect | NeedsCollectWithReset

  /** A connection: the holder is the call whose handle refers to it; the signal wakes its
      coroutine up when it is given back; it is finished when its coroutine has exited. */
  datatype Node = Node(status: Status, collection: Collection, signal: bool, holder: Option<nat>, finished: bool)

  datatype Phase = NotRunning | Running | Stopped

  datatype Answer = Got(node: nat) | Failed

  /** The pool. Calls to get_connection are numbered; those that wait sleep until they are
      woken, and woken ones have not run yet. */
  datatype Pool = Pool(
    initialSize: nat,
    maxSize: nat,
    phase: Phase,
    nodes: seq<Node>,
    idle: seq<nat>,
    pendingConnections: int,
    pendingRequests: int,
    needed: bool,
    calls: nat,
    sleeping: seq<nat>,
    woken: seq<nat>,
    stopRequested: set<nat>,
    answers: map<nat, Answer>)

  // ----- one connection

  predicate IsPending(s: Status) {
    s != NotStarted && s != Idle && s != InUse && s != Terminated
  }

  /** resume: the status after the action of the connection finished. */
  function NextStatus(s: Status, ok: bool, c: Collection): Status {
    match s
    case NotStarted => ConnectInProgress
    case ConnectInProgress => if ok then Idle else SleepConnectFailed
    case SleepConnectFailed => ConnectInProgress
    case Idle => PingInProgress
    case InUse =>
      (match c
       case NotReturned => InUse
       case NeedsCollect => Idle
       case NeedsCollectWithReset => ResetInProgress)
    case PingInProgress => if ok then Idle else ConnectInProgress
    case ResetInProgress => if ok then Idle else ConnectInProgress
    case Terminated => Terminated
  }

  /** What the coroutine of a connection does next, by its status. */
  datatype Action = Connect | RetryWait | Ping | Reset | IdleWait

  function ActionOf(s: Status): Option<Action> {
    match s
    case ConnectInProgress => Some(Connect)
    case SleepConnectFailed => Some(RetryWait)
    case PingInProgress => Some(Ping)
    case ResetInProgress => Some(Reset)
    case Idle => Some(IdleWait)
    case InUse => Some(IdleWait)
    case _ => None
  }

  // ----- the shared state

  function Remove(s: seq<nat>, x: nat): (r: seq<nat>)
    ensures |r| == if x in s then |s| - 1 else |s|
  {
    if s == [] then []
    else if s[0] == x then s[1..]
    else [s[0]] + Remove(s[1..], x)
  }

  /** cancel_one: some sleeping call is woken, if there is any. */
  function WakeOne(p: Pool, choice: nat): Pool {
    if p.sleeping == [] then p
    else
      var k := if choice < |p.sleeping| then choice else 0;
      p.(sleeping := p.sleeping[..k] + p.sleeping[k + 1..], woken := p.woken + [p.sleeping[k]])
  }

  function EnterIdle(p: Pool, i: nat, choice: nat): Pool {
    WakeOne(p.(idle := p.idle + [i]), choice)
  }

  /** set_status, with the hooks of the node. */
  function SetStatus(p: Pool, i: nat, s: Status, choice: nat): Pool
    requires i < |p.nodes|
  {
    var was := p.nodes[i].status;
    var q :=
      if s == Idle && was != Idle then EnterIdle(p, i, choice)
      else if s != Idle && was == Idle then p.(idle := Remove(p.idle, i))
      else p;
    var d := if !IsPending(was) && IsPending(s) then 1 else if IsPending(was) && !IsPending(s) then -1 else 0;
    q.(pendingConnections := q.pendingConnections + d, nodes := p.nodes[i := p.nodes[i].(status := s)])
  }

  /** The coroutine waits for the connection to be given back, or for the time to ping; when it
      goes on it takes the note that the connection was given back. */
  function Taken(n: Node): Node {
    if n.status == Idle || n.status == InUse then n.(collection := NotReturned, signal := false) else n
  }

  /** The coroutine of a connection runs from one wait to the next: its action finished, well or
      with an error. Once the pool was stopped, the coroutine may see that it has to exit. A
      reset does nothing yet: unless it exits, the coroutine goes on at once. */
  function StepNode(p: Pool, i: nat, ok: bool, choice: nat, exit: bool): Pool
    requires i < |p.nodes|
  {
    var n := p.nodes[i];
    var q := SetStatus(p.(nodes := p.nodes[i := Taken(n)]), i, NextStatus(n.status, ok, n.collection), choice);
    if exit then q.(nodes := q.nodes[i := q.nodes[i].(finished := true)])
    else if q.nodes[i].status == ResetInProgress then SetStatus(q, i, Idle, choice)
    else q
  }

  /** mark_as_collectable: the handle of a connection is given up. */
  function GiveBack(p: Pool, i: nat, reset: bool): Pool
    requires i < |p.nodes|
  {
    p.(nodes := p.nodes[i := p.nodes[i].(
      collection := if reset then NeedsCollectWithReset else NeedsCollect, signal := true, holder := None)])
  }

  // ----- the size of the pool

  function Min(a: int, b: int): int { if a <= b then a else b }

  function Max(a: int, b: int): int { if a >= b then a else b }

  /** With n more connections the pool is full, or it has its initial size and as many
      connections getting ready as requests wait. */
  predicate Enough(initialSize: int, maxSize: int, current: int, pending: int, requests: int, n: int) {
    current + n == maxSize || (requests <= pending + n && initialSize <= current + n)
  }

  /** num_connections_to_create: the least number that gives every waiting request a
      connection that is getting ready and keeps the initial size, as far as there is room. */
  function ToCreate(initialSize: int, maxSize: int, current: int, pending: int, requests: int): (n: int)
    ensures initialSize <= maxSize && current <= maxSize ==>
      && 0 <= n && current + n <= maxSize
      && Enough(initialSize, maxSize, current, pending, requests, n)
      && forall k | 0 <= k < n :: !Enough(initialSize, maxSize, current, pending, requests, k)
  {
    Min(Max(Max(requests - pending, 0), Max(initialSize - current, 0)), maxSize - current)
  }

  const Fresh: Node := Node(NotStarted, NotReturned, false, None, false)

  function FreshNodes(n: int): (r: seq<Node>)
    ensures |r| == (if n > 0 then n else 0) && forall i | 0 <= i < |r| :: r[i] == Fresh
  {
    if n <= 0 then [] else seq(n, _ => Fresh)
  }

  function CreateConnections(p: Pool): Pool {
    p.(nodes := p.nodes +
      FreshNodes(ToCreate(p.initialSize, p.maxSize, |p.nodes|, p.pendingConnections, p.pendingRequests)))
  }

  // ----- the calls

  /** try_get_connection, for call c; None if no connection is idle. */
  function Take(p: Pool, c: nat): Option<Pool> {
    if p.idle == [] || p.idle[0] >= |p.nodes| then None
    else
      var i := p.idle[0];
      var q := SetStatus(p, i, InUse, 0);
      Some(q.(nodes := q.nodes[i := q.nodes[i].(holder := Some(c))], answers := q.answers[c := Got(i)]))
  }

  function Sleep(p: Pool, c: nat): Pool {
    p.(pendingRequests := p.pendingRequests + 1, needed := true, sleeping := p.sleeping + [c])
  }

  function Fail(p: Pool, c: nat): Pool {
    p.(answers := p.answers[c := Failed])
  }

  /** The part of get_connection that call c runs from its start or from a wait to the next. */
  function Proceed(p: Pool, c: nat, stop: bool): Pool {
    if p.phase == Stopped then Fail(p, c)
    else match Take(p, c)
      case Some(q) => q
      case None => if stop then Fail(p, c) else Sleep(p, c)
  }

  /** get_connection up to its first wait. */
  function GetConnection(p: Pool): Pool {
    Proceed(p.(calls := p.calls + 1), p.calls, false)
  }

  /** A woken call leaves the waiting ones. */
  function Leave(p: Pool, k: nat): Pool
    requires k < |p.woken|
  {
    p.(woken := p.woken[..k] + p.woken[k + 1..], pendingRequests := p.pendingRequests - 1)
  }

  /** get_connection from a wait on, for the woken call at k. */
  function ResumeCall(p: Pool, k: nat): Pool
    requires k < |p.woken|
  {
    Proceed(Leave(p, k), p.woken[k], p.woken[k] in p.stopRequested)
  }

  /** A caller asks a call to stop: if it sleeps, it is woken. */
  function StopCall(p: Pool, c: nat): Pool {
    var q := p.(stopRequested := p.stopRequested + {c});
    if c in p.sleeping then q.(sleeping := Remove(p.sleeping, c), woken := p.woken + [c]) else q
  }

  // ----- the pool coroutine

  function Start(p: Pool): Pool {
    CreateConnections(p.(phase := Running))
  }

  function Grow(p: Pool): Pool {
    CreateConnections(p.(needed := false))
  }

  /** The pool stops: every sleeping call is woken. */
  function StopPool(p: Pool): Pool {
    p.(phase := Stopped, sleeping := [], woken := p.woken + p.sleeping)
  }

  // ----- runs

  datatype Event =
    | RunPool
    | ConnectionsNeeded
    | StopRun
    | NodeStep(node: nat, ok: bool, choice: nat, exit: bool)
    | Get
    | CallStop(call: nat)
    | CallResume(index: nat)
    | Return(node: nat, reset: bool)

  predicate Enabled(p: Pool, e: Event) {
    match e
    case RunPool => p.phase == NotRunning
    case ConnectionsNeeded => p.phase == Running && p.needed
    case StopRun => p.phase == Running
    case NodeStep(i, _, _, exit) => i < |p.nodes| && !p.nodes[i].finished && (exit ==> p.phase == Stopped)
    case Get => true
    case CallStop(c) => c < p.calls && c !in p.answers
    case CallResume(k) => k < |p.woken|
    case Return(i, _) => i < |p.nodes| && p.nodes[i].holder.Some?
  }

  function Next(p: Pool, e: Event): Pool
    requires Enabled(p, e)
  {
    match e
    case RunPool => Start(p)
    case ConnectionsNeeded => Grow(p)
    case StopRun => StopPool(p)
    case NodeStep(i, ok, choice, exit) => StepNode(p, i, ok, choice, exit)
    case Get => GetConnection(p)
    case CallStop(c) => StopCall(p, c)
    case CallResume(k) => ResumeCall(p, k)
    case Return(i, reset) => GiveBack(p, i, reset)
  }

  predicate ValidRun(p: Pool, es: seq<Event>)
    decreases |es|
  {
    es == [] || (Enabled(p, es[0]) && ValidRun(Next(p, es[0]), es[1..]))
  }

  function After(p: Pool, es: seq<Event>): Pool
    requires ValidRun(p, es)
    decreases |es|
  {
    if es == [] then p else After(Next(p, es[0]), es[1..])
  }

  function Created(initialSize: nat, maxSize: nat): Pool {
    Pool(initialSize, maxSize, NotRunning, [], [], 0, 0, false, 0, [], [], {}, map[])
  }

  // ----- the invariant

  /** The connections that will become idle without anybody's help: pending ones and, if asked
      for, those whose coroutine has not started. */
  function Coming(ns: seq<Node>, alsoNew: bool): nat {
    if ns == [] then 0
    else (if IsPending(ns[0].status) || (alsoNew && ns[0].status == NotStarted) then 1 else 0) + Coming(ns[1..], alsoNew)
  }

  predicate NoRepeats(s: seq<nat>) {
    forall i, j | 0 <= i < j < |s| :: s[i] != s[j]
  }

  /** The idle list holds exactly the idle connections, each once. */
  ghost predicate IdleExactly(p: Pool) {
    && NoRepeats(p.idle)
    && forall i: nat :: i in p.idle <==> i < |p.nodes| && p.nodes[i].status == Idle
  }

  /** Exclusive ownership: in use means held by one call, or given back and not collected. */
  predicate Owned(n: Node) {
    && (n.status == InUse <==> n.holder.Some? || n.collection != NotReturned)
    && !(n.holder.Some? && n.collection != NotReturned)
    && (n.signal <==> n.collection != NotReturned)
  }

  predicate Ownership(p: Pool) {
    && (forall i | 0 <= i < |p.nodes| :: Owned(p.nodes[i]))
    && (forall i | 0 <= i < |p.nodes| && p.nodes[i].holder.Some? ::
          p.nodes[i].holder.value in p.answers && p.answers[p.nodes[i].holder.value] == Got(i))
  }

  /** Every call sleeps, is woken or was answered. */
  ghost predicate Calls(p: Pool) {
    && NoRepeats(p.sleeping) && NoRepeats(p.woken)
    && (forall c: nat :: c in p.sleeping ==> c !in p.woken && c !in p.answers)
    && (forall c: nat :: c in p.woken ==> c !in p.answers)
    && (forall c: nat :: c < p.calls <==> c in p.sleeping || c in p.woken || c in p.answers)
  }

  /** The same, but for call c, which is running. */
  ghost predicate CallsBut(p: Pool, c: nat) {
    && NoRepeats(p.sleeping) && NoRepeats(p.woken)
    && c < p.calls && c !in p.sleeping && c !in p.woken && c !in p.answers
    && (forall x: nat :: x in p.sleeping ==> x !in p.woken && x !in p.answers)
    && (forall x: nat :: x in p.woken ==> x !in p.answers)
    && (forall x: nat :: x < p.calls && x != c <==> x in p.sleeping || x in p.woken || x in p.answers)
  }

  /** No lost wake-up. */
  predicate Awake(p: Pool) {
    && (p.sleeping != [] ==> |p.idle| <= |p.woken|)
    && (p.phase == Stopped ==> p.sleeping == [])
  }

  /** Unless the pool coroutine was told that connections are needed, each sleeping call has a
      connection that is getting ready, or the pool is full. */
  predicate Served(p: Pool) {
    p.phase == Running && !p.needed ==> |p.sleeping| <= Coming(p.nodes, true) || |p.nodes| == p.maxSize
  }

  predicate Counters(p: Pool) {
    && p.pendingConnections == Coming(p.nodes, false)
    && p.pendingRequests == |p.sleeping| + |p.woken|
    && p.initialSize <= p.maxSize && |p.nodes| <= p.maxSize
    && (p.phase == NotRunning ==> p.nodes == [])
  }

  ghost predicate Inv(p: Pool) {
    IdleExactly(p) && Ownership(p) && Calls(p) && Awake(p) && Served(p) && Counters(p)
  }

  // ----- sequences without repeats

  lemma {:induction false} RemoveSame(s: seq<nat>, x: nat)
    requires NoRepeats(s)
    ensures NoRepeats(Remove(s, x))
    ensures forall y: nat :: y in Remove(s, x) <==> y in s && y != x
    decreases |s|
  {
    if s != [] {
      assert forall i | 0 <= i < |s[1..]| :: s[1..][i] == s[i + 1];
      RemoveSame(s[1..], x);
      forall y: nat ensures y in s <==> y == s[0] || y in s[1..] {
        assert s == [s[0]] + s[1..];
      }
      if s[0] != x {
        var r := Remove(s[1..], x);
        assert s[0] !in s[1..];
        RepeatsPrepend(s[0], r);
      }
    }
  }

  lemma {:induction false} RepeatsPrepend(x: nat, s: seq<nat>)
    requires NoRepeats(s) && x !in s
    ensures NoRepeats([x] + s)
  {
    var t := [x] + s;
    forall i, j | 0 <= i < j < |t| ensures t[i] != t[j] {
      assert t[j] == s[j - 1];
      if i > 0 {
        assert t[i] == s[i - 1];
      }
    }
  }

  lemma {:induction false} RepeatsAppend(s: seq<nat>, t: seq<nat>)
    requires NoRepeats(s) && NoRepeats(t) && forall x: nat :: x in s ==> x !in t
    ensures NoRepeats(s + t)
  {
    var u := s + t;
    forall i, j | 0 <= i < j < |u| ensures u[i] != u[j] {
      if j >= |s| {
        assert u[j] == t[j - |s|];
        if i >= |s| {
          assert u[i] == t[i - |s|];
        } else {
          assert u[i] in s;
        }
      }
    }
  }

  lemma {:induction false} DropOne(s: seq<nat>, k: nat)
    requires NoRepeats(s) && k < |s|
    ensures var r := s[..k] + s[k + 1..];
      NoRepeats(r) && |r| == |s| - 1 && forall y: nat :: y in r <==> y in s && y != s[k]
  {
    var r := s[..k] + s[k + 1..];
    assert forall i | 0 <= i < |r| :: r[i] == if i < k then s[i] else s[i + 1];
    forall y: nat | y in s && y != s[k] ensures y in r {
      var i :| 0 <= i < |s| && s[i] == y;
      assert r[if i < k then i else i - 1] == y;
    }
  }

  // ----- connections that are getting ready

  function Counts(n: Node, alsoNew: bool): nat {
    if IsPending(n.status) || (alsoNew && n.status == NotStarted) then 1 else 0
  }

  lemma {:induction false} ComingUpdate(ns: seq<Node>, i: nat, n: Node, alsoNew: bool)
    requires i < |ns|
    ensures Coming(ns[i := n], alsoNew) == Coming(ns, alsoNew) - Counts(ns[i], alsoNew) + Counts(n, alsoNew)
    decreases |ns|
  {
    if i == 0 {
      assert ns[i := n][1..] == ns[1..];
    } else {
      assert ns[i := n][1..] == ns[1..][i - 1 := n];
      ComingUpdate(ns[1..], i - 1, n, alsoNew);
    }
  }

  lemma {:induction false} ComingFresh(ns: seq<Node>, added: seq<Node>, alsoNew: bool)
    requires forall i | 0 <= i < |added| :: added[i] == Fresh
    ensures Coming(ns + added, alsoNew) == Coming(ns, alsoNew) + if alsoNew then |added| else 0
    decreases |ns| + |added|
  {
    if ns != [] {
      assert (ns + added)[1..] == ns[1..] + added;
      ComingFresh(ns[1..], added, alsoNew);
    } else if added != [] {
      assert ns + added == added && added == [] + added && added[1..] == [] + added[1..];
      ComingFresh([], added[1..], alsoNew);
    } else {
      assert ns + added == [];
    }
  }

  lemma {:induction false} ComingBound(ns: seq<Node>)
    ensures Coming(ns, false) <= Coming(ns, true) <= |ns|
    decreases |ns|
  {
    if ns != [] {
      ComingBound(ns[1..]);
    }
  }

  // ----- what a change of status keeps

  lemma {:induction false} WakeKeeps(p: Pool, choice: nat)
    requires Calls(p)
    ensures Calls(WakeOne(p, choice))
    ensures |WakeOne(p, choice).sleeping| + |WakeOne(p, choice).woken| == |p.sleeping| + |p.woken|
  {
    if p.sleeping != [] {
      var k := if choice < |p.sleeping| then choice else 0;
      var c := p.sleeping[k];
      DropOne(p.sleeping, k);
      assert c in p.sleeping;
      RepeatsAppend(p.woken, [c]);
    }
  }

  /** What set_status keeps besides ownership, which its callers settle. */
  ghost predicate Keeps(p: Pool) {
    IdleExactly(p) && Calls(p) && Awake(p) && Served(p) && Counters(p)
  }

  lemma {:induction false} SetStatusIdle(p: Pool, i: nat, s: Status, choice: nat)
    requires IdleExactly(p) && i < |p.nodes|
    ensures IdleExactly(SetStatus(p, i, s, choice))
  {
    RemoveSame(p.idle, i);
    if p.nodes[i].status != Idle {
      RepeatsAppend(p.idle, [i]);
    }
  }

  lemma {:induction false} SetStatusCalls(p: Pool, i: nat, s: Status, choice: nat)
    requires Calls(p) && Awake(p) && i < |p.nodes|
    ensures var q := SetStatus(p, i, s, choice);
      && Calls(q) && Awake(q) && |q.sleeping| + |q.woken| == |p.sleeping| + |p.woken|
      && |q.sleeping| == if s == Idle && p.nodes[i].status != Idle && p.sleeping != [] then |p.sleeping| - 1 else |p.sleeping|
  {
    var q := SetStatus(p, i, s, choice);
    hide Calls;
    if s == Idle && p.nodes[i].status != Idle {
      var p1 := p.(idle := p.idle + [i]);
      CallsSame(p, p1);
      WakeKeeps(p1, choice);
      CallsSame(WakeOne(p1, choice), q);
    } else {
      CallsSame(p, q);
    }
  }

  lemma {:induction false} SetStatusKeeps(p: Pool, i: nat, s: Status, choice: nat)
    requires Keeps(p) && i < |p.nodes|
    requires s == NotStarted ==> p.nodes[i].status == NotStarted
    requires IsPending(p.nodes[i].status) || p.nodes[i].status == NotStarted ==> IsPending(s) || s == Idle
    ensures Keeps(SetStatus(p, i, s, choice))
  {
    hide IdleExactly, Coming, Calls, Awake;
    SetStatusIdle(p, i, s, choice);
    SetStatusCalls(p, i, s, choice);
    var n := p.nodes[i].(status := s);
    ComingUpdate(p.nodes, i, n, false);
    ComingUpdate(p.nodes, i, n, true);
  }

  // ----- every event keeps the invariant

  lemma {:induction false} CreateKeeps(p: Pool)
    requires IdleExactly(p) && Ownership(p) && Calls(p) && Awake(p) && p.phase == Running
    requires p.pendingConnections == Coming(p.nodes, false) && p.pendingRequests == |p.sleeping| + |p.woken|
    requires p.initialSize <= p.maxSize && |p.nodes| <= p.maxSize
    ensures Inv(CreateConnections(p))
  {
    hide Coming, Calls, Awake;
    var n := ToCreate(p.initialSize, p.maxSize, |p.nodes|, p.pendingConnections, p.pendingRequests);
    ComingFresh(p.nodes, FreshNodes(n), false);
    ComingFresh(p.nodes, FreshNodes(n), true);
    ComingBound(p.nodes);
    var q := CreateConnections(p);
    assert forall i | |p.nodes| <= i < |q.nodes| :: q.nodes[i] == Fresh;
    assert Calls(q) by {
      CallsSame(p, q);
    }
    AwakeSame(p, q);
  }

  lemma {:induction false} CallsSame(p: Pool, q: Pool)
    requires Calls(p) && q.sleeping == p.sleeping && q.woken == p.woken && q.answers == p.answers && q.calls == p.calls
    ensures Calls(q)
  {
  }

  lemma {:induction false} AwakeSame(p: Pool, q: Pool)
    requires Awake(p) && q.sleeping == p.sleeping && q.woken == p.woken && q.idle == p.idle && q.phase == p.phase
    ensures Awake(q)
  {
  }

  lemma {:induction false} PoolRunKeeps(p: Pool)
    requires Inv(p)
    ensures p.phase == NotRunning ==> Inv(Start(p))
    ensures p.phase == Running && p.needed ==> Inv(Grow(p))
  {
    hide Coming, CreateConnections;
    if p.phase == NotRunning {
      var q := p.(phase := Running);
      CallsSame(p, q);
      CreateKeeps(q);
    } else if p.phase == Running {
      var q := p.(needed := false);
      CallsSame(p, q);
      CreateKeeps(q);
    }
  }

  lemma {:induction false} StopPoolKeeps(p: Pool)
    requires Inv(p) && p.phase == Running
    ensures Inv(StopPool(p))
  {
    hide Coming, IdleExactly;
    RepeatsAppend(p.woken, p.sleeping);
    assert IdleExactly(StopPool(p)) by {
      IdleSame(p, StopPool(p));
    }
  }

  lemma {:induction false} IdleSame(p: Pool, q: Pool)
    requires IdleExactly(p) && q.idle == p.idle && |q.nodes| == |p.nodes|
    requires forall i | 0 <= i < |p.nodes| :: q.nodes[i].status == p.nodes[i].status
    ensures IdleExactly(q)
  {
  }

  lemma {:induction false} ComingSame(ns: seq<Node>, ms: seq<Node>, alsoNew: bool)
    requires |ns| == |ms| && forall i | 0 <= i < |ns| :: ns[i].status == ms[i].status
    ensures Coming(ns, alsoNew) == Coming(ms, alsoNew)
    decreases |ns|
  {
    if ns != [] {
      ComingSame(ns[1..], ms[1..], alsoNew);
    }
  }

  /** A change of the nodes that leaves their statuses alone. */
  lemma {:induction false} NodesSame(p: Pool, ms: seq<Node>)
    requires Keeps(p) && |ms| == |p.nodes| && forall i | 0 <= i < |ms| :: ms[i].status == p.nodes[i].status
    ensures Keeps(p.(nodes := ms))
  {
    hide IdleExactly, Coming, Calls;
    var q := p.(nodes := ms);
    IdleSame(p, q);
    CallsSame(p, q);
    ComingSame(p.nodes, ms, false);
    ComingSame(p.nodes, ms, true);
  }

  lemma {:induction false} NodeStepOwned(n: Node, ok: bool)
    requires Owned(n)
    ensures var m := Taken(n).(status := NextStatus(n.status, ok, n.collection));
      Owned(m) && m.holder == n.holder
  {
  }

  lemma {:induction false} NodeStepKeeps(p: Pool, i: nat, ok: bool, choice: nat, exit: bool)
    requires Inv(p) && i < |p.nodes|
    ensures Inv(StepNode(p, i, ok, choice, exit))
  {
    hide IdleExactly, Coming, Calls, Awake, Served, Counters, Owned, SetStatus, NextStatus;
    var n := p.nodes[i];
    var p1 := p.(nodes := p.nodes[i := Taken(n)]);
    NodesSame(p, p1.nodes);
    var s := NextStatus(n.status, ok, n.collection);
    var p2 := SetStatus(p1, i, s, choice);
    NextStatusComes(n.status, ok, n.collection);
    SetStatusKeeps(p1, i, s, choice);
    SetStatusNodes(p1, i, s, choice);
    NodeStepOwned(n, ok);
    if exit {
      NodesSame(p2, p2.nodes[i := p2.nodes[i].(finished := true)]);
      FinishedOwned(p2.nodes[i]);
    } else if s == ResetInProgress {
      SetStatusKeeps(p2, i, Idle, choice);
      SetStatusNodes(p2, i, Idle, choice);
      ResetOwned(p2.nodes[i]);
    }
    StepOwnership(p, StepNode(p, i, ok, choice, exit), i);
  }

  lemma {:induction false} ResetOwned(n: Node)
    requires Owned(n) && n.status == ResetInProgress
    ensures Owned(n.(status := Idle))
  {
  }

  lemma {:induction false} StepOwnership(p: Pool, q: Pool, i: nat)
    requires Ownership(p) && i < |p.nodes| == |q.nodes| && q.answers == p.answers
    requires forall k | 0 <= k < |p.nodes| && k != i :: q.nodes[k] == p.nodes[k]
    requires Owned(q.nodes[i]) && q.nodes[i].holder == p.nodes[i].holder
    ensures Ownership(q)
  {
    hide Owned;
  }

  lemma {:induction false} NextStatusComes(s: Status, ok: bool, c: Collection)
    ensures NextStatus(s, ok, c) != NotStarted
    ensures IsPending(s) || s == NotStarted ==> IsPending(NextStatus(s, ok, c)) || NextStatus(s, ok, c) == Idle
  {
  }

  lemma {:induction false} SetStatusNodes(p: Pool, i: nat, s: Status, choice: nat)
    requires i < |p.nodes|
    ensures var q := SetStatus(p, i, s, choice);
      q.nodes == p.nodes[i := p.nodes[i].(status := s)] && q.answers == p.answers && q.calls == p.calls
  {
  }

  lemma {:induction false} FinishedOwned(n: Node)
    ensures Owned(n.(finished := true)) <==> Owned(n)
  {
  }

  lemma {:induction false} GiveBackKeeps(p: Pool, i: nat, reset: bool)
    requires Inv(p) && i < |p.nodes| && p.nodes[i].holder.Some?
    ensures Inv(GiveBack(p, i, reset))
  {
    hide IdleExactly, Coming, Calls, Awake, Served, Counters;
    NodesSame(p, GiveBack(p, i, reset).nodes);
  }

  lemma {:induction false} AnsweredCalls(p: Pool, c: nat, a: Answer)
    requires CallsBut(p, c)
    ensures Calls(p.(answers := p.answers[c := a]))
  {
    var q := p.(answers := p.answers[c := a]);
    forall x: nat ensures x in q.answers <==> x in p.answers || x == c {
    }
  }

  /** A call that takes a connection: it was neither sleeping, woken nor answered. */
  lemma {:induction false} TakeKeeps(p: Pool, c: nat)
    requires IdleExactly(p) && Ownership(p) && Served(p) && Counters(p) && CallsBut(p, c)
    requires p.sleeping != [] ==> |p.idle| <= |p.woken| + 1
    requires p.phase == Stopped ==> p.sleeping == []
    ensures match Take(p, c)
      case Some(q) => Inv(q)
      case None => p.idle == []
  {
    hide Coming;
    if p.idle != [] {
      var i := p.idle[0];
      assert i in p.idle;
      var q := SetStatus(p, i, InUse, 0);
      SetStatusIdle(p, i, InUse, 0);
      var n := p.nodes[i].(status := InUse, holder := Some(c));
      var r := Take(p, c).value;
      assert r.nodes == p.nodes[i := n];
      IdleSame(q, r);
      hide IdleExactly;
      ComingUpdate(p.nodes, i, n, false);
      ComingUpdate(p.nodes, i, n, true);
      assert Owned(p.nodes[i]);
      AnsweredCalls(p, c, Got(i));
      CallsSame(p.(answers := p.answers[c := Got(i)]), r);
      hide Calls;
    }
  }

  lemma {:induction false} SleepKeeps(p: Pool, c: nat)
    requires IdleExactly(p) && Ownership(p) && Counters(p) && p.idle == [] && p.phase != Stopped
    requires CallsBut(p, c)
    ensures Inv(Sleep(p, c))
  {
    hide Coming, IdleExactly;
    RepeatsAppend(p.sleeping, [c]);
    IdleSame(p, Sleep(p, c));
    assert forall x: nat :: x in p.sleeping + [c] <==> x in p.sleeping || x == c;
  }

  lemma {:induction false} FailKeeps(p: Pool, c: nat)
    requires IdleExactly(p) && Ownership(p) && Awake(p) && Served(p) && Counters(p)
    requires CallsBut(p, c)
    ensures Inv(Fail(p, c))
  {
    AnsweredCalls(p, c, Failed);
    hide Coming, IdleExactly, Calls;
    IdleSame(p, Fail(p, c));
  }

  /** A call goes on while it is neither sleeping nor woken. If it was woken, an idle
      connection may rely on it, so it has to take one if there is any. */
  ghost predicate Going(p: Pool, c: nat) {
    && IdleExactly(p) && Ownership(p) && Served(p) && Counters(p) && CallsBut(p, c)
    && (p.sleeping != [] ==> |p.idle| <= |p.woken| + 1)
    && (p.phase == Stopped ==> p.sleeping == [])
  }

  lemma {:induction false} GoingIdle(p: Pool, c: nat)
    requires Going(p, c)
    ensures IdleExactly(p)
  {
    hide IdleExactly, Ownership, CallsBut;
  }

  lemma {:induction false} ProceedKeeps(p: Pool, c: nat, stop: bool)
    requires Going(p, c)
    ensures Inv(Proceed(p, c, stop))
  {
    hide Coming, IdleExactly, CallsBut, Ownership, Served, Counters, Inv, Sleep, Fail, Take;
    TakeKeeps(p, c);
    if p.phase == Stopped || p.idle == [] {
      FailKeeps(p, c);
    }
    if p.phase != Stopped && p.idle == [] {
      SleepKeeps(p, c);
    }
  }

  lemma {:induction false} NewCall(p: Pool)
    requires Calls(p)
    ensures CallsBut(p.(calls := p.calls + 1), p.calls)
  {
  }

  lemma {:induction false} NewCallGoes(p: Pool)
    requires Inv(p)
    ensures Going(p.(calls := p.calls + 1), p.calls)
  {
    hide Coming, IdleExactly, Calls, CallsBut, Ownership;
    var q := p.(calls := p.calls + 1);
    IdleSame(p, q);
    NewCall(p);
    OwnershipSame(p, q);
  }

  lemma {:induction false} GetKeeps(p: Pool)
    requires Inv(p)
    ensures Inv(GetConnection(p))
  {
    hide Inv, Going, Proceed;
    NewCallGoes(p);
    ProceedKeeps(p.(calls := p.calls + 1), p.calls, false);
  }

  lemma {:induction false} OwnershipSame(p: Pool, q: Pool)
    requires Ownership(p) && q.nodes == p.nodes && q.answers == p.answers
    ensures Ownership(q)
  {
    hide Owned;
  }

  lemma {:induction false} LeavingCall(p: Pool, k: nat)
    requires Calls(p) && k < |p.woken|
    ensures CallsBut(p.(woken := p.woken[..k] + p.woken[k + 1..]), p.woken[k])
  {
    DropOne(p.woken, k);
    assert p.woken[k] in p.woken;
  }

  lemma {:induction false} CallsButSame(p: Pool, q: Pool, c: nat)
    requires CallsBut(p, c) && q.sleeping == p.sleeping && q.woken == p.woken && q.answers == p.answers && q.calls == p.calls
    ensures CallsBut(q, c)
  {
  }

  lemma {:induction false} LeavingGoes(p: Pool, k: nat)
    requires Inv(p) && k < |p.woken|
    ensures Going(Leave(p, k), p.woken[k])
  {
    hide Coming, IdleExactly, Calls, CallsBut, Ownership;
    var q := Leave(p, k);
    LeavingCall(p, k);
    CallsButSame(p.(woken := q.woken), q, p.woken[k]);
    IdleSame(p, q);
    OwnershipSame(p, q);
  }

  lemma {:induction false} ResumeCallKeeps(p: Pool, k: nat)
    requires Inv(p) && k < |p.woken|
    ensures Inv(ResumeCall(p, k))
  {
    hide Inv, Going, Proceed;
    LeavingGoes(p, k);
    ProceedKeeps(Leave(p, k), p.woken[k], p.woken[k] in p.stopRequested);
  }

  lemma {:induction false} StopCallKeeps(p: Pool, c: nat)
    requires Inv(p) && c < p.calls && c !in p.answers
    ensures Inv(StopCall(p, c))
  {
    hide Coming, IdleExactly;
    var q := StopCall(p, c);
    IdleSame(p, q);
    RemoveSame(p.sleeping, c);
    if c in p.sleeping {
      RepeatsAppend(p.woken, [c]);
    }
  }

  lemma {:induction false} NextKeeps(p: Pool, e: Event)
    requires Inv(p) && Enabled(p, e)
    ensures Inv(Next(p, e))
  {
    hide Inv;
    match e {
      case RunPool => PoolRunKeeps(p);
      case ConnectionsNeeded => PoolRunKeeps(p);
      case StopRun => StopPoolKeeps(p);
      case NodeStep(i, ok, choice, exit) => NodeStepKeeps(p, i, ok, choice, exit);
      case Get => GetKeeps(p);
      case CallStop(c) => StopCallKeeps(p, c);
      case CallResume(k) => ResumeCallKeeps(p, k);
      case Return(i, reset) => GiveBackKeeps(p, i, reset);
    }
  }

  lemma {:induction false} RunKeeps(p: Pool, es: seq<Event>)
    requires Inv(p) && ValidRun(p, es)
    ensures Inv(After(p, es))
    decreases |es|
  {
    hide Inv, Next, Enabled;
    if es != [] {
      NextKeeps(p, es[0]);
      RunKeeps(Next(p, es[0]), es[1..]);
    }
  }

  lemma {:induction false} CreatedInv(initialSize: nat, maxSize: nat)
    requires initialSize <= maxSize
    ensures Inv(Created(initialSize, maxSize))
  {
  }

  // ----- what holds of every run

  lemma {:induction false} EveryRun(initialSize: nat, maxSize: nat, es: seq<Event>)
    requires initialSize <= maxSize && ValidRun(Created(initialSize, maxSize), es)
    ensures Inv(After(Created(initialSize, maxSize), es))
  {
    hide Inv;
    CreatedInv(initialSize, maxSize);
    RunKeeps(Created(initialSize, maxSize), es);
  }

  /** No lost wake-up: while a call sleeps, every idle connection has a woken call that will
      take it; so when no woken call is left to run, no connection is idle. A stopped pool
      lets no call sleep. */
  lemma {:induction false} NoLostWakeUp(initialSize: nat, maxSize: nat, es: seq<Event>)
    requires initialSize <= maxSize && ValidRun(Created(initialSize, maxSize), es)
    ensures var p := After(Created(initialSize, maxSize), es);
      && (p.sleeping != [] ==> |p.idle| <= |p.woken|)
      && (p.sleeping != [] && p.woken == [] ==> forall i | 0 <= i < |p.nodes| :: p.nodes[i].status != Idle)
      && (p.phase == Stopped ==> p.sleeping == [])
  {
    EveryRun(initialSize, maxSize, es);
    var p := After(Created(initialSize, maxSize), es);
    hide ValidRun, After, Ownership, Calls, Served, Counters;
    forall i | 0 <= i < |p.nodes| && p.sleeping != [] && p.woken == [] ensures p.nodes[i].status != Idle {
      assert i !in p.idle;
    }
  }

  /** The shared state: the idle list is exactly the idle connections, each once; the counters
      count; the pool never exceeds its size; every call is in exactly one place; and the
      assertions of the source on the idle list, the counters and the sizes hold. */
  lemma {:induction false} SharedStateIsExact(initialSize: nat, maxSize: nat, es: seq<Event>)
    requires initialSize <= maxSize && ValidRun(Created(initialSize, maxSize), es)
    ensures var p := After(Created(initialSize, maxSize), es);
      && NoRepeats(p.idle) && (forall i: nat :: i in p.idle <==> i < |p.nodes| && p.nodes[i].status == Idle)
      && p.pendingConnections == Coming(p.nodes, false) <= |p.nodes| <= p.maxSize
      && p.pendingRequests == |p.sleeping| + |p.woken|
      && (forall c: nat :: c < p.calls <==> c in p.sleeping || c in p.woken || c in p.answers)
      && (forall c: nat ::
            !(c in p.sleeping && c in p.woken) && !(c in p.sleeping && c in p.answers) && !(c in p.woken && c in p.answers))
      && |p.nodes| + ToCreate(p.initialSize, p.maxSize, |p.nodes|, p.pendingConnections, p.pendingRequests) <= p.maxSize
      && (p.idle != [] ==> p.idle[0] < |p.nodes| && p.nodes[p.idle[0]].status == Idle)
      && (p.woken != [] ==> p.pendingRequests > 0)
  {
    EveryRun(initialSize, maxSize, es);
    var p := After(Created(initialSize, maxSize), es);
    hide ValidRun, After, Ownership, Served, Coming, Awake;
    ComingBound(p.nodes);
    if p.idle != [] {
      assert p.idle[0] in p.idle;
    }
  }

  /** Exclusive ownership: a connection is in use exactly when it is held by a call or was
      given back and not collected, never both; different connections are held by different
      calls; and a connection that was given back has the signal that gets it collected. */
  lemma {:induction false} ExclusiveOwnership(initialSize: nat, maxSize: nat, es: seq<Event>)
    requires initialSize <= maxSize && ValidRun(Created(initialSize, maxSize), es)
    ensures var p := After(Created(initialSize, maxSize), es);
      && (forall i | 0 <= i < |p.nodes| ::
            && (p.nodes[i].status == InUse <==> (p.nodes[i].holder.Some? <==> p.nodes[i].collection == NotReturned))
            && (p.nodes[i].collection != NotReturned ==> p.nodes[i].signal && p.nodes[i].holder.None?))
      && (forall i, j | 0 <= i < j < |p.nodes| && p.nodes[i].holder.Some? :: p.nodes[i].holder != p.nodes[j].holder)
  {
    EveryRun(initialSize, maxSize, es);
    var p := After(Created(initialSize, maxSize), es);
    hide ValidRun, After, IdleExactly, Served, Counters, Awake, Calls;
    assert forall i | 0 <= i < |p.nodes| :: Owned(p.nodes[i]);
  }

  /** Demand is met: unless the pool coroutine was told and has not run yet, a running pool has a
      connection getting ready for every sleeping call, or it is full. */
  lemma {:induction false} EverySleeperIsServed(initialSize: nat, maxSize: nat, es: seq<Event>)
    requires initialSize <= maxSize && ValidRun(Created(initialSize, maxSize), es)
    ensures var p := After(Created(initialSize, maxSize), es);
      p.phase == Running && !p.needed ==> |p.sleeping| <= Coming(p.nodes, true) || |p.nodes| == p.maxSize
  {
    EveryRun(initialSize, maxSize, es);
    hide ValidRun, After, IdleExactly, Counters, Awake, Calls, Ownership;
  }

  /** The call that holds a connection has it for itself: whatever happens, the connection is
      neither pinged, reset, reconnected nor handed to another call until it is given back. */
  lemma {:induction false} HeldUntilGivenBack(p: Pool, es: seq<Event>, i: nat)
    requires Inv(p) && ValidRun(p, es) && i < |p.nodes| && p.nodes[i].holder.Some?
    requires forall k | 0 <= k < |es| :: !(es[k].Return? && es[k].node == i)
    ensures var q := After(p, es);
      i < |q.nodes| && q.nodes[i].status == InUse && q.nodes[i].holder == p.nodes[i].holder
    decreases |es|
  {
    if es == [] {
      assert Owned(p.nodes[i]);
    } else {
      HeldByStep(p, es[0], i);
      NextKeeps(p, es[0]);
      hide Inv, Next, Enabled;
      assert forall k | 0 <= k < |es[1..]| :: es[1..][k] == es[k + 1];
      HeldUntilGivenBack(Next(p, es[0]), es[1..], i);
    }
  }

  lemma {:induction false} HeldByStep(p: Pool, e: Event, i: nat)
    requires Inv(p) && Enabled(p, e) && i < |p.nodes| && p.nodes[i].holder.Some?
    requires !(e.Return? && e.node == i)
    ensures var q := Next(p, e); i < |q.nodes| && q.nodes[i].holder == p.nodes[i].holder
  {
    match e {
      case NodeStep(k, ok, choice, exit) =>
        HeldByNode(p, k, ok, choice, exit);
      case Get =>
        HeldByTake(p.(calls := p.calls + 1), p.calls, i);
      case CallResume(k) =>
        HeldByTake(Leave(p, k), p.woken[k], i);
      case _ =>
    }
  }

  lemma {:induction false} HeldByNode(p: Pool, k: nat, ok: bool, choice: nat, exit: bool)
    requires k < |p.nodes|
    ensures var q := StepNode(p, k, ok, choice, exit);
      |q.nodes| == |p.nodes| && forall i | 0 <= i < |p.nodes| :: q.nodes[i].holder == p.nodes[i].holder
  {
    hide SetStatus, NextStatus;
    var p1, s := p.(nodes := p.nodes[k := Taken(p.nodes[k])]), NextStatus(p.nodes[k].status, ok, p.nodes[k].collection);
    SetStatusNodes(p1, k, s, choice);
    SetStatusNodes(SetStatus(p1, k, s, choice), k, Idle, choice);
  }

  lemma {:induction false} HeldByTake(p: Pool, c: nat, i: nat)
    requires i < |p.nodes| && Owned(p.nodes[i]) && p.nodes[i].holder.Some? && IdleExactly(p)
    ensures match Take(p, c)
      case Some(q) => i < |q.nodes| && q.nodes[i].holder == p.nodes[i].holder
      case None => true
  {
    hide SetStatus;
    if p.idle != [] {
      assert p.idle[0] in p.idle;
      SetStatusNodes(p, p.idle[0], InUse, 0);
    }
  }

  /** A connection that is given back is idle and listed again after the next step of its
      coroutine, reset or not, unless the coroutine exits; that step is possible exactly if the
      coroutine has not exited before. */
  lemma {:induction false} GivenBackBecomesIdle(p: Pool, i: nat, reset: bool, ok: bool, choice: nat)
    requires Inv(p) && i < |p.nodes| && p.nodes[i].holder.Some?
    ensures var q0 := GiveBack(p, i, reset); var q := StepNode(q0, i, ok, choice, false);
      && (Enabled(q0, NodeStep(i, ok, choice, false)) <==> !p.nodes[i].finished)
      && Inv(q) && i < |q.nodes| && q.nodes[i].status == Idle && i in q.idle && q.nodes[i].holder == None
  {
    assert Owned(p.nodes[i]);
    GiveBackKeeps(p, i, reset);
    var q0 := GiveBack(p, i, reset);
    NodeStepKeeps(q0, i, ok, choice, false);
    CollectedStatus(q0, i, ok, choice);
    hide SetStatus, StepNode, Ownership, Calls, Served, Counters, Awake;
  }

  lemma {:induction false} CollectedStatus(p: Pool, i: nat, ok: bool, choice: nat)
    requires i < |p.nodes| && p.nodes[i].status == InUse && p.nodes[i].collection != NotReturned
    ensures var q := StepNode(p, i, ok, choice, false);
      |q.nodes| == |p.nodes| && q.nodes[i].status == Idle && q.nodes[i].holder == p.nodes[i].holder
  {
    hide SetStatus;
    var p1, s := p.(nodes := p.nodes[i := Taken(p.nodes[i])]), NextStatus(InUse, ok, p.nodes[i].collection);
    SetStatusNodes(p1, i, s, choice);
    SetStatusNodes(SetStatus(p1, i, s, choice), i, Idle, choice);
  }

  // ----- such runs exist

  /** A pool of at most one connection, with one node and one call. */
  function Single(n: Node, idle: seq<nat>, pendingConnections: int, pendingRequests: int, needed: bool, sleeping: seq<nat>,
      woken: seq<nat>, answers: map<nat, Answer>): Pool
  {
    Pool(1, 1, Running, [n], idle, pendingConnections, pendingRequests, needed, 1, sleeping, woken, {}, answers)
  }

  lemma {:induction false} Prepend(p: Pool, e: Event, es: seq<Event>)
    requires Enabled(p, e) && ValidRun(Next(p, e), es)
    ensures ValidRun(p, [e] + es) && After(p, [e] + es) == After(Next(p, e), es)
  {
    hide Next, Enabled;
    assert ([e] + es)[1..] == es;
  }

  /** The definitions are not empty: a call finds no connection and sleeps; the connection that
      the pool created connects and wakes it; and it is handed out. */
  lemma {:induction false} SomeRun()
    ensures var step := NodeStep(0, true, 0, false);
      var es := [RunPool] + ([Get] + ([step] + ([step] + ([CallResume(0)] + []))));
      && ValidRun(Created(1, 1), es)
      && After(Created(1, 1), es).answers == map[0 := Got(0)]
      && After(Created(1, 1), es).nodes == [Node(InUse, NotReturned, false, Some(0), false)]
  {
    var step := NodeStep(0, true, 0, false);
    Sleeps();
    Connects();
    Resumes();
    var p1 := Next(Created(1, 1), RunPool);
    var p2, p3, p4 := Next(p1, Get), Connecting, Connected;
    hide Next, Enabled, Single;
    Prepend(p4, CallResume(0), []);
    Prepend(p3, step, [CallResume(0)] + []);
    Prepend(p2, step, [step] + ([CallResume(0)] + []));
    Prepend(p1, Get, [step] + ([step] + ([CallResume(0)] + [])));
    Prepend(Created(1, 1), RunPool, [Get] + ([step] + ([step] + ([CallResume(0)] + []))));
  }

  /** The pool of that run when its connection is being made, and when it is there. */
  const Connecting: Pool := Single(Fresh.(status := ConnectInProgress), [], 1, 1, true, [0], [], map[])
  const Connected: Pool := Single(Fresh.(status := Idle), [0], 0, 1, true, [], [0], map[])

  lemma {:induction false} Sleeps()
    ensures Enabled(Created(1, 1), RunPool)
    ensures var p1 := Next(Created(1, 1), RunPool);
      Enabled(p1, Get) && Next(p1, Get) == Single(Fresh, [], 0, 1, true, [0], [], map[])
  {
    var p1 := Next(Created(1, 1), RunPool);
    assert p1.nodes == [Fresh];
  }

  lemma {:induction false} Connects()
    ensures var step := NodeStep(0, true, 0, false); var p := Single(Fresh, [], 0, 1, true, [0], [], map[]);
      && Enabled(p, step) && Next(p, step) == Connecting
      && Enabled(Connecting, step) && Next(Connecting, step) == Connected
  {
  }

  lemma {:induction false} Resumes()
    ensures Enabled(Connected, CallResume(0)) && Next(Connected, CallResume(0)).answers == map[0 := Got(0)]
    ensures Next(Connected, CallResume(0)).nodes == [Node(InUse, NotReturned, false, Some(0), false)]
  {
  }

  // ----- the pool, updated in place

  /** The methods follow the functions above. */
  class SharedPool {
    const initialSize: nat
    const maxSize: nat
    var phase: Phase
    var nodes: seq<Node>
    var idle: seq<nat>
    var pendingConnections: int
    var pendingRequests: int
    var needed: bool
    var calls: nat
    var sleeping: seq<nat>
    var woken: seq<nat>
    var stopRequested: set<nat>
    var answers: map<nat, Answer>

    ghost function State(): Pool
      reads this
    {
      Pool(initialSize, maxSize, phase, nodes, idle, pendingConnections, pendingRequests, needed, calls, sleeping, woken,
        stopRequested, answers)
    }

    constructor (initialSize: nat, maxSize: nat)
      requires initialSize <= maxSize
      ensures State() == Created(initialSize, maxSize) && Inv(State())
    {
      this.initialSize, this.maxSize := initialSize, maxSize;
      phase, nodes, idle, pendingConnections, pendingRequests, needed := NotRunning, [], [], 0, 0, false;
      calls, sleeping, woken, stopRequested, answers := 0, [], [], {}, map[];
      new;
      CreatedInv(initialSize, maxSize);
    }

    /** The hook of a connection that becomes idle; some sleeping call is woken. */
    method EnteringIdle(i: nat, choice: nat)
      modifies this`idle, this`sleeping, this`woken
      ensures State() == EnterIdle(old(State()), i, choice)
    {
      idle := idle + [i];
      if sleeping != [] {
        var k := if choice < |sleeping| then choice else 0;
        woken := woken + [sleeping[k]];
        sleeping := sleeping[..k] + sleeping[k + 1..];
      }
    }

    method ChangeStatus(i: nat, s: Status, choice: nat)
      requires i < |nodes|
      modifies this`idle, this`sleeping, this`woken, this`pendingConnections, this`nodes
      ensures State() == SetStatus(old(State()), i, s, choice)
    {
      hide EnterIdle, Remove, WakeOne;
      var was := nodes[i].status;
      if s == Idle && was != Idle {
        EnteringIdle(i, choice);
      } else if s != Idle && was == Idle {
        idle := Remove(idle, i);
      }
      if !IsPending(was) && IsPending(s) {
        pendingConnections := pendingConnections + 1;
      } else if IsPending(was) && !IsPending(s) {
        pendingConnections := pendingConnections - 1;
      }
      nodes := nodes[i := nodes[i].(status := s)];
    }

    /** The coroutine of connection i runs up to its next wait. */
    method RunNode(i: nat, ok: bool, choice: nat, exit: bool) returns (action: Option<Action>)
      requires Inv(State()) && Enabled(State(), NodeStep(i, ok, choice, exit))
      modifies this
      ensures Inv(State()) && State() == StepNode(old(State()), i, ok, choice, exit)
      ensures i < |nodes| && action == ActionOf(nodes[i].status)
    {
      NodeStepKeeps(State(), i, ok, choice, exit);
      hide Inv, SetStatus, NextStatus;
      var n := nodes[i];
      SetStatusNodes(State().(nodes := nodes[i := Taken(n)]), i, NextStatus(n.status, ok, n.collection), choice);
      nodes := nodes[i := Taken(n)];
      ChangeStatus(i, NextStatus(n.status, ok, n.collection), choice);
      if exit {
        nodes := nodes[i := nodes[i].(finished := true)];
      } else if nodes[i].status == ResetInProgress {
        ChangeStatus(i, Idle, choice);
      }
      action := ActionOf(nodes[i].status);
    }

    method MarkAsCollectable(i: nat, reset: bool)
      requires Inv(State()) && Enabled(State(), Return(i, reset))
      modifies this`nodes
      ensures Inv(State()) && State() == GiveBack(old(State()), i, reset)
    {
      GiveBackKeeps(State(), i, reset);
      hide Inv;
      var collection := if reset then NeedsCollectWithReset else NeedsCollect;
      nodes := nodes[i := nodes[i].(collection := collection, signal := true, holder := None)];
    }

    method Populate()
      modifies this`nodes
      ensures State() == CreateConnections(old(State()))
    {
      var n := ToCreate(initialSize, maxSize, |nodes|, pendingConnections, pendingRequests);
      var k := 0;
      while k < n
        invariant k >= 0 && (n >= 0 ==> k <= n) && (n < 0 ==> k == 0)
        invariant nodes == old(nodes) + FreshNodes(k)
      {
        nodes := nodes + [Fresh];
        k := k + 1;
      }
      assert FreshNodes(n) == FreshNodes(k);
    }

    /** The pool coroutine starts, or goes on because connections are needed. */
    method StartPool()
      requires Inv(State()) && Enabled(State(), RunPool)
      modifies this
      ensures Inv(State()) && State() == Start(old(State()))
    {
      PoolRunKeeps(State());
      hide Inv, CreateConnections;
      phase := Running;
      Populate();
    }

    method GrowPool()
      requires Inv(State()) && Enabled(State(), ConnectionsNeeded)
      modifies this
      ensures Inv(State()) && State() == Grow(old(State()))
    {
      PoolRunKeeps(State());
      hide Inv, CreateConnections;
      needed := false;
      Populate();
    }

    method CancelPool()
      requires Inv(State()) && Enabled(State(), StopRun)
      modifies this
      ensures Inv(State()) && State() == StopPool(old(State()))
    {
      StopPoolKeeps(State());
      hide Inv;
      phase := Stopped;
      woken := woken + sleeping;
      sleeping := [];
    }

    method TryTake(c: nat) returns (node: Option<nat>)
      requires IdleExactly(State())
      modifies this
      ensures match Take(old(State()), c)
        case Some(q) => node == Some(old(idle)[0]) && State() == q
        case None => node == None && State() == old(State())
    {
      if idle == [] {
        return None;
      }
      var i := idle[0];
      assert i in idle;
      SetStatusNodes(State(), i, InUse, 0);
      hide SetStatus;
      ChangeStatus(i, InUse, 0);
      nodes := nodes[i := nodes[i].(holder := Some(c))];
      answers := answers[c := Got(i)];
      return Some(i);
    }

    method ProceedCall(c: nat, stop: bool)
      requires IdleExactly(State())
      modifies this
      ensures State() == Proceed(old(State()), c, stop)
    {
      hide IdleExactly;
      if phase == Stopped {
        answers := answers[c := Failed];
        return;
      }
      var node := TryTake(c);
      if node.None? {
        if stop {
          answers := answers[c := Failed];
        } else {
          pendingRequests := pendingRequests + 1;
          needed := true;
          sleeping := sleeping + [c];
        }
      }
    }

    method StartCall() returns (c: nat)
      requires Inv(State())
      modifies this
      ensures Inv(State()) && State() == GetConnection(old(State())) && c == old(calls)
    {
      hide Proceed, Inv, Going, IdleExactly;
      GetKeeps(State());
      NewCallGoes(State());
      c := calls;
      calls := calls + 1;
      GoingIdle(State(), c);
      ProceedCall(c, false);
    }

    method GoOn(k: nat)
      requires Inv(State()) && Enabled(State(), CallResume(k))
      modifies this
      ensures Inv(State()) && State() == ResumeCall(old(State()), k)
    {
      hide Proceed, Inv, Going, IdleExactly;
      ResumeCallKeeps(State(), k);
      LeavingGoes(State(), k);
      var c := woken[k];
      woken := woken[..k] + woken[k + 1..];
      pendingRequests := pendingRequests - 1;
      GoingIdle(State(), c);
      ProceedCall(c, c in stopRequested);
    }

    method RequestStop(c: nat)
      requires Inv(State()) && Enabled(State(), CallStop(c))
      modifies this
      ensures Inv(State()) && State() == StopCall(old(State()), c)
    {
      StopCallKeeps(State(), c);
      hide Inv, Remove;
      stopRequested := stopRequested + {c};
      if c in sleeping {
        sleeping := Remove(sleeping, c);
        woken := woken + [c];
      }
    }
  }
}
