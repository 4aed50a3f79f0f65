/** The queue of notification events of a multiplexed connection, and its backpressure
    (src/nativepg_internal/notification_queue.hpp). */
module NotificationQueue {

  datatype Event =
    | Notify(pid: int, channel: string, payload: string)
    | Connect
    | Disconnect

  /** The queue and its two event flags: something to read, and room for notifications. */
  datatype Queue = Queue(maxPending: nat, pending: seq<Event>, eventsAvailable: bool, spaceAvailable: bool)

  predicate HasSpace(q: Queue) {
    |q.pending| < q.maxPending
  }

  function AddEvent(q: Queue, e: Event): Queue {
    var r := q.(pending := q.pending + [e]);
    r.(spaceAvailable := if HasSpace(r) then q.spaceAvailable else false, eventsAvailable := true)
  }

  /** A disconnect undoes a connect that nobody has read. */
  function AddDisconnect(q: Queue): Queue {
    if q.pending != [] && q.pending[|q.pending| - 1] == Connect then
      var r := q.(pending := q.pending[..|q.pending| - 1]);
      r.(spaceAvailable := if HasSpace(r) then true else q.spaceAvailable,
         eventsAvailable := if r.pending == [] then false else q.eventsAvailable)
    else AddEvent(q, Disconnect)
  }

  function ReadEvents(q: Queue): Queue {
    q.(pending := [], eventsAvailable := false, spaceAvailable := true)
  }

  /** The flags say what they are for. */
  predicate Valid(q: Queue) {
    && q.maxPending > 0
    && (q.eventsAvailable <==> q.pending != [])
    && (q.spaceAvailable <==> HasSpace(q))
  }

  // ----- runs

  /** What the connection and the reader do. A notification waits while there is no room, and
      a reader waits while there is nothing to read. */
  datatype Op = Connected | Lost | Notified(note: Event) | Read

  /** The queue, whether the connection is up, the notifications accepted, and the events
      read. */
  datatype World = World(queue: Queue, up: bool, accepted: seq<Event>, output: seq<Event>)

  predicate Enabled(w: World, op: Op) {
    match op
    case Connected => true
    case Lost => true
    case Notified(note) => note.Notify? && HasSpace(w.queue)
    case Read => w.queue.pending != []
  }

  function Next(w: World, op: Op): World {
    match op
    case Connected => w.(queue := AddEvent(w.queue, Connect), up := true)
    case Lost => w.(queue := AddDisconnect(w.queue), up := false)
    case Notified(note) => w.(queue := AddEvent(w.queue, note), accepted := w.accepted + [note])
    case Read => w.(queue := ReadEvents(w.queue), output := w.output + w.queue.pending)
  }

  predicate ValidRun(w: World, ops: seq<Op>)
    decreases |ops|
  {
    ops == [] || (Enabled(w, ops[0]) && ValidRun(Next(w, ops[0]), ops[1..]))
  }

  function After(w: World, ops: seq<Op>): World
    decreases |ops|
  {
    if ops == [] then w else After(Next(w, ops[0]), ops[1..])
  }

  /** Connects and disconnects alternate. */
  predicate Alternates(up: bool, ops: seq<Op>)
    decreases |ops|
  {
    ops == [] ||
    match ops[0]
    case Connected => !up && Alternates(true, ops[1..])
    case Lost => up && Alternates(false, ops[1..])
    case _ => Alternates(up, ops[1..])
  }

  function Start(maxPending: nat): World {
    World(Queue(maxPending, [], false, true), false, [], [])
  }

  function Notifications(es: seq<Event>): seq<Event> {
    if es == [] then []
    else Notifications(es[..|es| - 1]) + var last := es[|es| - 1]; if last.Notify? then [last] else []
  }

  lemma {:induction false} NotificationsAppend(es: seq<Event>, fs: seq<Event>)
    ensures Notifications(es + fs) == Notifications(es) + Notifications(fs)
    decreases |fs|
  {
    if fs == [] {
      assert es + fs == es;
    } else {
      var last := |fs| - 1;
      assert (es + fs)[..|es + fs| - 1] == es + fs[..last];
      NotificationsAppend(es, fs[..last]);
    }
  }

  /** Every accepted notification was read or is pending, once and in order. */
  predicate Conserved(w: World) {
    Notifications(w.output) + Notifications(w.queue.pending) == w.accepted
  }

  lemma {:induction false} NotificationsOne(es: seq<Event>, e: Event)
    ensures Notifications(es + [e]) == Notifications(es) + if e.Notify? then [e] else []
    ensures Notifications([]) == []
  {
    assert (es + [e])[..|es|] == es;
  }

  lemma {:induction false} NextConserves(w: World, op: Op)
    requires Valid(w.queue) && Conserved(w) && Enabled(w, op)
    ensures Valid(Next(w, op).queue) && Conserved(Next(w, op))
  {
    hide Notifications;
    var pending := w.queue.pending;
    NotificationsOne(pending, Connect);
    NotificationsOne(pending, Disconnect);
    match op {
      case Read =>
        NotificationsAppend(w.output, pending);
      case Notified(note) =>
        NotificationsOne(pending, note);
        assert Notifications(w.output) + (Notifications(pending) + [note]) == w.accepted + [note];
      case Lost =>
        if pending != [] && pending[|pending| - 1] == Connect {
          var init := pending[..|pending| - 1];
          assert pending == init + [Connect];
          NotificationsOne(init, Connect);
        }
      case Connected =>
    }
  }

  lemma {:induction false} RunConserves(w: World, ops: seq<Op>)
    requires Valid(w.queue) && Conserved(w) && ValidRun(w, ops)
    ensures Valid(After(w, ops).queue) && Conserved(After(w, ops))
    decreases |ops|
  {
    hide Valid, Conserved, Next;
    if ops != [] {
      NextConserves(w, ops[0]);
      RunConserves(Next(w, ops[0]), ops[1..]);
    }
  }

  /** In every run the flags mirror the queue, and each accepted notification is read exactly
      once and in order, or is still pending. */
  lemma {:induction false} EveryNotificationIsReadOnce(maxPending: nat, ops: seq<Op>)
    requires maxPending > 0 && ValidRun(Start(maxPending), ops)
    ensures var w := After(Start(maxPending), ops);
      && (w.queue.eventsAvailable <==> w.queue.pending != [])
      && (w.queue.spaceAvailable <==> |w.queue.pending| < w.queue.maxPending)
      && Notifications(w.output) + Notifications(w.queue.pending) == w.accepted
  {
    RunConserves(Start(maxPending), ops);
  }

  // ----- connects and disconnects

  function Links(es: seq<Event>): seq<Event> {
    if es == [] then []
    else Links(es[..|es| - 1]) + var last := es[|es| - 1]; if last.Notify? then [] else [last]
  }

  lemma {:induction false} LinksOne(es: seq<Event>, e: Event)
    ensures Links(es + [e]) == Links(es) + if e.Notify? then [] else [e]
  {
    assert (es + [e])[..|es|] == es;
  }

  /** A connect, a disconnect, a connect and so on; the connection is up exactly after a connect. */
  predicate InTurn(ls: seq<Event>, up: bool) {
    && (forall i | 0 <= i < |ls| :: ls[i] == if i % 2 == 0 then Connect else Disconnect)
    && (up <==> |ls| % 2 == 1)
  }

  lemma {:induction false} NextInTurn(w: World, op: Op)
    requires InTurn(Links(w.output + w.queue.pending), w.up) && Enabled(w, op) && Alternates(w.up, [op])
    ensures var v := Next(w, op); InTurn(Links(v.output + v.queue.pending), v.up)
  {
    hide Links;
    var pending := w.queue.pending;
    var all := w.output + pending;
    LinksOne(all, Connect);
    LinksOne(all, Disconnect);
    match op {
      case Read => assert all + [] == all;
      case Connected => assert w.output + (pending + [Connect]) == all + [Connect];
      case Notified(note) =>
        LinksOne(all, note);
        assert w.output + (pending + [note]) == all + [note];
        assert Links(all) + [] == Links(all);
      case Lost =>
        if pending != [] && pending[|pending| - 1] == Connect {
          var init := pending[..|pending| - 1];
          assert all == (w.output + init) + [Connect];
          LinksOne(w.output + init, Connect);
          var ls := Links(w.output + init);
          assert forall i | 0 <= i < |ls| :: ls[i] == Links(all)[i];
        } else {
          assert w.output + (pending + [Disconnect]) == all + [Disconnect];
        }
    }
  }

  lemma {:induction false} RunInTurn(w: World, ops: seq<Op>)
    requires InTurn(Links(w.output + w.queue.pending), w.up) && ValidRun(w, ops) && Alternates(w.up, ops)
    ensures var v := After(w, ops); InTurn(Links(v.output + v.queue.pending), v.up)
    decreases |ops|
  {
    hide InTurn, Links, Next;
    if ops != [] {
      FirstAlternates(w.up, ops);
      NextInTurn(w, ops[0]);
      StillUp(w, ops);
      RunInTurn(Next(w, ops[0]), ops[1..]);
    }
  }

  lemma {:induction false} FirstAlternates(up: bool, ops: seq<Op>)
    requires ops != [] && Alternates(up, ops)
    ensures Alternates(up, [ops[0]])
  {
    assert [ops[0]][1..] == [];
  }

  lemma {:induction false} StillUp(w: World, ops: seq<Op>)
    requires ops != [] && Alternates(w.up, ops)
    ensures Alternates(Next(w, ops[0]).up, ops[1..])
  {
  }

  /** In every run in which connects and disconnects alternate, so do those that are read or pending,
      whatever was undone, and the last of them says whether the connection is up. */
  lemma {:induction false} LinksInTurn(maxPending: nat, ops: seq<Op>)
    requires ValidRun(Start(maxPending), ops) && Alternates(false, ops)
    ensures var w := After(Start(maxPending), ops); InTurn(Links(w.output + w.queue.pending), w.up)
  {
    RunInTurn(Start(maxPending), ops);
  }

  // ----- the bound

  predicate Ends(es: seq<Event>, e: Event) {
    es != [] && es[|es| - 1] == e
  }

  /** Beyond the maximum there are at most a disconnect and a connect. */
  predicate Bounded(w: World) {
    var es, max := w.queue.pending, w.queue.maxPending;
    && |es| <= max + 2
    && (|es| == max + 2 ==> w.up && Ends(es, Connect) && es[|es| - 2] == Disconnect)
    && (|es| == max + 1 ==> Ends(es, if w.up then Connect else Disconnect))
  }

  lemma {:induction false} RunBounded(w: World, ops: seq<Op>)
    requires Bounded(w) && ValidRun(w, ops) && Alternates(w.up, ops)
    ensures Bounded(After(w, ops)) && After(w, ops).queue.maxPending == w.queue.maxPending
    decreases |ops|
  {
    if ops != [] {
      assert Bounded(Next(w, ops[0]));
      RunBounded(Next(w, ops[0]), ops[1..]);
    }
  }

  /** However long nobody reads, the queue never exceeds the maximum by more than two, if
      connects and disconnects alternate. */
  lemma {:induction false} QueueIsBounded(maxPending: nat, ops: seq<Op>)
    requires maxPending > 0 && ValidRun(Start(maxPending), ops) && Alternates(false, ops)
    ensures |After(Start(maxPending), ops).queue.pending| <= maxPending + 2
  {
    RunBounded(Start(maxPending), ops);
  }

  function Notes(n: nat): seq<Op> {
    if n == 0 then [] else [Notified(Notify(0, "", ""))] + Notes(n - 1)
  }

  /** The bound is reached: fill the queue, lose the connection, and connect again. */
  lemma {:induction false} BoundIsReached(maxPending: nat)
    requires maxPending > 0
    ensures var ops := [Connected, Read] + (Notes(maxPending) + [Lost, Connected]);
      && ValidRun(Start(maxPending), ops) && Alternates(false, ops)
      && |After(Start(maxPending), ops).queue.pending| == maxPending + 2
  {
    var w0 := Start(maxPending);
    var w1 := Next(w0, Connected);
    var w2 := Next(w1, Read);
    var rest := Notes(maxPending) + [Lost, Connected];
    var ops := [Connected, Read] + rest;
    assert ops[1..] == [Read] + rest && ([Read] + rest)[1..] == rest;
    assert ValidRun(w2, rest) && Alternates(true, rest) && |After(w2, rest).queue.pending| == maxPending + 2 by {
      Filled(w2, maxPending);
    }
    assert ValidRun(w1, [Read] + rest) && Alternates(true, [Read] + rest);
    assert After(w1, [Read] + rest) == After(w2, rest);
  }

  lemma {:induction false} Filled(w: World, n: nat)
    requires w.up && |w.queue.pending| + n == w.queue.maxPending
    requires if w.queue.pending == [] then n > 0 else w.queue.pending[|w.queue.pending| - 1].Notify?
    ensures var ops := Notes(n) + [Lost, Connected];
      ValidRun(w, ops) && Alternates(true, ops) && |After(w, ops).queue.pending| == w.queue.maxPending + 2
    decreases n
  {
    var ops := Notes(n) + [Lost, Connected];
    if n == 0 {
      assert ops == [Lost, Connected] && ops[1..] == [Connected] && [Connected][1..] == [];
      var w1 := Next(w, Lost);
      assert ValidRun(w1, [Connected]) && Alternates(false, [Connected]);
    } else {
      assert ops[1..] == Notes(n - 1) + [Lost, Connected];
      Filled(Next(w, ops[0]), n - 1);
    }
  }

  // ----- the queue, updated in place

  class EventQueue {
    const maxPending: nat
    var pending: seq<Event>
    var eventsAvailable: bool
    var spaceAvailable: bool

    ghost function State(): Queue
      reads this
    {
      Queue(maxPending, pending, eventsAvailable, spaceAvailable)
    }

    constructor (maxPending: nat)
      requires maxPending > 0
      ensures State() == Queue(maxPending, [], false, true) && Valid(State())
    {
      this.maxPending := maxPending;
      pending, eventsAvailable, spaceAvailable := [], false, true;
    }

    method Push(e: Event)
      requires Valid(State())
      modifies this
      ensures State() == AddEvent(old(State()), e) && Valid(State())
    {
      pending := pending + [e];
      if |pending| >= maxPending {
        spaceAvailable := false;
      }
      eventsAvailable := true;
    }

    method PushDisconnect()
      requires Valid(State())
      modifies this
      ensures State() == AddDisconnect(old(State())) && Valid(State())
    {
      if pending != [] && pending[|pending| - 1] == Connect {
        pending := pending[..|pending| - 1];
        if |pending| < maxPending {
          spaceAvailable := true;
        }
        if pending == [] {
          eventsAvailable := false;
        }
      } else {
        Push(Disconnect);
      }
    }

    /** try_add_notify: refused while there is no room. */
    method TryNotify(note: Event) returns (ok: bool)
      requires Valid(State()) && note.Notify?
      modifies this
      ensures ok <==> HasSpace(old(State()))
      ensures State() == (if ok then AddEvent(old(State()), note) else old(State())) && Valid(State())
    {
      if |pending| >= maxPending {
        return false;
      }
      Push(note);
      return true;
    }

    /** read_events, once there is something to read: everything, in order. */
    method TakeEvents() returns (output: seq<Event>)
      requires Valid(State()) && eventsAvailable
      modifies this
      ensures output == old(pending) && output != []
      ensures State() == ReadEvents(old(State())) && Valid(State())
    {
      output := pending;
      pending, eventsAvailable, spaceAvailable := [], false, true;
    }
  }
}
