/** The reader of a shared connection (src/co_multiplexed_connection.cpp): bytes to messages to
    the queue of requests, for every way the bytes may arrive; and what is left in the buffer
    for the next connection. */
module Reader {
  import opened Messages
  import opened ReadBuffer
  import opened ByteStream
  import opened CopyLoop
  import opened Multiplexer
  import D = Demultiplexing
  import A = AnyServer

  /** Why the reader stops: it needs more bytes, a message is malformed, the queue reports an
      error, or an assertion of the queue fails. */
  datatype Stop = Hungry | BadMessage(why: ClientError) | Refused(error: ClientError) | AssertionFailed

  /** What the reader did: the queue and its effects, the notifications it handed on, and the
      bytes behind the last message it took. */
  datatype Pumped = Pumped(stop: Stop, mux: Mux, effects: seq<Effect>, notices: seq<BackendMessage>, rest: Text)

  /** The reader on bytes that are all there. */
  function Pump(x: Mux, bytes: Text, body: BodyParser): Pumped
    decreases |bytes|
  {
    match ParseMessage(bytes, body)
    case NeedsMore(_) => Pumped(Hungry, x, [], [], bytes)
    case Broken(e) => Pumped(BadMessage(e), x, [], [], bytes)
    case Complete(m, size) =>
      if m.kind == NotificationResponse then Behind([], [m], Pump(x, bytes[size..], body))
      else
        var o := OnMessage(x, m);
        if o.fault then Pumped(AssertionFailed, o.mux, o.effects, [], bytes[size..])
        else if o.error.Some? then Pumped(Refused(o.error.value), o.mux, o.effects, [], bytes[size..])
        else Behind(o.effects, [], Pump(o.mux, bytes[size..], body))
  }

  /** What was done before, and then what is done. */
  function Behind(effects: seq<Effect>, notices: seq<BackendMessage>, p: Pumped): Pumped {
    p.(effects := effects + p.effects, notices := notices + p.notices)
  }

  /** More bytes: a reader that stopped stays where it is, and a hungry one goes on. */
  function GoOn(p: Pumped, more: Text, body: BodyParser): Pumped {
    if p.stop == Hungry then Behind(p.effects, p.notices, Pump(p.mux, p.rest + more, body)) else p.(rest := p.rest + more)
  }

  lemma {:induction false} BehindTwice(e: seq<Effect>, n: seq<BackendMessage>, e': seq<Effect>, n': seq<BackendMessage>, p: Pumped)
    ensures Behind(e, n, Behind(e', n', p)) == Behind(e + e', n + n', p)
    ensures Behind([], [], p) == p
  {
    assert e + (e' + p.effects) == e + e' + p.effects;
    assert n + (n' + p.notices) == n + n' + p.notices;
    assert [] + p.effects == p.effects && [] + p.notices == p.notices;
  }

  lemma {:induction false} GoOnBehind(e: seq<Effect>, n: seq<BackendMessage>, p: Pumped, more: Text, body: BodyParser)
    ensures GoOn(Behind(e, n, p), more, body) == Behind(e, n, GoOn(p, more, body))
  {
    hide Pump;
    if p.stop == Hungry {
      BehindTwice(e, n, p.effects, p.notices, Pump(p.mux, p.rest + more, body));
    }
  }

  /** Chunking does not matter to the queue: what a stream does to it is what its first part
      does, continued with the rest, wherever it is cut. */
  lemma {:induction false} PumpAppend(x: Mux, bytes: Text, more: Text, body: BodyParser)
    ensures Pump(x, bytes + more, body) == GoOn(Pump(x, bytes, body), more, body)
    decreases |bytes|
  {
    ParseStable(bytes, more, body);
    hide ParseMessage, OnMessage, Behind, GoOn;
    PumpStep(x, bytes, body);
    var p := ParseMessage(bytes, body);
    match p {
      case NeedsMore(_) => HungryGoesOn(x, bytes, more, body);
      case Broken(e) =>
        PumpStep(x, bytes + more, body);
        StoppedStays(Pump(x, bytes, body), more, body);
      case Complete(m, size) =>
        PumpStep(x, bytes + more, body);
        assert (bytes + more)[size..] == bytes[size..] + more;
        var o := OnMessage(x, m);
        if m.kind == NotificationResponse {
          PumpAppend(x, bytes[size..], more, body);
          GoOnBehind([], [m], Pump(x, bytes[size..], body), more, body);
        } else if o.fault || o.error.Some? {
          StoppedStays(Pump(x, bytes, body), more, body);
        } else {
          PumpAppend(o.mux, bytes[size..], more, body);
          GoOnBehind(o.effects, [], Pump(o.mux, bytes[size..], body), more, body);
        }
    }
  }

  lemma {:induction false} StoppedStays(p: Pumped, more: Text, body: BodyParser)
    requires p.stop != Hungry
    ensures GoOn(p, more, body) == p.(rest := p.rest + more)
  {
  }

  lemma {:induction false} HungryGoesOn(x: Mux, bytes: Text, more: Text, body: BodyParser)
    ensures GoOn(Pumped(Hungry, x, [], [], bytes), more, body) == Pump(x, bytes + more, body)
  {
    hide Pump;
    BehindTwice([], [], [], [], Pump(x, bytes + more, body));
  }

  lemma {:induction false} PumpStep(x: Mux, bytes: Text, body: BodyParser)
    ensures Pump(x, bytes, body) ==
      match ParseMessage(bytes, body)
      case NeedsMore(_) => Pumped(Hungry, x, [], [], bytes)
      case Broken(e) => Pumped(BadMessage(e), x, [], [], bytes)
      case Complete(m, size) =>
        if m.kind == NotificationResponse then Behind([], [m], Pump(x, bytes[size..], body))
        else
          var o := OnMessage(x, m);
          if o.fault then Pumped(AssertionFailed, o.mux, o.effects, [], bytes[size..])
          else if o.error.Some? then Pumped(Refused(o.error.value), o.mux, o.effects, [], bytes[size..])
          else Behind(o.effects, [], Pump(o.mux, bytes[size..], body))
  {
    hide ParseMessage, OnMessage, Behind;
  }

  /** The queue after some messages, when it is asked to handle each of them. */
  function MuxAfter(x: Mux, ms: seq<BackendMessage>): Mux {
    if ms == [] then x else OnMessage(MuxAfter(x, ms[..|ms| - 1]), ms[|ms| - 1]).mux
  }

  /** What it did on the way. */
  function EffectsAfter(x: Mux, ms: seq<BackendMessage>): seq<Effect> {
    if ms == [] then []
    else
      var init := ms[..|ms| - 1];
      EffectsAfter(x, init) + OnMessage(MuxAfter(x, init), ms[|ms| - 1]).effects
  }

  lemma {:induction false} EffectsHead(x: Mux, m: BackendMessage, ms: seq<BackendMessage>)
    ensures EffectsAfter(x, [m] + ms) == OnMessage(x, m).effects + EffectsAfter(OnMessage(x, m).mux, ms)
    decreases |ms|
  {
    hide OnMessage, MuxAfter;
    var all := [m] + ms;
    NoMessages(x);
    if ms == [] {
      assert all == [m] && all[..0] == [];
      assert [] + OnMessage(x, m).effects == OnMessage(x, m).effects + [];
    } else {
      var last := |ms| - 1;
      assert all[..|all| - 1] == [m] + ms[..last] && all[|all| - 1] == ms[last];
      EffectsHead(x, m, ms[..last]);
      MuxHead(x, m, ms[..last]);
      var a, b := OnMessage(x, m).effects, EffectsAfter(OnMessage(x, m).mux, ms[..last]);
      var c := OnMessage(MuxAfter(OnMessage(x, m).mux, ms[..last]), ms[last]).effects;
      assert a + b + c == a + (b + c);
    }
  }

  /** The message at k is refused by the queue, or fails an assertion of it. */
  predicate RefusedAt(x: Mux, ms: seq<BackendMessage>, k: nat) {
    k < |ms| && ms[k].kind != NotificationResponse &&
    var o := OnMessage(MuxAfter(x, ms[..k]), ms[k]); o.fault || o.error.Some?
  }

  function Notifications(ms: seq<BackendMessage>): seq<BackendMessage> {
    if ms == [] then []
    else (if ms[0].kind == NotificationResponse then [ms[0]] else []) + Notifications(ms[1..])
  }

  lemma {:induction false} MuxHead(x: Mux, m: BackendMessage, ms: seq<BackendMessage>)
    ensures MuxAfter(x, [m] + ms) == MuxAfter(OnMessage(x, m).mux, ms)
    decreases |ms|
  {
    hide OnMessage;
    var all := [m] + ms;
    if ms == [] {
      assert all[..0] == [] && all == [m];
      assert MuxAfter(x, []) == x;
    } else {
      var last := |ms| - 1;
      assert all[..|all| - 1] == [m] + ms[..last] && all[|all| - 1] == ms[last];
      MuxHead(x, m, ms[..last]);
    }
  }

  lemma {:induction false} RefusedHead(x: Mux, m: BackendMessage, ms: seq<BackendMessage>, k: nat)
    ensures RefusedAt(x, [m] + ms, k + 1) <==> RefusedAt(OnMessage(x, m).mux, ms, k)
    ensures RefusedAt(x, [m] + ms, 0) <==> m.kind != NotificationResponse && (OnMessage(x, m).fault || OnMessage(x, m).error.Some?)
  {
    hide OnMessage, MuxAfter;
    var all := [m] + ms;
    assert all[..0] == [] && MuxAfter(x, []) == x by { NoMessages(x); }
    if k < |ms| {
      assert all[k + 1] == ms[k] && all[..k + 1] == [m] + ms[..k];
      MuxHead(x, m, ms[..k]);
    }
  }

  lemma {:induction false} NoMessages(x: Mux)
    ensures MuxAfter(x, []) == x
  {
  }

  /** What the reader does, by the messages of the bytes: if the queue refuses none of them, it
      handles them all and the notifications are handed on; otherwise it stops at the first one
      that is refused, with its error, and hands on the notifications before it. */
  lemma {:induction false} PumpExactly(x: Mux, bytes: Text, body: BodyParser)
    ensures var p := Pump(x, bytes, body); var ms := Frames(bytes, body);
      if p.stop == Hungry || p.stop.BadMessage? then
        && (forall k: nat :: !RefusedAt(x, ms, k)) && p.mux == MuxAfter(x, ms) && p.effects == EffectsAfter(x, ms) && p.notices == Notifications(ms)
      else exists k: nat :: StopsAt(x, ms, k, p)
    decreases |bytes|
  {
    hide ParseMessage, OnMessage, Pump, MuxAfter, RefusedAt, Notifications, EffectsAfter;
    PumpStep(x, bytes, body);
    var q := ParseMessage(bytes, body);
    NoMessages(x);
    NoNotices(x);
    if q.Complete? {
      var m, rest := q.msg, bytes[q.size..];
      var ms := Frames(rest, body);
      var all := [m] + ms;
      assert Frames(bytes, body) == all;
      RefusedHead(x, m, ms, 0);
      if RefusedAt(x, all, 0) {
        FirstRefused(x, m, ms);
        assert StopsAt(x, all, 0, Pump(x, bytes, body));
      } else {
        var y := OnMessage(x, m).mux;
        if m.kind == NotificationResponse {
          A.AsyncMessage(x, m);
        }
        PumpExactly(y, rest, body);
        PumpBehind(x, m, ms, Pump(y, rest, body), Pump(x, bytes, body));
      }
    } else {
      NoneRefused(x);
    }
  }

  lemma {:induction false} NoNotices(x: Mux)
    ensures Notifications([]) == [] && EffectsAfter(x, []) == []
  {
  }

  lemma {:induction false} NoneRefused(x: Mux)
    ensures forall k: nat :: !RefusedAt(x, [], k)
  {
  }

  lemma {:induction false} NoticesHead(m: BackendMessage, ms: seq<BackendMessage>)
    ensures Notifications([m] + ms) == (if m.kind == NotificationResponse then [m] else []) + Notifications(ms)
  {
    assert ([m] + ms)[1..] == ms;
  }

  lemma {:induction false} FirstRefused(x: Mux, m: BackendMessage, ms: seq<BackendMessage>)
    ensures var all := [m] + ms; all[..1] == [m] && all[..0] == [] && MuxAfter(x, all[..1]) == OnMessage(x, m).mux && MuxAfter(x, all[..0]) == x
    ensures EffectsAfter(x, ([m] + ms)[..1]) == OnMessage(x, m).effects
  {
    hide OnMessage;
    var all := [m] + ms;
    assert all[..1] == [m] && [m][..0] == [];
    assert [] + OnMessage(x, m).effects == OnMessage(x, m).effects;
  }

  /** One more message in front. */
  lemma {:induction false} PumpBehind(x: Mux, m: BackendMessage, ms: seq<BackendMessage>, p: Pumped, q: Pumped)
    requires !RefusedAt(x, [m] + ms, 0)
    requires q.stop == p.stop && q.mux == p.mux && q.effects == OnMessage(x, m).effects + p.effects && q.notices == (if m.kind == NotificationResponse then [m] else []) + p.notices
    requires var y := OnMessage(x, m).mux;
      if p.stop == Hungry || p.stop.BadMessage? then
        && (forall k: nat :: !RefusedAt(y, ms, k)) && p.mux == MuxAfter(y, ms) && p.effects == EffectsAfter(y, ms) && p.notices == Notifications(ms)
      else exists k: nat :: StopsAt(y, ms, k, p)
    ensures var all := [m] + ms;
      if q.stop == Hungry || q.stop.BadMessage? then
        && (forall k: nat :: !RefusedAt(x, all, k)) && q.mux == MuxAfter(x, all) && q.effects == EffectsAfter(x, all) && q.notices == Notifications(all)
      else exists k: nat :: StopsAt(x, all, k, q)
  {
    hide OnMessage, MuxAfter, RefusedAt, Notifications, EffectsAfter;
    var all := [m] + ms;
    NoticesHead(m, ms);
    MuxHead(x, m, ms);
    EffectsHead(x, m, ms);
    forall k: nat ensures RefusedAt(x, all, k + 1) <==> RefusedAt(OnMessage(x, m).mux, ms, k) {
      RefusedHead(x, m, ms, k);
    }
    if p.stop == Hungry || p.stop.BadMessage? {
      forall k: nat ensures !RefusedAt(x, all, k) {
        if k > 0 {
          RefusedHead(x, m, ms, k - 1);
        }
      }
    } else {
      var k: nat :| StopsAt(OnMessage(x, m).mux, ms, k, p);
      StopsBehind(x, m, ms, k, p, q);
    }
  }

  /** The reader stops at message k. */
  predicate StopsAt(x: Mux, ms: seq<BackendMessage>, k: nat, p: Pumped) {
    && RefusedAt(x, ms, k) && (forall j: nat | j < k :: !RefusedAt(x, ms, j))
    && p.mux == MuxAfter(x, ms[..k + 1]) && p.effects == EffectsAfter(x, ms[..k + 1]) && p.notices == Notifications(ms[..k])
    && var o := OnMessage(MuxAfter(x, ms[..k]), ms[k]);
       p.stop == if o.fault then AssertionFailed else if o.error.Some? then Refused(o.error.value) else Hungry
  }

  lemma {:induction false} StopsBehind(x: Mux, m: BackendMessage, ms: seq<BackendMessage>, k: nat, p: Pumped, q: Pumped)
    requires StopsAt(OnMessage(x, m).mux, ms, k, p) && !RefusedAt(x, [m] + ms, 0)
    requires q.stop == p.stop && q.mux == p.mux && q.effects == OnMessage(x, m).effects + p.effects && q.notices == (if m.kind == NotificationResponse then [m] else []) + p.notices
    ensures StopsAt(x, [m] + ms, k + 1, q)
  {
    hide OnMessage, MuxAfter, Notifications, EffectsAfter;
    var all := [m] + ms;
    RefusedHead(x, m, ms, k);
    EffectsHead(x, m, ms[..k + 1]);
    forall j: nat | j < k + 1 ensures !RefusedAt(x, all, j) {
      if j > 0 {
        RefusedHead(x, m, ms, j - 1);
      }
    }
    assert all[..k + 2] == [m] + ms[..k + 1] && all[..k + 1] == [m] + ms[..k] && all[k + 1] == ms[k];
    MuxHead(x, m, ms[..k + 1]);
    MuxHead(x, m, ms[..k]);
    NoticesHead(m, ms[..k]);
  }

  // ----- the loops

  /** The progress of the reader, and what it will still do, make up the whole. */
  ghost predicate Along(effects: seq<Effect>, notices: seq<BackendMessage>, p: Pumped, whole: Pumped) {
    Behind(effects, notices, p) == whole
  }

  lemma {:induction false} AlongStep(effects: seq<Effect>, notices: seq<BackendMessage>, e: seq<Effect>, n: seq<BackendMessage>,
      p: Pumped, whole: Pumped)
    requires Along(effects, notices, Behind(e, n, p), whole)
    ensures Along(effects + e, notices + n, p, whole)
  {
    hide Behind;
    BehindTwice(effects, notices, e, n, p);
  }

  lemma {:induction false} AlongStart(p: Pumped)
    ensures Along([], [], p, p)
  {
    hide Behind;
    BehindTwice([], [], [], [], p);
  }

  lemma {:induction false} AlongEnd(effects: seq<Effect>, notices: seq<BackendMessage>, p: Pumped, whole: Pumped)
    requires Along(effects, notices, p, whole)
    ensures whole == p.(effects := effects + p.effects, notices := notices + p.notices)
    ensures effects + [] == effects && notices + [] == notices
  {
  }

  /** The inner loop: every whole message of the buffer. Nothing is consumed yet. */
  method ProcessMessages(b: Buffer, x: Mux, body: BodyParser) returns (p: Pumped, consumed: nat)
    requires b.Valid()
    ensures p == Pump(x, b.Contents(), body)
    ensures consumed <= |b.Contents()| && p.rest == b.Contents()[consumed..]
    ensures p.stop == Hungry && MissingBytes(b.Contents()) == 0 ==> consumed > 0
  {
    hide ParseMessage, OnMessage, Pump, Behind, Along, MissingBytes, GoodCapacity;
    ghost var data := b.Contents();
    ghost var whole := Pump(x, data, body);
    var mux, effects, notices := x, [], [];
    consumed := 0;
    MissingBytesAgrees(data, body);
    AlongStart(whole);
    assert data[0..] == data;
    while true
      invariant consumed <= |data|
      invariant Along(effects, notices, Pump(mux, data[consumed..], body), whole)
      decreases |data| - consumed
    {
      var left := b.bytes[b.committed + consumed..b.prepared];
      assert left == data[consumed..];
      PumpStep(mux, left, body);
      AlongEnd(effects, notices, Pump(mux, left, body), whole);
      match ParseMessage(left, body) {
        case NeedsMore(_) =>
          return Pumped(Hungry, mux, effects, notices, left), consumed;
        case Broken(e) =>
          return Pumped(BadMessage(e), mux, effects, notices, left), consumed;
        case Complete(m, size) =>
          consumed := consumed + size;
          assert data[consumed..] == left[size..];
          if m.kind == NotificationResponse {
            AlongStep(effects, notices, [], [m], Pump(mux, data[consumed..], body), whole);
            assert effects + [] == effects;
            notices := notices + [m];
          } else {
            var o := OnMessage(mux, m);
            if o.fault {
              return Pumped(AssertionFailed, o.mux, effects + o.effects, notices, left[size..]), consumed;
            }
            if o.error.Some? {
              return Pumped(Refused(o.error.value), o.mux, effects + o.effects, notices, left[size..]), consumed;
            }
            AlongStep(effects, notices, o.effects, [], Pump(o.mux, data[consumed..], body), whole);
            assert notices + [] == notices;
            mux, effects := o.mux, effects + o.effects;
          }
      }
    }
  }

  /** reader: whatever the sizes of the reads, the queue ends up as if the whole stream had been
      there at once. The bytes behind the last message stay in the buffer; if the queue
      reported an error, so does the batch that it was in. */
  method ReadAll(b: Buffer, x: Mux, stream: Text, wish: nat -> nat, body: BodyParser) returns (p: Pumped, used: nat)
    requires b.Valid()
    modifies b, b.bytes
    ensures b.Valid() && used <= |stream|
    ensures var whole := Pump(x, old(b.Contents()) + stream, body); var left := b.Contents() + stream[used..];
      && p == whole
      && |whole.rest| <= |left| && left[|left| - |whole.rest|..] == whole.rest
      && (whole.stop == Hungry || whole.stop.BadMessage? ==> left == whole.rest)
  {
    hide Pump, Behind, Along, MissingBytes, GoodCapacity, GoOn, OnMessage;
    ghost var whole := Pump(x, b.Contents() + stream, body);
    var mux, effects, notices := x, [], [];
    var turn := 0;
    used := 0;
    AlongStart(whole);
    assert stream[0..] == stream;
    while true
      invariant b.Valid() && (b.bytes == old(b.bytes) || fresh(b.bytes)) && used <= |stream|
      invariant Along(effects, notices, Pump(mux, b.Contents() + stream[used..], body), whole)
      decreases |b.Contents()| + |stream| - used
    {
      var ok;
      ok, used, turn := ReadMessages(b, stream, used, wish, turn);
      ghost var data, more := b.Contents(), stream[used..];
      if !ok {
        assert data + more == data;
        HungryNow(mux, data, body);
        AlongEnd(effects, notices, Pump(mux, data, body), whole);
        return Pumped(Hungry, mux, effects, notices, b.bytes[b.committed..b.prepared]), used;
      }
      var q, consumed := ProcessMessages(b, mux, body);
      PumpAppend(mux, data, more, body);
      if q.stop == Hungry || q.stop.BadMessage? {
        b.Consume(consumed);
      }
      if q.stop != Hungry {
        StoppedStays(q, more, body);
        AlongEnd(effects, notices, q.(rest := q.rest + more), whole);
        return Pumped(q.stop, q.mux, effects + q.effects, notices + q.notices, q.rest + stream[used..]), used;
      }
      HungryStays(q, more, body);
      AlongStep(effects, notices, q.effects, q.notices, Pump(q.mux, q.rest + more, body), whole);
      mux, effects, notices := q.mux, effects + q.effects, notices + q.notices;
    }
  }

  lemma {:induction false} HungryStays(p: Pumped, more: Text, body: BodyParser)
    requires p.stop == Hungry
    ensures GoOn(p, more, body) == Behind(p.effects, p.notices, Pump(p.mux, p.rest + more, body))
  {
  }

  lemma {:induction false} HungryNow(x: Mux, data: Text, body: BodyParser)
    requires MissingBytes(data) > 0
    ensures Pump(x, data, body) == Pumped(Hungry, x, [], [], data)
  {
    MissingBytesAgrees(data, body);
    PumpStep(x, data, body);
    hide ParseMessage, Pump;
  }

  // ----- an honest server, byte by byte

  function Events(ms: seq<BackendMessage>): seq<D.Event> {
    if ms == [] then [] else [D.Message(ms[0])] + Events(ms[1..])
  }

  /** One message of an honest server. */
  lemma {:induction false} HonestStep(w: D.World, m: BackendMessage)
    requires D.Inv(w) && D.Honest(w, m)
    ensures var o := OnMessage(w.mux, m);
      && !o.fault && o.error == None
      && var w' := D.Next(w, D.Message(m)); D.Inv(w') && w'.mux == o.mux && w'.log == w.log + o.effects
  {
    hide D.Inv, OnMessage, D.Continues, D.DoSubmit, D.DoWrite, D.DoCancel, D.DoLost, D.Paid, D.Hear;
    D.NextKeeps(w, D.Message(m));
    D.InvIsRunnable(w);
    if !IsAsync(m.kind) {
      var w1 := w;
      if w.mux.stream.Initial? {
        D.BeginKeeps(w);
        D.InvQueue(w);
        D.BeginSameOutcome(w, m);
        w1 := w.(mux := Begin(w.mux));
      }
      D.RoutedMessage(w1, m);
    } else {
      A.AsyncMessage(w.mux, m);
    }
  }

  lemma {:induction false} HonestPump(w: D.World, bytes: Text, body: BodyParser)
    requires D.Inv(w) && D.ValidRun(w, Events(Frames(bytes, body)))
    ensures var p := Pump(w.mux, bytes, body); var w' := D.After(w, Events(Frames(bytes, body)));
      && (p.stop == Hungry || p.stop.BadMessage?)
      && p.mux == w'.mux && w'.log == w.log + p.effects
    decreases |bytes|
  {
    hide D.Inv, OnMessage, D.Next, D.Honest, ParseMessage, Pump, D.ValidRun, D.After, Events, Frames;
    PumpStep(w.mux, bytes, body);
    EventsHead(bytes, body);
    var q := ParseMessage(bytes, body);
    if q.Complete? {
      var m, rest := q.msg, bytes[q.size..];
      RunHead(w, m, Events(Frames(rest, body)));
      HonestStep(w, m);
      var w1 := D.Next(w, D.Message(m));
      HonestPump(w1, rest, body);
      var o, p := OnMessage(w.mux, m), Pump(w1.mux, rest, body);
      assert w.log + o.effects + p.effects == w.log + (o.effects + p.effects);
      if m.kind == NotificationResponse {
        A.AsyncMessage(w.mux, m);
      }
    } else {
      NoEvents(w);
      assert w.log + [] == w.log;
    }
  }

  lemma {:induction false} EventsHead(bytes: Text, body: BodyParser)
    ensures var q := ParseMessage(bytes, body);
      Events(Frames(bytes, body)) == if q.Complete? then [D.Message(q.msg)] + Events(Frames(bytes[q.size..], body)) else []
  {
    hide ParseMessage;
    var q := ParseMessage(bytes, body);
    if q.Complete? {
      var rest := Frames(bytes[q.size..], body);
      assert ([q.msg] + rest)[1..] == rest;
    }
  }

  lemma {:induction false} NoEvents(w: D.World)
    ensures D.ValidRun(w, []) && D.After(w, []) == w
  {
    hide D.Enabled;
  }

  lemma {:induction false} RunHead(w: D.World, m: BackendMessage, es: seq<D.Event>)
    requires D.ValidRun(w, [D.Message(m)] + es)
    ensures D.Honest(w, m) && D.ValidRun(D.Next(w, D.Message(m)), es)
    ensures D.After(w, [D.Message(m)] + es) == D.After(D.Next(w, D.Message(m)), es)
  {
    hide D.Honest, D.Next;
    assert ([D.Message(m)] + es)[1..] == es;
  }

  /** From bytes to handlers: after any run, for any bytes whose messages an honest server may
      send, the reader takes them all, and the queue and the log are those of the run continued
      with these messages; so all that holds of every run holds of what is read. */
  lemma {:induction false} BytesAreDemultiplexed(es: seq<D.Event>, bytes: Text, body: BodyParser)
    requires D.ValidRun(D.Empty, es) && D.ValidRun(D.After(D.Empty, es), Events(Frames(bytes, body)))
    ensures var w := D.After(D.Empty, es); var p := Pump(w.mux, bytes, body); var w' := D.After(w, Events(Frames(bytes, body)));
      && (p.stop == Hungry || p.stop.BadMessage?)
      && p.mux == w'.mux && w'.log == w.log + p.effects
  {
    hide D.Inv, D.ValidRun, D.After, Pump, Frames;
    D.EmptyInv();
    D.RunKeeps(D.Empty, es);
    HonestPump(D.After(D.Empty, es), bytes, body);
  }

  // ----- the next connection

  /** The letter of the first message of some bytes, once its length has arrived. */
  function FirstLetter(bytes: Text): Option<Byte> {
    if MissingBytes(bytes) > 0 then None else Some(bytes[0])
  }

  /** Nothing empties the buffer between two connections, so the startup of the next one reads
      what is left first. Whatever the next server sends, its first message is the first one
      that is read, if and only if nothing is left. */
  lemma {:induction false} NextStartupExactly(left: Text)
    ensures (forall stream: Text :: FirstLetter(stream).Some? ==> FirstLetter(left + stream) == FirstLetter(stream)) <==> left == []
  {
    if left == [] {
      forall stream: Text ensures left + stream == stream {
      }
    } else {
      var letter: Byte := if left[0] == 82 then 83 else 82;
      var stream: Text := [letter, 0, 0, 0, 4];
      assert FirstLetter(stream) == Some(letter);
      assert (left + stream)[0] == left[0];
      assert FirstLetter(left + stream) != FirstLetter(stream);
    }
  }

  /** Something is left after a connection that was lost in the middle of a message. */
  lemma {:induction false} HalfAMessageIsLeft(x: Mux, body: BodyParser)
    ensures Pump(x, [82, 0, 0], body) == Pumped(Hungry, x, [], [], [82, 0, 0])
  {
    hide OnMessage;
  }
}
