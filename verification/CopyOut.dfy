/** COPY OUT: the data of a reply, and what of it reaches the caller for every way the stream may
    be cut into batches (include/nativepg/protocol/detail/exec_some_fsm.hpp). Nothing is repeated,
    reordered or altered, and which streams lose data under some cut is decided by the messages
    alone. */
module CopyOut {
  import opened Messages
  import opened CheckRequest
  import opened ResponseFsm
  import opened ReadBuffer
  import opened ByteStream

  // ----- the data of a reply

  /** The data of the CopyData messages of a list. */
  function Payload(ms: seq<BackendMessage>): seq<Byte> {
    if ms == [] then [] else Copy(ms[0]) + Payload(ms[1..])
  }

  function Copy(m: BackendMessage): seq<Byte> {
    if m.kind == CopyData then m.body else []
  }

  /** The data that a reply carries, message by message as the machine takes them. */
  function Copied(f: Fsm, bytes: seq<Byte>, body: BodyParser): seq<Byte>
    decreases |bytes|
  {
    match ParseMessage(bytes, body)
    case Complete(m, size) =>
      var s := Resume(f, m);
      if s.verdict.Read? then Copy(m) + Copied(s.fsm, bytes[size..], body) else []
    case _ => []
  }

  /** A message is parsed from its own bytes alone. */
  lemma {:induction false} ParsePrefix(bytes: seq<Byte>, n: nat, body: BodyParser)
    requires ParseMessage(bytes, body).Complete? && ParseMessage(bytes, body).size <= n <= |bytes|
    ensures ParseMessage(bytes[..n], body) == ParseMessage(bytes, body)
  {
    var part := bytes[..n];
    assert forall i | 0 <= i < 5 :: part[i] == bytes[i];
    assert Length(part) == Length(bytes);
    assert part[5..Length(bytes) + 1] == bytes[5..Length(bytes) + 1];
  }

  lemma {:induction false} RestIsShorter(f: Fsm, bytes: seq<Byte>, body: BodyParser)
    ensures |Whole(f, bytes, body).rest| <= |bytes|
    ensures Whole(f, bytes, body).ending.Ended? ==>
      ParseMessage(bytes, body).Complete? && ParseMessage(bytes, body).size <= |bytes| - |Whole(f, bytes, body).rest|
    decreases |bytes|
  {
    var p := ParseMessage(bytes, body);
    if p.Complete? {
      hide ParseMessage, Resume;
      RestIsShorter(Resume(f, p.msg).fsm, bytes[p.size..], body);
    }
  }

  lemma {:induction false} PayloadHead(m: BackendMessage, ms: seq<BackendMessage>)
    ensures Payload([m] + ms) == Copy(m) + Payload(ms)
  {
    assert ([m] + ms)[1..] == ms;
  }

  /** In a reply that ends well, the data is that of every CopyData message among the messages
      that were consumed. */
  lemma {:induction false} CopiedIsThePayload(f: Fsm, bytes: seq<Byte>, body: BodyParser)
    requires Whole(f, bytes, body).ending == Ended(None)
    ensures var n := |bytes| - |Whole(f, bytes, body).rest|;
      0 <= n <= |bytes| && Copied(f, bytes, body) == Payload(Frames(bytes[..n], body))
    decreases |bytes|
  {
    hide ParseMessage, Resume, Payload, Copy;
    RestIsShorter(f, bytes, body);
    var n := |bytes| - |Whole(f, bytes, body).rest|;
    var p := ParseMessage(bytes, body);
    ParsePrefix(bytes, n, body);
    var s := Resume(f, p.msg);
    var tail := bytes[p.size..];
    assert bytes[..n][p.size..] == tail[..n - p.size];
    assert Frames(bytes[..n], body) == [p.msg] + Frames(tail[..n - p.size], body);
    PayloadHead(p.msg, Frames(tail[..n - p.size], body));
    if s.verdict.Read? {
      CopiedIsThePayload(s.fsm, tail, body);
    } else {
      LastIsNoCopy(f, p.msg);
      assert tail[..0] == [];
      NoFrames(body);
    }
  }

  /** What a reply that ends consumes is exactly its messages, the last one included. */
  lemma {:induction false} ConsumedIsTheReply(f: Fsm, bytes: seq<Byte>, body: BodyParser)
    requires Whole(f, bytes, body).ending == Ended(None)
    ensures var n := |bytes| - |Whole(f, bytes, body).rest|; 0 <= n <= |bytes| && Accepts(f, Frames(bytes[..n], body))
    decreases |bytes|
  {
    hide ParseMessage, Resume;
    RestIsShorter(f, bytes, body);
    var n := |bytes| - |Whole(f, bytes, body).rest|;
    var p := ParseMessage(bytes, body);
    ParsePrefix(bytes, n, body);
    var s := Resume(f, p.msg);
    var tail := bytes[p.size..];
    assert bytes[..n][p.size..] == tail[..n - p.size];
    var rest := Frames(tail[..n - p.size], body);
    assert Frames(bytes[..n], body) == [p.msg] + rest && ([p.msg] + rest)[1..] == rest;
    if s.verdict.Read? {
      ConsumedIsTheReply(s.fsm, tail, body);
    } else {
      assert tail[..0] == [];
      NoFrames(body);
    }
  }

  lemma {:induction false} NoFrames(body: BodyParser)
    ensures Frames([], body) == [] && Payload([]) == []
  {
  }

  /** The message that ends a reply carries no data. */
  lemma {:induction false} LastIsNoCopy(f: Fsm, m: BackendMessage)
    requires Resume(f, m).verdict == Done(None)
    ensures Copy(m) == []
  {
    hide NextSync, Skips, SkipFlush;
  }

  /** More bytes: the data of a reply that starved goes on. */
  lemma {:induction false} CopiedAppend(f: Fsm, bytes: seq<Byte>, more: seq<Byte>, body: BodyParser)
    ensures var r := Whole(f, bytes, body);
      Copied(f, bytes + more, body) ==
        Copied(f, bytes, body) + if r.ending == Starved then Copied(r.fsm, r.rest + more, body) else []
    decreases |bytes|
  {
    ParseStable(bytes, more, body);
    var p := ParseMessage(bytes, body);
    hide Resume, ParseMessage, Copy;
    if p.Complete? {
      assert (bytes + more)[p.size..] == bytes[p.size..] + more;
      var s := Resume(f, p.msg);
      if s.verdict.Read? {
        CopiedAppend(s.fsm, bytes[p.size..], more, body);
      }
    }
  }

  // ----- the machine while data is copied

  predicate InCopy(f: Fsm) {
    f.phase == ExecCopyOut || f.phase == QueryCopyOut
  }

  /** A COPY OUT goes on until CopyDone or an error, and no reply ends inside it. */
  lemma {:induction false} CopyGoesOn(f: Fsm, m: BackendMessage)
    requires Consistent(f) && InCopy(f)
    ensures var s := Resume(f, m);
      && s.verdict != Done(None)
      && (s.verdict.Read? && m.kind != CopyDone && m.kind != ErrorResponse ==> InCopy(s.fsm))
  {
    hide NextSync, Skips, Closed;
    assert SkipFlush(f.messages, f.current) == f.current;
  }

  /** No COPY OUT begins inside another one. */
  lemma {:induction false} NoneBeginsInside(f: Fsm, m: BackendMessage)
    requires Consistent(f) && InCopy(f) && m.kind == CopyOutResponse
    ensures !Resume(f, m).verdict.Read?
  {
    hide NextSync, Skips, Closed;
    assert SkipFlush(f.messages, f.current) == f.current;
  }

  /** Data comes only inside a COPY OUT. */
  lemma {:induction false} DataInCopy(f: Fsm, m: BackendMessage)
    requires Consistent(f) && m.kind == CopyData && Resume(f, m).verdict.Read?
    ensures InCopy(Resume(f, m).fsm)
  {
    hide NextSync, Skips, HandleError, Closed, HandleAck, HandleDescribe, HandleSync, Advance;
    SkipFlushSafe(f.messages, f.current);
    NoDataElsewhere(f.(current := SkipFlush(f.messages, f.current)), m);
  }

  lemma {:induction false} NoDataElsewhere(f: Fsm, m: BackendMessage)
    requires f.current < |f.messages| && m.kind == CopyData
    ensures !HandleAck(f, m, BindComplete).verdict.Read? && !HandleAck(f, m, CloseComplete).verdict.Read?
    ensures !HandleAck(f, m, ParseComplete).verdict.Read? && !HandleDescribe(f, m).verdict.Read? && !HandleSync(f, m).verdict.Read?
  {
    hide HandleError, Advance;
  }

  // ----- where copies begin and end

  /** A copy begins, or is over, after so many bytes of data. */
  datatype Mark = Begin(at: nat) | End(at: nat)

  predicate EndsCopy(m: BackendMessage) {
    m.kind == CopyDone || m.kind == ErrorResponse
  }

  function MarkOf(m: BackendMessage, n: nat): seq<Mark> {
    if m.kind == CopyOutResponse then [Begin(n)] else if EndsCopy(m) then [End(n)] else []
  }

  /** The marks of a list of messages, when n bytes of data came before it. */
  function MessageMarks(ms: seq<BackendMessage>, n: nat): seq<Mark> {
    if ms == [] then [] else MarkOf(ms[0], n) + MessageMarks(ms[1..], n + |Copy(ms[0])|)
  }

  /** The marks of a reply, message by message as the machine takes them. */
  function MarksFrom(f: Fsm, bytes: seq<Byte>, body: BodyParser, n: nat): seq<Mark>
    decreases |bytes|
  {
    match ParseMessage(bytes, body)
    case Complete(m, size) =>
      var s := Resume(f, m);
      if s.verdict.Read? then MarkOf(m, n) + MarksFrom(s.fsm, bytes[size..], body, n + |Copy(m)|) else []
    case _ => []
  }

  lemma {:induction false} MarksAreTheMessages(f: Fsm, bytes: seq<Byte>, body: BodyParser, n: nat)
    ensures MarksFrom(f, bytes, body, n) == MessageMarks(Took(f, bytes, body), n)
    decreases |bytes|
  {
    hide ParseMessage, Resume, MarkOf, Copy;
    var p := ParseMessage(bytes, body);
    if p.Complete? && Resume(f, p.msg).verdict.Read? {
      var g, rest := Resume(f, p.msg).fsm, bytes[p.size..];
      MarksAreTheMessages(g, rest, body, n + |Copy(p.msg)|);
      assert ([p.msg] + Took(g, rest, body))[1..] == Took(g, rest, body);
    }
  }

  /** More bytes: the marks of a reply that starved go on. */
  lemma {:induction false} MarksAppend(f: Fsm, bytes: seq<Byte>, more: seq<Byte>, body: BodyParser, n: nat)
    ensures var r := Whole(f, bytes, body);
      MarksFrom(f, bytes + more, body, n) ==
        MarksFrom(f, bytes, body, n) + if r.ending == Starved then MarksFrom(r.fsm, r.rest + more, body, n + |Copied(f, bytes, body)|) else []
    decreases |bytes|
  {
    ParseStable(bytes, more, body);
    hide Resume, ParseMessage, Copy, MarkOf;
    var p := ParseMessage(bytes, body);
    if p.Complete? {
      assert (bytes + more)[p.size..] == bytes[p.size..] + more;
      var s := Resume(f, p.msg);
      if s.verdict.Read? {
        MarksAppend(s.fsm, bytes[p.size..], more, body, n + |Copy(p.msg)|);
      }
    }
  }

  // ----- one batch of messages

  /** The data that a batch hands out, if it starts with some data collected: all of it when
      the batch needs more bytes, at the end of a copy, or at an error of the server. */
  function Yielded(f: Fsm, bytes: seq<Byte>, body: BodyParser, held: seq<Byte>): seq<Byte>
    decreases |bytes|
  {
    match ParseMessage(bytes, body)
    case NeedsMore(_) => held
    case Broken(_) => []
    case Complete(m, size) =>
      var s := Resume(f, m);
      if !s.verdict.Read? then []
      else if m.kind == CopyData then Yielded(s.fsm, bytes[size..], body, held + m.body)
      else if m.kind == CopyDone || m.kind == ErrorResponse then held + Yielded(s.fsm, bytes[size..], body, [])
      else Yielded(s.fsm, bytes[size..], body, held)
  }

  /** The data that a batch collects and does not hand out. */
  function Lost(f: Fsm, bytes: seq<Byte>, body: BodyParser, held: seq<Byte>): seq<Byte>
    decreases |bytes|
  {
    match ParseMessage(bytes, body)
    case NeedsMore(_) => []
    case Broken(_) => held
    case Complete(m, size) =>
      var s := Resume(f, m);
      if !s.verdict.Read? then held
      else if m.kind == CopyData then Lost(s.fsm, bytes[size..], body, held + m.body)
      else if m.kind == CopyDone || m.kind == ErrorResponse then Lost(s.fsm, bytes[size..], body, [])
      else Lost(s.fsm, bytes[size..], body, held)
  }

  /** What a batch hands out and what it loses make up its data, in this order. */
  lemma {:induction false} YieldedThenLost(f: Fsm, bytes: seq<Byte>, body: BodyParser, held: seq<Byte>)
    ensures Yielded(f, bytes, body, held) + Lost(f, bytes, body, held) == held + Copied(f, bytes, body)
    decreases |bytes|
  {
    hide Resume, ParseMessage, Copied, Yielded, Lost;
    OneMessageOn(f, bytes, body, held);
    var p := ParseMessage(bytes, body);
    if p.Complete? && Resume(f, p.msg).verdict.Read? {
      var g, rest := Resume(f, p.msg).fsm, bytes[p.size..];
      var copied := Copied(g, rest, body);
      Empties(copied);
      if p.msg.kind == CopyData {
        YieldedThenLost(g, rest, body, held + p.msg.body);
        Empties(Yielded(g, rest, body, held + p.msg.body));
        Assoc(held, p.msg.body, copied);
      } else if p.msg.kind == CopyDone || p.msg.kind == ErrorResponse {
        YieldedThenLost(g, rest, body, []);
        Assoc(held, Yielded(g, rest, body, []), Lost(g, rest, body, []));
      } else {
        YieldedThenLost(g, rest, body, held);
        Empties(Yielded(g, rest, body, held));
      }
    } else {
      Empties(held);
    }
  }

  lemma {:induction false} Assoc(a: seq<Byte>, b: seq<Byte>, c: seq<Byte>)
    ensures a + b + c == a + (b + c)
  {
  }

  lemma {:induction false} Empties(a: seq<Byte>)
    ensures [] + a == a && a + [] == a
  {
  }

  /** What a batch hands out, what it loses and what it carries, one message on. */
  lemma {:induction false} OneMessageOn(f: Fsm, bytes: seq<Byte>, body: BodyParser, held: seq<Byte>)
    ensures var y := Yielded(f, bytes, body, held); var l := Lost(f, bytes, body, held); var c := Copied(f, bytes, body);
      var p := ParseMessage(bytes, body);
      if p.Complete? && Resume(f, p.msg).verdict.Read? then
        var g := Resume(f, p.msg).fsm; var rest := bytes[p.size..]; var ends := p.msg.kind == CopyDone || p.msg.kind == ErrorResponse;
        var held' := if p.msg.kind == CopyData then held + p.msg.body else if ends then [] else held;
        && y == (if ends then held else []) + Yielded(g, rest, body, held')
        && l == Lost(g, rest, body, held')
        && c == (if p.msg.kind == CopyData then p.msg.body else []) + Copied(g, rest, body)
      else c == [] && ((y == held && l == []) || (y == [] && l == held))
  {
    hide Resume, ParseMessage;
  }

  /** Nothing is lost in a batch that needs more bytes, or that ends the reply well. */
  lemma {:induction false} NothingLost(f: Fsm, bytes: seq<Byte>, body: BodyParser, held: seq<Byte>)
    requires Consistent(f) && (held != [] ==> InCopy(f))
    ensures var r := Whole(f, bytes, body); r.ending == Starved || r.ending == Ended(None) ==> Lost(f, bytes, body, held) == []
    decreases |bytes|
  {
    var p := ParseMessage(bytes, body);
    hide Resume, ParseMessage, Consistent, InCopy;
    if p.Complete? {
      var m, s, rest := p.msg, Resume(f, p.msg), bytes[p.size..];
      ResumeGood(f, m);
      if held != [] {
        CopyGoesOn(f, m);
      }
      if s.verdict.Read? {
        if m.kind == CopyData {
          DataInCopy(f, m);
          NothingLost(s.fsm, rest, body, held + m.body);
        } else if m.kind == CopyDone || m.kind == ErrorResponse {
          NothingLost(s.fsm, rest, body, []);
        } else {
          NothingLost(s.fsm, rest, body, held);
        }
      }
    }
  }

  // ----- how the stream is cut

  /** Where the loop stands after some batches: the machine, the bytes not consumed, the data
      handed out, the data lost in the last batch, and whether the loop goes on. */
  datatype Progress = Progress(fsm: Fsm, carry: seq<Byte>, handed: seq<Byte>, lost: seq<Byte>, live: bool)

  function Start(f: Fsm, carry: seq<Byte>): Progress {
    Progress(f, carry, [], [], true)
  }

  function FeedBatch(p: Progress, bytes: seq<Byte>, body: BodyParser): Progress {
    if !p.live then p
    else
      var data := p.carry + bytes;
      var r := Whole(p.fsm, data, body);
      Progress(r.fsm, r.rest, p.handed + Yielded(p.fsm, data, body, []), Lost(p.fsm, data, body, []), r.ending == Starved)
  }

  /** The bytes that arrive for each batch, one after the other. */
  function FeedBatches(p: Progress, batches: seq<seq<Byte>>, body: BodyParser): Progress {
    if batches == [] then p else FeedBatch(FeedBatches(p, batches[..|batches| - 1], body), batches[|batches| - 1], body)
  }

  lemma {:induction false} OneMoreBatch(p: Progress, batches: seq<seq<Byte>>, bytes: seq<Byte>, body: BodyParser)
    ensures FeedBatches(p, batches + [bytes], body) == FeedBatch(FeedBatches(p, batches, body), bytes, body)
  {
    assert (batches + [bytes])[..|batches|] == batches;
  }

  lemma {:induction false} StarvedLosesNothing(f: Fsm, bytes: seq<Byte>, body: BodyParser, held: seq<Byte>)
    ensures Whole(f, bytes, body).ending == Starved ==> Lost(f, bytes, body, held) == []
    decreases |bytes|
  {
    hide Resume, ParseMessage;
    var p := ParseMessage(bytes, body);
    if p.Complete? && Resume(f, p.msg).verdict.Read? {
      var s, rest := Resume(f, p.msg), bytes[p.size..];
      StarvedLosesNothing(s.fsm, rest, body, held + p.msg.body);
      StarvedLosesNothing(s.fsm, rest, body, []);
      StarvedLosesNothing(s.fsm, rest, body, held);
    }
  }

  /** The data of the reply that is still to come. */
  function ToCome(p: Progress, more: seq<Byte>, body: BodyParser): seq<Byte> {
    if p.live then Copied(p.fsm, p.carry + more, body) else []
  }

  lemma {:induction false} BatchConserves(p: Progress, bytes: seq<Byte>, more: seq<Byte>, body: BodyParser)
    requires p.live && p.lost == []
    ensures var q := FeedBatch(p, bytes, body);
      && q.handed + q.lost + ToCome(q, more, body) == p.handed + ToCome(p, bytes + more, body)
      && (q.live ==> q.lost == [])
  {
    hide Whole, Yielded, Lost, Copied;
    var data := p.carry + bytes;
    YieldedThenLost(p.fsm, data, body, []);
    CopiedAppend(p.fsm, data, more, body);
    StarvedLosesNothing(p.fsm, data, body, []);
    assert p.carry + (bytes + more) == data + more;
    Regroup(p.handed, Yielded(p.fsm, data, body, []), Lost(p.fsm, data, body, []),
            ToCome(FeedBatch(p, bytes, body), more, body), Copied(p.fsm, data, body));
  }

  lemma {:induction false} Regroup(a: seq<Byte>, y: seq<Byte>, l: seq<Byte>, c: seq<Byte>, d: seq<Byte>)
    requires y + l == [] + d
    ensures a + y + l + c == a + (d + c)
  {
    assert [] + d == d;
    assert a + y + l + c == a + (y + l + c);
  }

  lemma {:induction false} Stopped(p: Progress, bytes: seq<Byte>, body: BodyParser)
    requires !p.live
    ensures FeedBatch(p, bytes, body) == p
  {
  }

  /** COPY OUT, for every way of cutting a stream into batches: what was handed out, then what
      was lost, then what is still to come, is the data of the reply. */
  lemma {:induction false} BatchesConserve(f: Fsm, carry: seq<Byte>, batches: seq<seq<Byte>>, more: seq<Byte>, body: BodyParser)
    ensures var p := FeedBatches(Start(f, carry), batches, body);
      && p.handed + p.lost + ToCome(p, more, body) == Copied(f, carry + (Flat(batches) + more), body)
      && (p.live ==> p.lost == [])
    decreases |batches|
  {
    hide FeedBatch, ToCome, Copied;
    if batches == [] {
      assert [] + more == more;
      NothingFed(f, carry, more, body);
    } else {
      var init, last := batches[..|batches| - 1], batches[|batches| - 1];
      var p := FeedBatches(Start(f, carry), init, body);
      BatchesConserve(f, carry, init, last + more, body);
      assert Flat(init) + (last + more) == Flat(batches) + more;
      if p.live {
        BatchConserves(p, last, more, body);
        assert p.handed + p.lost + ToCome(p, last + more, body) == p.handed + ToCome(p, last + more, body);
      } else {
        NoneToCome(p, last + more, more, body);
        Stopped(p, last, body);
      }
    }
  }

  lemma {:induction false} NothingFed(f: Fsm, carry: seq<Byte>, more: seq<Byte>, body: BodyParser)
    ensures [] + [] + ToCome(Start(f, carry), more, body) == Copied(f, carry + more, body)
  {
    hide Copied;
  }

  lemma {:induction false} NoneToCome(p: Progress, more: seq<Byte>, less: seq<Byte>, body: BodyParser)
    requires !p.live
    ensures ToCome(p, more, body) == ToCome(p, less, body) == []
  {
  }

  // ----- which cuts lose data

  predicate Suffix(a: seq<Byte>, b: seq<Byte>) {
    |a| <= |b| && b[|b| - |a|..] == a
  }

  lemma {:induction false} SuffixTrans(a: seq<Byte>, b: seq<Byte>, c: seq<Byte>)
    requires Suffix(a, b) && Suffix(b, c)
    ensures Suffix(a, c)
  {
    assert c[|c| - |a|..] == c[|c| - |b|..][|b| - |a|..];
  }

  /** The more data was collected before, the more is lost. */
  lemma {:induction false} LostGrows(f: Fsm, bytes: seq<Byte>, body: BodyParser, early: seq<Byte>, held: seq<Byte>)
    ensures Suffix(Lost(f, bytes, body, held), Lost(f, bytes, body, early + held))
    decreases |bytes|
  {
    hide Resume, ParseMessage;
    var p := ParseMessage(bytes, body);
    if p.Complete? && Resume(f, p.msg).verdict.Read? {
      var g, rest := Resume(f, p.msg).fsm, bytes[p.size..];
      if p.msg.kind == CopyData {
        assert early + held + p.msg.body == early + (held + p.msg.body);
        LostGrows(g, rest, body, early, held + p.msg.body);
      } else if p.msg.kind != CopyDone && p.msg.kind != ErrorResponse {
        LostGrows(g, rest, body, early, held);
      }
    }
  }

  /** More bytes: a batch that has ended has lost what it has lost, and a batch that starts
      later loses no more. */
  lemma {:induction false} LostAppend(f: Fsm, bytes: seq<Byte>, more: seq<Byte>, body: BodyParser, held: seq<Byte>)
    ensures var r := Whole(f, bytes, body); var l := Lost(f, bytes + more, body, held);
      if r.ending == Starved then Suffix(Lost(r.fsm, r.rest + more, body, []), l) else l == Lost(f, bytes, body, held)
    decreases |bytes|
  {
    ParseStable(bytes, more, body);
    hide Resume, ParseMessage, Suffix;
    var p := ParseMessage(bytes, body);
    if p.NeedsMore? {
      assert held + [] == held;
      LostGrows(f, bytes + more, body, held, []);
    } else if p.Complete? {
      var s, rest := Resume(f, p.msg), bytes[p.size..];
      assert (bytes + more)[p.size..] == rest + more;
      if s.verdict.Read? {
        var held' := if p.msg.kind == CopyData then held + p.msg.body
                     else if p.msg.kind == CopyDone || p.msg.kind == ErrorResponse then [] else held;
        LostAppend(s.fsm, rest, more, body, held');
      }
    }
  }

  /** Where the batches stand against the whole stream: the reply ends alike, and what was or
      can still be lost is the end of what a single batch would lose. */
  ghost predicate OnPar(p: Progress, more: seq<Byte>, f: Fsm, all: seq<Byte>, body: BodyParser) {
    var l := Lost(f, all, body, []);
    if p.live then
      Suffix(Lost(p.fsm, p.carry + more, body, []), l) && Whole(p.fsm, p.carry + more, body).ending == Whole(f, all, body).ending
    else
      Suffix(p.lost, l) && Whole(f, all, body).ending != Starved
  }

  lemma {:induction false} OnParStep(p: Progress, bytes: seq<Byte>, more: seq<Byte>, f: Fsm, all: seq<Byte>, body: BodyParser)
    requires p.live && OnPar(p, bytes + more, f, all, body)
    ensures OnPar(FeedBatch(p, bytes, body), more, f, all, body)
  {
    hide Whole, Lost, Yielded, Suffix;
    var data := p.carry + bytes;
    assert p.carry + (bytes + more) == data + more;
    LostAppend(p.fsm, data, more, body, []);
    WholeAppend(p.fsm, data, more, body);
    var r := Whole(p.fsm, data, body);
    if r.ending == Starved {
      SuffixTrans(Lost(r.fsm, r.rest + more, body, []), Lost(p.fsm, data + more, body, []), Lost(f, all, body, []));
    }
  }

  lemma {:induction false} BatchesOnPar(f: Fsm, carry: seq<Byte>, batches: seq<seq<Byte>>, more: seq<Byte>, body: BodyParser)
    ensures OnPar(FeedBatches(Start(f, carry), batches, body), more, f, carry + (Flat(batches) + more), body)
    decreases |batches|
  {
    hide OnPar, FeedBatch;
    if batches == [] {
      assert [] + more == more;
      OnParStart(f, carry, more, body);
    } else {
      var init, last := batches[..|batches| - 1], batches[|batches| - 1];
      var p := FeedBatches(Start(f, carry), init, body);
      BatchesOnPar(f, carry, init, last + more, body);
      assert Flat(init) + (last + more) == Flat(batches) + more;
      if p.live {
        OnParStep(p, last, more, f, carry + (Flat(batches) + more), body);
      } else {
        Stopped(p, last, body);
        OnParDead(p, last + more, more, f, carry + (Flat(batches) + more), body);
      }
    }
  }

  lemma {:induction false} OnParStart(f: Fsm, carry: seq<Byte>, more: seq<Byte>, body: BodyParser)
    ensures OnPar(Start(f, carry), more, f, carry + more, body)
  {
    hide Whole, Lost;
  }

  lemma {:induction false} OnParDead(p: Progress, more: seq<Byte>, less: seq<Byte>, f: Fsm, all: seq<Byte>, body: BodyParser)
    requires !p.live && OnPar(p, more, f, all, body)
    ensures OnPar(p, less, f, all, body)
  {
    hide Whole, Lost;
  }

  /** The last batch took what it could: nothing whole is left of what it starved on. */
  lemma {:induction false} DryAfterBatch(f: Fsm, carry: seq<Byte>, batches: seq<seq<Byte>>, body: BodyParser)
    requires batches != []
    ensures var p := FeedBatches(Start(f, carry), batches, body);
      p.live ==> Copied(p.fsm, p.carry, body) == [] && Whole(p.fsm, p.carry, body).ending == Starved
  {
    hide Whole, Copied, Lost, Yielded;
    var q := FeedBatches(Start(f, carry), batches[..|batches| - 1], body);
    if q.live {
      var data := q.carry + batches[|batches| - 1];
      CopiedAppend(q.fsm, data, [], body);
      WholeAppend(q.fsm, data, [], body);
      var r := Whole(q.fsm, data, body);
      assert data + [] == data && r.rest + [] == r.rest;
    }
  }

  /** For every cut of a stream: the data of the reply is what was handed out and then what was
      lost, and that is the end of what would be lost if the stream came in one batch. The loop
      goes on exactly if the reply is not over. */
  lemma {:induction false} AnyCut(f: Fsm, carry: seq<Byte>, batches: seq<seq<Byte>>, body: BodyParser)
    requires batches != []
    ensures var p := FeedBatches(Start(f, carry), batches, body); var all := carry + Flat(batches);
      && p.handed + p.lost == Copied(f, all, body)
      && Suffix(p.lost, Lost(f, all, body, []))
      && (p.live <==> Whole(f, all, body).ending == Starved)
  {
    hide FeedBatches, Whole, Copied, Lost, Flat, Suffix;
    BatchesConserve(f, carry, batches, [], body);
    BatchesOnPar(f, carry, batches, [], body);
    DryAfterBatch(f, carry, batches, body);
    var p := FeedBatches(Start(f, carry), batches, body);
    assert Flat(batches) + [] == Flat(batches) && p.carry + [] == p.carry;
    assert p.handed + p.lost + [] == p.handed + p.lost;
    EmptySuffix(Lost(f, carry + Flat(batches), body, []));
  }

  lemma {:induction false} EmptySuffix(b: seq<Byte>)
    ensures Suffix([], b)
  {
  }

  /** In one batch, what is lost is what the whole stream loses. */
  lemma {:induction false} InOneBatch(f: Fsm, carry: seq<Byte>, stream: seq<Byte>, body: BodyParser)
    ensures Flat([stream]) == stream
    ensures FeedBatches(Start(f, carry), [stream], body).lost == Lost(f, carry + stream, body, [])
  {
    hide Whole, Lost, Yielded;
    FlatOne([], stream);
    OneMoreBatch(Start(f, carry), [], stream, body);
    assert [] + [stream] == [stream] && [] + stream == stream;
  }

  // ----- what a stream loses, by its messages

  /** The messages that the machine takes before the one that ends the reply. */
  function Took(f: Fsm, bytes: seq<Byte>, body: BodyParser): seq<BackendMessage>
    decreases |bytes|
  {
    match ParseMessage(bytes, body)
    case Complete(m, size) =>
      var s := Resume(f, m);
      if s.verdict.Read? then [m] + Took(s.fsm, bytes[size..], body) else []
    case _ => []
  }

  /** The messages after the last one that ends a copy. */
  function Open(ms: seq<BackendMessage>): seq<BackendMessage> {
    if ms == [] then []
    else if exists k :: 1 <= k < |ms| && EndsCopy(ms[k]) then Open(ms[1..])
    else if EndsCopy(ms[0]) then ms[1..]
    else ms
  }

  predicate HasEnd(ms: seq<BackendMessage>) {
    exists k :: 0 <= k < |ms| && EndsCopy(ms[k])
  }

  lemma {:induction false} OpenHead(m: BackendMessage, ms: seq<BackendMessage>)
    ensures Open([m] + ms) == if HasEnd(ms) then Open(ms) else if EndsCopy(m) then ms else [m] + ms
    ensures HasEnd([m] + ms) <==> EndsCopy(m) || HasEnd(ms)
  {
    var all := [m] + ms;
    assert all[1..] == ms && all[0] == m;
    assert forall k | 0 <= k < |ms| :: all[k + 1] == ms[k];
    if HasEnd(ms) {
      var k :| 0 <= k < |ms| && EndsCopy(ms[k]);
      assert EndsCopy(all[k + 1]);
    }
  }

  lemma {:induction false} OpenAll(ms: seq<BackendMessage>)
    requires !HasEnd(ms)
    ensures Open(ms) == ms
  {
  }

  /** What a batch loses: nothing if it needs more bytes, and otherwise the data after the last
      end of a copy. */
  lemma {:induction false} LostIs(f: Fsm, bytes: seq<Byte>, body: BodyParser, held: seq<Byte>)
    ensures var ms := Took(f, bytes, body);
      Lost(f, bytes, body, held) ==
        if Whole(f, bytes, body).ending == Starved then []
        else if HasEnd(ms) then Payload(Open(ms)) else held + Payload(ms)
    decreases |bytes|
  {
    hide Resume, ParseMessage, HasEnd, Open, Payload;
    NoPayload();
    var p := ParseMessage(bytes, body);
    if p.Complete? && Resume(f, p.msg).verdict.Read? {
      var m, g, rest := p.msg, Resume(f, p.msg).fsm, bytes[p.size..];
      var ms := Took(g, rest, body);
      OpenHead(m, ms);
      PayloadHead(m, ms);
      if m.kind == CopyData {
        LostIs(g, rest, body, held + m.body);
        assert held + m.body + Payload(ms) == held + (m.body + Payload(ms));
      } else if EndsCopy(m) {
        LostIs(g, rest, body, []);
        assert [] + Payload(ms) == Payload(ms);
      } else {
        LostIs(g, rest, body, held);
        assert [] + Payload(ms) == Payload(ms);
      }
    } else {
      assert held + [] == held;
    }
  }

  lemma {:induction false} NoPayload()
    ensures Payload([]) == [] && !HasEnd([]) && Open([]) == []
  {
  }

  /** Some data stands after the last end of a copy. */
  ghost predicate DataLeftOpen(ms: seq<BackendMessage>) {
    exists i: nat :: OpenAt(ms, i)
  }

  /** Data at i, and no end of a copy after it. */
  predicate OpenAt(ms: seq<BackendMessage>, i: nat) {
    i < |ms| && Copy(ms[i]) != [] && forall k | i < k < |ms| :: !EndsCopy(ms[k])
  }

  lemma {:induction false} OpenAtTail(m: BackendMessage, ms: seq<BackendMessage>, i: nat)
    ensures OpenAt([m] + ms, i + 1) <==> OpenAt(ms, i)
  {
    hide Copy, EndsCopy;
    var all := [m] + ms;
    assert forall k | 0 <= k < |ms| :: all[k + 1] == ms[k];
    if OpenAt(ms, i) {
      assert forall k | i + 1 < k < |all| :: all[k] == ms[k - 1];
    }
    if OpenAt(all, i + 1) {
      assert forall k | i < k < |ms| :: ms[k] == all[k + 1] && !EndsCopy(ms[k]);
    }
  }

  lemma {:induction false} OpenAtHead(m: BackendMessage, ms: seq<BackendMessage>)
    ensures OpenAt([m] + ms, 0) <==> Copy(m) != [] && !HasEnd(ms)
  {
    hide Copy, EndsCopy;
    var all := [m] + ms;
    if OpenAt(all, 0) {
      assert forall k | 0 <= k < |ms| :: ms[k] == all[k + 1] && !EndsCopy(ms[k]);
    }
    if !HasEnd(ms) {
      assert forall k | 0 < k < |all| :: all[k] == ms[k - 1];
    }
  }

  lemma {:induction false} DataLeftOpenHead(m: BackendMessage, ms: seq<BackendMessage>)
    ensures DataLeftOpen([m] + ms) <==> DataLeftOpen(ms) || (Copy(m) != [] && !HasEnd(ms))
  {
    hide OpenAt, HasEnd;
    OpenAtHead(m, ms);
    if i: nat :| OpenAt([m] + ms, i) {
      if i > 0 {
        OpenAtTail(m, ms, i - 1);
      }
    }
    if i: nat :| OpenAt(ms, i) {
      OpenAtTail(m, ms, i);
    }
  }

  /** The two readings of the condition agree. */
  lemma {:induction false} OpenDataExactly(ms: seq<BackendMessage>)
    ensures Payload(Open(ms)) != [] <==> DataLeftOpen(ms)
  {
    hide Copy, Payload, EndsCopy;
    if ms == [] {
      NoPayload();
    } else {
      var m, rest := ms[0], ms[1..];
      assert [m] + rest == ms;
      OpenDataExactly(rest);
      OpenHead(m, rest);
      DataLeftOpenHead(m, rest);
      if !HasEnd(rest) {
        OpenAll(rest);
        PayloadHead(m, rest);
        EndIsNoCopy(m);
      }
    }
  }

  lemma {:induction false} EndIsNoCopy(m: BackendMessage)
    ensures EndsCopy(m) ==> Copy(m) == []
  {
  }

  /** All the data of a reply is handed out, however the stream is cut into batches, if and only
      if the reply is not over, or no data stands between the last CopyDone or ErrorResponse and
      the message that ends it. */
  lemma {:induction false} EveryCutHandsOutAll(f: Fsm, carry: seq<Byte>, stream: seq<Byte>, body: BodyParser)
    ensures var all := carry + stream;
      (forall batches: seq<seq<Byte>> | batches != [] && Flat(batches) == stream ::
         FeedBatches(Start(f, carry), batches, body).handed == Copied(f, all, body))
      <==> Whole(f, all, body).ending == Starved || !DataLeftOpen(Took(f, all, body))
  {
    hide FeedBatches, Whole, Copied, Lost, Flat, Took, DataLeftOpen;
    var all := carry + stream;
    LostExactly(f, all, body);
    if Lost(f, all, body, []) == [] {
      forall batches: seq<seq<Byte>> | batches != [] && Flat(batches) == stream
        ensures FeedBatches(Start(f, carry), batches, body).handed == Copied(f, all, body)
      {
        AnyCut(f, carry, batches, body);
        var p := FeedBatches(Start(f, carry), batches, body);
        assert p.lost == [] && p.handed + [] == p.handed;
      }
    } else {
      InOneBatch(f, carry, stream, body);
      AnyCut(f, carry, [stream], body);
      assert FeedBatches(Start(f, carry), [stream], body).handed != Copied(f, all, body);
    }
  }

  /** Something is lost, if the stream comes in one batch, exactly if data is left open. */
  lemma {:induction false} LostExactly(f: Fsm, bytes: seq<Byte>, body: BodyParser)
    ensures Lost(f, bytes, body, []) == [] <==> Whole(f, bytes, body).ending == Starved || !DataLeftOpen(Took(f, bytes, body))
  {
    hide Whole, Lost, Took, DataLeftOpen, Payload, HasEnd, Open;
    var ms := Took(f, bytes, body);
    LostIs(f, bytes, body, []);
    OpenDataExactly(ms);
    if !HasEnd(ms) {
      OpenAll(ms);
      assert [] + Payload(ms) == Payload(ms);
    }
  }

  /** A reply that ends well leaves no data open. */
  lemma {:induction false} EndsWellIsClosed(f: Fsm, bytes: seq<Byte>, body: BodyParser)
    requires Consistent(f) && Whole(f, bytes, body).ending == Ended(None)
    ensures !DataLeftOpen(Took(f, bytes, body))
  {
    hide Whole, Lost, Took, DataLeftOpen, Consistent;
    NothingLost(f, bytes, body, []);
    LostExactly(f, bytes, body);
  }

  /** A parser that knows the start of a COPY OUT and its data. */
  function TwoKinds(kind: Byte, rest: seq<Byte>): BodyResult {
    Parsed(if kind == 72 then CopyOutResponse else CopyData)
  }

  /** The cut matters: a copy of one byte and then a malformed message. If all of it is there at
      once the byte is lost, and if the copy arrives before the rest it is handed out. */
  lemma {:induction false} TheCutMatters()
    ensures var f := Init([Execute, Sync], true);
      var copy: seq<Byte> := [72, 0, 0, 0, 4] + [100, 0, 0, 0, 5, 120]; var bad: seq<Byte> := [0, 0, 0, 0, 0];
      && FeedBatches(Start(f, []), [copy + bad], TwoKinds).handed == []
      && FeedBatches(Start(f, []), [copy, bad], TwoKinds).handed == [120]
  {
    hide Yielded, Lost, ParseMessage, Resume, Whole, FeedBatches;
    var body := TwoKinds;
    var f := Init([Execute, Sync], true);
    var g := f.(phase := ExecCopyOut);
    var begin: seq<Byte>, data: seq<Byte>, bad: seq<Byte> := [72, 0, 0, 0, 4], [100, 0, 0, 0, 5, 120], [0, 0, 0, 0, 0];
    var copy := begin + data;
    BeginCopies(f, begin, body);
    OneByteCopied(g, data, body);
    BadMessage(g, bad, body);
    CopyThen(f, g, begin, data, bad, body);
    CopyThen(f, g, begin, data, [], body);
    assert copy + [] == copy;
    AtOnce(f, copy + bad, body);
    InTwo(f, g, copy, bad, body);
  }

  lemma {:induction false} AtOnce(f: Fsm, all: seq<Byte>, body: BodyParser)
    requires Yielded(f, all, body, []) == []
    ensures FeedBatches(Start(f, []), [all], body).handed == []
  {
    hide Yielded, Lost, Whole;
    OneMoreBatch(Start(f, []), [], all, body);
    assert [] + [all] == [all] && [] + all == all;
  }

  lemma {:induction false} InTwo(f: Fsm, g: Fsm, copy: seq<Byte>, bad: seq<Byte>, body: BodyParser)
    requires Yielded(f, copy, body, []) == [120] && Yielded(g, bad, body, []) == []
    requires var r := Whole(f, copy, body); r.ending == Starved && r.fsm == g && r.rest == []
    ensures FeedBatches(Start(f, []), [copy, bad], body).handed == [120]
  {
    hide Yielded, Lost, Whole;
    OneMoreBatch(Start(f, []), [], copy, body);
    OneMoreBatch(Start(f, []), [copy], bad, body);
    assert [] + [copy] == [copy] && [copy] + [bad] == [copy, bad] && [] + copy == copy && [] + bad == bad;
  }

  lemma {:induction false} BadMessage(g: Fsm, bad: seq<Byte>, body: BodyParser)
    requires bad == [0, 0, 0, 0, 0]
    ensures Yielded(g, bad, body, [120]) == [] && Yielded(g, bad, body, []) == [] && Yielded(g, [], body, [120]) == [120]
    ensures Whole(g, [], body) == Result(Starved, g, [], [])
  {
    assert ParseMessage(bad, body).Broken?;
  }

  /** The start of a copy and one byte of it, and the rest. */
  lemma {:induction false} CopyThen(f: Fsm, g: Fsm, begin: seq<Byte>, data: seq<Byte>, rest: seq<Byte>, body: BodyParser)
    requires ParseMessage(begin, body) == Complete(BackendMessage(CopyOutResponse, []), 5) && |begin| == 5
    requires var s := Resume(f, BackendMessage(CopyOutResponse, [])); s.verdict == Read && s.fsm == g
    requires ParseMessage(data, body) == Complete(BackendMessage(CopyData, [120]), 6) && |data| == 6
    requires var s := Resume(g, BackendMessage(CopyData, [120])); s.verdict == Read && s.fsm == g
    ensures Yielded(f, begin + data + rest, body, []) == Yielded(g, rest, body, [120])
    ensures var r := Whole(f, begin + data + rest, body); var t := Whole(g, rest, body);
      r.ending == t.ending && r.fsm == t.fsm && r.rest == t.rest
  {
    hide Yielded, ParseMessage, Resume, Whole;
    FrontMessage(f, begin, data + rest, body, []);
    FrontMessage(g, data, rest, body, []);
    assert begin + data + rest == begin + (data + rest);
    assert [] + [120] == [120];
  }

  lemma {:induction false} BeginCopies(f: Fsm, begin: seq<Byte>, body: BodyParser)
    requires f == Init([Execute, Sync], true) && begin == [72, 0, 0, 0, 4] && body(72, []) == Parsed(CopyOutResponse)
    ensures ParseMessage(begin, body) == Complete(BackendMessage(CopyOutResponse, []), 5)
    ensures var s := Resume(f, BackendMessage(CopyOutResponse, [])); s.verdict == Read && s.fsm == f.(phase := ExecCopyOut)
  {
    assert begin[5..5] == [];
    assert SkipFlush(f.messages, 0) == 0;
  }

  lemma {:induction false} OneByteCopied(g: Fsm, data: seq<Byte>, body: BodyParser)
    requires g == Init([Execute, Sync], true).(phase := ExecCopyOut) && data == [100, 0, 0, 0, 5, 120]
    requires body(100, [120]) == Parsed(CopyData)
    ensures ParseMessage(data, body) == Complete(BackendMessage(CopyData, [120]), 6)
    ensures var s := Resume(g, BackendMessage(CopyData, [120])); s.verdict == Read && s.fsm == g
  {
    assert data[5..6] == [120];
    assert SkipFlush(g.messages, 0) == 0;
  }

  /** A whole message at the front of a batch, and the rest. */
  lemma {:induction false} FrontMessage(f: Fsm, front: seq<Byte>, rest: seq<Byte>, body: BodyParser, held: seq<Byte>)
    requires var p := ParseMessage(front, body); p.Complete? && p.size == |front| && Resume(f, p.msg).verdict.Read?
    ensures var m := ParseMessage(front, body).msg; var g := Resume(f, m).fsm;
      && Yielded(f, front + rest, body, held) ==
           (if m.kind == CopyData then Yielded(g, rest, body, held + m.body)
            else if m.kind == CopyDone || m.kind == ErrorResponse then held + Yielded(g, rest, body, [])
            else Yielded(g, rest, body, held))
      && Whole(f, front + rest, body).ending == Whole(g, rest, body).ending
      && Whole(f, front + rest, body).fsm == Whole(g, rest, body).fsm
      && Whole(f, front + rest, body).rest == Whole(g, rest, body).rest
  {
    ParseStable(front, rest, body);
    hide Resume, ParseMessage;
    assert (front + rest)[|front|..] == rest;
  }
}
