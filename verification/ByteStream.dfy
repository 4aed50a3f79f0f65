/** From bytes to messages: framing (src/messages.cpp) and the loop that executes a request
    (src/exec_fsm.cpp). */
module ByteStream {
  import opened Messages
  import opened ResponseFsm
  import opened ReadBuffer
  import opened DataRows

  /** The parser of message bodies: the kind of the message, or why it is malformed. The body
      itself is kept as it came. */
  datatype BodyResult = Parsed(kind: Kind) | Malformed(error: ClientError)

  type BodyParser = (Byte, seq<Byte>) -> BodyResult

  datatype ParseResult = Complete(msg: BackendMessage, size: nat) | NeedsMore(missing: nat) | Broken(error: ClientError)

  // ----- framing

  /** The length field. */
  function Length(data: seq<Byte>): int
    requires |data| >= 5
  {
    Int32(data, 1)
  }

  /** parse_message. */
  function ParseMessage(data: seq<Byte>, body: BodyParser): (r: ParseResult)
    ensures r.Complete? ==> 5 <= r.size <= |data| && r.msg.body == data[5..r.size]
    ensures r.NeedsMore? ==> r.missing > 0 && |data| + r.missing <= 0x8000_0000
  {
    if |data| < 5 then NeedsMore(5 - |data|)
    else if Length(data) < 4 then Broken(ProtocolValueError)
    else
      var required := Length(data) + 1;
      if |data| < required then NeedsMore(required - |data|)
      else match body(data[0], data[5..required])
        case Malformed(e) => Broken(e)
        case Parsed(kind) => Complete(BackendMessage(kind, data[5..required]), required)
  }

  /** message_missing_bytes. */
  function MissingBytes(data: seq<Byte>): nat {
    if |data| < 5 then 5 - |data|
    else if Length(data) < 4 then 0
    else if |data| < Length(data) + 1 then Length(data) + 1 - |data|
    else 0
  }

  /** The two ways of asking for more bytes agree. */
  lemma {:induction false} MissingBytesAgrees(data: seq<Byte>, body: BodyParser)
    ensures MissingBytes(data) == match ParseMessage(data, body) case NeedsMore(n) => n case _ => 0
  {
  }

  /** Parsing never changes its mind: a message or an error stays what it is when more bytes
      arrive, and fewer bytes than the missing ones do not complete a message. */
  lemma {:induction false} ParseStable(data: seq<Byte>, more: seq<Byte>, body: BodyParser)
    ensures var r := ParseMessage(data, body);
      if r.NeedsMore? then |more| < r.missing ==> ParseMessage(data + more, body).NeedsMore?
      else ParseMessage(data + more, body) == r
  {
    var all := data + more;
    if |data| >= 5 {
      assert forall i | 0 <= i < 5 :: all[i] == data[i];
      assert Length(all) == Length(data);
      if 4 <= Length(data) < |data| {
        assert all[5..Length(data) + 1] == data[5..Length(data) + 1];
      }
    }
  }

  /** The bytes start with the frame of a body. */
  predicate StartsWithFrame(data: seq<Byte>, letter: Byte, b: Text) {
    |b| < 0x7fff_fffc && |b| + 5 <= |data| && data[..|b| + 5] == Frame(letter, b)
  }

  lemma {:induction false} FrameIs(data: seq<Byte>, letter: Byte, b: Text)
    ensures StartsWithFrame(data, letter, b) <==>
      |data| >= 5 && 4 <= Int32(data, 1) < |data| && data[0] == letter && b == data[5..Int32(data, 1) + 1]
  {
    hide Int32, Bytes32;
    if StartsWithFrame(data, letter, b) {
      var f := Frame(letter, b);
      assert data[0] == f[0] && data[1..5] == data[..|b| + 5][1..5] == f[1..5] == Bytes32(|b| + 4);
      Int32Bytes(|b| + 4, data, 1);
      assert data[5..|b| + 5] == data[..|b| + 5][5..] == f[5..] == b;
    }
    if |data| >= 5 && 4 <= Int32(data, 1) < |data| && data[0] == letter && b == data[5..Int32(data, 1) + 1] {
      BytesInt32(data, 1);
      var n := Int32(data, 1) + 1;
      assert data[..n] == [data[0]] + data[1..5] + data[5..n];
    }
  }

  /** The parser, by frames: a message exactly if the bytes start with the frame of a body that is
      one; malformed exactly if they start with the frame of a body that is malformed, or with a
      length below four. */
  lemma {:induction false} ParseExactly(data: seq<Byte>, body: BodyParser, letter: Byte, b: Text)
    ensures StartsWithFrame(data, letter, b) ==>
      ParseMessage(data, body) ==
        match body(letter, b) case Malformed(e) => Broken(e) case Parsed(kind) => Complete(BackendMessage(kind, b), |b| + 5)
    ensures ParseMessage(data, body).Complete? ==> StartsWithFrame(data, data[0], ParseMessage(data, body).msg.body)
    ensures ParseMessage(data, body).Broken? && !(exists x, c :: StartsWithFrame(data, x, c)) ==>
      |data| >= 5 && Int32(data, 1) < 4 && ParseMessage(data, body) == Broken(ProtocolValueError)
  {
    hide Int32, StartsWithFrame;
    FrameIs(data, letter, b);
    if |data| >= 5 && 4 <= Int32(data, 1) < |data| {
      FrameIs(data, data[0], data[5..Int32(data, 1) + 1]);
    }
  }

  /** Messages as a server frames them. */
  datatype Framed = Framed(letter: Byte, body: Text)

  function Stream(fs: seq<Framed>): seq<Byte>
    requires forall i | 0 <= i < |fs| :: |fs[i].body| < 0x7fff_fffc
  {
    if fs == [] then [] else Frame(fs[0].letter, fs[0].body) + Stream(fs[1..])
  }

  /** Every list of messages comes back from its frames. */
  lemma {:induction false} FramesRoundTrip(fs: seq<Framed>, ms: seq<BackendMessage>, body: BodyParser)
    requires |fs| == |ms| && forall i | 0 <= i < |fs| :: |fs[i].body| < 0x7fff_fffc
    requires forall i | 0 <= i < |fs| :: body(fs[i].letter, fs[i].body) == Parsed(ms[i].kind) && ms[i].body == fs[i].body
    ensures Frames(Stream(fs), body) == ms
    decreases |fs|
  {
    hide ParseMessage, Frame;
    if fs == [] {
      NoBytes(body);
    } else {
      var data, f, rest := Stream(fs), fs[0], Stream(fs[1..]);
      FrameSize(f);
      assert data[..|f.body| + 5] == Frame(f.letter, f.body) && data[|f.body| + 5..] == rest;
      ParseExactly(data, body, f.letter, f.body);
      assert forall i | 0 <= i < |fs[1..]| :: fs[1..][i] == fs[i + 1] && ms[1..][i] == ms[i + 1];
      FramesRoundTrip(fs[1..], ms[1..], body);
      assert [ms[0]] + ms[1..] == ms;
    }
  }

  lemma {:induction false} FrameSize(f: Framed)
    requires |f.body| < 0x7fff_fffc
    ensures |Frame(f.letter, f.body)| == |f.body| + 5
  {
  }

  lemma {:induction false} NoBytes(body: BodyParser)
    ensures Frames([], body) == []
  {
  }

  // ----- the whole stream at once

  datatype Ending = Ended(error: Option<ClientError>) | Starved | Corrupt(why: ClientError) | Faulted

  datatype Result = Result(ending: Ending, fsm: Fsm, calls: seq<Call>, rest: seq<Byte>)

  /** The reply read from a stream that is all there: how it ends, the callbacks, and the bytes
      that are not consumed. */
  function Whole(f: Fsm, bytes: seq<Byte>, body: BodyParser): Result
    decreases |bytes|
  {
    match ParseMessage(bytes, body)
    case NeedsMore(_) => Result(Starved, f, [], bytes)
    case Broken(e) => Result(Corrupt(e), f, [], bytes)
    case Complete(m, size) =>
      var s := Resume(f, m);
      match s.verdict
      case Done(e) => Result(Ended(e), s.fsm, s.calls, bytes[size..])
      case Fault => Result(Faulted, s.fsm, s.calls, bytes[size..])
      case Read =>
        var r := Whole(s.fsm, bytes[size..], body);
        r.(calls := s.calls + r.calls)
  }

  /** The messages of a stream, up to the first one that is incomplete or malformed. */
  function Frames(bytes: seq<Byte>, body: BodyParser): seq<BackendMessage>
    decreases |bytes|
  {
    match ParseMessage(bytes, body)
    case Complete(m, size) => [m] + Frames(bytes[size..], body)
    case _ => []
  }

  /** Reading bytes is running the machine on the messages of the stream. */
  lemma {:induction false} WholeIsRun(f: Fsm, bytes: seq<Byte>, body: BodyParser)
    ensures var r := Whole(f, bytes, body); var s := Run(f, Frames(bytes, body));
      && r.fsm == s.fsm && r.calls == s.calls
      && match s.verdict
         case Done(e) => r.ending == Ended(e)
         case Fault => r.ending == Faulted
         case Read => r.ending == Starved || r.ending.Corrupt?
    decreases |bytes|
  {
    var p := ParseMessage(bytes, body);
    if p.Complete? {
      hide Resume, ParseMessage;
      var rest := Frames(bytes[p.size..], body);
      assert ([p.msg] + rest)[0] == p.msg && ([p.msg] + rest)[1..] == rest;
      if Resume(f, p.msg).verdict.Read? {
        WholeIsRun(Resume(f, p.msg).fsm, bytes[p.size..], body);
      }
    }
  }

  /** More bytes: a reply that ended keeps its end, and one that starved goes on. */
  function Continue(r: Result, more: seq<Byte>, body: BodyParser): Result {
    if r.ending == Starved then
      var t := Whole(r.fsm, r.rest + more, body);
      t.(calls := r.calls + t.calls)
    else r.(rest := r.rest + more)
  }

  /** Chunking does not matter: what a stream gives is what its first part gives, continued
      with the rest. */
  lemma {:induction false} WholeAppend(f: Fsm, bytes: seq<Byte>, more: seq<Byte>, body: BodyParser)
    ensures Whole(f, bytes + more, body) == Continue(Whole(f, bytes, body), more, body)
    decreases |bytes|
  {
    ParseStable(bytes, more, body);
    var p := ParseMessage(bytes, body);
    hide Resume, ParseMessage;
    if p.Complete? {
      assert (bytes + more)[p.size..] == bytes[p.size..] + more;
      var s := Resume(f, p.msg);
      if s.verdict.Read? {
        WholeAppend(s.fsm, bytes[p.size..], more, body);
        AddCalls(s.calls, Whole(s.fsm, bytes[p.size..], body), more, body);
      }
    } else if p.NeedsMore? {
      var t := Whole(f, bytes + more, body);
      assert [] + t.calls == t.calls;
    }
  }

  lemma {:induction false} AddCalls(calls: seq<Call>, r: Result, more: seq<Byte>, body: BodyParser)
    ensures var t := Continue(r, more, body);
      Continue(r.(calls := calls + r.calls), more, body) == t.(calls := calls + t.calls)
  {
    hide Whole;
    if r.ending == Starved {
      var t := Whole(r.fsm, r.rest + more, body);
      assert calls + r.calls + t.calls == calls + (r.calls + t.calls);
    }
  }

  // ----- the loop that executes a request

  /** How many bytes a read of the connection stores: at least one, at most what there is
      room and data for; the rest is up to the connection. */
  function ReadSize(wish: nat, room: nat, available: nat): (n: nat)
    requires room > 0 && available > 0
    ensures 1 <= n <= room && n <= available
  {
    var n := if wish == 0 then 1 else wish;
    Cap(Cap(n, room), available)
  }

  function Cap(n: nat, limit: nat): nat { if n <= limit then n else limit }

  /** Make room for the missing bytes, and let the connection store some of what it has. */
  method ReadSome(b: Buffer, missing: nat, stream: seq<Byte>, used: nat, wish: nat) returns (used': nat)
    requires b.Valid() && missing > 0 && |b.Contents()| + missing <= 0x8000_0000 && used < |stream|
    modifies b, b.bytes
    ensures b.Valid() && (b.bytes == old(b.bytes) || fresh(b.bytes))
    ensures used < used' <= |stream| && b.Contents() == old(b.Contents()) + stream[used..used']
  {
    hide IsPowerOfTwo, ReadSize;
    b.Prepare(missing);
    var room := b.bytes.Length - b.prepared;
    var n := ReadSize(wish, room, |stream| - used);
    used' := used + n;
    var data := stream[used..used'];
    b.Fill(data);
    assert |b.Prepared()| == room;
    b.Commit(n);
  }

  /** The read loop of exec_fsm: whatever the sizes of the reads, it makes the callbacks and
      ends in the way that reading the whole stream at once does, and what it does not
      consume is left in the buffer and the connection. A connection that has no more data
      reports an error. */
  method Execute(b: Buffer, fsm: ReadResponseFsm, stream: seq<Byte>, wish: nat -> nat, body: BodyParser)
    returns (ending: Ending, used: nat)
    requires b.Valid() && Consistent(fsm.State())
    modifies b, b.bytes, fsm
    ensures b.Valid() && used <= |stream| && ending != Faulted
    ensures var r := Whole(old(fsm.State()), old(b.Contents()) + stream, body);
      && ending == r.ending && fsm.State() == r.fsm && fsm.calls == old(fsm.calls) + r.calls
      && b.Contents() + stream[used..] == r.rest
  {
    hide Resume, ParseMessage, Consistent, Whole;
    used := 0;
    var turn := 0;
    ghost var whole := Whole(fsm.State(), b.Contents() + stream, body);
    assert stream[0..] == stream;
    while true
      invariant b.Valid() && (b.bytes == old(b.bytes) || fresh(b.bytes))
      invariant used <= |stream| && Consistent(fsm.State())
      invariant Joined(fsm.calls, Whole(fsm.State(), b.Contents() + stream[used..], body), old(fsm.calls), whole)
      decreases 2 * (|stream| - used) + |b.Contents()|
    {
      var data := b.bytes[b.committed..b.prepared];
      var p := ParseMessage(data, body);
      WholeStep(fsm.State(), data, stream[used..], body);
      match p {
        case Complete(m, size) =>
          ghost var f, calls := fsm.State(), fsm.calls;
          var v := fsm.ResumeInPlace(m);
          b.Consume(size);
          assert b.Contents() == data[size..];
          if v.Done? {
            return Ended(v.error), used;
          }
          JoinedStep(calls, Resume(f, m).calls, Whole(fsm.State(), b.Contents() + stream[used..], body), old(fsm.calls), whole);
        case NeedsMore(missing) =>
          if used == |stream| {
            return Starved, used;
          }
          ghost var was := used;
          used := ReadSome(b, missing, stream, used, wish(turn));
          turn := turn + 1;
          assert data + stream[was..] == b.Contents() + stream[used..];
        case Broken(e) =>
          return Corrupt(e), used;
      }
    }
  }

  /** One message at the front of the buffer, and what the connection still has. */
  lemma {:induction false} WholeStep(f: Fsm, data: seq<Byte>, more: seq<Byte>, body: BodyParser)
    ensures var r := Whole(f, data + more, body);
      match ParseMessage(data, body)
      case NeedsMore(_) => more == [] ==> r == Result(Starved, f, [], data + more)
      case Broken(e) => r == Result(Corrupt(e), f, [], data + more)
      case Complete(m, size) =>
        var s := Resume(f, m);
        match s.verdict
        case Done(e) => r == Result(Ended(e), s.fsm, s.calls, data[size..] + more)
        case Fault => r == Result(Faulted, s.fsm, s.calls, data[size..] + more)
        case Read => var t := Whole(s.fsm, data[size..] + more, body); r == t.(calls := s.calls + t.calls)
  {
    ParseStable(data, more, body);
    hide ParseMessage, Resume;
    match ParseMessage(data, body) {
      case NeedsMore(_) => assert more == [] ==> data + more == data;
      case Complete(m, size) => assert (data + more)[size..] == data[size..] + more;
      case _ =>
    }
  }

  /** The result r after the calls made so far is the result of the whole stream. */
  ghost predicate Joined(calls: seq<Call>, r: Result, before: seq<Call>, whole: Result) {
    r.ending == whole.ending && r.fsm == whole.fsm && r.rest == whole.rest && calls + r.calls == before + whole.calls
  }

  lemma {:induction false} JoinedStep(calls: seq<Call>, made: seq<Call>, r: Result, before: seq<Call>, whole: Result)
    requires Joined(calls, r.(calls := made + r.calls), before, whole)
    ensures Joined(calls + made, r, before, whole)
  {
    assert calls + (made + r.calls) == calls + made + r.calls;
  }
}
