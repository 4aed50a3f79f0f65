/** COPY OUT: the loop that reads a reply and hands the copied data to the caller in batches
    (include/nativepg/protocol/detail/exec_some_fsm.hpp, src/co_connection.cpp). */
module CopyLoop {
  import opened Messages
  import opened CheckRequest
  import opened ResponseFsm
  import opened ReadBuffer
  import opened ByteStream
  import opened CopyOut

  /** What the caller gets: the start of a COPY OUT, or a batch of its data, the last one
      marked. */
  datatype Yield = Started | Batch(chunks: seq<seq<Byte>>, eof: bool)

  /** A piece of the read buffer that holds copied data. */
  datatype Range = Range(from: nat, len: nat)

  function Part(y: Yield): seq<Byte> {
    match y
    case Started => []
    case Batch(chunks, _) => Flat(chunks)
  }

  /** All the data handed to the caller. */
  function Data(ys: seq<Yield>): seq<Byte> {
    if ys == [] then []
    else Data(ys[..|ys| - 1]) + Part(ys[|ys| - 1])
  }

  /** Where the caller is told that copies begin and are over, after n bytes of data. */
  function MarksAfter(ys: seq<Yield>, n: nat): seq<Mark> {
    if ys == [] then []
    else
      var init, y := ys[..|ys| - 1], ys[|ys| - 1];
      MarksAfter(init, n) + YieldMark(y, n + |Data(init)|)
  }

  /** A last batch ends behind its own data. */
  function YieldMark(y: Yield, n: nat): seq<Mark> {
    match y
    case Started => [Begin(n)]
    case Batch(_, eof) => if eof then [End(n + |Part(y)|)] else []
  }

  predicate Inside(mem: seq<Byte>, rs: seq<Range>) {
    forall i | 0 <= i < |rs| :: rs[i].from + rs[i].len <= |mem|
  }

  /** The bytes that the ranges refer to now. */
  function Chunks(mem: seq<Byte>, rs: seq<Range>): (cs: seq<seq<Byte>>)
    requires Inside(mem, rs)
    ensures |cs| == |rs| && forall i | 0 <= i < |rs| :: cs[i] == mem[rs[i].from..rs[i].from + rs[i].len]
  {
    seq(|rs|, i requires 0 <= i < |rs| => mem[rs[i].from..rs[i].from + rs[i].len])
  }

  lemma {:induction false} OneMoreChunk(mem: seq<Byte>, rs: seq<Range>, r: Range)
    requires Inside(mem, rs) && r.from + r.len <= |mem|
    ensures Inside(mem, rs + [r])
    ensures Flat(Chunks(mem, rs + [r])) == Flat(Chunks(mem, rs)) + mem[r.from..r.from + r.len]
  {
    assert Chunks(mem, rs + [r])[..|rs|] == Chunks(mem, rs);
  }

  lemma {:induction false} OneMoreYield(ys: seq<Yield>, y: Yield)
    ensures Data(ys + [y]) == Data(ys) + Part(y)
    ensures forall n: nat :: MarksAfter(ys + [y], n) == MarksAfter(ys, n) + YieldMark(y, n + |Data(ys)|)
  {
    assert (ys + [y])[..|ys|] == ys;
  }

  lemma {:induction false} NoneHeld(mem: seq<Byte>)
    ensures Flat(Chunks(mem, [])) == [] && Data([]) == []
  {
  }

  /** The data collected, resolved now. */
  function HeldData(mem: seq<Byte>, rs: seq<Range>): seq<Byte>
    requires Inside(mem, rs)
  {
    Flat(Chunks(mem, rs))
  }

  /** What a message does to the data of the caller: collected, handed out, or nothing. */
  method React(m: BackendMessage, at: nat, mem: array<Byte>, ranges: seq<Range>, ys: seq<Yield>)
    returns (ranges': seq<Range>, ys': seq<Yield>)
    requires Inside(mem[..], ranges) && at + 5 + |m.body| <= mem.Length && mem[..][at + 5..at + 5 + |m.body|] == m.body
    ensures Reacted(m, mem[..], ranges, ys, ranges', ys')
  {
    hide Flat, Data, Chunks, MarksAfter;
    NoneHeld(mem[..]);
    ranges', ys' := ranges, ys;
    if m.kind == CopyOutResponse {
      OneMoreYield(ys, Started);
      ys' := ys + [Started];
    } else if m.kind == CopyData {
      var r := Range(at + 5, |m.body|);
      OneMoreChunk(mem[..], ranges, r);
      assert mem[..][r.from..r.from + r.len] == m.body;
      ranges' := ranges + [r];
    } else if m.kind == CopyDone || m.kind == ErrorResponse {
      var y := Batch(Chunks(mem[..], ranges), true);
      OneMoreYield(ys, y);
      ys' := ys + [y];
      ranges' := [];
    }
  }

  /** What was handed out, and what the bytes left will hand out. */
  ghost predicate Accounted(ys: seq<Yield>, mem: seq<Byte>, ranges: seq<Range>, f: Fsm, left: seq<Byte>, body: BodyParser,
      yielded: seq<Byte>)
  {
    Inside(mem, ranges) && Data(ys) + Yielded(f, left, body, HeldData(mem, ranges)) == yielded
  }

  /** The marks told, and those to come. */
  ghost predicate OnMark(ys: seq<Yield>, n: nat, held: nat, f: Fsm, left: seq<Byte>, body: BodyParser, marks: seq<Mark>) {
    MarksAfter(ys, n) + MarksFrom(f, left, body, n + |Data(ys)| + held) == marks && (held > 0 ==> InCopy(f))
  }

  lemma {:induction false} OnMarkStart(n: nat, f: Fsm, left: seq<Byte>, body: BodyParser)
    ensures OnMark([], n, 0, f, left, body, MarksFrom(f, left, body, n))
  {
    hide MarksFrom, InCopy;
    var marks := MarksFrom(f, left, body, n);
    assert [] + marks == marks;
  }

  lemma {:induction false} OnMarkStep(ys: seq<Yield>, n: nat, held: nat, f: Fsm, left: seq<Byte>, body: BodyParser, marks: seq<Mark>,
      m: BackendMessage, size: nat, ys': seq<Yield>, held': nat)
    requires OnMark(ys, n, held, f, left, body, marks) && Consistent(f)
    requires ParseMessage(left, body) == Complete(m, size) && Resume(f, m).verdict.Read?
    requires MarksAfter(ys', n) == MarksAfter(ys, n) + MarkOf(m, n + |Data(ys')|)
    requires if m.kind == CopyData then |Data(ys')| == |Data(ys)| && held' == held + |m.body|
      else if m.kind == CopyDone || m.kind == ErrorResponse then |Data(ys')| == |Data(ys)| + held && held' == 0
      else |Data(ys')| == |Data(ys)| && held' == held
    ensures OnMark(ys', n, held', Resume(f, m).fsm, left[size..], body, marks)
  {
    hide Resume, ParseMessage, Data, MarksAfter, Consistent, InCopy, MarksFrom, MarkOf, Copy;
    var g := Resume(f, m).fsm;
    var at := n + |Data(ys)| + held;
    HeldInCopy(f, m, held);
    MarksStep(f, left, body, at, m, size);
    MarkMoved(m, n + |Data(ys')|, at);
    CopySize(m);
    var a, b, c := MarksAfter(ys, n), MarkOf(m, at), MarksFrom(g, left[size..], body, at + |Copy(m)|);
    assert a + b + c == a + (b + c);
  }

  lemma {:induction false} CopySize(m: BackendMessage)
    ensures |Copy(m)| == if m.kind == CopyData then |m.body| else 0
  {
  }

  lemma {:induction false} MarksStep(f: Fsm, left: seq<Byte>, body: BodyParser, n: nat, m: BackendMessage, size: nat)
    requires ParseMessage(left, body) == Complete(m, size) && Resume(f, m).verdict.Read?
    ensures MarksFrom(f, left, body, n) == MarkOf(m, n) + MarksFrom(Resume(f, m).fsm, left[size..], body, n + |Copy(m)|)
  {
    hide ParseMessage, Resume, MarkOf, Copy;
  }

  /** Data is held only inside a copy, so that none is when a copy begins. */
  lemma {:induction false} HeldInCopy(f: Fsm, m: BackendMessage, held: nat)
    requires Consistent(f) && (held > 0 ==> InCopy(f)) && Resume(f, m).verdict.Read?
    ensures m.kind == CopyOutResponse ==> held == 0
    ensures m.kind == CopyData || (held > 0 && m.kind != CopyDone && m.kind != ErrorResponse) ==> InCopy(Resume(f, m).fsm)
  {
    hide Resume, Consistent, InCopy;
    if held > 0 {
      CopyGoesOn(f, m);
      if m.kind == CopyOutResponse {
        NoneBeginsInside(f, m);
      }
    }
    if m.kind == CopyData {
      DataInCopy(f, m);
    }
  }

  lemma {:induction false} MarkMoved(m: BackendMessage, a: nat, b: nat)
    requires a == b || (m.kind != CopyOutResponse && !EndsCopy(m))
    ensures MarkOf(m, a) == MarkOf(m, b)
  {
  }

  lemma {:induction false} OnMarkEnd(ys: seq<Yield>, n: nat, held: nat, f: Fsm, left: seq<Byte>, body: BodyParser, marks: seq<Mark>)
    requires OnMark(ys, n, held, f, left, body, marks)
    requires var p := ParseMessage(left, body); p.Complete? ==> !Resume(f, p.msg).verdict.Read?
    ensures MarksAfter(ys, n) == marks
  {
    hide ParseMessage, Resume, MarksAfter;
    assert MarksAfter(ys, n) + [] == MarksAfter(ys, n);
  }

  lemma {:induction false} AccountedStep(ys: seq<Yield>, mem: seq<Byte>, ranges: seq<Range>, f: Fsm, left: seq<Byte>, body: BodyParser,
      yielded: seq<Byte>, m: BackendMessage, size: nat, ys': seq<Yield>, ranges': seq<Range>)
    requires Accounted(ys, mem, ranges, f, left, body, yielded)
    requires ParseMessage(left, body) == Complete(m, size) && Resume(f, m).verdict.Read? && Inside(mem, ranges')
    requires var held := HeldData(mem, ranges); var held' := HeldData(mem, ranges');
      if m.kind == CopyData then Data(ys') == Data(ys) && held' == held + m.body
      else if m.kind == CopyDone || m.kind == ErrorResponse then Data(ys') == Data(ys) + held && held' == []
      else Data(ys') == Data(ys) && held' == held
    ensures Accounted(ys', mem, ranges', Resume(f, m).fsm, left[size..], body, yielded)
  {
    hide Resume, ParseMessage, HeldData, Data;
    var held, more := HeldData(mem, ranges), Yielded(Resume(f, m).fsm, left[size..], body, []);
    assert Data(ys) + held + more == Data(ys) + (held + more);
  }

  /** Data and marks, before a message of the batch. */
  ghost predicate Midway(ys: seq<Yield>, mem: seq<Byte>, ranges: seq<Range>, f: Fsm, left: seq<Byte>, body: BodyParser,
      yielded: seq<Byte>, before: nat, marks: seq<Mark>)
  {
    && Accounted(ys, mem, ranges, f, left, body, yielded)
    && OnMark(ys, before, |HeldData(mem, ranges)|, f, left, body, marks)
  }

  lemma {:induction false} MidwayStart(mem: seq<Byte>, f: Fsm, left: seq<Byte>, body: BodyParser, before: nat)
    ensures Midway([], mem, [], f, left, body, Yielded(f, left, body, []), before, MarksFrom(f, left, body, before))
  {
    hide Accounted, OnMark, Yielded, MarksFrom;
    AccountedStart(mem, f, left, body);
    OnMarkStart(before, f, left, body);
    NoneHeld(mem);
  }

  /** What a message does to the caller's data and marks. */
  ghost predicate Reacted(m: BackendMessage, mem: seq<Byte>, ranges: seq<Range>, ys: seq<Yield>, ranges': seq<Range>, ys': seq<Yield>)
    requires Inside(mem, ranges)
  {
    && Inside(mem, ranges')
    && (var held := HeldData(mem, ranges); var held' := HeldData(mem, ranges');
        if m.kind == CopyData then Data(ys') == Data(ys) && held' == held + m.body
        else if m.kind == CopyDone || m.kind == ErrorResponse then Data(ys') == Data(ys) + held && held' == []
        else Data(ys') == Data(ys) && held' == held)
    && (forall n: nat :: MarksAfter(ys', n) == MarksAfter(ys, n) + MarkOf(m, n + |Data(ys')|))
  }

  lemma {:induction false} MidwayStep(ys: seq<Yield>, mem: seq<Byte>, ranges: seq<Range>, f: Fsm, left: seq<Byte>, body: BodyParser,
      yielded: seq<Byte>, before: nat, marks: seq<Mark>, m: BackendMessage, size: nat, ys': seq<Yield>, ranges': seq<Range>)
    requires Midway(ys, mem, ranges, f, left, body, yielded, before, marks) && Consistent(f)
    requires ParseMessage(left, body) == Complete(m, size) && Resume(f, m).verdict.Read?
    requires Inside(mem, ranges) && Reacted(m, mem, ranges, ys, ranges', ys')
    ensures Midway(ys', mem, ranges', Resume(f, m).fsm, left[size..], body, yielded, before, marks)
  {
    hide Accounted, OnMark, Resume, ParseMessage, Consistent, HeldData, Data, MarksAfter, MarkOf;
    AccountedStep(ys, mem, ranges, f, left, body, yielded, m, size, ys', ranges');
    OnMarkStep(ys, before, |HeldData(mem, ranges)|, f, left, body, marks, m, size, ys', |HeldData(mem, ranges')|);
  }

  /** The batch is over: the data collected is handed out if more bytes are needed, and lost
      otherwise. */
  method Finish(ghost f: Fsm, ghost left: seq<Byte>, ghost body: BodyParser, ghost yielded: seq<Byte>, ghost before: nat,
      ghost marks: seq<Mark>, more: bool, mem: array<Byte>, ranges: seq<Range>, ys: seq<Yield>)
    returns (ys': seq<Yield>)
    requires Midway(ys, mem[..], ranges, f, left, body, yielded, before, marks)
    requires var p := ParseMessage(left, body);
      (more <==> p.NeedsMore?) && (p.Complete? ==> !Resume(f, p.msg).verdict.Read?)
    ensures Data(ys') == yielded && MarksAfter(ys', before) == marks
  {
    hide Flat, Data, Chunks, ParseMessage, Resume, MarksAfter, OnMark;
    NoneHeld(mem[..]);
    OnMarkEnd(ys, before, |HeldData(mem[..], ranges)|, f, left, body, marks);
    ys' := ys;
    if more && ranges != [] {
      var y := Batch(Chunks(mem[..], ranges), false);
      OneMoreYield(ys, y);
      ys' := ys + [y];
    }
    assert Data(ys) + [] == Data(ys);
  }

  /** The inner loop. It does not touch the buffer, so nothing is consumed or moved between
      being collected and being handed out. It hands out exactly the data that the batch
      yields. */
  method ProcessBatch(b: Buffer, fsm: ReadResponseFsm, body: BodyParser, ghost before: nat)
    returns (ending: Ending, consumed: nat, ys: seq<Yield>)
    requires b.Valid() && Consistent(fsm.State())
    modifies fsm
    ensures var r := Whole(old(fsm.State()), b.Contents(), body);
      && ending == r.ending && fsm.State() == r.fsm && fsm.calls == old(fsm.calls) + r.calls
      && consumed <= |b.Contents()| && r.rest == b.Contents()[consumed..]
    ensures ending != Faulted && (ending == Starved ==> Consistent(fsm.State()))
    ensures Data(ys) == Yielded(old(fsm.State()), b.Contents(), body, [])
    ensures MarksAfter(ys, before) == MarksFrom(old(fsm.State()), b.Contents(), body, before)
    ensures ending == Starved && MissingBytes(b.Contents()) == 0 ==> consumed > 0
  {
    hide Resume, ParseMessage, Consistent, Whole, Yielded, Data, Chunks, GoodCapacity, Midway, MissingBytes, Inside, Reacted,
      MarksAfter, MarksFrom;
    ghost var data := b.Contents();
    ghost var whole := Whole(fsm.State(), data, body);
    ghost var yielded := Yielded(fsm.State(), data, body, []);
    consumed, ys := 0, [];
    var ranges: seq<Range> := [];
    MissingBytesAgrees(data, body);
    assert data[0..] == data;
    MidwayStart(b.bytes[..], fsm.State(), data, body, before);
    ghost var marks := MarksFrom(fsm.State(), data, body, before);
    while true
      invariant consumed <= |data| && Consistent(fsm.State())
      invariant Joined(fsm.calls, Whole(fsm.State(), data[consumed..], body), old(fsm.calls), whole)
      invariant Midway(ys, b.bytes[..], ranges, fsm.State(), data[consumed..], body, yielded, before, marks)
      decreases |data| - consumed
    {
      var left := b.bytes[b.committed + consumed..b.prepared];
      assert left == data[consumed..];
      BatchStep(fsm.State(), left, body);
      match ParseMessage(left, body) {
        case NeedsMore(_) =>
          ys := Finish(fsm.State(), left, body, yielded, before, marks, true, b.bytes, ranges, ys);
          return Starved, consumed, ys;
        case Broken(e) =>
          ys := Finish(fsm.State(), left, body, yielded, before, marks, false, b.bytes, ranges, ys);
          return Corrupt(e), consumed, ys;
        case Complete(m, size) =>
          ghost var f, calls := fsm.State(), fsm.calls;
          var at := b.committed + consumed;
          BodyInBuffer(b.bytes[..], at, b.prepared, m.body, size);
          var v := fsm.ResumeInPlace(m);
          consumed := consumed + size;
          assert data[consumed..] == left[size..];
          if v.Done? {
            ys := Finish(f, left, body, yielded, before, marks, false, b.bytes, ranges, ys);
            return Ended(v.error), consumed, ys;
          }
          JoinedStep(calls, Resume(f, m).calls, Whole(fsm.State(), data[consumed..], body), old(fsm.calls), whole);
          ghost var ys0, ranges0 := ys, ranges;
          MidwayInside(ys, b.bytes[..], ranges, f, left, body, yielded, before, marks);
          ranges, ys := React(m, at, b.bytes, ranges, ys);
          MidwayStep(ys0, b.bytes[..], ranges0, f, left, body, yielded, before, marks, m, size, ys, ranges);
      }
    }
  }

  /** The body of a message at the front of what is left, as a piece of the buffer. */
  lemma {:induction false} BodyInBuffer(mem: seq<Byte>, at: nat, end: nat, body: seq<Byte>, size: nat)
    requires at <= end <= |mem| && 5 <= size <= end - at && body == mem[at..end][5..size]
    ensures at + 5 + |body| <= |mem| && mem[at + 5..at + 5 + |body|] == body
  {
    forall k | 0 <= k < |body| ensures mem[at + 5..at + 5 + |body|][k] == body[k] {
      assert body[k] == mem[at..end][5 + k];
    }
  }

  lemma {:induction false} AccountedStart(mem: seq<Byte>, f: Fsm, left: seq<Byte>, body: BodyParser)
    ensures Accounted([], mem, [], f, left, body, Yielded(f, left, body, []))
  {
    hide Yielded;
    NoneHeld(mem);
    assert [] + Yielded(f, left, body, []) == Yielded(f, left, body, []);
  }

  lemma {:induction false} MidwayInside(ys: seq<Yield>, mem: seq<Byte>, ranges: seq<Range>, f: Fsm, left: seq<Byte>, body: BodyParser,
      yielded: seq<Byte>, before: nat, marks: seq<Mark>)
    requires Midway(ys, mem, ranges, f, left, body, yielded, before, marks)
    ensures Inside(mem, ranges)
  {
    hide Yielded, HeldData, OnMark;
  }

  /** The two readings of a stream, one message on. */
  lemma {:induction false} BatchStep(f: Fsm, left: seq<Byte>, body: BodyParser)
    ensures var r := Whole(f, left, body); var c := Copied(f, left, body);
      match ParseMessage(left, body)
      case NeedsMore(_) => r == Result(Starved, f, [], left) && c == []
      case Broken(e) => r == Result(Corrupt(e), f, [], left) && c == []
      case Complete(m, size) =>
        var s := Resume(f, m);
        match s.verdict
        case Done(e) => r == Result(Ended(e), s.fsm, s.calls, left[size..]) && c == []
        case Fault => r == Result(Faulted, s.fsm, s.calls, left[size..]) && c == []
        case Read =>
          && (var t := Whole(s.fsm, left[size..], body); r == t.(calls := s.calls + t.calls))
          && c == Copy(m) + Copied(s.fsm, left[size..], body)
  {
    hide ParseMessage, Resume, Copy;
  }

  // ----- the whole reply

  /** read_some_messages: read until the buffer starts with a whole message. */
  method ReadMessages(b: Buffer, stream: seq<Byte>, used: nat, wish: nat -> nat, turn: nat) returns (ok: bool, used': nat, turn': nat)
    requires b.Valid() && used <= |stream|
    modifies b, b.bytes
    ensures b.Valid() && (b.bytes == old(b.bytes) || fresh(b.bytes))
    ensures used <= used' <= |stream| && b.Contents() + stream[used'..] == old(b.Contents()) + stream[used..]
    ensures ok ==> MissingBytes(b.Contents()) == 0
    ensures !ok ==> MissingBytes(b.Contents()) > 0 && used' == |stream|
  {
    hide IsPowerOfTwo;
    used', turn' := used, turn;
    while true
      invariant b.Valid() && (b.bytes == old(b.bytes) || fresh(b.bytes))
      invariant used <= used' <= |stream| && b.Contents() + stream[used'..] == old(b.Contents()) + stream[used..]
      decreases |stream| - used'
    {
      var missing := MissingBytes(b.bytes[b.committed..b.prepared]);
      if missing == 0 {
        return true, used', turn';
      }
      if used' == |stream| {
        return false, used', turn';
      }
      ghost var was, before := used', b.Contents();
      MissingBound(before);
      used' := ReadSome(b, missing, stream, used', wish(turn'));
      turn' := turn' + 1;
      assert before + stream[was..] == b.Contents() + stream[used'..];
    }
  }

  lemma {:induction false} MissingBound(data: seq<Byte>)
    requires MissingBytes(data) > 0
    ensures |data| + MissingBytes(data) <= 0x8000_0000
  {
  }

  /** What is left to do, and the data handed out so far, make up the whole reply. */
  ghost predicate OnTrack(f: Fsm, calls: seq<Call>, left: seq<Byte>, ys: seq<Yield>, before: seq<Call>, whole: Result,
      copied: seq<Byte>, body: BodyParser)
  {
    && Joined(calls, Whole(f, left, body), before, whole)
    && Data(ys) + Copied(f, left, body) == copied
  }

  lemma {:induction false} DataAppend(ys: seq<Yield>, zs: seq<Yield>)
    ensures Data(ys + zs) == Data(ys) + Data(zs)
    decreases |zs|
  {
    hide Data, Part;
    if zs == [] {
      NoneHeld([]);
      assert ys + zs == ys;
      assert Data(ys) + [] == Data(ys);
    } else {
      var last := |zs| - 1;
      var init, z := zs[..last], zs[last];
      DataAppend(ys, init);
      OneMoreYield(ys + init, z);
      OneMoreYield(init, z);
      assert init + [z] == zs && ys + init + [z] == ys + zs;
      assert Data(ys) + Data(init) + Part(z) == Data(ys) + (Data(init) + Part(z));
    }
  }

  /** A batch that needs more bytes leaves the loop on track. */
  lemma {:induction false} BatchGoesOn(f: Fsm, calls: seq<Call>, data: seq<Byte>, more: seq<Byte>, ys: seq<Yield>, zs: seq<Yield>,
      before: seq<Call>, whole: Result, copied: seq<Byte>, body: BodyParser)
    requires OnTrack(f, calls, data + more, ys, before, whole, copied, body)
    requires Whole(f, data, body).ending == Starved && Data(zs) == Copied(f, data, body)
    ensures var r := Whole(f, data, body);
      OnTrack(r.fsm, calls + r.calls, r.rest + more, ys + zs, before, whole, copied, body)
  {
    hide Whole, Copied, Data;
    WholeAppend(f, data, more, body);
    CopiedAppend(f, data, more, body);
    DataAppend(ys, zs);
    var r := Whole(f, data, body);
    var t := Whole(r.fsm, r.rest + more, body);
    JoinedStep(calls, r.calls, t, before, whole);
    var d := Copied(r.fsm, r.rest + more, body);
    assert Data(ys) + Data(zs) + d == Data(ys) + (Data(zs) + d);
  }

  /** A batch that ends the reply. */
  lemma {:induction false} BatchEnds(f: Fsm, calls: seq<Call>, data: seq<Byte>, more: seq<Byte>, ys: seq<Yield>, zs: seq<Yield>,
      before: seq<Call>, whole: Result, copied: seq<Byte>, body: BodyParser)
    requires OnTrack(f, calls, data + more, ys, before, whole, copied, body)
    requires Whole(f, data, body).ending != Starved
    ensures var r := Whole(f, data, body);
      && r.ending == whole.ending && r.fsm == whole.fsm && calls + r.calls == before + whole.calls && whole.rest == r.rest + more
      && forall l :: Data(zs) + l == Copied(f, data, body) ==> Data(ys + zs) + l == copied
  {
    hide Whole, Copied, Data;
    WholeAppend(f, data, more, body);
    CopiedAppend(f, data, more, body);
    DataAppend(ys, zs);
    forall l | Data(zs) + l == Copied(f, data, body) ensures Data(ys + zs) + l == copied {
      assert Data(ys) + Data(zs) + l == Data(ys) + (Data(zs) + l);
      assert Copied(f, data, body) + [] == Copied(f, data, body);
    }
  }

  lemma {:induction false} NothingLeft(f: Fsm, data: seq<Byte>, body: BodyParser)
    requires MissingBytes(data) > 0
    ensures Whole(f, data, body) == Result(Starved, f, [], data) && Copied(f, data, body) == []
  {
    MissingBytesAgrees(data, body);
    BatchStep(f, data, body);
    hide ParseMessage;
  }

  /** COPY OUT: whatever the sizes of the reads, the reply ends as it does when the whole
      stream is there; the data handed out is the start of the data of the reply, without what
      the last batch lost, and nothing is lost if it ends well or the connection has no more
      data. A malformed message leaves its batch in the buffer. */
  method ExecuteSome(b: Buffer, fsm: ReadResponseFsm, stream: seq<Byte>, wish: nat -> nat, body: BodyParser)
    returns (ending: Ending, used: nat, ys: seq<Yield>, ghost batches: seq<seq<Byte>>)
    requires b.Valid() && Consistent(fsm.State())
    modifies b, b.bytes, fsm
    ensures b.Valid() && used <= |stream| && ending != Faulted
    ensures var r := Whole(old(fsm.State()), old(b.Contents()) + stream, body); var left := b.Contents() + stream[used..];
      && ending == r.ending && fsm.State() == r.fsm && fsm.calls == old(fsm.calls) + r.calls && Leaves(ending, left, r.rest)
    ensures HandsOut(Goal(old(fsm.State()), old(b.Contents()), old(fsm.calls), stream, body), batches, ending, used, ys)
  {
    hide Consistent, Whole, Copied, Data, GoodCapacity, Looping, MissingBytes, FeedBatches, Flat, Yielded, Lost, HandsOut, Leaves;
    ghost var goal := Goal(fsm.State(), b.Contents(), fsm.calls, stream, body);
    used, ys, batches := 0, [], [];
    var consumed: nat, turn := 0, 0;
    LoopStart(goal);
    assert b.Contents()[0..] == b.Contents();
    while true
      invariant b.Valid() && (b.bytes == old(b.bytes) || fresh(b.bytes)) && Consistent(fsm.State())
      invariant used <= |stream| && consumed <= |b.Contents()|
      invariant Looping(goal, batches, fsm.State(), fsm.calls, b.Contents()[consumed..], used, ys)
      decreases |b.Contents()| - consumed + |stream| - used
    {
      b.Consume(consumed);
      ghost var f, calls, carry, was := fsm.State(), fsm.calls, b.Contents(), used;
      var ok;
      ok, used, turn := ReadMessages(b, stream, used, wish, turn);
      ghost var data := b.Contents();
      Arrived(carry, data, stream, was, used);
      if !ok {
        LoopDry(goal, batches, f, calls, carry, was, ys, data);
        assert stream[used..] == [] && data + [] == data;
        LeavesAll(Starved, data);
        return Starved, used, ys, batches;
      }
      ending, consumed, ys := NextBatch(b, fsm, body, goal, batches, carry, was, used, ys);
      batches := batches + [stream[was..used]];
      if ending != Starved {
        if ending.Ended? {
          b.Consume(consumed);
          LeavesAll(ending, b.Contents() + stream[used..]);
        } else {
          LeavesBatch(ending, data, consumed, stream[used..]);
        }
        return ending, used, ys, batches;
      }
    }
  }

  /** The bytes that are left are those not consumed; after a malformed message they are only
      the end of what is left. */
  predicate Leaves(ending: Ending, left: seq<Byte>, rest: seq<Byte>) {
    && (ending.Ended? || ending.Starved? ==> left == rest)
    && |rest| <= |left| && left[|left| - |rest|..] == rest
  }

  lemma {:induction false} LeavesAll(ending: Ending, rest: seq<Byte>)
    ensures Leaves(ending, rest, rest)
  {
  }

  lemma {:induction false} LeavesBatch(ending: Ending, data: seq<Byte>, n: nat, more: seq<Byte>)
    requires n <= |data| && !ending.Ended? && !ending.Starved?
    ensures Leaves(ending, data + more, data[n..] + more)
  {
  }

  /** One batch in the loop. */
  method NextBatch(b: Buffer, fsm: ReadResponseFsm, body: BodyParser, ghost g: Goal, ghost batches: seq<seq<Byte>>,
      ghost carry: seq<Byte>, ghost was: nat, ghost used: nat, ys: seq<Yield>)
    returns (ending: Ending, consumed: nat, ys': seq<Yield>)
    requires b.Valid() && Consistent(fsm.State()) && g.body == body && was <= used <= |g.stream|
    requires Looping(g, batches, fsm.State(), fsm.calls, carry, was, ys)
    requires b.Contents() == carry + g.stream[was..used] && MissingBytes(b.Contents()) == 0
    modifies fsm
    ensures consumed <= |b.Contents()| && ending != Faulted
    ensures ending == Starved ==>
      && Consistent(fsm.State()) && consumed > 0
      && Looping(g, batches + [g.stream[was..used]], fsm.State(), fsm.calls, b.Contents()[consumed..], used, ys')
    ensures ending != Starved ==>
      var whole := WholeOf(g);
      && ending == whole.ending && fsm.State() == whole.fsm && fsm.calls == g.calls + whole.calls
      && whole.rest == b.Contents()[consumed..] + g.stream[used..]
      && HandsOut(g, batches + [g.stream[was..used]], ending, used, ys')
  {
    hide Consistent, Whole, Data, GoodCapacity, Looping, MissingBytes, Yielded, HandsOut, MarksAfter, MarksFrom;
    ghost var f, calls := fsm.State(), fsm.calls;
    var zs;
    ending, consumed, zs := ProcessBatch(b, fsm, body, |Data(ys)|);
    if ending == Starved {
      LoopNext(g, batches, f, calls, carry, was, used, ys, zs);
    } else {
      LoopEnd(g, batches, f, calls, carry, was, used, ys, zs);
    }
    ys' := ys + zs;
  }

  /** What the loop hands out: the start of the data of the reply, without what the last batch
      lost, which is at most what the stream leaves open; so all of it, however the stream was
      cut, if the stream leaves nothing open, the reply ends well or the connection has no more
      data. The caller is told that a copy begins and that it is over exactly where the messages
      of the stream say so. */
  ghost predicate HandsOut(g: Goal, batches: seq<seq<Byte>>, ending: Ending, used: nat, ys: seq<Yield>) {
    var p := FeedBatches(Start(g.f, g.carry), batches, g.body);
    && used <= |g.stream| && Flat(batches) <= g.stream[..used]
    && Data(ys) == p.handed && p.handed + p.lost == CopiedOf(g)
    && MarksAfter(ys, 0) == MessageMarks(Took(g.f, g.carry + g.stream, g.body), 0)
    && Suffix(p.lost, Lost(g.f, g.carry + g.stream, g.body, []))
    && (!DataLeftOpen(Took(g.f, g.carry + g.stream, g.body)) ==> Data(ys) == CopiedOf(g))
    && (p.live <==> ending == Starved)
    && (ending == Ended(None) || ending == Starved ==> Data(ys) == CopiedOf(g))
  }

  /** What the loop works on. */
  datatype Goal = Goal(f: Fsm, carry: seq<Byte>, calls: seq<Call>, stream: seq<Byte>, body: BodyParser)

  ghost function WholeOf(g: Goal): Result {
    Whole(g.f, g.carry + g.stream, g.body)
  }

  ghost function CopiedOf(g: Goal): seq<Byte> {
    Copied(g.f, g.carry + g.stream, g.body)
  }

  /** The state of the loop, before a batch. */
  ghost predicate Looping(g: Goal, batches: seq<seq<Byte>>, f: Fsm, calls: seq<Call>, carry: seq<Byte>, used: nat, ys: seq<Yield>)
    requires used <= |g.stream|
  {
    && OnTrack(f, calls, carry + g.stream[used..], ys, g.calls, WholeOf(g), CopiedOf(g), g.body)
    && FeedBatches(Start(g.f, g.carry), batches, g.body) == Progress(f, carry, Data(ys), [], true)
    && Flat(batches) == g.stream[..used]
    && OnMark(ys, 0, 0, f, carry + g.stream[used..], g.body, MarksOf(g))
  }

  ghost function MarksOf(g: Goal): seq<Mark> {
    MarksFrom(g.f, g.carry + g.stream, g.body, 0)
  }

  /** A batch that goes on: its marks are told. */
  lemma {:induction false} MarksGoOn(ys: seq<Yield>, zs: seq<Yield>, f: Fsm, data: seq<Byte>, more: seq<Byte>, body: BodyParser, marks: seq<Mark>)
    requires OnMark(ys, 0, 0, f, data + more, body, marks)
    requires MarksAfter(zs, |Data(ys)|) == MarksFrom(f, data, body, |Data(ys)|)
    ensures var r := Whole(f, data, body);
      if r.ending == Starved then Data(zs) == Copied(f, data, body) ==> OnMark(ys + zs, 0, 0, r.fsm, r.rest + more, body, marks)
      else MarksAfter(ys + zs, 0) == marks
  {
    hide Whole, Copied, Data, MarksAfter, MarksFrom, InCopy;
    MarksAppend(f, data, more, body, |Data(ys)|);
    MarksJoin(ys, zs);
    DataAppend(ys, zs);
    var r := Whole(f, data, body);
    var a, b := MarksAfter(ys, 0), MarksFrom(f, data, body, |Data(ys)|);
    if r.ending == Starved {
      var c := MarksFrom(r.fsm, r.rest + more, body, |Data(ys)| + |Copied(f, data, body)|);
      assert a + (b + c) == a + b + c;
    } else {
      assert a + (b + []) == a + b;
    }
  }

  lemma {:induction false} MarksJoin(ys: seq<Yield>, zs: seq<Yield>)
    ensures MarksAfter(ys + zs, 0) == MarksAfter(ys, 0) + MarksAfter(zs, |Data(ys)|)
    decreases |zs|
  {
    hide Data, Part, MarksAfter, YieldMark;
    if zs == [] {
      NoMarks(|Data(ys)|);
      assert ys + zs == ys;
      assert MarksAfter(ys, 0) + [] == MarksAfter(ys, 0);
    } else {
      var last := |zs| - 1;
      var init, z := zs[..last], zs[last];
      MarksJoin(ys, init);
      DataAppend(ys, init);
      OneMoreYield(ys + init, z);
      OneMoreYield(init, z);
      assert init + [z] == zs && ys + init + [z] == ys + zs;
      var a, b, c := MarksAfter(ys, 0), MarksAfter(init, |Data(ys)|), YieldMark(z, |Data(ys)| + |Data(init)|);
      assert a + b + c == a + (b + c);
    }
  }

  lemma {:induction false} NoMarks(n: nat)
    ensures MarksAfter([], n) == []
  {
  }

  /** Nothing whole is left, so that no mark is to come. */
  lemma {:induction false} MarksDry(ys: seq<Yield>, f: Fsm, left: seq<Byte>, body: BodyParser, marks: seq<Mark>)
    requires OnMark(ys, 0, 0, f, left, body, marks) && MissingBytes(left) > 0
    ensures MarksAfter(ys, 0) == marks
  {
    hide ParseMessage, Resume, MarksAfter, OnMark, MissingBytes;
    MissingBytesAgrees(left, body);
    OnMarkEnd(ys, 0, 0, f, left, body, marks);
  }

  lemma {:induction false} LoopStart(g: Goal)
    ensures Looping(g, [], g.f, g.calls, g.carry, 0, [])
  {
    hide OnTrack, OnMark;
    OnTrackStart(g.f, g.calls, g.carry + g.stream, g.body);
    OnMarkStart(0, g.f, g.carry + g.stream, g.body);
    BatchesStart(Start(g.f, g.carry), g.body);
    assert g.stream[0..] == g.stream;
  }

  /** The part of the stream between two positions. */
  lemma {:induction false} Between(carry: seq<Byte>, stream: seq<Byte>, was: nat, used: nat)
    requires was <= used <= |stream|
    ensures carry + stream[was..] == carry + stream[was..used] + stream[used..]
    ensures stream[..used] == stream[..was] + stream[was..used]
  {
    assert stream[was..] == stream[was..used] + stream[used..];
  }

  lemma {:induction false} LoopNext(g: Goal, batches: seq<seq<Byte>>, f: Fsm, calls: seq<Call>, carry: seq<Byte>, was: nat, used: nat,
      ys: seq<Yield>, zs: seq<Yield>)
    requires was <= used <= |g.stream| && Looping(g, batches, f, calls, carry, was, ys)
    requires var data := carry + g.stream[was..used];
      && Data(zs) == Yielded(f, data, g.body, []) && Whole(f, data, g.body).ending == Starved
      && MarksAfter(zs, |Data(ys)|) == MarksFrom(f, data, g.body, |Data(ys)|)
    ensures var r := Whole(f, carry + g.stream[was..used], g.body);
      Looping(g, batches + [g.stream[was..used]], r.fsm, calls + r.calls, r.rest, used, ys + zs)
  {
    hide OnTrack, Whole, Copied, Data, FeedBatches, Flat, Yielded, OnMark, MarksAfter, MarksFrom;
    var bytes := g.stream[was..used];
    Between(carry, g.stream, was, used);
    MarksGoOn(ys, zs, f, carry + bytes, g.stream[used..], g.body, MarksOf(g));
    BatchFed(Start(g.f, g.carry), batches, f, carry, bytes, ys, zs, g.body);
    BatchGoesOn(f, calls, carry + bytes, g.stream[used..], ys, zs, g.calls, WholeOf(g), CopiedOf(g), g.body);
    FlatOne(batches, bytes);
  }

  /** The last batch. */
  lemma {:induction false} LoopEnd(g: Goal, batches: seq<seq<Byte>>, f: Fsm, calls: seq<Call>, carry: seq<Byte>, was: nat, used: nat,
      ys: seq<Yield>, zs: seq<Yield>)
    requires was <= used <= |g.stream| && Looping(g, batches, f, calls, carry, was, ys) && Consistent(f)
    requires var data := carry + g.stream[was..used];
      && Data(zs) == Yielded(f, data, g.body, []) && Whole(f, data, g.body).ending != Starved
      && MarksAfter(zs, |Data(ys)|) == MarksFrom(f, data, g.body, |Data(ys)|)
    ensures var r := Whole(f, carry + g.stream[was..used], g.body); var whole := WholeOf(g);
      && r.ending == whole.ending && r.fsm == whole.fsm && calls + r.calls == g.calls + whole.calls
      && whole.rest == r.rest + g.stream[used..]
    ensures HandsOut(g, batches + [g.stream[was..used]], WholeOf(g).ending, used, ys + zs)
  {
    hide OnTrack, Whole, Copied, Data, FeedBatches, Flat, Yielded, Lost, Consistent, Took, DataLeftOpen, Suffix, OnMark, MarksAfter,
      MarksFrom, MessageMarks;
    var bytes := g.stream[was..used];
    MarksAreTheMessages(g.f, g.carry + g.stream, g.body, 0);
    Between(carry, g.stream, was, used);
    MarksGoOn(ys, zs, f, carry + bytes, g.stream[used..], g.body, MarksOf(g));
    BatchFed(Start(g.f, g.carry), batches, f, carry, bytes, ys, zs, g.body);
    BatchEnds(f, calls, carry + bytes, g.stream[used..], ys, zs, g.calls, WholeOf(g), CopiedOf(g), g.body);
    ErrorLoses(f, carry + bytes, g.body);
    FlatOne(batches, bytes);
    LostIsOpen(g, batches + [bytes], used);
  }

  /** What the last batch lost is left open by the stream. */
  lemma {:induction false} LostIsOpen(g: Goal, batches: seq<seq<Byte>>, used: nat)
    requires used <= |g.stream| && Flat(batches) == g.stream[..used]
    ensures var p := FeedBatches(Start(g.f, g.carry), batches, g.body); var all := g.carry + g.stream;
      !p.live ==> Suffix(p.lost, Lost(g.f, all, g.body, [])) && (!DataLeftOpen(Took(g.f, all, g.body)) ==> p.lost == [])
  {
    hide FeedBatches, Whole, Lost, Took, DataLeftOpen, Flat;
    BatchesOnPar(g.f, g.carry, batches, g.stream[used..], g.body);
    assert Flat(batches) + g.stream[used..] == g.stream;
    LostExactly(g.f, g.carry + g.stream, g.body);
  }

  /** The connection has no more data. */
  lemma {:induction false} LoopDry(g: Goal, batches: seq<seq<Byte>>, f: Fsm, calls: seq<Call>, carry: seq<Byte>, was: nat,
      ys: seq<Yield>, data: seq<Byte>)
    requires was <= |g.stream| && Looping(g, batches, f, calls, carry, was, ys)
    requires data == carry + g.stream[was..] && MissingBytes(data) > 0
    ensures var whole := WholeOf(g);
      whole.ending == Starved && whole.fsm == f && calls == g.calls + whole.calls && whole.rest == data
    ensures HandsOut(g, batches, Starved, |g.stream|, ys)
  {
    hide OnTrack, Data, FeedBatches, Flat, Whole, Copied, MissingBytes, Lost, Took, DataLeftOpen, OnMark, MarksAfter, MarksFrom, MessageMarks;
    MarksDry(ys, f, data, g.body, MarksOf(g));
    MarksAreTheMessages(g.f, g.carry + g.stream, g.body, 0);
    Exhausted(f, calls, data, ys, g.calls, WholeOf(g), CopiedOf(g), g.body);
    assert Data(ys) + [] == Data(ys);
  }

  lemma {:induction false} BatchesStart(p: Progress, body: BodyParser)
    ensures FeedBatches(p, [], body) == p && Flat<Byte>([]) == [] && Data([]) == []
  {
  }

  /** What was read is between the two positions in the stream. */
  lemma {:induction false} Arrived(carry: seq<Byte>, data: seq<Byte>, stream: seq<Byte>, was: nat, used: nat)
    requires was <= used <= |stream| && data + stream[used..] == carry + stream[was..]
    ensures data == carry + stream[was..used]
  {
    assert stream[was..] == stream[was..used] + stream[used..];
    assert data + stream[used..] == (carry + stream[was..used]) + stream[used..];
    assert |data| == |carry + stream[was..used]|;
    assert (data + stream[used..])[..|data|] == data;
    assert ((carry + stream[was..used]) + stream[used..])[..|data|] == carry + stream[was..used];
  }

  /** The batch in the fold. */
  lemma {:induction false} BatchFed(start: Progress, batches: seq<seq<Byte>>, f: Fsm, carry: seq<Byte>, bytes: seq<Byte>,
      ys: seq<Yield>, zs: seq<Yield>, body: BodyParser)
    requires FeedBatches(start, batches, body) == Progress(f, carry, Data(ys), [], true)
    requires Data(zs) == Yielded(f, carry + bytes, body, [])
    ensures var r := Whole(f, carry + bytes, body); var l := Lost(f, carry + bytes, body, []);
      && FeedBatches(start, batches + [bytes], body) == Progress(r.fsm, r.rest, Data(ys + zs), l, r.ending == Starved)
      && (r.ending == Starved ==> l == [] && Data(zs) == Copied(f, carry + bytes, body))
      && Data(zs) + l == Copied(f, carry + bytes, body)
  {
    hide Whole, Yielded, Lost, Copied, Data, FeedBatches;
    OneMoreBatch(start, batches, bytes, body);
    DataAppend(ys, zs);
    YieldedThenLost(f, carry + bytes, body, []);
    StarvedLosesNothing(f, carry + bytes, body, []);
    assert [] + Copied(f, carry + bytes, body) == Copied(f, carry + bytes, body);
    assert Data(zs) + [] == Data(zs);
  }

  lemma {:induction false} ErrorLoses(f: Fsm, data: seq<Byte>, body: BodyParser)
    requires Consistent(f)
    ensures Whole(f, data, body).ending == Ended(None) ==> Lost(f, data, body, []) == []
  {
    hide Whole, Lost, Consistent;
    NothingLost(f, data, body, []);
  }

  lemma {:induction false} OnTrackStart(f: Fsm, calls: seq<Call>, left: seq<Byte>, body: BodyParser)
    ensures OnTrack(f, calls, left, [], calls, Whole(f, left, body), Copied(f, left, body), body)
  {
    hide Whole, Copied;
  }

  lemma {:induction false} Exhausted(f: Fsm, calls: seq<Call>, left: seq<Byte>, ys: seq<Yield>, before: seq<Call>, whole: Result,
      copied: seq<Byte>, body: BodyParser)
    requires OnTrack(f, calls, left, ys, before, whole, copied, body) && MissingBytes(left) > 0
    ensures whole.ending == Starved && whole.fsm == f && calls == before + whole.calls && whole.rest == left && Data(ys) == copied
  {
    hide Data;
    NothingLeft(f, left, body);
    hide Whole, Copied;
    assert calls + [] == calls && Data(ys) + [] == Data(ys);
  }
}
