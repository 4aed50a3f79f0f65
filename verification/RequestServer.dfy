/** What a server makes of a request: it reads the packets of the payload, keeps the statements and
    portals of the session, and runs what it is asked to. Its reading is written down from the
    message formats of the protocol and shares nothing with the serializers. */
module RequestServer {
  import opened Messages
  import opened DataRows
  import opened ParsingViews
  import opened RequestBuilder
  import opened RequestOperations

  // ----- reading a body

  datatype Read<+T> = Read(value: T, rest: Text) | Unreadable

  function ReadString(s: Text): Read<Text> {
    var q := NulFrom(s, 0);
    if q == |s| then Unreadable else Read(s[..q], s[q + 1..])
  }

  function ReadInt16(s: Text): Read<int> {
    if |s| < 2 then Unreadable else Read(Int16(s, 0), s[2..])
  }

  function ReadInt32(s: Text): Read<int> {
    if |s| < 4 then Unreadable else Read(Int32(s, 0), s[4..])
  }

  function ReadInts(s: Text, n: nat, wide: bool): Read<seq<int>>
    decreases n
  {
    if n == 0 then Read([], s)
    else match if wide then ReadInt32(s) else ReadInt16(s)
      case Unreadable => Unreadable
      case Read(x, rest) =>
        match ReadInts(rest, n - 1, wide)
        case Unreadable => Unreadable
        case Read(xs, end) => Read([x] + xs, end)
  }

  /** A number and as many integers. */
  function ReadList(s: Text, wide: bool): Read<seq<int>> {
    match ReadInt16(s)
    case Unreadable => Unreadable
    case Read(n, rest) => if n < 0 then Unreadable else ReadInts(rest, n, wide)
  }

  function ReadValues(s: Text, n: nat): Read<seq<Text>>
    decreases n
  {
    if n == 0 then Read([], s)
    else match ReadInt32(s)
      case Unreadable => Unreadable
      case Read(size, rest) =>
        if size < 0 || |rest| < size then Unreadable
        else match ReadValues(rest[size..], n - 1)
          case Unreadable => Unreadable
          case Read(vs, end) => Read([rest[..size]] + vs, end)
  }

  // ----- the commands

  datatype Target = Statement(name: Text) | Portal(name: Text)

  datatype Command =
    | RunQuery(query: Text)
    | DoParse(name: Text, query: Text, oids: seq<int>)
    | DoBind(portal: Text, name: Text, paramCodes: seq<int>, values: seq<Text>, resultCodes: seq<int>)
    | DoDescribe(target: Target)
    | DoExecute(portal: Text, maxRows: int)
    | DoClose(target: Target)
    | DoFlush
    | DoSync

  function UnderstandTarget(s: Text): Option<Target> {
    if s == [] then None
    else match ReadString(s[1..])
      case Unreadable => None
      case Read(name, rest) =>
        if rest != [] then None
        else if s[0] == 83 then Some(Statement(name))
        else if s[0] == 80 then Some(Portal(name))
        else None
  }

  function UnderstandParse(s: Text): Option<Command> {
    match ReadString(s)
    case Unreadable => None
    case Read(name, s1) =>
      match ReadString(s1)
      case Unreadable => None
      case Read(query, s2) =>
        match ReadList(s2, true)
        case Unreadable => None
        case Read(oids, end) => if end == [] then Some(DoParse(name, query, oids)) else None
  }

  function UnderstandBind(s: Text): Option<Command> {
    match ReadString(s)
    case Unreadable => None
    case Read(portal, s1) =>
      match ReadString(s1)
      case Unreadable => None
      case Read(name, s2) =>
        match ReadList(s2, false)
        case Unreadable => None
        case Read(paramCodes, s3) =>
          match ReadInt16(s3)
          case Unreadable => None
          case Read(n, s4) =>
            if n < 0 then None
            else match ReadValues(s4, n)
              case Unreadable => None
              case Read(values, s5) =>
                match ReadList(s5, false)
                case Unreadable => None
                case Read(resultCodes, end) =>
                  if end == [] then Some(DoBind(portal, name, paramCodes, values, resultCodes)) else None
  }

  function UnderstandExecute(s: Text): Option<Command> {
    match ReadString(s)
    case Unreadable => None
    case Read(portal, s1) =>
      match ReadInt32(s1)
      case Unreadable => None
      case Read(maxRows, end) => if end == [] then Some(DoExecute(portal, maxRows)) else None
  }

  /** A packet by its letter: B, C, D, E, H, P, Q, S. */
  function Understand(p: Packet): Option<Command> {
    if p.letter == 81 then
      match ReadString(p.body)
      case Unreadable => None
      case Read(q, rest) => if rest == [] then Some(RunQuery(q)) else None
    else if p.letter == 80 then UnderstandParse(p.body)
    else if p.letter == 66 then UnderstandBind(p.body)
    else if p.letter == 68 then
      (match UnderstandTarget(p.body) case None => None case Some(t) => Some(DoDescribe(t)))
    else if p.letter == 67 then
      (match UnderstandTarget(p.body) case None => None case Some(t) => Some(DoClose(t)))
    else if p.letter == 69 then UnderstandExecute(p.body)
    else if p.letter == 72 then if p.body == [] then Some(DoFlush) else None
    else if p.letter == 83 then if p.body == [] then Some(DoSync) else None
    else None
  }

  // ----- the session

  datatype Bound = Bound(query: Text, paramCodes: seq<int>, values: seq<Text>, resultCodes: seq<int>)

  datatype Deed = Ran(query: Text) | Described(target: Target) | Executed(bound: Bound, maxRows: int) | Closed(target: Target) | Synced

  /** The prepared statements by their names, with the types of their parameters; the portals; and
      what was done. */
  datatype Session = Session(statements: map<Text, Stmt>, portals: map<Text, Bound>, deeds: seq<Deed>)

  datatype Stmt = Stmt(query: Text, oids: seq<int>)

  /** One command, or None if it is an error. A simple query drops the unnamed statement, and no
      portal survives it or a sync. */
  function Serve(s: Session, c: Command): Option<Session> {
    match c
    case RunQuery(q) => Some(Session(s.statements - {[]}, map[], s.deeds + [Ran(q)]))
    case DoParse(name, q, oids) => Some(s.(statements := s.statements[name := Stmt(q, oids)]))
    case DoBind(portal, name, paramCodes, values, resultCodes) =>
      if name !in s.statements then None
      else Some(s.(portals := s.portals[portal := Bound(s.statements[name].query, paramCodes, values, resultCodes)]))
    case DoDescribe(t) => Some(s.(deeds := s.deeds + [Described(t)]))
    case DoExecute(portal, maxRows) =>
      if portal !in s.portals then None else Some(s.(deeds := s.deeds + [Executed(s.portals[portal], maxRows)]))
    case DoClose(Statement(name)) => Some(s.(statements := s.statements - {name}, deeds := s.deeds + [Closed(Statement(name))]))
    case DoClose(Portal(name)) => Some(s.(portals := s.portals - {name}, deeds := s.deeds + [Closed(Portal(name))]))
    case DoFlush => Some(s)
    case DoSync => Some(s.(portals := map[], deeds := s.deeds + [Synced]))
  }

  function ServeAll(s: Session, ps: seq<Packet>): Option<Session>
    decreases |ps|
  {
    if ps == [] then Some(s)
    else match Understand(ps[0])
      case None => None
      case Some(c) =>
        match Serve(s, c)
        case None => None
        case Some(t) => ServeAll(t, ps[1..])
  }

  // ----- what the caller means

  function CodesOf(f: Format): seq<int> {
    if f == BinaryFormat then [1] else []
  }

  function ValuesOf(ps: seq<Param>, f: Format): (vs: seq<Text>)
    ensures |vs| == |ps| && forall i | 0 <= i < |ps| :: vs[i] == (if f == BinaryFormat then ps[i].binary else ps[i].text).bytes
  {
    seq(|ps|, i requires 0 <= i < |ps| => (if f == BinaryFormat then ps[i].binary else ps[i].text).bytes)
  }

  /** The statements by name, and what is done, for the caller. */
  datatype Meaning = Meaning(statements: map<Text, Stmt>, deeds: seq<Deed>)

  function Run(st: map<Text, Stmt>, deeds: seq<Deed>, name: Text, ps: seq<Param>, paramFormat: Format, resultFormat: Format, maxRows: int): Option<Meaning> {
    if name !in st then None
    else Some(Meaning(st, deeds + [Described(Portal([])),
      Executed(Bound(st[name].query, CodesOf(paramFormat), ValuesOf(ps, paramFormat), CodesOf(resultFormat)), maxRows)]))
  }

  /** An operation: a query with parameters runs that query with those parameters, and so does the
      execution of a statement with the query it was last prepared for. */
  function Mean(op: Operation, m: Meaning): Option<Meaning> {
    match op
    case SimpleQuery(q) => Some(Meaning(m.statements - {[]}, m.deeds + [Ran(q)]))
    case ExtendedQuery(q, ps, paramFormat, resultFormat, maxRows) =>
      Run(m.statements[[] := Stmt(q, OidsOf(ps))], m.deeds, [], ps, paramFormat, resultFormat, maxRows)
    case Prepare(q, name, oids) => Some(m.(statements := m.statements[name := Stmt(q, oids)]))
    case ExecuteStatement(name, ps, paramFormat, resultFormat, maxRows) =>
      Run(m.statements, m.deeds, name, ps, paramFormat, resultFormat, maxRows)
    case DescribeStatement(name) => Some(m.(deeds := m.deeds + [Described(Statement(name))]))
    case DescribePortal(name) => Some(m.(deeds := m.deeds + [Described(Portal(name))]))
    case CloseStatement(name) => Some(Meaning(m.statements - {name}, m.deeds + [Closed(Statement(name))]))
    case ClosePortal(name) => Some(m.(deeds := m.deeds + [Closed(Portal(name))]))
  }

  function Syncs(autosync: bool): seq<Deed> {
    if autosync then [Synced] else []
  }

  function Then(m: Option<Meaning>, more: seq<Deed>): Option<Meaning> {
    match m
    case None => None
    case Some(n) => Some(n.(deeds := n.deeds + more))
  }

  /** With autosync every operation is followed by a sync, except for a simple query. */
  function Meant(op: Operation, m: Meaning, autosync: bool): Option<Meaning> {
    if op.SimpleQuery? then Mean(op, m) else Then(Mean(op, m), Syncs(autosync))
  }

  function MeanAll(ops: seq<Operation>, m: Meaning, autosync: bool): Option<Meaning> {
    if ops == [] then Some(m)
    else match Meant(ops[0], m, autosync)
      case None => None
      case Some(n) => MeanAll(ops[1..], n, autosync)
  }

  /** The strings of an operation have no NUL. */
  predicate Clean(op: Operation) {
    match op
    case SimpleQuery(q) => NoNul(q)
    case ExtendedQuery(q, _, _, _, _) => NoNul(q)
    case Prepare(q, name, _) => NoNul(q) && NoNul(name)
    case ExecuteStatement(name, _, _, _, _) => NoNul(name)
    case DescribeStatement(name) => NoNul(name)
    case DescribePortal(name) => NoNul(name)
    case CloseStatement(name) => NoNul(name)
    case ClosePortal(name) => NoNul(name)
  }

  // ----- the bodies are read back

  /** A string is read back exactly if it has no NUL. */
  lemma {:induction false} StringReadBack(x: Text, rest: Text)
    ensures ReadString(EncodeString(x) + rest) == Read(x, rest) <==> NoNul(x)
  {
    var s := EncodeString(x) + rest;
    if NoNul(x) {
      assert forall i | 0 <= i < |x| :: s[i] == x[i];
      NulAt(s, 0, |x|);
      assert s[..|x|] == x && s[|x| + 1..] == rest;
    }
  }

  lemma {:induction false} Int16ReadBack(n: int, rest: Text)
    requires -0x8000 <= n < 0x8000
    ensures ReadInt16(Bytes16(n) + rest) == Read(n, rest)
  {
    hide Int16, Bytes16;
    var s := Bytes16(n) + rest;
    assert s[0..2] == Bytes16(n) && s[2..] == rest;
    Int16Bytes(n, s, 0);
  }

  lemma {:induction false} Int32ReadBack(n: int, rest: Text)
    requires -0x8000_0000 <= n < 0x8000_0000
    ensures ReadInt32(Bytes32(n) + rest) == Read(n, rest)
  {
    hide Int32, Bytes32;
    var s := Bytes32(n) + rest;
    assert s[0..4] == Bytes32(n) && s[4..] == rest;
    Int32Bytes(n, s, 0);
  }

  lemma {:induction false} CodesReadBack(f: Format, rest: Text)
    ensures ReadList(Codes(f) + rest, false) == Read(CodesOf(f), rest)
  {
    hide ReadInt16, Bytes16;
    if f == BinaryFormat {
      assert Codes(f) + rest == Bytes16(1) + (Bytes16(1) + rest);
      Int16ReadBack(1, Bytes16(1) + rest);
      Int16ReadBack(1, rest);
      assert ReadInts(rest, 0, false) == Read([], rest);
      var s := Bytes16(1) + rest;
      assert ReadInts(s, 1, false) == Read([1] + [], rest);
      assert [1] + [] == CodesOf(f);
    } else {
      Int16ReadBack(0, rest);
    }
  }

  lemma {:induction false} OidsLast(oids: seq<Int32Value>)
    requires oids != []
    ensures EncodeOids(oids) == EncodeOids(oids[..|oids| - 1]) + Bytes32(oids[|oids| - 1])
  {
    hide Bytes32;
  }

  lemma {:induction false} OidsHead(oids: seq<Int32Value>)
    requires oids != []
    ensures EncodeOids(oids) == Bytes32(oids[0]) + EncodeOids(oids[1..])
    decreases |oids|
  {
    hide Bytes32, EncodeOids;
    OidsLast(oids);
    if |oids| == 1 {
      assert oids[..0] == [] && oids[1..] == [];
      NoOids();
    } else {
      var last := |oids| - 1;
      OidsHead(oids[..last]);
      OidsLast(oids[1..]);
      assert oids[..last][1..] == oids[1..][..last - 1];
    }
  }

  lemma {:induction false} OidsReadBack(oids: seq<Int32Value>, rest: Text)
    ensures ReadInts(EncodeOids(oids) + rest, |oids|, true) == Read(oids, rest)
    decreases |oids|
  {
    hide ReadInt32, EncodeOids;
    if oids == [] {
      NoOids();
      assert [] + rest == rest;
    } else {
      OidsHead(oids);
      var more := EncodeOids(oids[1..]) + rest;
      assert EncodeOids(oids) + rest == Bytes32(oids[0]) + more;
      Int32ReadBack(oids[0], more);
      OidsReadBack(oids[1..], rest);
      assert [oids[0]] + oids[1..] == oids;
    }
  }

  lemma {:induction false} NoOids()
    ensures EncodeOids([]) == []
  {
  }

  lemma {:induction false} ValuesReadBack(ps: seq<Parameter>, rest: Text)
    requires AllGood(ps) && AllFit(Values(ps))
    ensures ReadValues(EncodeFields(Values(ps)) + rest, |ps|) == Read(BytesOf(ps), rest)
    decreases |ps|
  {
    hide ReadInt32, EncodeFields, Bytes32;
    if ps == [] {
      NoFieldsAtAll();
      assert Values(ps) == [] && [] + rest == rest;
    } else {
      var p, more := ps[0], ps[1..];
      assert forall i | 0 <= i < |more| :: more[i] == ps[i + 1];
      GoodFits(more);
      assert Values(ps)[1..] == Values(more);
      EncodeFieldsHead(Values(ps));
      var tail := EncodeFields(Values(more)) + rest;
      assert GoodParameter(ps[0]);
      assert EncodeField(Values(ps)[0]) == Bytes32(|p.bytes|) + p.bytes;
      assert EncodeFields(Values(ps)) + rest == Bytes32(|p.bytes|) + (p.bytes + tail);
      Int32ReadBack(|p.bytes|, p.bytes + tail);
      assert (p.bytes + tail)[|p.bytes|..] == tail && (p.bytes + tail)[..|p.bytes|] == p.bytes;
      ValuesReadBack(more, rest);
      assert [p.bytes] + BytesOf(more) == BytesOf(ps);
    }
  }

  function BytesOf(ps: seq<Parameter>): (vs: seq<Text>)
    ensures |vs| == |ps| && forall i | 0 <= i < |ps| :: vs[i] == ps[i].bytes
  {
    seq(|ps|, i requires 0 <= i < |ps| => ps[i].bytes)
  }

  lemma {:induction false} NoFieldsAtAll()
    ensures EncodeFields([]) == []
  {
  }

  lemma {:induction false} ParseUnderstood(name: Text, q: Text, oids: seq<Int32Value>)
    requires NoNul(name) && NoNul(q) && |oids| <= 0x7fff
    ensures UnderstandParse(ParseBody(name, q, oids)) == Some(DoParse(name, q, oids))
  {
    hide ReadString, ReadInts, EncodeString, EncodeOids, Bytes16, ReadInt16;
    var s2 := Bytes16(|oids|) + EncodeOids(oids);
    var s1 := EncodeString(q) + s2;
    assert ParseBody(name, q, oids) == EncodeString(name) + s1;
    StringReadBack(name, s1);
    StringReadBack(q, s2);
    Int16ReadBack(|oids|, EncodeOids(oids));
    OidsReadBack(oids, []);
    assert EncodeOids(oids) + [] == EncodeOids(oids);
  }

  lemma {:induction false} BindUnderstood(portal: Text, name: Text, ps: seq<Parameter>, paramFormat: Format, resultFormat: Format)
    requires NoNul(portal) && NoNul(name) && AllGood(ps) && |ps| <= 0x7fff && AllFit(Values(ps))
    ensures UnderstandBind(BindBody(portal, name, ps, paramFormat, resultFormat)) ==
      Some(DoBind(portal, name, CodesOf(paramFormat), BytesOf(ps), CodesOf(resultFormat)))
  {
    hide ReadString, ReadList, ReadValues, EncodeString, EncodeFields, Bytes16, ReadInt16, Codes, AllGood, AllFit;
    var s5 := Codes(resultFormat);
    var s4 := EncodeFields(Values(ps)) + s5;
    var s3 := Bytes16(|ps|) + s4;
    var s2 := Codes(paramFormat) + s3;
    var s1 := EncodeString(name) + s2;
    BindPieces(EncodeString(portal), EncodeString(name), Codes(paramFormat), Bytes16(|ps|), EncodeFields(Values(ps)), s5);
    assert BindBody(portal, name, ps, paramFormat, resultFormat) == EncodeString(portal) + s1;
    StringReadBack(portal, s1);
    StringReadBack(name, s2);
    CodesReadBack(paramFormat, s3);
    Int16ReadBack(|ps|, s4);
    ValuesReadBack(ps, s5);
    CodesReadBack(resultFormat, []);
    assert s5 + [] == s5;
  }

  lemma {:induction false} BindPieces(a: Text, b: Text, c: Text, d: Text, e: Text, f: Text)
    ensures a + b + c + (d + e) + f == a + (b + (c + (d + (e + f))))
  {
  }

  lemma {:induction false} ExecuteUnderstood(portal: Text, maxRows: Int32Value)
    requires NoNul(portal)
    ensures UnderstandExecute(ExecuteBody(portal, maxRows)) == Some(DoExecute(portal, maxRows))
  {
    hide ReadString, ReadInt32, EncodeString, Bytes32;
    StringReadBack(portal, Bytes32(maxRows));
    Int32ReadBack(maxRows, []);
    assert Bytes32(maxRows) + [] == Bytes32(maxRows);
  }

  lemma {:induction false} TargetUnderstood(letter: Byte, name: Text)
    requires NoNul(name) && (letter == 83 || letter == 80)
    ensures UnderstandTarget(TargetBody(letter, name)) == Some(if letter == 83 then Statement(name) else Portal(name))
  {
    hide ReadString, EncodeString;
    StringReadBack(name, []);
    assert EncodeString(name) + [] == EncodeString(name);
    assert TargetBody(letter, name)[1..] == EncodeString(name);
  }

  lemma {:induction false} QueryUnderstood(q: Text)
    requires NoNul(q)
    ensures ReadString(EncodeString(q)) == Read(q, [])
  {
    hide ReadString, EncodeString;
    StringReadBack(q, []);
    assert EncodeString(q) + [] == EncodeString(q);
  }

  // ----- the packets of an operation are served as it means

  function PacketOf(a: Addition): Packet {
    Packet(Letter(a.kind), a.body)
  }

  lemma {:induction false} ServeFirst(s: Session, a: Addition, rest: seq<Addition>)
    ensures ServeAll(s, Packets([a] + rest)) ==
      match Understand(PacketOf(a))
      case None => None
      case Some(c) => (match Serve(s, c) case None => None case Some(t) => ServeAll(t, Packets(rest)))
  {
    hide Understand, Serve, Letter;
    assert ([a] + rest)[1..] == rest;
    assert Packets([a] + rest) == [PacketOf(a)] + Packets(rest);
    assert ([PacketOf(a)] + Packets(rest))[1..] == Packets(rest);
  }

  lemma {:induction false} ServeNone(s: Session)
    ensures ServeAll(s, Packets([])) == Some(s)
  {
  }

  /** The session means m. */
  predicate Means(s: Option<Session>, m: Option<Meaning>) {
    match m
    case None => s.None?
    case Some(n) => s.Some? && s.value.statements == n.statements && s.value.deeds == n.deeds
  }

  lemma {:induction false} ServeSync(s: Session, autosync: bool)
    ensures var t := ServeAll(s, Packets(MaybeSync(autosync)));
      t.Some? && t.value.statements == s.statements && t.value.deeds == s.deeds + Syncs(autosync)
  {
    hide ServeAll, Packets;
    if autosync {
      ServeFirst(s, Plain(Sync, []), []);
      assert [Plain(Sync, [])] + [] == [Plain(Sync, [])];
      ServeNone(s.(portals := map[], deeds := s.deeds + [Synced]));
    } else {
      ServeNone(s);
      assert s.deeds + [] == s.deeds;
    }
  }

  lemma {:induction false} ServeExecution(s: Session, name: Text, ps: seq<Param>, paramFormat: Format, resultFormat: Format,
      maxRows: Int32Value, autosync: bool)
    requires NoNul(name) && Writable(ps, paramFormat)
    ensures Means(ServeAll(s, Packets(ExecuteAdditions(name, ps, paramFormat, resultFormat, maxRows, autosync))),
                  Then(Run(s.statements, s.deeds, name, ps, paramFormat, resultFormat, maxRows), Syncs(autosync)))
  {
    hide ServeAll, Packets, BindBody, TargetBody, ExecuteBody, MaybeSync, UnderstandBind, UnderstandExecute, UnderstandTarget, AllGood, AllFit, Syncs;
    var cs := Chosen(ps, paramFormat);
    GoodFits(cs);
    var b := Plain(Bind, BindBody([], name, cs, paramFormat, resultFormat));
    var d, e := Plain(Describe, TargetBody(80, [])), Plain(Execute, ExecuteBody([], maxRows));
    BindUnderstood([], name, cs, paramFormat, resultFormat);
    TargetUnderstood(80, []);
    ExecuteUnderstood([], maxRows);
    assert BytesOf(cs) == ValuesOf(ps, paramFormat);
    assert [b, d, e] + MaybeSync(autosync) == [b] + ([d] + ([e] + MaybeSync(autosync)));
    ServeFirst(s, b, [d] + ([e] + MaybeSync(autosync)));
    if name in s.statements {
      var bound := Bound(s.statements[name].query, CodesOf(paramFormat), BytesOf(cs), CodesOf(resultFormat));
      ServeBound(s.(portals := s.portals[[] := bound]), bound, maxRows, autosync);
    }
  }

  lemma {:induction false} ServeBound(s: Session, bound: Bound, maxRows: Int32Value, autosync: bool)
    requires [] in s.portals && s.portals[[]] == bound
    ensures var adds := [Plain(Describe, TargetBody(80, []))] + ([Plain(Execute, ExecuteBody([], maxRows))] + MaybeSync(autosync));
      var t := ServeAll(s, Packets(adds));
      && t.Some? && t.value.statements == s.statements
      && t.value.deeds == s.deeds + [Described(Portal([])), Executed(bound, maxRows)] + Syncs(autosync)
  {
    hide ServeAll, Packets, TargetBody, ExecuteBody, MaybeSync, UnderstandExecute, UnderstandTarget;
    var d, e := Plain(Describe, TargetBody(80, [])), Plain(Execute, ExecuteBody([], maxRows));
    TargetUnderstood(80, []);
    ExecuteUnderstood([], maxRows);
    ServeFirst(s, d, [e] + MaybeSync(autosync));
    var s1 := s.(deeds := s.deeds + [Described(Portal([]))]);
    ServeFirst(s1, e, MaybeSync(autosync));
    var s2 := s1.(deeds := s1.deeds + [Executed(bound, maxRows)]);
    ServeSync(s2, autosync);
    assert s2.deeds == s.deeds + [Described(Portal([])), Executed(bound, maxRows)];
  }

  /** One message and a sync. */
  lemma {:induction false} ServeOne(s: Session, a: Addition, autosync: bool, c: Command)
    requires Understand(PacketOf(a)) == Some(c) && Serve(s, c).Some?
    ensures var t := ServeAll(s, Packets([a] + MaybeSync(autosync)));
      t.Some? && t.value.statements == Serve(s, c).value.statements && t.value.deeds == Serve(s, c).value.deeds + Syncs(autosync)
  {
    hide ServeAll, Packets, Understand, Serve, MaybeSync;
    ServeFirst(s, a, MaybeSync(autosync));
    ServeSync(Serve(s, c).value, autosync);
  }

  lemma {:induction false} ServeOperation(s: Session, op: Operation, autosync: bool)
    requires Good(op) && Clean(op)
    ensures Means(ServeAll(s, Packets(Additions(op, autosync))), Meant(op, Meaning(s.statements, s.deeds), autosync))
  {
    hide ServeAll, Packets, ParseBody, TargetBody, ExecuteAdditions, MaybeSync, UnderstandParse, UnderstandTarget, Run, Syncs,
      NoNul, ReadString, EncodeString, Writable;
    match op {
      case SimpleQuery(q) =>
        QueryUnderstood(q);
        ServeFirst(s, Plain(Query, EncodeString(q)), []);
        assert [Plain(Query, EncodeString(q))] + [] == [Plain(Query, EncodeString(q))];
        ServeNone(Session(s.statements - {[]}, map[], s.deeds + [Ran(q)]));
      case ExtendedQuery(q, ps, paramFormat, resultFormat, maxRows) =>
        ServeQuery(s, q, ps, paramFormat, resultFormat, maxRows, autosync);
      case Prepare(q, name, oids) =>
        ParseUnderstood(name, q, oids);
        ServeOne(s, Plain(Parse, ParseBody(name, q, oids)), autosync, DoParse(name, q, oids));
      case ExecuteStatement(name, ps, paramFormat, resultFormat, maxRows) =>
        ServeExecution(s, name, ps, paramFormat, resultFormat, maxRows, autosync);
      case DescribeStatement(name) =>
        TargetUnderstood(83, name);
        ServeOne(s, Plain(Describe, TargetBody(83, name)), autosync, DoDescribe(Statement(name)));
      case DescribePortal(name) =>
        TargetUnderstood(80, name);
        ServeOne(s, Plain(Describe, TargetBody(80, name)), autosync, DoDescribe(Portal(name)));
      case CloseStatement(name) =>
        TargetUnderstood(83, name);
        ServeOne(s, Plain(Close, TargetBody(83, name)), autosync, DoClose(Statement(name)));
      case ClosePortal(name) =>
        TargetUnderstood(80, name);
        ServeOne(s, Plain(Close, TargetBody(80, name)), autosync, DoClose(Portal(name)));
    }
  }

  lemma {:induction false} ServeQuery(s: Session, q: Text, ps: seq<Param>, paramFormat: Format, resultFormat: Format, maxRows: Int32Value, autosync: bool)
    requires NoNul(q) && Writable(ps, paramFormat)
    ensures var op := ExtendedQuery(q, ps, paramFormat, resultFormat, maxRows);
      Means(ServeAll(s, Packets(Additions(op, autosync))), Meant(op, Meaning(s.statements, s.deeds), autosync))
  {
    hide ServeAll, Packets, ParseBody, ExecuteAdditions, UnderstandParse, Run, Writable, Syncs;
    TooManyOids(ps, paramFormat);
    ParseUnderstood([], q, OidsOf(ps));
    var p, rest := Plain(Parse, ParseBody([], q, OidsOf(ps))), ExecuteAdditions([], ps, paramFormat, resultFormat, maxRows, autosync);
    ServeFirst(s, p, rest);
    ServeExecution(s.(statements := s.statements[[] := Stmt(q, OidsOf(ps))]), [], ps, paramFormat, resultFormat, maxRows, autosync);
  }

  lemma {:induction false} ServeAppend(s: Session, a: seq<Addition>, b: seq<Addition>)
    ensures ServeAll(s, Packets(a + b)) ==
      match ServeAll(s, Packets(a)) case None => None case Some(t) => ServeAll(t, Packets(b))
    decreases |a|
  {
    hide ServeAll, Packets, Understand, Serve;
    if a == [] {
      ServeNone(s);
      assert a + b == b;
    } else {
      assert [a[0]] + a[1..] == a && [a[0]] + (a[1..] + b) == a + b;
      ServeFirst(s, a[0], a[1..]);
      ServeFirst(s, a[0], a[1..] + b);
      var c := Understand(PacketOf(a[0]));
      if c.Some? && Serve(s, c.value).Some? {
        ServeAppend(Serve(s, c.value).value, a[1..], b);
      }
    }
  }

  predicate AllClean(ops: seq<Operation>) {
    forall i | 0 <= i < |ops| :: Clean(ops[i])
  }

  lemma {:induction false} ServeOperations(s: Session, ops: seq<Operation>, autosync: bool)
    requires AllGoodOps(ops) && AllClean(ops)
    ensures Means(ServeAll(s, Packets(AllAdditions(ops, autosync))), MeanAll(ops, Meaning(s.statements, s.deeds), autosync))
    decreases |ops|
  {
    hide ServeAll, Packets, Additions, Meant, Good, Clean;
    if ops == [] {
      ServeNone(s);
    } else {
      assert Good(ops[0]) && Clean(ops[0]);
      var a, b := Additions(ops[0], autosync), AllAdditions(ops[1..], autosync);
      ServeOperation(s, ops[0], autosync);
      ServeAppend(s, a, b);
      var t := ServeAll(s, Packets(a));
      if t.Some? {
        ServeOperations(t.value, ops[1..], autosync);
      }
    }
  }

  /** For every sequence of operations, with autosync or without: a server that reads the payload
      byte by byte does what the operations mean, in their order, with their queries, parameters,
      formats, row limits and syncs; it reports an error exactly if a statement is executed that is not
      prepared then. */
  lemma {:induction false} ServerDoesWhatIsMeant(s: Session, ops: seq<Operation>, autosync: bool)
    requires AllGoodOps(ops) && AllClean(ops) && AllFine(AllAdditions(ops, autosync))
    ensures var ps := Split(Payload(AllAdditions(ops, autosync)));
      ps.Some? && Means(ServeAll(s, ps.value), MeanAll(ops, Meaning(s.statements, s.deeds), autosync))
  {
    hide ServeAll, Packets, AllAdditions, MeanAll, Payload, Split, AllFine, Means;
    PayloadSplits(AllAdditions(ops, autosync));
    ServeOperations(s, ops, autosync);
  }

  /** A NUL in a query cuts it off for the server. */
  lemma {:induction false} NulCutsTheQuery(q: Text)
    requires NoNul(q)
    ensures Understand(Packet(81, EncodeString(q + [0]))) == None && ReadString(EncodeString(q + [0])) == Read(q, [0])
  {
    hide ReadString;
    assert EncodeString(q + [0]) == EncodeString(q) + [0];
    StringReadBack(q, [0]);
  }
}
