/** The language of correct replies, stated as a regular expression per request, and its
    equivalence with the response state machine. */
module Grammar {
  import opened Messages
  import opened CheckRequest
  import opened ResponseFsm

  datatype Regex =
    | Nothing
    | Empty
    | Sym(kind: Kind)
    | Alt(left: Regex, right: Regex)
    | Cat(first: Regex, second: Regex)
    | Star(body: Regex)

  /** Names a position where a word is cut in two; it holds of every position. */
  ghost predicate Cut(k: nat) { true }

  /** The part of the word w from i up to j belongs to the language of r. */
  ghost predicate Matches(r: Regex, w: seq<Kind>, i: nat, j: nat)
    requires i <= j <= |w|
    decreases r, j - i
  {
    match r
    case Nothing => false
    case Empty => i == j
    case Sym(k) => j == i + 1 && w[i] == k
    case Alt(a, b) => Matches(a, w, i, j) || Matches(b, w, i, j)
    case Cat(a, b) => exists k: nat {:trigger Cut(k)} :: Cut(k) && i <= k <= j && Matches(a, w, i, k) && Matches(b, w, k, j)
    case Star(a) => i == j || exists k: nat {:trigger Cut(k)} :: Cut(k) && i < k <= j && Matches(a, w, i, k) && Matches(r, w, k, j)
  }

  // ----- the grammar

  /** Rows, then the end of the rows. */
  function Rows(end: Regex): Regex {
    Cat(Star(Sym(DataRow)), end)
  }

  /** The rest of a COPY OUT block, once it has been announced. */
  function CopyRest(end: Regex): Regex {
    Cat(Star(Sym(CopyData)), end)
  }

  function CopyBlock(allowCopy: bool, end: Regex): Regex {
    if allowCopy then Cat(Sym(CopyOutResponse), CopyRest(end)) else Nothing
  }

  /** A COPY block that completes, and one that fails. */
  const CopyOk: Regex := Cat(Sym(CopyDone), Sym(CommandComplete))
  const CopyFailed: Regex := Alt(Sym(ErrorResponse), Cat(Sym(CopyDone), Sym(ErrorResponse)))

  const Finisher: Regex := Alt(Sym(CommandComplete), Alt(Sym(EmptyQueryResponse), Sym(PortalSuspended)))

  /** The reply to an execute that succeeds. */
  function ExecuteOk(allowCopy: bool): Regex {
    Rows(Alt(Finisher, CopyBlock(allowCopy, CopyOk)))
  }

  /** The reply to an execute that ends in an error. */
  function ExecuteFailed(allowCopy: bool): Regex {
    Rows(Alt(Sym(ErrorResponse), CopyBlock(allowCopy, CopyFailed)))
  }

  /** One resultset of a simple query, and one that ends in an error. */
  function Resultset(allowCopy: bool): Regex {
    Alt(Sym(CommandComplete),
        Alt(Cat(Sym(RowDescription), Rows(Sym(CommandComplete))), CopyBlock(allowCopy, CopyOk)))
  }

  function FailedResultset(allowCopy: bool): Regex {
    Alt(Sym(ErrorResponse),
        Alt(Cat(Sym(RowDescription), Rows(Sym(ErrorResponse))), CopyBlock(allowCopy, CopyFailed)))
  }

  /** What may follow a complete resultset: more of them, then ReadyForQuery, possibly after
      a last one that fails. */
  function MoreResultsets(allowCopy: bool): Regex {
    Cat(Star(Resultset(allowCopy)),
        Alt(Sym(ReadyForQuery), Cat(FailedResultset(allowCopy), Sym(ReadyForQuery))))
  }

  /** The whole reply to a simple query: empty, at least one resultset, or a failure. */
  function QueryReply(allowCopy: bool): Regex {
    Alt(Cat(Sym(EmptyQueryResponse), Sym(ReadyForQuery)),
        Alt(Cat(Resultset(allowCopy), MoreResultsets(allowCopy)),
            Cat(FailedResultset(allowCopy), Sym(ReadyForQuery))))
  }

  /** How an extended message ends well, and how it fails. */
  function Ok(m: RequestMessage, allowCopy: bool): Regex {
    match m
    case Bind => Sym(BindComplete)
    case Close => Sym(CloseComplete)
    case Parse => Sym(ParseComplete)
    case Describe => Alt(Sym(RowDescription), Sym(NoData))
    case Execute => ExecuteOk(allowCopy)
    case _ => Nothing
  }

  function Failed(m: RequestMessage, allowCopy: bool): Regex {
    if m == Execute then ExecuteFailed(allowCopy) else Sym(ErrorResponse)
  }

  /** What the server answers to the request from message i on. A failed extended message
      makes it skip to the next sync. */
  function Reply(ms: seq<RequestMessage>, allowCopy: bool, i: nat): Regex
    requires i <= |ms|
    decreases |ms| - i
  {
    if i == |ms| then Empty
    else match ms[i]
      case Flush => Reply(ms, allowCopy, i + 1)
      case Sync => Cat(Sym(ReadyForQuery), Reply(ms, allowCopy, i + 1))
      case Query => Cat(QueryReply(allowCopy), Reply(ms, allowCopy, i + 1))
      case m => Alt(Cat(Ok(m, allowCopy), Reply(ms, allowCopy, i + 1)),
                    Cat(Failed(m, allowCopy), Reply(ms, allowCopy, NextSync(ms, i + 1))))
  }

  // ----- laws of regular expressions

  lemma {:induction false} CatIntro(a: Regex, b: Regex, w: seq<Kind>, i: nat, k: nat, j: nat)
    requires i <= k <= j <= |w| && Matches(a, w, i, k) && Matches(b, w, k, j)
    ensures Matches(Cat(a, b), w, i, j)
  {
    assert Cut(k);
  }

  lemma {:induction false} CatParts(a: Regex, b: Regex, w: seq<Kind>, i: nat, j: nat) returns (k: nat)
    requires i <= j <= |w| && Matches(Cat(a, b), w, i, j)
    ensures i <= k <= j && Matches(a, w, i, k) && Matches(b, w, k, j)
  {
    k :| Cut(k) && i <= k <= j && Matches(a, w, i, k) && Matches(b, w, k, j);
  }

  lemma {:induction false} SymCat(s: Kind, c: Regex, w: seq<Kind>, i: nat, j: nat)
    requires i <= j <= |w|
    ensures Matches(Cat(Sym(s), c), w, i, j) <==> i < j && w[i] == s && Matches(c, w, i + 1, j)
  {
    assert Cut(i + 1);
  }

  lemma {:induction false} NothingCat(c: Regex, w: seq<Kind>, i: nat, j: nat)
    requires i <= j <= |w|
    ensures !Matches(Cat(Nothing, c), w, i, j)
  {
  }

  lemma {:induction false} AltCat(a: Regex, b: Regex, c: Regex, w: seq<Kind>, i: nat, j: nat)
    requires i <= j <= |w|
    ensures Matches(Cat(Alt(a, b), c), w, i, j) <==> Matches(Cat(a, c), w, i, j) || Matches(Cat(b, c), w, i, j)
  {
  }

  lemma {:induction false} CatAssoc(a: Regex, b: Regex, c: Regex, w: seq<Kind>, i: nat, j: nat)
    requires i <= j <= |w|
    ensures Matches(Cat(Cat(a, b), c), w, i, j) <==> Matches(Cat(a, Cat(b, c)), w, i, j)
  {
    hide Matches;
    if Matches(Cat(Cat(a, b), c), w, i, j) {
      var l := CatParts(Cat(a, b), c, w, i, j);
      var k := CatParts(a, b, w, i, l);
      CatIntro(b, c, w, k, l, j);
      CatIntro(a, Cat(b, c), w, i, k, j);
    }
    if Matches(Cat(a, Cat(b, c)), w, i, j) {
      var k := CatParts(a, Cat(b, c), w, i, j);
      var l := CatParts(b, c, w, k, j);
      CatIntro(a, b, w, i, k, l);
      CatIntro(Cat(a, b), c, w, i, l, j);
    }
  }

  /** A repetition is empty, or one element and a repetition. */
  lemma {:induction false} StarUnfold(a: Regex, w: seq<Kind>, i: nat, j: nat)
    requires i <= j <= |w|
    ensures Matches(Star(a), w, i, j) <==> i == j || Matches(Cat(a, Star(a)), w, i, j)
  {
  }

  lemma {:induction false} StarCat(a: Regex, c: Regex, w: seq<Kind>, i: nat, j: nat)
    requires i <= j <= |w|
    ensures Matches(Cat(Star(a), c), w, i, j) <==>
      Matches(c, w, i, j) || Matches(Cat(a, Cat(Star(a), c)), w, i, j)
  {
    hide Matches;
    CatAssoc(a, Star(a), c, w, i, j);
    if Matches(Cat(Star(a), c), w, i, j) {
      var l := CatParts(Star(a), c, w, i, j);
      StarUnfold(a, w, i, l);
      if l != i {
        CatIntro(Cat(a, Star(a)), c, w, i, l, j);
      }
    }
    if Matches(c, w, i, j) {
      StarUnfold(a, w, i, i);
      CatIntro(Star(a), c, w, i, i, j);
    }
    if Matches(Cat(Cat(a, Star(a)), c), w, i, j) {
      var l := CatParts(Cat(a, Star(a)), c, w, i, j);
      StarUnfold(a, w, i, l);
      CatIntro(Star(a), c, w, i, l, j);
    }
  }

  /** Rows and copy data: one more element, or the end. */
  lemma {:induction false} RowsCat(s: Kind, end: Regex, c: Regex, w: seq<Kind>, i: nat, j: nat)
    requires i <= j <= |w|
    ensures Matches(Cat(Cat(Star(Sym(s)), end), c), w, i, j) <==>
      || Matches(Cat(end, c), w, i, j)
      || (i < j && w[i] == s && Matches(Cat(Cat(Star(Sym(s)), end), c), w, i + 1, j))
  {
    hide Matches;
    CatAssoc(Star(Sym(s)), end, c, w, i, j);
    StarCat(Sym(s), Cat(end, c), w, i, j);
    SymCat(s, Cat(Star(Sym(s)), Cat(end, c)), w, i, j);
    if i < j {
      CatAssoc(Star(Sym(s)), end, c, w, i + 1, j);
    }
  }

  // ----- the first message of each part of the grammar

  lemma {:induction false} CopyBlockCat(allowCopy: bool, end: Regex, c: Regex, w: seq<Kind>, i: nat, j: nat)
    requires i <= j <= |w|
    ensures Matches(Cat(CopyBlock(allowCopy, end), c), w, i, j) <==>
      allowCopy && i < j && w[i] == CopyOutResponse && Matches(Cat(CopyRest(end), c), w, i + 1, j)
  {
    hide Matches, CopyRest;
    if allowCopy {
      CatAssoc(Sym(CopyOutResponse), CopyRest(end), c, w, i, j);
      SymCat(CopyOutResponse, Cat(CopyRest(end), c), w, i, j);
    } else {
      NothingCat(c, w, i, j);
    }
  }

  lemma {:induction false} CopyOkCat(c: Regex, w: seq<Kind>, i: nat, j: nat)
    requires i <= j <= |w|
    ensures Matches(Cat(CopyRest(CopyOk), c), w, i, j) <==>
      i < j && (
        || (w[i] == CopyData && Matches(Cat(CopyRest(CopyOk), c), w, i + 1, j))
        || (w[i] == CopyDone && Matches(Cat(Sym(CommandComplete), c), w, i + 1, j)))
  {
    hide Matches;
    RowsCat(CopyData, CopyOk, c, w, i, j);
    CatAssoc(Sym(CopyDone), Sym(CommandComplete), c, w, i, j);
    SymCat(CopyDone, Cat(Sym(CommandComplete), c), w, i, j);
  }

  lemma {:induction false} CopyFailedCat(c: Regex, w: seq<Kind>, i: nat, j: nat)
    requires i <= j <= |w|
    ensures Matches(Cat(CopyRest(CopyFailed), c), w, i, j) <==>
      i < j && (
        || (w[i] == CopyData && Matches(Cat(CopyRest(CopyFailed), c), w, i + 1, j))
        || (w[i] == ErrorResponse && Matches(c, w, i + 1, j))
        || (w[i] == CopyDone && Matches(Cat(Sym(ErrorResponse), c), w, i + 1, j)))
  {
    hide Matches;
    RowsCat(CopyData, CopyFailed, c, w, i, j);
    AltCat(Sym(ErrorResponse), Cat(Sym(CopyDone), Sym(ErrorResponse)), c, w, i, j);
    SymCat(ErrorResponse, c, w, i, j);
    CatAssoc(Sym(CopyDone), Sym(ErrorResponse), c, w, i, j);
    SymCat(CopyDone, Cat(Sym(ErrorResponse), c), w, i, j);
  }

  lemma {:induction false} ExecuteOkCat(allowCopy: bool, c: Regex, w: seq<Kind>, i: nat, j: nat)
    requires i <= j <= |w|
    ensures Matches(Cat(ExecuteOk(allowCopy), c), w, i, j) <==>
      i < j && (
        || (w[i] == DataRow && Matches(Cat(ExecuteOk(allowCopy), c), w, i + 1, j))
        || ((w[i] == CommandComplete || w[i] == EmptyQueryResponse || w[i] == PortalSuspended) && Matches(c, w, i + 1, j))
        || (w[i] == CopyOutResponse && allowCopy && Matches(Cat(CopyRest(CopyOk), c), w, i + 1, j)))
  {
    hide Matches, CopyBlock, CopyRest;
    RowsCat(DataRow, Alt(Finisher, CopyBlock(allowCopy, CopyOk)), c, w, i, j);
    AltCat(Finisher, CopyBlock(allowCopy, CopyOk), c, w, i, j);
    AltCat(Sym(CommandComplete), Alt(Sym(EmptyQueryResponse), Sym(PortalSuspended)), c, w, i, j);
    AltCat(Sym(EmptyQueryResponse), Sym(PortalSuspended), c, w, i, j);
    SymCat(CommandComplete, c, w, i, j);
    SymCat(EmptyQueryResponse, c, w, i, j);
    SymCat(PortalSuspended, c, w, i, j);
    CopyBlockCat(allowCopy, CopyOk, c, w, i, j);
  }

  lemma {:induction false} ExecuteFailedCat(allowCopy: bool, c: Regex, w: seq<Kind>, i: nat, j: nat)
    requires i <= j <= |w|
    ensures Matches(Cat(ExecuteFailed(allowCopy), c), w, i, j) <==>
      i < j && (
        || (w[i] == DataRow && Matches(Cat(ExecuteFailed(allowCopy), c), w, i + 1, j))
        || (w[i] == ErrorResponse && Matches(c, w, i + 1, j))
        || (w[i] == CopyOutResponse && allowCopy && Matches(Cat(CopyRest(CopyFailed), c), w, i + 1, j)))
  {
    hide Matches, CopyBlock, CopyRest;
    RowsCat(DataRow, Alt(Sym(ErrorResponse), CopyBlock(allowCopy, CopyFailed)), c, w, i, j);
    AltCat(Sym(ErrorResponse), CopyBlock(allowCopy, CopyFailed), c, w, i, j);
    SymCat(ErrorResponse, c, w, i, j);
    CopyBlockCat(allowCopy, CopyFailed, c, w, i, j);
  }

  lemma {:induction false} ResultsetCat(allowCopy: bool, c: Regex, w: seq<Kind>, i: nat, j: nat)
    requires i <= j <= |w|
    ensures Matches(Cat(Resultset(allowCopy), c), w, i, j) <==>
      i < j && (
        || (w[i] == CommandComplete && Matches(c, w, i + 1, j))
        || (w[i] == RowDescription && Matches(Cat(Rows(Sym(CommandComplete)), c), w, i + 1, j))
        || (w[i] == CopyOutResponse && allowCopy && Matches(Cat(CopyRest(CopyOk), c), w, i + 1, j)))
  {
    hide Matches, CopyBlock, CopyRest, Rows;
    var rows := Cat(Sym(RowDescription), Rows(Sym(CommandComplete)));
    AltCat(Sym(CommandComplete), Alt(rows, CopyBlock(allowCopy, CopyOk)), c, w, i, j);
    AltCat(rows, CopyBlock(allowCopy, CopyOk), c, w, i, j);
    SymCat(CommandComplete, c, w, i, j);
    CatAssoc(Sym(RowDescription), Rows(Sym(CommandComplete)), c, w, i, j);
    SymCat(RowDescription, Cat(Rows(Sym(CommandComplete)), c), w, i, j);
    CopyBlockCat(allowCopy, CopyOk, c, w, i, j);
  }

  lemma {:induction false} FailedResultsetCat(allowCopy: bool, c: Regex, w: seq<Kind>, i: nat, j: nat)
    requires i <= j <= |w|
    ensures Matches(Cat(FailedResultset(allowCopy), c), w, i, j) <==>
      i < j && (
        || (w[i] == ErrorResponse && Matches(c, w, i + 1, j))
        || (w[i] == RowDescription && Matches(Cat(Rows(Sym(ErrorResponse)), c), w, i + 1, j))
        || (w[i] == CopyOutResponse && allowCopy && Matches(Cat(CopyRest(CopyFailed), c), w, i + 1, j)))
  {
    hide Matches, CopyBlock, CopyRest, Rows;
    var rows := Cat(Sym(RowDescription), Rows(Sym(ErrorResponse)));
    AltCat(Sym(ErrorResponse), Alt(rows, CopyBlock(allowCopy, CopyFailed)), c, w, i, j);
    AltCat(rows, CopyBlock(allowCopy, CopyFailed), c, w, i, j);
    SymCat(ErrorResponse, c, w, i, j);
    CatAssoc(Sym(RowDescription), Rows(Sym(ErrorResponse)), c, w, i, j);
    SymCat(RowDescription, Cat(Rows(Sym(ErrorResponse)), c), w, i, j);
    CopyBlockCat(allowCopy, CopyFailed, c, w, i, j);
  }

  /** The grammar after one resultset of a query: the end of the reply, a last resultset
      that fails, or one more resultset. */
  lemma {:induction false} MoreCat(allowCopy: bool, c: Regex, w: seq<Kind>, i: nat, j: nat)
    requires i <= j <= |w|
    ensures Matches(Cat(MoreResultsets(allowCopy), c), w, i, j) <==>
      || Matches(Ready(c), w, i, j)
      || Matches(Cat(FailedResultset(allowCopy), Ready(c)), w, i, j)
      || Matches(Cat(Resultset(allowCopy), Cat(MoreResultsets(allowCopy), c)), w, i, j)
  {
    hide Matches, Resultset, FailedResultset;
    var star := Star(Resultset(allowCopy));
    var failed := Cat(FailedResultset(allowCopy), Sym(ReadyForQuery));
    var end := Alt(Sym(ReadyForQuery), failed);
    CatAssoc(star, end, c, w, i, j);
    StarCat(Resultset(allowCopy), Cat(end, c), w, i, j);
    AltCat(Sym(ReadyForQuery), failed, c, w, i, j);
    CatAssoc(FailedResultset(allowCopy), Sym(ReadyForQuery), c, w, i, j);
    forall k: nat | i <= k <= j
      ensures Matches(Cat(star, Cat(end, c)), w, k, j) <==> Matches(Cat(Cat(star, end), c), w, k, j)
    {
      CatAssoc(star, end, c, w, k, j);
    }
    CatCongruence(Resultset(allowCopy), Cat(star, Cat(end, c)), Cat(Cat(star, end), c), w, i, j);
  }

  lemma {:induction false} QueryCat(allowCopy: bool, c: Regex, w: seq<Kind>, i: nat, j: nat)
    requires i <= j <= |w|
    ensures Matches(Cat(QueryReply(allowCopy), c), w, i, j) <==>
      || (i < j && w[i] == EmptyQueryResponse && Matches(Ready(c), w, i + 1, j))
      || Matches(Cat(FailedResultset(allowCopy), Ready(c)), w, i, j)
      || Matches(Cat(Resultset(allowCopy), Cat(MoreResultsets(allowCopy), c)), w, i, j)
  {
    hide Matches, Resultset, FailedResultset, MoreResultsets;
    var none := Cat(Sym(EmptyQueryResponse), Sym(ReadyForQuery));
    var some := Cat(Resultset(allowCopy), MoreResultsets(allowCopy));
    var failed := Cat(FailedResultset(allowCopy), Sym(ReadyForQuery));
    AltCat(none, Alt(some, failed), c, w, i, j);
    AltCat(some, failed, c, w, i, j);
    CatAssoc(Sym(EmptyQueryResponse), Sym(ReadyForQuery), c, w, i, j);
    SymCat(EmptyQueryResponse, Ready(c), w, i, j);
    CatAssoc(Resultset(allowCopy), MoreResultsets(allowCopy), c, w, i, j);
    CatAssoc(FailedResultset(allowCopy), Sym(ReadyForQuery), c, w, i, j);
  }

  lemma {:induction false} CatCongruence(a: Regex, b: Regex, b': Regex, w: seq<Kind>, i: nat, j: nat)
    requires i <= j <= |w|
    requires forall k: nat | i <= k <= j :: Matches(b, w, k, j) <==> Matches(b', w, k, j)
    ensures Matches(Cat(a, b), w, i, j) <==> Matches(Cat(a, b'), w, i, j)
  {
    hide Matches;
    if Matches(Cat(a, b), w, i, j) {
      var k := CatParts(a, b, w, i, j);
      CatIntro(a, b', w, i, k, j);
    }
    if Matches(Cat(a, b'), w, i, j) {
      var k := CatParts(a, b', w, i, j);
      CatIntro(a, b, w, i, k, j);
    }
  }

  // ----- what is left of the reply in each state of the machine

  /** ReadyForQuery, then the reply to the rest of the request. */
  function Ready(c: Regex): Regex {
    Cat(Sym(ReadyForQuery), c)
  }

  /** What is left of a reply when the machine is in state f: the rest of the reply to the
      current message, then the reply to the messages after it. */
  ghost predicate Residual(f: Fsm, w: seq<Kind>, i: nat, j: nat)
    requires f.current <= |f.messages| && i <= j <= |w|
    requires f.phase != MsgFirst ==> f.current < |f.messages|
  {
    match f.phase
    case MsgFirst => Matches(Reply(f.messages, f.allowCopy, f.current), w, i, j)
    case ExecCopyOut =>
      || Matches(Cat(CopyRest(CopyOk), Next(f)), w, i, j)
      || Matches(Cat(CopyRest(CopyFailed), AfterSync(f)), w, i, j)
    case ExecCopyOutNeedsCommandComplete =>
      || Matches(Cat(Sym(CommandComplete), Next(f)), w, i, j)
      || Matches(Cat(Sym(ErrorResponse), AfterSync(f)), w, i, j)
    case QueryFirst => Matches(Cat(MoreResultsets(f.allowCopy), Next(f)), w, i, j)
    case QueryNeedsReady => Matches(Ready(Next(f)), w, i, j)
    case QueryRows =>
      || Matches(Cat(Rows(Sym(CommandComplete)), Cat(MoreResultsets(f.allowCopy), Next(f))), w, i, j)
      || Matches(Cat(Rows(Sym(ErrorResponse)), Ready(Next(f))), w, i, j)
    case QueryCopyOut =>
      || Matches(Cat(CopyRest(CopyOk), Cat(MoreResultsets(f.allowCopy), Next(f))), w, i, j)
      || Matches(Cat(CopyRest(CopyFailed), Ready(Next(f))), w, i, j)
    case QueryCopyOutNeedsCommandComplete =>
      || Matches(Cat(Sym(CommandComplete), Cat(MoreResultsets(f.allowCopy), Next(f))), w, i, j)
      || Matches(Cat(Sym(ErrorResponse), Ready(Next(f))), w, i, j)
  }

  function Next(f: Fsm): Regex
    requires f.current < |f.messages|
  {
    Reply(f.messages, f.allowCopy, f.current + 1)
  }

  function AfterSync(f: Fsm): Regex
    requires f.current < |f.messages|
  {
    Reply(f.messages, f.allowCopy, NextSync(f.messages, f.current + 1))
  }

  /** The step s of the machine on the message at i goes on inside the language. */
  ghost predicate GoesOn(s: Step, w: seq<Kind>, i: nat, j: nat)
    requires i < j <= |w|
  {
    && (s.verdict.Read? || s.verdict == Done(None))
    && s.fsm.current <= |s.fsm.messages|
    && (s.fsm.phase != MsgFirst ==> s.fsm.current < |s.fsm.messages|)
    && Residual(s.fsm, w, i + 1, j)
  }

  // How each way of ending a step goes on.

  lemma {:induction false} ErrorGoesOn(f: Fsm, m: BackendMessage, w: seq<Kind>, i: nat, j: nat)
    requires Consistent(f) && m.kind == ErrorResponse && i < j <= |w|
    requires f.messages[f.current] != Query && f.messages[f.current] != Sync
    ensures GoesOn(HandleError(f, m), w, i, j) <==> Matches(AfterSync(f), w, i + 1, j)
  {
    hide Matches, Reply, Skips;
    HandleErrorGood(f, m);
  }

  lemma {:induction false} AdvanceGoesOn(f: Fsm, calls: seq<Call>, w: seq<Kind>, i: nat, j: nat)
    requires f.current < |f.messages| && i < j <= |w|
    ensures GoesOn(Advance(f, calls), w, i, j) <==> Matches(Next(f), w, i + 1, j)
  {
    hide Matches, Reply;
  }

  lemma {:induction false} StayGoesOn(f: Fsm, phase: Phase, calls: seq<Call>, w: seq<Kind>, i: nat, j: nat)
    requires f.current < |f.messages| && i < j <= |w|
    ensures GoesOn(Stay(f, phase, calls), w, i, j) <==> Residual(f.(phase := phase), w, i + 1, j)
  {
    hide Residual;
  }

  lemma {:induction false} FailStops(f: Fsm, e: ClientError, w: seq<Kind>, i: nat, j: nat)
    requires i < j <= |w|
    ensures !GoesOn(Fail(f, e), w, i, j)
  {
    hide Residual;
  }

  lemma {:induction false} ExecuteFirstResidual(f: Fsm, w: seq<Kind>, i: nat, j: nat)
    requires f.current < |f.messages| && f.messages[f.current] == Execute && f.phase == MsgFirst && i < j <= |w|
    ensures Residual(f, w, i, j) <==>
      || (w[i] == DataRow && Residual(f, w, i + 1, j))
      || ((w[i] == CommandComplete || w[i] == EmptyQueryResponse || w[i] == PortalSuspended) && Matches(Next(f), w, i + 1, j))
      || (w[i] == ErrorResponse && Matches(AfterSync(f), w, i + 1, j))
      || (w[i] == CopyOutResponse && f.allowCopy && Residual(f.(phase := ExecCopyOut), w, i + 1, j))
  {
    hide Matches, Reply, CopyRest, ExecuteOk, ExecuteFailed;
    ReplyAt(f.messages, f.allowCopy, f.current, w, i, j);
    ReplyAt(f.messages, f.allowCopy, f.current, w, i + 1, j);
    ExecuteOkCat(f.allowCopy, Next(f), w, i, j);
    ExecuteFailedCat(f.allowCopy, AfterSync(f), w, i, j);
  }

  lemma {:induction false} ExecuteFirstStep(f: Fsm, m: BackendMessage, w: seq<Kind>, i: nat, j: nat)
    requires Consistent(f) && f.messages[f.current] == Execute && f.phase == MsgFirst
    requires i < j <= |w| && w[i] == m.kind
    ensures Residual(f, w, i, j) <==> GoesOn(HandleExecute(f, m), w, i, j)
  {
    hide Matches, Residual, GoesOn, Closed, HandleError, Advance, Stay, Fail, Next, AfterSync;
    ExecuteFirstResidual(f, w, i, j);
    FailStops(f, UnexpectedMessage, w, i, j);
    FailStops(f, CopyNotAllowed, w, i, j);
    if m.kind == ErrorResponse {
      ErrorGoesOn(f, m, w, i, j);
    } else if m.kind == CopyOutResponse {
      StayGoesOn(f, ExecCopyOut, At(f, SyntheticRowDescription), w, i, j);
    } else if m.kind == DataRow {
      StayGoesOn(f, MsgFirst, At(f, Deliver(m)), w, i, j);
    } else {
      AdvanceGoesOn(f, At(f, Deliver(m)), w, i, j);
    }
  }

  lemma {:induction false} ExecuteCopyStep(f: Fsm, m: BackendMessage, w: seq<Kind>, i: nat, j: nat)
    requires Consistent(f) && f.messages[f.current] == Execute && f.phase != MsgFirst
    requires i < j <= |w| && w[i] == m.kind
    ensures Residual(f, w, i, j) <==> GoesOn(HandleExecute(f, m), w, i, j)
  {
    hide Matches, Reply, GoesOn, Closed, HandleError, Advance, Stay, Fail, CopyRest;
    if f.phase == ExecCopyOut {
      CopyOkCat(Next(f), w, i, j);
      CopyFailedCat(AfterSync(f), w, i, j);
    } else {
      SymCat(CommandComplete, Next(f), w, i, j);
      SymCat(ErrorResponse, AfterSync(f), w, i, j);
    }
    FailStops(f, UnexpectedMessage, w, i, j);
    if m.kind == ErrorResponse {
      ErrorGoesOn(f, m, w, i, j);
    } else if m.kind == CopyData {
      StayGoesOn(f, ExecCopyOut, [], w, i, j);
    } else if m.kind == CopyDone {
      StayGoesOn(f, ExecCopyOutNeedsCommandComplete, [], w, i, j);
    } else {
      AdvanceGoesOn(f, At(f, Deliver(m)), w, i, j);
    }
  }

  lemma {:induction false} AckStep(f: Fsm, m: BackendMessage, ack: Kind, w: seq<Kind>, i: nat, j: nat)
    requires Consistent(f) && f.phase == MsgFirst && IsAcked(f.messages[f.current]) && Ok(f.messages[f.current], f.allowCopy) == Sym(ack)
    requires i < j <= |w| && w[i] == m.kind
    ensures Residual(f, w, i, j) <==> GoesOn(HandleAck(f, m, ack), w, i, j)
  {
    hide Matches, Reply, GoesOn, Closed, HandleError, Advance, Stay, Fail;
    ReplyAt(f.messages, f.allowCopy, f.current, w, i, j);
    SymCat(ack, Next(f), w, i, j);
    SymCat(ErrorResponse, AfterSync(f), w, i, j);
    FailStops(f, UnexpectedMessage, w, i, j);
    if m.kind == ErrorResponse {
      ErrorGoesOn(f, m, w, i, j);
    } else if m.kind == ack {
      AdvanceGoesOn(f, At(f, Deliver(m)), w, i, j);
    }
  }

  lemma {:induction false} DescribeStep(f: Fsm, m: BackendMessage, w: seq<Kind>, i: nat, j: nat)
    requires Consistent(f) && f.phase == MsgFirst && f.messages[f.current] == Describe
    requires i < j <= |w| && w[i] == m.kind
    ensures Residual(f, w, i, j) <==> GoesOn(HandleDescribe(f, m), w, i, j)
  {
    hide Matches, Reply, GoesOn, Closed, HandleError, Advance, Stay, Fail;
    ReplyAt(f.messages, f.allowCopy, f.current, w, i, j);
    AltCat(Sym(RowDescription), Sym(NoData), Next(f), w, i, j);
    SymCat(RowDescription, Next(f), w, i, j);
    SymCat(NoData, Next(f), w, i, j);
    SymCat(ErrorResponse, AfterSync(f), w, i, j);
    FailStops(f, UnexpectedMessage, w, i, j);
    if m.kind == ErrorResponse {
      ErrorGoesOn(f, m, w, i, j);
    } else if m.kind == RowDescription {
      AdvanceGoesOn(f, At(f, Deliver(m)), w, i, j);
    } else if m.kind == NoData {
      AdvanceGoesOn(f, At(f, SyntheticRowDescription), w, i, j);
    }
  }

  lemma {:induction false} SyncStep(f: Fsm, m: BackendMessage, w: seq<Kind>, i: nat, j: nat)
    requires Consistent(f) && f.phase == MsgFirst && f.messages[f.current] == Sync
    requires i < j <= |w| && w[i] == m.kind
    ensures Residual(f, w, i, j) <==> GoesOn(HandleSync(f, m), w, i, j)
  {
    hide Matches, Reply, GoesOn, Closed, HandleError, Advance, Stay, Fail;
    ReplyAtQueryOrSync(f.messages, f.allowCopy, f.current);
    SymCat(ReadyForQuery, Next(f), w, i, j);
    FailStops(f, UnexpectedMessage, w, i, j);
    AdvanceGoesOn(f, [], w, i, j);
  }

  lemma {:induction false} QueryStartResidual(f: Fsm, w: seq<Kind>, i: nat, j: nat)
    requires f.current < |f.messages| && f.messages[f.current] == Query && f.phase == MsgFirst && i < j <= |w|
    ensures Residual(f, w, i, j) <==>
      || ((w[i] == EmptyQueryResponse || w[i] == ErrorResponse) && Residual(f.(phase := QueryNeedsReady), w, i + 1, j))
      || (w[i] == RowDescription && Residual(f.(phase := QueryRows), w, i + 1, j))
      || (w[i] == CommandComplete && Residual(f.(phase := QueryFirst), w, i + 1, j))
      || (w[i] == CopyOutResponse && f.allowCopy && Residual(f.(phase := QueryCopyOut), w, i + 1, j))
  {
    hide Matches, Reply, CopyRest, Rows, QueryReply, MoreResultsets, Resultset, FailedResultset;
    var c := Next(f);
    ReplyAtQueryOrSync(f.messages, f.allowCopy, f.current);
    QueryCat(f.allowCopy, c, w, i, j);
    ResultsetCat(f.allowCopy, Cat(MoreResultsets(f.allowCopy), c), w, i, j);
    FailedResultsetCat(f.allowCopy, Ready(c), w, i, j);
  }

  lemma {:induction false} QueryStartStep(f: Fsm, m: BackendMessage, w: seq<Kind>, i: nat, j: nat)
    requires Consistent(f) && f.messages[f.current] == Query && f.phase == MsgFirst
    requires i < j <= |w| && w[i] == m.kind
    ensures Residual(f, w, i, j) <==> GoesOn(HandleQueryFirst(f, m), w, i, j)
  {
    hide Residual, GoesOn, Closed, Advance, Stay, Fail, At;
    QueryStartResidual(f, w, i, j);
    FailStops(f, UnexpectedMessage, w, i, j);
    FailStops(f, CopyNotAllowed, w, i, j);
    if m.kind == CopyOutResponse {
      StayGoesOn(f, QueryCopyOut, At(f, SyntheticRowDescription), w, i, j);
    } else if m.kind == ErrorResponse || m.kind == EmptyQueryResponse {
      StayGoesOn(f, QueryNeedsReady, At(f, Deliver(m)), w, i, j);
    } else if m.kind == RowDescription {
      StayGoesOn(f, QueryRows, At(f, Deliver(m)), w, i, j);
    } else if m.kind == CommandComplete {
      StayGoesOn(f, QueryFirst, At(f, SyntheticRowDescription) + At(f, Deliver(m)), w, i, j);
    }
  }

  lemma {:induction false} QueryMoreResidual(f: Fsm, w: seq<Kind>, i: nat, j: nat)
    requires f.current < |f.messages| && f.messages[f.current] == Query && f.phase == QueryFirst && i < j <= |w|
    ensures Residual(f, w, i, j) <==>
      || (w[i] == ReadyForQuery && Matches(Next(f), w, i + 1, j))
      || (w[i] == ErrorResponse && Residual(f.(phase := QueryNeedsReady), w, i + 1, j))
      || (w[i] == RowDescription && Residual(f.(phase := QueryRows), w, i + 1, j))
      || (w[i] == CommandComplete && Residual(f, w, i + 1, j))
      || (w[i] == CopyOutResponse && f.allowCopy && Residual(f.(phase := QueryCopyOut), w, i + 1, j))
  {
    hide Matches, Reply, CopyRest, Rows, MoreResultsets, Resultset, FailedResultset;
    var c := Next(f);
    MoreCat(f.allowCopy, c, w, i, j);
    SymCat(ReadyForQuery, c, w, i, j);
    ResultsetCat(f.allowCopy, Cat(MoreResultsets(f.allowCopy), c), w, i, j);
    FailedResultsetCat(f.allowCopy, Ready(c), w, i, j);
  }

  lemma {:induction false} QueryMoreStep(f: Fsm, m: BackendMessage, w: seq<Kind>, i: nat, j: nat)
    requires Consistent(f) && f.messages[f.current] == Query && f.phase == QueryFirst
    requires i < j <= |w| && w[i] == m.kind
    ensures Residual(f, w, i, j) <==> GoesOn(HandleQueryFirst(f, m), w, i, j)
  {
    hide Matches, Residual, GoesOn, Closed, Advance, Stay, Fail, At, Next;
    QueryMoreResidual(f, w, i, j);
    FailStops(f, UnexpectedMessage, w, i, j);
    FailStops(f, CopyNotAllowed, w, i, j);
    if m.kind == CopyOutResponse {
      StayGoesOn(f, QueryCopyOut, At(f, SyntheticRowDescription), w, i, j);
    } else if m.kind == ErrorResponse {
      StayGoesOn(f, QueryNeedsReady, At(f, Deliver(m)), w, i, j);
    } else if m.kind == RowDescription {
      StayGoesOn(f, QueryRows, At(f, Deliver(m)), w, i, j);
    } else if m.kind == CommandComplete {
      StayGoesOn(f, QueryFirst, At(f, SyntheticRowDescription) + At(f, Deliver(m)), w, i, j);
    } else if m.kind == ReadyForQuery {
      AdvanceGoesOn(f, [], w, i, j);
    }
  }

  lemma {:induction false} QueryRowsStep(f: Fsm, m: BackendMessage, w: seq<Kind>, i: nat, j: nat)
    requires Consistent(f) && f.messages[f.current] == Query && (f.phase == QueryRows || f.phase == QueryNeedsReady)
    requires i < j <= |w| && w[i] == m.kind
    ensures Residual(f, w, i, j) <==> GoesOn(HandleQuery(f, m), w, i, j)
  {
    hide Matches, Reply, GoesOn, Closed, HandleError, Advance, Stay, Fail, MoreResultsets, At, HandleQueryFirst;
    var more := Cat(MoreResultsets(f.allowCopy), Next(f));
    var ready := Ready(Next(f));
    FailStops(f, UnexpectedMessage, w, i, j);
    if f.phase == QueryNeedsReady {
      SymCat(ReadyForQuery, Next(f), w, i, j);
      AdvanceGoesOn(f, [], w, i, j);
    } else {
      SymCat(CommandComplete, more, w, i, j);
      SymCat(ErrorResponse, ready, w, i, j);
      RowsCat(DataRow, Sym(CommandComplete), more, w, i, j);
      RowsCat(DataRow, Sym(ErrorResponse), ready, w, i, j);
      if m.kind == ErrorResponse {
        StayGoesOn(f, QueryNeedsReady, At(f, Deliver(m)), w, i, j);
      } else if m.kind == DataRow {
        StayGoesOn(f, QueryRows, At(f, Deliver(m)), w, i, j);
      } else if m.kind == CommandComplete {
        StayGoesOn(f, QueryFirst, At(f, Deliver(m)), w, i, j);
      }
    }
  }

  lemma {:induction false} QueryCopyStep(f: Fsm, m: BackendMessage, w: seq<Kind>, i: nat, j: nat)
    requires Consistent(f) && f.messages[f.current] == Query && (f.phase == QueryCopyOut || f.phase == QueryCopyOutNeedsCommandComplete)
    requires i < j <= |w| && w[i] == m.kind
    ensures Residual(f, w, i, j) <==> GoesOn(HandleQuery(f, m), w, i, j)
  {
    hide Matches, Reply, GoesOn, Closed, HandleError, Advance, Stay, Fail, CopyRest, MoreResultsets;
    var more := Cat(MoreResultsets(f.allowCopy), Next(f));
    var ready := Ready(Next(f));
    FailStops(f, UnexpectedMessage, w, i, j);
    StayGoesOn(f, QueryNeedsReady, At(f, Deliver(m)), w, i, j);
    if f.phase == QueryCopyOut {
      CopyOkCat(more, w, i, j);
      CopyFailedCat(ready, w, i, j);
      StayGoesOn(f, QueryCopyOut, [], w, i, j);
      StayGoesOn(f, QueryCopyOutNeedsCommandComplete, [], w, i, j);
    } else {
      SymCat(CommandComplete, more, w, i, j);
      SymCat(ErrorResponse, ready, w, i, j);
      StayGoesOn(f, QueryFirst, At(f, Deliver(m)), w, i, j);
    }
  }

  lemma {:induction false} ReplyAtQueryOrSync(ms: seq<RequestMessage>, allowCopy: bool, at: nat)
    requires at < |ms|
    ensures ms[at] == Sync ==> Reply(ms, allowCopy, at) == Ready(Reply(ms, allowCopy, at + 1))
    ensures ms[at] == Query ==> Reply(ms, allowCopy, at) == Cat(QueryReply(allowCopy), Reply(ms, allowCopy, at + 1))
  {
  }

  lemma {:induction false} DispatchStep(f: Fsm, m: BackendMessage, w: seq<Kind>, i: nat, j: nat)
    requires Consistent(f) && f.messages[f.current] != Flush
    requires i < j <= |w| && w[i] == m.kind
    ensures Residual(f, w, i, j) <==> GoesOn(Dispatch(f, m), w, i, j)
  {
    hide Residual, GoesOn, Reply, HandleAck, HandleDescribe, HandleExecute, HandleSync, HandleQueryFirst;
    match f.messages[f.current] {
      case Bind => AckStep(f, m, BindComplete, w, i, j);
      case Close => AckStep(f, m, CloseComplete, w, i, j);
      case Parse => AckStep(f, m, ParseComplete, w, i, j);
      case Describe => DescribeStep(f, m, w, i, j);
      case Execute =>
        if f.phase == MsgFirst {
          ExecuteFirstStep(f, m, w, i, j);
        } else {
          ExecuteCopyStep(f, m, w, i, j);
        }
      case Sync => SyncStep(f, m, w, i, j);
      case Query =>
        if f.phase == MsgFirst {
          QueryStartStep(f, m, w, i, j);
        } else if f.phase == QueryFirst {
          QueryMoreStep(f, m, w, i, j);
        } else if f.phase == QueryRows || f.phase == QueryNeedsReady {
          QueryRowsStep(f, m, w, i, j);
        } else {
          QueryCopyStep(f, m, w, i, j);
        }
    }
  }

  lemma {:induction false} FlushStep(ms: seq<RequestMessage>, allowCopy: bool, at: nat)
    requires at <= |ms|
    ensures Reply(ms, allowCopy, SkipFlush(ms, at)) == Reply(ms, allowCopy, at)
    decreases |ms| - at
  {
    if at < |ms| && ms[at] == Flush {
      FlushStep(ms, allowCopy, at + 1);
    }
  }

  /** One message: what is left of the reply starts with it exactly when the machine takes it
      and what is left afterwards is left of the reply too. */
  lemma {:induction false} ResumeStep(f: Fsm, m: BackendMessage, w: seq<Kind>, i: nat, j: nat)
    requires Consistent(f) && !IsAsync(m.kind)
    requires i < j <= |w| && w[i] == m.kind
    ensures Residual(f, w, i, j) <==> GoesOn(Resume(f, m), w, i, j)
  {
    hide Matches, GoesOn, Dispatch, Reply;
    SkipFlushSafe(f.messages, f.current);
    FlushStep(f.messages, f.allowCopy, f.current);
    DispatchStep(f.(current := SkipFlush(f.messages, f.current)), m, w, i, j);
  }

  /** The grammar of an extended message: it ends well, or it fails and skips to the sync. */
  lemma {:induction false} ReplyAt(ms: seq<RequestMessage>, allowCopy: bool, at: nat, w: seq<Kind>, i: nat, j: nat)
    requires at < |ms| && ms[at] != Flush && ms[at] != Sync && ms[at] != Query
    requires i <= j <= |w|
    ensures Matches(Reply(ms, allowCopy, at), w, i, j) <==>
      || Matches(Cat(Ok(ms[at], allowCopy), Reply(ms, allowCopy, at + 1)), w, i, j)
      || Matches(Cat(Failed(ms[at], allowCopy), Reply(ms, allowCopy, NextSync(ms, at + 1))), w, i, j)
  {
    hide Ok, Failed;
  }

  // ----- the language of the machine

  predicate Nullable(r: Regex) {
    match r
    case Nothing => false
    case Empty => true
    case Sym(_) => false
    case Alt(a, b) => Nullable(a) || Nullable(b)
    case Cat(a, b) => Nullable(a) && Nullable(b)
    case Star(_) => true
  }

  lemma {:induction false} NullableIs(r: Regex, w: seq<Kind>, j: nat)
    requires j <= |w|
    ensures Matches(r, w, j, j) <==> Nullable(r)
  {
    match r {
      case Alt(a, b) =>
        NullableIs(a, w, j);
        NullableIs(b, w, j);
      case Cat(a, b) =>
        NullableIs(a, w, j);
        NullableIs(b, w, j);
        assert Cut(j);
      case _ =>
    }
  }

  lemma {:induction false} CopyNotNullable(allowCopy: bool)
    ensures !Nullable(CopyRest(CopyOk)) && !Nullable(CopyRest(CopyFailed))
    ensures !Nullable(CopyBlock(allowCopy, CopyOk)) && !Nullable(CopyBlock(allowCopy, CopyFailed))
  {
    assert !Nullable(CopyOk);
    assert !Nullable(CopyFailed);
  }

  lemma {:induction false} ResultsetNotNullable(allowCopy: bool)
    ensures !Nullable(Resultset(allowCopy)) && !Nullable(FailedResultset(allowCopy))
  {
    hide CopyBlock;
    CopyNotNullable(allowCopy);
    assert !Nullable(Cat(Sym(RowDescription), Rows(Sym(CommandComplete))));
    assert !Nullable(Cat(Sym(RowDescription), Rows(Sym(ErrorResponse))));
    assert !Nullable(Alt(Cat(Sym(RowDescription), Rows(Sym(CommandComplete))), CopyBlock(allowCopy, CopyOk)));
    assert !Nullable(Alt(Cat(Sym(RowDescription), Rows(Sym(ErrorResponse))), CopyBlock(allowCopy, CopyFailed)));
  }

  lemma {:induction false} QueryNotNullable(allowCopy: bool)
    ensures !Nullable(QueryReply(allowCopy)) && !Nullable(MoreResultsets(allowCopy))
  {
    hide Resultset, FailedResultset;
    ResultsetNotNullable(allowCopy);
    var failed := Cat(FailedResultset(allowCopy), Sym(ReadyForQuery));
    assert !Nullable(failed);
    assert !Nullable(Alt(Sym(ReadyForQuery), failed));
    assert !Nullable(Cat(Resultset(allowCopy), MoreResultsets(allowCopy)));
    assert !Nullable(Cat(Sym(EmptyQueryResponse), Sym(ReadyForQuery)));
  }

  lemma {:induction false} MessageNotNullable(m: RequestMessage, allowCopy: bool)
    ensures !Nullable(Ok(m, allowCopy)) && !Nullable(Failed(m, allowCopy))
  {
    hide CopyBlock;
    CopyNotNullable(allowCopy);
    assert !Nullable(Finisher);
    assert !Nullable(Alt(Finisher, CopyBlock(allowCopy, CopyOk)));
    assert !Nullable(Alt(Sym(ErrorResponse), CopyBlock(allowCopy, CopyFailed)));
  }

  lemma {:induction false} ReplyNotNullable(ms: seq<RequestMessage>, allowCopy: bool, i: nat)
    requires i < |ms| && Closed(ms[i..], false)
    ensures !Nullable(Reply(ms, allowCopy, i))
    decreases |ms| - i
  {
    hide QueryReply, Ok, Failed;
    QueryNotNullable(allowCopy);
    MessageNotNullable(ms[i], allowCopy);
    if ms[i] == Flush {
      Drop(ms, i);
      assert Closed(ms[i + 1..], true);
      ClosedWeaken(ms[i + 1..]);
      ReplyNotNullable(ms, allowCopy, i + 1);
    }
  }

  /** No reply is over while a message of the request is unanswered. */
  lemma {:induction false} NotOver(f: Fsm, w: seq<Kind>, j: nat)
    requires Consistent(f) && j <= |w|
    ensures !Residual(f, w, j, j)
  {
    hide Matches, Reply, MoreResultsets, CopyRest;
    var c, d, e := Next(f), AfterSync(f), Cat(MoreResultsets(f.allowCopy), Next(f));
    CopyNotNullable(f.allowCopy);
    QueryNotNullable(f.allowCopy);
    match f.phase {
      case MsgFirst =>
        ReplyNotNullable(f.messages, f.allowCopy, f.current);
        NullableIs(Reply(f.messages, f.allowCopy, f.current), w, j);
      case ExecCopyOut =>
        NullableIs(Cat(CopyRest(CopyOk), c), w, j);
        NullableIs(Cat(CopyRest(CopyFailed), d), w, j);
      case ExecCopyOutNeedsCommandComplete =>
        NullableIs(Cat(Sym(CommandComplete), c), w, j);
        NullableIs(Cat(Sym(ErrorResponse), d), w, j);
      case QueryFirst =>
        NullableIs(e, w, j);
      case QueryNeedsReady =>
        NullableIs(Ready(c), w, j);
      case QueryRows =>
        NullableIs(Cat(Rows(Sym(CommandComplete)), e), w, j);
        NullableIs(Cat(Rows(Sym(ErrorResponse)), Ready(c)), w, j);
      case QueryCopyOut =>
        NullableIs(Cat(CopyRest(CopyOk), e), w, j);
        NullableIs(Cat(CopyRest(CopyFailed), Ready(c)), w, j);
      case QueryCopyOutNeedsCommandComplete =>
        NullableIs(Cat(Sym(CommandComplete), e), w, j);
        NullableIs(Cat(Sym(ErrorResponse), Ready(c)), w, j);
    }
  }

  /** From a consistent state, the machine accepts exactly the words left of the reply. */
  lemma {:induction false} AcceptsIffResidual(f: Fsm, v: seq<BackendMessage>, w: seq<Kind>, i: nat)
    requires Consistent(f)
    requires i + |v| == |w| && forall k | 0 <= k < |v| :: w[i + k] == v[k].kind && !IsAsync(v[k].kind)
    ensures Accepts(f, v) <==> Residual(f, w, i, |w|)
    decreases |v|
  {
    hide Residual, Resume, Consistent, IsAsync;
    if v == [] {
      NotOver(f, w, i);
    } else {
      assert w[i] == v[0].kind && !IsAsync(v[0].kind);
      ResumeStep(f, v[0], w, i, |w|);
      ResumeGood(f, v[0]);
      var s := Resume(f, v[0]);
      if s.verdict.Read? {
        assert forall k | 0 <= k < |v| - 1 :: v[1..][k] == v[k + 1];
        AcceptsIffResidual(s.fsm, v[1..], w, i + 1);
      } else if s.verdict == Done(None) {
        FinishedIsEmpty(s.fsm, w, i + 1);
      }
    }
  }

  /** Once the request is exhausted nothing is left of the reply. */
  lemma {:induction false} FinishedIsEmpty(f: Fsm, w: seq<Kind>, i: nat)
    requires f.current == |f.messages| && f.phase == MsgFirst && i <= |w|
    ensures Residual(f, w, i, |w|) <==> i == |w|
  {
  }

  lemma {:induction false} AsyncStep(f: Fsm, m: BackendMessage)
    requires IsAsync(m.kind)
    ensures Resume(f, m) == Step(f, Read, [])
  {
  }

  /** The machine ends on a message of the reply. */
  lemma {:induction false} AcceptsLast(f: Fsm, v: seq<BackendMessage>)
    requires Accepts(f, v)
    ensures v != [] && !IsAsync(v[|v| - 1].kind)
    decreases |v|
  {
    hide Resume, IsAsync;
    if IsAsync(v[0].kind) {
      AsyncStep(f, v[0]);
    }
    if |v| > 1 {
      AcceptsLast(Resume(f, v[0]).fsm, v[1..]);
    }
  }

  lemma {:induction false} SansHead(v: seq<BackendMessage>)
    ensures v == [] ==> SansAsync(v) == []
    ensures v != [] ==> SansAsync(v) == if IsAsync(v[0].kind) then SansAsync(v[1..]) else [v[0]] + SansAsync(v[1..])
  {
    hide IsAsync, Unasked;
    if v != [] {
      AsyncIsUnasked(v[0].kind);
    }
  }

  lemma {:induction false} AcceptsHead(f: Fsm, m: BackendMessage, v: seq<BackendMessage>)
    ensures Accepts(f, [m] + v) <==>
      if Resume(f, m).verdict.Read? then Accepts(Resume(f, m).fsm, v) else Resume(f, m).verdict == Done(None) && v == []
  {
    hide Resume;
    assert ([m] + v)[1..] == v;
  }

  lemma {:induction false} AcceptsSansAsync(f: Fsm, v: seq<BackendMessage>)
    requires v != [] && !IsAsync(v[|v| - 1].kind)
    ensures SansAsync(v) != [] && (Accepts(f, v) <==> Accepts(f, SansAsync(v)))
    decreases |v|
  {
    hide Resume, IsAsync, SansAsync, Accepts;
    SansHead(v);
    assert v == [v[0]] + v[1..];
    if |v| == 1 {
      SansHead(v[1..]);
    } else {
      AcceptsHead(f, v[0], v[1..]);
      if IsAsync(v[0].kind) {
        AsyncStep(f, v[0]);
        AcceptsSansAsync(f, v[1..]);
      } else {
        AcceptsHead(f, v[0], SansAsync(v[1..]));
        AcceptsSansAsync(Resume(f, v[0]).fsm, v[1..]);
      }
    }
  }

  lemma {:induction false} SansAsyncHasNone(v: seq<BackendMessage>)
    ensures forall k | 0 <= k < |SansAsync(v)| :: !IsAsync(SansAsync(v)[k].kind)
    decreases |v|
  {
    hide IsAsync, SansAsync;
    SansHead(v);
    if v != [] {
      SansAsyncHasNone(v[1..]);
    }
  }

  lemma {:induction false} ResidualStart(ms: seq<RequestMessage>, allowCopy: bool, w: seq<Kind>)
    ensures Residual(Init(ms, allowCopy), w, 0, |w|) <==> Matches(Reply(ms, allowCopy, 0), w, 0, |w|)
  {
    hide Matches, Reply;
  }

  /** The language of correct replies to a request. */
  ghost predicate IsReply(ms: seq<RequestMessage>, allowCopy: bool, v: seq<BackendMessage>) {
    var ks := Kinds(SansAsync(v));
    Matches(Reply(ms, allowCopy, 0), ks, 0, |ks|)
  }

  lemma {:induction false} SyncWordLanguage(ms: seq<RequestMessage>, allowCopy: bool, u: seq<BackendMessage>)
    requires Accepted(ms) && forall k | 0 <= k < |u| :: !IsAsync(u[k].kind)
    ensures Accepts(Init(ms, allowCopy), u) <==> Matches(Reply(ms, allowCopy, 0), Kinds(u), 0, |u|)
  {
    hide Matches, Reply, Accepts, Consistent, Residual, Accepted, IsAsync;
    InitConsistent(ms, allowCopy);
    AcceptsIffResidual(Init(ms, allowCopy), u, Kinds(u), 0);
    ResidualStart(ms, allowCopy, Kinds(u));
  }

  /** Language equivalence: on a request that passes the static check, the machine ends in
      success on a word exactly when the word, asynchronous messages aside, is in the
      grammar, and it stops on the last message of the reply. */
  lemma {:induction false} LanguageEquivalence(ms: seq<RequestMessage>, allowCopy: bool, v: seq<BackendMessage>)
    requires Accepted(ms)
    ensures Accepts(Init(ms, allowCopy), v) <==>
      v != [] && !IsAsync(v[|v| - 1].kind) && IsReply(ms, allowCopy, v)
  {
    hide Matches, Reply, Accepts, Accepted, SansAsync, Kinds, IsAsync, Init;
    if Accepts(Init(ms, allowCopy), v) {
      AcceptsLast(Init(ms, allowCopy), v);
    }
    if v != [] && !IsAsync(v[|v| - 1].kind) {
      AcceptsSansAsync(Init(ms, allowCopy), v);
      SansAsyncHasNone(v);
      SyncWordLanguage(ms, allowCopy, SansAsync(v));
    }
  }

  lemma {:induction false} AcceptsOne(f: Fsm, m: BackendMessage)
    requires Resume(f, m).verdict == Done(None)
    ensures Accepts(f, [m])
  {
    hide Resume;
  }

  lemma {:induction false} AcceptsMore(f: Fsm, m: BackendMessage, rest: seq<BackendMessage>)
    requires Resume(f, m).verdict == Read && Accepts(Resume(f, m).fsm, rest)
    ensures Accepts(f, [m] + rest)
  {
    hide Resume;
    assert ([m] + rest)[1..] == rest;
  }
}
