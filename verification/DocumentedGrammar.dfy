/** The replies that the comment on handle_execute describes, against those that the code takes
    (src/read_response_fsm.cpp): an execute gives rows and an end, or an empty query, or a COPY
    OUT, and no row comes before the last two. */
module DocumentedGrammar {
  import opened Messages
  import opened CheckRequest
  import opened ResponseFsm
  import opened Grammar

  // ----- the documented grammar

  const RowsEnd: Regex := Alt(Sym(CommandComplete), Sym(PortalSuspended))

  function DocumentedOk(m: RequestMessage, allowCopy: bool): Regex {
    if m == Execute then Alt(Rows(RowsEnd), Alt(Sym(EmptyQueryResponse), CopyBlock(allowCopy, CopyOk)))
    else Ok(m, allowCopy)
  }

  function DocumentedFailed(m: RequestMessage, allowCopy: bool): Regex {
    if m == Execute then Alt(Rows(Sym(ErrorResponse)), CopyBlock(allowCopy, CopyFailed))
    else Failed(m, allowCopy)
  }

  /** The documented reply to the request from message i on. */
  function DocumentedReply(ms: seq<RequestMessage>, allowCopy: bool, i: nat): Regex
    requires i <= |ms|
    decreases |ms| - i
  {
    if i == |ms| then Empty
    else match ms[i]
      case Flush => DocumentedReply(ms, allowCopy, i + 1)
      case Sync => Cat(Sym(ReadyForQuery), DocumentedReply(ms, allowCopy, i + 1))
      case Query => Cat(QueryReply(allowCopy), DocumentedReply(ms, allowCopy, i + 1))
      case m => Alt(Cat(DocumentedOk(m, allowCopy), DocumentedReply(ms, allowCopy, i + 1)),
                    Cat(DocumentedFailed(m, allowCopy), DocumentedReply(ms, allowCopy, NextSync(ms, i + 1))))
  }

  ghost predicate IsDocumented(ms: seq<RequestMessage>, allowCopy: bool, v: seq<BackendMessage>) {
    var ks := Kinds(SansAsync(v));
    Matches(DocumentedReply(ms, allowCopy, 0), ks, 0, |ks|)
  }

  // ----- words without a row before a COPY OUT or an empty query

  predicate BadPair(a: Kind, b: Kind) {
    a == DataRow && (b == CopyOutResponse || b == EmptyQueryResponse)
  }

  /** No row of the word, from i up to j, is directly followed by a COPY OUT or an empty query. */
  predicate Tidy(w: seq<Kind>, i: nat, j: nat)
    requires i <= j <= |w|
  {
    forall k | i < k < j :: !BadPair(w[k - 1], w[k])
  }

  /** And the last message is not a row, so that anything may follow. */
  predicate Neat(w: seq<Kind>, i: nat, j: nat)
    requires i <= j <= |w|
  {
    Tidy(w, i, j) && (i < j ==> w[j - 1] != DataRow)
  }

  lemma {:induction false} NeatCat(w: seq<Kind>, i: nat, k: nat, j: nat)
    requires i <= k <= j <= |w| && Neat(w, i, k) && Neat(w, k, j)
    ensures Neat(w, i, j)
  {
  }

  lemma {:induction false} RowsAreRows(w: seq<Kind>, i: nat, j: nat)
    requires i <= j <= |w| && Matches(Star(Sym(DataRow)), w, i, j)
    ensures forall k | i <= k < j :: w[k] == DataRow
    ensures i < j ==> w[j - 1] == DataRow
    decreases j - i
  {
    if i < j {
      StarUnfold(Sym(DataRow), w, i, j);
      SymCat(DataRow, Star(Sym(DataRow)), w, i, j);
      RowsAreRows(w, i + 1, j);
    }
  }

  /** One message that may follow a row. */
  predicate EndsRows(r: Regex) {
    match r
    case Sym(k) => k != DataRow && !BadPair(DataRow, k)
    case Alt(a, b) => EndsRows(a) && EndsRows(b)
    case _ => false
  }

  lemma {:induction false} EndsRowsIsOne(r: Regex, w: seq<Kind>, i: nat, j: nat)
    requires EndsRows(r) && i <= j <= |w| && Matches(r, w, i, j)
    ensures j == i + 1 && w[i] != DataRow && !BadPair(DataRow, w[i])
  {
    if r.Alt? {
      if Matches(r.left, w, i, j) {
        EndsRowsIsOne(r.left, w, i, j);
      } else {
        EndsRowsIsOne(r.right, w, i, j);
      }
    }
  }

  /** Rows occur only before a message that may follow them. */
  predicate Tame(r: Regex) {
    match r
    case Nothing => true
    case Empty => true
    case Sym(k) => k != DataRow
    case Alt(a, b) => Tame(a) && Tame(b)
    case Cat(a, b) => if a == Star(Sym(DataRow)) then EndsRows(b) else Tame(a) && Tame(b)
    case Star(a) => Tame(a)
  }

  lemma {:induction false} RowsAreNeat(end: Regex, w: seq<Kind>, i: nat, j: nat)
    requires EndsRows(end) && i <= j <= |w| && Matches(Rows(end), w, i, j)
    ensures Neat(w, i, j)
  {
    hide Matches;
    var k := CatParts(Star(Sym(DataRow)), end, w, i, j);
    RowsAreRows(w, i, k);
    EndsRowsIsOne(end, w, k, j);
  }

  lemma {:induction false} TameIsNeat(r: Regex, w: seq<Kind>, i: nat, j: nat)
    requires Tame(r) && i <= j <= |w| && Matches(r, w, i, j)
    ensures Neat(w, i, j)
    decreases r, j - i
  {
    match r {
      case Alt(a, b) =>
        if Matches(a, w, i, j) {
          TameIsNeat(a, w, i, j);
        } else {
          TameIsNeat(b, w, i, j);
        }
      case Cat(a, b) =>
        if a == Star(Sym(DataRow)) {
          RowsAreNeat(b, w, i, j);
        } else {
          var k := CatParts(a, b, w, i, j);
          TameIsNeat(a, w, i, k);
          TameIsNeat(b, w, k, j);
          NeatCat(w, i, k, j);
        }
      case Star(a) =>
        if i < j {
          var k: nat :| Cut(k) && i < k <= j && Matches(a, w, i, k) && Matches(r, w, k, j);
          TameIsNeat(a, w, i, k);
          TameIsNeat(r, w, k, j);
          NeatCat(w, i, k, j);
        }
      case _ =>
    }
  }

  // ----- the documented grammar is tame

  lemma {:induction false} CopyIsTame(allowCopy: bool)
    ensures Tame(CopyBlock(allowCopy, CopyOk)) && Tame(CopyBlock(allowCopy, CopyFailed))
  {
    assert Tame(CopyOk);
    assert Tame(CopyFailed);
    assert Tame(CopyRest(CopyOk));
    assert Tame(CopyRest(CopyFailed));
  }

  lemma {:induction false} TameCat(a: Regex, b: Regex)
    requires a != Star(Sym(DataRow)) && Tame(a) && Tame(b)
    ensures Tame(Cat(a, b))
  {
  }

  lemma {:induction false} TameAlt(a: Regex, b: Regex)
    requires Tame(a) && Tame(b)
    ensures Tame(Alt(a, b))
  {
  }

  lemma {:induction false} TameRows(end: Regex)
    requires EndsRows(end)
    ensures Tame(Rows(end))
  {
  }

  lemma {:induction false} SymIsTame(k: Kind)
    requires k != DataRow
    ensures Tame(Sym(k))
  {
  }

  lemma {:induction false} StarIsTame(a: Regex)
    requires Tame(a)
    ensures Tame(Star(a))
  {
  }

  lemma {:induction false} ResultsetIsTame(allowCopy: bool)
    ensures Tame(Resultset(allowCopy)) && Tame(FailedResultset(allowCopy))
  {
    hide CopyBlock, Tame, Rows;
    CopyIsTame(allowCopy);
    OneResultsetIsTame(CommandComplete, CopyBlock(allowCopy, CopyOk));
    OneResultsetIsTame(ErrorResponse, CopyBlock(allowCopy, CopyFailed));
  }

  lemma {:induction false} OneResultsetIsTame(end: Kind, copy: Regex)
    requires EndsRows(Sym(end)) && Tame(copy)
    ensures Tame(Alt(Sym(end), Alt(Cat(Sym(RowDescription), Rows(Sym(end))), copy)))
  {
    hide Tame, Rows;
    SymIsTame(end);
    SymIsTame(RowDescription);
    TameRows(Sym(end));
    TameCat(Sym(RowDescription), Rows(Sym(end)));
    TameAlt(Cat(Sym(RowDescription), Rows(Sym(end))), copy);
    TameAlt(Sym(end), Alt(Cat(Sym(RowDescription), Rows(Sym(end))), copy));
  }

  lemma {:induction false} NotJustRows(allowCopy: bool)
    ensures Resultset(allowCopy) != Star(Sym(DataRow)) && FailedResultset(allowCopy) != Star(Sym(DataRow))
    ensures Resultset(allowCopy) != Sym(DataRow)
  {
  }

  lemma {:induction false} QueryIsTame(allowCopy: bool)
    ensures Tame(QueryReply(allowCopy)) && QueryReply(allowCopy) != Star(Sym(DataRow))
  {
    hide Resultset, FailedResultset, Tame;
    ResultsetIsTame(allowCopy);
    NotJustRows(allowCopy);
    var ok, failed, ready := Resultset(allowCopy), FailedResultset(allowCopy), Sym(ReadyForQuery);
    SymIsTame(ReadyForQuery);
    SymIsTame(EmptyQueryResponse);
    TameCat(failed, ready);
    TameAlt(ready, Cat(failed, ready));
    StarIsTame(ok);
    TameCat(Star(ok), Alt(ready, Cat(failed, ready)));
    TameCat(ok, MoreResultsets(allowCopy));
    TameCat(Sym(EmptyQueryResponse), ready);
    TameAlt(Cat(ok, MoreResultsets(allowCopy)), Cat(failed, ready));
    TameAlt(Cat(Sym(EmptyQueryResponse), ready), Alt(Cat(ok, MoreResultsets(allowCopy)), Cat(failed, ready)));
  }

  lemma {:induction false} ExecuteIsTame(allowCopy: bool)
    ensures Tame(DocumentedOk(Execute, allowCopy)) && Tame(DocumentedFailed(Execute, allowCopy))
  {
    hide CopyBlock, Tame, Rows;
    CopyIsTame(allowCopy);
    var ok, failed := CopyBlock(allowCopy, CopyOk), CopyBlock(allowCopy, CopyFailed);
    TameRows(RowsEnd);
    TameRows(Sym(ErrorResponse));
    SymIsTame(EmptyQueryResponse);
    TameAlt(Sym(EmptyQueryResponse), ok);
    TameAlt(Rows(RowsEnd), Alt(Sym(EmptyQueryResponse), ok));
    TameAlt(Rows(Sym(ErrorResponse)), failed);
  }

  lemma {:induction false} MessageIsTame(m: RequestMessage, allowCopy: bool)
    ensures Tame(DocumentedOk(m, allowCopy)) && Tame(DocumentedFailed(m, allowCopy))
    ensures DocumentedOk(m, allowCopy) != Star(Sym(DataRow)) && DocumentedFailed(m, allowCopy) != Star(Sym(DataRow))
  {
    hide CopyBlock, Rows;
    if m == Execute {
      hide Tame;
      ExecuteIsTame(allowCopy);
    } else {
      hide ExecuteOk, ExecuteFailed;
    }
  }

  lemma {:induction false} DocumentedIsTame(ms: seq<RequestMessage>, allowCopy: bool, i: nat)
    requires i <= |ms|
    ensures Tame(DocumentedReply(ms, allowCopy, i))
    decreases |ms| - i
  {
    if i < |ms| {
      hide QueryReply, DocumentedOk, DocumentedFailed, Tame;
      var m, next := ms[i], DocumentedReply(ms, allowCopy, i + 1);
      DocumentedIsTame(ms, allowCopy, i + 1);
      match m {
        case Flush =>
        case Sync =>
          SymIsTame(ReadyForQuery);
          TameCat(Sym(ReadyForQuery), next);
        case Query =>
          QueryIsTame(allowCopy);
          TameCat(QueryReply(allowCopy), next);
        case _ =>
          var after := DocumentedReply(ms, allowCopy, NextSync(ms, i + 1));
          DocumentedIsTame(ms, allowCopy, NextSync(ms, i + 1));
          MessageIsTame(m, allowCopy);
          TameCat(DocumentedOk(m, allowCopy), next);
          TameCat(DocumentedFailed(m, allowCopy), after);
          TameAlt(Cat(DocumentedOk(m, allowCopy), next), Cat(DocumentedFailed(m, allowCopy), after));
      }
    }
  }

  // ----- a tidy reply is documented, and the other way around

  /** Rows directly before a message that may not follow them: there are none. */
  lemma {:induction false} NoRowsBefore(w: seq<Kind>, i: nat, l: nat, j: nat)
    requires i <= l < j <= |w| && Tidy(w, i, j) && Matches(Star(Sym(DataRow)), w, i, l) && BadPair(DataRow, w[l])
    ensures i == l
  {
    hide Matches;
    RowsAreRows(w, i, l);
  }

  lemma {:induction false} CopyStarts(allowCopy: bool, end: Regex, w: seq<Kind>, i: nat, j: nat)
    requires i <= j <= |w| && Matches(CopyBlock(allowCopy, end), w, i, j)
    ensures i < j && w[i] == CopyOutResponse
  {
    hide CopyRest;
    if allowCopy {
      SymCat(CopyOutResponse, CopyRest(end), w, i, j);
    }
  }

  lemma {:induction false} SymIs(k: Kind, w: seq<Kind>, i: nat, j: nat)
    requires i <= j <= |w|
    ensures Matches(Sym(k), w, i, j) <==> j == i + 1 && w[i] == k
  {
  }

  lemma {:induction false} AltIs(a: Regex, b: Regex, w: seq<Kind>, i: nat, j: nat)
    requires i <= j <= |w|
    ensures Matches(Alt(a, b), w, i, j) <==> Matches(a, w, i, j) || Matches(b, w, i, j)
  {
  }

  lemma {:induction false} NoRows(w: seq<Kind>, i: nat)
    requires i <= |w|
    ensures Matches(Star(Sym(DataRow)), w, i, i)
  {
  }

  /** How an execute ends well: the two grammars agree on tidy words. */
  lemma {:induction false} ExecuteOkTidy(allowCopy: bool, w: seq<Kind>, i: nat, j: nat)
    requires i <= j <= |w| && Tidy(w, i, j) && Matches(ExecuteOk(allowCopy), w, i, j)
    ensures Matches(DocumentedOk(Execute, allowCopy), w, i, j)
  {
    hide Matches, CopyBlock, Tidy;
    var copy := CopyBlock(allowCopy, CopyOk);
    var l := CatParts(Star(Sym(DataRow)), Alt(Finisher, copy), w, i, j);
    AltIs(Finisher, copy, w, l, j);
    FinisherIs(w, l, j);
    AltIs(Rows(RowsEnd), Alt(Sym(EmptyQueryResponse), copy), w, i, j);
    AltIs(Sym(EmptyQueryResponse), copy, w, i, j);
    if Matches(copy, w, l, j) {
      CopyStarts(allowCopy, CopyOk, w, l, j);
      NoRowsBefore(w, i, l, j);
    } else if l < j && w[l] == EmptyQueryResponse && !Matches(RowsEnd, w, l, j) {
      NoRowsBefore(w, i, l, j);
      SymIs(EmptyQueryResponse, w, i, j);
    } else {
      CatIntro(Star(Sym(DataRow)), RowsEnd, w, i, l, j);
    }
  }

  lemma {:induction false} FinisherIs(w: seq<Kind>, i: nat, j: nat)
    requires i <= j <= |w|
    ensures Matches(Finisher, w, i, j) <==> Matches(RowsEnd, w, i, j) || (j == i + 1 && w[i] == EmptyQueryResponse)
  {
    hide Matches;
    var rest := Alt(Sym(EmptyQueryResponse), Sym(PortalSuspended));
    AltIs(Sym(CommandComplete), rest, w, i, j);
    AltIs(Sym(EmptyQueryResponse), Sym(PortalSuspended), w, i, j);
    AltIs(Sym(CommandComplete), Sym(PortalSuspended), w, i, j);
    SymIs(EmptyQueryResponse, w, i, j);
  }

  lemma {:induction false} ExecuteOkTaken(allowCopy: bool, w: seq<Kind>, i: nat, j: nat)
    requires i <= j <= |w| && Matches(DocumentedOk(Execute, allowCopy), w, i, j)
    ensures Matches(ExecuteOk(allowCopy), w, i, j)
  {
    hide Matches, CopyBlock;
    var copy := CopyBlock(allowCopy, CopyOk);
    AltIs(Rows(RowsEnd), Alt(Sym(EmptyQueryResponse), copy), w, i, j);
    AltIs(Sym(EmptyQueryResponse), copy, w, i, j);
    var l := i;
    if Matches(Rows(RowsEnd), w, i, j) {
      l := CatParts(Star(Sym(DataRow)), RowsEnd, w, i, j);
    } else {
      NoRows(w, i);
      SymIs(EmptyQueryResponse, w, i, j);
    }
    FinisherIs(w, l, j);
    AltIs(Finisher, copy, w, l, j);
    CatIntro(Star(Sym(DataRow)), Alt(Finisher, copy), w, i, l, j);
  }

  lemma {:induction false} ExecuteFailedTidy(allowCopy: bool, w: seq<Kind>, i: nat, j: nat)
    requires i <= j <= |w| && Tidy(w, i, j) && Matches(ExecuteFailed(allowCopy), w, i, j)
    ensures Matches(DocumentedFailed(Execute, allowCopy), w, i, j)
  {
    hide Matches, CopyBlock, Tidy;
    var copy := CopyBlock(allowCopy, CopyFailed);
    var l := CatParts(Star(Sym(DataRow)), Alt(Sym(ErrorResponse), copy), w, i, j);
    AltIs(Sym(ErrorResponse), copy, w, l, j);
    AltIs(Rows(Sym(ErrorResponse)), copy, w, i, j);
    if Matches(copy, w, l, j) {
      CopyStarts(allowCopy, CopyFailed, w, l, j);
      NoRowsBefore(w, i, l, j);
    } else {
      CatIntro(Star(Sym(DataRow)), Sym(ErrorResponse), w, i, l, j);
    }
  }

  lemma {:induction false} ExecuteFailedTaken(allowCopy: bool, w: seq<Kind>, i: nat, j: nat)
    requires i <= j <= |w| && Matches(DocumentedFailed(Execute, allowCopy), w, i, j)
    ensures Matches(ExecuteFailed(allowCopy), w, i, j)
  {
    hide Matches, CopyBlock;
    var copy := CopyBlock(allowCopy, CopyFailed);
    AltIs(Rows(Sym(ErrorResponse)), copy, w, i, j);
    var l := i;
    if Matches(Rows(Sym(ErrorResponse)), w, i, j) {
      l := CatParts(Star(Sym(DataRow)), Sym(ErrorResponse), w, i, j);
    } else {
      NoRows(w, i);
    }
    AltIs(Sym(ErrorResponse), copy, w, l, j);
    CatIntro(Star(Sym(DataRow)), Alt(Sym(ErrorResponse), copy), w, i, l, j);
  }

  /** One part of a reply, tidy as it is: the code and the comment agree. */
  lemma {:induction false} PartTidy(m: RequestMessage, allowCopy: bool, w: seq<Kind>, i: nat, j: nat)
    requires i <= j <= |w| && Tidy(w, i, j)
    ensures Matches(Ok(m, allowCopy), w, i, j) <==> Matches(DocumentedOk(m, allowCopy), w, i, j)
    ensures Matches(Failed(m, allowCopy), w, i, j) <==> Matches(DocumentedFailed(m, allowCopy), w, i, j)
  {
    if m == Execute {
      assert Ok(m, allowCopy) == ExecuteOk(allowCopy) && Failed(m, allowCopy) == ExecuteFailed(allowCopy);
      hide Matches, ExecuteOk, ExecuteFailed, DocumentedOk, DocumentedFailed, Tidy;
      if Matches(Ok(m, allowCopy), w, i, j) {
        ExecuteOkTidy(allowCopy, w, i, j);
      }
      if Matches(DocumentedOk(m, allowCopy), w, i, j) {
        ExecuteOkTaken(allowCopy, w, i, j);
      }
      if Matches(Failed(m, allowCopy), w, i, j) {
        ExecuteFailedTidy(allowCopy, w, i, j);
      }
      if Matches(DocumentedFailed(m, allowCopy), w, i, j) {
        ExecuteFailedTaken(allowCopy, w, i, j);
      }
    }
  }

  /** Two sequences of parts that agree on the tidy pieces of a tidy word. */
  lemma {:induction false} CatTidy(a: Regex, a': Regex, b: Regex, b': Regex, w: seq<Kind>, i: nat, j: nat)
    requires i <= j <= |w|
    requires forall k: nat | i <= k <= j :: Matches(a, w, i, k) <==> Matches(a', w, i, k)
    requires forall k: nat | i <= k <= j :: Matches(b, w, k, j) <==> Matches(b', w, k, j)
    ensures Matches(Cat(a, b), w, i, j) <==> Matches(Cat(a', b'), w, i, j)
  {
    hide Matches;
    if Matches(Cat(a, b), w, i, j) {
      var k := CatParts(a, b, w, i, j);
      CatIntro(a', b', w, i, k, j);
    }
    if Matches(Cat(a', b'), w, i, j) {
      var k := CatParts(a', b', w, i, j);
      CatIntro(a, b, w, i, k, j);
    }
  }

  /** On tidy words the two grammars agree. */
  lemma {:induction false} TidyAgree(ms: seq<RequestMessage>, allowCopy: bool, at: nat, w: seq<Kind>, i: nat, j: nat)
    requires at <= |ms| && i <= j <= |w| && Tidy(w, i, j)
    ensures Matches(Reply(ms, allowCopy, at), w, i, j) <==> Matches(DocumentedReply(ms, allowCopy, at), w, i, j)
    decreases |ms| - at
  {
    if at < |ms| {
      hide Matches, QueryReply, Ok, Failed, DocumentedOk, DocumentedFailed;
      var m, next, next' := ms[at], Reply(ms, allowCopy, at + 1), DocumentedReply(ms, allowCopy, at + 1);
      forall k: nat | i <= k <= j ensures Matches(next, w, k, j) <==> Matches(next', w, k, j) {
        TidyAgree(ms, allowCopy, at + 1, w, k, j);
      }
      match m {
        case Flush =>
        case Sync => CatTidy(Sym(ReadyForQuery), Sym(ReadyForQuery), next, next', w, i, j);
        case Query => CatTidy(QueryReply(allowCopy), QueryReply(allowCopy), next, next', w, i, j);
        case _ =>
          var sync := NextSync(ms, at + 1);
          var after, after' := Reply(ms, allowCopy, sync), DocumentedReply(ms, allowCopy, sync);
          forall k: nat | i <= k <= j ensures Matches(after, w, k, j) <==> Matches(after', w, k, j) {
            TidyAgree(ms, allowCopy, sync, w, k, j);
          }
          MessageTidy(m, allowCopy, next, next', after, after', w, i, j);
      }
    }
  }

  lemma {:induction false} MessageTidy(m: RequestMessage, allowCopy: bool, next: Regex, next': Regex, after: Regex, after': Regex,
      w: seq<Kind>, i: nat, j: nat)
    requires i <= j <= |w| && Tidy(w, i, j)
    requires forall k: nat | i <= k <= j :: Matches(next, w, k, j) <==> Matches(next', w, k, j)
    requires forall k: nat | i <= k <= j :: Matches(after, w, k, j) <==> Matches(after', w, k, j)
    ensures Matches(Alt(Cat(Ok(m, allowCopy), next), Cat(Failed(m, allowCopy), after)), w, i, j) <==>
      Matches(Alt(Cat(DocumentedOk(m, allowCopy), next'), Cat(DocumentedFailed(m, allowCopy), after')), w, i, j)
  {
    hide Matches, Ok, Failed, DocumentedOk, DocumentedFailed;
    var ok, ok', failed, failed' := Ok(m, allowCopy), DocumentedOk(m, allowCopy), Failed(m, allowCopy), DocumentedFailed(m, allowCopy);
    forall k: nat | i <= k <= j
      ensures Matches(ok, w, i, k) <==> Matches(ok', w, i, k)
      ensures Matches(failed, w, i, k) <==> Matches(failed', w, i, k)
    {
      PartTidy(m, allowCopy, w, i, k);
    }
    CatTidy(ok, ok', next, next', w, i, j);
    CatTidy(failed, failed', after, after', w, i, j);
    AltIs(Cat(ok, next), Cat(failed, after), w, i, j);
    AltIs(Cat(ok', next'), Cat(failed', after'), w, i, j);
  }

  /** Documented replies are exactly the tidy ones in the grammar of the code. */
  lemma {:induction false} DocumentedIffTidy(ms: seq<RequestMessage>, allowCopy: bool, w: seq<Kind>)
    ensures Matches(DocumentedReply(ms, allowCopy, 0), w, 0, |w|) <==>
      Matches(Reply(ms, allowCopy, 0), w, 0, |w|) && Tidy(w, 0, |w|)
  {
    hide Matches, Reply, DocumentedReply, Tidy;
    if Matches(DocumentedReply(ms, allowCopy, 0), w, 0, |w|) {
      DocumentedIsTame(ms, allowCopy, 0);
      TameIsNeat(DocumentedReply(ms, allowCopy, 0), w, 0, |w|);
    }
    if Tidy(w, 0, |w|) {
      TidyAgree(ms, allowCopy, 0, w, 0, |w|);
    }
  }

  /** No row is directly followed by a COPY OUT or an empty query, asynchronous messages aside. */
  predicate NoRowBefore(v: seq<BackendMessage>) {
    var ks := Kinds(SansAsync(v));
    Tidy(ks, 0, |ks|)
  }

  /** For every accepted request and every word: the machine accepts it and no row is directly
      followed by a COPY OUT or an empty query, if and only if it is a documented reply that
      does not end with an asynchronous message. So the words that the code takes in spite of
      its comment are exactly those with such a pair. */
  lemma {:induction false} DocumentedExactly(ms: seq<RequestMessage>, allowCopy: bool, v: seq<BackendMessage>)
    requires Accepted(ms)
    ensures Accepts(Init(ms, allowCopy), v) && NoRowBefore(v) <==>
      v != [] && !IsAsync(v[|v| - 1].kind) && IsDocumented(ms, allowCopy, v)
    ensures Accepts(Init(ms, allowCopy), v) ==> (IsDocumented(ms, allowCopy, v) <==> NoRowBefore(v))
  {
    hide Matches, Accepts, Accepted, IsAsync, Init, Reply, DocumentedReply, SansAsync, Tidy;
    LanguageEquivalence(ms, allowCopy, v);
    DocumentedIffTidy(ms, allowCopy, Kinds(SansAsync(v)));
  }

  // ----- such words

  /** The code takes a row before an empty query, and before a COPY OUT. */
  lemma {:induction false} RowsBeforeEmptyQuery(row: BackendMessage, empty: BackendMessage, ready: BackendMessage)
    requires row.kind == DataRow && empty.kind == EmptyQueryResponse && ready.kind == ReadyForQuery
    ensures var v := [row] + ([empty] + [ready]);
      Accepts(Init([Execute, Sync], false), v) && !IsDocumented([Execute, Sync], false, v)
  {
    hide Resume, Accepts, IsDocumented, Accepted, NoRowBefore;
    var f := Init([Execute, Sync], false);
    ExecuteThenSync(f, row, empty, ready);
    AcceptsOne(f.(current := 1), ready);
    AcceptsMore(f, empty, [ready]);
    AcceptsMore(f, row, [empty] + [ready]);
    ExecuteIsAccepted();
    PairBreaks(row, empty, [ready]);
    DocumentedExactly([Execute, Sync], false, [row] + ([empty] + [ready]));
  }

  lemma {:induction false} ExecuteThenSync(f: Fsm, row: BackendMessage, end: BackendMessage, ready: BackendMessage)
    requires f.messages == [Execute, Sync] && f.current == 0 && f.phase == MsgFirst
    requires row.kind == DataRow && end.kind == EmptyQueryResponse && ready.kind == ReadyForQuery
    ensures Resume(f, row).verdict == Read && Resume(f, row).fsm == f
    ensures Resume(f, end).verdict == Read && Resume(f, end).fsm == f.(current := 1)
    ensures Resume(f.(current := 1), ready).verdict == Done(None)
  {
    assert SkipFlush(f.messages, 0) == 0 && SkipFlush(f.messages, 1) == 1;
    hide HandleQuery, HandleError, NextSync, Skips;
  }

  lemma {:induction false} ExecuteIsAccepted()
    ensures Accepted([Execute, Sync])
  {
    assert [Execute, Sync][1..] == [Sync] && [Sync][1..] == [];
    assert Closed([], false);
    assert Closed([Sync], true);
  }

  lemma {:induction false} PairBreaks(row: BackendMessage, next: BackendMessage, rest: seq<BackendMessage>)
    requires BadPair(row.kind, next.kind)
    ensures !NoRowBefore([row] + ([next] + rest))
  {
    var v := [row] + ([next] + rest);
    assert v[0] == row && v[1..] == [next] + rest && v[1..][0] == next && v[1..][1..] == rest;
    var u := SansAsync(rest);
    assert SansAsync(v[1..]) == [next] + u;
    assert SansAsync(v) == [row] + ([next] + u);
    var ks := Kinds([row] + ([next] + u));
    assert BadPair(ks[0], ks[1]);
  }

  lemma {:induction false} RowsBeforeCopyOut(row: BackendMessage, copy: BackendMessage, done: BackendMessage, complete: BackendMessage,
      ready: BackendMessage)
    requires row.kind == DataRow && copy.kind == CopyOutResponse && done.kind == CopyDone
    requires complete.kind == CommandComplete && ready.kind == ReadyForQuery
    ensures var v := [row] + ([copy] + ([done] + ([complete] + [ready])));
      Accepts(Init([Execute, Sync], true), v) && !IsDocumented([Execute, Sync], true, v)
  {
    hide Resume, Accepts, IsDocumented, Accepted, NoRowBefore;
    var f := Init([Execute, Sync], true);
    ExecuteThenSync(f, row, BackendMessage(EmptyQueryResponse, []), ready);
    CopyThenComplete(f, copy, done, complete);
    var end := [complete] + [ready];
    AcceptsOne(f.(current := 1), ready);
    AcceptsMore(f.(phase := ExecCopyOutNeedsCommandComplete), complete, [ready]);
    AcceptsMore(f.(phase := ExecCopyOut), done, end);
    AcceptsMore(f, copy, [done] + end);
    AcceptsMore(f, row, [copy] + ([done] + end));
    ExecuteIsAccepted();
    PairBreaks(row, copy, [done] + end);
    DocumentedExactly([Execute, Sync], true, [row] + ([copy] + ([done] + end)));
  }

  lemma {:induction false} CopyThenComplete(f: Fsm, copy: BackendMessage, done: BackendMessage, complete: BackendMessage)
    requires f == Init([Execute, Sync], true)
    requires copy.kind == CopyOutResponse && done.kind == CopyDone && complete.kind == CommandComplete
    ensures Resume(f, copy).verdict == Read && Resume(f, copy).fsm == f.(phase := ExecCopyOut)
    ensures var g := f.(phase := ExecCopyOut);
      Resume(g, done).verdict == Read && Resume(g, done).fsm == f.(phase := ExecCopyOutNeedsCommandComplete)
    ensures var g := f.(phase := ExecCopyOutNeedsCommandComplete);
      Resume(g, complete).verdict == Read && Resume(g, complete).fsm == f.(current := 1)
  {
    assert SkipFlush(f.messages, 0) == 0;
    hide HandleQuery, HandleError, NextSync, Skips;
  }
}
