/** The startup of a connection (src/startup_fsm.cpp): authentication, then the messages up to
    ReadyForQuery. */
module Startup {
  import opened Messages
  import opened Scram
  import opened ErrorFields
  import Server = ScramServer
  import Views = ParsingViews

  datatype StartupError =
    | ServerError
    | UnexpectedReply
    | MechanismsUnsupported
    | MethodUnsupported
    | ScramFailed(why: ScramError)

  /** What a connection attempt is about: the password and the nonce that was drawn. */
  datatype Attempt = Attempt(crypto: Crypto, password: Text, nonce: Text)

  /** The data of an authentication message: its body without the code of the method. */
  function AuthData(m: BackendMessage): Text {
    if |m.body| < 4 then [] else m.body[4..]
  }

  /** The view over the mechanisms of a SASL request has SCRAM-SHA-256. */
  predicate OffersScram(m: BackendMessage) {
    var p := Views.ParseMechanisms(AuthData(m));
    p.Mechanisms? && (Views.ParsedMechanismsAreEncoded(AuthData(m)); Mechanism in Views.VisitStrings(AuthData(m), p.begin, p.end))
  }

  /** A SASL request whose list of mechanisms holds it offers it. */
  lemma {:induction false} ListOffers(m: BackendMessage, names: seq<Text>)
    requires Views.GoodNames(names) && |m.body| >= 4 && m.body[4..] == Views.EncodeMechanisms(names)
    ensures OffersScram(m) <==> Mechanism in names
  {
    hide Views.ParseMechanisms, Views.VisitStrings, Views.StringsIterable, Views.EncodeMechanisms;
    Views.MechanismsRoundTrip(names);
  }

  /** Where the machine waits for a message. */
  datatype Point = AwaitAuth | AwaitContinue | AwaitFinal(signature: Text) | AwaitOk | AwaitReady

  datatype Outcome = Goes(point: Point) | Ends(error: Option<StartupError>) | ReadsOutside

  /** process_error: an error with the SQLSTATE 00000 cannot be told from success. */
  function ErrorOf(m: BackendMessage): Option<StartupError> {
    if ZeroState(m) then None else Some(ServerError)
  }

  predicate UnknownMethod(k: Kind) {
    || k == AuthenticationKerberosV5 || k == AuthenticationCleartextPassword || k == AuthenticationMd5Password
    || k == AuthenticationGss || k == AuthenticationSspi
  }

  /** The answer after any authentication. */
  function AuthResponse(m: BackendMessage): Outcome {
    if m.kind == ErrorResponse then
      match ErrorOf(m)
      case Some(e) => Ends(Some(e))
      case None => Goes(AwaitReady)
    else if m.kind == AuthenticationOk then Goes(AwaitReady)
    else Ends(Some(UnexpectedReply))
  }

  /** resume, for a message that was read. */
  ghost function Resume(a: Attempt, p: Point, m: BackendMessage): Outcome
    requires Sound(a.crypto)
  {
    match p
    case AwaitAuth =>
      if m.kind == AuthenticationSasl then
        if OffersScram(m) then Goes(AwaitContinue) else Ends(Some(MechanismsUnsupported))
      else if UnknownMethod(m.kind) then Ends(Some(MethodUnsupported))
      else AuthResponse(m)
    case AwaitContinue =>
      if m.kind == ErrorResponse then Ends(ErrorOf(m))
      else if m.kind != AuthenticationSaslContinue then Ends(Some(UnexpectedReply))
      else
        (match ClientAnswers(a.crypto, a.nonce, a.password, AuthData(m))
         case Bad(e) => Ends(Some(ScramFailed(e)))
         case Faulted => ReadsOutside
         case Good(answer) => Goes(AwaitFinal(answer.signature)))
    case AwaitFinal(signature) =>
      if m.kind == ErrorResponse then Ends(ErrorOf(m))
      else if m.kind != AuthenticationSaslFinal then Ends(Some(UnexpectedReply))
      else
        (match FinalVerdict(signature, AuthData(m))
         case Refused(e) => Ends(Some(ScramFailed(e)))
         case ReadOutside => ReadsOutside
         case Fine => Goes(AwaitOk))
    case AwaitOk => AuthResponse(m)
    case AwaitReady =>
      if m.kind == BackendKeyData || m.kind == ParameterStatus || m.kind == NoticeResponse then Goes(AwaitReady)
      else if m.kind == ErrorResponse then Ends(ErrorOf(m))
      else if m.kind == ReadyForQuery then Ends(None)
      else Ends(Some(UnexpectedReply))
  }

  /** The word is exactly what the machine reads before it ends in success. */
  ghost predicate Succeeds(a: Attempt, p: Point, w: seq<BackendMessage>)
    requires Sound(a.crypto)
    decreases |w|
  {
    w != [] &&
    match Resume(a, p, w[0])
    case Goes(q) => Succeeds(a, q, w[1..])
    case Ends(e) => e == None && |w| == 1
    case ReadsOutside => false
  }

  // ----- what a startup is

  predicate IsSetting(k: Kind) {
    k == BackendKeyData || k == ParameterStatus || k == NoticeResponse
  }

  /** After the authentication: settings, then ReadyForQuery. */
  predicate Settles(w: seq<BackendMessage>) {
    && w != [] && w[|w| - 1].kind == ReadyForQuery
    && forall i | 0 <= i < |w| - 1 :: IsSetting(w[i].kind)
  }

  /** AuthenticationOk comes first. */
  predicate Approved(w: seq<BackendMessage>) {
    w != [] && w[0].kind == AuthenticationOk && Settles(w[1..])
  }

  /** A SASL exchange whose last message carries the signature that the client expects. */
  ghost predicate Authenticated(a: Attempt, w: seq<BackendMessage>)
    requires Sound(a.crypto)
  {
    && |w| >= 3
    && w[0].kind == AuthenticationSasl && OffersScram(w[0])
    && w[1].kind == AuthenticationSaslContinue && w[2].kind == AuthenticationSaslFinal
    && var r := ClientAnswers(a.crypto, a.nonce, a.password, AuthData(w[1]));
       r.Good? && ParseServerFinal(AuthData(w[2])) == Good(r.value.signature)
  }

  ghost predicate IsStartup(a: Attempt, w: seq<BackendMessage>)
    requires Sound(a.crypto)
  {
    Approved(w) || (Authenticated(a, w) && Approved(w[3..]))
  }

  /** No error carries the SQLSTATE 00000. */
  predicate Truthful(w: seq<BackendMessage>) {
    forall i | 0 <= i < |w| && w[i].kind == ErrorResponse :: !ZeroState(w[i])
  }

  lemma {:induction false} ReadySucceeds(a: Attempt, w: seq<BackendMessage>)
    requires Sound(a.crypto) && Truthful(w)
    ensures Succeeds(a, AwaitReady, w) <==> Settles(w)
    decreases |w|
  {
    Unfold(a, AwaitReady, w);
    hide Succeeds;
    if w != [] && IsSetting(w[0].kind) {
      TruthfulTail(w, 1);
      ReadySucceeds(a, w[1..]);
      SettlesTail(w);
    }
  }

  lemma {:induction false} SettlesTail(w: seq<BackendMessage>)
    requires w != [] && IsSetting(w[0].kind)
    ensures Settles(w) <==> Settles(w[1..])
  {
    assert forall i | 0 <= i < |w[1..]| :: w[1..][i] == w[i + 1];
    assert forall i | 0 < i < |w| :: w[i] == w[1..][i - 1];
  }

  lemma {:induction false} OkSucceeds(a: Attempt, w: seq<BackendMessage>)
    requires Sound(a.crypto) && Truthful(w)
    ensures Succeeds(a, AwaitOk, w) <==> Approved(w)
  {
    if w != [] {
      assert forall i | 0 <= i < |w[1..]| :: w[1..][i] == w[i + 1];
      ReadySucceeds(a, w[1..]);
    }
  }

  lemma {:induction false} TruthfulTail(w: seq<BackendMessage>, n: nat)
    requires Truthful(w) && n <= |w|
    ensures Truthful(w[n..])
  {
    assert forall i | 0 <= i < |w[n..]| :: w[n..][i] == w[n + i];
  }

  lemma {:induction false} SaslSucceeds(a: Attempt, w: seq<BackendMessage>)
    requires Sound(a.crypto) && Truthful(w) && w != [] && w[0].kind == AuthenticationSasl
    ensures Succeeds(a, AwaitAuth, w) <==> Authenticated(a, w) && Approved(w[3..])
  {
    hide ClientAnswers, ParseServerFinal, Approved, Succeeds, OffersScram, AuthData;
    Unfold(a, AwaitAuth, w);
    Unfold(a, AwaitContinue, w[1..]);
    var r := if |w| >= 2 then ClientAnswers(a.crypto, a.nonce, a.password, AuthData(w[1])) else Bad(InvalidNonce);
    if |w| >= 2 && r.Good? {
      assert w[1..][1..] == w[2..];
      Unfold(a, AwaitFinal(r.value.signature), w[2..]);
    }
    if |w| >= 3 {
      assert w[2..][1..] == w[3..];
      TruthfulTail(w, 3);
      OkSucceeds(a, w[3..]);
    }
  }

  lemma {:induction false} Unfold(a: Attempt, p: Point, w: seq<BackendMessage>)
    requires Sound(a.crypto)
    ensures Succeeds(a, p, w) <==>
      w != [] && match Resume(a, p, w[0]) case Goes(q) => Succeeds(a, q, w[1..]) case Ends(e) => e == None && |w| == 1 case ReadsOutside => false
  {
  }

  /** Without such errors, startup succeeds on exactly these words: AuthenticationOk, preceded by
      a SASL exchange with a matching server signature if the server began one, then settings,
      then ReadyForQuery. */
  lemma {:induction false} TruthfulLanguage(a: Attempt, w: seq<BackendMessage>)
    requires Sound(a.crypto) && Truthful(w)
    ensures Succeeds(a, AwaitAuth, w) <==> IsStartup(a, w)
  {
    hide ClientAnswers, ParseServerFinal, OffersScram, AuthData;
    if w != [] && w[0].kind == AuthenticationSasl {
      SaslSucceeds(a, w);
    } else if w != [] {
      TruthfulTail(w, 1);
      ReadySucceeds(a, w[1..]);
    }
  }

  /** An accepted startup never has an error in it. */
  lemma {:induction false} StartupIsTruthful(a: Attempt, w: seq<BackendMessage>)
    requires Sound(a.crypto) && IsStartup(a, w)
    ensures Truthful(w)
  {
    hide ClientAnswers, ParseServerFinal, OffersScram, AuthData;
    if Approved(w) {
      ApprovedHasNoError(w);
    } else {
      ApprovedHasNoError(w[3..]);
      assert forall i | 3 <= i < |w| :: w[i] == w[3..][i - 3];
    }
  }

  lemma {:induction false} ApprovedHasNoError(w: seq<BackendMessage>)
    requires Approved(w)
    ensures forall i | 0 <= i < |w| :: w[i].kind != ErrorResponse
  {
    assert forall i | 0 < i < |w| :: w[i] == w[1..][i - 1];
  }

  /** Startup, for every word: the words that are AuthenticationOk, preceded by a SASL exchange
      with a matching server signature if the server began one, then settings, then
      ReadyForQuery, are exactly those on which it succeeds and in which no error carries the
      SQLSTATE 00000. */
  lemma {:induction false} StartupLanguage(a: Attempt, w: seq<BackendMessage>)
    requires Sound(a.crypto)
    ensures IsStartup(a, w) <==> Succeeds(a, AwaitAuth, w) && Truthful(w)
  {
    hide Succeeds, IsStartup, Truthful;
    if IsStartup(a, w) {
      StartupIsTruthful(a, w);
    }
    if Truthful(w) {
      TruthfulLanguage(a, w);
    }
  }

  /** The exact condition: a success comes after AuthenticationOk and ReadyForQuery, and a
      matching signature if SASL began, if and only if no error carries the SQLSTATE 00000. */
  lemma {:induction false} SuccessIsStartupExactly(a: Attempt, w: seq<BackendMessage>)
    requires Sound(a.crypto) && Succeeds(a, AwaitAuth, w)
    ensures IsStartup(a, w) <==> Truthful(w)
  {
    hide Succeeds, IsStartup, Truthful;
    StartupLanguage(a, w);
  }

  /** Without the condition this fails: an error with the SQLSTATE 00000 counts as approval. */
  lemma {:induction false} ZeroStateCountsAsApproval(a: Attempt, error: BackendMessage, ready: BackendMessage)
    requires Sound(a.crypto) && error.kind == ErrorResponse && ZeroState(error) && ready.kind == ReadyForQuery
    ensures Succeeds(a, AwaitAuth, [error, ready]) && !IsStartup(a, [error, ready])
  {
    hide ZeroState;
    assert [error, ready][1..] == [ready];
  }

  /** And so does a refusal with any other SQLSTATE, if an unknown field follows it. */
  lemma {:induction false} UnknownFieldCountsAsApproval(a: Attempt, state: Text)
    requires Sound(a.crypto) && Views.NoNul(state)
    ensures Succeeds(a, AwaitAuth, [BackendMessage(ErrorResponse, EncodeEntries(Masked(state))), BackendMessage(ReadyForQuery, [])])
  {
    hide ZeroState, Succeeds, IsStartup, EncodeEntries, Masked, Collect, GoodEntries;
    UnknownFieldHidesTheState(state);
    ZeroStateCountsAsApproval(a, BackendMessage(ErrorResponse, EncodeEntries(Masked(state))), BackendMessage(ReadyForQuery, []));
  }

  /** What an honest server sends to a client that drew a nonce: a list of mechanisms with
      SCRAM-SHA-256, its first message, its final message if it grants the bytes that the client
      wrote, and the approval. */
  ghost predicate HonestWord(a: Attempt, account: Server.Account, names: seq<Text>, extra: Text, count: Text, w: seq<BackendMessage>)
    requires Sound(a.crypto) && |a.nonce| < 0x7000_0000
  {
    && |w| >= 4 && w[0].kind == AuthenticationSasl && w[1].kind == AuthenticationSaslContinue
    && w[2].kind == AuthenticationSaslFinal && w[3].kind == AuthenticationOk && Settles(w[4..])
    && |w[0].body| >= 4 && w[0].body[4..] == Views.EncodeMechanisms(names)
    && |w[1].body| >= 4 && w[1].body[4..] == Server.SendFirst(a.nonce, extra, account.salt, count)
    && |w[2].body| >= 4 && |InitialBody(a.nonce)| < 0x7fff_fffc
    && var r := ClientAnswers(a.crypto, a.nonce, a.password, w[1].body[4..]);
       r.Good? && |r.value.final| < 0x7fff_fffc ==>
         var j := Server.Judge(a.crypto, account, PasswordMessage(InitialBody(a.nonce)), extra, w[1].body[4..], PasswordMessage(r.value.final));
         j.Granted? ==> w[2].body[4..] == j.final
  }

  /** With an account of the same password, the word of an honest server makes startup succeed, for
      every nonce, salt, count, HMAC and H, and any settings before the end. */
  lemma {:induction false} HonestStartup(a: Attempt, names: seq<Text>, extra: Text, salt: Text, count: nat, text: Text, w: seq<BackendMessage>)
    requires Sound(a.crypto) && a.nonce != [] && |a.nonce + extra| < 0x7000_0000 && Printable(a.nonce + extra)
    requires 0 < count <= 0xffff && Server.Decimal(text, count) && Views.GoodNames(names) && Ascii("SCRAM-SHA-256") in names
    requires HonestWord(a, Server.Registered(a.crypto, a.password, salt, count), names, extra, text, w)
    ensures Succeeds(a, AwaitAuth, w)
  {
    hide Server.SendFirst, Server.Judge, Server.Decimal, Server.ReceiveFirst, OffersScram, Succeeds, ParseServerFinal, ClientAnswers,
      Settles, PasswordMessage, InitialBody, Sound, Printable;
    Server.LongTextsAre();
    ListOffers(w[0], names);
    Server.HonestRun(a.crypto, a.password, a.nonce, extra, salt, count, text);
    assert w[3..][1..] == w[4..];
    assert IsStartup(a, w);
    StartupLanguage(a, w);
  }

  // ----- why a startup is refused

  /** The error of every refusal: the server's own error, unless it hides behind the SQLSTATE 00000; a
      method or a list of mechanisms that the client does not have, at the first message only; a
      SCRAM message that the client refuses; and otherwise a message that nobody expected. */
  lemma {:induction false} RefusedExactly(a: Attempt, p: Point, m: BackendMessage)
    requires Sound(a.crypto) && Resume(a, p, m).Ends? && Resume(a, p, m).error.Some?
    ensures var e := Resume(a, p, m).error.value;
      && (e == ServerError <==> m.kind == ErrorResponse)
      && (e == ServerError ==> StateOf(m) != ZeroText)
      && (e == MethodUnsupported <==>
            p == AwaitAuth && m.kind in {AuthenticationKerberosV5, AuthenticationCleartextPassword, AuthenticationMd5Password,
                                         AuthenticationGss, AuthenticationSspi})
      && (e == MechanismsUnsupported <==> p == AwaitAuth && m.kind == AuthenticationSasl)
      && (e.ScramFailed? <==>
            (p == AwaitContinue && m.kind == AuthenticationSaslContinue) || (p.AwaitFinal? && m.kind == AuthenticationSaslFinal))
      && (e.ScramFailed? && p == AwaitContinue ==> ClientAnswers(a.crypto, a.nonce, a.password, AuthData(m)) == Bad(e.why))
      && (e.ScramFailed? && p.AwaitFinal? ==> FinalVerdict(p.signature, AuthData(m)) == Refused(e.why))
  {
    hide ClientAnswers, FinalVerdict, OffersScram, AuthData, ParseNotice, StateNumber, Sound;
    ZeroStateExactly(m);
  }

  // ----- the machine, updated in place

  class StartupFsm {
    const attempt: Attempt
    const scram: ScramClient
    var point: Point

    ghost predicate Valid()
      reads this, scram
    {
      && Sound(attempt.crypto)
      && (point.AwaitContinue? ==> scram.Started() && scram.nonce == attempt.nonce)
      && (point.AwaitFinal? ==> scram.serverSignature == point.signature)
    }

    constructor (attempt: Attempt)
      requires Sound(attempt.crypto)
      ensures Valid() && point == AwaitAuth && this.attempt == attempt && fresh(scram)
    {
      this.attempt := attempt;
      scram := new ScramClient();
      point := AwaitAuth;
    }

    method OnMessage(m: BackendMessage) returns (o: Outcome)
      requires Valid() && |attempt.nonce| < 0x7000_0000 && |m.body| < 0x7000_0000
      modifies this, scram
      ensures o == Resume(attempt, old(point), m)
      ensures o.Goes? ==> point == o.point && Valid()
      ensures o == Goes(AwaitContinue) ==>
        |InitialBody(attempt.nonce)| < 0x7fff_fffc && scram.writeBuffer == PasswordMessage(InitialBody(attempt.nonce))
      ensures o.Goes? && o.point.AwaitFinal? ==>
        var r := ClientAnswers(attempt.crypto, attempt.nonce, attempt.password, AuthData(m));
        r.Good? && |r.value.final| < 0x7fff_fffc && scram.writeBuffer == PasswordMessage(r.value.final)
    {
      hide ClientAnswers, FinalVerdict, PasswordMessage, InitialBody, OffersScram;
      match point {
        case AwaitAuth =>
          if m.kind == AuthenticationSasl {
            if !OffersScram(m) {
              return Ends(Some(MechanismsUnsupported));
            }
            InitialLength(attempt.nonce);
            scram.OnInit(attempt.nonce);
            o := Goes(AwaitContinue);
          } else if UnknownMethod(m.kind) {
            return Ends(Some(MethodUnsupported));
          } else {
            o := AuthResponse(m);
          }
        case AwaitContinue =>
          if m.kind == ErrorResponse {
            return Ends(ErrorOf(m));
          }
          if m.kind != AuthenticationSaslContinue {
            return Ends(Some(UnexpectedReply));
          }
          var v := scram.OnServerFirst(attempt.crypto, AuthData(m), attempt.password);
          if v.Refused? {
            return Ends(Some(ScramFailed(v.error)));
          }
          if v.ReadOutside? {
            return ReadsOutside;
          }
          o := Goes(AwaitFinal(scram.serverSignature));
        case AwaitFinal(_) =>
          if m.kind == ErrorResponse {
            return Ends(ErrorOf(m));
          }
          if m.kind != AuthenticationSaslFinal {
            return Ends(Some(UnexpectedReply));
          }
          var v := scram.OnServerFinal(AuthData(m));
          if v.Refused? {
            return Ends(Some(ScramFailed(v.error)));
          }
          if v.ReadOutside? {
            return ReadsOutside;
          }
          o := Goes(AwaitOk);
        case AwaitOk =>
          o := AuthResponse(m);
        case AwaitReady =>
          match m.kind {
            case BackendKeyData => o := Goes(AwaitReady);
            case ParameterStatus => o := Goes(AwaitReady);
            case NoticeResponse => o := Goes(AwaitReady);
            case ErrorResponse => o := Ends(ErrorOf(m));
            case ReadyForQuery => o := Ends(None);
            case _ => o := Ends(Some(UnexpectedReply));
          }
      }
      if o.Goes? {
        point := o.point;
      }
    }
  }
}
