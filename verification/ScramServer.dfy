/** A SCRAM server, written down from section 3 and section 5 of RFC 5802 and from RFC 7677, and the
    whole exchange of the client with it. The server has its own texts, keys and transcript, and
    reads nothing but the bytes that it receives and sends. */
module ScramServer {
  import opened Messages
  import opened DataRows
  import B = Base64
  import opened Rfc4648
  import opened Scram

  // ----- the cryptography

  /** Bit i of a number. */
  function Bit(x: nat, i: nat): nat {
    if i == 0 then x % 2 else Bit(x / 2, i - 1)
  }

  lemma {:induction false} XorBit(a: nat, b: nat, bits: nat, i: nat)
    requires i < bits
    ensures Bit(XorBits(a, b, bits), i) == (Bit(a, i) + Bit(b, i)) % 2
    decreases bits
  {
    if i > 0 {
      XorBit(a / 2, b / 2, bits - 1, i - 1);
    }
  }

  /** The exclusive or of the client is that of all bits of all bytes. */
  lemma {:induction false} XorIsBitwise(a: Text, b: Text, j: nat, i: nat)
    requires |a| == |b| && j < |a| && i < 8
    ensures Bit(Xor(a, b)[j], i) == (Bit(a[j], i) + Bit(b[j], i)) % 2
  {
    XorBit(a[j], b[j], 8, i);
  }

  /** U1, U2 and so on up to Un of section 2.2. */
  function Iterations(k: Crypto, str: Text, salt: Text, n: nat): (us: seq<Text>)
    requires n > 0
    ensures |us| == n
  {
    if n == 1 then [k.hmac(str, salt + [0, 0, 0, 1])]
    else
      var us := Iterations(k, str, salt, n - 1);
      us + [k.hmac(str, us[n - 2])]
  }

  ghost function XorAll(us: seq<Text>): (r: Text)
    requires us != [] && forall i | 0 <= i < |us| :: |us[i]| == 32
    ensures |r| == 32
  {
    if |us| == 1 then us[0] else Xor(XorAll(us[..|us| - 1]), us[|us| - 1])
  }

  ghost function SaltedPassword(k: Crypto, password: Text, salt: Text, count: nat): (r: Text)
    requires count > 0 && Sound(k)
    ensures |r| == 32
  {
    IterationsSound(k, password, salt, count);
    XorAll(Iterations(k, password, salt, count))
  }

  lemma {:induction false} IterationsSound(k: Crypto, str: Text, salt: Text, n: nat)
    requires n > 0 && Sound(k)
    ensures forall i | 0 <= i < n :: |Iterations(k, str, salt, n)[i]| == 32
    decreases n
  {
    if n > 1 {
      IterationsSound(k, str, salt, n - 1);
    }
  }

  /** What the server stores: neither the password nor a key that makes a proof. */
  datatype Account = Account(salt: Text, count: nat, storedKey: Text, serverKey: Text)

  ghost function Registered(k: Crypto, password: Text, salt: Text, count: nat): Account
    requires count > 0 && Sound(k)
  {
    var salted := SaltedPassword(k, password, salt, count);
    Account(salt, count, k.h(k.hmac(salted, Ascii("Client Key"))), k.hmac(salted, Ascii("Server Key")))
  }

  // ----- the messages

  predicate Begins(s: Text, t: Text) {
    |t| <= |s| && s[..|t|] == t
  }

  /** A password message of the wire: its letter is p. */
  function Body(bytes: Text): Option<Text> {
    if |bytes| < 5 || bytes[0] as int != 'p' as int || Int32(bytes, 1) != |bytes| - 1 then None else Some(bytes[5..])
  }

  datatype First = First(bare: Text, nonce: Text)

  /** SASLInitialResponse: the name of the mechanism, and the client's first message with its
      length; behind the GS2 header stands the bare message, with an empty user. */
  function ReceiveFirst(bytes: Text): Option<First> {
    match Body(bytes)
    case None => None
    case Some(body) =>
      var start := Ascii("SCRAM-SHA-256") + [0];
      if !Begins(body, start) || |body| < |start| + 4 || Int32(body, |start|) != |body| - |start| - 4 then None
      else
        var message := body[|start| + 4..];
        if !Begins(message, Ascii("n,,")) then None
        else
          var bare := message[3..];
          if !Begins(bare, Ascii("n=,r=")) then None else Some(First(bare, bare[5..]))
  }

  /** The value of a decimal text. */
  function DecimalValue(t: Text): nat {
    if t == [] then 0 else t[0] as int % 48 * Ten(|t| - 1) + DecimalValue(t[1..])
  }

  function Ten(n: nat): nat {
    if n == 0 then 1 else 10 * Ten(n - 1)
  }

  /** The text is a number in decimal digits. */
  predicate Decimal(t: Text, n: nat) {
    t != [] && (forall i | 0 <= i < |t| :: '0' as int <= t[i] as int <= '9' as int) && DecimalValue(t) == n
  }

  /** The server's first message. */
  function SendFirst(nonce: Text, extra: Text, salt: Text, count: Text): Text {
    Ascii("r=") + nonce + extra + Ascii(",s=") + Encoding(salt) + Ascii(",i=") + count
  }

  datatype Final = Final(withoutProof: Text, proof: Text)

  /** Where the last comma is, or the start. */
  function LastComma(s: Text): (p: nat)
    ensures p <= |s|
  {
    if s == [] || s[|s| - 1] as int == ',' as int then if s == [] then 0 else |s| - 1
    else LastComma(s[..|s| - 1])
  }

  /** The client's final message: what comes before ",p=", and the text of the proof. */
  function ReceiveFinal(bytes: Text): Option<Final> {
    match Body(bytes)
    case None => None
    case Some(body) =>
      var p := LastComma(body);
      if !Begins(body[p..], Ascii(",p=")) then None else Some(Final(body[..p], body[p + 3..]))
  }

  /** The transcript that both sides sign. */
  function Transcript(bare: Text, sent: Text, withoutProof: Text): Text {
    bare + Ascii(",") + sent + Ascii(",") + withoutProof
  }

  /** The hash of the proof, without the signature that the stored key makes, is the stored key. */
  predicate ProofHolds(k: Crypto, storedKey: Text, transcript: Text, proof: Text) {
    var signature := k.hmac(storedKey, transcript);
    |proof| == |signature| && k.h(Xor(proof, signature)) == storedKey
  }

  datatype Judgement = Granted(final: Text) | Denied

  /** The server's decision, from the bytes of the two messages that it received and the one that it
      sent. If the proof holds, it sends its own signature. */
  ghost function Judge(k: Crypto, account: Account, firstBytes: Text, extra: Text, sent: Text, finalBytes: Text): Judgement {
    match ReceiveFirst(firstBytes)
    case None => Denied
    case Some(first) =>
      match ReceiveFinal(finalBytes)
      case None => Denied
      case Some(final) =>
        var transcript := Transcript(first.bare, sent, final.withoutProof);
        if final.withoutProof == Ascii("c=biws,r=") + first.nonce + extra &&
           exists proof :: Encoding(proof) == final.proof && ProofHolds(k, account.storedKey, transcript, proof)
        then Granted(Ascii("v=") + Encoding(k.hmac(account.serverKey, transcript)))
        else Denied
  }

  // ----- the client's texts and keys are those of the RFC

  lemma {:induction false} TextsAre()
    ensures Gs2Header == Ascii("n,,") && BareStart == Ascii("n=,r=") && NonceStart == Ascii("r=") && VerifierStart == Ascii("v=")
    ensures ProofStart == Ascii(",p=") && SaltStart == Ascii(",s=") && CountStart == Ascii(",i=") && [Comma] == Ascii(",")
  {
  }

  lemma {:induction false} LongTextsAre()
    ensures FinalStart == Ascii("c=biws,r=") && Mechanism == Ascii("SCRAM-SHA-256")
    ensures ClientKeyText == Ascii("Client Key") && ServerKeyText == Ascii("Server Key")
  {
  }

  lemma {:induction false} HiIs(k: Crypto, str: Text, salt: Text, n: nat)
    requires n > 0 && Sound(k)
    ensures Hi(k, str, salt, n) == SaltedPassword(k, str, salt, n) && U(k, str, salt, n) == Iterations(k, str, salt, n)[n - 1]
    decreases n
  {
    hide Xor;
    if n > 1 {
      HiIs(k, str, salt, n - 1);
      IterationsSound(k, str, salt, n);
      var us := Iterations(k, str, salt, n);
      assert us[..n - 1] == Iterations(k, str, salt, n - 1);
    }
  }

  lemma {:induction false} KeysAre(k: Crypto, password: Text, salt: Text, count: nat)
    requires count > 0 && Sound(k)
    ensures var a := Registered(k, password, salt, count);
      a.storedKey == k.h(ClientKey(k, password, salt, count)) && a.serverKey == ServerKey(k, password, salt, count)
  {
    hide Hi, SaltedPassword;
    LongTextsAre();
    HiIs(k, password, salt, count);
  }

  /** Reading a decimal number: the client's way from the left is the value. */
  lemma {:induction false} DecimalIs(t: Text)
    requires forall i | 0 <= i < |t| :: '0' as int <= t[i] as int <= '9' as int
    ensures NumberOf(t) == Some(DecimalValue(t))
    decreases |t|
  {
    if t != [] {
      var init, c := t[..|t| - 1], t[|t| - 1];
      DecimalIs(init);
      DecimalLast(init, c);
      assert init + [c] == t;
    }
  }

  lemma {:induction false} DecimalLast(t: Text, c: Byte)
    ensures DecimalValue(t + [c]) == 10 * DecimalValue(t) + c as int % 48
    decreases |t|
  {
    if t == [] {
      assert t + [c] == [c] && [c][1..] == [];
      assert DecimalValue([c]) == c as int % 48 * Ten(0) + DecimalValue([]);
    } else {
      assert (t + [c])[1..] == t[1..] + [c];
      DecimalLast(t[1..], c);
      var d, n := t[0] as int % 48, |t| - 1;
      assert Ten(n + 1) == 10 * Ten(n);
      assert d * Ten(n + 1) == 10 * (d * Ten(n));
    }
  }

  // ----- the exchange

  lemma {:induction false} FirstReceived(nonce: Text)
    requires |nonce| < 0x7000_0000
    ensures |InitialBody(nonce)| < 0x7fff_fffc
    ensures ReceiveFirst(PasswordMessage(InitialBody(nonce))) == Some(First(ClientFirstBare(nonce), nonce))
  {
    hide Bytes32, Int32;
    TextsAre();
    LongTextsAre();
    var body := InitialBody(nonce);
    BodyOf(body);
    var start := Mechanism + [0];
    var length := Bytes32(8 + |nonce|);
    var message := Gs2Header + ClientFirstBare(nonce);
    assert body == start + length + message;
    FirstLayout(start, length, message);
    Int32Bytes(8 + |nonce|, body, 14);
    assert message[..3] == Gs2Header && message[3..] == ClientFirstBare(nonce);
    assert ClientFirstBare(nonce)[..5] == BareStart && ClientFirstBare(nonce)[5..] == nonce;
  }

  lemma {:induction false} FirstLayout(start: Text, length: Text, message: Text)
    requires |start| == 14 && |length| == 4
    ensures var body := start + length + message;
      body[..14] == start && body[14..18] == length && body[18..] == message
  {
  }

  lemma {:induction false} BodyOf(body: Text)
    requires |body| < 0x7fff_fffc
    ensures Body(PasswordMessage(body)) == Some(body)
  {
    hide Bytes32, Int32;
    var data := PasswordMessage(body);
    assert data[1..5] == Bytes32(|body| + 4);
    Int32Bytes(|body| + 4, data, 1);
    assert data[5..] == body;
  }

  lemma {:induction false} LastCommaIs(a: Text, b: Text)
    requires forall i | 0 <= i < |b| :: b[i] != Comma
    ensures LastComma(a + [Comma] + b) == |a|
    decreases |b|
  {
    var s := a + [Comma] + b;
    if b != [] {
      var init := b[..|b| - 1];
      assert s[..|s| - 1] == a + [Comma] + init && s[|s| - 1] == b[|b| - 1];
      LastCommaIs(a, init);
    }
  }

  lemma {:induction false} FinalReceived(nonce: Text, proof: Text)
    requires |ClientFinalText(nonce, proof)| < 0x7fff_fffc
    ensures ReceiveFinal(PasswordMessage(ClientFinalText(nonce, proof))) == Some(Final(WithoutProof(nonce), Encoding(proof)))
  {
    hide B.Encoded, Encoding, LastComma;
    TextsAre();
    EncodedIs(proof);
    var text := ClientFinalText(nonce, proof);
    BodyOf(text);
    var w, e := WithoutProof(nonce), B.Encoded(proof);
    var tail := ProofStart[1..] + e;
    assert text == w + [Comma] + tail;
    TextHasNoComma(proof);
    assert forall i | 0 <= i < |tail| :: tail[i] != Comma;
    LastCommaIs(w, tail);
    assert text[|w|..] == ProofStart + e;
    assert (ProofStart + e)[..3] == ProofStart;
    assert text[..|w|] == w && text[|w| + 3..] == e;
  }

  /** The server's first message is read by the client, whatever way it writes its number. */
  lemma {:induction false} SentIsRead(nonce: Text, extra: Text, salt: Text, count: nat, text: Text)
    requires Printable(nonce + extra) && Decimal(text, count) && count < 0x1_0000_0000
    ensures ParseServerFirst(SendFirst(nonce, extra, salt, text)) == Good(ServerFirst(nonce + extra, salt, count))
  {
    hide B.Encoded, Encoding, B.Decoded, NumberOf, CommaFrom, PrintableEnd, ParseServerFirst, DecimalValue, SendFirst, Printable, HasAt;
    ImplementsRfc4648(salt);
    DecimalIs(text);
    TextHasNoComma(salt);
    DigitsHaveNoComma(text);
    FirstPieces(nonce + extra, Encoding(salt), text, []);
    SentLayout(nonce, extra, salt, text);
    FirstIsRead(SendFirst(nonce, extra, salt, text), nonce + extra, Encoding(salt), text, []);
  }

  lemma {:induction false} SentLayout(nonce: Text, extra: Text, salt: Text, text: Text)
    ensures SendFirst(nonce, extra, salt, text) == NonceStart + (nonce + extra) + SaltStart + Encoding(salt) + CountStart + text + []
  {
    hide Encoding;
    TextsAre();
    hide Ascii;
    assert NonceStart + nonce + extra == NonceStart + (nonce + extra);
  }

  /** The whole exchange, for every password, nonce, salt, count, HMAC and H, and every way of
      writing the count: a server that has the account of the same password reads the nonce from the
      client's bytes, the client answers its message, the server grants the answer, and the client
      accepts the server's signature. */
  lemma {:induction false} HonestRun(k: Crypto, password: Text, nonce: Text, extra: Text, salt: Text, count: nat, text: Text)
    requires Sound(k) && nonce != [] && |nonce + extra| < 0x7000_0000 && Printable(nonce + extra)
    requires 0 < count <= 0xffff && Decimal(text, count)
    ensures |InitialBody(nonce)| < 0x7fff_fffc
    ensures var account := Registered(k, password, salt, count);
      var m := PasswordMessage(InitialBody(nonce)); var sent := SendFirst(nonce, extra, salt, text);
      var r := ClientAnswers(k, nonce, password, sent);
      && ReceiveFirst(m) == Some(First(Ascii("n=,r=") + nonce, nonce))
      && r.Good? && |r.value.final| < 0x7fff_fffc
      && var j := Judge(k, account, m, extra, sent, PasswordMessage(r.value.final));
         j.Granted? && FinalVerdict(r.value.signature, j.final) == Fine
  {
    hide InitialBody, PasswordMessage, ReceiveFirst, ReceiveFinal, SendFirst, ParseServerFirst, Hi, Xor, Registered, ClientFinalText,
      ClientKey, ServerKey, Encoding, FinalVerdict, ProofHolds, Decimal, Transcript, AuthMessage;
    TextsAre();
    FirstReceived(nonce);
    SentIsRead(nonce, extra, salt, count, text);
    var sent := SendFirst(nonce, extra, salt, text);
    assert HasAt(nonce + extra, 0, nonce) by {
      assert (nonce + extra)[0..|nonce|] == nonce;
    }
    var w := WithoutProof(nonce + extra);
    var auth := AuthMessage(ClientFirstBare(nonce), sent, w);
    TranscriptIs(ClientFirstBare(nonce), sent, w);
    KeyLength(k, password, salt, count);
    KeysAre(k, password, salt, count);
    var key := ClientKey(k, password, salt, count);
    var proof := Xor(key, k.hmac(k.h(key), auth));
    FinalLength(nonce + extra, proof);
    FinalReceived(nonce + extra, proof);
    ProofOfClient(k, key, auth);
    LongTextsAre();
    assert FinalStart + (nonce + extra) == FinalStart + nonce + extra;
    var signature := k.hmac(ServerKey(k, password, salt, count), auth);
    VerifierAccepted(signature);
  }

  lemma {:induction false} TranscriptIs(bare: Text, sent: Text, w: Text)
    ensures Transcript(bare, sent, w) == AuthMessage(bare, sent, w)
  {
    TextsAre();
  }

  lemma {:induction false} ProofOfClient(k: Crypto, key: Text, auth: Text)
    requires |key| == |k.hmac(k.h(key), auth)|
    ensures ProofHolds(k, k.h(key), auth, Xor(key, k.hmac(k.h(key), auth)))
  {
    hide Xor;
    XorTwice(key, k.hmac(k.h(key), auth));
  }

  lemma {:induction false} VerifierAccepted(signature: Text)
    ensures FinalVerdict(signature, Ascii("v=") + Encoding(signature)) == Fine
  {
    hide B.Encoded, Encoding, ParseServerFinal;
    TextsAre();
    EncodedIs(signature);
    ServerFinalRoundTrip(signature, []);
    assert ServerFinalText(signature) + [] == ServerFinalText(signature);
  }

  // ----- the example of section 3 of RFC 7677

  const ClientNonce: Text := Ascii("rOprNGfwEb") + Ascii("eRWgbNEkqO")
  const ServerNonce: Text := Ascii("%hvYDpWUa2") + Ascii("RaTCAfuxFI") + Ascii("lj)hNlF$k0")
  const SaltText: Text := Ascii("W22Z") + (Ascii("aJ0S") + (Ascii("NY7s") + (Ascii("oEsU") + (Ascii("Ejb6") + Ascii("gQ==")))))
  const ExampleSalt: Text := [91, 109, 153] + ([104, 157, 18] + ([53, 142, 236] + ([160, 75, 20] + ([18, 54, 250] + [129]))))

  lemma {:induction false} AsciiAppend(s: string, t: string)
    ensures Ascii(s + t) == Ascii(s) + Ascii(t)
  {
  }

  lemma {:induction false} ExampleGroups()
    ensures B.Group(91, 109, 153) == Ascii("W22Z")
    ensures B.Group(104, 157, 18) == Ascii("aJ0S")
    ensures B.Group(53, 142, 236) == Ascii("NY7s")
    ensures B.Group(160, 75, 20) == Ascii("oEsU")
    ensures B.Group(18, 54, 250) == Ascii("Ejb6")
  {
  }

  lemma {:induction false} ExampleTail()
    ensures B.Encoded([129]) == Ascii("gQ==")
  {
    hide B.Group;
  }

  lemma {:induction false} ExampleSaltIs()
    ensures B.Encoded(ExampleSalt) == SaltText
  {
    hide B.Encoded, B.Group, Ascii;
    ExampleGroups();
    ExampleTail();
    var t5: Text := [129];
    var t4: Text := [18, 54, 250] + t5;
    FrontGroup([18, 54, 250], t5);
    var t3: Text := [160, 75, 20] + t4;
    FrontGroup([160, 75, 20], t4);
    var t2: Text := [53, 142, 236] + t3;
    FrontGroup([53, 142, 236], t3);
    var t1: Text := [104, 157, 18] + t2;
    FrontGroup([104, 157, 18], t2);
    var t0: Text := [91, 109, 153] + t1;
    FrontGroup([91, 109, 153], t1);
  }

  predicate Letter(c: char) {
    '!' <= c <= '~' && c != ','
  }

  lemma {:induction false} TenLetters(s: string)
    requires |s| == 10
    requires Letter(s[0]) && Letter(s[1]) && Letter(s[2]) && Letter(s[3]) && Letter(s[4])
    requires Letter(s[5]) && Letter(s[6]) && Letter(s[7]) && Letter(s[8]) && Letter(s[9])
    ensures Printable(Ascii(s))
  {
    hide Letter, Printable, Ascii;
    LettersArePrintable(s);
  }

  lemma {:induction false} LettersArePrintable(s: string)
    requires forall i | 0 <= i < |s| :: Letter(s[i])
    ensures Printable(Ascii(s))
  {
  }

  lemma {:induction false} PrintableAppend(a: Text, c: Text)
    requires Printable(a) && Printable(c)
    ensures Printable(a + c) && HasAt(a + c, 0, a)
  {
    hide IsPrintable;
    assert (a + c)[0..|a|] == a;
  }

  lemma {:induction false} ExampleNonceIsPrintable()
    ensures Printable(ClientNonce + ServerNonce) && HasAt(ClientNonce + ServerNonce, 0, ClientNonce)
  {
    hide Ascii, Printable, HasAt;
    TenLetters("rOprNGfwEb");
    TenLetters("eRWgbNEkqO");
    TenLetters("%hvYDpWUa2");
    TenLetters("RaTCAfuxFI");
    TenLetters("lj)hNlF$k0");
    PrintableAppend(Ascii("rOprNGfwEb"), Ascii("eRWgbNEkqO"));
    PrintableAppend(Ascii("%hvYDpWUa2"), Ascii("RaTCAfuxFI"));
    PrintableAppend(Ascii("%hvYDpWUa2") + Ascii("RaTCAfuxFI"), Ascii("lj)hNlF$k0"));
    PrintableAppend(ClientNonce, ServerNonce);
  }

  lemma {:induction false} ExampleCount()
    ensures ReadNumber(Ascii("4096")) == Some(4096)
  {
    var t := Ascii("4096");
    assert t == [52, 48, 57, 54];
    assert t[..3] == [52, 48, 57] && [52, 48, 57][..2] == [52, 48] && [52, 48][..1] == [52] && [52][..0] == [];
  }

  /** The example: the client reads the server's first message, and makes the transcript of the
      RFC from it, with the user of the example in the client's first message. */
  lemma {:induction false} Rfc7677Example()
    ensures var first := Ascii("r=") + (ClientNonce + ServerNonce) + Ascii(",s=") + SaltText + Ascii(",i=") + Ascii("4096");
      && ParseServerFirst(first) == Good(ServerFirst((ClientNonce + ServerNonce), ExampleSalt, 4096))
      && HasAt((ClientNonce + ServerNonce), 0, ClientNonce)
      && WithoutProof((ClientNonce + ServerNonce)) == Ascii("c=biws,r=") + (ClientNonce + ServerNonce)
      && AuthMessage(Ascii("n=user,r=") + ClientNonce, first, WithoutProof((ClientNonce + ServerNonce))) ==
           Ascii("n=user,r=") + ClientNonce +
           Ascii(",r=") + (ClientNonce + ServerNonce) + Ascii(",s=") + SaltText + Ascii(",i=") + Ascii("4096") +
           Ascii(",c=biws,r=") + (ClientNonce + ServerNonce)
  {
    hide ParseServerFirst, Ascii, B.Encoded, B.Decoded, ReadNumber, CommaFrom, PrintableEnd, Printable, HasAt;
    TextsAre();
    LongTextsAre();
    ExampleSaltIs();
    ExampleNonceIsPrintable();
    ExampleCount();
    B.RoundTrip(ExampleSalt);
    TextHasNoComma(ExampleSalt);
    var nonce, salt, count := (ClientNonce + ServerNonce), SaltText, Ascii("4096");
    var first := Ascii("r=") + nonce + Ascii(",s=") + salt + Ascii(",i=") + count;
    FirstPieces(nonce, salt, count, []);
    assert first + [] == first;
    CountHasNoComma();
    FirstIsRead(first, nonce, salt, count, []);
    AsciiAppend(",", "r=");
    AsciiAppend(",", "c=biws,r=");
    assert "," + "r=" == ",r=" && "," + "c=biws,r=" == ",c=biws,r=";
    ExampleTranscript(Ascii("n=user,r=") + ClientNonce, nonce, salt, count);
  }

  lemma {:induction false} CountHasNoComma()
    ensures forall i | 0 <= i < |Ascii("4096")| :: Ascii("4096")[i] != Comma
  {
  }

  lemma {:induction false} ExampleTranscript(bare: Text, nonce: Text, salt: Text, count: Text)
    ensures var first := Ascii("r=") + nonce + Ascii(",s=") + salt + Ascii(",i=") + count;
      AuthMessage(bare, first, Ascii("c=biws,r=") + nonce) ==
        bare + (Ascii(",") + Ascii("r=")) + nonce + Ascii(",s=") + salt + Ascii(",i=") + count + (Ascii(",") + Ascii("c=biws,r=")) + nonce
  {
    hide Ascii;
    TextsAre();
  }
}
