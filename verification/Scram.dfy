/** SCRAM-SHA-256 authentication (RFC 5802, RFC 7677): the client of src/scram_sha256_fsm.cpp
    against a server that follows section 3 of RFC 5802. HMAC and H are any functions. */
module Scram {
  import opened Messages
  import opened Base64
  import opened DataRows

  const Comma: Byte := 44

  /** Pieces of the messages: "n,,", "n=,r=", "c=biws,r=", ",p=", "r=", ",s=", ",i=", "v=". */
  const Gs2Header: Text := [110, 44, 44]
  const BareStart: Text := [110, 61, 44, 114, 61]
  const FinalStart: Text := [99, 61, 98, 105, 119, 115, 44, 114, 61]
  const ProofStart: Text := [44, 112, 61]
  const NonceStart: Text := [114, 61]
  const SaltStart: Text := [44, 115, 61]
  const CountStart: Text := [44, 105, 61]
  const VerifierStart: Text := [118, 61]

  /** "SCRAM-SHA-256", "Client Key" and "Server Key". */
  const Mechanism: Text := [83, 67, 82, 65, 77, 45, 83, 72, 65, 45, 50, 53, 54]
  const ClientKeyText: Text := [67, 108, 105, 101, 110, 116, 32, 75, 101, 121]
  const ServerKeyText: Text := [83, 101, 114, 118, 101, 114, 32, 75, 101, 121]

  datatype ScramError =
    | InvalidScramMessage
    | MandatoryExtensionNotSupported
    | InvalidBase64
    | InvalidNonce
    | InvalidIterationCount
    | InvalidServerSignature

  // ----- the cryptography

  datatype Crypto = Crypto(hmac: (Text, Text) -> Text, h: Text -> Text)

  /** Digests have 32 bytes. */
  ghost predicate Sound(k: Crypto) {
    (forall key, data :: |k.hmac(key, data)| == 32) && (forall data :: |k.h(data)| == 32)
  }

  /** Exclusive or, bit by bit. */
  function XorBits(a: nat, b: nat, bits: nat): (r: nat)
    ensures r < Pow2(bits)
  {
    if bits == 0 then 0 else 2 * XorBits(a / 2, b / 2, bits - 1) + if a % 2 == b % 2 then 0 else 1
  }

  function Pow2(k: nat): nat {
    if k == 0 then 1 else 2 * Pow2(k - 1)
  }

  function XorByte(a: Byte, b: Byte): Byte {
    assert Pow2(8) == 256;
    XorBits(a, b, 8)
  }

  function Xor(a: Text, b: Text): (r: Text)
    requires |a| == |b|
    ensures |r| == |a| && forall i | 0 <= i < |r| :: r[i] == XorByte(a[i], b[i])
  {
    seq(|a|, i requires 0 <= i < |a| => XorByte(a[i], b[i]))
  }

  lemma {:induction false} XorBitsTwice(a: nat, b: nat, bits: nat)
    requires a < Pow2(bits)
    ensures XorBits(XorBits(a, b, bits), b, bits) == a
    decreases bits
  {
    if bits > 0 {
      XorBitsTwice(a / 2, b / 2, bits - 1);
    }
  }

  lemma {:induction false} XorTwice(a: Text, b: Text)
    requires |a| == |b|
    ensures Xor(Xor(a, b), b) == a
  {
    assert Pow2(8) == 256;
    forall i | 0 <= i < |a| ensures Xor(Xor(a, b), b)[i] == a[i] {
      XorBitsTwice(a[i], b[i], 8);
    }
  }

  /** The n-th value of Hi, and Hi itself (section 2.2 of RFC 5802). */
  function U(k: Crypto, str: Text, salt: Text, n: nat): Text
    requires n > 0
  {
    if n == 1 then k.hmac(str, salt + [0, 0, 0, 1]) else k.hmac(str, U(k, str, salt, n - 1))
  }

  ghost function Hi(k: Crypto, str: Text, salt: Text, n: nat): (r: Text)
    requires n > 0 && Sound(k)
    ensures |r| == 32
  {
    if n == 1 then U(k, str, salt, 1) else Xor(Hi(k, str, salt, n - 1), U(k, str, salt, n))
  }

  /** compute_xor. */
  method ComputeXor(a: Text, b: Text) returns (r: Text)
    requires |a| == |b|
    ensures r == Xor(a, b)
  {
    r := [];
    for i := 0 to |a|
      invariant |r| == i && forall j | 0 <= j < i :: r[j] == XorByte(a[j], b[j])
    {
      r := r + [XorByte(a[i], b[i])];
    }
  }

  /** compute_hi: the loop keeps the last value and the sum so far. */
  method ComputeHi(k: Crypto, str: Text, salt: Text, count: nat) returns (r: Text)
    requires count > 0 && Sound(k)
    ensures r == Hi(k, str, salt, count)
  {
    hide Xor;
    var current := k.hmac(str, salt + [0, 0, 0, 1]);
    r := current;
    for i := 1 to count
      invariant current == U(k, str, salt, i) && r == Hi(k, str, salt, i)
    {
      current := k.hmac(str, current);
      r := ComputeXor(r, current);
    }
  }

  /** The keys of section 3 of RFC 5802. */
  ghost function ClientKey(k: Crypto, password: Text, salt: Text, count: nat): Text
    requires count > 0 && Sound(k)
  {
    k.hmac(Hi(k, password, salt, count), ClientKeyText)
  }

  ghost function ServerKey(k: Crypto, password: Text, salt: Text, count: nat): Text
    requires count > 0 && Sound(k)
  {
    k.hmac(Hi(k, password, salt, count), ServerKeyText)
  }

  /** compute_proofs. */
  method ComputeProofs(k: Crypto, password: Text, salt: Text, count: nat, auth: Text) returns (proof: Text, signature: Text)
    requires count > 0 && Sound(k)
    ensures var key := ClientKey(k, password, salt, count);
      && |key| == |k.hmac(k.h(key), auth)| && proof == Xor(key, k.hmac(k.h(key), auth))
    ensures signature == k.hmac(ServerKey(k, password, salt, count), auth)
  {
    var salted := ComputeHi(k, password, salt, count);
    var clientKey := k.hmac(salted, ClientKeyText);
    var storedKey := k.h(clientKey);
    var clientSignature := k.hmac(storedKey, auth);
    proof := ComputeXor(clientKey, clientSignature);
    var serverKey := k.hmac(salted, ServerKeyText);
    signature := k.hmac(serverKey, auth);
  }

  // ----- text

  /** Where the first comma from p on is, or the end. */
  function CommaFrom(s: Text, p: nat): (q: nat)
    requires p <= |s|
    ensures p <= q <= |s| && (forall i | p <= i < q :: s[i] != Comma) && (q < |s| ==> s[q] == Comma)
    decreases |s| - p
  {
    if p == |s| || s[p] == Comma then p else CommaFrom(s, p + 1)
  }

  predicate IsPrintable(c: Byte) {
    0x21 <= c <= 0x2b || 0x2d <= c <= 0x7e
  }

  predicate Printable(s: Text) {
    forall i | 0 <= i < |s| :: IsPrintable(s[i])
  }

  /** Where the first character from p on is that is not printable; a comma is not. */
  function PrintableEnd(s: Text, p: nat): (q: nat)
    requires p <= |s|
    ensures p <= q <= |s| && (forall i | p <= i < q :: IsPrintable(s[i])) && (q < |s| ==> !IsPrintable(s[q]))
    decreases |s| - p
  {
    if p == |s| || !IsPrintable(s[p]) then p else PrintableEnd(s, p + 1)
  }

  predicate HasAt(s: Text, p: nat, t: Text) {
    p + |t| <= |s| && s[p..p + |t|] == t
  }

  function Digits(n: nat): (s: Text)
    ensures s != [] && forall i | 0 <= i < |s| :: 48 <= s[i] < 58
  {
    if n < 10 then [48 + n] else Digits(n / 10) + [48 + n % 10]
  }

  function NumberOf(s: Text): Option<nat> {
    if s == [] then Some(0)
    else
      var c := s[|s| - 1];
      match NumberOf(s[..|s| - 1])
      case None => None
      case Some(n) => if 48 <= c < 58 then Some(10 * n + (c - 48)) else None
  }

  /** from_chars: the text is a decimal number that fits in 32 bits. */
  function ReadNumber(s: Text): Option<nat> {
    if s == [] then None
    else
      match NumberOf(s)
      case None => None
      case Some(n) => if n < 0x1_0000_0000 then Some(n) else None
  }

  lemma {:induction false} DigitsRead(n: nat)
    ensures NumberOf(Digits(n)) == Some(n)
  {
    if n < 10 {
      assert [48 + n][..0] == [];
    } else {
      DigitsRead(n / 10);
      var s := Digits(n);
      assert s[..|s| - 1] == Digits(n / 10);
    }
  }

  // ----- the messages

  datatype ServerFirst = ServerFirst(nonce: Text, salt: Text, count: nat)

  /** What a parser gives: a value, an error, or a read outside of a table. */
  datatype Parse<T> = Good(value: T) | Bad(error: ScramError) | Faulted

  function ClientFirstBare(nonce: Text): Text {
    BareStart + nonce
  }

  function ServerFirstText(m: ServerFirst): Text {
    NonceStart + m.nonce + SaltStart + Encoded(m.salt) + CountStart + Digits(m.count)
  }

  function WithoutProof(nonce: Text): Text {
    FinalStart + nonce
  }

  function ClientFinalText(nonce: Text, proof: Text): Text {
    WithoutProof(nonce) + ProofStart + Encoded(proof)
  }

  function ServerFinalText(signature: Text): Text {
    VerifierStart + Encoded(signature)
  }

  function AuthMessage(bare: Text, serverFirst: Text, withoutProof: Text): Text {
    bare + [Comma] + serverFirst + [Comma] + withoutProof
  }

  /** The parser of the server's first message. */
  function ParseServerFirst(data: Text): Parse<ServerFirst> {
    if data != [] && data[0] == 109 then
      if |data| < 2 || data[1] != Comma then Bad(InvalidScramMessage) else Bad(MandatoryExtensionNotSupported)
    else if !HasAt(data, 0, NonceStart) then Bad(InvalidScramMessage)
    else
      var a := PrintableEnd(data, 2);
      if !HasAt(data, a, SaltStart) then Bad(InvalidScramMessage)
      else
        var b := CommaFrom(data, a + 3);
        if b == |data| then Bad(InvalidScramMessage)
        else match Decoded(data[a + 3..b])
          case NotBase64 => Bad(InvalidBase64)
          case OutOfBounds => Faulted
          case Plain(salt) =>
            if !HasAt(data, b, CountStart) then Bad(InvalidScramMessage)
            else match ReadNumber(data[b + 3..CommaFrom(data, b + 3)])
              case None => Bad(InvalidScramMessage)
              case Some(count) => Good(ServerFirst(data[2..a], salt, count))
  }

  /** The parser of the server's final message. */
  function ParseServerFinal(data: Text): Parse<Text> {
    if !HasAt(data, 0, VerifierStart) then Bad(InvalidScramMessage)
    else match Decoded(data[2..CommaFrom(data, 2)])
      case NotBase64 => Bad(InvalidBase64)
      case OutOfBounds => Faulted
      case Plain(signature) => Good(signature)
  }

  lemma {:induction false} CommaAt(s: Text, p: nat, q: nat)
    requires p <= q <= |s| && (forall i | p <= i < q :: s[i] != Comma) && (q < |s| ==> s[q] == Comma)
    ensures CommaFrom(s, p) == q
  {
  }

  lemma {:induction false} PrintableAt(s: Text, p: nat, q: nat)
    requires p <= q <= |s| && (forall i | p <= i < q :: IsPrintable(s[i])) && (q < |s| ==> !IsPrintable(s[q]))
    ensures PrintableEnd(s, p) == q
  {
  }

  lemma {:induction false} TextHasNoComma(src: Text)
    ensures forall i | 0 <= i < |Encoded(src)| :: Encoded(src)[i] != Comma
  {
    hide Encoded;
    EncodedIsText(src);
  }

  /** A piece added to a text is at its end, and the other pieces stay. */
  lemma {:induction false} Added(s: Text, t: Text)
    ensures HasAt(s + t, |s|, t) && |s + t| == |s| + |t|
    ensures forall p: nat, u: Text {:trigger HasAt(s, p, u)} :: HasAt(s, p, u) ==> HasAt(s + t, p, u)
  {
    forall p: nat, u: Text | HasAt(s, p, u) ensures HasAt(s + t, p, u) {
      assert (s + t)[p..p + |u|] == s[p..p + |u|];
    }
  }

  /** The pieces of the server's first message. */
  lemma {:induction false} FirstPieces(nonce: Text, salt: Text, count: Text, extensions: Text)
    ensures var data := NonceStart + nonce + SaltStart + salt + CountStart + count + extensions;
      var a := 2 + |nonce|; var b := a + 3 + |salt|;
      && |data| == b + 3 + |count| + |extensions| && HasAt(data, b + 3 + |count|, extensions)
      && HasAt(data, 0, NonceStart) && HasAt(data, 2, nonce) && HasAt(data, a, SaltStart)
      && HasAt(data, a + 3, salt) && HasAt(data, b, CountStart) && HasAt(data, b + 3, count)
  {
    hide HasAt;
    var n1 := NonceStart + nonce;
    var n2 := n1 + SaltStart;
    var n3 := n2 + salt;
    var n4 := n3 + CountStart;
    assert [] + NonceStart == NonceStart;
    Added([], NonceStart);
    Added(NonceStart, nonce);
    Added(n1, SaltStart);
    Added(n2, salt);
    Added(n3, CountStart);
    Added(n4, count);
    Added(n4 + count, extensions);
  }

  /** Nothing, or extensions after a comma. */
  predicate Optional(extensions: Text) {
    extensions == [] || extensions[0] == Comma
  }

  /** What the server sends in its first message is what the client reads, whatever extensions
      follow. */
  lemma {:induction false} ServerFirstRoundTrip(m: ServerFirst, extensions: Text)
    requires Printable(m.nonce) && m.count < 0x1_0000_0000 && Optional(extensions)
    ensures ParseServerFirst(ServerFirstText(m) + extensions) == Good(m)
  {
    hide Encoded, Digits, Decoded, NumberOf, CommaFrom, PrintableEnd, ParseServerFirst;
    var data, salt, count := ServerFirstText(m) + extensions, Encoded(m.salt), Digits(m.count);
    FirstPieces(m.nonce, salt, count, extensions);
    TextHasNoComma(m.salt);
    RoundTrip(m.salt);
    DigitsRead(m.count);
    DigitsHaveNoComma(count);
    FirstIsRead(data, m.nonce, salt, count, extensions);
  }

  lemma {:induction false} DigitsHaveNoComma(count: Text)
    requires forall i | 0 <= i < |count| :: 48 <= count[i] < 58
    ensures forall i | 0 <= i < |count| :: count[i] != Comma
  {
  }

  /** How the parts of a server's first message are read. */
  function FirstOf(nonce: Text, salt: Text, count: Text): Parse<ServerFirst> {
    match Decoded(salt)
    case NotBase64 => Bad(InvalidBase64)
    case OutOfBounds => Faulted
    case Plain(plain) =>
      match ReadNumber(count)
      case None => Bad(InvalidScramMessage)
      case Some(n) => Good(ServerFirst(nonce, plain, n))
  }

  lemma {:induction false} FirstIsRead(data: Text, nonce: Text, salt: Text, count: Text, extensions: Text)
    requires var a := 2 + |nonce|; var b := a + 3 + |salt|;
      && |data| == b + 3 + |count| + |extensions| && HasAt(data, b + 3 + |count|, extensions) && Optional(extensions)
      && HasAt(data, 0, NonceStart) && HasAt(data, 2, nonce) && HasAt(data, a, SaltStart)
      && HasAt(data, a + 3, salt) && HasAt(data, b, CountStart) && HasAt(data, b + 3, count)
    requires Printable(nonce) && (forall i | 0 <= i < |salt| :: salt[i] != Comma)
    requires forall i | 0 <= i < |count| :: count[i] != Comma
    ensures ParseServerFirst(data) == FirstOf(nonce, salt, count)
  {
    hide Decoded, ReadNumber, CommaFrom, PrintableEnd, HasAt;
    var a := 2 + |nonce|;
    var b := a + 3 + |salt|;
    Piece(data, 0, NonceStart);
    Piece(data, 2, nonce);
    Piece(data, a, SaltStart);
    Piece(data, a + 3, salt);
    Piece(data, b, CountStart);
    Piece(data, b + 3, count);
    Piece(data, b + 3 + |count|, extensions);
    PrintableAt(data, 2, a);
    CommaAt(data, a + 3, b);
    CommaAt(data, b + 3, b + 3 + |count|);
  }

  lemma {:induction false} Piece(s: Text, p: nat, t: Text)
    requires HasAt(s, p, t)
    ensures p + |t| <= |s| && s[p..p + |t|] == t && forall i | p <= i < p + |t| :: s[i] == t[i - p]
  {
    forall i | p <= i < p + |t| ensures s[i] == t[i - p] {
      assert s[i] == s[p..p + |t|][i - p];
    }
  }

  predicate NoComma(s: Text) {
    forall i | 0 <= i < |s| :: s[i] != Comma
  }

  /** The message starts with a nonce and the text of a salt. */
  predicate HasSalt(data: Text, nonce: Text, salt: Text, rest: Text) {
    data == NonceStart + nonce + SaltStart + salt + [Comma] + rest && Printable(nonce) && NoComma(salt)
  }

  /** The text is looked up outside the table. */
  ghost predicate Strays(text: Text) {
    |text| % 4 == 0 && ReadsOutside(text)
  }

  lemma {:induction false} SaltPieces(data: Text, nonce: Text, salt: Text, rest: Text)
    requires HasSalt(data, nonce, salt, rest)
    ensures var a := 2 + |nonce|; var b := a + 3 + |salt|;
      && b < |data| && data[b] == Comma
      && HasAt(data, 0, NonceStart) && HasAt(data, 2, nonce) && HasAt(data, a, SaltStart) && HasAt(data, a + 3, salt)
  {
    hide HasAt;
    var n1 := NonceStart + nonce;
    var n2 := n1 + SaltStart;
    var n3 := n2 + salt;
    assert [] + NonceStart == NonceStart;
    Added([], NonceStart);
    Added(NonceStart, nonce);
    Added(n1, SaltStart);
    Added(n2, salt);
    Added(n3, [Comma]);
    Added(n3 + [Comma], rest);
    Piece(data, |n3|, [Comma]);
  }

  lemma {:induction false} SaltIsFound(data: Text, nonce: Text, salt: Text, rest: Text)
    requires HasSalt(data, nonce, salt, rest)
    ensures ParseServerFirst(data) == Faulted <==> Decoded(salt) == OutOfBounds
  {
    hide Decoded, ReadNumber, CommaFrom, PrintableEnd;
    SaltPieces(data, nonce, salt, rest);
    var a := 2 + |nonce|;
    var b := a + 3 + |salt|;
    Piece(data, 0, NonceStart);
    Piece(data, 2, nonce);
    Piece(data, a, SaltStart);
    Piece(data, a + 3, salt);
    PrintableAt(data, 2, a);
    CommaAt(data, a + 3, b);
  }

  /** A fault comes from a salt. */
  lemma {:induction false} FaultHasSalt(data: Text) returns (nonce: Text, salt: Text, rest: Text)
    requires ParseServerFirst(data) == Faulted
    ensures HasSalt(data, nonce, salt, rest)
  {
    hide Decoded, ReadNumber, CommaFrom, PrintableEnd;
    var a := PrintableEnd(data, 2);
    var b := CommaFrom(data, a + 3);
    nonce, salt, rest := data[2..a], data[a + 3..b], data[b + 1..];
    Parted(data, 0, 2, NonceStart);
    Parted(data, 2, a, nonce);
    Parted(data, a, a + 3, SaltStart);
    Parted(data, a + 3, b, salt);
    Parted(data, b, b + 1, [Comma]);
    assert data[..b + 1] + rest == data;
    assert data[..0] == [] && [] + NonceStart == NonceStart;
  }

  lemma {:induction false} Parted(data: Text, p: nat, q: nat, t: Text)
    requires p <= q <= |data| && data[p..q] == t
    ensures data[..q] == data[..p] + t
  {
  }

  /** For every message: the parser of the server's first message reads outside the table if
      and only if the message has a salt of whole groups in which a character from 128 on is
      looked up, whatever follows it. */
  lemma {:induction false} SaltOutOfBoundsExactly(data: Text)
    ensures ParseServerFirst(data) == Faulted <==>
      exists nonce, salt, rest :: HasSalt(data, nonce, salt, rest) && Strays(salt)
  {
    hide ParseServerFirst, Decoded, ReadsOutside, HasSalt;
    if ParseServerFirst(data) == Faulted {
      var nonce, salt, rest := FaultHasSalt(data);
      SaltIsFound(data, nonce, salt, rest);
      OutOfBoundsExactly(salt);
    }
    if nonce, salt, rest :| HasSalt(data, nonce, salt, rest) && Strays(salt) {
      SaltIsFound(data, nonce, salt, rest);
      OutOfBoundsExactly(salt);
    }
  }

  /** Such a message exists: the salt starts with the byte 128. */
  lemma {:induction false} SomeSaltReadsOutside(nonce: Text, rest: Text)
    requires Printable(nonce)
    ensures ParseServerFirst(NonceStart + nonce + SaltStart + [128, 65, 65, 65] + [Comma] + rest) == Faulted
  {
    hide ParseServerFirst;
    var salt: Text := [128, 65, 65, 65];
    assert LookedUp(salt, 0) && salt[0] >= 128;
    var data := NonceStart + nonce + SaltStart + salt + [Comma] + rest;
    assert HasSalt(data, nonce, salt, rest);
    SaltOutOfBoundsExactly(data);
  }

  /** The message is a verifier, and nothing or extensions. */
  predicate HasVerifier(data: Text, text: Text, extensions: Text) {
    data == VerifierStart + text + extensions && NoComma(text) && Optional(extensions)
  }

  lemma {:induction false} VerifierIsFound(data: Text, text: Text, extensions: Text)
    requires HasVerifier(data, text, extensions)
    ensures HasAt(data, 0, VerifierStart) && data[2..CommaFrom(data, 2)] == text
  {
    hide CommaFrom;
    Added([], VerifierStart);
    Added(VerifierStart, text);
    Added(VerifierStart + text, extensions);
    assert [] + VerifierStart == VerifierStart;
    Piece(data, 2, text);
    Piece(data, 2 + |text|, extensions);
    CommaAt(data, 2, 2 + |text|);
  }

  lemma {:induction false} VerifierParts(data: Text) returns (text: Text, extensions: Text)
    requires HasAt(data, 0, VerifierStart)
    ensures HasVerifier(data, text, extensions) && text == data[2..CommaFrom(data, 2)]
  {
    hide CommaFrom;
    var e := CommaFrom(data, 2);
    text, extensions := data[2..e], data[e..];
    assert data[..0] == [] && [] + VerifierStart == VerifierStart;
    Parted(data, 0, 2, VerifierStart);
    Parted(data, 2, e, text);
    assert data[..e] + extensions == data;
  }

  /** For every message: the parser of the server's final message reads outside the table if
      and only if the verifier has whole groups in which a character from 128 on is looked up. */
  lemma {:induction false} VerifierOutOfBoundsExactly(data: Text)
    ensures ParseServerFinal(data) == Faulted <==>
      exists text, extensions :: HasVerifier(data, text, extensions) && Strays(text)
  {
    hide Decoded, ReadsOutside, HasVerifier, CommaFrom, HasAt;
    if ParseServerFinal(data) == Faulted {
      var text, extensions := VerifierParts(data);
      OutOfBoundsExactly(text);
    }
    if text, extensions :| HasVerifier(data, text, extensions) && Strays(text) {
      VerifierIsFound(data, text, extensions);
      OutOfBoundsExactly(text);
    }
  }

  /** A mandatory extension is reported exactly for a text that starts with "m,"; one that
      starts with "m=", as the grammar has it, is an invalid message. */
  lemma {:induction false} MandatoryExtensionExactly(data: Text)
    ensures ParseServerFirst(data) == Bad(MandatoryExtensionNotSupported) <==> HasAt(data, 0, [109, Comma])
    ensures HasAt(data, 0, [109, 61]) ==> ParseServerFirst(data) == Bad(InvalidScramMessage)
  {
    hide Decoded, ReadNumber, CommaFrom, PrintableEnd;
    if HasAt(data, 0, [109, Comma]) {
      Piece(data, 0, [109, Comma]);
    }
    if HasAt(data, 0, [109, 61]) {
      Piece(data, 0, [109, 61]);
    }
    if |data| >= 2 && data[0] == 109 && data[1] == Comma {
      assert data[0..2] == [109, Comma];
    }
  }

  /** The signature that the server sends is the one that the client reads, whatever extensions
      follow. */
  lemma {:induction false} ServerFinalRoundTrip(signature: Text, extensions: Text)
    requires Optional(extensions)
    ensures ParseServerFinal(ServerFinalText(signature) + extensions) == Good(signature)
  {
    hide Encoded, Decoded, CommaFrom;
    TextHasNoComma(signature);
    VerifierIsFound(ServerFinalText(signature) + extensions, Encoded(signature), extensions);
    RoundTrip(signature);
  }

  // ----- framing

  /** A password message: type, length, body. */
  function PasswordMessage(body: Text): Text
    requires |body| < 0x7fff_fffc
  {
    Frame(112, body)
  }

  /** The body of the first password message: the mechanism, and the client's first message
      with its length. */
  function InitialBody(nonce: Text): Text
    requires |nonce| < 0x7000_0000
  {
    Mechanism + [0] + Bytes32(8 + |nonce|) + Gs2Header + ClientFirstBare(nonce)
  }

  // ----- the client

  /** What the client sends and expects after the server's first message. */
  datatype Answer = Answer(final: Text, signature: Text)

  ghost function ClientAnswers(k: Crypto, nonce: Text, password: Text, data: Text): Parse<Answer>
    requires Sound(k)
  {
    match ParseServerFirst(data)
    case Bad(e) => Bad(e)
    case Faulted => Faulted
    case Good(m) =>
      if m.nonce == [] || !HasAt(m.nonce, 0, nonce) then Bad(InvalidNonce)
      else if m.count == 0 || m.count > 0xffff then Bad(InvalidIterationCount)
      else
        var auth := AuthMessage(ClientFirstBare(nonce), data, WithoutProof(m.nonce));
        var key := ClientKey(k, password, m.salt, m.count);
        var proof := Xor(key, k.hmac(k.h(key), auth));
        Good(Answer(ClientFinalText(m.nonce, proof), k.hmac(ServerKey(k, password, m.salt, m.count), auth)))
  }

  lemma {:induction false} InitialLength(nonce: Text)
    requires |nonce| < 0x7000_0000
    ensures |InitialBody(nonce)| < 0x7fff_fffc
  {
  }

  lemma {:induction false} FinalLength(nonce: Text, proof: Text)
    requires |nonce| < 0x7000_0000 && |proof| == 32
    ensures |ClientFinalText(nonce, proof)| < 0x7fff_fffc
  {
    hide Encoded;
  }

  lemma {:induction false} KeyLength(k: Crypto, password: Text, salt: Text, count: nat)
    requires count > 0 && Sound(k)
    ensures |ClientKey(k, password, salt, count)| == 32
  {
  }

  /** The first message, with both lengths stored after the rest. */
  lemma {:induction false} InitialPatched(nonce: Text)
    requires |nonce| < 0x7000_0000
    ensures var b0 := [112] + Room + (Mechanism + [0]) + Room + Gs2Header + BareStart + nonce;
      var b1 := b0[..19] + Bytes32(|b0| - 23) + b0[23..];
      var b2 := b1[..1] + Bytes32(|b1| - 1) + b1[5..];
      && |b2| == |b0| && b2 == PasswordMessage(InitialBody(nonce)) && b2[26..|b2|] == ClientFirstBare(nonce)
  {
    hide Bytes32;
    var start := [112] + Room + (Mechanism + [0]);
    var tail := Gs2Header + BareStart + nonce;
    var b0 := start + Room + tail;
    assert b0 == [112] + Room + (Mechanism + [0]) + Room + Gs2Header + BareStart + nonce;
    var l1 := Bytes32(8 + |nonce|);
    Patched(start, tail, l1);
    var b1 := start + l1 + tail;
    assert |start| == 19 && |b0| - 23 == 8 + |nonce|;
    var body := Mechanism + [0] + l1 + tail;
    assert b1 == [112] + Room + body;
    var l2 := Bytes32(|b1| - 1);
    Patched([112], body, l2);
    assert body == InitialBody(nonce);
    InitialTail([112] + l2, l1, nonce);
  }

  lemma {:induction false} FinalPatched(nonce: Text, proof: Text)
    requires |nonce| < 0x7000_0000 && |proof| == 32
    ensures var b0 := [112] + Room + WithoutProof(nonce) + ProofStart + Encoded(proof);
      var b1 := b0[..1] + Bytes32(|b0| - 1) + b0[5..]; var text := ClientFinalText(nonce, proof);
      && |b0| < 0x7fff_fffc && |text| < 0x7fff_fffc && b1 == PasswordMessage(text)
  {
    hide Bytes32, Encoded;
    var text := ClientFinalText(nonce, proof);
    var b0 := [112] + Room + WithoutProof(nonce) + ProofStart + Encoded(proof);
    assert b0 == [112] + Room + text;
    Patched([112], text, Bytes32(|b0| - 1));
  }

  lemma {:induction false} InitialTail(pre: Text, l1: Text, nonce: Text)
    requires |pre| == 5 && |l1| == 4
    ensures (pre + (Mechanism + [0] + l1 + (Gs2Header + BareStart + nonce)))[26..] == ClientFirstBare(nonce)
  {
  }

  datatype Verdict = Fine | Refused(error: ScramError) | ReadOutside

  /** The client, updated in place. The first message is not copied: a span of the write
      buffer refers to it until the answer is made. */
  class ScramClient {
    var nonce: Text
    var writeBuffer: Text
    var bareFrom: nat
    var bareTo: nat
    var serverSignature: Text

    /** The write buffer still holds the first message. */
    ghost predicate Started()
      reads this
    {
      bareFrom <= bareTo <= |writeBuffer| && writeBuffer[bareFrom..bareTo] == ClientFirstBare(nonce)
    }

    constructor ()
    {
      nonce, writeBuffer, bareFrom, bareTo, serverSignature := [], [], 0, 0, [];
    }

    /** on_init, with the nonce that was drawn. */
    method OnInit(drawn: Text)
      requires |drawn| < 0x7000_0000
      modifies this
      ensures nonce == drawn && Started() && writeBuffer == PasswordMessage(InitialBody(drawn))
    {
      hide PasswordMessage, InitialBody, Bytes32;
      InitialPatched(drawn);
      nonce := drawn;
      writeBuffer := [112] + Room + (Mechanism + [0]) + Room + Gs2Header;
      bareFrom := |writeBuffer|;
      writeBuffer := writeBuffer + BareStart + nonce;
      bareTo := |writeBuffer|;
      Patch(19, |writeBuffer| - 23);
      Patch(1, |writeBuffer| - 1);
    }

    /** A length is stored where room was left for it. */
    method Patch(at: nat, n: nat)
      requires at + 4 <= |writeBuffer| && n < 0x8000_0000
      modifies this`writeBuffer
      ensures writeBuffer == old(writeBuffer)[..at] + Bytes32(n) + old(writeBuffer)[at + 4..]
    {
      writeBuffer := writeBuffer[..at] + Bytes32(n) + writeBuffer[at + 4..];
    }

    /** on_server_first. */
    method OnServerFirst(k: Crypto, data: Text, password: Text) returns (v: Verdict)
      requires Started() && Sound(k) && |data| < 0x7000_0000
      modifies this
      ensures match ClientAnswers(k, nonce, password, data)
        case Bad(e) => v == Refused(e)
        case Faulted => v == ReadOutside
        case Good(a) =>
          && v == Fine && serverSignature == a.signature
          && |a.final| < 0x7fff_fffc && writeBuffer == PasswordMessage(a.final)
      ensures nonce == old(nonce)
    {
      hide ParseServerFirst, Hi, Xor, Encoded, Bytes32, PasswordMessage, ClientFinalText, HasAt, ClientKey, ServerKey;
      var p := ParseServerFirst(data);
      if p.Bad? {
        return Refused(p.error);
      }
      if p.Faulted? {
        return ReadOutside;
      }
      var m := p.value;
      if m.nonce == [] || !HasAt(m.nonce, 0, nonce) {
        return Refused(InvalidNonce);
      }
      if m.count == 0 || m.count > 0xffff {
        return Refused(InvalidIterationCount);
      }
      var auth := writeBuffer[bareFrom..bareTo];
      NonceFits(data);
      writeBuffer := [112] + Room + WithoutProof(m.nonce);
      var withoutProof := writeBuffer[5..];
      assert withoutProof == WithoutProof(m.nonce);
      auth := auth + [Comma] + data + [Comma] + withoutProof;
      var proof;
      proof, serverSignature := ComputeProofs(k, password, m.salt, m.count, auth);
      var text := Encode(proof);
      FinalPatched(m.nonce, proof);
      writeBuffer := writeBuffer + ProofStart + text;
      Patch(1, |writeBuffer| - 1);
      return Fine;
    }

    /** on_server_final: accepted exactly if the server has the same signature. */
    method OnServerFinal(data: Text) returns (v: Verdict)
      ensures v == Fine <==> ParseServerFinal(data) == Good(serverSignature)
      ensures v == FinalVerdict(serverSignature, data)
    {
      var p := ParseServerFinal(data);
      if p.Bad? {
        return Refused(p.error);
      }
      if p.Faulted? {
        return ReadOutside;
      }
      if p.value != serverSignature {
        return Refused(InvalidServerSignature);
      }
      return Fine;
    }
  }

  function FinalVerdict(signature: Text, data: Text): Verdict {
    match ParseServerFinal(data)
    case Bad(e) => Refused(e)
    case Faulted => ReadOutside
    case Good(v) => if v == signature then Fine else Refused(InvalidServerSignature)
  }

  lemma {:induction false} NonceFits(data: Text)
    requires ParseServerFirst(data).Good?
    ensures |ParseServerFirst(data).value.nonce| <= |data|
  {
    hide Decoded, ReadNumber, CommaFrom, PrintableEnd;
  }

  // ----- what the client accepts, exactly

  /** The server's first message, in its parts. */
  predicate FirstForm(data: Text, nonce: Text, salt: Text, count: Text, extensions: Text) {
    && data == NonceStart + nonce + SaltStart + salt + CountStart + count + extensions
    && Printable(nonce) && NoComma(salt) && NoComma(count) && Optional(extensions)
  }

  lemma {:induction false} FirstParts(data: Text) returns (nonce: Text, salt: Text, count: Text, extensions: Text)
    requires ParseServerFirst(data).Good?
    ensures FirstForm(data, nonce, salt, count, extensions)
  {
    hide Decoded, ReadNumber, CommaFrom, PrintableEnd;
    var a := PrintableEnd(data, 2);
    var b := CommaFrom(data, a + 3);
    var e := CommaFrom(data, b + 3);
    nonce, salt, count, extensions := data[2..a], data[a + 3..b], data[b + 3..e], data[e..];
    SevenParts(data, a, b, e);
  }

  lemma {:induction false} SevenParts(data: Text, a: nat, b: nat, e: nat)
    requires 2 <= a && a + 3 <= b && b + 3 <= e <= |data|
    requires HasAt(data, 0, NonceStart) && HasAt(data, a, SaltStart) && HasAt(data, b, CountStart)
    ensures data == NonceStart + data[2..a] + SaltStart + data[a + 3..b] + CountStart + data[b + 3..e] + data[e..]
  {
    Parted(data, 0, 2, NonceStart);
    Parted(data, 2, a, data[2..a]);
    Parted(data, a, a + 3, SaltStart);
    Parted(data, a + 3, b, data[a + 3..b]);
    Parted(data, b, b + 3, CountStart);
    Parted(data, b + 3, e, data[b + 3..e]);
    assert data[..e] + data[e..] == data;
    assert data[..0] == [] && [] + NonceStart == NonceStart;
  }

  lemma {:induction false} FormIsRead(data: Text, nonce: Text, salt: Text, count: Text, extensions: Text)
    requires FirstForm(data, nonce, salt, count, extensions)
    ensures ParseServerFirst(data) == FirstOf(nonce, salt, count)
  {
    hide ParseServerFirst, Decoded, ReadNumber, HasAt;
    FirstPieces(nonce, salt, count, extensions);
    FirstIsRead(data, nonce, salt, count, extensions);
  }

  /** The message says what m says. */
  ghost predicate Says(data: Text, m: ServerFirst) {
    exists salt, count, extensions ::
      FirstForm(data, m.nonce, salt, count, extensions) && Decoded(salt) == Plain(m.salt) && ReadNumber(count) == Some(m.count)
  }

  lemma {:induction false} FirstExactly(data: Text, m: ServerFirst)
    ensures ParseServerFirst(data) == Good(m) <==> Says(data, m)
  {
    hide ParseServerFirst, Decoded, ReadNumber, FirstForm;
    if ParseServerFirst(data) == Good(m) {
      var nonce, salt, count, extensions := FirstParts(data);
      FormIsRead(data, nonce, salt, count, extensions);
    }
    if Says(data, m) {
      var salt, count, extensions :|
        FirstForm(data, m.nonce, salt, count, extensions) && Decoded(salt) == Plain(m.salt) && ReadNumber(count) == Some(m.count);
      FormIsRead(data, m.nonce, salt, count, extensions);
    }
  }

  /** The client answers a message exactly if it is a server's first message with a nonce that starts
      with the client's, and a count from 1 to 65535; a message that is one is refused because of the
      nonce, or else because of the count. */
  lemma {:induction false} AnswersExactly(k: Crypto, nonce: Text, password: Text, data: Text)
    requires Sound(k)
    ensures ClientAnswers(k, nonce, password, data).Good? <==>
      exists m :: Says(data, m) && m.nonce != [] && nonce <= m.nonce && 1 <= m.count <= 65535
    ensures forall m | Says(data, m) :: ClientAnswers(k, nonce, password, data).Bad? ==>
      ClientAnswers(k, nonce, password, data).error ==
        if m.nonce != [] && nonce <= m.nonce then InvalidIterationCount else InvalidNonce
  {
    hide ParseServerFirst, Says, Hi, Xor, ClientKey, ServerKey, ClientFinalText, AuthMessage, Sound;
    forall m ensures ParseServerFirst(data) == Good(m) <==> Says(data, m) {
      FirstExactly(data, m);
    }
    forall m | Says(data, m) ensures HasAt(m.nonce, 0, nonce) <==> nonce <= m.nonce {
      if nonce <= m.nonce {
        assert m.nonce[0..|nonce|] == nonce;
      }
    }
  }

  /** The server's signature is accepted exactly if it is the expected one, in a verifier. */
  lemma {:induction false} FinalExactly(signature: Text, data: Text)
    ensures FinalVerdict(signature, data) == Fine <==>
      exists text, extensions :: HasVerifier(data, text, extensions) && Decoded(text) == Plain(signature)
    ensures ParseServerFinal(data).Good? && ParseServerFinal(data).value != signature ==>
      FinalVerdict(signature, data) == Refused(InvalidServerSignature)
  {
    hide Decoded, HasVerifier, CommaFrom, HasAt;
    if FinalVerdict(signature, data) == Fine {
      var text, extensions := VerifierParts(data);
    }
    if text, extensions :| HasVerifier(data, text, extensions) && Decoded(text) == Plain(signature) {
      VerifierIsFound(data, text, extensions);
    }
  }
}
