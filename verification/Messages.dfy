/** Vocabulary shared by all components: the frontend messages of a request, the
    backend messages that answer them, and the error codes of the client. */
module Messages {

  type Byte = b: int | 0 <= b < 256

  type Text = seq<Byte>

  /** The bytes of a text of ASCII characters. */
  function Ascii(s: string): (t: Text)
    ensures |t| == |s| && forall i | 0 <= i < |s| :: t[i] == s[i] as int % 256
  {
    seq(|s|, i requires 0 <= i < |s| => s[i] as int % 256)
  }

  /** A signed 32-bit integer, most significant byte first. */
  function Int32(data: seq<Byte>, p: nat): (n: int)
    requires p + 4 <= |data|
    ensures -0x8000_0000 <= n < 0x8000_0000
  {
    var u := data[p] as int * 0x100_0000 + data[p + 1] as int * 0x1_0000 + data[p + 2] as int * 0x100 + data[p + 3] as int;
    if u < 0x8000_0000 then u else u - 0x1_0000_0000
  }

  /** The value of some bytes in base 256, the first one most significant. */
  function BigEndian(s: Text): nat {
    if s == [] then 0 else BigEndian(s[..|s| - 1]) * 256 + s[|s| - 1] as int
  }

  /** The integer is that value, in two's complement. */
  lemma {:induction false} Int32IsBigEndian(data: seq<Byte>, p: nat)
    requires p + 4 <= |data|
    ensures var v := BigEndian(data[p..p + 4]); Int32(data, p) == if v < 0x8000_0000 then v else v - 0x1_0000_0000
  {
    var s := data[p..p + 4];
    assert s[..3][..2] == s[..2] && s[..2][..1] == s[..1] && s[..1][..0] == [];
    assert BigEndian([]) == 0;
    assert BigEndian(s[..1]) == s[0] as int;
    assert BigEndian(s[..2]) == s[0] as int * 256 + s[1] as int;
    assert BigEndian(s[..3]) == (s[0] as int * 256 + s[1] as int) * 256 + s[2] as int;
  }

  function Bytes32(n: int): (b: seq<Byte>)
    requires -0x8000_0000 <= n < 0x8000_0000
    ensures |b| == 4
  {
    var u := if n < 0 then n + 0x1_0000_0000 else n;
    [u / 0x100_0000, u / 0x1_0000 % 0x100, u / 0x100 % 0x100, u % 0x100]
  }

  /** A message on the wire: its letter, its length without the letter, its body. */
  function Frame(letter: Byte, body: Text): Text
    requires |body| < 0x7fff_fffc
  {
    [letter] + Bytes32(|body| + 4) + body
  }

  /** Room for a length that is not known yet. */
  const Room: Text := [0, 0, 0, 0]

  lemma {:induction false} Patched(pre: Text, post: Text, length: Text)
    requires |length| == 4
    ensures var s := pre + Room + post; s[..|pre|] + length + s[|pre| + 4..] == pre + length + post
  {
    var s := pre + Room + post;
    assert s[..|pre|] == pre && s[|pre| + 4..] == post;
  }

  datatype Option<+T> = None | Some(value: T)

  /** The frontend messages a request may hold (include/nativepg/request.hpp). */
  datatype RequestMessage = Bind | Close | Describe | Execute | Flush | Parse | Query | Sync

  /** The backend message kinds (include/nativepg/protocol/any_backend_message.hpp). */
  datatype Kind =
    | NoMessage
    | AuthenticationOk
    | AuthenticationKerberosV5
    | AuthenticationCleartextPassword
    | AuthenticationMd5Password
    | AuthenticationGss
    | AuthenticationGssContinue
    | AuthenticationSspi
    | AuthenticationSasl
    | AuthenticationSaslContinue
    | AuthenticationSaslFinal
    | BackendKeyData
    | BindComplete
    | CloseComplete
    | CommandComplete
    | CopyData
    | CopyDone
    | CopyFail
    | CopyInResponse
    | CopyOutResponse
    | CopyBothResponse
    | DataRow
    | EmptyQueryResponse
    | ErrorResponse
    | NegotiateProtocolVersion
    | NoData
    | NoticeResponse
    | NotificationResponse
    | ParameterDescription
    | ParameterStatus
    | ParseComplete
    | PortalSuspended
    | ReadyForQuery
    | FieldDescription
    | RowDescription

  /** A parsed backend message; the body is carried through to the handlers untouched. */
  datatype BackendMessage = BackendMessage(kind: Kind, body: seq<Byte>)

  /** The messages that the clients filter out of a reply. */
  predicate IsAsync(k: Kind) {
    k == NoticeResponse || k == NotificationResponse || k == ParameterStatus
  }

  /** The error codes that the modelled components return. */
  datatype ClientError =
    | UnexpectedMessage
    | CopyNotAllowed
    | EmptyRequest
    | RequestEndsWithoutSync
    | RequestMixesSimpleAdvancedProtocols
    | IncompatibleResponseLength
    | IncompatibleResponseType
    | UnmatchedRequest
    | OperationCanceled
    | ProtocolValueError
    | IncompleteMessage
    | ExtraBytes

  /** The messages that the protocol lets a server send at any time, asked or not. */
  predicate Unasked(k: Kind) {
    k in {NoticeResponse, ParameterStatus, NotificationResponse}
  }

  lemma {:induction false} AsyncIsUnasked(k: Kind)
    ensures IsAsync(k) <==> Unasked(k)
  {
  }

  /** The messages of a word that belong to a reply: the others are dropped. */
  function SansAsync(w: seq<BackendMessage>): seq<BackendMessage> {
    if w == [] then []
    else if Unasked(w[0].kind) then SansAsync(w[1..])
    else [w[0]] + SansAsync(w[1..])
  }

  function Kinds(w: seq<BackendMessage>): (ks: seq<Kind>)
    ensures |ks| == |w|
    ensures forall i | 0 <= i < |w| :: ks[i] == w[i].kind
  {
    seq(|w|, i requires 0 <= i < |w| => w[i].kind)
  }

  /** How many ReadyForQuery messages a word holds. */
  function CountReady(w: seq<BackendMessage>): nat {
    if w == [] then 0
    else (if w[0].kind == ReadyForQuery then 1 else 0) + CountReady(w[1..])
  }

  lemma {:induction false} CountReadyHead(w: seq<BackendMessage>)
    ensures w == [] ==> CountReady(w) == 0
    ensures w != [] ==> CountReady(w) == (if w[0].kind == ReadyForQuery then 1 else 0) + CountReady(w[1..])
  {
  }

  lemma {:induction false} CountReadyAppend(v: seq<BackendMessage>, m: BackendMessage)
    ensures CountReady(v + [m]) == CountReady(v) + (if m.kind == ReadyForQuery then 1 else 0)
  {
    if v == [] {
      assert v + [m] == [m];
    } else {
      assert (v + [m])[1..] == v[1..] + [m];
      CountReadyAppend(v[1..], m);
    }
  }

  /** The elements of several sequences, one sequence after the other. */
  function Flat<T>(parts: seq<seq<T>>): seq<T> {
    if parts == [] then [] else Flat(parts[..|parts| - 1]) + parts[|parts| - 1]
  }

  lemma {:induction false} FlatOne<T>(parts: seq<seq<T>>, part: seq<T>)
    ensures Flat(parts + [part]) == Flat(parts) + part
  {
    assert (parts + [part])[..|parts|] == parts;
  }

  lemma {:induction false} FlatHead<T>(parts: seq<seq<T>>)
    ensures parts != [] ==> Flat(parts) == parts[0] + Flat(parts[1..])
    decreases |parts|
  {
    hide Flat;
    FlatUnfold(parts);
    if |parts| == 1 {
      FlatUnfold<T>([]);
      assert parts[..0] == [] && parts[1..] == [];
      assert [] + parts[0] == parts[0] == parts[0] + [];
    } else if parts != [] {
      var last := |parts| - 1;
      FlatHead(parts[..last]);
      FlatUnfold(parts[1..]);
      assert parts[..last][1..] == parts[1..][..last - 1];
      var a, b, c := parts[0], Flat(parts[..last][1..]), parts[last];
      assert a + b + c == a + (b + c);
    }
  }

  lemma {:induction false} FlatUnfold<T>(parts: seq<seq<T>>)
    ensures Flat(parts) == if parts == [] then [] else Flat(parts[..|parts| - 1]) + parts[|parts| - 1]
  {
  }
}
