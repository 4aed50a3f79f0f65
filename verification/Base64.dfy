/** Base64 (section 4 of RFC 4648), as src/nativepg_internal/base64.cpp implements it.
    A character is signed in the source, and the index into the table is its value as an
    unsigned size: a character from 128 on reads far outside the table. */
module Base64 {
  import opened Messages

  type Sextet = v: int | 0 <= v < 64

  const Pad: Byte := 61

  /** The alphabet: A-Z, a-z, 0-9, + and /. */
  function Letter(v: Sextet): (c: Byte)
    ensures c != Pad && c < 128
  {
    if v < 26 then 65 + v
    else if v < 52 then 97 + (v - 26)
    else if v < 62 then 48 + (v - 52)
    else if v == 62 then 43
    else 47
  }

  /** What decoding gives: bytes, a refusal, or a read outside the table. */
  datatype Decoding = Plain(bytes: seq<Byte>) | NotBase64 | OutOfBounds

  /** The inverse table, for a character below 128; -1 outside the alphabet. */
  function Inverse(c: Byte): (v: int)
    ensures -1 <= v < 64
  {
    if 65 <= c < 91 then c - 65
    else if 97 <= c < 123 then c - 97 + 26
    else if 48 <= c < 58 then c - 48 + 52
    else if c == 43 then 62
    else if c == 47 then 63
    else -1
  }

  lemma {:induction false} LetterInverse(v: Sextet)
    ensures Inverse(Letter(v)) == v
  {
  }

  // ----- groups of three bytes and of four characters

  function Group(a: Byte, b: Byte, c: Byte): (s: seq<Byte>)
    ensures |s| == 4
  {
    [Letter(a / 4), Letter(a % 4 * 16 + b / 16), Letter(b % 16 * 4 + c / 64), Letter(c % 64)]
  }

  /** The last group of one or two bytes, padded. */
  function Tail(src: seq<Byte>): (s: seq<Byte>)
    requires |src| < 3
    ensures |s| == if src == [] then 0 else 4
  {
    if |src| == 2 then [Letter(src[0] / 4), Letter(src[0] % 4 * 16 + src[1] / 16), Letter(src[1] % 16 * 4), Pad]
    else if |src| == 1 then [Letter(src[0] / 4), Letter(src[0] % 4 * 16), Pad, Pad]
    else []
  }

  function Encoded(src: seq<Byte>): (s: seq<Byte>)
    ensures |s| == 4 * ((|src| + 2) / 3)
  {
    if |src| < 3 then Tail(src) else Group(src[0], src[1], src[2]) + Encoded(src[3..])
  }

  function Padding(s: seq<Byte>): (n: nat)
    requires |s| >= 4
    ensures n <= 2
  {
    (if s[|s| - 1] == Pad then 1 else 0) + (if s[|s| - 2] == Pad then 1 else 0)
  }

  /** A group of four characters, of which the last ones may be padding. All lookups come
      before the check of their results. */
  function DecodeGroup(s: seq<Byte>, padding: nat): Decoding
    requires |s| >= 4 && padding <= 2
  {
    if s[0] >= 128 || s[1] >= 128 || (padding < 2 && s[2] >= 128) || (padding == 0 && s[3] >= 128) then OutOfBounds
    else
      var v0, v1 := Inverse(s[0]), Inverse(s[1]);
      var v2 := if padding == 2 then 0 else Inverse(s[2]);
      var v3 := if padding > 0 then 0 else Inverse(s[3]);
      if v0 == -1 || v1 == -1 || v2 == -1 || v3 == -1 then NotBase64
      else
        var b0, b1, b2 := v0 * 4 + v1 / 16, v1 % 16 * 16 + v2 / 4, v2 % 4 * 64 + v3;
        Plain(if padding == 2 then [b0] else if padding == 1 then [b0, b1] else [b0, b1, b2])
  }

  function DecodeAll(s: seq<Byte>): Decoding
    requires |s| % 4 == 0
  {
    if s == [] then Plain([])
    else if |s| == 4 then DecodeGroup(s, Padding(s))
    else
      match DecodeGroup(s, 0)
      case Plain(b) => Joined(b, DecodeAll(s[4..]))
      case other => other
  }

  /** base64_decode. */
  function Decoded(s: seq<Byte>): Decoding {
    if |s| % 4 != 0 then NotBase64 else DecodeAll(s)
  }

  // ----- the loops

  /** encode. */
  method Encode(src: seq<Byte>) returns (s: seq<Byte>)
    ensures s == Encoded(src)
  {
    hide Encoded, Group, Tail;
    s := [];
    var i := 0;
    assert src[0..] == src && [] + Encoded(src) == Encoded(src);
    while i + 3 <= |src|
      invariant 0 <= i <= |src| && s + Encoded(src[i..]) == Encoded(src)
    {
      EncodeStep(src, i);
      var g := Group(src[i], src[i + 1], src[i + 2]);
      assert s + (g + Encoded(src[i + 3..])) == s + g + Encoded(src[i + 3..]);
      s := s + g;
      i := i + 3;
    }
    EncodeLast(src[i..]);
    s := s + Tail(src[i..]);
  }

  lemma {:induction false} EncodeStep(src: seq<Byte>, i: nat)
    requires i + 3 <= |src|
    ensures Encoded(src[i..]) == Group(src[i], src[i + 1], src[i + 2]) + Encoded(src[i + 3..])
  {
    hide Group, Tail;
    assert src[i..][3..] == src[i + 3..];
  }

  lemma {:induction false} EncodeLast(src: seq<Byte>)
    requires |src| < 3
    ensures Encoded(src) == Tail(src)
  {
    hide Tail;
  }

  /** decode: every group but the last, then the last one. */
  method Decode(s: seq<Byte>) returns (r: Decoding)
    ensures r == Decoded(s)
  {
    if |s| % 4 != 0 {
      return NotBase64;
    }
    if s == [] {
      return Plain([]);
    }
    var out: seq<Byte> := [];
    var p := 0;
    assert s[0..] == s;
    JoinedEmpty(DecodeAll(s));
    hide DecodeGroup, DecodeAll, Joined, Padding;
    while p < |s| - 4
      invariant 0 <= p <= |s| - 4 && (|s| - p) % 4 == 0
      invariant DecodeAll(s) == Joined(out, DecodeAll(s[p..]))
    {
      var g := DecodeGroup(s[p..], 0);
      OneMoreGroup(s, p, out);
      if !g.Plain? {
        return g;
      }
      out := out + g.bytes;
      p := p + 4;
    }
    LastGroup(s, p);
    r := Joined(out, DecodeGroup(s[p..], Padding(s)));
  }

  lemma {:induction false} OneMoreGroup(s: seq<Byte>, p: nat, out: seq<Byte>)
    requires p + 4 < |s| && |s[p..]| % 4 == 0
    ensures var g := DecodeGroup(s[p..], 0);
      Joined(out, DecodeAll(s[p..])) == if g.Plain? then Joined(out + g.bytes, DecodeAll(s[p + 4..])) else g
  {
    hide DecodeGroup, DecodeAll, Joined;
    var t := s[p..];
    var g := DecodeGroup(t, 0);
    assert t[4..] == s[p + 4..];
    DecodeUnfold(t);
    JoinedOther(out, g);
    if g.Plain? {
      JoinedStep(out, g.bytes, DecodeAll(t[4..]));
    }
  }

  lemma {:induction false} LastGroup(s: seq<Byte>, p: nat)
    requires p + 4 == |s|
    ensures DecodeAll(s[p..]) == DecodeGroup(s[p..], Padding(s))
  {
    hide DecodeGroup, DecodeAll;
    DecodeUnfold(s[p..]);
  }

  function Joined(out: seq<Byte>, rest: Decoding): Decoding {
    match rest
    case Plain(b) => Plain(out + b)
    case other => other
  }

  lemma {:induction false} JoinedOther(out: seq<Byte>, d: Decoding)
    ensures !d.Plain? ==> Joined(out, d) == d
  {
  }

  lemma {:induction false} JoinedEmpty(rest: Decoding)
    ensures Joined([], rest) == rest
  {
    if rest.Plain? {
      assert [] + rest.bytes == rest.bytes;
    }
  }

  lemma {:induction false} JoinedStep(out: seq<Byte>, b: seq<Byte>, rest: Decoding)
    ensures Joined(out, Joined(b, rest)) == Joined(out + b, rest)
  {
    if rest.Plain? {
      assert out + (b + rest.bytes) == out + b + rest.bytes;
    }
  }

  // ----- round trip

  lemma {:induction false} GroupRoundTrip(a: Byte, b: Byte, c: Byte, s: seq<Byte>)
    requires |s| >= 4 && s[..4] == Group(a, b, c)
    ensures DecodeGroup(s, 0) == Plain([a, b, c])
  {
    var g := Group(a, b, c);
    assert s[0] == g[0] && s[1] == g[1] && s[2] == g[2] && s[3] == g[3];
    LetterInverse(a / 4);
    LetterInverse(a % 4 * 16 + b / 16);
    LetterInverse(b % 16 * 4 + c / 64);
    LetterInverse(c % 64);
    Sextets(a, b, c);
  }

  lemma {:induction false} Sextets(a: Byte, b: Byte, c: Byte)
    ensures a / 4 * 4 + (a % 4 * 16 + b / 16) / 16 == a
    ensures (a % 4 * 16 + b / 16) % 16 * 16 + (b % 16 * 4 + c / 64) / 4 == b
    ensures (b % 16 * 4 + c / 64) % 4 * 64 + c % 64 == c
  {
    var x, y := a % 4, b % 16;
    assert (x * 16 + b / 16) / 16 == x && (x * 16 + b / 16) % 16 == b / 16;
    assert (y * 4 + c / 64) / 4 == y && (y * 4 + c / 64) % 4 == c / 64;
  }

  lemma {:induction false} TailRoundTrip(src: seq<Byte>)
    requires 0 < |src| < 3
    ensures DecodeGroup(Tail(src), Padding(Tail(src))) == Plain(src)
  {
    var a := src[0];
    LetterInverse(a / 4);
    if |src| == 2 {
      var b := src[1];
      LetterInverse(a % 4 * 16 + b / 16);
      LetterInverse(b % 16 * 4);
      Sextets(a, b, 0);
      assert src == [a, b];
    } else {
      LetterInverse(a % 4 * 16);
      Sextets(a, 0, 0);
      assert src == [a];
    }
  }

  /** Every string of bytes comes back from its base64 form. */
  lemma {:induction false} RoundTrip(src: seq<Byte>)
    ensures Decoded(Encoded(src)) == Plain(src)
    decreases |src|
  {
    if 0 < |src| < 3 {
      TailRoundTrip(src);
    } else if |src| >= 3 {
      RoundTrip(src[3..]);
      Prepended(src);
    }
  }

  lemma {:induction false} Prepended(src: seq<Byte>)
    requires |src| >= 3 && Decoded(Encoded(src[3..])) == Plain(src[3..])
    ensures Decoded(Encoded(src)) == Plain(src)
  {
    hide Decoded;
    var t := Encoded(src[3..]);
    assert Encoded(src) == Group(src[0], src[1], src[2]) + t;
    Glue(src[0], src[1], src[2], t, src[3..]);
    assert [src[0], src[1], src[2]] + src[3..] == src;
  }

  lemma {:induction false} Glue(a: Byte, b: Byte, c: Byte, t: seq<Byte>, rest: seq<Byte>)
    requires Decoded(t) == Plain(rest)
    ensures Decoded(Group(a, b, c) + t) == Plain([a, b, c] + rest)
  {
    hide Group, DecodeGroup, DecodeAll;
    var g := Group(a, b, c);
    var s := g + t;
    assert s[..4] == g && s[4..] == t;
    GroupRoundTrip(a, b, c, s);
    DecodeUnfold(s);
    if t == [] {
      assert s == g;
      NoPadding(a, b, c);
      NothingDecoded();
      assert [a, b, c] + rest == [a, b, c];
    }
  }

  lemma {:induction false} NothingDecoded()
    ensures DecodeAll([]) == Plain([])
  {
  }

  lemma {:induction false} DecodeUnfold(s: seq<Byte>)
    requires |s| % 4 == 0 && |s| >= 4
    ensures |s| == 4 ==> DecodeAll(s) == DecodeGroup(s, Padding(s))
    ensures |s| > 4 ==> DecodeAll(s) == (match DecodeGroup(s, 0) case Plain(b) => Joined(b, DecodeAll(s[4..])) case other => other)
  {
    hide DecodeGroup;
  }

  lemma {:induction false} NoPadding(a: Byte, b: Byte, c: Byte)
    ensures Padding(Group(a, b, c)) == 0
  {
  }

  /** Base64 text has neither commas nor other characters outside the alphabet. */
  predicate IsText(s: seq<Byte>) {
    forall i | 0 <= i < |s| :: s[i] == Pad || Inverse(s[i]) != -1
  }

  lemma {:induction false} EncodedIsText(src: seq<Byte>)
    ensures IsText(Encoded(src))
    decreases |src|
  {
    if |src| >= 3 {
      EncodedIsText(src[3..]);
      LettersAreText();
    } else {
      LettersAreText();
    }
  }

  lemma {:induction false} LettersAreText()
    ensures forall v: Sextet {:trigger Letter(v)} :: Inverse(Letter(v)) != -1
  {
    forall v: Sextet ensures Inverse(Letter(v)) != -1 {
      LetterInverse(v);
    }
  }

  // ----- when decoding stays in bounds

  /** The character at j is looked up: it is not in the place of padding, and every group
      before its own is made of letters. */
  predicate LookedUp(s: seq<Byte>, j: nat) {
    |s| >= 4 && j < |s| - Padding(s) && forall i | 0 <= i < j / 4 * 4 :: s[i] < 128 && Inverse(s[i]) != -1
  }

  ghost predicate ReadsOutside(s: seq<Byte>) {
    exists j: nat :: LookedUp(s, j) && s[j] >= 128
  }

  lemma {:induction false} FirstGroupOutside(s: seq<Byte>)
    requires |s| >= 4 && |s| % 4 == 0
    ensures (exists j: nat :: j < 4 && LookedUp(s, j) && s[j] >= 128) <==>
      DecodeGroup(s, if |s| == 4 then Padding(s) else 0) == OutOfBounds
  {
    if |s| > 4 {
      assert |s| >= 8;
    }
    assert forall j: nat | j < 4 && j < |s| - Padding(s) :: LookedUp(s, j);
  }

  lemma {:induction false} TailLookups(s: seq<Byte>, j: nat)
    requires |s| > 4 && |s| % 4 == 0
    ensures LookedUp(s, j + 4) <==> LookedUp(s[4..], j) && forall i | 0 <= i < 4 :: s[i] < 128 && Inverse(s[i]) != -1
  {
    var t := s[4..];
    assert |s| >= 8 && Padding(t) == Padding(s) && (j + 4) / 4 * 4 == j / 4 * 4 + 4;
    assert forall i | 0 <= i < |t| :: t[i] == s[i + 4];
    assert forall i | 4 <= i < |s| :: s[i] == t[i - 4];
  }

  /** Decoding reads outside the table if and only if a character from 128 on is looked up. */
  lemma {:induction false} OutOfBoundsExactly(s: seq<Byte>)
    ensures Decoded(s) == OutOfBounds <==> |s| % 4 == 0 && ReadsOutside(s)
    decreases |s|
  {
    hide DecodeGroup, DecodeAll, ReadsOutside;
    if s == [] {
      NothingDecoded();
      NothingRead();
    } else if |s| % 4 == 0 {
      assert |s| >= 4;
      DecodeUnfold(s);
      if |s| == 4 {
        OneGroupOutside(s);
      } else {
        OutOfBoundsExactly(s[4..]);
        MoreGroupsOutside(s);
      }
    }
  }

  lemma {:induction false} NothingRead()
    ensures !ReadsOutside([])
  {
  }

  lemma {:induction false} OneGroupOutside(s: seq<Byte>)
    requires |s| == 4
    ensures ReadsOutside(s) <==> DecodeGroup(s, Padding(s)) == OutOfBounds
  {
    FirstGroupOutside(s);
    assert ReadsOutside(s) <==> exists j: nat :: j < 4 && LookedUp(s, j) && s[j] >= 128;
  }

  lemma {:induction false} MoreGroupsOutside(s: seq<Byte>)
    requires |s| > 4 && |s| % 4 == 0
    ensures ReadsOutside(s) <==>
      DecodeGroup(s, 0) == OutOfBounds || (DecodeGroup(s, 0).Plain? && ReadsOutside(s[4..]))
  {
    FirstGroupOutside(s);
    GroupLetters(s);
    hide DecodeGroup, LookedUp;
    if ReadsOutside(s) {
      var j: nat :| LookedUp(s, j) && s[j] >= 128;
      if j >= 4 {
        TailLookups(s, j - 4);
        assert s[4..][j - 4] == s[j];
      }
    }
    if DecodeGroup(s, 0).Plain? && ReadsOutside(s[4..]) {
      var j: nat :| LookedUp(s[4..], j) && s[4..][j] >= 128;
      TailLookups(s, j);
      assert s[4..][j] == s[j + 4];
    }
  }

  lemma {:induction false} GroupLetters(s: seq<Byte>)
    requires |s| >= 4
    ensures DecodeGroup(s, 0).Plain? <==> forall i | 0 <= i < 4 :: s[i] < 128 && Inverse(s[i]) != -1
  {
  }
}
