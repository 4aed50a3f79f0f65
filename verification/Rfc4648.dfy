/** Base64 as section 4 of RFC 4648 has it, and the implementation of
    src/nativepg_internal/base64.cpp against it. */
module Rfc4648 {
  import opened Messages
  import opened Base64

  const Upper: string := "ABCDEFGHIJKLMNOPQRSTUVWXYZ"
  const Lower: string := "abcdefghijklmnopqrstuvwxyz"
  const Digits: string := "0123456789"
  const Alphabet: string := Upper + Lower + Digits + "+/"

  /** The character of a value. */
  function Character(v: nat): Byte
    requires v < 64
  {
    Alphabet[v] as int % 256
  }

  /** A group of 24 bits as four characters. */
  function Four(n: nat): Text
    requires n < 0x100_0000
  {
    [Character(n / 0x4_0000), Character(n / 0x1000 % 64), Character(n / 64 % 64), Character(n % 64)]
  }

  /** The encoding: three bytes at a time, the first one most significant; at the end zero bits are
      added, and a "=" stands for each missing byte. */
  function Encoding(src: Text): Text {
    if src == [] then []
    else if |src| == 1 then Four(src[0] as int * 0x1_0000)[..2] + Ascii("==")
    else if |src| == 2 then Four(src[0] as int * 0x1_0000 + src[1] as int * 0x100)[..3] + Ascii("=")
    else Four(src[0] as int * 0x1_0000 + src[1] as int * 0x100 + src[2] as int) + Encoding(src[3..])
  }

  lemma {:induction false} UpperIs(v: nat)
    requires v < 26
    ensures |Upper| == 26 && Upper[v] as int == 65 + v
  {
  }

  lemma {:induction false} LowerIs(v: nat)
    requires v < 26
    ensures |Lower| == 26 && Lower[v] as int == 97 + v
  {
  }

  lemma {:induction false} DigitsAre(v: nat)
    requires v < 10
    ensures |Digits| == 10 && Digits[v] as int == 48 + v
  {
  }

  lemma {:induction false} LettersAre(v: Sextet)
    ensures |Alphabet| == 64 && Letter(v) == Character(v)
  {
    UpperIs(if v < 26 then v else 0);
    LowerIs(if 26 <= v < 52 then v - 26 else 0);
    DigitsAre(if 52 <= v < 62 then v - 52 else 0);
  }

  lemma {:induction false} GroupIs(a: Byte, b: Byte, c: Byte)
    ensures Four(a as int * 0x1_0000 + b as int * 0x100 + c as int) == Group(a, b, c)
  {
    hide Letter, Character;
    LettersAre(a / 4);
    LettersAre(a % 4 * 16 + b / 16);
    LettersAre(b % 16 * 4 + c / 64);
    LettersAre(c % 64);
    SextetsAre(a, b, c);
  }

  lemma {:induction false} SextetsAre(a: Byte, b: Byte, c: Byte)
    ensures var n := a as int * 0x1_0000 + b as int * 0x100 + c as int;
      n / 0x4_0000 == a / 4 && n / 0x1000 % 64 == a % 4 * 16 + b / 16 && n / 64 % 64 == b % 16 * 4 + c / 64 && n % 64 == c % 64
  {
    var n := a as int * 0x1_0000 + b as int * 0x100 + c as int;
    var p, q, r, s := a / 4, a % 4 * 16 + b / 16, b % 16 * 4 + c / 64, c % 64;
    assert n == ((p * 64 + q) * 64 + r) * 64 + s;
    Cut64((p * 64 + q) * 64 + r, s, n);
    Cut64(p * 64 + q, r, (p * 64 + q) * 64 + r);
    Cut4096(p * 64 + q, r * 64 + s, n);
    Cut64(p, q, p * 64 + q);
    Cut18(p, (q * 64 + r) * 64 + s, n);
  }

  lemma {:induction false} Cut64(high: nat, low: nat, n: nat)
    requires low < 64 && n == high * 64 + low
    ensures n / 64 == high && n % 64 == low
  {
  }

  lemma {:induction false} Cut4096(high: nat, low: nat, n: nat)
    requires low < 0x1000 && n == high * 0x1000 + low
    ensures n / 0x1000 == high
  {
  }

  lemma {:induction false} Cut18(high: nat, low: nat, n: nat)
    requires low < 0x4_0000 && n == high * 0x4_0000 + low
    ensures n / 0x4_0000 == high
  {
  }

  lemma {:induction false} EncodedIs(src: Text)
    ensures Encoded(src) == Encoding(src)
  {
    hide Four, Group;
    if |src| >= 3 {
      GroupIs(src[0], src[1], src[2]);
      EncodedIs(src[3..]);
    } else {
      TailIs(src);
    }
  }

  lemma {:induction false} TailIs(src: Text)
    requires |src| < 3
    ensures Tail(src) == Encoding(src)
  {
    hide Letter, Four;
    if |src| == 2 {
      GroupIs(src[0], src[1], 0);
      assert Ascii("=") == [Pad];
    } else if |src| == 1 {
      GroupIs(src[0], 0, 0);
      assert Ascii("==") == [Pad, Pad];
    }
  }

  /** The implementation encodes and decodes as RFC 4648 has it, for every string of bytes. */
  lemma {:induction false} ImplementsRfc4648(src: Text)
    ensures Encoded(src) == Encoding(src) && Decoded(Encoding(src)) == Plain(src)
  {
    hide Encoded, Encoding, Decoded;
    EncodedIs(src);
    RoundTrip(src);
  }

  lemma {:induction false} EncodingIsInjective(a: Text, b: Text)
    requires Encoding(a) == Encoding(b)
    ensures a == b
  {
    hide Encoded, Encoding, Decoded;
    ImplementsRfc4648(a);
    ImplementsRfc4648(b);
  }

  // ----- what is decoded

  /** A character of the alphabet, which the table of the source has. */
  predicate IsLetter(c: Byte) {
    c < 128 && Inverse(c) != -1
  }

  lemma {:induction false} LetterIsInAlphabet(c: Byte)
    ensures IsLetter(c) <==> exists v: nat :: v < 64 && Character(v) == c
  {
    hide Letter, Character;
    if IsLetter(c) {
      LettersAre(Inverse(c));
      InverseLetter(c);
    }
    if v: nat :| v < 64 && Character(v) == c {
      LettersAre(v);
      LetterInverse(v);
    }
  }

  lemma {:induction false} InverseLetter(c: Byte)
    requires Inverse(c) != -1
    ensures Letter(Inverse(c)) == c
  {
  }

  /** How many of the last two characters are "=". */
  function Pads(s: Text): nat {
    if |s| < 4 then 0 else Padding(s)
  }

  predicate LettersUpTo(s: Text, n: nat)
    requires n <= |s|
  {
    forall i | 0 <= i < n :: IsLetter(s[i])
  }

  lemma {:induction false} GroupDecoded(s: Text, padding: nat)
    requires |s| >= 4 && padding <= 2
    ensures DecodeGroup(s, padding).Plain? <==> LettersUpTo(s, 4 - padding)
    ensures DecodeGroup(s, padding).Plain? ==> |DecodeGroup(s, padding).bytes| == 3 - padding
  {
  }

  /** A text is decoded if and only if it has whole groups and is made of letters up to its padding, and
      then it gives three bytes for each group but those of the padding. */
  lemma {:induction false} DecodedExactly(s: Text)
    ensures Decoded(s).Plain? <==> |s| % 4 == 0 && LettersUpTo(s, |s| - Pads(s))
    ensures Decoded(s).Plain? ==> |Decoded(s).bytes| == |s| / 4 * 3 - Pads(s)
    decreases |s|
  {
    hide DecodeGroup, DecodeAll, IsLetter;
    if s == [] {
      NothingDecoded();
    } else if |s| % 4 == 0 {
      assert |s| >= 4;
      DecodeUnfold(s);
      if |s| == 4 {
        GroupDecoded(s, Padding(s));
      } else {
        var t := s[4..];
        assert Padding(t) == Padding(s);
        GroupDecoded(s, 0);
        DecodedExactly(t);
        assert forall i | 0 <= i < |t| :: t[i] == s[i + 4];
        assert forall i | 4 <= i < |s| :: s[i] == t[i - 4];
      }
    }
  }

  /** The examples of section 10 of RFC 4648. */
  lemma {:induction false} Vectors()
    ensures Encoded([]) == []
    ensures Encoded(Ascii("f")) == Ascii("Zg==") && Encoded(Ascii("fo")) == Ascii("Zm8=") && Encoded(Ascii("foo")) == Ascii("Zm9v")
    ensures Encoded(Ascii("foob")) == Ascii("Zm9vYg==") && Encoded(Ascii("fooba")) == Ascii("Zm9vYmE=")
    ensures Encoded(Ascii("foobar")) == Ascii("Zm9vYmFy")
  {
    hide Group, Tail, Encoded;
    var foo, bar := Ascii("foo"), Ascii("bar");
    OneByte();
    TwoBytes();
    ThreeBytes();
    assert Ascii("foob") == foo + Ascii("b") && Ascii("fooba") == foo + Ascii("ba") && Ascii("foobar") == foo + bar;
    assert foo + [] == foo && bar + [] == bar;
    FrontGroup(foo, []);
    FrontGroup(foo, Ascii("b"));
    FrontGroup(foo, Ascii("ba"));
    FrontGroup(foo, bar);
    FrontGroup(bar, []);
  }

  lemma {:induction false} OneByte()
    ensures Encoded([]) == [] && Encoded(Ascii("f")) == Ascii("Zg==") && Encoded(Ascii("b")) == Ascii("Yg==")
  {
    hide Group;
  }

  lemma {:induction false} TwoBytes()
    ensures Encoded(Ascii("fo")) == Ascii("Zm8=") && Encoded(Ascii("ba")) == Ascii("YmE=")
  {
    hide Encoded, Letter, Group;
    EncodeLast(Ascii("fo"));
    EncodeLast(Ascii("ba"));
    TailLetters();
    assert Tail(Ascii("fo")) == [Letter(25), Letter(38), Letter(60), Pad];
    assert Tail(Ascii("ba")) == [Letter(24), Letter(38), Letter(4), Pad];
  }

  lemma {:induction false} TailLetters()
    ensures Letter(25) == 90 && Letter(38) == 109 && Letter(60) == 56 && Letter(24) == 89 && Letter(4) == 69
  {
  }

  lemma {:induction false} ThreeBytes()
    ensures Group(102, 111, 111) == Ascii("Zm9v") && Group(98, 97, 114) == Ascii("YmFy")
    ensures Ascii("foo") == [102, 111, 111] && Ascii("bar") == [98, 97, 114]
  {
  }

  lemma {:induction false} FrontGroup(g: Text, rest: Text)
    requires |g| == 3
    ensures Encoded(g + rest) == Group(g[0], g[1], g[2]) + Encoded(rest)
  {
    hide Group;
    assert (g + rest)[3..] == rest;
  }
}
