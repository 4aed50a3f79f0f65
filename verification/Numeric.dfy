/** Counting the significant digits of a numeric, from its text and from its binary form of
    base-10000 groups (include/nativepg/types/numeric.hpp). */
module Numeric {

  // ----- what is counted

  function NumDigits(n: nat): (k: nat)
    ensures k > 0
  {
    if n < 10 then 1 else 1 + NumDigits(n / 10)
  }

  /** The number without its trailing zeros. */
  function Strip(n: nat): (r: nat)
    requires n > 0
    ensures r > 0 && r % 10 != 0
  {
    if n % 10 != 0 then n else Strip(n / 10)
  }

  function TrailingZeros(n: nat): nat
    requires n > 0
  {
    if n % 10 != 0 then 0 else 1 + TrailingZeros(n / 10)
  }

  /** The decimal digits of n, trailing zeros aside. */
  function SignificantDigits(n: nat): nat {
    if n == 0 then 0 else NumDigits(Strip(n))
  }

  lemma {:induction false} DigitsSplit(n: nat)
    requires n > 0
    ensures NumDigits(n) == NumDigits(Strip(n)) + TrailingZeros(n)
  {
    if n % 10 == 0 {
      DigitsSplit(n / 10);
    }
  }

  /** Trailing zeros are not significant: the point may stand anywhere. */
  lemma {:induction false} ScaledSame(n: nat, k: nat)
    ensures SignificantDigits(n * Power10(k)) == SignificantDigits(n)
  {
    if k > 0 {
      ScaledSame(n, k - 1);
      ScaledStep(n, Power10(k - 1));
    }
  }

  lemma {:induction false} ScaledStep(n: nat, p: nat)
    ensures SignificantDigits(n * (10 * p)) == SignificantDigits(n * p)
  {
    hide Strip, NumDigits;
    assert n * (10 * p) == 10 * (n * p);
    if n * p > 0 {
      OneMoreZero(n * p);
    }
  }

  function Power10(k: nat): (p: nat)
    ensures p > 0
  {
    if k == 0 then 1 else 10 * Power10(k - 1)
  }

  // ----- the text form

  predicate IsDigit(c: char) {
    '0' <= c <= '9'
  }

  function WithoutSign(s: string): string {
    if s != [] && (s[0] == '+' || s[0] == '-') then s[1..] else s
  }

  /** The part up to the first character that is neither a digit nor a point. */
  function NumericPart(s: string): string {
    if s == [] || !(IsDigit(s[0]) || s[0] == '.') then [] else [s[0]] + NumericPart(s[1..])
  }

  function WithoutPoints(s: string): string {
    if s == [] then [] else (if s[0] == '.' then [] else [s[0]]) + WithoutPoints(s[1..])
  }

  function DropLeading(s: string): string {
    if s != [] && s[0] == '0' then DropLeading(s[1..]) else s
  }

  function DropTrailing(s: string): string {
    if s != [] && s[|s| - 1] == '0' then DropTrailing(s[..|s| - 1]) else s
  }

  /** The digits of the text, sign and point aside. */
  function DigitsOf(s: string): string {
    WithoutPoints(NumericPart(WithoutSign(s)))
  }

  /** count_significant_digits_text. */
  function CountText(s: string): nat {
    |DropTrailing(DropLeading(DigitsOf(s)))|
  }

  predicate AllDigits(s: string) {
    forall i | 0 <= i < |s| :: IsDigit(s[i])
  }

  function Digit(c: char): (d: nat)
    requires IsDigit(c)
    ensures d < 10 && (d == 0 <==> c == '0')
  {
    c as int - '0' as int
  }

  function Decimal(s: string): nat
    requires AllDigits(s)
  {
    if s == [] then 0 else 10 * Decimal(s[..|s| - 1]) + Digit(s[|s| - 1])
  }

  lemma {:induction false} NumericPartChars(s: string)
    ensures forall i | 0 <= i < |NumericPart(s)| :: IsDigit(NumericPart(s)[i]) || NumericPart(s)[i] == '.'
  {
    if s != [] {
      NumericPartChars(s[1..]);
    }
  }

  lemma {:induction false} WithoutPointsDigits(s: string)
    requires forall i | 0 <= i < |s| :: IsDigit(s[i]) || s[i] == '.'
    ensures AllDigits(WithoutPoints(s))
  {
    if s != [] {
      WithoutPointsDigits(s[1..]);
    }
  }

  lemma {:induction false} DigitsOfDigits(s: string)
    ensures AllDigits(DigitsOf(s))
  {
    NumericPartChars(WithoutSign(s));
    WithoutPointsDigits(NumericPart(WithoutSign(s)));
  }

  lemma {:induction false} LeadingZero(s: string)
    requires AllDigits(s) && s != [] && s[0] == '0'
    ensures Decimal(s) == Decimal(s[1..])
    decreases |s|
  {
    if |s| > 1 {
      var init := s[..|s| - 1];
      LeadingZero(init);
      assert s[1..][..|s[1..]| - 1] == init[1..];
    } else {
      assert s[1..] == [] && s[..0] == [];
    }
  }

  lemma {:induction false} DropLeadingSame(s: string)
    requires AllDigits(s)
    ensures var r := DropLeading(s); AllDigits(r) && Decimal(r) == Decimal(s) && (r != [] ==> r[0] != '0')
    decreases |s|
  {
    if s != [] && s[0] == '0' {
      LeadingZero(s);
      DropLeadingSame(s[1..]);
    }
  }

  /** A decimal that does not start with a zero has as many digits as characters. */
  lemma {:induction false} PlainDigits(s: string)
    requires AllDigits(s) && s != [] && s[0] != '0'
    ensures Decimal(s) > 0 && NumDigits(Decimal(s)) == |s| && |DropTrailing(s)| == NumDigits(Strip(Decimal(s)))
    decreases |s|
  {
    var init, last := s[..|s| - 1], s[|s| - 1];
    if init == [] {
      assert Decimal(s) == Digit(last);
    } else {
      PlainDigits(init);
      var v := Decimal(init);
      assert (10 * v + Digit(last)) / 10 == v;
    }
  }

  /** The text count is right for every text. */
  lemma {:induction false} TextCount(s: string)
    ensures AllDigits(DigitsOf(s)) && CountText(s) == SignificantDigits(Decimal(DigitsOf(s)))
  {
    hide DigitsOf;
    DigitsOfDigits(s);
    var d := DigitsOf(s);
    DropLeadingSame(d);
    if DropLeading(d) != [] {
      PlainDigits(DropLeading(d));
    }
  }

  // ----- the binary form

  predicate Groups(gs: seq<nat>) {
    forall i | 0 <= i < |gs| :: gs[i] < 10000
  }

  /** The integer that the groups represent. */
  function Value(gs: seq<nat>): nat {
    if gs == [] then 0 else Value(gs[..|gs| - 1]) * 10000 + gs[|gs| - 1]
  }

  lemma {:induction false} OneMoreDigit(v: nat, d: nat)
    requires v > 0 && d < 10
    ensures NumDigits(10 * v + d) == NumDigits(v) + 1
  {
    assert (10 * v + d) / 10 == v;
  }

  lemma {:induction false} ShiftedDigits(v: nat, g: nat)
    requires v > 0 && g < 10000
    ensures NumDigits(v * 10000 + g) == NumDigits(v) + 4
  {
    hide NumDigits;
    var a, b, c, d := FourDigits(g);
    OneMoreDigit(v, a);
    OneMoreDigit(10 * v + a, b);
    OneMoreDigit(100 * v + 10 * a + b, c);
    OneMoreDigit(1000 * v + 100 * a + 10 * b + c, d);
  }

  lemma {:induction false} FourDigits(g: nat) returns (a: nat, b: nat, c: nat, d: nat)
    requires g < 10000
    ensures a < 10 && b < 10 && c < 10 && d < 10 && g == 1000 * a + 100 * b + 10 * c + d
  {
    a := g / 1000;
    var r := g - 1000 * a;
    b := r / 100;
    r := r - 100 * b;
    c := r / 10;
    d := r - 10 * c;
  }

  lemma {:induction false} OneMoreZero(n: nat)
    requires n > 0
    ensures TrailingZeros(10 * n) == 1 + TrailingZeros(n) && Strip(10 * n) == Strip(n)
  {
    assert 10 * n % 10 == 0 && 10 * n / 10 == n;
  }

  /** Higher digits do not matter for the zeros at the end. */
  lemma {:induction false} ZerosBelow(a: nat, g: nat, k: nat)
    requires 0 < g < Power10(k)
    ensures a * Power10(k) + g > 0 && TrailingZeros(a * Power10(k) + g) == TrailingZeros(g)
    decreases k
  {
    var high := a * Power10(k - 1);
    assert a * Power10(k) == 10 * high;
    ZerosStep(high, g);
    if g % 10 == 0 {
      ZerosBelow(a, g / 10, k - 1);
    }
  }

  lemma {:induction false} ZerosStep(a: nat, g: nat)
    requires g > 0
    ensures (10 * a + g) % 10 == g % 10 && (10 * a + g) / 10 == a + g / 10
  {
  }

  lemma {:induction false} ShiftedZeros(v: nat, g: nat)
    requires g < 10000 && v * 10000 + g > 0
    ensures g == 0 ==> v > 0 && TrailingZeros(v * 10000) == 4 + TrailingZeros(v)
    ensures g > 0 ==> TrailingZeros(v * 10000 + g) == TrailingZeros(g)
  {
    assert Power10(4) == 10000;
    hide TrailingZeros, Power10;
    if g == 0 {
      OneMoreZero(v);
      OneMoreZero(10 * v);
      OneMoreZero(100 * v);
      OneMoreZero(1000 * v);
    } else {
      ZerosBelow(v, g, 4);
    }
  }

  lemma {:induction false} ValueDigits(gs: seq<nat>)
    requires Groups(gs) && gs != [] && gs[0] > 0
    ensures Value(gs) > 0 && NumDigits(Value(gs)) == NumDigits(gs[0]) + 4 * (|gs| - 1)
    decreases |gs|
  {
    if |gs| > 1 {
      ValueDigits(gs[..|gs| - 1]);
      ShiftedDigits(Value(gs[..|gs| - 1]), gs[|gs| - 1]);
    } else {
      assert Value(gs[..0]) == 0;
    }
  }

  /** The first group is not needed to see the zeros at the end. */
  lemma {:induction false} ValueZeros(gs: seq<nat>, k: nat)
    requires Groups(gs) && k < |gs| && gs[k] > 0 && forall i | k < i < |gs| :: gs[i] == 0
    ensures Value(gs) > 0 && TrailingZeros(Value(gs)) == 4 * (|gs| - 1 - k) + TrailingZeros(gs[k])
    decreases |gs|
  {
    var init, last := gs[..|gs| - 1], gs[|gs| - 1];
    if k == |gs| - 1 {
      ShiftedZeros(Value(init), last);
    } else {
      ValueZeros(init, k);
      ShiftedZeros(Value(init), last);
    }
  }

  lemma {:induction false} ValueZero(gs: seq<nat>)
    requires forall i | 0 <= i < |gs| :: gs[i] == 0
    ensures Value(gs) == 0
    decreases |gs|
  {
    if gs != [] {
      ValueZero(gs[..|gs| - 1]);
    }
  }

  /** How many groups at the end are zero. */
  function ZeroGroups(gs: seq<nat>): (n: nat)
    ensures n <= |gs| && (forall i | |gs| - n <= i < |gs| :: gs[i] == 0) && (n < |gs| ==> gs[|gs| - 1 - n] > 0)
  {
    if gs == [] || gs[|gs| - 1] > 0 then 0 else 1 + ZeroGroups(gs[..|gs| - 1])
  }

  /** The width of the first group. */
  function LeadWidth(first: nat): nat {
    if first >= 1000 then 4 else if first >= 100 then 3 else if first >= 10 then 2 else 1
  }

  /** The groups are 16-bit numbers. */
  predicate Words(gs: seq<nat>) {
    forall i | 0 <= i < |gs| :: gs[i] < 0x1_0000
  }

  /** count_significant_digits_binary. */
  function BinaryCount(gs: seq<nat>): (count: int)
    ensures Words(gs) ==> count >= 0
  {
    var zeros := ZeroGroups(gs);
    if zeros == |gs| then 0
    else
      var last := gs[|gs| - 1 - zeros];
      assert Words(gs) ==> TrailingZeros(last) <= 4 && TrailingZeros(last) <= LeadWidth(last) by {
        if Words(gs) {
          WordZeros(last);
        }
      }
      LeadWidth(gs[0]) + (|gs| - 1) * 4 - (zeros * 4 + TrailingZeros(last))
  }

  lemma {:induction false} WordZeros(g: nat)
    requires 0 < g < 0x1_0000
    ensures TrailingZeros(g) <= 4 && TrailingZeros(g) <= LeadWidth(g)
  {
    DigitsSplit(g);
    if g < 10000 {
      LeadWidthIs(g);
    } else {
      LeadWidthIs(g / 10);
    }
  }

  /** The loops: groups of zero at the end, then zeros of the last other group. */
  method CountBinary(gs: seq<nat>) returns (count: nat)
    requires Words(gs)
    ensures count == BinaryCount(gs)
  {
    if |gs| == 0 {
      return 0;
    }
    var total := LeadWidth(gs[0]) + (|gs| - 1) * 4;
    var zeroGroups := 0;
    while zeroGroups < |gs| && gs[|gs| - 1 - zeroGroups] == 0
      invariant 0 <= zeroGroups <= |gs|
      invariant forall i | |gs| - zeroGroups <= i < |gs| :: gs[i] == 0
    {
      zeroGroups := zeroGroups + 1;
    }
    ZeroGroupsAre(gs, zeroGroups);
    hide ZeroGroups;
    if zeroGroups == |gs| {
      return 0;
    }
    var last := gs[|gs| - 1 - zeroGroups];
    var trailing := zeroGroups * 4;
    var g := last;
    while g % 10 == 0
      invariant g > 0 && trailing + TrailingZeros(g) == zeroGroups * 4 + TrailingZeros(last)
      decreases g
    {
      trailing := trailing + 1;
      g := g / 10;
    }
    assert total - trailing == BinaryCount(gs);
    count := total - trailing;
  }

  lemma {:induction false} ZeroGroupsAre(gs: seq<nat>, n: nat)
    requires n <= |gs| && (forall i | |gs| - n <= i < |gs| :: gs[i] == 0) && (n < |gs| ==> gs[|gs| - 1 - n] > 0)
    ensures ZeroGroups(gs) == n
  {
    hide ZeroGroups;
    var m := ZeroGroups(gs);
  }

  lemma {:induction false} LeadWidthIs(g: nat)
    requires 0 < g < 10000
    ensures NumDigits(g) == LeadWidth(g)
  {
    if g >= 10 {
      LeadWidthIs(g / 10);
    }
  }

  /** The binary count is that of the represented integer exactly when the first group is not
      zero, or all are. */
  lemma {:induction false} BinaryCountExact(gs: seq<nat>)
    requires Groups(gs)
    ensures BinaryCount(gs) == SignificantDigits(Value(gs)) <==> gs == [] || gs[0] > 0 || Value(gs) == 0
  {
    var zeros := ZeroGroups(gs);
    if zeros == |gs| {
      ValueZero(gs);
    } else {
      var k := |gs| - 1 - zeros;
      ValueZeros(gs, k);
      DigitsSplit(Value(gs));
      if gs[0] > 0 {
        ValueDigits(gs);
        LeadWidthIs(gs[0]);
      } else {
        FewerDigits(gs);
      }
    }
  }

  /** With a first group of zero there are fewer digits than the width says. */
  lemma {:induction false} FewerDigits(gs: seq<nat>)
    requires Groups(gs) && gs != [] && gs[0] == 0 && Value(gs) > 0
    ensures NumDigits(Value(gs)) <= 4 * (|gs| - 1)
    decreases |gs|
  {
    var init, last := gs[..|gs| - 1], gs[|gs| - 1];
    assert |gs| > 1 by {
      if |gs| == 1 {
        ValueZero(gs);
      }
    }
    if Value(init) == 0 {
      LeadWidthIs(last);
    } else {
      FewerDigits(init);
      ShiftedDigits(Value(init), last);
    }
  }

  /** The two counts agree, for a text and groups of the same value up to where the point
      stands, exactly when the first group is not zero, or all are. */
  lemma {:induction false} FormsAgree(s: string, gs: seq<nat>, a: nat, b: nat)
    requires Groups(gs) && AllDigits(DigitsOf(s))
    requires Decimal(DigitsOf(s)) * Power10(a) == Value(gs) * Power10(b)
    ensures CountText(s) == BinaryCount(gs) <==> gs == [] || gs[0] > 0 || Value(gs) == 0
  {
    TextCount(s);
    ScaledSame(Decimal(DigitsOf(s)), a);
    ScaledSame(Value(gs), b);
    BinaryCountExact(gs);
  }

  /** They do differ: the value 5 as the groups 0 and 5. */
  lemma {:induction false} LeadingZeroGroupIsCounted()
    ensures CountText("5") == 1 && BinaryCount([0, 5]) == 5 && Value([0, 5]) == Decimal("5")
  {
    assert [0, 5][..1] == [0] && [0][..0] == [] && "5"[..0] == [] && "5"[1..] == [];
    assert Value([0]) == 0;
    assert WithoutPoints([]) == [] && NumericPart([]) == [];
    assert DigitsOf("5") == "5";
    assert DropLeading("5") == "5" && DropTrailing("5") == "5";
    assert ZeroGroups([0, 5]) == 0;
  }
}
