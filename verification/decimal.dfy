/** Decimal text of integers, as JavaScript prints numbers that hold whole values. */
module Decimal {
  import opened Optional

  predicate IsDigit(c: char) {
    '0' <= c <= '9'
  }

  predicate AllDigits(s: string) {
    forall i | 0 <= i < |s| :: IsDigit(s[i])
  }

  function DigitValue(c: char): nat
    requires IsDigit(c)
  {
    (c as int) - ('0' as int)
  }

  function DigitChar(d: nat): (c: char)
    requires d < 10
    ensures IsDigit(c) && DigitValue(c) == d
  {
    (('0' as int) + d) as char
  }

  /** The decimal digits of `n`, most significant first, without leading zeros. */
  function NatToString(n: nat): (s: string)
    ensures |s| >= 1 && AllDigits(s)
    ensures s[0] == '0' ==> n == 0
    decreases n
  {
    if n < 10 then [DigitChar(n)] else NatToString(n / 10) + [DigitChar(n % 10)]
  }

  /** The number a string of decimal digits denotes (the empty string denotes 0). */
  function StringToNat(s: string): nat
    requires AllDigits(s)
    decreases |s|
  {
    if |s| == 0 then 0 else StringToNat(s[..|s| - 1]) * 10 + DigitValue(s[|s| - 1])
  }

  lemma {:induction false} NatStringRoundTrip(n: nat)
    ensures StringToNat(NatToString(n)) == n
    decreases n
  {
    if n >= 10 {
      var s := NatToString(n);
      assert s[..|s| - 1] == NatToString(n / 10);
      NatStringRoundTrip(n / 10);
    }
  }

  /** `String(i)` for an integer-valued number: an optional minus sign, then the digits. */
  function IntToString(i: int): string {
    if i < 0 then "-" + NatToString(-i) else NatToString(i)
  }

  /** Three digits, zero-padded on the left. */
  function Pad3(k: nat): (s: string)
    requires k < 1000
    ensures |s| == 3 && AllDigits(s)
  {
    [DigitChar(k / 100), DigitChar(k / 10 % 10), DigitChar(k % 10)]
  }

  lemma Pad3Value(k: nat)
    requires k < 1000
    ensures StringToNat(Pad3(k)) == k
  {
    var s := Pad3(k);
    assert s[..2][..1] == s[..1];
    assert StringToNat(s[..1]) == k / 100;
    assert StringToNat(s[..2]) == (k / 100) * 10 + k / 10 % 10;
    assert k / 10 == (k / 100) * 10 + k / 10 % 10;
    assert k == (k / 10) * 10 + k % 10;
  }

  /** Text of `m` thousandths without a sign: the whole part, a point and three digits. */
  function UnsignedFixed3(m: nat): string {
    NatToString(m / 1000) + "." + Pad3(m % 1000)
  }

  /**
   * `(n / 1000).toFixed(3)` for an integer `n`: the value `n` thousandths printed with exactly
   * three fractional digits and a leading minus sign when negative.
   */
  function MilliToFixed3(n: int): string {
    if n < 0 then "-" + UnsignedFixed3(-n) else UnsignedFixed3(n)
  }

  /** Reads back text of the form `digits.ddd` as a whole number of thousandths. */
  function ParseUnsigned3(body: string): Option<nat> {
    if |body| >= 5 && body[|body| - 4] == '.'
       && AllDigits(body[..|body| - 4]) && AllDigits(body[|body| - 3..])
    then Some(StringToNat(body[..|body| - 4]) * 1000 + StringToNat(body[|body| - 3..]))
    else None
  }

  /** Reads back text of the form `[-]digits.ddd` as a whole number of thousandths. */
  function ParseFixed3(s: string): Option<int> {
    if |s| > 0 && s[0] == '-' then
      match ParseUnsigned3(s[1..])
      case Some(m) => var v: int := 0 - (m as int); Some(v)
      case None => None
    else
      match ParseUnsigned3(s)
      case Some(m) => var v: int := m; Some(v)
      case None => None
  }

  lemma {:induction false} Unsigned3RoundTrip(m: nat)
    ensures ParseUnsigned3(UnsignedFixed3(m)) == Some(m)
  {
    var whole := NatToString(m / 1000);
    var body := UnsignedFixed3(m);
    assert body[..|body| - 4] == whole;
    assert body[|body| - 3..] == Pad3(m % 1000);
    NatStringRoundTrip(m / 1000);
    Pad3Value(m % 1000);
  }

  /** The printed balance determines the balance: no two thousandth amounts print alike. */
  lemma {:induction false} Fixed3RoundTrip(n: int)
    ensures ParseFixed3(MilliToFixed3(n)) == Some(n)
  {
    if n < 0 {
      var s := MilliToFixed3(n);
      assert s[1..] == UnsignedFixed3(-n);
      Unsigned3RoundTrip(-n);
    } else {
      var s := UnsignedFixed3(n);
      assert s[0] == NatToString(n / 1000)[0];
      Unsigned3RoundTrip(n);
    }
  }

  lemma Fixed3Injective(a: int, b: int)
    requires MilliToFixed3(a) == MilliToFixed3(b)
    ensures a == b
  {
    Fixed3RoundTrip(a);
    Fixed3RoundTrip(b);
  }
}
