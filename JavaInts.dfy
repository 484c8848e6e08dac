/**
 * Java's fixed-width integers and their decimal text: the wrap-around of int and long arithmetic,
 * the saturating (int)/(long) casts of a double, truncating division, Integer.toString (which is
 * also what String.format's "%d" and string concatenation print) and Integer.parseInt.
 */
module JavaInts {
  import opened Wrappers

  const INT_MIN: int := -0x8000_0000
  const INT_MAX: int := 0x7fff_ffff
  const LONG_MIN: int := -0x8000_0000_0000_0000
  const LONG_MAX: int := 0x7fff_ffff_ffff_ffff

  type Int32 = x: int | -0x8000_0000 <= x <= 0x7fff_ffff
  type Int64 = x: int | -0x8000_0000_0000_0000 <= x <= 0x7fff_ffff_ffff_ffff
  /** Java's signed byte. */
  type JavaByte = x: int | -128 <= x <= 127

  /** The int result of an int expression whose exact value is x (two's-complement wrap-around). */
  function Wrap32(x: int): (r: Int32)
    ensures (r - x) % 0x1_0000_0000 == 0
    ensures INT_MIN <= x <= INT_MAX ==> r == x
  {
    var r := (x - INT_MIN) % 0x1_0000_0000 + INT_MIN;
    assert r - x == -((x - INT_MIN) / 0x1_0000_0000) * 0x1_0000_0000;
    r
  }

  /** The long result of a long expression whose exact value is x. */
  function Wrap64(x: int): (r: Int64)
    ensures (r - x) % 0x1_0000_0000_0000_0000 == 0
    ensures LONG_MIN <= x <= LONG_MAX ==> r == x
  {
    var r := (x - LONG_MIN) % 0x1_0000_0000_0000_0000 + LONG_MIN;
    assert r - x == -((x - LONG_MIN) / 0x1_0000_0000_0000_0000) * 0x1_0000_0000_0000_0000;
    r
  }

  /** The (int) cast of an integral double: values outside the int range saturate. */
  function SaturateInt(x: int): (r: Int32)
    ensures INT_MIN <= x <= INT_MAX ==> r == x
    ensures x < INT_MIN ==> r == INT_MIN
    ensures x > INT_MAX ==> r == INT_MAX
  {
    if x < INT_MIN then INT_MIN else if x > INT_MAX then INT_MAX else x
  }

  /** Java's `/` on integers: the quotient truncated toward zero. */
  function Quot(a: int, b: int): (q: int)
    requires b != 0
    ensures a >= 0 && b > 0 ==> q == a / b
    ensures a < 0 && b > 0 ==> q == -((-a) / b)
  {
    var m := (if a < 0 then -a else a) / (if b < 0 then -b else b);
    if (a < 0) != (b < 0) then -m else m
  }

  predicate IsDigit(c: char) { '0' <= c <= '9' }

  predicate AllDigits(s: string) { forall i :: 0 <= i < |s| ==> IsDigit(s[i]) }

  function DigitChar(d: nat): (c: char)
    requires d < 10
    ensures IsDigit(c) && DigitValue(c) == d
  {
    ('0' as int + d) as char
  }

  function DigitValue(c: char): nat
    requires IsDigit(c)
  {
    c as int - '0' as int
  }

  /** Integer.toString of a non-negative value: its shortest decimal form. */
  function NatToDecimal(n: nat): (s: string)
    ensures |s| >= 1 && AllDigits(s)
    ensures |s| == 1 <==> n < 10
    decreases n
  {
    if n < 10 then [DigitChar(n)] else NatToDecimal(n / 10) + [DigitChar(n % 10)]
  }

  /** Integer.toString / Long.toString / "%d": a '-' for negative values, then the digits of the magnitude. */
  function IntToDecimal(i: int): (s: string)
    ensures |s| >= 1
    ensures s[0] == '-' <==> i < 0
    ensures forall k :: 1 <= k < |s| ==> IsDigit(s[k])
  {
    if i < 0 then "-" + NatToDecimal(-i) else NatToDecimal(i)
  }

  /** The value a string of decimal digits denotes (leading zeros allowed). */
  function DecimalValue(s: string): nat
    requires AllDigits(s)
    decreases |s|
  {
    if s == [] then 0 else DecimalValue(s[..|s| - 1]) * 10 + DigitValue(s[|s| - 1])
  }

  lemma {:induction false} NatDecimalRoundTrip(n: nat)
    ensures DecimalValue(NatToDecimal(n)) == n
    decreases n
  {
    if n >= 10 {
      NatDecimalRoundTrip(n / 10);
      var s := NatToDecimal(n);
      assert s[..|s| - 1] == NatToDecimal(n / 10);
    }
  }

  /** Decimal text is injective: two ints print the same only when they are equal. */
  lemma IntToDecimalInjective(a: int, b: int)
    requires IntToDecimal(a) == IntToDecimal(b)
    ensures a == b
  {
    if a < 0 {
      assert IntToDecimal(a)[1..] == NatToDecimal(-a);
      assert IntToDecimal(b)[1..] == NatToDecimal(-b);
      NatDecimalRoundTrip(-a);
      NatDecimalRoundTrip(-b);
    } else {
      NatDecimalRoundTrip(a);
      NatDecimalRoundTrip(b);
    }
  }

  /**
   * Integer.parseInt (radix 10): an optional '-' or '+', then at least one ASCII digit, with a
   * value in int range; anything else (empty text, blanks, other characters, overflow) is a
   * NumberFormatException, modelled as None. The non-ASCII decimal digits Integer.parseInt also
   * accepts are read as other characters here.
   */
  function ParseInt(s: string): (r: Option<Int32>)
    ensures r.Some? ==> |s| >= 1 && (IsDigit(s[0]) || s[0] == '-' || s[0] == '+')
    ensures r.Some? ==> forall k :: 1 <= k < |s| ==> IsDigit(s[k])
  {
    if |s| == 0 then None
    else
      var digits := if s[0] == '-' || s[0] == '+' then s[1..] else s;
      if |digits| == 0 || !AllDigits(digits) then None
      else
        var v := if s[0] == '-' then -(DecimalValue(digits) as int) else DecimalValue(digits) as int;
        if INT_MIN <= v <= INT_MAX then Some(v) else None
  }

  /** parseInt reads a sign followed by digits as the signed value of the digits. */
  lemma ParseSignedDigits(s: string, digits: string, negative: bool)
    requires |digits| >= 1 && AllDigits(digits)
    requires s == (if negative then "-" else "") + digits
    requires INT_MIN <= (if negative then -(DecimalValue(digits) as int) else DecimalValue(digits) as int) <= INT_MAX
    ensures ParseInt(s) == Some(if negative then -(DecimalValue(digits) as int) else DecimalValue(digits) as int)
  {
    if negative {
      assert s[0] == '-' && s[1..] == digits;
    } else {
      assert s == digits && IsDigit(s[0]);
    }
  }

  /** Integer.parseInt(Integer.toString(i)) == i for every int. */
  lemma ParseIntOfDecimal(i: Int32)
    ensures ParseInt(IntToDecimal(i)) == Some(i)
  {
    if i < 0 {
      var m: nat := -(i as int);
      NatDecimalRoundTrip(m);
      ParseSignedDigits(IntToDecimal(i), NatToDecimal(m), true);
    } else {
      NatDecimalRoundTrip(i);
      ParseSignedDigits(IntToDecimal(i), NatToDecimal(i), false);
    }
  }
}
