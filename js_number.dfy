/** JavaScript's `Number(string)` conversion, restricted to decimal
    integers, and the decimal rendering it inverts. */
module JsNumber {
  import opened Wrappers
  import opened JsString

  predicate IsDigit(c: char) { '0' <= c <= '9' }

  predicate AllDigits(s: string) {
    forall k :: 0 <= k < |s| ==> IsDigit(s[k])
  }

  function DigitValue(c: char): nat
    requires IsDigit(c)
  {
    c as int - '0' as int
  }

  /** The value of a string of decimal digits, most significant first. */
  function DigitsValue(s: string): nat
    requires AllDigits(s)
  {
    if s == [] then 0 else DigitsValue(s[..|s| - 1]) * 10 + DigitValue(s[|s| - 1])
  }

  function ParseUnsigned(s: string): Option<int> {
    if s != [] && AllDigits(s) then Some(DigitsValue(s)) else None
  }

  /** `Number(s)` for a string: surrounding white space is ignored, the empty
      string is 0, an optional sign may precede the digits, and anything else
      is NaN (`None`). */
  function ParseNumber(s: string): Option<int> {
    ParseSigned(Trim(s))
  }

  /** `Number` on a string already stripped of white space. */
  function ParseSigned(t: string): Option<int> {
    if t == [] then Some(0)
    else if t[0] == '-' then
      match ParseUnsigned(t[1..])
      case Some(v) => Some(-v)
      case None => None
    else if t[0] == '+' then ParseUnsigned(t[1..])
    else ParseUnsigned(t)
  }

  function DigitChar(d: nat): (c: char)
    requires d < 10
    ensures IsDigit(c) && DigitValue(c) == d
  {
    ('0' as int + d) as char
  }

  /** The decimal rendering of a natural number, without leading zeros. */
  function NatToString(n: nat): (r: string)
    ensures r != [] && AllDigits(r)
  {
    if n < 10 then [DigitChar(n)] else NatToString(n / 10) + [DigitChar(n % 10)]
  }

  /** The decimal rendering of an integer, as `String(i)` writes it. */
  function IntToString(i: int): string {
    if i < 0 then "-" + NatToString(-i) else NatToString(i)
  }

  lemma {:induction false} NatToStringValue(n: nat)
    ensures DigitsValue(NatToString(n)) == n
  {
    if n >= 10 {
      var r := NatToString(n);
      assert r[..|r| - 1] == NatToString(n / 10);
      NatToStringValue(n / 10);
    }
  }

  /** A rendering has no white space at either end. */
  lemma IntToStringTrimmed(i: int)
    ensures IsTrimmed(IntToString(i))
  {
    var s := IntToString(i);
    var digits := NatToString(if i < 0 then -i else i);
    assert s[|s| - 1] == digits[|digits| - 1];
    assert IsDigit(s[|s| - 1]);
    assert s[0] == '-' || s[0] == digits[0];
  }

  lemma ParseUnsignedOfRendering(n: nat)
    ensures ParseUnsigned(NatToString(n)) == Some(n)
  {
    NatToStringValue(n);
  }

  /** Reading back the decimal rendering of any integer gives that integer. */
  lemma ParseNumberRoundTrip(i: int)
    ensures ParseNumber(IntToString(i)) == Some(i)
  {
    IntToStringTrimmed(i);
    TrimOfTrimmed(IntToString(i));
    ParseSignedOfRendering(i);
  }

  lemma ParseSignedOfRendering(i: int)
    ensures ParseSigned(IntToString(i)) == Some(i)
  {
    var s := IntToString(i);
    if i < 0 {
      var digits := NatToString(-i);
      assert s[1..] == digits;
      ParseUnsignedOfRendering(-i);
    } else {
      assert IsDigit(s[0]);
      ParseUnsignedOfRendering(i);
    }
  }
}
