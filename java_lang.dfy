/**
 * The few java.lang facts the helpers rely on: 32- and 64-bit integers,
 * the nullable boxed Boolean, and decimal conversion as done by
 * Integer.parseInt (radix 10) and Integer.toString.
 */
module JavaLang {
  import opened Wrappers

  const INT_MIN: int := -0x8000_0000
  const INT_MAX: int := 0x7fff_ffff

  newtype int32 = x: int | -0x8000_0000 <= x < 0x8000_0000
  newtype int64 = x: int | -0x8000_0000_0000_0000 <= x < 0x8000_0000_0000_0000

  /** A java.lang.Boolean reference: null, TRUE or FALSE. */
  datatype Boolean = NullBoolean | Boxed(b: bool)

  predicate IsDigit(c: char) {
    '0' <= c <= '9'
  }

  predicate AllDigits(s: string) {
    forall i | 0 <= i < |s| :: IsDigit(s[i])
  }

  /** The value of a string of decimal digits, most significant first. */
  function DigitsValue(s: string): nat
    requires AllDigits(s)
    decreases |s|
  {
    if s == [] then 0
    else DigitsValue(s[..|s| - 1]) * 10 + (s[|s| - 1] as int - '0' as int)
  }

  /**
   * Integer.parseInt(s): an optional '-' or '+' followed by at least one
   * decimal digit, whose value must fit in 32 bits. None stands for the
   * NumberFormatException.
   */
  function ParseInt(s: string): (r: Option<int32>)
    ensures r.Some? ==> |s| > 0 && IsDigit(s[|s| - 1])
    ensures r.Some? && r.value < 0 ==> s[0] == '-'
    ensures |s| > 0 && AllDigits(s) ==> (r.Some? <==> DigitsValue(s) <= INT_MAX)
    ensures |s| > 0 && AllDigits(s) && r.Some? ==> r.value as int == DigitsValue(s)
  {
    if |s| == 0 then None
    else
      var digits := if s[0] == '-' || s[0] == '+' then s[1..] else s;
      if |digits| == 0 || !AllDigits(digits) then None
      else
        var magnitude: int := DigitsValue(digits);
        var n := if s[0] == '-' then -magnitude else magnitude;
        if INT_MIN <= n <= INT_MAX then Some(n as int32) else None
  }

  function DigitChar(d: nat): (c: char)
    requires d < 10
    ensures IsDigit(c) && c as int - '0' as int == d
  {
    ('0' as int + d) as char
  }

  /** Integer.toString(n) for a non-negative n: no sign, no leading zeros. */
  function DecimalString(n: nat): (s: string)
    ensures |s| > 0 && AllDigits(s)
    ensures n > 0 ==> s[0] != '0'
    decreases n
  {
    if n < 10 then [DigitChar(n)] else DecimalString(n / 10) + [DigitChar(n % 10)]
  }

  lemma {:induction false} DecimalStringValue(n: nat)
    ensures DigitsValue(DecimalString(n)) == n
    decreases n
  {
    if n >= 10 {
      var s := DecimalString(n / 10);
      var t := s + [DigitChar(n % 10)];
      assert t[..|t| - 1] == s;
      DecimalStringValue(n / 10);
    }
  }

  /** parseInt(toString(n)) == n, and values beyond Integer.MAX_VALUE are rejected. */
  lemma ParseIntOfDecimal(n: nat)
    ensures ParseInt(DecimalString(n)) == if n <= INT_MAX then Some(n as int32) else None
  {
    DecimalStringValue(n);
  }

  /** A leading '-' negates; -2^31 is accepted, anything below is rejected. */
  lemma ParseIntOfNegatedDecimal(n: nat)
    ensures ParseInt("-" + DecimalString(n)) == if n <= -INT_MIN then Some((-(n as int)) as int32) else None
  {
    DecimalStringValue(n);
    var s := "-" + DecimalString(n);
    assert s[1..] == DecimalString(n);
  }

  /** A leading '+' is accepted and does not change the value. */
  lemma ParseIntPlusSign(t: string)
    requires |t| == 0 || (t[0] != '-' && t[0] != '+')
    ensures ParseInt("+" + t) == ParseInt(t)
  {
    var s := "+" + t;
    assert s[1..] == t;
  }

  /** Concrete parses of the unit tests' index texts. */
  lemma ParseIntExamples()
    ensures ParseInt("1") == Some(1) && ParseInt("58") == Some(58) && ParseInt("-1") == Some(-1)
    ensures ParseInt("foo") == None && ParseInt("0xAF2") == None && ParseInt("") == None
  {
    assert "1"[..0] == "" && DigitsValue("1") == 1;
    assert "58"[..1] == "5" && "5"[..0] == "" && DigitsValue("5") == 5 && DigitsValue("58") == 58;
    assert "-1"[1..] == "1";
    assert !IsDigit("0xAF2"[1]) && !IsDigit("foo"[0]);
  }

  /** Integer.parseInt accepts a '+' sign, leading zeros and "-0". */
  lemma ParseIntSignExamples()
    ensures ParseInt("+3") == Some(3) && ParseInt("007") == Some(7) && ParseInt("-0") == Some(0)
  {
    assert "+3"[1..] == "3" && "3"[..0] == "" && DigitsValue("3") == 3;
    assert "007"[..2] == "00" && "00"[..1] == "0" && "0"[..0] == "";
    assert DigitsValue("0") == 0 && DigitsValue("00") == 0 && DigitsValue("007") == 7;
    assert "-0"[1..] == "0";
  }
}
