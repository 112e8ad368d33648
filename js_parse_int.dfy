/** The expression `parseInt(v, 10) || 0` that the style scanner applies to
    the computed `z-index`, `bottom` and `right` values, following the
    ECMAScript definition of `parseInt` (section 19.2.5 of ECMA-262): skip
    leading white space, read an optional sign, read the longest run of
    decimal digits; no digits at all gives NaN.  `|| 0` then turns the falsy
    results NaN, 0 and -0 into 0.

    Here NaN is `None`, and -0 is folded into 0, which `|| 0` does anyway. */
module JsParseInt {

  datatype Option<T> = None | Some(value: T)

  /** StrWhiteSpaceChar of ECMA-262: the white space and line terminator
      code points, including every space separator (category Zs). */
  predicate IsStrWhiteSpace(c: char) {
    c == '\t' || c == '\n' || c == '\U{B}' || c == '\U{C}' || c == '\r' || c == ' ' ||
    c == '\U{A0}' || c == '\U{1680}' || ('\U{2000}' <= c <= '\U{200A}') ||
    c == '\U{2028}' || c == '\U{2029}' || c == '\U{202F}' || c == '\U{205F}' ||
    c == '\U{3000}' || c == '\U{FEFF}'
  }

  predicate IsDecimalDigit(c: char) {
    '0' <= c <= '9'
  }

  predicate AllDigits(s: string) {
    forall i :: 0 <= i < |s| ==> IsDecimalDigit(s[i])
  }

  function DigitValue(c: char): (d: nat)
    requires IsDecimalDigit(c)
    ensures d <= 9
  {
    c as int - '0' as int
  }

  function DigitChar(d: nat): (c: char)
    requires d <= 9
    ensures IsDecimalDigit(c) && DigitValue(c) == d
  {
    ('0' as int + d) as char
  }

  /** `s` without its leading white space. */
  function TrimStart(s: string): (r: string)
    ensures |r| <= |s|
    ensures r == [] || !IsStrWhiteSpace(r[0])
  {
    if s != [] && IsStrWhiteSpace(s[0]) then TrimStart(s[1..]) else s
  }

  /** The longest prefix of `s` made of decimal digits. */
  function LeadingDigits(s: string): (r: string)
    ensures r <= s && AllDigits(r)
    ensures |r| == |s| || !IsDecimalDigit(s[|r|])
  {
    if s != [] && IsDecimalDigit(s[0]) then [s[0]] + LeadingDigits(s[1..]) else []
  }

  /** The number a run of decimal digits denotes, most significant first. */
  function DigitsValue(ds: string): nat
    requires AllDigits(ds)
  {
    if ds == [] then 0 else DigitsValue(ds[..|ds| - 1]) * 10 + DigitValue(ds[|ds| - 1])
  }

  /** `parseInt(s, 10)`: `None` stands for NaN. */
  function ParseInt(s: string): Option<int> {
    var t := TrimStart(s);
    var digits := LeadingDigits(Unsigned(t));
    if digits == [] then None
    else
      var magnitude: int := DigitsValue(digits);
      Some(if t[0] == '-' then -magnitude else magnitude)
  }

  /** The text after an optional leading sign. */
  function Unsigned(t: string): (r: string)
    ensures r == t || (t != [] && (t[0] == '+' || t[0] == '-') && r == t[1..])
  {
    if t != [] && (t[0] == '+' || t[0] == '-') then t[1..] else t
  }

  /** No decimal digit follows the leading white space and optional sign. */
  predicate NoLeadingDigit(s: string) {
    var t := Unsigned(TrimStart(s));
    t == [] || !IsDecimalDigit(t[0])
  }

  /** `n` is the integer the start of `s` spells: the value of the digits
      after white space and an optional sign, negative only after a `-` and
      a nonzero digit run, and 0 when there is no digit at all. */
  predicate ReadsAs(s: string, n: int) {
    var t := TrimStart(s);
    var magnitude: int := DigitsValue(LeadingDigits(Unsigned(t)));
    (n == magnitude || n == -magnitude) &&
    (n < 0 <==> t != [] && t[0] == '-' && magnitude > 0)
  }

  /** `parseInt(s, 10) || 0`. */
  function ParseIntOrZero(s: string): (r: int)
    ensures NoLeadingDigit(s) ==> r == 0
    ensures ReadsAs(s, r)
  {
    match ParseInt(s)
    case None => 0
    case Some(v) => v
  }

  /** Decimal numeral of a natural number, without leading zeros. */
  function NatToDecimal(n: nat): (s: string)
    ensures s != [] && AllDigits(s)
  {
    if n < 10 then [DigitChar(n)] else NatToDecimal(n / 10) + [DigitChar(n % 10)]
  }

  /** Decimal numeral of an integer, with `-` for negative values: the way a
      computed style serialises an integer (a `z-index`), and the number in
      front of the unit of a length such as `20px`. */
  function IntToDecimal(i: int): string {
    if i < 0 then "-" + NatToDecimal(-i) else NatToDecimal(i)
  }

  lemma {:induction false} NatToDecimalValue(n: nat)
    ensures DigitsValue(NatToDecimal(n)) == n
  {
    if n >= 10 {
      var s := NatToDecimal(n);
      assert s[..|s| - 1] == NatToDecimal(n / 10);
      NatToDecimalValue(n / 10);
    }
  }

  /** Reading digits stops exactly where the digits stop. */
  lemma {:induction false} LeadingDigitsOfNumeral(ds: string, rest: string)
    requires AllDigits(ds)
    requires rest == [] || !IsDecimalDigit(rest[0])
    ensures LeadingDigits(ds + rest) == ds
  {
    if ds != [] {
      assert (ds + rest)[1..] == ds[1..] + rest;
      LeadingDigitsOfNumeral(ds[1..], rest);
    }
  }

  /** `parseInt` reads back an integer written in decimal, whatever unit
      (`px`, `%`, ...) or other non-digit text follows it. */
  lemma ParseIntRoundTrip(i: int, unit: string)
    requires unit == [] || !IsDecimalDigit(unit[0])
    ensures ParseInt(IntToDecimal(i) + unit) == Some(i)
    ensures ParseIntOrZero(IntToDecimal(i) + unit) == i
  {
    var n: nat := if i < 0 then -i else i;
    var ds := NatToDecimal(n);
    var s := ds + unit;
    NumeralThenUnit(n, unit);
    if i < 0 {
      assert IntToDecimal(i) == "-" + ds;
      assert ("-" + ds) + unit == ['-'] + s;
      ParseIntSigned(s);
    } else {
      assert IntToDecimal(i) == ds;
      ParseIntUnsigned(s);
    }
  }

  /** The digits of a numeral followed by a unit are the numeral's. */
  lemma NumeralThenUnit(n: nat, unit: string)
    requires unit == [] || !IsDecimalDigit(unit[0])
    ensures var s := NatToDecimal(n) + unit;
      s != [] && IsDecimalDigit(s[0]) && DigitsValue(LeadingDigits(s)) == n
  {
    var ds := NatToDecimal(n);
    var s := ds + unit;
    assert s[0] == ds[0];
    NatToDecimalValue(n);
    LeadingDigitsOfNumeral(ds, unit);
  }

  lemma ParseIntUnsigned(s: string)
    requires s != [] && IsDecimalDigit(s[0])
    ensures ParseInt(s) == Some(DigitsValue(LeadingDigits(s)))
  {
    assert !IsStrWhiteSpace(s[0]);
    assert TrimStart(s) == s;
    assert Unsigned(s) == s;
  }

  lemma ParseIntSigned(s: string)
    requires s != [] && IsDecimalDigit(s[0])
    ensures ParseInt(['-'] + s) == Some(0 - DigitsValue(LeadingDigits(s)))
  {
    var t := ['-'] + s;
    assert !IsStrWhiteSpace(t[0]);
    assert TrimStart(t) == t;
    assert Unsigned(t) == s;
  }

  /** `parseInt` gives NaN exactly when no digit follows the leading white
      space and optional sign; otherwise it gives the integer spelled there. */
  lemma ParseIntNaN(s: string)
    ensures ParseInt(s).None? <==> NoLeadingDigit(s)
    ensures ParseInt(s).Some? ==> ReadsAs(s, ParseInt(s).value)
  {
  }

  /** Leading white space is ignored. */
  lemma ParseIntSkipsWhiteSpace(c: char, s: string)
    requires IsStrWhiteSpace(c)
    ensures ParseInt([c] + s) == ParseInt(s)
  {
    assert ([c] + s)[1..] == s;
  }

  /** A value that does not start (after white space and a sign) with a
      digit, such as `auto`, reads as 0. */
  lemma NoDigitsReadsAsZero(s: string)
    requires NoLeadingDigit(s)
    ensures ParseInt(s) == None && ParseIntOrZero(s) == 0
  {
  }

  /** A length of zero pixels reads as 0. */
  lemma ZeroPixelsReadsAsZero()
    ensures ParseIntOrZero("0px") == 0
  {
    assert IntToDecimal(0) == "0" by { assert DigitChar(0) == '0'; }
    assert IntToDecimal(0) + "px" == "0px";
    ParseIntRoundTrip(0, "px");
  }

  /** `parseInt` truncates at the first non-digit, so a fractional length
      below one pixel, such as `0.5px`, reads as 0. */
  lemma FractionTruncates(digit: char, rest: string)
    requires IsDecimalDigit(digit)
    ensures ParseIntOrZero("0." + [digit] + rest) == 0
  {
    var s := "0." + [digit] + rest;
    assert LeadingDigits(s[1..]) == [] by { assert s[1] == '.'; }
    assert LeadingDigits(s) == "0";
    assert DigitsValue("0") == 0 by { assert "0"[..0] == []; }
  }
}
