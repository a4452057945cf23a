/** The decimal-number grammar of Python's `float()` for finite values written
    without digit separators: an optional sign, digits with an optional
    fraction (at least one digit in all), and an optional exponent. */
module Decimal {
  import opened Wrappers
  import opened Text
  import opened Numbers

  /** The index of the first exponent marker `e` or `E`, if any. */
  function ExponentAt(s: string): (r: Option<nat>)
    ensures r.None? ==> 'e' !in s && 'E' !in s
    ensures r.Some? ==> r.value < |s| && (s[r.value] == 'e' || s[r.value] == 'E')
  {
    if |s| == 0 then None
    else if s[0] == 'e' || s[0] == 'E' then Some(0)
    else
      match ExponentAt(s[1..])
      case None => None
      case Some(i) => Some(i + 1)
  }

  /** An optional sign in front of the rest: its direction and the unsigned part. */
  function SplitSign(s: string): (bool, string) {
    if |s| > 0 && (s[0] == '+' || s[0] == '-') then (s[0] == '-', s[1..]) else (false, s)
  }

  /** `digits`, `digits.`, `digits.digits` or `.digits`. */
  function ParseMantissa(m: string): (r: Option<real>)
    ensures r.Some? ==> r.value >= 0.0
  {
    match IndexOf(m, '.')
    case None =>
      if |m| > 0 && AllDigits(m) then Some(DigitsValue(m) as real) else None
    case Some(d) =>
      var ip := m[..d];
      var fp := m[d + 1..];
      if |ip| + |fp| > 0 && AllDigits(ip) && AllDigits(fp) then
        Some(DigitsValue(ip) as real + DigitsValue(fp) as real / Pow10(|fp|))
      else None
  }

  /** An exponent: an optional sign followed by at least one digit. */
  function ParseExponent(e: string): Option<int> {
    var (neg, digits) := SplitSign(e);
    if |digits| > 0 && AllDigits(digits) then
      Some(if neg then -(DigitsValue(digits) as int) else DigitsValue(digits) as int)
    else None
  }

  function Scale10(x: real, e: int): real {
    if e >= 0 then x * Pow10(e) else x / Pow10(-e)
  }

  /** `float(s)` for a string already stripped of surrounding whitespace;
      `None` where Python raises `ValueError`. */
  function ParseDecimal(s: string): Option<real> {
    var (neg, body) := SplitSign(s);
    var magnitude :=
      match ExponentAt(body)
      case None => ParseMantissa(body)
      case Some(k) =>
        match (ParseMantissa(body[..k]), ParseExponent(body[k + 1..]))
        case (Some(m), Some(e)) => Some(Scale10(m, e))
        case _ => None;
    match magnitude
    case None => None
    case Some(v) => Some(if neg then -v else v)
  }

  /** A non-empty string of digits reads as the number it spells. */
  lemma ParseDigits(s: string)
    requires |s| >= 1 && AllDigits(s)
    ensures ParseDecimal(s) == Some(DigitsValue(s) as real)
  {
    assert SplitSign(s) == (false, s) by {
      assert IsDigit(s[0]);
    }
    assert ExponentAt(s).None? by {
      assert forall k :: 0 <= k < |s| ==> IsDigit(s[k]);
    }
    assert IndexOf(s, '.').None? by {
      assert forall k :: 0 <= k < |s| ==> IsDigit(s[k]);
    }
  }

  /** The decimal rendering of a natural number reads back as that number. */
  lemma ParseNatString(n: nat)
    ensures ParseDecimal(NatToString(n)) == Some(n as real)
  {
    NatToStringRoundTrip(n);
    ParseDigits(NatToString(n));
  }

  /** A string without any digit is not a number. */
  lemma NoDigitsNoNumber(s: string)
    requires forall k :: 0 <= k < |s| ==> !IsDigit(s[k])
    ensures ParseDecimal(s) == None
  {
    var (neg, body) := SplitSign(s);
    assert forall k :: 0 <= k < |body| ==> !IsDigit(body[k]);
    match ExponentAt(body)
    case None =>
    case Some(k) =>
      assert forall j :: 0 <= j < k ==> body[..k][j] == body[j];
  }
}
