/**
 * JavaScript's global `parseFloat` (ECMA-262, section 21.1.2.12) on exact numbers:
 * leading white space is skipped, then the longest prefix that reads as a
 * StrDecimalLiteral (optional sign, digits with an optional fraction, optional
 * exponent) gives the value, and text with no such prefix gives NaN.
 *
 * Values are `real`, so there is no IEEE rounding; `None` stands for NaN.
 */
module JsNumber {
  import opened Wrappers
  import opened JsString

  predicate IsDigit(c: char) {
    '0' <= c <= '9'
  }

  predicate AllDigits(s: string) {
    forall k | 0 <= k < |s| :: IsDigit(s[k])
  }

  function Pow10(n: nat): (r: nat)
    ensures r >= 1
  {
    if n == 0 then 1 else 10 * Pow10(n - 1)
  }

  /** Length of the run of decimal digits at the start of `s`. */
  function DigitRun(s: string): (n: nat)
    ensures n <= |s|
  {
    if s != [] && IsDigit(s[0]) then 1 + DigitRun(s[1..]) else 0
  }

  /** The run is all digits, and it stops at the first character that is not one. */
  lemma {:induction false} DigitRunSpec(s: string)
    ensures AllDigits(s[..DigitRun(s)])
    ensures DigitRun(s) == |s| || !IsDigit(s[DigitRun(s)])
    decreases |s|
  {
    if s != [] && IsDigit(s[0]) {
      DigitRunSpec(s[1..]);
      var n := DigitRun(s);
      assert s[..n] == [s[0]] + s[1..][..n - 1];
    }
  }

  /** The value of one decimal digit. */
  function DigitVal(c: char): (v: nat)
    ensures v <= 9
  {
    if IsDigit(c) then c as int - '0' as int else 0
  }

  /** The number a string of decimal digits denotes, most significant first. */
  function DigitsValue(d: string): (v: nat)
    ensures v < Pow10(|d|)
  {
    if d == [] then 0
    else 10 * DigitsValue(d[..|d| - 1]) + DigitVal(d[|d| - 1])
  }

  /** The value of the digits after a decimal point. */
  function FracValue(f: string): (v: real)
    ensures 0.0 <= v < 1.0
  {
    if f == [] then 0.0 else (DigitVal(f[0]) as real + FracValue(f[1..])) / 10.0
  }

  /** The value of the digits `whole` `.` `frac`. */
  function DecimalValue(whole: string, frac: string): (v: real)
    ensures v >= 0.0
  {
    DigitsValue(whole) as real + FracValue(frac)
  }

  /** `v` times `10` raised to `e`, for a possibly negative exponent. */
  function ScaleBy(v: real, e: int): real
    decreases if e >= 0 then e else -e
  {
    if e == 0 then v
    else if e > 0 then ScaleBy(v * 10.0, e - 1)
    else ScaleBy(v / 10.0, e + 1)
  }

  /** The exponent at the start of `u`: `e` or `E`, an optional sign and at least one
      digit; anything less is no exponent at all, which reads as `0`. */
  function ExponentAt(u: string): int {
    if u != [] && (u[0] == 'e' || u[0] == 'E') then
      var neg := |u| > 1 && u[1] == '-';
      var i := if |u| > 1 && (u[1] == '+' || u[1] == '-') then 2 else 1;
      var n := DigitRun(u[i..]);
      if n == 0 then 0
      else
        var v: int := DigitsValue(u[i..][..n]);
        if neg then -v else v
    else 0
  }

  /** A StrUnsignedDecimalLiteral at the start of `t`: it needs a digit before or
      after the point. */
  function Unsigned(t: string): Option<real> {
    var a := DigitRun(t);
    var hasDot := a < |t| && t[a] == '.';
    var b := if hasDot then DigitRun(t[a + 1..]) else 0;
    if a == 0 && b == 0 then None
    else
      var k := if hasDot then a + 1 + b else a;
      Some(ScaleBy(DecimalValue(t[..a], if hasDot then t[a + 1..][..b] else ""), ExponentAt(t[k..])))
  }

  function Negate(x: Option<real>): Option<real> {
    match x
    case None => None
    case Some(v) => Some(-v)
  }

  /** `parseFloat(s)`. */
  function ParseFloat(s: string): Option<real> {
    var t := TrimStart(s);
    if t != [] && t[0] == '-' then Negate(Unsigned(t[1..]))
    else if t != [] && t[0] == '+' then Unsigned(t[1..])
    else Unsigned(t)
  }

  // ---------------------------------------------------------------------------
  // What parseFloat promises
  // ---------------------------------------------------------------------------

  /** `t` begins like a number: a digit, or a point followed by a digit. */
  predicate StartsNumber(t: string) {
    (t != [] && IsDigit(t[0])) || (|t| >= 2 && t[0] == '.' && IsDigit(t[1]))
  }

  /** `t` with one leading sign removed. */
  function Unsign(t: string): string {
    if t != [] && (t[0] == '-' || t[0] == '+') then t[1..] else t
  }

  lemma UnsignedNaN(t: string)
    ensures Unsigned(t).None? <==> !StartsNumber(t)
  {
    var a := DigitRun(t);
    if a == 0 && a < |t| && t[a] == '.' {
      var b := DigitRun(t[1..]);
      assert b > 0 <==> (|t| >= 2 && IsDigit(t[1]));
    }
  }

  /** NaN exactly when, after the white space and one sign, the text does not begin
      like a number. */
  lemma ParseFloatNaN(s: string)
    ensures ParseFloat(s).None? <==> !StartsNumber(Unsign(TrimStart(s)))
  {
    UnsignedNaN(Unsign(TrimStart(s)));
  }

  /** Leading white space does not matter. */
  lemma ParseFloatSpace(c: char, s: string)
    requires IsSpace(c)
    ensures ParseFloat([c] + s) == ParseFloat(s)
  {
    assert ([c] + s)[1..] == s;
  }

  /** A minus sign negates the number that follows it. */
  lemma ParseFloatMinus(s: string)
    requires s == [] || (!IsSpace(s[0]) && s[0] != '-' && s[0] != '+')
    ensures ParseFloat("-" + s) == Negate(ParseFloat(s))
  {
    assert ("-" + s)[1..] == s;
  }

  lemma {:induction false} DigitRunAll(d: string, rest: string)
    requires AllDigits(d)
    requires rest == [] || !IsDigit(rest[0])
    ensures DigitRun(d + rest) == |d|
    decreases |d|
  {
    if d != [] {
      assert (d + rest)[0] == d[0];
      assert (d + rest)[1..] == d[1..] + rest;
      DigitRunAll(d[1..], rest);
    } else {
      assert d + rest == rest;
    }
  }

  lemma NoExponent(u: string)
    requires u == [] || (u[0] != 'e' && u[0] != 'E')
    ensures ExponentAt(u) == 0
  {
  }

  lemma ParseFloatUnsigned(t: string)
    requires t != [] && IsDigit(t[0])
    ensures ParseFloat(t) == Unsigned(t)
  {
    assert TrimStart(t) == t by {
      assert !IsSpace(t[0]);
    }
    assert t[0] != '-' && t[0] != '+';
  }

  lemma UnsignedInteger(d: string, rest: string)
    requires d != [] && AllDigits(d)
    requires rest == [] || (!IsDigit(rest[0]) && rest[0] != '.' && rest[0] != 'e' && rest[0] != 'E')
    ensures Unsigned(d + rest) == Some(DecimalValue(d, ""))
  {
    var t := d + rest;
    DigitRunAll(d, rest);
    assert t[..|d|] == d;
    assert t[|d|..] == rest;
    NoExponent(rest);
  }

  lemma DecimalWhole(d: string)
    ensures DecimalValue(d, "") == DigitsValue(d) as real
  {
  }

  /** An integer literal, followed by text that cannot continue it. */
  lemma ParseFloatInteger(d: string, rest: string)
    requires d != [] && AllDigits(d)
    requires rest == [] || (!IsDigit(rest[0]) && rest[0] != '.' && rest[0] != 'e' && rest[0] != 'E')
    ensures ParseFloat(d + rest) == Some(DigitsValue(d) as real)
  {
    DecimalWhole(d);
    assert (d + rest)[0] == d[0];
    ParseFloatUnsigned(d + rest);
    UnsignedInteger(d, rest);
  }

  lemma UnsignedDecimal(d: string, f: string, rest: string)
    requires d != [] && AllDigits(d) && AllDigits(f)
    requires rest == [] || (!IsDigit(rest[0]) && rest[0] != 'e' && rest[0] != 'E')
    ensures Unsigned(d + ("." + (f + rest))) == Some(DecimalValue(d, f))
  {
    var t := d + ("." + (f + rest));
    var a := |d|;
    DigitRunAll(d, "." + (f + rest));
    assert DigitRun(t) == a;
    assert t[..a] == d;
    assert a < |t| && t[a] == '.';
    assert t[a + 1..] == f + rest;
    DigitRunAll(f, rest);
    assert DigitRun(t[a + 1..]) == |f|;
    assert t[a + 1..][..|f|] == f;
    assert t[a + 1 + |f|..] == rest;
    NoExponent(rest);
  }

  /** A literal with a decimal point, followed by text that cannot continue it. */
  lemma ParseFloatDecimal(d: string, f: string, rest: string)
    requires d != [] && AllDigits(d) && AllDigits(f)
    requires rest == [] || (!IsDigit(rest[0]) && rest[0] != 'e' && rest[0] != 'E')
    ensures ParseFloat(d + "." + f + rest) == Some(DecimalValue(d, f))
  {
    var t := d + "." + f + rest;
    assert t == d + ("." + (f + rest));
    assert t[0] == d[0];
    ParseFloatUnsigned(t);
    UnsignedDecimal(d, f, rest);
  }

  // ---------------------------------------------------------------------------
  // Worked values
  // ---------------------------------------------------------------------------

  lemma ParseFloatDecimalExample()
    ensures ParseFloat("1234.56") == Some(1234.56)
  {
    assert DecimalValue("1234", "56") == 1234.56 by {
      assert "1234"[..3] == "123" && "123"[..2] == "12" && "12"[..1] == "1" && "1"[..0] == "";
      assert "56"[1..] == "6" && "6"[1..] == "";
    }
    assert "1234" + "." + "56" + "" == "1234.56";
    ParseFloatDecimal("1234", "56", "");
  }

  lemma ParseFloatDollarsExample()
    ensures ParseFloat("500.00") == Some(500.0)
  {
    assert DecimalValue("500", "00") == 500.0 by {
      assert "500"[..2] == "50" && "50"[..1] == "5" && "5"[..0] == "";
      assert "00"[1..] == "0" && "0"[1..] == "";
    }
    assert "500" + "." + "00" + "" == "500.00";
    ParseFloatDecimal("500", "00", "");
  }

  /** A number followed by other text: only the numeric prefix counts. */
  lemma ParseFloatPrefixExample()
    ensures ParseFloat("12 shares") == Some(12.0)
  {
    assert DigitsValue("12") == 12 by {
      assert "12"[..1] == "1" && "1"[..0] == "";
    }
    assert "12" + " shares" == "12 shares";
    ParseFloatInteger("12", " shares");
  }

  /** Text that does not begin like a number is NaN. */
  lemma ParseFloatNaNExample()
    ensures ParseFloat("N/A") == None
  {
    assert !IsSpace('N');
    assert TrimStart("N/A") == "N/A";
    UnsignedNaN("N/A");
  }

  /** A sign and a point without a digit are no number either. */
  lemma ParseFloatBarePointExample()
    ensures ParseFloat("-.") == None
  {
    assert TrimStart("-.") == "-.";
    assert "-."[1..] == ".";
    UnsignedNaN(".");
  }
}
