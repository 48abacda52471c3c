/**
 * JavaScript's global `parseInt` (without a radix argument) and
 * `parseFloat`, on exact integers and reals.  `None` stands for `NaN`.
 */
module JsNumber {
  import opened Wrappers
  import opened JsString

  predicate IsDecimalDigit(c: char) {
    '0' <= c <= '9'
  }

  /** A digit of radix 16 when `hex` holds, of radix 10 otherwise. */
  predicate IsDigit(c: char, hex: bool) {
    IsDecimalDigit(c) || (hex && ('a' <= c <= 'f' || 'A' <= c <= 'F'))
  }

  function DigitValue(c: char): (v: nat)
    ensures IsDecimalDigit(c) ==> v < 10
    ensures v < 16
  {
    if IsDecimalDigit(c) then c as int - '0' as int
    else if 'a' <= c <= 'f' then c as int - 'a' as int + 10
    else if 'A' <= c <= 'F' then c as int - 'A' as int + 10
    else 0
  }

  function DecimalChar(d: nat): (c: char)
    requires d < 10
    ensures IsDecimalDigit(c) && DigitValue(c) == d
  {
    ('0' as int + d) as char
  }

  /** The value of a digit string, most significant digit first. */
  function DigitsValue(ds: string, hex: bool): nat
    decreases |ds|
  {
    if |ds| == 0 then 0
    else if hex then DigitsValue(ds[..|ds| - 1], hex) * 16 + DigitValue(ds[|ds| - 1])
    else DigitsValue(ds[..|ds| - 1], hex) * 10 + DigitValue(ds[|ds| - 1])
  }

  /** The length of the run of digits at the start of `s`. */
  function DigitRun(s: string, hex: bool): (n: nat)
    ensures n <= |s|
    ensures forall k :: 0 <= k < n ==> IsDigit(s[k], hex)
    ensures n < |s| ==> !IsDigit(s[n], hex)
    decreases |s|
  {
    if |s| > 0 && IsDigit(s[0], hex) then 1 + DigitRun(s[1..], hex) else 0
  }

  /** Multiplication by ten to the power `e`, for a positive or negative `e`. */
  function Scale(x: real, e: int): (r: real)
    ensures x >= 0.0 ==> r >= 0.0
    decreases if e >= 0 then e else -e
  {
    if e == 0 then x
    else if e > 0 then 10.0 * Scale(x, e - 1)
    else Scale(x, e + 1) / 10.0
  }

  /** The value of the fraction digits `ds` written after a decimal point: 0.d1d2... */
  function FractionValue(ds: string): (r: real)
    ensures 0.0 <= r
    decreases |ds|
  {
    if |ds| == 0 then 0.0 else (DigitValue(ds[0]) as real + FractionValue(ds[1..])) / 10.0
  }

  /** Leading white space skipped, then a '+' or '-' sign, if any, skipped. */
  function Unsigned(s: string): (u: string)
    ensures |u| <= |s|
  {
    var t := TrimStart(s);
    if |t| > 0 && (t[0] == '-' || t[0] == '+') then t[1..] else t
  }

  /** The number text, after white space, starts with a minus sign. */
  predicate IsNegated(s: string) {
    var t := TrimStart(s);
    |t| > 0 && t[0] == '-'
  }

  /** The text after the sign starts with "0x" or "0X", which selects radix 16. */
  predicate HasHexPrefix(u: string) {
    |u| >= 2 && u[0] == '0' && (u[1] == 'x' || u[1] == 'X')
  }

  /**
   * `parseInt(s)`: white space, an optional sign, an optional "0x" prefix,
   * then the longest run of digits; no digit at all gives `NaN`.
   */
  function ParseInt(s: string): (r: Option<int>)
    ensures r.Some? ==> |Unsigned(s)| > 0 && IsDecimalDigit(Unsigned(s)[0])
    ensures |Unsigned(s)| > 0 && IsDecimalDigit(Unsigned(s)[0]) && !HasHexPrefix(Unsigned(s)) ==> r.Some?
    ensures r.Some? && IsNegated(s) ==> r.value <= 0
    ensures r.Some? && !IsNegated(s) ==> r.value >= 0
  {
    var u := Unsigned(s);
    var hex := HasHexPrefix(u);
    var w := if hex then u[2..] else u;
    var n := DigitRun(w, hex);
    if n == 0 then None
    else
      var v: int := DigitsValue(w[..n], hex);
      Some(if IsNegated(s) then -v else v)
  }

  /** The exponent part of a decimal literal starting at `u[i]`, or 0 when there is none. */
  function ExponentAt(u: string, i: nat): int
  {
    if i + 1 < |u| && (u[i] == 'e' || u[i] == 'E') then
      var negExp := u[i + 1] == '-';
      var j := if u[i + 1] == '-' || u[i + 1] == '+' then i + 2 else i + 1;
      var k := DigitRun(u[j..], false);
      if k == 0 then 0
      else
        var e: int := DigitsValue(u[j..j + k], false);
        if negExp then -e else e
    else 0
  }

  /** The literal at the start of `u` has a decimal point right after its whole digits. */
  predicate HasPoint(u: string) {
    var i := DigitRun(u, false);
    i < |u| && u[i] == '.'
  }

  /** The number of fraction digits after the point, 0 when there is no point. */
  function FractionLength(u: string): nat {
    var i := DigitRun(u, false);
    if HasPoint(u) then DigitRun(u[i + 1..], false) else 0
  }

  /** Where the digits, point and fraction of the literal at the start of `u` end. */
  function MantissaEnd(u: string): nat {
    var i := DigitRun(u, false);
    if HasPoint(u) then i + 1 + FractionLength(u) else i
  }

  /** The value of the whole digits and the fraction digits, before any exponent. */
  function MantissaValue(u: string): (m: real)
    ensures m >= 0.0
  {
    var i := DigitRun(u, false);
    var whole := DigitsValue(u[..i], false) as real;
    if HasPoint(u) then whole + FractionValue(u[i + 1..i + 1 + FractionLength(u)]) else whole
  }

  /**
   * The value of the longest decimal literal at the start of `u` (digits,
   * an optional fraction, an optional exponent); a literal needs a digit
   * before or after the point.
   */
  function DecimalLiteral(u: string): (r: Option<real>)
    ensures r.Some? <==> |u| > 0 && (IsDecimalDigit(u[0]) || (u[0] == '.' && |u| > 1 && IsDecimalDigit(u[1])))
    ensures r.Some? ==> r.value >= 0.0
  {
    if DigitRun(u, false) == 0 && FractionLength(u) == 0 then None
    else Some(Scale(MantissaValue(u), ExponentAt(u, MantissaEnd(u))))
  }

  /** `parseFloat(s)`: white space, an optional sign, then a decimal literal. */
  function ParseFloat(s: string): (r: Option<real>)
    ensures r.Some? ==> |Unsigned(s)| > 0 && (IsDecimalDigit(Unsigned(s)[0]) || Unsigned(s)[0] == '.')
    ensures |Unsigned(s)| > 0 && IsDecimalDigit(Unsigned(s)[0]) ==> r.Some?
    ensures r.Some? && IsNegated(s) ==> r.value <= 0.0
    ensures r.Some? && !IsNegated(s) ==> r.value >= 0.0
  {
    match DecimalLiteral(Unsigned(s))
    case None => None
    case Some(v) => Some(if IsNegated(s) then -v else v)
  }

  /** The decimal rendering of a natural number, without leading zeros. */
  function NatToString(n: nat): (r: string)
    ensures |r| >= 1
    ensures forall k :: 0 <= k < |r| ==> IsDecimalDigit(r[k])
    ensures DigitsValue(r, false) == n
    decreases n
  {
    if n < 10 then [DecimalChar(n)]
    else
      var r := NatToString(n / 10) + [DecimalChar(n % 10)];
      assert r[..|r| - 1] == NatToString(n / 10);
      r
  }

  /** A run of digits followed by a non-digit (or nothing) is read to its end. */
  lemma {:induction false} DigitRunOfDigits(ds: string, rest: string, hex: bool)
    requires forall k :: 0 <= k < |ds| ==> IsDigit(ds[k], hex)
    requires |rest| == 0 || !IsDigit(rest[0], hex)
    ensures DigitRun(ds + rest, hex) == |ds|
    ensures (ds + rest)[..|ds|] == ds
    decreases |ds|
  {
    if |ds| > 0 {
      DigitRunOfDigits(ds[1..], rest, hex);
      assert (ds + rest)[1..] == ds[1..] + rest;
    }
  }

  /** The text that can follow a number without being read as part of it. */
  predicate EndsNumber(rest: string) {
    |rest| == 0 || !(IsDecimalDigit(rest[0]) || rest[0] == '.' || rest[0] == 'e' || rest[0] == 'E'
                     || rest[0] == 'x' || rest[0] == 'X')
  }

  /** Text that cannot extend a number holds no exponent part. */
  lemma {:induction false} NoExponent(u: string, j: nat)
    requires j <= |u| && EndsNumber(u[j..])
    ensures ExponentAt(u, j) == 0
  {
    if j < |u| { assert u[j] == u[j..][0]; }
  }

  /** A run of digits followed by text that cannot extend a number is read as an integer. */
  lemma {:induction false} IntegerLiteral(ds: string, rest: string)
    requires |ds| > 0 && forall k :: 0 <= k < |ds| ==> IsDecimalDigit(ds[k])
    requires EndsNumber(rest)
    ensures DecimalLiteral(ds + rest) == Some(DigitsValue(ds, false) as real)
  {
    var u := ds + rest;
    DigitRunOfDigits(ds, rest, false);
    assert u[|ds|..] == rest;
    assert ExponentAt(u, |ds|) == 0;
    var m := DigitsValue(ds, false) as real + 0.0;
    assert Scale(m, 0) == m;
  }

  /** Text that starts with a sign or a digit is not trimmed. */
  lemma {:induction false} SignedText(s: string)
    requires |s| > 0 && (s[0] == '-' || IsDecimalDigit(s[0]))
    ensures TrimStart(s) == s
  {
    assert !IsJsWhiteSpace(s[0]);
  }

  /** Text that starts with anything but white space, a sign, a point or a digit is `NaN` for both parsers. */
  lemma {:induction false} NotANumber(s: string)
    requires |s| > 0 && !IsJsWhiteSpace(s[0])
    requires !(s[0] == '-' || s[0] == '+' || s[0] == '.' || IsDecimalDigit(s[0]))
    ensures ParseInt(s) == None && ParseFloat(s) == None
  {
    assert TrimStart(s) == s;
    assert Unsigned(s) == s;
  }

  /** The rendering of `n`, preceded by a minus sign when `neg` holds. */
  function SignedRendering(n: nat, neg: bool): string {
    if neg then "-" + NatToString(n) else NatToString(n)
  }

  /** The signed rendering of `n` followed by `rest`: its unsigned text, its sign, and no hex prefix. */
  lemma {:induction false} RenderingText(n: nat, neg: bool, rest: string)
    requires EndsNumber(rest)
    ensures Unsigned(SignedRendering(n, neg) + rest) == NatToString(n) + rest
    ensures IsNegated(SignedRendering(n, neg) + rest) == neg
    ensures !HasHexPrefix(NatToString(n) + rest)
  {
    var u := NatToString(n) + rest;
    var s := SignedRendering(n, neg) + rest;
    assert s == if neg then "-" + u else u;
    SignedText(s);
    assert neg ==> s[1..] == u;
    NoHexPrefix(NatToString(n), rest);
  }

  /** Decimal digits followed by text that cannot extend a number do not start with "0x". */
  lemma {:induction false} NoHexPrefix(ds: string, rest: string)
    requires |ds| > 0 && forall k :: 0 <= k < |ds| ==> IsDecimalDigit(ds[k])
    requires EndsNumber(rest)
    ensures !HasHexPrefix(ds + rest)
  {
    var u := ds + rest;
    if |ds| > 1 { assert u[1] == ds[1]; } else if |rest| > 0 { assert u[1] == rest[0]; }
  }

  /** `parseInt` reads back the decimal rendering of an integer, signed or not, when the text after it cannot continue a number. */
  lemma {:induction false} ParseIntRendering(n: nat, neg: bool, rest: string)
    requires EndsNumber(rest)
    ensures ParseInt(SignedRendering(n, neg) + rest) == Some(if neg then -(n as int) else n)
  {
    RenderingText(n, neg, rest);
    ParseIntDigits(SignedRendering(n, neg) + rest, NatToString(n), rest);
  }

  /** The decimal text of an integer, with a leading '-' when it is negative. */
  function IntToString(v: int): (r: string)
    ensures |r| >= 1
    ensures forall k :: 0 <= k < |r| ==> r[k] == '-' || IsDecimalDigit(r[k])
  {
    var r := SignedRendering(if v < 0 then -v else v, v < 0);
    assert forall k :: 0 <= k < |r| ==> r[k] == '-' || IsDecimalDigit(r[k]) by {
      forall k | 0 <= k < |r| ensures r[k] == '-' || IsDecimalDigit(r[k]) {
        if v < 0 { assert r[k] == '-' || r[k] == NatToString(-v)[k - 1]; }
      }
    }
    r
  }

  /** `parseInt` reads back every integer from its decimal text. */
  lemma {:induction false} ParseIntOfIntToString(v: int)
    ensures ParseInt(IntToString(v)) == Some(v)
  {
    ParseIntRendering(if v < 0 then -v else v, v < 0, "");
    assert IntToString(v) + "" == IntToString(v);
  }

  /** `parseInt` of text whose unsigned part is a run of decimal digits followed by a non-digit. */
  lemma {:induction false} ParseIntDigits(s: string, ds: string, rest: string)
    requires Unsigned(s) == ds + rest && !HasHexPrefix(ds + rest)
    requires |ds| > 0 && forall k :: 0 <= k < |ds| ==> IsDecimalDigit(ds[k])
    requires |rest| == 0 || !IsDecimalDigit(rest[0])
    ensures ParseInt(s) == Some(if IsNegated(s) then -(DigitsValue(ds, false) as int) else DigitsValue(ds, false))
  {
    DigitRunOfDigits(ds, rest, false);
  }

  /** `parseFloat` reads back the decimal rendering of an integer, signed or not, when the text after it cannot continue a number. */
  lemma {:induction false} ParseFloatRendering(n: nat, neg: bool, rest: string)
    requires EndsNumber(rest)
    ensures ParseFloat(SignedRendering(n, neg) + rest) == Some(if neg then -(n as real) else n as real)
  {
    RenderingText(n, neg, rest);
    IntegerLiteral(NatToString(n), rest);
  }

  /** A digit run is determined by where the first non-digit stands. */
  lemma {:induction false} DigitRunAt(s: string, n: nat, hex: bool)
    requires n <= |s| && forall k :: 0 <= k < n ==> IsDigit(s[k], hex)
    requires n == |s| || !IsDigit(s[n], hex)
    ensures DigitRun(s, hex) == n
    decreases n
  {
    if n > 0 {
      DigitRunAt(s[1..], n - 1, hex);
    }
  }

  /**
   * `parseFloat` reads text that starts with `i` whole digits, a point and
   * `f` fraction digits (at least one digit in all), followed by text that
   * cannot extend a number, as W + 0.F.
   */
  lemma {:induction false} ParseFloatDecimal(s: string, i: nat, f: nat)
    requires i + 1 + f <= |s| && i + f > 0 && s[i] == '.'
    requires forall k :: 0 <= k < i ==> IsDecimalDigit(s[k])
    requires forall k :: i + 1 <= k < i + 1 + f ==> IsDecimalDigit(s[k])
    requires EndsNumber(s[i + 1 + f..])
    ensures ParseFloat(s) == Some(DigitsValue(s[..i], false) as real + FractionValue(s[i + 1..i + 1 + f]))
  {
    assert Unsigned(s) == s && !IsNegated(s) by {
      assert !IsJsWhiteSpace(s[0]) && TrimStart(s) == s;
    }
    DecimalShape(s, i, f);
    var m := DigitsValue(s[..i], false) as real + FractionValue(s[i + 1..i + 1 + f]);
    assert MantissaValue(s) == m;
    assert DecimalLiteral(s) == Some(m) by {
      assert Scale(m, 0) == m;
    }
  }

  /** Where the whole digits, the point and the fraction digits of such text lie. */
  lemma {:induction false} DecimalShape(s: string, i: nat, f: nat)
    requires i + 1 + f <= |s| && s[i] == '.'
    requires forall k :: 0 <= k < i ==> IsDecimalDigit(s[k])
    requires forall k :: i + 1 <= k < i + 1 + f ==> IsDecimalDigit(s[k])
    requires EndsNumber(s[i + 1 + f..])
    ensures DigitRun(s, false) == i && HasPoint(s) && FractionLength(s) == f
    ensures MantissaEnd(s) == i + 1 + f && ExponentAt(s, i + 1 + f) == 0
  {
    DigitRunAt(s, i, false);
    FractionRun(s, i, f);
    NoExponent(s, i + 1 + f);
  }

  /** The fraction digits of such text form the digit run after the point. */
  lemma {:induction false} FractionRun(s: string, i: nat, f: nat)
    requires i + 1 + f <= |s|
    requires forall k :: i + 1 <= k < i + 1 + f ==> IsDecimalDigit(s[k])
    requires EndsNumber(s[i + 1 + f..])
    ensures DigitRun(s[i + 1..], false) == f
  {
    var t := s[i + 1..];
    forall k | 0 <= k < f ensures IsDecimalDigit(t[k]) {
      assert t[k] == s[i + 1 + k];
    }
    assert i + 1 + f < |s| ==> t[f] == s[i + 1 + f..][0];
    DigitRunAt(t, f, false);
  }
}
