/** Where PostgreSQL reads a constant otherwise than the router: an unquoted number that becomes a text, and
    an oid in octal. */
module Literals {
  import opened Text
  import opened Decimal
  import opened Scalar

  // ------------------------------------------------------------------------------ unquoted numbers

  /** A number as the lexer leaves it: a decimal, if need be with a minus sign folded in. */
  predicate NumberToken(d: string) {
    Parse(d).Some? && LeadingSign(d) != Plus && forall i :: 0 <= i < |d| ==> !IsSpace(d[i])
  }

  /** A number's digits with so many of them after the point, trailing zeros kept. */
  function Shown(digits: string, scale: int): string {
    if digits == "" && scale <= 0 then "0" else Render("", digits, scale)
  }

  function ShownParts(p: Parts): string {
    Shown(TrimZeros(p.whole + p.fraction), |p.fraction| - p.exponent)
  }

  /** No minus sign in front of zero. */
  predicate ShownMinus(p: Parts) {
    p.negative && TrimZeros(p.whole + p.fraction) != ""
  }

  /** The text of a number: what PostgreSQL makes of an unquoted number that is assigned to a text. */
  function NumberText(d: string): string {
    match Parse(d) case None => d case Some(p) => SignText(ShownMinus(p)) + ShownParts(p)
  }

  predicate Numeric10(c: char) {
    IsDigit(c) || c == '.'
  }

  lemma {:induction false} TrimZerosShorter(s: string)
    ensures |TrimZeros(s)| <= |s|
    ensures AllDigits(s) ==> AllDigits(TrimZeros(s))
  {
    if s != "" && s[0] == '0' {
      TrimZerosShorter(s[1..]);
    }
  }

  lemma ShownChars(digits: string, scale: int)
    requires AllDigits(digits)
    ensures var t := Shown(digits, scale); t != "" && IsDigit(t[0]) && forall i :: 0 <= i < |t| ==> Numeric10(t[i])
  {
    if digits != "" || scale > 0 {
      RenderChars(digits, scale);
    }
  }

  lemma RenderChars(digits: string, scale: int)
    requires AllDigits(digits) && (digits != "" || scale > 0)
    ensures var t := Render("", digits, scale); t != "" && IsDigit(t[0]) && forall i :: 0 <= i < |t| ==> Numeric10(t[i])
  {
    if scale <= 0 {
      assert "" + (digits + Zeros(-scale)) == digits + Zeros(-scale);
    } else if scale >= |digits| {
      assert "" + ("0." + (Zeros(scale - |digits|) + digits)) == "0." + (Zeros(scale - |digits|) + digits);
    } else {
      var cut := |digits| - scale;
      assert "" + (digits[..cut] + ("." + digits[cut..])) == digits[..cut] + ("." + digits[cut..]);
    }
  }

  /** Without an exponent, and with a digit before the point, the text is no longer than the number. */
  lemma ShownShorter(whole: string, fraction: string)
    requires whole != ""
    ensures |Shown(TrimZeros(whole + fraction), |fraction|)| <= |whole| + if fraction == "" then 0 else 1 + |fraction|
  {
    TrimZerosShorter(whole + fraction);
  }

  lemma UnsignedStarts(body: string, negative: bool)
    requires ParseUnsigned(body, negative).Some?
    ensures body != "" && (IsDigit(body[0]) || body[0] == '.')
  {
    var mantissa := body[..FirstE(body)];
    MantissaStarts(mantissa);
    assert mantissa[0] == body[0];
  }

  lemma MantissaStarts(mantissa: string)
    requires ParseMantissa(mantissa).Some?
    ensures mantissa != "" && (IsDigit(mantissa[0]) || mantissa[0] == '.')
  {
    var dot := FirstDot(mantissa);
    if dot > 0 {
      assert mantissa[..dot][0] == mantissa[0];
    }
  }

  /** What parsing makes of a token. */
  lemma TokenParts(d: string)
    requires NumberToken(d)
    ensures d != "" && Parse(d) == ParseUnsigned(AfterSign(d), LeadingSign(d) == Minus)
    ensures Parse(d).value.negative == (LeadingSign(d) == Minus)
  {
    TightIsTrimmed(d);
  }

  /** A token without an exponent is its digits, with a point if need be. */
  lemma MantissaLength(body: string, negative: bool)
    requires ParseUnsigned(body, negative).Some? && FirstE(body) == |body|
    ensures var p := ParseUnsigned(body, negative).value;
      && p.exponent == 0 && |body| >= |p.whole| + (if p.fraction == "" then 0 else 1 + |p.fraction|)
      && (p.whole == "" ==> body != "" && body[0] == '.')
      && AllDigits(p.whole) && AllDigits(p.fraction) && p.negative == negative
  {
    assert body[..|body|] == body;
  }

  lemma NoExponent(body: string, shown: string)
    requires body <= shown && forall i :: 0 <= i < |shown| ==> Numeric10(shown[i])
    ensures FirstE(body) == |body|
  {
    forall i | 0 <= i < |body| ensures body[i] != 'e' && body[i] != 'E' {
      assert body[i] == shown[i];
    }
  }

  /** An unsigned token that starts its own text is as long. */
  lemma BodyIsShown(body: string, p: Parts, shown: string)
    requires ParseUnsigned(body, p.negative) == Some(p) && body <= shown
    requires shown == ShownParts(p)
    requires shown != "" && IsDigit(shown[0]) && forall i :: 0 <= i < |shown| ==> Numeric10(shown[i])
    ensures |body| == |shown|
  {
    UnsignedStarts(body, p.negative);
    assert body[0] == shown[0];
    NoExponent(body, shown);
    MantissaLength(body, p.negative);
    if p.whole != "" {
      ShownShorter(p.whole, p.fraction);
    }
  }

  /** If a number starts a text, their signs match. */
  lemma SignsMatch(d: string, minus: bool, shown: string)
    requires d != "" && LeadingSign(d) != Plus && (minus ==> LeadingSign(d) == Minus)
    requires shown != "" && IsDigit(shown[0]) && d <= SignText(minus) + shown
    ensures AfterSign(d) <= shown && |SignText(minus) + shown| - |d| == |shown| - |AfterSign(d)|
  {
    var text := SignText(minus) + shown;
    assert d[0] == text[0];
    if minus {
      assert text[1..] == shown && d[1..] <= text[1..];
    } else {
      assert text == shown;
    }
  }

  lemma ShownPartsChars(p: Parts)
    requires AllDigits(p.whole) && AllDigits(p.fraction)
    ensures var shown := ShownParts(p); shown != "" && IsDigit(shown[0]) && forall i :: 0 <= i < |shown| ==> Numeric10(shown[i])
  {
    TrimZerosShorter(p.whole + p.fraction);
    ShownChars(TrimZeros(p.whole + p.fraction), |p.fraction| - p.exponent);
  }

  lemma WholePrefix(a: string, b: string)
    requires a <= b && |a| == |b|
    ensures a == b
  {
  }

  /** A token that starts its own text is its own text. */
  lemma TokenStartsText(d: string)
    requires NumberToken(d) && d <= NumberText(d)
    ensures d == NumberText(d)
  {
    TokenParts(d);
    AcceptedDigits(d);
    var p := Parse(d).value;
    ShownPartsChars(p);
    SignsMatch(d, ShownMinus(p), ShownParts(p));
    BodyIsShown(AfterSign(d), p, ShownParts(p));
    WholePrefix(d, NumberText(d));
  }

  // -------------------------------------------------------------------------------------- octal

  function Oct(digits: string): nat {
    if digits == "" then 0 else 8 * Oct(digits[..|digits| - 1]) + Digit(digits[|digits| - 1])
  }

  lemma {:induction false} OctLess(digits: string)
    requires AllDigits(digits)
    ensures Oct(digits) <= Num(digits) && (Num(digits) >= 10 ==> Oct(digits) < Num(digits))
  {
    if digits != "" {
      OctLess(digits[..|digits| - 1]);
    }
  }

  /** The digits of an integer's spelling. */
  function IntDigits(text: string): string {
    AfterSign(TrimSpace(text))
  }

  /** A superfluous leading zero before a number of two digits or more: PostgreSQL reads an oid spelled so in
      octal, or refuses it. */
  predicate OctalLooking(text: string) {
    ParseInt(text).Some? && IntDigits(text) != "" && IntDigits(text)[0] == '0' && Num(IntDigits(text)) >= 10
  }

  /** The number it then reads. */
  function OctalValue(text: string): int {
    SignedNumber(LeadingSign(TrimSpace(text)), Oct(IntDigits(text)))
  }

  function SignedNumber(sign: Sign, n: nat): int {
    if sign == Minus then 0 - n else n
  }

  lemma OctalDiffers(text: string)
    requires OctalLooking(text)
    ensures ParseInt(text).value >= 10 || ParseInt(text).value <= -10
    ensures ParseInt(text).value > 0 ==> 0 <= OctalValue(text) < ParseInt(text).value
    ensures ParseInt(text).value < 0 ==> ParseInt(text).value < OctalValue(text) <= 0
  {
    OctLess(IntDigits(text));
  }

  lemma {:induction false} FormatNatStarts(n: nat)
    requires n > 0
    ensures FormatNat(n) != "" && FormatNat(n)[0] != '0'
  {
    if n >= 10 {
      FormatNatStarts(n / 10);
      assert FormatNat(n)[0] == FormatNat(n / 10)[0];
    }
  }

  /** A formatted number does not look octal. */
  lemma FormatIntPlain(n: int)
    ensures !OctalLooking(FormatInt(n))
  {
    FormatIntSpelled(n);
    if n != 0 {
      FormatNatStarts(if n < 0 then -n else n);
    } else {
      FormatNatReads(0);
    }
  }
}
