/** canonicalDecimal: the spelling of a numeric shard-key value that decides its virtual shard. */
module Decimal {
  import opened Text

  const MinInt64 := -0x8000_0000_0000_0000
  const MaxInt64 := 0x7fff_ffff_ffff_ffff

  /** What an accepted spelling says: sign, digits before and after the point, exponent. */
  datatype Parts = Parts(negative: bool, whole: string, fraction: string, exponent: int)

  function FirstE(s: string, from: nat := 0): (i: nat)
    requires from <= |s|
    ensures from <= i <= |s|
    ensures forall k :: from <= k < i ==> s[k] != 'e' && s[k] != 'E'
    ensures i < |s| ==> s[i] == 'e' || s[i] == 'E'
    decreases |s| - from
  {
    if from == |s| || s[from] == 'e' || s[from] == 'E' then from else FirstE(s, from + 1)
  }

  function FirstDot(s: string, from: nat := 0): (i: nat)
    requires from <= |s|
    ensures from <= i <= |s|
    ensures forall k :: from <= k < i ==> s[k] != '.'
    ensures i < |s| ==> s[i] == '.'
    decreases |s| - from
  {
    if from == |s| || s[from] == '.' then from else FirstDot(s, from + 1)
  }

  datatype Sign = NoSign | Plus | Minus

  /** The sign a spelling starts with, and what follows it. */
  function LeadingSign(s: string): Sign {
    if s != "" && s[0] == '+' then Plus else if s != "" && s[0] == '-' then Minus else NoSign
  }

  function AfterSign(s: string): string {
    if LeadingSign(s) == NoSign then s else s[1..]
  }

  predicate Fits(n: int) {
    MinInt64 <= n <= MaxInt64
  }

  function SignedNum(sign: Sign, digits: string): int {
    if sign == Minus then 0 - Num(digits) else Num(digits)
  }

  /** strconv.Atoi on a 64-bit platform. */
  function Atoi(s: string): Option<int> {
    var digits := AfterSign(s);
    if digits == "" || !AllDigits(digits) || !Fits(SignedNum(LeadingSign(s), digits)) then
      None
    else
      Some(SignedNum(LeadingSign(s), digits))
  }

  /** The digits before and after at most one point, at least one digit in all. */
  function ParseMantissa(mantissa: string): Option<(string, string)> {
    var dot := FirstDot(mantissa);
    var whole := mantissa[..dot];
    var fraction := if dot == |mantissa| then "" else mantissa[dot + 1..];
    if '.' in fraction || (whole == "" && fraction == "") || !AllDigits(whole) || !AllDigits(fraction) then
      None
    else
      Some((whole, fraction))
  }

  function ParseExponent(body: string, e: nat): Option<int>
    requires e <= |body|
  {
    if e == |body| then Some(0) else Atoi(body[e + 1..])
  }

  function ParseUnsigned(body: string, negative: bool): Option<Parts> {
    var e := FirstE(body);
    var exponent, mantissa := ParseExponent(body, e), ParseMantissa(body[..e]);
    if exponent.None? || mantissa.None? then
      None
    else
      Some(Parts(negative, mantissa.value.0, mantissa.value.1, exponent.value))
  }

  /** The acceptance half of canonicalDecimal. */
  function Parse(value: string): Option<Parts> {
    var v := TrimSpace(value);
    if v == "" then None else ParseUnsigned(AfterSign(v), LeadingSign(v) == Minus)
  }

  // ------------------------------------------------------------------------------- grammar

  /** The concrete syntax of a decimal: white space, sign, digits, point, digits, exponent. */
  datatype Numeral = Numeral(
    left: string, sign: Sign, whole: string, point: bool, fraction: string, exponent: Exponent, right: string)

  datatype Exponent = NoExponent | Exponent(mark: char, sign: Sign, digits: string)

  function PrintSign(sign: Sign): string {
    match sign
    case NoSign => ""
    case Plus => "+"
    case Minus => "-"
  }

  function ExponentValue(e: Exponent): int {
    match e
    case NoExponent => 0
    case Exponent(_, sign, digits) => SignedNum(sign, digits)
  }

  predicate ValidExponent(e: Exponent) {
    e.Exponent? ==>
      && (e.mark == 'e' || e.mark == 'E')
      && e.digits != "" && AllDigits(e.digits) && Fits(ExponentValue(e))
  }

  predicate WellFormed(n: Numeral) {
    && AllSpaces(n.left) && AllSpaces(n.right)
    && AllDigits(n.whole) && AllDigits(n.fraction)
    && (n.whole != "" || n.fraction != "")
    && (!n.point ==> n.fraction == "")
    && ValidExponent(n.exponent)
  }

  function PrintExponent(e: Exponent): string {
    match e
    case NoExponent => ""
    case Exponent(mark, sign, digits) => [mark] + (PrintSign(sign) + digits)
  }

  function Mantissa(n: Numeral): string {
    n.whole + (if n.point then "." + n.fraction else "")
  }

  function Core(n: Numeral): string {
    PrintSign(n.sign) + (Mantissa(n) + PrintExponent(n.exponent))
  }

  function Print(n: Numeral): string {
    n.left + Core(n) + n.right
  }

  function Meaning(n: Numeral): Parts {
    Parts(n.sign == Minus, n.whole, n.fraction, ExponentValue(n.exponent))
  }

  lemma {:induction false} FirstEAt(s: string, t: string, from: nat := 0)
    requires from <= |s| && forall k :: 0 <= k < |s| ==> s[k] != 'e' && s[k] != 'E'
    requires t == "" || t[0] == 'e' || t[0] == 'E'
    ensures FirstE(s + t, from) == |s|
    decreases |s| - from
  {
    if from < |s| {
      FirstEAt(s, t, from + 1);
    }
  }

  lemma {:induction false} FirstDotAt(s: string, t: string, from: nat := 0)
    requires from <= |s| && forall k :: 0 <= k < |s| ==> s[k] != '.'
    requires t == "" || t[0] == '.'
    ensures FirstDot(s + t, from) == |s|
    decreases |s| - from
  {
    if from < |s| {
      FirstDotAt(s, t, from + 1);
    }
  }

  /** A printed sign is read back, whatever follows that is not a sign itself. */
  lemma SignReadsBack(sign: Sign, rest: string)
    requires rest != "" && rest[0] != '+' && rest[0] != '-'
    ensures LeadingSign(PrintSign(sign) + rest) == sign
    ensures AfterSign(PrintSign(sign) + rest) == rest
  {
    var s := PrintSign(sign) + rest;
    if sign == NoSign {
      assert s == rest;
    } else {
      assert s[0] == PrintSign(sign)[0] && s[1..] == rest;
    }
  }

  lemma SignPrintsBack(s: string)
    ensures PrintSign(LeadingSign(s)) + AfterSign(s) == s
  {
    if LeadingSign(s) == NoSign {
      assert "" + s == s;
    } else {
      assert s == [s[0]] + s[1..];
    }
  }

  lemma MantissaEnds(n: Numeral)
    requires WellFormed(n)
    ensures var m := Mantissa(n);
      m != "" && (IsDigit(m[0]) || m[0] == '.') && (IsDigit(m[|m| - 1]) || m[|m| - 1] == '.')
  {
    var m := Mantissa(n);
    if n.point && n.fraction != "" {
      assert m[|m| - 1] == n.fraction[|n.fraction| - 1];
    } else if n.point {
      assert m[|m| - 1] == '.';
    } else {
      assert m == n.whole;
    }
  }

  lemma CoreIsTight(n: Numeral)
    requires WellFormed(n)
    ensures Core(n) != "" && Tight(Core(n))
    ensures var body := Mantissa(n) + PrintExponent(n.exponent); body != "" && body[0] != '+' && body[0] != '-'
  {
    MantissaEnds(n);
    var body := Mantissa(n) + PrintExponent(n.exponent);
    assert body[0] == Mantissa(n)[0];
    var last := body[|body| - 1];
    if n.exponent.Exponent? {
      assert last == n.exponent.digits[|n.exponent.digits| - 1];
    } else {
      assert body == Mantissa(n);
    }
    assert IsDigit(last) || last == '.';
    assert Core(n)[|Core(n)| - 1] == last;
  }

  lemma MantissaAccepted(n: Numeral)
    requires WellFormed(n)
    ensures ParseMantissa(Mantissa(n)) == Some((n.whole, n.fraction))
  {
    var mantissa := Mantissa(n);
    FirstDotAt(n.whole, if n.point then "." + n.fraction else "");
    assert mantissa[..|n.whole|] == n.whole;
    if n.point {
      assert mantissa[|n.whole| + 1..] == n.fraction;
    }
  }

  lemma MantissaHasNoE(n: Numeral)
    requires WellFormed(n)
    ensures forall k :: 0 <= k < |Mantissa(n)| ==> Mantissa(n)[k] != 'e' && Mantissa(n)[k] != 'E'
  {
  }

  lemma ExponentAccepted(mantissa: string, exponent: Exponent)
    requires ValidExponent(exponent)
    ensures ParseExponent(mantissa + PrintExponent(exponent), |mantissa|) == Some(ExponentValue(exponent))
  {
    if exponent.Exponent? {
      var tail := PrintSign(exponent.sign) + exponent.digits;
      TailAfter(mantissa, exponent.mark, tail);
      AtoiPrinted(exponent.sign, exponent.digits);
    }
  }

  lemma TailAfter(mantissa: string, mark: char, tail: string)
    ensures (mantissa + ([mark] + tail))[|mantissa| + 1..] == tail
  {
  }

  lemma AtoiPrinted(sign: Sign, digits: string)
    requires digits != "" && AllDigits(digits) && Fits(SignedNum(sign, digits))
    ensures Atoi(PrintSign(sign) + digits) == Some(SignedNum(sign, digits))
  {
    SignReadsBack(sign, digits);
  }

  lemma UnsignedAccepted(n: Numeral, negative: bool)
    requires WellFormed(n)
    ensures ParseUnsigned(Mantissa(n) + PrintExponent(n.exponent), negative)
         == Some(Parts(negative, n.whole, n.fraction, ExponentValue(n.exponent)))
  {
    var mantissa := Mantissa(n);
    var body := mantissa + PrintExponent(n.exponent);
    MantissaHasNoE(n);
    FirstEAt(mantissa, PrintExponent(n.exponent));
    assert body[..|mantissa|] == mantissa;
    MantissaAccepted(n);
    ExponentAccepted(mantissa, n.exponent);
  }

  /** Every spelling of the grammar is accepted and read as what it says. */
  lemma AcceptsGrammar(n: Numeral)
    requires WellFormed(n)
    ensures Parse(Print(n)) == Some(Meaning(n))
  {
    var v := Core(n);
    CoreIsTight(n);
    TrimSpaceDrops(n.left, v, n.right);
    SignReadsBack(n.sign, Mantissa(n) + PrintExponent(n.exponent));
    UnsignedAccepted(n, n.sign == Minus);
  }

  lemma MantissaInGrammar(mantissa: string)
    requires ParseMantissa(mantissa).Some?
    ensures var (whole, fraction) := ParseMantissa(mantissa).value;
      && AllDigits(whole) && AllDigits(fraction) && (whole != "" || fraction != "")
      && (FirstDot(mantissa) == |mantissa| ==> fraction == "")
      && mantissa == whole + (if FirstDot(mantissa) < |mantissa| then "." + fraction else "")
  {
    SplitAtDot(mantissa, FirstDot(mantissa));
  }

  lemma SplitAtDot(mantissa: string, dot: nat)
    requires dot < |mantissa| ==> mantissa[dot] == '.'
    ensures dot < |mantissa| ==> mantissa == mantissa[..dot] + ("." + mantissa[dot + 1..])
    ensures dot == |mantissa| ==> mantissa == mantissa[..dot] + ""
  {
    if dot < |mantissa| {
      assert "." + mantissa[dot + 1..] == mantissa[dot..];
    }
  }

  lemma ExponentInGrammar(body: string, e: nat) returns (exponent: Exponent)
    requires e <= |body| && ParseExponent(body, e).Some? && (e < |body| ==> body[e] == 'e' || body[e] == 'E')
    ensures body == body[..e] + PrintExponent(exponent)
    ensures ExponentValue(exponent) == ParseExponent(body, e).value
    ensures ValidExponent(exponent)
  {
    if e == |body| {
      exponent := NoExponent;
      assert body == body[..e] + "";
    } else {
      var tail := body[e + 1..];
      exponent := TailInGrammar(body[e], tail);
      SplitAt(body, e);
    }
  }

  lemma SplitAt(body: string, e: nat)
    requires e < |body|
    ensures body == body[..e] + ([body[e]] + body[e + 1..])
  {
    assert [body[e]] + body[e + 1..] == body[e..];
  }

  lemma TailInGrammar(mark: char, tail: string) returns (exponent: Exponent)
    requires Atoi(tail).Some? && (mark == 'e' || mark == 'E')
    ensures exponent.Exponent? && ValidExponent(exponent) && PrintExponent(exponent) == [mark] + tail
    ensures ExponentValue(exponent) == Atoi(tail).value
  {
    exponent := Exponent(mark, LeadingSign(tail), AfterSign(tail));
    SignPrintsBack(tail);
  }

  /** Every accepted spelling is in the grammar. */
  lemma OnlyGrammarAccepted(value: string) returns (n: Numeral)
    requires Parse(value).Some?
    ensures WellFormed(n) && Print(n) == value && Meaning(n) == Parse(value).value
  {
    var left, right := TrimSpaceSplits(value);
    var v := TrimSpace(value);
    var sign, body := LeadingSign(v), AfterSign(v);
    SignPrintsBack(v);
    var e := FirstE(body);
    var exponent := ExponentInGrammar(body, e);
    MantissaInGrammar(body[..e]);
    var (whole, fraction) := ParseMantissa(body[..e]).value;
    n := Numeral(left, sign, whole, FirstDot(body[..e]) < e, fraction, exponent, right);
    assert Mantissa(n) == body[..e];
    assert Core(n) == v;
  }

  // -------------------------------------------------------------------------- canonical form

  function SignOf(negative: bool): Sign {
    if negative then Minus else NoSign
  }

  function SignText(negative: bool): string {
    PrintSign(SignOf(negative))
  }

  /** What is left of the digits and the scale when trailing zeros are cancelled. */
  function Cancel(digits: string, scale: int): (string, int)
    decreases |digits|
  {
    if scale > 0 && digits != "" && digits[|digits| - 1] == '0' then
      Cancel(digits[..|digits| - 1], scale - 1)
    else
      (digits, scale)
  }

  function Render(sign: string, digits: string, scale: int): string {
    if scale <= 0 then
      sign + (digits + Zeros(-scale))
    else if scale >= |digits| then
      sign + ("0." + (Zeros(scale - |digits|) + digits))
    else
      sign + (digits[..|digits| - scale] + ("." + digits[|digits| - scale..]))
  }

  function Canonical(p: Parts): string {
    var digits := TrimZeros(p.whole + p.fraction);
    if digits == "" then
      "0"
    else
      var (digits', scale) := Cancel(digits, |p.fraction| - p.exponent);
      Render(SignText(p.negative), digits', scale)
  }

  function CanonicalDecimalOf(value: string): Option<string> {
    match Parse(value)
    case None => None
    case Some(p) => Some(Canonical(p))
  }

  /** The routine itself, with its zero-cancelling loop. */
  method CanonicalDecimal(value: string) returns (result: Option<string>)
    ensures result == CanonicalDecimalOf(value)
  {
    var parsed := Parse(value);
    if parsed.None? {
      return None;
    }
    var p := parsed.value;
    var digits := TrimZeros(p.whole + p.fraction);
    if digits == "" {
      return Some("0");
    }
    var scale := |p.fraction| - p.exponent;
    while scale > 0 && digits != "" && digits[|digits| - 1] == '0'
      invariant Cancel(digits, scale) == Cancel(TrimZeros(p.whole + p.fraction), |p.fraction| - p.exponent)
      decreases |digits|
    {
      digits := digits[..|digits| - 1];
      scale := scale - 1;
    }
    return Some(Render(SignText(p.negative), digits, scale));
  }

  // ------------------------------------------------------------------------- what it denotes

  /** n times ten to the power k. */
  function Scaled(n: nat, k: int): real
    decreases if k < 0 then -k else k
  {
    if k == 0 then n as real else if k > 0 then Scaled(10 * n, k - 1) else Scaled(n, k + 1) / 10.0
  }

  function Signed(negative: bool, magnitude: real): real {
    if negative then 0.0 - magnitude else magnitude
  }

  /** The number an accepted spelling denotes. */
  function Value(p: Parts): real {
    Signed(p.negative, Scaled(Num(p.whole + p.fraction), p.exponent - |p.fraction|))
  }

  lemma {:induction false} ScaledTen(n: nat, k: int)
    ensures Scaled(10 * n, k) == Scaled(n, k + 1)
    decreases if k < 0 then -k else k
  {
    if k < 0 {
      ScaledTen(n, k + 1);
      if k == -1 {
        assert Scaled(10 * n, -1) == Scaled(10 * n, 0) / 10.0;
      }
    }
  }

  lemma {:induction false} ScaledShift(n: nat, k: int, m: nat)
    ensures Scaled(Shifted(n, m), k) == Scaled(n, k + m)
    decreases m
  {
    if m > 0 {
      ScaledTen(Shifted(n, m - 1), k);
      ScaledShift(n, k + 1, m - 1);
    }
  }

  lemma {:induction false} ScaledInjective(x: nat, y: nat, k: int)
    ensures Scaled(x, k) == Scaled(y, k) ==> x == y
    ensures Scaled(x, k) >= 0.0 && (x > 0 ==> Scaled(x, k) > 0.0)
    decreases if k < 0 then -k else k
  {
    if k > 0 {
      ScaledInjective(10 * x, 10 * y, k - 1);
    } else if k < 0 {
      ScaledInjective(x, y, k + 1);
    }
  }

  /** Digits and scale in lowest terms: no leading zero, no negative scale, and no trailing zero
      that the scale could absorb. */
  datatype Normal = Normal(digits: string, scale: nat)

  predicate Lowest(n: Normal) {
    NoLeadingZero(n.digits) && (n.scale > 0 ==> n.digits[|n.digits| - 1] != '0')
  }

  function Magnitude(n: Normal): real {
    Scaled(Num(n.digits), 0 - n.scale)
  }

  /** The canonical form as digits and scale. */
  function Normalise(p: Parts): Normal {
    var (digits, scale) := Cancel(TrimZeros(p.whole + p.fraction), |p.fraction| - p.exponent);
    Settle(digits, scale)
  }

  /** A negative scale is paid in trailing zeros. */
  function Settle(digits: string, scale: int): Normal {
    if scale <= 0 then Normal(digits + Zeros(-scale), 0) else Normal(digits, scale)
  }

  lemma {:induction false} CancelKeepsValue(digits: string, scale: int)
    requires NoLeadingZero(digits)
    ensures var (digits', scale') := Cancel(digits, scale);
      && NoLeadingZero(digits')
      && (scale' > 0 ==> digits'[|digits'| - 1] != '0')
      && Scaled(Num(digits'), 0 - scale') == Scaled(Num(digits), 0 - scale)
    decreases |digits|
  {
    if scale > 0 && digits[|digits| - 1] == '0' {
      var shorter := digits[..|digits| - 1];
      NumPositive(digits);
      ScaledTen(Num(shorter), 0 - scale);
      CancelKeepsValue(shorter, scale - 1);
    }
  }

  lemma NormaliseKeepsValue(p: Parts)
    requires AllDigits(p.whole) && AllDigits(p.fraction) && TrimZeros(p.whole + p.fraction) != ""
    ensures Lowest(Normalise(p))
    ensures Value(p) == Signed(p.negative, Magnitude(Normalise(p)))
  {
    SettledKeepsValue(p.whole + p.fraction, |p.fraction| - p.exponent);
  }

  lemma SettledKeepsValue(all: string, scale: int)
    requires AllDigits(all) && TrimZeros(all) != ""
    ensures var (digits, left) := Cancel(TrimZeros(all), scale);
      Lowest(Settle(digits, left)) && Magnitude(Settle(digits, left)) == Scaled(Num(all), 0 - scale)
  {
    TrimZerosKeepsNum(all);
    CancelKeepsValue(TrimZeros(all), scale);
    var (digits, left) := Cancel(TrimZeros(all), scale);
    SettleKeepsValue(digits, left);
  }

  lemma SettleKeepsValue(digits: string, scale: int)
    requires NoLeadingZero(digits) && (scale > 0 ==> digits[|digits| - 1] != '0')
    ensures Lowest(Settle(digits, scale))
    ensures Magnitude(Settle(digits, scale)) == Scaled(Num(digits), 0 - scale)
  {
    if scale <= 0 {
      NumAppendZeros(digits, -scale);
      ScaledShift(Num(digits), 0, -scale);
    }
  }

  lemma LowestOrdered(a: Normal, b: Normal)
    requires Lowest(a) && Lowest(b) && Magnitude(a) == Magnitude(b) && a.scale <= b.scale
    ensures a == b
  {
    var d := b.scale - a.scale;
    ScaledShift(Num(a.digits), 0 - b.scale, d);
    ScaledInjective(Shifted(Num(a.digits), d), Num(b.digits), 0 - b.scale);
    ShiftedEndsInZero(b.digits, Num(a.digits), d);
    NumInjective(a.digits, b.digits);
  }

  lemma ShiftedEndsInZero(digits: string, n: nat, d: nat)
    ensures NoLeadingZero(digits) && d > 0 && Num(digits) == Shifted(n, d) ==> digits[|digits| - 1] == '0'
  {
    if NoLeadingZero(digits) && d > 0 && Num(digits) == Shifted(n, d) {
      assert Num(digits) == 10 * Num(digits[..|digits| - 1]) + Digit(digits[|digits| - 1]);
      assert Shifted(n, d) == 10 * Shifted(n, d - 1);
    }
  }

  /** Lowest terms are unique. */
  lemma LowestUnique(a: Normal, b: Normal)
    requires Lowest(a) && Lowest(b) && Magnitude(a) == Magnitude(b)
    ensures a == b
  {
    if a.scale <= b.scale {
      LowestOrdered(a, b);
    } else {
      LowestOrdered(b, a);
    }
  }

  // --------------------------------------------------------------------------- main results

  lemma {:induction false} TrimZerosEmpty(s: string)
    requires AllDigits(s)
    ensures TrimZeros(s) == "" <==> Num(s) == 0
  {
    TrimZerosKeepsNum(s);
    if TrimZeros(s) != "" {
      NumPositive(TrimZeros(s));
    }
  }

  lemma CanonicalIsRendered(p: Parts)
    requires TrimZeros(p.whole + p.fraction) != ""
    ensures Canonical(p) == Render(SignText(p.negative), Normalise(p).digits, Normalise(p).scale)
  {
    var (digits, scale) := Cancel(TrimZeros(p.whole + p.fraction), |p.fraction| - p.exponent);
    if scale <= 0 {
      var sign := SignText(p.negative);
      assert digits + Zeros(-scale) == (digits + Zeros(-scale)) + Zeros(0);
    }
  }

  lemma NormalNumeralWellFormed(sign: Sign, n: Normal)
    requires Lowest(n)
    ensures WellFormed(NormalNumeral(sign, n))
    ensures |NormalNumeral(sign, n).fraction| == n.scale
  {
  }

  lemma NormalNumeralDigits(sign: Sign, n: Normal)
    requires Lowest(n)
    ensures var m := NormalNumeral(sign, n); Num(m.whole + m.fraction) == Num(n.digits)
  {
    var m := NormalNumeral(sign, n);
    if n.scale >= |n.digits| {
      var zeros := n.scale - |n.digits|;
      assert m.whole + m.fraction == ['0'] + (Zeros(zeros) + n.digits);
      NumIgnoresZero(Zeros(zeros) + n.digits);
      NumIgnoresZeros(zeros, n.digits);
    } else {
      assert m.whole + m.fraction == n.digits;
    }
  }

  lemma NormalNumeralValue(negative: bool, n: Normal)
    requires Lowest(n)
    ensures Value(Meaning(NormalNumeral(SignOf(negative), n))) == Signed(negative, Magnitude(n))
  {
    var sign := SignOf(negative);
    NormalNumeralWellFormed(sign, n);
    NormalNumeralDigits(sign, n);
  }

  /** A rendered normal form is itself an accepted spelling, of the same number. */
  lemma RenderedReadsBack(negative: bool, n: Normal)
    requires Lowest(n)
    ensures Reads(Render(SignText(negative), n.digits, n.scale), Signed(negative, Magnitude(n)))
  {
    var sign := SignOf(negative);
    PrintNormal(sign, n);
    NormalNumeralWellFormed(sign, n);
    NormalNumeralValue(negative, n);
    AcceptsGrammar(NormalNumeral(sign, n));
  }

  /** The text is an accepted spelling of the number. */
  predicate Reads(text: string, number: real) {
    Parse(text).Some? && Value(Parse(text).value) == number
  }

  function NormalNumeral(sign: Sign, n: Normal): Numeral {
    if n.scale == 0 then
      Numeral("", sign, n.digits, false, "", NoExponent, "")
    else if n.scale >= |n.digits| then
      Numeral("", sign, "0", true, Zeros(n.scale - |n.digits|) + n.digits, NoExponent, "")
    else
      var cut := |n.digits| - n.scale;
      Numeral("", sign, n.digits[..cut], true, n.digits[cut..], NoExponent, "")
  }

  lemma PrintNormal(sign: Sign, n: Normal)
    ensures Print(NormalNumeral(sign, n)) == Render(PrintSign(sign), n.digits, n.scale)
  {
    var m := NormalNumeral(sign, n);
    PrintPlain(m);
    if n.scale == 0 {
      assert Mantissa(m) == n.digits + Zeros(0);
    } else if n.scale >= |n.digits| {
      assert "0" + ("." + m.fraction) == "0." + m.fraction;
    }
  }

  lemma PrintPlain(n: Numeral)
    requires n.left == "" && n.right == "" && n.exponent == NoExponent
    ensures Print(n) == PrintSign(n.sign) + Mantissa(n)
  {
    assert Mantissa(n) + "" == Mantissa(n);
  }

  lemma AcceptedDigits(value: string)
    requires Parse(value).Some?
    ensures AllDigits(Parse(value).value.whole) && AllDigits(Parse(value).value.fraction)
  {
  }

  lemma ZeroReads(number: real)
    requires number == 0.0
    ensures Reads("0", number)
  {
    var zero := Numeral("", NoSign, "0", false, "", NoExponent, "");
    AcceptsGrammar(zero);
    assert Print(zero) == "0";
    assert "0" + "" == "0" && "0"[..0] == "" && Num("0") == 0;
  }

  /** The canonical form is an accepted spelling and denotes the number it was computed from. */
  lemma CanonicalDenotesSame(p: Parts)
    requires AllDigits(p.whole) && AllDigits(p.fraction)
    ensures Reads(Canonical(p), Value(p))
  {
    MagnitudeSign(p);
    if TrimZeros(p.whole + p.fraction) == "" {
      ZeroReads(Value(p));
    } else {
      NormaliseKeepsValue(p);
      CanonicalIsRendered(p);
      RenderedReadsBack(p.negative, Normalise(p));
    }
  }

  lemma {:induction false} ScaledZero(k: int)
    ensures Scaled(0, k) == 0.0
    decreases if k < 0 then -k else k
  {
    if k > 0 {
      ScaledZero(k - 1);
    } else if k < 0 {
      ScaledZero(k + 1);
    }
  }

  lemma SameNumberSameText(p: Parts, q: Parts)
    requires AllDigits(p.whole) && AllDigits(p.fraction) && AllDigits(q.whole) && AllDigits(q.fraction)
    requires Value(p) == Value(q)
    ensures Canonical(p) == Canonical(q)
  {
    MagnitudeSign(p);
    MagnitudeSign(q);
    if TrimZeros(p.whole + p.fraction) != "" {
      NormaliseKeepsValue(p);
      NormaliseKeepsValue(q);
      CanonicalIsRendered(p);
      CanonicalIsRendered(q);
      LowestUnique(Normalise(p), Normalise(q));
    }
  }

  /** A spelling denotes zero just when it has no other digit, and is otherwise signed. */
  lemma MagnitudeSign(p: Parts)
    requires AllDigits(p.whole) && AllDigits(p.fraction)
    ensures TrimZeros(p.whole + p.fraction) == "" <==> Value(p) == 0.0
    ensures Value(p) < 0.0 ==> p.negative
    ensures Value(p) > 0.0 ==> !p.negative
  {
    TrimZerosEmpty(p.whole + p.fraction);
    var k := p.exponent - |p.fraction|;
    ScaledInjective(Num(p.whole + p.fraction), 0, k);
    ScaledZero(k);
  }

  /** Two accepted spellings have the same canonical text exactly when they denote the same number. */
  lemma CanonicalDecidesEquality(a: string, b: string)
    requires Parse(a).Some? && Parse(b).Some?
    ensures CanonicalDecimalOf(a) == CanonicalDecimalOf(b) <==> Value(Parse(a).value) == Value(Parse(b).value)
  {
    AcceptedDigits(a);
    AcceptedDigits(b);
    var p, q := Parse(a).value, Parse(b).value;
    CanonicalDenotesSame(p);
    CanonicalDenotesSame(q);
    if Value(p) == Value(q) {
      SameNumberSameText(p, q);
    }
  }

  lemma CanonicalIdempotent(value: string)
    requires Parse(value).Some?
    ensures CanonicalDecimalOf(CanonicalDecimalOf(value).value) == CanonicalDecimalOf(value)
  {
    AcceptedDigits(value);
    var text := CanonicalDecimalOf(value).value;
    CanonicalDenotesSame(Parse(value).value);
    CanonicalDecidesEquality(text, value);
  }
}
