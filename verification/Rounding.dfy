/** Rounding as numeric(p, s) does it, and the spellings it leaves alone. */
module Rounding {
  import opened Text
  import opened Decimal

  /** Rounding to an integer, halves away from zero. */
  function Nearest(x: real): real {
    if x >= 0.0 then (x + 0.5).Floor as real else 0.0 - ((0.5 - x).Floor as real)
  }

  /** Rounding to s digits after the point; a negative s rounds in front of it. */
  function RoundAt(x: real, s: int): real
    decreases if s < 0 then -s else s
  {
    if s == 0 then Nearest(x)
    else if s > 0 then RoundAt(10.0 * x, s - 1) / 10.0
    else RoundAt(x / 10.0, s + 1) * 10.0
  }

  predicate Integral(x: real) {
    x == x.Floor as real
  }

  /** x times ten to the power s. */
  function Raised(x: real, s: int): real
    decreases if s < 0 then -s else s
  {
    if s == 0 then x else if s > 0 then Raised(10.0 * x, s - 1) else Raised(x / 10.0, s + 1)
  }

  /** At most s digits after the point. */
  predicate WholeAt(x: real, s: int) {
    Integral(Raised(x, s))
  }

  lemma {:induction false} RoundFixes(x: real, s: int)
    ensures RoundAt(x, s) == x <==> WholeAt(x, s)
    decreases if s < 0 then -s else s
  {
    if s == 0 {
      NearestFixes(x);
    } else if s > 0 {
      RoundFixes(10.0 * x, s - 1);
    } else {
      RoundFixes(x / 10.0, s + 1);
    }
  }

  lemma NearestIntegral(x: real)
    ensures Integral(Nearest(x))
  {
    if x < 0.0 {
      IntegralNegated((0.5 - x).Floor as real);
    }
  }

  /** What has been rounded has no more digits than that. */
  lemma {:induction false} RoundedIsWhole(x: real, s: int)
    ensures WholeAt(RoundAt(x, s), s)
    decreases if s < 0 then -s else s
  {
    if s == 0 {
      NearestIntegral(x);
    } else if s > 0 {
      RoundedIsWhole(10.0 * x, s - 1);
      assert 10.0 * RoundAt(x, s) == RoundAt(10.0 * x, s - 1);
    } else {
      RoundedIsWhole(x / 10.0, s + 1);
      assert RoundAt(x, s) / 10.0 == RoundAt(x / 10.0, s + 1);
    }
  }

  lemma {:induction false} RaisedTenfold(x: real, s: int)
    ensures Raised(x, s + 1) == 10.0 * Raised(x, s)
    decreases if s < 0 then -s else s
  {
    if s > 0 {
      RaisedTenfold(10.0 * x, s - 1);
    } else if s < 0 {
      RaisedTenfold(x / 10.0, s + 1);
      if s == -1 {
        assert Raised(x, -1) == x / 10.0;
      }
    } else {
      assert Raised(x, 1) == Raised(10.0 * x, 0);
    }
  }

  lemma {:induction false} WholeFiner(x: real, s: int, t: int)
    requires WholeAt(x, s) && s <= t
    ensures WholeAt(x, t)
    decreases t - s
  {
    if s < t {
      RaisedTenfold(x, s);
      assert Raised(x, s + 1) == (10 * Raised(x, s).Floor) as real;
      WholeFiner(x, s + 1, t);
    }
  }

  /** Rounding adds no digits. */
  lemma RoundAddsNone(x: real, s: int, t: int)
    requires WholeAt(x, t)
    ensures WholeAt(RoundAt(x, s), t)
  {
    if t <= s {
      WholeFiner(x, t, s);
      RoundFixes(x, s);
    } else {
      RoundedIsWhole(x, s);
      WholeFiner(RoundAt(x, s), s, t);
    }
  }

  lemma FloorIs(x: real, n: int)
    requires n as real <= x < n as real + 1.0
    ensures x.Floor == n
  {
  }

  lemma NearestFixes(x: real)
    ensures Nearest(x) == x <==> Integral(x)
  {
    if Integral(x) {
      if x >= 0.0 {
        FloorIs(x + 0.5, x.Floor);
      } else {
        FloorIs(0.5 - x, 0 - x.Floor);
      }
    } else if Nearest(x) == x {
      FloorIs(x, if x >= 0.0 then (x + 0.5).Floor else 0 - (0.5 - x).Floor);
    }
  }

  lemma {:induction false} RaisedNegated(x: real, s: int)
    ensures Raised(0.0 - x, s) == 0.0 - Raised(x, s)
    decreases if s < 0 then -s else s
  {
    if s > 0 {
      assert 10.0 * (0.0 - x) == 0.0 - 10.0 * x;
      RaisedNegated(10.0 * x, s - 1);
    } else if s < 0 {
      assert (0.0 - x) / 10.0 == 0.0 - x / 10.0;
      RaisedNegated(x / 10.0, s + 1);
    }
  }

  lemma WholeNegated(x: real, s: int)
    ensures WholeAt(0.0 - x, s) <==> WholeAt(x, s)
  {
    RaisedNegated(x, s);
    IntegralNegated(Raised(x, s));
  }

  lemma IntegralNegated(x: real)
    ensures Integral(0.0 - x) <==> Integral(x)
  {
    if Integral(x) {
      assert 0.0 - x == (0 - x.Floor) as real;
    }
    if Integral(0.0 - x) {
      assert x == (0 - (0.0 - x).Floor) as real;
    }
  }

  lemma ScaledTenfold(n: nat, k: int)
    ensures 10.0 * Scaled(n, k) == Scaled(n, k + 1)
    decreases if k < 0 then -k else k
  {
    if k > 0 {
      ScaledTenfold(10 * n, k - 1);
    } else if k == 0 {
      assert Scaled(n, 1) == Scaled(10 * n, 0);
    }
  }

  lemma {:induction false} RaisedScaled(n: nat, k: int, s: int)
    ensures Raised(Scaled(n, k), s) == Scaled(n, k + s)
    decreases if s < 0 then -s else s
  {
    if s > 0 {
      ScaledTenfold(n, k);
      RaisedScaled(n, k + 1, s - 1);
    } else if s < 0 {
      ScaledTenfold(n, k - 1);
      RaisedScaled(n, k - 1, s + 1);
    }
  }

  lemma {:induction false} ScaledUpIntegral(n: nat, k: nat)
    ensures Integral(Scaled(n, k))
    decreases k
  {
    if k > 0 {
      ScaledUpIntegral(10 * n, k - 1);
    }
  }

  /** In lowest terms nothing less than the scale makes a number whole. */
  lemma ScaledDownIntegral(n: Normal, j: nat)
    requires Lowest(n) && n.scale > 0 && j > 0
    ensures !Integral(Scaled(Num(n.digits), 0 - j))
  {
    var x := Scaled(Num(n.digits), 0 - j);
    ScaledInjective(Num(n.digits), 0, 0 - j);
    if Integral(x) {
      var m: nat := x.Floor;
      ScaledShift(m, 0 - j, j);
      ScaledInjective(Num(n.digits), Shifted(m, j), 0 - j);
    }
    ShiftedLast(n.digits, x, j);
  }

  lemma ShiftedLast(digits: string, x: real, j: nat)
    requires NoLeadingZero(digits) && j > 0
    ensures x.Floor >= 0 && Num(digits) == Shifted(x.Floor, j) ==> digits[|digits| - 1] == '0'
  {
    if x.Floor >= 0 {
      ShiftedEndsInZero(digits, x.Floor, j);
    }
  }

  /** How many zeros a digit string ends in. */
  function TrailingZeros(digits: string): nat {
    if digits != "" && digits[|digits| - 1] == '0' then 1 + TrailingZeros(digits[..|digits| - 1]) else 0
  }

  /** A number in front of the point is a multiple of ten to the j exactly when it ends in j zeros. */
  lemma {:induction false} ShiftedEnds(digits: string, j: nat)
    requires NoLeadingZero(digits)
    ensures Integral(Scaled(Num(digits), 0 - j)) <==> j <= TrailingZeros(digits)
    decreases j
  {
    var n := Num(digits);
    if j > 0 {
      NumPositive(digits);
      if digits[|digits| - 1] == '0' {
        var shorter := digits[..|digits| - 1];
        ScaledTen(Num(shorter), 0 - j);
        ShiftedEnds(shorter, j - 1);
      } else if Integral(Scaled(n, 0 - j)) {
        ScaledInjective(n, 0, 0 - j);
        var m: nat := Scaled(n, 0 - j).Floor;
        ScaledShift(m, 0 - j, j);
        ScaledInjective(n, Shifted(m, j), 0 - j);
        ShiftedEndsInZero(digits, m, j);
      }
    }
  }

  /** The digits a normal form has after the point; negative for the zeros it ends in. */
  function Precision(n: Normal): int {
    if n.scale > 0 then n.scale else 0 - TrailingZeros(n.digits)
  }

  lemma MagnitudeWhole(n: Normal, s: int)
    requires Lowest(n)
    ensures WholeAt(Magnitude(n), s) <==> Precision(n) <= s
  {
    RaisedScaled(Num(n.digits), 0 - n.scale, s);
    if n.scale == 0 && s < 0 {
      ShiftedEnds(n.digits, 0 - s);
    } else if n.scale <= s {
      ScaledUpIntegral(Num(n.digits), s - n.scale);
    } else {
      ScaledDownIntegral(n, n.scale - s);
    }
  }

  lemma {:induction false} ZeroWhole(s: int)
    ensures WholeAt(0.0, s)
    decreases if s < 0 then -s else s
  {
    if s > 0 {
      ZeroWhole(s - 1);
    } else if s < 0 {
      ZeroWhole(s + 1);
    }
  }

  lemma {:induction false} TrailingAfter(prefix: string, digits: string)
    requires NoLeadingZero(digits)
    ensures TrailingZeros(prefix + digits) == TrailingZeros(digits)
  {
    if digits[|digits| - 1] == '0' {
      assert (prefix + digits)[..|prefix + digits| - 1] == prefix + digits[..|digits| - 1];
      TrailingAfter(prefix, digits[..|digits| - 1]);
    }
  }

  /** The digits a canonical text has after the point; negative for the zeros it ends in. */
  function TextPrecision(text: string): int {
    var dot := FirstDot(text);
    if dot < |text| then |text| - dot - 1 else 0 - TrailingZeros(text)
  }

  lemma PointPrecision(before: string, after: string)
    requires forall i :: 0 <= i < |before| ==> before[i] != '.'
    ensures var text := before + ("." + after); TextPrecision(text) == |after| && text != "0"
  {
    FirstDotAt(before, "." + after);
    assert (before + ("." + after))[|before|] == '.';
  }

  lemma PlainPrecision(sign: string, digits: string)
    requires NoLeadingZero(digits) && (sign == "" || sign == "-")
    ensures TextPrecision(sign + digits) == 0 - TrailingZeros(digits) && sign + digits != "0"
  {
    FirstDotAt(sign + digits, "");
    assert sign + digits + "" == sign + digits;
    TrailingAfter(sign, digits);
    assert (sign + digits)[|sign|] == digits[0];
  }

  lemma Regroup(a: string, b: string, c: string)
    ensures a + (b + c) == (a + b) + c
  {
  }

  /** Reading the precision off the rendered text. */
  lemma RenderedPrecision(negative: bool, n: Normal)
    requires Lowest(n)
    ensures var text := Render(SignText(negative), n.digits, n.scale);
      TextPrecision(text) == Precision(n) && text != "0"
  {
    var sign := SignText(negative);
    if n.scale == 0 {
      assert n.digits + Zeros(0) == n.digits;
      PlainPrecision(sign, n.digits);
    } else if n.scale >= |n.digits| {
      var tail := Zeros(n.scale - |n.digits|) + n.digits;
      assert "0." + tail == "0" + ("." + tail);
      Regroup(sign, "0", "." + tail);
      PointPrecision(sign + "0", tail);
    } else {
      var cut := |n.digits| - n.scale;
      var head, tail := n.digits[..cut], n.digits[cut..];
      Regroup(sign, head, "." + tail);
      PointPrecision(sign + head, tail);
    }
  }

  /** What a caller can read off a canonical text: it has at most s digits after the point. */
  predicate TextWholeAt(text: string, s: int) {
    text == "0" || TextPrecision(text) <= s
  }

  /** A numeric key survives rounding to s digits exactly when its canonical text has no more than s
      digits after the point. */
  lemma KeyKeptExactly(p: Parts, s: int)
    requires AllDigits(p.whole) && AllDigits(p.fraction)
    ensures RoundAt(Value(p), s) == Value(p) <==> WholeAt(Value(p), s)
    ensures WholeAt(Value(p), s) <==> TextWholeAt(Canonical(p), s)
  {
    RoundFixes(Value(p), s);
    MagnitudeSign(p);
    if TrimZeros(p.whole + p.fraction) == "" {
      ZeroWhole(s);
    } else {
      NormaliseKeepsValue(p);
      var n := Normalise(p);
      CanonicalIsRendered(p);
      RenderedPrecision(p.negative, n);
      MagnitudeWhole(n, s);
      WholeNegated(Magnitude(n), s);
    }
  }
}
