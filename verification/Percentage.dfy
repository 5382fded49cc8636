/** Exact percentages as decimal text (packages/shared-kernel/src/percentage.ts). */
module Percentage {
  import opened Results
  import opened IntegerMath
  import opened DecimalText
  import opened Money

  const MAX_SCALE := 30

  /** The ratio value / 10^scale. */
  datatype Percentage = Percentage(value: int, scale: nat)

  datatype InvalidPercentage = NotALiteral | TooPrecise

  function FromPercent(text: string): Result<Percentage, InvalidPercentage> {
    match MatchLiteral(text)
    case None => Err(NotALiteral)
    case Some(l) =>
      if |l.fraction| + 2 > MAX_SCALE then Err(TooPrecise)
      else
        assert AllDigits(l.whole + l.fraction);
        Ok(Percentage(Signed(l.negative, Value(l.whole + l.fraction)), |l.fraction| + 2))
  }

  /** A magnitude over `divisor` = 10^width: whole part, and the fraction without trailing zeros. */
  function FractionText(magnitude: nat, divisor: nat, width: nat): string
    requires divisor > 0
  {
    var fraction := StripZeros(PadStart(NatText(Residue(magnitude, divisor)), width));
    if fraction == "" then NatText(Quotient(magnitude, divisor))
    else NatText(Quotient(magnitude, divisor)) + "." + fraction
  }

  /** toString without the closing percent sign: percent is value / 10^(scale - 2). */
  function PercentText(p: Percentage): string {
    (if p.value < 0 then "-" else "")
    + if p.scale <= 2 then NatText(Product(Abs(p.value), Pow10(2 - p.scale)))
      else FractionText(Abs(p.value), Pow10(p.scale - 2), p.scale - 2)
  }

  /** Two scaled integers denoting one ratio. */
  predicate SameRatio(p: Percentage, q: Percentage) {
    p.value * Pow10(q.scale) == q.value * Pow10(p.scale)
  }

  lemma {:induction false} StripKeepsValue(s: string)
    requires AllDigits(s)
    ensures var t := StripZeros(s); AllDigits(t) && |t| <= |s| && Value(s) == Value(t) * Pow10(|s| - |t|)
  {
    if |s| > 0 && s[|s| - 1] == '0' {
      var init := s[..|s| - 1];
      StripKeepsValue(init);
      var t := StripZeros(init);
      assert 10 * (Value(t) * Pow10(|init| - |t|)) == Value(t) * (10 * Pow10(|init| - |t|));
    } else {
      assert Pow10(0) == 1;
    }
  }

  /** The literal that FractionText prints. */
  lemma FractionIsLiteral(negative: bool, magnitude: nat, width: nat)
    returns (l: Literal)
    requires width > 0
    ensures WellFormed(l) && l.negative == negative && |l.fraction| <= width
    ensures (if negative then "-" else "") + FractionText(magnitude, Pow10(width), width) == LiteralText(l)
    ensures MinorUnits(Value(l.whole), Pow10(width), Value(l.fraction) * Pow10(width - |l.fraction|)) == magnitude
  {
    var divisor := Pow10(width);
    var whole, rest := Quotient(magnitude, divisor), Residue(magnitude, divisor);
    PadStartIsFixedDigits(rest, width);
    ValueFixedDigits(rest, width);
    StripKeepsValue(FixedDigits(rest, width));
    ValueNatText(whole);
    l := Literal(negative, NatText(whole), StripZeros(FixedDigits(rest, width)));
    DivisionParts(magnitude, divisor);
  }

  /** Read as one integer at the printed precision, the digits are the value. */
  ghost predicate ReadsAs(l: Literal, magnitude: nat, scale: nat) {
    && AllDigits(l.whole + l.fraction)
    && Value(l.whole + l.fraction) * Pow10(scale) == magnitude * Pow10(|l.fraction| + 2)
  }

  /** l is the literal that is printed, and its digits read as the value. */
  ghost predicate Prints(p: Percentage, l: Literal) {
    && WellFormed(l) && l.negative == (p.value < 0) && PercentText(p) == LiteralText(l)
    && |l.fraction| <= (if p.scale > 2 then p.scale - 2 else 0)
    && ReadsAs(l, Abs(p.value), p.scale)
  }

  lemma PrintedLiteral(p: Percentage) returns (l: Literal)
    ensures Prints(p, l)
  {
    if p.scale <= 2 {
      l := PrintedWhole(p);
    } else {
      l := PrintedWithFraction(p);
    }
  }

  lemma PrintedWithFraction(p: Percentage) returns (l: Literal)
    requires p.scale > 2
    ensures Prints(p, l)
  {
    l := FractionIsLiteral(p.value < 0, Abs(p.value), p.scale - 2);
    assert PercentText(p)
        == (if p.value < 0 then "-" else "") + FractionText(Abs(p.value), Pow10(p.scale - 2), p.scale - 2);
    PrintedFraction(Abs(p.value), p.scale - 2, l);
  }

  lemma PrintedWhole(p: Percentage) returns (l: Literal)
    requires p.scale <= 2
    ensures Prints(p, l)
  {
    var shifted := Product(Abs(p.value), Pow10(2 - p.scale));
    l := Literal(p.value < 0, NatText(shifted), "");
    ValueNatText(shifted);
    assert l.whole + "" == l.whole;
    Pow10Add(2 - p.scale, p.scale);
    ShiftBack(Abs(p.value), Pow10(2 - p.scale), Pow10(p.scale), Pow10(2));
  }

  lemma ShiftBack(a: nat, b: nat, c: nat, d: nat)
    requires d == b * c
    ensures Product(a, b) * c == a * d
  {
    Reassociate(a, b, c);
  }

  lemma PrintedFraction(magnitude: nat, width: nat, l: Literal)
    requires WellFormed(l) && |l.fraction| <= width
    requires MinorUnits(Value(l.whole), Pow10(width), Value(l.fraction) * Pow10(width - |l.fraction|)) == magnitude
    ensures ReadsAs(l, magnitude, width + 2)
  {
    ValueConcat(l.whole, l.fraction);
    var cut := width - |l.fraction|;
    Pow10Add(cut, |l.fraction|);
    Pow10Add(width, 2);
    Pow10Add(|l.fraction|, 2);
    JoinedDigits(Value(l.whole), Value(l.fraction), Pow10(cut), Pow10(|l.fraction|), Pow10(2), Pow10(width));
  }

  lemma Reassociate(a: int, b: int, c: int)
    ensures (a * b) * c == a * (b * c)
  {}

  lemma JoinedDigits(w: nat, v: nat, c: nat, f: nat, h: nat, divisor: nat)
    requires divisor == c * f
    ensures (w * f + v) * (divisor * h) == MinorUnits(w, divisor, v * c) * (f * h)
  {
    var a := w * f + v;
    assert a * c == w * divisor + v * c by {
      assert (w * f + v) * c == w * (c * f) + v * c;
    }
    Reassociate(c, f, h);
    Reassociate(a, c, f * h);
  }

  ghost predicate Denotes(text: string, l: Literal) {
    WellFormed(l) && text == LiteralText(l)
  }

  /** All the literal's digits, over a power of ten two places finer. */
  ghost predicate ReadAs(l: Literal, p: Percentage)
    requires WellFormed(l)
  {
    var digits: int := Value(l.whole + l.fraction);
    p.scale == |l.fraction| + 2 && p.value == if l.negative then -digits else digits
  }

  /** Parsing accepts exactly the decimal literals of at most 28 fractional digits. */
  lemma ParsingIsExact(text: string, p: Percentage)
    ensures FromPercent(text) == Err(NotALiteral) <==> forall l :: !Denotes(text, l)
    ensures FromPercent(text) == Err(TooPrecise) <==> exists l :: Denotes(text, l) && |l.fraction| > 28
    ensures FromPercent(text) == Ok(p) <==> exists l :: Denotes(text, l) && |l.fraction| <= 28 && ReadAs(l, p)
  {
    var m := MatchLiteral(text);
    forall l ensures m == Some(l) <==> Denotes(text, l) {
      MatchIsGrammar(text, l);
    }
    if m.Some? {
      assert Denotes(text, m.value);
    }
  }

  /** Printing never produces a text that parsing refuses, and the parsed value
      denotes the same ratio, for every value at every permitted scale. */
  lemma PrintParsePreservesRatio(p: Percentage)
    requires p.scale <= MAX_SCALE
    ensures FromPercent(PercentText(p)).Ok? && SameRatio(FromPercent(PercentText(p)).value, p)
  {
    var l := PrintedLiteral(p);
    MatchIsGrammar(PercentText(p), l);
    SameSign(p.value, Value(l.whole + l.fraction), Pow10(p.scale), Pow10(|l.fraction| + 2));
  }

  lemma SameSign(value: int, digits: nat, a: nat, b: nat)
    requires digits * a == Abs(value) * b
    ensures Signed(value < 0, digits) * a == value * b
  {
    NegatedProduct(digits, a);
    NegatedProduct(value, b);
  }

  // ---------------------------------------------------------------------
  // The text is canonical
  // ---------------------------------------------------------------------

  lemma FinerFraction(magnitude: nat, divisor: nat, width: nat)
    requires width > 0 && divisor == Pow10(width)
    ensures FractionText(10 * magnitude, 10 * divisor, width + 1) == FractionText(magnitude, divisor, width)
  {
    var rest := Residue(magnitude, divisor);
    ScaledDivision(magnitude, divisor, 10);
    PadStartIsFixedDigits(rest, width);
    PadStartIsFixedDigits(10 * rest, width + 1);
    StripOneZero(rest, width);
  }

  lemma StripOneZero(rest: nat, width: nat)
    ensures StripZeros(FixedDigits(10 * rest, width + 1)) == StripZeros(FixedDigits(rest, width))
  {
    var finer := FixedDigits(10 * rest, width + 1);
    assert (10 * rest) / 10 == rest && (10 * rest) % 10 == 0;
    assert finer == FixedDigits(rest, width) + ['0'];
    assert finer[..width] == FixedDigits(rest, width);
  }

  /** One more decimal place does not change the text. */
  lemma FinerScaleSameText(p: Percentage)
    ensures PercentText(Percentage(10 * p.value, p.scale + 1)) == PercentText(p)
  {
    var magnitude := Abs(p.value);
    assert Abs(10 * p.value) == 10 * magnitude;
    if p.scale < 2 {
      Reassociate(magnitude, 10, Pow10(1 - p.scale));
    } else if p.scale == 2 {
      assert Pow10(0) == 1 && Pow10(1) == 10;
      PadStartIsFixedDigits(0, 1);
      StripOneZero(0, 0);
      assert StripZeros(FixedDigits(0, 0)) == "";
    } else {
      FinerFraction(magnitude, Pow10(p.scale - 2), p.scale - 2);
    }
  }

  lemma {:induction false} ScaledUpSameText(p: Percentage, k: nat, q: Percentage)
    requires q.scale == p.scale + k && q.value == p.value * Pow10(k)
    ensures PercentText(q) == PercentText(p)
  {
    if k == 0 {
      assert q == p;
    } else {
      var mid := Percentage(p.value * Pow10(k - 1), p.scale + k - 1);
      ScaledUpSameText(p, k - 1, mid);
      TenTimes(p.value, Pow10(k - 1), Pow10(k));
      assert q == Percentage(10 * mid.value, mid.scale + 1);
      FinerScaleSameText(mid);
    }
  }

  lemma TenTimes(a: int, b: int, c: int)
    requires c == 10 * b
    ensures 10 * (a * b) == a * c
  {}

  lemma SameRatioSameText(p: Percentage, q: Percentage)
    requires SameRatio(p, q) && p.scale <= q.scale
    ensures PercentText(p) == PercentText(q)
  {
    var k := q.scale - p.scale;
    Pow10Add(k, p.scale);
    Reassociate(p.value, Pow10(k), Pow10(p.scale));
    CancelFactor(p.value * Pow10(k), q.value, Pow10(p.scale));
    ScaledUpSameText(p, k, q);
  }

  lemma CancelFactor(a: int, b: int, d: int)
    requires d > 0 && a * d == b * d
    ensures a == b
  {
    Products(a, b, d);
    Products(b, a, d);
  }

  lemma RatioIsTransitive(p: Percentage, m: Percentage, q: Percentage)
    requires SameRatio(m, p) && SameRatio(m, q)
    ensures SameRatio(p, q)
  {
    CrossMultiply(p.value, Pow10(p.scale), m.value, Pow10(m.scale), q.value, Pow10(q.scale));
  }

  lemma CrossMultiply(p: int, P: nat, m: int, M: nat, q: int, Q: nat)
    requires M > 0 && m * P == p * M && m * Q == q * M
    ensures p * Q == q * P
  {
    assert (p * Q) * M == (p * M) * Q == (m * P) * Q == (m * Q) * P == (q * M) * P == (q * P) * M;
    CancelFactor(p * Q, q * P, M);
  }

  /** The printed text is a canonical form: two percentages print alike exactly
      when they denote the same ratio, whatever their scales. */
  lemma TextIsCanonical(p: Percentage, q: Percentage)
    requires p.scale <= MAX_SCALE && q.scale <= MAX_SCALE
    ensures PercentText(p) == PercentText(q) <==> SameRatio(p, q)
  {
    if PercentText(p) == PercentText(q) {
      PrintParsePreservesRatio(p);
      PrintParsePreservesRatio(q);
      RatioIsTransitive(p, FromPercent(PercentText(p)).value, q);
    }
    if SameRatio(p, q) {
      if p.scale <= q.scale {
        SameRatioSameText(p, q);
      } else {
        SameRatioSameText(q, p);
      }
    }
  }
}
