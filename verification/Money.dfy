/** Amounts as decimal text (packages/shared-kernel/src/money.ts). */
module Money {
  import opened Results
  import opened IntegerMath
  import opened DecimalText

  /** A currency with its ISO 4217 minor-unit exponent. */
  datatype Currency = Currency(code: string, exponent: nat)

  /** Integer minor units: 10^exponent of them make one major unit. */
  datatype Money = Money(minorUnits: int, currency: Currency)

  datatype InvalidAmount = NotADecimal | ExcessPrecision

  function Signed(negative: bool, magnitude: int): int {
    if negative then -magnitude else magnitude
  }

  /** whole*scale + fraction, the minor units of a literal's magnitude. */
  function MinorUnits(whole: nat, scale: nat, fraction: nat): nat {
    Product(whole, scale) + fraction
  }

  function FromDecimalString(text: string, currency: Currency): Result<Money, InvalidAmount> {
    match MatchLiteral(text)
    case None => Err(NotADecimal)
    case Some(l) =>
      if |l.fraction| > currency.exponent then Err(ExcessPrecision)
      else
        var padded := PadEnd(l.fraction, currency.exponent);
        var fractionUnits := if padded == "" then 0 else Value(padded);
        Ok(Money(Signed(l.negative, MinorUnits(Value(l.whole), Pow10(currency.exponent), fractionUnits)), currency))
  }

  /** The magnitude with its fraction padded to the exponent. */
  function MagnitudeText(magnitude: nat, scale: nat, exponent: nat): string
    requires scale > 0
  {
    if exponent == 0 then NatText(Quotient(magnitude, scale))
    else NatText(Quotient(magnitude, scale)) + "." + PadStart(NatText(Residue(magnitude, scale)), exponent)
  }

  /** The numeric part of toString. */
  function NumericText(m: Money): string {
    (if m.minorUnits < 0 then "-" else "")
    + MagnitudeText(Abs(m.minorUnits), Pow10(m.currency.exponent), m.currency.exponent)
  }

  lemma PaddedValue(fraction: string, exponent: nat)
    requires AllDigits(fraction) && |fraction| <= exponent
    ensures var padded := PadEnd(fraction, exponent);
            && AllDigits(padded) && |padded| == exponent
            && Value(padded) == Value(fraction) * Pow10(exponent - |fraction|)
  {
    ValueConcat(fraction, Zeros(exponent - |fraction|));
    ValueZeros(exponent - |fraction|);
    if |fraction| == exponent {
      assert Pow10(0) == 1;
    }
  }

  /** Parsing accepts exactly the decimal literals with no more fractional digits
      than the currency has, and loses nothing: the minor units denote the
      literal's value digit for digit. */
  lemma ParsingIsExact(text: string, currency: Currency)
    ensures FromDecimalString(text, currency).Ok?
       <==> MatchLiteral(text).Some? && |MatchLiteral(text).value.fraction| <= currency.exponent
    ensures FromDecimalString(text, currency).Ok? ==>
              var m, l := FromDecimalString(text, currency).value, MatchLiteral(text).value;
              && m.currency == currency
              && AllDigits(l.whole + l.fraction)
              && m.minorUnits * Pow10(|l.fraction|)
                 == Signed(l.negative, Value(l.whole + l.fraction)) * Pow10(currency.exponent)
  {
    if FromDecimalString(text, currency).Ok? {
      var l := MatchLiteral(text).value;
      var f, g := |l.fraction|, currency.exponent - |l.fraction|;
      PaddedValue(l.fraction, currency.exponent);
      ValueConcat(l.whole, l.fraction);
      Pow10Add(g, f);
      assert Value("") == 0;
      ShiftedDigits(l.negative, Value(l.whole), Value(l.fraction), Pow10(f), Pow10(g), Pow10(currency.exponent));
    }
  }

  lemma ShiftedDigits(negative: bool, w: nat, v: nat, f: nat, g: nat, scale: nat)
    requires scale == g * f
    ensures Signed(negative, MinorUnits(w, scale, v * g)) * f == Signed(negative, w * f + v) * scale
  {
    assert (w * (g * f) + v * g) * f == (w * f + v) * (g * f) by {
      assert (w * (g * f)) * f + (v * g) * f == (w * f) * (g * f) + v * (g * f);
    }
    NegatedProduct(w * scale + v * g, f);
    NegatedProduct(w * f + v, scale);
  }

  /** Printing then parsing returns the same amount, for every amount and exponent. */
  lemma PrintParseRoundTrip(m: Money)
    ensures FromDecimalString(NumericText(m), m.currency) == Ok(m)
  {
    var exponent, scale, magnitude := m.currency.exponent, Pow10(m.currency.exponent), Abs(m.minorUnits);
    var whole, rest := Quotient(magnitude, scale), Residue(magnitude, scale);
    ValueNatText(whole);
    var fraction := if exponent == 0 then "" else FixedDigits(rest, exponent);
    var l := Literal(m.minorUnits < 0, NatText(whole), fraction);
    if exponent > 0 {
      PadStartIsFixedDigits(rest, exponent);
      ValueFixedDigits(rest, exponent);
    }
    MagnitudeIsLiteral(magnitude, scale, exponent, l);
    MatchIsGrammar(NumericText(m), l);
    assert PadEnd(fraction, exponent) == fraction;
    DivisionParts(magnitude, scale);
    if exponent == 0 {
      assert Pow10(0) == 1;
    }
  }

  lemma MagnitudeIsLiteral(magnitude: nat, scale: nat, exponent: nat, l: Literal)
    requires scale > 0 && WellFormed(l) && |l.fraction| == exponent
    requires l.whole == NatText(Quotient(magnitude, scale))
    requires exponent > 0 ==> l.fraction == PadStart(NatText(Residue(magnitude, scale)), exponent)
    ensures (if l.negative then "-" else "") + MagnitudeText(magnitude, scale, exponent) == LiteralText(l)
  {}

  lemma DivisionParts(n: nat, d: nat)
    requires d > 0
    ensures MinorUnits(Quotient(n, d), d, Residue(n, d)) == n
    ensures d == 1 ==> Residue(n, d) == 0
  {}
}
