/** Conversion through an exact scaled rate and its rounded inverse
    (packages/shared-kernel/src/exchange-rate.ts). */
module ExchangeRate {
  import opened Results
  import opened IntegerMath
  import opened Money
  import opened Strings

  const MAX_SCALE := 30

  /** mantissa / 10^scale quote units per base unit. `asOf` is None for a date whose time is NaN. */
  datatype Rate = Rate(base: Currency, quote: Currency, mantissa: int, scale: int, source: string, asOf: Option<int>)

  datatype InvalidRate = SameCurrency | NonPositiveMantissa | ScaleOutOfRange | BlankSource | InvalidDate | RoundsToZero

  datatype CurrencyMismatch = CurrencyMismatch(expected: string, got: string)

  function Of(input: Rate): Result<Rate, InvalidRate> {
    if input.base.code == input.quote.code then Err(SameCurrency)
    else if input.mantissa <= 0 then Err(NonPositiveMantissa)
    else if input.scale < 0 || input.scale > MAX_SCALE then Err(ScaleOutOfRange)
    else if Blank(input.source) then Err(BlankSource)
    else if input.asOf.None? then Err(InvalidDate)
    else Ok(input)
  }

  /** Every rate in hand came through Of. */
  predicate Valid(rate: Rate) { Of(rate) == Ok(rate) }

  function Convert(rate: Rate, amount: Money, mode: RoundingMode): Result<Money, CurrencyMismatch>
    requires Valid(rate)
  {
    if amount.currency.code != rate.base.code then Err(CurrencyMismatch(rate.base.code, amount.currency.code))
    else
      var numerator := amount.minorUnits * rate.mantissa * Pow10(rate.quote.exponent);
      var denominator := Pow10(rate.scale + rate.base.exponent);
      Ok(Money(Rounded(numerator, denominator, mode), rate.quote))
  }

  function Inverse(rate: Rate, scale: int, mode: RoundingMode): Result<Rate, InvalidRate>
    requires Valid(rate)
  {
    if scale < 0 || scale > MAX_SCALE then Err(ScaleOutOfRange)
    else
      var mantissa := Rounded(Pow10(scale + rate.scale), rate.mantissa, mode);
      if mantissa <= 0 then Err(RoundsToZero)
      else Of(Rate(rate.quote, rate.base, mantissa, scale, "inverse(" + rate.source + ")", rate.asOf))
  }

  /** Inverting fails only for a bad scale or a reciprocal that the mode takes to
      zero: the constructor it hands the result to never refuses it. */
  lemma InverseFailsExactly(rate: Rate, scale: int, mode: RoundingMode)
    requires Valid(rate)
    ensures Inverse(rate, scale, mode).Err? <==>
              scale < 0 || scale > MAX_SCALE || Rounds(Pow10(scale + rate.scale), rate.mantissa, mode, 0)
    ensures Inverse(rate, scale, mode).Ok? ==>
              var i := Inverse(rate, scale, mode).value;
              Valid(i) && i.scale == scale && Inverts(rate, i)
  {
    if 0 <= scale <= MAX_SCALE {
      ReciprocalRounds(Pow10(scale + rate.scale), rate.mantissa, mode);
      RoundedBrackets(Pow10(scale + rate.scale), rate.mantissa, mode);
      Pow10Add(scale, rate.scale);
      assert ("inverse(" + rate.source + ")")[0] == 'i';
    }
  }

  /** A positive fraction rounds to zero or above, and to zero only if the mode says so. */
  lemma ReciprocalRounds(n: int, d: int, mode: RoundingMode)
    requires n > 0 && d > 0
    ensures Rounded(n, d, mode) >= 0
    ensures Rounded(n, d, mode) == 0 <==> Rounds(n, d, mode, 0)
  {
    DivideRoundedIsExact(n, d, mode);
    RoundedBrackets(n, d, mode);
    if Rounded(n, d, mode) < 0 {
      Products(Rounded(n, d, mode), 0, d);
    }
  }

  /** `q` is within one minor unit of the exact conversion of `m`. */
  predicate Converts(rate: Rate, m: int, q: int)
    requires Valid(rate)
  {
    var unit := Pow10(rate.scale) * Pow10(rate.base.exponent);
    Abs(q * unit - m * rate.mantissa * Pow10(rate.quote.exponent)) < unit
  }

  /** `i` is within one unit of its scale of the exact reciprocal. */
  predicate Inverts(rate: Rate, i: Rate)
    requires Valid(rate) && Valid(i)
  {
    && i.base == rate.quote && i.quote == rate.base
    && Abs(i.mantissa * rate.mantissa - Pow10(i.scale) * Pow10(rate.scale)) < rate.mantissa
  }

  lemma ConvertBrackets(rate: Rate, amount: Money, mode: RoundingMode)
    requires Valid(rate)
    ensures Convert(rate, amount, mode).Ok? <==> amount.currency.code == rate.base.code
    ensures Convert(rate, amount, mode).Ok? ==>
              var q := Convert(rate, amount, mode).value;
              q.currency == rate.quote && Converts(rate, amount.minorUnits, q.minorUnits)
  {
    Pow10Add(rate.scale, rate.base.exponent);
    RoundedBrackets(amount.minorUnits * rate.mantissa * Pow10(rate.quote.exponent),
                    Pow10(rate.scale + rate.base.exponent), mode);
  }

  /** A rate is refused for the first of these it breaks, and otherwise made as asked. */
  lemma RatesAreMadeExactly(input: Rate)
    ensures var made := Of(input);
            if input.base.code == input.quote.code then made == Err(SameCurrency)
            else if input.mantissa < 1 then made == Err(NonPositiveMantissa)
            else if !(0 <= input.scale <= 30) then made == Err(ScaleOutOfRange)
            else if Trim(input.source) == "" then made == Err(BlankSource)
            else if input.asOf == None then made == Err(InvalidDate)
            else made == Ok(input)
  {
    BlankTrimsToNothing(input.source);
  }

  /** The result is the one integer of minor units the mode asked for picks. */
  lemma ConvertRoundsExactly(rate: Rate, amount: Money, mode: RoundingMode, q: Money)
    requires Valid(rate)
    ensures amount.currency.code != rate.base.code ==>
              Convert(rate, amount, mode) == Err(CurrencyMismatch(rate.base.code, amount.currency.code))
    ensures amount.currency.code == rate.base.code ==>
              (Convert(rate, amount, mode) == Ok(q)
               <==> && q.currency == rate.quote
                    && Rounds(amount.minorUnits * rate.mantissa * Pow10(rate.quote.exponent),
                              Pow10(rate.scale + rate.base.exponent), mode, q.minorUnits))
  {
    DivideRoundedIsExact(amount.minorUnits * rate.mantissa * Pow10(rate.quote.exponent),
                         Pow10(rate.scale + rate.base.exponent), mode);
  }

  /** The inverse is the rate the other way round whose mantissa the mode asked for picks. */
  lemma InverseRoundsExactly(rate: Rate, scale: int, mode: RoundingMode, i: Rate)
    requires Valid(rate)
    ensures Inverse(rate, scale, mode) == Ok(i)
       <==> && 0 <= scale <= 30 && i.mantissa > 0
            && Rounds(Pow10(scale + rate.scale), rate.mantissa, mode, i.mantissa)
            && i.base == rate.quote && i.quote == rate.base && i.scale == scale
            && i.source == "inverse(" + rate.source + ")" && i.asOf == rate.asOf
    ensures Inverse(rate, scale, mode) == Err(ScaleOutOfRange) <==> !(0 <= scale <= 30)
    ensures Inverse(rate, scale, mode) == Err(RoundsToZero)
       <==> 0 <= scale <= 30 && Rounds(Pow10(scale + rate.scale), rate.mantissa, mode, 0)
  {
    InverseFailsExactly(rate, scale, mode);
    if 0 <= scale <= MAX_SCALE {
      DivideRoundedIsExact(Pow10(scale + rate.scale), rate.mantissa, mode);
      assert ("inverse(" + rate.source + ")")[0] == 'i';
    }
  }

  /** |error| < 1 + (A/B) * (S/M + |q|/T), cleared of denominators. */
  predicate WithinBound(error: int, M: int, S: int, T: int, A: int, B: int, q: int) {
    Abs(error) * (M * T * B) < M * T * B + A * (S * T + Abs(q) * M)
  }

  /** Whenever the inverse exists, there and back is defined. */
  lemma RoundTripIsDefined(rate: Rate, amount: Money, out: RoundingMode, inv: RoundingMode, back: RoundingMode, t: int)
    requires Valid(rate) && amount.currency.code == rate.base.code
    requires Inverse(rate, t, inv).Ok?
    ensures t >= 0 && Convert(rate, amount, out).Ok? && Valid(Inverse(rate, t, inv).value)
    ensures Convert(Inverse(rate, t, inv).value, Convert(rate, amount, out).value, back).Ok?
  {
    InverseFailsExactly(rate, t, inv);
  }

  /** There and back: through a rate M/10^s to q, and through its inverse at scale t
      back to m', under any three rounding modes. The bound reads
      |m' - m| < 1 + 10^(eb - eq) * (10^s/M + |q|/10^t). */
  lemma RoundTripError(
    rate: Rate, amount: Money, out: RoundingMode, inv: RoundingMode, back: RoundingMode, t: int, i: Rate, q: Money,
        returned: Money)
    requires Valid(rate) && amount.currency.code == rate.base.code && t >= 0
    requires Inverse(rate, t, inv) == Ok(i) && Convert(rate, amount, out) == Ok(q) && Convert(i, q, back) == Ok(returned)
    ensures WithinBound(returned.minorUnits - amount.minorUnits,
                        rate.mantissa, Pow10(rate.scale), Pow10(t),
                        Pow10(rate.base.exponent), Pow10(rate.quote.exponent), q.minorUnits)
  {
    InverseInverts(rate, t, inv, i);
    ConvertedWithin(rate, amount, out, q);
    ConvertedWithin(i, q, back, returned);
    StepsCompose(rate, i, amount.minorUnits, q.minorUnits, returned.minorUnits);
  }

  lemma InverseInverts(rate: Rate, t: int, mode: RoundingMode, i: Rate)
    requires Valid(rate) && Inverse(rate, t, mode) == Ok(i)
    ensures Valid(i) && i.scale == t && Inverts(rate, i)
  {
    InverseFailsExactly(rate, t, mode);
  }

  lemma ConvertedWithin(rate: Rate, amount: Money, mode: RoundingMode, q: Money)
    requires Valid(rate) && Convert(rate, amount, mode) == Ok(q)
    ensures Converts(rate, amount.minorUnits, q.minorUnits)
  {
    ConvertBrackets(rate, amount, mode);
  }

  lemma StepsCompose(rate: Rate, i: Rate, m: int, q: int, m': int)
    requires Valid(rate) && Valid(i) && Inverts(rate, i)
    requires Converts(rate, m, q) && Converts(i, q, m')
    ensures WithinBound(m' - m, rate.mantissa, Pow10(rate.scale), Pow10(i.scale),
                        Pow10(rate.base.exponent), Pow10(rate.quote.exponent), q)
  {
    ErrorsCompose(m, rate.mantissa, q, i.mantissa, m', Pow10(rate.base.exponent),
                  Pow10(rate.quote.exponent), Pow10(rate.scale), Pow10(i.scale));
  }

  lemma ErrorsCompose(m: int, M: int, q: int, I: int, m': int, A: int, B: int, S: int, T: int)
    requires M > 0 && A > 0 && B > 0 && S > 0 && T > 0
    requires Abs(q * (S * A) - m * M * B) < S * A
    requires Abs(I * M - T * S) < M
    requires Abs(m' * (T * B) - q * I * A) < T * B
    ensures WithinBound(m' - m, M, S, T, A, B, q)
  {
    var e1, e2, e3 := q * (S * A) - m * M * B, I * M - T * S, m' * (T * B) - q * I * A;
    ErrorIdentity(m, M, q, I, m', A, B, S, T);
    ScaledError(M, e3, T * B);
    ScaledError(T, e1, S * A);
    SignedError(q, A, e2, M);
    FinalBound(m' - m, M, T, B, M * e3, T * e1, (q * A) * e2, A, S, q);
  }

  lemma ErrorIdentity(m: int, M: int, q: int, I: int, m': int, A: int, B: int, S: int, T: int)
    ensures M * (m' * (T * B) - q * I * A) + T * (q * (S * A) - m * M * B) + (q * A) * (I * M - T * S)
         == (m' - m) * (M * T * B)
  {}

  lemma ScaledError(k: int, e: int, bound: int)
    requires k > 0 && Abs(e) < bound
    ensures Abs(k * e) < k * bound
  {
    Products(e, bound, k);
    Products(-bound, e, k);
    NegatedProduct(bound, k);
  }

  lemma SignedError(q: int, a: int, e: int, bound: int)
    requires a > 0 && Abs(e) < bound
    ensures Abs((q * a) * e) <= (Abs(q) * a) * bound
  {
    NegatedProduct(q, a);
    if q == 0 {
      assert (q * a) * e == 0;
    } else {
      Products(0, Abs(q), a);
      ScaledError(Abs(q) * a, e, bound);
      NegatedProduct(Abs(q) * a, e);
    }
  }

  lemma FinalBound(d: int, M: int, T: int, B: int, x: int, y: int, z: int, A: int, S: int, q: int)
    requires M > 0 && T > 0 && B > 0
    requires x + y + z == d * (M * T * B)
    requires Abs(x) < M * (T * B) && Abs(y) < T * (S * A) && Abs(z) <= (Abs(q) * A) * M
    ensures WithinBound(d, M, S, T, A, B, q)
  {
    var u := M * T * B;
    NegatedProduct(d, u);
    assert Abs(d * u) <= Abs(x) + Abs(y) + Abs(z);
    Regroup(M, T, B, A, S, Abs(q));
    Magnitude(d, M, T, B);
  }

  lemma Regroup(M: int, T: int, B: int, A: int, S: int, q: int)
    ensures M * (T * B) == M * T * B
    ensures T * (S * A) + (q * A) * M == A * (S * T + q * M)
  {}

  lemma Magnitude(d: int, M: int, T: int, B: int)
    requires M > 0 && T > 0 && B > 0
    ensures Abs(d * (M * T * B)) == Abs(d) * (M * T * B)
  {
    Products(0, M, T);
    Products(0, M * T, B);
    AbsOfProduct(d, M * T * B);
  }

  lemma AbsOfProduct(d: int, u: int)
    requires u > 0
    ensures Abs(d * u) == Abs(d) * u
  {
    NegatedProduct(d, u);
    Products(0, d, u);
    Products(d, 0, u);
  }
}
