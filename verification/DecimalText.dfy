/** Decimal digits as text: what BigInt(text), toString, padStart and padEnd do,
    and the literal grammar that amounts and percentages share. */
module DecimalText {
  import opened Results
  import opened IntegerMath

  predicate IsDigit(c: char) { '0' <= c <= '9' }

  predicate AllDigits(s: string) { forall i :: 0 <= i < |s| ==> IsDigit(s[i]) }

  function DigitChar(d: nat): (c: char)
    requires d < 10
    ensures IsDigit(c) && DigitValue(c) == d
  {
    ('0' as int + d) as char
  }

  function DigitValue(c: char): (d: nat)
    requires IsDigit(c)
    ensures d < 10
  {
    c as int - '0' as int
  }

  /** BigInt(text) for a text of digits. */
  function Value(s: string): nat
    requires AllDigits(s)
  {
    if |s| == 0 then 0 else 10 * Value(s[..|s| - 1]) + DigitValue(s[|s| - 1])
  }

  /** n.toString(): the digits of n without leading zeros. */
  function NatText(n: nat): (s: string)
    ensures |s| > 0 && AllDigits(s)
  {
    if n < 10 then [DigitChar(n)] else NatText(n / 10) + [DigitChar(n % 10)]
  }

  function Zeros(n: nat): (s: string)
    ensures |s| == n && AllDigits(s) && forall i :: 0 <= i < n ==> s[i] == '0'
  {
    seq(n, _ => '0')
  }

  function PadStart(s: string, width: nat): string {
    if |s| >= width then s else Zeros(width - |s|) + s
  }

  function PadEnd(s: string, width: nat): string {
    if |s| >= width then s else s + Zeros(width - |s|)
  }

  /** replace(/0+$/, ''). */
  function StripZeros(s: string): (t: string)
    ensures t <= s
  {
    if |s| > 0 && s[|s| - 1] == '0' then StripZeros(s[..|s| - 1]) else s
  }

  // ---------------------------------------------------------------------
  // Values of texts
  // ---------------------------------------------------------------------

  lemma ValueSnoc(s: string, c: char)
    requires AllDigits(s) && IsDigit(c)
    ensures AllDigits(s + [c]) && Value(s + [c]) == 10 * Value(s) + DigitValue(c)
  {
    assert (s + [c])[..|s|] == s;
  }

  /** Reading two texts side by side is reading the first shifted by the second's length. */
  lemma {:induction false} ValueConcat(s: string, t: string)
    requires AllDigits(s) && AllDigits(t)
    ensures AllDigits(s + t) && Value(s + t) == Value(s) * Pow10(|t|) + Value(t)
    decreases |t|
  {
    if |t| == 0 {
      assert s + t == s;
    } else {
      var init, c := t[..|t| - 1], t[|t| - 1];
      ValueConcat(s, init);
      assert s + t == (s + init) + [c];
      ValueSnoc(s + init, c);
      assert 10 * (Value(s) * Pow10(|init|)) == Value(s) * (10 * Pow10(|init|));
    }
  }

  lemma {:induction false} ValueBelow(s: string)
    requires AllDigits(s)
    ensures Value(s) < Pow10(|s|)
  {
    if |s| > 0 {
      ValueBelow(s[..|s| - 1]);
    }
  }

  lemma {:induction false} ValueZeros(n: nat)
    ensures Value(Zeros(n)) == 0
  {
    if n > 0 {
      ValueZeros(n - 1);
      assert Zeros(n)[..n - 1] == Zeros(n - 1);
    }
  }

  lemma {:induction false} ValueNatText(n: nat)
    ensures Value(NatText(n)) == n
  {
    if n >= 10 {
      ValueNatText(n / 10);
      ValueSnoc(NatText(n / 10), DigitChar(n % 10));
    } else {
      assert [DigitChar(n)][..0] == "";
    }
  }

  // ---------------------------------------------------------------------
  // Exactly `width` digits of a number, and padStart as that
  // ---------------------------------------------------------------------

  function FixedDigits(n: nat, width: nat): (s: string)
    ensures |s| == width && AllDigits(s)
  {
    if width == 0 then "" else FixedDigits(n / 10, width - 1) + [DigitChar(n % 10)]
  }

  lemma {:induction false} ValueFixedDigits(n: nat, width: nat)
    requires n < Pow10(width)
    ensures Value(FixedDigits(n, width)) == n
  {
    if width > 0 {
      ValueFixedDigits(n / 10, width - 1);
      ValueSnoc(FixedDigits(n / 10, width - 1), DigitChar(n % 10));
    }
  }

  lemma {:induction false} FixedZeros(width: nat)
    ensures FixedDigits(0, width) == Zeros(width)
  {
    if width > 0 {
      FixedZeros(width - 1);
    }
  }

  /** A number that fits is padded to exactly `width` digits. */
  lemma {:induction false} PadStartIsFixedDigits(n: nat, width: nat)
    requires width > 0 && n < Pow10(width)
    ensures PadStart(NatText(n), width) == FixedDigits(n, width)
  {
    if n < 10 {
      FixedZeros(width - 1);
    } else {
      assert width > 1 by {
        assert Pow10(1) == 10 * Pow10(0);
      }
      PadStartIsFixedDigits(n / 10, width - 1);
      assert |NatText(n / 10)| <= width - 1;
    }
  }

  // ---------------------------------------------------------------------
  // The literal grammar: optional minus, digits, optional point and digits
  // ---------------------------------------------------------------------

  datatype Literal = Literal(negative: bool, whole: string, fraction: string)

  /** Length of the longest run of digits at the front. */
  function DigitRun(s: string): (n: nat)
    ensures n <= |s| && AllDigits(s[..n])
    ensures n < |s| ==> !IsDigit(s[n])
  {
    if |s| == 0 || !IsDigit(s[0]) then 0
    else
      var n := 1 + DigitRun(s[1..]);
      assert forall i :: 1 <= i < n ==> s[i] == s[1..][i - 1];
      n
  }

  /** Matching /^(-?)(\d+)(?:\.(\d+))?$/ and naming its groups. */
  function MatchLiteral(text: string): (m: Option<Literal>)
    ensures m.Some? ==> AllDigits(m.value.whole) && AllDigits(m.value.fraction) && m.value.whole != ""
  {
    var negative := |text| > 0 && text[0] == '-';
    var rest := if negative then text[1..] else text;
    var n := DigitRun(rest);
    if n == 0 then None
    else if n == |rest| then Some(Literal(negative, rest, ""))
    else if rest[n] == '.' && n + 1 < |rest| && AllDigits(rest[n + 1..]) then
      Some(Literal(negative, rest[..n], rest[n + 1..]))
    else None
  }

  function LiteralText(l: Literal): string {
    (if l.negative then "-" else "") + l.whole + (if l.fraction == "" then "" else "." + l.fraction)
  }

  ghost predicate WellFormed(l: Literal) {
    l.whole != "" && AllDigits(l.whole) && AllDigits(l.fraction)
  }

  lemma LiteralMatches(l: Literal)
    requires WellFormed(l)
    ensures MatchLiteral(LiteralText(l)) == Some(l)
  {
    var text := LiteralText(l);
    var tail := if l.fraction == "" then "" else "." + l.fraction;
    var sign, rest := if l.negative then "-" else "", l.whole + tail;
    JoinedText(sign, l.whole, tail);
    assert text == sign + rest && rest[0] == l.whole[0];
    assert (if l.negative then text[1..] else text) == rest;
    DigitRunStops(l.whole, tail);
    PartsOfRest(l.whole, l.fraction, tail);
  }

  lemma PartsOfRest(whole: string, fraction: string, tail: string)
    requires tail == if fraction == "" then "" else "." + fraction
    ensures (whole + tail)[..|whole|] == whole
    ensures if fraction == "" then whole + tail == whole
            else |whole| + 1 < |whole + tail| && (whole + tail)[|whole|] == '.' && (whole + tail)[|whole| + 1..] == fraction
  {
  }

  lemma MatchedIsLiteral(text: string)
    ensures MatchLiteral(text).Some? ==>
              var l := MatchLiteral(text).value; WellFormed(l) && text == LiteralText(l)
  {
    var negative := |text| > 0 && text[0] == '-';
    var rest := if negative then text[1..] else text;
    assert text == (if negative then "-" else "") + rest;
    if MatchLiteral(text).Some? {
      var l := MatchLiteral(text).value;
      RunAndFraction(rest, DigitRun(rest));
      assert rest == l.whole + (if l.fraction == "" then "" else "." + l.fraction);
      JoinedText(if negative then "-" else "", l.whole, if l.fraction == "" then "" else "." + l.fraction);
    }
  }

  lemma RunAndFraction(rest: string, n: nat)
    requires n <= |rest|
    ensures n < |rest| && rest[n] == '.' ==> rest == rest[..n] + ("." + rest[n + 1..])
  {
  }

  lemma JoinedText(sign: string, whole: string, tail: string)
    ensures sign + (whole + tail) == sign + whole + tail
  {
  }

  /** The matcher accepts exactly the texts of well-formed literals, with exactly
      their groups: nothing else matches and no text matches two ways. */
  lemma MatchIsGrammar(text: string, l: Literal)
    ensures MatchLiteral(text) == Some(l) <==> text == LiteralText(l) && WellFormed(l)
  {
    MatchedIsLiteral(text);
    if WellFormed(l) {
      LiteralMatches(l);
    }
  }

  lemma {:induction false} DigitRunStops(digits: string, tail: string)
    requires AllDigits(digits) && (tail == "" || !IsDigit(tail[0]))
    ensures DigitRun(digits + tail) == |digits|
  {
    if digits == "" {
      assert digits + tail == tail;
    } else {
      assert (digits + tail)[1..] == digits[1..] + tail;
      DigitRunStops(digits[1..], tail);
    }
  }
}
