/** Exact integer division under an explicit rounding mode
    (packages/shared-kernel/src/internal/integer-math.ts). */
module IntegerMath {
  import opened Results

  datatype RoundingMode = HalfUp | HalfEven | Floor | Ceil | Trunc

  datatype KernelError = NonPositiveDenominator

  function Pow10(exponent: nat): (p: nat)
    ensures p > 0
  {
    if exponent == 0 then 1 else 10 * Pow10(exponent - 1)
  }

  lemma {:induction false} Pow10Add(a: nat, b: nat)
    ensures Pow10(a + b) == Pow10(a) * Pow10(b)
  {
    if a > 0 {
      Pow10Add(a - 1, b);
    }
  }

  function Abs(x: int): nat { if x < 0 then -x else x }

  /** Division and remainder of magnitudes. */
  function Quotient(n: nat, d: nat): (q: nat)
    requires d > 0
  {
    n / d
  }

  function Residue(n: nat, d: nat): (r: nat)
    requires d > 0
    ensures r < d
  {
    n % d
  }

  function Product(a: nat, b: nat): (p: nat) { a * b }

  /** BigInt division: toward zero, where Dafny's own `/` rounds toward minus infinity. */
  function TruncDiv(n: int, d: int): int
    requires d > 0
  {
    if n >= 0 then n / d else -((-n) / d)
  }

  /** BigInt remainder: carries the sign of the numerator. */
  function TruncMod(n: int, d: int): int
    requires d > 0
  {
    if n >= 0 then n % d else -((-n) % d)
  }

  lemma TruncDivMod(n: int, d: int)
    requires d > 0
    ensures n == TruncDiv(n, d) * d + TruncMod(n, d)
    ensures Abs(TruncMod(n, d)) < d
    ensures n >= 0 ==> TruncMod(n, d) >= 0
    ensures n <= 0 ==> TruncMod(n, d) <= 0
  {
    var m := Abs(n);
    var k, r := m / d, m % d;
    assert m == k * d + r && 0 <= r < d;
    if n < 0 {
      assert (-k) * d == -(k * d);
    }
  }

  /** The rounding step for a positive denominator, branch for branch. */
  function Rounded(numerator: int, denominator: int, mode: RoundingMode): int
    requires denominator > 0
  {
    var quotient := TruncDiv(numerator, denominator);
    var remainder := TruncMod(numerator, denominator);
    if remainder == 0 then quotient
    else
      var negative := numerator < 0;
      var awayFromZero := if negative then quotient - 1 else quotient + 1;
      match mode
      case Trunc => quotient
      case Floor => if negative then quotient - 1 else quotient
      case Ceil => if negative then quotient else quotient + 1
      case HalfUp => if 2 * Abs(remainder) >= denominator then awayFromZero else quotient
      case HalfEven =>
        if 2 * Abs(remainder) > denominator then awayFromZero
        else if 2 * Abs(remainder) < denominator then quotient
        else if TruncMod(quotient, 2) == 0 then quotient
        else awayFromZero
  }

  function DivideRounded(numerator: int, denominator: int, mode: RoundingMode): Result<int, KernelError> {
    if denominator <= 0 then Err(NonPositiveDenominator) else Ok(Rounded(numerator, denominator, mode))
  }

  /** What each mode means, without dividing: `q` is the integer the mode picks for n/d. */
  ghost predicate Rounds(n: int, d: int, mode: RoundingMode, q: int)
    requires d > 0
  {
    Picks(n, d, mode, q, q * d)
  }

  /** The same with the product q*d named `p`, so that only linear facts remain. */
  ghost predicate Picks(n: int, d: int, mode: RoundingMode, q: int, p: int) {
    match mode
    case Floor => p <= n < p + d
    case Ceil => p - d < n <= p
    case Trunc => if n >= 0 then p <= n < p + d else p - d < n <= p
    case HalfUp =>
      && 2 * Abs(p - n) <= d
      && (2 * Abs(p - n) == d ==> (n > 0 ==> p > n) && (n < 0 ==> p < n))
    case HalfEven => 2 * Abs(p - n) <= d && (2 * Abs(p - n) == d ==> q % 2 == 0)
  }

  /** The products of neighbouring integers, and of integers further apart. */
  lemma Products(x: int, y: int, d: int)
    requires d > 0
    ensures (x + 1) * d == x * d + d && (x - 1) * d == x * d - d
    ensures y >= x + 1 ==> y * d >= x * d + d
    ensures y >= x + 2 ==> y * d >= x * d + 2 * d
    ensures y <= x ==> y * d <= x * d
  {
    var k := y - x;
    assert y * d == x * d + k * d;
    if k >= 2 {
      assert (k - 2) * d >= 0;
    } else if k < 0 {
      assert (-k) * d >= 0;
    }
  }

  /** The branch table computes what each mode means. */
  lemma RoundedMeetsMode(n: int, d: int, mode: RoundingMode)
    requires d > 0
    ensures Rounds(n, d, mode, Rounded(n, d, mode))
  {
    TruncDivMod(n, d);
    Products(TruncDiv(n, d), TruncDiv(n, d), d);
    BranchPicks(n, d, mode, TruncDiv(n, d), TruncDiv(n, d) * d, TruncMod(n, d));
  }

  /** The rounding branches over a truncated quotient `t`, its product `p` and its remainder. */
  lemma BranchPicks(n: int, d: int, mode: RoundingMode, t: int, p: int, remainder: int)
    requires d > 0 && n == p + remainder && Abs(remainder) < d
    requires n >= 0 ==> remainder >= 0
    requires n <= 0 ==> remainder <= 0
    ensures remainder == 0 ==> Picks(n, d, mode, t, p)
    ensures mode.Trunc? ==> Picks(n, d, mode, t, p)
    ensures remainder != 0 && mode.Floor? ==> if n < 0 then Picks(n, d, mode, t - 1, p - d) else Picks(n, d, mode, t, p)
    ensures remainder != 0 && mode.Ceil? ==> if n < 0 then Picks(n, d, mode, t, p) else Picks(n, d, mode, t + 1, p + d)
    ensures remainder != 0 && mode.HalfUp? ==>
              if 2 * Abs(remainder) < d then Picks(n, d, mode, t, p)
              else if n < 0 then Picks(n, d, mode, t - 1, p - d) else Picks(n, d, mode, t + 1, p + d)
    ensures remainder != 0 && mode.HalfEven? ==>
              if 2 * Abs(remainder) < d || (2 * Abs(remainder) == d && TruncMod(t, 2) == 0) then Picks(n, d, mode, t, p)
              else if n < 0 then Picks(n, d, mode, t - 1, p - d) else Picks(n, d, mode, t + 1, p + d)
  {
    assert TruncMod(t, 2) == 0 <==> t % 2 == 0;
  }

  /** A mode leaves no choice: two integers it accepts for the same quotient are one. */
  lemma ModeIsDeterministic(n: int, d: int, mode: RoundingMode, p: int, q: int)
    requires d > 0
    requires Rounds(n, d, mode, p) && Rounds(n, d, mode, q)
    ensures p == q
  {
    Products(p, q, d);
    Products(q, p, d);
  }

  /** The exact meaning of `divideRounded`: an error exactly for a non-positive
      denominator, and otherwise the one integer the mode accepts. */
  lemma DivideRoundedIsExact(n: int, d: int, mode: RoundingMode)
    ensures DivideRounded(n, d, mode).Err? <==> d <= 0
    ensures d > 0 ==> forall q :: DivideRounded(n, d, mode) == Ok(q) <==> Rounds(n, d, mode, q)
  {
    if d > 0 {
      RoundedMeetsMode(n, d, mode);
      forall q ensures DivideRounded(n, d, mode) == Ok(q) <==> Rounds(n, d, mode, q) {
        if Rounds(n, d, mode, q) {
          ModeIsDeterministic(n, d, mode, q, Rounded(n, d, mode));
        }
      }
    }
  }

  lemma FloorDivision(n: int, d: int, q: int, r: int)
    requires d > 0 && n == q * d + r && 0 <= r < d
    ensures n / d == q && n % d == r
  {
    var p, s := n / d, n % d;
    assert n == p * d + s && 0 <= s < d;
    Products(p, q, d);
    Products(q, p, d);
  }

  lemma DivisionIdentity(n: int, d: int)
    requires d > 0
    ensures d * (n / d) - n == -(n % d) && 0 <= n % d < d
  {}

  lemma ScaledDivision(n: int, d: int, k: int)
    requires d > 0 && k > 0 && k * d > 0
    ensures (k * n) / (k * d) == n / d
    ensures (k * n) % (k * d) == k * (n % d)
  {
    var q, r := n / d, n % d;
    DivisionIdentity(n, d);
    assert n == d * q + r;
    assert k * n == q * (k * d) + k * r by {
      assert k * (d * q + r) == q * (k * d) + k * r;
    }
    Products(r, d, k);
    Products(0, r, k);
    FloorDivision(k * n, k * d, q, k * r);
  }

  /** Bracketing, all that conversion needs of a mode: the error stays below one unit. */
  lemma RoundedBrackets(n: int, d: int, mode: RoundingMode)
    requires d > 0
    ensures Abs(Rounded(n, d, mode) * d - n) < d
  {
    RoundedMeetsMode(n, d, mode);
  }

  /** The mode that rounds a negated quotient to the negated result. */
  function Mirror(mode: RoundingMode): RoundingMode {
    match mode
    case Floor => Ceil
    case Ceil => Floor
    case _ => mode
  }

  lemma PicksMirror(n: int, d: int, mode: RoundingMode, q: int, p: int)
    requires d > 0 && Picks(n, d, mode, q, p)
    requires n == 0 ==> p == 0
    ensures Picks(-n, d, Mirror(mode), -q, -p)
  {}

  lemma RoundsMirror(n: int, d: int, mode: RoundingMode, q: int)
    requires d > 0 && Rounds(n, d, mode, q)
    ensures Rounds(-n, d, Mirror(mode), -q)
  {
    var p := q * d;
    if n == 0 {
      Products(q, 0, d);
      Products(0, q, d);
    }
    PicksMirror(n, d, mode, q, p);
    NegatedProduct(q, d);
  }

  lemma NegatedProduct(q: int, d: int)
    ensures (-q) * d == -(q * d)
  {}

  /** Negation: the three sign-blind modes commute with it; FLOOR and CEIL trade places. */
  lemma RoundingMirrors(n: int, d: int, mode: RoundingMode)
    requires d > 0
    ensures Rounded(-n, d, Mirror(mode)) == -Rounded(n, d, mode)
  {
    var q, r := Rounded(n, d, mode), Rounded(-n, d, Mirror(mode));
    RoundedMeetsMode(n, d, mode);
    RoundedMeetsMode(-n, d, Mirror(mode));
    RoundsMirror(n, d, mode, q);
    ModeIsDeterministic(-n, d, Mirror(mode), -q, r);
  }

  /** Every mode is monotone in the numerator, so scaling never reverses two amounts. */
  lemma RoundingIsMonotone(n: int, m: int, d: int, mode: RoundingMode)
    requires d > 0 && n <= m
    ensures Rounded(n, d, mode) <= Rounded(m, d, mode)
  {
    var p, q := Rounded(n, d, mode), Rounded(m, d, mode);
    RoundedMeetsMode(n, d, mode);
    RoundedMeetsMode(m, d, mode);
    if q < p {
      Products(q, p, d);
      assert q * d + d <= p * d;
    }
  }
}
