/** Largest-remainder allocation of signed minor units (packages/shared-kernel/src/money.ts). */
module Allocation {
  import opened Results
  import opened Sums
  import opened IntegerMath

  datatype AllocationError = NoWeights | NegativeWeight(weight: int) | ZeroTotalWeight

  ghost predicate ValidWeights(weights: seq<int>) {
    && (forall i :: 0 <= i < |weights| ==> weights[i] >= 0)
    && Sum(weights) > 0
  }

  /** What a caller is told about weights that cannot be allocated over. */
  ghost predicate Refused(weights: seq<int>, error: AllocationError) {
    match error
    case NoWeights => weights == []
    case NegativeWeight(w) => exists i :: 0 <= i < |weights| && weights[i] == w < 0
    case ZeroTotalWeight =>
      && weights != []
      && (forall i :: 0 <= i < |weights| ==> weights[i] >= 0)
      && Sum(weights) == 0
  }

  // ---------------------------------------------------------------------
  // The specification: floors of the exact shares, and who gets one unit more
  // ---------------------------------------------------------------------

  /** The floors of the exact shares amount*weight/total. */
  ghost function FloorShares(amount: int, weights: seq<int>): (f: seq<int>)
    requires Sum(weights) > 0
    ensures |f| == |weights|
  {
    seq(|weights|, i requires 0 <= i < |weights| => (amount * weights[i]) / Sum(weights))
  }

  ghost function Remainders(amount: int, weights: seq<int>): (r: seq<int>)
    requires Sum(weights) > 0
    ensures |r| == |weights|
  {
    seq(|weights|, i requires 0 <= i < |weights| => (amount * weights[i]) % Sum(weights))
  }

  /** The distribution order: larger remainder first, earlier index first on a tie. */
  predicate Precedes(remainders: seq<int>, i: nat, j: nat)
    requires i < |remainders| && j < |remainders|
  {
    remainders[i] > remainders[j] || (remainders[i] == remainders[j] && i < j)
  }

  /** The largest-remainder rule, stated without an algorithm: every part is its
      floor share or one unit more, the parts sum to the amount, and everyone
      given the extra unit comes before everyone not given it. */
  ghost predicate ByRank(amount: int, floors: seq<int>, remainders: seq<int>, parts: seq<int>) {
    && |parts| == |floors| == |remainders|
    && (forall i :: 0 <= i < |parts| ==> floors[i] <= parts[i] <= floors[i] + 1)
    && Sum(parts) == amount
    && (forall i, j :: 0 <= i < |parts| && 0 <= j < |parts| && parts[i] > floors[i] && parts[j] == floors[j]
          ==> Precedes(remainders, i, j))
  }

  ghost predicate LargestRemainder(amount: int, weights: seq<int>, parts: seq<int>)
    requires Sum(weights) > 0
  {
    ByRank(amount, FloorShares(amount, weights), Remainders(amount, weights), parts)
  }

  // ---------------------------------------------------------------------
  // The algorithm
  // ---------------------------------------------------------------------

  /** The indices of `remainders` in distribution order. */
  ghost predicate Ranking(remainders: seq<int>, order: seq<nat>) {
    && |order| == |remainders|
    && (forall k :: 0 <= k < |order| ==> order[k] < |remainders|)
    && (forall k, l :: 0 <= k < l < |order| ==> Precedes(remainders, order[k], order[l]))
    && (forall i :: 0 <= i < |remainders| ==> i in order)
  }

  /** Inserting index `n` before the first ranked index with a smaller remainder. */
  lemma InsertKeepsRanking(remainders: seq<int>, order: seq<nat>, at: nat)
    requires |order| < |remainders| && at <= |order|
    requires Ranking(remainders[..|order|], order)
    requires at > 0 ==> remainders[order[at - 1]] >= remainders[|order|]
    requires at < |order| ==> remainders[order[at]] < remainders[|order|]
    ensures Ranking(remainders[..|order| + 1], order[..at] + [|order|] + order[at..])
  {
    var n, r := |order|, remainders[..|order| + 1];
    var after := order[..at] + [n] + order[at..];
    forall k, l | 0 <= k < l < |after| ensures Precedes(r, after[k], after[l]) {
      InsertedPair(remainders, order, at, k, l);
    }
    forall i | 0 <= i < |r| ensures i in after {
      if i < n {
        assert i in order;
        var k :| 0 <= k < n && order[k] == i;
        assert after[if k < at then k else k + 1] == i;
      } else {
        assert after[at] == i;
      }
    }
  }

  lemma InsertedPair(remainders: seq<int>, order: seq<nat>, at: nat, k: nat, l: nat)
    requires |order| < |remainders| && at <= |order| && k < l <= |order|
    requires Ranking(remainders[..|order|], order)
    requires at > 0 ==> remainders[order[at - 1]] >= remainders[|order|]
    requires at < |order| ==> remainders[order[at]] < remainders[|order|]
    ensures var after := order[..at] + [|order|] + order[at..];
            Precedes(remainders[..|order| + 1], after[k], after[l])
  {
    var n := |order|;
    if k != at && l != at {
      assert Precedes(remainders[..n], order[if k < at then k else k - 1], order[if l < at then l else l - 1]);
    } else if l == at && k < at - 1 {
      assert Precedes(remainders[..n], order[k], order[at - 1]);
    } else if k == at && l > at + 1 {
      assert Precedes(remainders[..n], order[at], order[l - 1]);
    }
  }

  /** Array.prototype.sort over the index list: the comparison is a strict total
      order, so any sort yields the ranking; this one inserts. */
  method ByLargestRemainder(remainders: seq<int>) returns (order: seq<nat>)
    ensures Ranking(remainders, order)
  {
    order := [];
    for n := 0 to |remainders|
      invariant |order| == n && Ranking(remainders[..n], order)
    {
      var at := n;
      while at > 0 && remainders[order[at - 1]] < remainders[n]
        invariant 0 <= at <= n
        invariant at < n ==> remainders[order[at]] < remainders[n]
      {
        at := at - 1;
      }
      InsertKeepsRanking(remainders, order, at);
      order := order[..at] + [n] + order[at..];
    }
    assert remainders[..|remainders|] == remainders;
  }

  /** The validity scan and the total. */
  method TotalWeight(weights: seq<int>) returns (result: Result<int, AllocationError>)
    ensures result.Ok? <==> weights != [] && ValidWeights(weights)
    ensures result.Ok? ==> result.value == Sum(weights)
    ensures result.Err? ==> Refused(weights, result.error)
  {
    if |weights| == 0 {
      return Err(NoWeights);
    }
    var totalWeight := 0;
    for i := 0 to |weights|
      invariant forall k :: 0 <= k < i ==> weights[k] >= 0
      invariant totalWeight == Sum(weights[..i])
    {
      if weights[i] < 0 {
        return Err(NegativeWeight(weights[i]));
      }
      SumAppend(weights[..i], weights[i]);
      assert weights[..i + 1] == weights[..i] + [weights[i]];
      totalWeight := totalWeight + weights[i];
    }
    assert weights[..|weights|] == weights;
    SumNonNegative(weights);
    if totalWeight == 0 {
      return Err(ZeroTotalWeight);
    }
    return Ok(totalWeight);
  }

  /** One share: truncating division, corrected to a floor for negative remainders. */
  method FloorDivide(product: int, totalWeight: int) returns (quotient: int, remainder: int)
    requires totalWeight > 0
    ensures quotient == product / totalWeight && remainder == product % totalWeight
  {
    quotient := TruncDiv(product, totalWeight);
    remainder := TruncMod(product, totalWeight);
    TruncationFloors(product, totalWeight);
    if remainder < 0 {
      quotient := quotient - 1;
      remainder := remainder + totalWeight;
    }
  }

  /** Handing the leftover units out in ranking order, in place. */
  method AwardLeftover(amount: int, floors: array<int>, remainders: seq<int>, leftover: int)
    requires |remainders| == floors.Length
    requires 0 <= leftover <= floors.Length && Sum(floors[..]) == amount - leftover
    modifies floors
    ensures ByRank(amount, old(floors[..]), remainders, floors[..])
  {
    ghost var start := floors[..];
    var order := ByLargestRemainder(remainders);
    var i := 0;
    while i < leftover
      invariant 0 <= i <= leftover
      invariant Sum(floors[..]) == Sum(start) + i
      invariant forall k :: 0 <= k < i ==> floors[order[k]] == start[order[k]] + 1
      invariant forall k :: i <= k < |order| ==> floors[order[k]] == start[order[k]]
    {
      if i >= |order| {
        break;
      }
      var winner := order[i];
      RankingHasNoRepeats(remainders, order, i);
      SumUpdate(floors[..], winner, floors[winner] + 1);
      ghost var before := floors[..];
      floors[winner] := floors[winner] + 1;
      assert floors[..] == before[winner := before[winner] + 1];
      i := i + 1;
    }
    AwardsFollowRanking(amount, start, remainders, order, leftover, floors[..]);
  }

  lemma RankingHasNoRepeats(remainders: seq<int>, order: seq<nat>, i: nat)
    requires Ranking(remainders, order) && i < |order|
    ensures forall k :: 0 <= k < |order| && k != i ==> order[k] != order[i]
  {
    forall k | 0 <= k < |order| && k != i ensures order[k] != order[i] {
      assert if k < i then Precedes(remainders, order[k], order[i]) else Precedes(remainders, order[i], order[k]);
    }
  }

  /** Giving the first `leftover` ranked indices one unit each is the rule. */
  lemma AwardsFollowRanking(amount: int, floors: seq<int>, remainders: seq<int>, order: seq<nat>, leftover: int,
      parts: seq<int>)
    requires |parts| == |floors| == |remainders| && Sum(parts) == amount
    requires Ranking(remainders, order)
    requires 0 <= leftover <= |order|
    requires forall k :: 0 <= k < leftover ==> parts[order[k]] == floors[order[k]] + 1
    requires forall k :: leftover <= k < |order| ==> parts[order[k]] == floors[order[k]]
    ensures ByRank(amount, floors, remainders, parts)
  {
    forall i | 0 <= i < |parts| ensures floors[i] <= parts[i] <= floors[i] + 1 {
      var k := RankOf(remainders, order, i);
    }
    forall i, j | 0 <= i < |parts| && 0 <= j < |parts| && parts[i] > floors[i] && parts[j] == floors[j]
      ensures Precedes(remainders, i, j)
    {
      var k := RankOf(remainders, order, i);
      var l := RankOf(remainders, order, j);
      assert k < leftover <= l;
    }
  }

  lemma RankOf(remainders: seq<int>, order: seq<nat>, i: nat) returns (k: nat)
    requires Ranking(remainders, order) && i < |remainders|
    ensures k < |order| && order[k] == i
  {
    assert i in order;
    k :| 0 <= k < |order| && order[k] == i;
  }

  /** Money.allocate on minor units. */
  method Allocate(amount: int, weights: seq<int>) returns (result: Result<seq<int>, AllocationError>)
    ensures result.Ok? <==> weights != [] && ValidWeights(weights)
    ensures result.Ok? ==> LargestRemainder(amount, weights, result.value)
    ensures result.Err? ==> Refused(weights, result.error)
  {
    var total := TotalWeight(weights);
    if total.Err? {
      return Err(total.error);
    }
    var totalWeight := total.value;
    ghost var floorShares, shareRemainders := FloorShares(amount, weights), Remainders(amount, weights);
    var floors := new int[|weights|];
    var remainders: seq<int> := [];
    var handedOut := 0;
    for i := 0 to |weights|
      invariant floors[..i] == floorShares[..i]
      invariant remainders == shareRemainders[..i]
      invariant handedOut == Sum(floors[..i])
    {
      var quotient, remainder := FloorDivide(amount * weights[i], totalWeight);
      floors[i] := quotient;
      remainders := remainders + [remainder];
      SumAppend(floorShares[..i], quotient);
      assert floors[..i + 1] == floorShares[..i + 1] == floorShares[..i] + [quotient];
      handedOut := handedOut + quotient;
    }
    assert floors[..] == floors[..|weights|] == floorShares;
    assert remainders == shareRemainders;
    LeftoverFits(amount, weights);
    AwardLeftover(amount, floors, remainders, amount - handedOut);
    return Ok(floors[..]);
  }

  /** The hand-written correction turns truncation into floor, for either sign. */
  lemma TruncationFloors(n: int, d: int)
    requires d > 0
    ensures TruncMod(n, d) >= 0 ==> TruncDiv(n, d) == n / d && TruncMod(n, d) == n % d
    ensures TruncMod(n, d) < 0 ==> TruncDiv(n, d) - 1 == n / d && TruncMod(n, d) + d == n % d
  {
    TruncDivMod(n, d);
    var q, r := TruncDiv(n, d), TruncMod(n, d);
    Products(q, q, d);
    if r >= 0 {
      FloorDivision(n, d, q, r);
    } else {
      FloorDivision(n, d, q - 1, r + d);
    }
  }

  lemma ProductOfDifference(w: int, a: int, b: int)
    ensures w * (a - b) == w * a - w * b == w * a - b * w
  {}

  // ---------------------------------------------------------------------
  // Deviations: W*part - amount*weight, whose sum conservation makes zero
  // ---------------------------------------------------------------------

  /** How far W*part_i is from amount*weight_i. */
  ghost function Deviations(amount: int, weights: seq<int>, parts: seq<int>): (d: seq<int>)
    requires |parts| == |weights|
    ensures |d| == |weights|
  {
    seq(|weights|, i requires 0 <= i < |weights| => Sum(weights) * parts[i] - amount * weights[i])
  }

  lemma DeviationsSum(amount: int, weights: seq<int>, parts: seq<int>)
    requires |parts| == |weights|
    ensures Sum(Deviations(amount, weights, parts)) == Sum(weights) * (Sum(parts) - amount)
  {
    var W := Sum(weights);
    forall i | 0 <= i < |weights|
      ensures Deviations(amount, weights, parts)[i] == W * parts[i] + (-amount) * weights[i]
    {
      NegatedProduct(amount, weights[i]);
    }
    SumLinear(Deviations(amount, weights, parts), W, parts, -amount, weights);
    NegatedProduct(amount, W);
    ProductOfDifference(W, Sum(parts), amount);
  }

  /** The same deviations from floors and remainders alone: a part given the
      extra unit is W minus its remainder ahead, any other its remainder behind. */
  ghost function Gaps(W: int, floors: seq<int>, remainders: seq<int>, parts: seq<int>): (g: seq<int>)
    requires |parts| == |floors| == |remainders|
    ensures |g| == |parts|
  {
    seq(|parts|, i requires 0 <= i < |parts| => if parts[i] > floors[i] then W - remainders[i] else -remainders[i])
  }

  /** A split by rank whose gaps cancel, which is all the properties below use. */
  ghost predicate Balanced(W: int, amount: int, floors: seq<int>, remainders: seq<int>, parts: seq<int>) {
    && W > 0
    && ByRank(amount, floors, remainders, parts)
    && (forall i :: 0 <= i < |parts| ==> 0 <= remainders[i] < W)
    && Sum(Gaps(W, floors, remainders, parts)) == 0
  }

  lemma FloorDeviation(amount: int, weights: seq<int>, i: nat)
    requires Sum(weights) > 0 && i < |weights|
    ensures Sum(weights) * FloorShares(amount, weights)[i] - amount * weights[i] == -Remainders(amount, weights)[i]
    ensures 0 <= Remainders(amount, weights)[i] < Sum(weights)
  {
    DivisionIdentity(amount * weights[i], Sum(weights));
  }

  lemma OneStepGap(W: int, floor: int, part: int, remainder: int, share: int)
    requires W * floor - share == -remainder && floor <= part <= floor + 1
    ensures W * part - share == if part > floor then W - remainder else -remainder
  {
    ProductOfDifference(W, part, floor);
    if part > floor {
      assert part - floor == 1;
    }
  }

  lemma DeviationIsGap(amount: int, weights: seq<int>, parts: seq<int>, i: nat)
    requires Sum(weights) > 0 && LargestRemainder(amount, weights, parts) && i < |weights|
    ensures Deviations(amount, weights, parts)[i]
         == Gaps(Sum(weights), FloorShares(amount, weights), Remainders(amount, weights), parts)[i]
    ensures 0 <= Remainders(amount, weights)[i] < Sum(weights)
  {
    FloorDeviation(amount, weights, i);
    OneStepGap(Sum(weights), FloorShares(amount, weights)[i], parts[i], Remainders(amount, weights)[i], amount * weights[i]);
  }

  /** An allocation is balanced, and its gaps are its deviations. */
  lemma AllocationBalances(amount: int, weights: seq<int>, parts: seq<int>)
    requires Sum(weights) > 0 && LargestRemainder(amount, weights, parts)
    ensures Balanced(Sum(weights), amount, FloorShares(amount, weights), Remainders(amount, weights), parts)
    ensures Deviations(amount, weights, parts)
         == Gaps(Sum(weights), FloorShares(amount, weights), Remainders(amount, weights), parts)
  {
    var W, floors, remainders := Sum(weights), FloorShares(amount, weights), Remainders(amount, weights);
    var gaps := Gaps(W, floors, remainders, parts);
    forall i | 0 <= i < |weights|
      ensures Deviations(amount, weights, parts)[i] == gaps[i] && 0 <= remainders[i] < W
    {
      DeviationIsGap(amount, weights, parts, i);
    }
    assert Deviations(amount, weights, parts) == gaps;
    DeviationsSum(amount, weights, parts);
  }

  /** W times the units that flooring leaves over is the sum of the remainders. */
  lemma LeftoverIsRemainders(amount: int, weights: seq<int>)
    requires Sum(weights) > 0
    ensures Sum(weights) * (amount - Sum(FloorShares(amount, weights))) == Sum(Remainders(amount, weights))
  {
    var W, floors, remainders := Sum(weights), FloorShares(amount, weights), Remainders(amount, weights);
    var deviations := Deviations(amount, weights, floors);
    forall i | 0 <= i < |weights| ensures remainders[i] == -1 * deviations[i] + 0 * deviations[i] {
      FloorDeviation(amount, weights, i);
    }
    SumLinear(remainders, -1, deviations, 0, deviations);
    DeviationsSum(amount, weights, floors);
    OppositeDifference(W, Sum(floors), amount);
  }

  lemma OppositeDifference(w: int, a: int, b: int)
    ensures w * (b - a) == -(w * (a - b))
  {}

  /** So there are never as many leftover units as parts. */
  lemma LeftoverFits(amount: int, weights: seq<int>)
    requires ValidWeights(weights)
    ensures 0 <= amount - Sum(FloorShares(amount, weights)) < |weights|
  {
    var remainders := Remainders(amount, weights);
    LeftoverIsRemainders(amount, weights);
    forall i | 0 <= i < |weights| ensures 0 <= remainders[i] < Sum(weights) {
      FloorDeviation(amount, weights, i);
    }
    SumNonNegative(remainders);
    SumBelow(remainders, Sum(weights));
    LeftoverRange(Sum(weights), amount - Sum(FloorShares(amount, weights)), |weights|);
  }

  lemma LeftoverRange(W: int, leftover: int, n: int)
    requires W > 0 && 0 <= W * leftover < W * n
    ensures 0 <= leftover < n
  {
    if leftover < 0 {
      Products(leftover, 0, W);
    } else if leftover >= n {
      Products(leftover, n, W);
    }
  }

  lemma {:induction false} SumBelow(s: seq<int>, bound: int)
    requires bound > 0
    requires forall i :: 0 <= i < |s| ==> s[i] < bound
    ensures |s| > 0 ==> Sum(s) < bound * |s|
  {
    if |s| > 0 {
      SumBelow(s[..|s| - 1], bound);
      NextMultiple(bound, |s| - 1);
    }
  }

  // ---------------------------------------------------------------------
  // What the rule guarantees
  // ---------------------------------------------------------------------

  /** Nobody whose share is exact is given a unit: were one, every part with a
      fraction would also be, and the gaps could not cancel. */
  lemma WinnersHaveRemainders(W: int, amount: int, floors: seq<int>, remainders: seq<int>, parts: seq<int>, i: nat)
    requires Balanced(W, amount, floors, remainders, parts) && i < |parts| && parts[i] > floors[i]
    ensures remainders[i] > 0
  {
    var gaps := Gaps(W, floors, remainders, parts);
    if remainders[i] == 0 {
      forall j | 0 <= j < |parts| ensures gaps[j] >= 0 {
        if parts[j] == floors[j] {
          assert Precedes(remainders, i, j);
        }
      }
      assert gaps[i] == W;
      SumNonNegative(gaps);
    }
  }

  /** Quota: every part is within one minor unit of its exact share. */
  lemma PartsMeetQuota(amount: int, weights: seq<int>, parts: seq<int>, i: nat)
    requires ValidWeights(weights) && LargestRemainder(amount, weights, parts) && i < |parts|
    ensures Abs(Sum(weights) * parts[i] - amount * weights[i]) < Sum(weights)
  {
    AllocationBalances(amount, weights, parts);
    assert Deviations(amount, weights, parts)[i] == Sum(weights) * parts[i] - amount * weights[i];
    if parts[i] > FloorShares(amount, weights)[i] {
      WinnersHaveRemainders(Sum(weights), amount, FloorShares(amount, weights), Remainders(amount, weights), parts, i);
    }
  }

  /** An exact share is paid exactly; in particular a zero weight receives zero. */
  lemma ExactSharesArePaid(amount: int, weights: seq<int>, parts: seq<int>, i: nat, share: int)
    requires ValidWeights(weights) && LargestRemainder(amount, weights, parts) && i < |parts|
    requires amount * weights[i] == Sum(weights) * share
    ensures parts[i] == share
  {
    PartsMeetQuota(amount, weights, parts, i);
    WithinOneUnit(Sum(weights), parts[i], share);
  }

  lemma WithinOneUnit(W: int, part: int, share: int)
    requires W > 0 && Abs(W * part - W * share) < W
    ensures part == share
  {
    Products(share, part, W);
    Products(part, share, W);
  }

  lemma NextMultiple(W: int, n: nat)
    requires W > 0
    ensures W * (n + 1) == W * n + W && W * n >= 0
  {
    Products(n, n, W);
    Products(0, n, W);
  }

  lemma ZeroWeightGetsZero(amount: int, weights: seq<int>, parts: seq<int>, i: nat)
    requires ValidWeights(weights) && LargestRemainder(amount, weights, parts) && i < |parts|
    requires weights[i] == 0
    ensures parts[i] == 0
  {
    ExactSharesArePaid(amount, weights, parts, i, 0);
  }

  /** Strictly fewer units are left over than there are parts with a fraction. */
  lemma LeftoverBelowFractions(amount: int, weights: seq<int>)
    requires ValidWeights(weights)
    ensures var leftover := amount - Sum(FloorShares(amount, weights));
            leftover == 0 || leftover < |Fractional(Remainders(amount, weights))|
  {
    LeftoverIsRemainders(amount, weights);
    LeftoverFits(amount, weights);
    var W, remainders := Sum(weights), Remainders(amount, weights);
    var leftover := amount - Sum(FloorShares(amount, weights));
    forall i | 0 <= i < |weights| ensures 0 <= remainders[i] < W {
      FloorDeviation(amount, weights, i);
    }
    SumBelowSupport(remainders, W);
    if leftover > 0 {
      Products(0, leftover, W);
      LeftoverRange(W, leftover, |Fractional(remainders)|);
    }
  }

  /** The parts with a fraction. */
  ghost function Fractional(remainders: seq<int>): set<int> {
    set i | 0 <= i < |remainders| && remainders[i] > 0
  }

  lemma {:induction false} SumBelowSupport(s: seq<int>, bound: int)
    requires bound > 0
    requires forall i :: 0 <= i < |s| ==> 0 <= s[i] < bound
    ensures Sum(s) == 0 || Sum(s) < bound * |Fractional(s)|
  {
    if |s| > 0 {
      var last := |s| - 1;
      SumBelowSupport(s[..last], bound);
      var inner := Fractional(s[..last]);
      NextMultiple(bound, |inner|);
      if s[last] > 0 {
        assert Fractional(s) == inner + {last};
      } else {
        assert Fractional(s) == inner;
      }
    }
  }

  /** A larger weight never gets a smaller part of a non-negative amount, nor a
      larger part of a non-positive one; equal weights differ by at most one
      unit, with the earlier index never behind. */
  lemma AllocationIsMonotone(amount: int, weights: seq<int>, parts: seq<int>, i: nat, j: nat)
    requires ValidWeights(weights) && LargestRemainder(amount, weights, parts)
    requires i < |parts| && j < |parts|
    ensures weights[i] > weights[j] && amount >= 0 ==> parts[i] >= parts[j]
    ensures weights[i] > weights[j] && amount <= 0 ==> parts[i] <= parts[j]
    ensures weights[i] == weights[j] && i < j ==> parts[j] <= parts[i] <= parts[j] + 1
  {
    ProductOfDifference(amount, weights[i], weights[j]);
    if weights[i] > weights[j] {
      if amount > 0 {
        Products(0, amount, weights[i] - weights[j]);
        LargerShareGetsMore(amount, weights, parts, i, j);
      } else if amount < 0 {
        Products(amount, 0, weights[i] - weights[j]);
        LargerShareGetsMore(amount, weights, parts, j, i);
      } else {
        ExactSharesArePaid(amount, weights, parts, i, 0);
        ExactSharesArePaid(amount, weights, parts, j, 0);
      }
    } else if weights[i] == weights[j] {
      EqualSharesByIndex(amount, FloorShares(amount, weights), Remainders(amount, weights), parts, i, j);
    }
  }

  lemma EqualSharesByIndex(amount: int, floors: seq<int>, remainders: seq<int>, parts: seq<int>, i: nat, j: nat)
    requires ByRank(amount, floors, remainders, parts) && i < |parts| && j < |parts|
    requires floors[i] == floors[j] && remainders[i] == remainders[j]
    ensures i < j ==> parts[j] <= parts[i] <= parts[j] + 1
  {
    assert !(parts[j] > floors[j] && parts[i] == floors[i] && i < j) by {
      assert i < j ==> !Precedes(remainders, j, i);
    }
  }

  lemma LargerShareGetsMore(amount: int, weights: seq<int>, parts: seq<int>, i: nat, j: nat)
    requires ValidWeights(weights) && LargestRemainder(amount, weights, parts)
    requires i < |parts| && j < |parts| && amount * weights[i] > amount * weights[j]
    ensures parts[i] >= parts[j]
  {
    var floors, remainders := FloorShares(amount, weights), Remainders(amount, weights);
    FloorDeviation(amount, weights, i);
    FloorDeviation(amount, weights, j);
    LargerQuotient(Sum(weights), floors[i], remainders[i], floors[j], remainders[j]);
    LargerByRank(amount, floors, remainders, parts, i, j);
  }

  lemma LargerQuotient(W: int, f: int, r: int, g: int, s: int)
    requires W > 0 && 0 <= r < W && 0 <= s < W && W * f + r > W * g + s
    ensures f > g || (f == g && r > s)
  {
    Products(f, g, W);
  }

  lemma LargerByRank(amount: int, floors: seq<int>, remainders: seq<int>, parts: seq<int>, i: nat, j: nat)
    requires ByRank(amount, floors, remainders, parts) && i < |parts| && j < |parts|
    requires floors[i] > floors[j] || (floors[i] == floors[j] && remainders[i] > remainders[j])
    ensures parts[i] >= parts[j]
  {
    assert floors[i] == floors[j] ==> !Precedes(remainders, j, i);
  }

  /** The rule has exactly one outcome, so `allocate` is deterministic. */
  lemma RankingIsUnique(amount: int, floors: seq<int>, remainders: seq<int>, p: seq<int>, q: seq<int>)
    requires ByRank(amount, floors, remainders, p) && ByRank(amount, floors, remainders, q)
    ensures p == q
  {
    if i :| 0 <= i < |p| && p[i] > q[i] {
      SomeoneElseLess(amount, floors, remainders, p, q, i);
    }
    if i :| 0 <= i < |p| && q[i] > p[i] {
      SomeoneElseLess(amount, floors, remainders, q, p, i);
    }
  }

  /** If one split gives `i` more, the sums force it to give someone else less, and
      the two would have to precede each other. */
  lemma SomeoneElseLess(amount: int, floors: seq<int>, remainders: seq<int>, p: seq<int>, q: seq<int>, i: nat)
    requires ByRank(amount, floors, remainders, p) && ByRank(amount, floors, remainders, q)
    requires i < |p|
    ensures p[i] <= q[i]
  {
    if p[i] > q[i] {
      if forall j :: 0 <= j < |p| ==> q[j] <= p[j] {
        SumOrdered(q, p);
      }
    }
  }

  lemma AllocationIsDeterministic(amount: int, weights: seq<int>, p: seq<int>, q: seq<int>)
    requires Sum(weights) > 0
    requires LargestRemainder(amount, weights, p) && LargestRemainder(amount, weights, q)
    ensures p == q
  {
    RankingIsUnique(amount, FloorShares(amount, weights), Remainders(amount, weights), p, q);
  }

  ghost function Scaled(k: int, s: seq<int>): (t: seq<int>)
    ensures |t| == |s|
  {
    seq(|s|, i requires 0 <= i < |s| => k * s[i])
  }

  /** Multiplying every weight by the same positive factor changes no part. */
  lemma ScalingWeightsChangesNothing(amount: int, weights: seq<int>, k: int, parts: seq<int>, scaledParts: seq<int>)
    requires k > 0 && ValidWeights(weights) && LargestRemainder(amount, weights, parts)
    ensures ValidWeights(Scaled(k, weights))
    ensures LargestRemainder(amount, Scaled(k, weights), scaledParts) <==> scaledParts == parts
  {
    var W, scaled := Sum(weights), Scaled(k, weights);
    SumLinear(scaled, k, weights, 0, weights);
    Products(0, k, W);
    forall i | 0 <= i < |scaled| ensures scaled[i] >= 0 {
      if weights[i] > 0 {
        Products(0, k, weights[i]);
      }
    }
    ScaledShares(amount, weights, k);
    RankScales(amount, FloorShares(amount, weights), Remainders(amount, weights), k, parts);
    if LargestRemainder(amount, scaled, scaledParts) {
      AllocationIsDeterministic(amount, scaled, parts, scaledParts);
    }
  }

  lemma RankScales(amount: int, floors: seq<int>, remainders: seq<int>, k: int, parts: seq<int>)
    requires k > 0 && ByRank(amount, floors, remainders, parts)
    ensures ByRank(amount, floors, Scaled(k, remainders), parts)
  {
    forall i, j | 0 <= i < |parts| && 0 <= j < |parts| && Precedes(remainders, i, j)
      ensures Precedes(Scaled(k, remainders), i, j)
    {
      Products(remainders[j], remainders[i], k);
    }
  }

  lemma ScaledShares(amount: int, weights: seq<int>, k: int)
    requires k > 0 && Sum(weights) > 0 && Sum(Scaled(k, weights)) == k * Sum(weights) > 0
    ensures FloorShares(amount, Scaled(k, weights)) == FloorShares(amount, weights)
    ensures Remainders(amount, Scaled(k, weights)) == Scaled(k, Remainders(amount, weights))
  {
    forall i | 0 <= i < |weights|
      ensures FloorShares(amount, Scaled(k, weights))[i] == FloorShares(amount, weights)[i]
      ensures Remainders(amount, Scaled(k, weights))[i] == k * Remainders(amount, weights)[i]
    {
      assert amount * (k * weights[i]) == k * (amount * weights[i]);
      ScaledDivision(amount * weights[i], Sum(weights), k);
    }
  }

  // ---------------------------------------------------------------------
  // Optimality
  // ---------------------------------------------------------------------

  ghost function Squares(d: seq<int>): (s: seq<int>)
    ensures |s| == |d|
  {
    seq(|d|, i requires 0 <= i < |d| => d[i] * d[i])
  }

  /** Of all integer splits of the amount, the largest-remainder split has the
      least total squared deviation from the exact proportional shares. */
  lemma AllocationIsOptimal(amount: int, weights: seq<int>, parts: seq<int>, other: seq<int>)
    requires ValidWeights(weights) && LargestRemainder(amount, weights, parts)
    requires |other| == |weights| && Sum(other) == amount
    ensures Sum(Squares(Deviations(amount, weights, parts))) <= Sum(Squares(Deviations(amount, weights, other)))
  {
    var W, d, e := Sum(weights), Deviations(amount, weights, parts), Deviations(amount, weights, other);
    AllocationBalances(amount, weights, parts);
    var threshold := Threshold(W, amount, FloorShares(amount, weights), Remainders(amount, weights), parts);
    var moves := seq(|weights|, i requires 0 <= i < |weights| => other[i] - parts[i]);
    SumLinear(moves, 1, other, -1, parts);
    forall i | 0 <= i < |weights| ensures e[i] == d[i] + W * moves[i] {
      ProductOfDifference(W, other[i], parts[i]);
    }
    MovesCostMore(W, threshold, d, e, moves);
  }

  /** With one multiplier per unit moved, and as many units moved in as out, no
      set of moves lowers the total. */
  lemma MovesCostMore(W: int, threshold: int, d: seq<int>, e: seq<int>, moves: seq<int>)
    requires W > 0 && |d| == |e| == |moves| && Sum(moves) == 0
    requires forall i :: 0 <= i < |d| ==> -threshold <= d[i] <= W - threshold && e[i] == d[i] + W * moves[i]
    ensures Sum(Squares(d)) <= Sum(Squares(e))
  {
    var multiplier := W * (W - 2 * threshold);
    var tangents := seq(|d|, i requires 0 <= i < |d| => 1 * Squares(d)[i] + multiplier * moves[i]);
    SumLinear(tangents, 1, Squares(d), multiplier, moves);
    forall i | 0 <= i < |d| ensures tangents[i] <= Squares(e)[i] {
      MoveCostsAtLeast(W, d[i], threshold, moves[i]);
    }
    SumOrdered(tangents, Squares(e));
  }

  /** One remainder value separates the winners' remainders from the losers'. */
  lemma Threshold(W: int, amount: int, floors: seq<int>, remainders: seq<int>, parts: seq<int>) returns (threshold: int)
    requires Balanced(W, amount, floors, remainders, parts)
    ensures forall i :: 0 <= i < |parts| ==> -threshold <= Gaps(W, floors, remainders, parts)[i] <= W - threshold
  {
    threshold := 0;
    for n := 0 to |parts|
      invariant 0 <= threshold < W
      invariant forall j :: 0 <= j < n && parts[j] == floors[j] ==> remainders[j] <= threshold
      invariant threshold == 0 || exists j :: 0 <= j < n && parts[j] == floors[j] && remainders[j] == threshold
    {
      if parts[n] == floors[n] && remainders[n] > threshold {
        threshold := remainders[n];
      }
    }
    forall i | 0 <= i < |parts| && parts[i] > floors[i] ensures remainders[i] >= threshold {
      if threshold != 0 {
        var j :| 0 <= j < |parts| && parts[j] == floors[j] && remainders[j] == threshold;
        assert Precedes(remainders, i, j);
      }
    }
  }

  /** Moving `m` units costs at least the common multiplier per unit. */
  lemma MoveCostsAtLeast(W: int, d: int, threshold: int, m: int)
    requires W > 0 && -threshold <= d <= W - threshold
    ensures d * d + (W * (W - 2 * threshold)) * m <= (d + W * m) * (d + W * m)
  {
    var slack := W * m + 2 * d - W + 2 * threshold;
    var gain := m * slack;
    assert gain >= 0 by {
      if m > 0 {
        Products(1, m, W);
        Products(m, 1, W);
        assert slack >= 0;
      } else if m < 0 {
        Products(m, 0, W);
        assert slack <= 0;
        assert (-m) * (-slack) >= 0;
      }
    }
    assert (d + W * m) * (d + W * m) - d * d - (W * (W - 2 * threshold)) * m == W * gain;
    assert W * gain >= 0;
  }
}
