/** The banker: whether to propose a swap, and the cash offer computed from the
    values still in play. Each draw that banker.go takes from its random
    number generator is a parameter `u` in [0, 1). */
module Banker {

  /** Sum of the strictly positive entries; non-positive entries are skipped. */
  function PositiveSum(values: seq<int>): (sum: int)
    ensures sum >= 0
  {
    if values == [] then 0
    else
      var last := values[|values| - 1];
      PositiveSum(values[..|values| - 1]) + (if last > 0 then last else 0)
  }

  /** Number of strictly positive entries. */
  function PositiveCount(values: seq<int>): (count: nat)
    ensures count <= |values|
  {
    if values == [] then 0
    else
      var last := values[|values| - 1];
      PositiveCount(values[..|values| - 1]) + (if last > 0 then 1 else 0)
  }

  /** Largest strictly positive entry, or 0 when there is none. */
  function MaxPositive(values: seq<int>): (m: int)
    ensures m >= 0
    ensures forall i :: 0 <= i < |values| ==> values[i] <= m
    ensures PositiveCount(values) == 0 ==> m == 0
    ensures PositiveCount(values) > 0 ==> m in values
  {
    if values == [] then 0
    else
      var init := values[..|values| - 1];
      var last := values[|values| - 1];
      var rest := MaxPositive(init);
      assert rest > 0 ==> rest in init;
      assert values == init + [last];
      if last > rest then last else rest
  }

  /** The banker's factor for a draw `u`: 0.6 + 0.35 u, in [0.6, 0.95). */
  function Factor(u: real): (f: real)
    requires 0.0 <= u < 1.0
    ensures 0.6 <= f < 0.95
  {
    0.6 + u * 0.35
  }

  /** Mean of the positive entries. */
  function Average(values: seq<int>): real
    requires PositiveCount(values) > 0
  {
    PositiveSum(values) as real / PositiveCount(values) as real
  }

  /** The offer for the values still in play and the draw `u`: 0 when no value
      is positive, otherwise the mean of the positive values times the factor,
      truncated (the product is non-negative, so truncation is the floor). */
  function Offer(values: seq<int>, u: real): (offer: int)
    requires 0.0 <= u < 1.0
    ensures offer >= 0
    ensures PositiveCount(values) == 0 ==> offer == 0
  {
    if PositiveCount(values) == 0 then 0
    else
      AverageAtLeastOne(values);
      ScaleBetween(Average(values), Factor(u));
      (Average(values) * Factor(u)).Floor
  }

  /** Whether the banker proposes a swap instead of a cash offer, for the draw
      `u`: a draw below 0.20. */
  predicate OfferSwap(u: real): (swap: bool)
    requires 0.0 <= u < 1.0
    ensures swap <==> u < 0.20
  {
    u < 0.20
  }

  /** The banker's offer, computed with the accumulation loop of banker.go. */
  method CalculateOffer(values: seq<int>, u: real) returns (offer: int)
    requires 0.0 <= u < 1.0
    ensures offer == Offer(values, u)
  {
    var sum, count := 0, 0;
    for i := 0 to |values|
      invariant sum == PositiveSum(values[..i])
      invariant count == PositiveCount(values[..i])
    {
      assert values[..i + 1][..i] == values[..i];
      if values[i] > 0 {
        sum := sum + values[i];
        count := count + 1;
      }
    }
    assert values[..|values|] == values;
    if count == 0 {
      return 0;
    }
    var avg := sum as real / count as real;
    var factor := 0.6 + u * 0.35;
    offer := (avg * factor).Floor;
  }

  // ---------------------------------------------------------------------------
  // Properties of the offer

  /** Every positive entry is at least 1, so the sum is at least the count. */
  lemma {:induction false} SumAtLeastCount(values: seq<int>)
    ensures PositiveSum(values) >= PositiveCount(values)
  {
    if values != [] {
      SumAtLeastCount(values[..|values| - 1]);
    }
  }

  /** The sum of the positive entries is at most their count times the largest one. */
  lemma {:induction false} SumAtMostCountTimesMax(values: seq<int>)
    ensures PositiveSum(values) <= PositiveCount(values) * MaxPositive(values)
  {
    if values != [] {
      var init := values[..|values| - 1];
      SumAtMostCountTimesMax(init);
      StepBound(PositiveSum(init), PositiveCount(init), MaxPositive(init), MaxPositive(values));
    }
  }

  /** One step of the bound above: s <= c m0 and m0 <= m give s + m <= (c + 1) m. */
  lemma StepBound(s: int, c: nat, m0: int, m: int)
    requires s <= c * m0
    requires m0 <= m
    ensures s <= c * m
    ensures s + m <= (c + 1) * m
  {
  }

  /** With at least one positive entry the mean lies between 1 and the largest entry. */
  lemma {:induction false} AverageAtLeastOne(values: seq<int>)
    requires PositiveCount(values) > 0
    ensures 1.0 <= Average(values) <= MaxPositive(values) as real
  {
    SumAtLeastCount(values);
    SumAtMostCountTimesMax(values);
    QuotientBounds(PositiveSum(values), PositiveCount(values), MaxPositive(values));
  }

  lemma QuotientBounds(s: int, c: int, m: int)
    requires 0 < c <= s <= c * m
    ensures 1.0 <= s as real / c as real <= m as real
  {
    MulAsReal(c, m);
    RealQuotientBounds(s as real, c as real, m as real);
  }

  lemma MulAsReal(c: int, m: int)
    ensures (c * m) as real == c as real * m as real
  {
  }

  lemma RealQuotientBounds(s: real, c: real, m: real)
    requires 0.0 < c <= s <= c * m
    ensures 1.0 <= s / c <= m
  {
  }

  /** Scaling a non-negative mean by a factor in [0.6, 0.95). */
  lemma ScaleBetween(avg: real, f: real)
    requires avg >= 0.0
    requires 0.6 <= f < 0.95
    ensures 0.0 <= 0.6 * avg <= avg * f <= 0.95 * avg
    ensures avg > 0.0 ==> avg * f < avg
  {
  }

  /** The same bounds after truncation. */
  lemma ScaledFloorBetween(avg: real, f: real)
    requires avg >= 0.0
    requires 0.6 <= f < 0.95
    ensures (0.6 * avg).Floor <= (avg * f).Floor <= (0.95 * avg).Floor
  {
    ScaleBetween(avg, f);
    FloorMonotone(0.6 * avg, avg * f);
    FloorMonotone(avg * f, 0.95 * avg);
  }

  lemma FloorMonotone(x: real, y: real)
    requires x <= y
    ensures x.Floor <= y.Floor
  {
  }

  /** With a positive value in play the offer is the truncated scaled mean. */
  lemma OfferIsScaledAverage(values: seq<int>, u: real)
    requires 0.0 <= u < 1.0
    requires PositiveCount(values) > 0
    ensures Offer(values, u) == (Average(values) * Factor(u)).Floor
  {
  }

  /** The offer lies between floor(0.6 avg) and floor(0.95 avg) for the actual mean. */
  lemma {:induction false} OfferBounds(values: seq<int>, u: real)
    requires 0.0 <= u < 1.0
    requires PositiveCount(values) > 0
    ensures (0.6 * Average(values)).Floor <= Offer(values, u) <= (0.95 * Average(values)).Floor
  {
    var avg, f := Average(values), Factor(u);
    assert avg >= 1.0 by { AverageAtLeastOne(values); }
    assert (0.6 * avg).Floor <= (avg * f).Floor <= (0.95 * avg).Floor by { ScaledFloorBetween(avg, f); }
    assert Offer(values, u) == (avg * f).Floor by { OfferIsScaledAverage(values, u); }
  }

  /** A value of at least 1 scaled by a factor below 1 truncates to less than its bound. */
  lemma ScaledFloorBelow(avg: real, f: real, m: int)
    requires 1.0 <= avg <= m as real
    requires 0.6 <= f < 0.95
    ensures (avg * f).Floor < m
  {
    ScaleBetween(avg, f);
  }

  /** The offer is strictly below the largest positive value still in play
      (the factor is below 1 and the mean is at most the maximum); with no
      positive value both are 0. */
  lemma {:induction false} OfferBelowMax(values: seq<int>, u: real)
    requires 0.0 <= u < 1.0
    requires PositiveCount(values) > 0
    ensures Offer(values, u) < MaxPositive(values)
  {
    var avg, f, m := Average(values), Factor(u), MaxPositive(values);
    assert 1.0 <= avg <= m as real by { AverageAtLeastOne(values); }
    assert (avg * f).Floor < m by { ScaledFloorBelow(avg, f, m); }
    assert Offer(values, u) == (avg * f).Floor by { OfferIsScaledAverage(values, u); }
  }

  /** Appending a non-positive entry changes neither the sum nor the count. */
  lemma {:induction false} NonPositiveIgnored(values: seq<int>, v: int, u: real)
    requires v <= 0
    requires 0.0 <= u < 1.0
    ensures PositiveSum(values + [v]) == PositiveSum(values)
    ensures PositiveCount(values + [v]) == PositiveCount(values)
    ensures Offer(values + [v], u) == Offer(values, u)
  {
    assert (values + [v])[..|values|] == values;
  }

  /** Sum and count are additive over concatenation. */
  lemma {:induction false} SumAndCountAppend(a: seq<int>, b: seq<int>)
    ensures PositiveSum(a + b) == PositiveSum(a) + PositiveSum(b)
    ensures PositiveCount(a + b) == PositiveCount(a) + PositiveCount(b)
  {
    if b == [] {
      assert a + b == a;
    } else {
      var init := b[..|b| - 1];
      assert (a + b)[..|a + b| - 1] == a + init;
      SumAndCountAppend(a, init);
    }
  }

  /** Removing the entry at `j` takes exactly that entry's share off the sum and count. */
  lemma {:induction false} SumAndCountRemove(b: seq<int>, j: int)
    requires 0 <= j < |b|
    ensures PositiveSum(b) == PositiveSum(b[..j] + b[j + 1..]) + PositiveSum([b[j]])
    ensures PositiveCount(b) == PositiveCount(b[..j] + b[j + 1..]) + PositiveCount([b[j]])
  {
    assert b == b[..j] + [b[j]] + b[j + 1..];
    SumAndCountAppend(b[..j], [b[j]]);
    SumAndCountAppend(b[..j] + [b[j]], b[j + 1..]);
    SumAndCountAppend(b[..j], b[j + 1..]);
  }

  /** The last entry of `a` occurs in any `b` with the same entries, and
      removing one occurrence from `b` leaves the entries of `a` without it. */
  lemma MatchLast(a: seq<int>, b: seq<int>) returns (j: int)
    requires a != [] && multiset(a) == multiset(b)
    ensures 0 <= j < |b| && b[j] == a[|a| - 1]
    ensures multiset(b[..j] + b[j + 1..]) == multiset(a[..|a| - 1])
  {
    var x := a[|a| - 1];
    var init := a[..|a| - 1];
    assert a == init + [x];
    assert x in multiset(b);
    j :| 0 <= j < |b| && b[j] == x;
    var rest := b[..j] + b[j + 1..];
    assert b == b[..j] + [x] + b[j + 1..];
    assert multiset(b) == multiset(rest) + multiset{x};
    assert multiset(a) == multiset(init) + multiset{x};
    assert multiset(rest) == multiset(b) - multiset{x};
  }

  /** Sum and count depend only on the multiset of the entries. */
  lemma {:induction false} SumAndCountPermutation(a: seq<int>, b: seq<int>)
    requires multiset(a) == multiset(b)
    ensures PositiveSum(a) == PositiveSum(b)
    ensures PositiveCount(a) == PositiveCount(b)
  {
    if a == [] {
      assert |b| == |multiset(b)| == 0;
    } else {
      var j := MatchLast(a, b);
      var x, init, rest := a[|a| - 1], a[..|a| - 1], b[..j] + b[j + 1..];
      SumAndCountPermutation(init, rest);
      SumAndCountRemove(b, j);
      assert a == init + [x];
      SumAndCountAppend(init, [x]);
    }
  }

  /** The offer does not depend on the order of the values in play. */
  lemma {:induction false} OfferOrderIndependent(a: seq<int>, b: seq<int>, u: real)
    requires multiset(a) == multiset(b)
    requires 0.0 <= u < 1.0
    ensures Offer(a, u) == Offer(b, u)
  {
    assert PositiveSum(a) == PositiveSum(b) && PositiveCount(a) == PositiveCount(b) by {
      SumAndCountPermutation(a, b);
    }
    if PositiveCount(a) > 0 {
      assert Average(a) == Average(b);
      OfferIsScaledAverage(a, u);
      OfferIsScaledAverage(b, u);
    }
  }
}
