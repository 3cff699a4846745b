/**
 The percentage arithmetic of `recalculateCommission` in src/modules/admin/admin.service.ts
 (lines 2088-2106): rates are basis points, amounts minor units.
 */
module Rounding {

  /** `Math.round(n / 10000)` */
  function RoundBasisPoints(n: int): int {
    (n + 5000) / 10000
  }

  lemma RoundsHalfUp(n: int)
    ensures -5000 < 10000 * RoundBasisPoints(n) - n <= 5000
  {
  }

  lemma RoundCovers(n: int, amount: int)
    ensures amount <= RoundBasisPoints(n) <==> 10000 * amount <= n + 5000
  {
  }

  /** Rounding is off by at most half a minor unit, and a rate of at most 100 percent never
      takes more than the base. */
  lemma RoundingError(base: int, rate: int)
    ensures -5000 <= 10000 * RoundBasisPoints(base * rate) - base * rate <= 5000
    ensures base >= 0 && 0 <= rate <= 10000 ==> 0 <= RoundBasisPoints(base * rate) <= base
  {
    if base >= 0 && 0 <= rate <= 10000 {
      ProductBound(base, rate);
    }
  }

  lemma ProductBound(base: int, rate: int)
    requires base >= 0 && 0 <= rate <= 10000
    ensures 0 <= base * rate <= 10000 * base
  {
  }

  function TotalRounded(bases: seq<int>, rate: int): int {
    if bases == [] then 0 else TotalRounded(bases[..|bases| - 1], rate) + RoundBasisPoints(bases[|bases| - 1] * rate)
  }

  function Total(bases: seq<int>): int {
    if bases == [] then 0 else Total(bases[..|bases| - 1]) + bases[|bases| - 1]
  }

  /** Rounding n commissions at one rate one by one drifts from the exact total by at most
      n / 2 minor units. */
  lemma {:induction false} RoundingDrift(bases: seq<int>, rate: int)
    ensures -5000 * |bases| <= 10000 * TotalRounded(bases, rate) - Total(bases) * rate <= 5000 * |bases|
  {
    if bases != [] {
      var k := |bases| - 1;
      RoundingDrift(bases[..k], rate);
      RoundingError(bases[k], rate);
      assert Total(bases) * rate == Total(bases[..k]) * rate + bases[k] * rate;
    }
  }
}
