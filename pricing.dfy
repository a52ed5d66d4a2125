/** MathUtils: the price after a percentage discount. Java's `double`
    arithmetic is modelled by exact real arithmetic. */
module Pricing {

  /** MathUtils.calculateValueWithDiscount: the brute value less
      `discountPercentage` percent of it. */
  function CalculateValueWithDiscount(bruteValue: real, discountPercentage: real): (r: real)
    ensures r == bruteValue * (100.0 - discountPercentage) / 100.0
    ensures bruteValue >= 0.0 && 0.0 <= discountPercentage <= 100.0 ==> 0.0 <= r <= bruteValue
  {
    var realDiscount := bruteValue * discountPercentage / 100.0;
    bruteValue - realDiscount
  }

  /** No discount leaves the value unchanged. */
  lemma NoDiscount(v: real)
    ensures CalculateValueWithDiscount(v, 0.0) == v
  {
  }

  /** A full discount brings the value to zero. */
  lemma FullDiscount(v: real)
    ensures CalculateValueWithDiscount(v, 100.0) == 0.0
  {
  }

  /** The long-stay discount of ten percent keeps nine tenths of the value. */
  lemma TenPercentDiscount(v: real)
    ensures CalculateValueWithDiscount(v, 10.0) == 0.9 * v
  {
  }

  /** A discount of more than nothing lowers every positive value. */
  lemma DiscountLowersPositiveValue(v: real, p: real)
    requires v > 0.0 && p > 0.0
    ensures CalculateValueWithDiscount(v, p) < v
  {
  }
}
