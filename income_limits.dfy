/**
 * Arithmetic shared by the three free-meal eligibility rules: the
 * `max(0, n)` clamp and the "income within limit" comparison, with the
 * 10% same-city reduction (`income_limit *= 0.9`) computed exactly as
 * `10 * income <= 9 * limit` instead of in floating point.
 */
module IncomeLimits {

  /** Python's `max(0, n)`. */
  function ClampAtZero(n: int): (r: nat)
    ensures r >= n && (n >= 0 ==> r == n)
    ensures n < 0 ==> r == 0
  {
    if n < 0 then 0 else n
  }

  /** `income <= limit * (0.9 if sameCity else 1)`, in exact arithmetic. */
  predicate WithinLimit(income: int, limit: int, sameCity: bool) {
    if sameCity then 10 * income <= 9 * limit else income <= limit
  }

  /** The same-city limit is never more generous than the other-city limit (for a non-negative limit). */
  lemma SameCityStricter(income: int, limit: int)
    requires limit >= 0
    ensures WithinLimit(income, limit, true) ==> WithinLimit(income, limit, false)
  {
  }

  /** Raising the limit never turns an eligible income into an ineligible one. */
  lemma WithinLimitMonotone(income: int, limit: int, limit': int, sameCity: bool)
    requires limit <= limit'
    ensures WithinLimit(income, limit, sameCity) ==> WithinLimit(income, limit', sameCity)
  {
  }

}
