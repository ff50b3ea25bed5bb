/** 256-bit unsigned integers with the checked operations of `primitive_types::U256`. */
module Uint256 {
  import opened Prelude

  type U256 = x: int | 0 <= x <= U256_MAX

  function CheckedAdd(a: U256, b: U256): Option<U256> {
    if a + b > U256_MAX then None else Some(a + b)
  }

  function CheckedMul(a: U256, b: U256): Option<U256> {
    if a * b > U256_MAX then None else ProductNonNegative(a, b); Some(a * b)
  }

  lemma ProductNonNegative(a: nat, b: nat)
    ensures a * b >= 0
  {
  }

  function CheckedDiv(a: U256, b: U256): Option<U256> {
    if b == 0 then None else QuotientSmaller(a, b); Some(a / b)
  }

  lemma QuotientSmaller(a: nat, b: nat)
    requires b > 0
    ensures 0 <= a / b <= a
  {
    QuotientRemainder(a, b);
    MulMonotone(1, b, a / b);
  }

  function CheckedSub(a: U256, b: U256): Option<U256> {
    if b > a then None else Some(a - b)
  }

  /** `amount * numerator / denominator`, rounded down, if nothing overflows and the divisor is not zero. */
  function MulDiv(amount: U256, numerator: U256, denominator: U256): Option<U256> {
    match CheckedMul(amount, numerator) case None => None case Some(p) => CheckedDiv(p, denominator)
  }

  lemma QuotientRemainder(a: nat, b: nat)
    requires b > 0
    ensures a == (a / b) * b + a % b && 0 <= a % b < b && a / b >= 0
  {
  }

  lemma MulMonotone(a: int, b: int, k: int)
    ensures k >= 0 && a <= b ==> a * k <= b * k
    ensures k > 0 && a > b ==> a * k > b * k
  {
  }

  lemma QuotientUnique(a: nat, b: nat, q: nat)
    requires b > 0 && q * b <= a < (q + 1) * b
    ensures a / b == q
  {
    QuotientRemainder(a, b);
    if a / b < q { MulMonotone(a / b + 1, q, b); }
    if a / b > q { MulMonotone(q + 1, a / b, b); }
  }

  /** q is n / d rounded down. */
  ghost predicate IsQuotient(q: int, n: int, d: int) {
    d > 0 && q * d <= n < q * d + d
  }

  lemma QuotientIs(n: nat, d: nat, q: nat)
    ensures d > 0 ==> (IsQuotient(q, n, d) <==> n / d == q)
  {
    if d > 0 {
      QuotientRemainder(n, d);
      if IsQuotient(q, n, d) {
        assert (q + 1) * d == q * d + d;
        QuotientUnique(n, d, q);
      }
    }
  }

  lemma MulDivIs(x: U256, n: U256, d: U256, q: nat)
    ensures x * n >= 0
    ensures (x * n <= U256_MAX && IsQuotient(q, x * n, d)) <==> MulDiv(x, n, d).Some? && MulDiv(x, n, d).value == q
  {
    ProductNonNegative(x, n);
    QuotientIs(x * n, d, q);
  }
}
