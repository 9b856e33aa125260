/** Facts about products and quotients of integers, each needed in several places. */
module Arithmetic {
  lemma MulMono(a: int, b: int, c: nat)
    ensures a <= b ==> a * c <= b * c && c * a <= c * b
  {
  }

  lemma QuotientByOne(a: nat)
    ensures a / 1 == a
  {
  }

  lemma SmallQuotient(a: nat, d: nat)
    requires a < d
    ensures a / d == 0 && a % d == a
  {
  }
}
