/** Facts about multiplication and Euclidean division of natural numbers used by the index arithmetic. */
module Arithmetic {

  lemma MulMonotone(a: nat, b: nat, c: nat)
    requires a <= b
    ensures a * c <= b * c
  {
    if c > 0 { MulMonotone(a, b, c - 1); }
  }

  /** Euclidean division of `q * d + r` by `d` gives back `q` and `r`. */
  lemma DivModOf(q: nat, d: nat, r: nat)
    requires r < d
    ensures (q * d + r) / d == q && (q * d + r) % d == r
  {
    var x := q * d + r;
    var q', r' := x / d, x % d;
    assert x == q' * d + r';
    if q' > q { MulMonotone(q + 1, q', d); assert false; }
    if q' < q { MulMonotone(q' + 1, q, d); assert false; }
  }

  /** A length that `d` divides is `d` times its quotient. */
  lemma ExactQuotient(n: nat, d: nat)
    requires d >= 1 && n % d == 0
    ensures n == (n / d) * d
  {
  }

  /** Whole windows of `d` fit in `n`: `(n / d) * d <= n`. */
  lemma QuotientBound(n: nat, d: nat)
    requires d >= 1
    ensures (n / d) * d <= n
  {
  }

  /** One window less: `(w - 1) * size + size == w * size`. */
  lemma WindowStep(w: nat, size: nat)
    requires w >= 1
    ensures (w - 1) * size + size == w * size
  {
  }

  /** One window more: `(a + 1) * n == a * n + n`. */
  lemma MulSucc(a: nat, n: nat)
    ensures (a + 1) * n == a * n + n
  {
  }

  /** Multiplication by the same factor keeps a strict order only if the multiplicands have it. */
  lemma MulStrict(a: nat, b: nat, n: nat)
    requires a * n < b * n
    ensures a < b
  {
    if a >= b { MulMonotone(b, a, n); }
  }
}
