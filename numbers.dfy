/** The numeric built-ins the application uses on non-negative whole numbers: `Math.ceil` of a
    quotient and `Math.pow(2, n)`. */
module Numbers {

  /** `Math.ceil(n / d)` for whole `n` and positive whole `d`. */
  function CeilDiv(n: nat, d: nat): (q: nat)
    requires d > 0
    ensures q * d >= n
    ensures q > 0 ==> (q - 1) * d < n
  {
    (n + d - 1) / d
  }

  /** The ceiling is the least multiple count that covers `n`. */
  lemma CeilDivLeast(n: nat, d: nat, m: nat)
    requires d > 0 && m * d >= n
    ensures CeilDiv(n, d) <= m
  {
    var q := CeilDiv(n, d);
    if q > m {
      assert (q - 1) * d >= m * d by {
        MulMonotone(m, q - 1, d);
      }
    }
  }

  /** The ceiling of an exact quotient is the quotient. */
  lemma CeilDivExact(k: nat, d: nat)
    requires d > 0
    ensures CeilDiv(k * d, d) == k
  {
    CeilDivLeast(k * d, d, k);
    var q := CeilDiv(k * d, d);
    if q < k {
      MulMonotone(q, k - 1, d);
    }
  }

  /** `Math.ceil(n / d)` does not decrease when `n` grows. */
  lemma CeilDivMonotone(n: nat, n': nat, d: nat)
    requires d > 0 && n <= n'
    ensures CeilDiv(n, d) <= CeilDiv(n', d)
  {
    CeilDivLeast(n, d, CeilDiv(n', d));
  }

  lemma MulMonotone(a: nat, b: nat, c: nat)
    requires a <= b
    ensures a * c <= b * c
  {
  }

  /** `Math.pow(2, n)`. */
  function Pow2(n: nat): (p: nat)
    ensures p >= 1
  {
    if n == 0 then 1 else 2 * Pow2(n - 1)
  }
}
