/** Division facts used by the splitter and the stream scrambler. */
module Arith {

  lemma ProductAtLeast(k: nat, d: nat)
    requires k >= 1
    ensures k * d >= d
  {
    assert k * d == d + (k - 1) * d;
  }

  lemma ProductMonotone(a: nat, b: nat, d: nat)
    requires a <= b
    ensures a * d <= b * d
  {
    assert b * d == a * d + (b - a) * d;
  }

  /** Quotient and remainder are determined by the division identity. */
  lemma DivUnique(n: nat, d: nat, q: nat, r: nat)
    requires r < d && n == q * d + r
    ensures n / d == q && n % d == r
  {
    var q', r' := n / d, n % d;
    assert n == q' * d + r';
    if q' > q {
      ProductAtLeast(q' - q, d);
    } else if q > q' {
      ProductAtLeast(q - q', d);
    }
  }

  lemma SameQuotient(n: nat, m: nat, d: nat)
    requires d > 0 && n / d == m / d && n % d == m % d
    ensures n == m
  {
    assert n == (n / d) * d + n % d;
    assert m == (m / d) * d + m % d;
  }

  lemma DivStep(n: nat, d: nat)
    requires d > 0 && n >= d
    ensures n / d == (n - d) / d + 1 && n % d == (n - d) % d
  {
    var q, r := (n - d) / d, (n - d) % d;
    assert n - d == q * d + r;
    assert n == (q + 1) * d + r;
    DivUnique(n, d, q + 1, r);
  }

  lemma ProductStep(q: nat, d: nat)
    ensures (q + 1) * d == q * d + d
  {
  }

  /** q * d, added up. */
  function Times(q: nat, d: nat): nat
  {
    if q == 0 then 0 else Times(q - 1, d) + d
  }

  lemma {:induction false} TimesIs(q: nat, d: nat)
    ensures Times(q, d) == q * d
  {
    if q > 0 {
      TimesIs(q - 1, d);
      ProductStep(q - 1, d);
    }
  }

  /** Pieces of at most d that make up n. */
  function DivCeil(n: nat, d: nat): nat
    requires d > 0
  {
    if n == 0 then 0 else if n <= d then 1 else 1 + DivCeil(n - d, d)
  }

  lemma {:induction false} DivCeilIs(n: nat, d: nat)
    requires d > 0
    ensures DivCeil(n, d) == if n % d == 0 then n / d else n / d + 1
  {
    if n >= d {
      DivStep(n, d);
      DivCeilIs(n - d, d);
    } else {
      DivUnique(n, d, 0, n);
    }
  }

  lemma {:induction false} DivCeilUnique(n: nat, d: nat, q: nat, r: nat)
    requires 0 < r <= d && n == q * d + r
    ensures DivCeil(n, d) == q + 1
  {
    DivCeilIs(n, d);
    if r == d {
      ProductStep(q, d);
      DivUnique(n, d, q + 1, 0);
    } else {
      DivUnique(n, d, q, r);
    }
  }

  /** All pieces before the last are whole. */
  lemma {:induction false} DivCeilBounds(n: nat, d: nat)
    requires d > 0 && n > 0
    ensures var k := DivCeil(n, d); k >= 1 && (k - 1) * d < n <= k * d
  {
    if n > d {
      DivCeilBounds(n - d, d);
      var k := DivCeil(n - d, d);
      ProductStep(k, d);
      ProductStep(k - 1, d);
    }
  }
}
