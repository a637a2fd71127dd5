/** Facts about products and quotients of integers, each proved on its own. */
module Arithmetic {
  lemma MulAtLeast(q: int, p: nat)
    requires q >= 1
    ensures q * p >= p
  {
  }

  lemma MulDistributes(a: int, b: int, p: int)
    ensures (a + b) * p == a * p + b * p
    ensures (a - b) * p == a * p - b * p
  {
  }

  lemma MulAssoc(a: int, b: int, c: int)
    ensures a * (b * c) == (a * b) * c
  {
  }

  lemma MulCommutes(a: int, b: int)
    ensures a * b == b * a
  {
  }

  lemma DivModUnique(n: int, p: nat, q: int, r: int)
    requires p > 0 && n == q * p + r && 0 <= r < p
    ensures n / p == q && n % p == r
  {
    var q', r' := n / p, n % p;
    assert n == q' * p + r';
    MulDistributes(q', q, p);
    if q' > q {
      MulAtLeast(q' - q, p);
    } else if q' < q {
      MulDistributes(q, q', p);
      MulAtLeast(q - q', p);
    }
  }

  lemma MulMonotone(x: int, y: int, b: nat)
    requires x <= y
    ensures x * b <= y * b
  {
  }
}
