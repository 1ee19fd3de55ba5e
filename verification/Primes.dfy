/** The number theory behind quadratic probing. */
module Primes {

  predicate IsPrime(p: nat) {
    p >= 2 && forall d :: 2 <= d < p ==> p % d != 0
  }

  lemma ProductAtLeast(p: nat, d: int)
    requires p > 0 && d >= 1
    ensures p * d >= p
  {
    assert p * d == p * (d - 1) + p;
  }

  lemma Distribute(p: int, q: int, q': int)
    ensures p * q - p * q' == p * (q - q')
  {
  }

  /** Quotient and remainder are determined. */
  lemma DivisionUnique(p: nat, n: int, q: int, r: int)
    requires p > 0 && n == p * q + r && 0 <= r < p
    ensures n / p == q && n % p == r
  {
    var q', r' := n / p, n % p;
    assert n == p * q' + r' && 0 <= r' < p;
    Distribute(p, q, q');
    Distribute(p, q', q);
    if q > q' {
      ProductAtLeast(p, q - q');
    } else if q < q' {
      ProductAtLeast(p, q' - q);
    }
  }

  lemma MultipleModulo(p: nat, k: int)
    requires p > 0
    ensures (p * k) % p == 0
  {
    DivisionUnique(p, p * k, k, 0);
  }

  /** Euclid's lemma, for factors below the prime: the product is not a multiple. */
  lemma {:induction false} PrimeDividesNoProduct(p: nat, x: nat, y: nat)
    requires IsPrime(p) && 0 < x < p && 0 < y < p
    ensures (x * y) % p != 0
    decreases x
  {
    if x == 1 {
      assert x * y == y;
    } else {
      var q, r := p / x, p % x;
      PrimeDividesNoProduct(p, r, y);
      if (x * y) % p == 0 {
        var m := (x * y) / p;
        assert x * y == p * m;
        Descend(p, x, y, q, r, m);
        MultipleModulo(p, y - q * m);
        assert false;
      }
    }
  }

  lemma Descend(p: int, x: int, y: int, q: int, r: int, m: int)
    requires p == x * q + r && x * y == p * m
    ensures r * y == p * (y - q * m)
  {
    assert p * y == x * y * q + r * y by {
      assert p * y == (x * q + r) * y;
    }
    assert p * m * q == p * (q * m);
  }

  /** Below half of a prime, squares are pairwise different modulo the prime, from any starting point. */
  lemma SquaresDiffer(p: nat, h: nat, i: nat, j: nat)
    requires IsPrime(p) && j < i && i + j < p
    ensures (h + i * i) % p != (h + j * j) % p
  {
    if (h + i * i) % p == (h + j * j) % p {
      var s, t := (h + i * i) / p, (h + j * j) / p;
      assert (i - j) * (i + j) == i * i - j * j == p * (s - t);
      MultipleModulo(p, s - t);
      PrimeDividesNoProduct(p, i - j, i + j);
      assert false;
    }
  }

  /** The second half of the squares repeats the first. */
  lemma SquaresMirror(p: nat, h: nat, i: nat)
    requires 0 < i < p
    ensures (h + i * i) % p == (h + (p - i) * (p - i)) % p
  {
    var n := h + i * i;
    var k := p - 2 * i;
    assert (p - i) * (p - i) == i * i + p * k;
    ShiftByMultiple(p, n, k);
  }

  lemma ShiftByMultiple(p: nat, n: int, k: int)
    requires p > 0
    ensures (n + p * k) % p == n % p
  {
    var q, r := n / p, n % p;
    assert n + p * k == p * (q + k) + r;
    DivisionUnique(p, n + p * k, q + k, r);
  }
}
