/** Facts about quotients by a variable. */
module Arithmetic {

  lemma MulGap(a: int, b: int, p: nat)
    requires a < b
    ensures a * p + p <= b * p
  {
    assert (b - a - 1) * p >= 0;
    assert (b - a - 1) * p == b * p - a * p - p;
  }

  lemma SameQuotient(q: int, r: nat, q': int, r': nat, p: nat)
    requires r < p && r' < p
    requires q * p + r == q' * p + r'
    ensures q == q' && r == r'
  {
    if q < q' {
      MulGap(q, q', p);
    } else if q' < q {
      MulGap(q', q, p);
    }
  }

  lemma QuotientUnique(n: nat, p: nat, q: nat, r: nat)
    requires p > 0 && r < p && n == q * p + r
    ensures n / p == q && n % p == r
  {
    SameQuotient(n / p, n % p, q, r, p);
  }

  lemma QuotientStep(r: nat, p: nat)
    requires p > 0
    ensures (r + 1) / p == r / p + if (r + 1) % p == 0 then 1 else 0
    ensures (r + 1) % p == if r % p + 1 == p then 0 else r % p + 1
  {
    var q, m := r / p, r % p;
    assert r == q * p + m;
    if m + 1 == p {
      assert (q + 1) * p == q * p + p;
      QuotientUnique(r + 1, p, q + 1, 0);
    } else {
      QuotientUnique(r + 1, p, q, m + 1);
    }
  }

  lemma QuotientFound(n: nat, p: nat, t: int, f: nat)
    requires p > 0 && f < p && n == t * p + f
    ensures n / p == t
  {
    SameQuotient(n / p, n % p, t, f, p);
  }

  lemma SumOfParts(q: nat, a: nat, b: nat, c: nat, d: nat, k: nat, f: nat, p: nat)
    requires q * b + d == k * p + f
    ensures q * (a * p + b) + (c * p + d) == (q * a + c + k) * p + f
  {
    assert q * (a * p + b) == q * (a * p) + q * b;
    assert q * (a * p) == (q * a) * p;
    assert (q * a + c + k) * p == (q * a) * p + c * p + k * p;
  }

  lemma SumQuotient(n: nat, q: nat, m: nat, r: nat, p: nat, a: nat, b: nat, c: nat, d: nat, k: nat, f: nat)
    requires p > 0 && f < p && n == q * m + r
    requires m == a * p + b && r == c * p + d && q * b + d == k * p + f
    ensures n / p == q * a + c + k
  {
    SumOfParts(q, a, b, c, d, k, f, p);
    QuotientFound(n, p, q * a + c + k, f);
  }

  lemma SmallExcess(q: nat, b: nat, d: nat, p: nat, k: nat, f: nat)
    requires b < p && d < p && f < p && q * b + d == k * p + f
    ensures k == q <==> q * (p - b) <= d
  {
    assert q * (p - b) == q * p - q * b && q * (p - b) >= 0;
    if q * (p - b) <= d {
      SameQuotient(k, f, q, d - q * (p - b), p);
    }
  }

  lemma PredecessorQuotient(m: nat, p: nat)
    requires p > 0 && m % p != 0
    ensures (m - 1) / p == m / p
  {
    QuotientUnique(m - 1, p, m / p, m % p - 1);
  }

  lemma WrapParts(n: nat, q: nat, m: nat, r: nat, p: nat, a: nat, b: nat, c: nat, d: nat, k: nat, f: nat)
    requires p > 0 && b < p && d < p && f < p && n == q * m + r
    requires m == a * p + b && r == c * p + d && q * b + d == k * p + f
    ensures q * (a + 1) + c == n / p <==> q * (p - b) <= d
  {
    SumQuotient(n, q, m, r, p, a, b, c, d, k, f);
    SmallExcess(q, b, d, p, k, f);
    assert q * (a + 1) == q * a + q;
  }

  lemma Parts(n: nat, p: nat)
    requires p > 0
    ensures n / p >= 0 && 0 <= n % p < p && n == n / p * p + n % p
  {
  }

  /** Counting one more than the multiples of p below m in each of q blocks of length m, plus those in a rest r,
      gives the quotient of the whole exactly when q times the missing part of a block stays within r's remainder. */
  lemma WrapExcess(n: nat, q: nat, m: nat, r: nat, p: nat)
    requires p > 0 && m % p != 0 && n == q * m + r
    ensures q * ((m - 1) / p + 1) + r / p == n / p <==> q * (p - m % p) <= r % p
  {
    Parts(m, p);
    Parts(r, p);
    var b, d := m % p, r % p;
    assert q * b >= 0;
    var e := q * b + d;
    Parts(e, p);
    PredecessorQuotient(m, p);
    WrapParts(n, q, m, r, p, (m - 1) / p, b, r / p, d, e / p, e % p);
  }
}
