/** Division with remainder by a variable divisor. */
module Arithmetic {
  lemma MulAtLeast(k: int, r: nat)
    requires 1 <= k
    ensures k * r >= r
  {
    assert (k - 1) * r >= 0;
  }

  lemma MulMonotone(a: nat, b: nat, r: nat)
    requires a < b
    ensures a * r + r <= b * r
  {
    MulAtLeast(b - a, r);
    assert (b - a) * r == b * r - a * r;
  }

  lemma DivModSum(v: nat, radix: nat)
    requires 0 < radix
    ensures v == v / radix * radix + v % radix
  {}

  lemma QuotientIsSmaller(v: nat, q: int, d: nat, radix: nat)
    requires 2 <= radix && v == q * radix + d && d < radix
    ensures 0 <= q && (0 < v ==> q < v)
  {
    if q < 0 {
      MulAtLeast(-q, radix);
    } else if 0 < q {
      MulMonotone(0, q, radix);
      assert q * radix == q * 2 + q * (radix - 2);
    }
  }

  lemma DivMod(v: nat, radix: nat)
    requires 2 <= radix
    ensures 0 <= v / radix && v == v / radix * radix + v % radix && v % radix < radix
    ensures 0 < v ==> v / radix < v
  {
    DivModSum(v, radix);
    QuotientIsSmaller(v, v / radix, v % radix, radix);
  }

  lemma QuotientIsUnique(q: nat, d: nat, q': nat, d': nat, radix: nat)
    requires q * radix + d == q' * radix + d' && d < radix && d' < radix
    ensures q == q' && d == d'
  {
    if q < q' {
      MulMonotone(q, q', radix);
    } else if q' < q {
      MulMonotone(q', q, radix);
    }
  }

  lemma DivModOf(q: nat, d: nat, radix: nat)
    requires 2 <= radix && d < radix
    ensures (q * radix + d) / radix == q && (q * radix + d) % radix == d
  {
    var v := q * radix + d;
    DivMod(v, radix);
    QuotientIsUnique(q, d, v / radix, v % radix, radix);
  }
}
