/** Facts about division with a symbolic divisor, and powers of two and four. */
module Arithmetic {

  function Pow2(k: nat): (p: nat)
    ensures p > 0
  {
    if k == 0 then 1 else 2 * Pow2(k - 1)
  }

  function Pow4(k: nat): (p: nat)
    ensures p > 0
  {
    if k == 0 then 1 else 4 * Pow4(k - 1)
  }

  lemma MulLe(a: int, b: int, s: int)
    requires a <= b && 0 <= s
    ensures a * s <= b * s
  {
  }

  lemma DivModUnique(v: int, s: int, q: int, r: int)
    requires s > 0 && 0 <= r < s && v == q * s + r
    ensures v / s == q && v % s == r
  {
    var q', r' := v / s, v % s;
    SameQuotient(s, q, r, q', r');
  }

  lemma SameQuotient(s: int, q: int, r: int, q': int, r': int)
    requires s > 0 && 0 <= r < s && 0 <= r' < s && q * s + r == q' * s + r'
    ensures q == q' && r == r'
  {
    assert (q + 1) * s == q * s + s && (q' + 1) * s == q' * s + s;
    if q < q' {
      MulLe(q + 1, q', s);
    } else if q' < q {
      MulLe(q' + 1, q, s);
    }
  }

  lemma DivDiv(v: int, a: int, b: int)
    requires a > 0 && b > 0
    ensures a * b > 0 && v / (a * b) == (v / a) / b
  {
    var q, r := v / a, v % a;
    var q', r' := q / b, q % b;
    MulLe(1, b, a);
    MulLe(r', b - 1, a);
    ProductOfSums(a, b, q', r', r);
    assert v == q * a + r && q == q' * b + r';
    DivModUnique(v, a * b, q', r' * a + r);
  }

  lemma ProductOfSums(a: int, b: int, q: int, r: int, r': int)
    ensures (q * b + r) * a + r' == q * (a * b) + (r * a + r')
    ensures (b - 1) * a == a * b - a
  {
  }

  // v / a == q says in which run of a consecutive numbers v lies.
  lemma QuotientRun(v: int, a: int, q: int)
    requires a > 0
    ensures v / a == q <==> q * a <= v < (q + 1) * a
  {
    assert (q + 1) * a == q * a + a;
    assert v == (v / a) * a + v % a;
    if q * a <= v < (q + 1) * a {
      DivModUnique(v, a, q, v - q * a);
    }
  }

  lemma QuotientRange(v: int, a: int, b: int)
    requires a > 0 && 0 <= v < b * a
    ensures 0 <= v / a < b
  {
    var q := v / a;
    assert v == q * a + v % a;
    if q >= b {
      MulLe(b, q, a);
    }
    if q < 0 {
      MulLe(q, -1, a);
    }
  }

  lemma {:induction false} Pow2Sum(k: nat, j: nat)
    ensures Pow2(k + j) == Pow2(k) * Pow2(j)
  {
    if j > 0 {
      Pow2Sum(k, j - 1);
    }
  }

  lemma {:induction false} SquareOfPow2(k: nat)
    ensures Pow2(k) * Pow2(k) == Pow4(k)
  {
    if k > 0 {
      SquareOfPow2(k - 1);
    }
  }
}
