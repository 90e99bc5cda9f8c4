/** Facts about products and quotients that the solver needs spelled out. */
module Arith {

  lemma {:induction false} MulLe(a: int, b: int, c: nat)
    requires a <= b
    ensures a * c <= b * c
  {
    if c > 0 {
      MulLe(a, b, c - 1);
      assert a * c == a * (c - 1) + a && b * c == b * (c - 1) + b;
    }
  }

  lemma MulLt(a: int, b: int, c: nat)
    requires a < b && c > 0
    ensures a * c < b * c
  {
    MulLe(a + 1, b, c);
    assert (a + 1) * c == a * c + c;
  }

  lemma MulCancel(a: int, b: int, c: nat)
    requires c > 0 && a * c <= b * c
    ensures a <= b
  {
    if b < a {
      MulLt(b, a, c);
    }
  }

  /** Quotient of unsigned division. */
  function Quot(a: nat, w: nat): (q: nat)
    requires w > 0
    ensures q * w <= a < q * w + w
  {
    a / w
  }

  lemma QuotAtLeast(a: nat, low: nat, w: nat)
    requires w > 0 && low * w <= a
    ensures low <= Quot(a, w)
  {
    var q := Quot(a, w);
    assert (q + 1) * w == q * w + w;
    if q < low {
      MulLe(q + 1, low, w);
    }
  }

  /** Quotient and remainder are unique. */
  lemma DivModUnique(n: int, w: nat, q: int, r: nat)
    requires r < w && n == q * w + r
    ensures n / w == q && n % w == r
  {
    var p := n / w;
    assert n == p * w + n % w;
    assert (p + 1) * w == p * w + w && (q + 1) * w == q * w + w;
    if p < q {
      MulLe(p + 1, q, w);
    } else if q < p {
      MulLe(q + 1, p, w);
    }
  }
}
