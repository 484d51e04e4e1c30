/** The few facts of nonlinear arithmetic that the codec proofs use. */
module Arithmetic {
  lemma MulMonotone(a: int, b: int, c: nat)
    requires a <= b
    ensures a * c <= b * c
  {
  }

  lemma DivMod(a: int, b: nat)
    requires b > 0
    ensures a == (a / b) * b + a % b && 0 <= a % b < b
  {
  }

  lemma DivMonotone(a: nat, b: nat)
    requires b > 0
    ensures 0 <= a / b <= a
  {
    DivMod(a, b);
    MulMonotone(1, b, a / b);
  }

  /** Quotient and remainder are the only such pair. */
  lemma DivModUnique(r: nat, q: int, b: nat)
    requires r < b
    ensures (r + q * b) / b == q && (r + q * b) % b == r
  {
    var v := r + q * b;
    DivMod(v, b);
    var d := v / b;
    assert d <= q by {
      if d > q { MulMonotone(q + 1, d, b); }
    }
    assert d >= q by {
      if d < q { MulMonotone(d + 1, q, b); }
    }
  }

  /** Testing `a > b / w` is an exact test for `a * w > b`. */
  lemma ProductWithin(a: int, b: int, w: nat)
    requires w > 0
    ensures a <= b / w <==> a * w <= b
  {
    DivMod(b, w);
    if a <= b / w {
      MulMonotone(a, b / w, w);
    } else {
      MulMonotone(b / w + 1, a, w);
    }
  }

  lemma MulAssociates(a: int, b: int, c: int)
    ensures (a * b) * c == a * (b * c) == a * (c * b)
  {
  }

  lemma MulDistributes(a: int, b: int, c: int)
    ensures (a + b) * c == a * c + b * c
  {
  }

  function Pow10(n: nat): (r: nat)
    ensures r > 0
  {
    if n == 0 then 1 else 10 * Pow10(n - 1)
  }

  lemma {:induction false} Pow10Grows(m: nat, n: nat)
    ensures m <= n ==> Pow10(m) <= Pow10(n)
  {
    if m < n {
      Pow10Grows(m, n - 1);
    }
  }
}
