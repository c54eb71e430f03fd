/** Facts about multiplication and division by a positive divisor, used by the
    index arithmetic of the rearrangement operators and the layer plans. */
module Arithmetic {

  /** A positive multiple of `d` is at least `d`. */
  lemma {:induction false} MulAtLeast(k: int, d: int)
    requires k >= 1 && d > 0
    ensures k * d >= d
  {
    if k > 1 {
      MulAtLeast(k - 1, d);
      assert k * d == (k - 1) * d + d;
    }
  }

  /** Quotient and remainder are unique. */
  lemma DivModUnique(a: int, d: int, q: int, r: int)
    requires d > 0 && 0 <= r < d && a == q * d + r
    ensures a / d == q && a % d == r
  {
    var q', r' := a / d, a % d;
    assert q' * d + r' == q * d + r;
    if q' > q {
      assert (q' - q) * d == r - r';
      MulAtLeast(q' - q, d);
    } else if q' < q {
      assert (q - q') * d == r' - r;
      MulAtLeast(q - q', d);
    }
  }

  /** `q*d + r` lies in `[0, m*d)` when `q` lies in `[0, m)` and `r` in `[0, d)`. */
  lemma BelowNextMultiple(q: int, r: int, d: int, m: int)
    requires d > 0 && 0 <= r < d && 0 <= q < m
    ensures 0 <= q * d + r < m * d
  {
    MulAtLeast(m - q, d);
    assert m * d == q * d + (m - q) * d;
    if q > 0 {
      MulAtLeast(q, d);
    }
  }

  /** Dividing by `d` keeps a value below `m` when it is below `m*d`. */
  lemma DivBelow(a: int, d: int, m: int)
    requires d > 0 && 0 <= a < m * d
    ensures 0 <= a / d < m
  {
    if a / d >= m {
      MulAtLeast(a / d - m + 1, d);
    }
  }

  /** A multiple of `d` is its quotient times `d`. */
  lemma ExactMultiple(a: int, d: int)
    requires d > 0 && a % d == 0
    ensures (a / d) * d == a
  {
  }
}
