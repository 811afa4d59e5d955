/**
 Small facts about integer products, quotients and remainders used by the
 cell-grid and resampling proofs.
 */
module IntArith {

  /** The quotient and remainder of `n` by `d` are the only pair with `n == q*d + r` and `0 <= r < d`. */
  lemma DivModUnique(n: int, d: int, q: int, r: int)
    requires 0 < d && 0 <= r < d && n == q * d + r
    ensures n / d == q && n % d == r
  {
    var q', r' := n / d, n % d;
    assert n == q' * d + r';
    if q' < q {
      assert (q - q') * d >= d by { MulAtLeast(q - q', d); }
      assert false;
    } else if q' > q {
      assert (q' - q) * d >= d by { MulAtLeast(q' - q, d); }
      assert false;
    }
  }

  lemma DivNonNegative(n: int, d: int)
    requires 0 <= n && 0 < d
    ensures n / d >= 0
  {
  }

  lemma DivBelow(n: nat, d: nat, k: nat)
    requires 0 < d && n < k * d
    ensures n / d < k
  {
    if n / d >= k {
      MulMono(k, n / d, d);
    }
  }

  lemma MulAtLeast(k: int, d: int)
    requires k >= 1 && d > 0
    ensures k * d >= d
  {
  }

  lemma MulMono(a: nat, b: nat, k: nat)
    requires a <= b
    ensures a * k <= b * k
  {
  }

  lemma DivMonotone(a: nat, b: nat, d: nat)
    requires 0 < d && a <= b
    ensures a / d <= b / d
  {
    DivLtIff(b, d, b / d + 1);
    DivLtIff(a, d, b / d + 1);
  }

  /** `a / d < k` exactly when `a < k*d`. */
  lemma DivLtIff(a: nat, d: nat, k: nat)
    requires 0 < d
    ensures a / d < k <==> a < k * d
  {
    var q := a / d;
    assert a == q * d + a % d;
    if q < k {
      MulMono(q + 1, k, d);
    } else {
      MulMono(k, q, d);
    }
  }

  /** `i < ceil(n / d)` exactly when `i*d < n`. */
  lemma CeilLtIff(i: nat, n: nat, d: nat)
    requires 0 < d
    ensures i < (n + d - 1) / d <==> i * d < n
  {
    DivLtIff(n + d - 1, d, i + 1);
    assert (i + 1) * d == i * d + d;
  }
}

/**
 Small facts about products and quotients of reals that the envelope and
 waveform proofs rely on. Each is stated on plain variables so that the
 solver meets one multiplication or division at a time.
 */
module RealArith {

  lemma MulLeq(a: real, b: real, m: real)
    requires a <= b && 0.0 <= m
    ensures a * m <= b * m
  {
    var d := b - a;
    assert d * m >= 0.0;
    assert b * m == a * m + d * m;
  }

  lemma MulLt(a: real, b: real, m: real)
    requires a < b && 0.0 < m
    ensures a * m < b * m
  {
    var d := b - a;
    assert d * m > 0.0;
    assert b * m == a * m + d * m;
  }

  lemma MulDivCancel(x: real, m: real)
    requires m != 0.0
    ensures x / m * m == x
  {
  }

  lemma MulDivCancelLeft(a: real, m: real)
    requires m != 0.0
    ensures a * m / m == a
  {
  }

  /** A quotient by a positive number keeps the order of its dividends. */
  lemma DivLeq(x: real, y: real, m: real)
    requires x <= y && 0.0 < m
    ensures x / m <= y / m
  {
    var u, v := x / m, y / m;
    MulDivCancel(x, m);
    MulDivCancel(y, m);
    if u > v {
      MulLt(v, u, m);
    }
  }

  lemma DivLt(x: real, y: real, m: real)
    requires x < y && 0.0 < m
    ensures x / m < y / m
  {
    var u, v := x / m, y / m;
    MulDivCancel(x, m);
    MulDivCancel(y, m);
    if u >= v {
      MulLeq(v, u, m);
    }
  }

  /** A dividend in [0, m) gives a quotient by `m` in [0, 1). */
  lemma DivBelowOne(r: real, m: real)
    requires 0.0 <= r < m
    ensures 0.0 <= r / m < 1.0
  {
    DivLeq(0.0, r, m);
    DivLt(r, m, m);
  }

  /** A fraction in [0, 1] of a non-negative number lies between 0 and that number. */
  lemma MulUnit(x: real, perc: real)
    requires 0.0 <= x && 0.0 <= perc <= 1.0
    ensures 0.0 <= x * perc <= x
  {
    MulLeq(0.0, perc, x);
    MulLeq(perc, 1.0, x);
    assert perc * x == x * perc;
  }

  /** If `y*m == x` and `q <= y`, then `q` whole steps of `m` fit into `x`. */
  lemma StepsAtMost(x: real, y: real, m: real, q: real)
    requires 0.0 < m && q <= y && y * m == x
    ensures q * m <= x
  {
    var e := y - q;
    assert e * m >= 0.0;
    assert y * m - q * m == e * m;
  }

  /** If `y*m == x` and `y < q + 1`, then `q + 1` steps of `m` overshoot `x`. */
  lemma StepsOvershoot(x: real, y: real, m: real, q: real)
    requires 0.0 < m && y < q + 1.0 && y * m == x
    ensures x < q * m + m
  {
    var d := q + 1.0 - y;
    assert d * m > 0.0;
    assert q * m + m - y * m == d * m;
  }
}
