/** Facts about multiplication and Euclidean division that the index arithmetic of
    the flat buffers needs. */
module Arith {

  lemma MulAtLeast(a: int, b: int)
    requires a >= 1 && b > 0
    ensures a * b >= b
  {
    if a > 1 {
      MulAtLeast(a - 1, b);
      assert a * b == (a - 1) * b + b;
    }
  }

  /** Euclidean division is unique: `q * b + r` with `0 <= r < b` divides back to `q`
      with remainder `r`. */
  lemma DivModUnique(n: int, b: int, q: int, r: int)
    requires b > 0 && 0 <= r < b && n == q * b + r
    ensures n / b == q && n % b == r
  {
    var q', r' := n / b, n % b;
    assert n == q' * b + r';
    if q' > q {
      assert (q' - q) * b == q' * b - q * b;
      MulAtLeast(q' - q, b);
    } else if q' < q {
      assert (q - q') * b == q * b - q' * b;
      MulAtLeast(q - q', b);
    }
  }

  /** A whole row `y` of a `dimsU` by `dimsV` plane ends inside the plane. */
  lemma RowFits(dimsU: nat, dimsV: nat, y: nat)
    requires y < dimsV
    ensures y * dimsU + dimsU <= dimsU * dimsV
  {
    assert (dimsV - y) * dimsU == dimsV * dimsU - y * dimsU;
    if dimsU > 0 {
      MulAtLeast(dimsV - y, dimsU);
    }
  }

}
