/** Facts about division and scaling that the solver does not find by itself. */
module Arithmetic {

  lemma RemainderIs(x: int, q: int, m: nat, r: nat)
    requires m > 0 && x == q * m + r && r < m
    ensures x % m == r
  {
    var d := x / m - q;
    assert d * m == r - x % m by { assert x / m * m == q * m + d * m; }
  }

  lemma Scaled(x: real, y: real, s: real)
    requires s > 0.0
    ensures x < y <==> x * s < y * s
  {
    if x < y {
      assert (y - x) * s > 0.0;
    } else {
      assert (x - y) * s >= 0.0;
    }
  }
}
