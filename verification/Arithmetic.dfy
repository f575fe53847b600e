/** Remainders, for the byte counter of MD5 and the steps of crontab ranges. */
module Arithmetic {
  lemma ModIs(x: nat, q: nat, r: nat, m: nat)
    requires m > 0 && x == q * m + r && r < m
    ensures x % m == r
  {
    var d := x / m - q;
    assert d * m == r - x % m;
    assert d >= 1 ==> d * m >= m;
    assert d <= -1 ==> d * m + m <= 0;
  }

  // From a multiple of m, d further on.
  lemma StepOn(x: nat, m: nat, d: nat)
    requires m >= 1 && x % m == 0 && d <= m
    ensures (x + d) % m == if d == m then 0 else d
  {
    var q := x / m;
    assert x == q * m;
    if d == m {
      assert (q + 1) * m == q * m + m;
      ModIs(x + d, q + 1, 0, m);
    } else {
      ModIs(x + d, q, d, m);
    }
  }
}
