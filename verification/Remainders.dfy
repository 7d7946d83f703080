/** Powers of two, and division with remainder by a number that is not a constant. */
module Remainders {

  function Power2(n: nat): (r: nat)
    ensures r > 0
  {
    if n == 0 then 1 else 2 * Power2(n - 1)
  }

  lemma TimesNext(m: nat, a: nat, b: nat)
    requires a < b
    ensures m * a + m <= m * b
  {
    var d := b - a - 1;
    assert m * d >= 0;
    assert m * b == m * (a + 1 + d) == m * a + m + m * d;
  }

  lemma ModUnique(x: nat, m: nat, q: nat, r: nat)
    requires m > 0 && x == m * q + r && r < m
    ensures x % m == r
  {
    var q' := x / m;
    DivMod(x, m);
    if q' < q { TimesNext(m, q', q); }
    if q' > q { TimesNext(m, q, q'); }
  }

  lemma DivMod(x: nat, m: nat)
    requires m > 0
    ensures x == m * (x / m) + x % m && x % m < m
  {
  }

  lemma DivUnique(x: nat, m: nat, q: nat, r: nat)
    requires m > 0 && x == m * q + r && r < m
    ensures x / m == q
  {
    var q' := x / m;
    DivMod(x, m);
    if q' < q { TimesNext(m, q', q); }
    if q' > q { TimesNext(m, q, q'); }
  }
}
