/** Division by a product, for the digits of numbers in any base. */
module Quotients {

  lemma DivMod(x: nat, d: nat)
    requires d > 0
    ensures x == x / d * d + x % d && x % d < d
  {
  }

  lemma TimesDifference(a: int, b: int, d: nat)
    ensures (a - b) * d == a * d - b * d
  {
  }

  lemma AtLeastOnce(k: int, d: nat)
    ensures k >= 1 ==> k * d >= d
  {
  }

  lemma QuotientIs(x: nat, d: nat, q: int, r: nat)
    requires x == q * d + r && r < d
    ensures x / d == q
  {
    DivMod(x, d);
    TimesDifference(q, x / d, d);
    TimesDifference(x / d, q, d);
    AtLeastOnce(q - x / d, d);
    AtLeastOnce(x / d - q, d);
  }

  /** The remainder of a product. */
  lemma RemainderFits(c: nat, p: nat, s: nat, r: nat)
    requires s < p && r < c
    ensures c * s + r < c * p
  {
    TimesDifference(p, s, c);
    AtLeastOnce(p - s, c);
  }

  lemma QuotientTwice(x: nat, c: nat, p: nat)
    requires c > 0 && p > 0
    ensures c * p > 0 && x / (c * p) == x / c / p
  {
    var y := x / c;
    DivMod(x, c);
    DivMod(y, p);
    var q, s, r := y / p, y % p, x % c;
    RemainderFits(c, p, s, r);
    assert x == c * y + r && y == q * p + s;
    Regroup(c, p, q, s);
    AtLeastOnce(p, c);
    QuotientIs(x, c * p, q, c * s + r);
  }

  lemma Regroup(c: nat, p: nat, q: nat, s: nat)
    ensures c * (q * p + s) == q * (c * p) + c * s
  {
    assert q * (c * p) == c * (q * p);
  }
}
