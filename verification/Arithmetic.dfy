/** The few facts about products and quotients that several modules need. */
module Arithmetic {

  lemma NextWhole(n: nat, k: nat)
    ensures (n + 1) * k == n * k + k
  {}

  lemma Apart(p: nat, q: nat, k: nat)
    requires p < q
    ensures p * k + k <= q * k
  {
    var d := q - p - 1;
    assert q * k == (p + 1 + d) * k == p * k + k + d * k;
  }

  /** Quotient and remainder are unique. */
  lemma DivUnique(x: nat, k: nat, q: nat, r: nat)
    requires x == q * k + r && r < k
    ensures x / k == q
  {
    var p, s := x / k, x % k;
    assert x == p * k + s;
    if p < q {
      Apart(p, q, k);
    }
    if q < p {
      Apart(q, p, k);
    }
  }

  /** A part of a whole is a share of it, and all of it only if it is the whole. */
  lemma ShareOf(part: real, whole: real, low: real)
    requires whole > 0.0 && low * whole <= part <= whole
    ensures low <= part / whole <= 1.0
    ensures part / whole == 1.0 <==> part == whole
  {
    var q := part / whole;
    assert q * whole == part;
  }
}
