/** The few facts about products and quotients that the models need. */
module Products {

  lemma ScaleMonotone(k: nat, a: int, b: int)
    requires a <= b
    ensures k * a <= k * b
  {
    assert k * (b - a) >= 0;
    assert k * (b - a) == k * b - k * a;
  }

  lemma MultipleOf(k: nat, d: int)
    ensures d >= 1 ==> k * d >= k
    ensures d <= -1 ==> k * d + k <= 0
  {
    if d >= 1 {
      ScaleMonotone(k, 1, d);
    } else if d <= -1 {
      ScaleMonotone(k, d, -1);
    }
  }

  /** Quotient and remainder are determined by what they mean. */
  lemma QuotientUnique(k: nat, q: nat, r: nat)
    requires r < k
    ensures (k * q + r) / k == q
    ensures (k * q + r) % k == r
  {
    var n := k * q + r;
    var q', r' := n / k, n % k;
    assert n == k * q' + r';
    MultipleOf(k, q' - q);
    assert k * (q' - q) == k * q' - k * q == r - r';
  }
}
