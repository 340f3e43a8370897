/** Integer quotients, for the modules that page and convert amounts. */
module Division {

  lemma Times(k: int, a: int, b: int)
    ensures k * (a + b) == k * a + k * b
    ensures (a + b) * k == a * k + b * k
  {
  }

  lemma AtLeastOnce(k: int, b: nat)
    requires k >= 1
    ensures k * b >= b
  {
    Times(b, k - 1, 1);
  }

  lemma QuotientIs(a: nat, b: nat, k: int, r: nat)
    requires r < b && a == k * b + r
    ensures a / b == k && a % b == r
  {
    var d := k - a / b;
    Times(b, k, -(a / b));
    assert (-d) * b == -(d * b);
    if d >= 1 {
      AtLeastOnce(d, b);
    } else if d <= -1 {
      AtLeastOnce(-d, b);
    }
  }

  lemma QuotientNext(m: nat, size: nat)
    requires size > 0
    ensures (m + size) / size == m / size + 1
  {
    var q := m / size;
    assert (q + 1) * size == q * size + size;
    QuotientIs(m + size, size, q + 1, m % size);
  }

  lemma SmallQuotient(m: nat, size: nat)
    requires m < size
    ensures m / size == 0
  {
  }
}
