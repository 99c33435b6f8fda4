/** The laws of multiplication and division that proofs about products of variables cite one at a time. */
module Products {
  lemma Distribute(a: int, b: int, c: int)
    ensures (a + b) * c == a * c + b * c
  {
  }

  lemma Associate(a: int, b: int, c: int)
    ensures a * b * c == a * (b * c)
  {
  }

  lemma LeTimes(a: int, b: int, c: int)
    requires a <= b && c >= 0
    ensures a * c <= b * c
  {
  }

  lemma LtTimes(a: int, b: int, c: int)
    requires a < b && c > 0
    ensures a * c < b * c
  {
  }

  /** Quotient and remainder are determined. */
  lemma ModUnique(x: int, q: int, r: int, m: int)
    requires m > 0 && x == q * m + r && 0 <= r < m
    ensures x % m == r && x / m == q
  {
    var d := q - x / m;
    Distribute(q, -(x / m), m);
    assert d * m == x % m - r;
    if d >= 1 {
      LeTimes(1, d, m);
    } else if d <= -1 {
      LeTimes(d, -1, m);
    }
  }

  lemma QuotientAtMost(x: nat, d: nat)
    requires d > 0
    ensures 0 <= x / d <= x
  {
    var q := x / d;
    if q < 0 {
      LeTimes(q, -1, d);
    } else {
      LeTimes(1, d, q);
    }
  }

  lemma SmallMod(x: int, m: int)
    requires 0 <= x < m
    ensures x % m == x
  {
  }
}
