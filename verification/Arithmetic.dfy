/** The smaller of two numbers, and division with remainder. */
module Arithmetic {

  function Min(a: nat, b: nat): nat {
    if a <= b then a else b
  }

  lemma {:induction false} MultipleAtLeast(m: int, d: int)
    requires m > 0 && d >= 1
    ensures m * d >= m
    decreases d
  {
    if d > 1 {
      MultipleAtLeast(m, d - 1);
      assert m * d == m * (d - 1) + m;
    }
  }

  lemma SmallMultiple(m: int, d: int)
    requires m > 0 && -m < m * d < m
    ensures d == 0
  {
    if d >= 1 {
      MultipleAtLeast(m, d);
    } else if d <= -1 {
      assert m * -d == -(m * d);
      MultipleAtLeast(m, -d);
    }
  }

  lemma Distribute(m: int, a: int, b: int)
    ensures m * (a - b) == m * a - m * b
  {
  }

  lemma ModUnique(x: int, m: int, q: int, r: int)
    requires m > 0 && x == m * q + r && 0 <= r < m
    ensures x % m == r && x / m == q
  {
    var k, s := x / m, x % m;
    assert m * k + s == x;
    Distribute(m, k, q);
    SmallMultiple(m, k - q);
  }

  lemma ModOfMultiple(x: int, m: int, k: int)
    requires m > 0
    ensures (x + m * k) % m == x % m
  {
    ModUnique(x + m * k, m, x / m + k, x % m);
  }

  /** Rounding down to a multiple. */
  lemma RoundedDown(x: int, m: int)
    requires m > 0
    ensures (x - x % m) % m == 0
  {
    ModUnique(x - x % m, m, x / m, 0);
  }
}
