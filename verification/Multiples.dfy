// Multiples of a positive number, and rounding to them.
module Multiples {

  lemma ProductGrows(d: int, a: int, b: int)
    requires d > 0 && a >= b
    ensures d * a >= d * b
  {
  }

  lemma MultipleHasNoRest(d: int, k: int)
    requires d > 0
    ensures (d * k) % d == 0
  {
    var q, r := (d * k) / d, (d * k) % d;
    assert d * (k - q) == r;
    if k - q >= 1 {
      ProductGrows(d, k - q, 1);
    } else if k - q <= -1 {
      ProductGrows(d, -1, k - q);
    }
  }

  // Multiples of d that differ are at least d apart.
  lemma MultiplesApart(d: int, a: int, b: int)
    requires d > 0 && a % d == 0 && b % d == 0 && a < b
    ensures a + d <= b
  {
    assert a == d * (a / d) && b == d * (b / d);
    var p, q := a / d, b / d;
    if p >= q { ProductGrows(d, p, q); } else { ProductGrows(d, q, p + 1); }
  }

  lemma SumOfMultiples(d: int, a: int, b: int)
    requires d > 0 && a % d == 0 && b % d == 0
    ensures (a + b) % d == 0
  {
    var p, q := a / d, b / d;
    assert a == d * p && b == d * q;
    assert a + b == d * (p + q);
    MultipleHasNoRest(d, p + q);
  }

  lemma NegatedMultiple(d: int, a: int)
    requires d > 0 && a % d == 0
    ensures (-a) % d == 0
  {
    var q := a / d;
    assert a == d * q;
    assert -a == d * -q;
    MultipleHasNoRest(d, -q);
  }

  lemma MultipleOfMultiple(d: int, m: int, n: int)
    requires d > 0 && m > 0 && m % d == 0 && n % m == 0
    ensures n % d == 0
  {
    var p, q := m / d, n / m;
    assert n == m * q && m == d * p;
    assert (d * p) * q == d * (p * q);
    MultipleHasNoRest(d, p * q);
  }

  // The largest multiple of d that is not above v, and the smallest that is not below.
  function Floor(d: int, v: int): int
    requires d > 0
  {
    v - v % d
  }

  function Ceil(d: int, v: int): int
    requires d > 0
  {
    -Floor(d, -v)
  }

  lemma FloorIs(d: int, v: int)
    requires d > 0
    ensures Floor(d, v) % d == 0 && Floor(d, v) <= v < Floor(d, v) + d
    ensures v >= 0 ==> Floor(d, v) >= 0
  {
    var q := v / d;
    assert Floor(d, v) == d * q;
    MultipleHasNoRest(d, q);
    if v >= 0 { ProductGrows(d, q, 0); }
  }

  lemma CeilIs(d: int, v: int)
    requires d > 0
    ensures Ceil(d, v) % d == 0 && Ceil(d, v) - d < v <= Ceil(d, v)
  {
    FloorIs(d, -v);
    NegatedMultiple(d, Floor(d, -v));
  }

  lemma FloorIsLargest(d: int, m: int, v: int)
    requires d > 0 && m % d == 0 && m <= v
    ensures m <= Floor(d, v)
  {
    FloorIs(d, v);
    if Floor(d, v) < m { MultiplesApart(d, Floor(d, v), m); }
  }

  lemma CeilIsSmallest(d: int, m: int, v: int)
    requires d > 0 && m % d == 0 && v <= m
    ensures Ceil(d, v) <= m
  {
    NegatedMultiple(d, m);
    FloorIsLargest(d, -m, -v);
  }
}
