/**
 * Floor and ceiling division, characterised by the products they bound. Every rounding
 * argument of the project goes through these characterisations.
 *
 * The source divides non-negative `bigint`s, where JavaScript's truncation, Dafny's Euclidean
 * division and the mathematical floor agree.
 */
module Arith {

  /** The source's `ceilDiv`: the quotient rounded up. */
  function CeilDiv(n: int, d: int): int
    requires d > 0
  {
    (n + d - 1) / d
  }

  function Min(a: int, b: int): int { if a < b then a else b }

  function Max(a: int, b: int): int { if a > b then a else b }

  /** `n / d` is the largest `q` with `q * d <= n`. */
  lemma FloorLe(n: int, d: int, q: int)
    requires d > 0
    ensures q <= n / d <==> q * d <= n
  {
    var f, r := n / d, n % d;
    assert n == f * d + r && 0 <= r < d;
    if q <= f {
      MulMono(q, f, d);
    } else {
      MulMono(f + 1, q, d);
    }
  }

  /** `CeilDiv(n, d)` is the smallest `q` with `n <= q * d`. */
  lemma CeilLe(n: int, d: int, q: int)
    requires d > 0
    ensures CeilDiv(n, d) <= q <==> n <= q * d
  {
    FloorLe(n + d - 1, d, q + 1);
    assert (q + 1) * d == q * d + d;
  }

  lemma FloorBelow(n: int, d: int, q: int)
    requires d > 0 && n <= q * d
    ensures n / d <= q
  {
    FloorLe(n, d, q + 1);
    assert (q + 1) * d == q * d + d;
  }

  lemma MulMono(a: int, b: int, c: int)
    requires a <= b && 0 <= c
    ensures a * c <= b * c
  {
    assert (b - a) * c >= 0;
  }

  lemma MulMono2(a: int, b: int, c: int, d: int)
    requires 0 <= a <= b && 0 <= c <= d
    ensures 0 <= a * c <= b * d
  {
    MulMono(a, b, c);
    MulMono(c, d, b);
  }

  /** A positive common factor cancels from an inequality. */
  lemma CancelLe(a: int, b: int, c: int)
    requires c > 0 && a * c <= b * c
    ensures a <= b
  {
    if b + 1 <= a {
      MulMono(b + 1, a, c);
    }
  }

  lemma DivMono(a: int, b: int, d: int)
    requires a <= b && d > 0
    ensures a / d <= b / d
  {
    FloorLe(a, d, a / d);
    FloorLe(b, d, a / d);
  }

  lemma CeilMono(a: int, b: int, d: int)
    requires a <= b && d > 0
    ensures CeilDiv(a, d) <= CeilDiv(b, d)
  {
    DivMono(a + d - 1, b + d - 1, d);
  }

  lemma CeilNonNegative(n: int, d: int)
    requires 0 <= n && 0 < d
    ensures 0 <= CeilDiv(n, d)
    ensures n > 0 ==> 0 < CeilDiv(n, d)
  {
    FloorLe(n + d - 1, d, 0);
    FloorLe(n + d - 1, d, 1);
  }

  /** Shifting the numerator by a whole number of denominators shifts the floor by as much. */
  lemma DivShift(n: int, k: int, d: int)
    requires d > 0
    ensures (n + k * d) / d == n / d + k
  {
    var q := (n + k * d) / d;
    FloorLe(n + k * d, d, q);
    FloorLe(n, d, q - k);
    assert (q - k) * d == q * d - k * d;
    FloorLe(n, d, n / d);
    FloorLe(n + k * d, d, n / d + k);
    assert (n / d + k) * d == n / d * d + k * d;
  }

  /** Two floors of a sum against the sum of two floors. */
  lemma FloorSum(x: int, y: int, d: int)
    requires d > 0
    ensures x / d + y / d <= (x + y) / d <= x / d + y / d + 1
  {
    FloorLe(x, d, x / d);
    FloorLe(y, d, y / d);
    FloorLe(x + y, d, x / d + y / d);
    assert (x / d + y / d) * d == x / d * d + y / d * d;
    FloorLe(x, d, x / d + 1);
    FloorLe(y, d, y / d + 1);
    FloorLe(x + y, d, x / d + y / d + 2);
    assert (x / d + y / d + 2) * d == (x / d + 1) * d + (y / d + 1) * d;
  }

  /** A quotient and an in-range remainder are unique. */
  lemma DivModUnique(q: int, r: int, q': int, r': int, d: int)
    requires 0 <= r < d && 0 <= r' < d && q * d + r == q' * d + r'
    ensures q == q' && r == r'
  {
    assert (q - q') * d == r' - r;
    if q - q' >= 1 {
      MulMono(1, q - q', d);
    } else if q' - q >= 1 {
      MulMono(1, q' - q, d);
    }
  }

  /** `s * x / y` does not fall when the ratio `x / y` does not. */
  lemma RatioFloorMono(s: int, x: int, y: int, x': int, y': int)
    requires 0 <= s && 0 < y && 0 < y' && x * y' <= x' * y
    ensures s * x / y <= s * x' / y'
  {
    var q := s * x / y;
    FloorLe(s * x, y, q);
    MulMono(q * y, s * x, y');
    MulMono(x * y', x' * y, s);
    assert q * y * y' == q * y' * y;
    assert s * x * y' == x * y' * s;
    assert s * x' * y == x' * y * s;
    CancelLe(q * y', s * x', y);
    FloorLe(s * x', y', q);
  }
}
