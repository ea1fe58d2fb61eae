/** What several components share: an optional value, 32-bit counts, and the arithmetic the solver needs by name. */
module Common {

  datatype Option<+T> = None | Some(value: T)

  // ---- numbers ---------------------------------------------------------------

  const U32_SIZE := 0x1_0000_0000

  type U32 = n: nat | n < U32_SIZE

  function Max(a: int, b: int): int {
    if a < b then b else a
  }

  function Min(a: int, b: int): int {
    if a < b then a else b
  }

  function MaxReal(a: real, b: real): real {
    if a < b then b else a
  }

  function MinReal(a: real, b: real): real {
    if a < b then a else b
  }

  function Abs(x: real): real {
    if x < 0.0 then -x else x
  }

  /** Rounds half away from zero. */
  function Round(x: real): int {
    if x >= 0.0 then (x + 0.5).Floor else -((0.5 - x).Floor)
  }

  // ---- orders ----------------------------------------------------------------

  /** `a` comes before `b`: by the first number, then the second, then the third. */
  predicate Sooner(a: (nat, nat, nat), b: (nat, nat, nat)) {
    a.0 < b.0 || (a.0 == b.0 && (a.1 < b.1 || (a.1 == b.1 && a.2 < b.2)))
  }

  // ---- products and quotients ------------------------------------------------

  lemma ProductNonNegative(x: real, y: real)
    requires x >= 0.0 && y >= 0.0
    ensures x * y >= 0.0
  {
  }

  lemma ProductPositive(x: real, y: real)
    requires x > 0.0 && y > 0.0
    ensures x * y > 0.0
  {
  }

  lemma QuotientPositive(x: real, y: real)
    requires y > 0.0
    ensures x / y * y == x
    ensures x > 0.0 ==> x / y > 0.0
    ensures x >= 0.0 ==> x / y >= 0.0
  {
  }

  lemma QuotientMonotone(a: real, b: real, d: real)
    requires a <= b && d > 0.0
    ensures a / d <= b / d
  {
    QuotientPositive(b - a, d);
    assert (b - a) / d == b / d - a / d;
  }

  lemma IntQuotientMonotone(a: int, b: int, d: int)
    requires a <= b && d > 0
    ensures a / d <= b / d
  {
    var qa, qb := a / d, b / d;
    assert d * qa <= a && b < d * qb + d;
    if qa > qb {
      IntProductMonotone(d, qb + 1, qa);
    }
  }

  lemma IntProductMonotone(d: int, x: int, y: int)
    requires d > 0 && x <= y
    ensures d * x <= d * y
  {
  }

  lemma QuotientAtLeast(x: real, d: real, n: real)
    requires d > 0.0 && x >= n * d
    ensures x / d >= n
  {
    QuotientPositive(x - n * d, d);
    assert (x - n * d) / d == x / d - n;
  }

  lemma IntQuotientAtLeast(a: int, d: int, n: int)
    requires d > 0 && d * n <= a
    ensures n <= a / d
  {
    var q := a / d;
    assert a < d * q + d;
    if q < n {
      IntProductMonotone(d, q + 1, n);
    }
  }

  lemma IntQuotientBelow(a: int, d: int, n: int)
    requires d > 0 && a < d * n
    ensures a / d < n
  {
    var q := a / d;
    assert d * q <= a;
    if n <= q {
      IntProductMonotone(d, n, q);
    }
  }

  lemma Shifted(x: real, y: real, c: real)
    ensures (x - y) * c == x * c - y * c
  {
  }

  /** A common positive factor cancels from an equation, and from an inequality. */
  lemma Cancels(x: real, y: real, d: real)
    requires d > 0.0 && x * d == y * d
    ensures x == y
  {
    Shifted(x, y, d);
    if x > y {
      ProductPositive(x - y, d);
    } else if y > x {
      ProductPositive(y - x, d);
    }
  }

  lemma AtMost(r: real, d: real, m: real)
    requires d > 0.0 && r * d <= m * d
    ensures r <= m
  {
    if r > m {
      Shifted(r, m, d);
      ProductPositive(r - m, d);
    }
  }

  /** A positive factor keeps the order; the products are named so that they can be told apart. */
  lemma ScaledOrder(x: real, m: real, d: real, xd: real, md: real)
    requires d > 0.0 && x * d == xd && m * d == md
    ensures x > m <==> xd > md
  {
    var apart := x - m;
    Shifted(x, m, d);
    assert apart * d == xd - md;
    if x > m {
      ProductPositive(apart, d);
    } else {
      ProductNonNegative(-apart, d);
      assert -apart * d == -(apart * d);
    }
  }

  lemma ScaledDistance(x: real, y: real, d: real, m: real, xd: real, yd: real)
    requires d > 0.0 && x * d == xd && y * d == yd
    ensures Abs(x - y) > m <==> Abs(xd - yd) > m * d
  {
    Shifted(x, y, d);
    Shifted(y, x, d);
    ScaledOrder(x - y, m, d, xd - yd, m * d);
    ScaledOrder(y - x, m, d, yd - xd, m * d);
  }

  // ---- sequences -------------------------------------------------------------

  lemma Regrouped<T>(a: seq<T>, x: T, b: seq<T>)
    ensures a + ([x] + b) == a + [x] + b
  {
  }

  lemma Associates<T>(a: seq<T>, b: seq<T>, c: seq<T>)
    ensures a + b + c == a + (b + c)
  {
  }
}
