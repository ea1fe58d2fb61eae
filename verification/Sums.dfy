/** Finite sums of reals over one index and over two, and the laws the box filter needs. */
module Sums {

  function Sum(f: int -> real, n: nat): real {
    if n == 0 then 0.0 else Sum(f, n - 1) + f(n - 1)
  }

  lemma {:induction false} SumCongruent(f: int -> real, g: int -> real, n: nat)
    requires forall i | 0 <= i < n :: f(i) == g(i)
    ensures Sum(f, n) == Sum(g, n)
  {
    if n > 0 {
      SumCongruent(f, g, n - 1);
    }
  }

  lemma {:induction false} SumScales(f: int -> real, g: int -> real, c: real, n: nat)
    requires forall i | 0 <= i < n :: g(i) == c * f(i)
    ensures Sum(g, n) == c * Sum(f, n)
  {
    if n > 0 {
      SumScales(f, g, c, n - 1);
      assert c * (Sum(f, n - 1) + f(n - 1)) == c * Sum(f, n - 1) + c * f(n - 1);
    }
  }

  lemma {:induction false} SumAdds(f: int -> real, g: int -> real, h: int -> real, n: nat)
    requires forall i | 0 <= i < n :: h(i) == f(i) + g(i)
    ensures Sum(h, n) == Sum(f, n) + Sum(g, n)
  {
    if n > 0 {
      SumAdds(f, g, h, n - 1);
    }
  }

  lemma {:induction false} SumZero(f: int -> real, n: nat)
    requires forall i | 0 <= i < n :: f(i) == 0.0
    ensures Sum(f, n) == 0.0
  {
    if n > 0 {
      SumZero(f, n - 1);
    }
  }

  // ---- two indices -----------------------------------------------------------

  type Field = (int, int) -> real

  function RowOf(f: Field, i: int): int -> real {
    j => f(i, j)
  }

  function ColOf(f: Field, j: int): int -> real {
    i => f(i, j)
  }

  function RowSums(f: Field, n: nat): int -> real {
    i => Sum(RowOf(f, i), n)
  }

  function ColSums(f: Field, m: nat): int -> real {
    j => Sum(ColOf(f, j), m)
  }

  function Total(f: Field, m: nat, n: nat): real {
    Sum(RowSums(f, n), m)
  }

  /** Rows first or columns first. */
  lemma {:induction false} SumSwaps(f: Field, m: nat, n: nat)
    ensures Total(f, m, n) == Sum(ColSums(f, m), n)
  {
    if m == 0 {
      SumZero(ColSums(f, m), n);
    } else {
      SumSwaps(f, m - 1, n);
      SumAdds(ColSums(f, m - 1), RowOf(f, m - 1), ColSums(f, m), n);
    }
  }

  lemma TotalCongruent(f: Field, g: Field, m: nat, n: nat)
    requires forall i, j | 0 <= i < m && 0 <= j < n :: f(i, j) == g(i, j)
    ensures Total(f, m, n) == Total(g, m, n)
  {
    forall i | 0 <= i < m
      ensures RowSums(f, n)(i) == RowSums(g, n)(i)
    {
      SumCongruent(RowOf(f, i), RowOf(g, i), n);
    }
    SumCongruent(RowSums(f, n), RowSums(g, n), m);
  }

  /** `k(o, i)` of whatever is at `i` goes to `o`. */
  function Handing(k: Field, v: int -> real): Field {
    (o, i) => k(o, i) * v(i)
  }

  function HandedTo(k: Field, v: int -> real, o: int, n: nat): real {
    Sum(RowOf(Handing(k, v), o), n)
  }

  /** When every `i` hands out exactly one of itself, nothing is lost and nothing is made. */
  lemma Conserved(k: Field, v: int -> real, d: nat, n: nat)
    requires forall i | 0 <= i < n :: Sum(ColOf(k, i), d) == 1.0
    ensures Total(Handing(k, v), d, n) == Sum(v, n)
  {
    var t := Handing(k, v);
    SumSwaps(t, d, n);
    forall i | 0 <= i < n
      ensures ColSums(t, d)(i) == v(i)
    {
      SumScales(ColOf(k, i), ColOf(t, i), v(i), d);
    }
    SumCongruent(ColSums(t, d), v, n);
  }

  /** A field spread along its first index. */
  function Across(kx: Field, v: Field, w: nat): Field {
    (ox, y) => HandedTo(kx, ColOf(v, y), ox, w)
  }

  /** A field spread along its second index. */
  function Down(ky: Field, v: Field, h: nat): Field {
    (x, oy) => HandedTo(ky, RowOf(v, x), oy, h)
  }

  lemma AcrossConserves(kx: Field, v: Field, w: nat, h: nat, dw: nat)
    requires forall x | 0 <= x < w :: Sum(ColOf(kx, x), dw) == 1.0
    ensures Total(Across(kx, v, w), dw, h) == Total(v, w, h)
  {
    var spread := Across(kx, v, w);
    SumSwaps(spread, dw, h);
    SumSwaps(v, w, h);
    forall y | 0 <= y < h
      ensures ColSums(spread, dw)(y) == ColSums(v, w)(y)
    {
      Conserved(kx, ColOf(v, y), dw, w);
      SumCongruent(ColOf(spread, y), RowSums(Handing(kx, ColOf(v, y)), w), dw);
    }
    SumCongruent(ColSums(spread, dw), ColSums(v, w), h);
  }

  lemma DownConserves(ky: Field, v: Field, w: nat, h: nat, dh: nat)
    requires forall y | 0 <= y < h :: Sum(ColOf(ky, y), dh) == 1.0
    ensures Total(Down(ky, v, h), w, dh) == Total(v, w, h)
  {
    var spread := Down(ky, v, h);
    forall x | 0 <= x < w
      ensures RowSums(spread, dh)(x) == RowSums(v, h)(x)
    {
      Conserved(ky, RowOf(v, x), dh, h);
      SumCongruent(RowOf(spread, x), RowSums(Handing(ky, RowOf(v, x)), h), dh);
    }
    SumCongruent(RowSums(spread, dh), RowSums(v, h), w);
  }

  /** A field spread along both indices keeps its total when both sets of shares come to one. */
  lemma SpreadConserves(kx: Field, ky: Field, v: Field, w: nat, h: nat, dw: nat, dh: nat)
    requires forall x | 0 <= x < w :: Sum(ColOf(kx, x), dw) == 1.0
    requires forall y | 0 <= y < h :: Sum(ColOf(ky, y), dh) == 1.0
    ensures Total(Down(ky, Across(kx, v, w), h), dw, dh) == Total(v, w, h)
  {
    AcrossConserves(kx, v, w, h, dw);
    DownConserves(ky, Across(kx, v, w), dw, h, dh);
  }
}
