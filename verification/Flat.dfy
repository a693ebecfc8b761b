/**
 Rows of equal length laid end to end, and images of interleaved channels: flat
 addresses and what keeps them apart.
 */
module Flat {

  function Row(a: int, b: int, m: int): int { a * m + b }

  lemma RowBounds(a: int, b: int, n: int, m: int)
    requires 0 <= a < n && 0 <= b < m
    ensures 0 <= Row(a, b, m) < n * m
  {
    NotNegative(a, m);
    NotNegative(n - 1 - a, m);
    assert (n - 1 - a) * m == n * m - m - a * m;
  }

  lemma NotNegative(a: int, m: int)
    requires 0 <= a && 0 <= m
    ensures 0 <= a * m
  {
  }

  lemma RowStep(a: int, b: int, m: int, d: int)
    ensures Row(a + d, b, m) == Row(a, b, m) + d * m
    ensures Row(a, b + d, m) == Row(a, b, m) + d
  {
    assert (a + d) * m == a * m + d * m;
  }

  lemma QuotientBound(q: int, n: int, m: int, r: int)
    requires 0 < m && 0 <= r && q * m + r < n * m
    ensures q < n
  {
    assert (q - n) * m == q * m - n * m;
    if q >= n { NotNegative(q - n, m); }
  }

  lemma RowInjective(a: int, b: int, c: int, d: int, m: int)
    requires 0 <= b < m && 0 <= d < m && Row(a, b, m) == Row(c, d, m)
    ensures a == c && b == d
  {
    assert (a - c) * m == d - b by { assert (a - c) * m == a * m - c * m; }
    SmallMultiple(a - c, m, d - b);
  }

  lemma SmallMultiple(t: int, m: int, r: int)
    requires t * m == r && -m < r < m
    ensures t == 0
  {
    assert (t - 1) * m == t * m - m && (-t - 1) * m == -(t * m) - m;
    if t >= 1 { NotNegative(t - 1, m); } else if t <= -1 { NotNegative(-t - 1, m); }
  }

  // A flat position is a row and a column.
  lemma RowSplit(e: int, n: int, m: int) returns (a: int, b: int)
    requires 0 <= e < n * m && 0 < m
    ensures 0 <= a < n && 0 <= b < m && e == Row(a, b, m)
  {
    a, b := e / m, e % m;
    QuotientBound(a, n, m, b);
  }

  lemma PositiveFactor(e: int, n: int, m: nat)
    requires 0 <= e < n * m
    ensures 0 < m
  {
  }

  // ---- images ----

  // An image of interleaved channels.
  datatype Shape = Shape(rows: nat, cols: nat, ch: nat)

  function Size(g: Shape): nat { g.rows * g.cols * g.ch }

  function Addr(g: Shape, i: int, j: int, c: int): int { Row(Row(i, j, g.cols), c, g.ch) }

  predicate Inside(g: Shape, i: int, j: int, c: int) { 0 <= i < g.rows && 0 <= j < g.cols && 0 <= c < g.ch }

  lemma AddrBounds(g: Shape, i: int, j: int, c: int)
    requires Inside(g, i, j, c)
    ensures 0 <= Addr(g, i, j, c) < Size(g)
  {
    hide Row;
    RowBounds(i, j, g.rows, g.cols);
    RowBounds(Row(i, j, g.cols), c, g.rows * g.cols, g.ch);
  }

  lemma AddrInjective(g: Shape, i: int, j: int, c: int, i': int, j': int, c': int)
    requires Inside(g, i, j, c) && Inside(g, i', j', c') && Addr(g, i, j, c) == Addr(g, i', j', c')
    ensures i == i' && j == j' && c == c'
  {
    hide Row;
    RowInjective(Row(i, j, g.cols), c, Row(i', j', g.cols), c', g.ch);
    RowInjective(i, j, i', j', g.cols);
  }

  function At(g: Shape, a: seq<int>, i: int, j: int, c: int): int
    requires |a| == Size(g) && Inside(g, i, j, c)
  {
    AddrBounds(g, i, j, c);
    a[Addr(g, i, j, c)]
  }

  // Every flat address is that of a pixel and a channel.
  lemma Pixel(g: Shape, e: int) returns (i: int, j: int, c: int)
    requires 0 <= e < Size(g)
    ensures Inside(g, i, j, c) && Addr(g, i, j, c) == e
  {
    hide Row;
    var f;
    PositiveFactor(e, g.rows * g.cols, g.ch);
    f, c := RowSplit(e, g.rows * g.cols, g.ch);
    PositiveFactor(f, g.rows, g.cols);
    i, j := RowSplit(f, g.rows, g.cols);
  }
}
