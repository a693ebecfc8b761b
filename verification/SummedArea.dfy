/**
 The one-pass summed-area table against the double sum, in both padding modes,
 and the width its entries need.
 */
module SummedArea {
  import opened Flat

  // ---- the double sum ----

  // The first x pixels of a line, and the first y lines of that.
  function LineSum(g: Shape, a: seq<int>, y: nat, x: nat, c: nat): int
    requires |a| == Size(g) && y < g.rows && x <= g.cols && c < g.ch
  {
    if x == 0 then 0 else LineSum(g, a, y, x - 1, c) + At(g, a, y, x - 1, c)
  }

  function Prefix(g: Shape, a: seq<int>, y: nat, x: nat, c: nat): int
    requires |a| == Size(g) && y <= g.rows && x <= g.cols && c < g.ch
  {
    if y == 0 then 0 else Prefix(g, a, y - 1, x, c) + LineSum(g, a, y - 1, x, c)
  }

  // The pixels of lines y .. y'-1 and columns x .. x'-1.
  function Segment(g: Shape, a: seq<int>, y: nat, x: nat, x': nat, c: nat): int
    requires |a| == Size(g) && y < g.rows && x <= x' <= g.cols && c < g.ch
  {
    if x == x' then 0 else Segment(g, a, y, x, x' - 1, c) + At(g, a, y, x' - 1, c)
  }

  function Rectangle(g: Shape, a: seq<int>, y: nat, y': nat, x: nat, x': nat, c: nat): int
    requires |a| == Size(g) && y <= y' <= g.rows && x <= x' <= g.cols && c < g.ch
  {
    if y == y' then 0 else Rectangle(g, a, y, y' - 1, x, x', c) + Segment(g, a, y' - 1, x, x', c)
  }

  lemma {:induction false} SegmentIs(g: Shape, a: seq<int>, y: nat, x: nat, x': nat, c: nat)
    requires |a| == Size(g) && y < g.rows && x <= x' <= g.cols && c < g.ch
    ensures Segment(g, a, y, x, x', c) == LineSum(g, a, y, x', c) - LineSum(g, a, y, x, c)
  {
    hide Size, At;
    if x < x' { SegmentIs(g, a, y, x, x' - 1, c); }
  }

  // Four corners give any rectangle.
  lemma {:induction false} FourCorners(g: Shape, a: seq<int>, y: nat, y': nat, x: nat, x': nat, c: nat)
    requires |a| == Size(g) && y <= y' <= g.rows && x <= x' <= g.cols && c < g.ch
    ensures Rectangle(g, a, y, y', x, x', c)
         == Prefix(g, a, y', x', c) - Prefix(g, a, y, x', c) - Prefix(g, a, y', x, c) + Prefix(g, a, y, x, c)
  {
    hide Size, LineSum, Segment;
    if y < y' {
      FourCorners(g, a, y, y' - 1, x, x', c);
      SegmentIs(g, a, y' - 1, x, x', c);
    }
  }

  // ---- the pass ----

  function Padded(g: Shape): Shape { Shape(g.rows + 1, g.cols + 1, g.ch) }

  // Entries before line i and position j of that line hold the sums; without
  // padding every sum is one line and one column further.
  ghost predicate Summed(g: Shape, t: Shape, a: seq<int>, b: seq<int>, d: nat, i: nat, j: nat)
    requires |a| == Size(g) && t == (if d == 0 then Padded(g) else g) && d <= 1
  {
    |b| == Size(t) &&
    forall y: nat, x: nat, c: nat :: Inside(t, y, x, c) && (y < i || (y == i && Row(x, c, t.ch) < j)) ==>
      At(t, b, y, x, c) == Prefix(g, a, y + d, x + d, c)
  }

  // A position of a line is a pixel and a channel.
  lemma Split(t: Shape, i: nat, j: nat) returns (x: nat, c: nat)
    requires i < t.rows && j < t.cols * t.ch
    ensures Inside(t, i, x, c) && j == Row(x, c, t.ch)
    ensures Addr(t, i, x, c) == i * (t.cols * t.ch) + j && 0 <= Addr(t, i, x, c) < Size(t)
    ensures x > 0 <==> j >= t.ch
    ensures x > 0 ==> Addr(t, i, x - 1, c) == Addr(t, i, x, c) - t.ch && 0 <= Addr(t, i, x - 1, c)
    ensures i > 0 ==> Addr(t, i - 1, x, c) == Addr(t, i, x, c) - t.cols * t.ch && 0 <= Addr(t, i - 1, x, c)
    ensures i > 0 && x > 0 ==>
            Addr(t, i - 1, x - 1, c) == Addr(t, i, x, c) - t.cols * t.ch - t.ch && 0 <= Addr(t, i - 1, x - 1, c)
  {
    hide Size, Row, Addr;
    x, c := Position(t.cols, t.ch, j);
    RowStep(x, c, t.ch, -1);
    RowStep(i, j, t.cols * t.ch, -1);
    RowStep(i - 1, j, t.cols * t.ch, 0);
    RowValue(i, j, t.cols * t.ch);
    AddrFlat(t, i, x, c);
    AddrFlat(t, i, x - 1, c);
    AddrFlat(t, i - 1, x, c);
    AddrFlat(t, i - 1, x - 1, c);
    RowBack(i, j, t.cols * t.ch, t.ch);
    RowBack(i - 1, j, t.cols * t.ch, t.ch);
    AddrBounds(t, i, x, c);
    if x > 0 { AddrBounds(t, i, x - 1, c); }
    if i > 0 { AddrBounds(t, i - 1, x, c); }
    if i > 0 && x > 0 { AddrBounds(t, i - 1, x - 1, c); }
  }

  lemma RowValue(i: int, j: int, m: int)
    ensures Row(i, j, m) == i * m + j
  {
  }

  lemma RowBack(i: int, j: int, m: int, d: int)
    ensures Row(i, j - d, m) == Row(i, j, m) - d
  {
  }

  lemma Position(n: nat, m: nat, j: nat) returns (x: nat, c: nat)
    requires j < n * m
    ensures x < n && c < m && j == Row(x, c, m) && (x > 0 <==> j >= m)
  {
    assert m == 0 ==> n * m == 0;
    x, c := j / m, j % m;
    QuotientBound(x, n, m, c);
    if x > 0 { NotNegative(x - 1, m); assert (x - 1) * m == x * m - m; }
  }

  lemma AddrFlat(t: Shape, i: int, x: int, c: int)
    ensures Addr(t, i, x, c) == Row(i, Row(x, c, t.ch), t.cols * t.ch)
  {
    assert (i * t.cols + x) * t.ch == i * t.cols * t.ch + x * t.ch;
    assert i * t.cols * t.ch == i * (t.cols * t.ch);
  }

  lemma SummedStep(g: Shape, t: Shape, a: seq<int>, b: seq<int>, d: nat, i: nat, j: nat, x: nat, c: nat)
    requires |a| == Size(g) && t == (if d == 0 then Padded(g) else g) && d <= 1
    requires Summed(g, t, a, b, d, i, j) && Inside(t, i, x, c) && j == Row(x, c, t.ch)
    ensures 0 <= Addr(t, i, x, c) < |b|
    ensures Summed(g, t, a, b[Addr(t, i, x, c) := Prefix(g, a, i + d, x + d, c)], d, i, j + 1)
  {
    hide Size, Addr, Row, Prefix;
    AddrBounds(t, i, x, c);
    var b' := b[Addr(t, i, x, c) := Prefix(g, a, i + d, x + d, c)];
    forall y: nat, z: nat, k: nat | Inside(t, y, z, k) && (y < i || (y == i && Row(z, k, t.ch) < j + 1))
      ensures At(t, b', y, z, k) == Prefix(g, a, y + d, z + d, k)
    {
      AddrBounds(t, y, z, k);
      if Addr(t, y, z, k) == Addr(t, i, x, c) {
        AddrInjective(t, y, z, k, i, x, c);
      } else if y == i && Row(z, k, t.ch) == j {
        RowInjective(z, k, x, c, t.ch);
      }
    }
  }

  lemma SummedTurns(g: Shape, t: Shape, a: seq<int>, b: seq<int>, d: nat, i: nat)
    requires |a| == Size(g) && t == (if d == 0 then Padded(g) else g) && d <= 1
    ensures |b| == Size(t) ==> Summed(g, t, a, b, d, 0, 0)
    ensures Summed(g, t, a, b, d, i, t.cols * t.ch) ==> Summed(g, t, a, b, d, i + 1, 0)
  {
    hide Size, Addr, Prefix, Row;
    forall y: nat, x: nat, c: nat | Inside(t, y, x, c)
      ensures 0 <= Row(x, c, t.ch) < t.cols * t.ch
    {
      RowBounds(x, c, t.cols, t.ch);
    }
  }

  // Each entry from its neighbours.
  lemma Recurrence(g: Shape, a: seq<int>, y: nat, x: nat, c: nat)
    requires |a| == Size(g) && y < g.rows && x < g.cols && c < g.ch
    ensures Prefix(g, a, y + 1, x + 1, c) ==
            Prefix(g, a, y + 1, x, c) - Prefix(g, a, y, x, c) + Prefix(g, a, y, x + 1, c) + At(g, a, y, x, c)
  {
    hide Size, At;
  }

  lemma {:induction false} NoColumns(g: Shape, a: seq<int>, y: nat, c: nat)
    requires |a| == Size(g) && y <= g.rows && c < g.ch
    ensures Prefix(g, a, y, 0, c) == 0
  {
    if y > 0 { NoColumns(g, a, y - 1, c); }
  }

  method Plain(g: Shape, a: seq<int>, b: array<int>)
    requires |a| == Size(g) && g.rows > 0 && g.cols > 0 && b.Length == Size(g)
    modifies b
    ensures Summed(g, g, a, b[..], 1, g.rows, 0)
  {
    hide Size, Addr, Summed, Prefix;
    var width, i, at := g.cols * g.ch, 0, 0;
    SummedTurns(g, g, a, b[..], 1, 0);
    while i < g.rows
      invariant 0 <= i <= g.rows && at == i * width && Summed(g, g, a, b[..], 1, i, 0)
    {
      var j := 0;
      while j < width
        invariant 0 <= j <= width && Summed(g, g, a, b[..], 1, i, j)
      {
        ghost var x, c := Split(g, i, j);
        Neighbours(g, g, a, b[..], 1, i, j, x, c);
        ghost var now := b[..];
        if i == 0 {
          if j < g.ch { b[at + j] := a[at + j]; } else { b[at + j] := b[at + j - g.ch] + a[at + j]; }
        } else {
          if j < g.ch { b[at + j] := b[at - width + j] + a[at + j]; }
          else { b[at + j] := b[at + j - g.ch] - b[at - width + j - g.ch] + b[at - width + j] + a[at + j]; }
        }
        SummedStep(g, g, a, now, 1, i, j, x, c);
        assert b[..] == now[Addr(g, i, x, c) := Prefix(g, a, i + 1, x + 1, c)];
        j := j + 1;
      }
      SummedTurns(g, g, a, b[..], 1, i);
      assert (i + 1) * width == i * width + width;
      i, at := i + 1, at + width;
    }
  }

  // What the entries around (i, x) hold, and how the next one follows.
  lemma Neighbours(g: Shape, t: Shape, a: seq<int>, b: seq<int>, d: nat, i: nat, j: nat, x: nat, c: nat)
    requires |a| == Size(g) && t == (if d == 0 then Padded(g) else g) && d <= 1
    requires Summed(g, t, a, b, d, i, j) && Inside(t, i, x, c) && j == Row(x, c, t.ch)
    requires i + d > 0 && x + d > 0
    ensures 0 <= i + d - 1 < g.rows && 0 <= x + d - 1 < g.cols
    ensures var left := if x == 0 then 0 else At(t, b, i, x - 1, c);
            var up := if i == 0 then 0 else At(t, b, i - 1, x, c);
            var corner := if i == 0 || x == 0 then 0 else At(t, b, i - 1, x - 1, c);
            Prefix(g, a, i + d, x + d, c) == left - corner + up + At(g, a, i + d - 1, x + d - 1, c)
  {
    hide Size, Addr, Prefix;
    Recurrence(g, a, i + d - 1, x + d - 1, c);
    NoColumns(g, a, i + d, c);
    NoColumns(g, a, i + d - 1, c);
    NoLines(g, a, x + d, c);
    NoLines(g, a, x + d - 1, c);
    RowStep(x, c, t.ch, -1);
    assert x > 0 ==> Row(x - 1, c, t.ch) < j;
  }

  method ZeroPadded(g: Shape, a: seq<int>, b: array<int>)
    requires |a| == Size(g) && b.Length == Size(Padded(g))
    modifies b
    ensures Summed(g, Padded(g), a, b[..], 0, g.rows + 1, 0)
  {
    hide Size, Addr, Summed, Prefix;
    var t := Padded(g);
    var width, j := t.cols * t.ch, 0;
    SummedTurns(g, t, a, b[..], 0, 0);
    while j < width
      invariant 0 <= j <= width && Summed(g, t, a, b[..], 0, 0, j)
    {
      ghost var x, c := Split(t, 0, j);
      ghost var now := b[..];
      NoLines(g, a, x, c);
      SummedStep(g, t, a, now, 0, 0, j, x, c);
      b[j] := 0;
      assert b[..] == now[Addr(t, 0, x, c) := Prefix(g, a, 0, x, c)];
      j := j + 1;
    }
    SummedTurns(g, t, a, b[..], 0, 0);
    var i, at, from := 0, width, 0;
    while i < g.rows
      invariant 0 <= i <= g.rows && at == (i + 1) * width && from == i * (g.cols * g.ch)
                && Summed(g, t, a, b[..], 0, i + 1, 0)
    {
      j := 0;
      while j < width
        invariant 0 <= j <= width && Summed(g, t, a, b[..], 0, i + 1, j)
      {
        ghost var x, c := Split(t, i + 1, j);
        ghost var now := b[..];
        if j < g.ch {
          NoColumns(g, a, i + 1, c);
          b[at + j] := 0;
        } else {
          Neighbours(g, t, a, now, 0, i + 1, j, x, c);
          AddrFlat(g, i, x - 1, c);
          AddrBounds(g, i, x - 1, c);
          RowStep(x, c, g.ch, -1);
          b[at + j] := b[at + j - g.ch] - b[at - width + j - g.ch] + b[at - width + j] + a[from + j - g.ch];
        }
        SummedStep(g, t, a, now, 0, i + 1, j, x, c);
        assert b[..] == now[Addr(t, i + 1, x, c) := Prefix(g, a, i + 1, x, c)];
        j := j + 1;
      }
      SummedTurns(g, t, a, b[..], 0, i + 1);
      assert (i + 2) * width == (i + 1) * width + width;
      assert (i + 1) * (g.cols * g.ch) == i * (g.cols * g.ch) + g.cols * g.ch;
      i, at, from := i + 1, at + width, from + g.cols * g.ch;
    }
  }

  lemma NoLines(g: Shape, a: seq<int>, x: nat, c: nat)
    requires |a| == Size(g) && x <= g.cols && c < g.ch
    ensures Prefix(g, a, 0, x, c) == 0
  {
  }

  // ---- the width of the entries ----

  ghost predicate Bytes(a: seq<int>) { forall e :: 0 <= e < |a| ==> 0 <= a[e] <= 255 }

  // The entry type chosen for 8-bit images.
  function SafeWidth(g: Shape): nat { if g.rows * g.cols >= 0x80_8080 then 64 else 32 }

  function Largest(width: nat): int { if width == 32 then 0x7FFF_FFFF else 0x7FFF_FFFF_FFFF_FFFF }

  lemma {:induction false} LineGrows(g: Shape, a: seq<int>, y: nat, x: nat, c: nat)
    requires |a| == Size(g) && Bytes(a) && y < g.rows && x <= g.cols && c < g.ch
    ensures 0 <= LineSum(g, a, y, x, c) <= 255 * x
  {
    hide Size, Addr;
    if x > 0 {
      LineGrows(g, a, y, x - 1, c);
      AddrBounds(g, y, x - 1, c);
    }
  }

  lemma {:induction false} PrefixBounds(g: Shape, a: seq<int>, y: nat, x: nat, c: nat)
    requires |a| == Size(g) && Bytes(a) && y <= g.rows && x <= g.cols && c < g.ch
    ensures 0 <= Prefix(g, a, y, x, c) <= 255 * (y * x)
  {
    hide Size, LineSum, Bytes;
    if y > 0 {
      PrefixBounds(g, a, y - 1, x, c);
      LineGrows(g, a, y - 1, x, c);
      assert (y - 1) * x == y * x - x;
    } else {
      assert y * x == 0;
    }
  }

  lemma Smaller(y: nat, x: nat, n: nat, m: nat)
    requires y <= n && x <= m
    ensures y * x <= n * m
  {
    NotNegative(n - y, m);
    NotNegative(m - x, y);
    assert (n - y) * m == n * m - y * m && (m - x) * y == y * m - y * x;
  }

  // Every partial sum of the recurrence fits the chosen type, for images whose
  // pixel count is an int.
  lemma PartialSumsFit(g: Shape, a: seq<int>, y: nat, x: nat, c: nat)
    requires |a| == Size(g) && Bytes(a) && y < g.rows && x < g.cols && c < g.ch && g.rows * g.cols <= 0x7FFF_FFFF
    ensures var left, corner, up := Prefix(g, a, y + 1, x, c), Prefix(g, a, y, x, c), Prefix(g, a, y, x + 1, c);
            && 0 <= left - corner <= left - corner + up <= left - corner + up + At(g, a, y, x,
                c) <= Largest(SafeWidth(g))
            && left <= Largest(SafeWidth(g)) && corner <= Largest(SafeWidth(g)) && up <= Largest(SafeWidth(g))
  {
    hide Size, LineSum, Addr, Bytes;
    Recurrence(g, a, y, x, c);
    PrefixBounds(g, a, y + 1, x + 1, c);
    PrefixBounds(g, a, y + 1, x, c);
    PrefixBounds(g, a, y, x, c);
    PrefixBounds(g, a, y, x + 1, c);
    LineGrows(g, a, y, x, c);
    Smaller(y + 1, x + 1, g.rows, g.cols);
    Smaller(y + 1, x, g.rows, g.cols);
    Smaller(y, x + 1, g.rows, g.cols);
    Smaller(y, x, g.rows, g.cols);
    PixelBounds(g, a, y, x, c);
  }

  lemma PixelBounds(g: Shape, a: seq<int>, y: nat, x: nat, c: nat)
    requires |a| == Size(g) && Bytes(a) && Inside(g, y, x, c)
    ensures 0 <= At(g, a, y, x, c) <= 255
  {
    hide Size, Addr;
    AddrBounds(g, y, x, c);
  }

  lemma {:induction false} WhiteLine(g: Shape, a: seq<int>, y: nat, x: nat, c: nat)
    requires |a| == Size(g) && y < g.rows && x <= g.cols && c < g.ch && forall e :: 0 <= e < |a| ==> a[e] == 255
    ensures LineSum(g, a, y, x, c) == 255 * x
  {
    hide Size, Addr;
    if x > 0 {
      WhiteLine(g, a, y, x - 1, c);
      AddrBounds(g, y, x - 1, c);
    }
  }

  lemma {:induction false} White(g: Shape, a: seq<int>, y: nat, x: nat, c: nat)
    requires |a| == Size(g) && y <= g.rows && x <= g.cols && c < g.ch && forall e :: 0 <= e < |a| ==> a[e] == 255
    ensures Prefix(g, a, y, x, c) == 255 * (y * x)
  {
    hide Size, LineSum;
    if y > 0 {
      White(g, a, y - 1, x, c);
      WhiteLine(g, a, y - 1, x, c);
      assert (y - 1) * x == y * x - x;
    } else {
      assert y * x == 0;
    }
  }

  // A signed 32-bit table holds every 8-bit image of a shape exactly up to
  // 0x808080 pixels, one more than the source allows itself.
  lemma NarrowExactly(g: Shape)
    requires g.ch > 0
    ensures g.rows * g.cols <= 0x80_8080 <==>
              forall a: seq<int>, y: nat, x: nat, c: nat ::
                |a| == Size(g) && Bytes(a) && y <= g.rows && x <= g.cols && c < g.ch ==>
                Prefix(g, a, y, x, c) <= Largest(32)
    ensures SafeWidth(g) == 32 ==> g.rows * g.cols < 0x80_8080
  {
    hide Size, Prefix;
    if g.rows * g.cols <= 0x80_8080 {
      forall a: seq<int>, y: nat, x: nat, c: nat | |a| == Size(g) && Bytes(a) && y <= g.rows && x <= g.cols && c < g.ch
        ensures Prefix(g, a, y, x, c) <= Largest(32)
      {
        PrefixBounds(g, a, y, x, c);
        Smaller(y, x, g.rows, g.cols);
      }
    } else {
      var a := seq(Size(g), _ => 255);
      assert Bytes(a);
      White(g, a, g.rows, g.cols, 0);
    }
  }
}
