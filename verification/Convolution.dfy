/**
 The partitioned, strided convolution layer over exact arithmetic: the clipped
 forward loops against the zero-padded sum, and both backward loops as the
 adjoints of the forward pass.
 */
module Convolution {
  import opened Flat

  // Input rows, columns and channels; output rows and columns; kernels.
  datatype Layer = Layer(rows: nat, cols: nat, ch: nat, outRows: nat, outCols: nat, count: nat,
                         partition: nat, strides: nat, border: nat, kRows: nat, kCols: nat)

  ghost predicate ValidLayer(l: Layer) {
    && l.partition > 0 && l.count > 0
    && l.ch == l.partition * ChPer(l)
    && CountPer(l) > 0 && l.count == l.partition * CountPer(l)
  }

  function ChPer(l: Layer): nat { if l.partition == 0 then 0 else l.ch / l.partition }

  function CountPer(l: Layer): nat { if l.partition == 0 then 0 else l.count / l.partition }

  // ---- flat indices ----

  function InIdx(l: Layer, y: int, x: int, c: int): int { Row(Row(y, x, l.cols), c, l.ch) }

  function WIdx(l: Layer, k: int, y: int, x: int, c: int): int {
    Row(Row(Row(k, y, l.kRows), x, l.kCols), c, ChPer(l))
  }

  function OutIdx(l: Layer, i: int, j: int, k: int): int { Row(Row(i, j, l.outCols), k, l.count) }

  function InSize(l: Layer): nat { l.rows * l.cols * l.ch }

  function WSize(l: Layer): nat { l.count * l.kRows * l.kCols * ChPer(l) }

  function OutSize(l: Layer): nat { l.outRows * l.outCols * l.count }

  lemma InBounds(l: Layer, y: int, x: int, c: int)
    requires 0 <= y < l.rows && 0 <= x < l.cols && 0 <= c < l.ch
    ensures 0 <= InIdx(l, y, x, c) < InSize(l)
  {
    hide Row;
    RowBounds(y, x, l.rows, l.cols);
    RowBounds(Row(y, x, l.cols), c, l.rows * l.cols, l.ch);
  }

  lemma WBounds(l: Layer, k: int, y: int, x: int, c: int)
    requires 0 <= k < l.count && 0 <= y < l.kRows && 0 <= x < l.kCols && 0 <= c < ChPer(l)
    ensures 0 <= WIdx(l, k, y, x, c) < WSize(l)
  {
    hide Row, ChPer;
    RowBounds(k, y, l.count, l.kRows);
    RowBounds(Row(k, y, l.kRows), x, l.count * l.kRows, l.kCols);
    RowBounds(Row(Row(k, y, l.kRows), x, l.kCols), c, l.count * l.kRows * l.kCols, ChPer(l));
  }

  lemma OutBounds(l: Layer, i: int, j: int, k: int)
    requires 0 <= i < l.outRows && 0 <= j < l.outCols && 0 <= k < l.count
    ensures 0 <= OutIdx(l, i, j, k) < OutSize(l)
  {
    hide Row;
    RowBounds(i, j, l.outRows, l.outCols);
    RowBounds(Row(i, j, l.outCols), k, l.outRows * l.outCols, l.count);
  }

  // The group of input channels that kernel k reads.
  function PartOf(l: Layer, k: int): int { if CountPer(l) == 0 then 0 else k / CountPer(l) }

  lemma ChannelBounds(l: Layer, k: int, c: int)
    requires ValidLayer(l) && 0 <= k < l.count && 0 <= c < ChPer(l)
    ensures 0 <= PartOf(l, k) < l.partition && 0 <= Row(PartOf(l, k), c, ChPer(l)) < l.ch
  {
    PartBound(k, l.partition, CountPer(l));
    RowBounds(PartOf(l, k), c, l.partition, ChPer(l));
  }

  lemma PartBound(k: nat, n: nat, m: nat)
    requires 0 < m && k < n * m
    ensures 0 <= k / m < n
  {
    QuotientBound(k / m, n, m, k % m);
  }

  // ---- the textbook convolution ----

  // An input value, zero outside the image.
  function Padded(l: Layer, a: seq<real>, y: int, x: int, c: int): real
    requires |a| == InSize(l) && 0 <= c < l.ch
  {
    if 0 <= y < l.rows && 0 <= x < l.cols then
      InBounds(l, y, x, c);
      a[InIdx(l, y, x, c)]
    else 0.0
  }

  // One product of the sum for output (i, j) of kernel k.
  function Product(l: Layer, w: seq<real>, a: seq<real>, k: int, i: int, j: int, y: int, x: int, c: int): real
    requires ValidLayer(l) && |w| == WSize(l) && |a| == InSize(l)
    requires 0 <= k < l.count && 0 <= y < l.kRows && 0 <= x < l.kCols && 0 <= c < ChPer(l)
  {
    WBounds(l, k, y, x, c);
    ChannelBounds(l, k, c);
    w[WIdx(l, k, y, x, c)]
    * Padded(l, a, i * l.strides - l.border + y, j * l.strides - l.border + x, Row(PartOf(l, k), c, ChPer(l)))
  }

  function SumC(l: Layer, w: seq<real>, a: seq<real>, k: int, i: int, j: int, y: int, x: int, n: nat): real
    requires ValidLayer(l) && |w| == WSize(l) && |a| == InSize(l)
    requires 0 <= k < l.count && 0 <= y < l.kRows && 0 <= x < l.kCols && n <= ChPer(l)
  {
    if n == 0 then 0.0 else SumC(l, w, a, k, i, j, y, x, n - 1) + Product(l, w, a, k, i, j, y, x, n - 1)
  }

  function SumX(l: Layer, w: seq<real>, a: seq<real>, k: int, i: int, j: int, y: int, n: nat): real
    requires ValidLayer(l) && |w| == WSize(l) && |a| == InSize(l)
    requires 0 <= k < l.count && 0 <= y < l.kRows && n <= l.kCols
  {
    if n == 0 then 0.0 else SumX(l, w, a, k, i, j, y, n - 1) + SumC(l, w, a, k, i, j, y, n - 1, ChPer(l))
  }

  function SumY(l: Layer, w: seq<real>, a: seq<real>, k: int, i: int, j: int, n: nat): real
    requires ValidLayer(l) && |w| == WSize(l) && |a| == InSize(l)
    requires 0 <= k < l.count && n <= l.kRows
  {
    if n == 0 then 0.0 else SumY(l, w, a, k, i, j, n - 1) + SumX(l, w, a, k, i, j, n - 1, l.kCols)
  }

  // The zero-padded sum over the whole kernel.
  function Conv(l: Layer, w: seq<real>, a: seq<real>, k: int, i: int, j: int): real
    requires ValidLayer(l) && |w| == WSize(l) && |a| == InSize(l) && 0 <= k < l.count
  {
    SumY(l, w, a, k, i, j, l.kRows)
  }

  // ---- clipping ----

  function Max(a: int, b: int): int { if a > b then a else b }

  function Min(a: int, b: int): int { if a < b then a else b }

  // The first kernel line inside the image, for output line i.
  function First(l: Layer, i: int): int { Max(i * l.strides - l.border, 0) - (i * l.strides - l.border) }

  // How many kernel lines of `size` lie inside an image of `extent` lines.
  function Visible(l: Layer, i: int, size: nat, extent: nat): int {
    size - First(l, i) - (i * l.strides + size - Min(extent + l.border, i * l.strides + size))
  }

  // The clipped range holds exactly the kernel lines that meet the image.
  lemma ClipExactly(l: Layer, i: int, size: nat, extent: nat, y: int)
    requires 0 <= y < size
    ensures First(l, i) <= y < First(l, i) + Visible(l, i, size, extent) <==> 0 <= i * l.strides - l.border + y < extent
  {
  }

  lemma ClipInside(l: Layer, i: int, size: nat, extent: nat)
    requires Visible(l, i, size, extent) > 0
    ensures 0 <= First(l, i) && First(l, i) + Visible(l, i, size, extent) <= size
  {
  }

  lemma {:induction false} DarkC(l: Layer, w: seq<real>, a: seq<real>, k: int, i: int, j: int, y: int, x: int, n: nat)
    requires ValidLayer(l) && |w| == WSize(l) && |a| == InSize(l)
    requires 0 <= k < l.count && 0 <= y < l.kRows && 0 <= x < l.kCols && n <= ChPer(l)
    requires !(0 <= i * l.strides - l.border + y < l.rows && 0 <= j * l.strides - l.border + x < l.cols)
    ensures SumC(l, w, a, k, i, j, y, x, n) == 0.0
  {
    hide ValidLayer, WSize, InSize, ChPer;
    if n > 0 {
      DarkC(l, w, a, k, i, j, y, x, n - 1);
      DarkProduct(l, w, a, k, i, j, y, x, n - 1);
    }
  }

  lemma DarkProduct(l: Layer, w: seq<real>, a: seq<real>, k: int, i: int, j: int, y: int, x: int, c: int)
    requires ValidLayer(l) && |w| == WSize(l) && |a| == InSize(l)
    requires 0 <= k < l.count && 0 <= y < l.kRows && 0 <= x < l.kCols && 0 <= c < ChPer(l)
    requires !(0 <= i * l.strides - l.border + y < l.rows && 0 <= j * l.strides - l.border + x < l.cols)
    ensures Product(l, w, a, k, i, j, y, x, c) == 0.0
  {
    hide WIdx, InIdx, WSize, InSize, ChPer, Row;
    ChannelBounds(l, k, c);
  }

  // The lines m..n-1 lie on one side of the clipped range, or it is empty.
  predicate OffImage(l: Layer, i: int, size: nat, extent: nat, m: int, n: int) {
    n <= First(l, i) || First(l, i) + Visible(l, i, size, extent) <= m || Visible(l, i, size, extent) <= 0
  }

  // Columns outside the clipped range add nothing.
  lemma {:induction false} DarkX(l: Layer, w: seq<real>, a: seq<real>, k: int, i: int, j: int, y: int, m: nat, n: nat)
    requires ValidLayer(l) && |w| == WSize(l) && |a| == InSize(l)
    requires 0 <= k < l.count && 0 <= y < l.kRows && m <= n <= l.kCols
    requires !(0 <= i * l.strides - l.border + y < l.rows) || OffImage(l, j, l.kCols, l.cols, m, n)
    ensures SumX(l, w, a, k, i, j, y, n) == SumX(l, w, a, k, i, j, y, m)
  {
    hide ValidLayer, WSize, InSize, ChPer, First, Visible, SumC;
    if m < n {
      DarkX(l, w, a, k, i, j, y, m, n - 1);
      ClipExactly(l, j, l.kCols, l.cols, n - 1);
      DarkC(l, w, a, k, i, j, y, n - 1, ChPer(l));
    }
  }

  lemma {:induction false} DarkY(l: Layer, w: seq<real>, a: seq<real>, k: int, i: int, j: int, m: nat, n: nat)
    requires ValidLayer(l) && |w| == WSize(l) && |a| == InSize(l)
    requires 0 <= k < l.count && m <= n <= l.kRows
    requires OffImage(l, i, l.kRows, l.rows, m, n)
    ensures SumY(l, w, a, k, i, j, n) == SumY(l, w, a, k, i, j, m)
  {
    hide ValidLayer, WSize, InSize, ChPer, First, Visible, SumC, SumX;
    if m < n {
      DarkY(l, w, a, k, i, j, m, n - 1);
      ClipExactly(l, i, l.kRows, l.rows, n - 1);
      DarkX(l, w, a, k, i, j, n - 1, 0, l.kCols);
      EmptySumX(l, w, a, k, i, j, n - 1);
    }
  }

  lemma EmptySumX(l: Layer, w: seq<real>, a: seq<real>, k: int, i: int, j: int, y: int)
    requires ValidLayer(l) && |w| == WSize(l) && |a| == InSize(l) && 0 <= k < l.count && 0 <= y < l.kRows
    ensures SumX(l, w, a, k, i, j, y, 0) == 0.0
  {
  }

  // ---- running pointers ----

  lemma WMove(l: Layer, k: int, y: int, x: int, dx: int, c: int)
    ensures WIdx(l, k, y, x + dx, c) == WIdx(l, k, y, x, 0) + dx * ChPer(l) + c
    ensures WIdx(l, k, y + 1, x, c) == WIdx(l, k, y, x, c) + l.kCols * ChPer(l)
  {
    hide Row, ChPer;
    RowStep(Row(k, y, l.kRows), x, l.kCols, dx);
    RowStep(Row(Row(k, y, l.kRows), x, l.kCols), 0, ChPer(l), dx);
    RowStep(Row(Row(k, y, l.kRows), x + dx, l.kCols), 0, ChPer(l), c);
    RowStep(k, y, l.kRows, 1);
    RowStep(Row(k, y, l.kRows), x, l.kCols, 1);
    RowStep(Row(Row(k, y, l.kRows), x, l.kCols), c, ChPer(l), l.kCols);
  }

  lemma InMove(l: Layer, y: int, x: int, c: int, dx: int, dc: int)
    ensures InIdx(l, y, x + dx, c + dc) == InIdx(l, y, x, c) + dx * l.ch + dc
    ensures InIdx(l, y + 1, x, c) == InIdx(l, y, x, c) + l.cols * l.ch
  {
    hide Row;
    RowStep(y, x, l.cols, dx);
    RowStep(Row(y, x, l.cols), c, l.ch, dx);
    RowStep(Row(y, x + dx, l.cols), c, l.ch, dc);
    RowStep(y, x, l.cols, 1);
    RowStep(Row(y, x, l.cols), c, l.ch, l.cols);
  }

  // Where the loops start reading for output (i, j) of kernel k.
  function StartW(l: Layer, k: int, i: int, j: int): int { WIdx(l, k, First(l, i), First(l, j), 0) }

  function StartIn(l: Layer, k: int, i: int, j: int): int {
    InIdx(l, Max(i * l.strides - l.border, 0), Max(j * l.strides - l.border, 0), PartOf(l, k) * ChPer(l))
  }

  lemma StartPointers(l: Layer, k: int, i: int, j: int)
    ensures StartW(l, k, i, j) ==
            k * l.kRows * l.kCols * ChPer(l) + First(l, j) * ChPer(l) + First(l, i) * (ChPer(l) * l.kCols)
    ensures StartIn(l, k, i, j) ==
            PartOf(l, k) * ChPer(l)
            + l.cols * l.ch * Max(i * l.strides - l.border, 0) + Max(j * l.strides - l.border, 0) * l.ch
  {
    hide ChPer, First, PartOf, Max;
    var q := ChPer(l);
    Expand(k, First(l, i), First(l, j), l.kRows, l.kCols, q);
    var y, x := Max(i * l.strides - l.border, 0), Max(j * l.strides - l.border, 0);
    assert (y * l.cols + x) * l.ch == l.cols * l.ch * y + x * l.ch;
  }

  lemma Expand(k: int, y: int, x: int, r: int, c: int, q: int)
    ensures Row(Row(Row(k, y, r), x, c), 0, q) == k * r * c * q + x * q + y * (q * c)
  {
    var kr := k * r;
    assert (kr + y) * c == kr * c + y * c;
    assert (kr * c + y * c + x) * q == kr * c * q + y * c * q + x * q;
    assert y * c * q == y * (q * c);
  }

  // The addresses the inner loop reads, and the product it adds.
  lemma Reads(l: Layer, w: seq<real>, a: seq<real>, k: int, i: int, j: int, y: int, x: int, c: int, wp: int, apz: int)
    requires ValidLayer(l) && |w| == WSize(l) && |a| == InSize(l) && 0 <= k < l.count
    requires 0 <= y < Visible(l, i, l.kRows, l.rows) && 0 <= x < Visible(l, j, l.kCols, l.cols) && 0 <= c < ChPer(l)
    requires wp == WIdx(l, k, First(l, i) + y, First(l, j), 0)
    requires apz == InIdx(l, Max(i * l.strides - l.border, 0) + y, Max(j * l.strides - l.border, 0),
                          PartOf(l, k) * ChPer(l))
    ensures 0 <= First(l, i) + y < l.kRows && 0 <= First(l, j) + x < l.kCols
    ensures wp + x * ChPer(l) + c == WIdx(l, k, First(l, i) + y, First(l, j) + x, c)
    ensures 0 <= i * l.strides - l.border + First(l, i) + y < l.rows
            && 0 <= j * l.strides - l.border + First(l, j) + x < l.cols
    ensures 0 <= Row(PartOf(l, k), c, ChPer(l)) < l.ch
    ensures apz + x * l.ch + c
         == InIdx(l, i * l.strides - l.border + First(l, i) + y, j * l.strides - l.border + First(l, j) + x,
                  Row(PartOf(l, k), c, ChPer(l)))
    ensures 0 <= wp + x * ChPer(l) + c < |w| && 0 <= apz + x * l.ch + c < |a|
    ensures w[wp + x * ChPer(l) + c] * a[apz + x * l.ch + c] ==
            Product(l, w, a, k, i, j, First(l, i) + y, First(l, j) + x, c)
  {
    hide ValidLayer, WSize, InSize, ChPer, WIdx, InIdx, PartOf, CountPer;
    ClipInside(l, i, l.kRows, l.rows);
    ClipInside(l, j, l.kCols, l.cols);
    ClipExactly(l, i, l.kRows, l.rows, First(l, i) + y);
    ClipExactly(l, j, l.kCols, l.cols, First(l, j) + x);
    WMove(l, k, First(l, i) + y, First(l, j), x, c);
    InMove(l, Max(i * l.strides - l.border, 0) + y, Max(j * l.strides - l.border, 0), PartOf(l, k) * ChPer(l), x, c);
    ChannelBounds(l, k, c);
    WBounds(l, k, First(l, i) + y, First(l, j) + x, c);
    InBounds(l, i * l.strides - l.border + First(l, i) + y, j * l.strides - l.border + First(l, j) + x,
             Row(PartOf(l, k), c, ChPer(l)));
  }

  // ---- forward ----

  // One output before the rectifier: the loops over the visible kernel lines.
  method ConvolveAt(l: Layer, w: seq<real>, a: seq<real>, k: nat, i: nat, j: nat, wp0: int, apz0: int, bias: real)
      returns (v: real)
    requires ValidLayer(l) && |w| == WSize(l) && |a| == InSize(l) && k < l.count
    requires wp0 == StartW(l, k, i, j) && apz0 == StartIn(l, k, i, j)
    ensures v == bias + Conv(l, w, a, k, i, j)
  {
    hide ValidLayer, WSize, InSize, ChPer, WIdx, InIdx, PartOf, CountPer, First, Visible, Max, Product;
    v := bias;
    var chPer := ChPer(l);
    ghost var comy, comx := First(l, i), First(l, j);
    var maxy, maxx := Visible(l, i, l.kRows, l.rows), Visible(l, j, l.kCols, l.cols);
    var wp, apz := wp0, apz0;
    if maxy <= 0 || maxx <= 0 {
      NothingVisible(l, w, a, k, i, j);
      // The loops below run over nothing.
    }
    var y := 0;
    if maxy > 0 { ClipInside(l, i, l.kRows, l.rows); DarkY(l, w, a, k, i, j, 0, comy); }
    if maxx > 0 { ClipInside(l, j, l.kCols, l.cols); }
    while y < maxy
      invariant 0 <= y && (maxy > 0 ==> y <= maxy)
      invariant maxy > 0 ==> wp == WIdx(l, k, comy + y, comx, 0)
      invariant maxy > 0 ==>
                apz == InIdx(l, Max(i * l.strides - l.border, 0) + y, Max(j * l.strides - l.border, 0),
                             PartOf(l, k) * chPer)
      invariant if maxy > 0
                && maxx > 0 then 0 <= comy && comy + y <= l.kRows && v == bias + SumY(l, w, a, k, i, j, comy + y)
                    else v == bias
    {
      var x := 0;
      if maxx > 0 { DarkX(l, w, a, k, i, j, comy + y, 0, comx); }
      ghost var v0 := v;
      while x < maxx
        invariant 0 <= x && (maxx > 0 ==> x <= maxx)
        invariant if maxx > 0 then
                  0 <= comx && comx + x <= l.kCols && v == v0 + SumX(l, w, a, k, i, j, comy + y, comx + x) else v == v0
      {
        var c := 0;
        ghost var v1 := v;
        while c < chPer
          invariant 0 <= c <= chPer
          invariant v == v1 + SumC(l, w, a, k, i, j, comy + y, comx + x, c)
        {
          Reads(l, w, a, k, i, j, y, x, c, wp, apz);
          v := v + w[wp + x * chPer + c] * a[apz + x * l.ch + c];
          c := c + 1;
        }
        x := x + 1;
      }
      if maxx > 0 { DarkX(l, w, a, k, i, j, comy + y, comx + x, l.kCols); }
      WMove(l, k, comy + y, comx, 0, 0);
      InMove(l, Max(i * l.strides - l.border, 0) + y, Max(j * l.strides - l.border, 0), PartOf(l, k) * chPer, 0, 0);
      wp := wp + l.kCols * chPer;
      apz := apz + l.cols * l.ch;
      y := y + 1;
    }
    if maxy > 0 && maxx > 0 { DarkY(l, w, a, k, i, j, comy + y, l.kRows); }
  }

  // With no kernel line or column over the image the sum is zero.
  lemma NothingVisible(l: Layer, w: seq<real>, a: seq<real>, k: int, i: int, j: int)
    requires ValidLayer(l) && |w| == WSize(l) && |a| == InSize(l) && 0 <= k < l.count
    requires Visible(l, i, l.kRows, l.rows) <= 0 || Visible(l, j, l.kCols, l.cols) <= 0
    ensures Conv(l, w, a, k, i, j) == 0.0
  {
    hide ValidLayer, WSize, InSize, ChPer, First, Visible, SumX;
    if Visible(l, i, l.kRows, l.rows) <= 0 {
      DarkY(l, w, a, k, i, j, 0, l.kRows);
    } else {
      NoColumns(l, w, a, k, i, j, l.kRows);
    }
  }

  lemma {:induction false} NoColumns(l: Layer, w: seq<real>, a: seq<real>, k: int, i: int, j: int, n: nat)
    requires ValidLayer(l) && |w| == WSize(l) && |a| == InSize(l) && 0 <= k < l.count && n <= l.kRows
    requires Visible(l, j, l.kCols, l.cols) <= 0
    ensures SumY(l, w, a, k, i, j, n) == 0.0
  {
    hide ValidLayer, WSize, InSize, ChPer, First, Visible, SumX;
    if n > 0 {
      NoColumns(l, w, a, k, i, j, n - 1);
      DarkX(l, w, a, k, i, j, n - 1, 0, l.kCols);
      EmptySumX(l, w, a, k, i, j, n - 1);
    }
  }

  lemma OutInjective(l: Layer, i: int, j: int, k: int, i': int, j': int, k': int)
    requires 0 <= j < l.outCols && 0 <= k < l.count && 0 <= j' < l.outCols && 0 <= k' < l.count
    requires OutIdx(l, i, j, k) == OutIdx(l, i', j', k')
    ensures i == i' && j == j' && k == k'
  {
    hide Row;
    RowInjective(Row(i, j, l.outCols), k, Row(i', j', l.outCols), k', l.count);
    RowInjective(i, j, i', j', l.outCols);
  }

  lemma OutMove(l: Layer, i: int, j: int, k: int)
    ensures OutIdx(l, i, j, k) == OutIdx(l, i, 0, k) + j * l.count
    ensures OutIdx(l, i + 1, 0, k) == OutIdx(l, i, 0, k) + l.outCols * l.count
    ensures OutIdx(l, 0, 0, k) == k
  {
    hide Row;
    RowStep(i, 0, l.outCols, j);
    RowStep(Row(i, 0, l.outCols), k, l.count, j);
    RowStep(i, 0, l.outCols, 1);
    RowStep(Row(i, 0, l.outCols), k, l.count, l.outCols);
    RowZero(l.outCols);
    RowZero2(k, l.count);
  }

  lemma RowZero(m: int)
    ensures Row(0, 0, m) == 0
  {
  }

  lemma RowZero2(b: int, m: int)
    ensures Row(0, b, m) == b
  {
  }

  function Rectify(r: real): real { if r > 0.0 then r else 0.0 }

  predicate Before(k: int, i: int, j: int, k': int, i': int, j': int) {
    k < k' || (k == k' && (i < i' || (i == i' && j < j')))
  }

  // The outputs written before (k, i, j) hold the rectified sums.
  ghost predicate Filled(l: Layer, w: seq<real>, bias: seq<real>, a: seq<real>, db: seq<real>, k: int, i: int, j: int)
    requires ValidLayer(l) && |w| == WSize(l) && |a| == InSize(l) && |bias| == l.count
  {
    |db| == OutSize(l) &&
    forall k', i', j' ::
      0 <= k' < l.count && 0 <= i' < l.outRows && 0 <= j' < l.outCols && Before(k', i', j', k, i, j) ==>
      0 <= OutIdx(l, i', j', k') < |db| && db[OutIdx(l, i', j', k')] == Rectify(bias[k'] + Conv(l, w, a, k', i', j'))
  }

  lemma FilledStep(l: Layer, w: seq<real>, bias: seq<real>, a: seq<real>, db: seq<real>, k: int, i: int, j: int)
    requires ValidLayer(l) && |w| == WSize(l) && |a| == InSize(l) && |bias| == l.count
    requires 0 <= k < l.count && 0 <= i < l.outRows && 0 <= j < l.outCols && Filled(l, w, bias, a, db, k, i, j)
    ensures 0 <= OutIdx(l, i, j, k) < |db|
    ensures Filled(l, w, bias, a, db[OutIdx(l, i, j, k) := Rectify(bias[k] + Conv(l, w, a, k, i, j))], k, i, j + 1)
  {
    hide ValidLayer, WSize, InSize, OutSize, OutIdx, Conv, Rectify;
    OutBounds(l, i, j, k);
    forall k', i', j' | 0 <= k' < l.count && 0 <= i' < l.outRows && 0 <= j' < l.outCols && Before(k', i', j', k, i, j)
      ensures OutIdx(l, i', j', k') != OutIdx(l, i, j, k)
    {
      if OutIdx(l, i', j', k') == OutIdx(l, i, j, k) { OutInjective(l, i, j, k, i', j', k'); }
    }
  }

  method Forward(l: Layer, w: seq<real>, bias: seq<real>, a: seq<real>, db: array<real>)
    requires ValidLayer(l) && |w| == WSize(l) && |a| == InSize(l) && |bias| == l.count && db.Length == OutSize(l)
    modifies db
    ensures forall k, i, j :: 0 <= k < l.count && 0 <= i < l.outRows && 0 <= j < l.outCols ==>
              0 <= OutIdx(l, i, j, k) < db.Length && db[OutIdx(l, i, j, k)] == Rectify(bias[k] + Conv(l, w, a, k, i, j))
  {
    hide ValidLayer, WSize, InSize, ChPer, WIdx, InIdx, OutIdx, OutSize, PartOf, CountPer, First, Max, Filled, Conv;
    var k := 0;
    FilledStart(l, w, bias, a, db[..]);
    while k < l.count
      invariant 0 <= k <= l.count && Filled(l, w, bias, a, db[..], k, 0, 0)
    {
      var p, chPer := PartOf(l, k), ChPer(l);
      var ap, bp, layerW := p * chPer, k, k * l.kRows * l.kCols * chPer;
      var i := 0;
      OutMove(l, 0, 0, k);
      StartRow(l, ap);
      while i < l.outRows
        invariant 0 <= i <= l.outRows && bp == OutIdx(l, i, 0, k)
        invariant ap == p * chPer + l.cols * l.ch * Max(i * l.strides - l.border, 0)
        invariant Filled(l, w, bias, a, db[..], k, i, 0)
      {
        var comy := First(l, i) * (chPer * l.kCols);
        var j := 0;
        while j < l.outCols
          invariant 0 <= j <= l.outCols && Filled(l, w, bias, a, db[..], k, i, j)
        {
          StartPointers(l, k, i, j);
          var wp := layerW + First(l, j) * chPer + comy;
          var apz := ap + Max(j * l.strides - l.border, 0) * l.ch;
          var v := ConvolveAt(l, w, a, k, i, j, wp, apz, bias[k]);
          FilledStep(l, w, bias, a, db[..], k, i, j);
          OutMove(l, i, j, k);
          ghost var was := db[..];
          db[bp + j * l.count] := Rectify(v);
          assert db[..] == was[bp + j * l.count := Rectify(v)];
          j := j + 1;
        }
        FilledRow(l, w, bias, a, db[..], k, i);
        OutMove(l, i, 0, k);
        bp := bp + l.outCols * l.count;
        AdvanceRow(l, i);
        ap := ap + l.cols * l.ch * (Max((i + 1) * l.strides - l.border, 0) - Max(i * l.strides - l.border, 0));
        i := i + 1;
      }
      FilledKernel(l, w, bias, a, db[..], k);
      k := k + 1;
    }
    FilledEnd(l, w, bias, a, db[..]);
  }

  lemma StartRow(l: Layer, p: int)
    ensures p == p + l.cols * l.ch * Max(0 * l.strides - l.border, 0)
  {
  }

  lemma AdvanceRow(l: Layer, i: int)
    ensures var m, n := Max(i * l.strides - l.border, 0), Max((i + 1) * l.strides - l.border, 0);
            l.cols * l.ch * m + l.cols * l.ch * (n - m) == l.cols * l.ch * n
  {
    var m, n, q := Max(i * l.strides - l.border, 0), Max((i + 1) * l.strides - l.border, 0), l.cols * l.ch;
    assert q * m + q * (n - m) == q * n;
  }

  lemma FilledStart(l: Layer, w: seq<real>, bias: seq<real>, a: seq<real>, db: seq<real>)
    requires ValidLayer(l) && |w| == WSize(l) && |a| == InSize(l) && |bias| == l.count && |db| == OutSize(l)
    ensures Filled(l, w, bias, a, db, 0, 0, 0)
  {
    hide ValidLayer, WSize, InSize, OutSize, OutIdx, Conv, Rectify;
  }

  lemma FilledRow(l: Layer, w: seq<real>, bias: seq<real>, a: seq<real>, db: seq<real>, k: int, i: int)
    requires ValidLayer(l) && |w| == WSize(l) && |a| == InSize(l) && |bias| == l.count
    requires Filled(l, w, bias, a, db, k, i, l.outCols)
    ensures Filled(l, w, bias, a, db, k, i + 1, 0)
  {
    hide ValidLayer, WSize, InSize, OutSize, OutIdx, Conv, Rectify;
  }

  lemma FilledKernel(l: Layer, w: seq<real>, bias: seq<real>, a: seq<real>, db: seq<real>, k: int)
    requires ValidLayer(l) && |w| == WSize(l) && |a| == InSize(l) && |bias| == l.count
    requires Filled(l, w, bias, a, db, k, l.outRows, 0)
    ensures Filled(l, w, bias, a, db, k + 1, 0, 0)
  {
    hide ValidLayer, WSize, InSize, OutSize, OutIdx, Conv, Rectify;
  }

  lemma FilledEnd(l: Layer, w: seq<real>, bias: seq<real>, a: seq<real>, db: seq<real>)
    requires ValidLayer(l) && |w| == WSize(l) && |a| == InSize(l) && |bias| == l.count
    requires Filled(l, w, bias, a, db, l.count, 0, 0)
    ensures forall k, i, j :: 0 <= k < l.count && 0 <= i < l.outRows && 0 <= j < l.outCols ==>
              0 <= OutIdx(l, i, j, k) < |db| && db[OutIdx(l, i, j, k)] == Rectify(bias[k] + Conv(l, w, a, k, i, j))
  {
    hide ValidLayer, WSize, InSize, OutSize, OutIdx, Conv, Rectify;
  }

  // ---- inner products ----

  function Dot(s: seq<real>, t: seq<real>): real
    requires |s| == |t|
  {
    if s == [] then 0.0 else Dot(s[..|s| - 1], t[..|t| - 1]) + s[|s| - 1] * t[|t| - 1]
  }

  // Adding to one entry adds that much of the other vector's entry.
  lemma {:induction false} DotUpdate(s: seq<real>, t: seq<real>, i: nat, d: real)
    requires |s| == |t| && i < |s|
    ensures Dot(s[i := s[i] + d], t) == Dot(s, t) + d * t[i]
  {
    var n, u := |s| - 1, s[i := s[i] + d];
    if i == n {
      assert u[..n] == s[..n];
    } else {
      DotUpdate(s[..n], t[..n], i, d);
      assert u[..n] == s[..n][i := s[i] + d];
    }
  }

  lemma {:induction false} DotZero(s: seq<real>, t: seq<real>)
    requires |s| == |t| && forall i :: 0 <= i < |s| ==> s[i] == 0.0
    ensures Dot(s, t) == 0.0
  {
    if s != [] { DotZero(s[..|s| - 1], t[..|t| - 1]); }
  }

  // Inner products with every vector determine a vector, so the gradients below
  // are determined by their pairings.
  lemma DotDetermines(s: seq<real>, t: seq<real>)
    requires |s| == |t| && forall u: seq<real> :: |u| == |s| ==> Dot(s, u) == Dot(t, u)
    ensures s == t
  {
    hide Dot;
    forall i | 0 <= i < |s|
      ensures s[i] == t[i]
    {
      DotUnit(s, i);
      DotUnit(t, i);
      assert |Unit(|s|, i)| == |s|;
    }
  }

  // The vector with 1 at place i and 0 elsewhere.
  function Unit(n: nat, i: nat): seq<real>
    requires i < n
  {
    seq(n, _ => 0.0)[i := 1.0]
  }

  lemma DotUnit(s: seq<real>, i: nat)
    requires i < |s|
    ensures |Unit(|s|, i)| == |s| && Dot(s, Unit(|s|, i)) == s[i]
  {
    hide Dot;
    var zero := seq(|s|, _ => 0.0);
    assert Unit(|s|, i) == zero[i := zero[i] + 1.0];
    DotSymmetric(s, Unit(|s|, i));
    DotUpdate(zero, s, i, 1.0);
    DotZero(zero, s);
  }

  lemma {:induction false} DotSymmetric(s: seq<real>, t: seq<real>)
    requires |s| == |t|
    ensures Dot(s, t) == Dot(t, s)
  {
    if s != [] { DotSymmetric(s[..|s| - 1], t[..|t| - 1]); }
  }

  // ---- backward: one operand of the convolution is fixed, the gradient of
  // ---- the other is accumulated ----

  datatype Side = Weights | Inputs

  function SizeOf(l: Layer, side: Side): nat { if side.Weights? then WSize(l) else InSize(l) }

  function Other(side: Side): Side { if side.Weights? then Inputs else Weights }

  // The weights and the image, of the free operand u and the fixed one f.
  function Wt(side: Side, u: seq<real>, f: seq<real>): seq<real> { if side.Weights? then u else f }

  function Im(side: Side, u: seq<real>, f: seq<real>): seq<real> { if side.Weights? then f else u }

  // The accumulator `acc` has grown from `was` by the gradient of v times part
  // of the sum for output (i, j) of kernel k: against every vector u of the
  // free side it gives v times that part of the convolution with u.
  ghost predicate GrownC(l: Layer, side: Side, f: seq<real>, k: int, i: int, j: int, y: int, x: int, n: nat, v: real,
                         was: seq<real>, acc: seq<real>)
    requires ValidLayer(l) && |f| == SizeOf(l, Other(side))
    requires 0 <= k < l.count && 0 <= y < l.kRows && 0 <= x < l.kCols && n <= ChPer(l)
  {
    |was| == |acc| == SizeOf(l, side) &&
    forall u: seq<real> :: |u| == SizeOf(l, side) ==>
      Dot(acc, u) == Dot(was, u) + v * SumC(l, Wt(side, u, f), Im(side, u, f), k, i, j, y, x, n)
  }

  ghost predicate GrownX(l: Layer, side: Side, f: seq<real>, k: int, i: int, j: int, y: int, n: nat, v: real,
                         was: seq<real>, acc: seq<real>)
    requires ValidLayer(l) && |f| == SizeOf(l, Other(side))
    requires 0 <= k < l.count && 0 <= y < l.kRows && n <= l.kCols
  {
    |was| == |acc| == SizeOf(l, side) &&
    forall u: seq<real> :: |u| == SizeOf(l, side) ==>
      Dot(acc, u) == Dot(was, u) + v * SumX(l, Wt(side, u, f), Im(side, u, f), k, i, j, y, n)
  }

  ghost predicate GrownY(l: Layer, side: Side, f: seq<real>, k: int, i: int, j: int, n: nat, v: real, was: seq<real>,
                         acc: seq<real>)
    requires ValidLayer(l) && |f| == SizeOf(l, Other(side))
    requires 0 <= k < l.count && n <= l.kRows
  {
    |was| == |acc| == SizeOf(l, side) &&
    forall u: seq<real> :: |u| == SizeOf(l, side) ==>
      Dot(acc, u) == Dot(was, u) + v * SumY(l, Wt(side, u, f), Im(side, u, f), k, i, j, n)
  }

  // The addresses of the inner loops stay inside both operands.
  lemma Addresses(l: Layer, side: Side, f: seq<real>, k: int, i: int, j: int, y: int, x: int, c: nat, wp: int, apz: int)
    requires ValidLayer(l) && |f| == SizeOf(l, Other(side)) && 0 <= k < l.count
    requires 0 <= y < Visible(l, i, l.kRows, l.rows) && 0 <= x < Visible(l, j, l.kCols, l.cols) && c < ChPer(l)
    requires wp == WIdx(l, k, First(l, i) + y, First(l, j), 0)
    requires apz == InIdx(l, Max(i * l.strides - l.border, 0) + y, Max(j * l.strides - l.border, 0),
                          PartOf(l, k) * ChPer(l))
    ensures 0 <= First(l, i) + y < l.kRows && 0 <= First(l, j) + x < l.kCols
    ensures 0 <= wp + x * ChPer(l) + c < WSize(l) && 0 <= apz + x * l.ch + c < InSize(l)
  {
    hide ValidLayer, WSize, InSize, ChPer, WIdx, InIdx, PartOf, CountPer, First, Visible, Max, Product, Row;
    var zeros := seq(SizeOf(l, side), _ => 0.0);
    Reads(l, Wt(side, zeros, f), Im(side, zeros, f), k, i, j, y, x, c, wp, apz);
  }

  lemma GrowC(l: Layer, side: Side, f: seq<real>, k: int, i: int, j: int, y: int, x: int, c: nat, v: real,
              was: seq<real>, acc: seq<real>,
              wp: int, apz: int, at: int, from: int, next: seq<real>)
    requires ValidLayer(l) && |f| == SizeOf(l, Other(side)) && 0 <= k < l.count
    requires 0 <= y < Visible(l, i, l.kRows, l.rows) && 0 <= x < Visible(l, j, l.kCols, l.cols) && c < ChPer(l)
    requires wp == WIdx(l, k, First(l, i) + y, First(l, j), 0)
    requires apz == InIdx(l, Max(i * l.strides - l.border, 0) + y, Max(j * l.strides - l.border, 0),
                          PartOf(l, k) * ChPer(l))
    requires 0 <= First(l, i) + y < l.kRows && 0 <= First(l, j) + x < l.kCols
    requires GrownC(l, side, f, k, i, j, First(l, i) + y, First(l, j) + x, c, v, was, acc)
    requires at == if side.Weights? then wp + x * ChPer(l) + c else apz + x * l.ch + c
    requires from == if side.Weights? then apz + x * l.ch + c else wp + x * ChPer(l) + c
    requires 0 <= at < |acc| && 0 <= from < |f| && next == acc[at := acc[at] + v * f[from]]
    ensures GrownC(l, side, f, k, i, j, First(l, i) + y, First(l, j) + x, c + 1, v, was, next)
  {
    hide ValidLayer, WSize, InSize, ChPer, WIdx, InIdx, PartOf, CountPer, First, Visible, Max, Product, Dot, Row;
    forall u: seq<real> | |u| == SizeOf(l, side)
      ensures Dot(next, u)
           == Dot(was, u) + v * SumC(l, Wt(side, u, f), Im(side, u, f), k, i, j, First(l, i) + y, First(l, j) + x,
                                     c + 1)
    {
      Reads(l, Wt(side, u, f), Im(side, u, f), k, i, j, y, x, c, wp, apz);
      DotUpdate(acc, u, at, v * f[from]);
      var old_ := SumC(l, Wt(side, u, f), Im(side, u, f), k, i, j, First(l, i) + y, First(l, j) + x, c);
      assert SumC(l, Wt(side, u, f), Im(side, u, f), k, i, j, First(l, i) + y, First(l, j) + x, c + 1) ==
          old_ + f[from] * u[at];
      Distribute(v, old_, f[from], u[at]);
    }
  }

  lemma Distribute(v: real, s: real, p: real, q: real)
    ensures v * (s + p * q) == v * s + (v * p) * q
    ensures v * (s + q * p) == v * s + (v * p) * q
  {
  }

  lemma DistributeSum(v: real, s: real, t: real)
    ensures v * (s + t) == v * s + v * t
  {
  }

  lemma GrowX(l: Layer, side: Side, f: seq<real>, k: int, i: int, j: int, y: int, x: nat, v: real, was: seq<real>,
              mid: seq<real>, acc: seq<real>)
    requires ValidLayer(l) && |f| == SizeOf(l, Other(side)) && 0 <= k < l.count && 0 <= y < l.kRows && x < l.kCols
    requires GrownX(l, side, f, k, i, j, y, x, v, was, mid) && GrownC(l, side, f, k, i, j, y, x, ChPer(l), v, mid, acc)
    ensures GrownX(l, side, f, k, i, j, y, x + 1, v, was, acc)
  {
    hide ValidLayer, WSize, InSize, ChPer, Dot, SumC;
    forall u: seq<real> | |u| == SizeOf(l, side)
      ensures Dot(acc, u) == Dot(was, u) + v * SumX(l, Wt(side, u, f), Im(side, u, f), k, i, j, y, x + 1)
    {
      DistributeSum(v, SumX(l, Wt(side, u, f), Im(side, u, f), k, i, j, y, x),
                    SumC(l, Wt(side, u, f), Im(side, u, f), k, i, j, y, x, ChPer(l)));
    }
  }

  lemma GrowY(l: Layer, side: Side, f: seq<real>, k: int, i: int, j: int, y: nat, v: real, was: seq<real>,
              mid: seq<real>, acc: seq<real>)
    requires ValidLayer(l) && |f| == SizeOf(l, Other(side)) && 0 <= k < l.count && y < l.kRows
    requires GrownY(l, side, f, k, i, j, y, v, was, mid) && GrownX(l, side, f, k, i, j, y, l.kCols, v, mid, acc)
    ensures GrownY(l, side, f, k, i, j, y + 1, v, was, acc)
  {
    hide ValidLayer, WSize, InSize, ChPer, Dot, SumC, SumX;
    forall u: seq<real> | |u| == SizeOf(l, side)
      ensures Dot(acc, u) == Dot(was, u) + v * SumY(l, Wt(side, u, f), Im(side, u, f), k, i, j, y + 1)
    {
      DistributeSum(v, SumY(l, Wt(side, u, f), Im(side, u, f), k, i, j, y),
                    SumX(l, Wt(side, u, f), Im(side, u, f), k, i, j, y, l.kCols));
    }
  }

  // Skipped kernel columns and lines leave the accumulator as it should be.
  lemma SkipX(l: Layer, side: Side, f: seq<real>, k: int, i: int, j: int, y: int, m: nat, n: nat, v: real,
              was: seq<real>, acc: seq<real>)
    requires ValidLayer(l) && |f| == SizeOf(l, Other(side)) && 0 <= k < l.count && 0 <= y < l.kRows && m <= n <= l.kCols
    requires OffImage(l, j, l.kCols, l.cols, m, n) && GrownX(l, side, f, k, i, j, y, m, v, was, acc)
    ensures GrownX(l, side, f, k, i, j, y, n, v, was, acc)
  {
    hide ValidLayer, WSize, InSize, ChPer, Dot, SumX, OffImage;
    forall u: seq<real> | |u| == SizeOf(l, side)
      ensures Dot(acc, u) == Dot(was, u) + v * SumX(l, Wt(side, u, f), Im(side, u, f), k, i, j, y, n)
    {
      DarkX(l, Wt(side, u, f), Im(side, u, f), k, i, j, y, m, n);
    }
  }

  lemma SkipY(l: Layer, side: Side, f: seq<real>, k: int, i: int, j: int, m: nat, n: nat, v: real, was: seq<real>,
              acc: seq<real>)
    requires ValidLayer(l) && |f| == SizeOf(l, Other(side)) && 0 <= k < l.count && m <= n <= l.kRows
    requires OffImage(l, i, l.kRows, l.rows, m, n) && GrownY(l, side, f, k, i, j, m, v, was, acc)
    ensures GrownY(l, side, f, k, i, j, n, v, was, acc)
  {
    hide ValidLayer, WSize, InSize, ChPer, Dot, SumY, OffImage;
    forall u: seq<real> | |u| == SizeOf(l, side)
      ensures Dot(acc, u) == Dot(was, u) + v * SumY(l, Wt(side, u, f), Im(side, u, f), k, i, j, n)
    {
      DarkY(l, Wt(side, u, f), Im(side, u, f), k, i, j, m, n);
    }
  }

  // Nothing added yet.
  lemma GrownNone(l: Layer, side: Side, f: seq<real>, k: int, i: int, j: int, v: real, acc: seq<real>)
    requires ValidLayer(l) && |f| == SizeOf(l, Other(side)) && 0 <= k < l.count && |acc| == SizeOf(l, side)
    ensures GrownY(l, side, f, k, i, j, 0, v, acc, acc)
    ensures forall y :: 0 <= y < l.kRows ==> GrownX(l, side, f, k, i, j, y, 0, v, acc, acc)
    ensures forall y, x :: 0 <= y < l.kRows && 0 <= x < l.kCols ==> GrownC(l, side, f, k, i, j, y, x, 0, v, acc, acc)
  {
    hide ValidLayer, WSize, InSize, ChPer, Dot;
  }

  lemma GrownNothingVisible(l: Layer, side: Side, f: seq<real>, k: int, i: int, j: int, v: real, acc: seq<real>)
    requires ValidLayer(l) && |f| == SizeOf(l, Other(side)) && 0 <= k < l.count && |acc| == SizeOf(l, side)
    requires Visible(l, i, l.kRows, l.rows) <= 0 || Visible(l, j, l.kCols, l.cols) <= 0
    ensures GrownY(l, side, f, k, i, j, l.kRows, v, acc, acc)
  {
    hide ValidLayer, WSize, InSize, ChPer, Dot, Visible;
    forall u: seq<real> | |u| == SizeOf(l, side)
      ensures v * SumY(l, Wt(side, u, f), Im(side, u, f), k, i, j, l.kRows) == 0.0
    {
      NothingVisible(l, Wt(side, u, f), Im(side, u, f), k, i, j);
    }
  }

  // The innermost three loops of both backward passes: the entry of the weight
  // gradient gains v times the input it was multiplied with, or the entry of the
  // input gradient gains v times the weight.
  method ScatterAt(l: Layer, side: Side, f: seq<real>, acc: array<real>, k: nat, i: nat, j: nat, wp0: int, apz0: int,
                   v: real)
    requires ValidLayer(l) && |f| == SizeOf(l, Other(side)) && acc.Length == SizeOf(l, side) && k < l.count
    requires wp0 == StartW(l, k, i, j) && apz0 == StartIn(l, k, i, j)
    modifies acc
    ensures GrownY(l, side, f, k, i, j, l.kRows, v, old(acc[..]), acc[..])
  {
    hide ValidLayer, WSize, InSize, ChPer, WIdx, InIdx, PartOf, CountPer, First, Visible, Max, GrownC, GrownX, GrownY,
      SizeOf, OffImage;
    ghost var was := acc[..];
    var chPer := ChPer(l);
    ghost var comy, comx := First(l, i), First(l, j);
    var maxy, maxx := Visible(l, i, l.kRows, l.rows), Visible(l, j, l.kCols, l.cols);
    var wp, apz := wp0, apz0;
    GrownNone(l, side, f, k, i, j, v, was);
    if maxy <= 0 || maxx <= 0 {
      GrownNothingVisible(l, side, f, k, i, j, v, was);
    }
    if maxy > 0 && maxx > 0 {
      ClipInside(l, i, l.kRows, l.rows);
      ClipInside(l, j, l.kCols, l.cols);
      OffEnds(l, i, l.kRows, l.rows);
      OffEnds(l, j, l.kCols, l.cols);
      SkipY(l, side, f, k, i, j, 0, comy, v, was, was);
    }
    var y := 0;
    while y < maxy
      invariant 0 <= y && (maxy > 0 ==> y <= maxy)
      invariant maxy > 0 ==> wp == WIdx(l, k, comy + y, comx, 0)
      invariant maxy > 0 ==>
                apz == InIdx(l, Max(i * l.strides - l.border, 0) + y, Max(j * l.strides - l.border, 0),
                             PartOf(l, k) * chPer)
      invariant maxy > 0 && maxx > 0 ==> GrownY(l, side, f, k, i, j, comy + y, v, was, acc[..])
      invariant !(maxy > 0 && maxx > 0) ==> acc[..] == was
    {
      var x := 0;
      ghost var mid := acc[..];
      if maxx > 0 {
        GrownSize(l, side, f, k, i, j, comy + y, v, was, mid);
        GrownNone(l, side, f, k, i, j, v, mid);
        SkipX(l, side, f, k, i, j, comy + y, 0, comx, v, mid, mid);
      }
      while x < maxx
        invariant 0 <= x && (maxx > 0 ==> x <= maxx)
        invariant maxx > 0 ==> GrownX(l, side, f, k, i, j, comy + y, comx + x, v, mid, acc[..])
        invariant maxx <= 0 ==> acc[..] == mid
      {
        var c := 0;
        ghost var low := acc[..];
        GrownNone(l, side, f, k, i, j, v, low);
        while c < chPer
          invariant 0 <= c <= chPer
          invariant GrownC(l, side, f, k, i, j, comy + y, comx + x, c, v, low, acc[..])
        {
          Addresses(l, side, f, k, i, j, y, x, c, wp, apz);
          SizeCases(l, side);
          ghost var now := acc[..];
          var at := if side.Weights? then wp + x * chPer + c else apz + x * l.ch + c;
          var from := if side.Weights? then apz + x * l.ch + c else wp + x * chPer + c;
          acc[at] := acc[at] + v * f[from];
          assert acc[..] == now[at := now[at] + v * f[from]];
          GrowC(l, side, f, k, i, j, y, x, c, v, low, now, wp, apz, at, from, acc[..]);
          c := c + 1;
        }
        GrowX(l, side, f, k, i, j, comy + y, comx + x, v, mid, low, acc[..]);
        x := x + 1;
      }
      if maxx > 0 {
        SkipX(l, side, f, k, i, j, comy + y, comx + x, l.kCols, v, mid, acc[..]);
        GrowY(l, side, f, k, i, j, comy + y, v, was, mid, acc[..]);
      }
      WMove(l, k, comy + y, comx, 0, 0);
      InMove(l, Max(i * l.strides - l.border, 0) + y, Max(j * l.strides - l.border, 0), PartOf(l, k) * chPer, 0, 0);
      wp := wp + l.kCols * chPer;
      apz := apz + l.cols * l.ch;
      y := y + 1;
    }
    if maxy > 0 && maxx > 0 {
      SkipY(l, side, f, k, i, j, comy + y, l.kRows, v, was, acc[..]);
    }
  }

  lemma OffEnds(l: Layer, i: int, size: nat, extent: nat)
    ensures OffImage(l, i, size, extent, 0, First(l, i))
    ensures OffImage(l, i, size, extent, First(l, i) + Visible(l, i, size, extent), size)
  {
  }

  lemma SizeCases(l: Layer, side: Side)
    ensures SizeOf(l, Weights) == WSize(l) && SizeOf(l, Inputs) == InSize(l)
  {
  }

  lemma GrownSize(l: Layer, side: Side, f: seq<real>, k: int, i: int, j: int, n: nat, v: real, was: seq<real>,
                  acc: seq<real>)
    requires ValidLayer(l) && |f| == SizeOf(l, Other(side)) && 0 <= k < l.count && n <= l.kRows
    requires GrownY(l, side, f, k, i, j, n, v, was, acc)
    ensures |acc| == SizeOf(l, side)
  {
    hide ValidLayer;
  }

  // ---- the masked output gradient and its pairing with the convolution ----

  // The rectifier lets the gradient through where its output is positive.
  function Masked(l: Layer, g: seq<real>, n: seq<real>, k: int, i: int, j: int): real
    requires |g| == |n| == OutSize(l) && 0 <= k < l.count && 0 <= i < l.outRows && 0 <= j < l.outCols
  {
    OutBounds(l, i, j, k);
    if n[OutIdx(l, i, j, k)] > 0.0 then g[OutIdx(l, i, j, k)] else 0.0
  }

  ghost predicate Operands(l: Layer, w: seq<real>, a: seq<real>, g: seq<real>, n: seq<real>) {
    ValidLayer(l) && |w| == WSize(l) && |a| == InSize(l) && |g| == |n| == OutSize(l)
  }

  function PairJ(l: Layer, w: seq<real>, a: seq<real>, g: seq<real>, n: seq<real>, k: int, i: int, m: nat): real
    requires Operands(l, w, a, g, n) && 0 <= k < l.count && 0 <= i < l.outRows && m <= l.outCols
  {
    if m == 0 then 0.0
    else PairJ(l, w, a, g, n, k, i, m - 1) + Masked(l, g, n, k, i, m - 1) * Conv(l, w, a, k, i, m - 1)
  }

  function PairI(l: Layer, w: seq<real>, a: seq<real>, g: seq<real>, n: seq<real>, k: int, m: nat): real
    requires Operands(l, w, a, g, n) && 0 <= k < l.count && m <= l.outRows
  {
    if m == 0 then 0.0 else PairI(l, w, a, g, n, k, m - 1) + PairJ(l, w, a, g, n, k, m - 1, l.outCols)
  }

  function PairK(l: Layer, w: seq<real>, a: seq<real>, g: seq<real>, n: seq<real>, m: nat): real
    requires Operands(l, w, a, g, n) && m <= l.count
  {
    if m == 0 then 0.0 else PairK(l, w, a, g, n, m - 1) + PairI(l, w, a, g, n, m - 1, l.outRows)
  }

  // The inner product of the masked gradient with the convolution of a by w.
  function Pairing(l: Layer, w: seq<real>, a: seq<real>, g: seq<real>, n: seq<real>): real
    requires Operands(l, w, a, g, n)
  {
    PairK(l, w, a, g, n, l.count)
  }

  ghost predicate Backs(l: Layer, side: Side, f: seq<real>, g: seq<real>, n: seq<real>) {
    ValidLayer(l) && |f| == SizeOf(l, Other(side)) && |g| == |n| == OutSize(l)
  }

  ghost predicate GainJ(l: Layer, side: Side, f: seq<real>, g: seq<real>, n: seq<real>, k: int, i: int, m: nat,
                        was: seq<real>, acc: seq<real>)
    requires Backs(l, side, f, g, n) && 0 <= k < l.count && 0 <= i < l.outRows && m <= l.outCols
  {
    |was| == |acc| == SizeOf(l, side) &&
    forall u: seq<real> :: |u| == SizeOf(l, side) ==>
      Dot(acc, u) == Dot(was, u) + PairJ(l, Wt(side, u, f), Im(side, u, f), g, n, k, i, m)
  }

  ghost predicate GainI(l: Layer, side: Side, f: seq<real>, g: seq<real>, n: seq<real>, k: int, m: nat,
                        was: seq<real>, acc: seq<real>)
    requires Backs(l, side, f, g, n) && 0 <= k < l.count && m <= l.outRows
  {
    |was| == |acc| == SizeOf(l, side) &&
    forall u: seq<real> :: |u| == SizeOf(l, side) ==>
      Dot(acc, u) == Dot(was, u) + PairI(l, Wt(side, u, f), Im(side, u, f), g, n, k, m)
  }

  ghost predicate GainK(l: Layer, side: Side, f: seq<real>, g: seq<real>, n: seq<real>, m: nat, was: seq<real>,
                        acc: seq<real>)
    requires Backs(l, side, f, g, n) && m <= l.count
  {
    |was| == |acc| == SizeOf(l, side) &&
    forall u: seq<real> :: |u| == SizeOf(l, side) ==>
      Dot(acc, u) == Dot(was, u) + PairK(l, Wt(side, u, f), Im(side, u, f), g, n, m)
  }

  lemma GainNone(l: Layer, side: Side, f: seq<real>, g: seq<real>, n: seq<real>, acc: seq<real>)
    requires Backs(l, side, f, g, n) && |acc| == SizeOf(l, side)
    ensures GainK(l, side, f, g, n, 0, acc, acc)
    ensures forall k :: 0 <= k < l.count ==> GainI(l, side, f, g, n, k, 0, acc, acc)
    ensures forall k, i :: 0 <= k < l.count && 0 <= i < l.outRows ==> GainJ(l, side, f, g, n, k, i, 0, acc, acc)
  {
    hide ValidLayer, WSize, InSize, OutSize, Dot;
  }

  lemma StepJ(l: Layer, side: Side, f: seq<real>, g: seq<real>, n: seq<real>, k: int, i: int, j: nat, was: seq<real>,
              mid: seq<real>, acc: seq<real>)
    requires Backs(l, side, f, g, n) && 0 <= k < l.count && 0 <= i < l.outRows && j < l.outCols
    requires GainJ(l, side, f, g, n, k, i, j, was, mid)
    requires GrownY(l, side, f, k, i, j, l.kRows, Masked(l, g, n, k, i, j), mid, acc)
    ensures GainJ(l, side, f, g, n, k, i, j + 1, was, acc)
  {
    hide ValidLayer, WSize, InSize, OutSize, Dot, SumY, Masked;
    forall u: seq<real> | |u| == SizeOf(l, side)
      ensures Dot(acc, u) == Dot(was, u) + PairJ(l, Wt(side, u, f), Im(side, u, f), g, n, k, i, j + 1)
    {
    }
  }

  // A masked output contributes nothing.
  lemma MaskedOut(l: Layer, side: Side, f: seq<real>, g: seq<real>, n: seq<real>, k: int, i: int, j: nat,
                  acc: seq<real>)
    requires Backs(l, side, f, g, n) && 0 <= k < l.count && 0 <= i < l.outRows && j < l.outCols
             && |acc| == SizeOf(l, side)
    requires Masked(l, g, n, k, i, j) == 0.0
    ensures GrownY(l, side, f, k, i, j, l.kRows, Masked(l, g, n, k, i, j), acc, acc)
  {
    hide ValidLayer, WSize, InSize, OutSize, Dot, SumY, Masked;
  }

  lemma StepI(l: Layer, side: Side, f: seq<real>, g: seq<real>, n: seq<real>, k: int, i: nat, was: seq<real>,
              mid: seq<real>, acc: seq<real>)
    requires Backs(l, side, f, g, n) && 0 <= k < l.count && i < l.outRows
    requires GainI(l, side, f, g, n, k, i, was, mid) && GainJ(l, side, f, g, n, k, i, l.outCols, mid, acc)
    ensures GainI(l, side, f, g, n, k, i + 1, was, acc)
  {
    hide ValidLayer, WSize, InSize, OutSize, Dot, PairJ;
  }

  lemma StepK(l: Layer, side: Side, f: seq<real>, g: seq<real>, n: seq<real>, k: nat, was: seq<real>, mid: seq<real>,
              acc: seq<real>)
    requires Backs(l, side, f, g, n) && k < l.count
    requires GainK(l, side, f, g, n, k, was, mid) && GainI(l, side, f, g, n, k, l.outRows, mid, acc)
    ensures GainK(l, side, f, g, n, k + 1, was, acc)
  {
    hide ValidLayer, WSize, InSize, OutSize, Dot, PairI;
  }

  // The part of the bias gradient from the first i rows and j columns.
  function BiasSum(l: Layer, g: seq<real>, n: seq<real>, k: int, i: nat, j: nat): real
    requires |g| == |n| == OutSize(l) && 0 <= k < l.count && i <= l.outRows && j <= l.outCols
             && (i == l.outRows ==> j == 0)
    decreases i, j
  {
    if j > 0 then BiasSum(l, g, n, k, i, j - 1) + Masked(l, g, n, k, i, j - 1)
    else if i > 0 then BiasSum(l, g, n, k, i - 1, l.outCols)
    else 0.0
  }

  // The two outer loops over the outputs of kernel k.
  method BackwardKernel(l: Layer, side: Side, f: seq<real>, g: seq<real>, n: seq<real>, acc: array<real>, k: nat)
      returns (bias: real)
    requires Backs(l, side, f, g, n) && acc.Length == SizeOf(l, side) && k < l.count
    modifies acc
    ensures GainI(l, side, f, g, n, k, l.outRows, old(acc[..]), acc[..])
    ensures bias == BiasSum(l, g, n, k, l.outRows, 0)
  {
    hide ValidLayer, WSize, InSize, OutSize, ChPer, WIdx, InIdx, OutIdx, PartOf, CountPer, First, Max, GainI, GainJ,
      GrownY, SizeOf;
    ghost var was := acc[..];
    bias := 0.0;
    var p, chPer := PartOf(l, k), ChPer(l);
    var ap, layerW, gp := p * chPer, k * l.kRows * l.kCols * chPer, k;
    StartRow(l, ap);
    OutMove(l, 0, 0, k);
    GainNone(l, side, f, g, n, was);
    var i := 0;
    while i < l.outRows
      invariant 0 <= i <= l.outRows && gp == OutIdx(l, i, 0, k)
      invariant ap == p * chPer + l.cols * l.ch * Max(i * l.strides - l.border, 0)
      invariant GainI(l, side, f, g, n, k, i, was, acc[..])
      invariant bias == BiasSum(l, g, n, k, i, 0)
    {
      ghost var mid := acc[..];
      GainSize(l, side, f, g, n, k, i, was, mid);
      GainNone(l, side, f, g, n, mid);
      var comy := First(l, i) * (chPer * l.kCols);
      var j := 0;
      while j < l.outCols
        invariant 0 <= j <= l.outCols && GainJ(l, side, f, g, n, k, i, j, mid, acc[..])
        invariant bias == BiasSum(l, g, n, k, i, j)
      {
        ghost var now := acc[..];
        OutMove(l, i, j, k);
        OutBounds(l, i, j, k);
        if n[gp + j * l.count] > 0.0 {
          var v := g[gp + j * l.count];
          bias := bias + v;
          StartPointers(l, k, i, j);
          ScatterAt(l, side, f, acc, k, i, j, layerW + First(l, j) * chPer + comy,
                    ap + Max(j * l.strides - l.border, 0) * l.ch, v);
        } else {
          MaskedOut(l, side, f, g, n, k, i, j, now);
        }
        StepJ(l, side, f, g, n, k, i, j, mid, now, acc[..]);
        j := j + 1;
      }
      StepI(l, side, f, g, n, k, i, was, mid, acc[..]);
      OutMove(l, i, 0, k);
      gp := gp + l.outCols * l.count;
      AdvanceRow(l, i);
      ap := ap + l.cols * l.ch * (Max((i + 1) * l.strides - l.border, 0) - Max(i * l.strides - l.border, 0));
      i := i + 1;
    }
  }

  lemma GainSize(l: Layer, side: Side, f: seq<real>, g: seq<real>, n: seq<real>, k: int, m: nat, was: seq<real>,
                 acc: seq<real>)
    requires Backs(l, side, f, g, n) && 0 <= k < l.count && m <= l.outRows && GainI(l, side, f, g, n, k, m, was, acc)
    ensures |acc| == SizeOf(l, side)
  {
    hide ValidLayer;
  }

  // The gradients of the weights and of the biases are added to what is there.
  method WeightGradient(l: Layer, a: seq<real>, g: seq<real>, n: seq<real>, dw: array<real>, dbias: array<real>)
    requires Backs(l, Weights, a, g, n) && dw.Length == WSize(l) && dbias.Length == l.count && dw != dbias
    modifies dw, dbias
    ensures forall w: seq<real> :: |w| == WSize(l) ==> Dot(dw[..], w) == Dot(old(dw[..]), w) + Pairing(l, w, a, g, n)
    ensures forall k :: 0 <= k < l.count ==> dbias[k] == old(dbias[k]) + BiasSum(l, g, n, k, l.outRows, 0)
  {
    hide ValidLayer, WSize, InSize, OutSize, GainK, GainI, BiasSum;
    ghost var was := dw[..];
    GainNone(l, Weights, a, g, n, was);
    var k := 0;
    while k < l.count
      invariant 0 <= k <= l.count && GainK(l, Weights, a, g, n, k, was, dw[..])
      invariant forall m :: 0 <= m < k ==> dbias[m] == old(dbias[m]) + BiasSum(l, g, n, m, l.outRows, 0)
      invariant forall m :: k <= m < l.count ==> dbias[m] == old(dbias[m])
    {
      ghost var mid := dw[..];
      var bias := BackwardKernel(l, Weights, a, g, n, dw, k);
      StepK(l, Weights, a, g, n, k, was, mid, dw[..]);
      dbias[k] := dbias[k] + bias;
      k := k + 1;
    }
    GainAll(l, Weights, a, g, n, was, dw[..]);
  }

  lemma GainAll(l: Layer, side: Side, f: seq<real>, g: seq<real>, n: seq<real>, was: seq<real>, acc: seq<real>)
    requires Backs(l, side, f, g, n) && GainK(l, side, f, g, n, l.count, was, acc)
    ensures |was| == |acc| == SizeOf(l, side)
    ensures forall u: seq<real> :: |u| == SizeOf(l, side) ==>
              Dot(acc, u) == Dot(was, u) + Pairing(l, Wt(side, u, f), Im(side, u, f), g, n)
  {
    hide ValidLayer, WSize, InSize, OutSize, Dot, PairK;
  }

  // The gradient of the input, from a cleared buffer.
  method InputGradient(l: Layer, w: seq<real>, g: seq<real>, n: seq<real>, db: array<real>)
    requires Backs(l, Inputs, w, g, n) && db.Length == InSize(l)
    modifies db
    ensures forall x: seq<real> :: |x| == InSize(l) ==> Dot(db[..], x) == Pairing(l, w, x, g, n)
  {
    hide ValidLayer, WSize, InSize, OutSize, GainK, GainI, BiasSum;
    var z := 0;
    while z < db.Length
      invariant 0 <= z <= db.Length && forall q :: 0 <= q < z ==> db[q] == 0.0
    {
      db[z] := 0.0;
      z := z + 1;
    }
    ghost var was := db[..];
    GainNone(l, Inputs, w, g, n, was);
    var k := 0;
    while k < l.count
      invariant 0 <= k <= l.count && GainK(l, Inputs, w, g, n, k, was, db[..])
    {
      ghost var mid := db[..];
      var _ := BackwardKernel(l, Inputs, w, g, n, db, k);
      StepK(l, Inputs, w, g, n, k, was, mid, db[..]);
      k := k + 1;
    }
    GainAll(l, Inputs, w, g, n, was, db[..]);
    forall x: seq<real> | |x| == InSize(l)
      ensures Dot(db[..], x) == Pairing(l, w, x, g, n)
    {
      DotZero(was, x);
    }
  }

  // From cleared buffers, the pairing of the masked gradient with the forward
  // sums, of the weight gradient with the weights, and of the input gradient
  // with the input are one number.
  method Adjoint(l: Layer, w: seq<real>, a: seq<real>, g: seq<real>, n: seq<real>, dw: array<real>,
                 dbias: array<real>, db: array<real>)
    requires Operands(l, w, a, g, n) && dw.Length == WSize(l) && dbias.Length == l.count && db.Length == InSize(l)
    requires dw != dbias && dw != db && dbias != db && forall i :: 0 <= i < dw.Length ==> dw[i] == 0.0
    modifies dw, dbias, db
    ensures Dot(dw[..], w) == Pairing(l, w, a, g, n) == Dot(db[..], a)
  {
    hide ValidLayer, WSize, InSize, OutSize, Dot, Pairing, BiasSum;
    ghost var was := dw[..];
    WeightGradient(l, a, g, n, dw, dbias);
    DotZero(was, w);
    InputGradient(l, w, g, n, db);
  }
}
