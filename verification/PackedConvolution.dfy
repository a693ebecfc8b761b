/**
 The four-lane form of the forward convolution: weights repacked four kernels at
 a time, four accumulators per output, lanes computed together.
 */
module PackedConvolution {
  import opened Flat
  import opened Convolution

  // A vector register of four lanes.
  datatype V4 = V4(r0: real, r1: real, r2: real, r3: real)

  function Lane(v: V4, t: nat): real
    requires t < 4
  {
    if t == 0 then v.r0 else if t == 1 then v.r1 else if t == 2 then v.r2 else v.r3
  }

  function AddV(v: V4, w: V4): V4 { V4(v.r0 + w.r0, v.r1 + w.r1, v.r2 + w.r2, v.r3 + w.r3) }

  function MulAdd(v: V4, w: V4, x: real): V4 {
    V4(v.r0 + w.r0 * x, v.r1 + w.r1 * x, v.r2 + w.r2 * x, v.r3 + w.r3 * x)
  }

  const ZERO := V4(0.0, 0.0, 0.0, 0.0)

  function RectifyV(v: V4): V4 { V4(Rectify(v.r0), Rectify(v.r1), Rectify(v.r2), Rectify(v.r3)) }

  function LoadV(s: seq<real>, at: int): V4
    requires 0 <= at && at + 3 < |s|
  {
    V4(s[at], s[at + 1], s[at + 2], s[at + 3])
  }

  // ---- repacking ----

  ghost predicate Quads(l: Layer) { ValidLayer(l) && CountPer(l) % 4 == 0 }

  // Where the weight of lane t of the k-th quadruple of kernels goes.
  function PackedIdx(l: Layer, k: int, y: int, x: int, c: int, t: int): int { 4 * WIdx(l, k, y, x, c) + t }

  lemma CountQuads(l: Layer)
    requires Quads(l)
    ensures l.count % 4 == 0 && l.count == 4 * (l.count / 4)
  {
    var m := CountPer(l) / 4;
    assert l.count == l.partition * (4 * m) == 4 * (l.partition * m);
  }

  lemma PackedBounds(l: Layer, k: int, y: int, x: int, c: int, t: int)
    requires Quads(l) && 0 <= k < l.count / 4 && 0 <= y < l.kRows && 0 <= x < l.kCols && 0 <= c < ChPer(l) && 0 <= t < 4
    ensures 0 <= PackedIdx(l, k, y, x, c, t) < WSize(l)
    ensures 0 <= 4 * k + t < l.count
  {
    CountQuads(l);
    var q := l.(count := l.count / 4);
    assert ChPer(q) == ChPer(l);
    WBounds(q, k, y, x, c);
    assert WIdx(q, k, y, x, c) == WIdx(l, k, y, x, c);
    FourFold(l.count / 4, l.kRows, l.kCols, ChPer(l));
  }

  lemma FourFold(a: int, b: int, c: int, d: int)
    ensures 4 * (a * b * c * d) == (4 * a) * b * c * d
  {
    var p, q := a * b, a * b * c;
    assert (4 * a) * b == 4 * p;
    assert (4 * p) * c == 4 * q;
    assert (4 * q) * d == 4 * (q * d);
  }

  // No two weights share a place.
  lemma PackedInjective(l: Layer, k: int, y: int, x: int, c: int, t: int, k': int, y': int, x': int, c': int, t': int)
    requires 0 <= y < l.kRows && 0 <= x < l.kCols && 0 <= c < ChPer(l) && 0 <= t < 4
    requires 0 <= y' < l.kRows && 0 <= x' < l.kCols && 0 <= c' < ChPer(l) && 0 <= t' < 4
    requires PackedIdx(l, k, y, x, c, t) == PackedIdx(l, k', y', x', c', t')
    ensures k == k' && y == y' && x == x' && c == c' && t == t'
  {
    hide Row, ChPer;
    var m, n := Row(k, y, l.kRows), Row(k', y', l.kRows);
    RowInjective(Row(m, x, l.kCols), c, Row(n, x', l.kCols), c', ChPer(l));
    RowInjective(m, x, n, x', l.kCols);
    RowInjective(k, y, k', y', l.kRows);
  }

  // Every place holds a weight.
  lemma PackedOnto(l: Layer, e: int) returns (k: int, y: int, x: int, c: int, t: int)
    requires Quads(l) && 0 <= e < WSize(l)
    ensures 0 <= k < l.count / 4 && 0 <= y < l.kRows && 0 <= x < l.kCols && 0 <= c < ChPer(l) && 0 <= t < 4
    ensures e == PackedIdx(l, k, y, x, c, t)
  {
    hide Row, ChPer;
    CountQuads(l);
    FourFold(l.count / 4, l.kRows, l.kCols, ChPer(l));
    t := e % 4;
    var f, n := e / 4, l.count / 4;
    PositiveFactor(f, n * l.kRows * l.kCols, ChPer(l));
    var g;
    g, c := RowSplit(f, n * l.kRows * l.kCols, ChPer(l));
    PositiveFactor(g, n * l.kRows, l.kCols);
    var h;
    h, x := RowSplit(g, n * l.kRows, l.kCols);
    PositiveFactor(h, n, l.kRows);
    k, y := RowSplit(h, n, l.kRows);
  }

  // Each kernel weight sits in the lane of its kernel.
  ghost predicate Packed(l: Layer, w: seq<real>, sw: seq<real>) {
    Quads(l) && |w| == |sw| == WSize(l) &&
    forall k, y, x, c, t ::
      0 <= k < l.count / 4 && 0 <= y < l.kRows && 0 <= x < l.kCols && 0 <= c < ChPer(l) && 0 <= t < 4 ==>
      0 <= PackedIdx(l, k, y, x, c, t) < |sw| && 0 <= WIdx(l, 4 * k + t, y, x, c) < |w|
      && sw[PackedIdx(l, k, y, x, c, t)] == w[WIdx(l, 4 * k + t, y, x, c)]
  }

  // The size of one kernel's weights.
  function Block(l: Layer): nat { l.kRows * l.kCols * ChPer(l) }

  // Where the weight at place e comes from.
  function Source(l: Layer, e: int): int {
    if Block(l) == 0 then 0 else Row(4 * (e / 4 / Block(l)) + e % 4, e / 4 % Block(l), Block(l))
  }

  lemma DivRow(a: int, b: int, m: nat)
    requires 0 <= b < m
    ensures Row(a, b, m) / m == a && Row(a, b, m) % m == b
  {
    var e := Row(a, b, m);
    assert e == Row(e / m, e % m, m);
    RowInjective(e / m, e % m, a, b, m);
  }

  lemma SourceOf(l: Layer, k: int, r: int, t: int)
    requires 0 <= r < Block(l) && 0 <= t < 4
    ensures Source(l, 4 * Row(k, r, Block(l)) + t) == Row(4 * k + t, r, Block(l))
  {
    DivRow(k, r, Block(l));
  }

  // A weight's flat address, kernel by kernel.
  lemma WIdxBlock(l: Layer, k: int, y: int, x: int, c: int)
    ensures WIdx(l, k, y, x, c) == Row(k, Row(Row(y, x, l.kCols), c, ChPer(l)), Block(l))
  {
    var q := ChPer(l);
    var kr := k * l.kRows;
    assert (kr + y) * l.kCols == kr * l.kCols + y * l.kCols;
    assert (kr * l.kCols + (y * l.kCols + x)) * q == kr * l.kCols * q + (y * l.kCols + x) * q;
    assert kr * l.kCols * q == k * (l.kRows * l.kCols * q);
  }

  lemma RowInBlock(l: Layer, i: int, j: int)
    requires 0 <= i < l.kRows * l.kCols && 0 <= j < ChPer(l)
    ensures 0 <= Row(i, j, ChPer(l)) < Block(l)
  {
    RowBounds(i, j, l.kRows * l.kCols, ChPer(l));
  }

  // Position, kernel-quadruple by kernel-quadruple, of the next weight to place.
  function Place(l: Layer, k: int, i: int, j: int, c: int): int {
    4 * Row(k, Row(i, j, ChPer(l)), Block(l)) + c
  }

  lemma PlaceSteps(l: Layer, k: int, i: int, j: int)
    ensures Place(l, k, i, j, 4) == Place(l, k, i, j + 1, 0)
    ensures Place(l, k, i, ChPer(l), 0) == Place(l, k, i + 1, 0, 0)
    ensures Place(l, k, l.kRows * l.kCols, 0, 0) == Place(l, k + 1, 0, 0, 0)
    ensures Place(l, 0, 0, 0, 0) == 0
    ensures Place(l, k, 0, 0, 0) == 4 * (k * Block(l))
  {
    var n := l.kRows * l.kCols;
    assert (i + 1) * ChPer(l) == i * ChPer(l) + ChPer(l);
    assert (k + 1) * (n * ChPer(l)) == k * (n * ChPer(l)) + n * ChPer(l);
  }

  lemma PlaceEnd(l: Layer)
    requires Quads(l)
    ensures Place(l, l.count / 4, 0, 0, 0) == WSize(l)
  {
    CountQuads(l);
    PlaceSteps(l, l.count / 4, 0, 0);
    FourFold(l.count / 4, l.kRows, l.kCols, ChPer(l));
    var n := l.count / 4;
    assert n * l.kRows * l.kCols * ChPer(l) == n * (l.kRows * l.kCols * ChPer(l)) by {
      var b := l.kRows * l.kCols;
      assert n * l.kRows * l.kCols == n * b;
    }
  }

  // The place and the source address are inside the arrays.
  lemma PlaceBounds(l: Layer, k: int, i: int, j: int, c: int)
    requires Quads(l) && 0 <= k < l.count / 4 && 0 <= i < l.kRows * l.kCols && 0 <= j < ChPer(l) && 0 <= c < 4
    ensures 0 <= Place(l, k, i, j, c) < WSize(l)
    ensures 0 <= Row(4 * k + c, Row(i, j, ChPer(l)), Block(l)) < WSize(l)
    ensures Source(l, Place(l, k, i, j, c)) == Row(4 * k + c, Row(i, j, ChPer(l)), Block(l))
  {
    hide Row;
    CountQuads(l);
    RowInBlock(l, i, j);
    var r := Row(i, j, ChPer(l));
    RowBounds(k, r, l.count / 4, Block(l));
    RowBounds(4 * k + c, r, l.count, Block(l));
    SourceOf(l, k, r, c);
    PlaceEnd(l);
    PlaceSteps(l, l.count / 4, 0, 0);
    CountBlocks(l);
  }

  lemma CountBlocks(l: Layer)
    ensures l.count * Block(l) == WSize(l)
  {
    var b := l.kRows * l.kCols;
    assert l.count * l.kRows * l.kCols == l.count * b;
    assert l.count * b * ChPer(l) == l.count * (b * ChPer(l));
  }

  method Repack(l: Layer, w: seq<real>, sw: array<real>)
    requires Quads(l) && |w| == WSize(l) && sw.Length == WSize(l)
    modifies sw
    ensures Packed(l, w, sw[..])
  {
    hide Quads, Place, Source, Block, WSize, Row, ChPer;
    var k, chPer, n := 0, ChPer(l), l.kRows * l.kCols;
    PlaceSteps(l, 0, 0, 0);
    while k < l.count / 4
      invariant 0 <= k <= l.count / 4
      invariant forall e :: 0 <= e < Place(l, k, 0, 0, 0) && e < sw.Length ==>
                0 <= Source(l, e) < |w| && sw[e] == w[Source(l, e)]
    {
      var i := 0;
      while i < n
        invariant 0 <= i <= n
        invariant forall e :: 0 <= e < Place(l, k, i, 0, 0) && e < sw.Length ==>
                  0 <= Source(l, e) < |w| && sw[e] == w[Source(l, e)]
      {
        var j := 0;
        while j < chPer
          invariant 0 <= j <= chPer
          invariant forall e :: 0 <= e < Place(l, k, i, j, 0) && e < sw.Length ==>
                    0 <= Source(l, e) < |w| && sw[e] == w[Source(l, e)]
        {
          var c := 0;
          while c < 4
            invariant 0 <= c <= 4
            invariant forall e :: 0 <= e < Place(l, k, i, j, c) && e < sw.Length ==>
                      0 <= Source(l, e) < |w| && sw[e] == w[Source(l, e)]
          {
            PlaceBounds(l, k, i, j, c);
            PlaceFlat(l, k, i, j, c);
            sw[(k * l.kRows * l.kCols * chPer + i * chPer + j) * 4 + c] :=
                w[(k * 4 + c) * l.kRows * l.kCols * chPer + i * chPer + j];
            PlaceNext(l, k, i, j, c);
            c := c + 1;
          }
          PlaceSteps(l, k, i, j);
          j := j + 1;
        }
        PlaceSteps(l, k, i, j);
        i := i + 1;
      }
      PlaceSteps(l, k, i, 0);
      k := k + 1;
    }
    PlaceEnd(l);
    AllPlaced(l, w, sw[..]);
  }

  lemma PlaceNext(l: Layer, k: int, i: int, j: int, c: int)
    ensures Place(l, k, i, j, c + 1) == Place(l, k, i, j, c) + 1
  {
  }

  // The addresses as the source writes them.
  lemma PlaceFlat(l: Layer, k: int, i: int, j: int, c: int)
    ensures (k * l.kRows * l.kCols * ChPer(l) + i * ChPer(l) + j) * 4 + c == Place(l, k, i, j, c)
    ensures (k * 4 + c) * l.kRows * l.kCols * ChPer(l) + i * ChPer(l) + j ==
            Row(4 * k + c, Row(i, j, ChPer(l)), Block(l))
  {
    FlatBlock(k, l.kRows, l.kCols, ChPer(l));
    FlatBlock(4 * k + c, l.kRows, l.kCols, ChPer(l));
  }

  lemma FlatBlock(k: int, a: int, b: int, c: int)
    ensures k * a * b * c == k * (a * b * c)
  {
    var ab := a * b;
    assert k * a * b == k * ab;
    assert k * ab * c == k * (ab * c);
  }

  lemma AllPlaced(l: Layer, w: seq<real>, sw: seq<real>)
    requires Quads(l) && |w| == |sw| == WSize(l)
    requires forall e :: 0 <= e < |sw| ==> 0 <= Source(l, e) < |w| && sw[e] == w[Source(l, e)]
    ensures Packed(l, w, sw)
  {
    hide Row, Source, Block, WSize, ChPer, WIdx;
    forall k, y, x, c, t | 0 <= k < l.count / 4 && 0 <= y < l.kRows && 0 <= x < l.kCols && 0 <= c < ChPer(l)
        && 0 <= t < 4
      ensures 0 <= PackedIdx(l, k, y, x, c, t) < |sw| && 0 <= WIdx(l, 4 * k + t, y, x, c) < |w|
           && sw[PackedIdx(l, k, y, x, c, t)] == w[WIdx(l, 4 * k + t, y, x, c)]
    {
      PackedBounds(l, k, y, x, c, t);
      WBounds(l, 4 * k + t, y, x, c);
      WIdxBlock(l, k, y, x, c);
      WIdxBlock(l, 4 * k + t, y, x, c);
      var r := Row(Row(y, x, l.kCols), c, ChPer(l));
      RowBounds(y, x, l.kRows, l.kCols);
      RowInBlock(l, Row(y, x, l.kCols), c);
      SourceOf(l, k, r, t);
    }
  }

  // ---- four kernels at a time ----

  // The four lanes read the same group of channels.
  lemma SamePart(l: Layer, k: int, t: int)
    requires Quads(l) && 0 <= k < l.count / 4 && 0 <= t < 4
    ensures PartOf(l, 4 * k + t) == PartOf(l, 4 * k) && 0 <= 4 * k + t < l.count
  {
    CountQuads(l);
    SameQuotient(CountPer(l) / 4, k, t);
  }

  lemma SameQuotient(n: nat, k: nat, t: nat)
    requires n > 0 && t < 4
    ensures (4 * k + t) / (4 * n) == 4 * k / (4 * n)
  {
    hide Row;
    var q, r := Quotient(k, n);
    BlockQuotient(q, r, n, t);
    BlockQuotient(q, r, n, 0);
    assert 4 * (q * n + r) == 4 * k;
  }

  lemma BlockQuotient(q: nat, r: nat, n: nat, t: nat)
    requires r < n && t < 4
    ensures (4 * (q * n + r) + t) / (4 * n) == q
  {
    hide Row;
    RowFour(q, r, n, t);
    DivRow(q, 4 * r + t, 4 * n);
  }

  lemma Quotient(k: nat, n: nat) returns (q: nat, r: nat)
    requires n > 0
    ensures k == q * n + r && r < n
  {
    q, r := k / n, k % n;
  }

  lemma RowFour(q: int, r: int, n: int, t: int)
    ensures Row(q, 4 * r + t, 4 * n) == 4 * (q * n + r) + t
  {
    assert q * (4 * n) == 4 * (q * n);
  }

  // The operands of the packed pass.
  ghost predicate Packs(l: Layer, w: seq<real>, sw: seq<real>, a: seq<real>, k: int) {
    Packed(l, w, sw) && ValidLayer(l) && |w| == WSize(l) && |a| == InSize(l) && 0 <= k && 4 * k + 3 < l.count
  }

  // The textbook sums of kernels 4k .. 4k+3, lane by lane.
  ghost function SumC4(l: Layer, w: seq<real>, a: seq<real>, k: int, i: int, j: int, y: int, x: int, n: nat): V4
    requires ValidLayer(l) && |w| == WSize(l) && |a| == InSize(l)
    requires 0 <= k && 4 * k + 3 < l.count && 0 <= y < l.kRows && 0 <= x < l.kCols && n <= ChPer(l)
  {
    V4(SumC(l, w, a, 4 * k, i, j, y, x, n), SumC(l, w, a, 4 * k + 1, i, j, y, x, n),
       SumC(l, w, a, 4 * k + 2, i, j, y, x, n), SumC(l, w, a, 4 * k + 3, i, j, y, x, n))
  }

  ghost function SumX4(l: Layer, w: seq<real>, a: seq<real>, k: int, i: int, j: int, y: int, n: nat): V4
    requires ValidLayer(l) && |w| == WSize(l) && |a| == InSize(l)
    requires 0 <= k && 4 * k + 3 < l.count && 0 <= y < l.kRows && n <= l.kCols
  {
    V4(SumX(l, w, a, 4 * k, i, j, y, n), SumX(l, w, a, 4 * k + 1, i, j, y, n),
       SumX(l, w, a, 4 * k + 2, i, j, y, n), SumX(l, w, a, 4 * k + 3, i, j, y, n))
  }

  ghost function SumY4(l: Layer, w: seq<real>, a: seq<real>, k: int, i: int, j: int, n: nat): V4
    requires ValidLayer(l) && |w| == WSize(l) && |a| == InSize(l)
    requires 0 <= k && 4 * k + 3 < l.count && n <= l.kRows
  {
    V4(SumY(l, w, a, 4 * k, i, j, n), SumY(l, w, a, 4 * k + 1, i, j, n),
       SumY(l, w, a, 4 * k + 2, i, j, n), SumY(l, w, a, 4 * k + 3, i, j, n))
  }

  ghost function Conv4(l: Layer, w: seq<real>, a: seq<real>, k: int, i: int, j: int): V4
    requires ValidLayer(l) && |w| == WSize(l) && |a| == InSize(l) && 0 <= k && 4 * k + 3 < l.count
  {
    SumY4(l, w, a, k, i, j, l.kRows)
  }

  // The four accumulators added up.
  function Total(v0: V4, v1: V4, v2: V4, v3: V4): V4 { AddV(AddV(v0, v1), AddV(v2, v3)) }

  // Adding a product to any one accumulator adds it to the total.
  lemma TotalAdds(v0: V4, v1: V4, v2: V4, v3: V4, w: V4, x: real)
    ensures Total(MulAdd(v0, w, x), v1, v2, v3) == AddV(Total(v0, v1, v2, v3), MulAdd(ZERO, w, x))
    ensures Total(v0, MulAdd(v1, w, x), v2, v3) == AddV(Total(v0, v1, v2, v3), MulAdd(ZERO, w, x))
    ensures Total(v0, v1, MulAdd(v2, w, x), v3) == AddV(Total(v0, v1, v2, v3), MulAdd(ZERO, w, x))
    ensures Total(v0, v1, v2, MulAdd(v3, w, x)) == AddV(Total(v0, v1, v2, v3), MulAdd(ZERO, w, x))
  {
  }

  // The place of the running pointers when the inner loops start a kernel line.
  ghost predicate Pointing(l: Layer, k: int, i: int, j: int, y: int, wp: int, apz: int) {
    && wp == 4 * WIdx(l, k, First(l, i) + y, First(l, j), 0)
    && apz == InIdx(l, Max(i * l.strides - l.border, 0) + y, Max(j * l.strides - l.border, 0),
                    PartOf(l, 4 * k) * ChPer(l))
  }

  ghost predicate Inside(l: Layer, i: int, j: int, y: int, x: int) {
    && 0 <= y < Visible(l, i, l.kRows, l.rows) && 0 <= x < Visible(l, j, l.kCols, l.cols)
    && 0 <= First(l, i) + y < l.kRows && 0 <= First(l, j) + x < l.kCols
  }

  // One lane of one vector multiplication is one product of its kernel's sum.
  lemma LaneReads(l: Layer, w: seq<real>, sw: seq<real>, a: seq<real>, k: int, i: int, j: int, y: int, x: int,
                  c: int, t: int, wp: int, apz: int)
    requires Packs(l, w, sw, a, k) && Inside(l, i, j, y, x) && Pointing(l, k, i, j, y, wp, apz)
    requires 0 <= c < ChPer(l) && 0 <= t < 4
    ensures 0 <= wp + (x * ChPer(l) + c) * 4 + t < |sw| && 0 <= apz + x * l.ch + c < |a|
    ensures sw[wp + (x * ChPer(l) + c) * 4 + t] * a[apz + x * l.ch + c]
         == Product(l, w, a, 4 * k + t, i, j, First(l, i) + y, First(l, j) + x, c)
  {
    hide ValidLayer, WSize, InSize, ChPer, WIdx, InIdx, PartOf, CountPer, First, Visible, Max, Product, Row;
    SamePart(l, k, t);
    var at := WIdx(l, 4 * k + t, First(l, i) + y, First(l, j), 0);
    Reads(l, w, a, 4 * k + t, i, j, y, x, c, at, apz);
    WMove(l, k, First(l, i) + y, First(l, j), x, c);
    assert wp + (x * ChPer(l) + c) * 4 + t == PackedIdx(l, k, First(l, i) + y, First(l, j) + x, c, t);
  }

  // One vector multiplication extends all four sums by one channel.
  lemma VectorReads(l: Layer, w: seq<real>, sw: seq<real>, a: seq<real>, k: int, i: int, j: int, y: int, x: int,
                    c: nat, wp: int, apz: int)
    requires Packs(l, w, sw, a, k) && Inside(l, i, j, y, x) && Pointing(l, k, i, j, y, wp, apz) && c < ChPer(l)
    ensures 0 <= wp + (x * ChPer(l) + c) * 4 && wp + (x * ChPer(l) + c) * 4 + 3 < |sw| && 0 <= apz + x * l.ch + c < |a|
    ensures SumC4(l, w, a, k, i, j, First(l, i) + y, First(l, j) + x, c + 1)
         == AddV(SumC4(l, w, a, k, i, j, First(l, i) + y, First(l, j) + x, c),
                 MulAdd(ZERO, LoadV(sw, wp + (x * ChPer(l) + c) * 4), a[apz + x * l.ch + c]))
  {
    hide ValidLayer, WSize, InSize, ChPer, WIdx, InIdx, PartOf, CountPer, First, Visible, Max, Product, Row, Packed,
      Pointing;
    LaneReads(l, w, sw, a, k, i, j, y, x, c, 0, wp, apz);
    LaneReads(l, w, sw, a, k, i, j, y, x, c, 1, wp, apz);
    LaneReads(l, w, sw, a, k, i, j, y, x, c, 2, wp, apz);
    LaneReads(l, w, sw, a, k, i, j, y, x, c, 3, wp, apz);
  }

  lemma AddAgain(v: V4, w: V4, x: V4)
    ensures AddV(AddV(v, w), x) == AddV(v, AddV(w, x))
    ensures AddV(v, ZERO) == v
  {
  }

  // The channel loop, four channels a turn, and its tail of up to three.
  method Channels(l: Layer, ghost w: seq<real>, sw: seq<real>, a: seq<real>, k: nat, ghost i: nat, ghost j: nat,
                  ghost y: nat, x: nat,
                  wp: int, apz: int, u0: V4, u1: V4, u2: V4, u3: V4)
      returns (v0: V4, v1: V4, v2: V4, v3: V4)
    requires Packs(l, w, sw, a, k) && Inside(l, i, j, y, x) && Pointing(l, k, i, j, y, wp, apz)
    ensures Total(v0, v1, v2, v3)
         == AddV(Total(u0, u1, u2, u3), SumC4(l, w, a, k, i, j, First(l, i) + y, First(l, j) + x, ChPer(l)))
  {
    hide ValidLayer, WSize, InSize, ChPer, WIdx, InIdx, PartOf, CountPer, First, Visible, Max, Product, Row, Packed,
      Pointing;
    hide AddV, MulAdd, Total, SumC4, LoadV;
    var c: nat, chPer: int := 0, ChPer(l);
    v0, v1, v2, v3 := u0, u1, u2, u3;
    ghost var base := Total(u0, u1, u2, u3);
    NoChannels(l, w, a, k, i, j, First(l, i) + y, First(l, j) + x, base);
    while c < chPer - 3
      invariant 0 <= c <= chPer && c % 4 == 0
      invariant Total(v0, v1, v2, v3) == AddV(base, SumC4(l, w, a, k, i, j, First(l, i) + y, First(l, j) + x, c))
    {
      v0 := Step(l, w, sw, a, k, i, j, y, x, c, wp, apz, base, v0, v1, v2, v3, v0, 0);
      v1 := Step(l, w, sw, a, k, i, j, y, x, c + 1, wp, apz, base, v0, v1, v2, v3, v1, 1);
      v2 := Step(l, w, sw, a, k, i, j, y, x, c + 2, wp, apz, base, v0, v1, v2, v3, v2, 2);
      v3 := Step(l, w, sw, a, k, i, j, y, x, c + 3, wp, apz, base, v0, v1, v2, v3, v3, 3);
      c := c + 4;
    }
    if chPer % 4 == 3 {
      v0 := Step(l, w, sw, a, k, i, j, y, x, c, wp, apz, base, v0, v1, v2, v3, v0, 0);
      v1 := Step(l, w, sw, a, k, i, j, y, x, c + 1, wp, apz, base, v0, v1, v2, v3, v1, 1);
      v2 := Step(l, w, sw, a, k, i, j, y, x, c + 2, wp, apz, base, v0, v1, v2, v3, v2, 2);
    } else if chPer % 4 == 2 {
      v0 := Step(l, w, sw, a, k, i, j, y, x, c, wp, apz, base, v0, v1, v2, v3, v0, 0);
      v1 := Step(l, w, sw, a, k, i, j, y, x, c + 1, wp, apz, base, v0, v1, v2, v3, v1, 1);
    } else if chPer % 4 == 1 {
      v0 := Step(l, w, sw, a, k, i, j, y, x, c, wp, apz, base, v0, v1, v2, v3, v0, 0);
    }
  }

  lemma NoChannels(l: Layer, w: seq<real>, a: seq<real>, k: int, i: int, j: int, y: int, x: int, v: V4)
    requires ValidLayer(l) && |w| == WSize(l) && |a| == InSize(l)
    requires 0 <= k && 4 * k + 3 < l.count && 0 <= y < l.kRows && 0 <= x < l.kCols
    ensures AddV(v, SumC4(l, w, a, k, i, j, y, x, 0)) == v
  {
    hide ValidLayer, WSize, InSize, ChPer;
  }

  // One multiply-add into accumulator number m.
  method Step(l: Layer, ghost w: seq<real>, sw: seq<real>, a: seq<real>, k: nat, ghost i: nat, ghost j: nat,
              ghost y: nat, x: nat, c: nat,
              wp: int, apz: int, ghost base: V4, ghost v0: V4, ghost v1: V4, ghost v2: V4, ghost v3: V4, v: V4,
                  ghost m: nat)
      returns (r: V4)
    requires Packs(l, w, sw, a, k) && Inside(l, i, j, y, x) && Pointing(l, k, i, j, y, wp, apz) && c < ChPer(l)
    requires m < 4 && v == if m == 0 then v0 else if m == 1 then v1 else if m == 2 then v2 else v3
    requires Total(v0, v1, v2, v3) == AddV(base, SumC4(l, w, a, k, i, j, First(l, i) + y, First(l, j) + x, c))
    ensures Total(if m == 0 then r else v0, if m == 1 then r else v1, if m == 2 then r else v2,
                  if m == 3 then r else v3)
         == AddV(base, SumC4(l, w, a, k, i, j, First(l, i) + y, First(l, j) + x, c + 1))
  {
    hide ValidLayer, WSize, InSize, ChPer, WIdx, InIdx, PartOf, CountPer, First, Visible, Max, Product, Row, Packed,
      Pointing;
    hide AddV, MulAdd, Total, SumC4, LoadV;
    VectorReads(l, w, sw, a, k, i, j, y, x, c, wp, apz);
    var w4, x4 := LoadV(sw, wp + (x * ChPer(l) + c) * 4), a[apz + x * l.ch + c];
    r := MulAdd(v, w4, x4);
    TotalAdds(v0, v1, v2, v3, w4, x4);
    AddAgain(base, SumC4(l, w, a, k, i, j, First(l, i) + y, First(l, j) + x, c), MulAdd(ZERO, w4, x4));
  }

  // Columns and lines outside the clipped range add nothing to any lane.
  lemma DarkX4(l: Layer, w: seq<real>, a: seq<real>, k: int, i: int, j: int, y: int, m: nat, n: nat)
    requires ValidLayer(l) && |w| == WSize(l) && |a| == InSize(l)
    requires 0 <= k && 4 * k + 3 < l.count && 0 <= y < l.kRows && m <= n <= l.kCols
    requires OffImage(l, j, l.kCols, l.cols, m, n)
    ensures SumX4(l, w, a, k, i, j, y, n) == SumX4(l, w, a, k, i, j, y, m)
    ensures SumX4(l, w, a, k, i, j, y, 0) == ZERO
  {
    hide ValidLayer, WSize, InSize, OffImage, SumX;
    forall z | 4 * k <= z <= 4 * k + 3
      ensures SumX(l, w, a, z, i, j, y, n) == SumX(l, w, a, z, i, j, y, m)
      ensures SumX(l, w, a, z, i, j, y, 0) == 0.0
    {
      DarkX(l, w, a, z, i, j, y, m, n);
      EmptySumX(l, w, a, z, i, j, y);
    }
  }

  lemma DarkY4(l: Layer, w: seq<real>, a: seq<real>, k: int, i: int, j: int, m: nat, n: nat)
    requires ValidLayer(l) && |w| == WSize(l) && |a| == InSize(l)
    requires 0 <= k && 4 * k + 3 < l.count && m <= n <= l.kRows
    requires OffImage(l, i, l.kRows, l.rows, m, n)
    ensures SumY4(l, w, a, k, i, j, n) == SumY4(l, w, a, k, i, j, m)
    ensures SumY4(l, w, a, k, i, j, 0) == ZERO
  {
    hide ValidLayer, WSize, InSize, OffImage, SumX;
    forall z | 4 * k <= z <= 4 * k + 3
      ensures SumY(l, w, a, z, i, j, n) == SumY(l, w, a, z, i, j, m)
      ensures SumY(l, w, a, z, i, j, 0) == 0.0
    {
      DarkY(l, w, a, z, i, j, m, n);
    }
  }

  lemma Nothing4(l: Layer, w: seq<real>, a: seq<real>, k: int, i: int, j: int)
    requires ValidLayer(l) && |w| == WSize(l) && |a| == InSize(l) && 0 <= k && 4 * k + 3 < l.count
    requires Visible(l, i, l.kRows, l.rows) <= 0 || Visible(l, j, l.kCols, l.cols) <= 0
    ensures Conv4(l, w, a, k, i, j) == ZERO
  {
    hide ValidLayer, WSize, InSize, Visible, SumY;
    forall z | 4 * k <= z <= 4 * k + 3
      ensures Conv(l, w, a, z, i, j) == 0.0
    {
      NothingVisible(l, w, a, z, i, j);
    }
    assert Conv(l, w, a, 4 * k, i, j) == 0.0 && Conv(l, w, a, 4 * k + 1, i, j) == 0.0;
    assert Conv(l, w, a, 4 * k + 2, i, j) == 0.0 && Conv(l, w, a, 4 * k + 3, i, j) == 0.0;
  }

  lemma NextColumn(l: Layer, w: seq<real>, a: seq<real>, k: int, i: int, j: int, y: int, n: nat)
    requires ValidLayer(l) && |w| == WSize(l) && |a| == InSize(l)
    requires 0 <= k && 4 * k + 3 < l.count && 0 <= y < l.kRows && n < l.kCols
    ensures SumX4(l, w, a, k, i, j, y, n + 1) ==
            AddV(SumX4(l, w, a, k, i, j, y, n), SumC4(l, w, a, k, i, j, y, n, ChPer(l)))
  {
    hide ValidLayer, WSize, InSize, ChPer, SumC;
  }

  lemma NextLine(l: Layer, w: seq<real>, a: seq<real>, k: int, i: int, j: int, n: nat)
    requires ValidLayer(l) && |w| == WSize(l) && |a| == InSize(l)
    requires 0 <= k && 4 * k + 3 < l.count && n < l.kRows
    ensures SumY4(l, w, a, k, i, j, n + 1) == AddV(SumY4(l, w, a, k, i, j, n), SumX4(l, w, a, k, i, j, n, l.kCols))
  {
    hide ValidLayer, WSize, InSize, SumX;
  }

  // The running pointers move on by one kernel line.
  lemma PointersMove(l: Layer, k: int, i: int, j: int, y: int, wp: int, apz: int)
    requires Pointing(l, k, i, j, y, wp, apz)
    ensures Pointing(l, k, i, j, y + 1, wp + l.kCols * ChPer(l) * 4, apz + l.cols * l.ch)
  {
    hide ChPer, WIdx, InIdx, PartOf, First, Max;
    WMove(l, k, First(l, i) + y, First(l, j), 0, 0);
    InMove(l, Max(i * l.strides - l.border, 0) + y, Max(j * l.strides - l.border, 0), PartOf(l, 4 * k) * ChPer(l), 0,
           0);
  }

  // The columns of one visible kernel line.
  method Columns(l: Layer, ghost w: seq<real>, sw: seq<real>, a: seq<real>, k: nat, ghost i: nat, j: nat, ghost y: nat,
                 wp: int, apz: int, u0: V4, u1: V4, u2: V4, u3: V4)
      returns (v0: V4, v1: V4, v2: V4, v3: V4)
    requires Packs(l, w, sw, a, k) && y < Visible(l, i, l.kRows, l.rows) && Pointing(l, k, i, j, y, wp, apz)
    requires 0 <= First(l, i) + y < l.kRows
    ensures Visible(l, j, l.kCols, l.cols) > 0 ==>
              Total(v0, v1, v2, v3) == AddV(Total(u0, u1, u2, u3), SumX4(l, w, a, k, i, j, First(l, i) + y, l.kCols))
    ensures Visible(l, j, l.kCols, l.cols) <= 0 ==> Total(v0, v1, v2, v3) == Total(u0, u1, u2, u3)
  {
    hide ValidLayer, WSize, InSize, ChPer, WIdx, InIdx, PartOf, CountPer, First, Visible, Max, Row, Packed, Pointing;
    hide AddV, MulAdd, Total, SumC4, SumX4, LoadV;
    v0, v1, v2, v3 := u0, u1, u2, u3;
    var x, maxx := 0, Visible(l, j, l.kCols, l.cols);
    ghost var comx, base, line := First(l, j), Total(u0, u1, u2, u3), First(l, i) + y;
    if maxx > 0 {
      ClipInside(l, j, l.kCols, l.cols);
      DarkX4(l, w, a, k, i, j, line, 0, comx);
      AddAgain(base, ZERO, ZERO);
    }
    while x < maxx
      invariant 0 <= x && (maxx > 0 ==> x <= maxx)
      invariant if maxx > 0 then Total(v0, v1, v2, v3) == AddV(base, SumX4(l, w, a, k, i, j, line, comx + x))
                else Total(v0, v1, v2, v3) == base
    {
      v0, v1, v2, v3 := Channels(l, w, sw, a, k, i, j, y, x, wp, apz, v0, v1, v2, v3);
      NextColumn(l, w, a, k, i, j, line, comx + x);
      AddAgain(base, SumX4(l, w, a, k, i, j, line, comx + x), SumC4(l, w, a, k, i, j, line, comx + x, ChPer(l)));
      x := x + 1;
    }
    if maxx > 0 { DarkX4(l, w, a, k, i, j, line, comx + x, l.kCols); }
  }

  // Outputs (i, j) of four kernels at once, before the rectifier.
  method ConvolveAt4(l: Layer, ghost w: seq<real>, sw: seq<real>, a: seq<real>, k: nat, i: nat, j: nat, wp0: int,
                     apz0: int, bias: V4) returns (v: V4)
    requires Packs(l, w, sw, a, k) && Pointing(l, k, i, j, 0, wp0, apz0)
    ensures v == AddV(bias, Conv4(l, w, a, k, i, j))
  {
    hide ValidLayer, WSize, InSize, ChPer, WIdx, InIdx, PartOf, CountPer, First, Visible, Max, Row, Packed, Pointing;
    hide AddV, MulAdd, Total, SumY4, SumX4, LoadV;
    var v0, v1, v2, v3 := bias, ZERO, ZERO, ZERO;
    StartTotal(bias);
    var maxy := Visible(l, i, l.kRows, l.rows);
    ghost var maxx, comy := Visible(l, j, l.kCols, l.cols), First(l, i);
    var wp, apz, y := wp0, apz0, 0;
    AddAgain(bias, ZERO, ZERO);
    if maxy > 0 {
      ClipInside(l, i, l.kRows, l.rows);
      DarkY4(l, w, a, k, i, j, 0, comy);
    }
    while y < maxy
      invariant 0 <= y && (maxy > 0 ==> y <= maxy) && Pointing(l, k, i, j, y, wp, apz)
      invariant if maxy > 0 && maxx > 0 then Total(v0, v1, v2, v3) == AddV(bias, SumY4(l, w, a, k, i, j, comy + y))
                else Total(v0, v1, v2, v3) == bias
    {
      v0, v1, v2, v3 := Columns(l, w, sw, a, k, i, j, y, wp, apz, v0, v1, v2, v3);
      if maxx > 0 {
        NextLine(l, w, a, k, i, j, comy + y);
        AddAgain(bias, SumY4(l, w, a, k, i, j, comy + y), SumX4(l, w, a, k, i, j, comy + y, l.kCols));
      }
      PointersMove(l, k, i, j, y, wp, apz);
      wp := wp + l.kCols * ChPer(l) * 4;
      apz := apz + l.cols * l.ch;
      y := y + 1;
    }
    if maxy > 0 && maxx > 0 {
      DarkY4(l, w, a, k, i, j, comy + y, l.kRows);
    } else {
      Nothing4(l, w, a, k, i, j);
    }
    v := AddV(AddV(v0, v1), AddV(v2, v3));
    TotalIs(v0, v1, v2, v3);
  }

  lemma StartTotal(v: V4)
    ensures Total(v, ZERO, ZERO, ZERO) == v
  {
  }

  lemma TotalIs(v0: V4, v1: V4, v2: V4, v3: V4)
    ensures Total(v0, v1, v2, v3) == AddV(AddV(v0, v1), AddV(v2, v3))
  {
  }

  // ---- the whole layer ----

  // Outputs of kernels 4k .. 4k+3 at (i, j) are the rectified sums.
  ghost predicate Stored(l: Layer, w: seq<real>, bias: seq<real>, a: seq<real>, db: seq<real>, k: int, i: int, j: int)
    requires ValidLayer(l) && |w| == WSize(l) && |a| == InSize(l) && |bias| == l.count && 0 <= k && 4 * k + 3 < l.count
  {
    0 <= OutIdx(l, i, j, 4 * k) && OutIdx(l, i, j, 4 * k) + 3 < |db|
    && LoadV(db, OutIdx(l, i, j, 4 * k)) == RectifyV(AddV(LoadV(bias, 4 * k), Conv4(l, w, a, k, i, j)))
  }

  ghost predicate Filled4(l: Layer, w: seq<real>, bias: seq<real>, a: seq<real>, db: seq<real>, k: int, i: int, j: int)
    requires Quads(l) && |w| == WSize(l) && |a| == InSize(l) && |bias| == l.count
  {
    |db| == OutSize(l) &&
    forall k', i', j' ::
      0 <= k' < l.count / 4 && 0 <= i' < l.outRows && 0 <= j' < l.outCols && Before(k', i', j', k, i, j) ==>
      Stored(l, w, bias, a, db, k', i', j')
  }

  // Where the vector for (i, j) is stored, and that no other vector meets it.
  lemma QuadBounds(l: Layer, k: int, i: int, j: int)
    requires Quads(l) && 0 <= k < l.count / 4 && 0 <= i < l.outRows && 0 <= j < l.outCols
    ensures 0 <= OutIdx(l, i, j, 4 * k) && OutIdx(l, i, j, 4 * k) + 3 < OutSize(l)
    ensures 4 * k + 3 < l.count
  {
    CountQuads(l);
    OutBounds(l, i, j, 4 * k);
    OutBounds(l, i, j, 4 * k + 3);
  }

  lemma QuadApart(l: Layer, k: int, i: int, j: int, k': int, i': int, j': int, t: int, t': int)
    requires Quads(l) && 0 <= k < l.count / 4 && 0 <= j < l.outCols && 0 <= k' < l.count / 4 && 0 <= j' < l.outCols
    requires 0 <= t < 4 && 0 <= t' < 4 && OutIdx(l, i, j, 4 * k) + t == OutIdx(l, i', j', 4 * k') + t'
    ensures k == k' && i == i' && j == j'
  {
    CountQuads(l);
    OutInjective(l, i, j, 4 * k + t, i', j', 4 * k' + t');
  }

  function StoreV(s: seq<real>, at: int, v: V4): (r: seq<real>)
    requires 0 <= at && at + 3 < |s|
    ensures |r| == |s|
  {
    s[at := v.r0][at + 1 := v.r1][at + 2 := v.r2][at + 3 := v.r3]
  }

  lemma LoadStored(s: seq<real>, at: int, v: V4, other: int)
    requires 0 <= at && at + 3 < |s| && 0 <= other && other + 3 < |s|
    ensures LoadV(StoreV(s, at, v), at) == v
    ensures other + 3 < at || at + 3 < other ==> LoadV(StoreV(s, at, v), other) == LoadV(s, other)
  {
  }

  lemma Filled4Step(l: Layer, w: seq<real>, bias: seq<real>, a: seq<real>, db: seq<real>, k: int, i: int, j: int)
    requires Quads(l) && |w| == WSize(l) && |a| == InSize(l) && |bias| == l.count
    requires 0 <= k < l.count / 4 && 0 <= i < l.outRows && 0 <= j < l.outCols && Filled4(l, w, bias, a, db, k, i, j)
    ensures 4 * k + 3 < l.count && 0 <= OutIdx(l, i, j, 4 * k) && OutIdx(l, i, j, 4 * k) + 3 < |db|
    ensures Filled4(l, w, bias, a,
                    StoreV(db, OutIdx(l, i, j, 4 * k), RectifyV(AddV(LoadV(bias, 4 * k), Conv4(l, w, a, k, i, j)))),
                        k, i, j + 1)
  {
    hide ValidLayer, WSize, InSize, OutSize, OutIdx, Conv4, RectifyV, AddV, LoadV, StoreV, CountPer;
    QuadBounds(l, k, i, j);
    var at, v := OutIdx(l, i, j, 4 * k), RectifyV(AddV(LoadV(bias, 4 * k), Conv4(l, w, a, k, i, j)));
    LoadStored(db, at, v, at);
    forall k', i', j' | 0 <= k' < l.count / 4 && 0 <= i' < l.outRows && 0 <= j' < l.outCols
        && Before(k', i', j', k, i, j)
      ensures Stored(l, w, bias, a, StoreV(db, at, v), k', i', j')
    {
      assert Stored(l, w, bias, a, db, k', i', j');
      var other := OutIdx(l, i', j', 4 * k');
      LoadStored(db, at, v, other);
      if !(other + 3 < at || at + 3 < other) {
        QuadApart(l, k, i, j, k', i', j', if at < other then other - at else 0, if at < other then 0 else at - other);
      }
    }
  }

  method StoreLanes(db: array<real>, at: int, v: V4)
    requires 0 <= at && at + 3 < db.Length
    modifies db
    ensures db[..] == StoreV(old(db[..]), at, v)
  {
    db[at], db[at + 1], db[at + 2], db[at + 3] := v.r0, v.r1, v.r2, v.r3;
  }

  lemma StartPointers4(l: Layer, k: int, i: int, j: int, layerW: int, comy: int, ap: int, wp: int, apz: int)
    requires Quads(l) && 0 <= k < l.count / 4
    requires layerW == k * 4 * l.kRows * l.kCols * ChPer(l) && comy == First(l, i) * (ChPer(l) * l.kCols)
    requires ap == PartOf(l, k * 4) * ChPer(l) + l.cols * l.ch * Max(i * l.strides - l.border, 0)
    requires wp == layerW + (First(l, j) * ChPer(l) + comy) * 4 && apz == ap + Max(j * l.strides - l.border, 0) * l.ch
    ensures Pointing(l, k, i, j, 0, wp, apz)
  {
    hide ChPer, First, PartOf, Max, Quads;
    StartPointers(l, k, i, j);
    StartPointers(l, 4 * k, i, j);
    FlatBlock(k * 4, l.kRows, l.kCols, ChPer(l));
    FlatBlock(k, l.kRows, l.kCols, ChPer(l));
    assert k * 4 * (l.kRows * l.kCols * ChPer(l)) == 4 * (k * (l.kRows * l.kCols * ChPer(l)));
  }

  // The packed pass computes what the plain one does.
  method ForwardLanes(l: Layer, ghost w: seq<real>, sw: seq<real>, bias: seq<real>, a: seq<real>, db: array<real>)
    requires Packed(l, w, sw) && |a| == InSize(l) && |bias| == l.count && db.Length == OutSize(l)
    modifies db
    ensures forall k, i, j :: 0 <= k < l.count && 0 <= i < l.outRows && 0 <= j < l.outCols ==>
              0 <= OutIdx(l, i, j, k) < db.Length && db[OutIdx(l, i, j, k)] == Rectify(bias[k] + Conv(l, w, a, k, i, j))
  {
    hide ValidLayer, WSize, InSize, ChPer, WIdx, InIdx, OutIdx, OutSize, PartOf, CountPer, First, Max, Filled4, Conv4,
      Conv, Pointing;
    hide Packed, RectifyV, AddV, LoadV, StoreV, Rectify;
    PackedMeans(l, w, sw);
    var k := 0;
    Filled4Start(l, w, bias, a, db[..]);
    while k < l.count / 4
      invariant 0 <= k <= l.count / 4 && Filled4(l, w, bias, a, db[..], k, 0, 0)
    {
      var p, chPer := PartOf(l, k * 4), ChPer(l);
      var ap, bp, layerW := p * chPer, k * 4, k * 4 * l.kRows * l.kCols * chPer;
      var bias4 := LoadV(bias, k * 4);
      var i := 0;
      OutMove(l, 0, 0, k * 4);
      StartRow(l, ap);
      while i < l.outRows
        invariant 0 <= i <= l.outRows && bp == OutIdx(l, i, 0, 4 * k)
        invariant ap == p * chPer + l.cols * l.ch * Max(i * l.strides - l.border, 0)
        invariant Filled4(l, w, bias, a, db[..], k, i, 0)
      {
        var comy := First(l, i) * (chPer * l.kCols);
        var j := 0;
        while j < l.outCols
          invariant 0 <= j <= l.outCols && Filled4(l, w, bias, a, db[..], k, i, j)
        {
          var wp := layerW + (First(l, j) * chPer + comy) * 4;
          var apz := ap + Max(j * l.strides - l.border, 0) * l.ch;
          StartPointers4(l, k, i, j, layerW, comy, ap, wp, apz);
          var v := ConvolveAt4(l, w, sw, a, k, i, j, wp, apz, bias4);
          Filled4Step(l, w, bias, a, db[..], k, i, j);
          OutMove(l, i, j, 4 * k);
          StoreLanes(db, bp + j * l.count, RectifyV(v));
          j := j + 1;
        }
        Filled4Row(l, w, bias, a, db[..], k, i);
        OutMove(l, i, 0, 4 * k);
        bp := bp + l.outCols * l.count;
        AdvanceRow(l, i);
        ap := ap + l.cols * l.ch * (Max((i + 1) * l.strides - l.border, 0) - Max(i * l.strides - l.border, 0));
        i := i + 1;
      }
      Filled4Quad(l, w, bias, a, db[..], k);
      k := k + 1;
    }
    Filled4End(l, w, bias, a, db[..]);
  }

  lemma PackedMeans(l: Layer, w: seq<real>, sw: seq<real>)
    requires Packed(l, w, sw)
    ensures Quads(l) && |w| == |sw| == WSize(l) && 4 * (l.count / 4) == l.count
  {
    CountQuads(l);
  }

  lemma Filled4Start(l: Layer, w: seq<real>, bias: seq<real>, a: seq<real>, db: seq<real>)
    requires Quads(l) && |w| == WSize(l) && |a| == InSize(l) && |bias| == l.count && |db| == OutSize(l)
    ensures Filled4(l, w, bias, a, db, 0, 0, 0)
  {
    hide ValidLayer, WSize, InSize, OutSize, Stored;
  }

  lemma Filled4Row(l: Layer, w: seq<real>, bias: seq<real>, a: seq<real>, db: seq<real>, k: int, i: int)
    requires Quads(l) && |w| == WSize(l) && |a| == InSize(l) && |bias| == l.count
             && Filled4(l, w, bias, a, db, k, i, l.outCols)
    ensures Filled4(l, w, bias, a, db, k, i + 1, 0)
  {
    hide ValidLayer, WSize, InSize, OutSize, Stored;
  }

  lemma Filled4Quad(l: Layer, w: seq<real>, bias: seq<real>, a: seq<real>, db: seq<real>, k: int)
    requires Quads(l) && |w| == WSize(l) && |a| == InSize(l) && |bias| == l.count
             && Filled4(l, w, bias, a, db, k, l.outRows, 0)
    ensures Filled4(l, w, bias, a, db, k + 1, 0, 0)
  {
    hide ValidLayer, WSize, InSize, OutSize, Stored;
  }

  lemma Filled4End(l: Layer, w: seq<real>, bias: seq<real>, a: seq<real>, db: seq<real>)
    requires Quads(l) && |w| == WSize(l) && |a| == InSize(l) && |bias| == l.count
             && Filled4(l, w, bias, a, db, l.count / 4, 0, 0)
    ensures forall k, i, j :: 0 <= k < l.count && 0 <= i < l.outRows && 0 <= j < l.outCols ==>
              0 <= OutIdx(l, i, j, k) < |db| && db[OutIdx(l, i, j, k)] == Rectify(bias[k] + Conv(l, w, a, k, i, j))
  {
    hide ValidLayer, WSize, InSize, OutSize, OutIdx, Rectify, CountPer, SumY, Stored;
    forall k, i, j | 0 <= k < l.count && 0 <= i < l.outRows && 0 <= j < l.outCols
      ensures 0 <= OutIdx(l, i, j, k) < |db| && db[OutIdx(l, i, j, k)] == Rectify(bias[k] + Conv(l, w, a, k, i, j))
    {
      CountQuads(l);
      assert Before(k / 4, i, j, l.count / 4, 0, 0);
      StoredLane(l, w, bias, a, db, k / 4, i, j, k % 4);
    }
  }

  // A stored vector, lane by lane.
  lemma StoredLane(l: Layer, w: seq<real>, bias: seq<real>, a: seq<real>, db: seq<real>, k: int, i: int, j: int, t: int)
    requires Quads(l) && |w| == WSize(l) && |a| == InSize(l) && |bias| == l.count && 0 <= k < l.count / 4 && 0 <= t < 4
    requires 0 <= i < l.outRows && 0 <= j < l.outCols && Stored(l, w, bias, a, db, k, i, j)
    ensures 0 <= OutIdx(l, i, j, 4 * k + t) < |db|
    ensures db[OutIdx(l, i, j, 4 * k + t)] == Rectify(bias[4 * k + t] + Conv(l, w, a, 4 * k + t, i, j))
  {
    hide ValidLayer, WSize, InSize, OutSize, Rectify, CountPer, Conv, Row;
    QuadBounds(l, k, i, j);
    NextLane(Row(i, j, l.outCols), 4 * k, l.count, t);
    LaneConv(l, w, a, k, i, j, t);
  }

  lemma NextLane(a: int, b: int, m: int, t: int)
    ensures Row(a, b + t, m) == Row(a, b, m) + t
  {
  }

  lemma LaneConv(l: Layer, w: seq<real>, a: seq<real>, k: int, i: int, j: int, t: int)
    requires ValidLayer(l) && |w| == WSize(l) && |a| == InSize(l) && 0 <= k && 4 * k + 3 < l.count && 0 <= t < 4
    ensures Lane(Conv4(l, w, a, k, i, j), t) == Conv(l, w, a, 4 * k + t, i, j)
  {
    hide ValidLayer, WSize, InSize, SumY;
  }
}
