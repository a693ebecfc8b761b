/**
 Hysteresis of the Canny edge detector: non-maximum suppression with suppressed
 seeding into a bordered map, a flood fill from an explicit stack, and the
 connected components the two together must mark.
 */
module Canny {
  import opened Ints

  datatype Pixel = Pixel(i: int, j: int)

  // The two derivatives of an image, row by row.
  datatype Gradient = Gradient(rows: nat, cols: nat, dx: seq<int>, dy: seq<int>)

  ghost predicate ValidGradient(g: Gradient) {
    g.rows > 0 && g.cols > 0 && |g.dx| == |g.dy| == g.rows * g.cols
  }

  // ---- flat indices ----

  function Flat(g: Gradient, i: int, j: int): int { i * g.cols + j }

  // The map has a border one cell wide.
  function Pos(g: Gradient, p: Pixel): int { (p.i + 1) * (g.cols + 2) + (p.j + 1) }

  function MapSize(g: Gradient): nat { (g.rows + 2) * (g.cols + 2) }

  predicate InGrid(g: Gradient, p: Pixel) { 0 <= p.i < g.rows && 0 <= p.j < g.cols }

  predicate InFrame(g: Gradient, p: Pixel) { -1 <= p.i <= g.rows && -1 <= p.j <= g.cols }

  lemma MulMono(a: int, b: int, m: nat)
    requires a <= b
    ensures a * m <= b * m
  {
    assert (b - a) * m == b * m - a * m;
    assert (b - a) * m >= 0;
  }

  lemma FlatInRange(g: Gradient, i: int, j: int)
    requires 0 <= i < g.rows && 0 <= j < g.cols
    ensures 0 <= Flat(g, i, j) < g.rows * g.cols
  {
    MulMono(0, i, g.cols);
    MulMono(i + 1, g.rows, g.cols);
    assert (i + 1) * g.cols == i * g.cols + g.cols;
  }

  lemma PosInRange(g: Gradient, p: Pixel)
    requires InFrame(g, p)
    ensures 0 <= Pos(g, p) < MapSize(g)
  {
    var w := g.cols + 2;
    MulMono(0, p.i + 1, w);
    MulMono(p.i + 2, g.rows + 2, w);
    assert (p.i + 2) * w == (p.i + 1) * w + w;
  }

  lemma PosDistinct(g: Gradient, p: Pixel, q: Pixel)
    requires InFrame(g, p) && InFrame(g, q) && p != q
    ensures Pos(g, p) != Pos(g, q)
  {
    var w := g.cols + 2;
    if p.i < q.i {
      MulMono(p.i + 2, q.i + 1, w);
      assert (p.i + 2) * w == (p.i + 1) * w + w;
    } else if q.i < p.i {
      MulMono(q.i + 2, p.i + 1, w);
      assert (q.i + 2) * w == (q.i + 1) * w + w;
    }
  }

  // Moving in the map is adding a multiple of its width.
  lemma PosMove(g: Gradient, p: Pixel, di: int, dj: int)
    ensures Pos(g, Pixel(p.i + di, p.j + dj)) == Pos(g, p) + di * (g.cols + 2) + dj
  {
    var w := g.cols + 2;
    assert (p.i + di + 1) * w == (p.i + 1) * w + di * w;
  }

  // ---- edge candidates ----

  function Abs(x: int): nat { if x < 0 then -x else x }

  // The gradient magnitude, zero outside the image.
  function Magnitude(g: Gradient, i: int, j: int): int
    requires ValidGradient(g)
  {
    if 0 <= i < g.rows && 0 <= j < g.cols then
      FlatInRange(g, i, j);
      Abs(g.dx[Flat(g, i, j)]) + Abs(g.dy[Flat(g, i, j)])
    else 0
  }

  // tan(22.5 degrees) in fifteen fractional bits.
  const TAN22: int := 13573

  const ONE: int := 32768

  // The direction of a gradient: along the row, along the column, or between.
  datatype Sector = AlongRow | AlongColumn | Diagonal

  function SectorOf(x: nat, y: nat): Sector {
    var tg22x := x * TAN22;
    var tg67x := tg22x + (x + x) * ONE;
    var ys := y * ONE;
    if ys < tg22x then AlongRow else if ys > tg67x then AlongColumn else Diagonal
  }

  // The same with each product and sum in an int.
  function IntSector(x: nat, y: nat): Sector {
    var tg22x := Wrap32(x * TAN22);
    var tg67x := Wrap32(tg22x + Wrap32((x + x) * ONE));
    var ys := Wrap32(y * ONE);
    if ys < tg22x then AlongRow else if ys > tg67x then AlongColumn else Diagonal
  }

  // The derivatives up to which ints are wide enough. 27145 * 79109 is the last
  // multiple below the sign bit, 158217 * 13573 the last of the other slope.
  lemma SectorExactly(X: nat, Y: nat)
    requires X < 0x8000_0000 && Y < 0x8000_0000
    ensures (forall x: nat, y: nat :: x <= X && y <= Y ==> IntSector(x, y) == SectorOf(x, y)) <==>
            Y <= 65535 && X <= 158217 && (X <= 27145 || Y <= 11244)
  {
    hide IntSector, SectorOf;
    SectorsWrap();
    forall x: nat, y: nat | y <= 65535 && x <= 158217 && (x <= 27145 || y <= 11244)
      ensures IntSector(x, y) == SectorOf(x, y)
    {
      SectorFits(x, y);
    }
  }

  lemma SectorFits(x: nat, y: nat)
    requires y <= 65535 && x <= 158217 && (x <= 27145 || y <= 11244)
    ensures IntSector(x, y) == SectorOf(x, y)
  {
    hide Wrap32;
    WrapSmall(x * TAN22);
    WrapSmall(y * ONE);
    if x <= 27145 {
      WrapSmall((x + x) * ONE);
      WrapSmall(x * TAN22 + (x + x) * ONE);
    }
  }

  lemma SectorsWrap()
    ensures IntSector(0, 65536) != SectorOf(0, 65536)
    ensures IntSector(158218, 0) != SectorOf(158218, 0)
    ensures IntSector(27146, 11245) != SectorOf(27146, 11245)
  {
  }

  // A pixel above the low threshold that is a maximum across its edge. Of two
  // equal neighbours along a row or a column the first one counts.
  predicate IsMaximum(f: int, x: int, y: int, above: seq<int>, here: seq<int>, below: seq<int>)
    requires |above| == |here| == |below| == 3
  {
    match SectorOf(Abs(x), Abs(y))
    case AlongRow => f > here[0] && f >= here[2]
    case AlongColumn => f > above[1] && f >= below[1]
    case Diagonal =>
      // The exclusive or of the derivatives is negative when just one of them is.
      var s := if (x < 0) != (y < 0) then -1 else 1;
      f > above[1 - s] && f > below[1 + s]
  }

  function Window(g: Gradient, i: int, j: int): (w: seq<int>)
    requires ValidGradient(g)
    ensures |w| == 3
  {
    [Magnitude(g, i, j - 1), Magnitude(g, i, j), Magnitude(g, i, j + 1)]
  }

  predicate Candidate(g: Gradient, low: int, p: Pixel)
    requires ValidGradient(g)
  {
    InGrid(g, p) &&
    (FlatInRange(g, p.i, p.j);
     && Magnitude(g, p.i, p.j) > low
     && IsMaximum(Magnitude(g, p.i, p.j), g.dx[Flat(g, p.i, p.j)], g.dy[Flat(g, p.i, p.j)],
                  Window(g, p.i - 1, p.j), Window(g, p.i, p.j), Window(g, p.i + 1, p.j)))
  }

  predicate Strong(g: Gradient, high: int, p: Pixel)
    requires ValidGradient(g)
  {
    Magnitude(g, p.i, p.j) > high
  }

  // ---- what hysteresis must mark ----

  predicate Adjacent(p: Pixel, q: Pixel) {
    p != q && -1 <= p.i - q.i <= 1 && -1 <= p.j - q.j <= 1
  }

  ghost predicate IsPath(g: Gradient, low: int, path: seq<Pixel>)
    requires ValidGradient(g)
  {
    && |path| > 0
    && (forall k :: 0 <= k < |path| ==> Candidate(g, low, path[k]))
    && (forall k :: 0 < k < |path| ==> Adjacent(path[k - 1], path[k]))
  }

  // Connected through candidates, one of the eight neighbours at a time.
  ghost predicate Linked(g: Gradient, low: int, p: Pixel, q: Pixel)
    requires ValidGradient(g)
  {
    exists path :: IsPath(g, low, path) && path[0] == p && path[|path| - 1] == q
  }

  // The component of p contains a pixel above the high threshold.
  ghost predicate OnEdge(g: Gradient, low: int, high: int, p: Pixel)
    requires ValidGradient(g)
  {
    exists s :: Linked(g, low, p, s) && Strong(g, high, s)
  }

  lemma LinkedSelf(g: Gradient, low: int, p: Pixel)
    requires ValidGradient(g) && Candidate(g, low, p)
    ensures Linked(g, low, p, p)
  {
    hide Candidate;
    assert IsPath(g, low, [p]);
  }

  lemma LinkedStep(g: Gradient, low: int, p: Pixel, q: Pixel, r: Pixel)
    requires ValidGradient(g) && Candidate(g, low, p) && Adjacent(p, q) && Linked(g, low, q, r)
    ensures Linked(g, low, p, r)
  {
    hide Candidate, Adjacent;
    var path :| IsPath(g, low, path) && path[0] == q && path[|path| - 1] == r;
    var longer := [p] + path;
    assert longer[|longer| - 1] == r;
    forall k | 0 < k < |longer|
      ensures Adjacent(longer[k - 1], longer[k])
    {
      if k > 1 { assert Adjacent(path[k - 2], path[k - 1]); }
    }
    assert IsPath(g, low, longer);
  }

  // A set closed under stepping to candidate neighbours holds whole components.
  lemma {:induction false} ClosedHoldsPath(g: Gradient, low: int, S: set<Pixel>, path: seq<Pixel>)
    requires ValidGradient(g) && IsPath(g, low, path) && path[|path| - 1] in S
    requires forall p, q :: p in S && Candidate(g, low, q) && Adjacent(p, q) ==> q in S
    ensures path[0] in S
  {
    hide Candidate;
    if |path| > 1 {
      var front := path[..|path| - 1];
      assert Adjacent(path[|path| - 2], path[|path| - 1]);
      assert Candidate(g, low, path[|path| - 2]);
      assert Adjacent(path[|path| - 1], path[|path| - 2]);
      assert IsPath(g, low, front);
      ClosedHoldsPath(g, low, S, front);
    }
  }

  // ---- the map, the stack, and what has been decided so far ----

  // Map cells known so far, the stack as pixels, and the unmarked candidates.
  datatype Front = Front(v: map<Pixel, int>, st: seq<Pixel>, todo: set<Pixel>)

  ghost predicate Agrees(g: Gradient, m: seq<int>, v: map<Pixel, int>) {
    && |m| == MapSize(g)
    && forall p :: p in v ==> InFrame(g, p) && 0 <= Pos(g, p) < |m| && m[Pos(g, p)] == v[p]
  }

  ghost predicate StackIs(g: Gradient, s: seq<int>, st: seq<Pixel>) {
    |st| <= |s| && forall k :: 0 <= k < |st| ==> s[k] == Pos(g, st[k])
  }

  lemma AgreesWrite(g: Gradient, m: seq<int>, v: map<Pixel, int>, p: Pixel, x: int)
    requires Agrees(g, m, v) && InFrame(g, p)
    ensures 0 <= Pos(g, p) < |m| && Agrees(g, m[Pos(g, p) := x], v[p := x])
  {
    hide Pos;
    PosInRange(g, p);
    forall q | q in v && q != p
      ensures Pos(g, q) != Pos(g, p)
    {
      PosDistinct(g, q, p);
    }
  }

  // Pixels already visited in raster order.
  predicate Done(g: Gradient, p: Pixel, r: int, c: int) {
    InGrid(g, p) && (p.i < r || (p.i == r && p.j < c))
  }

  ghost predicate LinkedToSeed(g: Gradient, low: int, p: Pixel, st: seq<Pixel>)
    requires ValidGradient(g)
  {
    exists q :: q in st && Linked(g, low, p, q)
  }

  // The value a visited pixel may have.
  ghost predicate Settled(g: Gradient, low: int, high: int, f: Front, p: Pixel)
    requires ValidGradient(g)
  {
    && p in f.v
    && (if Candidate(g, low, p) then f.v[p] == 1 || f.v[p] == 2 else f.v[p] == 0)
    && (f.v[p] == 1 ==> p in f.todo)
    && (f.v[p] == 2 ==> p in f.st)
    && (Candidate(g, low, p) && Strong(g, high, p) ==> LinkedToSeed(g, low, p, f.st))
  }

  ghost predicate Seeded(g: Gradient, low: int, high: int, f: Front, r: int, c: int)
    requires ValidGradient(g)
  {
    && (forall p :: Done(g, p, r, c) ==> Settled(g, low, high, f, p))
    && (forall p :: p in f.st ==>
        Done(g, p, r, c) && Candidate(g, low, p) && Strong(g, high, p) && p in f.v && f.v[p] == 2)
    && (forall p :: p in f.todo ==> Done(g, p, r, c) && p in f.v && f.v[p] == 1)
  }

  // Border cells written as zero before the visit of pixel (r, c).
  ghost predicate Bordered(g: Gradient, v: map<Pixel, int>, r: int, c: int) {
    forall p :: InFrame(g, p) && !InGrid(g, p) && (p.i < r || (p.i == r && p.j < c)) ==> p in v && v[p] == 0
  }

  // A run of candidates that began with a seed.
  ghost predicate Running(g: Gradient, low: int, f: Front, r: int, c: int)
    requires ValidGradient(g)
  {
    Candidate(g, low, Pixel(r, c - 1)) && LinkedToSeed(g, low, Pixel(r, c - 1), f.st)
  }

  lemma SeedMore(g: Gradient, low: int, p: Pixel, st: seq<Pixel>, x: Pixel)
    requires ValidGradient(g)
    ensures LinkedToSeed(g, low, p, st) ==> LinkedToSeed(g, low, p, st + [x])
  {
    hide Linked;
    if LinkedToSeed(g, low, p, st) {
      var q :| q in st && Linked(g, low, p, q);
      assert q in st + [x];
    }
  }

  // A pixel left out of the map.
  lemma PlaceNone(g: Gradient, low: int, high: int, f: Front, r: int, c: int)
    requires ValidGradient(g) && Seeded(g, low, high, f, r, c) && 0 <= r < g.rows && 0 <= c < g.cols
    requires !Candidate(g, low, Pixel(r, c))
    ensures Seeded(g, low, high, f.(v := f.v[Pixel(r, c) := 0]), r, c + 1)
  {
    hide Candidate, Strong, LinkedToSeed;
    var f' := f.(v := f.v[Pixel(r, c) := 0]);
    forall p | Done(g, p, r, c + 1)
      ensures Settled(g, low, high, f', p)
    {
      assert p == Pixel(r, c) || (Done(g, p, r, c) && Settled(g, low, high, f, p));
    }
  }

  // A candidate that is no seed: weak, or in a run, or below a seed.
  lemma PlaceCandidate(g: Gradient, low: int, high: int, f: Front, r: int, c: int)
    requires ValidGradient(g) && Seeded(g, low, high, f, r, c) && 0 <= r < g.rows && 0 <= c < g.cols
    requires Candidate(g, low, Pixel(r, c))
    requires Strong(g, high, Pixel(r, c)) ==> LinkedToSeed(g, low, Pixel(r, c), f.st)
    ensures Seeded(g, low, high, f.(v := f.v[Pixel(r, c) := 1], todo := f.todo + {Pixel(r, c)}), r, c + 1)
  {
    hide Candidate, Strong, LinkedToSeed;
    var f' := f.(v := f.v[Pixel(r, c) := 1], todo := f.todo + {Pixel(r, c)});
    forall p | Done(g, p, r, c + 1)
      ensures Settled(g, low, high, f', p)
    {
      assert p == Pixel(r, c) || (Done(g, p, r, c) && Settled(g, low, high, f, p));
    }
  }

  lemma SeedSelf(g: Gradient, low: int, p: Pixel, st: seq<Pixel>)
    requires ValidGradient(g) && Candidate(g, low, p)
    ensures LinkedToSeed(g, low, p, st + [p])
    ensures forall q :: LinkedToSeed(g, low, q, st) ==> LinkedToSeed(g, low, q, st + [p])
  {
    hide Candidate, Linked;
    LinkedSelf(g, low, p);
    assert p in st + [p];
    forall q
      ensures LinkedToSeed(g, low, q, st) ==> LinkedToSeed(g, low, q, st + [p])
    {
      SeedMore(g, low, q, st, p);
    }
  }

  lemma PlaceSeed(g: Gradient, low: int, high: int, f: Front, r: int, c: int)
    requires ValidGradient(g) && Seeded(g, low, high, f, r, c) && 0 <= r < g.rows && 0 <= c < g.cols
    requires Candidate(g, low, Pixel(r, c)) && Strong(g, high, Pixel(r, c))
    ensures Seeded(g, low, high, f.(v := f.v[Pixel(r, c) := 2], st := f.st + [Pixel(r, c)]), r, c + 1)
    ensures LinkedToSeed(g, low, Pixel(r, c), f.st + [Pixel(r, c)])
  {
    hide Candidate, Strong, LinkedToSeed;
    var p := Pixel(r, c);
    SeedSelf(g, low, p, f.st);
    var f' := f.(v := f.v[p := 2], st := f.st + [p]);
    forall q | Done(g, q, r, c + 1)
      ensures Settled(g, low, high, f', q)
    {
      assert q == p || (Done(g, q, r, c) && Settled(g, low, high, f, q));
    }
  }

  // A neighbour that is linked to a seed links this candidate too.
  lemma LinkThrough(g: Gradient, low: int, p: Pixel, q: Pixel, st: seq<Pixel>)
    requires ValidGradient(g) && Candidate(g, low, p) && Adjacent(p, q) && LinkedToSeed(g, low, q, st)
    ensures LinkedToSeed(g, low, p, st)
  {
    hide Candidate, Linked;
    var s :| s in st && Linked(g, low, q, s);
    LinkedStep(g, low, p, q, s);
  }

  // ---- the rolling rows of magnitudes ----

  ghost predicate RowIs(g: Gradient, row: seq<int>, i: int)
    requires ValidGradient(g)
  {
    |row| == g.cols + 2 && forall j :: -1 <= j <= g.cols ==> row[j + 1] == Magnitude(g, i, j)
  }

  method FillRow(g: Gradient, row: array<int>, i: int)
    requires ValidGradient(g) && row.Length == g.cols + 2 && 0 <= i <= g.rows
    requires row[0] == 0 && row[g.cols + 1] == 0
    modifies row
    ensures RowIs(g, row[..], i)
  {
    var j := 0;
    while j < g.cols
      invariant 0 <= j <= g.cols
      invariant row[0] == 0 && row[g.cols + 1] == 0
      invariant forall k :: 0 <= k < j ==> row[k + 1] == Magnitude(g, i, k)
    {
      if i == g.rows {
        row[j + 1] := 0;
      } else {
        FlatInRange(g, i, j);
        row[j + 1] := Abs(g.dx[Flat(g, i, j)]) + Abs(g.dy[Flat(g, i, j)]);
      }
      j := j + 1;
    }
  }

  method TestPixel(g: Gradient, low: int, i: int, j: int, above: array<int>, here: array<int>, below: array<int>)
      returns (isMax: bool)
    requires ValidGradient(g) && 0 <= i < g.rows && 0 <= j < g.cols
    requires RowIs(g, above[..], i - 1) && RowIs(g, here[..], i) && RowIs(g, below[..], i + 1)
    ensures isMax == Candidate(g, low, Pixel(i, j))
  {
    hide Magnitude, Flat;
    FlatInRange(g, i, j);
    var f := here[j + 1];
    assert f == here[..][j + 1] == Magnitude(g, i, j);
    if f <= low {
      return false;
    }
    var dx, dy := g.dx[Flat(g, i, j)], g.dy[Flat(g, i, j)];
    var x := Abs(dx);
    var tg22x := x * TAN22;
    var tg67x := tg22x + (x + x) * ONE;
    var y := Abs(dy) * ONE;
    assert here[..][j] == Magnitude(g, i, j - 1) && here[..][j + 2] == Magnitude(g, i, j + 1);
    assert Window(g, i - 1, j) == above[..][j..j + 3];
    assert Window(g, i + 1, j) == below[..][j..j + 3];
    if y < tg22x {
      isMax := f > here[j] && f >= here[j + 2];
    } else if y > tg67x {
      isMax := f > above[j + 1] && f >= below[j + 1];
    } else {
      var s := if (dx < 0) != (dy < 0) then -1 else 1;
      isMax := f > above[j + 1 - s] && f > below[j + 1 + s];
    }
  }

  // ---- seeding ----

  // The map and the stack as left by the visit of the pixels before (r, c).
  ghost predicate Tracks(g: Gradient, low: int, high: int, m: seq<int>, s: seq<int>, top: nat, f: Front, r: int, c: int)
    requires ValidGradient(g)
  {
    && Agrees(g, m, f.v) && Bordered(g, f.v, r, c)
    && StackIs(g, s, f.st) && |f.st| == top
    && Seeded(g, low, high, f, r, c)
    && |f.st| + |f.todo| <= Flat(g, r, if c < 0 then 0 else if c < g.cols then c else g.cols)
  }

  lemma BorderWrite(g: Gradient, v: map<Pixel, int>, r: int, c: int)
    requires Bordered(g, v, r, c) && !InGrid(g, Pixel(r, c))
    ensures Bordered(g, v[Pixel(r, c) := 0], r, c + 1)
  {
  }

  lemma BorderKeep(g: Gradient, v: map<Pixel, int>, r: int, c: int, x: int)
    requires Bordered(g, v, r, c) && InGrid(g, Pixel(r, c))
    ensures Bordered(g, v[Pixel(r, c) := x], r, c + 1)
  {
  }

  // A border cell does not touch what is known about visited pixels.
  lemma SeededFrame(g: Gradient, low: int, high: int, f: Front, r: int, c: int, p: Pixel, r': int, c': int)
    requires ValidGradient(g) && Seeded(g, low, high, f, r, c) && !InGrid(g, p)
    requires forall q :: Done(g, q, r, c) <==> Done(g, q, r', c')
    ensures Seeded(g, low, high, f.(v := f.v[p := 0]), r', c')
  {
    hide Candidate, Strong, LinkedToSeed;
    forall q | Done(g, q, r', c')
      ensures Settled(g, low, high, f.(v := f.v[p := 0]), q)
    {
      assert Settled(g, low, high, f, q);
    }
  }

  lemma FlatStep(g: Gradient, r: int, c: int)
    ensures Flat(g, r, c + 1) == Flat(g, r, c) + 1
    ensures Flat(g, r, g.cols) == Flat(g, r + 1, 0)
  {
    assert (r + 1) * g.cols == r * g.cols + g.cols;
  }

  // The visit of one pixel.
  method SeedPixel(g: Gradient, low: int, high: int, isMax: bool, f: int, suppress0: bool, r: nat, c: nat, ptr: int,
                   map_: array<int>, stack: array<int>, top0: nat, ghost f0: Front)
    returns (top: nat, suppress: bool, ghost f1: Front)
    requires ValidGradient(g) && r < g.rows && c < g.cols && map_ != stack && stack.Length == g.rows * g.cols
    requires Tracks(g, low, high, map_[..], stack[..], top0, f0, r, c)
    requires isMax == Candidate(g, low, Pixel(r, c)) && f == Magnitude(g, r, c) && ptr == Pos(g, Pixel(r, c))
    requires suppress0 ==> Running(g, low, f0, r, c)
    modifies map_, stack
    ensures Tracks(g, low, high, map_[..], stack[..], top, f1, r, c + 1)
    ensures suppress ==> Running(g, low, f1, r, c + 1)
  {
    hide Candidate, Magnitude, Pos, LinkedToSeed, Seeded, Agrees, Bordered, Flat;
    ghost var p, above := Pixel(r, c), Pixel(r - 1, c);
    FlatInRange(g, r, c);
    FlatStep(g, r, c);
    top, suppress := top0, suppress0;
    var mapCols := g.cols + 2;
    PosMove(g, p, -1, 0);
    assert ptr - mapCols == Pos(g, above);
    CellAt(g, low, high, map_[..], f0, r, c);
    AgreesWrite(g, map_[..], f0.v, p, 0);
    if isMax {
      if f > high && !suppress && map_[ptr - mapCols] != 2 {
        AgreesWrite(g, map_[..], f0.v, p, 2);
        BorderKeep(g, f0.v, r, c, 2);
        PlaceSeed(g, low, high, f0, r, c);
        map_[ptr] := 2;
        suppress := true;
        stack[top] := ptr;
        top := top + 1;
        f1 := f0.(v := f0.v[p := 2], st := f0.st + [p]);
        StackPush(g, old(stack[..]), stack[..], f0.st, p);
      } else {
        AgreesWrite(g, map_[..], f0.v, p, 1);
        BorderKeep(g, f0.v, r, c, 1);
        if suppress {
          LinkThrough(g, low, p, Pixel(r, c - 1), f0.st);
        } else if f > high {
          LinkThrough(g, low, p, above, f0.st);
        }
        PlaceCandidate(g, low, high, f0, r, c);
        map_[ptr] := 1;
        f1 := f0.(v := f0.v[p := 1], todo := f0.todo + {p});
      }
    } else {
      BorderKeep(g, f0.v, r, c, 0);
      PlaceNone(g, low, high, f0, r, c);
      map_[ptr] := 0;
      suppress := false;
      f1 := f0.(v := f0.v[p := 0]);
    }
    assert map_[..] == old(map_[..])[ptr := f1.v[p]];
  }

  lemma StackPush(g: Gradient, s: seq<int>, s': seq<int>, st: seq<Pixel>, p: Pixel)
    requires StackIs(g, s, st) && |st| < |s| && s' == s[|st| := Pos(g, p)]
    ensures StackIs(g, s', st + [p])
  {
    hide Pos;
  }

  // The cell above the next pixel holds a seed, a candidate, or nothing.
  lemma CellAt(g: Gradient, low: int, high: int, m: seq<int>, f: Front, r: nat, c: nat)
    requires ValidGradient(g) && r < g.rows && c < g.cols
    requires Agrees(g, m, f.v) && Bordered(g, f.v, r, c) && Seeded(g, low, high, f, r, c)
    ensures 0 <= Pos(g, Pixel(r - 1, c)) < |m|
    ensures m[Pos(g, Pixel(r - 1, c))] == 2 ==> LinkedToSeed(g, low, Pixel(r - 1, c), f.st)
  {
    hide Candidate, Magnitude, Pos, Linked;
    var a := Pixel(r - 1, c);
    if r > 0 {
      assert Done(g, a, r, c) && Settled(g, low, high, f, a);
      if f.v[a] == 2 { LinkedSelf(g, low, a); }
    } else {
      assert a in f.v && f.v[a] == 0;
    }
  }

  // A border cell is cleared on the way.
  method ClearCell(g: Gradient, low: int, high: int, r: int, c: int, ptr: int, r': int, c': int,
                   map_: array<int>, stack: array<int>, top: nat, ghost f: Front) returns (ghost f': Front)
    requires ValidGradient(g) && map_ != stack && 0 <= r <= g.rows && -1 <= c <= g.cols && !InGrid(g, Pixel(r, c))
    requires Tracks(g, low, high, map_[..], stack[..], top, f, r, c) && ptr == Pos(g, Pixel(r, c))
    requires (r' == r && c' == c + 1) || (r' == r + 1 && c' == -1 && c == g.cols)
    modifies map_
    ensures Tracks(g, low, high, map_[..], stack[..], top, f', r', c')
    ensures f'.st == f.st && f'.todo == f.todo
  {
    hide Pos, Agrees, Bordered, Seeded, StackIs, Flat;
    f' := f.(v := f.v[Pixel(r, c) := 0]);
    AgreesWrite(g, map_[..], f.v, Pixel(r, c), 0);
    BorderWrite(g, f.v, r, c);
    SeededFrame(g, low, high, f, r, c, Pixel(r, c), r', c');
    FlatStep(g, r, c);
    map_[ptr] := 0;
    assert map_[..] == old(map_[..])[ptr := 0];
    BorderNext(g, f'.v, r, c, r', c');
  }

  lemma BorderNext(g: Gradient, v: map<Pixel, int>, r: int, c: int, r': int, c': int)
    requires Bordered(g, v, r, c + 1)
    requires (r' == r && c' == c + 1) || (r' == r + 1 && c' == -1 && c == g.cols)
    ensures Bordered(g, v, r', c')
  {
  }

  // One image row: its left border cell, its pixels, its right border cell.
  method SeedRow(g: Gradient, low: int, high: int, r: nat, ptr: int, above: array<int>, here: array<int>,
                 below: array<int>,
                 map_: array<int>, stack: array<int>, top0: nat, ghost f0: Front)
    returns (top: nat, ghost f: Front)
    requires ValidGradient(g) && r < g.rows && map_ != stack && stack.Length == g.rows * g.cols
    requires above != map_ && here != map_ && below != map_ && above != stack && here != stack && below != stack
    requires RowIs(g, above[..], r - 1) && RowIs(g, here[..], r) && RowIs(g, below[..], r + 1)
    requires Tracks(g, low, high, map_[..], stack[..], top0, f0, r, -1) && ptr == Pos(g, Pixel(r, 0))
    modifies map_, stack
    ensures Tracks(g, low, high, map_[..], stack[..], top, f, r + 1, -1)
  {
    hide Tracks, Candidate, Magnitude, Pos, Running;
    top := top0;
    PosMove(g, Pixel(r, 0), 0, -1);
    f := ClearCell(g, low, high, r, -1, ptr - 1, r, 0, map_, stack, top, f0);
    var suppress := false;
    var j := 0;
    while j < g.cols
      invariant 0 <= j <= g.cols
      invariant RowIs(g, above[..], r - 1) && RowIs(g, here[..], r) && RowIs(g, below[..], r + 1)
      invariant Tracks(g, low, high, map_[..], stack[..], top, f, r, j)
      invariant suppress ==> Running(g, low, f, r, j)
    {
      var isMax := TestPixel(g, low, r, j, above, here, below);
      assert here[..][j + 1] == Magnitude(g, r, j);
      PosMove(g, Pixel(r, 0), 0, j);
      top, suppress, f := SeedPixel(g, low, high, isMax, here[j + 1], suppress, r, j, ptr + j, map_, stack, top, f);
      j := j + 1;
    }
    PosMove(g, Pixel(r, 0), 0, g.cols);
    f := ClearCell(g, low, high, r, g.cols, ptr + g.cols, r + 1, -1, map_, stack, top, f);
  }

  ghost predicate FirstRowClear(g: Gradient, m: seq<int>) {
    g.cols + 2 <= |m| && forall k :: 0 <= k < g.cols + 2 ==> m[k] == 0
  }

  lemma StartTracks(g: Gradient, low: int, high: int, m: seq<int>, s: seq<int>)
    requires ValidGradient(g) && |m| == MapSize(g) && FirstRowClear(g, m)
    ensures exists f: Front :: Tracks(g, low, high, m, s, 0, f, 0, -1)
  {
    var v := map j | -1 <= j <= g.cols :: Pixel(-1, j) := 0;
    var f := Front(v, [], {});
    forall p | p in v
      ensures InFrame(g, p) && 0 <= Pos(g, p) < |m| && m[Pos(g, p)] == v[p]
    {
      assert Pos(g, p) == p.j + 1;
    }
    assert Tracks(g, low, high, m, s, 0, f, 0, -1);
  }

  // The whole raster scan, with three rolling rows of magnitudes.
  method Seed(g: Gradient, low: int, high: int, map_: array<int>, stack: array<int>) returns (top: nat, ghost f: Front)
    requires ValidGradient(g) && map_ != stack && map_.Length == MapSize(g) && stack.Length == g.rows * g.cols
    modifies map_, stack
    ensures Tracks(g, low, high, map_[..], stack[..], top, f, g.rows + 1, -1)
    ensures |f.st| + |f.todo| <= Flat(g, g.rows, 0)
  {
    hide Tracks, Candidate, Magnitude, Pos, MapSize, FirstRowClear;
    var row0 := new int[g.cols + 2](_ => 0);
    var row1 := new int[g.cols + 2](_ => 0);
    var row2 := new int[g.cols + 2](_ => 0);
    ZeroRow(g, row0[..]);
    FillRow(g, row1, 0);
    var mapCols := g.cols + 2;
    ClearFirstRow(g, map_);
    top := 0;
    StartTracks(g, low, high, map_[..], stack[..]);
    f :| Tracks(g, low, high, map_[..], stack[..], top, f, 0, -1);
    var ptr := mapCols + 1;
    PosFirst(g);
    var i := 1;
    while i <= g.rows
      invariant 1 <= i <= g.rows + 1
      invariant row0 != row1 && row1 != row2 && row0 != row2 && fresh(row0) && fresh(row1) && fresh(row2)
      invariant RowIs(g, row0[..], i - 2) && RowIs(g, row1[..], i - 1)
      invariant row2.Length == g.cols + 2 && row2[0] == row2[g.cols + 1] == 0
      invariant ptr == Pos(g, Pixel(i - 1, 0))
      invariant Tracks(g, low, high, map_[..], stack[..], top, f, i - 1, -1)
    {
      FillRow(g, row2, i);
      top, f := SeedRow(g, low, high, i - 1, ptr, row0, row1, row2, map_, stack, top, f);
      PosMove(g, Pixel(i - 1, 0), 1, 0);
      ptr := ptr + mapCols;
      RowEnds(g, row0[..], i - 2);
      row0, row1, row2 := row1, row2, row0;
      i := i + 1;
    }
    f := ClearLastRow(g, low, high, ptr, map_, stack, top, f);
  }

  // The border row above the image.
  method ClearFirstRow(g: Gradient, map_: array<int>)
    requires ValidGradient(g) && map_.Length == MapSize(g)
    modifies map_
    ensures FirstRowClear(g, map_[..])
  {
    hide MapSize;
    FrameFits(g);
    var k := 0;
    while k < g.cols + 2
      invariant 0 <= k <= g.cols + 2 <= map_.Length
      invariant forall l :: 0 <= l < k ==> map_[l] == 0
    {
      map_[k] := 0;
      k := k + 1;
    }
  }

  // The border row below the image.
  method ClearLastRow(g: Gradient, low: int, high: int, ptr: int, map_: array<int>, stack: array<int>, top: nat,
                      ghost f0: Front) returns (ghost f: Front)
    requires ValidGradient(g) && map_ != stack && ptr == Pos(g, Pixel(g.rows, 0))
    requires Tracks(g, low, high, map_[..], stack[..], top, f0, g.rows, -1)
    modifies map_
    ensures Tracks(g, low, high, map_[..], stack[..], top, f, g.rows + 1, -1)
    ensures |f.st| + |f.todo| <= Flat(g, g.rows, 0)
  {
    hide Tracks, Candidate, Pos;
    f := f0;
    TracksCount(g, low, high, map_[..], stack[..], top, f);
    var k := -1;
    while k < g.cols + 1
      invariant -1 <= k <= g.cols + 1
      invariant |f.st| + |f.todo| <= Flat(g, g.rows, 0)
      invariant Tracks(g, low, high, map_[..], stack[..], top, f,
                       if k == g.cols + 1 then g.rows + 1 else g.rows, if k == g.cols + 1 then -1 else k)
    {
      PosMove(g, Pixel(g.rows, 0), 0, k);
      f := ClearCell(g, low, high, g.rows, k, ptr + k, if k == g.cols then g.rows + 1 else g.rows,
                     if k == g.cols then -1 else k + 1, map_, stack, top, f);
      k := k + 1;
    }
  }

  lemma TracksCount(g: Gradient, low: int, high: int, m: seq<int>, s: seq<int>, top: nat, f: Front)
    requires ValidGradient(g) && Tracks(g, low, high, m, s, top, f, g.rows, -1)
    ensures |f.st| + |f.todo| <= Flat(g, g.rows, 0)
  {
  }

  lemma ZeroRow(g: Gradient, row: seq<int>)
    requires ValidGradient(g) && |row| == g.cols + 2 && forall k :: 0 <= k < |row| ==> row[k] == 0
    ensures RowIs(g, row, -1)
  {
  }

  lemma RowEnds(g: Gradient, row: seq<int>, i: int)
    requires ValidGradient(g) && RowIs(g, row, i)
    ensures row[0] == row[g.cols + 1] == 0
  {
    assert Magnitude(g, i, -1) == 0 && Magnitude(g, i, g.cols) == 0;
  }

  lemma FrameFits(g: Gradient)
    ensures g.cols + 2 <= MapSize(g)
  {
    MulMono(1, g.rows + 2, g.cols + 2);
  }

  lemma PosFirst(g: Gradient)
    ensures Pos(g, Pixel(0, 0)) == g.cols + 2 + 1
  {
  }

  // ---- the flood fill ----

  // The eight neighbours in the order of the source's offset table.
  function Neighbour(p: Pixel, k: nat): Pixel
    requires k < 8
  {
    match k
    case 0 => Pixel(p.i, p.j - 1)
    case 1 => Pixel(p.i, p.j + 1)
    case 2 => Pixel(p.i - 1, p.j - 1)
    case 3 => Pixel(p.i - 1, p.j)
    case 4 => Pixel(p.i - 1, p.j + 1)
    case 5 => Pixel(p.i + 1, p.j - 1)
    case 6 => Pixel(p.i + 1, p.j)
    case _ => Pixel(p.i + 1, p.j + 1)
  }

  lemma NeighbourPos(g: Gradient, p: Pixel, k: nat)
    requires k < 8
    ensures var w := g.cols + 2;
            Pos(g, Neighbour(p, k)) == Pos(g, p) + [-1, 1, -w - 1, -w, -w + 1, w - 1, w, w + 1][k]
    ensures Adjacent(p, Neighbour(p, k)) && Adjacent(Neighbour(p, k), p)
    ensures InGrid(g, p) ==> InFrame(g, Neighbour(p, k))
  {
    hide Pos;
    var q := Neighbour(p, k);
    PosMove(g, p, q.i - p.i, q.j - p.j);
    assert q == Pixel(p.i + (q.i - p.i), p.j + (q.j - p.j));
  }

  lemma AdjacentIsNeighbour(p: Pixel, q: Pixel) returns (k: nat)
    requires Adjacent(p, q)
    ensures k < 8 && q == Neighbour(p, k)
  {
    if q.i == p.i {
      k := if q.j < p.j then 0 else 1;
    } else if q.i < p.i {
      k := if q.j < p.j then 2 else if q.j == p.j then 3 else 4;
    } else {
      k := if q.j < p.j then 5 else if q.j == p.j then 6 else 7;
    }
  }

  ghost predicate Marked(f: Front, p: Pixel) { p in f.v && f.v[p] == 2 }

  // What holds of one cell of the finished scan.
  ghost predicate CellOk(g: Gradient, low: int, high: int, f: Front, p: Pixel)
    requires ValidGradient(g)
  {
    && p in f.v
    && (if Candidate(g, low, p) then f.v[p] == 1 || f.v[p] == 2 else f.v[p] == 0)
    && (f.v[p] == 1 ==> p in f.todo)
    && (f.v[p] == 2 ==> OnEdge(g, low, high, p))
  }

  ghost predicate LinkedToMark(g: Gradient, low: int, p: Pixel, f: Front)
    requires ValidGradient(g)
  {
    exists q :: Marked(f, q) && Linked(g, low, p, q)
  }

  // b is one of the neighbours of p still to be looked at.
  predicate Pending(p: Pixel, k: nat, b: Pixel) {
    exists l: nat | k <= l < 8 :: b == Neighbour(p, l)
  }

  // Marks spread to candidate neighbours, except from pixels on the stack and
  // from p to its neighbours k and later.
  ghost predicate Spread(g: Gradient, low: int, f: Front, p: Pixel, k: nat)
    requires ValidGradient(g)
  {
    forall a, b :: Marked(f, a) && a !in f.st && Candidate(g, low, b) && Adjacent(a, b) ==>
      Marked(f, b) || (a == p && Pending(p, k, b))
  }

  ghost predicate Filling(g: Gradient, low: int, high: int, f: Front, p: Pixel, k: nat)
    requires ValidGradient(g)
  {
    && (forall q :: InFrame(g, q) ==> CellOk(g, low, high, f, q))
    && (forall q :: q in f.st ==> InGrid(g, q) && Marked(f, q))
    && (forall q :: q in f.todo ==> InGrid(g, q) && q in f.v && f.v[q] == 1)
    && (forall q :: Candidate(g, low, q) && Strong(g, high, q) ==> LinkedToMark(g, low, q, f))
    && |f.st| + |f.todo| <= g.rows * g.cols
    && Spread(g, low, f, p, k)
  }

  lemma CandidateInGrid(g: Gradient, low: int, p: Pixel)
    requires ValidGradient(g) && Candidate(g, low, p)
    ensures InGrid(g, p)
  {
  }

  lemma OnEdgeItself(g: Gradient, low: int, high: int, p: Pixel)
    requires ValidGradient(g) && Candidate(g, low, p) && Strong(g, high, p)
    ensures OnEdge(g, low, high, p)
  {
    hide Linked, Candidate, Strong;
    LinkedSelf(g, low, p);
  }

  lemma ScanCell(g: Gradient, low: int, high: int, f: Front, p: Pixel)
    requires ValidGradient(g) && Seeded(g, low, high, f, g.rows + 1, -1) && Bordered(g, f.v, g.rows + 1, -1)
    requires InFrame(g, p)
    ensures CellOk(g, low, high, f, p)
    ensures Marked(f, p) ==> p in f.st
    ensures Candidate(g, low, p) && Strong(g, high, p) ==> LinkedToMark(g, low, p, f)
  {
    hide Strong, Magnitude, Linked, Adjacent, Candidate, OnEdge;
    if InGrid(g, p) {
      assert Done(g, p, g.rows + 1, -1) && Settled(g, low, high, f, p);
      if f.v[p] == 2 { OnEdgeItself(g, low, high, p); }
      if Candidate(g, low, p) && Strong(g, high, p) {
        var s :| s in f.st && Linked(g, low, p, s);
        assert Marked(f, s);
      }
    } else if Candidate(g, low, p) {
      CandidateInGrid(g, low, p);
    }
  }

  lemma ScanDone(g: Gradient, low: int, high: int, f: Front, p: Pixel)
    requires ValidGradient(g) && Seeded(g, low, high, f, g.rows + 1, -1) && Bordered(g, f.v, g.rows + 1, -1)
    requires |f.st| + |f.todo| <= Flat(g, g.rows, 0)
    requires forall q :: Marked(f, q) ==> InFrame(g, q)
    ensures Filling(g, low, high, f, p, 8)
  {
    hide Strong, Magnitude, Linked, Adjacent, Candidate, CellOk, LinkedToMark, Settled;
    forall q | InFrame(g, q)
      ensures CellOk(g, low, high, f, q)
      ensures Marked(f, q) ==> q in f.st
    {
      ScanCell(g, low, high, f, q);
    }
    forall q | Candidate(g, low, q) && Strong(g, high, q)
      ensures LinkedToMark(g, low, q, f)
    {
      CandidateInGrid(g, low, q);
      ScanCell(g, low, high, f, q);
    }
  }

  lemma Pop(g: Gradient, low: int, high: int, f: Front, p: Pixel)
    requires ValidGradient(g) && |f.st| > 0 && Filling(g, low, high, f, p, 8)
    ensures var q := f.st[|f.st| - 1];
            InGrid(g, q) && Marked(f, q) && Filling(g, low, high, f.(st := f.st[..|f.st| - 1]), q, 0)
  {
    hide Strong, Candidate, LinkedToMark, CellOk, Spread, Marked;
    var f' := f.(st := f.st[..|f.st| - 1]);
    forall x | InFrame(g, x)
      ensures CellOk(g, low, high, f', x)
    {
      CellKept(g, low, high, f, f', x);
    }
    forall x | Candidate(g, low, x) && Strong(g, high, x)
      ensures LinkedToMark(g, low, x, f')
    {
      SameMarks(g, low, x, f, f');
    }
    forall x | x in f'.st
      ensures InGrid(g, x) && Marked(f', x)
    {
      SameMarked(f, f', x);
    }
    PopSpread(g, low, f, p);
  }

  lemma PopSpread(g: Gradient, low: int, f: Front, p: Pixel)
    requires ValidGradient(g) && |f.st| > 0 && Spread(g, low, f, p, 8)
    ensures Spread(g, low, f.(st := f.st[..|f.st| - 1]), f.st[|f.st| - 1], 0)
  {
    hide Candidate, Adjacent, Marked;
    var q := f.st[|f.st| - 1];
    var f' := f.(st := f.st[..|f.st| - 1]);
    forall a, b | Marked(f', a) && a !in f'.st && Candidate(g, low, b) && Adjacent(a, b)
      ensures Marked(f', b) || (a == q && Pending(q, 0, b))
    {
      SameMarked(f, f', a);
      SameMarked(f, f', b);
      if a == q {
        var k := AdjacentIsNeighbour(q, b);
      }
    }
  }

  lemma SameMarked(f: Front, f': Front, p: Pixel)
    requires f'.v == f.v
    ensures Marked(f', p) <==> Marked(f, p)
  {
  }

  lemma CellKept(g: Gradient, low: int, high: int, f: Front, f': Front, p: Pixel)
    requires ValidGradient(g) && CellOk(g, low, high, f, p) && f'.v == f.v && f'.todo == f.todo
    ensures CellOk(g, low, high, f', p)
  {
    hide Candidate, OnEdge;
  }

  lemma SameMarks(g: Gradient, low: int, p: Pixel, f: Front, f': Front)
    requires ValidGradient(g) && LinkedToMark(g, low, p, f) && f'.v == f.v
    ensures LinkedToMark(g, low, p, f')
  {
    hide Linked;
    MarksKept(g, low, p, f, f');
  }

  lemma MarksKept(g: Gradient, low: int, p: Pixel, f: Front, f': Front)
    requires ValidGradient(g) && LinkedToMark(g, low, p, f)
    requires forall q :: Marked(f, q) ==> Marked(f', q)
    ensures LinkedToMark(g, low, p, f')
  {
    hide Linked, Marked;
  }

  // A neighbour that is unmarked joins the marks and the stack.
  lemma MarkStep(g: Gradient, low: int, high: int, f: Front, p: Pixel, k: nat)
    requires ValidGradient(g) && k < 8 && Filling(g, low, high, f, p, k) && Marked(f, p) && InGrid(g, p)
    requires InFrame(g, Neighbour(p, k)) && f.v[Neighbour(p, k)] == 1
    ensures var q := Neighbour(p, k);
            && q in f.todo && |f.st| < g.rows * g.cols
            && Filling(g, low, high, f.(v := f.v[q := 2], st := f.st + [q], todo := f.todo - {q}), p, k + 1)
  {
    hide Strong, Candidate, OnEdge, LinkedToMark, Adjacent, Neighbour;
    var q := Neighbour(p, k);
    var f' := f.(v := f.v[q := 2], st := f.st + [q], todo := f.todo - {q});
    assert CellOk(g, low, high, f, q) && CellOk(g, low, high, f, p);
    NeighbourPos(g, p, k);
    EdgeSpreads(g, low, high, q, p);
    assert f.todo == f'.todo + {q};
    forall x | Candidate(g, low, x) && Strong(g, high, x)
      ensures LinkedToMark(g, low, x, f')
    {
      MarksKept(g, low, x, f, f');
    }
  }

  lemma EdgeSpreads(g: Gradient, low: int, high: int, q: Pixel, p: Pixel)
    requires ValidGradient(g) && Candidate(g, low, q) && Adjacent(q, p) && OnEdge(g, low, high, p)
    ensures OnEdge(g, low, high, q)
  {
    hide Strong, Candidate, Linked, Adjacent;
    var s :| Linked(g, low, p, s) && Strong(g, high, s);
    LinkedStep(g, low, q, p, s);
  }

  lemma SkipStep(g: Gradient, low: int, high: int, f: Front, p: Pixel, k: nat)
    requires ValidGradient(g) && k < 8 && Filling(g, low, high, f, p, k) && InGrid(g, p)
    requires InFrame(g, Neighbour(p, k)) && f.v[Neighbour(p, k)] != 1
    ensures Filling(g, low, high, f, p, k + 1)
  {
    hide Strong, Candidate, OnEdge, LinkedToMark, Adjacent, Neighbour;
    assert CellOk(g, low, high, f, Neighbour(p, k));
  }

  // Once the stack is empty the marks are the components of the strong pixels.
  lemma FillDone(g: Gradient, low: int, high: int, f: Front, p: Pixel)
    requires ValidGradient(g) && Filling(g, low, high, f, p, 8) && f.st == []
    requires forall q :: q in f.v ==> InFrame(g, q)
    ensures forall q :: InFrame(g, q) ==> (Marked(f, q) <==> OnEdge(g, low, high, q))
  {
    hide Strong, Candidate, Adjacent;
    var S := set q | q in f.v && Marked(f, q);
    forall q | InFrame(g, q)
      ensures Marked(f, q) <==> OnEdge(g, low, high, q)
    {
      assert CellOk(g, low, high, f, q);
      if OnEdge(g, low, high, q) {
        var s :| Linked(g, low, q, s) && Strong(g, high, s);
        var path :| IsPath(g, low, path) && path[0] == q && path[|path| - 1] == s;
        assert Candidate(g, low, path[|path| - 1]);
        assert LinkedToMark(g, low, s, f);
        var m :| Marked(f, m) && Linked(g, low, s, m);
        var rest :| IsPath(g, low, rest) && rest[0] == s && rest[|rest| - 1] == m;
        SpreadCloses(g, low, f, p, S);
        ClosedHoldsPath(g, low, S, rest);
        ClosedHoldsPath(g, low, S, path);
      }
    }
  }

  lemma SpreadCloses(g: Gradient, low: int, f: Front, p: Pixel, S: set<Pixel>)
    requires ValidGradient(g) && Spread(g, low, f, p, 8) && f.st == [] && S == set q | q in f.v && Marked(f, q)
    ensures forall a, b :: a in S && Candidate(g, low, b) && Adjacent(a, b) ==> b in S
  {
    hide Candidate, Adjacent;
  }

  // A candidate is marked and pushed.
  method Mark(g: Gradient, map_: array<int>, stack: array<int>, top: nat, at: int, ghost f: Front, ghost q: Pixel)
      returns (ghost f': Front)
    requires ValidGradient(g) && map_ != stack && Agrees(g, map_[..], f.v) && StackIs(g, stack[..], f.st)
    requires |f.st| == top < stack.Length && InFrame(g, q) && q in f.v && at == Pos(g, q)
    modifies map_, stack
    ensures f' == f.(v := f.v[q := 2], st := f.st + [q], todo := f.todo - {q})
    ensures Agrees(g, map_[..], f'.v) && StackIs(g, stack[..], f'.st)
  {
    hide Agrees, StackIs, Pos;
    ghost var m0, s0 := map_[..], stack[..];
    AgreesWrite(g, m0, f.v, q, 2);
    map_[at] := 2;
    assert map_[..] == m0[at := 2];
    stack[top] := at;
    assert stack[..] == s0[top := at];
    StackPush(g, s0, stack[..], f.st, q);
    f' := f.(v := f.v[q := 2], st := f.st + [q], todo := f.todo - {q});
  }

  method FloodFill(g: Gradient, low: int, high: int, map_: array<int>, stack: array<int>, top0: nat, ghost f0: Front,
                   ghost p0: Pixel)
    returns (ghost f: Front)
    requires ValidGradient(g) && map_ != stack && stack.Length == g.rows * g.cols
    requires Agrees(g, map_[..], f0.v) && StackIs(g, stack[..], f0.st) && |f0.st| == top0
    requires Filling(g, low, high, f0, p0, 8)
    modifies map_, stack
    ensures Agrees(g, map_[..], f.v)
    ensures forall q :: InFrame(g, q) ==> q in f.v && (Marked(f, q) <==> OnEdge(g, low, high, q))
  {
    hide Strong, Candidate, Pos, Filling, Agrees, StackIs, OnEdge, Neighbour, MapSize;
    f := f0;
    ghost var p := p0;
    var top, w := top0, g.cols + 2;
    var dr := [-1, 1, -w - 1, -w, -w + 1, w - 1, w, w + 1];
    while top > 0
      invariant Agrees(g, map_[..], f.v) && StackIs(g, stack[..], f.st) && |f.st| == top
      invariant Filling(g, low, high, f, p, 8)
      decreases |f.todo|, top
    {
      ghost var todo0, top1 := f.todo, top;
      StackTop(g, stack[..], f.st);
      Pop(g, low, high, f, p);
      p := f.st[|f.st| - 1];
      f := f.(st := f.st[..|f.st| - 1]);
      top := top - 1;
      var ptr := stack[top];
      var i := 0;
      while i < 8
        invariant 0 <= i <= 8 && ptr == Pos(g, p) && InGrid(g, p) && Marked(f, p)
        invariant Agrees(g, map_[..], f.v) && StackIs(g, stack[..], f.st) && |f.st| == top
        invariant Filling(g, low, high, f, p, i)
        invariant |f.todo| < |todo0| || (f.todo == todo0 && top < top1)
      {
        ghost var q := Neighbour(p, i);
        NeighbourPos(g, p, i);
        FillCell(g, low, high, f, p, i, q, map_[..]);
        var at := ptr + dr[i];
        if map_[at] == 1 {
          MarkStep(g, low, high, f, p, i);
          f := Mark(g, map_, stack, top, at, f, q);
          top := top + 1;
        } else {
          SkipStep(g, low, high, f, p, i);
        }
        i := i + 1;
      }
    }
    FillEnd(g, low, high, f, p, map_[..]);
  }

  lemma StackTop(g: Gradient, s: seq<int>, st: seq<Pixel>)
    requires StackIs(g, s, st) && |st| > 0
    ensures |st| <= |s| && s[|st| - 1] == Pos(g, st[|st| - 1]) && StackIs(g, s, st[..|st| - 1])
  {
    hide Pos;
  }

  lemma FillCell(g: Gradient, low: int, high: int, f: Front, p: Pixel, k: nat, q: Pixel, m: seq<int>)
    requires ValidGradient(g) && Filling(g, low, high, f, p, k) && InFrame(g, q) && Agrees(g, m, f.v)
    ensures q in f.v && 0 <= Pos(g, q) < |m| && m[Pos(g, q)] == f.v[q]
    ensures |f.st| <= g.rows * g.cols
  {
    hide Pos, Candidate, Strong, OnEdge;
    assert CellOk(g, low, high, f, q);
  }

  lemma FillEnd(g: Gradient, low: int, high: int, f: Front, p: Pixel, m: seq<int>)
    requires ValidGradient(g) && Filling(g, low, high, f, p, 8) && f.st == [] && Agrees(g, m, f.v)
    ensures forall q :: InFrame(g, q) ==> q in f.v && (Marked(f, q) <==> OnEdge(g, low, high, q))
  {
    hide Pos, Candidate, Strong, OnEdge;
    forall q | InFrame(g, q)
      ensures q in f.v
    {
      assert CellOk(g, low, high, f, q);
    }
    FillDone(g, low, high, f, p);
  }

  // ---- the detector ----

  lemma FlatBefore(g: Gradient, p: Pixel, r: int, c: int)
    requires Done(g, p, r, c) && 0 <= c <= g.cols
    ensures Flat(g, p.i, p.j) < Flat(g, r, c) || p.i == r
    ensures p.i == r ==> Flat(g, p.i, p.j) < Flat(g, r, c)
  {
    if p.i < r {
      MulMono(p.i + 1, r, g.cols);
      assert (p.i + 1) * g.cols == p.i * g.cols + g.cols;
    }
  }

  ghost predicate Emitted(g: Gradient, low: int, high: int, b: seq<int>, r: int, c: int)
    requires ValidGradient(g)
  {
    |b| == g.rows * g.cols &&
    forall p :: Done(g, p, r, c) ==>
      0 <= Flat(g, p.i, p.j) < |b| && b[Flat(g, p.i, p.j)] == if OnEdge(g, low, high, p) then 1 else 0
  }

  lemma EmitOne(g: Gradient, low: int, high: int, b: seq<int>, r: nat, c: nat, x: int)
    requires ValidGradient(g) && Emitted(g, low, high, b, r, c) && r < g.rows && c < g.cols
    requires x == if OnEdge(g, low, high, Pixel(r, c)) then 1 else 0
    ensures 0 <= Flat(g, r, c) < |b| && Emitted(g, low, high, b[Flat(g, r, c) := x], r, c + 1)
  {
    hide Flat, OnEdge;
    FlatInRange(g, r, c);
    forall p | Done(g, p, r, c)
      ensures Flat(g, p.i, p.j) < Flat(g, r, c)
    {
      FlatBefore(g, p, r, c);
    }
    forall p | Done(g, p, r, c + 1)
      ensures p == Pixel(r, c) || Done(g, p, r, c)
    {
    }
  }

  // The integer branch of the detector, from the two derivatives on: the output
  // is set exactly on the candidate components that hold a strong pixel.
  method Detect(g: Gradient, low: int, high: int) returns (b: array<int>)
    requires ValidGradient(g)
    ensures fresh(b) && b.Length == g.rows * g.cols
    ensures forall i, j :: 0 <= i < g.rows && 0 <= j < g.cols ==>
              0 <= Flat(g, i, j) < b.Length
              && b[Flat(g, i, j)] == if OnEdge(g, low, high, Pixel(i, j)) then 1 else 0
  {
    hide Pos, Candidate, OnEdge, Seeded, Bordered, Filling, Agrees, StackIs, Flat, MapSize, Emitted;
    var map_ := new int[MapSize(g)];
    SizeFits(g);
    var stack := new int[g.rows * g.cols];
    var top;
    ghost var f;
    top, f := Seed(g, low, high, map_, stack);
    FrontFrame(g, map_[..], f.v);
    ScanDone(g, low, high, f, Pixel(0, 0));
    f := FloodFill(g, low, high, map_, stack, top, f, Pixel(0, 0));
    b := new int[g.rows * g.cols];
    var mapCols := g.cols + 2;
    var mapPtr := mapCols + 1;
    PosFirst(g);
    var i, bPtr := 0, 0;
    EmitStart(g, low, high, b[..]);
    while i < g.rows
      invariant 0 <= i <= g.rows && mapPtr == Pos(g, Pixel(i, 0)) && bPtr == Flat(g, i, 0)
      invariant Emitted(g, low, high, b[..], i, 0)
      invariant Agrees(g, map_[..], f.v)
    {
      var j := 0;
      while j < g.cols
        invariant 0 <= j <= g.cols && bPtr + j == Flat(g, i, j)
        invariant Emitted(g, low, high, b[..], i, j)
        invariant Agrees(g, map_[..], f.v)
      {
        PosMove(g, Pixel(i, 0), 0, j);
        ReadCell(g, map_[..], f.v, Pixel(i, j));
        var x := if map_[mapPtr + j] == 2 then 1 else 0;
        EmitOne(g, low, high, b[..], i, j, x);
        ghost var b0 := b[..];
        b[bPtr + j] := x;
        assert b[..] == b0[bPtr + j := x];
        FlatStep(g, i, j);
        j := j + 1;
      }
      PosMove(g, Pixel(i, 0), 1, 0);
      mapPtr := mapPtr + mapCols;
      FlatStep(g, i, 0);
      EmitNext(g, low, high, b[..], i);
      bPtr := bPtr + g.cols;
      i := i + 1;
    }
    EmitEnd(g, low, high, b[..]);
  }

  lemma SizeFits(g: Gradient)
    ensures 0 <= g.rows * g.cols
  {
  }

  lemma FrontFrame(g: Gradient, m: seq<int>, v: map<Pixel, int>)
    requires Agrees(g, m, v)
    ensures forall p :: p in v ==> InFrame(g, p)
  {
  }

  lemma EmitStart(g: Gradient, low: int, high: int, b: seq<int>)
    requires ValidGradient(g) && |b| == g.rows * g.cols
    ensures Emitted(g, low, high, b, 0, 0) && Flat(g, 0, 0) == 0
  {
  }

  lemma EmitNext(g: Gradient, low: int, high: int, b: seq<int>, r: int)
    requires ValidGradient(g) && Emitted(g, low, high, b, r, g.cols)
    ensures Emitted(g, low, high, b, r + 1, 0)
  {
    hide OnEdge, Flat;
  }

  lemma EmitEnd(g: Gradient, low: int, high: int, b: seq<int>)
    requires ValidGradient(g) && Emitted(g, low, high, b, g.rows, 0)
    ensures forall i, j :: 0 <= i < g.rows && 0 <= j < g.cols ==>
              0 <= Flat(g, i, j) < |b| && b[Flat(g, i, j)] == if OnEdge(g, low, high, Pixel(i, j)) then 1 else 0
  {
    hide OnEdge, Flat;
    forall i, j | 0 <= i < g.rows && 0 <= j < g.cols
      ensures 0 <= Flat(g, i, j) < |b| && b[Flat(g, i, j)] == if OnEdge(g, low, high, Pixel(i, j)) then 1 else 0
    {
      assert Done(g, Pixel(i, j), g.rows, 0);
    }
  }

  lemma ReadCell(g: Gradient, m: seq<int>, v: map<Pixel, int>, p: Pixel)
    requires Agrees(g, m, v) && p in v
    ensures 0 <= Pos(g, p) < |m| && m[Pos(g, p)] == v[p]
  {
  }
}
