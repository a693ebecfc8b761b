/**
 Erosion and dilation in two passes through a line buffer, against the extreme
 over the square window clipped to the image.
 */
module Morphology {
  import opened Flat

  // ---- windows and extremes ----

  // Position x lies in the window of size f at i, and on the line.
  predicate InWindow(i: int, x: int, f: nat, n: nat) {
    0 <= x < n && i - f / 2 <= x && (x < i - f / 2 + f || x == i - f / 2)
  }

  // v is at least as extreme as w.
  predicate Beats(least: bool, v: int, w: int) { if least then v <= w else v >= w }

  // v is the extreme of the window clipped to the image: it occurs there, and
  // nothing there beats it.
  ghost predicate Extreme(g: Shape, least: bool, a: seq<int>, f: nat, i: int, j: int, c: int, v: int)
    requires |a| == Size(g) && 0 <= c < g.ch
  {
    && (exists y, x :: InWindow(i, y, f, g.rows) && InWindow(j, x, f, g.cols) && At(g, a, y, x, c) == v)
    && (forall y, x :: InWindow(i, y, f, g.rows) && InWindow(j, x, f, g.cols) ==> Beats(least, v, At(g, a, y, x, c)))
  }

  // Image b holds the extremes of image a.
  ghost predicate Extremes(g: Shape, least: bool, a: seq<int>, f: nat, b: seq<int>) {
    |a| == |b| == Size(g) &&
    forall i, j, c :: Inside(g, i, j, c) ==> Extreme(g, least, a, f, i, j, c, At(g, b, i, j, c))
  }

  lemma ExtremeUnique(g: Shape, least: bool, a: seq<int>, f: nat, i: int, j: int, c: int, v: int, w: int)
    requires |a| == Size(g) && 0 <= c < g.ch && Extreme(g, least, a, f, i, j, c, v)
             && Extreme(g, least, a, f, i, j, c, w)
    ensures v == w
  {
    var y, x :| InWindow(i, y, f, g.rows) && InWindow(j, x, f, g.cols) && At(g, a, y, x, c) == v;
    var y', x' :| InWindow(i, y', f, g.rows) && InWindow(j, x', f, g.cols) && At(g, a, y', x', c) == w;
  }

  // ---- one line, along a row or down a column ----

  function LineAddr(g: Shape, along: bool, line: int, j: int, c: int): int {
    if along then Addr(g, line, j, c) else Addr(g, j, line, c)
  }

  function Length(g: Shape, along: bool): nat { if along then g.cols else g.rows }

  function Lines(g: Shape, along: bool): nat { if along then g.rows else g.cols }

  lemma LineBounds(g: Shape, along: bool, line: int, j: int, c: int)
    requires 0 <= line < Lines(g, along) && 0 <= j < Length(g, along) && 0 <= c < g.ch
    ensures 0 <= LineAddr(g, along, line, j, c) < Size(g)
  {
    if along { AddrBounds(g, line, j, c); } else { AddrBounds(g, j, line, c); }
  }

  lemma LineInjective(g: Shape, along: bool, line: int, j: int, c: int, line': int, j': int, c': int)
    requires 0 <= line < Lines(g, along) && 0 <= j < Length(g, along) && 0 <= c < g.ch
    requires 0 <= line' < Lines(g, along) && 0 <= j' < Length(g, along) && 0 <= c' < g.ch
    requires LineAddr(g, along, line, j, c) == LineAddr(g, along, line', j', c')
    ensures line == line' && j == j' && c == c'
  {
    if along { AddrInjective(g, line, j, c, line', j', c'); } else { AddrInjective(g, j, line, c, j', line', c'); }
  }

  function LineAt(g: Shape, along: bool, a: seq<int>, line: int, j: int, c: int): int
    requires |a| == Size(g) && 0 <= line < Lines(g, along) && 0 <= j < Length(g, along) && 0 <= c < g.ch
  {
    LineBounds(g, along, line, j, c);
    a[LineAddr(g, along, line, j, c)]
  }

  ghost predicate LineExtreme(g: Shape, along: bool, least: bool, a: seq<int>, f: nat, line: int, j: int, c: int,
                              v: int)
    requires |a| == Size(g) && 0 <= line < Lines(g, along) && 0 <= c < g.ch
  {
    && (exists x :: InWindow(j, x, f, Length(g, along)) && LineAt(g, along, a, line, x, c) == v)
    && (forall x :: InWindow(j, x, f, Length(g, along)) ==> Beats(least, v, LineAt(g, along, a, line, x, c)))
  }

  // The replicated border: position j of the buffer stands for this one.
  function Nearest(j: int, n: nat): (r: int)
    requires n > 0
    ensures 0 <= r < n
  {
    if j < 0 then 0 else if j >= n then n - 1 else j
  }

  // The replicated positions are those of the clipped window.
  lemma WindowReplicates(j: int, n: nat, f: nat, k: int)
    requires 0 <= j < n && 0 <= k && (k < f || k == 0)
    ensures InWindow(j, Nearest(j + k - f / 2, n), f, n)
  {
  }

  lemma WindowReplicated(j: int, n: nat, f: nat, x: int)
    requires 0 <= j < n && InWindow(j, x, f, n)
    ensures var k := x - j + f / 2; 0 <= k && (k < f || k == 0) && Nearest(j + k - f / 2, n) == x
  {
  }

  // In both directions: the clipped window is what f positions of the line
  // with replicated ends stand for.
  lemma WindowExactly(j: int, n: nat, f: nat, x: int)
    requires 0 <= j < n
    ensures InWindow(j, x, f, n) <==>
              exists p :: j - f / 2 <= p && (p < j - f / 2 + f || p == j - f / 2) && Nearest(p, n) == x
  {
    if InWindow(j, x, f, n) {
      WindowReplicated(j, n, f, x);
      assert Nearest(x, n) == x;
    }
  }

  // The line's value that buffer position p stands for.
  function Seen(g: Shape, along: bool, a: seq<int>, line: int, h: nat, p: int, c: int): int
    requires |a| == Size(g) && 0 <= line < Lines(g, along) && Length(g, along) > 0 && 0 <= c < g.ch
  {
    LineAt(g, along, a, line, Nearest(p - h, Length(g, along)), c)
  }

  // The buffer holds the line with both ends replicated.
  ghost predicate Buffered(g: Shape, along: bool, a: seq<int>, line: int, h: nat, buf: seq<int>, m: nat)
    requires |a| == Size(g) && 0 <= line < Lines(g, along) && Length(g, along) > 0
  {
    forall p, c :: 0 <= p < m && 0 <= c < g.ch ==>
      0 <= Row(p, c, g.ch) < |buf| && buf[Row(p, c, g.ch)] == Seen(g, along, a, line, h, p, c)
  }

  // One position of the buffer, all channels.
  method Copy(g: Shape, along: bool, a: array<int>, line: nat, buf: array<int>, p: nat, j: nat, ghost h: nat)
    requires a.Length == Size(g) && line < Lines(g, along) && j < Length(g, along) && a != buf
    requires j == Nearest(p - h, Length(g, along)) && (p + 1) * g.ch <= buf.Length
    requires Buffered(g, along, a[..], line, h, buf[..], p)
    modifies buf
    ensures Buffered(g, along, a[..], line, h, buf[..], p + 1)
  {
    hide LineAt, LineAddr, Nearest, Row, Size;
    ghost var was := buf[..];
    var k := 0;
    while k < g.ch
      invariant 0 <= k <= g.ch
      invariant forall e :: 0 <= e < Row(p, 0, g.ch) && e < buf.Length ==> buf[e] == was[e]
      invariant forall c :: 0 <= c < k ==>
                0 <= Row(p, c, g.ch) < buf.Length && buf[Row(p, c, g.ch)] == LineAt(g, along, a[..], line, j, c)
    {
      RowBounds(p, k, p + 1, g.ch);
      RowStep(p, 0, g.ch, k);
      LineBounds(g, along, line, j, k);
      buf[Row(p, k, g.ch)] := LineAtOf(g, along, a, line, j, k);
      forall c | 0 <= c < k
        ensures Row(p, c, g.ch) != Row(p, k, g.ch)
      {
        RowInjective2(p, c, k, g.ch);
      }
      k := k + 1;
    }
    forall q, c | 0 <= q < p && 0 <= c < g.ch
      ensures Row(q, c, g.ch) < Row(p, 0, g.ch)
    {
      RowOrder(q, c, p, g.ch);
    }
  }

  function LineAtOf(g: Shape, along: bool, a: array<int>, line: int, j: int, c: int): int
    requires a.Length == Size(g) && 0 <= line < Lines(g, along) && 0 <= j < Length(g, along) && 0 <= c < g.ch
    reads a
    ensures LineAtOf(g, along, a, line, j, c) == LineAt(g, along, a[..], line, j, c)
  {
    LineBounds(g, along, line, j, c);
    a[LineAddr(g, along, line, j, c)]
  }

  lemma RowInjective2(p: int, c: int, k: int, m: int)
    requires c != k
    ensures Row(p, c, m) != Row(p, k, m)
  {
  }

  lemma RowOrder(q: int, c: int, p: int, m: int)
    requires q < p && 0 <= c < m
    ensures Row(q, c, m) < Row(p, 0, m)
  {
    NotNegative(p - 1 - q, m);
    assert (p - 1 - q) * m == p * m - m - q * m;
  }

  method FillBuffer(g: Shape, along: bool, a: array<int>, line: nat, buf: array<int>, h: nat)
    requires a.Length == Size(g) && line < Lines(g, along) && Length(g, along) > 0 && a != buf
    requires (Length(g, along) + 2 * h) * g.ch <= buf.Length
    modifies buf
    ensures Buffered(g, along, a[..], line, h, buf[..], Length(g, along) + 2 * h)
  {
    hide LineAt, LineAddr, Buffered, Row, Size;
    var n := Length(g, along);
    NothingBuffered(g, along, a[..], line, h, buf[..]);
    var j := 0;
    while j < h
      invariant 0 <= j <= h && Buffered(g, along, a[..], line, h, buf[..], j)
    {
      Fits(j + 1, n + 2 * h, g.ch);
      Copy(g, along, a, line, buf, j, 0, h);
      j := j + 1;
    }
    j := 0;
    while j < n
      invariant 0 <= j <= n && Buffered(g, along, a[..], line, h, buf[..], j + h)
    {
      Fits(j + h + 1, n + 2 * h, g.ch);
      Copy(g, along, a, line, buf, j + h, j, h);
      j := j + 1;
    }
    while j < n + h
      invariant n <= j <= n + h && Buffered(g, along, a[..], line, h, buf[..], j + h)
    {
      Fits(j + h + 1, n + 2 * h, g.ch);
      Copy(g, along, a, line, buf, j + h, n - 1, h);
      j := j + 1;
    }
  }

  lemma NothingBuffered(g: Shape, along: bool, a: seq<int>, line: int, h: nat, buf: seq<int>)
    requires |a| == Size(g) && 0 <= line < Lines(g, along) && Length(g, along) > 0
    ensures Buffered(g, along, a, line, h, buf, 0)
  {
  }

  lemma Fits(p: nat, q: nat, m: nat)
    requires p <= q
    ensures p * m <= q * m
  {
    NotNegative(q - p, m);
    assert (q - p) * m == q * m - p * m;
  }

  lemma BufferAt(g: Shape, along: bool, a: seq<int>, line: int, h: nat, buf: seq<int>, m: nat, p: int, c: int)
    requires |a| == Size(g) && 0 <= line < Lines(g, along) && Length(g, along) > 0 && 0 <= p < m && 0 <= c < g.ch
    requires Buffered(g, along, a, line, h, buf, m)
    ensures 0 <= Row(p, c, g.ch) < |buf| && buf[Row(p, c, g.ch)] == Seen(g, along, a, line, h, p, c)
  {
  }

  // The extreme of f consecutive buffer positions.
  method WindowValue(g: Shape, along: bool, least: bool, ghost a: seq<int>, line: nat, f: nat, buf: array<int>,
                     j: nat, c: nat) returns (v: int)
    requires |a| == Size(g) && line < Lines(g, along) && j < Length(g, along) && c < g.ch
    requires Buffered(g, along, a, line, f / 2, buf[..], Length(g, along) + 2 * (f / 2))
    ensures LineExtreme(g, along, least, a, f, line, j, c, v)
  {
    hide LineAt, LineAddr, Buffered, Row, Size, InWindow, Nearest;
    var n, h := Length(g, along), f / 2;
    BufferAt(g, along, a, line, h, buf[..], n + 2 * h, j, c);
    v := buf[Row(j, c, g.ch)];
    ghost var w: nat := j;
    var k := 1;
    while k < f
      invariant 1 <= k && (k <= f || k == 1)
      invariant j <= w < j + k && (w < j + f || w == j) && v == Seen(g, along, a, line, h, w, c)
      invariant forall p :: j <= p < j + k ==> Beats(least, v, Seen(g, along, a, line, h, p, c))
    {
      BufferAt(g, along, a, line, h, buf[..], n + 2 * h, j + k, c);
      var u := buf[Row(j + k, c, g.ch)];
      if (if least then u < v else u > v) {
        v := u;
        w := j + k;
      }
      k := k + 1;
    }
    WindowReplicates(j, n, f, w - j);
    forall x | InWindow(j, x, f, n)
      ensures 0 <= x < n && Beats(least, v, LineAt(g, along, a, line, x, c))
    {
      WindowReplicated(j, n, f, x);
      WindowInside(j, x, f, n);
      assert Seen(g, along, a, line, h, x + h, c) == LineAt(g, along, a, line, x, c);
    }
  }

  // Line by line: positions before (line, j, c) are done, the rest is as it was.
  ghost predicate Done(g: Shape, along: bool, least: bool, a: seq<int>, f: nat, b: seq<int>, was: seq<int>,
                       line: nat, j: nat, c: nat) {
    && |a| == |b| == |was| == Size(g)
    && (forall l, i, k :: 0 <= l < Lines(g, along) && 0 <= i < Length(g, along) && 0 <= k < g.ch ==>
          if Earlier(l, i, k, line, j, c) then LineExtreme(g, along, least, a, f, l, i, k, LineAt(g, along, b, l, i, k))
          else LineAt(g, along, b, l, i, k) == LineAt(g, along, was, l, i, k))
  }

  predicate Earlier(l: int, i: int, k: int, line: int, j: int, c: int) {
    l < line || (l == line && (i < j || (i == j && k < c)))
  }

  lemma DoneStep(g: Shape, along: bool, least: bool, a: seq<int>, f: nat, b: seq<int>, was: seq<int>, line: nat,
                 j: nat, c: nat, v: int)
    requires Done(g, along, least, a, f, b, was, line, j, c)
    requires line < Lines(g, along) && j < Length(g, along) && c < g.ch
             && LineExtreme(g, along, least, a, f, line, j, c, v)
    ensures 0 <= LineAddr(g, along, line, j, c) < |b|
    ensures Done(g, along, least, a, f, b[LineAddr(g, along, line, j, c) := v], was, line, j, c + 1)
  {
    hide LineAddr, LineExtreme, Size;
    LineBounds(g, along, line, j, c);
    var b' := b[LineAddr(g, along, line, j, c) := v];
    forall l, i, k | 0 <= l < Lines(g, along) && 0 <= i < Length(g, along) && 0 <= k < g.ch
      ensures LineAt(g, along, b', l, i, k) == if l == line && i == j && k == c then v else LineAt(g, along, b, l, i, k)
    {
      LineBounds(g, along, l, i, k);
      if LineAddr(g, along, l, i, k) == LineAddr(g, along, line, j, c) { LineInjective(g, along, l, i, k, line, j, c); }
    }
  }

  lemma DoneTurns(g: Shape, along: bool, least: bool, a: seq<int>, f: nat, b: seq<int>, was: seq<int>, line: nat,
                  j: nat)
    ensures Done(g, along, least, a, f, b, was, line, j, g.ch) ==> Done(g, along, least, a, f, b, was, line, j + 1, 0)
    ensures Done(g, along, least, a, f, b, was, line, Length(g, along), 0) ==>
            Done(g, along, least, a, f, b, was, line + 1, 0, 0)
    ensures |a| == |b| == Size(g) && b == was ==> Done(g, along, least, a, f, b, was, 0, 0, 0)
  {
    hide LineAt, LineExtreme, Size;
  }

  // The buffer of one line does not depend on the lines already done.
  lemma SameLine(g: Shape, along: bool, least: bool, a: seq<int>, f: nat, b: seq<int>, was: seq<int>, line: nat,
                 h: nat, buf: seq<int>, m: nat)
    requires Done(g, along, least, a, f, b, was, line, 0, 0) && line < Lines(g, along) && Length(g, along) > 0
    requires Buffered(g, along, b, line, h, buf, m)
    ensures Buffered(g, along, was, line, h, buf, m)
  {
    hide LineAt, LineExtreme, Size;
  }

  // One pass over all rows or all columns. The input may be the output itself:
  // a line is in the buffer before it is overwritten.
  method Pass(g: Shape, along: bool, least: bool, a: array<int>, f: nat, buf: array<int>, b: array<int>)
    requires a.Length == b.Length == Size(g) && Length(g, along) > 0 && a != buf && b != buf
    requires (Length(g, along) + 2 * (f / 2)) * g.ch <= buf.Length
    modifies buf, b
    ensures Done(g, along, least, old(a[..]), f, b[..], old(b[..]), Lines(g, along), 0, 0)
    ensures a != b ==> a[..] == old(a[..])
  {
    hide LineAt, LineAddr, Buffered, LineExtreme, Row, Size, Done;
    ghost var s, was := a[..], b[..];
    DoneTurns(g, along, least, s, f, was, was, 0, 0);
    var line, n := 0, Length(g, along);
    while line < Lines(g, along)
      invariant 0 <= line <= Lines(g, along) && (a != b ==> a[..] == s)
      invariant Done(g, along, least, s, f, b[..], was, line, 0, 0)
    {
      FillBuffer(g, along, a, line, buf, f / 2);
      if a == b { SameLine(g, along, least, s, f, b[..], was, line, f / 2, buf[..], n + 2 * (f / 2)); }
      var j := 0;
      while j < n
        invariant 0 <= j <= n && (a != b ==> a[..] == s)
        invariant Buffered(g, along, s, line, f / 2, buf[..], n + 2 * (f / 2))
        invariant Done(g, along, least, s, f, b[..], was, line, j, 0)
      {
        var c := 0;
        while c < g.ch
          invariant 0 <= c <= g.ch && (a != b ==> a[..] == s)
          invariant Buffered(g, along, s, line, f / 2, buf[..], n + 2 * (f / 2))
          invariant Done(g, along, least, s, f, b[..], was, line, j, c)
        {
          var v := WindowValue(g, along, least, s, line, f, buf, j, c);
          DoneStep(g, along, least, s, f, b[..], was, line, j, c, v);
          ghost var now := b[..];
          b[LineAddr(g, along, line, j, c)] := v;
          assert b[..] == now[LineAddr(g, along, line, j, c) := v];
          c := c + 1;
        }
        DoneTurns(g, along, least, s, f, b[..], was, line, j);
        j := j + 1;
      }
      DoneTurns(g, along, least, s, f, b[..], was, line, j);
      line := line + 1;
    }
  }

  // ---- both passes ----

  // The extreme of the row extremes is the extreme of the square.
  lemma TwoPasses(g: Shape, least: bool, a: seq<int>, f: nat, mid: seq<int>, was: seq<int>, b: seq<int>)
    requires Done(g, true, least, a, f, mid, was, g.rows, 0, 0) && Done(g, false, least, mid, f, b, mid, g.cols, 0, 0)
    ensures Extremes(g, least, a, f, b)
  {
    hide InWindow, Size, Addr;
    forall i, j, c | Inside(g, i, j, c)
      ensures Extreme(g, least, a, f, i, j, c, At(g, b, i, j, c))
    {
      var v := At(g, b, i, j, c);
      assert v == LineAt(g, false, b, j, i, c) && LineExtreme(g, false, least, mid, f, j, i, c, v);
      SquareExtreme(g, least, a, f, mid, was, i, j, c, v);
    }
  }

  lemma SquareExtreme(g: Shape, least: bool, a: seq<int>, f: nat, mid: seq<int>, was: seq<int>, i: int, j: int,
                      c: int, v: int)
    requires Done(g, true, least, a, f, mid, was, g.rows, 0, 0) && Inside(g, i, j, c)
    requires LineExtreme(g, false, least, mid, f, j, i, c, v)
    ensures Extreme(g, least, a, f, i, j, c, v)
  {
    hide Size, Addr;
    var y :| InWindow(i, y, f, g.rows) && LineAt(g, false, mid, j, y, c) == v;
    RowExtreme(g, least, a, f, mid, was, y, j, c);
    var x :| InWindow(j, x, f, g.cols) && LineAt(g, true, a, y, x, c) == LineAt(g, false, mid, j, y, c);
    assert At(g, a, y, x, c) == v;
    forall y', x' | InWindow(i, y', f, g.rows) && InWindow(j, x', f, g.cols)
      ensures Beats(least, v, At(g, a, y', x', c))
    {
      RowExtreme(g, least, a, f, mid, was, y', j, c);
      assert Beats(least, v, LineAt(g, false, mid, j, y', c));
      assert Beats(least, LineAt(g, false, mid, j, y', c), LineAt(g, true, a, y', x', c));
    }
  }

  lemma RowExtreme(g: Shape, least: bool, a: seq<int>, f: nat, mid: seq<int>, was: seq<int>, y: int, j: int, c: int)
    requires Done(g, true, least, a, f, mid, was, g.rows, 0, 0) && Inside(g, y, j, c)
    ensures LineExtreme(g, true, least, a, f, y, j, c, LineAt(g, false, mid, j, y, c))
  {
    hide InWindow, Size, Addr, LineExtreme;
    assert LineAt(g, true, mid, y, j, c) == LineAt(g, false, mid, j, y, c);
  }

  // Erosion takes least values, dilation greatest ones.
  method Morph(g: Shape, least: bool, a: array<int>, f: nat, b: array<int>)
    requires a.Length == b.Length == Size(g) && g.rows > 0 && g.cols > 0 && a != b
    modifies b
    ensures Extremes(g, least, a[..], f, b[..])
  {
    hide Done, Size, Extremes;
    var buf := new int[g.ch * (f + if g.rows > g.cols then g.rows else g.cols)];
    RoomFor(g, f, buf.Length);
    Pass(g, true, least, a, f, buf, b);
    ghost var mid := b[..];
    Pass(g, false, least, b, f, buf, b);
    TwoPasses(g, least, a[..], f, mid, old(b[..]), b[..]);
  }

  lemma RoomFor(g: Shape, f: nat, room: nat)
    requires room == g.ch * (f + if g.rows > g.cols then g.rows else g.cols)
    ensures (g.rows + 2 * (f / 2)) * g.ch <= room && (g.cols + 2 * (f / 2)) * g.ch <= room
  {
    var m := f + if g.rows > g.cols then g.rows else g.cols;
    Fits(g.rows + 2 * (f / 2), m, g.ch);
    Fits(g.cols + 2 * (f / 2), m, g.ch);
  }

  // ---- laws ----

  function Negated(a: seq<int>): seq<int> { seq(|a|, e requires 0 <= e < |a| => -a[e]) }

  // Dilation is erosion of the negative.
  lemma Dual(g: Shape, a: seq<int>, f: nat, b: seq<int>)
    requires |a| == |b| == Size(g)
    ensures Extremes(g, false, a, f, b) <==> Extremes(g, true, Negated(a), f, Negated(b))
  {
    hide InWindow, Size, Addr;
    forall i, j, c | Inside(g, i, j, c)
      ensures Extreme(g, false, a, f, i, j, c, At(g, b, i, j, c)) <==>
              Extreme(g, true, Negated(a), f, i, j, c, At(g, Negated(b), i, j, c))
    {
      DualAt(g, a, f, i, j, c, At(g, b, i, j, c));
      AddrBounds(g, i, j, c);
    }
  }

  lemma DualAt(g: Shape, a: seq<int>, f: nat, i: int, j: int, c: int, v: int)
    requires |a| == Size(g) && 0 <= c < g.ch
    ensures Extreme(g, false, a, f, i, j, c, v) <==> Extreme(g, true, Negated(a), f, i, j, c, -v)
  {
    hide Size, Addr;
    forall y, x | Inside(g, y, x, c)
      ensures At(g, Negated(a), y, x, c) == -At(g, a, y, x, c)
    {
      AddrBounds(g, y, x, c);
    }
    if Extreme(g, false, a, f, i, j, c, v) {
      var y, x :| InWindow(i, y, f, g.rows) && InWindow(j, x, f, g.cols) && At(g, a, y, x, c) == v;
      assert At(g, Negated(a), y, x, c) == -v;
    }
    if Extreme(g, true, Negated(a), f, i, j, c, -v) {
      var y, x :| InWindow(i, y, f, g.rows) && InWindow(j, x, f, g.cols) && At(g, Negated(a), y, x, c) == -v;
      assert At(g, a, y, x, c) == v;
    }
  }

  // A window of odd size p around the positions of a window of odd size q is a
  // window of size p + q - 1, at the borders too.
  function Between(i: int, x: int, q: nat): int {
    if x < i - q / 2 then i - q / 2 else if x > i + q / 2 then i + q / 2 else x
  }

  lemma WindowsCompose(i: int, x: int, p: nat, q: nat, n: nat)
    requires p % 2 == 1 && q % 2 == 1 && 0 <= i < n
    ensures InWindow(i, x, p + q - 1, n) ==> InWindow(i, Between(i, x, q), q, n) && InWindow(Between(i, x, q), x, p, n)
    ensures forall y :: InWindow(i, y, q, n) && InWindow(y, x, p, n) ==> InWindow(i, x, p + q - 1, n)
  {
  }

  // An image has one erosion and one dilation of each size.
  lemma ExtremesUnique(g: Shape, least: bool, a: seq<int>, f: nat, b: seq<int>, d: seq<int>)
    requires Extremes(g, least, a, f, b) && Extremes(g, least, a, f, d)
    ensures b == d
  {
    hide InWindow, Size, Addr, Extreme;
    forall e | 0 <= e < |b|
      ensures b[e] == d[e]
    {
      var i, j, c := Pixel(g, e);
      assert Extreme(g, least, a, f, i, j, c, At(g, b, i, j, c)) && Extreme(g, least, a, f, i, j, c, At(g, d, i, j, c));
      ExtremeUnique(g, least, a, f, i, j, c, At(g, b, i, j, c), At(g, d, i, j, c));
    }
  }

  // Two erosions or two dilations of odd sizes are one of the joint size.
  lemma Composes(g: Shape, least: bool, a: seq<int>, p: nat, q: nat, b: seq<int>, d: seq<int>, e: seq<int>)
    requires p % 2 == 1 && q % 2 == 1 && Extremes(g, least, a, p, b) && Extremes(g, least, b, q, d)
    ensures Extremes(g, least, a, p + q - 1, e) <==> e == d
  {
    hide InWindow, Size, Addr, Extreme;
    forall i, j, c | Inside(g, i, j, c)
      ensures Extreme(g, least, a, p + q - 1, i, j, c, At(g, d, i, j, c))
    {
      ComposesAt(g, least, a, p, q, b, i, j, c, At(g, d, i, j, c));
    }
    if Extremes(g, least, a, p + q - 1, e) { ExtremesUnique(g, least, a, p + q - 1, e, d); }
  }

  lemma ComposesAt(g: Shape, least: bool, a: seq<int>, p: nat, q: nat, b: seq<int>, i: int, j: int, c: int, v: int)
    requires p % 2 == 1 && q % 2 == 1 && Extremes(g, least, a, p, b) && Inside(g, i, j, c)
             && Extreme(g, least, b, q, i, j, c, v)
    ensures Extreme(g, least, a, p + q - 1, i, j, c, v)
  {
    hide Size, Addr;
    var y, x :| InWindow(i, y, q, g.rows) && InWindow(j, x, q, g.cols) && At(g, b, y, x, c) == v;
    WindowInside(i, y, q, g.rows);
    WindowInside(j, x, q, g.cols);
    assert Extreme(g, least, a, p, y, x, c, v);
    var y', x' :| InWindow(y, y', p, g.rows) && InWindow(x, x', p, g.cols) && At(g, a, y', x', c) == v;
    WindowsCompose(i, y', p, q, g.rows);
    WindowsCompose(j, x', p, q, g.cols);
    forall r, s | InWindow(i, r, p + q - 1, g.rows) && InWindow(j, s, p + q - 1, g.cols)
      ensures Beats(least, v, At(g, a, r, s, c))
    {
      ComposesBeats(g, least, a, p, q, b, i, j, c, v, r, s);
    }
  }

  lemma ComposesBeats(g: Shape, least: bool, a: seq<int>, p: nat, q: nat, b: seq<int>, i: int, j: int, c: int, v: int,
                      r: int, s: int)
    requires p % 2 == 1 && q % 2 == 1 && Extremes(g, least, a, p, b) && Inside(g, i, j, c)
             && Extreme(g, least, b, q, i, j, c, v)
    requires InWindow(i, r, p + q - 1, g.rows) && InWindow(j, s, p + q - 1, g.cols)
    ensures Beats(least, v, At(g, a, r, s, c))
  {
    hide Size, Addr;
    WindowsCompose(i, r, p, q, g.rows);
    WindowsCompose(j, s, p, q, g.cols);
    var m, n := Between(i, r, q), Between(j, s, q);
    WindowInside(i, m, q, g.rows);
    WindowInside(j, n, q, g.cols);
    assert Beats(least, v, At(g, b, m, n, c));
    assert Extreme(g, least, a, p, m, n, c, At(g, b, m, n, c));
    assert Beats(least, At(g, b, m, n, c), At(g, a, r, s, c));
  }

  lemma WindowInside(i: int, x: int, f: nat, n: nat)
    requires InWindow(i, x, f, n)
    ensures 0 <= x < n
  {
  }
}
