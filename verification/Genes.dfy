/**
 The genetic search for pixel-comparison features: what every individual of
 every generation satisfies, and what its feature tests.
 */
module Genes {

  const POINT_MAX := 8
  const POINT_MIN := 3

  // A pixel of one of the three scales; an unused slot has z == -1.
  datatype Point = Point(x: int, y: int, z: int)

  // The sizes of the three scales.
  datatype Scales = Scales(rows: seq<int>, cols: seq<int>)

  predicate Fits(g: Scales, p: Point) {
    |g.rows| == |g.cols| == 3 && 0 <= p.z < 3 && 0 <= p.x < g.cols[p.z] && 0 <= p.y < g.rows[p.z]
  }

  // One side of a feature: its first n slots hold different points, the others
  // are marked.
  ghost predicate Slots(g: Scales, s: seq<Point>, n: int) {
    && |s| == POINT_MAX && 0 <= n <= POINT_MAX
    && (forall i :: 0 <= i < n ==> Fits(g, s[i]))
    && (forall i, j :: 0 <= i < j < n ==> s[i] != s[j])
    && (forall i :: n <= i < POINT_MAX ==> s[i].z == -1)
  }

  // No point is on both sides.
  ghost predicate Apart(pos: seq<Point>, pk: int, neg: seq<Point>, nk: int)
    requires 0 <= pk <= |pos| && 0 <= nk <= |neg|
  {
    forall i, j :: 0 <= i < pk && 0 <= j < nk ==> pos[i] != neg[j]
  }

  function Max(a: int, b: int): int { if a > b then a else b }

  // Every slot marked as unused.
  method MarkSlots(s: seq<Point>) returns (t: seq<Point>)
    requires |s| == POINT_MAX
    ensures |t| == POINT_MAX && forall i :: 0 <= i < POINT_MAX ==> t[i].z == -1
  {
    t := s;
    var j := 0;
    while j < POINT_MAX
      invariant 0 <= j <= POINT_MAX && |t| == POINT_MAX && forall i :: 0 <= i < j ==> t[i].z == -1
    {
      t := t[j := t[j].(z := -1)];
      j := j + 1;
    }
  }

  // The draws in their order, each point at its first appearance only.
  function Firsts(draws: seq<Point>): seq<Point> {
    if draws == [] then []
    else
      var seen := Firsts(draws[..|draws| - 1]);
      var p := draws[|draws| - 1];
      if p in seen then seen else seen + [p]
  }

  lemma FirstsNext(draws: seq<Point>, k: nat)
    requires k < |draws|
    ensures Firsts(draws[..k + 1]) ==
            if draws[k] in Firsts(draws[..k]) then Firsts(draws[..k]) else Firsts(draws[..k]) + [draws[k]]
  {
    assert draws[..k + 1][..k] == draws[..k];
  }

  // Draws that were all seen before change nothing.
  lemma {:induction false} FirstsSkip(draws: seq<Point>, k: nat, m: nat)
    requires k <= m <= |draws| && forall i :: k <= i < m ==> draws[i] in Firsts(draws[..k])
    ensures Firsts(draws[..m]) == Firsts(draws[..k])
  {
    if k < m {
      FirstsSkip(draws, k, m - 1);
      FirstsNext(draws, m - 1);
    }
  }

  // Later draws only add points behind the first ones.
  lemma {:induction false} FirstsPrefix(draws: seq<Point>, k: nat)
    requires k <= |draws|
    ensures Firsts(draws[..k]) <= Firsts(draws)
    decreases |draws| - k
  {
    if k < |draws| {
      FirstsNext(draws, k);
      FirstsPrefix(draws, k + 1);
    } else {
      assert draws[..k] == draws;
    }
  }

  lemma {:induction false} FirstsDiffer(draws: seq<Point>)
    ensures forall p :: p in Firsts(draws) <==> p in draws
    ensures forall i, j :: 0 <= i < j < |Firsts(draws)| ==> Firsts(draws)[i] != Firsts(draws)[j]
  {
    if draws != [] {
      var front := draws[..|draws| - 1];
      assert draws == front + [draws[|draws| - 1]];
      FirstsDiffer(front);
    }
  }

  // One slot closed up, the last used one marked.
  method CloseSlot(s: seq<Point>, n: int, victim: int) returns (t: seq<Point>)
    requires |s| == POINT_MAX && 0 <= victim < n <= POINT_MAX
    ensures |t| == POINT_MAX && t[..n - 1] == s[..victim] + s[victim + 1..n]
    ensures t[n - 1].z == -1 && t[n..] == s[n..]
  {
    t := s;
    var j := victim;
    while j < n - 1
      invariant victim <= j < n && |t| == POINT_MAX && t[..victim] == s[..victim] && t[n..] == s[n..]
      invariant forall k :: victim <= k < j ==> t[k] == s[k + 1]
      invariant forall k :: j <= k < n ==> t[k] == s[k]
    {
      t := t[j := t[j + 1]];
      j := j + 1;
    }
    t := t[n - 1 := t[n - 1].(z := -1)];
    assert forall k :: 0 <= k < n - 1 ==> t[k] == (s[..victim] + s[victim + 1..n])[k];
  }

  lemma OpenedSlots(g: Scales, s: seq<Point>, n: int, p: Point)
    requires Slots(g, s, n) && n < POINT_MAX && Fits(g, p) && p !in s[..n]
    ensures Slots(g, s[n := p], n + 1) && s[n := p][..n + 1] == s[..n] + [p]
  {
  }

  lemma ClosedSlots(g: Scales, s: seq<Point>, n: int, victim: int, t: seq<Point>)
    requires Slots(g, s, n) && 0 <= victim < n
    requires |t| == POINT_MAX && t[..n - 1] == s[..victim] + s[victim + 1..n] && t[n - 1].z == -1 && t[n..] == s[n..]
    ensures Slots(g, t, n - 1)
  {
    forall k | 0 <= k < n - 1
      ensures t[k] == s[if k < victim then k else k + 1]
    {
      assert t[k] == t[..n - 1][k];
    }
    forall k | n - 1 <= k < POINT_MAX
      ensures t[k].z == -1
    {
      if k >= n { assert t[k] == t[n..][k - n] == s[n..][k - n]; }
    }
  }

  lemma ApartWith(pos: seq<Point>, pk: int, neg: seq<Point>, nk: int, p: Point)
    requires 0 <= pk <= |pos| && 0 <= nk <= |neg| && p !in pos[..pk] && p !in neg[..nk] && Apart(pos, pk, neg, nk)
    ensures pk < |pos| ==> Apart(pos[pk := p], pk + 1, neg, nk)
    ensures nk < |neg| ==> Apart(pos, pk, neg[nk := p], nk + 1)
  {
    NotAmong(pos, pk, p);
    NotAmong(neg, nk, p);
  }

  lemma ApartRefined(pos: seq<Point>, pk: int, neg: seq<Point>, nk: int, p: Point, i: int, j: int)
    requires 0 <= i < pk <= |pos| && 0 <= j < nk <= |neg| && p !in pos[..pk] && p !in neg[..nk]
             && Apart(pos, pk, neg, nk)
    ensures Apart(pos[i := p], pk, neg, nk) && Apart(pos, pk, neg[j := p], nk)
  {
    NotAmong(pos, pk, p);
    NotAmong(neg, nk, p);
  }

  lemma ApartLess(pos: seq<Point>, pk: int, neg: seq<Point>, nk: int, victim: int, t: seq<Point>)
    requires 0 <= victim < pk <= |pos| && 0 <= nk <= |neg| && Apart(pos, pk, neg, nk)
    requires |t| == |pos| && t[..pk - 1] == pos[..victim] + pos[victim + 1..pk]
    ensures Apart(t, pk - 1, neg, nk)
  {
    forall i | 0 <= i < pk - 1
      ensures t[i] == pos[if i < victim then i else i + 1]
    {
      assert t[i] == t[..pk - 1][i];
    }
  }

  lemma ApartSwapped(pos: seq<Point>, pk: int, neg: seq<Point>, nk: int)
    requires 0 <= pk <= |pos| && 0 <= nk <= |neg|
    ensures Apart(pos, pk, neg, nk) <==> Apart(neg, nk, pos, pk)
  {
  }

  lemma NotAmong(s: seq<Point>, n: int, p: Point)
    requires 0 <= n <= |s| && p !in s[..n]
    ensures forall i :: 0 <= i < n ==> s[i] != p
  {
    assert forall i :: 0 <= i < n ==> s[..n][i] == s[i];
  }

  class Gene {
    var pk: int
    var nk: int
    var size: int
    var pos: seq<Point>
    var neg: seq<Point>

    // One to eight different points of each sign, at least three in all, each
    // inside its scale, and a negative z exactly in the unused slots.
    ghost predicate Valid(g: Scales)
      reads this
    {
      && Slots(g, pos, pk) && Slots(g, neg, nk) && pk >= 1 && nk >= 1
      && pk + nk >= POINT_MIN && size == Max(pk, nk)
    }

    constructor ()
      ensures |pos| == |neg| == POINT_MAX
    {
      pos := seq(POINT_MAX, _ => Point(0, 0, -1));
      neg := pos;
    }

    // The point is already one of the feature's.
    method Exists(p: Point) returns (found: bool)
      requires 0 <= pk <= |pos| && 0 <= nk <= |neg|
      ensures found <==> p in pos[..pk] || p in neg[..nk]
    {
      var i := 0;
      while i < pk
        invariant 0 <= i <= pk && p !in pos[..i]
      {
        if p == pos[i] {
          assert pos[..pk][i] == p;
          return true;
        }
        i := i + 1;
      }
      i := 0;
      while i < nk
        invariant 0 <= i <= nk && p !in neg[..i]
      {
        if p == neg[i] {
          assert neg[..nk][i] == p;
          return true;
        }
        i := i + 1;
      }
      return false;
    }

    // The first draw that is not one of the feature's points yet. A source that
    // finds none draws for ever.
    method DrawFresh(draws: seq<Point>, from: nat) returns (next: nat)
      requires 0 <= pk <= |pos| && 0 <= nk <= |neg| && from <= |draws|
      ensures from <= next <= |draws|
      ensures forall k :: from <= k < next ==> draws[k] in pos[..pk] || draws[k] in neg[..nk]
      ensures next < |draws| ==> draws[next] !in pos[..pk] && draws[next] !in neg[..nk]
    {
      next := from;
      while next < |draws|
        invariant from <= next <= |draws|
        invariant forall k :: from <= k < next ==> draws[k] in pos[..pk] || draws[k] in neg[..nk]
      {
        var old_ := Exists(draws[next]);
        if !old_ {
          return;
        }
        next := next + 1;
      }
    }

    // What is drawn so far: a of the positive points and b of the negative ones.
    ghost predicate Drawing(g: Scales, draws: seq<Point>, k: nat, a: int, b: int)
      reads this
    {
      && |pos| == |neg| == POINT_MAX && 0 <= a <= pk <= POINT_MAX && 0 <= b <= nk <= POINT_MAX
      && Slots(g, pos, a) && Slots(g, neg, b)
      && k <= |draws| && Firsts(draws[..k]) == pos[..a] + neg[..b]
    }

    // One more point by the rejection loop, with some draw still to be new.
    method DrawNext(g: Scales, draws: seq<Point>, from: nat, ghost a: int, ghost b: int) returns (next: nat)
      requires Drawing(g, draws, from, a, b) && a + b < |Firsts(draws)| && forall q :: q in draws ==> Fits(g, q)
      ensures from <= next < |draws| && draws[next] !in pos[..a] && draws[next] !in neg[..b]
      ensures Firsts(draws[..next + 1]) == pos[..a] + neg[..b] + [draws[next]]
    {
      hide Fits, Firsts;
      next := DrawFresh(draws, from);
      forall k | from <= k < next
        ensures draws[k] in Firsts(draws[..from])
      {
        UsedOnly(g, pos, a, pk, draws[k]);
        UsedOnly(g, neg, b, nk, draws[k]);
      }
      FirstsSkip(draws, from, next);
      assert draws[..|draws|] == draws;
      assert next < |draws|;
      UsedOnly(g, pos, a, pk, draws[next]);
      UsedOnly(g, neg, b, nk, draws[next]);
      FirstsNext(draws, next);
    }

    method DrawPositive(g: Scales, draws: seq<Point>) returns (k: nat)
      requires Drawing(g, draws, 0, 0, 0) && pk + nk <= |Firsts(draws)| && forall q :: q in draws ==> Fits(g, q)
      modifies `pos
      ensures Drawing(g, draws, k, pk, 0)
    {
      hide Fits, Firsts, Slots;
      k := 0;
      var i := 0;
      while i < pk
        invariant 0 <= i <= pk && Drawing(g, draws, k, i, 0)
      {
        var next := DrawNext(g, draws, k, i, 0);
        OpenedSlots(g, pos, i, draws[next]);
        assert neg[..0] == [];
        pos := pos[i := draws[next]];
        k, i := next + 1, i + 1;
      }
    }

    method DrawNegative(g: Scales, draws: seq<Point>, from: nat) returns (k: nat)
      requires Drawing(g, draws, from, pk, 0) && pk + nk <= |Firsts(draws)| && forall q :: q in draws ==> Fits(g, q)
      modifies `neg
      ensures Drawing(g, draws, k, pk, nk)
    {
      hide Fits, Firsts, Slots;
      k := from;
      var i := 0;
      while i < nk
        invariant 0 <= i <= nk && Drawing(g, draws, k, pk, i)
      {
        var next := DrawNext(g, draws, k, pk, i);
        OpenedSlots(g, neg, i, draws[next]);
        assert pos[..pk] + (neg[..i] + [draws[next]]) == pos[..pk] + neg[..i] + [draws[next]];
        neg := neg[i := draws[next]];
        k, i := next + 1, i + 1;
      }
    }

    // A new individual: counts of one to seven, and the first points of the draws
    // of which no two are the same.
    method Randomize(g: Scales, p: int, n: int, draws: seq<Point>)
      requires |pos| == |neg| == POINT_MAX && 1 <= p < POINT_MAX && 1 <= n < POINT_MAX && p + n >= POINT_MIN
      requires p + n <= |Firsts(draws)| && forall q :: q in draws ==> Fits(g, q)
      modifies this
      ensures Valid(g) && pk == p && nk == n && Apart(pos, pk, neg, nk)
      ensures pos[..p] + neg[..n] == Firsts(draws)[..p + n]
    {
      hide Fits, Firsts, Slots, Apart, Max;
      pk, nk, size := p, n, Max(p, n);
      pos := MarkSlots(pos);
      neg := MarkSlots(neg);
      NoneUsed(g, pos);
      NoneUsed(g, neg);
      NoneDrawn(draws);
      var k := DrawPositive(g, draws);
      k := DrawNegative(g, draws, k);
      FirstsPrefix(draws, k);
      FirstsDiffer(draws[..k]);
      DifferApart(pos, p, neg, n, Firsts(draws[..k]));
    }

    // One attempt at a mutation: 0 adds a point, 1 removes one, otherwise one is
    // replaced. The side is the drawn one unless that is full or has one point.
    method Mutate(g: Scales, kind: nat, positive: bool, victim: nat, draws: seq<Point>) returns (done: bool)
      requires Valid(g) && forall q :: q in draws ==> Fits(g, q)
      modifies this
      ensures Valid(g) && (old(SidesApart()) ==> SidesApart())
      ensures !done ==> pk == old(pk) && nk == old(nk) && pos == old(pos) && neg == old(neg)
      ensures done && kind == 0 ==> pk + nk == old(pk + nk) + 1
      ensures done && kind == 1 ==> pk + nk == old(pk + nk) - 1
      ensures done && kind > 1 ==> pk == old(pk) && nk == old(nk)
    {
      hide Slots, Fits, SidesApart;
      OpenValid(g);
      var side := positive;
      if kind == 0 {
        if pk == POINT_MAX && nk == POINT_MAX {
          return false;
        }
        if (if side then pk else nk) + 1 > POINT_MAX { side := !side; }
        done := Add(g, side, draws);
      } else if kind == 1 {
        if pk + nk <= POINT_MIN {
          return false;
        }
        if (if side then pk else nk) - 1 <= 0 { side := !side; }
        Remove(g, side, victim);
        done := true;
      } else {
        done := Refine(g, side, victim, draws);
      }
    }

    // No point is on both sides.
    ghost predicate SidesApart()
      reads this
    {
      0 <= pk <= |pos| && 0 <= nk <= |neg| && Apart(pos, pk, neg, nk)
    }

    method Add(g: Scales, side: bool, draws: seq<Point>) returns (done: bool)
      requires Valid(g) && (forall q :: q in draws ==> Fits(g, q)) && (if side then pk else nk) < POINT_MAX
      modifies this
      ensures Valid(g) && (old(SidesApart()) ==> SidesApart())
      ensures !done ==> pk == old(pk) && nk == old(nk) && pos == old(pos) && neg == old(neg)
      ensures done ==> pk + nk == old(pk + nk) + 1
    {
      hide Slots, Fits, Apart;
      OpenValid(g);
      var next := DrawFresh(draws, 0);
      if next == |draws| {
        return false;
      }
      var p := draws[next];
      if Apart(pos, pk, neg, nk) { ApartWith(pos, pk, neg, nk, p); }
      if side {
        OpenedSlots(g, pos, pk, p);
        pos, pk := pos[pk := p], pk + 1;
      } else {
        OpenedSlots(g, neg, nk, p);
        neg, nk := neg[nk := p], nk + 1;
      }
      size := Max(pk, nk);
      return true;
    }

    method Remove(g: Scales, side: bool, victim: nat)
      requires Valid(g) && pk + nk > POINT_MIN && (if side then pk else nk) > 1
      modifies this
      ensures Valid(g) && (old(SidesApart()) ==> SidesApart()) && pk + nk == old(pk + nk) - 1
    {
      hide Slots, Fits, Apart;
      OpenValid(g);
      if side {
        var i := victim % pk;
        var t := CloseSlot(pos, pk, i);
        ClosedSlots(g, pos, pk, i, t);
        if Apart(pos, pk, neg, nk) { ApartLess(pos, pk, neg, nk, i, t); }
        pos, pk := t, pk - 1;
      } else {
        var i := victim % nk;
        var t := CloseSlot(neg, nk, i);
        ClosedSlots(g, neg, nk, i, t);
        ApartSwapped(pos, pk, neg, nk);
        if Apart(neg, nk, pos, pk) { ApartLess(neg, nk, pos, pk, i, t); }
        ApartSwapped(pos, pk, t, nk - 1);
        neg, nk := t, nk - 1;
      }
      size := Max(pk, nk);
    }

    method Refine(g: Scales, side: bool, victim: nat, draws: seq<Point>) returns (done: bool)
      requires Valid(g) && forall q :: q in draws ==> Fits(g, q)
      modifies this
      ensures Valid(g) && (old(SidesApart()) ==> SidesApart()) && pk == old(pk) && nk == old(nk)
      ensures !done ==> pos == old(pos) && neg == old(neg)
    {
      hide Slots, Fits, Apart;
      OpenValid(g);
      var next := DrawFresh(draws, 0);
      if next == |draws| {
        return false;
      }
      var p := draws[next];
      if Apart(pos, pk, neg, nk) { ApartRefined(pos, pk, neg, nk, p, victim % pk, victim % nk); }
      if side {
        RefinedSlots(g, pos, pk, victim % pk, p);
        pos := pos[victim % pk := p];
      } else {
        RefinedSlots(g, neg, nk, victim % nk, p);
        neg := neg[victim % nk := p];
      }
      return true;
    }

    lemma OpenValid(g: Scales)
      requires Valid(g)
      ensures |pos| == |neg| == POINT_MAX && 1 <= pk <= POINT_MAX && 1 <= nk <= POINT_MAX
    {
    }

    // The individual becomes a copy of another one.
    method CopyFrom(parent: Gene)
      modifies this
      ensures pk == old(parent.pk) && nk == old(parent.nk) && size == old(parent.size)
      ensures pos == old(parent.pos) && neg == old(parent.neg)
    {
      pk, nk, size, pos, neg := parent.pk, parent.nk, parent.size, parent.pos, parent.neg;
    }

    // The positive points of one individual and the negative ones of another.
    method Hybrid(g: Scales, dad: Gene, mum: Gene)
      requires dad.Valid(g) && mum.Valid(g) && dad != this && mum != this && dad.pk + mum.nk >= POINT_MIN
      requires |pos| == |neg| == POINT_MAX
      modifies this
      ensures Valid(g) && pk == dad.pk && nk == mum.nk
      ensures pos[..pk] == dad.pos[..dad.pk] && neg[..nk] == mum.neg[..mum.nk]
    {
      var p := CopySlots(pos, dad.pos, dad.pk);
      var n := CopySlots(neg, mum.neg, mum.nk);
      CopiedSlots(g, dad.pos, dad.pk, p);
      CopiedSlots(g, mum.neg, mum.nk, n);
      pos, pk, neg, nk := p, dad.pk, n, mum.nk;
      size := Max(pk, nk);
    }
  }

  lemma RefinedSlots(g: Scales, s: seq<Point>, n: int, victim: int, p: Point)
    requires Slots(g, s, n) && 0 <= victim < n && Fits(g, p) && p !in s[..n]
    ensures Slots(g, s[victim := p], n)
  {
  }

  // A marked slot holds no point that fits.
  lemma UsedOnly(g: Scales, s: seq<Point>, n: int, k: int, p: Point)
    requires Slots(g, s, n) && n <= k <= POINT_MAX && Fits(g, p)
    ensures p in s[..k] <==> p in s[..n]
  {
    assert s[..k] == s[..n] + s[n..k];
    assert forall q :: q in s[n..k] ==> q.z == -1;
  }

  lemma NoneUsed(g: Scales, s: seq<Point>)
    requires |s| == POINT_MAX && forall i :: 0 <= i < POINT_MAX ==> s[i].z == -1
    ensures Slots(g, s, 0) && s[..0] == []
  {
  }

  lemma NoneDrawn(draws: seq<Point>)
    ensures Firsts(draws[..0]) == []
  {
  }

  lemma DifferApart(pos: seq<Point>, p: int, neg: seq<Point>, n: int, all: seq<Point>)
    requires 0 <= p <= |pos| && 0 <= n <= |neg| && all == pos[..p] + neg[..n]
    requires forall i, j :: 0 <= i < j < |all| ==> all[i] != all[j]
    ensures Apart(pos, p, neg, n)
  {
    forall i, j | 0 <= i < p && 0 <= j < n
      ensures pos[i] != neg[j]
    {
      assert all[i] == pos[i] && all[p + j] == neg[j];
    }
  }

  // All slots marked, then the first n taken from another side.
  method CopySlots(s: seq<Point>, from: seq<Point>, n: int) returns (t: seq<Point>)
    requires |s| == |from| == POINT_MAX && 0 <= n <= POINT_MAX
    ensures |t| == POINT_MAX && t[..n] == from[..n] && forall i :: n <= i < POINT_MAX ==> t[i].z == -1
  {
    t := MarkSlots(s);
    var j := 0;
    while j < n
      invariant 0 <= j <= n && |t| == POINT_MAX && t[..j] == from[..j] && forall i :: j <= i < POINT_MAX ==>
                t[i].z == -1
    {
      t := t[j := from[j]];
      j := j + 1;
    }
  }

  lemma CopiedSlots(g: Scales, from: seq<Point>, n: int, t: seq<Point>)
    requires Slots(g, from, n) && |t| == POINT_MAX && t[..n] == from[..n]
    requires forall i :: n <= i < POINT_MAX ==> t[i].z == -1
    ensures Slots(g, t, n)
  {
    forall i | 0 <= i < n
      ensures t[i] == from[i]
    {
      assert t[i] == t[..n][i];
    }
  }

  // ---- generations ----

  datatype Attempt = Attempt(kind: nat, positive: bool, victim: nat, draws: seq<Point>)

  // How one individual of the next generation comes about.
  datatype Step =
    | Survive
    | Mutation(parent: nat, attempts: seq<Attempt>)
    | Crossing(dad: nat, mum: nat)
    | Fresh(p: int, n: int, draws: seq<Point>)

  // Parents are survivors and points lie in their scale. The rejection loop of a
  // new individual ends: enough different points are among its draws.
  ghost predicate LegalStep(g: Scales, step: Step, survivors: nat) {
    match step
    case Survive => true
    case Mutation(parent, attempts) =>
      parent < survivors && forall k, q :: 0 <= k < |attempts| && q in attempts[k].draws ==> Fits(g, q)
    case Crossing(dad, mum) => dad < survivors && mum < survivors && dad != mum
    case Fresh(p, n, draws) =>
      && 1 <= p < POINT_MAX && 1 <= n < POINT_MAX && POINT_MIN <= p + n <= |Firsts(draws)|
      && (forall q :: q in draws ==> Fits(g, q))
  }

  ghost predicate LegalSteps(g: Scales, steps: seq<Step>, survivors: nat) {
    && survivors <= |steps|
    && (forall i :: 0 <= i < survivors ==> steps[i].Survive?)
    && (forall i :: survivors <= i < |steps| ==> LegalStep(g, steps[i], survivors))
  }

  ghost predicate Distinct(genes: seq<Gene>) {
    forall i, j :: 0 <= i < j < |genes| ==> genes[i] != genes[j]
  }

  ghost predicate AllValid(g: Scales, genes: seq<Gene>)
    reads set i | 0 <= i < |genes| :: genes[i]
  {
    forall i :: 0 <= i < |genes| ==> genes[i].Valid(g)
  }

  // Attempts until one changes the individual.
  method MutateUntil(g: Scales, gene: Gene, attempts: seq<Attempt>)
    requires gene.Valid(g) && forall k, q :: 0 <= k < |attempts| && q in attempts[k].draws ==> Fits(g, q)
    modifies gene
    ensures gene.Valid(g)
  {
    hide Slots, Fits;
    var k, done := 0, false;
    while k < |attempts| && !done
      invariant 0 <= k <= |attempts| && gene.Valid(g)
    {
      var a := attempts[k];
      done := gene.Mutate(g, a.kind, a.positive, a.victim, a.draws);
      k := k + 1;
    }
  }

  // A pair of parents with fewer than three points between them is drawn again.
  method Produce(g: Scales, genes: seq<Gene>, i: nat, step: Step, survivors: nat)
    requires Distinct(genes) && survivors <= i < |genes| && LegalStep(g, step, survivors) && AllValid(g, genes)
    modifies genes[i]
    ensures AllValid(g, genes)
  {
    hide Slots, Fits;
    match step
    case Survive =>
    case Mutation(parent, attempts) =>
      assert genes[parent] != genes[i];
      genes[i].CopyFrom(genes[parent]);
      MutateUntil(g, genes[i], attempts);
    case Crossing(dad, mum) =>
      assert genes[dad] != genes[i] && genes[mum] != genes[i];
      genes[i].OpenValid(g);
      if genes[dad].pk + genes[mum].nk >= POINT_MIN { genes[i].Hybrid(g, genes[dad], genes[mum]); }
    case Fresh(p, n, draws) =>
      genes[i].OpenValid(g);
      genes[i].Randomize(g, p, n, draws);
  }

  // One generation: the fittest survive, the others are replaced one by one.
  method Generation(g: Scales, genes: seq<Gene>, steps: seq<Step>, survivors: nat)
    requires Distinct(genes) && AllValid(g, genes) && |steps| == |genes| && LegalSteps(g, steps, survivors)
    modifies set i | survivors <= i < |genes| :: genes[i]
    ensures AllValid(g, genes)
  {
    hide Slots, Fits, LegalStep;
    var i := survivors;
    while i < |genes|
      invariant survivors <= i <= |genes| && AllValid(g, genes)
    {
      Produce(g, genes, i, steps[i], survivors);
      i := i + 1;
    }
  }

  // The individuals in the order of their fitness: any order at all.
  ghost predicate Ranks(ranking: seq<nat>, n: nat) {
    && |ranking| == n && (forall i :: 0 <= i < n ==> ranking[i] < n)
    && (forall i, j :: 0 <= i < j < n ==> ranking[i] != ranking[j])
  }

  function Ranked(genes: seq<Gene>, ranking: seq<nat>): seq<Gene>
    requires |ranking| == |genes| && forall i :: 0 <= i < |genes| ==> ranking[i] < |genes|
  {
    seq(|genes|, i requires 0 <= i < |genes| => genes[ranking[i]])
  }

  ghost predicate Allocated(genes: seq<Gene>)
    reads set i | 0 <= i < |genes| :: genes[i]
  {
    forall i :: 0 <= i < |genes| ==> |genes[i].pos| == |genes[i].neg| == POINT_MAX
  }

  // The first generation: every individual is drawn.
  method FirstGeneration(g: Scales, genes: seq<Gene>, steps: seq<Step>)
    requires Distinct(genes) && Allocated(genes) && |steps| == |genes|
    requires forall i :: 0 <= i < |steps| ==> steps[i].Fresh? && LegalStep(g, steps[i], 0)
    modifies set i | 0 <= i < |genes| :: genes[i]
    ensures AllValid(g, genes)
  {
    hide Slots, Fits, Firsts;
    var i := 0;
    while i < |genes|
      invariant 0 <= i <= |genes| && AllValid(g, genes[..i]) && Allocated(genes[i..])
    {
      var Fresh(p, n, draws) := steps[i];
      assert genes[i..][0] == genes[i];
      genes[i].Randomize(g, p, n, draws);
      i := i + 1;
    }
    assert genes[..i] == genes;
  }

  // Every individual of every generation is well formed, whatever the draws and
  // however the fittest are chosen.
  method Evolve(g: Scales, genes: seq<Gene>, first: seq<Step>, rankings: seq<seq<nat>>, steps: seq<seq<Step>>,
                survivors: nat)
      returns (last: seq<Gene>)
    requires Distinct(genes) && Allocated(genes) && |first| == |genes| && |rankings| == |steps|
    requires forall i :: 0 <= i < |first| ==> first[i].Fresh? && LegalStep(g, first[i], 0)
    requires forall t :: 0 <= t < |steps| ==> Ranks(rankings[t], |genes|)
    requires forall t :: 0 <= t < |steps| ==> |steps[t]| == |genes| && LegalSteps(g, steps[t], survivors)
    modifies set i | 0 <= i < |genes| :: genes[i]
    ensures |last| == |genes| && Distinct(last) && AllValid(g, last)
  {
    hide LegalStep, LegalSteps, Slots, Allocated;
    FirstGeneration(g, genes, first);
    last := genes;
    var t := 0;
    while t < |steps|
      invariant 0 <= t <= |steps| && |last| == |genes| && Distinct(last) && AllValid(g, last)
      invariant forall i :: 0 <= i < |last| ==> last[i] in genes
    {
      assert Ranks(rankings[t], |genes|);
      last := Ranked(last, rankings[t]);
      Generation(g, last, steps[t], survivors);
      t := t + 1;
    }
  }

  // ---- what a feature tests ----

  // The feature answers 1 exactly when every positive pixel is brighter than
  // every negative one.
  ghost predicate Separates(read: Point -> int, pos: seq<Point>, pk: int, neg: seq<Point>, nk: int)
    requires 0 <= pk <= |pos| && 0 <= nk <= |neg|
  {
    forall i, j :: 0 <= i < pk && 0 <= j < nk ==> read(pos[i]) > read(neg[j])
  }

  // Some pixel values make the feature answer 1 exactly when no point is on both
  // of its sides.
  lemma SeparatesSome(pos: seq<Point>, pk: int, neg: seq<Point>, nk: int)
    requires 0 <= pk <= |pos| && 0 <= nk <= |neg|
    ensures (exists read :: Separates(read, pos, pk, neg, nk)) <==> Apart(pos, pk, neg, nk)
  {
    if Apart(pos, pk, neg, nk) {
      var read := (p: Point) => if p in neg[..nk] then 0 else 1;
      forall i, j | 0 <= i < pk && 0 <= j < nk
        ensures read(pos[i]) > read(neg[j])
      {
        assert neg[..nk][j] == neg[j];
      }
      assert Separates(read, pos, pk, neg, nk);
    }
  }

  // Crossing does not keep the sides apart: two individuals that can answer 1,
  // and the child of which never does.
  method CrossedParents(g: Scales, a: Point, b: Point, c: Point) returns (dad: Gene, mum: Gene, child: Gene)
    requires Fits(g, a) && Fits(g, b) && Fits(g, c) && a != b && b != c && a != c
    ensures dad.Valid(g) && Apart(dad.pos, dad.pk, dad.neg, dad.nk)
    ensures mum.Valid(g) && Apart(mum.pos, mum.pk, mum.neg, mum.nk)
    ensures child.Valid(g) && child.pk == dad.pk && child.nk == mum.nk
    ensures child.pos[..child.pk] == dad.pos[..dad.pk] && child.neg[..child.nk] == mum.neg[..mum.nk]
    ensures !exists read :: Separates(read, child.pos, child.pk, child.neg, child.nk)
  {
    hide Fits, Firsts, Slots, Separates;
    dad := new Gene();
    mum := new Gene();
    child := new Gene();
    ThreeFirsts(a, b, c);
    ThreeFirsts(b, c, a);
    dad.Randomize(g, 1, 2, [a, b, c]);
    mum.Randomize(g, 1, 2, [b, c, a]);
    child.Hybrid(g, dad, mum);
    assert Firsts([a, b, c])[..3] == [a, b, c];
    assert Firsts([b, c, a])[..3] == [b, c, a];
    child.OpenValid(g);
    dad.OpenValid(g);
    mum.OpenValid(g);
    assert (dad.pos[..1] + dad.neg[..2])[0] == a;
    assert (mum.pos[..1] + mum.neg[..2])[2] == a;
    assert child.pos[0] == child.pos[..1][0] == dad.pos[..1][0] == a;
    assert child.neg[1] == child.neg[..2][1] == mum.neg[..2][1] == a;
    SeparatesSome(child.pos, child.pk, child.neg, child.nk);
  }

  lemma ThreeFirsts(a: Point, b: Point, c: Point)
    requires a != b && b != c && a != c
    ensures Firsts([a, b, c]) == [a, b, c]
  {
    var d := [a, b, c];
    assert d[..0] == [] && d[..1] == [a] && d[..2] == [a, b] && d[..3] == d;
    FirstsNext(d, 0);
    FirstsNext(d, 1);
    FirstsNext(d, 2);
  }

  method RunFeature(g: Scales, read: Point -> int, gene: Gene) returns (answer: int)
    requires gene.Valid(g)
    ensures answer == if Separates(read, gene.pos, gene.pk, gene.neg, gene.nk) then 1 else 0
  {
    hide Fits;
    var pmin, nmax := read(gene.pos[0]), read(gene.neg[0]);
    if pmin <= nmax {
      return 0;
    }
    var i := 1;
    ghost var a, b := 0, 0;
    while i < gene.size
      invariant 1 <= i <= gene.size && pmin > nmax
      invariant 0 <= a < gene.pk && a < i && pmin == read(gene.pos[a]) && 0 <= b < gene.nk && b < i
                && nmax == read(gene.neg[b])
      invariant forall k :: 0 <= k < i && k < gene.pk ==> pmin <= read(gene.pos[k])
      invariant forall k :: 0 <= k < i && k < gene.nk ==> read(gene.neg[k]) <= nmax
    {
      if gene.pos[i].z >= 0 {
        UsedSlot(g, gene.pos, gene.pk, i);
        var p := read(gene.pos[i]);
        if p < pmin {
          if p <= nmax {
            return 0;
          }
          pmin := p;
          a := i;
        }
      } else {
        UsedSlot(g, gene.pos, gene.pk, i);
      }
      UsedSlot(g, gene.neg, gene.nk, i);
      if gene.neg[i].z >= 0 {
        var n := read(gene.neg[i]);
        if n > nmax {
          if pmin <= n {
            return 0;
          }
          nmax := n;
          b := i;
        }
      }
      i := i + 1;
    }
    return 1;
  }

  lemma UsedSlot(g: Scales, s: seq<Point>, n: int, i: int)
    requires Slots(g, s, n) && 0 <= i < POINT_MAX
    ensures s[i].z >= 0 <==> i < n
  {
  }
}
