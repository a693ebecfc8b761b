/**
 Otsu's threshold over exact means: the one-pass search over the histogram
 against the split that maximises the variance between the two classes, with
 the 32-bit product of the class sizes written out.
 */
module Otsu {
  import opened Ints

  // ---- sums over the first n bins ----

  function Count(h: seq<nat>, n: nat): nat
    requires n <= |h|
  {
    if n == 0 then 0 else Count(h, n - 1) + h[n - 1]
  }

  function Sum(h: seq<nat>, n: nat): nat
    requires n <= |h|
  {
    if n == 0 then 0 else Sum(h, n - 1) + (n - 1) * h[n - 1]
  }

  lemma {:induction false} CountGrows(h: seq<nat>, m: nat, n: nat)
    requires m <= n <= |h|
    ensures Count(h, m) <= Count(h, n)
  {
    if m < n { CountGrows(h, m, n - 1); }
  }

  // ---- the two classes of a split ----

  // The bins up to t and the bins above it both hold pixels.
  predicate Splits(h: seq<nat>, t: int) {
    0 <= t < |h| && 0 < Count(h, t + 1) < Count(h, |h|)
  }

  function MeanBelow(h: seq<nat>, t: int): real
    requires Splits(h, t)
  {
    Sum(h, t + 1) as real / Count(h, t + 1) as real
  }

  function MeanAbove(h: seq<nat>, t: int): real
    requires Splits(h, t)
  {
    (Sum(h, |h|) - Sum(h, t + 1)) as real / (Count(h, |h|) - Count(h, t + 1)) as real
  }

  function Square(x: real): real { x * x }

  // The variance between the classes, times the square of the pixel count.
  function Between(h: seq<nat>, t: int): real
    requires Splits(h, t)
  {
    (Count(h, t + 1) * (Count(h, |h|) - Count(h, t + 1))) as real * Square(MeanBelow(h, t) - MeanAbove(h, t))
  }

  // Among the thresholds below n: the smallest one of greatest variance, or 0
  // when none splits.
  ghost predicate OptimalBelow(h: seq<nat>, n: int, t: int, v: real) {
    if exists u :: Splits(h, u) && u < n then
      && Splits(h, t) && t < n && v == Between(h, t)
      && (forall u :: Splits(h, u) && u < n ==> Between(h, u) <= v)
      && (forall u :: Splits(h, u) && u < t ==> Between(h, u) < v)
    else t == 0 && v == 0.0
  }

  ghost predicate Optimal(h: seq<nat>, t: int, v: real) { OptimalBelow(h, |h|, t, v) }

  // ---- the classes lie apart ----

  // Up to bin t every pixel counts at most t, from bin m on at least m.
  lemma {:induction false} SumBelow(h: seq<nat>, t: nat)
    requires t < |h|
    ensures Sum(h, t + 1) <= t * Count(h, t + 1)
  {
    var c, x := Count(h, t), h[t];
    assert t * (c + x) == t * c + t * x;
    if t == 0 {
      assert Sum(h, 1) == Sum(h, 0) + 0 * h[0];
    } else {
      SumBelow(h, t - 1);
      AtLeast(t - 1, t, c);
    }
  }

  lemma {:induction false} SumAbove(h: seq<nat>, m: nat, n: nat)
    requires m <= n <= |h|
    ensures Sum(h, n) - Sum(h, m) >= m * (Count(h, n) - Count(h, m))
  {
    if m < n {
      SumAbove(h, m, n - 1);
      var c, x := Count(h, n - 1) - Count(h, m), h[n - 1];
      CountGrows(h, m, n - 1);
      Spread(m, c, x);
      AtLeast(m, n - 1, x);
    }
  }

  lemma Spread(m: int, c: int, x: int)
    ensures m * (c + x) == m * c + m * x
  {
  }

  lemma AtLeast(m: nat, n: nat, x: nat)
    requires m <= n
    ensures m * x <= n * x
  {
  }

  lemma Quotient(a: real, b: real)
    requires b > 0.0
    ensures (a / b) * b == a
  {
  }

  lemma MeanAtMost(s: real, n: real, m: real)
    requires n > 0.0
    ensures s <= m * n ==> s / n <= m
    ensures s >= m * n ==> s / n >= m
  {
    Quotient(s, n);
    var q := s / n;
    assert (q - m) * n == s - m * n;
    if q > m { Positive(q - m, n); } else if q < m { Positive(m - q, n); assert (m - q) * n == -((q - m) * n); }
  }

  lemma Positive(a: real, b: real)
    requires a > 0.0 && b > 0.0
    ensures a * b > 0.0
  {
  }

  lemma Gap(sB: real, wB: real, sF: real, wF: real, t: real)
    requires wB > 0.0 && wF > 0.0 && sB <= t * wB && sF >= (t + 1.0) * wF
    ensures sB / wB < sF / wF && Square(sB / wB - sF / wF) > 0.0
  {
    MeanAtMost(sB, wB, t);
    MeanAtMost(sF, wF, t + 1.0);
    var d := sF / wF - sB / wB;
    Positive(d, d);
    assert Square(-d) == d * d;
  }

  lemma BetweenPositive(h: seq<nat>, t: int)
    requires Splits(h, t)
    ensures MeanBelow(h, t) < MeanAbove(h, t) && Between(h, t) > 0.0
  {
    hide Count, Sum, Square;
    var wB, wF := Count(h, t + 1), Count(h, |h|) - Count(h, t + 1);
    SumBelow(h, t);
    SumAbove(h, t + 1, |h|);
    Casts(t, wB);
    Casts(t + 1, wF);
    Gap(Sum(h, t + 1) as real, wB as real, (Sum(h, |h|) - Sum(h, t + 1)) as real, wF as real, t as real);
    PositiveProduct(wB, wF);
    Positive((wB * wF) as real, Square(MeanBelow(h, t) - MeanAbove(h, t)));
  }

  lemma PositiveProduct(a: int, b: int)
    requires a > 0 && b > 0
    ensures a * b > 0
  {
  }

  lemma Casts(a: int, b: int)
    ensures (a * b) as real == a as real * b as real
  {
  }

  // ---- the search ----

  // What a split scores: the product of the counts is a 32-bit one.
  function Score(sum: real, s: real, w: int, f: int): real
    requires w != 0 && f != 0
  {
    var d := s / w as real - (sum - s) / f as real;
    Wrap32(w * f) as real * d * d
  }

  // What the loop has when it leaves: from bin i on, with the sums of the bins
  // before it and the best so far.
  function Search(h: seq<nat>, total: int, sum: real, i: nat, wB: int, sumB: real, best: real, t: int): (real, int)
    requires i <= |h|
    decreases |h| - i
  {
    if i == |h| then (best, t)
    else
      var w := wB + h[i];
      if w == 0 then Search(h, total, sum, i + 1, w, sumB, best, t)
      else if total - w == 0 then (best, t)
      else
        var s, f := sumB + Wrap32(i * h[i]) as real, total - w;
        var v := Score(sum, s, w, f);
        if v > best then Search(h, total, sum, i + 1, w, s, v, i) else Search(h, total, sum, i + 1, w, s, best, t)
  }

  function WrappedSum(h: seq<nat>, n: nat): real
    requires n <= |h|
  {
    if n == 0 then 0.0 else WrappedSum(h, n - 1) + Wrap32((n - 1) * h[n - 1]) as real
  }

  function Result(h: seq<nat>, total: int): (real, int) {
    Search(h, total, WrappedSum(h, |h|), 0, 0, 0.0, 0.0, 0)
  }

  function Clamp(v: int, lo: int, hi: int): int { if v < lo then lo else if v > hi then hi else v }

  // How many pixels fall into each bin.
  function Falls(a: seq<int>, range: nat, b: int): nat {
    if a == [] then 0 else Falls(a[..|a| - 1], range, b) + if Clamp(a[|a| - 1], 0, range - 1) == b then 1 else 0
  }

  function Histogram(a: seq<int>, range: nat): (h: seq<nat>)
    ensures |h| == range && forall b :: 0 <= b < range ==> h[b] == Falls(a, range, b)
  {
    seq(range, b requires 0 <= b < range => Falls(a, range, b))
  }

  method Fill(a: seq<int>, range: nat) returns (histogram: array<nat>)
    requires range > 0
    ensures histogram[..] == Histogram(a, range)
  {
    histogram := new nat[range](_ => 0);
    var p := 0;
    while p < |a|
      invariant 0 <= p <= |a| && forall b :: 0 <= b < range ==> histogram[b] == Falls(a[..p], range, b)
    {
      assert a[..p + 1][..p] == a[..p];
      var b := Clamp(a[p], 0, range - 1);
      histogram[b] := histogram[b] + 1;
      p := p + 1;
    }
    assert a[..p] == a;
  }

  // The variance as reported: divided by the square of the pixel count, and not
  // a number on an empty image.
  datatype Variance = NaN | Value(v: real)

  function Reported(best: real, total: nat): Variance {
    if total == 0 then NaN else Value(best / total as real / total as real)
  }

  method Threshold(a: seq<int>, range: nat) returns (t: int, outvar: Variance)
    requires range > 0
    ensures t == Result(Histogram(a, range), |a|).1
    ensures outvar == Reported(Result(Histogram(a, range), |a|).0, |a|)
  {
    var best;
    best, t := Scan(a, range);
    outvar := if |a| == 0 then NaN else Value(best / |a| as real / |a| as real);
  }

  // Both loops over the bins.
  method Scan(a: seq<int>, range: nat) returns (best: real, t: int)
    requires range > 0
    ensures (best, t) == Result(Histogram(a, range), |a|)
  {
    hide Search, Score, Histogram, Wrap32;
    var histogram := Fill(a, range);
    ghost var h := histogram[..];
    var sum, i := 0.0, 0;
    while i < range
      invariant 0 <= i <= range && sum == WrappedSum(h, i) && histogram[..] == h
    {
      sum := sum + Wrap32(i * histogram[i]) as real;
      i := i + 1;
    }
    var wB, sumB, total := 0, 0.0, |a|;
    t, best, i := 0, 0.0, 0;
    while i < range
      invariant 0 <= i <= range && histogram[..] == h
      invariant Search(h, total, sum, i, wB, sumB, best, t) == Result(h, total)
      decreases range - i
    {
      SearchOnce(h, total, sum, i, wB, sumB, best, t);
      wB := wB + histogram[i];
      if wB == 0 {
        i := i + 1;
        continue;
      }
      var wF := total - wB;
      if wF == 0 {
        return;
      }
      sumB := sumB + Wrap32(i * histogram[i]) as real;
      var v := Score(sum, sumB, wB, wF);
      if v > best {
        best := v;
        t := i;
      }
      i := i + 1;
    }
    SearchEnds(h, total, sum, wB, sumB, best, t);
  }

  lemma SearchEnds(h: seq<nat>, total: int, sum: real, wB: int, sumB: real, best: real, t: int)
    ensures Search(h, total, sum, |h|, wB, sumB, best, t) == (best, t)
  {
  }

  // One turn of the loop.
  lemma SearchOnce(h: seq<nat>, total: int, sum: real, i: nat, wB: int, sumB: real, best: real, t: int)
    requires i < |h|
    ensures var w := wB + h[i];
            Search(h, total, sum, i, wB, sumB, best, t) ==
              if w == 0 then Search(h, total, sum, i + 1, w, sumB, best, t)
              else if total - w == 0 then (best, t)
              else
                var s, f := sumB + Wrap32(i * h[i]) as real, total - w;
                var v := Score(sum, s, w, f);
                if v > best then Search(h, total, sum, i + 1, w, s, v, i)
                    else Search(h, total, sum, i + 1, w, s, best, t)
  {
  }

  // ---- the search finds the optimum while nothing wraps ----

  // The most pixels for which the product of two class sizes is below 2^31.
  const SAFE := 92681

  lemma {:induction false} CountGrowsAt(h: seq<nat>, i: nat)
    requires i < |h|
    ensures Count(h, i + 1) == Count(h, i) + h[i] <= Count(h, |h|)
  {
    CountGrows(h, i + 1, |h|);
  }

  lemma ProductFits(a: nat, b: nat)
    requires a + b <= SAFE
    ensures 0 <= a * b < 0x8000_0000 && Wrap32(a * b) == a * b
  {
    var d := a - b;
    assert d * d >= 0;
    assert (a + b) * (a + b) == 4 * (a * b) + d * d;
    AtLeast(a + b, SAFE, a + b);
    AtLeast(a + b, SAFE, SAFE);
    assert 4 * (a * b) <= SAFE * SAFE;
    assert a * b >= 0;
  }

  // No product of a bin and its number wraps.
  ghost predicate Fits(h: seq<nat>) {
    forall i :: 0 <= i < |h| ==> Wrap32(i * h[i]) == i * h[i]
  }

  lemma {:induction false} WrappedSumIs(h: seq<nat>, n: nat)
    requires Fits(h) && n <= |h|
    ensures WrappedSum(h, n) == Sum(h, n) as real
  {
    if n > 0 { WrappedSumIs(h, n - 1); }
  }

  // The score of bin i is the variance of the split there.
  lemma ScoreIsBetween(h: seq<nat>, i: nat)
    requires Splits(h, i) && Count(h, |h|) <= SAFE
    ensures var w := Count(h, i + 1); var f := Count(h, |h|) - w;
            Score(Sum(h, |h|) as real, Sum(h, i + 1) as real, w, f) == Between(h, i)
  {
    hide Count, Sum, Wrap32;
    var w := Count(h, i + 1);
    var f := Count(h, |h|) - w;
    ProductFits(w, f);
    var d := MeanBelow(h, i) - MeanAbove(h, i);
    Reassociate((w * f) as real, d);
  }

  lemma Reassociate(a: real, d: real)
    ensures a * d * d == a * (d * d)
  {
  }

  lemma NoSplitAt(h: seq<nat>, i: nat, t: int, v: real)
    requires i < |h| && !Splits(h, i) && OptimalBelow(h, i, t, v)
    ensures OptimalBelow(h, i + 1, t, v)
  {
    hide Between;
    assert forall u :: Splits(h, u) && u < i + 1 ==> u < i;
  }

  lemma SplitAt(h: seq<nat>, i: nat, t: int, v: real)
    requires Splits(h, i) && OptimalBelow(h, i, t, v)
    ensures if Between(h, i) > v then OptimalBelow(h, i + 1, i, Between(h, i)) else OptimalBelow(h, i + 1, t, v)
  {
    BetweenPositive(h, i);
    hide Between, Count;
    assert forall u :: Splits(h, u) && u < i + 1 ==> u < i || u == i;
  }

  lemma NoMoreSplits(h: seq<nat>, i: nat, t: int, v: real)
    requires i < |h| && Count(h, i + 1) == Count(h, |h|) && OptimalBelow(h, i, t, v)
    ensures Optimal(h, t, v)
  {
    forall u | Splits(h, u)
      ensures u < i
    {
      if u >= i { CountGrows(h, i + 1, u + 1); }
    }
  }

  lemma {:induction false} SearchOptimal(h: seq<nat>, i: nat, best: real, t: int)
    requires i <= |h| && Fits(h) && Count(h, |h|) <= SAFE && OptimalBelow(h, i, t, best)
    ensures var r := Search(h, Count(h, |h|), Sum(h, |h|) as real, i, Count(h, i), Sum(h, i) as real, best, t);
            Optimal(h, r.1, r.0)
    decreases |h| - i
  {
    hide OptimalBelow, Search, Score, Between, Wrap32;
    var total, sum := Count(h, |h|), Sum(h, |h|) as real;
    if i == |h| {
      SearchEnds(h, total, sum, Count(h, i), Sum(h, i) as real, best, t);
    } else {
      SearchOnce(h, total, sum, i, Count(h, i), Sum(h, i) as real, best, t);
      CountGrowsAt(h, i);
      var w := Count(h, i + 1);
      if w == 0 {
        assert h[i] == 0 && Sum(h, i + 1) == Sum(h, i) by { assert i * h[i] == 0; }
        NoSplitAt(h, i, t, best);
        SearchOptimal(h, i + 1, best, t);
      } else if w == total {
        NoMoreSplits(h, i, t, best);
      } else {
        assert Sum(h, i) as real + Wrap32(i * h[i]) as real == Sum(h, i + 1) as real;
        ScoreIsBetween(h, i);
        SplitAt(h, i, t, best);
        if Between(h, i) > best {
          SearchOptimal(h, i + 1, Between(h, i), i);
        } else {
          SearchOptimal(h, i + 1, best, t);
        }
      }
    }
  }

  lemma {:induction false} OneMore(h: seq<nat>, b: nat, n: nat)
    requires b < |h| && n <= |h|
    ensures Count(h[b := h[b] + 1], n) == Count(h, n) + if b < n then 1 else 0
  {
    if n > 0 { OneMore(h, b, n - 1); }
  }

  lemma {:induction false} NoPixels(h: seq<nat>, n: nat)
    requires n <= |h| && forall b :: 0 <= b < |h| ==> h[b] == 0
    ensures Count(h, n) == 0
  {
    if n > 0 { NoPixels(h, n - 1); }
  }

  // Every pixel falls into one bin.
  lemma {:induction false} HistogramTotal(a: seq<int>, range: nat)
    requires range > 0
    ensures Count(Histogram(a, range), range) == |a|
  {
    var h := Histogram(a, range);
    if a == [] {
      NoPixels(h, range);
    } else {
      var n := |a| - 1;
      var g, b := Histogram(a[..n], range), Clamp(a[n], 0, range - 1);
      HistogramTotal(a[..n], range);
      OneMore(g, b, range);
      assert h == g[b := g[b] + 1];
    }
  }

  lemma Nothing(h: seq<nat>)
    ensures Count(h, 0) == 0 == Sum(h, 0) && OptimalBelow(h, 0, 0, 0.0)
  {
  }

  // ---- the same threshold leaves the least scatter inside the classes ----

  function Squares(h: seq<nat>, n: nat): nat
    requires n <= |h|
  {
    if n == 0 then 0 else Squares(h, n - 1) + (n - 1) * (n - 1) * h[n - 1]
  }

  // The squared deviations from c of the pixels in bins m .. n-1.
  function Scatter(h: seq<nat>, m: nat, n: nat, c: real): real
    requires m <= n <= |h|
  {
    if n == m then 0.0 else Scatter(h, m, n - 1, c) + h[n - 1] as real * Square((n - 1) as real - c)
  }

  function Within(h: seq<nat>, t: int): real
    requires Splits(h, t)
  {
    Scatter(h, 0, t + 1, MeanBelow(h, t)) + Scatter(h, t + 1, |h|, MeanAbove(h, t))
  }

  function Mean(h: seq<nat>): real
    requires Count(h, |h|) > 0
  {
    Sum(h, |h|) as real / Count(h, |h|) as real
  }

  // The squared deviations from c, from the count and the first two moments.
  function Deviation(q: real, s: real, n: real, c: real): real { q - 2.0 * (c * s) + c * c * n }

  lemma ExpandSquare(x: real, i: real, c: real)
    ensures x * Square(i - c) == Deviation(i * i * x, i * x, x, c)
  {
    assert Square(i - c) == i * i - 2.0 * (c * i) + c * c;
    assert x * (i * i - 2.0 * (c * i) + c * c) == x * (i * i) - x * (2.0 * (c * i)) + x * (c * c);
    assert x * (2.0 * (c * i)) == 2.0 * (c * (i * x));
  }

  lemma Cast3(i: int, x: int)
    ensures (i * i * x) as real == i as real * i as real * x as real && (i * x) as real == i as real * x as real
  {
    Casts(i * i, x);
    Casts(i, i);
    Casts(i, x);
  }

  lemma Collect(q: real, s: real, n: real, q': real, s': real, n': real, c: real)
    ensures Deviation(q, s, n, c) + Deviation(q', s', n', c) == Deviation(q + q', s + s', n + n', c)
  {
    var v := c * c;
    assert c * (s + s') == c * s + c * s';
    assert v * (n + n') == v * n + v * n';
  }

  // The count, the sum and the sum of squares over bins m .. n-1.
  function N(h: seq<nat>, m: nat, n: nat): real
    requires m <= n <= |h|
  {
    (Count(h, n) - Count(h, m)) as real
  }

  function S(h: seq<nat>, m: nat, n: nat): real
    requires m <= n <= |h|
  {
    (Sum(h, n) - Sum(h, m)) as real
  }

  function Q(h: seq<nat>, m: nat, n: nat): real
    requires m <= n <= |h|
  {
    (Squares(h, n) - Squares(h, m)) as real
  }

  function LastSquare(h: seq<nat>, n: nat): real
    requires 0 < n <= |h|
  {
    ((n - 1) * (n - 1) * h[n - 1]) as real
  }

  function LastSum(h: seq<nat>, n: nat): real
    requires 0 < n <= |h|
  {
    ((n - 1) * h[n - 1]) as real
  }

  lemma {:induction false} ScatterExpands(h: seq<nat>, m: nat, n: nat, c: real)
    requires m <= n <= |h|
    ensures Scatter(h, m, n, c) == Deviation(Q(h, m, n), S(h, m, n), N(h, m, n), c)
  {
    hide Deviation, Square, Q, S, N, Scatter, LastSquare, LastSum;
    if n > m {
      ScatterExpands(h, m, n - 1, c);
      ScatterStep(h, m, n, c);
      Collect(Q(h, m, n - 1), S(h, m, n - 1), N(h, m, n - 1), LastSquare(h, n), LastSum(h, n), h[n - 1] as real, c);
    } else {
      ScatterNone(h, n, c);
      NoDeviation(c);
    }
  }

  lemma ScatterNone(h: seq<nat>, n: nat, c: real)
    requires n <= |h|
    ensures Scatter(h, n, n, c) == Q(h, n, n) == S(h, n, n) == N(h, n, n) == 0.0
  {
  }

  lemma ScatterStep(h: seq<nat>, m: nat, n: nat, c: real)
    requires m < n <= |h|
    ensures Scatter(h, m, n, c) ==
            Scatter(h, m, n - 1, c) + Deviation(LastSquare(h, n), LastSum(h, n), h[n - 1] as real, c)
    ensures Q(h, m, n) == Q(h, m, n - 1) + LastSquare(h, n)
    ensures S(h, m, n) == S(h, m, n - 1) + LastSum(h, n)
    ensures N(h, m, n) == N(h, m, n - 1) + h[n - 1] as real
  {
    hide Square, Deviation;
    BinDeviation(n - 1, h[n - 1], c);
  }

  lemma BinDeviation(i: nat, x: nat, c: real)
    ensures x as real * Square(i as real - c) == Deviation((i * i * x) as real, (i * x) as real, x as real, c)
  {
    hide Square, Deviation;
    ExpandSquare(x as real, i as real, c);
    Cast3(i, x);
  }

  lemma NoDeviation(c: real)
    ensures Deviation(0.0, 0.0, 0.0, c) == 0.0
  {
  }

  // The square of a mean for each of w pixels.
  function Weighted(c: real, w: real): real { c * c * w }

  // Around its own mean a class has squares minus mean times sum.
  lemma ScatterAtMean(h: seq<nat>, m: nat, n: nat, c: real)
    requires m <= n <= |h| && c * (Count(h, n) - Count(h, m)) as real == (Sum(h, n) - Sum(h, m)) as real
    ensures Scatter(h, m, n, c) ==
            (Squares(h, n) - Squares(h, m)) as real - Weighted(c, (Count(h, n) - Count(h, m)) as real)
  {
    hide Count, Sum, Squares, Scatter;
    ScatterExpands(h, m, n, c);
    AtMean(c, (Count(h, n) - Count(h, m)) as real);
  }

  lemma AtMean(c: real, w: real)
    ensures c * c * w == c * (c * w)
  {
  }

  // What the spread of two means adds to the scatter around their common one.
  function Spacing(x: real, y: real, m: real, n: real): real { m * n * Square(x - y) }

  // Two classes with means x and y have mean z together.
  lemma TwoMeans(x: real, y: real, z: real, m: real, n: real)
    requires m + n > 0.0 && z * (m + n) == x * m + y * n
    ensures Weighted(x, m) + Weighted(y, n) - Weighted(z, m + n) == Spacing(x, y, m, n) / (m + n)
  {
    var t := m + n;
    var lhs := x * x * m + y * y * n - z * z * t;
    var p := x * m + y * n;
    assert z * z * t * t == p * p by { assert z * z * t * t == (z * t) * (z * t); }
    assert lhs * t == (x * x * m + y * y * n) * t - z * z * t * t;
    Polynomial(x, y, m, n);
    assert lhs * t == (m * n) * ((x - y) * (x - y));
    assert lhs * t / t == lhs;
  }

  lemma Polynomial(x: real, y: real, m: real, n: real)
    ensures (x * x * m + y * y * n) * (m + n) - (x * m + y * n) * (x * m + y * n) == (m * n) * ((x - y) * (x - y))
  {
  }

  // All the scatter is scatter inside the classes plus scatter between them.
  lemma ScatterSplits(h: seq<nat>, t: int)
    requires Splits(h, t)
    ensures Within(h, t) + Between(h, t) / Count(h, |h|) as real == Scatter(h, 0, |h|, Mean(h))
  {
    hide Count, Sum, Squares, Scatter, MeanBelow, MeanAbove, Mean, Between, Weighted, Spacing;
    Start(h);
    var w, T := Count(h, t + 1), Count(h, |h|);
    var x, y, z := MeanBelow(h, t), MeanAbove(h, t), Mean(h);
    var m, n := w as real, (T - w) as real;
    MeansTimesCounts(h, t);
    ScatterAtMean(h, 0, t + 1, x);
    ScatterAtMean(h, t + 1, |h|, y);
    ScatterAtMean(h, 0, |h|, z);
    assert T as real == m + n;
    TwoMeans(x, y, z, m, n);
    BetweenIs(h, t);
  }

  lemma MeansTimesCounts(h: seq<nat>, t: int)
    requires Splits(h, t)
    ensures MeanBelow(h, t) * Count(h, t + 1) as real == Sum(h, t + 1) as real
    ensures MeanAbove(h, t) * (Count(h, |h|) - Count(h, t + 1)) as real == (Sum(h, |h|) - Sum(h, t + 1)) as real
    ensures Mean(h) * Count(h, |h|) as real == Sum(h, |h|) as real
  {
    hide Count, Sum;
    Quotient(Sum(h, t + 1) as real, Count(h, t + 1) as real);
    Quotient((Sum(h, |h|) - Sum(h, t + 1)) as real, (Count(h, |h|) - Count(h, t + 1)) as real);
    Quotient(Sum(h, |h|) as real, Count(h, |h|) as real);
  }

  lemma BetweenIs(h: seq<nat>, t: int)
    requires Splits(h, t)
    ensures Between(h, t) ==
            Spacing(MeanBelow(h, t), MeanAbove(h, t), Count(h, t + 1) as real,
                    (Count(h, |h|) - Count(h, t + 1)) as real)
  {
    hide Count, Sum, Square, MeanBelow, MeanAbove;
    Casts(Count(h, t + 1), Count(h, |h|) - Count(h, t + 1));
  }

  lemma Start(h: seq<nat>)
    ensures Count(h, 0) == 0 && Sum(h, 0) == 0 && Squares(h, 0) == 0
  {
  }

  // So the threshold of greatest variance between leaves the least within.
  lemma OptimalLeastWithin(h: seq<nat>, t: int, v: real, u: int)
    requires Optimal(h, t, v) && Splits(h, u)
    ensures Splits(h, t) && Within(h, t) <= Within(h, u)
    ensures Within(h, t) == Within(h, u) ==> t <= u
  {
    hide Count, Scatter, Between, Within;
    ScatterSplits(h, t);
    ScatterSplits(h, u);
    Divide(Between(h, u), Between(h, t), Count(h, |h|) as real);
  }

  lemma Divide(a: real, b: real, n: real)
    requires n > 0.0
    ensures a <= b ==> a / n <= b / n
    ensures a < b ==> a / n < b / n
  {
    Quotient(a, n);
    Quotient(b, n);
    MeanAtMost(a, n, b / n);
  }
}
