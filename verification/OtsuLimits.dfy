/**
 How far the 32-bit products of Otsu's search carry: for which pixel counts and
 ranges its threshold, and its threshold and variance, are right on every image.
 */
module OtsuLimits {
  import opened Ints
  import opened Otsu

  // The threshold alone is the right one.
  ghost predicate RightThreshold(h: seq<nat>, t: int) {
    Optimal(h, t, if Splits(h, t) then Between(h, t) else 0.0)
  }

  // ---- every histogram is that of some image ----

  lemma {:induction false} FallsConstant(n: nat, v: int, range: nat, b: nat)
    requires 0 <= v < range
    ensures Falls(seq(n, _ => v), range, b) == if b == v then n else 0
  {
    if n > 0 {
      FallsConstant(n - 1, v, range, b);
      assert seq(n, _ => v)[..n - 1] == seq(n - 1, _ => v);
    }
  }

  lemma {:induction false} FallsConcat(a: seq<int>, c: seq<int>, range: nat, b: nat)
    ensures Falls(a + c, range, b) == Falls(a, range, b) + Falls(c, range, b)
  {
    if c == [] {
      assert a + c == a;
    } else {
      FallsConcat(a, c[..|c| - 1], range, b);
      assert (a + c)[..|a + c| - 1] == a + c[..|c| - 1];
    }
  }

  lemma {:induction false} FirstBins(h: seq<nat>, n: nat) returns (a: seq<int>)
    requires n <= |h|
    ensures |a| == Count(h, n)
    ensures forall b :: 0 <= b < |h| ==> Falls(a, |h|, b) == if b < n then h[b] else 0
  {
    a := [];
    if n > 0 {
      var c := FirstBins(h, n - 1);
      var d := seq(h[n - 1], _ => n - 1);
      a := c + d;
      forall b | 0 <= b < |h|
        ensures Falls(a, |h|, b) == if b < n then h[b] else 0
      {
        FallsConcat(c, d, |h|, b);
        FallsConstant(h[n - 1], n - 1, |h|, b);
      }
    }
  }

  lemma ImageOf(h: seq<nat>) returns (a: seq<int>)
    ensures Histogram(a, |h|) == h && |a| == Count(h, |h|)
  {
    a := FirstBins(h, |h|);
  }

  // ---- the search over a few bins ----

  ghost predicate EmptyBins(h: seq<nat>, i: int, j: int) {
    forall b :: i <= b < j && 0 <= b < |h| ==> h[b] == 0
  }

  lemma {:induction false} SumsSkip(h: seq<nat>, i: nat, j: nat)
    requires i <= j <= |h| && EmptyBins(h, i, j)
    ensures Count(h, j) == Count(h, i) && Sum(h, j) == Sum(h, i) && WrappedSum(h, j) == WrappedSum(h, i)
  {
    if i < j {
      SumsSkip(h, i, j - 1);
      assert (j - 1) * h[j - 1] == 0;
    }
  }

  lemma SumsNext(h: seq<nat>, i: nat)
    requires i < |h|
    ensures Count(h, i + 1) == Count(h, i) + h[i] && Sum(h, i + 1) == Sum(h, i) + i * h[i]
    ensures WrappedSum(h, i + 1) == WrappedSum(h, i) + Wrap32(i * h[i]) as real
    ensures Count(h, 0) == 0 && Sum(h, 0) == 0 && WrappedSum(h, 0) == 0.0
  {
  }

  // Over empty bins the search changes nothing.
  lemma {:induction false} SearchSkips(h: seq<nat>, total: int, sum: real, i: nat, j: nat, w: int, s: real,
                                       best: real, t: int)
    requires i <= j <= |h| && EmptyBins(h, i, j)
    requires w == 0 || (w != total && Score(sum, s, w, total - w) <= best)
    ensures Search(h, total, sum, i, w, s, best, t) == Search(h, total, sum, j, w, s, best, t)
    decreases j - i
  {
    hide Search, Score;
    if i < j {
      SearchOnce(h, total, sum, i, w, s, best, t);
      assert i * h[i] == 0;
      SearchSkips(h, total, sum, i + 1, j, w, s, best, t);
    }
  }

  // All pixels in one bin: nothing splits, and the search says so.
  lemma OneBin(h: seq<nat>, p: nat)
    requires p < |h| && EmptyBins(h, 0, p) && EmptyBins(h, p + 1, |h|)
    ensures Count(h, |h|) == h[p] && Result(h, h[p]) == (0.0, 0) && Optimal(h, 0, 0.0)
  {
    hide Search, Score, Wrap32, Between;
    var sum := WrappedSum(h, |h|);
    SumsSkip(h, 0, p);
    SumsNext(h, p);
    SumsSkip(h, p + 1, |h|);
    SearchSkips(h, h[p], sum, 0, p, 0, 0.0, 0.0, 0);
    SearchOnce(h, h[p], sum, p, 0, 0.0, 0.0, 0);
    if h[p] == 0 {
      SearchSkips(h, h[p], sum, p + 1, |h|, 0, 0.0, 0.0, 0);
      SearchEnds(h, h[p], sum, 0, 0.0, 0.0, 0);
    }
    forall u | 0 <= u < |h|
      ensures !Splits(h, u)
    {
      if u < p { SumsSkip(h, 0, u + 1); } else { SumsSkip(h, p + 1, u + 1); }
    }
  }

  // What the search scores for two bins p and q.
  function TwoScore(h: seq<nat>, p: nat, q: nat): real
    requires p < |h| && q < |h| && h[p] > 0 && h[q] > 0
  {
    var s := Wrap32(p * h[p]) as real;
    Score(s + Wrap32(q * h[q]) as real, s, h[p], h[q])
  }

  ghost predicate TwoBins(h: seq<nat>, p: nat, q: nat) {
    p < q < |h| && h[p] > 0 && h[q] > 0 && EmptyBins(h, 0, p) && EmptyBins(h, p + 1, q) && EmptyBins(h, q + 1, |h|)
  }

  lemma TwoBinSums(h: seq<nat>, p: nat, q: nat)
    requires TwoBins(h, p, q)
    ensures Count(h, |h|) == h[p] + h[q] && Sum(h, |h|) == p * h[p] + q * h[q]
    ensures WrappedSum(h, |h|) == Wrap32(p * h[p]) as real + Wrap32(q * h[q]) as real
    ensures forall n :: 0 <= n <= |h| ==> Count(h, n) == if n <= p then 0 else if n <= q then h[p] else h[p] + h[q]
    ensures forall n :: p < n <= q ==> Sum(h, n) == p * h[p]
    ensures forall u :: Splits(h, u) <==> p <= u < q
  {
    hide Wrap32;
    SumsSkip(h, 0, p);
    SumsNext(h, p);
    SumsSkip(h, p + 1, q);
    SumsNext(h, q);
    SumsSkip(h, q + 1, |h|);
    forall n | 0 <= n <= |h|
      ensures Count(h, n) == if n <= p then 0 else if n <= q then h[p] else h[p] + h[q]
      ensures p < n <= q ==> Sum(h, n) == p * h[p]
    {
      if n <= p { SumsSkip(h, 0, n); } else if n <= q { SumsSkip(h, p + 1, n); } else { SumsSkip(h, q + 1, n); }
    }
  }

  lemma TwoBinSearch(h: seq<nat>, p: nat, q: nat)
    requires TwoBins(h, p, q)
    ensures Result(h, h[p] + h[q]) == if TwoScore(h, p, q) > 0.0 then (TwoScore(h, p, q), p) else (0.0, 0)
  {
    hide Search, Score, Wrap32;
    TwoBinSums(h, p, q);
    var total, sum, s, v := h[p] + h[q], WrappedSum(h, |h|), Wrap32(p * h[p]) as real, TwoScore(h, p, q);
    var best, t := if v > 0.0 then v else 0.0, if v > 0.0 then p else 0;
    SearchSkips(h, total, sum, 0, p, 0, 0.0, 0.0, 0);
    SearchOnce(h, total, sum, p, 0, 0.0, 0.0, 0);
    SearchSkips(h, total, sum, p + 1, q, h[p], s, best, t);
    SearchOnce(h, total, sum, q, h[p], s, best, t);
  }

  // The variance of the one split of two bins.
  function TwoVariance(h: seq<nat>, p: nat, q: nat): real
    requires p < |h| && q < |h| && h[p] > 0 && h[q] > 0
  {
    (h[p] * h[q]) as real * Square((p * h[p]) as real / h[p] as real - (q * h[q]) as real / h[q] as real)
  }

  lemma TwoBinBetween(h: seq<nat>, p: nat, q: nat, u: nat)
    requires TwoBins(h, p, q) && p <= u < q
    ensures Splits(h, u) && Between(h, u) == TwoVariance(h, p, q) > 0.0
  {
    hide Count, Sum, Square, Between;
    TwoBinSums(h, p, q);
    BetweenPositive(h, u);
    BetweenOf(h, u, h[p], p * h[p], h[q], q * h[q]);
  }

  lemma BetweenOf(h: seq<nat>, u: int, w: nat, s: nat, f: nat, r: nat)
    requires Splits(h, u) && Count(h, u + 1) == w && Sum(h, u + 1) == s && Count(h, |h|) == w + f
             && Sum(h, |h|) == s + r
    ensures w > 0 && f > 0 && Between(h, u) == (w * f) as real * Square(s as real / w as real - r as real / f as real)
  {
    hide Count, Sum, Square;
  }

  // It is right at the smallest threshold that makes it, and only there.
  lemma TwoBinOptimal(h: seq<nat>, p: nat, q: nat, t: int, v: real)
    requires TwoBins(h, p, q)
    ensures Optimal(h, t, v) <==> t == p && v == TwoVariance(h, p, q)
    ensures RightThreshold(h, t) <==> t == p
  {
    hide Count, TwoVariance, Between;
    TwoBinSums(h, p, q);
    forall u | Splits(h, u)
      ensures Between(h, u) == TwoVariance(h, p, q)
    {
      TwoBinBetween(h, p, q, u);
    }
    hide TwoBins, Splits;
    assert Splits(h, p);
  }

  // ---- right while nothing wraps ----

  // A bin product that wraps holds almost all the pixels of a small image.
  lemma WrapNeedsMany(h: seq<nat>, d: nat) returns (i: nat)
    requires |h| > 0 && !Fits(h) && (|h| - 1) * (Count(h, |h|) - d) < 0x8000_0000
    ensures 0 < i < |h| && 0x8000_0000 <= i * h[i] && h[i] > Count(h, |h|) - d && h[i] <= Count(h, |h|)
  {
    hide Count;
    i :| 0 <= i < |h| && Wrap32(i * h[i]) != i * h[i];
    CountGrowsAt(h, i);
    ProductWraps(i, h[i], |h| - 1, Count(h, |h|) - d);
  }

  lemma ProductWraps(i: nat, x: nat, n: nat, m: int)
    requires i <= n && Wrap32(i * x) != i * x && n * m < 0x8000_0000
    ensures i > 0 && x > m && 0x8000_0000 <= i * x
  {
    NotNegative(i, x);
    assert 0 * x == 0;
    if x <= m {
      AtLeast(x, m, i);
      AtLeast(i, n, m);
    }
  }

  lemma NotNegative(a: nat, b: nat)
    ensures a * b >= 0
  {
  }

  // A bin with all the pixels is the only one.
  lemma {:induction false} AllInOne(h: seq<nat>, i: nat, b: nat)
    requires i < |h| && b < |h| && b != i
    ensures h[i] + h[b] <= Count(h, |h|)
  {
    var p, q := if i < b then i else b, if i < b then b else i;
    CountGrows(h, p + 1, q);
    CountGrows(h, q + 1, |h|);
  }

  lemma OptimalWhenFits(h: seq<nat>)
    requires Fits(h) && Count(h, |h|) <= SAFE
    ensures var r := Result(h, Count(h, |h|)); Optimal(h, r.1, r.0)
  {
    hide Search, Count, Sum, Optimal, Fits;
    WrappedSumIs(h, |h|);
    Nothing(h);
    SearchOptimal(h, 0, 0.0, 0);
  }

  // Threshold and variance are right as long as no bin can wrap beside another.
  lemma BothRight(h: seq<nat>)
    requires |h| > 0 && Count(h, |h|) <= SAFE && (|h| - 1) * (Count(h, |h|) - 1) < 0x8000_0000
    ensures var r := Result(h, Count(h, |h|)); Optimal(h, r.1, r.0)
  {
    hide Search, Count, Optimal, Fits;
    if Fits(h) {
      OptimalWhenFits(h);
    } else if Count(h, |h|) == 0 {
      var i := WrapNeedsMany(h, 0);
    } else {
      var i := WrapNeedsMany(h, 1);
      forall b | 0 <= b < |h| && b != i
        ensures h[b] == 0
      {
        AllInOne(h, i, b);
      }
      OneBin(h, i);
    }
  }

  // ---- the threshold alone ----

  lemma OptimalThreshold(h: seq<nat>, t: int, v: real)
    requires Optimal(h, t, v)
    ensures RightThreshold(h, t)
  {
    hide Between, Count;
  }

  // The score of two bins is positive unless their wrapped means agree.
  lemma TwoScorePositive(h: seq<nat>, p: nat, q: nat)
    requires TwoBins(h, p, q) && h[p] + h[q] <= SAFE
    requires Wrap32(p * h[p]) as real / h[p] as real != Wrap32(q * h[q]) as real / h[q] as real
    ensures TwoScore(h, p, q) > 0.0
  {
    hide Wrap32;
    ProductFits(h[p], h[q]);
    PositiveProduct(h[p], h[q]);
    var s, r := Wrap32(p * h[p]) as real, Wrap32(q * h[q]) as real;
    ScorePositive(s + r, s, h[p], h[q]);
  }

  lemma ScoreIs(sum: real, s: real, w: nat, f: nat)
    requires w > 0 && f > 0
    ensures Score(sum, s, w, f) == Wrap32(w * f) as real * Square(s / w as real - (sum - s) / f as real)
  {
    hide Wrap32;
    Reassociate(Wrap32(w * f) as real, s / w as real - (sum - s) / f as real);
  }

  lemma ScorePositive(sum: real, s: real, w: nat, f: nat)
    requires w > 0 && f > 0 && Wrap32(w * f) == w * f && s / w as real != (sum - s) / f as real
    ensures Score(sum, s, w, f) > 0.0
  {
    hide Wrap32, Square, Score;
    PositiveProduct(w, f);
    var d := s / w as real - (sum - s) / f as real;
    ScoreIs(sum, s, w, f);
    SquarePositive(d);
    Positive((w * f) as real, Square(d));
  }

  lemma SquarePositive(d: real)
    requires d != 0.0
    ensures Square(d) > 0.0
  {
    hide *;
    SquareIsTimes(d);
    if d > 0.0 { TimesPositive(d, d); } else {
      SquareIsTimes(-d);
      TimesPositive(-d, -d);
    }
  }

  function Times(a: real, b: real): real { a * b }

  lemma TimesPositive(a: real, b: real)
    requires a > 0.0 && b > 0.0
    ensures Times(a, b) > 0.0
  {
  }

  lemma SquareIsTimes(d: real)
    ensures Square(d) == Times(d, d) && Square(-d) == Square(d)
  {
  }

  lemma SquareNegated(d: real)
    ensures Square(-d) == Square(d)
  {
  }

  lemma {:induction false} WithoutBin(h: seq<nat>, i: nat, n: nat)
    requires i < |h| && n <= |h|
    ensures Count(h[i := 0], n) == Count(h, n) - if i < n then h[i] else 0
  {
    if n > 0 { WithoutBin(h, i, n - 1); }
  }

  // A bin with all the pixels but one leaves one other bin, with that one.
  lemma AllButOne(h: seq<nat>, i: nat) returns (j: nat)
    requires i < |h| && h[i] == Count(h, |h|) - 1
    ensures j < |h| && j != i && h[j] == 1 && forall b :: 0 <= b < |h| && b != i && b != j ==> h[b] == 0
  {
    hide Count;
    if forall b :: 0 <= b < |h| && b != i ==> h[b] == 0 {
      OneBin(h, i);
      assert false;
    }
    j :| 0 <= j < |h| && j != i && h[j] != 0;
    var g := h[i := 0];
    WithoutBin(h, i, |h|);
    AllInOne(h, i, j);
    forall b | 0 <= b < |h| && b != i && b != j
      ensures h[b] == 0
    {
      AllInOne(g, j, b);
    }
  }

  // The wrapped mean of a bin that just wrapped is negative.
  lemma WrappedMean(i: nat, n: nat)
    requires n > 0 && 0x8000_0000 <= i * n < 0x1_0000_0000
    ensures Wrap32(i * n) as real / n as real < 0.0
  {
    var w := Wrap32(i * n);
    assert w < 0;
    Quotient(w as real, n as real);
    var q := w as real / n as real;
    MeanAtMost(w as real, n as real, 0.0);
    assert q == 0.0 ==> q * n as real == 0.0;
  }

  lemma ThresholdRight(h: seq<nat>)
    requires 0 < |h| <= 0x7FFF_FFFF && Count(h, |h|) <= SAFE && (|h| - 1) * (Count(h, |h|) - 2) < 0x8000_0000
    ensures RightThreshold(h, Result(h, Count(h, |h|)).1)
  {
    hide Search, Count, Optimal, Fits, Result, TwoScore, Wrap32, RightThreshold;
    var T: int := Count(h, |h|);
    if (|h| - 1) * (T - 1) < 0x8000_0000 {
      BothRight(h);
      OptimalThreshold(h, Result(h, T).1, Result(h, T).0);
    } else if Fits(h) {
      OptimalWhenFits(h);
      OptimalThreshold(h, Result(h, T).1, Result(h, T).0);
    } else {
      FewProducts(|h| - 1, T);
      var i := WrapNeedsMany(h, 2);
      if h[i] == T {
        forall b | 0 <= b < |h| && b != i
          ensures h[b] == 0
        {
          AllInOne(h, i, b);
        }
        OneBin(h, i);
        OptimalThreshold(h, 0, 0.0);
      } else {
        var j := AllButOne(h, i);
        TwoSided(h, i, j);
      }
    }
  }

  lemma FewProducts(n: int, T: int)
    requires 0 <= n < 0x7FFF_FFFF && 0 <= T && n * (T - 1) >= 0x8000_0000 && n * (T - 2) < 0x8000_0000
    ensures T > 2 && n * (T - 1) < 0x1_0000_0000
  {
    assert n * (T - 1) == n * (T - 2) + n;
    assert T == 2 ==> n * (T - 1) == n;
    assert T == 1 ==> n * (T - 1) == 0;
    assert n * (0 - 1) == -n;
  }

  lemma TwoSided(h: seq<nat>, i: nat, j: nat)
    requires |h| <= 0x7FFF_FFFF && i < |h| && j < |h| && i != j && h[j] == 1 && Count(h, |h|) == h[i] + 1 <= SAFE
    requires forall b :: 0 <= b < |h| && b != i && b != j ==> h[b] == 0
    requires 0x8000_0000 <= i * h[i] && (|h| - 1) * h[i] < 0x1_0000_0000
    ensures RightThreshold(h, Result(h, Count(h, |h|)).1)
  {
    hide Search, Count, Optimal, Result, TwoScore, RightThreshold, Wrap32;
    var p, q := if i < j then i else j, if i < j then j else i;
    assert TwoBins(h, p, q) by { PositiveFactor(i, h[i]); }
    hide TwoBins;
    MeansApart(i, j, |h| - 1, h[i]);
    TwoScorePositive(h, p, q);
    TwoBinSearch(h, p, q);
    TwoBinOptimal(h, p, q, p, 0.0);
  }

  lemma PositiveFactor(i: nat, n: nat)
    requires i * n > 0
    ensures n > 0
  {
    assert i * 0 == 0;
  }

  // The mean of the bin that wrapped is negative, that of a lone pixel is not.
  lemma MeansApart(i: nat, j: nat, last: nat, n: nat)
    requires i <= last && j < 0x8000_0000 && 0x8000_0000 <= i * n && last * n < 0x1_0000_0000
    ensures n > 0 && Wrap32(i * n) as real / n as real != Wrap32(j * 1) as real / 1 as real
  {
    hide Wrap32;
    PositiveFactor(i, n);
    AtLeast(i, last, n);
    WrappedMean(i, n);
    OneFold(j);
  }

  // ---- beyond, some image goes wrong ----

  // A first class size whose product with the rest has the sign bit set.
  lemma Crossing(T: nat) returns (k: nat)
    requires SAFE < T < 0x8000_0000
    ensures 0 < k < T && 0x8000_0000 <= k * (T - k) < 0x1_0000_0000
  {
    k := 0;
    assert 0 * T == 0;
    while k * (T - k) < 0x8000_0000
      invariant 0 <= k <= T / 2
      invariant k > 0 ==> (k - 1) * (T - (k - 1)) < 0x8000_0000
      decreases T / 2 - k
    {
      if k == T / 2 { Middle(T); }
      k := k + 1;
    }
    assert k * (T - k) == (k - 1) * (T - (k - 1)) + T - 2 * k + 1;
  }

  lemma Middle(T: nat)
    requires T > SAFE
    ensures (T / 2) * (T - T / 2) >= 0x8000_0000
  {
    var a, b := T / 2, T - T / 2;
    AtLeast(46341, b, 46341);
    AtLeast(46341, a, b);
    assert 46341 * b >= 46341 * 46341;
  }

  lemma NegativeScore(sum: real, s: real, w: int, f: int)
    requires w != 0 && f != 0 && 0x8000_0000 <= w * f < 0x1_0000_0000
    ensures Score(sum, s, w, f) <= 0.0
  {
    var d := s / w as real - (sum - s) / f as real;
    Reassociate(Wrap32(w * f) as real, d);
    NotPositive(Wrap32(w * f) as real, d);
  }

  lemma NotPositive(a: real, d: real)
    requires a <= 0.0
    ensures a * (d * d) <= 0.0
  {
    assert d * d >= 0.0;
  }

  // x pixels in bin p and y in bin q.
  function Pair(range: nat, p: nat, x: nat, q: nat, y: nat): (h: seq<nat>)
    requires p < q < range
    ensures |h| == range && h[p] == x && h[q] == y && EmptyBins(h, 0, p) && EmptyBins(h, p + 1, q)
            && EmptyBins(h, q + 1, range)
  {
    seq(range, _ => 0)[p := x][q := y]
  }

  // Two classes whose sizes multiply past 2^31: the only split is lost.
  lemma SizesWrap(range: nat, p: nat, T: nat) returns (h: seq<nat>)
    requires p + 1 < range && SAFE < T < 0x8000_0000
    ensures |h| == range && Count(h, range) == T && Result(h, T) == (0.0, 0) && Splits(h, p)
    ensures !Optimal(h, 0, 0.0) && (p > 0 ==> !RightThreshold(h, 0))
  {
    hide Search, Optimal, Count, Result, RightThreshold;
    var k := Crossing(T);
    h := Pair(range, p, k, p + 1, T - k);
    TwoBinSearch(h, p, p + 1);
    TwoBinSums(h, p, p + 1);
    NegativeScore(Wrap32(p * k) as real + Wrap32((p + 1) * (T - k)) as real, Wrap32(p * k) as real, k, T - k);
    TwoBinOptimal(h, p, p + 1, 0, 0.0);
    TwoBinBetween(h, p, p + 1, p);
  }

  // ---- a bin beside one pixel ----

  // A wrapped product gives a mean that is neither c nor, for one of the two
  // lone pixels 0 and 1, as far from the pixel as c is.
  lemma WrappedApart(c: nat, n: nat) returns (j: nat)
    requires c > 1 && n > 0 && 0x8000_0000 <= c * n
    ensures j <= 1 && j < c
    ensures var x := Wrap32(c * n) as real / n as real; Square(j as real - x) != Square(j as real - c as real)
  {
    var w := Wrap32(c * n);
    var x := w as real / n as real;
    Quotient(w as real, n as real);
    j := if x == -(c as real) then 1 else 0;
    assert w != c * n;
    Casts(c, n);
    assert x == c as real ==> x * n as real == c as real * n as real;
    SameDistance(j as real, x, c as real);
  }

  lemma SameDistance(j: real, x: real, c: real)
    ensures Square(j - x) == Square(j - c) <==> x == c || x == 2.0 * j - c
  {
    assert Square(j - x) - Square(j - c) == (c - x) * (2.0 * j - x - c);
    Factors(c - x, 2.0 * j - x - c);
  }

  lemma Factors(a: real, b: real)
    ensures a * b == 0.0 <==> a == 0.0 || b == 0.0
  {
    if a != 0.0 && b != 0.0 {
      if a > 0.0 && b > 0.0 { Positive(a, b); }
      if a > 0.0 && b < 0.0 { Positive(a, -b); }
      if a < 0.0 && b > 0.0 { Positive(-a, b); }
      if a < 0.0 && b < 0.0 { Positive(-a, -b); }
    }
  }

  // All pixels but one in the last bin: the variance, or the threshold, is wrong.
  lemma BinWraps(range: nat, T: nat) returns (h: seq<nat>)
    requires 1 < T <= SAFE && range < 0x8000_0000 && 0x8000_0000 <= (range - 1) * (T - 1)
    ensures |h| == range && Count(h, range) == T && !Optimal(h, Result(h, T).1, Result(h, T).0)
  {
    hide Search, Optimal, Count, Result, TwoScore, TwoVariance, Wrap32;
    var c, n := range - 1, T - 1;
    assert c <= 1 ==> c * n <= n by { assert 0 * n == 0 && 1 * n == n; }
    var j := WrappedApart(c, n);
    h := Pair(range, j, 1, c, n);
    TwoBinSearch(h, j, c);
    TwoBinSums(h, j, c);
    TwoBinOptimal(h, j, c, Result(h, T).1, Result(h, T).0);
    TwoBinBetween(h, j, c, j);
    LoneScores(h, j, c);
  }

  lemma LoneScores(h: seq<nat>, j: nat, c: nat)
    requires TwoBins(h, j, c) && h[j] == 1 && j <= 1 && h[c] + 1 <= SAFE
    requires Square(j as real - Wrap32(c * h[c]) as real / h[c] as real) != Square(j as real - c as real)
    ensures TwoScore(h, j, c) != TwoVariance(h, j, c)
  {
    hide Square, TwoScore, TwoVariance, EmptyBins, Wrap32;
    LoneScore(h, j, c);
    LoneVariance(h, j, c);
    Scaled(h[c] as real, Square(j as real - Wrap32(c * h[c]) as real / h[c] as real), Square(j as real - c as real));
  }

  lemma LoneScore(h: seq<nat>, j: nat, c: nat)
    requires j < |h| && c < |h| && h[j] == 1 && j <= 1 && 0 < h[c] <= SAFE - 1
    ensures TwoScore(h, j, c) == h[c] as real * Square(j as real - Wrap32(c * h[c]) as real / h[c] as real)
  {
    hide Square, Score, Wrap32;
    OneFold(j);
    ScoreOfOne(j as real, Wrap32(c * h[c]) as real, h[c]);
  }

  lemma ScoreOfOne(s: real, x: real, n: nat)
    requires 0 < n <= SAFE - 1
    ensures Score(s + x, s, 1, n) == n as real * Square(s - x / n as real)
  {
    hide Square, Score, Wrap32;
    ProductFits(1, n);
    ScoreIs(s + x, s, 1, n);
    OverOne(s);
    assert s + x - s == x;
    assert s / (1 as real) - (s + x - s) / n as real == s - x / n as real;
    assert Wrap32(1 * n) as real == n as real;
  }

  lemma OverOne(s: real)
    ensures s / (1 as real) == s
  {
  }

  lemma LoneVariance(h: seq<nat>, j: nat, c: nat)
    requires j < |h| && c < |h| && h[j] == 1 && j <= 1 && 0 < h[c]
    ensures TwoVariance(h, j, c) == h[c] as real * Square(j as real - c as real)
  {
    hide Square;
    OneFold(j);
    CancelCast(c, h[c]);
    assert h[j] * h[c] == h[c] && j * h[j] == j;
  }

  lemma CancelCast(c: int, n: int)
    requires n > 0
    ensures (c * n) as real / n as real == c as real
  {
    Casts(c, n);
    Cancel(c as real, n as real);
  }

  lemma OneFold(j: nat)
    requires j < 0x8000_0000
    ensures Wrap32(j * 1) == j * 1 == j && j as real / 1.0 == j as real && (j * 1) as real / 1.0 == j as real
  {
  }

  lemma Cancel(c: real, n: real)
    requires n > 0.0
    ensures c * n / n == c
  {
  }

  lemma Scaled(a: real, x: real, y: real)
    requires a > 0.0 && x != y
    ensures a * x != a * y
  {
    Factors(a, x - y);
    assert a * (x - y) == a * x - a * y;
  }

  // ---- two pixels beside a bin: the threshold goes wrong ----

  // The first bin number whose product with n has the sign bit set.
  lemma FirstWrap(n: nat, m: nat) returns (c: nat)
    requires n > 0 && 0x8000_0000 <= m * n
    ensures 0 < c <= m && (c - 1) * n < 0x8000_0000 <= c * n
  {
    c := 0;
    assert 0 * n == 0;
    while c * n < 0x8000_0000
      invariant c <= m && (c > 0 ==> (c - 1) * n < 0x8000_0000)
      decreases m - c
    {
      if c == m { assert false; }
      c := c + 1;
    }
  }

  // One pixel in bin 0, one in bin c - 1 and n in bin c.
  function Triple(range: nat, c: nat, n: nat): (h: seq<nat>)
    requires 1 < c < range
    ensures |h| == range && h[0] == 1 && h[c - 1] == 1 && h[c] == n
    ensures EmptyBins(h, 1, c - 1) && EmptyBins(h, c + 1, range)
  {
    seq(range, _ => 0)[0 := 1][c - 1 := 1][c := n]
  }

  lemma TripleSums(h: seq<nat>, c: nat, n: nat)
    requires 1 < c < |h| && h[0] == 1 && h[c - 1] == 1 && h[c] == n && EmptyBins(h, 1, c - 1)
             && EmptyBins(h, c + 1, |h|)
    ensures Count(h, |h|) == n + 2 && Count(h, 1) == 1 && Count(h, c) == 2
    ensures Sum(h, |h|) == c - 1 + c * n && Sum(h, 1) == 0 && Sum(h, c) == c - 1
    ensures WrappedSum(h, |h|) == Wrap32(c - 1) as real + Wrap32(c * n) as real
  {
    hide Wrap32;
    SumsNext(h, 0);
    SumsSkip(h, 1, c - 1);
    SumsNext(h, c - 1);
    SumsNext(h, c);
    SumsSkip(h, c + 1, |h|);
    assert Wrap32(0) == 0 by { WrapNothing(); }
    assert (c - 1) * 1 == c - 1;
  }

  lemma WrapNothing()
    ensures Wrap32(0) == 0
  {
  }

  lemma TripleSearch(h: seq<nat>, c: nat, n: nat)
    requires 1 < c < |h| && n > 0 && h[0] == 1 && h[c - 1] == 1 && h[c] == n && EmptyBins(h, 1, c - 1)
             && EmptyBins(h, c + 1, |h|)
    requires c <= 0x8000_0000
    requires var sum := (c - 1) as real + Wrap32(c * n) as real;
             && 0.0 < Score(sum, 0.0, 1, n + 1) < Score(sum, (c - 1) as real, 2, n)
    ensures Result(h, n + 2).1 == c - 1
  {
    hide Search, Score, Wrap32, Count, Sum;
    TripleSums(h, c, n);
    WrapNothing();
    WrapSmall(c - 1);
    var total, sum := n + 2, WrappedSum(h, |h|);
    var v, w := Score(sum, 0.0, 1, n + 1), Score(sum, (c - 1) as real, 2, n);
    assert 0 * h[0] == 0 && (c - 1) * h[c - 1] == c - 1;
    SearchOnce(h, total, sum, 0, 0, 0.0, 0.0, 0);
    SearchSkips(h, total, sum, 1, c - 1, 1, 0.0, v, 0);
    SearchOnce(h, total, sum, c - 1, 1, 0.0, v, 0);
    SearchOnce(h, total, sum, c, 2, (c - 1) as real, w, c - 1);
  }

  // The true variances put the split above bin 0 first.
  lemma TripleBetween(h: seq<nat>, c: nat, n: nat)
    requires 5 <= c < |h| && n > 0 && h[0] == 1 && h[c - 1] == 1 && h[c] == n && EmptyBins(h, 1, c - 1)
             && EmptyBins(h, c + 1, |h|)
    ensures Splits(h, 0) && Splits(h, c - 1) && Between(h, 0) > Between(h, c - 1)
  {
    hide *;
    TripleSplits(h, c, n);
    BetweenOf(h, 0, 1, 0, n + 1, c * (n + 1) - 1);
    BetweenOf(h, c - 1, 2, c - 1, n, c * n);
    TripleOrder(c, n, Between(h, 0), Between(h, c - 1));
  }

  lemma TripleSplits(h: seq<nat>, c: nat, n: nat)
    requires 5 <= c < |h| && n > 0 && h[0] == 1 && h[c - 1] == 1 && h[c] == n && EmptyBins(h, 1, c - 1)
             && EmptyBins(h, c + 1, |h|)
    ensures Splits(h, 0) && Splits(h, c - 1) && c * (n + 1) - 1 >= 0 && c * n >= 0
    ensures Count(h, 0 + 1) == 1 && Sum(h, 0 + 1) == 0 && Count(h, |h|) == 1 + (n + 1)
            && Sum(h, |h|) == 0 + (c * (n + 1) - 1)
    ensures Count(h, c - 1 + 1) == 2 && Sum(h, c - 1 + 1) == c - 1 && Count(h, |h|) == 2 + n
            && Sum(h, |h|) == c - 1 + c * n
  {
    hide Count, Sum, EmptyBins;
    TripleSums(h, c, n);
    OneMoreTime(c, n);
    NonNegative(c, n);
  }

  lemma NonNegative(a: nat, b: nat)
    ensures a * b >= 0
  {
  }

  lemma OneMoreTime(c: nat, n: nat)
    ensures c * (n + 1) == c * n + c
  {
  }

  lemma TripleOrder(c: nat, n: nat, v: real, w: real)
    requires c >= 5 && n > 0 && c * (n + 1) - 1 >= 0
    requires v == (1 * (n + 1)) as real * Square(0.0 / 1.0 - (c * (n + 1) - 1) as real / (n + 1) as real)
    requires w == (2 * n) as real * Square((c - 1) as real / 2.0 - (c * n) as real / n as real)
    ensures v > w
  {
    hide Square;
    Casts(c, n);
    Cancel(c as real, n as real);
    FirstVariance(c, n + 1);
    SecondVariance(c, n);
    TrueOrder(c, n);
  }

  lemma FirstVariance(c: nat, m: nat)
    requires m > 0 && c > 0
    ensures c * m - 1 >= 0
    ensures (1 * m) as real * Square(0.0 / 1.0 - (c * m - 1) as real / m as real) ==
            ((c * m - 1) * (c * m - 1)) as real / m as real
  {
    PositiveProduct(c, m);
    var x, y := (c * m - 1) as real, m as real;
    Quotient(x, y);
    Casts(c * m - 1, c * m - 1);
    var q := x / y;
    assert y * Square(0.0 - q) == q * y * q == x * q;
    Quotient(x * x, y);
    assert x * q * y == x * x;
    SameQuotients(x * q, x * x, y);
  }

  lemma SameQuotients(a: real, b: real, n: real)
    requires n > 0.0 && a * n == b
    ensures a == b / n
  {
  }

  lemma SecondVariance(c: nat, n: nat)
    requires c > 0
    ensures 2.0 * ((2 * n) as real * Square((c - 1) as real / 2.0 - c as real)) == (n * ((c + 1) * (c + 1))) as real
  {
    var x := (c + 1) as real;
    assert (c - 1) as real / 2.0 - c as real == -(x / 2.0);
    assert Square(-(x / 2.0)) == x * x / 4.0;
    Casts(c + 1, c + 1);
    Casts(n, (c + 1) * (c + 1));
    assert (2 * n) as real == 2.0 * n as real;
    FourFold(n as real, x * x);
  }

  lemma FourFold(n: real, y: real)
    ensures 2.0 * (2.0 * n * (y / 4.0)) == n * y
  {
  }

  lemma TrueOrder(c: nat, n: nat)
    requires c >= 5 && n > 0
    ensures c * (n + 1) - 1 >= 0
    ensures ((c * (n + 1) - 1) * (c * (n + 1) - 1)) as real / (n + 1) as real * 2.0 > (n * ((c + 1) * (c + 1))) as real
  {
    IntegerOrder(c, n);
    AtLeast(5, c, n + 1);
    NonNegative(c * (n + 1) - 1, c * (n + 1) - 1);
    NonNegative(c + 1, c + 1);
    NonNegative(n, (c + 1) * (c + 1));
    DoubledQuotient((c * (n + 1) - 1) * (c * (n + 1) - 1), n * ((c + 1) * (c + 1)), n + 1);
  }

  lemma DoubledQuotient(l: nat, r: nat, m: nat)
    requires m > 0 && 2 * l > r * m
    ensures l as real / m as real * 2.0 > r as real
  {
    Quotient(l as real, m as real);
    Casts(r, m);
    var q := l as real / m as real;
    if 2.0 * q <= r as real { Ordered(2.0 * q, r as real, m as real); }
  }

  lemma Ordered(a: real, b: real, n: real)
    requires n >= 0.0 && a <= b
    ensures a * n <= b * n
  {
  }

  lemma IntegerOrder(c: nat, n: nat)
    requires c >= 5 && n > 0
    ensures 2 * ((c * (n + 1) - 1) * (c * (n + 1) - 1)) > n * ((c + 1) * (c + 1)) * (n + 1)
  {
    var m := n + 1;
    var p, x := c * m, (c + 1) * (c + 1);
    AtLeast(5, c, m);
    SquareTwice(m, c + 1);
    OneMoreTime(m, c);
    LessTimes(n, x, m);
    Dominates(p, m);
  }

  lemma SquareTwice(m: nat, k: nat)
    ensures m * (k * k) * m == (m * k) * (m * k)
  {
  }

  lemma LessTimes(n: nat, x: nat, m: nat)
    requires n < m && x > 0
    ensures n * x * m < m * x * m
  {
    PositiveProduct(x, m);
    assert n * x * m == n * (x * m) && m * x * m == m * (x * m);
    assert (m - n) * (x * m) == m * (x * m) - n * (x * m);
    PositiveProduct(m - n, x * m);
  }

  lemma Dominates(p: nat, m: nat)
    requires 5 * m <= p && m >= 2
    ensures (p + m) * (p + m) <= 2 * ((p - 1) * (p - 1))
  {
    AtLeast(5 * (p + m), 6 * p, 5 * (p + m));
    AtLeast(5 * (p + m), 6 * p, 6 * p);
    AtLeast(10, p, p);
  }

  // A class mean x / m away from 0, in m pixels.
  lemma MeanSquare(x: real, m: real)
    requires m > 0.0
    ensures m * Square(x / m) == Square(x) / m
  {
    Quotient(x, m);
    SquareOfMean(x / m, m);
  }

  lemma SquareOfMean(q: real, m: real)
    requires m > 0.0
    ensures m * Square(q) == Square(q * m) / m
  {
    assert q * m * (q * m) == m * (q * q) * m;
    SameQuotients(m * (q * q), q * m * (q * m), m);
  }

  // With the last product wrapped to -x the second split scores higher.
  lemma WrappedOrder(x: real, y: real, n: real)
    requires 0.0 <= y < x && n > 0.0
    ensures (n + 1.0) * Square(0.0 / 1.0 - (y - x) / (n + 1.0)) < 2.0 * n * Square(y / 2.0 - -x / n)
  {
    hide Square;
    FirstScore(x, y, n + 1.0);
    SecondScore(x, y, n);
    SquarePositive(x);
    Shrinks(Square(x - y), Square(x), n);
  }

  lemma FirstScore(x: real, y: real, m: real)
    requires 0.0 <= y <= x && m > 0.0
    ensures m * Square(0.0 / 1.0 - (y - x) / m) == Square(x - y) / m && Square(x - y) <= Square(x)
  {
    hide Square;
    NegatedMean(x - y, m);
    MeanSquare(x - y, m);
    Grows(x - y, y);
    assert -(x - y) == y - x && x - y + y == x && y + (x - y) == x;
  }

  lemma NegatedMean(x: real, m: real)
    requires m > 0.0
    ensures -x / m == -(x / m) && 0.0 / 1.0 - -x / m == x / m
  {
    Quotient(x, m);
    assert -(x / m) * m == -x;
    SameQuotients(-(x / m), -x, m);
  }

  lemma SecondScore(x: real, y: real, n: real)
    requires 0.0 <= y && 0.0 <= x && n > 0.0
    ensures 2.0 * n * Square(y / 2.0 - -x / n) >= 2.0 * (Square(x) / n)
  {
    hide Square;
    NegatedMean(x, n);
    MeanSquare(x, n);
    MeanAtMost(x, n, 0.0);
    Grows(x / n, y / 2.0);
    Ordered(Square(x / n), Square(y / 2.0 + x / n), 2.0 * n);
    Doubled(n, Square(x / n));
  }

  lemma Doubled(n: real, z: real)
    ensures z * (2.0 * n) == 2.0 * (n * z)
  {
  }

  lemma Grows(q: real, y: real)
    requires 0.0 <= y && 0.0 <= q
    ensures Square(q) <= Square(y + q)
  {
    Ordered(q, y + q, q);
    Ordered(q, y + q, y + q);
  }

  lemma Shrinks(l: real, r: real, n: real)
    requires l <= r && r > 0.0 && n > 0.0
    ensures l / (n + 1.0) < 2.0 * (r / n)
  {
    Quotient(l, n + 1.0);
    Quotient(r, n);
    var p, q := l / (n + 1.0), r / n;
    MeanAtMost(r, n, 0.0);
    if p >= 2.0 * q {
      Ordered(2.0 * q, p, n + 1.0);
      assert 2.0 * q * (n + 1.0) == 2.0 * (q * n) + 2.0 * q;
    }
  }

  // One pixel at each end of the first bin to wrap: the search prefers the split
  // just below that bin, the variances the one above bin 0.
  lemma ThresholdWraps(range: nat, T: nat) returns (h: seq<nat>)
    requires 2 < T <= SAFE && range < 0x8000_0000 && 0x8000_0000 <= (range - 1) * (T - 2)
    ensures |h| == range && Count(h, range) == T && !RightThreshold(h, Result(h, T).1)
  {
    hide Search, Count, Result, Wrap32, Score, Square, Between, RightThreshold, EmptyBins;
    var n := T - 2;
    var c := FirstWrap(n, range - 1);
    WrapSizes(c, n);
    h := Triple(range, c, n);
    TripleSums(h, c, n);
    TripleScores(c, n);
    TripleSearch(h, c, n);
    TripleBetween(h, c, n);
    FirstBeats(h, c - 1);
  }

  lemma TripleScores(c: nat, n: nat)
    requires 0 < n && n + 2 <= SAFE && c > 0 && c - 1 < -Wrap32(c * n)
    ensures var sum := (c - 1) as real + Wrap32(c * n) as real;
            0.0 < Score(sum, 0.0, 1, n + 1) < Score(sum, (c - 1) as real, 2, n)
  {
    hide Wrap32, Score, Square;
    var x := -Wrap32(c * n);
    var sum := (c - 1) as real + Wrap32(c * n) as real;
    ProductFits(1, n + 1);
    ProductFits(2, n);
    ScoreIs(sum, 0.0, 1, n + 1);
    ScoreIs(sum, (c - 1) as real, 2, n);
    WrappedOrder(x as real, (c - 1) as real, n as real);
    NegativeMean(sum, (n + 1) as real);
    ScorePositive(sum, 0.0, 1, n + 1);
  }

  lemma NegativeMean(s: real, m: real)
    requires s < 0.0 && m > 0.0
    ensures 0.0 / 1.0 != (s - 0.0) / m
  {
    Quotient(s, m);
    assert 0.0 * m == 0.0;
  }

  lemma FirstBeats(h: seq<nat>, t: int)
    requires Splits(h, 0) && Splits(h, t) && Between(h, 0) > Between(h, t)
    ensures !RightThreshold(h, t)
  {
    hide Count, Between;
  }

  lemma WrapSizes(c: nat, n: nat)
    requires 0 < n < SAFE && 0 < c < 0x7FFF_FFFF && (c - 1) * n < 0x8000_0000 <= c * n
    ensures c >= 5 && Wrap32(c * n) == c * n - 0x1_0000_0000 && c - 1 < -Wrap32(c * n)
  {
    assert (c - 1) * n == c * n - n;
    if c < 5 { AtLeast(c, 4, n); }
    assert n == 1 ==> c * n == c;
    if n >= 2 { AtLeast(2, n, c - 1); }
  }

  // ---- the exact conditions ----

  // Threshold and variance as reported: the variance times the square of the pixel
  // count is the greatest one.
  ghost predicate RightReport(h: seq<nat>, t: int, outvar: Variance, total: nat) {
    outvar.Value? && Optimal(h, t, Undivided(outvar.v, total))
  }

  function Undivided(v: real, total: nat): real { v * total as real * total as real }

  // Pixel count and range are ints. The search is right on every image of T pixels
  // exactly when no product can wrap beside another pixel.
  lemma SearchRightExactly(T: nat, range: nat)
    requires 0 < range < 0x8000_0000 && T < 0x8000_0000
    ensures range == 1 || (T <= SAFE && (range - 1) * (T - 1) < 0x8000_0000) <==>
            forall a: seq<int> :: |a| == T ==>
              var h := Histogram(a, range); Optimal(h, Result(h, T).1, Result(h, T).0)
  {
    hide Optimal, Result, Histogram, Count, Splits;
    if range == 1 || (T <= SAFE && (range - 1) * (T - 1) < 0x8000_0000) {
      forall a: seq<int> | |a| == T
        ensures var h := Histogram(a, range); Optimal(h, Result(h, T).1, Result(h, T).0)
      {
        HistogramTotal(a, range);
        if range == 1 { OneBinOnly(Histogram(a, range)); } else { BothRight(Histogram(a, range)); }
      }
    } else {
      var h;
      if T > SAFE { h := SizesWrap(range, 0, T); } else { h := BinWraps(range, T); }
      var a := ImageOf(h);
      assert |a| == T;
    }
  }

  // What is reported is right on every image of T pixels under the same condition,
  // and not a number on the empty image.
  lemma RightExactly(T: nat, range: nat)
    requires 0 < range < 0x8000_0000 && T < 0x8000_0000
    ensures T > 0 && (range == 1 || (T <= SAFE && (range - 1) * (T - 1) < 0x8000_0000)) <==>
            forall a: seq<int> :: |a| == T ==>
              var h := Histogram(a, range); RightReport(h, Result(h, T).1, Reported(Result(h, T).0, T), T)
  {
    hide RightReport, Optimal, Result, Histogram, Reported;
    SearchRightExactly(T, range);
    forall a: seq<int> | |a| == T
      ensures var h := Histogram(a, range);
              RightReport(h, Result(h, T).1, Reported(Result(h, T).0, T), T) <==>
              T > 0 && Optimal(h, Result(h, T).1, Result(h, T).0)
    {
      var h := Histogram(a, range);
      ReportRight(h, Result(h, T).1, Result(h, T).0, T);
    }
    assert |seq(T, _ => 0)| == T;
  }

  lemma ReportRight(h: seq<nat>, t: int, best: real, total: nat)
    ensures RightReport(h, t, Reported(best, total), total) <==> total > 0 && Optimal(h, t, best)
  {
    hide Optimal, Undivided;
    if total > 0 { UndividedReport(best, total); }
  }

  lemma UndividedReport(best: real, total: nat)
    requires total > 0
    ensures Reported(best, total).Value? && Undivided(Reported(best, total).v, total) == best
  {
    DividedTwice(best, total as real);
  }

  lemma DividedTwice(x: real, n: real)
    requires n > 0.0
    ensures x / n / n * n * n == x
  {
    Quotient(x, n);
    Quotient(x / n, n);
  }

  lemma OneBinOnly(h: seq<nat>)
    requires |h| == 1
    ensures var r := Result(h, Count(h, |h|)); Optimal(h, r.1, r.0)
  {
    hide Optimal, Count, Result;
    OneBin(h, 0);
  }

  // The threshold alone stands one more pixel, and any size over two bins.
  lemma ThresholdRightExactly(T: nat, range: nat)
    requires 0 < range < 0x8000_0000 && T < 0x8000_0000
    ensures range <= 2 || (T <= SAFE && (range - 1) * (T - 2) < 0x8000_0000) <==>
            forall a: seq<int> :: |a| == T ==>
              var h := Histogram(a, range); RightThreshold(h, Result(h, T).1)
  {
    hide RightThreshold, Optimal, Result, Histogram, Count, Splits;
    if range <= 2 || (T <= SAFE && (range - 1) * (T - 2) < 0x8000_0000) {
      forall a: seq<int> | |a| == T
        ensures var h := Histogram(a, range); RightThreshold(h, Result(h, T).1)
      {
        HistogramTotal(a, range);
        var h := Histogram(a, range);
        if range <= 2 { FewBins(h); } else { ThresholdRight(h); }
      }
    } else {
      var h;
      if T > SAFE { h := SizesWrap(range, 1, T); } else { h := ThresholdWraps(range, T); }
      var a := ImageOf(h);
      assert |a| == T;
    }
  }

  // Over at most two bins 0 is the only threshold there can be.
  lemma FewBins(h: seq<nat>)
    requires 0 < |h| <= 2
    ensures RightThreshold(h, Result(h, Count(h, |h|)).1)
  {
    hide Optimal, Count, Result, RightThreshold, TwoScore;
    if |h| == 1 || h[1] == 0 {
      OneBin(h, 0);
      OptimalThreshold(h, 0, 0.0);
    } else if h[0] == 0 {
      OneBin(h, 1);
      OptimalThreshold(h, 0, 0.0);
    } else {
      TwoBinSums(h, 0, 1);
      TwoBinSearch(h, 0, 1);
      TwoBinOptimal(h, 0, 1, 0, 0.0);
    }
  }
}
