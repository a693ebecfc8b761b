/**
 The in-place quick-select macro: the element of middle rank of a range, found
 with two unguarded scans per partition.
 */
module Median {
  import opened Rearrangement

  // ---- splits ----

  // Nothing before k exceeds anything from k on.
  ghost predicate SplitAt(s: seq<int>, low: int, high: int, k: int)
    requires 0 <= low && high < |s|
  {
    forall i, j :: low <= i < k && k <= j <= high ==> s[i] <= s[j]
  }

  // Rearranging a stretch on one side of a split keeps the split.
  lemma SplitKept(s: seq<int>, t: seq<int>, a: int, b: int, low: int, high: int, k: int)
    requires 0 <= a <= low <= high <= b < |s| && Rearranged(s, t, low, high)
    requires SplitAt(s, a, b, k) && (k <= low || high < k)
    ensures SplitAt(t, a, b, k)
  {
    forall i, j | a <= i < k && k <= j <= b
      ensures t[i] <= t[j]
    {
      var i', j' := i, j;
      if low <= i <= high { i' := FromRange(s, t, low, high, i); }
      if low <= j <= high { j' := FromRange(s, t, low, high, j); }
      assert s[i'] <= s[j'];
    }
  }

  // ---- rank ----

  function CountBelow(s: seq<int>, v: int): nat {
    if s == [] then 0 else CountBelow(s[..|s| - 1], v) + (if s[|s| - 1] < v then 1 else 0)
  }

  ghost predicate Sorted(s: seq<int>) {
    forall i, j :: 0 <= i < j < |s| ==> s[i] <= s[j]
  }

  lemma {:induction false} CountConcat(s: seq<int>, t: seq<int>, v: int)
    ensures CountBelow(s + t, v) == CountBelow(s, v) + CountBelow(t, v)
  {
    if t == [] {
      assert s + t == s;
    } else {
      assert (s + t)[..|s + t| - 1] == s + t[..|t| - 1];
      CountConcat(s, t[..|t| - 1], v);
    }
  }

  lemma TakeOut(t: seq<int>, k: nat, v: int)
    requires k < |t|
    ensures multiset(t[..k] + t[k + 1..]) == multiset(t) - multiset{t[k]}
    ensures CountBelow(t, v) == CountBelow(t[..k] + t[k + 1..], v) + (if t[k] < v then 1 else 0)
  {
    var a, x, b := t[..k], t[k], t[k + 1..];
    assert t == a + ([x] + b);
    CountConcat(a, b, v);
    CountConcat(a, [x] + b, v);
    CountConcat([x], b, v);
    CountOne(x, v);
  }

  // The count depends on the elements only, not on their order.
  lemma {:induction false} CountOfMultiset(s: seq<int>, t: seq<int>, v: int)
    requires multiset(s) == multiset(t)
    ensures CountBelow(s, v) == CountBelow(t, v)
    decreases |s|
  {
    hide CountBelow;
    assert |multiset(s)| == |s| && |multiset(t)| == |t|;
    if s == [] {
      assert t == [];
    } else {
      assert s[0] in multiset(s);
      assert s[0] in t;
      var k :| 0 <= k < |t| && t[k] == s[0];
      TakeOut(s, 0, v);
      TakeOut(t, k, v);
      CountOfMultiset(s[..0] + s[1..], t[..k] + t[k + 1..], v);
    }
  }

  lemma CountOne(x: int, v: int)
    ensures CountBelow([x], v) == if x < v then 1 else 0
  {
    assert [x][..0] == [];
  }

  lemma {:induction false} CountBounds(s: seq<int>, v: int)
    ensures CountBelow(s, v) <= |s|
    ensures (forall i :: 0 <= i < |s| ==> s[i] >= v) ==> CountBelow(s, v) == 0
    ensures (forall i :: 0 <= i < |s| ==> s[i] < v) ==> CountBelow(s, v) == |s|
  {
    if s != [] {
      var front := s[..|s| - 1];
      CountBounds(front, v);
      assert forall i :: 0 <= i < |front| ==> front[i] == s[i];
    }
  }

  // A split at k and at k + 1 fixes how many elements are smaller.
  lemma SplitCounts(s: seq<int>, k: nat, v: int)
    requires k < |s|
    requires forall i :: 0 <= i < k ==> s[i] <= s[k]
    requires forall j :: k < j < |s| ==> s[k] <= s[j]
    ensures v <= s[k] ==> CountBelow(s, v) <= k
    ensures v > s[k] ==> CountBelow(s, v) > k
  {
    hide CountBelow;
    var a, c := s[..k], s[k + 1..];
    ThreeParts(s, k);
    CountConcat(a, [s[k]] + c, v);
    CountConcat([s[k]], c, v);
    CountOne(s[k], v);
    CountBounds(a, v);
    CountBounds(c, v);
  }

  lemma ThreeParts(s: seq<int>, k: nat)
    requires k < |s|
    ensures s == s[..k] + ([s[k]] + s[k + 1..])
  {
  }

  // The value at a position that splits its sequence on both sides is the value
  // at that position of every sorted rearrangement.
  lemma SplitIsRank(s: seq<int>, t: seq<int>, k: nat)
    requires k < |s| && multiset(s) == multiset(t) && Sorted(t)
    requires forall i :: 0 <= i < k ==> s[i] <= s[k]
    requires forall j :: k < j < |s| ==> s[k] <= s[j]
    ensures k < |t| && t[k] == s[k]
  {
    assert |multiset(s)| == |s| && |multiset(t)| == |t|;
    CountOfMultiset(s, t, s[k]);
    CountOfMultiset(s, t, t[k]);
    SplitCounts(s, k, s[k]);
    SplitCounts(s, k, t[k]);
    SplitCounts(t, k, s[k]);
    SplitCounts(t, k, t[k]);
  }

  // Every sequence has a sorted rearrangement, so its ranks are well defined.
  lemma {:induction false} SortedExists(s: seq<int>) returns (t: seq<int>)
    ensures Sorted(t) && multiset(t) == multiset(s)
  {
    if s == [] {
      t := [];
    } else {
      var u := SortedExists(s[1..]);
      var k := 0;
      while k < |u| && u[k] < s[0]
        invariant 0 <= k <= |u| && forall i :: 0 <= i < k ==> u[i] < s[0]
      {
        k := k + 1;
      }
      t := u[..k] + [s[0]] + u[k..];
      SortedInsert(u, k, s[0]);
      assert s == [s[0]] + s[1..];
    }
  }

  lemma SortedInsert(u: seq<int>, k: nat, x: int)
    requires Sorted(u) && k <= |u| && (forall i :: 0 <= i < k ==> u[i] < x) && (k < |u| ==> x <= u[k])
    ensures Sorted(u[..k] + [x] + u[k..]) && multiset(u[..k] + [x] + u[k..]) == multiset([x]) + multiset(u)
  {
    var a, b := u[..k], u[k..];
    assert u == a + b;
    SortedParts(a, x, b);
    PartsMultiset(a, x, b);
  }

  lemma SortedParts(a: seq<int>, x: int, b: seq<int>)
    requires Sorted(a + b) && (forall i :: 0 <= i < |a| ==> a[i] < x) && (b != [] ==> x <= b[0])
    ensures Sorted(a + [x] + b)
  {
    var t, u, k := a + [x] + b, a + b, |a|;
    forall j | k <= j < |u|
      ensures x <= u[j]
    {
      assert u[k] == b[0];
    }
    forall i, j | 0 <= i < j < |t|
      ensures t[i] <= t[j]
    {
      assert t[i] == if i < k then u[i] else if i == k then x else u[i - 1];
      assert t[j] == if j < k then u[j] else if j == k then x else u[j - 1];
    }
  }

  lemma PartsMultiset(a: seq<int>, x: int, b: seq<int>)
    ensures multiset(a + [x] + b) == multiset([x]) + multiset(a + b)
  {
  }

  // ---- the macro ----

  // The median of the first, middle and last elements goes to the front, a
  // smaller one behind it and a larger one to the end: they stop the scans.
  method Arrange(buf: array<int>, low: int, high: int)
    requires 0 <= low && low + 2 <= high < buf.Length
    modifies buf
    ensures Rearranged(old(buf[..]), buf[..], low, high)
    ensures buf[low + 1] <= buf[low] <= buf[high]
  {
    hide Rearranged;
    ghost var s0 := buf[..];
    RearrangedSelf(s0, low, high);
    var middle := (low + high) / 2;
    if buf[middle] > buf[high] {
      Swap(buf, middle, high, s0, low, high);
    }
    if buf[low] > buf[high] {
      Swap(buf, low, high, s0, low, high);
    }
    if buf[middle] > buf[low] {
      Swap(buf, middle, low, s0, low, high);
    }
    Swap(buf, middle, low + 1, s0, low, high);
  }

  method Partition(buf: array<int>, low: int, high: int) returns (ll: int, hh: int)
    requires 0 <= low && low + 2 <= high < buf.Length
    modifies buf
    ensures Rearranged(old(buf[..]), buf[..], low, high)
    ensures low <= hh < ll <= high && low + 2 <= ll
    ensures forall i :: low <= i < hh ==> buf[i] <= buf[hh]
    ensures forall i :: hh < i < ll ==> buf[i] == buf[hh]
    ensures forall i :: ll <= i <= high ==> buf[hh] <= buf[i]
  {
    hide Rearranged;
    ghost var s0 := buf[..];
    Arrange(buf, low, high);
    ghost var pivot := buf[low];
    ll, hh := low + 1, high;
    while true
      invariant low + 1 <= ll <= hh <= high && (ll == hh ==> hh < high)
      invariant Rearranged(s0, buf[..], low, high)
      invariant buf[low] == pivot
      invariant forall i :: low < i <= ll ==> buf[i] <= pivot
      invariant forall i :: hh <= i <= high ==> pivot <= buf[i]
      decreases hh - ll
    {
      ghost var ll0, hh0 := ll, hh;
      ll := ll + 1;
      while buf[low] > buf[ll]
        invariant ll0 < ll && (ll <= hh0 || ll == hh0 + 1 <= high)
        invariant forall i :: low < i < ll ==> buf[i] <= pivot
        decreases high - ll
      {
        ll := ll + 1;
      }
      hh := hh - 1;
      while buf[hh] > buf[low]
        invariant low <= hh < hh0 && (ll0 <= hh || hh == ll0 - 1)
        invariant forall i :: hh < i <= high ==> pivot <= buf[i]
        decreases hh
      {
        hh := hh - 1;
      }
      if hh < ll {
        break;
      }
      Swap(buf, ll, hh, s0, low, high);
    }
    Swap(buf, low, hh, s0, low, high);
  }

  // What the outer loop knows: the range is cut off by splits around the middle
  // index, or the middle index already splits on both sides and lies before it.
  ghost predicate Narrowed(s: seq<int>, low0: int, high0: int, low: int, high: int, median: int)
    requires 0 <= low0 && high0 < |s|
  {
    && low0 <= low && high <= high0 && low0 <= median <= high0
    && (if low <= median then median <= high && SplitAt(s, low0, high0, low) && SplitAt(s, low0, high0, high + 1)
        else SplitAt(s, low0, high0, median) && SplitAt(s, low0, high0, median + 1))
  }

  lemma NarrowedKept(s: seq<int>, t: seq<int>, low0: int, high0: int, low: int, high: int, median: int)
    requires 0 <= low0 && high0 < |s| && low < high && Narrowed(s, low0, high0, low, high, median)
    requires low0 <= low && high <= high0 && Rearranged(s, t, low, high)
    ensures Narrowed(t, low0, high0, low, high, median)
  {
    hide SplitAt, Rearranged;
    if low <= median {
      SplitKept(s, t, low0, high0, low, high, low);
      SplitKept(s, t, low0, high0, low, high, high + 1);
    } else {
      SplitKept(s, t, low0, high0, low, high, median);
      SplitKept(s, t, low0, high0, low, high, median + 1);
    }
  }

  // A partition cuts the range on the side that holds the middle index, or
  // settles the middle index when that lies between the crossed scans.
  lemma NarrowMore(s: seq<int>, low0: int, high0: int, low: int, high: int, median: int, ll: int, hh: int)
    requires 0 <= low0 && high0 < |s| && low < high && Narrowed(s, low0, high0, low, high, median)
    requires low <= hh < ll <= high
    requires forall i :: low <= i < hh ==> s[i] <= s[hh]
    requires forall i :: hh < i < ll ==> s[i] == s[hh]
    requires forall i :: ll <= i <= high ==> s[hh] <= s[i]
    ensures hh <= median ==> Narrowed(s, low0, high0, ll, high, median)
    ensures hh > median ==> Narrowed(s, low0, high0, low, hh - 1, median)
  {
    if low <= median {
      forall k | hh <= k <= ll
        ensures SplitAt(s, low0, high0, k)
      {
        forall i, j | low0 <= i < k && k <= j <= high0
          ensures s[i] <= s[j]
        {
          if low <= i && j <= high {
            assert s[i] <= s[hh] <= s[j];
          }
        }
      }
    }
  }

  ghost predicate Sorts(t: seq<int>, s: seq<int>) { Sorted(t) && multiset(t) == multiset(s) }

  // The range can be sorted, and however it is, v stands at place m.
  ghost predicate IsRanked(s: seq<int>, low: int, high: int, m: int, v: int)
    requires 0 <= low <= m <= high < |s|
  {
    && (exists t: seq<int> :: Sorts(t, s[low..high + 1]) && m - low < |t| && v == t[m - low])
    && (forall t: seq<int> :: Sorts(t, s[low..high + 1]) ==> m - low < |t| && v == t[m - low])
  }

  method Median(buf: array<int>, low0: int, high0: int) returns (r: int)
    requires 0 <= low0 <= high0 < buf.Length
    modifies buf
    ensures Rearranged(old(buf[..]), buf[..], low0, high0)
    ensures IsRanked(old(buf[..]), low0, high0, (low0 + high0) / 2, r)
  {
    hide Rearranged, Narrowed, IsRanked;
    ghost var s0 := buf[..];
    var low, high := low0, high0;
    var median := (low + high) / 2;
    RearrangedSelf(s0, low, high);
    StartNarrowed(s0, low0, high0, median);
    while true
      invariant Rearranged(s0, buf[..], low0, high0)
      invariant Narrowed(buf[..], low0, high0, low, high, median)
      decreases high - low
    {
      if high <= low {
        NarrowedBounds(buf[..], low0, high0, low, high, median);
        NarrowedDone(s0, buf[..], low0, high0, low, high, median);
        return buf[median];
      }
      ghost var s := buf[..];
      NarrowedBounds(s, low0, high0, low, high, median);
      if high == low + 1 {
        LastTwo(buf, s0, low0, high0, low, median);
        return buf[median];
      }
      low, high := Narrow(buf, s0, low0, high0, low, high, median);
    }
  }

  // Two elements are put in order.
  method LastTwo(buf: array<int>, ghost s0: seq<int>, ghost low0: int, ghost high0: int, low: int, ghost median: int)
    requires 0 <= low0 <= low < low + 1 <= high0 < buf.Length == |s0| && low0 <= median <= high0
    requires Rearranged(s0, buf[..], low0, high0) && Narrowed(buf[..], low0, high0, low, low + 1, median)
    modifies buf
    ensures Rearranged(s0, buf[..], low0, high0) && IsRanked(s0, low0, high0, median, buf[median])
  {
    hide Rearranged, Narrowed, IsRanked;
    ghost var s := buf[..];
    RearrangedSelf(s, low, low + 1);
    if buf[low] > buf[low + 1] {
      Swap(buf, low, low + 1, s, low, low + 1);
    }
    Widen(s0, s, buf[..], low, low + 1, low0, high0);
    NarrowedKept(s, buf[..], low0, high0, low, low + 1, median);
    TwoDone(buf[..], low0, high0, low, median);
    NarrowedDone(s0, buf[..], low0, high0, median, median, median);
  }

  // One partition, and the part that holds the middle.
  method Narrow(buf: array<int>, ghost s0: seq<int>, ghost low0: int, ghost high0: int, low: int, high: int,
                median: int)
      returns (low': int, high': int)
    requires 0 <= low0 <= low < high - 1 && high <= high0 < buf.Length == |s0| && low0 <= median <= high0
    requires Rearranged(s0, buf[..], low0, high0) && Narrowed(buf[..], low0, high0, low, high, median)
    modifies buf
    ensures Rearranged(s0, buf[..], low0, high0) && Narrowed(buf[..], low0, high0, low', high', median)
    ensures high' - low' < high - low
  {
    hide Rearranged, Narrowed;
    ghost var s := buf[..];
    var ll, hh := Partition(buf, low, high);
    Widen(s0, s, buf[..], low, high, low0, high0);
    NarrowedKept(s, buf[..], low0, high0, low, high, median);
    NarrowMore(buf[..], low0, high0, low, high, median, ll, hh);
    low', high' := low, high;
    if hh <= median {
      low' := ll;
    } else if hh >= median {
      high' := hh - 1;
    }
  }

  lemma NarrowedBounds(s: seq<int>, low0: int, high0: int, low: int, high: int, median: int)
    requires 0 <= low0 && high0 < |s| && Narrowed(s, low0, high0, low, high, median)
    ensures low0 <= low && high <= high0 && low0 <= median <= high0
  {
  }

  lemma StartNarrowed(s: seq<int>, low: int, high: int, median: int)
    requires 0 <= low <= median <= high < |s|
    ensures Narrowed(s, low, high, low, high, median)
  {
  }

  // Two elements in order settle the middle index.
  lemma TwoDone(s: seq<int>, low0: int, high0: int, low: int, median: int)
    requires 0 <= low0 && high0 < |s| && Narrowed(s, low0, high0, low, low + 1, median)
    requires s[low] <= s[low + 1]
    ensures Narrowed(s, low0, high0, median, median, median)
  {
  }

  lemma NarrowedDone(s0: seq<int>, s: seq<int>, low0: int, high0: int, low: int, high: int, median: int)
    requires 0 <= low0 <= high0 < |s0| && |s| == |s0| && Rearranged(s0, s, low0, high0)
    requires high <= low && Narrowed(s, low0, high0, low, high, median)
    ensures low0 <= median <= high0 && IsRanked(s0, low0, high0, median, s[median])
  {
    var u := s[low0..high0 + 1];
    var sorted := SortedExists(s0[low0..high0 + 1]);
    forall t: seq<int> | Sorted(t) && multiset(t) == multiset(s0[low0..high0 + 1])
      ensures median - low0 < |t| && s[median] == t[median - low0]
    {
      forall i | 0 <= i < median - low0
        ensures u[i] <= u[median - low0]
      {
        assert s[low0 + i] <= s[median];
      }
      forall j | median - low0 < j < |u|
        ensures u[median - low0] <= u[j]
      {
        assert s[median] <= s[low0 + j];
      }
      SplitIsRank(u, t, median - low0);
    }
  }
}
