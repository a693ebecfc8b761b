/**
 The in-place quicksort macro: a three-way partition around a pseudo-median of
 nine, an explicit stack of 48 ranges, and insertion sort for short ranges and
 for ranges in which nothing had to move.
 */
module QuickSort {
  import opened Bits
  import opened Rearrangement

  ghost predicate StrictWeakOrder<T(!new)>(lt: (T, T) -> bool) {
    && (forall x :: !lt(x, x))
    && (forall x, y, z :: lt(x, y) && lt(y, z) ==> lt(x, z))
    && (forall x, y, z :: !lt(x, y) && !lt(y, z) ==> !lt(x, z))
  }

  // No element is smaller than one before it.
  ghost predicate SortedBy<T>(s: seq<T>, lt: (T, T) -> bool) {
    forall i, j :: 0 <= i < j < |s| ==> !lt(s[j], s[i])
  }

  // ---- insertion sort ----

  method InsertionSort<T(!new)>(a: array<T>, lt: (T, T) -> bool, left: int, right: int)
    requires StrictWeakOrder(lt) && 0 <= left <= right < a.Length
    modifies a
    ensures Rearranged(old(a[..]), a[..], left, right)
    ensures forall i, j :: left <= i < j <= right ==> !lt(a[j], a[i])
  {
    hide Rearranged, Swapped;
    ghost var s0 := a[..];
    RearrangedSelf(s0, left, right);
    var ptr := left + 1;
    while ptr <= right
      invariant left + 1 <= ptr <= right + 1
      invariant Rearranged(s0, a[..], left, right)
      invariant forall i, j :: left <= i < j < ptr ==> !lt(a[j], a[i])
    {
      var ptr2 := ptr;
      while ptr2 > left && lt(a[ptr2], a[ptr2 - 1])
        invariant left <= ptr2 <= ptr
        invariant Rearranged(s0, a[..], left, right)
        invariant forall i, j :: left <= i < j <= ptr && j != ptr2 ==> !lt(a[j], a[i])
      {
        Swap(a, ptr2, ptr2 - 1, s0, left, right);
        ptr2 := ptr2 - 1;
      }
      assert ptr2 > left ==> forall i :: left <= i < ptr2 - 1 ==> !lt(a[ptr2 - 1], a[i]);
      ptr := ptr + 1;
    }
  }

  // ---- the pivot ----

  // The position of a median of three, with the source's comparisons.
  function MedianOf3<T>(s: seq<T>, lt: (T, T) -> bool, a: int, b: int, c: int): (r: int)
    requires 0 <= a < |s| && 0 <= b < |s| && 0 <= c < |s|
    ensures r == a || r == b || r == c
  {
    if lt(s[a], s[b]) then
      (if lt(s[b], s[c]) then b else if lt(s[a], s[c]) then c else a)
    else
      (if lt(s[c], s[b]) then b else if lt(s[a], s[c]) then a else c)
  }

  ghost predicate Between<T>(lt: (T, T) -> bool, x: T, y: T, z: T) {
    (!lt(y, x) && !lt(z, y)) || (!lt(y, z) && !lt(x, y))
  }

  // The chosen element lies between the other two.
  lemma MedianIsBetween<T(!new)>(s: seq<T>, lt: (T, T) -> bool, a: int, b: int, c: int)
    requires StrictWeakOrder(lt) && 0 <= a < |s| && 0 <= b < |s| && 0 <= c < |s|
    ensures var r := MedianOf3(s, lt, a, b, c);
            || (r == a && Between(lt, s[b], s[a], s[c]))
            || (r == b && Between(lt, s[a], s[b], s[c]))
            || (r == c && Between(lt, s[a], s[c], s[b]))
  {
    var x, y, z := s[a], s[b], s[c];
    assert lt(x, y) ==> !lt(y, x);
    assert lt(y, z) ==> !lt(z, y);
    assert lt(x, z) ==> !lt(z, x);
  }

  method ChoosePivot<T>(a: array<T>, lt: (T, T) -> bool, left: int, right: int) returns (pivot: int)
    requires 0 <= left < right < a.Length && right - left >= 7
    ensures left <= pivot <= right
  {
    var n := right - left + 1;
    var l, r := left, right;
    pivot := left + n / 2;
    if n > 40 {
      var d := n / 8;
      l := MedianOf3(a[..], lt, left, left + d, left + 2 * d);
      pivot := MedianOf3(a[..], lt, pivot - d, pivot, pivot + d);
      r := MedianOf3(a[..], lt, right - 2 * d, right - d, right);
    }
    pivot := MedianOf3(a[..], lt, l, pivot, r);
  }

  // ---- the three-way partition ----

  predicate Same<T>(lt: (T, T) -> bool, p: T, x: T) { !lt(x, p) && !lt(p, x) }

  // Four blocks: equal, smaller, (unseen,) larger, equal.
  ghost predicate Blocks<T>(s: seq<T>, lt: (T, T) -> bool, p: T, left0: int, left1: int, left: int, right: int,
                            right1: int, right0: int)
    requires 0 <= left0 && right0 < |s|
  {
    && left0 < left1 <= left <= right + 1 && right <= right1 <= right0
    && (forall k :: left0 <= k < left1 ==> Same(lt, p, s[k]))
    && (forall k :: left1 <= k < left ==> lt(s[k], p))
    && (forall k :: right < k <= right1 ==> lt(p, s[k]))
    && (forall k :: right1 < k <= right0 ==> Same(lt, p, s[k]))
  }

  method ScanLeft<T(!new)>(a: array<T>, lt: (T, T) -> bool, ghost p: T, left0: int, left1_: int, left_: int,
                           right: int, ghost right1: int, ghost right0: int, ghost s0: seq<T>)
    returns (left1: int, left: int, moved: bool)
    requires StrictWeakOrder(lt) && 0 <= left0 <= right0 < a.Length && |s0| == a.Length
             && Rearranged(s0, a[..], left0, right0)
    requires a[left0] == p && Blocks(a[..], lt, p, left0, left1_, left_, right, right1, right0)
    modifies a
    ensures Rearranged(s0, a[..], left0, right0) && a[left0] == p
    ensures Blocks(a[..], lt, p, left0, left1, left, right, right1, right0)
    ensures left_ <= left && (left <= right ==> lt(p, a[left]))
  {
    hide Rearranged, Swapped;
    left1, left, moved := left1_, left_, false;
    while left <= right && !lt(a[left0], a[left])
      invariant left_ <= left && Rearranged(s0, a[..], left0, right0) && a[left0] == p
      invariant Blocks(a[..], lt, p, left0, left1, left, right, right1, right0)
    {
      if !lt(a[left], a[left0]) {
        if left > left1 {
          Swap(a, left1, left, s0, left0, right0);
        }
        moved := true;
        left1 := left1 + 1;
      }
      left := left + 1;
    }
  }

  method ScanRight<T(!new)>(a: array<T>, lt: (T, T) -> bool, ghost p: T, left0: int, ghost left1: int, left: int,
                            right_: int, right1_: int, ghost right0: int, ghost s0: seq<T>)
    returns (right: int, right1: int, moved: bool)
    requires StrictWeakOrder(lt) && 0 <= left0 <= right0 < a.Length && |s0| == a.Length
             && Rearranged(s0, a[..], left0, right0)
    requires a[left0] == p && Blocks(a[..], lt, p, left0, left1, left, right_, right1_, right0)
    requires left <= right_ ==> lt(p, a[left])
    modifies a
    ensures Rearranged(s0, a[..], left0, right0) && a[left0] == p
    ensures Blocks(a[..], lt, p, left0, left1, left, right, right1, right0)
    ensures right <= right_ && (left <= right ==> lt(a[right], p) && lt(p, a[left]))
  {
    hide Rearranged, Swapped;
    right, right1, moved := right_, right1_, false;
    while left <= right && !lt(a[right], a[left0])
      invariant right <= right_ && Rearranged(s0, a[..], left0, right0) && a[left0] == p
      invariant Blocks(a[..], lt, p, left0, left1, left, right, right1, right0)
      invariant left <= right ==> lt(p, a[left])
      decreases right - left
    {
      if !lt(a[left0], a[right]) {
        if right < right1 {
          Swap(a, right1, right, s0, left0, right0);
        }
        moved := true;
        right1 := right1 - 1;
      }
      right := right - 1;
    }
  }

  method Scan<T(!new)>(a: array<T>, lt: (T, T) -> bool, left0: int, right0: int)
      returns (left1: int, left: int, right: int, right1: int, swapCnt: int)
    requires StrictWeakOrder(lt) && 0 <= left0 < right0 < a.Length
    modifies a
    ensures Rearranged(old(a[..]), a[..], left0, right0) && a[left0] == old(a[left0])
    ensures left == right + 1 && Blocks(a[..], lt, a[left0], left0, left1, left, right, right1, right0)
  {
    hide Rearranged, Swapped;
    ghost var s0, p := a[..], a[left0];
    RearrangedSelf(s0, left0, right0);
    left1, left, right, right1, swapCnt := left0 + 1, left0 + 1, right0, right0, 0;
    while true
      invariant Rearranged(s0, a[..], left0, right0) && a[left0] == p
      invariant Blocks(a[..], lt, p, left0, left1, left, right, right1, right0)
      decreases right - left
    {
      ghost var left_, right_ := left, right;
      var moved;
      left1, left, moved := ScanLeft(a, lt, p, left0, left1, left, right, right1, right0, s0);
      if moved { swapCnt := 1; }
      right, right1, moved := ScanRight(a, lt, p, left0, left1, left, right, right1, right0, s0);
      if moved { swapCnt := 1; }
      if left > right {
        break;
      }
      Swap(a, left, right, s0, left0, right0);
      swapCnt := 1;
      left := left + 1;
      right := right - 1;
    }
  }

  // Where the element at x comes from when the first i of k pairs, k before hi
  // and the first of lo, have been exchanged.
  function Partner(x: int, lo: int, hi: int, k: int, i: int): int {
    if lo <= x < lo + i then x + (hi - k - lo)
    else if hi - k <= x < hi - k + i then x - (hi - k - lo)
    else x
  }

  ghost predicate Exchanged<T>(s: seq<T>, t: seq<T>, lo: int, hi: int, k: int, i: int) {
    |s| == |t| && forall x :: 0 <= x < |s| ==>
        0 <= Partner(x, lo, hi, k, i) < |s| && t[x] == s[Partner(x, lo, hi, k, i)]
  }

  lemma ExchangeNone<T>(s: seq<T>, lo: int, hi: int, k: int)
    ensures Exchanged(s, s, lo, hi, k, 0)
  {
  }

  lemma ExchangeStep<T>(s: seq<T>, t: seq<T>, lo: int, hi: int, k: int, i: int)
    requires 0 <= lo <= hi <= |s| == |t| && 0 <= i < k && 2 * k <= hi - lo && Exchanged(s, t, lo, hi, k, i)
    ensures Exchanged(s, Swapped(t, lo + i, hi - k + i), lo, hi, k, i + 1)
  {
    var u := Swapped(t, lo + i, hi - k + i);
    forall x | 0 <= x < |s|
      ensures 0 <= Partner(x, lo, hi, k, i + 1) < |s| && u[x] == s[Partner(x, lo, hi, k, i + 1)]
    {
      if x == lo + i {
        assert t[hi - k + i] == s[Partner(hi - k + i, lo, hi, k, i)];
      } else if x == hi - k + i {
        assert t[lo + i] == s[Partner(lo + i, lo, hi, k, i)];
      } else {
        assert t[x] == s[Partner(x, lo, hi, k, i)];
      }
    }
  }

  lemma ExchangeRearranges<T>(s0: seq<T>, s: seq<T>, t: seq<T>, lo: int, hi: int, k: int, i: int, left0: int,
                              right0: int)
    requires 0 <= left0 <= lo <= hi <= right0 + 1 <= |s| && 0 <= i < k && 2 * k <= hi - lo
    requires Exchanged(s, t, lo, hi, k, i) && |s0| == |s| == |t| && Rearranged(s0, t, left0, right0)
    ensures var u := Swapped(t, lo + i, hi - k + i);
            Exchanged(s, u, lo, hi, k, i + 1) && Rearranged(s0, u, left0, right0)
  {
    hide Rearranged, Exchanged, Swapped;
    SwapRearranges(t, lo + i, hi - k + i, left0, right0);
    RearrangedTrans(s0, t, Swapped(t, lo + i, hi - k + i), left0, right0);
    ExchangeStep(s, t, lo, hi, k, i);
  }

  // Exchanges the first k elements of a stretch with its last k.
  method SwapBlocks<T>(a: array<T>, lo: int, hi: int, k: int, ghost s0: seq<T>, ghost left0: int, ghost right0: int)
    requires 0 <= left0 <= lo <= hi <= right0 + 1 <= a.Length && 0 <= k && 2 * k <= hi - lo
    requires |s0| == a.Length && Rearranged(s0, a[..], left0, right0)
    modifies a
    ensures Rearranged(s0, a[..], left0, right0)
    ensures Exchanged(old(a[..]), a[..], lo, hi, k, k)
  {
    hide Rearranged, Exchanged, Swapped;
    ghost var s := a[..];
    var i := 0;
    ExchangeNone(s, lo, hi, k);
    while i < k
      invariant 0 <= i <= k && Rearranged(s0, a[..], left0, right0)
      invariant Exchanged(s, a[..], lo, hi, k, i)
    {
      ExchangeRearranges(s0, s, a[..], lo, hi, k, i, left0, right0);
      Exchange(a, lo + i, hi - k + i);
      i := i + 1;
    }
  }

  // After the block exchanges: smaller, equal, larger.
  ghost predicate ThreeWay<T>(s: seq<T>, lt: (T, T) -> bool, p: T, left: int, right: int, n: int, m: int)
    requires 0 <= left && right < |s|
  {
    && 0 <= n && 0 <= m && n + m <= right - left
    && (forall k :: left <= k < left + n ==> lt(s[k], p))
    && (forall k :: left + n <= k <= right - m ==> Same(lt, p, s[k]))
    && (forall k :: right - m < k <= right ==> lt(p, s[k]))
  }

  // Both blocks of equal elements move to the middle.
  method Gather<T(!new)>(a: array<T>, ghost lt: (T, T) -> bool, ghost p: T, left0: int, left1: int, left: int,
                         right: int, right1: int, right0: int, ghost s0: seq<T>)
    requires 0 <= left0 && right0 < a.Length && left == right + 1
    requires left0 <= right0 && |s0| == a.Length && Rearranged(s0, a[..], left0, right0)
    requires Blocks(a[..], lt, p, left0, left1, left, right, right1, right0)
    modifies a
    ensures Rearranged(s0, a[..], left0, right0)
    ensures ThreeWay(a[..], lt, p, left0, right0, left - left1, right1 - right)
  {
    hide Rearranged, Blocks, ThreeWay, Exchanged;
    ghost var s1 := a[..];
    BlocksBounds(s1, lt, p, left0, left1, left, right, right1, right0);
    var n := if left1 - left0 < left - left1 then left1 - left0 else left - left1;
    SwapBlocks(a, left0, left, n, s0, left0, right0);
    ghost var s2 := a[..];
    var m := if right0 - right1 < right1 - right then right0 - right1 else right1 - right;
    SwapBlocks(a, left, right0 + 1, m, s0, left0, right0);
    BlocksToThreeWay(s1, s2, a[..], lt, p, left0, left1, left, right, right1, right0, n, m);
  }

  method Partition<T(!new)>(a: array<T>, lt: (T, T) -> bool, left0: int, right0: int)
      returns (n: int, m: int, swapCnt: int)
    requires StrictWeakOrder(lt) && 0 <= left0 && left0 + 7 <= right0 < a.Length
    modifies a
    ensures Rearranged(old(a[..]), a[..], left0, right0)
    ensures swapCnt != 0 ==> exists p :: ThreeWay(a[..], lt, p, left0, right0, n, m)
  {
    hide Rearranged, StrictWeakOrder, Blocks, ThreeWay;
    ghost var s0 := a[..];
    RearrangedSelf(s0, left0, right0);
    var pivot := ChoosePivot(a, lt, left0, right0);
    if pivot != left0 {
      Swap(a, pivot, left0, s0, left0, right0);
    }
    ghost var s1, p := a[..], a[left0];
    var left1, left, right, right1;
    left1, left, right, right1, swapCnt := Scan(a, lt, left0, right0);
    RearrangedTrans(s0, s1, a[..], left0, right0);
    if swapCnt == 0 {
      return 0, 0, 0;
    }
    Gather(a, lt, p, left0, left1, left, right, right1, right0, s0);
    n := left - left1;
    m := right1 - right;
    assert ThreeWay(a[..], lt, p, left0, right0, n, m);
  }

  lemma BlocksBounds<T>(s: seq<T>, lt: (T, T) -> bool, p: T, left0: int, left1: int, left: int, right: int,
                        right1: int, right0: int)
    requires 0 <= left0 && right0 < |s| && Blocks(s, lt, p, left0, left1, left, right, right1, right0)
    ensures left0 < left1 <= left <= right + 1 && right <= right1 <= right0
  {
  }

  lemma BlocksToThreeWay<T>(s: seq<T>, t: seq<T>, u: seq<T>, lt: (T, T) -> bool, p: T,
                            left0: int, left1: int, left: int, right: int, right1: int, right0: int, n: int, m: int)
    requires 0 <= left0 && right0 < |s| == |t| == |u| && left == right + 1
    requires Blocks(s, lt, p, left0, left1, left, right, right1, right0)
    requires n == if left1 - left0 < left - left1 then left1 - left0 else left - left1
    requires m == if right0 - right1 < right1 - right then right0 - right1 else right1 - right
    requires Exchanged(s, t, left0, left, n, n) && Exchanged(t, u, left, right0 + 1, m, m)
    ensures ThreeWay(u, lt, p, left0, right0, left - left1, right1 - right)
  {
    hide ThreeWay, Same;
    BlocksBounds(s, lt, p, left0, left1, left, right, right1, right0);
    LeftMoves(s, t, u, left0, left, right0, n, m);
    RightMoves(s, t, u, left0, left, right0, n, m);
    LeftGathered(s, u, lt, p, left0, left1, left, n);
    RightGathered(s, u, lt, p, left, right1, right0, m);
    Gathered(u, lt, p, left0, left1, left, right, right1, right0);
  }

  lemma LeftMoves<T>(s: seq<T>, t: seq<T>, u: seq<T>, left0: int, left: int, right0: int, n: int, m: int)
    requires 0 <= left0 <= left <= right0 + 1 <= |s| == |t| == |u| && 0 <= 2 * n <= left - left0
             && 0 <= 2 * m <= right0 + 1 - left
    requires Exchanged(s, t, left0, left, n, n) && Exchanged(t, u, left, right0 + 1, m, m)
    ensures forall x :: left0 <= x < left ==>
            left0 <= Partner(x, left0, left, n, n) < left && u[x] == s[Partner(x, left0, left, n, n)]
  {
    forall x | left0 <= x < left
      ensures u[x] == s[Partner(x, left0, left, n, n)]
    {
      assert Partner(x, left, right0 + 1, m, m) == x;
    }
  }

  lemma RightMoves<T>(s: seq<T>, t: seq<T>, u: seq<T>, left0: int, left: int, right0: int, n: int, m: int)
    requires 0 <= left0 <= left <= right0 + 1 <= |s| == |t| == |u| && 0 <= 2 * n <= left - left0
             && 0 <= 2 * m <= right0 + 1 - left
    requires Exchanged(s, t, left0, left, n, n) && Exchanged(t, u, left, right0 + 1, m, m)
    ensures forall x :: left <= x <= right0 ==>
              left <= Partner(x, left, right0 + 1, m, m) <= right0 && u[x] == s[Partner(x, left, right0 + 1, m, m)]
  {
    forall x | left <= x <= right0
      ensures u[x] == s[Partner(x, left, right0 + 1, m, m)]
    {
      var y := Partner(x, left, right0 + 1, m, m);
      assert left <= y <= right0 && Partner(y, left0, left, n, n) == y;
    }
  }

  // The equal elements at the left end have changed places with smaller ones.
  lemma LeftGathered<T>(s: seq<T>, u: seq<T>, lt: (T, T) -> bool, p: T, left0: int, left1: int, left: int, n: int)
    requires 0 <= left0 <= left1 <= left <= |s| == |u|
             && n == if left1 - left0 < left - left1 then left1 - left0 else left - left1
    requires forall k :: left0 <= k < left1 ==> Same(lt, p, s[k])
    requires forall k :: left1 <= k < left ==> lt(s[k], p)
    requires forall x :: left0 <= x < left ==>
             left0 <= Partner(x, left0, left, n, n) < left && u[x] == s[Partner(x, left0, left, n, n)]
    ensures forall k :: left0 <= k < left0 + left - left1 ==> lt(u[k], p)
    ensures forall k :: left0 + left - left1 <= k < left ==> Same(lt, p, u[k])
  {
    hide Same;
  }

  lemma RightGathered<T>(s: seq<T>, u: seq<T>, lt: (T, T) -> bool, p: T, left: int, right1: int, right0: int, m: int)
    requires 0 <= left <= right1 + 1 <= right0 + 1 <= |s| == |u|
    requires m == if right0 - right1 < right1 - (left - 1) then right0 - right1 else right1 - (left - 1)
    requires forall k :: left <= k <= right1 ==> lt(p, s[k])
    requires forall k :: right1 < k <= right0 ==> Same(lt, p, s[k])
    requires forall x :: left <= x <= right0 ==>
               left <= Partner(x, left, right0 + 1, m, m) <= right0 && u[x] == s[Partner(x, left, right0 + 1, m, m)]
    ensures forall k :: left <= k <= right0 - (right1 - (left - 1)) ==> Same(lt, p, u[k])
    ensures forall k :: right0 - (right1 - (left - 1)) < k <= right0 ==> lt(p, u[k])
  {
    hide Same;
  }

  lemma Gathered<T>(u: seq<T>, lt: (T, T) -> bool, p: T, left0: int, left1: int, left: int, right: int, right1: int,
                    right0: int)
    requires 0 <= left0 < left1 <= left == right + 1 && right <= right1 <= right0 < |u|
    requires forall k :: left0 <= k < left0 + left - left1 ==> lt(u[k], p)
    requires forall k :: left0 + left - left1 <= k < left ==> Same(lt, p, u[k])
    requires forall k :: left <= k <= right0 - (right1 - right) ==> Same(lt, p, u[k])
    requires forall k :: right0 - (right1 - right) < k <= right0 ==> lt(p, u[k])
    ensures ThreeWay(u, lt, p, left0, right0, left - left1, right1 - right)
  {
    hide Same;
  }

  // ---- pending ranges and the stack bound ----

  datatype Range = Range(lb: int, ub: int)

  function Size(r: Range): int { r.ub - r.lb + 1 }

  // total divided by two, k times.
  function Halved(total: nat, k: nat): nat {
    if k == 0 then total else Halved(total, k - 1) / 2
  }

  const STACK_SIZE: nat := 48

  // An int holds the size of every range.
  const MAX_TOTAL: nat := 0x7FFF_FFFF

  lemma {:induction false} HalvedShrinks(total: nat, j: nat, k: nat)
    requires j <= k
    ensures Halved(total, k) <= Halved(total, j)
  {
    if j < k { HalvedShrinks(total, j, k - 1); }
  }

  lemma {:induction false} HalvedBelowPow2(total: nat, j: nat, k: nat)
    requires total < Pow2(j) && k <= j
    ensures Halved(total, k) < Pow2(j - k)
  {
    if k > 0 { HalvedBelowPow2(total, j, k - 1); }
  }

  // Thirty halvings bring any int below two, so the stack stays shallow.
  lemma ShortStack(total: nat, k: nat)
    requires total <= MAX_TOTAL && Halved(total, k) >= 2
    ensures k < 30
  {
    hide Halved;
    if k >= 30 {
      Pow2Values();
      assert Pow2(32) == 2 * Pow2(31);
      HalvedBelowPow2(total, 31, 30);
      HalvedShrinks(total, 30, k);
    }
  }

  // Entry k of the stack covers at most total / 2^k elements, and at least two.
  ghost predicate StackFits(st: seq<Range>, total: nat) {
    forall k :: 0 <= k < |st| ==> 0 <= st[k].lb && st[k].ub < total && 2 <= Size(st[k]) <= Halved(total, k)
  }

  ghost predicate Disjoint(st: seq<Range>) {
    forall k, l :: 0 <= k < l < |st| ==> st[k].ub < st[l].lb || st[l].ub < st[k].lb
  }

  predicate Covers(r: Range, i: int, j: int) { r.lb <= i && j <= r.ub }

  ghost predicate Pending(st: seq<Range>, i: int, j: int) {
    exists k :: 0 <= k < |st| && Covers(st[k], i, j)
  }

  // Two positions are in order unless a pending range covers both.
  ghost predicate OrderedBut<T>(s: seq<T>, lt: (T, T) -> bool, total: nat, st: seq<Range>)
    requires total <= |s|
  {
    forall i, j :: 0 <= i < j < total ==> !lt(s[j], s[i]) || Pending(st, i, j)
  }

  function TotalSize(st: seq<Range>): int {
    if st == [] then 0 else TotalSize(st[..|st| - 1]) + Size(st[|st| - 1])
  }

  // The last pending range has been rearranged, leaving order inside it except
  // in the ranges `rest` it is replaced by.
  lemma Refined<T>(s: seq<T>, t: seq<T>, lt: (T, T) -> bool, total: nat, st: seq<Range>, r: Range, rest: seq<Range>)
    requires total <= |s| == |t| && 0 <= r.lb <= r.ub < total
    requires Disjoint(st + [r]) && OrderedBut(s, lt, total, st + [r]) && Rearranged(s, t, r.lb, r.ub)
    requires forall i, j :: r.lb <= i < j <= r.ub ==> !lt(t[j], t[i]) || Pending(rest, i, j)
    ensures OrderedBut(t, lt, total, st + rest)
  {
    hide Rearranged, Swapped;
    forall i, j | 0 <= i < j < total
      ensures !lt(t[j], t[i]) || Pending(st + rest, i, j)
    {
      if Covers(r, i, j) {
        if Pending(rest, i, j) {
          var k :| 0 <= k < |rest| && Covers(rest[k], i, j);
          assert (st + rest)[|st| + k] == rest[k];
        }
      } else if Pending(st, i, j) {
        var k :| 0 <= k < |st| && Covers(st[k], i, j);
        assert (st + rest)[k] == st[k];
      } else {
        OutsideOrdered(s, t, lt, total, st, r, i, j);
      }
    }
  }

  // Positions not both in a pending range stay in order.
  lemma OutsideOrdered<T>(s: seq<T>, t: seq<T>, lt: (T, T) -> bool, total: nat, st: seq<Range>, r: Range, i: int,
                          j: int)
    requires total <= |s| == |t| && 0 <= r.lb <= r.ub < total && 0 <= i < j < total
    requires Disjoint(st + [r]) && OrderedBut(s, lt, total, st + [r]) && Rearranged(s, t, r.lb, r.ub)
    requires !Covers(r, i, j) && !Pending(st, i, j)
    ensures !lt(t[j], t[i])
  {
    assert forall k :: 0 <= k < |st| ==>
        (st + [r])[k] == st[k] && (st + [r])[|st|] == r && (st[k].ub < r.lb || r.ub < st[k].lb);
    var i', j' := i, j;
    if r.lb <= i <= r.ub { i' := FromRange(s, t, r.lb, r.ub, i); }
    if r.lb <= j <= r.ub { j' := FromRange(s, t, r.lb, r.ub, j); }
    assert t[i] == s[i'] && t[j] == s[j'] && i' < j';
    assert forall k :: 0 <= k < |st| && Covers(st[k], i', j') ==> Covers(st[k], i, j);
    assert !Covers(r, i', j');
    assert !Pending(st + [r], i', j');
  }

  // A three-way partition leaves order except inside its outer parts.
  lemma PartitionOrders<T(!new)>(s: seq<T>, lt: (T, T) -> bool, p: T, left: int, right: int, n: int, m: int,
                                 rest: seq<Range>)
    requires StrictWeakOrder(lt) && 0 <= left && right < |s| && ThreeWay(s, lt, p, left, right, n, m)
    requires n > 1 ==> Range(left, left + n - 1) in rest
    requires m > 1 ==> Range(right - m + 1, right) in rest
    ensures forall i, j :: left <= i < j <= right ==> !lt(s[j], s[i]) || Pending(rest, i, j)
  {
    forall i, j | left <= i < j <= right
      ensures !lt(s[j], s[i]) || Pending(rest, i, j)
    {
      if j < left + n {
        assert Covers(Range(left, left + n - 1), i, j);
      } else if i > right - m {
        assert Covers(Range(right - m + 1, right), i, j);
      }
    }
  }

  // ---- the sort ----

  ghost predicate Inside(x: Range, r: Range) { r.lb <= x.lb && x.ub <= r.ub }

  // The current range fits at the top of the stack.
  ghost predicate Current(st: seq<Range>, r: Range, total: nat) {
    && StackFits(st, total) && Disjoint(st + [r])
    && 0 <= r.lb && r.ub < total && 2 <= Size(r) <= Halved(total, |st|)
  }

  lemma ShrinkCurrent(st: seq<Range>, r: Range, x: Range, total: nat)
    requires Current(st, r, total) && Inside(x, r) && 2 <= Size(x)
    ensures Current(st, x, total)
  {
    hide Halved;
    forall k, l | 0 <= k < l < |st + [x]|
      ensures (st + [x])[k].ub < (st + [x])[l].lb || (st + [x])[l].ub < (st + [x])[k].lb
    {
      assert (st + [r])[k].ub < (st + [r])[l].lb || (st + [r])[l].ub < (st + [r])[k].lb;
    }
  }

  // Pushing the larger part and going on with the smaller one, at most half.
  lemma PushLarger(st: seq<Range>, r: Range, x: Range, y: Range, total: nat)
    requires Current(st, r, total) && Inside(x, r) && Inside(y, r) && 2 <= Size(x) && 2 <= Size(y)
    requires x.ub < y.lb || y.ub < x.lb
    requires Size(y) <= Size(x)
    ensures Current(st + [x], y, total) && Size(y) <= Size(r) / 2
  {
    var st' := st + [x];
    forall k, l | 0 <= k < l < |st' + [y]|
      ensures (st' + [y])[k].ub < (st' + [y])[l].lb || (st' + [y])[l].ub < (st' + [y])[k].lb
    {
      if k < |st| {
        assert (st + [r])[k].ub < (st + [r])[|st|].lb || (st + [r])[|st|].ub < (st + [r])[k].lb;
        if l < |st| {
          assert (st + [r])[k].ub < (st + [r])[l].lb || (st + [r])[l].ub < (st + [r])[k].lb;
        }
      }
    }
    assert forall k :: 0 <= k < |st| ==> st'[k] == st[k];
  }

  lemma PopCurrent(st: seq<Range>, total: nat)
    requires |st| > 0 && StackFits(st, total) && Disjoint(st)
    ensures Current(st[..|st| - 1], st[|st| - 1], total) && st[..|st| - 1] + [st[|st| - 1]] == st
    ensures TotalSize(st) == TotalSize(st[..|st| - 1]) + Size(st[|st| - 1])
  {
    hide Halved, TotalSize, Disjoint, StackFits;
    var front, last := st[..|st| - 1], st[|st| - 1];
    Rejoined(st);
    PushSize(front, last);
    FrontFits(st, total);
  }

  lemma Rejoined(st: seq<Range>)
    requires |st| > 0
    ensures st[..|st| - 1] + [st[|st| - 1]] == st
  {
  }

  lemma FrontFits(st: seq<Range>, total: nat)
    requires |st| > 0 && StackFits(st, total)
    ensures StackFits(st[..|st| - 1], total)
    ensures var r := st[|st| - 1]; 0 <= r.lb && r.ub < total && 2 <= Size(r) <= Halved(total, |st| - 1)
  {
    hide Halved;
  }

  lemma PushSize(st: seq<Range>, x: Range)
    ensures TotalSize(st + [x]) == TotalSize(st) + Size(x)
  {
    assert (st + [x])[..|st|] == st;
  }

  lemma {:induction false} SizesNotNegative(st: seq<Range>, total: nat)
    requires StackFits(st, total)
    ensures TotalSize(st) >= 0
  {
    hide Halved;
    if st != [] {
      assert StackFits(st[..|st| - 1], total);
      SizesNotNegative(st[..|st| - 1], total);
    }
  }

  lemma CurrentDisjoint(st: seq<Range>, r: Range)
    requires Disjoint(st + [r])
    ensures Disjoint(st)
  {
    forall k, l | 0 <= k < l < |st|
      ensures st[k].ub < st[l].lb || st[l].ub < st[k].lb
    {
      assert (st + [r])[k] == st[k] && (st + [r])[l] == st[l];
    }
  }

  ghost predicate Stored(lbs: seq<int>, ubs: seq<int>, st: seq<Range>) {
    |st| <= |lbs| == |ubs| && forall k :: 0 <= k < |st| ==> lbs[k] == st[k].lb && ubs[k] == st[k].ub
  }

  lemma StoredPop(lbs: seq<int>, ubs: seq<int>, st: seq<Range>)
    requires Stored(lbs, ubs, st) && |st| > 0
    ensures Stored(lbs, ubs, st[..|st| - 1])
    ensures |st| <= |lbs| == |ubs| && Range(lbs[|st| - 1], ubs[|st| - 1]) == st[|st| - 1]
  {
  }

  lemma StoredPush(lbs: seq<int>, ubs: seq<int>, st: seq<Range>, x: Range)
    requires Stored(lbs, ubs, st) && |st| < |lbs|
    ensures |st| < |lbs| == |ubs| && Stored(lbs[|st| := x.lb], ubs[|st| := x.ub], st + [x])
  {
  }

  // One pass over the current range. Done: it is in order. Otherwise only the
  // parts `x` (if two are left, the larger one) and `y` are still pending.
  method Pass<T(!new)>(a: array<T>, lt: (T, T) -> bool, total: nat, left: int, right: int, ghost st: seq<Range>)
    returns (done: bool, push: bool, x: Range, y: Range)
    requires StrictWeakOrder(lt) && total <= a.Length && Current(st, Range(left, right), total)
    requires OrderedBut(a[..], lt, total, st + [Range(left, right)])
    modifies a
    ensures Rearranged(old(a[..]), a[..], left, right)
    ensures done ==> OrderedBut(a[..], lt, total, st)
    ensures !done ==>
              && Inside(y, Range(left, right)) && 2 <= Size(y) < right - left + 1
              && OrderedBut(a[..], lt, total, st + (if push then [x, y] else [y]))
              && (push ==> Inside(x, Range(left, right)) && Size(y) <= Size(x)
                           && Size(x) + Size(y) < right - left + 1 && (x.ub < y.lb || y.ub < x.lb))
  {
    hide StrictWeakOrder, Rearranged, OrderedBut, Pending, Halved, StackFits, Disjoint, ThreeWay;
    ghost var s, r := a[..], Range(left, right);
    var n := right - left + 1;
    x, y := Range(0, 0), Range(0, 0);
    if n <= 7 {
      InsertionSort(a, lt, left, right);
      Refined(s, a[..], lt, total, st, r, []);
      assert st + [] == st;
      return true, false, x, y;
    }
    var m, swapCnt;
    n, m, swapCnt := Partition(a, lt, left, right);
    if swapCnt == 0 {
      ghost var s1 := a[..];
      InsertionSort(a, lt, left, right);
      RearrangedTrans(s, s1, a[..], left, right);
      Refined(s, a[..], lt, total, st, r, []);
      assert st + [] == st;
      return true, false, x, y;
    }
    ghost var p :| ThreeWay(a[..], lt, p, left, right, n, m);
    PartSizes(a[..], lt, p, left, right, n, m);
    var less, more := Range(left, left + n - 1), Range(right - m + 1, right);
    ghost var rest := [];
    done, push := false, false;
    if n > 1 {
      if m > 1 {
        push := true;
        if n > m {
          x, y := less, more;
        } else {
          x, y := more, less;
        }
        rest := [x, y];
      } else {
        y := less;
        rest := [y];
      }
    } else if m > 1 {
      y := more;
      rest := [y];
    } else {
      done := true;
      assert st + [] == st;
    }
    PartitionOrders(a[..], lt, p, left, right, n, m, rest);
    Refined(s, a[..], lt, total, st, r, rest);
  }

  lemma PartSizes<T>(s: seq<T>, lt: (T, T) -> bool, p: T, left: int, right: int, n: int, m: int)
    requires 0 <= left && right < |s| && ThreeWay(s, lt, p, left, right, n, m)
    ensures 0 <= n && 0 <= m && n + m <= right - left
  {
  }

  // One turn of the inner loop: the current range is in order, or its larger part
  // is pushed and the other one is next.
  method Turn<T(!new)>(a: array<T>, total: nat, lt: (T, T) -> bool, left: int, right: int,
                       lbs: array<int>, ubs: array<int>, sp: int, ghost st: seq<Range>, ghost s0: seq<T>)
    returns (done: bool, nextLeft: int, nextRight: int, nextSp: int, ghost next: seq<Range>)
    requires StrictWeakOrder(lt) && total <= a.Length == |s0| && total <= MAX_TOTAL
    requires a as object != lbs && a as object != ubs
    requires lbs != ubs && lbs.Length == ubs.Length == STACK_SIZE && -1 <= sp < STACK_SIZE - 1 && |st| == sp + 1
    requires Stored(lbs[..], ubs[..], st) && Current(st, Range(left, right), total)
    requires OrderedBut(a[..], lt, total, st + [Range(left, right)]) && Rearranged(s0, a[..], 0, total - 1)
    modifies a, lbs, ubs
    ensures -1 <= nextSp < STACK_SIZE - 1 && |next| == nextSp + 1 && Stored(lbs[..], ubs[..], next)
    ensures Rearranged(s0, a[..], 0, total - 1)
    ensures done ==> next == st && OrderedBut(a[..], lt, total, st)
    ensures !done ==>
              var r := Range(nextLeft, nextRight);
              && Current(next, r, total) && OrderedBut(a[..], lt, total, next + [r])
              && TotalSize(next) + Size(r) < TotalSize(st) + Size(Range(left, right))
  {
    hide StrictWeakOrder, Rearranged, OrderedBut, Halved, StackFits, Disjoint, Current, TotalSize, Stored;
    ghost var s := a[..];
    nextSp, next := sp, st;
    OpenCurrent(st, Range(left, right), total);
    var push, x, y;
    done, push, x, y := Pass(a, lt, total, left, right, st);
    nextLeft, nextRight := y.lb, y.ub;
    assert y == Range(nextLeft, nextRight);
    Widen(s0, s, a[..], left, right, 0, total - 1);
    if !done && push {
      PushLarger(st, Range(left, right), x, y, total);
      PushSize(st, x);
      OpenCurrent(st + [x], y, total);
      StoredPush(lbs[..], ubs[..], st, x);
      nextSp := sp + 1;
      lbs[nextSp] := x.lb;
      ubs[nextSp] := x.ub;
      assert st + [x, y] == st + [x] + [y];
      next := st + [x];
    } else if !done {
      ShrinkCurrent(st, Range(left, right), y, total);
    }
  }

  method QSort<T(!new)>(a: array<T>, total: nat, lt: (T, T) -> bool)
    requires StrictWeakOrder(lt) && total <= a.Length && total <= MAX_TOTAL
    modifies a
    ensures SortedBy(a[..total], lt)
    ensures multiset(a[..total]) == multiset(old(a[..total])) && a[total..] == old(a[total..])
  {
    hide StrictWeakOrder, Rearranged, OrderedBut, Halved, StackFits, Disjoint, Current, TotalSize, Stored;
    if total <= 1 {
      return;
    }
    ghost var s0 := a[..];
    RearrangedSelf(s0, 0, total - 1);
    var lbs, ubs, sp := new int[STACK_SIZE], new int[STACK_SIZE], 0;
    lbs[0] := 0;
    ubs[0] := total - 1;
    ghost var st := [Range(0, total - 1)];
    StartStack(a[..], lt, total);
    StoredOne(lbs[..], ubs[..], st);
    while sp >= 0
      invariant -1 <= sp < STACK_SIZE && |st| == sp + 1 && Stored(lbs[..], ubs[..], st)
      invariant StackFits(st, total) && Disjoint(st)
      invariant OrderedBut(a[..], lt, total, st) && Rearranged(s0, a[..], 0, total - 1)
      decreases TotalSize(st)
    {
      PopCurrent(st, total);
      StoredPop(lbs[..], ubs[..], st);
      ghost var budget := TotalSize(st);
      var left, right := lbs[sp], ubs[sp];
      assert Range(left, right) == st[sp];
      sp := sp - 1;
      st := st[..sp + 1];
      while true
        invariant -1 <= sp < STACK_SIZE - 1 && |st| == sp + 1 && Stored(lbs[..], ubs[..], st)
        invariant Current(st, Range(left, right), total)
        invariant OrderedBut(a[..], lt, total, st + [Range(left, right)]) && Rearranged(s0, a[..], 0, total - 1)
        invariant TotalSize(st) + Size(Range(left, right)) <= budget
        decreases TotalSize(st) + Size(Range(left, right))
      {
        OpenCurrent(st, Range(left, right), total);
        var done;
        done, left, right, sp, st := Turn(a, total, lt, left, right, lbs, ubs, sp, st, s0);
        if done {
          break;
        }
      }
    }
    assert st == [];
    SortedAtLast(s0, a[..], lt, total);
  }

  lemma StoredOne(lbs: seq<int>, ubs: seq<int>, st: seq<Range>)
    requires |lbs| == |ubs| > 0 && |st| == 1 && lbs[0] == st[0].lb && ubs[0] == st[0].ub
    ensures Stored(lbs, ubs, st)
  {
  }

  // What the current range implies for the stack below it.
  lemma OpenCurrent(st: seq<Range>, r: Range, total: nat)
    requires Current(st, r, total) && total <= MAX_TOTAL
    ensures StackFits(st, total) && Disjoint(st) && TotalSize(st) >= 0
    ensures 0 <= r.lb && r.ub < total && 2 <= Size(r) && |st| < 30
  {
    hide Halved;
    CurrentDisjoint(st, r);
    SizesNotNegative(st, total);
    ShortStack(total, |st|);
  }

  lemma StartStack<T>(s: seq<T>, lt: (T, T) -> bool, total: nat)
    requires 2 <= total <= |s|
    ensures var st := [Range(0, total - 1)]; StackFits(st, total) && Disjoint(st) && OrderedBut(s, lt, total, st)
  {
    var st := [Range(0, total - 1)];
    forall i, j | 0 <= i < j < total
      ensures Pending(st, i, j)
    {
      assert Covers(st[0], i, j);
    }
  }

  lemma SortedAtLast<T>(s0: seq<T>, s: seq<T>, lt: (T, T) -> bool, total: nat)
    requires 2 <= total <= |s0| && |s| == |s0| && OrderedBut(s, lt, total, []) && Rearranged(s0, s, 0, total - 1)
    ensures SortedBy(s[..total], lt) && multiset(s[..total]) == multiset(s0[..total]) && s[total..] == s0[total..]
  {
    assert s[0..total] == s[..total] && s0[0..total] == s0[..total];
    assert forall i, j :: 0 <= i < j < total ==> !Pending([], i, j);
  }
}
