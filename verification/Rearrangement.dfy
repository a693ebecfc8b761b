/**
 Rearranging a stretch of an array by exchanging its elements.
 */
module Rearrangement {

  // t is s with the elements from low to high in some other order.
  ghost predicate Rearranged<T>(s: seq<T>, t: seq<T>, low: int, high: int)
    requires 0 <= low <= high + 1 <= |s|
  {
    && |s| == |t|
    && multiset(s[low..high + 1]) == multiset(t[low..high + 1])
    && (forall k :: 0 <= k < |s| && !(low <= k <= high) ==> s[k] == t[k])
  }

  ghost function Swapped<T>(s: seq<T>, i: int, j: int): seq<T>
    requires 0 <= i < |s| && 0 <= j < |s|
  {
    s[i := s[j]][j := s[i]]
  }

  lemma SwapRearranges<T>(s: seq<T>, i: int, j: int, low: int, high: int)
    requires 0 <= low <= i <= high < |s| && low <= j <= high
    ensures Rearranged(s, Swapped(s, i, j), low, high)
  {
    hide Swapped;
    SwappedElsewhere(s, i, j, low, high);
    SwappedRange(s, i, j, low, high);
    SwapMultiset(s[low..high + 1], i - low, j - low);
  }

  lemma SwappedElsewhere<T>(s: seq<T>, i: int, j: int, low: int, high: int)
    requires 0 <= low <= i <= high < |s| && low <= j <= high
    ensures |Swapped(s, i, j)| == |s|
    ensures forall k :: 0 <= k < |s| && !(low <= k <= high) ==> Swapped(s, i, j)[k] == s[k]
  {
  }

  lemma SwappedRange<T>(s: seq<T>, i: int, j: int, low: int, high: int)
    requires 0 <= low <= i <= high < |s| && low <= j <= high
    ensures Swapped(s, i, j)[low..high + 1] == Swapped(s[low..high + 1], i - low, j - low)
  {
  }

  lemma SwapMultiset<T>(s: seq<T>, i: int, j: int)
    requires 0 <= i < |s| && 0 <= j < |s|
    ensures multiset(Swapped(s, i, j)) == multiset(s)
  {
    var t := s[i := s[j]];
    assert multiset(t) == multiset(s) - multiset{s[i]} + multiset{s[j]};
    assert multiset(t[j := s[i]]) == multiset(t) - multiset{t[j]} + multiset{s[i]};
    assert t[j] == s[j];
  }

  lemma RearrangedSelf<T>(s: seq<T>, low: int, high: int)
    requires 0 <= low <= high + 1 <= |s|
    ensures Rearranged(s, s, low, high)
  {
  }

  lemma RearrangedTrans<T>(s: seq<T>, t: seq<T>, u: seq<T>, low: int, high: int)
    requires 0 <= low <= high + 1 <= |s| && |s| == |t| && Rearranged(s, t, low, high) && Rearranged(t, u, low, high)
    ensures Rearranged(s, u, low, high)
  {
  }

  lemma RearrangedWider<T>(s: seq<T>, t: seq<T>, low: int, high: int, low': int, high': int)
    requires 0 <= low' <= low <= high + 1 <= high' + 1 <= |s| && Rearranged(s, t, low, high)
    ensures Rearranged(s, t, low', high')
  {
    var a, b, c := s[low'..low], s[low..high + 1], s[high + 1..high' + 1];
    assert s[low'..high' + 1] == a + b + c;
    assert t[low'..low] == a && t[high + 1..high' + 1] == c;
    assert t[low'..high' + 1] == a + t[low..high + 1] + c;
  }

  lemma FromRange<T>(s: seq<T>, t: seq<T>, low: int, high: int, k: int) returns (l: int)
    requires 0 <= low <= k <= high < |s| && Rearranged(s, t, low, high)
    ensures low <= l <= high && t[k] == s[l]
  {
    assert t[k] in multiset(t[low..high + 1]) by { assert t[low..high + 1][k - low] == t[k]; }
    assert t[k] in s[low..high + 1];
    var m :| 0 <= m < high + 1 - low && s[low..high + 1][m] == t[k];
    l := low + m;
  }

  // CCV_SWAP.
  method Exchange<T>(a: array<T>, i: int, j: int)
    requires 0 <= i < a.Length && 0 <= j < a.Length
    modifies a
    ensures a[..] == Swapped(old(a[..]), i, j)
  {
    var t := a[i];
    a[i] := a[j];
    a[j] := t;
  }

  // The same; the ghost arguments follow the range being rearranged.
  method Swap<T>(a: array<T>, i: int, j: int, ghost s0: seq<T>, ghost low: int, ghost high: int)
    requires 0 <= low <= i <= high < a.Length && low <= j <= high
    requires |s0| == a.Length && Rearranged(s0, a[..], low, high)
    modifies a
    ensures Rearranged(s0, a[..], low, high)
    ensures a[i] == old(a[j]) && a[j] == old(a[i])
    ensures forall k :: 0 <= k < a.Length && k != i && k != j ==> a[k] == old(a[k])
  {
    hide Rearranged;
    ghost var s := a[..];
    Exchange(a, i, j);
    SwapRearranges(s, i, j, low, high);
    RearrangedTrans(s0, s, a[..], low, high);
    ghost var t := a[..];
    assert forall k :: 0 <= k < a.Length ==> a[k] == t[k];
  }

  // A rearrangement of a part, after a rearrangement of the whole.
  lemma Widen<T>(s0: seq<T>, s: seq<T>, t: seq<T>, low: int, high: int, low0: int, high0: int)
    requires 0 <= low0 <= low <= high <= high0 < |s0| == |s|
    requires Rearranged(s0, s, low0, high0) && Rearranged(s, t, low, high)
    ensures Rearranged(s0, t, low0, high0)
  {
    RearrangedWider(s, t, low, high, low0, high0);
    RearrangedTrans(s0, s, t, low0, high0);
  }
}
