/**
 The order in which training visits the examples: an index array, shuffled and
 rotated in place between epochs.
 */
module Training {
  import opened Rearrangement

  // Every index below |s|, once each.
  ghost predicate Permutes(s: seq<int>) {
    multiset(s) == multiset(seq(|s|, i requires 0 <= i < |s| => i))
  }

  // The random generator's shuffle, for any of its draws.
  method Shuffle(a: array<int>, low: int, n: int, draws: seq<nat>)
    requires 0 <= low && 0 <= n && low + n <= a.Length && n <= |draws|
    modifies a
    ensures Rearranged(old(a[..]), a[..], low, low + n - 1)
  {
    hide Rearranged;
    ghost var s0 := a[..];
    RearrangedSelf(s0, low, low + n - 1);
    var i := n - 1;
    while i > 0
      invariant -1 <= i < n && Rearranged(s0, a[..], low, low + n - 1)
    {
      var j := draws[i] % (i + 1);
      Swap(a, low + j, low + i, s0, low, low + n - 1);
      i := i - 1;
    }
  }

  function Identity(n: nat): seq<int> { seq(n, i requires 0 <= i < n => i) }

  // An example is visited at most once in an epoch.
  ghost predicate OnceEach(v: seq<int>, rnum: nat) {
    && (forall i :: 0 <= i < |v| ==> 0 <= v[i] < rnum)
    && (forall i, j :: 0 <= i < j < |v| ==> v[i] != v[j])
  }

  lemma MultisetAt(s: seq<int>, i: int, j: int)
    requires 0 <= i < j < |s| && s[i] == s[j]
    ensures multiset(s)[s[i]] >= 2
  {
    var a, b, c := s[..i], s[i + 1..j], s[j + 1..];
    assert s == a + [s[i]] + b + [s[j]] + c;
  }

  lemma {:induction false} IdentityOnce(n: nat, e: int)
    ensures multiset(Identity(n))[e] == if 0 <= e < n then 1 else 0
  {
    if n > 0 {
      IdentityOnce(n - 1, e);
      assert Identity(n) == Identity(n - 1) + [n - 1];
    }
  }

  // A permutation holds every index, and none twice.
  lemma PermutesMeans(s: seq<int>)
    requires Permutes(s)
    ensures OnceEach(s, |s|) && forall e :: 0 <= e < |s| ==> e in s
  {
    assert multiset(s) == multiset(Identity(|s|));
    forall i | 0 <= i < |s|
      ensures 0 <= s[i] < |s|
    {
      IdentityOnce(|s|, s[i]);
      assert s[i] in multiset(s);
    }
    forall i, j | 0 <= i < j < |s|
      ensures s[i] != s[j]
    {
      if s[i] == s[j] {
        MultisetAt(s, i, j);
        IdentityOnce(|s|, s[i]);
      }
    }
    forall e | 0 <= e < |s|
      ensures e in s
    {
      IdentityOnce(|s|, e);
      assert e in multiset(s);
    }
  }

  // memcpy and memmove: the n elements at `from` also at `to`.
  method Move(a: array<int>, to: nat, from: nat, n: nat)
    requires to + n <= a.Length && from + n <= a.Length
    modifies a
    ensures a[..] == Moved(old(a[..]), to, from, n)
  {
    forall i | 0 <= i < n { a[to + i] := a[from + i]; }
  }

  ghost function Moved(s: seq<int>, to: nat, from: nat, n: nat): (t: seq<int>)
    requires to + n <= |s| && from + n <= |s|
    ensures |t| == |s|
  {
    s[..to] + s[from..from + n] + s[to + n..]
  }

  // The examples beyond the last full batch go to the front, the others behind
  // them: through a spare area at the end, with an overlapping move.
  method Rotate(idx: array<int>, rnum: nat, aligned: nat, padding: nat)
    requires rnum == aligned + padding && idx.Length == rnum + padding
    modifies idx
    ensures idx[..rnum] == old(idx[aligned..rnum]) + old(idx[..aligned])
  {
    hide Moved;
    ghost var s := idx[..];
    Move(idx, rnum, aligned, padding);
    Move(idx, padding, 0, aligned);
    Move(idx, 0, rnum, padding);
    Rotated(s, rnum, aligned, padding);
  }

  lemma Rotated(s: seq<int>, rnum: nat, aligned: nat, padding: nat)
    requires rnum == aligned + padding && |s| == rnum + padding
    ensures Moved(Moved(Moved(s, rnum, aligned, padding), padding, 0, aligned), 0, rnum, padding)[..rnum]
         == s[aligned..rnum] + s[..aligned]
  {
    var head, tail := s[..aligned], s[aligned..rnum];
    var t := Moved(s, rnum, aligned, padding);
    MovedParts(s, rnum, aligned, padding);
    assert t[..aligned] == head && t[rnum..rnum + padding] == tail;
    var u := Moved(t, padding, 0, aligned);
    MovedParts(t, padding, 0, aligned);
    assert u[padding..rnum] == head && u[rnum..rnum + padding] == tail;
    var v := Moved(u, 0, rnum, padding);
    MovedParts(u, 0, rnum, padding);
    assert v[..padding] == tail && v[padding..rnum] == head;
    assert v[..rnum] == v[..padding] + v[padding..rnum];
  }

  lemma MovedParts(s: seq<int>, to: nat, from: nat, n: nat)
    requires to + n <= |s| && from + n <= |s|
    ensures var t := Moved(s, to, from, n);
            && (forall k :: 0 <= k < to ==> t[k] == s[k])
            && (forall k :: to <= k < to + n ==> t[k] == s[k - to + from])
            && (forall k :: to + n <= k < |s| ==> t[k] == s[k])
  {
  }

  // What holds between two epochs: no example is missed twice in a row.
  ghost predicate Covers(v: seq<int>, w: seq<int>, rnum: nat) {
    forall e :: 0 <= e < rnum ==> e in v || e in w
  }

  lemma NextEpoch(s: seq<int>, t: seq<int>, u: seq<int>, rnum: nat, aligned: nat, padding: nat)
    requires rnum == aligned + padding <= |s| && |t| == |u| == |s| && Permutes(s[..rnum])
    requires t[..rnum] == s[aligned..rnum] + s[..aligned] && Rearranged(t, u, padding, rnum - 1)
    ensures Permutes(u[..rnum]) && (padding <= aligned ==> Covers(s[..aligned], u[..aligned], rnum))
  {
    hide Permutes, Covers;
    var tail, head, moved := s[aligned..rnum], s[..aligned], u[padding..rnum];
    assert s[..rnum] == head + tail && |tail| == padding;
    assert t[..rnum] == tail + head;
    assert t[padding..rnum] == head by { assert t[padding..rnum] == t[..rnum][padding..]; }
    assert t[padding..rnum - 1 + 1] == head && u[padding..rnum - 1 + 1] == moved;
    FrontKept(t, u, padding, rnum);
    assert u[..rnum] == tail + moved;
    Turned(head, tail, moved);
    if padding <= aligned {
      assert u[..aligned][..padding] == tail;
      Covered(head, tail, u[..aligned]);
    }
  }

  lemma FrontKept(t: seq<int>, u: seq<int>, low: nat, n: nat)
    requires low <= n <= |t| && Rearranged(t, u, low, n - 1)
    ensures u[..low] == t[..low]
  {
  }

  lemma Turned(head: seq<int>, tail: seq<int>, moved: seq<int>)
    requires Permutes(head + tail) && multiset(moved) == multiset(head)
    ensures Permutes(tail + moved)
  {
    assert |moved| == |head| by { assert |multiset(moved)| == |moved| && |multiset(head)| == |head|; }
    assert multiset(tail + moved) == multiset(head + tail);
  }

  lemma Covered(head: seq<int>, tail: seq<int>, w: seq<int>)
    requires Permutes(head + tail) && |tail| <= |w| && w[..|tail|] == tail
    ensures Covers(head, w, |head| + |tail|)
  {
    hide Permutes;
    PermutesMeans(head + tail);
    forall e | 0 <= e < |head| + |tail|
      ensures e in head || e in w
    {
      assert e in head + tail;
      if e in tail {
        var i :| 0 <= i < |tail| && tail[i] == e;
        assert w[..|tail|][i] == w[i];
      }
    }
  }

  // The order of the next epoch.
  method Reorder(idx: array<int>, rnum: nat, aligned: nat, padding: nat, draws: seq<nat>)
    requires rnum == aligned + padding && idx.Length == rnum + padding && aligned <= |draws| && Permutes(idx[..rnum])
    modifies idx
    ensures Permutes(idx[..rnum])
    ensures padding <= aligned ==> Covers(old(idx[..aligned]), idx[..aligned], rnum)
  {
    hide Permutes, Rearranged, Covers;
    ghost var s := idx[..];
    assert s[..rnum] == idx[..rnum] && s[..aligned] == idx[..aligned] && s[aligned..rnum] == idx[aligned..rnum];
    Rotate(idx, rnum, aligned, padding);
    ghost var t := idx[..];
    assert t[..rnum] == idx[..rnum];
    Shuffle(idx, padding, aligned, draws);
    ghost var u := idx[..];
    NextEpoch(s, t, u, rnum, aligned, padding);
    assert u[..rnum] == idx[..rnum] && u[..aligned] == idx[..aligned];
  }

  // The order of the first epoch.
  method Order(rnum: nat, padding: nat, draws: seq<nat>) returns (idx: array<int>)
    requires rnum <= |draws|
    ensures fresh(idx) && idx.Length == rnum + padding && Permutes(idx[..rnum])
  {
    hide Permutes, Rearranged;
    idx := new int[rnum + padding](_ => 0);
    var i := 0;
    while i < rnum
      invariant 0 <= i <= rnum && forall k :: 0 <= k < i ==> idx[k] == k
    {
      idx[i] := i;
      i := i + 1;
    }
    ghost var s := idx[..];
    assert s[..rnum] == Identity(rnum);
    Shuffle(idx, 0, rnum, draws);
    ghost var t := idx[..];
    StartOrder(s, t, rnum);
    assert t[..rnum] == idx[..rnum];
  }

  // The epochs, and the examples each one visits in full batches. Whatever the
  // draws, no example is visited twice in one epoch, and if there is a full
  // batch none is left out of two epochs in a row.
  method Train(rnum: nat, miniBatch: nat, epochs: nat, draws: seq<seq<nat>>) returns (visited: seq<seq<int>>)
    requires miniBatch > 0 && |draws| > epochs && forall t :: 0 <= t < |draws| ==> |draws[t]| >= rnum
    ensures |visited| == epochs
    ensures forall t :: 0 <= t < epochs ==> |visited[t]| == rnum - rnum % miniBatch && OnceEach(visited[t], rnum)
    ensures rnum >= miniBatch ==> forall t, u :: 0 <= t < epochs && u == t + 1 < epochs ==>
            Covers(visited[t], visited[u], rnum)
  {
    hide Permutes, OnceEach, Covers;
    var padding := rnum % miniBatch;
    var aligned := rnum - padding;
    Batches(rnum, miniBatch);
    var idx := Order(rnum, padding, draws[0]);
    visited := [];
    var t := 0;
    while t < epochs
      invariant 0 <= t <= epochs && |visited| == t && Permutes(idx[..rnum])
      invariant forall k :: 0 <= k < t ==> |visited[k]| == aligned && OnceEach(visited[k], rnum)
      invariant rnum >= miniBatch ==> forall k, l :: 0 <= k < t && l == k + 1 < t ==>
                Covers(visited[k], visited[l], rnum)
      invariant rnum >= miniBatch && 0 < t < epochs ==> Covers(visited[t - 1], idx[..aligned], rnum)
    {
      PrefixOnce(idx[..rnum], aligned);
      assert idx[..rnum][..aligned] == idx[..aligned];
      visited := visited + [idx[..aligned]];
      if t + 1 < epochs {
        Reorder(idx, rnum, aligned, padding, draws[t + 1]);
      }
      t := t + 1;
    }
  }

  lemma Batches(n: nat, m: nat)
    requires m > 0
    ensures n % m <= n && (n >= m ==> n % m <= n - n % m)
  {
  }

  lemma StartOrder(s: seq<int>, t: seq<int>, rnum: nat)
    requires rnum <= |s| == |t| && s[..rnum] == Identity(rnum) && Rearranged(s, t, 0, rnum - 1)
    ensures Permutes(t[..rnum])
  {
    assert s[0..rnum - 1 + 1] == s[..rnum] && t[0..rnum - 1 + 1] == t[..rnum];
    assert Identity(rnum) == seq(|t[..rnum]|, i requires 0 <= i < |t[..rnum]| => i);
  }

  lemma PrefixOnce(s: seq<int>, n: nat)
    requires Permutes(s) && n <= |s|
    ensures OnceEach(s[..n], |s|)
  {
    hide Permutes;
    PermutesMeans(s);
  }
}
