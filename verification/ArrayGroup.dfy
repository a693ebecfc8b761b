/**
 Grouping of similar elements with a union-find forest: union by rank, path
 compression, and the ranks of the roots reused as class tags.
 */
module ArrayGroup {

  datatype Element<T> = Null | Present(value: T)

  predicate Similar<T>(s: seq<Element<T>>, similar: (T, T) -> bool, i: int, j: int) {
    && 0 <= i < |s| && 0 <= j < |s| && i != j
    && s[i].Present? && s[j].Present? && similar(s[i].value, s[j].value)
  }

  // A chain of similar elements, the relation read in either direction.
  ghost predicate IsChain<T>(s: seq<Element<T>>, similar: (T, T) -> bool, chain: seq<int>) {
    && |chain| > 0
    && (forall k :: 0 <= k < |chain| ==> 0 <= chain[k] < |s| && s[chain[k]].Present?)
    && (forall k :: 0 < k < |chain| ==>
          Similar(s, similar, chain[k - 1], chain[k]) || Similar(s, similar, chain[k], chain[k - 1]))
  }

  ghost predicate Linked<T>(s: seq<Element<T>>, similar: (T, T) -> bool, x: int, y: int) {
    exists chain :: IsChain(s, similar, chain) && chain[0] == x && chain[|chain| - 1] == y
  }

  lemma LinkedSelf<T>(s: seq<Element<T>>, similar: (T, T) -> bool, x: int)
    requires 0 <= x < |s| && s[x].Present?
    ensures Linked(s, similar, x, x)
  {
    assert IsChain(s, similar, [x]);
  }

  lemma LinkedPair<T>(s: seq<Element<T>>, similar: (T, T) -> bool, x: int, y: int)
    requires Similar(s, similar, x, y)
    ensures Linked(s, similar, x, y)
  {
    assert IsChain(s, similar, [x, y]);
    assert [x, y][|[x, y]| - 1] == y;
  }

  lemma LinkedBack<T>(s: seq<Element<T>>, similar: (T, T) -> bool, x: int, y: int)
    requires Linked(s, similar, x, y)
    ensures Linked(s, similar, y, x)
  {
    hide Similar;
    var c :| IsChain(s, similar, c) && c[0] == x && c[|c| - 1] == y;
    var d := seq(|c|, k requires 0 <= k < |c| => c[|c| - 1 - k]);
    forall k | 0 < k < |d|
      ensures Similar(s, similar, d[k - 1], d[k]) || Similar(s, similar, d[k], d[k - 1])
    {
      var l := |c| - k;
      assert Similar(s, similar, c[l - 1], c[l]) || Similar(s, similar, c[l], c[l - 1]);
    }
    assert IsChain(s, similar, d);
  }

  lemma LinkedTrans<T>(s: seq<Element<T>>, similar: (T, T) -> bool, x: int, y: int, z: int)
    requires Linked(s, similar, x, y) && Linked(s, similar, y, z)
    ensures Linked(s, similar, x, z)
  {
    hide Similar;
    var c :| IsChain(s, similar, c) && c[0] == x && c[|c| - 1] == y;
    var d :| IsChain(s, similar, d) && d[0] == y && d[|d| - 1] == z;
    var e := c + d[1..];
    forall k | 0 < k < |e|
      ensures Similar(s, similar, e[k - 1], e[k]) || Similar(s, similar, e[k], e[k - 1])
    {
      if k < |c| {
        assert Similar(s, similar, c[k - 1], c[k]) || Similar(s, similar, c[k], c[k - 1]);
      } else {
        var l := k - |c| + 1;
        assert Similar(s, similar, d[l - 1], d[l]) || Similar(s, similar, d[l], d[l - 1]);
      }
    }
    assert IsChain(s, similar, e);
  }

  // ---- the forest ----

  // Ranks strictly increase along parent links and stay within `bound`; rep
  // names the root of every node.
  ghost predicate Forest(parent: seq<int>, rank: seq<int>, rep: seq<int>, bound: int) {
    && |parent| == |rank| == |rep|
    && (forall x :: 0 <= x < |parent| ==> 0 <= rank[x] <= bound && 0 <= rep[x] < |parent| && -1 <= parent[x] < |parent|)
    && (forall x :: 0 <= x < |parent| && parent[x] == -1 ==> rep[x] == x)
    && (forall x :: 0 <= x < |parent| && parent[x] != -1 ==> rep[x] == rep[parent[x]] && rank[x] < rank[parent[x]])
    && (forall x :: 0 <= x < |parent| ==>
        parent[rep[x]] == -1 && rank[x] <= rank[rep[x]] && (parent[x] != -1 ==> rank[x] < rank[rep[x]]))
  }

  // Every node of the forest is linked to its root.
  ghost predicate Sound<T>(s: seq<Element<T>>, similar: (T, T) -> bool, rep: seq<int>) {
    |rep| == |s| && forall x :: 0 <= x < |s| && s[x].Present? ==> 0 <= rep[x] < |s| && Linked(s, similar, x, rep[x])
  }

  // The root replaced for the members of one tree.
  ghost function Merged(rep: seq<int>, from: int, to: int): seq<int> {
    seq(|rep|, x requires 0 <= x < |rep| => if rep[x] == from then to else rep[x])
  }

  lemma LinkRoots(parent: seq<int>, rank: seq<int>, rep: seq<int>, bound: int, from: int, to: int)
    requires Forest(parent, rank, rep, bound) && 0 <= from < |parent| && 0 <= to < |parent| && from != to
    requires parent[from] == -1 && parent[to] == -1 && rank[from] < rank[to]
    ensures Forest(parent[from := to], rank, Merged(rep, from, to), bound)
  {
  }

  // Of two roots of the same rank one is raised first; nothing else changes.
  lemma RaiseRoot(parent: seq<int>, rank: seq<int>, rep: seq<int>, bound: int, to: int)
    requires Forest(parent, rank, rep, bound) && 0 <= to < |parent| && parent[to] == -1
    ensures Forest(parent, rank[to := rank[to] + 1], rep, bound + 1)
  {
  }

  lemma MergeSound<T>(s: seq<Element<T>>, similar: (T, T) -> bool, rep: seq<int>, i: int, j: int, from: int, to: int)
    requires Sound(s, similar, rep) && (Similar(s, similar, i, j) || Similar(s, similar, j, i))
    requires (rep[i] == from && rep[j] == to) || (rep[i] == to && rep[j] == from)
    ensures Sound(s, similar, Merged(rep, from, to))
  {
    hide Linked;
    var rep' := Merged(rep, from, to);
    var (a, b) := if rep[i] == from then (i, j) else (j, i);
    assert s[a].Present? && s[b].Present? && rep[a] == from && rep[b] == to;
    if Similar(s, similar, i, j) { LinkedPair(s, similar, i, j); } else { LinkedPair(s, similar, j, i); }
    if !Linked(s, similar, a, b) { LinkedBack(s, similar, b, a); }
    forall x | 0 <= x < |s| && s[x].Present?
      ensures 0 <= rep'[x] < |s| && Linked(s, similar, x, rep'[x])
    {
      if rep[x] == from {
        LinkedBack(s, similar, a, from);
        LinkedTrans(s, similar, x, from, a);
        LinkedTrans(s, similar, x, a, b);
        LinkedTrans(s, similar, x, b, to);
      }
    }
  }

  // ---- the steps of the algorithm ----

  method Find(parent: array<int>, x: int, ghost rank: seq<int>, ghost rep: seq<int>, ghost bound: int)
      returns (root: int)
    requires Forest(parent[..], rank, rep, bound) && 0 <= x < parent.Length
    ensures root == rep[x]
  {
    root := x;
    while parent[root] != -1
      invariant 0 <= root < parent.Length && rep[root] == rep[x]
      decreases bound - rank[root]
    {
      assert parent[..][root] == parent[root];
      root := parent[root];
    }
    assert parent[..][root] == parent[root];
  }

  lemma Shortcut(parent: seq<int>, rank: seq<int>, rep: seq<int>, bound: int, x: int)
    requires Forest(parent, rank, rep, bound) && 0 <= x < |parent| && parent[x] != -1
    ensures Forest(parent[x := rep[x]], rank, rep, bound)
  {
  }

  // Hangs every node on the way from x to its root directly below the root.
  method Compress(parent: array<int>, x: int, root: int, ghost rank: seq<int>, ghost rep: seq<int>, ghost bound: int)
    requires Forest(parent[..], rank, rep, bound) && 0 <= x < parent.Length && root == rep[x]
    modifies parent
    ensures Forest(parent[..], rank, rep, bound)
    ensures x != root ==> parent[x] == root
  {
    hide Forest;
    var node2 := x;
    OpenForest(parent[..], rank, rep, bound, x);
    while parent[node2] != -1
      invariant Forest(parent[..], rank, rep, bound) && 0 <= node2 < parent.Length && rep[node2] == root
                && |rank| == parent.Length
      invariant node2 != x && x != root ==> parent[x] == root
      decreases bound - rank[node2]
    {
      OpenForest(parent[..], rank, rep, bound, node2);
      var temp := node2;
      node2 := parent[node2];
      Shortcut(parent[..], rank, rep, bound, temp);
      ghost var p := parent[..];
      OpenForest(p, rank, rep, bound, node2);
      parent[temp] := root;
      assert parent[..] == p[temp := root];
    }
    OpenForest(parent[..], rank, rep, bound, node2);
  }

  lemma OpenForest(parent: seq<int>, rank: seq<int>, rep: seq<int>, bound: int, x: int)
    requires Forest(parent, rank, rep, bound) && 0 <= x < |parent|
    ensures |parent| == |rank| == |rep| && 0 <= rep[x] < |parent| && rank[x] <= bound
    ensures parent[x] == -1 ==> rep[x] == x
    ensures parent[x] != -1 ==>
            0 <= parent[x] < |parent| && rep[parent[x]] == rep[x] && rank[x] < rank[parent[x]] <= bound
    ensures parent[rep[x]] == -1 && rep[rep[x]] == rep[x]
  {
  }

  // The two trees of a similar pair become one.
  method Unite<T>(s: seq<Element<T>>, ghost similar: (T, T) -> bool, parent: array<int>, rank: array<int>, i: int,
                  j: int, root0: int, root2: int,
                  ghost rep0: seq<int>, ghost bound0: int)
    returns (root: int, ghost rep: seq<int>, ghost bound: int)
    requires parent != rank && parent.Length == rank.Length == |s| == |rep0| && 0 <= i < |s| && 0 <= j < |s|
    requires Similar(s, similar, i, j) && root0 == rep0[i] && root2 == rep0[j] && root0 != root2
    requires Forest(parent[..], rank[..], rep0, bound0) && Sound(s, similar, rep0)
    modifies parent, rank
    ensures |rep| == |s| && rep[i] == rep[j] == root
    ensures rep == Merged(rep0, root0, root2) || rep == Merged(rep0, root2, root0)
    ensures Forest(parent[..], rank[..], rep, bound) && Sound(s, similar, rep)
  {
    hide Forest, Sound;
    ghost var p, r := parent[..], rank[..];
    bound := bound0;
    OpenForest(p, r, rep0, bound, i);
    OpenForest(p, r, rep0, bound, j);
    root := root0;
    if rank[root] > rank[root2] {
      parent[root2] := root;
      LinkRoots(p, r, rep0, bound, root2, root);
      MergeSound(s, similar, rep0, i, j, root2, root);
      rep := Merged(rep0, root2, root);
      assert parent[..] == p[root2 := root] && rank[..] == r;
    } else {
      parent[root] := root2;
      if rank[root] == rank[root2] {
        rank[root2] := rank[root2] + 1;
        RaiseRoot(p, r, rep0, bound, root2);
        bound := bound + 1;
        assert rank[..] == r[root2 := r[root2] + 1];
      } else {
        assert rank[..] == r;
      }
      LinkRoots(p, rank[..], rep0, bound, root, root2);
      MergeSound(s, similar, rep0, i, j, root, root2);
      rep := Merged(rep0, root, root2);
      assert parent[..] == p[root := root2];
      root := root2;
    }
  }

  // The similar pairs looked at before (i, j) are in one tree each.
  ghost predicate Joined<T>(s: seq<Element<T>>, similar: (T, T) -> bool, rep: seq<int>, i: int, j: int)
    requires |rep| == |s|
  {
    forall a, b :: Similar(s, similar, a, b) && (a < i || (a == i && b < j)) ==> rep[a] == rep[b]
  }

  lemma JoinedMerge<T>(s: seq<Element<T>>, similar: (T, T) -> bool, rep: seq<int>, i: int, j: int, from: int, to: int)
    requires |rep| == |s| && Joined(s, similar, rep, i, j)
    ensures |Merged(rep, from, to)| == |s| && Joined(s, similar, Merged(rep, from, to), i, j)
  {
  }

  lemma JoinedStep<T>(s: seq<Element<T>>, similar: (T, T) -> bool, rep: seq<int>, i: int, j: int)
    requires |rep| == |s| && Joined(s, similar, rep, i, j) && (Similar(s, similar, i, j) ==> rep[i] == rep[j])
    ensures Joined(s, similar, rep, i, j + 1)
  {
    hide Similar;
  }

  lemma JoinedNext<T>(s: seq<Element<T>>, similar: (T, T) -> bool, rep: seq<int>, i: int, j: int)
    requires |rep| == |s| && Joined(s, similar, rep, i, j) && (j >= |s| || i < 0 || i >= |s| || s[i].Null?)
    ensures Joined(s, similar, rep, i + 1, 0)
  {
  }

  // Once every pair has been looked at, the roots tell the components apart.
  lemma RootsAreComponents<T>(s: seq<Element<T>>, similar: (T, T) -> bool, rep: seq<int>, x: int, y: int)
    requires Sound(s, similar, rep) && Joined(s, similar, rep, |s|, 0)
    requires 0 <= x < |s| && 0 <= y < |s| && s[x].Present? && s[y].Present?
    ensures rep[x] == rep[y] <==> Linked(s, similar, x, y)
  {
    if rep[x] == rep[y] {
      LinkedBack(s, similar, y, rep[y]);
      LinkedTrans(s, similar, x, rep[x], y);
    }
    if Linked(s, similar, x, y) {
      var c :| IsChain(s, similar, c) && c[0] == x && c[|c| - 1] == y;
      ChainSameRoot(s, similar, rep, c);
    }
  }

  lemma {:induction false} ChainSameRoot<T>(s: seq<Element<T>>, similar: (T, T) -> bool, rep: seq<int>, c: seq<int>)
    requires |rep| == |s| && Joined(s, similar, rep, |s|, 0) && IsChain(s, similar, c)
    ensures rep[c[0]] == rep[c[|c| - 1]]
    decreases |c|
  {
    if |c| > 1 {
      var k := |c| - 1;
      var front := c[..k];
      assert IsChain(s, similar, front);
      ChainSameRoot(s, similar, rep, front);
      assert Similar(s, similar, c[k - 1], c[k]) || Similar(s, similar, c[k], c[k - 1]);
    }
  }

  // The grouping phase: every similar pair united.
  method Cluster<T>(s: seq<Element<T>>, similar: (T, T) -> bool, parent: array<int>, rank: array<int>)
      returns (ghost rep: seq<int>, ghost bound: int)
    requires parent != rank && parent.Length == rank.Length == |s|
    modifies parent, rank
    ensures Forest(parent[..], rank[..], rep, bound) && Sound(s, similar, rep) && Joined(s, similar, rep, |s|, 0)
  {
    hide Forest, Sound, Joined, Merged;
    var i := 0;
    while i < |s|
      invariant 0 <= i <= |s|
      invariant forall k :: 0 <= k < i ==> parent[k] == -1 && rank[k] == 0
    {
      parent[i], rank[i] := -1, 0;
      i := i + 1;
    }
    rep, bound := seq(|s|, k => k), 0;
    StartForest(s, similar, parent[..], rank[..], rep);
    i := 0;
    while i < |s|
      invariant 0 <= i <= |s| == |rep|
      invariant Forest(parent[..], rank[..], rep, bound) && Sound(s, similar, rep) && Joined(s, similar, rep, i, 0)
    {
      if s[i].Null? {
        JoinedNext(s, similar, rep, i, 0);
        i := i + 1;
        continue;
      }
      var root := Find(parent, i, rank[..], rep, bound);
      var j := 0;
      while j < |s|
        invariant 0 <= j <= |s| == |rep| && 0 <= i < |s| && root == rep[i]
        invariant Forest(parent[..], rank[..], rep, bound) && Sound(s, similar, rep) && Joined(s, similar, rep, i, j)
      {
        if i != j && s[j].Present? && similar(s[i].value, s[j].value) {
          var root2 := Find(parent, j, rank[..], rep, bound);
          if root2 != root {
            JoinedMerge(s, similar, rep, i, j, root, root2);
            JoinedMerge(s, similar, rep, i, j, root2, root);
            root, rep, bound := Unite(s, similar, parent, rank, i, j, root, root2, rep, bound);
            ghost var r := rank[..];
            Compress(parent, j, root, r, rep, bound);
            Compress(parent, i, root, r, rep, bound);
          }
        }
        JoinedStep(s, similar, rep, i, j);
        j := j + 1;
      }
      JoinedNext(s, similar, rep, i, j);
      i := i + 1;
    }
  }

  lemma StartForest<T>(s: seq<Element<T>>, similar: (T, T) -> bool, parent: seq<int>, rank: seq<int>, rep: seq<int>)
    requires |parent| == |rank| == |s| && rep == seq(|s|, k => k)
    requires forall k :: 0 <= k < |s| ==> parent[k] == -1 && rank[k] == 0
    ensures Forest(parent, rank, rep, 0) && Sound(s, similar, rep) && Joined(s, similar, rep, 0, 0)
  {
    forall x | 0 <= x < |s| && s[x].Present?
      ensures Linked(s, similar, x, rep[x])
    {
      LinkedSelf(s, similar, x);
    }
  }

  // ---- class numbers ----

  ghost predicate Seen(idx: seq<int>, k: int, c: int) {
    exists l :: 0 <= l < k && l < |idx| && idx[l] == c
  }

  // One of the first i elements lies under root r.
  ghost predicate HasMember<T>(s: seq<Element<T>>, rep: seq<int>, i: int, r: int) {
    exists l :: 0 <= l < i && l < |s| && l < |rep| && s[l].Present? && rep[l] == r
  }

  lemma MemberNext<T>(s: seq<Element<T>>, rep: seq<int>, i: int)
    requires 0 <= i < |s| == |rep|
    ensures forall r :: HasMember(s, rep, i, r) ==> HasMember(s, rep, i + 1, r)
    ensures s[i].Present? ==> HasMember(s, rep, i + 1, rep[i])
  {
  }

  // A tagged root carries the complement of the number of its class, and was
  // tagged by one of the first i elements.
  ghost predicate Tagged<T>(s: seq<Element<T>>, rep: seq<int>, tag: seq<int>, idx: seq<int>, i: int, classes: int) {
    && |rep| == |tag| == |idx| == |s| && 0 <= i <= |s| && 0 <= classes
    && (forall k :: 0 <= k < |s| ==> 0 <= rep[k] < |s|)
    && (forall k :: 0 <= k < i ==>
        if s[k].Null? then idx[k] == -1 else 0 <= idx[k] < classes && tag[rep[k]] == -1 - idx[k])
    && (forall r :: 0 <= r < |s| && tag[r] < 0 ==> HasMember(s, rep, i, r))
  }

  // Among the first i elements, equal numbers mean equal roots.
  ghost predicate Distinguished<T>(s: seq<Element<T>>, rep: seq<int>, idx: seq<int>, i: int) {
    |rep| == |idx| == |s| && 0 <= i <= |s| &&
    forall k, l :: 0 <= k < i && 0 <= l < i && s[k].Present? && s[l].Present? ==>
        (idx[k] == idx[l] <==> rep[k] == rep[l])
  }

  // Numbers in use are the smallest ones, each seen before any larger one.
  ghost predicate Orderly(idx: seq<int>, i: int, classes: int) {
    && 0 <= i <= |idx|
    && (forall k, c :: 0 <= k < i && 0 <= c < idx[k] ==> Seen(idx, k, c))
    && (forall c :: 0 <= c < classes ==> Seen(idx, i, c))
  }

  ghost predicate Numbered<T>(s: seq<Element<T>>, rep: seq<int>, tag: seq<int>, idx: seq<int>, i: int, classes: int) {
    Tagged(s, rep, tag, idx, i, classes) && Distinguished(s, rep, idx, i) && Orderly(idx, i, classes)
  }

  lemma SeenKept(idx: seq<int>, k: int, c: int, i: int, v: int)
    requires 0 <= i < |idx| && k <= i && Seen(idx, k, c)
    ensures Seen(idx[i := v], k, c) && Seen(idx[i := v], i + 1, c)
  {
    var l :| 0 <= l < k && l < |idx| && idx[l] == c;
    assert idx[i := v][l] == c;
  }

  // One more number, at most one above those in use.
  lemma OrderlyStep(idx: seq<int>, i: int, classes: int, v: int)
    requires Orderly(idx, i, classes) && i < |idx| && v <= classes
    ensures Orderly(idx[i := v], i + 1, classes) && (v == classes ==> Orderly(idx[i := v], i + 1, classes + 1))
  {
    hide Seen;
    var next, n := idx[i := v], i + 1;
    forall k, c | 0 <= k < n && 0 <= c < next[k]
      ensures Seen(next, k, c)
    {
      SeenKept(idx, k, c, i, v);
    }
    forall c | 0 <= c < classes
      ensures Seen(next, n, c)
    {
      SeenKept(idx, i, c, i, v);
    }
    SeenHere(idx, i, v);
  }

  lemma NumberNull<T>(s: seq<Element<T>>, rep: seq<int>, tag: seq<int>, idx: seq<int>, i: int, classes: int)
    requires Numbered(s, rep, tag, idx, i, classes) && i < |s| && s[i].Null?
    ensures Numbered(s, rep, tag, idx[i := -1], i + 1, classes)
  {
    hide Orderly, HasMember;
    MemberNext(s, rep, i);
    OrderlyStep(idx, i, classes, -1);
  }

  lemma DistinguishedStep<T>(s: seq<Element<T>>, rep: seq<int>, idx: seq<int>, i: int, v: int)
    requires Distinguished(s, rep, idx, i) && i < |s|
    requires forall k :: 0 <= k < i && s[k].Present? ==> (idx[k] == v <==> rep[k] == rep[i])
    ensures Distinguished(s, rep, idx[i := v], i + 1)
  {
  }

  lemma TaggedOld<T>(s: seq<Element<T>>, rep: seq<int>, tag: seq<int>, idx: seq<int>, i: int, classes: int)
    requires Tagged(s, rep, tag, idx, i, classes) && Distinguished(s, rep, idx, i)
    requires i < |s| && s[i].Present? && tag[rep[i]] < 0
    ensures var v := -1 - tag[rep[i]];
            && 0 <= v < classes && Tagged(s, rep, tag, idx[i := v], i + 1, classes)
            && forall k :: 0 <= k < i && s[k].Present? ==> (idx[k] == v <==> rep[k] == rep[i])
  {
    MemberNext(s, rep, i);
    assert HasMember(s, rep, i, rep[i]);
    var l :| 0 <= l < i && s[l].Present? && rep[l] == rep[i];
    assert -1 - tag[rep[i]] == idx[l];
    hide HasMember;
    assert forall k :: 0 <= k < i && s[k].Present? ==> (idx[k] == idx[l] <==> rep[k] == rep[l]);
  }

  // An element of a class already numbered.
  lemma NumberOld<T>(s: seq<Element<T>>, rep: seq<int>, tag: seq<int>, idx: seq<int>, i: int, classes: int)
    requires Numbered(s, rep, tag, idx, i, classes) && i < |s| == |rep| == |tag| && 0 <= i && s[i].Present?
    requires 0 <= rep[i] < |tag| && tag[rep[i]] < 0 && |idx| == |s|
    ensures Numbered(s, rep, tag, idx[i := -1 - tag[rep[i]]], i + 1, classes)
  {
    hide Orderly, Tagged, Distinguished;
    TaggedOld(s, rep, tag, idx, i, classes);
    DistinguishedStep(s, rep, idx, i, -1 - tag[rep[i]]);
    OrderlyStep(idx, i, classes, -1 - tag[rep[i]]);
  }

  lemma TaggedNew<T>(s: seq<Element<T>>, rep: seq<int>, tag: seq<int>, idx: seq<int>, i: int, classes: int)
    requires Tagged(s, rep, tag, idx, i, classes)
    requires i < |s| && s[i].Present? && tag[rep[i]] >= 0
    ensures Tagged(s, rep, tag[rep[i] := -1 - classes], idx[i := classes], i + 1, classes + 1)
    ensures forall k :: 0 <= k < i && s[k].Present? ==> (idx[k] == classes <==> rep[k] == rep[i])
  {
    hide HasMember;
    MemberNext(s, rep, i);
    assert forall l :: 0 <= l < i && s[l].Present? ==> rep[l] != rep[i];
  }

  // The first element of a class takes the next number.
  lemma NumberNew<T>(s: seq<Element<T>>, rep: seq<int>, tag: seq<int>, idx: seq<int>, i: int, classes: int)
    requires Numbered(s, rep, tag, idx, i, classes) && i < |s| == |rep| == |tag| && 0 <= i && s[i].Present?
    requires 0 <= rep[i] < |tag| && tag[rep[i]] >= 0 && |idx| == |s|
    ensures Numbered(s, rep, tag[rep[i] := -1 - classes], idx[i := classes], i + 1, classes + 1)
  {
    hide Orderly, Tagged, Distinguished;
    TaggedNew(s, rep, tag, idx, i, classes);
    DistinguishedStep(s, rep, idx, i, classes);
    OrderlyStep(idx, i, classes, classes);
  }

  lemma SeenHere(idx: seq<int>, i: int, v: int)
    requires 0 <= i < |idx|
    ensures Seen(idx[i := v], i + 1, v)
  {
    assert idx[i := v][i] == v;
  }

  // The class numbers of the elements and the number of classes.
  method Group<T>(s: seq<Element<T>>, similar: (T, T) -> bool) returns (idx: array<int>, cat: int)
    ensures fresh(idx) && idx.Length == |s|
    // A null element belongs to no class, any other to one of `cat` classes.
    ensures forall i :: 0 <= i < |s| ==> if s[i].Null? then idx[i] == -1 else 0 <= idx[i] < cat
    // Two elements share a class exactly when a chain of similar elements links them.
    ensures forall i, j :: 0 <= i < |s| && 0 <= j < |s| && s[i].Present? && s[j].Present? ==>
              (idx[i] == idx[j] <==> Linked(s, similar, i, j))
    // Numbers are given out by first appearance, and all of them are used.
    ensures forall i, c :: 0 <= i < |s| && 0 <= c < idx[i] ==> Seen(idx[..], i, c)
    ensures forall c :: 0 <= c < cat ==> Seen(idx[..], |s|, c)
  {
    hide Forest, Sound, Joined, Linked, Numbered, Seen;
    var parent, rank := new int[|s|], new int[|s|];
    ghost var rep, bound := Cluster(s, similar, parent, rank);
    ghost var rank0 := rank[..];
    idx := new int[|s|];
    cat := 0;
    NumberStart(s, parent[..], rank0, rep, bound, idx[..]);
    var i := 0;
    while i < |s|
      invariant 0 <= i <= |s| && Forest(parent[..], rank0, rep, bound)
      invariant Numbered(s, rep, rank[..], idx[..], i, cat)
    {
      var j := -1;
      ghost var x, r := idx[..], rank[..];
      if s[i].Present? {
        OpenNumbered(s, rep, r, x, i, cat);
        var node1 := Find(parent, i, rank0, rep, bound);
        if rank[node1] >= 0 {
          NumberNew(s, rep, r, x, i, cat);
          rank[node1] := -1 - cat;
          cat := cat + 1;
          assert rank[..] == r[node1 := -cat];
        } else {
          NumberOld(s, rep, r, x, i, cat);
        }
        j := -1 - rank[node1];
      } else {
        NumberNull(s, rep, r, x, i, cat);
      }
      idx[i] := j;
      assert idx[..] == x[i := j];
      i := i + 1;
    }
    NumberEnd(s, similar, rep, rank[..], idx[..], cat);
  }

  lemma OpenNumbered<T>(s: seq<Element<T>>, rep: seq<int>, tag: seq<int>, idx: seq<int>, i: int, classes: int)
    requires Numbered(s, rep, tag, idx, i, classes) && i < |s|
    ensures |rep| == |tag| == |s| && 0 <= rep[i] < |tag|
  {
  }

  lemma NumberStart<T>(s: seq<Element<T>>, parent: seq<int>, rank: seq<int>, rep: seq<int>, bound: int, idx: seq<int>)
    requires Forest(parent, rank, rep, bound) && |parent| == |s| == |idx|
    ensures Numbered(s, rep, rank, idx, 0, 0)
  {
  }

  lemma NumberEnd<T>(s: seq<Element<T>>, similar: (T, T) -> bool, rep: seq<int>, tag: seq<int>, idx: seq<int>, cat: int)
    requires Numbered(s, rep, tag, idx, |s|, cat) && Sound(s, similar, rep) && Joined(s, similar, rep, |s|, 0)
    ensures forall i :: 0 <= i < |s| ==> if s[i].Null? then idx[i] == -1 else 0 <= idx[i] < cat
    ensures forall i, j :: 0 <= i < |s| && 0 <= j < |s| && s[i].Present? && s[j].Present? ==>
              (idx[i] == idx[j] <==> Linked(s, similar, i, j))
    ensures forall i, c :: 0 <= i < |s| && 0 <= c < idx[i] ==> Seen(idx, i, c)
    ensures forall c :: 0 <= c < cat ==> Seen(idx, |s|, c)
  {
    hide Linked, Seen, Joined;
    forall i, j | 0 <= i < |s| && 0 <= j < |s| && s[i].Present? && s[j].Present?
      ensures idx[i] == idx[j] <==> Linked(s, similar, i, j)
    {
      RootsAreComponents(s, similar, rep, i, j);
    }
  }
}
