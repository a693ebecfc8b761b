/**
 The cache itself: a trie updated in place, kept in step with the list of
 records in the order of their last put.
 */
module Cache {
  import opened Bits
  import opened Words
  import opened Trie
  import opened CacheSpec

  ghost function ItemSet(q: seq<Item>): set<Item> { set it | it in q }

  ghost function Records(q: seq<Item>): (r: seq<Record>)
    ensures |r| == |q|
  {
    seq(|q|, i requires 0 <= i < |q| => q[i].rec)
  }

  ghost predicate Ordered(q: seq<Item>) {
    forall i, j :: 0 <= i < j < |q| ==> q[i].age < q[j].age
  }

  ghost predicate Bounded(q: seq<Item>, age: nat) {
    forall it :: it in q ==> it.age <= age && it.rec.kind < 16 && it.rec.size < Pow2(32)
  }

  // The objects a log of free calls has released.
  ghost function Released(log: seq<Token>): multiset<Token> {
    if log == [] then multiset{}
    else Released(log[..|log| - 1]) + NonNull(log[|log| - 1])
  }

  function Answer(result: nat, kind: nat): Reply {
    if result == 0 then Nothing else Found(result, kind)
  }

  lemma ReleasedMore(log: seq<Token>, t: Token)
    ensures Released(log + [t]) == Released(log) + NonNull(t)
  {
    assert (log + [t])[..|log|] == log;
  }

  lemma IndexHolds(q: seq<Item>, s: nat)
    ensures var i := IndexOf(Records(q), s);
            && (i < |q| <==> Holds(ItemSet(q), s))
            && (i < |q| ==> q[i] in ItemSet(q) && q[i].rec.sign == s && Records(q)[i] == q[i].rec)
  {
    var i := IndexOf(Records(q), s);
    if i < |q| {
      assert Records(q)[i] == q[i].rec;
      assert q[i] in ItemSet(q);
    }
    if Holds(ItemSet(q), s) {
      var it :| it in ItemSet(q) && it.rec.sign == s;
      var j :| 0 <= j < |q| && q[j] == it;
      assert Records(q)[j].sign == s;
    }
  }

  lemma RemoveItems(q: seq<Item>, i: nat)
    requires i < |q| && Ordered(q)
    ensures ItemSet(RemoveAt(q, i)) == ItemSet(q) - {q[i]}
    ensures Records(RemoveAt(q, i)) == RemoveAt(Records(q), i)
    ensures Ordered(RemoveAt(q, i))
  {
    RecordsRemove(q, i);
    var r := RemoveAt(q, i);
    forall it | it in ItemSet(q) - {q[i]}
      ensures it in r
    {
      var j :| 0 <= j < |q| && q[j] == it;
      assert r[if j < i then j else j - 1] == it;
    }
  }

  lemma AppendItems(q: seq<Item>, x: Item)
    ensures ItemSet(q + [x]) == ItemSet(q) + {x}
    ensures Records(q + [x]) == Records(q) + [x.rec]
  {
  }

  lemma CohesiveRoot(I: set<Item>)
    ensures Cohesive(I, 0)
  {
  }

  // `k & bitmap` for k = 1 << dice tests the bit.
  lemma TestBit(b: nat, d: nat)
    ensures Shl(1, d) == Pow2(d)
    ensures And(Shl(1, d), b) != 0 <==> Bit(b, d)
  {
    ShlOne(d);
    forall e: nat
      ensures Bit(And(Pow2(d), b), e) <==> e == d && Bit(b, e)
    {
      BitAnd(Pow2(d), b, e);
      BitPow2(d, e);
    }
    if And(Pow2(d), b) == 0 {
      BitZero(d);
    } else if !Bit(b, d) {
      AndBelow(Pow2(d), b);
      Pow2Monotone(d, d + 1);
      forall e | 0 <= e < d + 1
        ensures Bit(And(Pow2(d), b), e) <==> Bit(0, e)
      {
        BitZero(e);
      }
      SameBits(And(Pow2(d), b), 0, d + 1);
    }
  }

  // One step down: the child for a digit, if the bitmap has it.
  method ChildOf(branch: Node, dice: nat) returns (next: Option<Node>)
    requires branch.Branch? && Packed(branch) && dice < 64
    ensures next == if Bit(branch.bitmap, dice) then Some(Kid(branch, dice)) else None
  {
    hide Bit, Rank, Pow2, Shl, And, ComputeBits;
    if branch.full {
      FullRank(branch.bitmap, 64, dice);
      return Some(branch.kids[dice]);
    }
    var k := Shl(1, dice);
    TestBit(branch.bitmap, dice);
    if And(k, branch.bitmap) != 0 {
      var m := And(k - 1, branch.bitmap);
      AndBelow(k - 1, branch.bitmap);
      ComputeBitsIsPopCount(m);
      PopCountUnderMask(branch.bitmap, dice);
      KidIndex(branch, dice);
      return Some(branch.kids[ComputeBits(m)]);
    }
    return None;
  }

  lemma TotalBits(n: Node)
    requires n.Branch? && Packed(n)
    ensures ComputeBits(n.bitmap) == |n.kids|
  {
    hide *;
    OpenPacked(n);
    ComputeBitsIsPopCount(n.bitmap);
    Pow2Values();
    PopCountIsRank(n.bitmap, 64);
  }

  lemma OpenPacked(n: Node)
    requires n.Branch? && Packed(n)
    ensures n.bitmap <= MAX64 && MAX64 == 0xFFFF_FFFF_FFFF_FFFF && |n.kids| == Rank(n.bitmap, 64)
  {
  }

  lemma NextMask(i: nat)
    ensures Shl(Shl(63, 6 * i), 6) == Shl(63, 6 * (i + 1)) && Shl(63, 0) == 63
  {
    ShlShl(63, 6 * i, 6);
  }

  // The ten levels a walk can inspect have packed child arrays.
  predicate Walkable(n: Node, d: nat) {
    n.Branch? && d < 10 ==> Packed(n) && forall i :: 0 <= i < |n.kids| ==> Walkable(n.kids[i], d + 1)
  }

  lemma {:induction false} RepresentsWalkable(n: Node, I: set<Item>, d: nat)
    requires Represents(n, I, d)
    ensures Walkable(n, d)
  {
    hide Bit, Rank, Digit, GetKind, GetAge, GetSize, TwoItems, IsMinAge;
    if n.Branch? {
      forall i | 0 <= i < |n.kids|
        ensures Walkable(n.kids[i], d + 1)
      {
        var e := KidAt(n, i);
        RepresentsWalkable(Kid(n, e), Sub(I, d, e), d + 1);
      }
    }
  }

  lemma {:induction false} WalkableAt(n: Node, s: nat, d: nat, k: nat)
    requires d <= k <= 10 && OnPath(n, s, d, k) && Walkable(n, d)
    ensures Walkable(At(n, s, d, k), k)
    decreases k - d
  {
    hide Bit, Digit;
    if d < k {
      KidIndex(n, Digit(s, d));
      WalkableAt(Kid(n, Digit(s, d)), s, d + 1, k);
    }
  }

  lemma {:induction false} WalkableWrite(n: Node, s: nat, d: nat, k: nat, new_: Node)
    requires d <= k <= 10 && OnPath(n, s, d, k) && Walkable(n, d) && Walkable(new_, k)
    ensures Walkable(Write(n, s, d, k, new_), d)
    decreases k - d
  {
    hide Bit, Digit;
    if d < k {
      KidIndex(n, Digit(s, d));
      WalkableWrite(Kid(n, Digit(s, d)), s, d + 1, k, new_);
    }
  }

  lemma {:induction false} SplitWalkable(t: Node, x: Node, k: nat, age: nat)
    requires t.Leaf? && x.Leaf? && k <= 10
    ensures Walkable(Split(t, x, k, age), k)
    decreases 10 - k
  {
    hide Bit, Rank, Or, Pow2, Digit;
    if k < 10 {
      if Digit(t.sign, k) == Digit(x.sign, k) {
        OneBit(Digit(t.sign, k));
        SplitWalkable(t, x, k + 1, age);
      } else {
        KidsOfFork(t, x, Digit(t.sign, k), Digit(x.sign, k), age);
      }
    }
  }

  // What a look-up answers on any trie that can be walked.
  function LookUp(n: Node, s: nat, d: nat): Reply
    requires d <= 10
    decreases 10 - d
  {
    if d == 10 then Nothing
    else if n.Branch? && Packed(n) && Bit(n.bitmap, Digit(s, d)) then LookUp(Kid(n, Digit(s, d)), s, d + 1)
    else if n.Leaf? && n.sign == s then Answer(n.obj, GetKind(n.word))
    else Nothing
  }

  // It is decided by the node at which the walk stops.
  lemma {:induction false} LookUpSeeks(n: Node, s: nat, d: nat)
    requires d <= 10
    ensures var k := Seek(n, s, d);
            if k.None? then LookUp(n, s, d) == Nothing
            else
              && d <= k.value && OnPath(n, s, d, k.value)
              && var m := At(n, s, d, k.value);
                 LookUp(n, s, d) == if m.Leaf? && m.sign == s then Answer(m.obj, GetKind(m.word)) else Nothing
    decreases 10 - d
  {
    hide Bit, Rank, Digit, GetKind;
    if d < 10 && n.Branch? && Packed(n) && Bit(n.bitmap, Digit(s, d)) {
      LookUpSeeks(Kid(n, Digit(s, d)), s, d + 1);
    }
  }

  // The next node of a walk, by the digit under the mask j.
  method Descend(ghost origin: Node, node: Node, sign: nat, i: nat, j: nat) returns (next: Option<Node>)
    requires i < 10 && j == Shl(63, 6 * i) && OnPath(origin, sign, 0, i) && node == At(origin, sign, 0, i)
    requires node.Branch? && Packed(node)
    ensures next.None? ==> Seek(node, sign, i) == Some(i)
    ensures next.Some? ==>
              && OnPath(origin, sign, 0, i + 1) && next.value == At(origin, sign, 0, i + 1)
              && Seek(node, sign, i) == Seek(next.value, sign, i + 1)
  {
    hide Bit, Rank, Pow2, Shl, Shr, And, Digit;
    var dice := Shr(And(sign, j), i * 6);
    DiceIsDigit(sign, i);
    next := ChildOf(node, dice);
    if next.Some? { PathExtends(origin, sign, 0, i); }
  }

  // The walk of a look-up, ten nodes at most: where it stops, or nothing.
  method SeekNode(origin: Node, sign: nat) returns (branch: Option<Node>, depth: nat)
    requires Walkable(origin, 0)
    ensures branch.None? <==> Seek(origin, sign, 0).None?
    ensures branch.Some? ==>
              && Seek(origin, sign, 0) == Some(depth) && depth <= 9
              && OnPath(origin, sign, 0, depth) && branch.value == At(origin, sign, 0, depth)
  {
    hide Bit, Rank, Pow2, Shl, Shr, And, Digit, Walkable;
    var node := origin;
    var i, j := 0, 63;
    NextMask(0);
    while i < 10
      invariant i <= 10 && j == Shl(63, 6 * i)
      invariant OnPath(origin, sign, 0, i) && node == At(origin, sign, 0, i)
      invariant Seek(origin, sign, 0) == Seek(node, sign, i)
    {
      if node.Leaf? {
        return Some(node), i;
      }
      WalkableAt(origin, sign, 0, i);
      OpenWalkable(node, i);
      var next := Descend(origin, node, sign, i, j);
      if next.None? {
        return Some(node), i;
      }
      node := next.value;
      NextMask(i);
      j := Shl(j, 6);
      i := i + 1;
    }
    return None, 10;
  }

  lemma OpenWalkable(n: Node, d: nat)
    requires Walkable(n, d) && n.Branch? && d < 10
    ensures Packed(n)
  {
  }

  lemma OpenNode(n: Node, I: set<Item>, d: nat)
    requires Represents(n, I, d)
    ensures n.Branch? ==> Packed(n) && |n.kids| > 0
  {
    hide Bit, Rank;
    if n.Branch? {
      var it :| it in I && it.age == n.age;
      SubOf(I, d, it);
      KidIndex(n, Digit(it.rec.sign, d));
    }
  }

  lemma {:induction false} PathExtends(n: Node, s: nat, d: nat, k: nat)
    requires d <= k && OnPath(n, s, d, k)
    requires var m := At(n, s, d, k); m.Branch? && Packed(m) && Bit(m.bitmap, Digit(s, k))
    ensures OnPath(n, s, d, k + 1) && At(n, s, d, k + 1) == Kid(At(n, s, d, k), Digit(s, k))
    decreases k - d
  {
    hide Bit, Rank, Digit;
    if d < k { PathExtends(Kid(n, Digit(s, d)), s, d + 1, k); }
  }

  lemma ParentTwo(n: Node, I: set<Item>, s: nat, k: nat)
    requires k > 0 && OnPath(n, s, 0, k) && Represents(n, I, 0)
    ensures OnPath(n, s, 0, k - 1) && At(n, s, 0, k - 1).Branch? && TwoItems(Under(I, s, 0, k - 1))
    ensures Packed(At(n, s, 0, k - 1)) && Bit(At(n, s, 0, k - 1).bitmap, Digit(s, k - 1))
    ensures At(n, s, 0, k) == Kid(At(n, s, 0, k - 1), Digit(s, k - 1))
  {
    hide Bit, Rank, Digit;
    WriteAt(n, s, 0, k - 1, k, n);
    AtRepresents(n, I, s, 0, k - 1);
    assert OnPath(At(n, s, 0, k - 1), s, k - 1, k);
  }

  lemma UnderExtend(I: set<Item>, s: nat, k: nat)
    ensures Sub(Under(I, s, 0, k), k, Digit(s, k)) == Under(I, s, 0, k + 1)
    ensures Under(I, s, 0, k + 1) <= Under(I, s, 0, k) <= I
  {
    hide Digit;
  }

  lemma SwapTwo(V: set<Item>, old_: Item, new_: Item)
    requires TwoItems(V) && old_ in V
    requires forall it :: it in V && it != old_ ==> it != new_
    ensures TwoItems(V - {old_} + {new_})
  {
    var x, y :| x in V && y in V && x != y;
    var z := if x == old_ then y else x;
    assert z in V - {old_} + {new_} && new_ in V - {old_} + {new_};
  }

  // Replacing the entry of a stored signature.
  lemma ReplaceStale(n: Node, I: set<Item>, s: nat, k: nat, leaf: Node)
    requires Represents(n, I, 0) && Distinct54(I) && OnPath(n, s, 0, k)
    requires At(n, s, 0, k).Leaf? && At(n, s, 0, k).sign == s
    requires leaf.Leaf? && leaf.sign == s && leaf.word <= MAX64
    ensures Stale(Write(n, s, 0, k, leaf), I - {ItemOf(At(n, s, 0, k))} + {ItemOf(leaf)}, s, 0)
  {
    hide Bit, Rank, Digit, TwoItems, Represents, Stale, GetKind, GetAge, GetSize, Write;
    var old_, x := ItemOf(At(n, s, 0, k)), ItemOf(leaf);
    AtRepresents(n, I, s, 0, k);
    LeafIs(At(n, s, 0, k), Under(I, s, 0, k), k);
    LeafRepresents(leaf, k);
    RepresentsIsStale(leaf, {x}, s, k);
    RepresentsIsStale(n, I, s, 0);
    assert Under({x}, s, 0, k) == {x};
    if k > 0 {
      ParentTwo(n, I, s, k);
      var V := Under(I, s, 0, k - 1);
      UnderExtend(I, s, k - 1);
      forall it | it in V && it != old_
        ensures it != x
      {
        SamePrefixSelf(s);
      }
      SwapTwo(V, old_, x);
    }
    WriteStale(n, I, s, 0, k, leaf, {x});
  }

  lemma SamePrefixSelf(s: nat)
    ensures SamePrefix(s, s, 9)
  {
  }

  lemma LeafIs(n: Node, I: set<Item>, d: nat)
    requires n.Leaf? && Represents(n, I, d)
    ensures I == {ItemOf(n)} && n.word <= MAX64
  {
  }

  // Adding an entry of a new signature where the walk stopped.
  lemma InsertRepresents(n: Node, I: set<Item>, s: nat, k: nat, leaf: Node)
    requires Represents(n, I, 0) && OnPath(n, s, 0, k) && k <= 9
    requires leaf.Leaf? && leaf.sign == s && leaf.word <= MAX64
    requires forall it :: it in I ==> it.age <= ItemOf(leaf).age
    requires var m := At(n, s, 0, k);
             if m.Leaf? then !SamePrefix(m.sign, s, 9)
             else Packed(m) && !Bit(m.bitmap, Digit(s, k))
    ensures var m := At(n, s, 0, k);
            Represents(Write(n, s, 0, k,
                             if m.Leaf? then Split(m, leaf, k, NodeAge(m)) else AddLeaf(m, Digit(s, k), leaf)),
                       I + {ItemOf(leaf)}, 0)
  {
    hide Bit, Rank, Digit, TwoItems, Represents, GetKind, GetAge, GetSize, Write, Split, AddLeaf;
    var m, x, U := At(n, s, 0, k), ItemOf(leaf), Under(I, s, 0, k);
    AtRepresents(n, I, s, 0, k);
    if m.Leaf? {
      LeafIs(m, U, k);
      assert ItemOf(m) in U;
      var j :| 0 <= j < 9 && Digit(m.sign, j) != Digit(s, j);
      SplitRepresents(m, leaf, k);
      assert U + {x} == {ItemOf(m), x};
      WriteGrows(n, I, s, 0, k, Split(m, leaf, k, NodeAge(m)), x);
    } else {
      AddLeafRepresents(m, U, k, leaf);
      WriteGrows(n, I, s, 0, k, AddLeaf(m, Digit(s, k), leaf), x);
    }
  }

  // ---- signatures that agree on their low 54 bits ----

  ghost predicate PartWithinNine(s: nat, t: nat, k: nat) {
    exists j :: k <= j < 9 && Digit(s, j) != Digit(t, j)
  }

  lemma SeekChain(t: Node, x: Node, k: nat, age: nat, s: nat)
    requires t.Leaf? && x.Leaf? && k <= 9
    requires Digit(t.sign, k) == Digit(x.sign, k) == Digit(s, k)
    ensures Seek(Split(t, x, k, age), s, k) == Seek(Split(t, x, k + 1, age), s, k + 1)
  {
    hide Bit, Rank, Digit, Fork, Pow2;
    var e, m := Digit(t.sign, k), Split(t, x, k, age);
    OneBit(e);
    assert m.bitmap == Pow2(e) && Packed(m);
    assert Kid(m, e) == m.kids[0];
  }

  lemma SeekFork(t: Node, x: Node, k: nat, age: nat, s: nat)
    requires t.Leaf? && x.Leaf? && k <= 9
    requires Digit(t.sign, k) != Digit(x.sign, k)
    requires s == t.sign || s == x.sign
    ensures Seek(Split(t, x, k, age), s, k) == if k < 9 then Some(k + 1) else None
  {
    hide Bit, Rank, Digit, Fork;
    KidsOfFork(t, x, Digit(t.sign, k), Digit(x.sign, k), age);
    ForkIsBranch(t, x, Digit(t.sign, k), Digit(x.sign, k), age);
  }

  // After a split both leaves are found again exactly when their paths part
  // within nine digits; otherwise neither is.
  lemma {:induction false} SplitFoundIff(t: Node, x: Node, k: nat, age: nat)
    requires t.Leaf? && x.Leaf? && k <= 9
    ensures Seek(Split(t, x, k, age), x.sign, k).Some? <==> PartWithinNine(t.sign, x.sign, k)
    ensures Seek(Split(t, x, k, age), t.sign, k).Some? <==> PartWithinNine(t.sign, x.sign, k)
    decreases 9 - k
  {
    hide Bit, Rank, Digit, Or, Pow2, Fork, Split;
    if Digit(t.sign, k) == Digit(x.sign, k) {
      SeekChain(t, x, k, age, t.sign);
      SeekChain(t, x, k, age, x.sign);
      if k < 9 { SplitFoundIff(t, x, k + 1, age); }
    } else {
      SeekFork(t, x, k, age, t.sign);
      SeekFork(t, x, k, age, x.sign);
    }
  }

  lemma ForkIsBranch(t: Node, x: Node, dice: nat, udice: nat, age: nat)
    ensures Fork(t, x, dice, udice, age).Branch?
  {
  }

  lemma {:induction false} SeekAfterWrite(n: Node, s: nat, d: nat, k: nat, new_: Node)
    requires d <= k <= 10 && OnPath(n, s, d, k)
    ensures Seek(Write(n, s, d, k, new_), s, d) == Seek(new_, s, k)
    decreases k - d
  {
    hide Bit, Rank, Digit;
    if d < k { SeekAfterWrite(Kid(n, Digit(s, d)), s, d + 1, k, new_); }
  }

  // Signatures that share their digits share their walk.
  lemma {:induction false} PathSame(n: Node, s: nat, t: nat, d: nat, k: nat, new_: Node)
    requires d <= k && OnPath(n, s, d, k) && AgreesWith(t, s, d, k)
    ensures OnPath(n, t, d, k) && Write(n, t, d, k, new_) == Write(n, s, d, k, new_)
    decreases k - d
  {
    hide Bit, Rank, Digit;
    if d < k { PathSame(Kid(n, Digit(s, d)), s, t, d + 1, k, new_); }
  }

  // When the walk of a new signature stops at another leaf, the put leaves
  // both entries reachable exactly when the two signatures differ in their low
  // 54 bits; otherwise it leaves neither reachable.
  lemma StoredFoundIff(n: Node, I: set<Item>, k: nat, leaf: Node)
    requires Represents(n, I, 0) && leaf.Leaf? && k <= 9 && OnPath(n, leaf.sign, 0, k)
    requires At(n, leaf.sign, 0, k).Leaf?
    ensures var t := At(n, leaf.sign, 0, k);
            var n' := Write(n, leaf.sign, 0, k, Split(t, leaf, k, NodeAge(t)));
            && (Seek(n', leaf.sign, 0).Some? <==> And(t.sign, Pow2(54) - 1) != And(leaf.sign, Pow2(54) - 1))
            && (Seek(n', t.sign, 0).Some? <==> And(t.sign, Pow2(54) - 1) != And(leaf.sign, Pow2(54) - 1))
  {
    hide Bit, Rank, Digit, Represents, Write, Split, And, Pow2, GetKind, GetAge, GetSize;
    var t := At(n, leaf.sign, 0, k);
    AtRepresents(n, I, leaf.sign, 0, k);
    LeafIs(t, Under(I, leaf.sign, 0, k), k);
    assert ItemOf(t) in Under(I, leaf.sign, 0, k);
    var fork := Split(t, leaf, k, NodeAge(t));
    SplitFoundIff(t, leaf, k, NodeAge(t));
    SeekAfterWrite(n, leaf.sign, 0, k, fork);
    PathSame(n, leaf.sign, t.sign, 0, k, fork);
    SeekAfterWrite(n, t.sign, 0, k, fork);
    PrefixIsLowBits(t.sign, leaf.sign, 9);
  }

  // A stored record of another signature with the same low 54 bits.
  ghost predicate Clashes(q: seq<Record>, s: nat) {
    exists r :: r in q && r.sign != s && SamePrefix(r.sign, s, 9)
  }

  // A clash shows up as the leaf at which the walk stops.
  lemma ClashStopsAtLeaf(n: Node, q: seq<Item>, s: nat, k: nat)
    requires Represents(n, ItemSet(q), 0) && Distinct54(ItemSet(q))
    requires Seek(n, s, 0) == Some(k)
    ensures OnPath(n, s, 0, k) && k <= 9
    ensures var m := At(n, s, 0, k);
            Clashes(Records(q), s) <==> m.Leaf? && m.sign != s && SamePrefix(m.sign, s, 9)
  {
    hide Bit, Rank, Digit, GetKind, GetAge, GetSize;
    SeekPath(n, s, 0);
    var I := ItemSet(q);
    AtRepresents(n, I, s, 0, k);
    var m, U := At(n, s, 0, k), Under(I, s, 0, k);
    if m.Branch? {
      assert Sub(U, k, Digit(s, k)) == {};
      forall it | it in U
        ensures Digit(it.rec.sign, k) != Digit(s, k)
      {
        SubOf(U, k, it);
      }
      BranchShallow(n, I, s, k);
    }
    ClashIsLeaf(q, m, U, s, k);
  }

  // Among the entries under a path that the walk of s follows.
  lemma ClashIsLeaf(q: seq<Item>, m: Node, U: set<Item>, s: nat, k: nat)
    requires k <= 9 && U == Under(ItemSet(q), s, 0, k)
    requires if m.Leaf? then U == {ItemOf(m)} else k < 9 && forall it :: it in U ==>
             Digit(it.rec.sign, k) != Digit(s, k)
    ensures Clashes(Records(q), s) <==> m.Leaf? && m.sign != s && SamePrefix(m.sign, s, 9)
  {
    hide Digit, GetKind, GetAge, GetSize;
    if Clashes(Records(q), s) {
      var r :| r in Records(q) && r.sign != s && SamePrefix(r.sign, s, 9);
      var i :| 0 <= i < |q| && Records(q)[i] == r;
      assert q[i] in U;
    }
    if m.Leaf? {
      assert ItemOf(m) in U;
      var i :| 0 <= i < |q| && q[i] == ItemOf(m);
      assert Records(q)[i] in Records(q);
    }
  }

  lemma BranchShallow(n: Node, I: set<Item>, s: nat, k: nat)
    requires Represents(n, I, 0) && Distinct54(I) && OnPath(n, s, 0, k) && At(n, s, 0, k).Branch?
    ensures k < 9
  {
    hide Bit, Rank, Digit;
    AtRepresents(n, I, s, 0, k);
    var m, U := At(n, s, 0, k), Under(I, s, 0, k);
    RepresentsIsStale(m, U, s, k);
    assert Cohesive(U, k);
    assert Distinct54(U);
    if k >= 9 { DeepIsLeaf(m, U, s, k); }
  }

  // ---- lemmas about walks on a trie with stale ages ----

  lemma OpenStale(n: Node, I: set<Item>, s: nat, d: nat)
    requires Stale(n, I, s, d)
    ensures n.Branch? ==> Packed(n) && |n.kids| > 0
  {
    hide Bit, Rank, Represents, Digit;
    if n.Branch? {
      var it, y :| it in I && y in I && it != y;
      SubOf(I, d, it);
      KidIndex(n, Digit(it.rec.sign, d));
    }
  }

  // The path with the nodes from depth k on aged.
  ghost predicate AgedFrom(n: Node, was: Node, s: nat, k: nat)
    requires OnPath(was, s, 0, k)
  {
    n == Write(was, s, 0, k, Aged(At(was, s, 0, k), s, k))
  }

  lemma AgedStop(was: Node, s: nat, k: nat)
    requires OnPath(was, s, 0, k)
    requires var m := At(was, s, 0, k); m.Branch? ==> Packed(m) && |m.kids| > 0 && !Bit(m.bitmap, Digit(s, k))
    ensures var m := At(was, s, 0, k);
            AgedFrom(if m.Leaf? then was else Write(was, s, 0, k, WithMinAge(m)), was, s, k)
  {
    hide Bit, Rank, Digit, Write, WithMinAge;
    WriteBack(was, s, 0, k);
  }

  lemma AgedUp(n: Node, was: Node, s: nat, k: nat)
    requires OnPath(was, s, 0, k + 1) && AgedFrom(n, was, s, k + 1)
    ensures OnPath(was, s, 0, k) && OnPath(n, s, 0, k)
    ensures var m := At(n, s, 0, k);
            && m.Branch? && Packed(m) && |m.kids| > 0
            && AgedFrom(Write(n, s, 0, k, WithMinAge(m)), was, s, k)
  {
    hide Bit, Rank, Digit, WithMinAge, Aged;
    var a := Aged(At(was, s, 0, k + 1), s, k + 1);
    WriteAt(was, s, 0, k, k + 1, a);
    var b := At(was, s, 0, k);
    assert OnPath(b, s, k, k + 1);
    assert At(b, s, k, k + 1) == At(was, s, 0, k + 1);
    KidIndex(b, Digit(s, k));
    AgedStep(b, s, k);
    var w := Write(b, s, k, k + 1, a);
    WriteWrite(was, s, 0, k, w, WithMinAge(w));
  }

  lemma PopCountPrefix(kids: seq<Node>, j: nat)
    requires 0 < j < |kids|
    ensures var n := NodeAge(kids[j]);
            MinAgeOf(kids[..j + 1]) == if n < MinAgeOf(kids[..j]) then n else MinAgeOf(kids[..j])
  {
    assert kids[..j + 1][..j] == kids[..j];
  }

  // The smallest age among the children.
  method ScanAges(n: Node) returns (minAge: nat)
    requires n.Branch? && Packed(n) && |n.kids| > 0
    ensures minAge == MinAgeOf(n.kids)
  {
    hide Bit, Rank, NodeAge;
    var total := ComputeBits(n.bitmap);
    TotalBits(n);
    minAge := NodeAge(n.kids[0]);
    var j := 1;
    while j < total
      invariant 1 <= j <= total == |n.kids|
      invariant minAge == MinAgeOf(n.kids[..j])
    {
      PopCountPrefix(n.kids, j);
      var age := NodeAge(n.kids[j]);
      if age < minAge {
        minAge := age;
      }
      j := j + 1;
    }
    assert n.kids[..j] == n.kids;
  }

  lemma MinAgeUnfold(n: Node)
    requires n.Branch? && |n.kids| > 0
    ensures WithMinAge(n) == n.(age := MinAgeOf(n.kids))
  {
  }

  // ---- the split, written node by node ----

  // What is left to write once the chain has reached depth i.
  lemma ChainStep(n: Node, s: nat, i: nat, t: Node, leaf: Node, age: nat)
    requires i < 10 && OnPath(n, s, 0, i) && t.Leaf? && leaf.Leaf? && leaf.sign == s
    requires Digit(t.sign, i) == Digit(s, i)
    ensures var link := Branch(Pow2(Digit(t.sign, i)), false, [t], age);
            var n' := Write(n, s, 0, i, link);
            && OnPath(n', s, 0, i + 1)
            && Write(n', s, 0, i + 1, Split(t, leaf, i + 1, age)) == Write(n, s, 0, i, Split(t, leaf, i, age))
  {
    hide Bit, Rank, Digit, Pow2, Fork;
    var e := Digit(t.sign, i);
    var link := Branch(Pow2(e), false, [t], age);
    OneBit(e);
    WriteWrite(n, s, 0, i, link, link);
    var n' := Write(n, s, 0, i, link);
    WriteAt(n, s, 0, i, i, link);
    assert At(n', s, 0, i) == link;
    PathExtends(n', s, 0, i);
    var rest := Split(t, leaf, i + 1, age);
    WriteAt(n', s, 0, i, i + 1, rest);
    assert Write(link, s, i, i + 1, rest) == WithKid(link, e, rest);
    ChainLink(e, t, rest, age);
    WriteWrite(n, s, 0, i, link, Split(t, leaf, i, age));
  }

  lemma ChainLink(e: nat, t: Node, rest: Node, age: nat)
    requires e < 64
    ensures var link := Branch(Pow2(e), false, [t], age);
            Packed(link) && Bit(link.bitmap, e) && WithKid(link, e, rest) == Branch(Pow2(e), false, [rest], age)
  {
    hide Bit, Rank, Pow2;
    OneBit(e);
  }

  lemma SplitStops(t: Node, x: Node, i: nat, age: nat)
    requires t.Leaf? && x.Leaf? && i <= 10
    requires i < 10 ==> Digit(t.sign, i) != Digit(x.sign, i)
    ensures var last := if i < 10 then i else 9;
            Split(t, x, i, age) == Fork(t, x, Digit(t.sign, last), Digit(x.sign, last), age)
  {
    hide Digit, Fork;
  }

  // ---- taking an entry out ----

  // Where the uncle pointer stands while the walk's last branch is at depth p:
  // every branch from the uncle down to p has one child, so all entries under
  // the uncle lie under p, and above the uncle another entry branches off.
  ghost predicate UncleOf(I: set<Item>, s: nat, u: nat, p: nat) {
    && u <= p
    && Under(I, s, 0, u) == Under(I, s, 0, p)
    && (u > 0 ==> exists z :: z in Under(I, s, 0, u - 1) && z !in Under(I, s, 0, u))
  }

  lemma UncleStart(I: set<Item>, s: nat)
    ensures UncleOf(I, s, 0, 0)
  {
  }

  lemma UncleStep(n: Node, I: set<Item>, s: nat, u: nat, p: nat)
    requires Represents(n, I, 0) && OnPath(n, s, 0, p + 1) && UncleOf(I, s, u, p)
    ensures OnPath(n, s, 0, p) && At(n, s, 0, p).Branch? && Packed(At(n, s, 0, p)) && |At(n, s, 0, p).kids| > 0
    ensures UncleOf(I, s, if |At(n, s, 0, p).kids| > 1 then p + 1 else u, p + 1)
  {
    hide Bit, Rank, Digit, Represents, TwoItems, AgreesWith, Sub;
    ParentTwo(n, I, s, p + 1);
    AtRepresents(n, I, s, 0, p);
    var m, U := At(n, s, 0, p), Under(I, s, 0, p);
    OpenNode(m, U, p);
    UnderExtend(I, s, p);
    if |m.kids| > 1 {
      var z := NotOnlyKid(m, U, p, Digit(s, p));
    } else {
      OnlyKid(m, U, p, Digit(s, p));
    }
  }

  // The parent keeps at least two other entries: its child is dropped.
  lemma DropAtParent(n: Node, I: set<Item>, s: nat, p: nat, x: Item)
    requires Represents(n, I, 0) && OnPath(n, s, 0, p + 1) && x.rec.sign == s
    requires Under(I, s, 0, p + 1) == {x}
    requires OnPath(n, s, 0, p) && At(n, s, 0, p).Branch? && Packed(At(n, s, 0, p))
             && Bit(At(n, s, 0, p).bitmap, Digit(s, p))
    requires var m := At(n, s, 0, p);
             |m.kids| > 2 || (|m.kids| == 2 && Rank(m.bitmap, Digit(s, p)) < 2
                              && m.kids[1 - Rank(m.bitmap, Digit(s, p))].Branch?)
    ensures Stale(Write(n, s, 0, p, DropKid(At(n, s, 0, p), Digit(s, p))), I - {x}, s, 0)
  {
    hide Bit, Rank, Digit, Represents, Stale, TwoItems, DropKid, Write, Packed;
    var m, U := At(n, s, 0, p), Under(I, s, 0, p);
    AtRepresents(n, I, s, 0, p);
    UnderExtend(I, s, p);
    if |m.kids| > 2 {
      ManyKids(m, U, p, x);
    } else {
      BranchSibling(m, U, p, x);
    }
    DropStale(m, U, s, p, x);
    RepresentsIsStale(n, I, s, 0);
    var J := U - {x};
    assert J == Under(J, s, 0, p);
    TwoIsSome(J);
    assert x in Under(I, s, 0, p + 1);
    assert I - U + J == I - {x};
    if p > 0 {
      UnderExtend(I, s, p - 1);
      TwoSpread(J, Under(I, s, 0, p - 1) - U + J);
    }
    WriteStale(n, I, s, 0, p, DropKid(m, Digit(s, p)), J);
  }

  // The sibling leaf takes the place of the uncle.
  lemma CollapseToUncle(n: Node, I: set<Item>, s: nat, u: nat, p: nat, x: Item)
    requires Represents(n, I, 0) && OnPath(n, s, 0, p + 1) && x.rec.sign == s
    requires Under(I, s, 0, p + 1) == {x} && UncleOf(I, s, u, p)
    requires OnPath(n, s, 0, p) && At(n, s, 0, p).Branch? && Packed(At(n, s, 0, p))
             && Bit(At(n, s, 0, p).bitmap, Digit(s, p))
    requires var m := At(n, s, 0, p);
             |m.kids| == 2 && Rank(m.bitmap, Digit(s, p)) < 2 && m.kids[1 - Rank(m.bitmap, Digit(s, p))].Leaf?
    ensures OnPath(n, s, 0, u)
    ensures var m := At(n, s, 0, p);
            Stale(Write(n, s, 0, u, m.kids[1 - Rank(m.bitmap, Digit(s, p))]), I - {x}, s, 0)
  {
    hide Bit, Rank, Digit, Represents, Stale, TwoItems, Write, Packed, GetKind, GetAge, GetSize;
    var m, U := At(n, s, 0, p), Under(I, s, 0, p);
    AtRepresents(n, I, s, 0, p);
    UnderExtend(I, s, p);
    LeafSibling(m, U, p, x);
    var leaf := m.kids[1 - Rank(m.bitmap, Digit(s, p))];
    var y := ItemOf(leaf);
    LeafRepresents(leaf, u);
    RepresentsIsStale(leaf, {y}, s, u);
    RepresentsIsStale(n, I, s, 0);
    WriteAt(n, s, 0, u, p, m);
    assert y in Under(I, s, 0, u);
    assert {y} == Under({y}, s, 0, u);
    assert I - U + {y} == I - {x};
    if u > 0 {
      var z :| z in Under(I, s, 0, u - 1) && z !in Under(I, s, 0, u);
      var V := Under(I, s, 0, u - 1) - U + {y};
      assert z in V && y in V;
      assert TwoItems(V) by { TwoFrom(V, y, z); }
    }
    WriteStale(n, I, s, 0, u, leaf, {y});
  }

  lemma TwoFrom(V: set<Item>, y: Item, z: Item)
    requires y in V && z in V && y != z
    ensures TwoItems(V)
  {
  }

  // Everything the caller of a removal needs to know about the ages.
  lemma RemovedRepresents(n: Node, I: set<Item>, s: nat)
    requires Stale(n, I, s, 0) && Distinct54(I)
    ensures Represents(Aged(n, s, 0), I, 0)
  {
    AgedRepresents(n, I, s, 0);
  }

  lemma LessDistinct(I: set<Item>, J: set<Item>)
    requires Distinct54(I) && J <= I
    ensures Distinct54(J)
  {
  }

  // The parent of a leaf has another child.
  lemma OneKidNot(n: Node, I: set<Item>, s: nat, p: nat, x: Item)
    requires Represents(n, I, 0) && OnPath(n, s, 0, p + 1) && Under(I, s, 0, p + 1) == {x}
    ensures OnPath(n, s, 0, p) && At(n, s, 0, p).Branch? && |At(n, s, 0, p).kids| > 1
  {
    hide Bit, Rank, Digit, Represents;
    ParentTwo(n, I, s, p + 1);
    AtRepresents(n, I, s, 0, p);
    OpenNode(At(n, s, 0, p), Under(I, s, 0, p), p);
    UnderExtend(I, s, p);
    if |At(n, s, 0, p).kids| == 1 {
      OnlyKid(At(n, s, 0, p), Under(I, s, 0, p), p, Digit(s, p));
      OneIsNotTwo(Under(I, s, 0, p), x);
    }
  }

  // The bit of a signature's digit in a branch, and the slot it ranks to.
  method SlotOf(n: Node, sign: nat, depth: nat) returns (k: nat, start: nat, total: nat)
    requires n.Branch? && Packed(n)
    ensures k == Pow2(Digit(sign, depth)) && start == Rank(n.bitmap, Digit(sign, depth)) && total == |n.kids|
    ensures start <= total
  {
    hide Bit, Rank, Pow2, Shl, Shr, And, Digit, ComputeBits;
    var j := Shl(63, 6 * depth);
    var dice := Shr(And(sign, j), depth * 6);
    DiceIsDigit(sign, depth);
    k := Shl(1, dice);
    ShlOne(dice);
    var m := And(k - 1, n.bitmap);
    AndBelow(k - 1, n.bitmap);
    ComputeBitsIsPopCount(m);
    PopCountUnderMask(n.bitmap, dice);
    RankMonotone(n.bitmap, dice, 64);
    TotalBits(n);
    start := ComputeBits(m);
    total := ComputeBits(n.bitmap);
  }

  // One slot opened in a child array, later children moved up.
  method OpenSlot(set_: seq<Node>, start: nat, leaf: Node) returns (kids: seq<Node>)
    requires start <= |set_|
    ensures kids == set_[..start] + [leaf] + set_[start..]
  {
    kids := set_ + [leaf];
    var i := |set_|;
    while i > start
      invariant start <= i <= |set_| == |kids| - 1
      invariant kids[..i] == set_[..i]
      invariant kids[i + 1..] == set_[i..]
    {
      kids := kids[i := kids[i - 1]];
      i := i - 1;
    }
    kids := kids[start := leaf];
  }

  // One slot closed, later children moved down.
  method CloseSlot(set_: seq<Node>, start: nat) returns (kids: seq<Node>)
    requires start < |set_|
    ensures kids == set_[..start] + set_[start + 1..]
  {
    kids := set_;
    var i := start + 1;
    while i < |set_|
      invariant start + 1 <= i <= |set_| == |kids|
      invariant kids[..i - 1] == set_[..start] + set_[start + 1..i]
      invariant kids[i..] == set_[i..]
    {
      assert kids[i] == set_[i] by { assert kids[i..][0] == set_[i..][0]; }
      ghost var moved := kids[..i - 1];
      kids := kids[i - 1 := kids[i]];
      assert kids[..i] == moved + [set_[i]];
      assert set_[start + 1..i + 1] == set_[start + 1..i] + [set_[i]];
      i := i + 1;
    }
    kids := kids[..|set_| - 1];
  }

  lemma OneLeft(q: seq<Item>, x: Item)
    requires Ordered(q) && ItemSet(q) == {x}
    ensures q == [x]
  {
    assert x in ItemSet(q);
    assert |q| > 1 ==> q[0].age < q[1].age;
    forall j | 0 <= j < |q|
      ensures q[j] == x
    {
      assert q[j] in ItemSet(q);
    }
  }

  // What removing the i-th entry does to the bookkeeping.
  lemma RemoveBooks(q: seq<Item>, i: nat, age: nat)
    requires i < |q| && Ordered(q) && Bounded(q, age) && Distinct54(ItemSet(q))
    ensures Ordered(RemoveAt(q, i)) && Bounded(RemoveAt(q, i), age) && Distinct54(ItemSet(RemoveAt(q, i)))
    ensures ItemSet(RemoveAt(q, i)) == ItemSet(q) - {q[i]}
    ensures Records(RemoveAt(q, i)) == RemoveAt(Records(q), i)
    ensures Total(Records(q)) == Total(Records(RemoveAt(q, i))) + q[i].rec.size
  {
    hide Total, Objects, SamePrefix;
    RemoveItems(q, i);
    RemoveParts(Records(q), i);
  }

  lemma SignsDiffer(I: set<Item>, x: Item, y: Item)
    requires Distinct54(I) && x in I && y in I && x.rec.sign == y.rec.sign
    ensures x == y
  {
    SamePrefixSelf(x.rec.sign);
  }

  lemma PathStart(n: Node, s: nat)
    ensures OnPath(n, s, 0, 0) && At(n, s, 0, 0) == n
  {
  }

  // ---- the oldest entry ----

  method FindAge(n: Node, minAge: nat) returns (j: nat)
    requires n.Branch? && Packed(n)
    requires exists i :: 0 <= i < |n.kids| && NodeAge(n.kids[i]) == minAge
    requires forall i :: 0 <= i < |n.kids| ==> NodeAge(n.kids[i]) >= minAge
    ensures j < |n.kids| && NodeAge(n.kids[j]) == minAge
  {
    hide NodeAge, ComputeBits;
    var total := ComputeBits(n.bitmap);
    TotalBits(n);
    j := 0;
    while j < total
      invariant j <= total == |n.kids|
      invariant forall i :: 0 <= i < j ==> NodeAge(n.kids[i]) != minAge
    {
      var age := NodeAge(n.kids[j]);
      assert age >= minAge;
      if age == minAge {
        break;
      }
      j := j + 1;
    }
  }

  // Descending by the smallest age reaches the entry whose age is smallest of all.
  method OldestLeaf(origin: Node, ghost I: set<Item>) returns (branch: Node)
    requires Represents(origin, I, 0) && Distinct54(I)
    ensures branch.Leaf? && ItemOf(branch) in I
    ensures forall it :: it in I ==> ItemOf(branch).age <= it.age
  {
    hide Bit, Rank, Digit, SamePrefix, Represents, Stale, GetKind, GetAge, GetSize, Sub, Cohesive, Distinct54;
    branch := origin;
    NodeAgeIsMin(origin, I, 0);
    var minAge := NodeAge(origin);
    CohesiveRoot(I);
    ghost var J := I;
    var i := 0;
    while i < 10
      invariant i <= 9 && J <= I
      invariant Represents(branch, J, i) && Cohesive(J, i) && Distinct54(J)
      invariant NodeAge(branch) == minAge && IsMinAge(I, minAge)
    {
      if branch.Leaf? {
        break;
      }
      ShallowBranch(branch, J, i);
      AllKidsOlder(branch, J, i);
      var j := FindAge(branch, minAge);
      ghost var e := KidAt(branch, j);
      StepDown(branch, J, i, e);
      branch := branch.kids[j];
      J := Sub(J, i, e);
      i := i + 1;
    }
    LeafIs(branch, J, i);
    assert ItemOf(branch) in J;
  }

  lemma ShallowBranch(n: Node, I: set<Item>, d: nat)
    requires n.Branch? && Represents(n, I, d) && Cohesive(I, d) && Distinct54(I)
    ensures Packed(n) && d < 9
  {
    hide Bit, Rank, Digit, SamePrefix;
    OpenDigits(n, I, d);
    if d >= 9 {
      RepresentsIsStale(n, I, 0, d);
      DeepIsLeaf(n, I, 0, d);
    }
  }

  lemma AllKidsOlder(n: Node, I: set<Item>, d: nat)
    requires n.Branch? && Represents(n, I, d)
    ensures forall j :: 0 <= j < |n.kids| ==> NodeAge(n.kids[j]) >= NodeAge(n)
    ensures exists j :: 0 <= j < |n.kids| && NodeAge(n.kids[j]) == NodeAge(n)
  {
    hide Represents;
    OldestKid(n, I, d, 0);
    forall j | 0 <= j < |n.kids|
      ensures NodeAge(n.kids[j]) >= NodeAge(n)
    {
      OldestKid(n, I, d, j);
    }
  }

  lemma StepDown(n: Node, I: set<Item>, d: nat, e: nat)
    requires n.Branch? && Represents(n, I, d) && Cohesive(I, d) && Distinct54(I)
    requires Packed(n) && e < 64 && Bit(n.bitmap, e)
    ensures Represents(Kid(n, e), Sub(I, d, e), d + 1)
    ensures Cohesive(Sub(I, d, e), d + 1) && Distinct54(Sub(I, d, e)) && Sub(I, d, e) <= I
  {
    hide Bit, Rank, Digit, SamePrefix;
    CohesiveSub(I, d, e);
  }

  lemma OldestFirst(q: seq<Item>, x: Item)
    requires Ordered(q) && x in ItemSet(q) && forall it :: it in ItemSet(q) ==> x.age <= it.age
    ensures |q| > 0 && x == q[0]
    ensures IndexOf(Records(q), x.rec.sign) == 0
  {
    assert forall j :: 0 < j < |q| ==> q[0].age < q[j].age;
    var i :| 0 <= i < |q| && q[i] == x;
    assert q[0] in ItemSet(q);
    assert Records(q)[0] == x.rec;
  }

  lemma DropFirst(q: seq<Item>)
    requires |q| > 0
    ensures RemoveAt(q, 0) == q[1..] && Records(q[1..]) == Records(q)[1..]
    ensures RemoveAt(Records(q), 0) == Records(q)[1..]
    ensures Records(q)[0] == q[0].rec
  {
  }

  // ---- eviction ----

  // One more of the oldest entries gone.
  ghost predicate EvictedBy(q: seq<Item>, q0: seq<Item>, n: nat) {
    n <= |q0| && q == q0[n..]
  }

  lemma EvictOne(q: seq<Item>, q0: seq<Item>, n: nat, limit: nat)
    requires EvictedBy(q, q0, n) && Total(Records(q)) > limit
    ensures |q| > 0 && EvictedBy(q[1..], q0, n + 1)
    ensures Excess(Records(q), limit) == 1 + Excess(Records(q[1..]), limit)
    ensures Objects(Records(q0)[..n + 1]) == Objects(Records(q0)[..n]) + Objects([q[0].rec])
    ensures Records(q0[n..]) == Records(q0)[n..]
  {
    hide Objects;
    assert q != [];
    DropFirst(q);
    ExcessOne(Records(q), limit);
    RecordsMore(q0, n);
    ObjectsConcat(Records(q0)[..n], [q[0].rec]);
  }

  lemma ExcessOne(rs: seq<Record>, limit: nat)
    requires |rs| > 0 && Total(rs) > limit
    ensures Excess(rs, limit) == 1 + Excess(rs[1..], limit)
  {
  }

  lemma RecordsMore(q: seq<Item>, n: nat)
    requires n < |q|
    ensures n < |Records(q)| && Records(q)[..n + 1] == Records(q)[..n] + [q[n].rec]
    ensures Records(q[n..]) == Records(q)[n..]
  {
  }

  lemma EvictDone(q: seq<Item>, q0: seq<Item>, n: nat, limit: nat)
    requires EvictedBy(q, q0, n) && Total(Records(q)) <= limit
    ensures Excess(Records(q), limit) == 0 && Records(q) == Records(q0)[n..]
  {
  }

  lemma DropBooks(q: seq<Item>, age: nat)
    requires |q| > 0 && Ordered(q) && Bounded(q, age) && Distinct54(ItemSet(q))
    ensures Total(Records(q)) == q[0].rec.size + Total(Records(q[1..]))
    ensures Objects([q[0].rec]) == NonNull(TokenOf(q[0].rec))
    ensures Ordered(q[1..]) && Bounded(q[1..], age) && Distinct54(ItemSet(q[1..]))
  {
    hide Objects, NonNull;
    DropFirst(q);
    RemoveBooks(q, 0, age);
    OneRecord(q[0].rec, []);
  }

  lemma OneTotal(q: seq<Item>)
    requires |q| == 1
    ensures Records(q[1..]) == [] && Total(Records(q[1..])) == 0 && q[1..] == []
  {
  }

  lemma NullToken(t: Token)
    ensures t.obj == 0 ==> NonNull(t) == multiset{}
  {
  }

  lemma LastBooks(q: seq<Item>, i: nat)
    requires |q| == 1 && i == 0
    ensures RemoveAt(q, i) == [] && Bounded(RemoveAt(q, i), 1) && 1 < Pow2(28)
  {
    hide Pow2;
    Pow2Values();
  }

  lemma HoldsBy(I: set<Item>, x: Item)
    requires x in I
    ensures Holds(I, x.rec.sign)
  {
  }

  // The entry that goes, and what is left of the queue without it.
  lemma OutBooks(q: seq<Item>, sign: nat, age: nat, x: Item)
    requires Ordered(q) && Bounded(q, age) && Distinct54(ItemSet(q)) && x in ItemSet(q) && x.rec.sign == sign
    ensures var i := IndexOf(Records(q), sign);
            && i < |q| && q[i] == x && |Records(q)| == |q| && Records(q)[i] == x.rec
            && Ordered(RemoveAt(q, i)) && Bounded(RemoveAt(q, i), age) && Distinct54(ItemSet(RemoveAt(q, i)))
            && ItemSet(RemoveAt(q, i)) == ItemSet(q) - {x}
            && Records(RemoveAt(q, i)) == RemoveAt(Records(q), i)
            && Total(Records(q)) == Total(Records(RemoveAt(q, i))) + x.rec.size
            && (ItemSet(q) == {x} ==> |RemoveAt(q, i)| == 0 && Bounded(RemoveAt(q, i), 1) && 1 < Pow2(28))
  {
    hide Total, Ordered, Bounded, Distinct54, ItemSet, Records, Holds, Pow2;
    IndexHolds(q, sign);
    HoldsBy(ItemSet(q), x);
    var i := IndexOf(Records(q), sign);
    SignsDiffer(ItemSet(q), x, q[i]);
    RemoveBooks(q, i, age);
    SameLength(q);
    if ItemSet(q) == {x} {
      OneLeft(q, x);
      LastBooks(q, i);
    }
  }

  lemma ShorterBy(q: seq<Item>, i: nat)
    requires i < |q|
    ensures |RemoveAt(q, i)| == |q| - 1
  {
  }

  lemma SameLength(q: seq<Item>)
    ensures |Records(q)| == |q|
  {
  }

  // ---- putting an entry in ----

  lemma GrowBooks(q: seq<Item>, x: Item, age: nat)
    requires Ordered(q) && Bounded(q, age) && Distinct54(ItemSet(q))
    requires age < x.age && x.rec.kind < 16 && x.rec.size < Pow2(32)
    requires forall it :: it in ItemSet(q) ==> !SamePrefix(it.rec.sign, x.rec.sign, 9)
    ensures Ordered(q + [x]) && Bounded(q + [x], x.age) && Distinct54(ItemSet(q + [x]))
    ensures ItemSet(q + [x]) == ItemSet(q) + {x} && Records(q + [x]) == Records(q) + [x.rec]
    ensures Total(Records(q + [x])) == Total(Records(q)) + x.rec.size
    ensures forall it :: it in ItemSet(q) ==> it.age <= x.age
  {
    hide Total, Objects, SamePrefix;
    AppendItems(q, x);
    AppendParts(Records(q), x.rec);
    SamePrefixSym(ItemSet(q), x);
  }

  lemma SamePrefixSym(I: set<Item>, x: Item)
    ensures forall it :: it in I ==>
            (SamePrefix(it.rec.sign, x.rec.sign, 9) <==> SamePrefix(x.rec.sign, it.rec.sign, 9))
  {
  }

  // No clash means every other stored signature parts within nine digits.
  lemma NoClash(q: seq<Item>, s: nat)
    requires !Clashes(Records(q), s)
    ensures forall it :: it in ItemSet(q) && it.rec.sign != s ==> !SamePrefix(it.rec.sign, s, 9)
  {
    hide SamePrefix;
    forall it | it in ItemSet(q) && it.rec.sign != s
      ensures !SamePrefix(it.rec.sign, s, 9)
    {
      var i :| 0 <= i < |q| && q[i] == it;
      assert Records(q)[i] in Records(q);
    }
  }

  lemma NewLeaf(rec: Record, age: nat)
    requires rec.kind < 16 && age < Pow2(28) && rec.size < Pow2(32)
    ensures var leaf := Leaf(rec.sign, rec.obj, SetTerminalType(rec.kind, age, rec.size));
            leaf.word <= MAX64 && ItemOf(leaf) == Item(rec, age)
  {
    hide *;
    Pow2Values();
    Pow2Monotone(28, 32);
    PackedExactly(rec.kind, age, rec.size);
    OpenItem(Leaf(rec.sign, rec.obj, SetTerminalType(rec.kind, age, rec.size)));
  }

  lemma OpenItem(n: Node)
    requires n.Leaf?
    ensures ItemOf(n) == Item(Record(n.sign, n.obj, GetKind(n.word), GetSize(n.word)), GetAge(n.word))
  {
  }

  lemma RecordsFrom(q: seq<Item>, n: nat)
    requires n <= |q|
    ensures Records(q[n..]) == Records(q)[n..]
  {
  }

  lemma RecordAt(q: seq<Item>, i: nat)
    requires i < |q|
    ensures Records(q)[i] == q[i].rec
  {
  }

  lemma OthersPart(q: seq<Item>, i: nat)
    requires i < |q| && Ordered(q) && Distinct54(ItemSet(q))
    ensures forall it :: it in ItemSet(RemoveAt(q, i)) ==> !SamePrefix(it.rec.sign, q[i].rec.sign, 9)
  {
    hide SamePrefix;
    RemoveItems(q, i);
    assert q[i] in ItemSet(q);
  }

  lemma NothingClashes(s: nat)
    ensures !Clashes([], s)
  {
  }

  // Where the walk stops, a branch lacks the digit.
  lemma StopNode(n: Node, I: set<Item>, s: nat, k: nat)
    requires Represents(n, I, 0) && Seek(n, s, 0) == Some(k)
    ensures OnPath(n, s, 0, k)
    ensures var m := At(n, s, 0, k); m.Branch? ==> Packed(m) && !Bit(m.bitmap, Digit(s, k))
  {
    hide Bit, Rank, Digit;
    SeekPath(n, s, 0);
    AtRepresents(n, I, s, 0, k);
  }

  lemma NotHeld(n: Node, q: seq<Item>, s: nat, k: nat)
    requires Represents(n, ItemSet(q), 0) && Seek(n, s, 0) == Some(k)
    requires OnPath(n, s, 0, k) && (At(n, s, 0, k).Leaf? ==> At(n, s, 0, k).sign != s)
    requires !Clashes(Records(q), s)
    ensures forall it :: it in ItemSet(q) ==> !SamePrefix(it.rec.sign, s, 9)
    ensures At(n, s, 0, k).Leaf? ==> !SamePrefix(At(n, s, 0, k).sign, s, 9)
  {
    hide Represents, SamePrefix, Seek, At, OnPath, GetKind, GetAge, GetSize, Clashes, Records, Digit, Bit;
    NoClash(q, s);
    SeekDecides(n, ItemSet(q), s);
    var m, U := At(n, s, 0, k), Under(ItemSet(q), s, 0, k);
    AtRepresents(n, ItemSet(q), s, 0, k);
    if m.Leaf? {
      LeafIs(m, U, k);
      assert ItemOf(m) in U;
    }
  }

  // ---- cleaning up ----

  // The entries in the order of the trie.
  ghost function Leaves(n: Node): seq<Item>
    decreases n, 1, 0
  {
    if n.Leaf? then [ItemOf(n)] else LeavesUpTo(n, |n.kids|)
  }

  ghost function LeavesUpTo(n: Node, j: nat): seq<Item>
    requires n.Branch? && j <= |n.kids|
    decreases n, 0, j
  {
    if j == 0 then [] else LeavesUpTo(n, j - 1) + Leaves(n.kids[j - 1])
  }

  ghost predicate NoDup(q: seq<Item>) {
    forall i, j :: 0 <= i < j < |q| ==> q[i] != q[j]
  }

  lemma {:induction false} LeavesRepresent(n: Node, I: set<Item>, d: nat)
    requires Represents(n, I, d)
    ensures NoDup(Leaves(n)) && ItemSet(Leaves(n)) == I
    decreases n, 1, 0
  {
    hide Bit, Rank, Digit, GetKind, GetAge, GetSize, Represents, ItemSet;
    if n.Leaf? {
      LeafIs(n, I, d);
      OneItem(ItemOf(n));
    } else {
      OpenDigits(n, I, d);
      LeavesOfKids(n, I, d, |n.kids|);
      forall it | it in I
        ensures Rank(n.bitmap, Digit(it.rec.sign, d)) < |n.kids|
      {
        SubOf(I, d, it);
        KidIndex(n, Digit(it.rec.sign, d));
      }
      assert ItemSet(Leaves(n)) == I;
    }
  }

  lemma OneItem(x: Item)
    ensures ItemSet([x]) == {x}
  {
  }

  lemma JoinItems(a: seq<Item>, b: seq<Item>)
    ensures ItemSet(a + b) == ItemSet(a) + ItemSet(b)
    ensures NoDup(a) && NoDup(b) && ItemSet(a) !! ItemSet(b) ==> NoDup(a + b)
  {
    if NoDup(a) && NoDup(b) && ItemSet(a) !! ItemSet(b) {
      forall i, j | 0 <= i < j < |a + b|
        ensures (a + b)[i] != (a + b)[j]
      {
        if i < |a| <= j {
          assert a[i] in ItemSet(a) && b[j - |a|] in ItemSet(b);
        }
      }
    }
  }

  // The entries in the first j children are those whose digit ranks below j.
  lemma {:induction false} LeavesOfKids(n: Node, I: set<Item>, d: nat, j: nat)
    requires n.Branch? && Represents(n, I, d) && Packed(n) && DigitsMatch(n, I, d) && j <= |n.kids|
    ensures NoDup(LeavesUpTo(n, j))
    ensures forall it :: it in ItemSet(LeavesUpTo(n, j)) <==> it in I && Rank(n.bitmap, Digit(it.rec.sign, d)) < j
    decreases n, 0, j
  {
    hide Bit, Rank, Digit, GetKind, GetAge, GetSize, ItemSet, NoDup, Leaves;
    if j == 0 {
      NoItems();
    } else {
      LeavesOfKids(n, I, d, j - 1);
      var e := KidAt(n, j - 1);
      KidRepresents(n, I, d, e);
      LeavesRepresent(n.kids[j - 1], Sub(I, d, e), d + 1);
      JoinItems(LeavesUpTo(n, j - 1), Leaves(n.kids[j - 1]));
      forall it | it in I
        ensures it in Sub(I, d, e) <==> Rank(n.bitmap, Digit(it.rec.sign, d)) == j - 1
      {
        SubOf(I, d, it);
        if Digit(it.rec.sign, d) != e { RanksDiffer(n.bitmap, e, Digit(it.rec.sign, d)); }
      }
    }
  }

  lemma NoItems()
    ensures ItemSet([]) == {} && NoDup([])
  {
  }

  lemma KidRepresents(n: Node, I: set<Item>, d: nat, e: nat)
    requires n.Branch? && Represents(n, I, d) && Packed(n) && e < 64 && Bit(n.bitmap, e)
    ensures Represents(Kid(n, e), Sub(I, d, e), d + 1)
  {
    hide Bit, Rank;
  }

  lemma NonEmptyItems(q: seq<Item>)
    ensures q != [] ==> ItemSet(q) != {}
  {
    if q != [] { assert q[0] in ItemSet(q); }
  }

  // Two lists of the same entries, none repeated, hold the same objects.
  lemma {:induction false} SameObjects(a: seq<Item>, b: seq<Item>)
    requires NoDup(a) && NoDup(b) && ItemSet(a) == ItemSet(b)
    ensures |a| == |b| && Objects(Records(a)) == Objects(Records(b))
    decreases |a|
  {
    hide Objects, NonNull;
    if a == [] {
      NonEmptyItems(b);
    } else {
      assert a[0] in ItemSet(a);
      var i :| 0 <= i < |b| && b[i] == a[0];
      var c := RemoveAt(b, i);
      RemoveUnique(b, i);
      RemoveUnique(a, 0);
      assert RemoveAt(a, 0) == a[1..];
      SameObjects(a[1..], c);
      RemoveParts(Records(a), 0);
      RemoveParts(Records(b), i);
      RecordsRemove(a, 0);
      RecordsRemove(b, i);
    }
  }

  lemma RecordsRemove(q: seq<Item>, i: nat)
    requires i < |q|
    ensures Records(RemoveAt(q, i)) == RemoveAt(Records(q), i)
  {
  }

  lemma RemoveUnique(q: seq<Item>, i: nat)
    requires i < |q| && NoDup(q)
    ensures NoDup(RemoveAt(q, i)) && ItemSet(RemoveAt(q, i)) == ItemSet(q) - {q[i]}
  {
    var r := RemoveAt(q, i);
    forall it | it in ItemSet(q) - {q[i]}
      ensures it in r
    {
      var j :| 0 <= j < |q| && q[j] == it;
      assert r[if j < i then j else j - 1] == it;
    }
  }

  ghost function Frees(q: seq<Item>): seq<Token> {
    seq(|q|, i requires 0 <= i < |q| => TokenOf(q[i].rec))
  }

  // A put at the clock 2^28, the first that no longer fits: a record of type 0 is
  // freed by the free function of type 1, and counts as older than all others.
  lemma LateClock(sign: nat, obj: nat, size: nat)
    requires size < Pow2(32)
    ensures var leaf := Leaf(sign, obj, SetTerminalType(0, Pow2(28), size));
            NodeAge(leaf) == 0 && Frees(Leaves(leaf)) == [Token(obj, 1)]
  {
    hide GetKind, GetAge, GetSize, SetTerminalType, Pow2;
    FirstSpill(size);
  }

  lemma {:induction false} ReleasedAll(log: seq<Token>, q: seq<Item>)
    ensures Released(log + Frees(q)) == Released(log) + Objects(Records(q))
  {
    hide Objects, NonNull, Released;
    if q == [] {
      EmptyParts();
      assert log + Frees(q) == log;
      assert Records(q) == [];
    } else {
      var front, x := q[..|q| - 1], q[|q| - 1];
      ReleasedAll(log, front);
      assert log + Frees(q) == (log + Frees(front)) + [TokenOf(x.rec)];
      ReleasedMore(log + Frees(front), TokenOf(x.rec));
      assert Records(q) == Records(front) + [x.rec];
      AppendParts(Records(front), x.rec);
      Assoc(Released(log), Objects(Records(front)), NonNull(TokenOf(x.rec)));
    }
  }

  lemma FreesJoin(a: seq<Item>, b: seq<Item>)
    ensures Frees(a + b) == Frees(a) + Frees(b)
  {
  }

  lemma NoFrees()
    ensures Frees([]) == []
  {
  }

  lemma OneFree(x: Item)
    ensures Frees([x]) == [TokenOf(x.rec)]
  {
  }

  lemma OrderedNoDup(q: seq<Item>)
    requires Ordered(q)
    ensures NoDup(q)
  {
  }

  lemma {:induction false} RepresentsSound(n: Node, I: set<Item>, d: nat)
    requires Represents(n, I, d)
    ensures Sound(n)
    decreases n
  {
    hide Bit, Rank, Digit;
    if n.Branch? {
      OpenNode(n, I, d);
      forall i: nat | i < |n.kids|
        ensures Sound(n.kids[i])
      {
        var e := KidAt(n, i);
        RepresentsSound(Kid(n, e), Sub(I, d, e), d + 1);
      }
    }
  }

  // On the trie of a list, a look-up gives what the list holds.
  lemma LookUpDecides(n: Node, q: seq<Item>, s: nat)
    requires Represents(n, ItemSet(q), 0) && Distinct54(ItemSet(q))
    ensures LookUp(n, s, 0) ==
            (var i := IndexOf(Records(q), s); if i < |q| then Answer(q[i].rec.obj, q[i].rec.kind) else Nothing)
  {
    hide Bit, Rank, Digit, Represents, Stale, SamePrefix, GetKind, GetAge, GetSize, LookUp;
    var I := ItemSet(q);
    LookUpSeeks(n, s, 0);
    CohesiveRoot(I);
    RepresentsIsStale(n, I, s, 0);
    SeekSucceeds(n, I, s, 0);
    SeekDecides(n, I, s);
    IndexHolds(q, s);
    var i := IndexOf(Records(q), s);
    if i < |q| { assert q[i] in I && Records(q)[i] == q[i].rec; }
  }

  // A walk that leaves the path of a write is not touched by it.
  lemma {:induction false} LookUpElsewhere(n: Node, s: nat, r: nat, d: nat, k: nat, new_: Node)
    requires d <= k <= 10 && OnPath(n, s, d, k) && !AgreesWith(r, s, d, k)
    ensures LookUp(Write(n, s, d, k, new_), r, d) == LookUp(n, r, d)
    decreases k - d
  {
    hide Bit, Digit, GetKind;
    if Digit(r, d) == Digit(s, d) {
      LookUpElsewhere(Kid(n, Digit(s, d)), s, r, d + 1, k, new_);
    }
  }

  // What a put leaves behind when its signature clashes with a stored one: a
  // trie that can be walked, in which neither of the two is found and every
  // other record still is.
  ghost predicate Clashed(n: Node, q: seq<Record>, s: nat) {
    && Walkable(n, 0) && Seek(n, s, 0).None? && LookUp(n, s, 0) == Nothing
    && (forall r :: r in q && SamePrefix(r.sign, s, 9) ==> Seek(n, r.sign, 0).None? && LookUp(n, r.sign, 0) == Nothing)
    && (forall r :: r in q && !SamePrefix(r.sign, s, 9) ==> LookUp(n, r.sign, 0) == Answer(r.obj, r.kind))
  }

  lemma ClashLeaves(n: Node, q: seq<Item>, s: nat, k: nat, leaf: Node)
    requires Represents(n, ItemSet(q), 0) && Distinct54(ItemSet(q)) && OnPath(n, s, 0, k) && k <= 9
    requires leaf.Leaf? && leaf.sign == s && At(n, s, 0, k).Leaf?
    requires var t := At(n, s, 0, k); t.sign != s && SamePrefix(t.sign, s, 9)
    ensures var t := At(n, s, 0, k); Clashed(Write(n, s, 0, k, Split(t, leaf, k, NodeAge(t))), Records(q), s)
  {
    hide Bit, Rank, Digit, Represents, Write, Split, And, Pow2, GetKind, GetAge, GetSize, Walkable, LookUp, SamePrefix,
      Under, Sub, Seek, OnPath, At, Distinct54;
    var I, t := ItemSet(q), At(n, s, 0, k);
    var n' := Write(n, s, 0, k, Split(t, leaf, k, NodeAge(t)));
    RepresentsWalkable(n, I, 0);
    SplitWalkable(t, leaf, k, NodeAge(t));
    WalkableWrite(n, s, 0, k, Split(t, leaf, k, NodeAge(t)));
    StoredFoundIff(n, I, k, leaf);
    PrefixIsLowBits(t.sign, s, 9);
    LookUpSeeks(n', s, 0);
    LookUpSeeks(n', t.sign, 0);
    AtRepresents(n, I, s, 0, k);
    LeafIs(t, Under(I, s, 0, k), k);
    forall r | r in Records(q)
      ensures SamePrefix(r.sign, s, 9) ==> Seek(n', r.sign, 0).None? && LookUp(n', r.sign, 0) == Nothing
      ensures !SamePrefix(r.sign, s, 9) ==> LookUp(n', r.sign, 0) == Answer(r.obj, r.kind)
    {
      var i :| 0 <= i < |q| && Records(q)[i] == r;
      OtherRecord(n, q, i, s, k, t, Split(t, leaf, k, NodeAge(t)));
    }
  }

  lemma OtherRecord(n: Node, q: seq<Item>, i: nat, s: nat, k: nat, t: Node, new_: Node)
    requires Represents(n, ItemSet(q), 0) && Distinct54(ItemSet(q)) && OnPath(n, s, 0, k) && k <= 9 && i < |q|
    requires t.Leaf? && Under(ItemSet(q), s, 0, k) == {ItemOf(t)} && SamePrefix(t.sign, s, 9)
    ensures if SamePrefix(q[i].rec.sign, s, 9) then q[i].rec.sign == t.sign
            else LookUp(Write(n, s, 0, k, new_), q[i].rec.sign, 0) == Answer(q[i].rec.obj, q[i].rec.kind)
  {
    hide Bit, Rank, Digit, Represents, Write, GetKind, GetAge, GetSize, LookUp;
    var I, x := ItemSet(q), q[i];
    assert x in I && ItemOf(t) in Under(I, s, 0, k);
    if x == ItemOf(t) {
    } else {
      assert !SamePrefix(x.rec.sign, t.sign, 9);
      assert x !in Under(I, s, 0, k);
      LookUpElsewhere(n, s, x.rec.sign, 0, k, new_);
      LookUpDecides(n, q, x.rec.sign);
      SignIndex(q, i);
    }
  }

  // No two entries of the list have one signature.
  lemma SignIndex(q: seq<Item>, i: nat)
    requires Distinct54(ItemSet(q)) && i < |q|
    ensures var j := IndexOf(Records(q), q[i].rec.sign); j < |q| && q[j] == q[i]
  {
    hide Digit;
    var j := IndexOf(Records(q), q[i].rec.sign);
    assert Records(q)[i].sign == q[i].rec.sign;
    assert q[j] in ItemSet(q) && q[i] in ItemSet(q) && Records(q)[j] == q[j].rec;
    SamePrefixSelf(q[i].rec.sign);
  }

  class Cache {
    var origin: Node
    var rnum: nat
    var age: nat
    const up: nat
    var size: nat
    // The calls made to the free functions, in order.
    var freed: seq<Token>
    ghost var queue: seq<Item>
    ghost var accepted: multiset<Token>
    ghost var handed: multiset<Token>

    // The trie is canonical for the stored records, whose ages strictly
    // increase in the order of their last put.
    ghost predicate Valid()
      reads this
    {
      && rnum == |queue|
      && size == Total(Records(queue)) && size <= up
      && age < Pow2(28)
      && Ordered(queue) && Bounded(queue, age)
      && Distinct54(ItemSet(queue))
      && (rnum > 0 ==> Represents(origin, ItemSet(queue), 0))
    }

    ghost function Spec(): State
      reads this
    {
      State(Records(queue), up, accepted, Released(freed), handed)
    }

    constructor (up: nat)
      ensures Valid() && Spec() == Empty(up) && age == 0
    {
      hide Pow2, Represents;
      this.up := up;
      origin := Leaf(0, 0, 0);
      rnum, age, size := 0, 0, 0;
      freed := [];
      queue, accepted, handed := [], multiset{}, multiset{};
      new;
      Pow2Values();
    }

    // Also defined on a trie that a clash has left behind.
    method Get(sign: nat) returns (result: nat, kind: nat)
      requires Valid() || (rnum > 0 ==> Walkable(origin, 0))
      ensures Answer(result, kind) == if rnum == 0 then Nothing else LookUp(origin, sign, 0)
      ensures Valid() ==> Answer(result, kind) == GetReply(Spec(), sign)
    {
      hide Walkable, Represents, LookUp, GetKind;
      if rnum == 0 {
        return 0, 0;
      }
      if Valid() {
        RepresentsWalkable(origin, ItemSet(queue), 0);
        LookUpDecides(origin, queue, sign);
      }
      LookUpSeeks(origin, sign, 0);
      var branch, depth := SeekNode(origin, sign);
      if branch.None? {
        return 0, 0;
      }
      if !branch.value.Leaf? {
        return 0, 0;
      }
      if branch.value.sign != sign {
        return 0, 0;
      }
      return branch.value.obj, GetKind(branch.value.word);
    }

    // Ages recomputed along a path: down to where the walk stops, then back up.
    method Aging(sign: nat, ghost I: set<Item>)
      requires Stale(origin, I, sign, 0) && Distinct54(I)
      modifies `origin
      ensures origin == Aged(old(origin), sign, 0)
    {
      hide Bit, Rank, Pow2, Shl, Shr, And, Digit, SamePrefix, Represents, Stale, Aged, WithMinAge, ComputeBits;
      ghost var origin0 := origin;
      var branch, i, j := origin, 0, 63;
      NextMask(0);
      CohesiveRoot(I);
      SeekSucceeds(origin, I, sign, 0);
      SeekPath(origin, sign, 0);
      while i < 10
        invariant origin == origin0 && i <= 10 && j == Shl(63, 6 * i)
        invariant OnPath(origin, sign, 0, i) && branch == At(origin, sign, 0, i)
        invariant Seek(origin, sign, 0) == Seek(branch, sign, i)
      {
        if branch.Leaf? {
          break;
        }
        AtStale(origin, I, sign, 0, i);
        OpenStale(branch, Under(I, sign, 0, i), sign, i);
        var dice := Shr(And(sign, j), i * 6);
        DiceIsDigit(sign, i);
        var next := ChildOf(branch, dice);
        if next.None? {
          break;
        }
        PathExtends(origin, sign, 0, i);
        branch := next.value;
        NextMask(i);
        j := Shl(j, 6);
        i := i + 1;
      }
      AtStale(origin, I, sign, 0, i);
      OpenStale(branch, Under(I, sign, 0, i), sign, i);
      AgedStop(origin0, sign, i);
      if branch.Branch? {
        var minAge := ScanAges(branch);
        MinAgeUnfold(branch);
        origin := Write(origin, sign, 0, i, branch.(age := minAge));
      }
      while i > 0
        invariant OnPath(origin0, sign, 0, i) && AgedFrom(origin, origin0, sign, i)
      {
        i := i - 1;
        AgedUp(origin, origin0, sign, i);
        branch := At(origin, sign, 0, i);
        var minAge := ScanAges(branch);
        MinAgeUnfold(branch);
        origin := Write(origin, sign, 0, i, branch.(age := minAge));
      }
    }

    // A leaf pushed down until its digits part from those of a new signature.
    // A fresh child array holds the old leaf as a stand-in until it is written.
    method SplitLeaf(sign: nat, depth: nat, leaf: Node)
      requires depth <= 9 && OnPath(origin, sign, 0, depth) && At(origin, sign, 0, depth).Leaf?
      requires leaf.Leaf? && leaf.sign == sign
      modifies `origin
      ensures var t := At(old(origin), sign, 0, depth);
              origin == Write(old(origin), sign, 0, depth, Split(t, leaf, depth, NodeAge(t)))
    {
      hide Bit, Rank, Pow2, Shl, Shr, And, Or, Digit, Write, Split, OnPath;
      var t := At(origin, sign, 0, depth);
      var age_ := GetAge(t.word);
      var dice, udice := 0, 0;
      var i, j := depth, Shl(63, 6 * depth);
      while i < 10
        invariant depth <= i <= 10 && j == Shl(63, 6 * i)
        invariant OnPath(origin, sign, 0, i)
        invariant Write(origin, sign, 0, i, Split(t, leaf, i, age_)) ==
                  Write(old(origin), sign, 0, depth, Split(t, leaf, depth, age_))
        invariant i == 10 ==> dice == Digit(t.sign, 9) && udice == Digit(sign, 9)
      {
        dice := Shr(And(t.sign, j), i * 6);
        udice := Shr(And(sign, j), i * 6);
        DiceIsDigit(t.sign, i);
        DiceIsDigit(sign, i);
        if dice != udice {
          break;
        }
        ShlOne(dice);
        ChainStep(origin, sign, i, t, leaf, age_);
        origin := Write(origin, sign, 0, i, Branch(Shl(1, dice), false, [t], age_));
        NextMask(i);
        j := Shl(j, 6);
        i := i + 1;
      }
      ShlOne(dice);
      ShlOne(udice);
      SplitStops(t, leaf, i, age_);
      var u := if dice < udice then 1 else 0;
      origin := Write(origin, sign, 0, i,
                      Branch(Or(Shl(1, dice), Shl(1, udice)), false, if u == 1 then [t, leaf] else [leaf, t], age_));
    }

    // A leaf inserted into the child array of a branch, later children moved up.
    method InsertLeaf(sign: nat, depth: nat, leaf: Node)
      requires OnPath(origin, sign, 0, depth)
      requires var m := At(origin, sign, 0, depth); m.Branch? && Packed(m)
      modifies `origin
      ensures origin == Write(old(origin), sign, 0, depth,
                              AddLeaf(At(old(origin), sign, 0, depth), Digit(sign, depth), leaf))
    {
      hide Bit, Rank, Pow2, Shl, Shr, And, Or, Digit, Write, OnPath, ComputeBits;
      var branch := At(origin, sign, 0, depth);
      var k, start, total := SlotOf(branch, sign, depth);
      var kids := OpenSlot(branch.kids, start, leaf);
      origin := Write(origin, sign, 0, depth, Branch(Or(branch.bitmap, k), total == 63, kids, branch.age));
    }

    // The structural part of `out`: the leaf below `parent` goes; either its
    // slot closes up or its only sibling, a leaf, moves up to the uncle.
    method Unlink(sign: nat, parent: nat, uncle: nat, ghost I: set<Item>, ghost x: Item)
      requires Represents(origin, I, 0) && Distinct54(I) && OnPath(origin, sign, 0, parent + 1)
      requires x.rec.sign == sign && Under(I, sign, 0, parent + 1) == {x}
      requires UncleOf(I, sign, uncle, parent)
      modifies `origin
      ensures Represents(origin, I - {x}, 0)
    {
      hide Bit, Rank, Pow2, Shl, Shr, And, Or, Digit, Write, OnPath, ComputeBits, Represents, Stale, SamePrefix,
        UncleOf, Under, Aged;
      ParentTwo(origin, I, sign, parent + 1);
      var node := At(origin, sign, 0, parent);
      KidIndex(node, Digit(sign, parent));
      OneKidNot(origin, I, sign, parent, x);
      var k, start, total := SlotOf(node, sign, parent);
      if total > 2 || (total == 2 && !node.kids[1 - start].Leaf?) {
        ClearBit(node.bitmap, Digit(sign, parent));
        var kids := CloseSlot(node.kids, start);
        DropAtParent(origin, I, sign, parent, x);
        origin := Write(origin, sign, 0, parent, Branch(And(node.bitmap, Not64(k)), false, kids, node.age));
      } else {
        CollapseToUncle(origin, I, sign, uncle, parent, x);
        var t := node.kids[1 - start];
        origin := Write(origin, sign, 0, uncle, t);
      }
      LessDistinct(I, I - {x});
      RemovedRepresents(origin, I - {x}, sign);
      Aging(sign, I - {x});
    }

    // Either case of `out`: below the root the leaf is unlinked; the only entry
    // leaves nothing behind, and the age starts over.
    method Detach(sign: nat, depth: nat, uncle: nat, ghost I: set<Item>, ghost x: Item)
      requires Represents(origin, I, 0) && Distinct54(I) && OnPath(origin, sign, 0, depth)
      requires x.rec.sign == sign && Under(I, sign, 0, depth) == {x}
      requires depth > 0 ==> UncleOf(I, sign, uncle, depth - 1)
      modifies `origin, `age
      ensures depth > 0 ==> Represents(origin, I - {x}, 0) && age == old(age)
      ensures depth == 0 ==> age == 1
    {
      hide *;
      if depth > 0 {
        Unlink(sign, depth - 1, uncle, I, x);
      } else {
        age := 1;
      }
    }

    // The walk of `out`: the depth and content of the node it stops at, and the
    // depth of the uncle.
    method FindOut(sign: nat, ghost I: set<Item>) returns (depth: nat, branch: Node, uncle: nat)
      requires Represents(origin, I, 0) && Distinct54(I)
      ensures OnPath(origin, sign, 0, depth) && branch == At(origin, sign, 0, depth)
      ensures branch.Leaf? && branch.sign == sign ==>
              ItemOf(branch) in I && Under(I, sign, 0, depth) == {ItemOf(branch)}
      ensures branch.Leaf? && depth == 0 ==> I == {ItemOf(branch)}
      ensures !(branch.Leaf? && branch.sign == sign) ==> !Holds(I, sign)
      ensures branch.Leaf? && depth > 0 ==> UncleOf(I, sign, uncle, depth - 1)
    {
      hide Bit, Rank, Pow2, Shl, Shr, And, Digit, OnPath, ComputeBits, Represents, Stale, SamePrefix, UncleOf, Under,
        GetKind, GetAge, GetSize, Sub, Holds, LookUp, PopCount, Distinct54, TwoItems;
      branch, uncle := origin, 0;
      var parent := origin;
      var i, j := 0, 63;
      NextMask(0);
      CohesiveRoot(I);
      PathStart(origin, sign);
      RepresentsIsStale(origin, I, sign, 0);
      SeekSucceeds(origin, I, sign, 0);
      SeekDecides(origin, I, sign);
      while i < 10
        invariant i <= 10 && j == Shl(63, 6 * i)
        invariant OnPath(origin, sign, 0, i) && branch == At(origin, sign, 0, i)
        invariant Seek(origin, sign, 0) == Seek(branch, sign, i)
        invariant i == 0 ==> uncle == 0
        invariant i > 0 ==> OnPath(origin, sign, 0, i - 1) && parent == At(origin, sign, 0, i - 1)
        invariant i > 0 ==> UncleOf(I, sign, uncle, i - 1)
      {
        if branch.Leaf? {
          break;
        }
        if i > 0 {
          UncleStep(origin, I, sign, uncle, i - 1);
          TotalBits(parent);
        } else {
          UncleStart(I, sign);
        }
        if i > 0 && ComputeBits(parent.bitmap) > 1 {
          uncle := i;
        }
        parent := branch;
        AtRepresents(origin, I, sign, 0, i);
        OpenNode(branch, Under(I, sign, 0, i), i);
        var next := Descend(origin, branch, sign, i, j);
        if next.None? {
          return i, branch, uncle;
        }
        branch := next.value;
        NextMask(i);
        j := Shl(j, 6);
        i := i + 1;
      }
      depth := i;
      AtRepresents(origin, I, sign, 0, i);
      LeafIs(branch, Under(I, sign, 0, i), i);
      UnderHere(I, sign, 0);
    }

    method Out(sign: nat) returns (result: nat, kind: nat)
      requires Valid()
      modifies this
      ensures Valid() && Spec() == OutState(old(Spec()), sign)
      ensures Answer(result, kind) == GetReply(old(Spec()), sign)
      ensures var i := IndexOf(Records(old(queue)), sign);
              if i < |old(queue)| then
                queue == RemoveAt(old(queue), i) && result == old(queue)[i].rec.obj && kind == old(queue)[i].rec.kind
              else queue == old(queue) && result == 0
      ensures freed == old(freed) && accepted == old(accepted)
      ensures rnum > 0 ==> age == old(age)
      ensures age <= old(age) + 1
    {
      hide Bit, Rank, Pow2, Shl, Shr, And, Or, Digit, Write, OnPath, ComputeBits, Represents, Stale, SamePrefix,
        UncleOf, Under, Total, Objects, GetKind, GetAge, GetSize, NonNull, Seek, Sub, Released, Ordered, Bounded,
        Distinct54, ItemSet, Records, Holds;
      ghost var q := queue;
      IndexHolds(q, sign);
      if rnum == 0 {
        return 0, 0;
      }
      ghost var I := ItemSet(q);
      var depth, leaf, uncle := FindOut(sign, I);
      if !leaf.Leaf? {
        return 0, 0;
      }
      if leaf.sign != sign {
        return 0, 0;
      }
      result, kind := leaf.obj, GetKind(leaf.word);
      var size_ := GetSize(leaf.word);
      ghost var x := ItemOf(leaf);
      OutBooks(q, sign, age, x);
      Remove(sign, depth, uncle, size_, x);
    }

    // The entry x goes from the trie, the queue and the counters.
    method Remove(sign: nat, depth: nat, uncle: nat, size_: nat, ghost x: Item)
      requires Valid() && rnum > 0 && x in ItemSet(queue) && x.rec.sign == sign && size_ == x.rec.size
      requires OnPath(origin, sign, 0, depth) && Under(ItemSet(queue), sign, 0, depth) == {x}
      requires depth > 0 ==> UncleOf(ItemSet(queue), sign, uncle, depth - 1)
      requires depth == 0 ==> ItemSet(queue) == {x}
      modifies this
      ensures Valid() && freed == old(freed) && accepted == old(accepted)
      ensures IndexOf(Records(old(queue)), sign) < |old(queue)|
      ensures queue == RemoveAt(old(queue), IndexOf(Records(old(queue)), sign))
      ensures handed == old(handed) + NonNull(TokenOf(x.rec))
      ensures rnum > 0 ==> age == old(age)
      ensures age <= old(age) + 1
    {
      hide OnPath, Represents, UncleOf, Under, Total, Pow2, Ordered, Bounded, Distinct54, ItemSet, Records, NonNull,
        IndexOf, RemoveAt, TokenOf;
      ghost var i := IndexOf(Records(queue), sign);
      OutBooks(queue, sign, age, x);
      Detach(sign, depth, uncle, ItemSet(queue), x);
      ShorterBy(queue, i);
      queue := RemoveAt(queue, i);
      handed := handed + NonNull(TokenOf(x.rec));
      rnum := rnum - 1;
      size := size - size_;
    }

    method Delete(sign: nat) returns (code: int)
      requires Valid()
      modifies this
      ensures Valid() && Spec() == DeleteState(old(Spec()), sign)
      ensures code == if GetReply(old(Spec()), sign) == Nothing then -1 else 0
      ensures var i := IndexOf(Records(old(queue)), sign);
              queue == if i < |old(queue)| then RemoveAt(old(queue), i) else old(queue)
      ensures rnum > 0 ==> age == old(age)
      ensures age <= old(age) + 1
    {
      hide Bit, Rank, Pow2, Represents, SamePrefix, Total, Objects, Released, IndexOf, Ordered, Bounded, Distinct54,
        ItemSet, Records, RemoveAt;
      ghost var kept := handed;
      var result, kind := Out(sign);
      if result != 0 {
        // The object goes to the free function of its type instead of the caller.
        ReleasedMore(freed, Token(result, kind));
        freed := freed + [Token(result, kind)];
        handed := kept;
        return 0;
      }
      return -1;
    }

    // Removes and frees the entry put longest ago.
    method Lru()
      requires Valid() && rnum > 0
      modifies this
      ensures Valid() && queue == old(queue)[1..]
      ensures Released(freed) == Released(old(freed)) + Objects([old(queue)[0].rec])
      ensures accepted == old(accepted) && handed == old(handed)
      ensures rnum > 0 ==> age == old(age)
    {
      hide Bit, Rank, Pow2, Represents, SamePrefix, Total, Objects, Released, NonNull, GetKind, GetAge, GetSize;
      ghost var I := ItemSet(queue);
      DropBooks(queue, age);
      DropFirst(queue);
      if origin.Leaf? {
        LeafIs(origin, I, 0);
        OneLeft(queue, ItemOf(origin));
        OneTotal(queue);
        var result, kind := origin.obj, GetKind(origin.word);
        if result != 0 {
          ReleasedMore(freed, Token(result, kind));
          freed := freed + [Token(result, kind)];
        } else {
          NullToken(TokenOf(queue[0].rec));
        }
        queue := [];
        rnum := 0;
        size := 0;
        return;
      }
      var branch := OldestLeaf(origin, I);
      OldestFirst(queue, ItemOf(branch));
      var code := Delete(branch.sign);
    }

    // The oldest entries go until the rest fits.
    method Depleted(limit: nat)
      requires Valid()
      modifies this
      ensures Valid() && size <= limit
      ensures var n := Excess(Records(old(queue)), limit);
              && queue == old(queue)[n..]
              && Released(freed) == Released(old(freed)) + Objects(Records(old(queue))[..n])
      ensures accepted == old(accepted) && handed == old(handed)
      ensures rnum > 0 ==> age == old(age)
    {
      hide Bit, Rank, Pow2, Represents, SamePrefix, Total, Objects, Released, NonNull, Excess;
      ghost var q0, n := queue, 0;
      EmptyParts();
      assert Records(q0)[..0] == [];
      while size > limit
        invariant Valid() && EvictedBy(queue, q0, n)
        invariant n + Excess(Records(queue), limit) == Excess(Records(q0), limit)
        invariant Released(freed) == Released(old(freed)) + Objects(Records(q0)[..n])
        invariant accepted == old(accepted) && handed == old(handed)
        invariant rnum > 0 ==> age == old(age)
        decreases |queue|
      {
        EvictOne(queue, q0, n, limit);
        Assoc(Released(old(freed)), Objects(Records(q0)[..n]), Objects([queue[0].rec]));
        Lru();
        n := n + 1;
      }
      EvictDone(queue, q0, n, limit);
    }

    // What the eviction of a put has done to the abstract state.
    ghost predicate EvictedState(st: State, size_: nat)
      reads this
    {
      && size_ <= up && st.up == up
      && AfterEviction(st, size_) == Spec()
      && size + size_ <= up
    }

    method MakeRoom(size_: nat)
      requires Valid() && size_ <= up
      modifies this
      ensures Valid() && EvictedState(old(Spec()), size_)
      ensures rnum > 0 ==> age == old(age)
      ensures size_ + old(size) <= up ==> queue == old(queue)
    {
      hide Bit, Rank, Pow2, Represents, SamePrefix, Total, Objects, Released, Ordered, Bounded, Distinct54, Excess;
      ghost var st := Spec();
      if size_ + size > up {
        Depleted(up - size_);
        RecordsFrom(old(queue), Excess(Records(old(queue)), up - size_));
      } else {
        EmptyParts();
        assert st.queue[..0] == [] && st.queue[0..] == st.queue;
      }
    }

    // Replaces the entry of a stored signature.
    method ReplaceLeaf(rec: Record, depth: nat, ghost i: nat)
      requires Valid() && i < |queue| && queue[i].rec.sign == rec.sign
      requires rec.kind < 16 && rec.size < Pow2(32) && age + 1 < Pow2(28) && rec.size + size <= up
      requires rnum > 0 && OnPath(origin, rec.sign, 0, depth)
      requires At(origin, rec.sign, 0, depth).Leaf? && ItemOf(At(origin, rec.sign, 0, depth)) == queue[i]
      modifies this
      ensures Valid() && queue == RemoveAt(old(queue), i) + [Item(rec, old(age) + 1)]
      ensures Records(queue) == RemoveAt(Records(old(queue)), i) + [rec]
      ensures age == old(age) + 1
      ensures Released(freed) == Released(old(freed)) + NonNull(TokenOf(Records(old(queue))[i]))
      ensures accepted == old(accepted) + NonNull(TokenOf(rec)) && handed == old(handed)
    {
      hide Bit, Rank, Pow2, Represents, Stale, SamePrefix, Total, Objects, Released, Ordered, Bounded, Distinct54,
        ItemSet, Records, GetKind, GetAge, GetSize, SetTerminalType, NonNull, Digit, OnPath, At, Write, Aged;
      ghost var q, x := queue, Item(rec, age + 1);
      age := age + 1;
      var branch := At(origin, rec.sign, 0, depth);
      freed := freed + [Token(branch.obj, GetKind(branch.word))];
      ReleasedMore(old(freed), Token(branch.obj, GetKind(branch.word)));
      RecordAt(q, i);
      RemoveBooks(q, i, old(age));
      OthersPart(q, i);
      GrowBooks(RemoveAt(q, i), x, old(age));
      NewLeaf(rec, age);
      var leaf := Leaf(rec.sign, rec.obj, SetTerminalType(rec.kind, age, rec.size));
      ReplaceStale(origin, ItemSet(q), rec.sign, depth, leaf);
      var oldSize := GetSize(branch.word);
      size := size + rec.size - oldSize;
      origin := Write(origin, rec.sign, 0, depth, leaf);
      ghost var I := ItemSet(RemoveAt(q, i) + [x]);
      RemovedRepresents(origin, I, rec.sign);
      Aging(rec.sign, I);
      queue := RemoveAt(q, i) + [x];
      accepted := accepted + NonNull(TokenOf(rec));
    }

    // Stores a record of a new signature in an empty cache.
    method FirstLeaf(rec: Record)
      requires Valid() && rnum == 0
      requires rec.kind < 16 && rec.size < Pow2(32) && rec.size <= up
      modifies this
      ensures Valid() && age == 1 && queue == [Item(rec, 1)] && Records(queue) == [rec]
      ensures freed == old(freed) && handed == old(handed) && accepted == old(accepted) + NonNull(TokenOf(rec))
    {
      hide Bit, Rank, Pow2, SamePrefix, Released, GetKind, GetAge, GetSize, SetTerminalType, NonNull;
      Pow2Values();
      age := 1;
      origin := Leaf(rec.sign, rec.obj, SetTerminalType(rec.kind, age, rec.size));
      NewLeaf(rec, 1);
      LeafRepresents(origin, 0);
      size := rec.size;
      rnum := 1;
      queue := [Item(rec, 1)];
      accepted := accepted + NonNull(TokenOf(rec));
      OneRecord(rec, []);
      assert Records(queue) == [rec];
      assert ItemSet(queue) == {Item(rec, 1)};
    }

    // Stores a record of a new signature beside others.
    method AddLeafFor(rec: Record, depth: nat)
      requires Valid() && rnum > 0
      requires rec.kind < 16 && rec.size < Pow2(32) && age + 1 < Pow2(28) && rec.size + size <= up
      requires Seek(origin, rec.sign, 0) == Some(depth) && depth <= 9 && OnPath(origin, rec.sign, 0, depth)
      requires var m := At(origin, rec.sign, 0, depth); m.Leaf? ==> m.sign != rec.sign
      modifies this
      ensures freed == old(freed) && handed == old(handed) && age == old(age) + 1
      ensures !Clashes(Records(old(queue)), rec.sign) ==>
                && Valid() && queue == old(queue) + [Item(rec, old(age) + 1)]
                && Records(queue) == Records(old(queue)) + [rec]
                && accepted == old(accepted) + NonNull(TokenOf(rec))
      ensures Clashes(Records(old(queue)), rec.sign) ==>
                rnum == old(rnum) + 1 && size == old(size) + rec.size && Clashed(origin, Records(old(queue)), rec.sign)
    {
      hide Bit, Rank, Pow2, And, Represents, Stale, SamePrefix, Total, Objects, Released, Ordered, Bounded,
        Distinct54, ItemSet, Records, GetKind, GetAge, GetSize, SetTerminalType, NonNull, Digit, OnPath, At, Write,
        Split, AddLeaf, Seek, Clashes;
      ghost var q, x, n := queue, Item(rec, age + 1), origin;
      age := age + 1;
      NewLeaf(rec, age);
      var leaf := Leaf(rec.sign, rec.obj, SetTerminalType(rec.kind, age, rec.size));
      var branch := At(origin, rec.sign, 0, depth);
      ClashStopsAtLeaf(origin, q, rec.sign, depth);
      StopNode(origin, ItemSet(q), rec.sign, depth);
      if branch.Leaf? {
        if SamePrefix(branch.sign, rec.sign, 9) { ClashLeaves(origin, q, rec.sign, depth, leaf); }
        SplitLeaf(rec.sign, depth, leaf);
      } else {
        InsertLeaf(rec.sign, depth, leaf);
      }
      rnum := rnum + 1;
      size := size + rec.size;
      if !Clashes(Records(q), rec.sign) {
        NoClash(q, rec.sign);
        NotHeld(n, q, rec.sign, depth);
        GrowBooks(q, x, old(age));
        InsertRepresents(n, ItemSet(q), rec.sign, depth, leaf);
        queue := q + [x];
        accepted := accepted + NonNull(TokenOf(rec));
      }
    }

    // The put of the source. It requires what lib/ccv_cache.c asserts (an
    // aligned pointer), a type that has a free function, a size of 32 bits and
    // a clock that still fits the 28 bits it is packed into.
    method Put(rec: Record) returns (code: int)
      requires Valid()
      requires rec.obj % 4 == 0 && rec.kind < 16 && rec.size < Pow2(32) && age + 1 < Pow2(28)
      modifies this
      ensures code == PutState(old(Spec()), rec).1
      ensures rec.size <= up && Clashes(AfterEviction(old(Spec()), rec.size).queue, rec.sign) ==>
                && code == 0 && rnum == |AfterEviction(old(Spec()), rec.size).queue| + 1
                && size == Total(AfterEviction(old(Spec()), rec.size).queue) + rec.size
                && Clashed(origin, AfterEviction(old(Spec()), rec.size).queue, rec.sign)
      ensures !(rec.size <= up && Clashes(AfterEviction(old(Spec()), rec.size).queue, rec.sign)) ==>
                Valid() && Spec() == PutState(old(Spec()), rec).0
      ensures rec.size + old(size) <= up && old(rnum) > 0
              && !Holds(ItemSet(old(queue)), rec.sign) && !Clashes(Records(old(queue)), rec.sign) ==>
                queue == old(queue) + [Item(rec, old(age) + 1)]
      ensures age <= old(age) + 1
    {
      hide Bit, Rank, Pow2, Represents, Stale, SamePrefix, Total, Objects, Released, Ordered, Bounded, Distinct54,
        ItemSet, Records, GetKind, GetAge, GetSize, NonNull, Digit, OnPath, At, Seek, Clashes, AfterEviction, Sub,
        Under;
      ghost var st := Spec();
      if rec.size > up {
        return -1;
      }
      MakeRoom(rec.size);
      ghost var q := queue;
      IndexHolds(q, rec.sign);
      if rnum == 0 {
        FirstLeaf(rec);
        NothingClashes(rec.sign);
        return 0;
      }
      ghost var I := ItemSet(q);
      RepresentsWalkable(origin, I, 0);
      CohesiveRoot(I);
      RepresentsIsStale(origin, I, rec.sign, 0);
      SeekSucceeds(origin, I, rec.sign, 0);
      var found, depth := SeekNode(origin, rec.sign);
      var branch := found.value;
      SeekDecides(origin, I, rec.sign);
      if branch.Leaf? && branch.sign == rec.sign {
        ghost var i := IndexOf(Records(q), rec.sign);
        HoldsBy(I, ItemOf(branch));
        ClashStopsAtLeaf(origin, q, rec.sign, depth);
        ReplaceLeaf(rec, depth, i);
        return 1;
      }
      AddLeafFor(rec, depth);
      return 0;
    }

    // Frees every leaf below a node, each by the free function of its type.
    method FreeBelow(branch: Node)
      requires Sound(branch)
      modifies `freed
      ensures freed == old(freed) + Frees(Leaves(branch))
      decreases branch
    {
      hide Bit, Rank, GetKind, GetAge, GetSize, ComputeBits, Frees;
      if branch.Branch? {
        var i, total := 0, ComputeBits(branch.bitmap);
        TotalBits(branch);
        NoFrees();
        while i < total
          invariant 0 <= i <= total == |branch.kids|
          invariant freed == old(freed) + Frees(LeavesUpTo(branch, i))
        {
          FreeBelow(branch.kids[i]);
          FreesJoin(LeavesUpTo(branch, i), Leaves(branch.kids[i]));
          i := i + 1;
        }
      } else {
        freed := freed + [Token(branch.obj, GetKind(branch.word))];
        OneFree(ItemOf(branch));
      }
    }

    method Cleanup()
      requires Valid()
      modifies this
      ensures Valid() && Spec() == CleanupState(old(Spec())) && age <= old(age)
    {
      hide Bit, Rank, Pow2, Represents, SamePrefix, Total, Objects, Released;
      EmptyParts();
      if rnum > 0 {
        ghost var I := ItemSet(queue);
        LeavesRepresent(origin, I, 0);
        RepresentsSound(origin, I, 0);
        OrderedNoDup(queue);
        SameObjects(Leaves(origin), queue);
        ReleasedAll(freed, Leaves(origin));
        FreeBelow(origin);
        size := 0;
        age := 0;
        rnum := 0;
        origin := Leaf(0, 0, 0);
        queue := [];
      } else {
        assert Records(queue) == [];
      }
    }
  }

  // ---- whole runs ----

  // What a caller must respect at each step: a record the source accepts, whose
  // signature does not clash with what is stored once room has been made for it.
  ghost predicate Legal(st: State, op: Op) {
    op.Put? ==>
      && op.rec.obj % 4 == 0 && op.rec.kind < 16 && op.rec.size < Pow2(32)
      && (op.rec.size <= st.up ==> !Clashes(AfterEviction(st, op.rec.size).queue, op.rec.sign))
  }

  ghost predicate LegalRun(st: State, ops: seq<Op>)
    decreases |ops|
  {
    ops != [] ==> Legal(st, ops[0]) && LegalRun(Step(st, ops[0]).0, ops[1..])
  }

  // Signatures that differ in their low 54 bits never clash.
  ghost predicate Apart(signs: set<nat>) {
    forall s, t :: s in signs && t in signs && s != t ==> !SamePrefix(s, t, 9)
  }

  ghost predicate SignsIn(q: seq<Record>, signs: set<nat>) {
    forall i :: 0 <= i < |q| ==> q[i].sign in signs
  }

  lemma StepSigns(st: State, op: Op, signs: set<nat>)
    requires SignsIn(st.queue, signs) && (op.Put? ==> op.rec.sign in signs)
    ensures SignsIn(Step(st, op).0.queue, signs)
    ensures op.Put? && op.rec.size <= st.up ==> SignsIn(AfterEviction(st, op.rec.size).queue, signs)
  {
    hide Total, Objects, Excess, NonNull, PutState;
    var q := Step(st, op).0.queue;
    if op.Put? {
      forall i | 0 <= i < |q|
        ensures q[i].sign in signs
      {
        PutMembers(st, op.rec, q[i]);
      }
    }
  }

  lemma ApartNoClash(st: State, r: Record, signs: set<nat>)
    requires Apart(signs) && SignsIn(st.queue, signs) && r.sign in signs
    ensures r.size <= st.up ==> !Clashes(AfterEviction(st, r.size).queue, r.sign)
  {
    hide SamePrefix, AfterEviction;
    StepSigns(st, Put(r), signs);
  }

  method Perform(c: Cache, op: Op) returns (reply: Reply)
    requires c.Valid() && Legal(c.Spec(), op) && c.age + 1 < Pow2(28)
    modifies c
    ensures c.Valid() && (c.Spec(), reply) == Step(old(c.Spec()), op)
    ensures c.age <= old(c.age) + 1
  {
    hide Pow2, Represents, SamePrefix, Total, Objects, Released, Ordered, Bounded, Distinct54, AfterEviction, PutState,
      Clashes, Clashed, LookUp;
    match op
    case Get(s) =>
      var result, kind := c.Get(s);
      reply := Answer(result, kind);
    case Put(r) =>
      var code := c.Put(r);
      reply := Code(code);
    case Out(s) =>
      var result, kind := c.Out(s);
      reply := Answer(result, kind);
    case Delete(s) =>
      var code := c.Delete(s);
      reply := Code(code);
    case Cleanup =>
      c.Cleanup();
      reply := Nothing;
  }

  // Any run of the cache gives the replies, the contents, the order and the
  // object bookkeeping of the list in last-put order.
  method Execute(c: Cache, ops: seq<Op>) returns (replies: seq<Reply>)
    requires c.Valid() && LegalRun(c.Spec(), ops) && c.age + |ops| < Pow2(28)
    modifies c
    ensures c.Valid() && (c.Spec(), replies) == Run(old(c.Spec()), ops)
    decreases |ops|
  {
    hide Pow2, Represents, SamePrefix, Total, Objects, Released, Ordered, Bounded, Distinct54, Step, Legal;
    if ops == [] {
      return [];
    }
    var reply := Perform(c, ops[0]);
    var rest := Execute(c, ops[1..]);
    replies := [reply] + rest;
  }

  // Two signatures that agree on their low 54 bits: both puts report success,
  // and neither object can be had again.
  method ClashingPuts() returns (c: Cache, code0: int, code1: int, result0: nat, result1: nat)
    ensures code0 == 0 && code1 == 0 && result0 == 0 && result1 == 0
    ensures Seek(c.origin, 0, 0).None? && Seek(c.origin, Pow2(54), 0).None?
  {
    hide Pow2, Represents, SamePrefix, Released, Ordered, Bounded, Distinct54, LookUp, Walkable, Seek, GetReply;
    Pow2Values();
    SameLow54();
    c := new Cache(2);
    var r, x := Record(0, 4, 0, 1), Record(Pow2(54), 8, 0, 1);
    OneAfterOther(c.Spec(), r, x);
    code0 := c.Put(r);
    code1 := c.Put(x);
    var kind;
    result0, kind := c.Get(0);
    result1, kind := c.Get(Pow2(54));
  }

  lemma SameLow54()
    ensures SamePrefix(0, Pow2(54), 9) && Pow2(54) != 0
  {
    hide Pow2, And;
    MaskedPow2(54);
    assert And(0, Pow2(54) - 1) == 0 by { NothingMasked(Pow2(54) - 1); }
    PrefixIsLowBits(0, Pow2(54), 9);
  }

  lemma MaskedPow2(k: nat)
    ensures And(Pow2(k), Pow2(k) - 1) == 0
  {
    hide And;
    ShlOne(k);
    OrField(1, 0, k);
  }

  lemma NothingMasked(m: nat)
    ensures And(0, m) == 0
  {
  }

  // Two small records put into an empty cache of size 2.
  lemma OneAfterOther(st: State, r: Record, x: Record)
    requires st == Empty(2) && r.size == x.size == 1 && r.sign != x.sign && r.kind == 0
    ensures var st1 := PutState(st, r).0;
            && PutState(st, r).1 == 0 && PutState(st1, x).1 == 0 && !Clashes(AfterEviction(st, 1).queue, r.sign)
            && st1.queue == [r] && AfterEviction(st1, 1).queue == [r] && st1.up == 2
            && (SamePrefix(r.sign, x.sign, 9) ==> Clashes([r], x.sign))
  {
    hide SamePrefix;
    EmptyParts();
    OneRecord(r, []);
    assert [r][0] == r && [] + [r] == [r];
  }

  // A null object is removed, and the removal reported as a failure.
  method NullRemoved() returns (c: Cache, put: int, code: int)
    ensures c.Valid() && put == 0 && code == -1 && c.rnum == 0 && c.Spec().queue == []
  {
    hide Pow2, Represents, SamePrefix, Released, Ordered, Bounded, Distinct54;
    Pow2Values();
    c := new Cache(2);
    OneAfterOther(c.Spec(), Record(5, 0, 0, 1), Record(6, 0, 0, 1));
    put := c.Put(Record(5, 0, 0, 1));
    assert IndexOf([Record(5, 0, 0, 1)], 5) == 0;
    code := c.Delete(5);
  }

  // ---- history leaves no trace in the trie ----

  lemma SameEntriesSameTrie(a: Cache, b: Cache)
    requires a.Valid() && b.Valid() && a.rnum > 0 && ItemSet(a.queue) == ItemSet(b.queue)
    ensures a.origin == b.origin
  {
    hide Represents, Total, Pow2, SamePrefix;
    NonEmptyItems(a.queue);
    NonEmptyItems(b.queue);
    Canonical(a.origin, b.origin, ItemSet(a.queue), 0);
  }

  lemma CountIsLeaves(c: Cache)
    requires c.Valid() && c.rnum > 0
    ensures |Leaves(c.origin)| == c.rnum
  {
    hide Represents, Total, Pow2, SamePrefix, Leaves;
    LeavesRepresent(c.origin, ItemSet(c.queue), 0);
    OrderedNoDup(c.queue);
    SameObjects(Leaves(c.origin), c.queue);
  }

  lemma NoEviction(st: State, size: nat)
    requires size + Total(st.queue) <= st.up
    ensures AfterEviction(st, size).queue == st.queue
  {
    hide Total, Objects;
  }

  lemma LastIndex(q: seq<Item>, x: Item)
    requires !Holds(ItemSet(q), x.rec.sign)
    ensures IndexOf(Records(q + [x]), x.rec.sign) == |q| && RemoveAt(q + [x], |q|) == q
  {
    AppendItems(q, x);
    IndexHolds(q, x.rec.sign);
    assert Records(q + [x])[|q|] == x.rec;
    assert forall j :: 0 <= j < |q| ==> Records(q + [x])[j] == Records(q)[j];
  }

  // Taking out what was just put in, with nothing evicted, restores the trie.
  method PutThenOut(c: Cache, rec: Record) returns (result: nat, kind: nat)
    requires c.Valid() && c.rnum > 0 && rec.size + c.size <= c.up
    requires !Holds(ItemSet(c.queue), rec.sign) && !Clashes(Records(c.queue), rec.sign)
    requires rec.obj % 4 == 0 && rec.kind < 16 && rec.size < Pow2(32) && c.age + 1 < Pow2(28)
    modifies c
    ensures c.Valid() && c.origin == old(c.origin) && c.queue == old(c.queue)
    ensures result == rec.obj && (result != 0 ==> kind == rec.kind)
  {
    hide Pow2, Represents, SamePrefix, Total, Objects, Released, Ordered, Bounded, Distinct54, Clashes, AfterEviction,
      PutState, OutState, GetReply, Records, IndexOf, Holds, ItemSet, RemoveAt, NonNull;
    ghost var q, origin := c.queue, c.origin;
    NoEviction(c.Spec(), rec.size);
    LastIndex(q, Item(rec, c.age + 1));
    var code := c.Put(rec);
    result, kind := c.Out(rec.sign);
    Canonical(c.origin, origin, ItemSet(q), 0);
  }
}
