/**
 The trie of the cache: nodes, the set of entries a node stands for, and the
 three structural changes (an entry added, replaced, taken away) together with
 the age repair along one path.
 */
module Trie {
  import opened Bits
  import opened Words

  datatype Record = Record(sign: nat, obj: nat, kind: nat, size: nat)

  // A record and the clock value of its last put.
  datatype Item = Item(rec: Record, age: nat)

  // A node is a struct held by value in its parent's child array.
  datatype Node =
    | Leaf(sign: nat, obj: nat, word: nat)
    | Branch(bitmap: nat, full: bool, kids: seq<Node>, age: nat)

  function ItemOf(n: Node): Item
    requires n.Leaf?
  {
    Item(Record(n.sign, n.obj, GetKind(n.word), GetSize(n.word)), GetAge(n.word))
  }

  function NodeAge(n: Node): nat {
    if n.Leaf? then GetAge(n.word) else n.age
  }

  // ---- sets of entries ----

  // The entries whose digit at depth d is e.
  ghost function Sub(I: set<Item>, d: nat, e: nat): set<Item> {
    set it | it in I && Digit(it.rec.sign, d) == e
  }

  // The entries that share the digits d..k-1 of a signature.
  ghost function Under(I: set<Item>, s: nat, d: nat, k: nat): set<Item> {
    set it | it in I && AgreesWith(it.rec.sign, s, d, k)
  }

  ghost predicate AgreesWith(t: nat, s: nat, d: nat, k: nat) {
    forall j :: d <= j < k ==> Digit(t, j) == Digit(s, j)
  }

  ghost predicate TwoItems(I: set<Item>) {
    exists x, y :: x in I && y in I && x != y
  }

  ghost predicate IsMinAge(I: set<Item>, a: nat) {
    (exists it :: it in I && it.age == a) && (forall it :: it in I ==> a <= it.age)
  }

  // All entries share their first d digits.
  ghost predicate Cohesive(I: set<Item>, d: nat) {
    forall x, y :: x in I && y in I ==> SamePrefix(x.rec.sign, y.rec.sign, d)
  }

  // No two entries agree on their low 54 bits.
  ghost predicate Distinct54(I: set<Item>) {
    forall x, y :: x in I && y in I && x != y ==> !SamePrefix(x.rec.sign, y.rec.sign, 9)
  }

  // ---- what a node stands for ----

  // The child array matches the bitmap.
  predicate Packed(n: Node)
    requires n.Branch?
  {
    n.bitmap <= MAX64 && |n.kids| == Rank(n.bitmap, 64) && (n.full <==> |n.kids| == 64)
  }

  predicate Sound(n: Node) {
    match n
    case Leaf(_, _, w) => w <= MAX64
    case Branch(_, _, kids, _) => Packed(n) && |kids| > 0 && forall i :: 0 <= i < |kids| ==> Sound(kids[i])
  }

  // The child for a set digit.
  function Kid(n: Node, e: nat): (c: Node)
    requires n.Branch? && Packed(n) && e < 64 && Bit(n.bitmap, e)
    ensures c in n.kids && c < n
  {
    RankMonotone(n.bitmap, e, 64);
    n.kids[Rank(n.bitmap, e)]
  }

  ghost predicate DigitsMatch(n: Node, I: set<Item>, d: nat)
    requires n.Branch?
  {
    forall e: nat :: e < 64 ==> (Bit(n.bitmap, e) <==> Sub(I, d, e) != {})
  }

  // The node at depth d is the canonical trie of the entries I.
  ghost predicate Represents(n: Node, I: set<Item>, d: nat)
    decreases n
  {
    match n
    case Leaf(_, _, w) =>
      w <= MAX64 && I == {ItemOf(n)}
    case Branch(b, _, _, age) =>
      && Packed(n) && TwoItems(I) && IsMinAge(I, age) && DigitsMatch(n, I, d)
      && forall e: nat :: e < 64 && Bit(b, e) ==> Represents(Kid(n, e), Sub(I, d, e), d + 1)
  }

  // The same, except that branch ages along the path of s may be wrong.
  ghost predicate Stale(n: Node, I: set<Item>, s: nat, d: nat)
    decreases n
  {
    match n
    case Leaf(_, _, w) =>
      w <= MAX64 && I == {ItemOf(n)}
    case Branch(b, _, _, _) =>
      && Packed(n) && TwoItems(I) && DigitsMatch(n, I, d)
      && forall e: nat :: e < 64 && Bit(b, e) ==>
           if e == Digit(s, d) then Stale(Kid(n, e), Sub(I, d, e), s, d + 1)
           else Represents(Kid(n, e), Sub(I, d, e), d + 1)
  }

  // ---- paths ----

  // The walk along s from n at depth d passes through depth k.
  predicate OnPath(n: Node, s: nat, d: nat, k: nat)
    requires d <= k
    decreases k - d
  {
    d < k ==> n.Branch? && Packed(n) && Bit(n.bitmap, Digit(s, d)) && OnPath(Kid(n, Digit(s, d)), s, d + 1, k)
  }

  function At(n: Node, s: nat, d: nat, k: nat): Node
    requires d <= k && OnPath(n, s, d, k)
    decreases k - d
  {
    if d == k then n else At(Kid(n, Digit(s, d)), s, d + 1, k)
  }

  // A child array entry overwritten.
  function WithKid(n: Node, e: nat, c: Node): (m: Node)
    requires n.Branch? && Packed(n) && e < 64 && Bit(n.bitmap, e)
    ensures m.Branch? && Packed(m) && m.bitmap == n.bitmap && m.age == n.age && m.full == n.full
    ensures |m.kids| == |n.kids|
    ensures forall f: nat :: f < 64 && Bit(n.bitmap, f) ==> Kid(m, f) == if f == e then c else Kid(n, f)
  {
    RankMonotone(n.bitmap, e, 64);
    var m := n.(kids := n.kids[Rank(n.bitmap, e) := c]);
    assert forall f: nat :: f < 64 && Bit(n.bitmap, f) ==> Kid(m, f) == if f == e then c else Kid(n, f) by {
      forall f: nat | f < 64 && Bit(n.bitmap, f)
        ensures Kid(m, f) == if f == e then c else Kid(n, f)
      {
        RankMonotone(n.bitmap, f, 64);
        if e != f { RanksDiffer(n.bitmap, e, f); }
      }
    }
    m
  }

  lemma RanksDiffer(b: nat, e: nat, f: nat)
    requires Bit(b, e) && Bit(b, f) && e != f
    ensures Rank(b, e) != Rank(b, f)
  {
    if e < f { RankMonotone(b, e, f); } else { RankMonotone(b, f, e); }
  }

  // A write through a pointer to the node at depth k on the path of s.
  function Write(n: Node, s: nat, d: nat, k: nat, new_: Node): Node
    requires d <= k && OnPath(n, s, d, k)
    decreases k - d
  {
    if d == k then new_
    else WithKid(n, Digit(s, d), Write(Kid(n, Digit(s, d)), s, d + 1, k, new_))
  }

  // ---- one write keeps the trie ----

  lemma UnderStep(I: set<Item>, s: nat, d: nat, k: nat)
    requires d < k
    ensures Under(Sub(I, d, Digit(s, d)), s, d + 1, k) == Under(I, s, d, k)
  {
  }

  lemma UnderHere(I: set<Item>, s: nat, d: nat)
    ensures Under(I, s, d, d) == I
  {
  }

  lemma {:induction false} RepresentsIsStale(n: Node, I: set<Item>, s: nat, d: nat)
    requires Represents(n, I, d)
    ensures Stale(n, I, s, d)
    decreases n
  {
    if n.Branch? && Bit(n.bitmap, Digit(s, d)) {
      RepresentsIsStale(Kid(n, Digit(s, d)), Sub(I, d, Digit(s, d)), s, d + 1);
    }
  }

  // Where the write lands on the set of entries.
  lemma SubOfWrite(I: set<Item>, J: set<Item>, s: nat, d: nat, k: nat, e: nat)
    requires d < k && J == Under(J, s, d, k)
    ensures e == Digit(s, d) ==> Sub(I - Under(I, s, d, k) + J, d, e) == Sub(I, d, e) - Under(I, s, d, k) + J
    ensures e != Digit(s, d) ==> Sub(I - Under(I, s, d, k) + J, d, e) == Sub(I, d, e)
  {
  }

  lemma TwoSpread(U: set<Item>, I: set<Item>)
    requires TwoItems(U) && U <= I
    ensures TwoItems(I)
  {
    var x, y :| x in U && y in U && x != y;
    assert x in I && y in I;
  }

  // A branch stays a stale branch when one child is written along the path.
  lemma StaleBranch(n: Node, I: set<Item>, I': set<Item>, s: nat, d: nat, c: Node)
    requires n.Branch? && Stale(n, I, s, d) && Bit(n.bitmap, Digit(s, d))
    requires TwoItems(I') && Sub(I', d, Digit(s, d)) != {}
    requires Stale(c, Sub(I', d, Digit(s, d)), s, d + 1)
    requires forall f: nat :: f < 64 && f != Digit(s, d) ==> Sub(I', d, f) == Sub(I, d, f)
    ensures Stale(WithKid(n, Digit(s, d), c), I', s, d)
  {
    hide Bit, Rank, Digit, SamePrefix, Sub, TwoItems, IsMinAge, Represents;
    var m := WithKid(n, Digit(s, d), c);
    assert DigitsMatch(m, I', d);
  }

  lemma {:induction false} WriteStale(n: Node, I: set<Item>, s: nat, d: nat, k: nat, new_: Node, J: set<Item>)
    requires d <= k && OnPath(n, s, d, k)
    requires Stale(n, I, s, d)
    requires J == Under(J, s, d, k) && J != {}
    requires Stale(new_, J, s, k)
    requires k > d ==> TwoItems(Under(I, s, d, k - 1) - Under(I, s, d, k) + J)
    ensures Stale(Write(n, s, d, k, new_), I - Under(I, s, d, k) + J, s, d)
    decreases k - d
  {
    hide Bit, Rank, Digit, SamePrefix, Represents, TwoItems, DigitsMatch, Packed, WithKid, Under, Sub, Stale;
    var U := Under(I, s, d, k);
    var I' := I - U + J;
    UnderHere(I, s, d);
    if d == k {
      assert I' == J;
    } else {
      var e := Digit(s, d);
      var kid, S := Kid(n, e), Sub(I, d, e);
      UnderWritten(I, J, s, d, k);
      UnderHere(S, s, d + 1);
      StaleKid(n, I, s, d);
      WriteStale(kid, S, s, d + 1, k, new_, J);
      assert S - U + J != {};
      TwoSpread(Under(I, s, d, k - 1) - U + J, I');
      StaleBranch(n, I, I', s, d, Write(kid, s, d + 1, k, new_));
    }
  }

  lemma StaleKid(n: Node, I: set<Item>, s: nat, d: nat)
    requires n.Branch? && Stale(n, I, s, d) && Bit(n.bitmap, Digit(s, d))
    ensures Packed(n) && Stale(Kid(n, Digit(s, d)), Sub(I, d, Digit(s, d)), s, d + 1)
  {
    hide Bit, Rank, Digit, Represents;
  }

  // What a write under a path means for the entries one digit down.
  lemma UnderWritten(I: set<Item>, J: set<Item>, s: nat, d: nat, k: nat)
    requires d < k && J == Under(J, s, d, k)
    ensures var e, I' := Digit(s, d), I - Under(I, s, d, k) + J;
            && Under(I, s, d, k) == Under(Sub(I, d, e), s, d + 1, k) && J == Under(J, s, d + 1, k)
            && Under(I, s, d, k - 1) <= I
            && (k - 1 > d ==> Under(I, s, d, k - 1) == Under(Sub(I, d, e), s, d + 1, k - 1))
            && (forall f: nat :: f < 64 ==>
                  Sub(I', d, f) == if f == e then Sub(I, d, e) - Under(I, s, d, k) + J else Sub(I, d, f))
  {
    hide Digit, SamePrefix;
    UnderStep(I, s, d, k);
    UnderStep(J, s, d, k);
    if k - 1 > d { UnderStep(I, s, d, k - 1); }
    assert Sub(J, d, Digit(s, d)) == J;
    forall f: nat | f < 64
      ensures Sub(I - Under(I, s, d, k) + J, d, f) ==
              if f == Digit(s, d) then Sub(I, d, f) - Under(I, s, d, k) + J else Sub(I, d, f)
    {
      SubOfWrite(I, J, s, d, k, f);
    }
  }

  lemma SubGrow(I: set<Item>, x: Item, d: nat, f: nat)
    ensures Sub(I + {x}, d, f) == if f == Digit(x.rec.sign, d) then Sub(I, d, f) + {x} else Sub(I, d, f)
  {
  }

  lemma MinGrow(I: set<Item>, x: Item, a: nat)
    requires IsMinAge(I, a) && forall it :: it in I ==> it.age <= x.age
    ensures IsMinAge(I + {x}, a)
  {
    var it :| it in I && it.age == a;
    assert it in I + {x};
  }

  lemma GrowBranch(n: Node, I: set<Item>, x: Item, d: nat, c: Node)
    requires n.Branch? && Represents(n, I, d) && Bit(n.bitmap, Digit(x.rec.sign, d))
    requires forall it :: it in I ==> it.age <= x.age
    requires Represents(c, Sub(I, d, Digit(x.rec.sign, d)) + {x}, d + 1)
    ensures Represents(WithKid(n, Digit(x.rec.sign, d), c), I + {x}, d)
  {
    hide Bit, Rank, Digit, SamePrefix, Sub, TwoItems, IsMinAge, Stale;
    var m := WithKid(n, Digit(x.rec.sign, d), c);
    TwoSpread(I, I + {x});
    MinGrow(I, x, n.age);
    forall f: nat | f < 64
      ensures Sub(I + {x}, d, f) == if f == Digit(x.rec.sign, d) then Sub(I, d, f) + {x} else Sub(I, d, f)
    {
      SubGrow(I, x, d, f);
    }
    assert DigitsMatch(m, I + {x}, d);
  }

  // Adding an entry no older than the others leaves every age right.
  lemma {:induction false} WriteGrows(n: Node, I: set<Item>, s: nat, d: nat, k: nat, new_: Node, x: Item)
    requires d <= k && OnPath(n, s, d, k)
    requires Represents(n, I, d)
    requires AgreesWith(x.rec.sign, s, d, k)
    requires Represents(new_, Under(I, s, d, k) + {x}, k)
    requires forall it :: it in I ==> it.age <= x.age
    ensures Represents(Write(n, s, d, k, new_), I + {x}, d)
    decreases k - d
  {
    hide Bit, Rank, Digit, SamePrefix, TwoItems, DigitsMatch, Packed, WithKid, IsMinAge, Stale;
    UnderHere(I, s, d);
    if d < k {
      var e := Digit(s, d);
      UnderStep(I, s, d, k);
      assert Digit(x.rec.sign, d) == e;
      WriteGrows(Kid(n, e), Sub(I, d, e), s, d + 1, k, new_, x);
      GrowBranch(n, I, x, d, Write(Kid(n, e), s, d + 1, k, new_));
    }
  }

  // ---- a leaf added to a branch, a leaf split in two ----

  function AddLeaf(n: Node, e: nat, leaf: Node): Node
    requires n.Branch? && Packed(n) && e < 64
  {
    RankMonotone(n.bitmap, e, 64);
    var start := Rank(n.bitmap, e);
    Branch(Or(n.bitmap, Pow2(e)), |n.kids| == 63, n.kids[..start] + [leaf] + n.kids[start..], n.age)
  }

  lemma NotFull(b: nat, e: nat)
    requires e < 64 && !Bit(b, e)
    ensures Rank(b, 64) < 64
  {
    RankMonotone(b, 0, e);
    RankMonotone(b, e + 1, 64);
  }

  lemma KidsOfAdd(n: Node, e: nat, leaf: Node)
    requires n.Branch? && Packed(n) && e < 64 && !Bit(n.bitmap, e)
    ensures var m := AddLeaf(n, e, leaf);
            && Packed(m)
            && (forall f: nat :: f < 64 ==> (Bit(m.bitmap, f) <==> f == e || Bit(n.bitmap, f)))
            && (forall f: nat :: f < 64 && Bit(m.bitmap, f) ==> Kid(m, f) == if f == e then leaf else Kid(n, f))
  {
    hide Bit, Rank, Or, Pow2;
    var m := AddLeaf(n, e, leaf);
    SetBit(n.bitmap, e);
    NotFull(n.bitmap, e);
    RankMonotone(n.bitmap, e, 64);
    forall f: nat | f < 64 && Bit(m.bitmap, f)
      ensures Kid(m, f) == if f == e then leaf else Kid(n, f)
    {
      if f < e { RankMonotone(n.bitmap, f, e); } else { RankMonotone(n.bitmap, e, f); }
      RankMonotone(n.bitmap, f, 64);
    }
  }

  lemma LeafRepresents(leaf: Node, d: nat)
    requires leaf.Leaf? && leaf.word <= MAX64
    ensures Represents(leaf, {ItemOf(leaf)}, d)
  {
  }

  lemma AddLeafRepresents(n: Node, I: set<Item>, d: nat, leaf: Node)
    requires n.Branch? && Represents(n, I, d) && leaf.Leaf? && leaf.word <= MAX64
    requires !Bit(n.bitmap, Digit(leaf.sign, d))
    requires forall it :: it in I ==> it.age <= ItemOf(leaf).age
    ensures Represents(AddLeaf(n, Digit(leaf.sign, d), leaf), I + {ItemOf(leaf)}, d)
  {
    hide Bit, Rank, Or, Pow2, Digit, Sub, TwoItems, IsMinAge, Stale, AddLeaf, GetKind, GetAge, GetSize;
    var e, x := Digit(leaf.sign, d), ItemOf(leaf);
    KidsOfAdd(n, e, leaf);
    AddLeafAge(n, e, leaf);
    var m := AddLeaf(n, e, leaf);
    TwoSpread(I, I + {x});
    MinGrow(I, x, n.age);
    forall f: nat | f < 64
      ensures Sub(I + {x}, d, f) == if f == e then Sub(I, d, f) + {x} else Sub(I, d, f)
    {
      SubGrow(I, x, d, f);
    }
    LeafRepresents(leaf, d + 1);
    assert DigitsMatch(m, I + {x}, d);
    assert Sub(I, d, e) == {};
  }

  lemma AddLeafAge(n: Node, e: nat, leaf: Node)
    requires n.Branch? && Packed(n) && e < 64
    ensures AddLeaf(n, e, leaf).Branch? && AddLeaf(n, e, leaf).age == n.age
  {
  }

  // The branch that tells two leaves apart.
  function Fork(t: Node, x: Node, dice: nat, udice: nat, age: nat): Node {
    Branch(Or(Pow2(dice), Pow2(udice)), false, if dice < udice then [t, x] else [x, t], age)
  }

  // One single-child branch per shared digit, then the fork; no more than ten digits are compared.
  function Split(t: Node, x: Node, k: nat, age: nat): Node
    requires t.Leaf? && x.Leaf? && k <= 10
    decreases 10 - k
  {
    if k < 10 && Digit(t.sign, k) == Digit(x.sign, k) then
      Branch(Pow2(Digit(t.sign, k)), false, [Split(t, x, k + 1, age)], age)
    else
      var last := if k < 10 then k else 9;
      Fork(t, x, Digit(t.sign, last), Digit(x.sign, last), age)
  }

  lemma OneBit(e: nat)
    requires e < 64
    ensures Pow2(e) <= MAX64 && (forall f: nat :: Bit(Pow2(e), f) <==> f == e)
    ensures forall f: nat :: Rank(Pow2(e), f) == if e < f then 1 else 0
  {
    forall f: nat
      ensures !Bit(0, f) && Rank(0, f) == 0
    {
      BitZero(f);
      RankOfZero(f);
    }
    Pow2Values();
    SetBit(0, e);
  }

  lemma {:induction false} RankOfZero(f: nat)
    ensures Rank(0, f) == 0
  {
    if f > 0 {
      RankOfZero(f - 1);
      BitZero(f - 1);
    }
  }

  lemma KidsOfFork(t: Node, x: Node, dice: nat, udice: nat, age: nat)
    requires dice < 64 && udice < 64 && dice != udice
    ensures var m := Fork(t, x, dice, udice, age);
            && Packed(m)
            && (forall f: nat :: f < 64 ==> (Bit(m.bitmap, f) <==> f == dice || f == udice))
            && Kid(m, dice) == t && Kid(m, udice) == x
  {
    hide Bit, Rank, Or, Pow2;
    OneBit(dice);
    SetBit(Pow2(dice), udice);
  }

  lemma PairItems(x: Item, y: Item, d: nat)
    requires x != y
    ensures TwoItems({x, y})
    ensures x.age <= y.age ==> IsMinAge({x, y}, x.age)
    ensures forall f: nat :: Sub({x, y}, d, f) ==
              (if Digit(x.rec.sign, d) == f then {x} else {}) + (if Digit(y.rec.sign, d) == f then {y} else {})
  {
    assert x in {x, y} && y in {x, y};
  }

  lemma ForkRepresents(t: Node, x: Node, k: nat)
    requires t.Leaf? && x.Leaf? && t.word <= MAX64 && x.word <= MAX64
    requires Digit(t.sign, k) != Digit(x.sign, k)
    requires ItemOf(t).age <= ItemOf(x).age
    ensures Represents(Fork(t, x, Digit(t.sign, k), Digit(x.sign, k), NodeAge(t)), {ItemOf(t), ItemOf(x)}, k)
  {
    hide Bit, Rank, Or, Pow2, Digit, Sub, TwoItems, IsMinAge, GetKind, GetAge, GetSize, And, Shr;
    var m := Fork(t, x, Digit(t.sign, k), Digit(x.sign, k), NodeAge(t));
    KidsOfFork(t, x, Digit(t.sign, k), Digit(x.sign, k), NodeAge(t));
    PairItems(ItemOf(t), ItemOf(x), k);
    LeafRepresents(t, k + 1);
    LeafRepresents(x, k + 1);
  }

  // Two leaves whose paths part before depth ten.
  lemma {:induction false} SplitRepresents(t: Node, x: Node, k: nat)
    requires t.Leaf? && x.Leaf? && t.word <= MAX64 && x.word <= MAX64 && k <= 10
    requires exists j :: k <= j < 10 && Digit(t.sign, j) != Digit(x.sign, j)
    requires ItemOf(t).age <= ItemOf(x).age
    ensures Represents(Split(t, x, k, NodeAge(t)), {ItemOf(t), ItemOf(x)}, k)
    decreases 10 - k
  {
    hide Bit, Rank, Or, Pow2, Digit, Sub, TwoItems, IsMinAge, GetKind, GetAge, GetSize, And, Shr, Fork;
    var e := Digit(t.sign, k);
    var i, j := ItemOf(t), ItemOf(x);
    if Digit(x.sign, k) == e {
      SplitRepresents(t, x, k + 1);
      OneBit(e);
      PairItems(i, j, k);
      var m := Split(t, x, k, NodeAge(t));
      assert m.Branch? && m.bitmap == Pow2(e);
      assert Packed(m);
      assert {i} + {j} == {i, j};
      assert DigitsMatch(m, {i, j}, k);
      assert Kid(m, e) == Split(t, x, k + 1, NodeAge(t));
    } else {
      ForkRepresents(t, x, k);
    }
  }

  // ---- looking a signature up ----

  datatype Option<T> = None | Some(value: T)

  // The depth at which the walk along s stops; ten nodes are inspected, no more.
  function Seek(n: Node, s: nat, d: nat): Option<nat>
    requires d <= 10
    decreases 10 - d
  {
    if d == 10 then None
    else if n.Branch? && Packed(n) && Bit(n.bitmap, Digit(s, d)) then Seek(Kid(n, Digit(s, d)), s, d + 1)
    else Some(d)
  }

  lemma {:induction false} SeekPath(n: Node, s: nat, d: nat)
    requires d <= 10 && Seek(n, s, d).Some?
    ensures var k := Seek(n, s, d).value;
            && d <= k < 10 && OnPath(n, s, d, k)
            && (var m := At(n, s, d, k); m.Branch? && Packed(m) ==> !Bit(m.bitmap, Digit(s, k)))
    decreases 10 - d
  {
    hide Bit, Rank, Digit;
    if d < 10 && n.Branch? && Packed(n) && Bit(n.bitmap, Digit(s, d)) {
      SeekPath(Kid(n, Digit(s, d)), s, d + 1);
    }
  }

  lemma {:induction false} AtRepresents(n: Node, I: set<Item>, s: nat, d: nat, k: nat)
    requires d <= k && OnPath(n, s, d, k) && Represents(n, I, d)
    ensures Represents(At(n, s, d, k), Under(I, s, d, k), k)
    decreases k - d
  {
    hide Bit, Rank, Digit, TwoItems, IsMinAge;
    UnderHere(I, s, d);
    if d < k {
      UnderStep(I, s, d, k);
      AtRepresents(Kid(n, Digit(s, d)), Sub(I, d, Digit(s, d)), s, d + 1, k);
    }
  }

  lemma {:induction false} AtStale(n: Node, I: set<Item>, s: nat, d: nat, k: nat)
    requires d <= k && OnPath(n, s, d, k) && Stale(n, I, s, d)
    ensures Stale(At(n, s, d, k), Under(I, s, d, k), s, k)
    decreases k - d
  {
    hide Bit, Rank, Digit, TwoItems, IsMinAge, Represents;
    UnderHere(I, s, d);
    if d < k {
      UnderStep(I, s, d, k);
      AtStale(Kid(n, Digit(s, d)), Sub(I, d, Digit(s, d)), s, d + 1, k);
    }
  }

  lemma CohesiveSub(I: set<Item>, d: nat, e: nat)
    requires Cohesive(I, d)
    ensures Cohesive(Sub(I, d, e), d + 1)
  {
    hide Digit;
  }

  // Distinct low 54 bits keep every leaf within nine digits.
  lemma DeepIsLeaf(n: Node, I: set<Item>, s: nat, d: nat)
    requires Stale(n, I, s, d) && Cohesive(I, d) && Distinct54(I) && d >= 9
    ensures n.Leaf?
  {
    hide Bit, Rank, Digit, Represents, DigitsMatch;
  }

  lemma {:induction false} SeekSucceeds(n: Node, I: set<Item>, s: nat, d: nat)
    requires Stale(n, I, s, d) && Cohesive(I, d) && Distinct54(I) && d <= 9
    ensures Seek(n, s, d).Some?
    decreases 10 - d
  {
    hide Bit, Rank, Digit, TwoItems, IsMinAge, Represents, SamePrefix;
    if n.Branch? && Packed(n) && Bit(n.bitmap, Digit(s, d)) {
      CohesiveSub(I, d, Digit(s, d));
      if d == 9 {
        DeepIsLeaf(n, I, s, d);
      } else {
        SeekSucceeds(Kid(n, Digit(s, d)), Sub(I, d, Digit(s, d)), s, d + 1);
      }
    }
  }

  // The entry a walk finds: the leaf's own when its signature matches.
  ghost predicate Holds(I: set<Item>, s: nat) {
    exists it :: it in I && it.rec.sign == s
  }

  lemma SeekDecides(n: Node, I: set<Item>, s: nat)
    requires Represents(n, I, 0) && Seek(n, s, 0).Some?
    ensures OnPath(n, s, 0, Seek(n, s, 0).value)
    ensures var m := At(n, s, 0, Seek(n, s, 0).value);
            && (m.Leaf? && m.sign == s ==> ItemOf(m) in I)
            && (!(m.Leaf? && m.sign == s) ==> !Holds(I, s))
            && (m.Leaf? && m.sign == s ==> forall it :: it in I && it.rec.sign == s ==> it == ItemOf(m))
  {
    hide Bit, Rank, Digit, TwoItems, IsMinAge, GetKind, GetAge, GetSize;
    SeekPath(n, s, 0);
    var k := Seek(n, s, 0).value;
    AtRepresents(n, I, s, 0, k);
    var m, U := At(n, s, 0, k), Under(I, s, 0, k);
    assert forall it :: it in I && it.rec.sign == s ==> it in U;
    if m.Branch? {
      forall it | it in U
        ensures it.rec.sign != s
      {
        assert Sub(U, k, Digit(s, k)) == {};
        assert Digit(it.rec.sign, k) == Digit(s, k) ==> it in Sub(U, k, Digit(s, k));
      }
    }
  }

  // ---- reads after writes ----

  lemma {:induction false} WriteAt(n: Node, s: nat, d: nat, j: nat, k: nat, new_: Node)
    requires d <= j <= k && OnPath(n, s, d, k)
    ensures OnPath(Write(n, s, d, k, new_), s, d, j) && OnPath(n, s, d, j)
    ensures OnPath(At(n, s, d, j), s, j, k)
    ensures At(Write(n, s, d, k, new_), s, d, j) == Write(At(n, s, d, j), s, j, k, new_)
    ensures At(n, s, d, k) == At(At(n, s, d, j), s, j, k)
    ensures Write(n, s, d, k, new_) == Write(n, s, d, j, Write(At(n, s, d, j), s, j, k, new_))
    decreases j - d
  {
    hide Bit, Rank, Digit;
    if d < j {
      WriteAt(Kid(n, Digit(s, d)), s, d + 1, j, k, new_);
    }
  }

  lemma {:induction false} WriteWrite(n: Node, s: nat, d: nat, k: nat, a: Node, b: Node)
    requires d <= k && OnPath(n, s, d, k)
    ensures OnPath(Write(n, s, d, k, a), s, d, k)
    ensures Write(Write(n, s, d, k, a), s, d, k, b) == Write(n, s, d, k, b)
    decreases k - d
  {
    hide Bit, Digit;
    if d < k {
      WriteWrite(Kid(n, Digit(s, d)), s, d + 1, k, a, b);
    }
  }

  lemma {:induction false} WriteBack(n: Node, s: nat, d: nat, k: nat)
    requires d <= k && OnPath(n, s, d, k)
    ensures Write(n, s, d, k, At(n, s, d, k)) == n
    decreases k - d
  {
    hide Bit, Digit;
    if d < k {
      WriteBack(Kid(n, Digit(s, d)), s, d + 1, k);
    }
  }

  // ---- ages ----

  // The smallest age in a child array, scanned from the front.
  function MinAgeOf(kids: seq<Node>): nat
    requires |kids| > 0
  {
    var last := NodeAge(kids[|kids| - 1]);
    if |kids| == 1 then last
    else
      var m := MinAgeOf(kids[..|kids| - 1]);
      if last < m then last else m
  }

  lemma {:induction false} MinAgeOfIsLeast(kids: seq<Node>)
    requires |kids| > 0
    ensures forall i :: 0 <= i < |kids| ==> MinAgeOf(kids) <= NodeAge(kids[i])
    ensures exists i :: 0 <= i < |kids| && MinAgeOf(kids) == NodeAge(kids[i])
  {
    hide NodeAge;
    var n := |kids| - 1;
    if n == 0 {
      assert MinAgeOf(kids) == NodeAge(kids[0]);
    } else {
      var front := kids[..n];
      MinAgeOfIsLeast(front);
      forall j | 0 <= j < |kids|
        ensures MinAgeOf(kids) <= NodeAge(kids[j])
      {
        if j < n { assert front[j] == kids[j]; }
      }
      if NodeAge(kids[n]) < MinAgeOf(front) {
        assert MinAgeOf(kids) == NodeAge(kids[n]);
      } else {
        var i :| 0 <= i < |front| && MinAgeOf(front) == NodeAge(front[i]);
        assert front[i] == kids[i];
        assert MinAgeOf(kids) == NodeAge(kids[i]);
      }
    }
  }

  lemma NodeAgeIsMin(n: Node, I: set<Item>, d: nat)
    requires Represents(n, I, d)
    ensures IsMinAge(I, NodeAge(n))
  {
    hide GetKind, GetAge, GetSize;
    if n.Leaf? { assert ItemOf(n) in I; }
  }

  // The digit that the j-th child stands for.
  lemma KidAt(n: Node, j: nat) returns (e: nat)
    requires n.Branch? && Packed(n) && j < |n.kids|
    ensures e < 64 && Bit(n.bitmap, e) && Rank(n.bitmap, e) == j && Kid(n, e) == n.kids[j]
  {
    e := SelectPosition(n.bitmap, 64, j);
  }

  lemma SubOf(I: set<Item>, d: nat, it: Item)
    requires it in I
    ensures it in Sub(I, d, Digit(it.rec.sign, d))
  {
  }

  // The children's ages give the age of the branch.
  lemma BranchAge(n: Node, I: set<Item>, d: nat)
    requires n.Branch? && Packed(n) && I != {} && DigitsMatch(n, I, d)
    requires forall e: nat :: e < 64 && Bit(n.bitmap, e) ==> Represents(Kid(n, e), Sub(I, d, e), d + 1)
    ensures |n.kids| > 0 && IsMinAge(I, MinAgeOf(n.kids))
  {
    hide Bit, Rank, Digit, NodeAge, MinAgeOf, Represents;
    forall it | it in I
      ensures |n.kids| > 0 && MinAgeOf(n.kids) <= it.age
    {
      var e := Digit(it.rec.sign, d);
      SubOf(I, d, it);
      KidIndex(n, e);
      NodeAgeIsMin(Kid(n, e), Sub(I, d, e), d + 1);
      MinAgeOfIsLeast(n.kids);
    }
    var some :| some in I;
    MinAgeOfIsLeast(n.kids);
    var i: nat :| i < |n.kids| && MinAgeOf(n.kids) == NodeAge(n.kids[i]);
    var e := KidAt(n, i);
    NodeAgeIsMin(Kid(n, e), Sub(I, d, e), d + 1);
    var it :| it in Sub(I, d, e) && it.age == NodeAge(Kid(n, e));
    assert it in I;
  }

  lemma KidIndex(n: Node, e: nat)
    requires n.Branch? && Packed(n) && e < 64 && Bit(n.bitmap, e)
    ensures Rank(n.bitmap, e) < |n.kids| && Kid(n, e) == n.kids[Rank(n.bitmap, e)]
  {
    RankMonotone(n.bitmap, e, 64);
  }

  function WithMinAge(n: Node): Node
    requires n.Branch? && |n.kids| > 0
  {
    n.(age := MinAgeOf(n.kids))
  }

  // Ages recomputed along the path of s, from the stopping node up.
  function Aged(n: Node, s: nat, d: nat): Node
    decreases n
  {
    if n.Leaf? || !Packed(n) || |n.kids| == 0 then n
    else if Bit(n.bitmap, Digit(s, d)) then
      WithMinAge(WithKid(n, Digit(s, d), Aged(Kid(n, Digit(s, d)), s, d + 1)))
    else WithMinAge(n)
  }

  lemma {:induction false} AgedRepresents(n: Node, I: set<Item>, s: nat, d: nat)
    requires Stale(n, I, s, d)
    ensures Represents(Aged(n, s, d), I, d)
    decreases n
  {
    hide Bit, Rank, Digit, NodeAge, MinAgeOf, Sub, IsMinAge, TwoItems;
    if n.Branch? {
      assert I != {} by { TwoIsSome(I); }
      var e := Digit(s, d);
      if Bit(n.bitmap, e) {
        AgedRepresents(Kid(n, e), Sub(I, d, e), s, d + 1);
        var m := WithKid(n, e, Aged(Kid(n, e), s, d + 1));
        assert DigitsMatch(m, I, d);
        BranchAge(m, I, d);
        KidsOfMinAge(m);
      } else {
        BranchAge(n, I, d);
        KidsOfMinAge(n);
      }
    }
  }

  lemma TwoIsSome(I: set<Item>)
    requires TwoItems(I)
    ensures I != {}
  {
  }

  lemma KidsOfMinAge(n: Node)
    requires n.Branch? && Packed(n) && |n.kids| > 0
    ensures Packed(WithMinAge(n))
    ensures forall e: nat :: e < 64 && Bit(n.bitmap, e) ==> Kid(WithMinAge(n), e) == Kid(n, e)
  {
  }

  // One step of the walk back up.
  lemma AgedStep(n: Node, s: nat, d: nat)
    requires n.Branch? && Packed(n) && |n.kids| > 0 && Bit(n.bitmap, Digit(s, d))
    ensures Aged(n, s, d) == WithMinAge(Write(n, s, d, d + 1, Aged(At(n, s, d, d + 1), s, d + 1)))
  {
  }

  // ---- taking an entry away ----

  function DropKid(n: Node, e: nat): Node
    requires n.Branch? && Packed(n) && e < 64 && Bit(n.bitmap, e)
  {
    RankMonotone(n.bitmap, e, 64);
    ClearBit(n.bitmap, e);
    var start := Rank(n.bitmap, e);
    Branch(And(n.bitmap, Not64(Pow2(e))), false, n.kids[..start] + n.kids[start + 1..], n.age)
  }

  lemma KidsOfDrop(n: Node, e: nat)
    requires n.Branch? && Packed(n) && e < 64 && Bit(n.bitmap, e)
    ensures var m := DropKid(n, e);
            && m.Branch? && Packed(m)
            && (forall f: nat :: f < 64 ==> (Bit(m.bitmap, f) <==> f != e && Bit(n.bitmap, f)))
            && (forall f: nat :: f < 64 && Bit(m.bitmap, f) ==> Kid(m, f) == Kid(n, f))
  {
    hide Bit, Rank, And, Pow2, Not64;
    var m := DropKid(n, e);
    ClearBit(n.bitmap, e);
    AtMost64(n.bitmap);
    RankMonotone(n.bitmap, e, 64);
    forall f: nat | f < 64 && Bit(m.bitmap, f)
      ensures Kid(m, f) == Kid(n, f)
    {
      RankMonotone(n.bitmap, f, 64);
      if f < e { RankMonotone(n.bitmap, f, e); } else { RankMonotone(n.bitmap, e, f); }
    }
  }

  lemma AtMost64(b: nat)
    ensures Rank(b, 64) <= 64
  {
    RankMonotone(b, 0, 64);
  }

  lemma SubDrop(I: set<Item>, x: Item, d: nat, f: nat)
    ensures Sub(I - {x}, d, f) == if f == Digit(x.rec.sign, d) then Sub(I, d, f) - {x} else Sub(I, d, f)
  {
  }

  lemma DropStale(n: Node, I: set<Item>, s: nat, d: nat, x: Item)
    requires n.Branch? && Represents(n, I, d) && x.rec.sign == s
    requires Bit(n.bitmap, Digit(s, d)) && Sub(I, d, Digit(s, d)) == {x}
    requires TwoItems(I - {x})
    ensures Stale(DropKid(n, Digit(s, d)), I - {x}, s, d)
  {
    hide Bit, Rank, Digit, NodeAge, Sub, IsMinAge, TwoItems, DropKid;
    var e := Digit(s, d);
    KidsOfDrop(n, e);
    var m := DropKid(n, e);
    forall f: nat | f < 64
      ensures Sub(I - {x}, d, f) == if f == e then {} else Sub(I, d, f)
    {
      SubDrop(I, x, d, f);
    }
    assert DigitsMatch(m, I - {x}, d);
  }

  // Two entries in different children.
  lemma ApartItems(I: set<Item>, d: nat, f: nat, g: nat, x: Item)
    requires f != g && Sub(I, d, f) != {} && Sub(I, d, g) != {}
    requires f != Digit(x.rec.sign, d) && g != Digit(x.rec.sign, d)
    ensures TwoItems(I - {x})
  {
    hide Digit;
    var y :| y in Sub(I, d, f);
    var z :| z in Sub(I, d, g);
    assert y in I - {x} && z in I - {x} && y != z;
  }

  // With more than two children, two entries stay when one leaf goes.
  lemma ManyKids(n: Node, I: set<Item>, d: nat, x: Item)
    requires n.Branch? && Represents(n, I, d) && |n.kids| > 2
    requires Bit(n.bitmap, Digit(x.rec.sign, d))
    ensures TwoItems(I - {x})
  {
    hide Bit, Rank, Digit, Sub, IsMinAge, TwoItems, NodeAge;
    var e := Digit(x.rec.sign, d);
    KidIndex(n, e);
    var r := Rank(n.bitmap, e);
    var f := KidAt(n, if r == 0 then 1 else 0);
    var g := KidAt(n, if r == 2 then 1 else 2);
    ApartItems(I, d, f, g, x);
  }

  lemma SiblingDigit(n: Node, e: nat) returns (f: nat)
    requires n.Branch? && Packed(n) && |n.kids| == 2 && e < 64 && Bit(n.bitmap, e)
    ensures Rank(n.bitmap, e) < 2
    ensures f < 64 && f != e && Bit(n.bitmap, f) && Kid(n, f) == n.kids[1 - Rank(n.bitmap, e)]
    ensures forall g: nat :: g < 64 && Bit(n.bitmap, g) ==> g == e || g == f
  {
    hide Bit, Rank;
    KidIndex(n, e);
    f := KidAt(n, 1 - Rank(n.bitmap, e));
    forall g: nat | g < 64 && Bit(n.bitmap, g)
      ensures g == e || g == f
    {
      KidIndex(n, g);
      if g != e && g != f {
        RanksDiffer(n.bitmap, g, e);
        RanksDiffer(n.bitmap, g, f);
      }
    }
  }

  // A sibling that is a branch keeps two entries by itself.
  lemma BranchSibling(n: Node, I: set<Item>, d: nat, x: Item)
    requires n.Branch? && Represents(n, I, d) && |n.kids| == 2
    requires Bit(n.bitmap, Digit(x.rec.sign, d))
    requires Rank(n.bitmap, Digit(x.rec.sign, d)) < 2 && n.kids[1 - Rank(n.bitmap, Digit(x.rec.sign, d))].Branch?
    ensures TwoItems(I - {x})
  {
    hide Bit, Rank, Digit, IsMinAge, TwoItems, NodeAge;
    var f := SiblingDigit(n, Digit(x.rec.sign, d));
    TwoSpread(Sub(I, d, f), I - {x});
  }

  // A sibling that is a leaf is the only other entry.
  lemma LeafSibling(n: Node, I: set<Item>, d: nat, x: Item)
    requires n.Branch? && Represents(n, I, d) && |n.kids| == 2
    requires Bit(n.bitmap, Digit(x.rec.sign, d)) && Sub(I, d, Digit(x.rec.sign, d)) == {x}
    requires Rank(n.bitmap, Digit(x.rec.sign, d)) < 2 && n.kids[1 - Rank(n.bitmap, Digit(x.rec.sign, d))].Leaf?
    ensures var y := ItemOf(n.kids[1 - Rank(n.bitmap, Digit(x.rec.sign, d))]);
            I == {x, y} && x != y && n.kids[1 - Rank(n.bitmap, Digit(x.rec.sign, d))].word <= MAX64
  {
    hide Bit, Rank, Digit, IsMinAge, TwoItems, NodeAge, GetKind, GetAge, GetSize;
    var e := Digit(x.rec.sign, d);
    var f := SiblingDigit(n, e);
    var y := ItemOf(Kid(n, f));
    assert Sub(I, d, f) == {y};
    forall it | it in I
      ensures it == x || it == y
    {
      SubOf(I, d, it);
    }
    assert y in Sub(I, d, f) && x in Sub(I, d, e);
  }

  // A single child holds every entry of its parent.
  lemma OnlyKid(n: Node, I: set<Item>, d: nat, e: nat)
    requires n.Branch? && Represents(n, I, d) && |n.kids| == 1 && e < 64 && Bit(n.bitmap, e)
    ensures Sub(I, d, e) == I
  {
    hide Bit, Rank, Digit, IsMinAge, TwoItems, NodeAge, Represents;
    forall it | it in I
      ensures it in Sub(I, d, e)
    {
      var f := Digit(it.rec.sign, d);
      SubOf(I, d, it);
      assert Bit(n.bitmap, f) by { OpenDigits(n, I, d); }
      OpenDigits(n, I, d);
      KidIndex(n, e);
      KidIndex(n, f);
      if f != e { RanksDiffer(n.bitmap, e, f); }
    }
  }

  lemma OpenDigits(n: Node, I: set<Item>, d: nat)
    requires n.Branch? && Represents(n, I, d)
    ensures Packed(n) && DigitsMatch(n, I, d)
  {
  }

  // Several children leave an entry outside any one of them.
  lemma NotOnlyKid(n: Node, I: set<Item>, d: nat, e: nat) returns (z: Item)
    requires n.Branch? && Represents(n, I, d) && |n.kids| > 1 && e < 64 && Bit(n.bitmap, e)
    ensures z in I && z !in Sub(I, d, e)
  {
    hide Bit, Rank, Digit, IsMinAge, TwoItems, NodeAge, Represents;
    OpenDigits(n, I, d);
    KidIndex(n, e);
    var f := KidAt(n, if Rank(n.bitmap, e) == 0 then 1 else 0);
    z :| z in Sub(I, d, f);
  }

  // ---- the trie is a function of its entries ----

  lemma {:induction false} Canonical(m: Node, n: Node, I: set<Item>, d: nat)
    requires Represents(m, I, d) && Represents(n, I, d)
    ensures m == n
    decreases m
  {
    hide Bit, Rank, Digit, Sub, NodeAge, GetKind, GetAge, GetSize;
    if m.Leaf? && n.Leaf? {
      assert ItemOf(m) in I;
      FieldsDetermineWord(m.word, n.word);
    } else if m.Branch? && n.Branch? {
      SameBitmap(m, n, I, d);
      SameAge(I, m.age, n.age);
      forall j: nat | j < |m.kids|
        ensures m.kids[j] == n.kids[j]
      {
        var e := KidAt(m, j);
        KidIndex(n, e);
        Canonical(Kid(m, e), Kid(n, e), Sub(I, d, e), d + 1);
      }
      assert m.kids == n.kids;
    } else {
      OneIsNotTwo(I, if m.Leaf? then ItemOf(m) else ItemOf(n));
    }
  }

  lemma OneIsNotTwo(I: set<Item>, x: Item)
    ensures !(I == {x} && TwoItems(I))
  {
  }

  lemma SameAge(I: set<Item>, a: nat, b: nat)
    requires IsMinAge(I, a) && IsMinAge(I, b)
    ensures a == b
  {
  }

  lemma SameBitmap(m: Node, n: Node, I: set<Item>, d: nat)
    requires m.Branch? && n.Branch? && Packed(m) && Packed(n)
    requires DigitsMatch(m, I, d) && DigitsMatch(n, I, d)
    ensures m.bitmap == n.bitmap
  {
    hide Bit, Rank, Digit, Sub;
    Pow2Values();
    SameBits(m.bitmap, n.bitmap, 64);
  }

  ghost predicate Occurs(I: set<Item>, d: nat, e: nat) {
    exists it :: it in I && Digit(it.rec.sign, d) == e
  }

  // A node is a leaf exactly when one entry lies under it, and its full flag
  // is set exactly when all sixty-four digits occur.
  lemma NodeShape(n: Node, I: set<Item>, s: nat, k: nat)
    requires Represents(n, I, 0) && OnPath(n, s, 0, k)
    ensures var m, U := At(n, s, 0, k), Under(I, s, 0, k);
            && U != {}
            && (m.Branch? <==> TwoItems(U))
            && (m.Branch? ==> (m.full <==> forall e: nat :: e < 64 ==> Occurs(U, k, e)))
            && (m.Branch? ==> IsMinAge(U, m.age))
  {
    hide Bit, Rank, Digit, GetKind, GetAge, GetSize, IsMinAge;
    AtRepresents(n, I, s, 0, k);
    var m, U := At(n, s, 0, k), Under(I, s, 0, k);
    if m.Branch? {
      FullMeansAll(m.bitmap, 64);
      forall e: nat | e < 64
        ensures Bit(m.bitmap, e) <==> Occurs(U, k, e)
      {
        if Bit(m.bitmap, e) {
          var it :| it in Sub(U, k, e);
          assert it in U && Digit(it.rec.sign, k) == e;
        }
        if it :| it in U && Digit(it.rec.sign, k) == e {
          SubOf(U, k, it);
        }
      }
      assert AllSet(m.bitmap, 64) <==> forall e: nat :: e < 64 ==> Occurs(U, k, e);
    } else {
      OneIsNotTwo(U, ItemOf(m));
    }
  }

  ghost predicate AllSet(b: nat, w: nat) {
    forall e: nat :: e < w ==> Bit(b, e)
  }

  lemma FullMeansAll(b: nat, w: nat)
    ensures Rank(b, w) == w <==> AllSet(b, w)
  {
    if Rank(b, w) == w {
      forall e: nat | e < w
        ensures Bit(b, e)
      {
        FullRank(b, w, e);
      }
    }
    if AllSet(b, w) { AllSetRank(b, w); }
  }

  lemma {:induction false} AllSetRank(b: nat, w: nat)
    requires AllSet(b, w)
    ensures Rank(b, w) == w
  {
    if w > 0 { AllSetRank(b, w - 1); }
  }

  // ---- the oldest entry ----

  // Some child of a branch carries the age of the branch.
  lemma OldestKid(n: Node, I: set<Item>, d: nat, j: nat)
    requires n.Branch? && Represents(n, I, d)
    ensures j < |n.kids| ==> NodeAge(n.kids[j]) >= n.age
    ensures exists i :: 0 <= i < |n.kids| && NodeAge(n.kids[i]) == n.age
  {
    hide Bit, Rank, Digit, NodeAge, TwoItems;
    if j < |n.kids| {
      var e := KidAt(n, j);
      NodeAgeIsMin(Kid(n, e), Sub(I, d, e), d + 1);
    }
    var it :| it in I && it.age == n.age;
    var e := Digit(it.rec.sign, d);
    SubOf(I, d, it);
    KidIndex(n, e);
    NodeAgeIsMin(Kid(n, e), Sub(I, d, e), d + 1);
    assert NodeAge(n.kids[Rank(n.bitmap, e)]) == n.age;
  }
}
