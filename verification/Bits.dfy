/**
 Unsigned words as natural numbers, with the bitwise operators the cache uses
 defined bit by bit, and the population count that ranks a child in its array.
 */
module Bits {

  function Pow2(k: nat): (p: nat)
    ensures p > 0
  {
    if k == 0 then 1 else 2 * Pow2(k - 1)
  }

  function And(a: nat, b: nat): nat {
    if a == 0 || b == 0 then 0
    else (if a % 2 == 1 && b % 2 == 1 then 1 else 0) + 2 * And(a / 2, b / 2)
  }

  function Or(a: nat, b: nat): nat {
    if a == 0 then b
    else if b == 0 then a
    else (if a % 2 == 1 || b % 2 == 1 then 1 else 0) + 2 * Or(a / 2, b / 2)
  }

  function Shl(a: nat, k: nat): nat {
    if k == 0 then a else 2 * Shl(a, k - 1)
  }

  function Shr(a: nat, k: nat): nat {
    if k == 0 then a else Shr(a / 2, k - 1)
  }

  const MAX64: nat := 0xFFFF_FFFF_FFFF_FFFF

  // The 64-bit complement.
  function Not64(a: nat): nat
    requires a <= MAX64
  {
    MAX64 - a
  }

  predicate Bit(b: nat, d: nat) {
    if d == 0 then b % 2 == 1 else Bit(b / 2, d - 1)
  }

  // The number of set bits strictly below position d.
  function Rank(b: nat, d: nat): nat {
    if d == 0 then 0 else Rank(b, d - 1) + (if Bit(b, d - 1) then 1 else 0)
  }

  function PopCount(n: nat): nat {
    if n == 0 then 0 else n % 2 + PopCount(n / 2)
  }

  // ---- bits of the operators ----

  lemma {:induction false} BitZero(d: nat)
    ensures !Bit(0, d)
  {
    if d > 0 { BitZero(d - 1); }
  }

  lemma {:induction false} BitAnd(a: nat, b: nat, d: nat)
    ensures Bit(And(a, b), d) <==> Bit(a, d) && Bit(b, d)
  {
    if a == 0 || b == 0 {
      BitZero(d);
    } else if d > 0 {
      BitAnd(a / 2, b / 2, d - 1);
      assert And(a, b) / 2 == And(a / 2, b / 2);
    }
  }

  lemma {:induction false} BitOr(a: nat, b: nat, d: nat)
    ensures Bit(Or(a, b), d) <==> Bit(a, d) || Bit(b, d)
  {
    if a == 0 || b == 0 {
      BitZero(d);
    } else if d > 0 {
      BitOr(a / 2, b / 2, d - 1);
      assert Or(a, b) / 2 == Or(a / 2, b / 2);
    }
  }

  lemma {:induction false} BitPow2(k: nat, d: nat)
    ensures Bit(Pow2(k), d) <==> d == k
  {
    if k == 0 {
      if d > 0 { BitZero(d - 1); }
    } else if d > 0 {
      BitPow2(k - 1, d - 1);
      assert Pow2(k) / 2 == Pow2(k - 1);
    }
  }

  lemma {:induction false} BitMask(k: nat, d: nat)
    ensures Bit(Pow2(k) - 1, d) <==> d < k
  {
    if k == 0 {
      BitZero(d);
    } else if d > 0 {
      BitMask(k - 1, d - 1);
      assert (Pow2(k) - 1) / 2 == Pow2(k - 1) - 1;
    }
  }

  lemma {:induction false} BitComplement(w: nat, a: nat, d: nat)
    requires a < Pow2(w) && d < w
    ensures Bit(Pow2(w) - 1 - a, d) <==> !Bit(a, d)
  {
    var c := Pow2(w) - 1 - a;
    assert c / 2 == Pow2(w - 1) - 1 - a / 2;
    if d > 0 { BitComplement(w - 1, a / 2, d - 1); }
  }

  lemma {:induction false} BitAbove(b: nat, w: nat, d: nat)
    requires b < Pow2(w) && w <= d
    ensures !Bit(b, d)
  {
    if w == 0 { BitZero(d); } else { BitAbove(b / 2, w - 1, d - 1); }
  }

  // A word is determined by its bits.
  lemma {:induction false} SameBits(a: nat, b: nat, w: nat)
    requires a < Pow2(w) && b < Pow2(w)
    requires forall d :: 0 <= d < w ==> (Bit(a, d) <==> Bit(b, d))
    ensures a == b
  {
    if w > 0 {
      forall d | 0 <= d < w - 1
        ensures Bit(a / 2, d) <==> Bit(b / 2, d)
      {
        assert Bit(a, d + 1) <==> Bit(b, d + 1);
      }
      SameBits(a / 2, b / 2, w - 1);
      assert Bit(a, 0) <==> Bit(b, 0);
    }
  }

  lemma {:induction false} OrBelow(a: nat, b: nat, w: nat)
    requires a < Pow2(w) && b < Pow2(w)
    ensures Or(a, b) < Pow2(w)
  {
    if w > 0 { OrBelow(a / 2, b / 2, w - 1); }
  }

  lemma {:induction false} AndBelow(a: nat, b: nat)
    ensures And(a, b) <= a && And(a, b) <= b
  {
    if a > 0 && b > 0 { AndBelow(a / 2, b / 2); }
  }

  lemma {:induction false} Pow2Monotone(i: nat, j: nat)
    requires i <= j
    ensures Pow2(i) <= Pow2(j)
  {
    if i < j { Pow2Monotone(i, j - 1); }
  }

  lemma {:induction false} Pow2Add(i: nat, j: nat)
    ensures Pow2(i + j) == Pow2(i) * Pow2(j)
  {
    if i > 0 { Pow2Add(i - 1, j); }
  }

  // ---- masks, shifts and disjoint unions ----

  lemma {:induction false} ShrShr(n: nat, i: nat, j: nat)
    ensures Shr(Shr(n, i), j) == Shr(n, i + j)
  {
    if i > 0 { ShrShr(n / 2, i - 1, j); }
  }

  lemma {:induction false} ShrZero(k: nat)
    ensures Shr(0, k) == 0 == Shl(0, k)
  {
    if k > 0 { ShrZero(k - 1); }
  }

  lemma {:induction false} ShrAll(m: nat, k: nat)
    requires m < Pow2(k)
    ensures Shr(m, k) == 0
  {
    if k > 0 { ShrAll(m / 2, k - 1); }
  }

  lemma {:induction false} ShlPositive(m: nat, k: nat)
    ensures m > 0 ==> Shl(m, k) > 0
    ensures m >= 0 && k > 0 ==> Shl(m, k) / 2 == Shl(m, k - 1)
  {
    if k > 0 { ShlPositive(m, k - 1); }
  }

  // Masking a field in place and shifting it down reads the field.
  lemma {:induction false} AndShifted(n: nat, m: nat, k: nat)
    ensures Shr(And(n, Shl(m, k)), k) == And(Shr(n, k), m)
  {
    ShlPositive(m, k);
    if n == 0 || m == 0 {
      ShrZero(k);
    } else if k > 0 {
      AndShifted(n / 2, m, k - 1);
      assert And(n, Shl(m, k)) / 2 == And(n / 2, Shl(m, k - 1));
    }
  }

  // A field or-ed above k low bits adds to them, and both can be read back.
  lemma {:induction false} OrField(a: nat, b: nat, k: nat)
    requires b < Pow2(k)
    ensures Shr(Or(Shl(a, k), b), k) == a
    ensures And(Or(Shl(a, k), b), Pow2(k) - 1) == b
  {
    if k == 0 {
    } else {
      ShlPositive(a, k);
      OrField(a, b / 2, k - 1);
      var v, u := Or(Shl(a, k), b), Or(Shl(a, k - 1), b / 2);
      assert v / 2 == u && v % 2 == b % 2;
      assert (Pow2(k) - 1) / 2 == Pow2(k - 1) - 1;
      if v > 0 {
        assert And(v, Pow2(k) - 1) == b % 2 + 2 * And(u, Pow2(k - 1) - 1);
      }
    }
  }

  // ---- population count and rank ----

  lemma {:induction false} RankHalf(b: nat, d: nat)
    requires d > 0
    ensures Rank(b, d) == b % 2 + Rank(b / 2, d - 1)
  {
    if d > 1 { RankHalf(b, d - 1); }
  }

  lemma {:induction false} PopCountIsRank(b: nat, w: nat)
    requires b < Pow2(w)
    ensures PopCount(b) == Rank(b, w)
  {
    if w > 0 {
      RankHalf(b, w);
      PopCountIsRank(b / 2, w - 1);
    }
  }

  lemma {:induction false} RankDependsOnBits(a: nat, b: nat, d: nat)
    requires forall e :: 0 <= e < d ==> (Bit(a, e) <==> Bit(b, e))
    ensures Rank(a, d) == Rank(b, d)
  {
    if d > 0 {
      RankDependsOnBits(a, b, d - 1);
      assert Bit(a, d - 1) <==> Bit(b, d - 1);
    }
  }

  // Counting the bits under the mask (1 << d) - 1 ranks position d.
  lemma PopCountUnderMask(b: nat, d: nat)
    ensures PopCount(And(Pow2(d) - 1, b)) == Rank(b, d)
  {
    var m := And(Pow2(d) - 1, b);
    AndBelow(Pow2(d) - 1, b);
    PopCountIsRank(m, d);
    forall e | 0 <= e < d
      ensures Bit(m, e) <==> Bit(b, e)
    {
      BitAnd(Pow2(d) - 1, b, e);
      BitMask(d, e);
    }
    RankDependsOnBits(m, b, d);
  }

  lemma {:induction false} PopCountSplit(n: nat, k: nat)
    ensures PopCount(n) == PopCount(And(n, Pow2(k) - 1)) + PopCount(Shr(n, k))
  {
    if n == 0 {
      ShrZero(k);
    } else if k > 0 {
      PopCountSplit(n / 2, k - 1);
      var m := And(n, Pow2(k) - 1);
      assert (Pow2(k) - 1) / 2 == Pow2(k - 1) - 1;
      assert m / 2 == And(n / 2, Pow2(k - 1) - 1) && m % 2 == n % 2;
    }
  }

  // The count of the w bits from position i on.
  function Piece(m: nat, i: nat, w: nat): nat {
    PopCount(And(Shr(m, i), Pow2(w) - 1))
  }

  lemma PieceStep(m: nat, i: nat, w: nat)
    ensures PopCount(Shr(m, i)) == Piece(m, i, w) + PopCount(Shr(m, i + w))
  {
    PopCountSplit(Shr(m, i), w);
    ShrShr(m, i, w);
  }

  // Four look-ups in a table of the counts of all 16-bit words.
  function ComputeBits(m: nat): nat {
    Piece(m, 0, 16) + Piece(m, 16, 16) + Piece(m, 32, 16) + Piece(m, 48, 16)
  }

  lemma Pow2Values()
    ensures Pow2(6) == 64 && Pow2(16) == 0x1_0000 && Pow2(28) == 0x1000_0000
    ensures Pow2(32) == 0x1_0000_0000 && Pow2(60) == 0x1000_0000_0000_0000 && Pow2(64) == MAX64 + 1
  {
    assert Pow2(4) == 16;
    Pow2Add(2, 4);
    Pow2Add(4, 4);
    Pow2Add(8, 8);
    Pow2Add(4, 8);
    Pow2Add(12, 16);
    Pow2Add(16, 16);
    Pow2Add(28, 32);
    Pow2Add(32, 32);
  }

  lemma ShrEnds(m: nat, k: nat)
    requires m < Pow2(k)
    ensures Shr(m, 0) == m && PopCount(Shr(m, k)) == 0
  {
    ShrAll(m, k);
  }

  lemma FourPieces(m: nat, w: nat)
    requires m < Pow2(4 * w)
    ensures PopCount(m) == Piece(m, 0, w) + Piece(m, w, w) + Piece(m, 2 * w, w) + Piece(m, 3 * w, w)
  {
    hide *;
    ShrEnds(m, 4 * w);
    PieceStep(m, 0, w);
    PieceStep(m, w, w);
    PieceStep(m, 2 * w, w);
    PieceStep(m, 3 * w, w);
  }

  // The table look-ups count every set bit of a 64-bit word.
  lemma ComputeBitsIsPopCount(m: nat)
    requires m <= MAX64
    ensures ComputeBits(m) == PopCount(m)
  {
    Pow2Values();
    FourPieces(m, 16);
  }

  lemma {:induction false} ClearLowest(n: nat)
    requires n > 0
    ensures And(n, n - 1) < n && PopCount(And(n, n - 1)) == PopCount(n) - 1
  {
    if n % 2 == 0 {
      ClearLowest(n / 2);
      assert (n - 1) / 2 == n / 2 - 1;
      assert And(n, n - 1) == 2 * And(n / 2, n / 2 - 1);
    } else {
      AndMaskSelf(n / 2);
      assert And(n, n - 1) == 2 * (n / 2);
    }
  }

  lemma {:induction false} AndMaskSelf(n: nat)
    ensures And(n, n) == n
  {
    if n > 0 { AndMaskSelf(n / 2); }
  }

  // Clears the lowest set bit until none is left.
  method SparseBitCount(n0: nat) returns (count: nat)
    ensures count == PopCount(n0)
  {
    var n := n0;
    count := 0;
    while n != 0
      invariant count + PopCount(n) == PopCount(n0)
      decreases n
    {
      ClearLowest(n);
      count := count + 1;
      n := And(n, n - 1);
    }
  }

  method Precompute16Bits(table: array<nat>)
    modifies table
    ensures forall i :: 0 <= i < table.Length ==> table[i] == PopCount(i)
  {
    var i := 0;
    while i < table.Length
      invariant 0 <= i <= table.Length
      invariant forall k :: 0 <= k < i ==> table[k] == PopCount(k)
    {
      var c := SparseBitCount(i);
      ghost var before := table[..];
      table[i] := c;
      assert table[..] == before[i := c];
      i := i + 1;
    }
  }

  // ---- ranks of the set positions ----

  lemma {:induction false} RankMonotone(b: nat, d: nat, e: nat)
    requires d <= e
    ensures Rank(b, d) <= Rank(b, e) <= Rank(b, d) + (e - d)
    ensures Bit(b, d) && d < e ==> Rank(b, d) < Rank(b, e)
  {
    if d < e { RankMonotone(b, d, e - 1); }
  }

  // Every index below the count is the rank of a set position.
  lemma {:induction false} SelectPosition(b: nat, w: nat, j: nat) returns (d: nat)
    requires j < Rank(b, w)
    ensures d < w && Bit(b, d) && Rank(b, d) == j
  {
    if Bit(b, w - 1) && Rank(b, w - 1) == j {
      d := w - 1;
    } else {
      d := SelectPosition(b, w - 1, j);
    }
  }

  // When every position is set, a position is its own rank.
  lemma {:induction false} FullRank(b: nat, w: nat, d: nat)
    requires Rank(b, w) == w && d < w
    ensures Bit(b, d) && Rank(b, d) == d
  {
    RankMonotone(b, 0, d);
    RankMonotone(b, d + 1, w);
  }

  lemma {:induction false} RankSetOne(b: nat, c: nat, d: nat, e: nat)
    requires !Bit(b, d) && Bit(c, d)
    requires forall x :: x >= 0 && x != d ==> (Bit(c, x) <==> Bit(b, x))
    ensures Rank(c, e) == Rank(b, e) + (if d < e then 1 else 0)
  {
    if e > 0 { RankSetOne(b, c, d, e - 1); }
  }

  // Setting a clear bit of a 64-bit word.
  lemma SetBit(b: nat, d: nat)
    requires b <= MAX64 && d < 64 && !Bit(b, d)
    ensures Or(b, Pow2(d)) <= MAX64
    ensures forall e: nat :: Bit(Or(b, Pow2(d)), e) <==> e == d || Bit(b, e)
    ensures forall e: nat :: Rank(Or(b, Pow2(d)), e) == Rank(b, e) + (if d < e then 1 else 0)
  {
    var c := Or(b, Pow2(d));
    Pow2Values();
    Pow2Monotone(d + 1, 64);
    OrBelow(b, Pow2(d), 64);
    forall e: nat
      ensures Bit(c, e) <==> e == d || Bit(b, e)
    {
      BitOr(b, Pow2(d), e);
      BitPow2(d, e);
    }
    forall e: nat
      ensures Rank(c, e) == Rank(b, e) + (if d < e then 1 else 0)
    {
      RankSetOne(b, c, d, e);
    }
  }

  // Clearing a set bit of a 64-bit word.
  lemma ClearBit(b: nat, d: nat)
    requires b <= MAX64 && d < 64 && Bit(b, d)
    ensures Pow2(d) <= MAX64 && And(b, Not64(Pow2(d))) <= MAX64
    ensures forall e: nat :: Bit(And(b, Not64(Pow2(d))), e) <==> e != d && Bit(b, e)
    ensures forall e: nat :: Rank(And(b, Not64(Pow2(d))), e) == Rank(b, e) - (if d < e then 1 else 0)
  {
    Pow2Values();
    Pow2Monotone(d + 1, 64);
    var c := And(b, Not64(Pow2(d)));
    AndBelow(b, Not64(Pow2(d)));
    forall e: nat
      ensures Bit(c, e) <==> e != d && Bit(b, e)
    {
      BitAnd(b, Not64(Pow2(d)), e);
      if e < 64 {
        BitComplement(64, Pow2(d), e);
        BitPow2(d, e);
      } else {
        BitAbove(b, 64, e);
      }
    }
    forall e: nat
      ensures Rank(c, e) == Rank(b, e) - (if d < e then 1 else 0)
    {
      RankSetOne(c, b, d, e);
    }
  }
}
