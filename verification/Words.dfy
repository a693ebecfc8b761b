/**
 The two 64-bit words of a cache entry: the signature, read six bits at a time
 as a path through the trie, and the packed type, age and size.
 */
module Words {
  import opened Bits

  // ---- signatures ----

  // The i-th six-bit digit of a signature, lowest first.
  function Digit(sign: nat, i: nat): (d: nat)
    ensures d < 64
  {
    Pow2Values();
    AndBelow(Shr(sign, 6 * i), Pow2(6) - 1);
    And(Shr(sign, 6 * i), Pow2(6) - 1)
  }

  // The digit as the trie walk reads it: a six-bit mask moved up the word.
  function Dice(sign: nat, i: nat): nat {
    Shr(And(sign, Shl(63, 6 * i)), 6 * i)
  }

  lemma DiceIsDigit(sign: nat, i: nat)
    ensures Dice(sign, i) == Digit(sign, i)
  {
    Pow2Values();
    AndShifted(sign, 63, 6 * i);
  }

  ghost predicate SamePrefix(s: nat, t: nat, k: nat) {
    forall j :: 0 <= j < k ==> Digit(s, j) == Digit(t, j)
  }

  lemma {:induction false} BitShr(n: nat, k: nat, d: nat)
    ensures Bit(Shr(n, k), d) <==> Bit(n, k + d)
  {
    if k > 0 { BitShr(n / 2, k - 1, d); }
  }

  lemma BitDigit(s: nat, j: nat, e: nat)
    requires e < 6
    ensures Bit(Digit(s, j), e) <==> Bit(s, 6 * j + e)
  {
    BitAnd(Shr(s, 6 * j), Pow2(6) - 1, e);
    BitMask(6, e);
    BitShr(s, 6 * j, e);
  }

  lemma BitLow(s: nat, k: nat, d: nat)
    ensures Bit(And(s, Pow2(k) - 1), d) <==> d < k && Bit(s, d)
  {
    BitAnd(s, Pow2(k) - 1, d);
    BitMask(k, d);
  }

  // Agreeing on the first k digits is agreeing on the low 6k bits.
  lemma PrefixIsLowBits(s: nat, t: nat, k: nat)
    ensures SamePrefix(s, t, k) <==> And(s, Pow2(6 * k) - 1) == And(t, Pow2(6 * k) - 1)
  {
    hide *;
    var u, v := And(s, Pow2(6 * k) - 1), And(t, Pow2(6 * k) - 1);
    if SamePrefix(s, t, k) {
      forall d | 0 <= d < 6 * k
        ensures Bit(u, d) <==> Bit(v, d)
      {
        BitLow(s, 6 * k, d);
        BitLow(t, 6 * k, d);
        PrefixBit(s, t, k, d);
      }
      AndBelow(s, Pow2(6 * k) - 1);
      AndBelow(t, Pow2(6 * k) - 1);
      SameBits(u, v, 6 * k);
    }
    if u == v {
      forall j | 0 <= j < k
        ensures Digit(s, j) == Digit(t, j)
      {
        forall e | 0 <= e < 6
          ensures Bit(Digit(s, j), e) <==> Bit(Digit(t, j), e)
        {
          BitDigit(s, j, e);
          BitDigit(t, j, e);
          BitLow(s, 6 * k, 6 * j + e);
          BitLow(t, 6 * k, 6 * j + e);
        }
        Pow2Values();
        SameBits(Digit(s, j), Digit(t, j), 6);
      }
      PrefixFromDigits(s, t, k);
    }
  }

  lemma PrefixFromDigits(s: nat, t: nat, k: nat)
    requires forall j :: 0 <= j < k ==> Digit(s, j) == Digit(t, j)
    ensures SamePrefix(s, t, k)
  {
  }

  lemma PrefixBit(s: nat, t: nat, k: nat, d: nat)
    requires SamePrefix(s, t, k) && d < 6 * k
    ensures Bit(s, d) <==> Bit(t, d)
  {
    var j, e := d / 6, d % 6;
    BitDigit(s, j, e);
    BitDigit(t, j, e);
    assert Digit(s, j) == Digit(t, j);
  }

  // ---- the packed word ----

  function SetTerminalType(kind: nat, age: nat, size: nat): nat {
    Or(Or(And(Shl(kind, 60), MAX64), Shl(age, 32)), size)
  }

  function GetKind(w: nat): nat { Shr(w, 60) }

  function GetAge(w: nat): nat { And(Shr(w, 32), Pow2(28) - 1) }

  function GetSize(w: nat): nat { And(w, Pow2(32) - 1) }

  lemma {:induction false} ShlOr(a: nat, b: nat, k: nat)
    ensures Or(Shl(a, k), Shl(b, k)) == Shl(Or(a, b), k)
  {
    ShrZero(k);
    ShlPositive(a, k);
    ShlPositive(b, k);
    if k > 0 { ShlOr(a, b, k - 1); }
  }

  lemma {:induction false} ShlShl(a: nat, i: nat, j: nat)
    ensures Shl(Shl(a, i), j) == Shl(a, i + j)
  {
    if j > 0 { ShlShl(a, i, j - 1); }
  }

  lemma {:induction false} ShlBelow(a: nat, j: nat, k: nat)
    requires a < Pow2(j)
    ensures Shl(a, k) < Pow2(j + k)
  {
    if k > 0 { ShlBelow(a, j, k - 1); }
  }

  lemma MaskHalf(k: nat)
    requires k > 0
    ensures (Pow2(k) - 1) / 2 == Pow2(k - 1) - 1 && (Pow2(k) - 1) % 2 == 1 && Pow2(k) == 2 * Pow2(k - 1)
  {
    OddHalf(Pow2(k - 1));
    assert Pow2(k) == 2 * Pow2(k - 1);
  }

  lemma OddHalf(p: nat)
    requires p > 0
    ensures (2 * p - 1) / 2 == p - 1 && (2 * p - 1) % 2 == 1
  {
  }

  lemma NoMask(n: nat)
    requires n < Pow2(0)
    ensures And(n, Pow2(0) - 1) == n
  {
  }

  lemma {:induction false} AndMaskAll(n: nat, k: nat)
    requires n < Pow2(k)
    ensures And(n, Pow2(k) - 1) == n
  {
    hide And, Pow2;
    if k == 0 {
      NoMask(n);
    } else {
      MaskHalf(k);
      LowBit(n, Pow2(k) - 1);
      AndMaskAll(n / 2, k - 1);
    }
  }

  lemma {:induction false} ShrBelow(n: nat, j: nat, k: nat)
    requires n < Pow2(j + k)
    ensures Shr(n, k) < Pow2(j)
  {
    if k > 0 { ShrBelow(n / 2, j, k - 1); }
  }

  lemma ShrHalf(v: nat, k: nat)
    requires k > 0
    ensures Shr(v, k) == Shr(v / 2, k - 1)
  {
  }

  // A word is its high part and its low part.
  lemma {:induction false} SameParts(v: nat, w: nat, k: nat)
    requires Shr(v, k) == Shr(w, k) && And(v, Pow2(k) - 1) == And(w, Pow2(k) - 1)
    ensures v == w
  {
    if k > 0 {
      MaskHalf(k);
      ShrHalf(v, k);
      ShrHalf(w, k);
      hide And, Pow2, Shr;
      LowBit(v, Pow2(k) - 1);
      LowBit(w, Pow2(k) - 1);
      SameParts(v / 2, w / 2, k - 1);
    }
  }

  lemma LowBit(v: nat, m: nat)
    requires m % 2 == 1
    ensures And(v, m) % 2 == v % 2 && And(v, m) / 2 == And(v / 2, m / 2)
  {
  }

  lemma PackedFields(kind: nat, age: nat, size: nat)
    requires kind < 16 && age < Pow2(32) && size < Pow2(32)
    ensures SetTerminalType(kind, age, size) == Or(Shl(Or(Shl(kind, 28), age), 32), size)
    ensures SetTerminalType(kind, age, size) <= MAX64
  {
    hide *;
    Pow2Values();
    ShlBelow(kind, 4, 60) by { PowFour(); }
    AndMaskAll(Shl(kind, 60), 64);
    ShlShl(kind, 28, 32);
    ShlOr(Shl(kind, 28), age, 32);
    ShlBelow(kind, 4, 28) by { PowFour(); }
    OrBelow(Shl(kind, 28), age, 32);
    var high := Or(Shl(kind, 28), age);
    ShlBelow(high, 32, 32);
    Pow2Monotone(32, 64);
    OrBelow(Shl(high, 32), size, 64);
    Unfold(kind, age, size);
  }

  lemma Unfold(kind: nat, age: nat, size: nat)
    ensures SetTerminalType(kind, age, size) == Or(Or(And(Shl(kind, 60), Pow2(64) - 1), Shl(age, 32)), size)
  {
    Pow2Values();
  }

  lemma PowFour()
    ensures Pow2(4) == 16
  {
  }

  // The three fields read back what was packed exactly when the type fits in
  // four bits and the age in twenty-eight.
  lemma PackedExactly(kind: nat, age: nat, size: nat)
    requires kind < 256 && age < Pow2(32) && size < Pow2(32)
    ensures SetTerminalType(kind, age, size) <= MAX64
    ensures (var w := SetTerminalType(kind, age, size);
             GetKind(w) == kind && GetAge(w) == age && GetSize(w) == size)
            <==> kind < 16 && age < Pow2(28)
  {
    hide *;
    var w := SetTerminalType(kind, age, size);
    Pow2Values();
    PackedBounded(kind, age, size);
    GetBounds(w);
    if kind < 16 && age < Pow2(28) {
      PackedFields(kind, age, size);
      var high := Or(Shl(kind, 28), age);
      OrField(high, size, 32);
      OrField(kind, age, 28);
      ShrShr(w, 32, 28);
      GetUnfold(w);
    }
  }

  lemma GetUnfold(w: nat)
    ensures GetKind(w) == Shr(w, 60) && GetAge(w) == And(Shr(w, 32), Pow2(28) - 1) && GetSize(w) == And(w, Pow2(32) - 1)
  {
  }

  lemma PackedBounded(kind: nat, age: nat, size: nat)
    requires kind < 256 && age < Pow2(32) && size < Pow2(32)
    ensures SetTerminalType(kind, age, size) <= MAX64
  {
    hide *;
    Pow2Values();
    Unfold(kind, age, size);
    AndBelow(Shl(kind, 60), Pow2(64) - 1);
    ShlBelow(age, 32, 32);
    OrBelow(And(Shl(kind, 60), Pow2(64) - 1), Shl(age, 32), 64);
    Pow2Monotone(32, 64);
    OrBelow(Or(And(Shl(kind, 60), Pow2(64) - 1), Shl(age, 32)), size, 64);
  }

  lemma GetBounds(w: nat)
    requires w <= MAX64
    ensures GetKind(w) < 16 && GetAge(w) < Pow2(28) && GetSize(w) < Pow2(32)
  {
    hide *;
    Pow2Values();
    PowFour();
    ShrBelow(w, 4, 60);
    AndBelow(Shr(w, 32), Pow2(28) - 1);
    AndBelow(w, Pow2(32) - 1);
    GetUnfold(w);
  }

  lemma OrParts(a: nat, b: nat)
    ensures Or(a, b) / 2 == Or(a / 2, b / 2) && (Or(a, b) % 2 == 1 <==> a % 2 == 1 || b % 2 == 1)
  {
  }

  lemma {:induction false} OrAssociative(a: nat, b: nat, c: nat)
    ensures Or(Or(a, b), c) == Or(a, Or(b, c))
    decreases a + b + c
  {
    if a + b + c > 0 {
      OrAssociative(a / 2, b / 2, c / 2);
      hide Or;
      OrParts(a, b);
      OrParts(b, c);
      OrParts(Or(a, b), c);
      OrParts(a, Or(b, c));
    }
  }

  // Past twenty-eight bits the age spills into the type.
  lemma AgeSpills(kind: nat, age: nat, size: nat)
    requires kind < 16 && age < Pow2(32) && size < Pow2(32)
    ensures var w := SetTerminalType(kind, age, size);
            GetKind(w) == Or(kind, Shr(age, 28)) && GetAge(w) == And(age, Pow2(28) - 1) && GetSize(w) == size
  {
    hide *;
    var w := SetTerminalType(kind, age, size);
    var hi, low := Shr(age, 28), And(age, Pow2(28) - 1);
    Pow2Values();
    PackedFields(kind, age, size);
    AndBelow(age, Pow2(28) - 1);
    OrField(hi, low, 28);
    SameParts(age, Or(Shl(hi, 28), low), 28);
    OrAssociative(Shl(kind, 28), Shl(hi, 28), low);
    ShlOr(kind, hi, 28);
    OrField(Or(Shl(kind, 28), age), size, 32);
    OrField(Or(kind, hi), low, 28);
    ShrShr(w, 32, 28);
    GetUnfold(w);
  }

  // The first clock value past the field: type 0 becomes type 1, and age 0.
  lemma FirstSpill(size: nat)
    requires size < Pow2(32)
    ensures var w := SetTerminalType(0, Pow2(28), size);
            GetKind(w) == 1 && GetAge(w) == 0 && GetSize(w) == size
  {
    hide *;
    OneAlone();
    Pow2Monotone(28, 32);
    OrField(1, 0, 28);
    AgeSpills(0, Pow2(28), size);
  }

  lemma OneAlone()
    ensures Pow2(28) == Or(Shl(1, 28), 0) && Or(0, 1) == 1 && 0 < Pow2(28) < Pow2(32)
  {
    Pow2Values();
    ShlOne(28);
  }

  lemma {:induction false} ShlOne(k: nat)
    ensures Shl(1, k) == Pow2(k)
  {
    if k > 0 { ShlOne(k - 1); }
  }

  // No two words carry the same three fields.
  lemma FieldsDetermineWord(v: nat, w: nat)
    requires GetKind(v) == GetKind(w) && GetAge(v) == GetAge(w) && GetSize(v) == GetSize(w)
    ensures v == w
  {
    hide *;
    GetUnfold(v);
    GetUnfold(w);
    ShrShr(v, 32, 28);
    ShrShr(w, 32, 28);
    SameParts(Shr(v, 32), Shr(w, 32), 28);
    SameParts(v, w, 32);
  }
}
