/**
 Machine words as sets of bit positions: the 64-bit interrupt words of interrupt.c and the 32-bit
 wait-queue words of kernel/src/sched.c. Ones64 and Ones32 map a word to the set of its one bits; the
 operations of the code on words are the operations of the models on sets. Positions inside a word are
 6-bit and 5-bit numbers, as the shift instructions take them.
 */
module Bitmap {
  // ---------------------------------------------------------------------------
  // 64-bit words
  // ---------------------------------------------------------------------------

  predicate At64(w: bv64, i: bv6) {
    (w >> i) & 1 == 1
  }

  /** Bit i: the low bit after i shifts to the right. */
  predicate Bit64(w: bv64, i: nat)
    decreases i
  {
    if i == 0 then w & 1 == 1 else Bit64(w >> 1, i - 1)
  }

  function Ones64(w: bv64): set<nat> {
    set i: nat | i < 64 && Bit64(w, i)
  }

  /** The atomic OR of trigger_interrupt_target. */
  function Set64(w: bv64, i: nat): (r: bv64)
    requires i < 64
    ensures Ones64(r) == Ones64(w) + {i}
  {
    SetBit64(w, i);
    w | (1 << (i as bv6))
  }

  /** The bit cleared by a mask's complement. */
  function Clear64(w: bv64, i: nat): (r: bv64)
    requires i < 64
    ensures Ones64(r) == Ones64(w) - {i}
  {
    ClearBit64(w, i);
    w & !(1 << (i as bv6))
  }

  /** The lowest bit of a shift by p is the lowest bit of a shift by one and then by p - 1. */
  lemma ShiftStep64(w: bv64, p: bv6)
    requires p != 0
    ensures At64(w, p) <==> At64(w >> 1, p - 1)
  {
  }

  lemma Previous64(i: nat)
    requires 0 < i < 64
    ensures i as bv6 != 0 && (i as bv6) - 1 == (i - 1) as bv6
  {
    Position64(i);
    Position64(i - 1);
  }

  /** The shift and mask of the code see the same bit. */
  lemma {:induction false} BitAt64(w: bv64, i: nat)
    requires i < 64
    ensures Bit64(w, i) <==> At64(w, i as bv6)
    decreases i
  {
    if i > 0 {
      BitAt64(w >> 1, i - 1);
      Previous64(i);
      ShiftStep64(w, i as bv6);
    }
  }

  lemma SetAt64(w: bv64, i: bv6, j: bv6)
    ensures At64(w | (1 << i), j) <==> i == j || At64(w, j)
  {
  }

  lemma ClearAt64(w: bv64, i: bv6, j: bv6)
    ensures At64(w & !(1 << i), j) <==> i != j && At64(w, j)
  {
  }

  lemma Position64(i: nat)
    requires i < 64
    ensures i as bv6 as nat == i
  {
  }

  lemma SamePosition64(i: nat, j: nat)
    requires i < 64 && j < 64 && i as bv6 == j as bv6
    ensures i == j
  {
    Position64(i);
    Position64(j);
  }

  lemma SetElsewhere64(w: bv64, i: nat, p: bv6, j: nat)
    requires i < 64 && j < 64 && p == i as bv6
    ensures Bit64(w | (1 << p), j) <==> i == j || Bit64(w, j)
  {
    var q := j as bv6;
    BitAt64(w, j);
    BitAt64(w | (1 << p), j);
    SetAt64(w, p, q);
    if p == q {
      SamePosition64(i, j);
    }
  }

  lemma ClearElsewhere64(w: bv64, i: nat, p: bv6, j: nat)
    requires i < 64 && j < 64 && p == i as bv6
    ensures Bit64(w & !(1 << p), j) <==> i != j && Bit64(w, j)
  {
    var q := j as bv6;
    BitAt64(w, j);
    BitAt64(w & !(1 << p), j);
    ClearAt64(w, p, q);
    if p == q {
      SamePosition64(i, j);
    }
  }

  lemma OnesAdd64(w: bv64, v: bv64, i: nat)
    requires i < 64 && forall j: nat :: j < 64 ==> (Bit64(v, j) <==> i == j || Bit64(w, j))
    ensures Ones64(v) == Ones64(w) + {i}
  {
  }

  lemma OnesRemove64(w: bv64, v: bv64, i: nat)
    requires i < 64 && forall j: nat :: j < 64 ==> (Bit64(v, j) <==> i != j && Bit64(w, j))
    ensures Ones64(v) == Ones64(w) - {i}
  {
  }

  lemma SetBit64(w: bv64, i: nat)
    requires i < 64
    ensures Ones64(w | (1 << (i as bv6))) == Ones64(w) + {i}
  {
    var p := i as bv6;
    var v := w | (1 << p);
    forall j: nat | j < 64
      ensures Bit64(v, j) <==> i == j || Bit64(w, j)
    {
      SetElsewhere64(w, i, p, j);
    }
    OnesAdd64(w, v, i);
  }

  lemma ClearBit64(w: bv64, i: nat)
    requires i < 64
    ensures Ones64(w & !(1 << (i as bv6))) == Ones64(w) - {i}
  {
    var p := i as bv6;
    var v := w & !(1 << p);
    forall j: nat | j < 64
      ensures Bit64(v, j) <==> i != j && Bit64(w, j)
    {
      ClearElsewhere64(w, i, p, j);
    }
    OnesRemove64(w, v, i);
  }

  predicate MaskHits(w: bv64, p: bv6) {
    w & (1 << p) != 0
  }

  lemma MaskAt64(w: bv64, p: bv6)
    ensures MaskHits(w, p) <==> At64(w, p)
  {
  }

  /** The test that interrupt.c makes before its swap, expected & mask, sees bit i. */
  predicate Masked64(w: bv64, i: nat)
    requires i < 64
    ensures Masked64(w, i) <==> i in Ones64(w)
  {
    MaskAt64(w, i as bv6);
    BitAt64(w, i);
    MaskHits(w, i as bv6)
  }

  /** All bits below i are clear. */
  ghost predicate LowClear(w: bv64, i: bv6) {
    w & ((1 << i) - 1) == 0
  }

  lemma LowClearStep(w: bv64, i: bv6)
    requires LowClear(w, i) && !At64(w, i)
    ensures i != 63 ==> LowClear(w, i + 1)
    ensures i == 63 ==> w == 0
  {
  }

  lemma LowClearAt(w: bv64, i: bv6, j: bv6)
    requires LowClear(w, i) && j < i
    ensures !At64(w, j)
  {
  }

  /** __builtin_ctzll from position i on: a non-zero word has a lowest set bit, and this finds it. */
  function CtzFrom(w: bv64, i: bv6): (r: bv6)
    requires w != 0 && LowClear(w, i)
    ensures At64(w, r) && LowClear(w, r)
    decreases 63 - i
  {
    if At64(w, i) then i
    else
      LowClearStep(w, i);
      CtzFrom(w, i + 1)
  }

  /** The position of the lowest one bit of a non-zero word is the least element of its set. */
  function Ctz64(w: bv64): (r: nat)
    requires w != 0
    ensures r < 64 && r in Ones64(w) && forall k :: k in Ones64(w) ==> r <= k
  {
    var b := CtzFrom(w, 0);
    LowestIsLeast(w, b, b as nat);
    b as nat
  }

  lemma SameNumber(b: bv6, n: nat)
    requires n == b as nat
    ensures n < 64 && n as bv6 == b
  {
  }

  lemma BelowIsClear(w: bv64, b: bv6, n: nat, k: nat)
    requires LowClear(w, b) && n == b as nat && k < n
    ensures n < 64 && !Bit64(w, k)
  {
    Position64(k);
    BitAt64(w, k);
    LowClearAt(w, b, k as bv6);
  }

  lemma LowestIsLeast(w: bv64, b: bv6, n: nat)
    requires At64(w, b) && LowClear(w, b) && n == b as nat
    ensures n < 64 && n in Ones64(w) && forall k :: k in Ones64(w) ==> n <= k
  {
    SameNumber(b, n);
    BitAt64(w, n);
    forall k: nat | k < n
      ensures !Bit64(w, k)
    {
      BelowIsClear(w, b, n, k);
    }
  }

  lemma ZeroAt64(i: bv6)
    ensures !At64(0, i)
  {
  }

  /** A word is zero exactly when no bit is set. */
  lemma ZeroIsEmpty64(w: bv64)
    ensures w == 0 <==> Ones64(w) == {}
  {
    if w == 0 {
      forall k: nat | k < 64
        ensures !Bit64(w, k)
      {
        BitAt64(w, k);
        ZeroAt64(k as bv6);
      }
    } else {
      assert Ctz64(w) in Ones64(w);
    }
  }

  lemma DifferenceAt64(a: bv64, b: bv64, i: bv6)
    requires At64(a, i) == At64(b, i)
    ensures !At64(a ^ b, i)
  {
  }

  lemma NoDifference(a: bv64, b: bv64)
    requires a ^ b == 0
    ensures a == b
  {
  }

  /** A word is determined by its set of one bits. */
  lemma OnesIsInjective64(a: bv64, b: bv64)
    requires Ones64(a) == Ones64(b)
    ensures a == b
  {
    var d := a ^ b;
    forall k: nat | k < 64
      ensures !Bit64(d, k)
    {
      assert k in Ones64(a) <==> k in Ones64(b);
      assert Bit64(a, k) == Bit64(b, k);
      BitAt64(a, k);
      BitAt64(b, k);
      BitAt64(d, k);
      DifferenceAt64(a, b, k as bv6);
    }
    assert Ones64(d) == {};
    ZeroIsEmpty64(d);
    NoDifference(a, b);
  }

  // ---------------------------------------------------------------------------
  // 32-bit words
  // ---------------------------------------------------------------------------

  predicate At32(w: bv32, i: bv5) {
    (w >> i) & 1 == 1
  }

  /** Bit i: the low bit after i shifts to the right. */
  predicate Bit32(w: bv32, i: nat)
    decreases i
  {
    if i == 0 then w & 1 == 1 else Bit32(w >> 1, i - 1)
  }

  function Ones32(w: bv32): set<nat> {
    set i: nat | i < 32 && Bit32(w, i)
  }

  /** waitq_set_bit */
  function Set32(w: bv32, i: nat): (r: bv32)
    requires i < 32
    ensures Ones32(r) == Ones32(w) + {i}
  {
    SetBit32(w, i);
    w | (1 << (i as bv5))
  }

  /** waitq_clear_bit */
  function Clear32(w: bv32, i: nat): (r: bv32)
    requires i < 32
    ensures Ones32(r) == Ones32(w) - {i}
  {
    ClearBit32(w, i);
    w & !(1 << (i as bv5))
  }

  /** The lowest bit of a shift by p is the lowest bit of a shift by one and then by p - 1. */
  lemma ShiftStep32(w: bv32, p: bv5)
    requires p != 0
    ensures At32(w, p) <==> At32(w >> 1, p - 1)
  {
  }

  lemma Previous32(i: nat)
    requires 0 < i < 32
    ensures i as bv5 != 0 && (i as bv5) - 1 == (i - 1) as bv5
  {
    Position32(i);
    Position32(i - 1);
  }

  /** The shift and mask of the code see the same bit. */
  lemma {:induction false} BitAt32(w: bv32, i: nat)
    requires i < 32
    ensures Bit32(w, i) <==> At32(w, i as bv5)
    decreases i
  {
    if i > 0 {
      BitAt32(w >> 1, i - 1);
      Previous32(i);
      ShiftStep32(w, i as bv5);
    }
  }

  lemma SetAt32(w: bv32, i: bv5, j: bv5)
    ensures At32(w | (1 << i), j) <==> i == j || At32(w, j)
  {
  }

  lemma ClearAt32(w: bv32, i: bv5, j: bv5)
    ensures At32(w & !(1 << i), j) <==> i != j && At32(w, j)
  {
  }

  lemma Position32(i: nat)
    requires i < 32
    ensures i as bv5 as nat == i
  {
  }

  lemma SamePosition32(i: nat, j: nat)
    requires i < 32 && j < 32 && i as bv5 == j as bv5
    ensures i == j
  {
    Position32(i);
    Position32(j);
  }

  lemma SetElsewhere32(w: bv32, i: nat, p: bv5, j: nat)
    requires i < 32 && j < 32 && p == i as bv5
    ensures Bit32(w | (1 << p), j) <==> i == j || Bit32(w, j)
  {
    var q := j as bv5;
    BitAt32(w, j);
    BitAt32(w | (1 << p), j);
    SetAt32(w, p, q);
    if p == q {
      SamePosition32(i, j);
    }
  }

  lemma ClearElsewhere32(w: bv32, i: nat, p: bv5, j: nat)
    requires i < 32 && j < 32 && p == i as bv5
    ensures Bit32(w & !(1 << p), j) <==> i != j && Bit32(w, j)
  {
    var q := j as bv5;
    BitAt32(w, j);
    BitAt32(w & !(1 << p), j);
    ClearAt32(w, p, q);
    if p == q {
      SamePosition32(i, j);
    }
  }

  lemma OnesAdd32(w: bv32, v: bv32, i: nat)
    requires i < 32 && forall j: nat :: j < 32 ==> (Bit32(v, j) <==> i == j || Bit32(w, j))
    ensures Ones32(v) == Ones32(w) + {i}
  {
  }

  lemma OnesRemove32(w: bv32, v: bv32, i: nat)
    requires i < 32 && forall j: nat :: j < 32 ==> (Bit32(v, j) <==> i != j && Bit32(w, j))
    ensures Ones32(v) == Ones32(w) - {i}
  {
  }

  lemma SetBit32(w: bv32, i: nat)
    requires i < 32
    ensures Ones32(w | (1 << (i as bv5))) == Ones32(w) + {i}
  {
    var p := i as bv5;
    var v := w | (1 << p);
    forall j: nat | j < 32
      ensures Bit32(v, j) <==> i == j || Bit32(w, j)
    {
      SetElsewhere32(w, i, p, j);
    }
    OnesAdd32(w, v, i);
  }

  lemma ClearBit32(w: bv32, i: nat)
    requires i < 32
    ensures Ones32(w & !(1 << (i as bv5))) == Ones32(w) - {i}
  {
    var p := i as bv5;
    var v := w & !(1 << p);
    forall j: nat | j < 32
      ensures Bit32(v, j) <==> i != j && Bit32(w, j)
    {
      ClearElsewhere32(w, i, p, j);
    }
    OnesRemove32(w, v, i);
  }

  /** waitq_test_bit */
  predicate Test32(w: bv32, i: nat)
    requires i < 32
    ensures Test32(w, i) <==> i in Ones32(w)
  {
    BitAt32(w, i);
    At32(w, i as bv5)
  }

  lemma ZeroAt32(i: bv5)
    ensures !At32(0, i)
  {
  }

  /** sched_waitq_init: no bit of a zero word is set. */
  lemma ZeroIsEmpty32()
    ensures Ones32(0) == {}
  {
    forall j: nat | j < 32
      ensures !Bit32(0, j)
    {
      BitAt32(0, j);
      ZeroAt32(j as bv5);
    }
  }
}
