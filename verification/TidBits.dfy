/** The bits of a 32-bit part of a tid list. A part is a machine word; bit i is read with the mask that has
    only this bit. AND of two parts is the intersection of their bits, and the comparison of
    tid_list_inclusion is inclusion. The proofs go through the masks byte by byte. */
module TidBits {
  /** The part with only bit i. */
  function Mask(i: nat): bv32
    requires i < 32
  {
    if i < 8 then
      if i == 0 then 0x1 else if i == 1 then 0x2 else if i == 2 then 0x4 else if i == 3 then 0x8
      else if i == 4 then 0x10 else if i == 5 then 0x20 else if i == 6 then 0x40 else 0x80
    else if i < 16 then
      if i == 8 then 0x100 else if i == 9 then 0x200 else if i == 10 then 0x400 else if i == 11 then 0x800
      else if i == 12 then 0x1000 else if i == 13 then 0x2000 else if i == 14 then 0x4000 else 0x8000
    else if i < 24 then
      if i == 16 then 0x10000 else if i == 17 then 0x20000 else if i == 18 then 0x40000
      else if i == 19 then 0x80000 else if i == 20 then 0x100000 else if i == 21 then 0x200000
      else if i == 22 then 0x400000 else 0x800000
    else
      if i == 24 then 0x1000000 else if i == 25 then 0x2000000 else if i == 26 then 0x4000000
      else if i == 27 then 0x8000000 else if i == 28 then 0x10000000 else if i == 29 then 0x20000000
      else if i == 30 then 0x40000000 else 0x80000000
  }

  function BitAnd(a: bv32, b: bv32): bv32 {
    a & b
  }

  predicate Meets(b: bv32, m: bv32) {
    BitAnd(b, m) != 0
  }

  predicate Bit(b: bv32, i: nat)
    requires i < 32
  {
    Meets(b, Mask(i))
  }

  /** The places of the one bits of a part. */
  function BitsOf(b: bv32): set<nat> {
    set i: nat | i < 32 && Bit(b, i)
  }

  lemma FirstMasks()
    ensures Mask(0) == 0x1 && Mask(1) == 0x2 && Mask(2) == 0x4 && Mask(3) == 0x8
    ensures Mask(4) == 0x10 && Mask(5) == 0x20 && Mask(6) == 0x40 && Mask(7) == 0x80
  {
  }

  lemma SecondMasks()
    ensures Mask(8) == 0x100 && Mask(9) == 0x200 && Mask(10) == 0x400 && Mask(11) == 0x800
    ensures Mask(12) == 0x1000 && Mask(13) == 0x2000 && Mask(14) == 0x4000 && Mask(15) == 0x8000
  {
  }

  lemma ThirdMasks()
    ensures Mask(16) == 0x10000 && Mask(17) == 0x20000 && Mask(18) == 0x40000 && Mask(19) == 0x80000
    ensures Mask(20) == 0x100000 && Mask(21) == 0x200000 && Mask(22) == 0x400000 && Mask(23) == 0x800000
  {
  }

  lemma FourthMasks()
    ensures Mask(24) == 0x1000000 && Mask(25) == 0x2000000 && Mask(26) == 0x4000000 && Mask(27) == 0x8000000
    ensures Mask(28) == 0x10000000 && Mask(29) == 0x20000000 && Mask(30) == 0x40000000 && Mask(31) == 0x80000000
  {
  }

  /** A single bit: a mask takes nothing or all of itself. */
  predicate Takes(b: bv32, m: bv32) {
    b & m == 0 || b & m == m
  }

  lemma FirstTakes(b: bv32)
    ensures Takes(b, 0x1) && Takes(b, 0x2)
    ensures Takes(b, 0x4) && Takes(b, 0x8)
    ensures Takes(b, 0x10) && Takes(b, 0x20)
    ensures Takes(b, 0x40) && Takes(b, 0x80)
  {
  }

  lemma SecondTakes(b: bv32)
    ensures Takes(b, 0x100) && Takes(b, 0x200)
    ensures Takes(b, 0x400) && Takes(b, 0x800)
    ensures Takes(b, 0x1000) && Takes(b, 0x2000)
    ensures Takes(b, 0x4000) && Takes(b, 0x8000)
  {
  }

  lemma ThirdTakes(b: bv32)
    ensures Takes(b, 0x10000) && Takes(b, 0x20000)
    ensures Takes(b, 0x40000) && Takes(b, 0x80000)
    ensures Takes(b, 0x100000) && Takes(b, 0x200000)
    ensures Takes(b, 0x400000) && Takes(b, 0x800000)
  {
  }

  lemma FourthTakes(b: bv32)
    ensures Takes(b, 0x1000000) && Takes(b, 0x2000000)
    ensures Takes(b, 0x4000000) && Takes(b, 0x8000000)
    ensures Takes(b, 0x10000000) && Takes(b, 0x20000000)
    ensures Takes(b, 0x40000000) && Takes(b, 0x80000000)
  {
  }

  lemma MaskTakes(b: bv32, i: nat)
    requires i < 32
    ensures Takes(b, Mask(i))
  {
    hide Mask, Takes;
    if i < 8 {
      FirstMasks();
      FirstTakes(b);
    } else if i < 16 {
      SecondMasks();
      SecondTakes(b);
    } else if i < 24 {
      ThirdMasks();
      ThirdTakes(b);
    } else {
      FourthMasks();
      FourthTakes(b);
    }
  }

  lemma TakesIs(b: bv32, m: bv32)
    requires Takes(b, m)
    ensures BitAnd(b, m) == 0 || BitAnd(b, m) == m
  {
  }

  lemma AndFacts(a: bv32, b: bv32, m: bv32)
    ensures BitAnd(BitAnd(a, b), m) == BitAnd(BitAnd(a, m), BitAnd(b, m))
    ensures BitAnd(m, m) == m && BitAnd(0, m) == 0 && BitAnd(m, 0) == 0 && BitAnd(0, 0) == 0
  {
  }

  lemma MeetsAnd(a: bv32, b: bv32, m: bv32)
    requires Takes(a, m) && Takes(b, m)
    ensures Meets(BitAnd(a, b), m) <==> Meets(a, m) && Meets(b, m)
  {
    hide BitAnd, Takes;
    TakesIs(a, m);
    TakesIs(b, m);
    AndFacts(a, b, m);
  }

  lemma AndAt(a: bv32, b: bv32, i: nat)
    requires i < 32
    ensures Bit(BitAnd(a, b), i) <==> Bit(a, i) && Bit(b, i)
  {
    hide Meets, BitAnd, Mask, Takes;
    MaskTakes(a, i);
    MaskTakes(b, i);
    MeetsAnd(a, b, Mask(i));
  }

  /** Bit by bit, AND is intersection. */
  lemma BitsAnd(a: bv32, b: bv32)
    ensures BitsOf(BitAnd(a, b)) == BitsOf(a) * BitsOf(b)
  {
    hide Bit, BitAnd;
    forall i: nat | i < 32 ensures Bit(BitAnd(a, b), i) <==> Bit(a, i) && Bit(b, i) {
      AndAt(a, b, i);
    }
  }

  lemma FirstByteSame(a: bv32, b: bv32)
    requires Meets(a, 0x1) == Meets(b, 0x1) && Meets(a, 0x2) == Meets(b, 0x2)
    requires Meets(a, 0x4) == Meets(b, 0x4) && Meets(a, 0x8) == Meets(b, 0x8)
    requires Meets(a, 0x10) == Meets(b, 0x10) && Meets(a, 0x20) == Meets(b, 0x20)
    requires Meets(a, 0x40) == Meets(b, 0x40) && Meets(a, 0x80) == Meets(b, 0x80)
    ensures BitAnd(a, 0xFF) == BitAnd(b, 0xFF)
  {
  }

  lemma FirstSame(a: bv32, b: bv32)
    requires forall i: nat :: i < 32 ==> Bit(a, i) == Bit(b, i)
    ensures BitAnd(a, 0xFF) == BitAnd(b, 0xFF)
  {
    hide Mask, Meets, BitAnd;
    FirstMasks();
    assert Bit(a, 0) == Bit(b, 0) && Bit(a, 1) == Bit(b, 1);
    assert Bit(a, 2) == Bit(b, 2) && Bit(a, 3) == Bit(b, 3);
    assert Bit(a, 4) == Bit(b, 4) && Bit(a, 5) == Bit(b, 5);
    assert Bit(a, 6) == Bit(b, 6) && Bit(a, 7) == Bit(b, 7);
    FirstByteSame(a, b);
  }

  lemma SecondByteSame(a: bv32, b: bv32)
    requires Meets(a, 0x100) == Meets(b, 0x100) && Meets(a, 0x200) == Meets(b, 0x200)
    requires Meets(a, 0x400) == Meets(b, 0x400) && Meets(a, 0x800) == Meets(b, 0x800)
    requires Meets(a, 0x1000) == Meets(b, 0x1000) && Meets(a, 0x2000) == Meets(b, 0x2000)
    requires Meets(a, 0x4000) == Meets(b, 0x4000) && Meets(a, 0x8000) == Meets(b, 0x8000)
    ensures BitAnd(a, 0xFF00) == BitAnd(b, 0xFF00)
  {
  }

  lemma SecondSame(a: bv32, b: bv32)
    requires forall i: nat :: i < 32 ==> Bit(a, i) == Bit(b, i)
    ensures BitAnd(a, 0xFF00) == BitAnd(b, 0xFF00)
  {
    hide Mask, Meets, BitAnd;
    SecondMasks();
    assert Bit(a, 8) == Bit(b, 8) && Bit(a, 9) == Bit(b, 9);
    assert Bit(a, 10) == Bit(b, 10) && Bit(a, 11) == Bit(b, 11);
    assert Bit(a, 12) == Bit(b, 12) && Bit(a, 13) == Bit(b, 13);
    assert Bit(a, 14) == Bit(b, 14) && Bit(a, 15) == Bit(b, 15);
    SecondByteSame(a, b);
  }

  lemma ThirdByteSame(a: bv32, b: bv32)
    requires Meets(a, 0x10000) == Meets(b, 0x10000) && Meets(a, 0x20000) == Meets(b, 0x20000)
    requires Meets(a, 0x40000) == Meets(b, 0x40000) && Meets(a, 0x80000) == Meets(b, 0x80000)
    requires Meets(a, 0x100000) == Meets(b, 0x100000) && Meets(a, 0x200000) == Meets(b, 0x200000)
    requires Meets(a, 0x400000) == Meets(b, 0x400000) && Meets(a, 0x800000) == Meets(b, 0x800000)
    ensures BitAnd(a, 0xFF0000) == BitAnd(b, 0xFF0000)
  {
  }

  lemma ThirdSame(a: bv32, b: bv32)
    requires forall i: nat :: i < 32 ==> Bit(a, i) == Bit(b, i)
    ensures BitAnd(a, 0xFF0000) == BitAnd(b, 0xFF0000)
  {
    hide Mask, Meets, BitAnd;
    ThirdMasks();
    assert Bit(a, 16) == Bit(b, 16) && Bit(a, 17) == Bit(b, 17);
    assert Bit(a, 18) == Bit(b, 18) && Bit(a, 19) == Bit(b, 19);
    assert Bit(a, 20) == Bit(b, 20) && Bit(a, 21) == Bit(b, 21);
    assert Bit(a, 22) == Bit(b, 22) && Bit(a, 23) == Bit(b, 23);
    ThirdByteSame(a, b);
  }

  lemma FourthByteSame(a: bv32, b: bv32)
    requires Meets(a, 0x1000000) == Meets(b, 0x1000000) && Meets(a, 0x2000000) == Meets(b, 0x2000000)
    requires Meets(a, 0x4000000) == Meets(b, 0x4000000) && Meets(a, 0x8000000) == Meets(b, 0x8000000)
    requires Meets(a, 0x10000000) == Meets(b, 0x10000000) && Meets(a, 0x20000000) == Meets(b, 0x20000000)
    requires Meets(a, 0x40000000) == Meets(b, 0x40000000) && Meets(a, 0x80000000) == Meets(b, 0x80000000)
    ensures BitAnd(a, 0xFF000000) == BitAnd(b, 0xFF000000)
  {
  }

  lemma FourthSame(a: bv32, b: bv32)
    requires forall i: nat :: i < 32 ==> Bit(a, i) == Bit(b, i)
    ensures BitAnd(a, 0xFF000000) == BitAnd(b, 0xFF000000)
  {
    hide Mask, Meets, BitAnd;
    FourthMasks();
    assert Bit(a, 24) == Bit(b, 24) && Bit(a, 25) == Bit(b, 25);
    assert Bit(a, 26) == Bit(b, 26) && Bit(a, 27) == Bit(b, 27);
    assert Bit(a, 28) == Bit(b, 28) && Bit(a, 29) == Bit(b, 29);
    assert Bit(a, 30) == Bit(b, 30) && Bit(a, 31) == Bit(b, 31);
    FourthByteSame(a, b);
  }

  lemma FourBytes(a: bv32, b: bv32)
    requires BitAnd(a, 0xFF) == BitAnd(b, 0xFF) && BitAnd(a, 0xFF00) == BitAnd(b, 0xFF00)
    requires BitAnd(a, 0xFF0000) == BitAnd(b, 0xFF0000) && BitAnd(a, 0xFF000000) == BitAnd(b, 0xFF000000)
    ensures a == b
  {
  }

  /** A part is known by its bits. */
  lemma SameBits(a: bv32, b: bv32)
    requires forall i: nat :: i < 32 ==> Bit(a, i) == Bit(b, i)
    ensures a == b
  {
    hide Bit, BitAnd;
    FirstSame(a, b);
    SecondSame(a, b);
    ThirdSame(a, b);
    FourthSame(a, b);
    FourBytes(a, b);
  }

  /** The comparison of tid_list_inclusion. */
  lemma BitsWithin(a: bv32, b: bv32)
    ensures BitAnd(b, a) == a <==> BitsOf(a) <= BitsOf(b)
  {
    hide Bit, BitAnd;
    BitsAnd(b, a);
    if BitsOf(a) <= BitsOf(b) {
      forall i: nat | i < 32 ensures Bit(BitAnd(b, a), i) == Bit(a, i) {
        assert i in BitsOf(BitAnd(b, a)) <==> i in BitsOf(a);
      }
      SameBits(BitAnd(b, a), a);
    }
  }
}
