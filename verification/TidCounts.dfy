/** The population count on bits: it is the number of one bits of a part. Eight bits are added without a carry
    out of a byte, and four bytes without a carry out of the part, so that the sums of the machine word are
    sums of numbers. */
module TidCounts {
  import opened BitCounts
  import opened TidBits

  lemma Sum2(a: bv32, b: bv32)
    requires a <= 4 && b <= 4
    ensures (a + b) as nat == a as nat + b as nat && a + b <= 8
  {
  }

  lemma Sum4(v0: bv32, v1: bv32, v2: bv32, v3: bv32)
    requires v0 <= 1 && v1 <= 1 && v2 <= 1 && v3 <= 1
    ensures (v0 + v1 + v2 + v3) as nat == v0 as nat + v1 as nat + v2 as nat + v3 as nat
    ensures v0 + v1 + v2 + v3 <= 4
  {
    Sum2(v0, v1);
    Sum2(v0 + v1, v2);
    Sum2(v0 + v1 + v2, v3);
  }

  /** Eight bits are added without a carry out of the word. */
  lemma Sum8(v0: bv32, v1: bv32, v2: bv32, v3: bv32, v4: bv32, v5: bv32, v6: bv32, v7: bv32)
    requires v0 <= 1 && v1 <= 1 && v2 <= 1 && v3 <= 1 && v4 <= 1 && v5 <= 1 && v6 <= 1 && v7 <= 1
    ensures (v0 + v1 + v2 + v3 + v4 + v5 + v6 + v7) as nat
         == v0 as nat + v1 as nat + v2 as nat + v3 as nat + v4 as nat + v5 as nat + v6 as nat + v7 as nat
  {
    Sum4(v0, v1, v2, v3);
    Sum4(v4, v5, v6, v7);
    Sum2(v0 + v1 + v2 + v3, v4 + v5 + v6 + v7);
    Regroup8(v0, v1, v2, v3, v4, v5, v6, v7);
  }

  lemma Regroup8(v0: bv32, v1: bv32, v2: bv32, v3: bv32, v4: bv32, v5: bv32, v6: bv32, v7: bv32)
    ensures (v0 + v1 + v2 + v3) + (v4 + v5 + v6 + v7) == v0 + v1 + v2 + v3 + v4 + v5 + v6 + v7
  {
  }

  lemma FirstShifts(b: bv32)
    ensures b & 1 == if Meets(b, 0x1) then 1 else 0
    ensures (b >> 1) & 1 == if Meets(b, 0x2) then 1 else 0
    ensures (b >> 2) & 1 == if Meets(b, 0x4) then 1 else 0
    ensures (b >> 3) & 1 == if Meets(b, 0x8) then 1 else 0
    ensures (b >> 4) & 1 == if Meets(b, 0x10) then 1 else 0
    ensures (b >> 5) & 1 == if Meets(b, 0x20) then 1 else 0
    ensures (b >> 6) & 1 == if Meets(b, 0x40) then 1 else 0
    ensures (b >> 7) & 1 == if Meets(b, 0x80) then 1 else 0
  {
  }

  lemma SecondShifts(b: bv32)
    ensures (b >> 8) & 1 == if Meets(b, 0x100) then 1 else 0
    ensures ((b >> 8) >> 1) & 1 == if Meets(b, 0x200) then 1 else 0
    ensures ((b >> 8) >> 2) & 1 == if Meets(b, 0x400) then 1 else 0
    ensures ((b >> 8) >> 3) & 1 == if Meets(b, 0x800) then 1 else 0
    ensures ((b >> 8) >> 4) & 1 == if Meets(b, 0x1000) then 1 else 0
    ensures ((b >> 8) >> 5) & 1 == if Meets(b, 0x2000) then 1 else 0
    ensures ((b >> 8) >> 6) & 1 == if Meets(b, 0x4000) then 1 else 0
    ensures ((b >> 8) >> 7) & 1 == if Meets(b, 0x8000) then 1 else 0
  {
  }

  lemma ThirdShifts(b: bv32)
    ensures (b >> 16) & 1 == if Meets(b, 0x10000) then 1 else 0
    ensures ((b >> 16) >> 1) & 1 == if Meets(b, 0x20000) then 1 else 0
    ensures ((b >> 16) >> 2) & 1 == if Meets(b, 0x40000) then 1 else 0
    ensures ((b >> 16) >> 3) & 1 == if Meets(b, 0x80000) then 1 else 0
    ensures ((b >> 16) >> 4) & 1 == if Meets(b, 0x100000) then 1 else 0
    ensures ((b >> 16) >> 5) & 1 == if Meets(b, 0x200000) then 1 else 0
    ensures ((b >> 16) >> 6) & 1 == if Meets(b, 0x400000) then 1 else 0
    ensures ((b >> 16) >> 7) & 1 == if Meets(b, 0x800000) then 1 else 0
  {
  }

  lemma FourthShifts(b: bv32)
    ensures (b >> 24) & 1 == if Meets(b, 0x1000000) then 1 else 0
    ensures ((b >> 24) >> 1) & 1 == if Meets(b, 0x2000000) then 1 else 0
    ensures ((b >> 24) >> 2) & 1 == if Meets(b, 0x4000000) then 1 else 0
    ensures ((b >> 24) >> 3) & 1 == if Meets(b, 0x8000000) then 1 else 0
    ensures ((b >> 24) >> 4) & 1 == if Meets(b, 0x10000000) then 1 else 0
    ensures ((b >> 24) >> 5) & 1 == if Meets(b, 0x20000000) then 1 else 0
    ensures ((b >> 24) >> 6) & 1 == if Meets(b, 0x40000000) then 1 else 0
    ensures ((b >> 24) >> 7) & 1 == if Meets(b, 0x80000000) then 1 else 0
  {
  }

  /** Bit i as a number. */
  function Value(b: bv32, i: nat): nat
    requires i < 32
  {
    if Bit(b, i) then 1 else 0
  }

  function CountBelow(b: bv32, k: nat): nat
    requires k <= 32
  {
    if k == 0 then 0 else CountBelow(b, k - 1) + Value(b, k - 1)
  }

  lemma {:induction false} CountIsBits(b: bv32, k: nat)
    requires k <= 32
    ensures CountBelow(b, k) == |set i: nat | i < k && Bit(b, i)|
  {
    hide Bit;
    if k > 0 {
      CountIsBits(b, k - 1);
      var before, all := (set i: nat | i < k - 1 && Bit(b, i)), (set i: nat | i < k && Bit(b, i));
      assert all == before + if Bit(b, k - 1) then {k - 1} else {};
    }
  }

  lemma FourMore(b: bv32, k: nat)
    requires k + 4 <= 32
    ensures CountBelow(b, k + 4) == CountBelow(b, k) + Value(b, k) + Value(b, k + 1) + Value(b, k + 2) + Value(b, k + 3)
  {
    hide Value;
    assert CountBelow(b, k + 2) == CountBelow(b, k) + Value(b, k) + Value(b, k + 1);
  }

  lemma ValueIs(b: bv32, i: nat, m: bv32, v: bv32)
    requires i < 32 && m == Mask(i) && v == if Meets(b, m) then 1 else 0
    ensures v <= 1 && v as nat == Value(b, i)
  {
    hide Mask, Meets;
  }

  lemma EightCount(b: bv32, k: nat, v0: bv32, v1: bv32, v2: bv32, v3: bv32,
                   v4: bv32, v5: bv32, v6: bv32, v7: bv32)
    requires k + 8 <= 32
    requires v0 <= 1 && v1 <= 1 && v2 <= 1 && v3 <= 1 && v4 <= 1 && v5 <= 1 && v6 <= 1 && v7 <= 1
    requires v0 as nat == Value(b, k) && v1 as nat == Value(b, k + 1)
    requires v2 as nat == Value(b, k + 2) && v3 as nat == Value(b, k + 3)
    requires v4 as nat == Value(b, k + 4) && v5 as nat == Value(b, k + 5)
    requires v6 as nat == Value(b, k + 6) && v7 as nat == Value(b, k + 7)
    ensures (v0 + v1 + v2 + v3 + v4 + v5 + v6 + v7) as nat == CountBelow(b, k + 8) - CountBelow(b, k)
  {
    FourMore(b, k);
    FourMore(b, k + 4);
    hide Value, CountBelow;
    Sum8(v0, v1, v2, v3, v4, v5, v6, v7);
  }

  lemma FirstValues(b: bv32)
    ensures b & 1 <= 1 && (b & 1) as nat == Value(b, 0)
    ensures (b >> 1) & 1 <= 1 && ((b >> 1) & 1) as nat == Value(b, 1)
    ensures (b >> 2) & 1 <= 1 && ((b >> 2) & 1) as nat == Value(b, 2)
    ensures (b >> 3) & 1 <= 1 && ((b >> 3) & 1) as nat == Value(b, 3)
    ensures (b >> 4) & 1 <= 1 && ((b >> 4) & 1) as nat == Value(b, 4)
    ensures (b >> 5) & 1 <= 1 && ((b >> 5) & 1) as nat == Value(b, 5)
    ensures (b >> 6) & 1 <= 1 && ((b >> 6) & 1) as nat == Value(b, 6)
    ensures (b >> 7) & 1 <= 1 && ((b >> 7) & 1) as nat == Value(b, 7)
  {
    FirstMasks();
    FirstShifts(b);
    hide Mask, Meets, Value;
    ValueIs(b, 0, 0x1, b & 1);
    ValueIs(b, 1, 0x2, (b >> 1) & 1);
    ValueIs(b, 2, 0x4, (b >> 2) & 1);
    ValueIs(b, 3, 0x8, (b >> 3) & 1);
    ValueIs(b, 4, 0x10, (b >> 4) & 1);
    ValueIs(b, 5, 0x20, (b >> 5) & 1);
    ValueIs(b, 6, 0x40, (b >> 6) & 1);
    ValueIs(b, 7, 0x80, (b >> 7) & 1);
  }

  lemma FirstCount(b: bv32)
    ensures ByteOnes(b) as nat == CountBelow(b, 8) - CountBelow(b, 0)
  {
    hide Value, CountBelow;
    FirstValues(b);
    EightCount(b, 0, b & 1, (b >> 1) & 1, (b >> 2) & 1, (b >> 3) & 1,
               (b >> 4) & 1, (b >> 5) & 1, (b >> 6) & 1, (b >> 7) & 1);
  }

  lemma SecondValues(b: bv32)
    ensures (b >> 8) & 1 <= 1 && ((b >> 8) & 1) as nat == Value(b, 8)
    ensures ((b >> 8) >> 1) & 1 <= 1 && (((b >> 8) >> 1) & 1) as nat == Value(b, 9)
    ensures ((b >> 8) >> 2) & 1 <= 1 && (((b >> 8) >> 2) & 1) as nat == Value(b, 10)
    ensures ((b >> 8) >> 3) & 1 <= 1 && (((b >> 8) >> 3) & 1) as nat == Value(b, 11)
    ensures ((b >> 8) >> 4) & 1 <= 1 && (((b >> 8) >> 4) & 1) as nat == Value(b, 12)
    ensures ((b >> 8) >> 5) & 1 <= 1 && (((b >> 8) >> 5) & 1) as nat == Value(b, 13)
    ensures ((b >> 8) >> 6) & 1 <= 1 && (((b >> 8) >> 6) & 1) as nat == Value(b, 14)
    ensures ((b >> 8) >> 7) & 1 <= 1 && (((b >> 8) >> 7) & 1) as nat == Value(b, 15)
  {
    SecondMasks();
    SecondShifts(b);
    hide Mask, Meets, Value;
    ValueIs(b, 8, 0x100, (b >> 8) & 1);
    ValueIs(b, 9, 0x200, ((b >> 8) >> 1) & 1);
    ValueIs(b, 10, 0x400, ((b >> 8) >> 2) & 1);
    ValueIs(b, 11, 0x800, ((b >> 8) >> 3) & 1);
    ValueIs(b, 12, 0x1000, ((b >> 8) >> 4) & 1);
    ValueIs(b, 13, 0x2000, ((b >> 8) >> 5) & 1);
    ValueIs(b, 14, 0x4000, ((b >> 8) >> 6) & 1);
    ValueIs(b, 15, 0x8000, ((b >> 8) >> 7) & 1);
  }

  lemma SecondCount(b: bv32)
    ensures ByteOnes(b >> 8) as nat == CountBelow(b, 16) - CountBelow(b, 8)
  {
    hide Value, CountBelow;
    SecondValues(b);
    EightCount(b, 8, (b >> 8) & 1, ((b >> 8) >> 1) & 1, ((b >> 8) >> 2) & 1, ((b >> 8) >> 3) & 1,
               ((b >> 8) >> 4) & 1, ((b >> 8) >> 5) & 1, ((b >> 8) >> 6) & 1, ((b >> 8) >> 7) & 1);
  }

  lemma ThirdValues(b: bv32)
    ensures (b >> 16) & 1 <= 1 && ((b >> 16) & 1) as nat == Value(b, 16)
    ensures ((b >> 16) >> 1) & 1 <= 1 && (((b >> 16) >> 1) & 1) as nat == Value(b, 17)
    ensures ((b >> 16) >> 2) & 1 <= 1 && (((b >> 16) >> 2) & 1) as nat == Value(b, 18)
    ensures ((b >> 16) >> 3) & 1 <= 1 && (((b >> 16) >> 3) & 1) as nat == Value(b, 19)
    ensures ((b >> 16) >> 4) & 1 <= 1 && (((b >> 16) >> 4) & 1) as nat == Value(b, 20)
    ensures ((b >> 16) >> 5) & 1 <= 1 && (((b >> 16) >> 5) & 1) as nat == Value(b, 21)
    ensures ((b >> 16) >> 6) & 1 <= 1 && (((b >> 16) >> 6) & 1) as nat == Value(b, 22)
    ensures ((b >> 16) >> 7) & 1 <= 1 && (((b >> 16) >> 7) & 1) as nat == Value(b, 23)
  {
    ThirdMasks();
    ThirdShifts(b);
    hide Mask, Meets, Value;
    ValueIs(b, 16, 0x10000, (b >> 16) & 1);
    ValueIs(b, 17, 0x20000, ((b >> 16) >> 1) & 1);
    ValueIs(b, 18, 0x40000, ((b >> 16) >> 2) & 1);
    ValueIs(b, 19, 0x80000, ((b >> 16) >> 3) & 1);
    ValueIs(b, 20, 0x100000, ((b >> 16) >> 4) & 1);
    ValueIs(b, 21, 0x200000, ((b >> 16) >> 5) & 1);
    ValueIs(b, 22, 0x400000, ((b >> 16) >> 6) & 1);
    ValueIs(b, 23, 0x800000, ((b >> 16) >> 7) & 1);
  }

  lemma ThirdCount(b: bv32)
    ensures ByteOnes(b >> 16) as nat == CountBelow(b, 24) - CountBelow(b, 16)
  {
    hide Value, CountBelow;
    ThirdValues(b);
    EightCount(b, 16, (b >> 16) & 1, ((b >> 16) >> 1) & 1, ((b >> 16) >> 2) & 1, ((b >> 16) >> 3) & 1,
               ((b >> 16) >> 4) & 1, ((b >> 16) >> 5) & 1, ((b >> 16) >> 6) & 1, ((b >> 16) >> 7) & 1);
  }

  lemma FourthValues(b: bv32)
    ensures (b >> 24) & 1 <= 1 && ((b >> 24) & 1) as nat == Value(b, 24)
    ensures ((b >> 24) >> 1) & 1 <= 1 && (((b >> 24) >> 1) & 1) as nat == Value(b, 25)
    ensures ((b >> 24) >> 2) & 1 <= 1 && (((b >> 24) >> 2) & 1) as nat == Value(b, 26)
    ensures ((b >> 24) >> 3) & 1 <= 1 && (((b >> 24) >> 3) & 1) as nat == Value(b, 27)
    ensures ((b >> 24) >> 4) & 1 <= 1 && (((b >> 24) >> 4) & 1) as nat == Value(b, 28)
    ensures ((b >> 24) >> 5) & 1 <= 1 && (((b >> 24) >> 5) & 1) as nat == Value(b, 29)
    ensures ((b >> 24) >> 6) & 1 <= 1 && (((b >> 24) >> 6) & 1) as nat == Value(b, 30)
    ensures ((b >> 24) >> 7) & 1 <= 1 && (((b >> 24) >> 7) & 1) as nat == Value(b, 31)
  {
    FourthMasks();
    FourthShifts(b);
    hide Mask, Meets, Value;
    ValueIs(b, 24, 0x1000000, (b >> 24) & 1);
    ValueIs(b, 25, 0x2000000, ((b >> 24) >> 1) & 1);
    ValueIs(b, 26, 0x4000000, ((b >> 24) >> 2) & 1);
    ValueIs(b, 27, 0x8000000, ((b >> 24) >> 3) & 1);
    ValueIs(b, 28, 0x10000000, ((b >> 24) >> 4) & 1);
    ValueIs(b, 29, 0x20000000, ((b >> 24) >> 5) & 1);
    ValueIs(b, 30, 0x40000000, ((b >> 24) >> 6) & 1);
    ValueIs(b, 31, 0x80000000, ((b >> 24) >> 7) & 1);
  }

  lemma FourthCount(b: bv32)
    ensures ByteOnes(b >> 24) as nat == CountBelow(b, 32) - CountBelow(b, 24)
  {
    hide Value, CountBelow;
    FourthValues(b);
    EightCount(b, 24, (b >> 24) & 1, ((b >> 24) >> 1) & 1, ((b >> 24) >> 2) & 1, ((b >> 24) >> 3) & 1,
               ((b >> 24) >> 4) & 1, ((b >> 24) >> 5) & 1, ((b >> 24) >> 6) & 1, ((b >> 24) >> 7) & 1);
  }

  lemma SumBytes(c0: bv32, c1: bv32, c2: bv32, c3: bv32)
    requires c0 <= 8 && c1 <= 8 && c2 <= 8 && c3 <= 8
    ensures (c0 + c1 + c2 + c3) as nat == c0 as nat + c1 as nat + c2 as nat + c3 as nat
  {
    SumSmall(c0, c1);
    SumSmall(c2, c3);
    SumSmall(c0 + c1, c2 + c3);
    RegroupFour(c0, c1, c2, c3);
  }

  lemma RegroupFour(c0: bv32, c1: bv32, c2: bv32, c3: bv32)
    ensures (c0 + c1) + (c2 + c3) == c0 + c1 + c2 + c3
  {
  }

  lemma FourSumIs(c0: bv32, c1: bv32, c2: bv32, c3: bv32, n: nat)
    requires (c0 + c1 + c2 + c3) as nat == n
    ensures FourSum(c0, c1, c2, c3) as nat == n
  {
  }

  lemma SumSmall(a: bv32, b: bv32)
    requires a <= 16 && b <= 16
    ensures (a + b) as nat == a as nat + b as nat
    ensures a <= 8 && b <= 8 ==> a + b <= 16
  {
  }

  lemma BytesSmall(b: bv32)
    ensures ByteOnes(b) <= 8 && ByteOnes(b >> 8) <= 8 && ByteOnes(b >> 16) <= 8 && ByteOnes(b >> 24) <= 8
  {
    hide ByteOnes, Fields;
    FirstByte(b);
    SecondByte(b);
    ThirdByte(b);
    FourthByte(b);
  }

  lemma OnesAreCount(b: bv32)
    ensures Ones(b) as nat == CountBelow(b, 32)
  {
    assert CountBelow(b, 0) == 0;
    hide CountBelow, ByteOnes, FourSum;
    var c0, c1, c2, c3 := ByteOnes(b), ByteOnes(b >> 8), ByteOnes(b >> 16), ByteOnes(b >> 24);
    BytesSmall(b);
    SumBytes(c0, c1, c2, c3);
    FourSumIs(c0, c1, c2, c3, c0 as nat + c1 as nat + c2 as nat + c3 as nat);
    FirstCount(b);
    SecondCount(b);
    ThirdCount(b);
    FourthCount(b);
  }

  /** BitCount is the number of one bits. */
  lemma CountExact(b: bv32)
    ensures BitCount(b) as nat == |BitsOf(b)|
  {
    hide Bit, CountBelow, BitCount, Ones;
    BitCountExact(b);
    OnesAreCount(b);
    CountIsBits(b, 32);
  }
}
