/** The 32-bit population count of the tid-list macros, on signed words as in the source: a right shift
    repeats the sign bit. The proof shows that the copies of the sign bit never reach a field, and then
    follows the four bytes. */
module BitCounts {

  /** The bits of the lowest byte, added up. */
  function ByteOnes(b: bv32): bv32 {
    (b & 1) + ((b >> 1) & 1) + ((b >> 2) & 1) + ((b >> 3) & 1)
    + ((b >> 4) & 1) + ((b >> 5) & 1) + ((b >> 6) & 1) + ((b >> 7) & 1)
  }

  function FourSum(c0: bv32, c1: bv32, c2: bv32, c3: bv32): bv32 {
    c0 + c1 + c2 + c3
  }

  /** All 32 bits, added up. */
  function Ones(b: bv32): bv32 {
    FourSum(ByteOnes(b), ByteOnes(b >> 8), ByteOnes(b >> 16), ByteOnes(b >> 24))
  }

  /** Right shift of a signed word by k places; fill holds the copies of the sign bit. */
  function Signed(b: bv32, shifted: bv32, fill: bv32): bv32 {
    if b & 0x80000000 == 0 then shifted else shifted | fill
  }

  function Pairs(b: bv32): bv32 {
    (b & 0x55555555) + (Signed(b, b >> 1, 0x80000000) & 0x55555555)
  }

  function Nibbles(b: bv32): bv32 {
    (b & 0x33333333) + (Signed(b, b >> 2, 0xC0000000) & 0x33333333)
  }

  function Bytes(b: bv32): bv32 {
    (b + Signed(b, b >> 4, 0xF0000000)) & 0x0F0F0F0F
  }

  function HalfSums(b: bv32): bv32 {
    b + Signed(b, b >> 8, 0xFF000000)
  }

  function Total(b: bv32): bv32 {
    (b + Signed(b, b >> 16, 0xFFFF0000)) & 0x0000003F
  }

  function BitCount(b: bv32): bv32 {
    Total(HalfSums(Bytes(Nibbles(Pairs(b)))))
  }

  /** The copies of the sign bit never reach a field. */
  lemma OddMasked(b: bv32)
    ensures ((b >> 1) | 0x80000000) & 0x55555555 == (b >> 1) & 0x55555555
  {
  }

  lemma OddSigned(b: bv32)
    ensures Signed(b, b >> 1, 0x80000000) & 0x55555555 == (b >> 1) & 0x55555555
  {
    OddMasked(b);
  }

  lemma PairsMasked(b: bv32)
    ensures Pairs(b) == (b & 0x55555555) + ((b >> 1) & 0x55555555)
  {
    hide Signed;
    OddSigned(b);
  }

  lemma UpperMasked(b: bv32)
    ensures ((b >> 2) | 0xC0000000) & 0x33333333 == (b >> 2) & 0x33333333
  {
  }

  lemma UpperSigned(b: bv32)
    ensures Signed(b, b >> 2, 0xC0000000) & 0x33333333 == (b >> 2) & 0x33333333
  {
    UpperMasked(b);
  }

  lemma NibblesMasked(b: bv32)
    ensures Nibbles(b) == (b & 0x33333333) + ((b >> 2) & 0x33333333)
  {
    hide Signed;
    UpperSigned(b);
  }

  lemma BytesMasked(b: bv32)
    ensures b & 0x80000000 == 0 ==> Bytes(b) == (b + (b >> 4)) & 0x0F0F0F0F
  {
  }

  /** The unsigned form of the first three steps. */
  function Fields(b: bv32): bv32 {
    var p := (b & 0x55555555) + ((b >> 1) & 0x55555555);
    var n := (p & 0x33333333) + ((p >> 2) & 0x33333333);
    (n + (n >> 4)) & 0x0F0F0F0F
  }

  lemma FieldsAre(b: bv32)
    ensures Bytes(Nibbles(Pairs(b))) == Fields(b)
  {
    var p := Pairs(b);
    PairsMasked(b);
    NibblesMasked(p);
    var n := Nibbles(p);
    BytesMasked(n);
    NotNegative(p);
    hide Pairs, Nibbles, Bytes;
  }

  lemma NotNegative(p: bv32)
    ensures ((p & 0x33333333) + ((p >> 2) & 0x33333333)) & 0x80000000 == 0
  {
  }

  lemma FirstByte(b: bv32)
    ensures Fields(b) & 0xFF == ByteOnes(b) && ByteOnes(b) <= 8
  {
  }

  lemma SecondByte(b: bv32)
    ensures (Fields(b) >> 8) & 0xFF == ByteOnes(b >> 8) && ByteOnes(b >> 8) <= 8
  {
  }

  lemma ThirdByte(b: bv32)
    ensures (Fields(b) >> 16) & 0xFF == ByteOnes(b >> 16) && ByteOnes(b >> 16) <= 8
  {
  }

  lemma FourthByte(b: bv32)
    ensures (Fields(b) >> 24) & 0xFF == ByteOnes(b >> 24) && ByteOnes(b >> 24) <= 8
  {
  }

  /** Adding up the four bytes. */
  lemma TotalIs(x: bv32)
    requires x & 0xFF <= 8 && (x >> 8) & 0xFF <= 8 && (x >> 16) & 0xFF <= 8 && (x >> 24) & 0xFF <= 8
    ensures Total(HalfSums(x)) == FourSum(x & 0xFF, (x >> 8) & 0xFF, (x >> 16) & 0xFF, (x >> 24) & 0xFF)
  {
  }

  /** The five additions count the one bits, for negative words as well. */
  lemma BitCountExact(b: bv32)
    ensures BitCount(b) == Ones(b)
  {
    hide Fields, ByteOnes, Total, HalfSums, Bytes, Nibbles, Pairs, Signed, FourSum;
    FieldsAre(b);
    FirstByte(b);
    SecondByte(b);
    ThirdByte(b);
    FourthByte(b);
    TotalIs(Fields(b));
  }
}
