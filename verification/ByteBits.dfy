/** Bit masks of a byte of a 1-bit-per-pixel buffer, and how the three drawing colours combine a
    mask with a byte. Only the lemmas that need the bit-vector operators see them. */
module ByteBits {
  datatype Color = Black | White | Inverse

  /** 1 << k */
  function LowBit(k: nat): bv8
    requires k < 8
  {
    if k == 0 then 0x01 else if k == 1 then 0x02 else if k == 2 then 0x04 else if k == 3 then 0x08
    else if k == 4 then 0x10 else if k == 5 then 0x20 else if k == 6 then 0x40 else 0x80
  }

  /** 0x80 >> k */
  function HighBit(k: nat): bv8
    requires k < 8
  {
    LowBit(7 - k)
  }

  /** (1 << n) - 1 for n < 8, and 0xFF for n == 8: the n lowest bits of a byte. */
  function LowOnes(n: nat): bv8
    requires n <= 8
  {
    if n == 0 then 0x00 else if n == 1 then 0x01 else if n == 2 then 0x03 else if n == 3 then 0x07
    else if n == 4 then 0x0F else if n == 5 then 0x1F else if n == 6 then 0x3F
    else if n == 7 then 0x7F else 0xFF
  }

  predicate Overlap(a: bv8, b: bv8) {
    a & b != 0
  }

  function Union(a: bv8, b: bv8): bv8 {
    a | b
  }

  function Without(a: bv8, b: bv8): bv8 {
    a & !b
  }

  function Flip(a: bv8, b: bv8): bv8 {
    a ^ b
  }

  /** What drawing in a colour does to the bits of a mask: |= mask, &= ~mask or ^= mask. */
  function Blend(b: bv8, mask: bv8, c: Color): bv8 {
    match c
    case White => Union(b, mask)
    case Black => Without(b, mask)
    case Inverse => Flip(b, mask)
  }

  function Paint(lit: bool, c: Color): bool {
    match c
    case White => true
    case Black => false
    case Inverse => !lit
  }

  predicate SingleBit(m: bv8) {
    m == 1 || m == 2 || m == 4 || m == 8 || m == 16 || m == 32 || m == 64 || m == 128
  }

  /** Byte i combined with a mask. */
  function MaskByte(buf: seq<bv8>, i: int, mask: bv8, c: Color): (r: seq<bv8>)
    requires 0 <= i < |buf|
    ensures |r| == |buf|
  {
    buf[i := Blend(buf[i], mask, c)]
  }

  // ----- order and grouping of masks

  /** Two masked writes can be done in either order, also to the same byte. */
  lemma MasksCommute(buf: seq<bv8>, i: int, m1: bv8, j: int, m2: bv8, c: Color)
    requires 0 <= i < |buf| && 0 <= j < |buf|
    ensures MaskByte(MaskByte(buf, i, m1, c), j, m2, c) == MaskByte(MaskByte(buf, j, m2, c), i, m1, c)
  {
    hide Blend;
    if i == j {
      BlendCommutes(buf[i], m1, m2, c);
    }
  }

  /** Writing two masks that share no bit is writing their union. */
  lemma MaskByteTwice(buf: seq<bv8>, i: int, m1: bv8, m2: bv8, c: Color)
    requires 0 <= i < |buf| && !Overlap(m1, m2)
    ensures MaskByte(buf, i, Union(m1, m2), c) == MaskByte(MaskByte(buf, i, m1, c), i, m2, c)
  {
    hide Blend, Union, Overlap;
    BlendUnion(buf[i], m1, m2, c);
  }

  lemma MaskByteByNothing(buf: seq<bv8>, i: int, c: Color)
    requires 0 <= i < |buf|
    ensures MaskByte(buf, i, 0, c) == buf
  {
    BlendNothing(buf[i], c);
  }

  lemma BlendCommutes(b: bv8, m1: bv8, m2: bv8, c: Color)
    ensures Blend(Blend(b, m1, c), m2, c) == Blend(Blend(b, m2, c), m1, c)
  {
    hide *;
    match c
    case White => WhiteCommutes(b, m1, m2);
    case Black => BlackCommutes(b, m1, m2);
    case Inverse => InverseCommutes(b, m1, m2);
  }

  lemma WhiteCommutes(b: bv8, m1: bv8, m2: bv8)
    ensures Blend(Blend(b, m1, White), m2, White) == Blend(Blend(b, m2, White), m1, White)
  {}

  lemma BlackCommutes(b: bv8, m1: bv8, m2: bv8)
    ensures Blend(Blend(b, m1, Black), m2, Black) == Blend(Blend(b, m2, Black), m1, Black)
  {}

  lemma InverseCommutes(b: bv8, m1: bv8, m2: bv8)
    ensures Blend(Blend(b, m1, Inverse), m2, Inverse) == Blend(Blend(b, m2, Inverse), m1, Inverse)
  {}

  lemma BlendUnion(b: bv8, m1: bv8, m2: bv8, c: Color)
    requires !Overlap(m1, m2)
    ensures Blend(b, Union(m1, m2), c) == Blend(Blend(b, m1, c), m2, c)
  {
    hide *;
    match c
    case White => UnionWhite(b, m1, m2);
    case Black => UnionBlack(b, m1, m2);
    case Inverse => UnionInverse(b, m1, m2);
  }

  lemma UnionWhite(b: bv8, m1: bv8, m2: bv8)
    ensures Blend(b, Union(m1, m2), White) == Blend(Blend(b, m1, White), m2, White)
  {}

  lemma UnionBlack(b: bv8, m1: bv8, m2: bv8)
    ensures Blend(b, Union(m1, m2), Black) == Blend(Blend(b, m1, Black), m2, Black)
  {}

  lemma UnionInverse(b: bv8, m1: bv8, m2: bv8)
    requires !Overlap(m1, m2)
    ensures Blend(b, Union(m1, m2), Inverse) == Blend(Blend(b, m1, Inverse), m2, Inverse)
  {}

  lemma BlendNothing(b: bv8, c: Color)
    ensures Blend(b, 0, c) == b
  {}

  lemma BlendEverything(b: bv8, c: Color)
    ensures Blend(b, 0xFF, c) == match c case White => 0xFF case Black => 0 case Inverse => Flip(b, 0xFF)
  {}

  // ----- single bits

  /** Bit k of a byte is set. */
  predicate BitSet(b: bv8, k: nat)
    requires k < 8
  {
    (b >> k) & 1 == 1
  }

  lemma BitIsMask(b: bv8, k: nat)
    requires k < 8
    ensures BitSet(b, k) <==> Overlap(b, LowBit(k))
  {
    hide *;
    ShiftedBits(b);
    match k
    case 0 => LowBitIs(0);
    case 1 => LowBitIs(1);
    case 2 => LowBitIs(2);
    case 3 => LowBitIs(3);
    case 4 => LowBitIs(4);
    case 5 => LowBitIs(5);
    case 6 => LowBitIs(6);
    case 7 => LowBitIs(7);
  }

  lemma LowBitIs(k: nat)
    requires k < 8
    ensures LowBit(k) == [1, 2, 4, 8, 16, 32, 64, 128][k]
  {}

  lemma ShiftedBits(b: bv8)
    ensures BitSet(b, 0) == Overlap(b, 1) && BitSet(b, 1) == Overlap(b, 2)
    ensures BitSet(b, 2) == Overlap(b, 4) && BitSet(b, 3) == Overlap(b, 8)
    ensures BitSet(b, 4) == Overlap(b, 16) && BitSet(b, 5) == Overlap(b, 32)
    ensures BitSet(b, 6) == Overlap(b, 64) && BitSet(b, 7) == Overlap(b, 128)
  {}

  /** Painting with one bit set changes that bit as the colour says and no other bit. */
  lemma BlendBit(b: bv8, j: nat, k: nat, c: Color)
    requires j < 8 && k < 8
    ensures Overlap(Blend(b, LowBit(j), c), LowBit(k))
         == if j == k then Paint(Overlap(b, LowBit(k)), c) else Overlap(b, LowBit(k))
  {
    hide *;
    if j == k {
      LowBitIsSingle(k);
      BlendOwnBit(b, LowBit(k), c);
    } else {
      LowBitsDiffer(j, k);
      BlendOtherBits(b, LowBit(j), LowBit(k), c);
    }
  }

  lemma LowBitIsSingle(k: nat)
    requires k < 8
    ensures SingleBit(LowBit(k))
  {}

  lemma LowBitsDiffer(j: nat, k: nat)
    requires j < 8 && k < 8 && j != k
    ensures !Overlap(LowBit(j), LowBit(k))
  {}

  lemma BlendOwnBit(b: bv8, m: bv8, c: Color)
    requires SingleBit(m)
    ensures Overlap(Blend(b, m, c), m) == Paint(Overlap(b, m), c)
  {
    hide Blend, Overlap, SingleBit;
    match c
    case White => OwnBitWhite(b, m);
    case Black => OwnBitBlack(b, m);
    case Inverse => OwnBitInverse(b, m);
  }

  lemma OwnBitWhite(b: bv8, m: bv8)
    requires SingleBit(m)
    ensures Overlap(Blend(b, m, White), m)
  {}

  lemma OwnBitBlack(b: bv8, m: bv8)
    ensures !Overlap(Blend(b, m, Black), m)
  {}

  lemma OwnBitInverse(b: bv8, m: bv8)
    requires SingleBit(m)
    ensures Overlap(Blend(b, m, Inverse), m) <==> !Overlap(b, m)
  {}

  lemma BlendOtherBits(b: bv8, m: bv8, k: bv8, c: Color)
    requires !Overlap(m, k)
    ensures Overlap(Blend(b, m, c), k) == Overlap(b, k)
  {
    hide *;
    match c
    case White => OtherBitsWhite(b, m, k);
    case Black => OtherBitsBlack(b, m, k);
    case Inverse => OtherBitsInverse(b, m, k);
  }

  lemma OtherBitsWhite(b: bv8, m: bv8, k: bv8)
    requires !Overlap(m, k)
    ensures Overlap(Blend(b, m, White), k) == Overlap(b, k)
  {
    assert (b | m) & k == b & k;
  }

  lemma OtherBitsBlack(b: bv8, m: bv8, k: bv8)
    requires !Overlap(m, k)
    ensures Overlap(Blend(b, m, Black), k) == Overlap(b, k)
  {
    assert (b & !m) & k == b & k;
  }

  lemma OtherBitsInverse(b: bv8, m: bv8, k: bv8)
    requires !Overlap(m, k)
    ensures Overlap(Blend(b, m, Inverse), k) == Overlap(b, k)
  {
    assert (b ^ m) & k == b & k;
  }

  // ----- ranges of bits

  /** The mask of the bits lo..hi-1. */
  function LowRange(lo: nat, hi: nat): bv8
    requires lo <= hi <= 8
  {
    Without(LowOnes(hi), LowOnes(lo))
  }

  /** A range of bits grows by one bit at its top. */
  lemma LowRangeStep(lo: nat, hi: nat)
    requires lo <= hi < 8
    ensures LowRange(lo, hi + 1) == Union(LowRange(lo, hi), LowBit(hi))
    ensures !Overlap(LowRange(lo, hi), LowBit(hi))
  {
    hide LowOnes, LowBit, Without, Union, Overlap;
    LowOnesStep(hi);
    BitAbove(lo, hi);
    WithoutUnion(LowOnes(lo), LowOnes(hi), LowBit(hi));
  }

  lemma LowOnesStep(n: nat)
    requires n < 8
    ensures LowOnes(n + 1) == Union(LowOnes(n), LowBit(n))
    ensures !Overlap(LowOnes(n), LowBit(n))
  {}

  lemma BitAbove(lo: nat, hi: nat)
    requires lo <= hi < 8
    ensures Without(LowBit(hi), LowOnes(lo)) == LowBit(hi)
  {}

  lemma WithoutUnion(lo: bv8, hi: bv8, bit: bv8)
    requires Without(bit, lo) == bit && !Overlap(hi, bit)
    ensures Without(Union(hi, bit), lo) == Union(Without(hi, lo), bit)
    ensures !Overlap(Without(hi, lo), bit)
  {}

  lemma EmptyRange(lo: nat)
    requires lo <= 8
    ensures LowRange(lo, lo) == 0
  {
    hide LowOnes;
  }

  lemma RangeFromZero(n: nat)
    requires n <= 8
    ensures LowRange(0, n) == LowOnes(n)
  {
    assert LowOnes(0) == 0;
    hide LowOnes;
  }

  /** The mask of the columns lo..hi-1, column 0 being the highest bit. */
  function HighRange(lo: nat, hi: nat): bv8
    requires lo <= hi <= 8
  {
    LowRange(8 - hi, 8 - lo)
  }

  lemma HighRangeStep(lo: nat, hi: nat)
    requires lo <= hi < 8
    ensures HighRange(lo, hi + 1) == Union(HighRange(lo, hi), HighBit(hi))
    ensures !Overlap(HighRange(lo, hi), HighBit(hi))
  {
    hide LowOnes, LowBit, Without, Union, Overlap;
    LowOnesStep(7 - hi);
    BitBelow(7 - hi, 8 - lo);
    WithoutLowest(LowOnes(8 - lo), LowOnes(7 - hi), LowBit(7 - hi));
  }

  lemma BitBelow(k: nat, n: nat)
    requires k < n <= 8
    ensures Without(LowBit(k), LowOnes(n)) == 0
  {}

  lemma WithoutLowest(upper: bv8, lower: bv8, bit: bv8)
    requires Without(bit, upper) == 0 && !Overlap(lower, bit)
    ensures Without(upper, lower) == Union(Without(upper, Union(lower, bit)), bit)
    ensures !Overlap(Without(upper, Union(lower, bit)), bit)
  {}

  lemma FullRange()
    ensures HighRange(0, 8) == 0xFF && LowRange(0, 8) == 0xFF
  {
    RangeFromZero(8);
  }

  /** b << n */
  function ShiftLeft(b: bv8, n: nat): bv8
    requires n < 8
  {
    if n == 0 then b else ShiftLeft(b, n - 1) << 1
  }

  /** After n left shifts the top bit is the original's bit n, counted from the top. */
  lemma TopAfterShift(b: bv8, n: nat)
    requires n < 8
    ensures Overlap(ShiftLeft(b, n), 0x80) == Overlap(b, HighBit(n))
  {
    ShiftMoves(b, n, 7 - n);
  }

  lemma {:induction false} ShiftMoves(b: bv8, n: nat, k: nat)
    requires n + k < 8
    ensures Overlap(ShiftLeft(b, n), LowBit(n + k)) == Overlap(b, LowBit(k))
    decreases n
  {
    hide Overlap, LowBit;
    if n > 0 {
      OneShift(ShiftLeft(b, n - 1), n - 1 + k);
      ShiftMoves(b, n - 1, k);
    }
  }

  lemma OneShift(b: bv8, k: nat)
    requires k < 7
    ensures Overlap(b << 1, LowBit(k + 1)) == Overlap(b, LowBit(k))
  {
    NextBit(k);
    BitMoves(b, LowBit(k));
  }

  lemma NextBit(k: nat)
    requires k < 7
    ensures LowBit(k + 1) == LowBit(k) << 1 && LowBit(k) & 0x80 == 0
  {}

  lemma BitMoves(b: bv8, m: bv8)
    requires m & 0x80 == 0
    ensures Overlap(b << 1, m << 1) == Overlap(b, m)
  {
    assert (b << 1) & (m << 1) == (b & m) << 1;
    assert (b & m) & 0x80 == 0;
  }
}
