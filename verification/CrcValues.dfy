/** The CRC-32 as a number: its polynomial, its check value, and the residue that every message leaves. */
module CrcValues {
  import opened Machine
  import opened BitStrings
  import opened Crc32

  const POLYNOMIAL: nat := 0xedb88320

  function Digit(b: bool, weight: nat): nat {
    if b then weight else 0
  }

  lemma ValByte(s: seq<bool>)
    requires |s| == 8
    ensures Val(s) == Digit(s[0], 1) + Digit(s[1], 2) + Digit(s[2], 4) + Digit(s[3], 8) +
      Digit(s[4], 16) + Digit(s[5], 32) + Digit(s[6], 64) + Digit(s[7], 128)
  {
    hide Val;
    ValNibble(s, 0);
    ValNibble(s, 4);
    ValOfNone(s);
  }

  lemma ValNibble(s: seq<bool>, i: nat)
    requires i + 4 <= |s|
    ensures Val(s[i..]) ==
      Digit(s[i], 1) + Digit(s[i + 1], 2) + Digit(s[i + 2], 4) + Digit(s[i + 3], 8) + 16 * Val(s[i + 4..])
    ensures s[0..] == s
  {
    hide Val;
    ValFrom(s, i);
    ValFrom(s, i + 1);
    ValFrom(s, i + 2);
    ValFrom(s, i + 3);
  }

  lemma ValFrom(s: seq<bool>, i: nat)
    requires i < |s|
    ensures Val(s[i..]) == Digit(s[i], 1) + 2 * Val(s[i + 1..]) && s[0..] == s
  {
    assert s[i..][1..] == s[i + 1..];
  }

  lemma ValOfNone(s: seq<bool>)
    ensures Val(s[|s|..]) == 0
  {
  }

  lemma {:induction false} ShlIsTimes(v: nat, n: nat)
    ensures Shl(v, n) == Pow2(n) * v
    decreases n
  {
    if n > 0 {
      ShlIsTimes(v, n - 1);
    }
  }

  lemma ShlByte(v: nat)
    ensures Shl(v, 8) == 0x100 * v
  {
    Pow2Of8();
    ShlIsTimes(v, 8);
  }

  lemma ValWord(w: Word)
    ensures Val(w) == Val(w[..8]) + 0x100 * Val(w[8..16]) + 0x1_0000 * Val(w[16..24]) + 0x100_0000 * Val(w[24..])
  {
    hide Val;
    ShlByte(Val(w[8..]));
    ShlByte(Val(w[16..]));
    ShlByte(Val(w[24..]));
    ValAppend(w[..8], w[8..]);
    ValAppend(w[8..16], w[16..]);
    ValAppend(w[16..24], w[24..]);
    assert w[..8] + w[8..] == w && w[8..16] + w[16..] == w[8..] && w[16..24] + w[24..] == w[16..];
  }

  lemma PolynomialBits0()
    ensures !Poly()[0] && !Poly()[1] && !Poly()[2] && !Poly()[3] && !Poly()[4] && Poly()[5] && !Poly()[6] && !Poly()[7]
  {
  }

  lemma PolynomialBits1()
    ensures Poly()[8] && Poly()[9] && !Poly()[10] && !Poly()[11] && !Poly()[12] && !Poly()[13] && !Poly()[14] && Poly()[15]
  {
  }

  lemma PolynomialBits2()
    ensures !Poly()[16] && !Poly()[17] && !Poly()[18] && Poly()[19] && Poly()[20] && Poly()[21] && !Poly()[22] && Poly()[23]
  {
  }

  lemma PolynomialBits3()
    ensures Poly()[24] && !Poly()[25] && Poly()[26] && Poly()[27] && !Poly()[28] && Poly()[29] && Poly()[30] && Poly()[31]
  {
  }

  lemma PolynomialBits()
    ensures !Poly()[0] && !Poly()[1] && !Poly()[2] && !Poly()[3] && !Poly()[4] && Poly()[5] && !Poly()[6] && !Poly()[7]
    ensures Poly()[8] && Poly()[9] && !Poly()[10] && !Poly()[11] && !Poly()[12] && !Poly()[13] && !Poly()[14] && Poly()[15]
    ensures !Poly()[16] && !Poly()[17] && !Poly()[18] && Poly()[19] && Poly()[20] && Poly()[21] && !Poly()[22] && Poly()[23]
    ensures Poly()[24] && !Poly()[25] && Poly()[26] && Poly()[27] && !Poly()[28] && Poly()[29] && Poly()[30] && Poly()[31]
  {
    hide Poly;
    PolynomialBits0();
    PolynomialBits1();
    PolynomialBits2();
    PolynomialBits3();
  }

  /** The bits of the polynomial as a number, the highest power lowest. */
  lemma PolynomialIs()
    ensures Val(Poly()) == POLYNOMIAL
  {
    hide Poly, Val;
    var p := Poly();
    PolynomialBits();
    ValByte(p[..8]);
    ValByte(p[8..16]);
    ValByte(p[16..24]);
    ValByte(p[24..]);
    ValWord(p);
  }

  // ---- The check value

  /** The 32-bit number with only bit i set. */
  function Mask(i: nat): bv32 {
    if i == 0 then 1 else Mask(i - 1) << 1
  }

  lemma MaskIs(i: nat)
    ensures i > 0 ==> Mask(i) == Mask(i - 1) << 1
    ensures Mask(0) == 1
  {
  }

  lemma Masks()
    ensures Mask(0) == 0x1 && Mask(1) == 0x2 && Mask(2) == 0x4 && Mask(3) == 0x8
    ensures Mask(4) == 0x10 && Mask(5) == 0x20 && Mask(6) == 0x40 && Mask(7) == 0x80
    ensures Mask(8) == 0x100 && Mask(9) == 0x200 && Mask(10) == 0x400 && Mask(11) == 0x800
    ensures Mask(12) == 0x1000 && Mask(13) == 0x2000 && Mask(14) == 0x4000 && Mask(15) == 0x8000
    ensures Mask(16) == 0x10000 && Mask(17) == 0x20000 && Mask(18) == 0x40000 && Mask(19) == 0x80000
    ensures Mask(20) == 0x100000 && Mask(21) == 0x200000 && Mask(22) == 0x400000 && Mask(23) == 0x800000
    ensures Mask(24) == 0x1000000 && Mask(25) == 0x2000000 && Mask(26) == 0x4000000 && Mask(27) == 0x8000000
    ensures Mask(28) == 0x10000000 && Mask(29) == 0x20000000 && Mask(30) == 0x40000000 && Mask(31) == 0x80000000
  {
    hide Mask;
    MaskIs(0);
    MaskIs(1);
    MaskIs(2);
    MaskIs(3);
    MaskIs(4);
    MaskIs(5);
    MaskIs(6);
    MaskIs(7);
    MaskIs(8);
    MaskIs(9);
    MaskIs(10);
    MaskIs(11);
    MaskIs(12);
    MaskIs(13);
    MaskIs(14);
    MaskIs(15);
    MaskIs(16);
    MaskIs(17);
    MaskIs(18);
    MaskIs(19);
    MaskIs(20);
    MaskIs(21);
    MaskIs(22);
    MaskIs(23);
    MaskIs(24);
    MaskIs(25);
    MaskIs(26);
    MaskIs(27);
    MaskIs(28);
    MaskIs(29);
    MaskIs(30);
    MaskIs(31);
  }

  lemma {:induction false} OneBit(i: nat)
    ensures Mask(i) & (Mask(i) - 1) == 0
  {
    if i > 0 {
      OneBit(i - 1);
      Doubled(Mask(i - 1));
    }
  }

  lemma Doubled(m: bv32)
    requires m & (m - 1) == 0
    ensures (m << 1) & ((m << 1) - 1) == 0
  {
  }

  /** The bit that a mask of one bit picks. */
  predicate BitIs(b: bool, v: bv32, mask: bv32) {
    b == (v & mask != 0)
  }

  /** A word and a 32-bit number with the same bits. */
  predicate Same(w: Word, v: bv32) {
    forall i :: 0 <= i < 32 ==> BitIs(w[i], v, Mask(i))
  }

  function DivideWord(v: bv32): bv32 {
    if v & 1 != 0 then (v >> 1) ^ 0xedb88320 else v >> 1
  }

  lemma XorBit(a: bool, b: bool, v: bv32, u: bv32, mask: bv32)
    requires BitIs(a, v, mask) && BitIs(b, u, mask) && mask & (mask - 1) == 0
    ensures BitIs(a != b, v ^ u, mask)
  {
  }

  lemma XorSame(w: Word, x: Word, v: bv32, u: bv32)
    requires Same(w, v) && Same(x, u)
    ensures Same(Xor(w, x), v ^ u)
  {
    hide BitIs, Mask;
    forall i | 0 <= i < 32 ensures BitIs(Xor(w, x)[i], v ^ u, Mask(i)) {
      OneBit(i);
      XorBit(w[i], x[i], v, u, Mask(i));
    }
  }

  lemma ShiftBit(v: bv32, m: bv32)
    requires m & 0x8000_0000 == 0
    ensures (v >> 1) & m != 0 <==> v & (m << 1) != 0
  {
  }

  lemma NoTopBit(i: nat)
    requires i < 31
    ensures Mask(i) & 0x8000_0000 == 0
  {
    hide Mask;
    Masks();
  }

  lemma TopShifted(v: bv32)
    ensures (v >> 1) & 0x8000_0000 == 0
  {
  }

  lemma ShiftRightAt(w: Word, v: bv32, i: nat)
    requires i < 31 && BitIs(w[i + 1], v, Mask(i + 1))
    ensures BitIs(w[i + 1], v >> 1, Mask(i))
  {
    hide Mask;
    MaskIs(i + 1);
    NoTopBit(i);
    ShiftBit(v, Mask(i));
  }

  lemma ShiftRightTop(v: bv32)
    ensures BitIs(false, v >> 1, Mask(31))
  {
    hide Mask;
    Masks();
    TopShifted(v);
  }

  lemma ShiftRightSame(w: Word, v: bv32)
    requires Same(w, v)
    ensures Same(ShiftRight(w, 1), v >> 1)
  {
    hide Mask, BitIs;
    forall i | 0 <= i < 32 ensures BitIs(ShiftRight(w, 1)[i], v >> 1, Mask(i)) {
      if i < 31 {
        ShiftRightAt(w, v, i);
      } else {
        ShiftRightTop(v);
      }
    }
  }

  lemma PolySame()
    ensures Same(Poly(), 0xedb8_8320)
  {
    hide Mask, Poly;
    Masks();
    PolynomialBits();
  }

  lemma ShiftSame(w: Word, v: bv32)
    requires Same(w, v)
    ensures Same(Shift(w), DivideWord(v))
  {
    hide Mask, Poly;
    Masks();
    assert BitIs(w[0], v, Mask(0));
    ShiftRightSame(w, v);
    PolySame();
    XorSame(Poly(), ShiftRight(w, 1), 0xedb8_8320, v >> 1);
    assert (0xedb8_8320 as bv32) ^ (v >> 1) == (v >> 1) ^ 0xedb8_8320;
  }

  function DivideByte(v: bv32): bv32 {
    DivideWord(DivideWord(DivideWord(DivideWord(DivideWord(DivideWord(DivideWord(DivideWord(v))))))))
  }

  lemma ShiftsTwice(w: Word, v: bv32, n: nat)
    requires Same(w, v)
    ensures Shifts(w, n + 2) == Shifts(Shift(Shift(w)), n) && Same(Shift(Shift(w)), DivideWord(DivideWord(v)))
  {
    hide Same, DivideWord, Shift;
    ShiftSame(w, v);
    ShiftSame(Shift(w), DivideWord(v));
  }

  lemma ShiftsSame(w: Word, v: bv32)
    requires Same(w, v)
    ensures Same(Shifts(w, 8), DivideByte(v))
  {
    hide Same, DivideWord, Shift;
    ShiftsTwice(w, v, 6);
    var w2, v2 := Shift(Shift(w)), DivideWord(DivideWord(v));
    ShiftsTwice(w2, v2, 4);
    var w4, v4 := Shift(Shift(w2)), DivideWord(DivideWord(v2));
    ShiftsTwice(w4, v4, 2);
    var w6, v6 := Shift(Shift(w4)), DivideWord(DivideWord(v4));
    ShiftsTwice(w6, v6, 0);
  }

  /** A byte as a word. */
  lemma ByteSame(b: byte, v: bv32)
    requires (b % 2 == 1) == (v & 1 != 0) && (b / 2 % 2 == 1) == (v & 2 != 0)
    requires (b / 4 % 2 == 1) == (v & 4 != 0) && (b / 8 % 2 == 1) == (v & 8 != 0)
    requires (b / 16 % 2 == 1) == (v & 16 != 0) && (b / 32 % 2 == 1) == (v & 32 != 0)
    requires (b / 64 % 2 == 1) == (v & 64 != 0) && (b / 128 % 2 == 1) == (v & 128 != 0)
    requires v <= 0xff
    ensures Same(ByteWord(b), v)
  {
    hide Mask, Bits, BitIs;
    Masks();
    BitsOfByte(b as nat);
    forall i | 0 <= i < 32 ensures BitIs(ByteWord(b)[i], v, Mask(i)) {
      if i < 8 {
        assert ByteWord(b)[i] == Bits(b as int, 8)[i];
        LowBit(ByteWord(b)[i], v, Mask(i));
      } else {
        HighMask(i);
        HighBit(v, Mask(i));
      }
    }
  }

  lemma LowBit(a: bool, v: bv32, mask: bv32)
    requires a == (v & mask != 0)
    ensures BitIs(a, v, mask)
  {
  }

  lemma HighMask(i: nat)
    requires 8 <= i < 32
    ensures Mask(i) & 0xff == 0
  {
    hide Mask;
    Masks();
  }

  lemma HighBit(v: bv32, mask: bv32)
    requires v <= 0xff && mask & 0xff == 0
    ensures BitIs(false, v, mask)
  {
  }

  lemma NextSame(d: seq<byte>, b: byte, v: bv32, u: bv32)
    requires Same(Feed(Not(Zeros(32)), d), v) && Same(ByteWord(b), u)
    ensures Same(Feed(Not(Zeros(32)), d + [b]), DivideByte(v ^ u))
  {
    hide *;
    var r := Feed(Not(Zeros(32)), d);
    FeedByte(Not(Zeros(32)), d, b);
    XorSame(r, ByteWord(b), v, u);
    ShiftsSame(Xor(r, ByteWord(b)), v ^ u);
  }

  lemma StartSame()
    ensures Same(Feed(Not(Zeros(32)), []), 0xffff_ffff)
  {
    hide Mask;
    Masks();
  }

  lemma NotSameAt(w: Word, v: bv32, i: nat)
    requires i < 32 && BitIs(w[i], v, Mask(i))
    ensures Not(w)[i] == !w[i] && BitIs(!w[i], v ^ 0xffff_ffff, Mask(i))
  {
    hide Mask, BitIs;
    OneBit(i);
    SomeBit(i);
    NotBit(w[i], v, Mask(i));
  }

  lemma NotSame(w: Word, v: bv32)
    requires Same(w, v)
    ensures Same(Not(w), v ^ 0xffff_ffff)
  {
    hide Mask, BitIs, Not;
    forall i | 0 <= i < 32 ensures BitIs(Not(w)[i], v ^ 0xffff_ffff, Mask(i)) {
      NotSameAt(w, v, i);
    }
  }

  lemma SomeBit(i: nat)
    requires i < 32
    ensures Mask(i) != 0
  {
    hide Mask;
    Masks();
  }

  lemma NotBit(a: bool, v: bv32, mask: bv32)
    requires BitIs(a, v, mask) && mask & (mask - 1) == 0 && mask != 0
    ensures BitIs(!a, v ^ 0xffff_ffff, mask)
  {
  }

  /** The number a word is. */
  lemma CheckBits(w: Word)
    requires Same(w, 0xcbf4_3926)
    ensures !w[0] && w[1] && w[2] && !w[3] && !w[4] && w[5] && !w[6] && !w[7]
    ensures w[8] && !w[9] && !w[10] && w[11] && w[12] && w[13] && !w[14] && !w[15]
    ensures !w[16] && !w[17] && w[18] && !w[19] && w[20] && w[21] && w[22] && w[23]
    ensures w[24] && w[25] && !w[26] && w[27] && !w[28] && !w[29] && w[30] && w[31]
  {
    hide Mask;
    Masks();
  }

  lemma SameValue(w: Word)
    requires Same(w, 0xcbf4_3926)
    ensures Val(w) == 0xcbf4_3926
  {
    hide Val, Same;
    CheckBits(w);
    ValByte(w[..8]);
    ValByte(w[8..16]);
    ValByte(w[16..24]);
    ValByte(w[24..]);
    ValWord(w);
  }

  lemma CheckByte(d: seq<byte>, b: byte, v: bv32, u: bv32, next: bv32)
    requires Same(Feed(Not(Zeros(32)), d), v) && Same(ByteWord(b), u) && DivideByte(v ^ u) == next
    ensures Same(Feed(Not(Zeros(32)), d + [b]), next)
  {
    hide *;
    NextSame(d, b, v, u);
  }

  lemma Digits()
    ensures Same(ByteWord(49), 0x31)
    ensures Same(ByteWord(50), 0x32)
    ensures Same(ByteWord(51), 0x33)
    ensures Same(ByteWord(52), 0x34)
    ensures Same(ByteWord(53), 0x35)
    ensures Same(ByteWord(54), 0x36)
    ensures Same(ByteWord(55), 0x37)
    ensures Same(ByteWord(56), 0x38)
    ensures Same(ByteWord(57), 0x39)
  {
    hide Same;
    ByteSame(49, 0x31);
    ByteSame(50, 0x32);
    ByteSame(51, 0x33);
    ByteSame(52, 0x34);
    ByteSame(53, 0x35);
    ByteSame(54, 0x36);
    ByteSame(55, 0x37);
    ByteSame(56, 0x38);
    ByteSame(57, 0x39);
  }

  lemma Divisions()
    ensures DivideByte(0xffff_ffff ^ 0x31) == 0x7c23_1048
    ensures DivideByte(0x7c23_1048 ^ 0x32) == 0xb0ac_bb32
    ensures DivideByte(0xb0ac_bb32 ^ 0x33) == 0x77b7_9c2d
    ensures DivideByte(0x77b7_9c2d ^ 0x34) == 0x641c_1f5c
    ensures DivideByte(0x641c_1f5c ^ 0x35) == 0x340a_c5e3
    ensures DivideByte(0x340a_c5e3 ^ 0x36) == 0xf68d_2c9e
    ensures DivideByte(0xf68d_2c9e ^ 0x37) == 0xaffc_9660
    ensures DivideByte(0xaffc_9660 ^ 0x38) == 0x651f_2550
    ensures DivideByte(0x651f_2550 ^ 0x39) == 0x340b_c6d9
  {
  }

  /** The digits 1 to 9 through the register. */
  lemma CheckRegister()
    ensures Same(Feed(Not(Zeros(32)), [49, 50, 51, 52, 53, 54, 55, 56, 57]), 0x340b_c6d9)
  {
    hide *;
    StartSame();
    Digits();
    Divisions();
    CheckByte([], 49, 0xffff_ffff, 0x31, 0x7c23_1048);
    assert [] + [49] == [49];
    CheckByte([49], 50, 0x7c23_1048, 0x32, 0xb0ac_bb32);
    assert [49] + [50] == [49, 50];
    CheckByte([49, 50], 51, 0xb0ac_bb32, 0x33, 0x77b7_9c2d);
    assert [49, 50] + [51] == [49, 50, 51];
    CheckByte([49, 50, 51], 52, 0x77b7_9c2d, 0x34, 0x641c_1f5c);
    assert [49, 50, 51] + [52] == [49, 50, 51, 52];
    CheckByte([49, 50, 51, 52], 53, 0x641c_1f5c, 0x35, 0x340a_c5e3);
    assert [49, 50, 51, 52] + [53] == [49, 50, 51, 52, 53];
    CheckByte([49, 50, 51, 52, 53], 54, 0x340a_c5e3, 0x36, 0xf68d_2c9e);
    assert [49, 50, 51, 52, 53] + [54] == [49, 50, 51, 52, 53, 54];
    CheckByte([49, 50, 51, 52, 53, 54], 55, 0xf68d_2c9e, 0x37, 0xaffc_9660);
    assert [49, 50, 51, 52, 53, 54] + [55] == [49, 50, 51, 52, 53, 54, 55];
    CheckByte([49, 50, 51, 52, 53, 54, 55], 56, 0xaffc_9660, 0x38, 0x651f_2550);
    assert [49, 50, 51, 52, 53, 54, 55] + [56] == [49, 50, 51, 52, 53, 54, 55, 56];
    CheckByte([49, 50, 51, 52, 53, 54, 55, 56], 57, 0x651f_2550, 0x39, 0x340b_c6d9);
    assert [49, 50, 51, 52, 53, 54, 55, 56] + [57] == [49, 50, 51, 52, 53, 54, 55, 56, 57];
  }

  /** The check value of the CRC-32: what it makes of the digits 1 to 9. */
  lemma CheckValue()
    ensures Val(Crc(Zeros(32), [49, 50, 51, 52, 53, 54, 55, 56, 57])) == 0xcbf4_3926
  {
    hide Same, Feed, Mask, Val;
    CheckRegister();
    NotSame(Feed(Not(Zeros(32)), [49, 50, 51, 52, 53, 54, 55, 56, 57]), 0x340b_c6d9);
    SameValue(Crc(Zeros(32), [49, 50, 51, 52, 53, 54, 55, 56, 57]));
  }

  // ---- The residue

  /** The bytes of a word, low byte first. */
  function WordBytes(w: Word): (r: seq<byte>)
    ensures |r| == 4
  {
    ValBound(w[..8]);
    ValBound(w[8..16]);
    ValBound(w[16..24]);
    ValBound(w[24..]);
    Pow2Of8();
    [Val(w[..8]) as byte, Val(w[8..16]) as byte, Val(w[16..24]) as byte, Val(w[24..]) as byte]
  }

  lemma WordOfBytes(w: Word)
    ensures LittleWord(WordBytes(w)) == w
  {
    BitsVal(w[..8]);
    BitsVal(w[8..16]);
    BitsVal(w[16..24]);
    BitsVal(w[24..]);
  }

  lemma ResidueBits(w: Word)
    requires Same(w, 0x2144_df1c)
    ensures !w[0] && !w[1] && w[2] && w[3] && w[4] && !w[5] && !w[6] && !w[7]
    ensures w[8] && w[9] && w[10] && w[11] && w[12] && !w[13] && w[14] && w[15]
    ensures !w[16] && !w[17] && w[18] && !w[19] && !w[20] && !w[21] && w[22] && !w[23]
    ensures w[24] && !w[25] && !w[26] && !w[27] && !w[28] && w[29] && !w[30] && !w[31]
  {
    hide Mask;
    Masks();
  }

  lemma Quarters(w: Word)
    ensures Shifts(w, 32) == Shifts(Shifts(Shifts(Shifts(w, 8), 8), 8), 8)
  {
    hide Shifts;
    ShiftsAdd(w, 8, 24);
    ShiftsAdd(Shifts(w, 8), 8, 16);
    ShiftsAdd(Shifts(Shifts(w, 8), 8), 8, 8);
  }

  lemma ResidueDivisions()
    ensures DivideByte(0xffff_ffff) == 0x2dfd_1072 && DivideByte(0x2dfd_1072) == 0xbe26_ed00
    ensures DivideByte(0xbe26_ed00) == 0x00be_26ed && DivideByte(0x00be_26ed) == 0xdebb_20e3
  {
  }

  /** The residue as a number. */
  lemma ResidueValue()
    ensures Val(Not(Shifts(Not(Zeros(32)), 32))) == 0x2144_df1c
  {
    hide *;
    var w: Word := Not(Zeros(32));
    StartSame();
    NothingFed(w);
    Quarters(w);
    ResidueDivisions();
    ShiftsSame(w, 0xffff_ffff);
    ShiftsSame(Shifts(w, 8), 0x2dfd_1072);
    ShiftsSame(Shifts(Shifts(w, 8), 8), 0xbe26_ed00);
    ShiftsSame(Shifts(Shifts(Shifts(w, 8), 8), 8), 0x00be_26ed);
    NotSame(Shifts(w, 32), 0xdebb_20e3);
    ResidueIs(Not(Shifts(w, 32)));
  }

  lemma NothingFed(w: Word)
    ensures Feed(w, []) == w
  {
  }

  lemma ResidueIs(w: Word)
    requires Same(w, 0x2144_df1c)
    ensures Val(w) == 0x2144_df1c
  {
    hide Val, Same;
    ResidueBits(w);
    ValByte(w[..8]);
    ValByte(w[8..16]);
    ValByte(w[16..24]);
    ValByte(w[24..]);
    ValWord(w);
  }

  /** Every message followed by its CRC, low byte first, leaves the same residue. */
  lemma Residue(message: seq<byte>)
    ensures Val(Crc(Zeros(32), message + WordBytes(Crc(Zeros(32), message)))) == 0x2144_df1c
  {
    hide Shifts, Val;
    var crc := Crc(Zeros(32), message);
    var c := Feed(Not(Zeros(32)), message);
    FeedAppend(Not(Zeros(32)), message, WordBytes(crc));
    FeedWord(c, WordBytes(crc));
    WordOfBytes(crc);
    assert Xor(c, Not(c)) == Not(Zeros(32));
    ResidueValue();
  }
}
