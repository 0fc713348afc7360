/** The CRC-32 of section 8 of RFC 1952: the bit-serial definition and the
    table-driven loops for either byte order. A 32-bit word is the string of its
    bits, least significant first. */
module Crc32 {
  import opened Machine
  import opened BitStrings

  type Word = w: seq<bool> | |w| == 32 witness seq(32, i => false)

  function Zeros(n: nat): (r: seq<bool>)
    ensures |r| == n
  {
    seq(n, i => false)
  }

  function Xor(x: Word, y: Word): Word {
    seq(32, i requires 0 <= i < 32 => x[i] != y[i])
  }

  function Not(x: Word): Word {
    seq(32, i requires 0 <= i < 32 => !x[i])
  }

  function ShiftRight(x: Word, n: nat): Word
    requires n <= 32
  {
    x[n..] + Zeros(n)
  }

  function ShiftLeft(x: Word, n: nat): Word
    requires n <= 32
  {
    Zeros(n) + x[..32 - n]
  }

  /** ZSWAP32: reverse the four bytes. */
  function Swap(x: Word): Word {
    x[24..] + x[16..24] + x[8..16] + x[..8]
  }

  // ---- The definition: polynomial division, one bit at a time

  /** The powers of x in the CRC polynomial, other than 32. */
  const TERMS: seq<nat> := [0, 1, 2, 4, 5, 7, 8, 10, 11, 12, 16, 22, 23, 26]

  /** The polynomial, lowest power in the most significant bit: 0xedb88320. */
  function Poly(): Word {
    seq(32, i requires 0 <= i < 32 => 31 - i in TERMS)
  }

  /** Multiply the register by x modulo the polynomial. */
  function Shift(c: Word): Word {
    if c[0] then Xor(Poly(), ShiftRight(c, 1)) else ShiftRight(c, 1)
  }

  /** Feed message bits into the register, first bit first. */
  function FeedBits(c: Word, bits: seq<bool>): Word
    decreases |bits|
  {
    if bits == [] then c
    else FeedBits(Shift(c[0 := c[0] != bits[0]]), bits[1..])
  }

  function Feed(c: Word, data: seq<byte>): Word {
    if data == [] then c
    else FeedBits(Feed(c, data[..|data| - 1]), Bits(data[|data| - 1] as int, 8))
  }

  /** The CRC of a string, continuing from an earlier value. */
  function Crc(start: Word, data: seq<byte>): Word {
    Not(Feed(Not(start), data))
  }

  // ---- The register is linear

  function Shifts(c: Word, n: nat): Word
    decreases n, c
  {
    if n == 0 then c else Shifts(Shift(c), n - 1)
  }

  lemma ShiftLinear(x: Word, y: Word)
    ensures Shift(Xor(x, y)) == Xor(Shift(x), Shift(y))
  {
  }

  lemma {:induction false} ShiftsLinear(x: Word, y: Word, n: nat)
    ensures Shifts(Xor(x, y), n) == Xor(Shifts(x, n), Shifts(y, n))
    decreases n
  {
    if n > 0 {
      ShiftLinear(x, y);
      ShiftsLinear(Shift(x), Shift(y), n - 1);
    }
  }

  lemma {:induction false} ShiftsAdd(c: Word, m: nat, n: nat)
    ensures Shifts(Shifts(c, m), n) == Shifts(c, m + n)
    decreases m
  {
    if m > 0 {
      ShiftsAdd(Shift(c), m - 1, n);
    }
  }

  /** Shifting out zeros is a plain shift. */
  lemma {:induction false} ShiftsOfZeros(c: Word, n: nat)
    requires n <= 32 && c[..n] == Zeros(n)
    ensures Shifts(c, n) == ShiftRight(c, n)
    decreases n
  {
    if n > 0 {
      var s := Shift(c);
      assert c[0] == c[..n][0];
      assert s[..n - 1] == Zeros(n - 1) by {
        assert forall i :: 0 <= i < n - 1 ==> s[i] == c[..n][i + 1];
      }
      ShiftsOfZeros(s, n - 1);
      assert ShiftRight(s, n - 1) == ShiftRight(c, n);
    } else {
      assert ShiftRight(c, 0) == c;
    }
  }

  lemma FeedOneBit(c: Word, bits: seq<bool>)
    requires 0 < |bits| <= 32
    ensures Shift(Xor(c, bits + Zeros(32 - |bits|)))
         == Xor(Shift(c[0 := c[0] != bits[0]]), bits[1..] + Zeros(33 - |bits|))
  {
    var pad, rest, c' := bits + Zeros(32 - |bits|), bits[1..] + Zeros(33 - |bits|), c[0 := c[0] != bits[0]];
    assert ShiftRight(Xor(c, pad), 1) == Xor(ShiftRight(c', 1), rest);
    assert Xor(c, pad)[0] == c'[0];
    XorAssociative(Poly(), ShiftRight(c', 1), rest);
  }

  lemma XorAssociative(x: Word, y: Word, z: Word)
    ensures Xor(x, Xor(y, z)) == Xor(Xor(x, y), z)
  {
  }

  /** Feeding up to 32 bits is adding them all at once and shifting that many times. */
  lemma {:induction false} FeedIsShift(c: Word, bits: seq<bool>)
    requires |bits| <= 32
    ensures FeedBits(c, bits) == Shifts(Xor(c, bits + Zeros(32 - |bits|)), |bits|)
    decreases |bits|
  {
    if bits == [] {
      assert Xor(c, bits + Zeros(32)) == c;
    } else {
      FeedOneBit(c, bits);
      FeedIsShift(Shift(c[0 := c[0] != bits[0]]), bits[1..]);
    }
  }

  lemma {:induction false} FeedBitsAppend(c: Word, a: seq<bool>, b: seq<bool>)
    ensures FeedBits(c, a + b) == FeedBits(FeedBits(c, a), b)
    decreases |a|
  {
    if a == [] {
      assert a + b == b;
    } else {
      assert (a + b)[1..] == a[1..] + b;
      FeedBitsAppend(Shift(c[0 := c[0] != a[0]]), a[1..], b);
    }
  }

  lemma {:induction false} FeedAppend(c: Word, d: seq<byte>, e: seq<byte>)
    ensures Feed(c, d + e) == Feed(Feed(c, d), e)
  {
    if e == [] {
      assert d + e == d;
    } else {
      assert (d + e)[..|d + e| - 1] == d + e[..|e| - 1];
      FeedAppend(c, d, e[..|e| - 1]);
    }
  }

  // ---- The tables

  /** The value of the eight bits of c from bit k on, as a table index. */
  function Index(c: Word, k: nat): (r: nat)
    requires k <= 24
    ensures r < 256
  {
    ValBound(c[k..k + 8]);
    assert Pow2(8) == 256;
    Val(c[k..k + 8])
  }

  /** What make_crc_table puts in row k: a byte followed by k zero bytes, and in
      rows 4 to 7 the same byte-swapped. */
  function Entry(k: nat, n: nat): Word
    requires k < 8 && n < 256
  {
    if k < 4 then Shifts(Bits(n, 32), 8 * k + 8) else Swap(Shifts(Bits(n, 32), 8 * k - 24))
  }

  ghost predicate Tables(t: array2<Word>)
    reads t
  {
    t.Length0 == 8 && t.Length1 == 256 &&
    forall k, n :: 0 <= k < 8 && 0 <= n < 256 ==> t[k, n] == Entry(k, n)
  }

  /** Bits k..k+8 of c, moved to the bottom of a word of their own. */
  lemma PartBits(c: Word, k: nat)
    requires k <= 24
    ensures Bits(Index(c, k), 32) == c[k..k + 8] + Zeros(24)
  {
    var part := c[k..k + 8];
    BitsVal(part);
    LowBound(Val(part), 8);
    ValBound(part);
    BitsSplit(Val(part), 8, 24);
    ZeroBits(24);
  }

  lemma {:induction false} ZeroBits(n: nat)
    ensures Bits(0, n) == Zeros(n)
  {
    if n > 0 {
      ZeroBits(n - 1);
    }
  }

  /** One table step is eight shifts. */
  lemma EightShifts(c: Word)
    ensures Shifts(c, 8) == Xor(Entry(0, Index(c, 0)), ShiftRight(c, 8))
  {
    var low, rest := c[..8] + Zeros(24), Zeros(8) + c[8..];
    PartBits(c, 0);
    assert c == Xor(low, rest);
    ShiftsLinear(low, rest, 8);
    assert rest[..8] == Zeros(8);
    ShiftsOfZeros(rest, 8);
    assert ShiftRight(rest, 8) == ShiftRight(c, 8);
  }

  /** Byte k/8 of c, in place. */
  function Part(c: Word, k: nat): Word
    requires k <= 24
  {
    Zeros(k) + c[k..k + 8] + Zeros(24 - k)
  }

  lemma PartShifts(c: Word, k: nat, n: nat)
    requires k <= 24 && k <= n
    ensures Shifts(Part(c, k), n) == Shifts(Bits(Index(c, k), 32), n - k)
  {
    hide Shifts, Shift, Index, Bits, FeedBits;
    var x := Part(c, k);
    assert x[..k] == Zeros(k);
    ShiftsAdd(x, k, n - k);
    ShiftsOfZeros(x, k);
    PartBits(c, k);
    assert x[k..] == c[k..k + 8] + Zeros(24 - k);
    assert ShiftRight(x, k) == c[k..k + 8] + Zeros(24);
  }

  lemma FourLinear(p0: Word, p1: Word, p2: Word, p3: Word, n: nat)
    ensures Shifts(Xor(Xor(Xor(p0, p1), p2), p3), n)
         == Xor(Xor(Xor(Shifts(p0, n), Shifts(p1, n)), Shifts(p2, n)), Shifts(p3, n))
  {
    ShiftsLinear(Xor(Xor(p0, p1), p2), p3, n);
    ShiftsLinear(Xor(p0, p1), p2, n);
    ShiftsLinear(p0, p1, n);
  }

  /** The four look-ups of DOLIT4 are 32 shifts. */
  function FourLookups(c: Word): Word {
    Xor(Xor(Xor(Entry(3, Index(c, 0)), Entry(2, Index(c, 8))), Entry(1, Index(c, 16))), Entry(0, Index(c, 24)))
  }

  lemma Parts(c: Word)
    ensures c == Xor(Xor(Xor(Part(c, 0), Part(c, 8)), Part(c, 16)), Part(c, 24))
  {
  }

  lemma FourShifts(c: Word, n: nat)
    requires n >= 24
    ensures Shifts(c, n) == Xor(Xor(Xor(Shifts(Bits(Index(c, 0), 32), n), Shifts(Bits(Index(c, 8), 32), n - 8)),
                                    Shifts(Bits(Index(c, 16), 32), n - 16)), Shifts(Bits(Index(c, 24), 32), n - 24))
  {
    var p0, p1, p2, p3 := Part(c, 0), Part(c, 8), Part(c, 16), Part(c, 24);
    Parts(c);
    FourLinear(p0, p1, p2, p3, n);
    assert Shifts(p0, n) == Shifts(Bits(Index(c, 0), 32), n) by { PartShifts(c, 0, n); }
    assert Shifts(p1, n) == Shifts(Bits(Index(c, 8), 32), n - 8) by { PartShifts(c, 8, n); }
    assert Shifts(p2, n) == Shifts(Bits(Index(c, 16), 32), n - 16) by { PartShifts(c, 16, n); }
    assert Shifts(p3, n) == Shifts(Bits(Index(c, 24), 32), n - 24) by { PartShifts(c, 24, n); }
  }

  lemma ThirtyTwoShifts(c: Word)
    ensures Shifts(c, 32) == FourLookups(c)
  {
    FourShifts(c, 32);
  }

  // ---- Reading a byte or a word

  function ByteWord(b: byte): Word {
    Bits(b as int, 8) + Zeros(24)
  }

  /** Four bytes read as one word by a little-endian machine. */
  function LittleWord(d: seq<byte>): Word
    requires |d| == 4
  {
    Bits(d[0] as int, 8) + Bits(d[1] as int, 8) + Bits(d[2] as int, 8) + Bits(d[3] as int, 8)
  }

  lemma FeedByte(c: Word, d: seq<byte>, b: byte)
    ensures Feed(c, d + [b]) == Shifts(Xor(Feed(c, d), ByteWord(b)), 8)
  {
    assert (d + [b])[..|d|] == d;
    FeedIsShift(Feed(c, d), Bits(b as int, 8));
  }

  lemma FeedWord(c: Word, d: seq<byte>)
    requires |d| == 4
    ensures Feed(c, d) == Shifts(Xor(c, LittleWord(d)), 32)
  {
    var b0, b1, b2, b3 := Bits(d[0] as int, 8), Bits(d[1] as int, 8), Bits(d[2] as int, 8), Bits(d[3] as int, 8);
    assert d[..3][..2][..1][..0] == [];
    assert d[..3][..2][..1] == [d[0]] && d[..3][..2] == [d[0], d[1]] && d[..3] == [d[0], d[1], d[2]];
    assert Feed(c, d[..3][..2][..1]) == FeedBits(c, b0);
    assert Feed(c, d[..3][..2]) == FeedBits(FeedBits(c, b0), b1);
    assert Feed(c, d[..3]) == FeedBits(FeedBits(FeedBits(c, b0), b1), b2);
    FeedBitsAppend(c, b0, b1);
    FeedBitsAppend(c, b0 + b1, b2);
    FeedBitsAppend(c, b0 + b1 + b2, b3);
    FeedIsShift(c, LittleWord(d));
    assert LittleWord(d) + Zeros(0) == LittleWord(d);
  }

  // ---- make_crc_table

  method MakePolynomial() returns (poly: Word)
    ensures poly == Poly()
  {
    poly := Zeros(32);
    for n := 0 to |TERMS|
      invariant forall i :: 0 <= i < 32 ==> (poly[i] <==> 31 - i in TERMS[..n])
    {
      assert TERMS[..n + 1] == TERMS[..n] + [TERMS[n]];
      poly := poly[31 - TERMS[n] := true];
    }
    assert TERMS[..|TERMS|] == TERMS;
  }

  /** The CRC of one eight-bit value, as the inner loop computes it. */
  method MakeEntry(n: nat, poly: Word) returns (c: Word)
    requires n < 256 && poly == Poly()
    ensures c == Entry(0, n)
  {
    c := Bits(n, 32);
    var k := 0;
    while k < 8
      invariant 0 <= k <= 8
      invariant Shifts(c, 8 - k) == Shifts(Bits(n, 32), 8)
    {
      c := if c[0] then Xor(poly, ShiftRight(c, 1)) else ShiftRight(c, 1);
      k := k + 1;
    }
  }

  lemma NextEntry(k: nat, n: nat)
    requires k < 3 && n < 256
    ensures var c := Entry(k, n); Entry(k + 1, n) == Xor(Entry(0, Index(c, 0)), ShiftRight(c, 8))
  {
    ShiftsAdd(Bits(n, 32), 8 * k + 8, 8);
    EightShifts(Entry(k, n));
  }

  /** Column n of rows 1 to 7, from row 0. */
  method MakeColumn(t: array2<Word>, n: nat)
    requires t.Length0 == 8 && t.Length1 == 256 && n < 256
    requires forall m :: 0 <= m < 256 ==> t[0, m] == Entry(0, m)
    modifies t
    ensures forall k, m :: 0 <= k < 8 && 0 <= m < 256 && m != n ==> t[k, m] == old(t[k, m])
    ensures forall k :: 0 <= k < 8 ==> t[k, n] == Entry(k, n)
  {
    hide Swap, Entry, Shifts;
    SwappedEntry(0, n);
    var c := t[0, n];
    t[4, n] := Swap(c);
    var k := 1;
    while k < 4
      invariant 1 <= k <= 4 && c == Entry(k - 1, n)
      invariant forall j, m :: 0 <= j < 8 && 0 <= m < 256 && m != n ==> t[j, m] == old(t[j, m])
      invariant forall j :: 0 <= j < k ==> t[j, n] == Entry(j, n)
      invariant forall j :: 4 <= j < k + 4 ==> t[j, n] == Entry(j, n)
    {
      c := NextByte(t, c, k - 1, n);
      t[k, n] := c;
      t[k + 4, n] := Swap(c);
      SwappedEntry(k, n);
      k := k + 1;
    }
  }

  /** The register after one more zero byte. */
  method NextByte(t: array2<Word>, c: Word, ghost k: nat, ghost n: nat) returns (c': Word)
    requires t.Length0 == 8 && t.Length1 == 256 && n < 256 && k < 3
    requires forall m :: 0 <= m < 256 ==> t[0, m] == Entry(0, m)
    requires c == Entry(k, n)
    ensures c' == Entry(k + 1, n)
  {
    NextEntry(k, n);
    c' := Xor(t[0, Index(c, 0)], ShiftRight(c, 8));
  }

  lemma SwappedEntry(k: nat, n: nat)
    requires k < 4 && n < 256
    ensures Entry(k + 4, n) == Swap(Entry(k, n))
  {
  }

  method MakeCrcTable() returns (t: array2<Word>)
    ensures fresh(t) && Tables(t)
  {
    var poly := MakePolynomial();
    t := new Word[8, 256]((i, j) => Zeros(32));
    for n := 0 to 256
      invariant forall m :: 0 <= m < n ==> t[0, m] == Entry(0, m)
    {
      t[0, n] := MakeEntry(n, poly);
    }
    for n := 0 to 256
      invariant forall m :: 0 <= m < 256 ==> t[0, m] == Entry(0, m)
      invariant forall k, m :: 0 <= k < 8 && 0 <= m < n ==> t[k, m] == Entry(k, m)
    {
      MakeColumn(t, n);
    }
  }

  // ---- crc32_little

  method LittleByte(t: array2<Word>, c: Word, b: byte, ghost start: Word, ghost done: seq<byte>) returns (c': Word)
    requires Tables(t) && c == Feed(start, done)
    ensures c' == Feed(start, done + [b])
  {
    FeedByte(start, done, b);
    EightShifts(Xor(c, ByteWord(b)));
    assert ShiftRight(Xor(c, ByteWord(b)), 8) == ShiftRight(c, 8);
    c' := Xor(t[0, Index(Xor(c, ByteWord(b)), 0)], ShiftRight(c, 8));
  }

  method LittleWords(t: array2<Word>, c: Word, d: seq<byte>, ghost start: Word, ghost done: seq<byte>) returns (c': Word)
    requires Tables(t) && c == Feed(start, done) && |d| == 4
    ensures c' == Feed(start, done + d)
  {
    var x := Xor(c, LittleWord(d));
    FeedAppend(start, done, d);
    FeedWord(c, d);
    ThirtyTwoShifts(x);
    c' := Xor(Xor(Xor(t[3, Index(x, 0)], t[2, Index(x, 8)]), t[1, Index(x, 16)]), t[0, Index(x, 24)]);
  }

  /** Bytes from p on: all of them, or only up to a word boundary. */
  method LittleBytes(t: array2<Word>, c: Word, buf: seq<byte>, p: nat, address: nat, toBoundary: bool, ghost start: Word)
    returns (c': Word, p': nat)
    requires Tables(t) && p <= |buf| && c == Feed(start, buf[..p])
    ensures p <= p' <= |buf| && c' == Feed(start, buf[..p'])
    ensures p' == |buf| || (toBoundary && (address + p') % 4 == 0)
  {
    c', p' := c, p;
    while p' < |buf| && (toBoundary ==> (address + p') % 4 != 0)
      invariant p <= p' <= |buf| && c' == Feed(start, buf[..p'])
    {
      assert buf[..p' + 1] == buf[..p'] + [buf[p']];
      c' := LittleByte(t, c', buf[p'], start, buf[..p']);
      p' := p' + 1;
    }
  }

  /** Eight words in a row: DOLIT32. */
  method LittleBlock(t: array2<Word>, c: Word, buf: seq<byte>, p: nat, ghost start: Word) returns (c': Word)
    requires Tables(t) && p + 32 <= |buf| && c == Feed(start, buf[..p])
    ensures c' == Feed(start, buf[..p + 32])
  {
    c' := c;
    for k := 0 to 8
      invariant c' == Feed(start, buf[..p + 4 * k])
    {
      var q := p + 4 * k;
      assert buf[..q] + buf[q..q + 4] == buf[..q + 4];
      c' := LittleWords(t, c', buf[q..q + 4], start, buf[..q]);
    }
  }

  /** Words while at least one is left. */
  method LittleRest(t: array2<Word>, c: Word, buf: seq<byte>, p: nat, ghost start: Word) returns (c': Word, p': nat)
    requires Tables(t) && p <= |buf| && c == Feed(start, buf[..p])
    ensures p <= p' <= |buf| < p' + 4 && c' == Feed(start, buf[..p'])
  {
    c', p' := c, p;
    while |buf| - p' >= 4
      invariant p <= p' <= |buf| && c' == Feed(start, buf[..p'])
    {
      assert buf[..p'] + buf[p'..p' + 4] == buf[..p' + 4];
      c' := LittleWords(t, c', buf[p'..p' + 4], start, buf[..p']);
      p' := p' + 4;
    }
  }

  /** crc32_little: bytes up to a word boundary, 32 bytes at a time, words, then the
      remaining bytes. The buffer starts at `address` in memory. */
  method Crc32Little(t: array2<Word>, crc: Word, buf: seq<byte>, address: nat) returns (r: Word)
    requires Tables(t)
    ensures r == Crc(crc, buf)
  {
    ghost var start := Not(crc);
    var c := Not(crc);
    var p;
    c, p := LittleBytes(t, c, buf, 0, address, true, start);
    while |buf| - p >= 32
      invariant 0 <= p <= |buf| && c == Feed(start, buf[..p])
    {
      c := LittleBlock(t, c, buf, p, start);
      p := p + 32;
    }
    c, p := LittleRest(t, c, buf, p, start);
    c, p := LittleBytes(t, c, buf, p, address, false, start);
    assert buf[..p] == buf;
    r := Not(c);
  }

  // ---- crc32_big: the register is kept byte-swapped

  lemma SwapTwice(x: Word)
    ensures Swap(Swap(x)) == x
  {
    var y := Swap(x);
    assert y[24..] == x[..8] && y[16..24] == x[8..16] && y[8..16] == x[16..24] && y[..8] == x[24..];
  }

  lemma SwapXor(x: Word, y: Word)
    ensures Swap(Xor(x, y)) == Xor(Swap(x), Swap(y))
    ensures Swap(Not(x)) == Not(Swap(x))
    ensures Swap(ShiftRight(x, 8)) == ShiftLeft(Swap(x), 8)
  {
  }

  /** Four bytes read as one word by a big-endian machine. */
  function BigWord(d: seq<byte>): Word
    requires |d| == 4
  {
    Bits(d[3] as int, 8) + Bits(d[2] as int, 8) + Bits(d[1] as int, 8) + Bits(d[0] as int, 8)
  }

  lemma SwapIndex(x: Word)
    ensures Index(Swap(x), 24) == Index(x, 0) && Index(Swap(x), 16) == Index(x, 8)
    ensures Index(Swap(x), 8) == Index(x, 16) && Index(Swap(x), 0) == Index(x, 24)
  {
    assert Swap(x)[24..32] == x[0..8] && Swap(x)[16..24] == x[8..16];
    assert Swap(x)[8..16] == x[16..24] && Swap(x)[0..8] == x[24..32];
  }

  /** The byte that a byte-swapped register is indexed by is its lowest. */
  lemma TopByteFirst(c: Word, w: Word)
    requires forall i :: 8 <= i < 32 ==> !w[i]
    ensures Xor(ShiftRight(c, 24), w)[0..8] == Xor(Swap(c), w)[0..8]
    ensures ShiftRight(Xor(Swap(c), w), 8) == ShiftRight(Swap(c), 8)
  {
    var y := Swap(c);
    forall i | 0 <= i < 8
      ensures ShiftRight(c, 24)[i] == y[i]
    {
    }
    assert Xor(y, w)[8..] == y[8..];
  }

  method BigByte(t: array2<Word>, c: Word, b: byte, ghost start: Word, ghost done: seq<byte>) returns (c': Word)
    requires Tables(t) && Swap(c) == Feed(start, done)
    ensures Swap(c') == Feed(start, done + [b])
  {
    ghost var x := Xor(Swap(c), ByteWord(b));
    FeedByte(start, done, b);
    EightShifts(x);
    SwapTwice(c);
    TopByteFirst(c, ByteWord(b));
    c' := Xor(t[4, Index(Xor(ShiftRight(c, 24), ByteWord(b)), 0)], ShiftLeft(c, 8));
    SwapXor(Entry(0, Index(x, 0)), ShiftRight(x, 8));
    SwapXor(Swap(c), x);
    SwapTwice(Shifts(x, 8));
  }

  /** The four look-ups of DOBIG4 are 32 shifts of the byte-swapped register. */
  lemma SwappedLookups(x: Word)
    ensures Swap(Xor(Xor(Xor(Entry(4, Index(x, 0)), Entry(5, Index(x, 8))), Entry(6, Index(x, 16))), Entry(7, Index(x, 24))))
         == Shifts(Swap(x), 32)
  {
    var y := Swap(x);
    SwapTwice(x);
    SwapIndex(y);
    ThirtyTwoShifts(y);
    var e0, e1, e2, e3 := Entry(0, Index(y, 24)), Entry(1, Index(y, 16)), Entry(2, Index(y, 8)), Entry(3, Index(y, 0));
    SwappedEntry(0, Index(y, 24));
    SwappedEntry(1, Index(y, 16));
    SwappedEntry(2, Index(y, 8));
    SwappedEntry(3, Index(y, 0));
    SwapFour(e0, e1, e2, e3);
  }

  lemma SwapBigWord(c: Word, d: seq<byte>)
    requires |d| == 4
    ensures Swap(Xor(c, BigWord(d))) == Xor(Swap(c), LittleWord(d))
  {
    hide Bits, Xor;
    assert Swap(BigWord(d)) == LittleWord(d);
    SwapXor(c, BigWord(d));
  }

  method BigWords(t: array2<Word>, c: Word, d: seq<byte>, ghost start: Word, ghost done: seq<byte>) returns (c': Word)
    requires Tables(t) && Swap(c) == Feed(start, done) && |d| == 4
    ensures Swap(c') == Feed(start, done + d)
  {
    var x := Xor(c, BigWord(d));
    SwapBigWord(c, d);
    FeedAppend(start, done, d);
    FeedWord(Swap(c), d);
    SwappedLookups(x);
    c' := Xor(Xor(Xor(t[4, Index(x, 0)], t[5, Index(x, 8)]), t[6, Index(x, 16)]), t[7, Index(x, 24)]);
  }

  lemma SwapFour(a: Word, b: Word, c: Word, d: Word)
    ensures Swap(Xor(Xor(Xor(Swap(a), Swap(b)), Swap(c)), Swap(d))) == Xor(Xor(Xor(d, c), b), a)
  {
    SwapXor(Xor(Xor(Swap(a), Swap(b)), Swap(c)), Swap(d));
    SwapXor(Xor(Swap(a), Swap(b)), Swap(c));
    SwapXor(Swap(a), Swap(b));
    SwapTwice(a);
    SwapTwice(b);
    SwapTwice(c);
    SwapTwice(d);
  }

  /** Bytes from p on: all of them, or only up to a word boundary. */
  method BigBytes(t: array2<Word>, c: Word, buf: seq<byte>, p: nat, address: nat, toBoundary: bool, ghost start: Word)
    returns (c': Word, p': nat)
    requires Tables(t) && p <= |buf| && Swap(c) == Feed(start, buf[..p])
    ensures p <= p' <= |buf| && Swap(c') == Feed(start, buf[..p'])
    ensures p' == |buf| || (toBoundary && (address + p') % 4 == 0)
  {
    c', p' := c, p;
    while p' < |buf| && (toBoundary ==> (address + p') % 4 != 0)
      invariant p <= p' <= |buf| && Swap(c') == Feed(start, buf[..p'])
    {
      assert buf[..p' + 1] == buf[..p'] + [buf[p']];
      c' := BigByte(t, c', buf[p'], start, buf[..p']);
      p' := p' + 1;
    }
  }

  /** Eight words in a row: DOBIG32. */
  method BigBlock(t: array2<Word>, c: Word, buf: seq<byte>, p: nat, ghost start: Word) returns (c': Word)
    requires Tables(t) && p + 32 <= |buf| && Swap(c) == Feed(start, buf[..p])
    ensures Swap(c') == Feed(start, buf[..p + 32])
  {
    c' := c;
    for k := 0 to 8
      invariant Swap(c') == Feed(start, buf[..p + 4 * k])
    {
      var q := p + 4 * k;
      assert buf[..q] + buf[q..q + 4] == buf[..q + 4];
      c' := BigWords(t, c', buf[q..q + 4], start, buf[..q]);
    }
  }

  /** Words while at least one is left. */
  method BigRest(t: array2<Word>, c: Word, buf: seq<byte>, p: nat, ghost start: Word) returns (c': Word, p': nat)
    requires Tables(t) && p <= |buf| && Swap(c) == Feed(start, buf[..p])
    ensures p <= p' <= |buf| < p' + 4 && Swap(c') == Feed(start, buf[..p'])
  {
    c', p' := c, p;
    while |buf| - p' >= 4
      invariant p <= p' <= |buf| && Swap(c') == Feed(start, buf[..p'])
    {
      assert buf[..p'] + buf[p'..p' + 4] == buf[..p' + 4];
      c' := BigWords(t, c', buf[p'..p' + 4], start, buf[..p']);
      p' := p' + 4;
    }
  }

  /** crc32_big: bytes up to a word boundary, 32 bytes at a time, words, then the
      remaining bytes. The buffer starts at `address` in memory. */
  method Crc32Big(t: array2<Word>, crc: Word, buf: seq<byte>, address: nat) returns (r: Word)
    requires Tables(t)
    ensures r == Crc(crc, buf)
  {
    ghost var start := Not(crc);
    var c := Not(Swap(crc));
    SwapXor(crc, crc);
    SwapTwice(start);
    var p;
    c, p := BigBytes(t, c, buf, 0, address, true, start);
    while |buf| - p >= 32
      invariant 0 <= p <= |buf| && Swap(c) == Feed(start, buf[..p])
    {
      c := BigBlock(t, c, buf, p, start);
      p := p + 32;
    }
    c, p := BigRest(t, c, buf, p, start);
    c, p := BigBytes(t, c, buf, p, address, false, start);
    assert buf[..p] == buf;
    SwapXor(c, c);
    r := Swap(Not(c));
  }

  /** crc32_z: a null buffer gives zero; otherwise the machine's byte order picks the loop. */
  method Crc32Z(t: array2<Word>, crc: Word, buffer: Option<seq<byte>>, address: nat, littleEndian: bool) returns (r: Word)
    requires Tables(t)
    ensures r == match buffer case None => Zeros(32) case Some(d) => Crc(crc, d)
  {
    match buffer
    case None => r := Zeros(32);
    case Some(d) =>
      if littleEndian {
        r := Crc32Little(t, crc, d, address);
      } else {
        r := Crc32Big(t, crc, d, address);
      }
  }
}
