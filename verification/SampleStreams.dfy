/** Streams given byte by byte, and the data they mean: a dynamic block, one with every kind of repeat code, a
    block with the fixed codes, and one with matches whose lengths and distances have extra bits. */
module SampleStreams {
  import opened Machine
  import opened BitStrings
  import opened BitWriter
  import opened Canonical
  import opened CodeWords
  import opened SymbolOrder
  import opened DecodeTable
  import opened InfTrees
  import opened DeflateSpec
  import opened DeflateRuns
  import opened RunLengths
  import opened StaticTables
  import opened BlockFormat
  import opened BlockHeaders
  import opened DeflateState
  import opened FormatTables

  // ---- Bits and numbers

  /** The bits of a byte of the stream, the lowest first. */
  lemma ByteIn(d: seq<byte>, k: nat)
    requires k < |d|
    ensures |ByteBits(d)| == 8 * |d|
    ensures var B, v := ByteBits(d), d[k] as nat;
      && B[8 * k] == (v % 2 == 1) && B[8 * k + 1] == (v / 2 % 2 == 1) && B[8 * k + 2] == (v / 4 % 2 == 1)
      && B[8 * k + 3] == (v / 8 % 2 == 1) && B[8 * k + 4] == (v / 16 % 2 == 1) && B[8 * k + 5] == (v / 32 % 2 == 1)
      && B[8 * k + 6] == (v / 64 % 2 == 1) && B[8 * k + 7] == (v / 128 % 2 == 1)
  {
    hide ByteBits, Bits;
    var front, b, rest := d[..k], d[k], d[k + 1..];
    assert d == front + [b] + rest;
    ByteBitsAppend(front + [b], rest);
    ByteBitsSnoc(front, b);
    BitsOfByte(b as nat);
  }

  function Weight(b: bool, weight: nat): nat {
    if b then weight else 0
  }

  lemma NumberUp(B: seq<bool>, pos: nat, n: nat)
    requires n > 0 && pos + n <= |B|
    ensures Number(B, pos, n) == Weight(B[pos], 1) + 2 * Number(B, pos + 1, n - 1)
  {
    assert B[pos..pos + n][1..] == B[pos + 1..pos + n];
  }

  lemma NumberNone(B: seq<bool>, pos: nat)
    requires pos <= |B|
    ensures Number(B, pos, 0) == 0
  {
  }

  lemma Number2(B: seq<bool>, pos: nat)
    requires pos + 2 <= |B|
    ensures Number(B, pos, 2) == Weight(B[pos], 1) + Weight(B[pos + 1], 2)
  {
    hide Number;
    NumberUp(B, pos, 2);
    NumberUp(B, pos + 1, 1);
    NumberNone(B, pos + 2);
  }

  lemma Number3(B: seq<bool>, pos: nat)
    requires pos + 3 <= |B|
    ensures Number(B, pos, 3) == Weight(B[pos], 1) + Weight(B[pos + 1], 2) + Weight(B[pos + 2], 4)
  {
    hide Number;
    NumberUp(B, pos, 3);
    Number2(B, pos + 1);
  }

  lemma Number4(B: seq<bool>, pos: nat)
    requires pos + 4 <= |B|
    ensures Number(B, pos, 4) == Weight(B[pos], 1) + Weight(B[pos + 1], 2) + Weight(B[pos + 2], 4) + Weight(B[pos + 3], 8)
  {
    hide Number;
    NumberUp(B, pos, 4);
    Number3(B, pos + 1);
  }

  lemma Number5(B: seq<bool>, pos: nat)
    requires pos + 5 <= |B|
    ensures Number(B, pos, 5) == Weight(B[pos], 1) + Weight(B[pos + 1], 2) + Weight(B[pos + 2], 4) + Weight(B[pos + 3], 8) +
      Weight(B[pos + 4], 16)
  {
    hide Number;
    NumberUp(B, pos, 5);
    Number4(B, pos + 1);
  }

  lemma Number7(B: seq<bool>, pos: nat)
    requires pos + 7 <= |B|
    ensures Number(B, pos, 7) == Weight(B[pos], 1) + Weight(B[pos + 1], 2) + Weight(B[pos + 2], 4) + Weight(B[pos + 3], 8) +
      Weight(B[pos + 4], 16) + Weight(B[pos + 5], 32) + Weight(B[pos + 6], 64)
  {
    hide Number;
    NumberUp(B, pos, 7);
    NumberUp(B, pos + 1, 6);
    Number5(B, pos + 2);
  }

  // ---- Code words

  /** The most significant bit first. */
  lemma WordUp(v: nat, n: nat)
    ensures Reverse(Bits(v, 0)) == [] && Reverse(Bits(v, n + 1)) == Reverse(Bits(v / 2, n)) + [v % 2 == 1]
  {
    assert Bits(v, n + 1) == [v % 2 == 1] + Bits(v / 2, n);
    assert Bits(v, n + 1)[1..] == Bits(v / 2, n);
  }

  lemma Word3(v: nat)
    ensures Reverse(Bits(v, 1)) == [v % 2 == 1] && Reverse(Bits(v, 2)) == [v / 2 % 2 == 1, v % 2 == 1]
    ensures Reverse(Bits(v, 3)) == [v / 4 % 2 == 1, v / 2 % 2 == 1, v % 2 == 1]
  {
    hide Reverse, Bits;
    WordUp(v, 0);
    WordUp(v, 1);
    WordUp(v, 2);
    WordUp(v / 2, 0);
    WordUp(v / 2, 1);
    WordUp(v / 2 / 2, 0);
    assert v / 2 / 2 == v / 4;
  }

  lemma Word7(v: nat)
    ensures Reverse(Bits(v, 5)) == Reverse(Bits(v / 8, 2)) + [v / 4 % 2 == 1, v / 2 % 2 == 1, v % 2 == 1]
    ensures Reverse(Bits(v, 7)) == Reverse(Bits(v / 8, 4)) + [v / 4 % 2 == 1, v / 2 % 2 == 1, v % 2 == 1]
    ensures Reverse(Bits(v, 8)) == Reverse(Bits(v / 8, 5)) + [v / 4 % 2 == 1, v / 2 % 2 == 1, v % 2 == 1]
    ensures Reverse(Bits(v, 4)) == Reverse(Bits(v / 8, 1)) + [v / 4 % 2 == 1, v / 2 % 2 == 1, v % 2 == 1]
  {
    hide Reverse, Bits;
    assert v / 2 / 2 == v / 4 && v / 4 / 2 == v / 8;
    forall n: nat | n == 1 || n == 2 || n == 4 || n == 5
      ensures Reverse(Bits(v, n + 3)) == Reverse(Bits(v / 8, n)) + [v / 4 % 2 == 1, v / 2 % 2 == 1, v % 2 == 1]
    {
      WordUp(v, n + 2);
      WordUp(v / 2, n + 1);
      WordUp(v / 4, n);
    }
  }

  // ---- Codes with few words

  lemma TakenUp(lens: seq<nat>, n: nat, l: nat, s: nat)
    requires n < |lens|
    ensures Taken(lens, n + 1, l, s) == Taken(lens, n, l, s) + if Precedes(lens, n, l, s) then Pow2(l - lens[n]) else 0
  {
  }

  lemma {:induction false} TakenSkip(lens: seq<nat>, m: nat, n: nat, l: nat, s: nat)
    requires m <= n <= |lens| && forall i :: m <= i < n ==> lens[i] == 0
    ensures Taken(lens, n, l, s) == Taken(lens, m, l, s)
    decreases n
  {
    if m < n {
      TakenSkip(lens, m, n - 1, l, s);
    }
  }

  lemma NoneTaken(lens: seq<nat>, l: nat, s: nat)
    ensures Taken(lens, 0, l, s) == 0
  {
  }

  /** Codes of at most `bits` bits need one table of at most 2^bits entries. */
  lemma ShortCodesFit(lens: seq<nat>, bits: nat)
    requires ValidLens(lens) && 1 <= bits <= MAXBITS && forall m :: 0 <= m < |lens| ==> lens[m] <= bits
    ensures Entries(lens, bits) <= Pow2(bits)
  {
    hide Pow2, Size;
    Pow2Monotone(1, bits);
    PowersUpTo5();
    if Used(lens) > 0 {
      var ord := Order(lens);
      MaxLenBound(lens);
      forall m | 0 <= m < |lens| ensures lens[m] <= MaxLen(lens) {
        if lens[m] > 0 {
          SortedComplete(lens, ord, m);
          LastIsLongest(lens, ord, Rank(lens, |lens|, lens[m], m));
        }
      }
      NoSubTables(lens, ord, MaxLen(lens), |ord| - 1);
      Pow2Monotone(MaxLen(lens), bits);
    }
  }

  /** No distance code at all. */
  lemma NoDistances(ll: seq<nat>)
    requires Canonical.Complete(ll) && |ll| > 256 && ll[256] != 0 && forall m :: 0 <= m < |ll| ==> ll[m] <= 9
    ensures ValidLens([0]) && AcceptedCodes(ll, [0])
  {
    hide Canonical.Complete, Entries;
    ShortCodesFit(ll, 9);
    PowersUpTo13();
    OneUnused();
    CompleteIsAccepted(ll);
  }

  lemma OneUnused()
    ensures ValidLens([0]) && !Rejected(DISTS, [0]) && Entries([0], 6) == 2
  {
    assert Rank([0], 0, 15, 1) == 0;
    assert Rank([0], 1, 15, 1) == Rank([0], 0, 15, 1);
    MaxBits();
  }

  lemma CompleteIsAccepted(lens: seq<nat>)
    requires Canonical.Complete(lens)
    ensures ValidLens(lens) && Fits(lens) && !Rejected(LENS, lens) && !Rejected(CODES, lens)
  {
    hide Taken, Used;
  }

  // ---- Steps

  lemma HeaderStep(B: seq<bool>, kind: nat, last: bool)
    requires 3 <= |B| && B[0] == last && Number(B, 1, 2) == kind
    ensures kind == 1 ==> Reaches(B, START(), Config(Length(last, FixedLitLens(), FixedDistLens(32)), [], 3))
    ensures kind == 2 ==> Reaches(B, START(), Config(TableSizes(last), [], 3))
  {
    hide Number, Reaches, FixedLitLens, FixedDistLens;
    if kind == 1 {
      ReachesStep(B, START(), Config(Length(last, FixedLitLens(), FixedDistLens(32)), [], 3));
    } else if kind == 2 {
      ReachesStep(B, START(), Config(TableSizes(last), [], 3));
    }
  }

  lemma ItemStep(B: seq<bool>, last: bool, nlen: nat, ndist: nat, cl: seq<nat>, lens: seq<nat>, s: nat, word: seq<bool>,
                 count: nat, pos: nat, lens': seq<nat>)
    requires Fits(cl) && s < |cl| && 0 < cl[s] && CodeWord(cl, s) == word && At(B, pos, word)
    requires pos + cl[s] + RepeatBits(s) <= |B| && count == RepeatBase(s) + Number(B, pos + cl[s], RepeatBits(s))
    requires !(s == 16 && lens == []) && |lens| < nlen + ndist && |lens| + count <= nlen + ndist
    requires lens' == lens + Copies(if s < 16 then s else if s == 16 then lens[|lens| - 1] else 0, count)
    ensures Step(B, Config(CodeLengths(last, nlen, ndist, cl, lens), [], pos))
         == Some(Config(CodeLengths(last, nlen, ndist, cl, lens'), [], pos + cl[s] + RepeatBits(s)))
  {
    hide Number, ReadSymbol, Fits, CodeWord, At;
    AtCodeWord(B, pos, cl, s);
    assert Repeated(lens, s, count) == Copies(if s < 16 then s else if s == 16 then lens[|lens| - 1] else 0, count);
  }

  /** A code length item is read. */
  lemma ItemRead(B: seq<bool>, nlen: nat, ndist: nat, cl: seq<nat>, lens: seq<nat>, s: nat, word: seq<bool>, extra: nat,
                 pos: nat, v: nat, count: nat)
    requires Reaches(B, START(), Config(CodeLengths(true, nlen, ndist, cl, lens), [], pos))
    requires Fits(cl) && s < |cl| && 0 < cl[s] && CodeWord(cl, s) == word && At(B, pos, word)
    requires pos + cl[s] + RepeatBits(s) <= |B| && extra == Number(B, pos + cl[s], RepeatBits(s)) && count == RepeatBase(s) + extra
    requires |lens| < nlen + ndist && |lens| + count <= nlen + ndist
    requires if s == 16 then lens != [] && v == lens[|lens| - 1] else v == if s < 16 then s else 0
    ensures Reaches(B, START(), Config(CodeLengths(true, nlen, ndist, cl, lens + Copies(v, count)), [], pos + cl[s] + RepeatBits(s)))
  {
    hide Reaches, Number, Fits, CodeWord, At, Step;
    ItemStep(B, true, nlen, ndist, cl, lens, s, word, count, pos, lens + Copies(v, count));
    ReachesThen(B, START(), Config(CodeLengths(true, nlen, ndist, cl, lens), [], pos),
      Config(CodeLengths(true, nlen, ndist, cl, lens + Copies(v, count)), [], pos + cl[s] + RepeatBits(s)));
  }

  /** All lengths are read. */
  lemma LengthsRead(B: seq<bool>, ll: seq<nat>, cl: seq<nat>, pos: nat)
    requires Reaches(B, START(), Config(CodeLengths(true, |ll|, 1, cl, ll + Copies(0, 1)), [], pos)) && pos <= |B|
    requires ValidLens(ll) && ValidLens([0]) && AcceptedCodes(ll, [0])
    ensures Reaches(B, START(), Config(Length(true, ll, [0]), [], pos))
  {
    hide Reaches, AcceptedCodes, Step;
    assert Copies(0, 1) == [0];
    LengthsAccepted(B, true, ll, [0], cl, [], pos);
    ReachesThen(B, START(), Config(CodeLengths(true, |ll|, 1, cl, ll + [0]), [], pos), Config(Length(true, ll, [0]), [], pos));
  }

  lemma RepeatIs(s: nat)
    ensures s < 16 ==> RepeatBase(s) == 1 && RepeatBits(s) == 0
    ensures RepeatBase(16) == 3 && RepeatBits(16) == 2 && RepeatBase(17) == 3 && RepeatBits(17) == 3
    ensures RepeatBase(18) == 11 && RepeatBits(18) == 7
  {
  }

  lemma SymbolStep(B: seq<bool>, last: bool, ll: seq<nat>, dl: seq<nat>, out: seq<byte>, pos: nat, s: nat, word: seq<bool>)
    requires Fits(ll) && s < |ll| && 0 < ll[s] && CodeWord(ll, s) == word && At(B, pos, word)
    ensures Step(B, Config(Length(last, ll, dl), out, pos)) == Some(Config(AfterSymbol(last, ll, dl, s), out, pos + |word|))
  {
    hide ReadSymbol, Fits, CodeWord, At, AfterSymbol;
    AtCodeWord(B, pos, ll, s);
  }

  /** A literal is read and written. */
  lemma LiteralRead(B: seq<bool>, a: Config, last: bool, ll: seq<nat>, dl: seq<nat>, out: seq<byte>, pos: nat, s: nat, word: seq<bool>)
    requires Reaches(B, a, Config(Length(last, ll, dl), out, pos)) && s < 256 && pos + |word| <= |B|
    requires Fits(ll) && s < |ll| && 0 < ll[s] && CodeWord(ll, s) == word && At(B, pos, word)
    ensures Reaches(B, a, Config(Length(last, ll, dl), out + [s as byte], pos + |word|))
  {
    hide Reaches, Fits, CodeWord, At;
    SymbolStep(B, last, ll, dl, out, pos, s, word);
    var c1 := Config(Literal(last, ll, dl, s as byte), out, pos + |word|);
    ReachesThen(B, a, Config(Length(last, ll, dl), out, pos), c1);
    ReachesThen(B, a, c1, Config(Length(last, ll, dl), out + [s as byte], pos + |word|));
  }

  /** The end of the last block, and of the stream. */
  lemma EndRead(B: seq<bool>, a: Config, ll: seq<nat>, dl: seq<nat>, out: seq<byte>, pos: nat, word: seq<bool>)
    requires Reaches(B, a, Config(Length(true, ll, dl), out, pos)) && |B| == Align(pos + |word|)
    requires Fits(ll) && 256 < |ll| && 0 < ll[256] && CodeWord(ll, 256) == word && At(B, pos, word)
    ensures Reaches(B, a, Config(Done, out, |B|))
  {
    hide Reaches, Fits, CodeWord, At, Align;
    SymbolStep(B, true, ll, dl, out, pos, 256, word);
    var c1 := Config(Header(true), out, pos + |word|);
    AtInside(B, pos, word);
    ReachesThen(B, a, Config(Length(true, ll, dl), out, pos), c1);
    ReachesThen(B, a, c1, Config(Done, out, |B|));
  }

  // ---- A dynamic block

  const ONE_LETTER: seq<byte> := [0x05, 0xc0, 0x81, 0x08, 0, 0, 0, 0, 0x20, 0xd6, 0xfd, 0x25, 0x4e]

  /** Symbol 18 has one bit, 0 and 1 have two. */
  function OneLetterCl(): seq<nat> {
    [2, 2, 0, 0, 0, 0, 0, 0, 0, 0, 0, 0, 0, 0, 0, 0, 0, 0, 1]
  }

  /** One bit for "a" and one for the end of the block. */
  function OneLetterLens(): (r: seq<nat>)
    ensures |r| == 257 && forall i :: 0 <= i < 257 ==> r[i] == if i == 97 || i == 256 then 1 else 0
  {
    Copies(0, 97) + Copies(1, 1) + Copies(0, 138) + Copies(0, 20) + Copies(1, 1)
  }

  lemma OneLetterClTaken(l: nat, s: nat)
    ensures var cl := OneLetterCl();
      Taken(cl, 19, l, s) == (if Precedes(cl, 0, l, s) then Pow2(l - 2) else 0) + (if Precedes(cl, 1, l, s) then Pow2(l - 2) else 0) +
        if Precedes(cl, 18, l, s) then Pow2(l - 1) else 0
  {
    hide Taken, Pow2;
    var cl := OneLetterCl();
    NoneTaken(cl, l, s);
    TakenUp(cl, 0, l, s);
    TakenUp(cl, 1, l, s);
    TakenSkip(cl, 2, 18, l, s);
    TakenUp(cl, 18, l, s);
  }

  lemma OneLetterClCode()
    ensures Canonical.Complete(OneLetterCl()) && Fits(OneLetterCl()) && !Rejected(CODES, OneLetterCl())
    ensures CodeWord(OneLetterCl(), 18) == [false] && CodeWord(OneLetterCl(), 0) == [true, false] && CodeWord(OneLetterCl(), 1) == [true, true]
  {
    hide Taken, Pow2, Reverse, Bits, Rejected;
    var cl := OneLetterCl();
    OneLetterClTaken(1, 18);
    OneLetterClTaken(2, 0);
    OneLetterClTaken(2, 1);
    OneLetterClTaken(15, 19);
    PowersUpTo13();
    PowersUpTo5();
    PowersTo15();
    MaxBits();
    CompleteIsAccepted(cl);
    Word3(0);
    Word3(2);
    Word3(3);
  }

  lemma PowersTo15()
    ensures Pow2(14) == 16384 && Pow2(15) == 32768
  {
    PowersUpTo13();
  }

  lemma OneLetterTaken(l: nat, s: nat)
    ensures var ll := OneLetterLens();
      Taken(ll, 257, l, s) == (if Precedes(ll, 97, l, s) then Pow2(l - 1) else 0) + if Precedes(ll, 256, l, s) then Pow2(l - 1) else 0
  {
    hide Taken, Pow2, OneLetterLens;
    var ll := OneLetterLens();
    NoneTaken(ll, l, s);
    TakenSkip(ll, 0, 97, l, s);
    TakenUp(ll, 97, l, s);
    TakenSkip(ll, 98, 256, l, s);
    TakenUp(ll, 256, l, s);
  }

  lemma OneLetterCode()
    ensures Canonical.Complete(OneLetterLens()) && Fits(OneLetterLens()) && ValidLens([0]) && AcceptedCodes(OneLetterLens(), [0])
    ensures CodeWord(OneLetterLens(), 97) == [false] && CodeWord(OneLetterLens(), 256) == [true]
  {
    hide Taken, Pow2, Reverse, Bits, OneLetterLens, AcceptedCodes;
    var ll := OneLetterLens();
    OneLetterTaken(1, 97);
    OneLetterTaken(1, 256);
    OneLetterTaken(15, 257);
    PowersUpTo13();
    PowersUpTo5();
    PowersTo15();
    MaxBits();
    CompleteIsAccepted(ll);
    NoDistances(ll);
    Word3(0);
    Word3(1);
  }

  lemma OneLetterHeader()
    ensures var B := ByteBits(ONE_LETTER);
      |B| == 104 && Reaches(B, START(), Config(ClLengths(true, 257, 1, 18, []), [], 17))
  {
    hide Number, Reaches, ByteBits, Rejected;
    var B := ByteBits(ONE_LETTER);
    ByteIn(ONE_LETTER, 0);
    ByteIn(ONE_LETTER, 1);
    ByteIn(ONE_LETTER, 2);
    Number2(B, 1);
    Number5(B, 3);
    Number5(B, 8);
    Number4(B, 13);
    HeaderStep(B, 2, true);
    ReachesThen(B, START(), Config(TableSizes(true), [], 3), Config(ClLengths(true, 257, 1, 18, []), [], 17));
  }

  lemma OneLetterFields0()
    ensures |ByteBits(ONE_LETTER)| == 104
    ensures Number(ByteBits(ONE_LETTER), 17, 3) == 0
    ensures Number(ByteBits(ONE_LETTER), 20, 3) == 0
    ensures Number(ByteBits(ONE_LETTER), 23, 3) == 1
    ensures Number(ByteBits(ONE_LETTER), 26, 3) == 2
    ensures Number(ByteBits(ONE_LETTER), 29, 3) == 0
    ensures Number(ByteBits(ONE_LETTER), 32, 3) == 0
  {
    hide Number, ByteBits;
    var B := ByteBits(ONE_LETTER);
    ByteIn(ONE_LETTER, 2);
    ByteIn(ONE_LETTER, 3);
    ByteIn(ONE_LETTER, 4);
    Number3(B, 17);
    Number3(B, 20);
    Number3(B, 23);
    Number3(B, 26);
    Number3(B, 29);
    Number3(B, 32);
  }

  lemma OneLetterFields1()
    ensures |ByteBits(ONE_LETTER)| == 104
    ensures Number(ByteBits(ONE_LETTER), 35, 3) == 0
    ensures Number(ByteBits(ONE_LETTER), 38, 3) == 0
    ensures Number(ByteBits(ONE_LETTER), 41, 3) == 0
    ensures Number(ByteBits(ONE_LETTER), 44, 3) == 0
    ensures Number(ByteBits(ONE_LETTER), 47, 3) == 0
    ensures Number(ByteBits(ONE_LETTER), 50, 3) == 0
  {
    hide Number, ByteBits;
    var B := ByteBits(ONE_LETTER);
    ByteIn(ONE_LETTER, 4);
    ByteIn(ONE_LETTER, 5);
    ByteIn(ONE_LETTER, 6);
    Number3(B, 35);
    Number3(B, 38);
    Number3(B, 41);
    Number3(B, 44);
    Number3(B, 47);
    Number3(B, 50);
  }

  lemma OneLetterFields2()
    ensures |ByteBits(ONE_LETTER)| == 104
    ensures Number(ByteBits(ONE_LETTER), 53, 3) == 0
    ensures Number(ByteBits(ONE_LETTER), 56, 3) == 0
    ensures Number(ByteBits(ONE_LETTER), 59, 3) == 0
    ensures Number(ByteBits(ONE_LETTER), 62, 3) == 0
    ensures Number(ByteBits(ONE_LETTER), 65, 3) == 0
    ensures Number(ByteBits(ONE_LETTER), 68, 3) == 2
  {
    hide Number, ByteBits;
    var B := ByteBits(ONE_LETTER);
    ByteIn(ONE_LETTER, 6);
    ByteIn(ONE_LETTER, 7);
    ByteIn(ONE_LETTER, 8);
    Number3(B, 53);
    Number3(B, 56);
    Number3(B, 59);
    Number3(B, 62);
    Number3(B, 65);
    Number3(B, 68);
  }

  lemma OneLetterFields()
    ensures |ByteBits(ONE_LETTER)| == 104 && FieldsAre(ByteBits(ONE_LETTER), 17, 18, OneLetterCl())
  {
    hide Number, ByteBits;
    OneLetterFields0();
    OneLetterFields1();
    OneLetterFields2();
  }

  lemma OneLetterTrees()
    ensures var B := ByteBits(ONE_LETTER);
      |B| == 104 && Reaches(B, START(), Config(CodeLengths(true, 257, 1, OneLetterCl(), []), [], 71))
  {
    hide *;
    var B := ByteBits(ONE_LETTER);
    OneLetterHeader();
    OneLetterFields();
    OneLetterClCode();
    CompleteIsAccepted(OneLetterCl());
    FieldsBelong(B, true, 257, 1, 18, [], 17, OneLetterCl());
    ReachesTrans(B, START(), Config(ClLengths(true, 257, 1, 18, []), [], 17),
      Config(CodeLengths(true, 257, 1, OneLetterCl(), []), [], 71));
  }

  lemma OneLetterClIs()
    ensures |OneLetterCl()| == 19 && OneLetterCl()[0] == 2 && OneLetterCl()[1] == 2 && OneLetterCl()[18] == 1
  {
  }

  lemma OneLetterLensAre()
    ensures OneLetterLens() == [] + Copies(0, 97) + Copies(1, 1) + Copies(0, 138) + Copies(0, 20) + Copies(1, 1)
    ensures OneLetterLens()[97] == 1 && OneLetterLens()[256] == 1 && ValidLens(OneLetterLens())
  {
    MaxBits();
  }

  lemma OneLetterItems0()
    ensures |ByteBits(ONE_LETTER)| == 104
    ensures At(ByteBits(ONE_LETTER), 71, [false]) && Number(ByteBits(ONE_LETTER), 72, 7) == 86
    ensures At(ByteBits(ONE_LETTER), 79, [true, true]) && Number(ByteBits(ONE_LETTER), 81, 0) == 0
    ensures At(ByteBits(ONE_LETTER), 81, [false]) && Number(ByteBits(ONE_LETTER), 82, 7) == 127
  {
    hide Number, ByteBits;
    var B := ByteBits(ONE_LETTER);
    ByteIn(ONE_LETTER, 8);
    ByteIn(ONE_LETTER, 9);
    ByteIn(ONE_LETTER, 10);
    ByteIn(ONE_LETTER, 11);
    assert B[71..72] == [false];
    Number7(B, 72);
    assert B[79..81] == [true, true];
    NumberNone(B, 81);
    assert B[81..82] == [false];
    Number7(B, 82);
  }

  lemma OneLetterItems1()
    ensures |ByteBits(ONE_LETTER)| == 104
    ensures At(ByteBits(ONE_LETTER), 89, [false]) && Number(ByteBits(ONE_LETTER), 90, 7) == 9
    ensures At(ByteBits(ONE_LETTER), 97, [true, true]) && Number(ByteBits(ONE_LETTER), 99, 0) == 0
    ensures At(ByteBits(ONE_LETTER), 99, [true, false]) && Number(ByteBits(ONE_LETTER), 101, 0) == 0
  {
    hide Number, ByteBits;
    var B := ByteBits(ONE_LETTER);
    ByteIn(ONE_LETTER, 11);
    ByteIn(ONE_LETTER, 12);
    assert B[89..90] == [false];
    Number7(B, 90);
    assert B[97..99] == [true, true];
    NumberNone(B, 99);
    assert B[99..101] == [true, false];
    NumberNone(B, 101);
  }

  lemma OneLetterLengths()
    ensures var B := ByteBits(ONE_LETTER);
      |B| == 104 && Reaches(B, START(), Config(Length(true, OneLetterLens(), [0]), [], 101))
  {
    hide *;
    var B, cl := ByteBits(ONE_LETTER), OneLetterCl();
    OneLetterTrees();
    OneLetterClIs();
    OneLetterClCode();
    OneLetterLensAre();
    OneLetterCode();
    RepeatIs(0);
    RepeatIs(1);
    RepeatIs(3);
    OneLetterItems0();
    OneLetterItems1();
    ItemRead(B, 257, 1, cl, [], 18, [false], 86, 71, 0, 97);
    var l0 := [] + Copies(0, 97);
    ItemRead(B, 257, 1, cl, l0, 1, [true, true], 0, 79, 1, 1);
    var l1 := l0 + Copies(1, 1);
    ItemRead(B, 257, 1, cl, l1, 18, [false], 127, 81, 0, 138);
    var l2 := l1 + Copies(0, 138);
    ItemRead(B, 257, 1, cl, l2, 18, [false], 9, 89, 0, 20);
    var l3 := l2 + Copies(0, 20);
    ItemRead(B, 257, 1, cl, l3, 1, [true, true], 0, 97, 1, 1);
    var l4 := l3 + Copies(1, 1);
    ItemRead(B, 257, 1, cl, l4, 0, [true, false], 0, 99, 0, 1);
    LengthsRead(B, OneLetterLens(), cl, 101);
  }

  lemma OneLetterWords()
    ensures |ByteBits(ONE_LETTER)| == 104 && At(ByteBits(ONE_LETTER), 101, [false]) && At(ByteBits(ONE_LETTER), 102, [true])
  {
    hide ByteBits;
    var B := ByteBits(ONE_LETTER);
    ByteIn(ONE_LETTER, 12);
    assert B[101..102] == [false] && B[102..103] == [true];
  }

  /** "a", in a dynamic block. */
  lemma OneLetterIsRead()
    ensures Reaches(ByteBits(ONE_LETTER), START(), Config(Done, [97], 104))
  {
    hide *;
    var B, ll := ByteBits(ONE_LETTER), OneLetterLens();
    OneLetterLengths();
    OneLetterLensAre();
    OneLetterCode();
    OneLetterWords();
    LiteralRead(B, START(), true, ll, [0], [], 101, 97, [false]);
    AlignIs(103);
    assert [] + [97] == [97 as byte];
    EndRead(B, START(), ll, [0], [97], 102, [true]);
  }

  lemma AlignIs(pos: nat)
    ensures Align(pos) == (pos + 7) / 8 * 8
  {
  }

  // ---- All kinds of repeat codes

  const SEVEN_LETTERS: seq<byte> := [0x05, 0x40, 0xa5, 0x0d, 0x00, 0x00, 0x00, 0xba, 0x15, 0xff, 0xbf, 0x17, 0x46, 0xec]

  /** Symbols 3, 16 and 17 have two bits, 0 and 18 have three. */
  function SevenLettersCl(): seq<nat> {
    [3, 0, 0, 2, 0, 0, 0, 0, 0, 0, 0, 0, 0, 0, 0, 0, 2, 2, 3]
  }

  /** Three bits for each of "a" to "g" and for the end of the block. */
  function SevenLettersLens(): (r: seq<nat>)
    ensures |r| == 257 && forall i :: 0 <= i < 257 ==> r[i] == if 97 <= i < 104 || i == 256 then 3 else 0
  {
    Copies(0, 97) + Copies(3, 1) + Copies(3, 6) + Copies(0, 138) + Copies(0, 10) + Copies(0, 4) + Copies(3, 1)
  }

  lemma SevenLettersClTaken(l: nat, s: nat)
    ensures var cl := SevenLettersCl();
      Taken(cl, 19, l, s) == (if Precedes(cl, 0, l, s) then Pow2(l - 3) else 0) + (if Precedes(cl, 3, l, s) then Pow2(l - 2) else 0) +
        (if Precedes(cl, 16, l, s) then Pow2(l - 2) else 0) + (if Precedes(cl, 17, l, s) then Pow2(l - 2) else 0) +
        if Precedes(cl, 18, l, s) then Pow2(l - 3) else 0
  {
    hide Taken, Pow2;
    var cl := SevenLettersCl();
    NoneTaken(cl, l, s);
    TakenUp(cl, 0, l, s);
    TakenSkip(cl, 1, 3, l, s);
    TakenUp(cl, 3, l, s);
    TakenSkip(cl, 4, 16, l, s);
    TakenUp(cl, 16, l, s);
    TakenUp(cl, 17, l, s);
    TakenUp(cl, 18, l, s);
  }

  lemma SevenLettersClCode()
    ensures Canonical.Complete(SevenLettersCl()) && Fits(SevenLettersCl()) && !Rejected(CODES, SevenLettersCl())
    ensures CodeWord(SevenLettersCl(), 3) == [false, false] && CodeWord(SevenLettersCl(), 16) == [false, true]
    ensures CodeWord(SevenLettersCl(), 17) == [true, false]
    ensures CodeWord(SevenLettersCl(), 0) == [true, true, false] && CodeWord(SevenLettersCl(), 18) == [true, true, true]
  {
    hide Taken, Pow2, Reverse, Bits, Rejected;
    var cl := SevenLettersCl();
    SevenLettersClTaken(2, 3);
    SevenLettersClTaken(2, 16);
    SevenLettersClTaken(2, 17);
    SevenLettersClTaken(3, 0);
    SevenLettersClTaken(3, 18);
    SevenLettersClTaken(15, 19);
    PowersUpTo13();
    PowersUpTo5();
    PowersTo15();
    MaxBits();
    CompleteIsAccepted(cl);
    Word3(0);
    Word3(1);
    Word3(2);
    Word3(6);
    Word3(7);
  }

  lemma {:induction false} SevenLettersTaken(n: nat, l: nat, s: nat)
    requires 3 <= l && n <= 7
    ensures Taken(SevenLettersLens(), 97 + n, l, s) ==
      if l > 3 then n * Pow2(l - 3) else if s < 97 then 0 else if s < 97 + n then s - 97 else n
  {
    hide Pow2, SevenLettersLens;
    var ll := SevenLettersLens();
    if n == 0 {
      TakenSkip(ll, 0, 97, l, s);
    } else {
      SevenLettersTaken(n - 1, l, s);
      PowersUpTo5();
    }
  }

  lemma SevenLettersAll(l: nat, s: nat)
    requires 3 <= l
    ensures Taken(SevenLettersLens(), 257, l, s) ==
      if l > 3 then 8 * Pow2(l - 3) else if s < 97 then 0 else if s < 104 then s - 97 else if s <= 256 then 7 else 8
  {
    hide Pow2, Taken, SevenLettersLens;
    var ll := SevenLettersLens();
    SevenLettersTaken(7, l, s);
    TakenSkip(ll, 104, 256, l, s);
    TakenUp(ll, 256, l, s);
    PowersUpTo5();
  }

  lemma SevenLettersCode()
    ensures Canonical.Complete(SevenLettersLens()) && Fits(SevenLettersLens()) && ValidLens([0]) && AcceptedCodes(SevenLettersLens(), [0])
    ensures CodeWord(SevenLettersLens(), 97) == [false, false, false] && CodeWord(SevenLettersLens(), 98) == [false, false, true]
    ensures CodeWord(SevenLettersLens(), 103) == [true, true, false] && CodeWord(SevenLettersLens(), 256) == [true, true, true]
  {
    hide Taken, Pow2, Reverse, Bits, SevenLettersLens, AcceptedCodes;
    var ll := SevenLettersLens();
    SevenLettersAll(3, 97);
    SevenLettersAll(3, 98);
    SevenLettersAll(3, 103);
    SevenLettersAll(3, 256);
    SevenLettersAll(15, 257);
    PowersUpTo13();
    PowersTo15();
    MaxBits();
    CompleteIsAccepted(ll);
    NoDistances(ll);
    Word3(0);
    Word3(1);
    Word3(6);
    Word3(7);
  }

  lemma SevenLettersHeader()
    ensures var B := ByteBits(SEVEN_LETTERS);
      |B| == 112 && Reaches(B, START(), Config(ClLengths(true, 257, 1, 14, []), [], 17))
  {
    hide Number, Reaches, ByteBits, Rejected;
    var B := ByteBits(SEVEN_LETTERS);
    ByteIn(SEVEN_LETTERS, 0);
    ByteIn(SEVEN_LETTERS, 1);
    ByteIn(SEVEN_LETTERS, 2);
    Number2(B, 1);
    Number5(B, 3);
    Number5(B, 8);
    Number4(B, 13);
    HeaderStep(B, 2, true);
    ReachesThen(B, START(), Config(TableSizes(true), [], 3), Config(ClLengths(true, 257, 1, 14, []), [], 17));
  }

  lemma SevenLettersFields0()
    ensures |ByteBits(SEVEN_LETTERS)| == 112
    ensures Number(ByteBits(SEVEN_LETTERS), 17, 3) == 2
    ensures Number(ByteBits(SEVEN_LETTERS), 20, 3) == 2
    ensures Number(ByteBits(SEVEN_LETTERS), 23, 3) == 3
    ensures Number(ByteBits(SEVEN_LETTERS), 26, 3) == 3
    ensures Number(ByteBits(SEVEN_LETTERS), 29, 3) == 0
    ensures Number(ByteBits(SEVEN_LETTERS), 32, 3) == 0
  {
    hide Number, ByteBits;
    var B := ByteBits(SEVEN_LETTERS);
    ByteIn(SEVEN_LETTERS, 2);
    ByteIn(SEVEN_LETTERS, 3);
    ByteIn(SEVEN_LETTERS, 4);
    Number3(B, 17);
    Number3(B, 20);
    Number3(B, 23);
    Number3(B, 26);
    Number3(B, 29);
    Number3(B, 32);
  }

  lemma SevenLettersFields1()
    ensures |ByteBits(SEVEN_LETTERS)| == 112
    ensures Number(ByteBits(SEVEN_LETTERS), 35, 3) == 0
    ensures Number(ByteBits(SEVEN_LETTERS), 38, 3) == 0
    ensures Number(ByteBits(SEVEN_LETTERS), 41, 3) == 0
    ensures Number(ByteBits(SEVEN_LETTERS), 44, 3) == 0
    ensures Number(ByteBits(SEVEN_LETTERS), 47, 3) == 0
    ensures Number(ByteBits(SEVEN_LETTERS), 50, 3) == 0
  {
    hide Number, ByteBits;
    var B := ByteBits(SEVEN_LETTERS);
    ByteIn(SEVEN_LETTERS, 4);
    ByteIn(SEVEN_LETTERS, 5);
    ByteIn(SEVEN_LETTERS, 6);
    Number3(B, 35);
    Number3(B, 38);
    Number3(B, 41);
    Number3(B, 44);
    Number3(B, 47);
    Number3(B, 50);
  }

  lemma SevenLettersFields2()
    ensures |ByteBits(SEVEN_LETTERS)| == 112
    ensures Number(ByteBits(SEVEN_LETTERS), 53, 3) == 0
    ensures Number(ByteBits(SEVEN_LETTERS), 56, 3) == 2
  {
    hide Number, ByteBits;
    var B := ByteBits(SEVEN_LETTERS);
    ByteIn(SEVEN_LETTERS, 6);
    ByteIn(SEVEN_LETTERS, 7);
    Number3(B, 53);
    Number3(B, 56);
  }

  lemma SevenLettersFields()
    ensures |ByteBits(SEVEN_LETTERS)| == 112 && FieldsAre(ByteBits(SEVEN_LETTERS), 17, 14, SevenLettersCl())
  {
    hide Number, ByteBits;
    SevenLettersFields0();
    SevenLettersFields1();
    SevenLettersFields2();
  }

  lemma SevenLettersTrees()
    ensures var B := ByteBits(SEVEN_LETTERS);
      |B| == 112 && Reaches(B, START(), Config(CodeLengths(true, 257, 1, SevenLettersCl(), []), [], 59))
  {
    hide *;
    var B := ByteBits(SEVEN_LETTERS);
    SevenLettersHeader();
    SevenLettersFields();
    SevenLettersClCode();
    CompleteIsAccepted(SevenLettersCl());
    FieldsBelong(B, true, 257, 1, 14, [], 17, SevenLettersCl());
    ReachesTrans(B, START(), Config(ClLengths(true, 257, 1, 14, []), [], 17),
      Config(CodeLengths(true, 257, 1, SevenLettersCl(), []), [], 59));
  }

  lemma SevenLettersClIs()
    ensures |SevenLettersCl()| == 19 && SevenLettersCl()[0] == 3 && SevenLettersCl()[3] == 2
    ensures SevenLettersCl()[16] == 2 && SevenLettersCl()[17] == 2 && SevenLettersCl()[18] == 3
  {
  }

  lemma SevenLettersLensAre()
    ensures SevenLettersLens() ==
      [] + Copies(0, 97) + Copies(3, 1) + Copies(3, 6) + Copies(0, 138) + Copies(0, 10) + Copies(0, 4) + Copies(3, 1)
    ensures SevenLettersLens()[97] == 3 && SevenLettersLens()[98] == 3 && SevenLettersLens()[103] == 3
    ensures SevenLettersLens()[256] == 3 && ValidLens(SevenLettersLens())
  {
    MaxBits();
  }

  lemma SevenLettersItems0()
    ensures |ByteBits(SEVEN_LETTERS)| == 112
    ensures At(ByteBits(SEVEN_LETTERS), 59, [true, true, true]) && Number(ByteBits(SEVEN_LETTERS), 62, 7) == 86
    ensures At(ByteBits(SEVEN_LETTERS), 69, [false, false]) && Number(ByteBits(SEVEN_LETTERS), 71, 0) == 0
    ensures At(ByteBits(SEVEN_LETTERS), 71, [false, true]) && Number(ByteBits(SEVEN_LETTERS), 73, 2) == 3
  {
    hide Number, ByteBits;
    var B := ByteBits(SEVEN_LETTERS);
    ByteIn(SEVEN_LETTERS, 7);
    ByteIn(SEVEN_LETTERS, 8);
    ByteIn(SEVEN_LETTERS, 9);
    assert B[59..62] == [true, true, true];
    Number7(B, 62);
    assert B[69..71] == [false, false];
    NumberNone(B, 71);
    assert B[71..73] == [false, true];
    Number2(B, 73);
  }

  lemma SevenLettersItems1()
    ensures |ByteBits(SEVEN_LETTERS)| == 112
    ensures At(ByteBits(SEVEN_LETTERS), 75, [true, true, true]) && Number(ByteBits(SEVEN_LETTERS), 78, 7) == 127
    ensures At(ByteBits(SEVEN_LETTERS), 85, [true, false]) && Number(ByteBits(SEVEN_LETTERS), 87, 3) == 7
    ensures At(ByteBits(SEVEN_LETTERS), 90, [true, false]) && Number(ByteBits(SEVEN_LETTERS), 92, 3) == 1
  {
    hide Number, ByteBits;
    var B := ByteBits(SEVEN_LETTERS);
    ByteIn(SEVEN_LETTERS, 9);
    ByteIn(SEVEN_LETTERS, 10);
    ByteIn(SEVEN_LETTERS, 11);
    assert B[75..78] == [true, true, true];
    Number7(B, 78);
    assert B[85..87] == [true, false];
    Number3(B, 87);
    assert B[90..92] == [true, false];
    Number3(B, 92);
  }

  lemma SevenLettersItems2()
    ensures |ByteBits(SEVEN_LETTERS)| == 112
    ensures At(ByteBits(SEVEN_LETTERS), 95, [false, false]) && Number(ByteBits(SEVEN_LETTERS), 97, 0) == 0
    ensures At(ByteBits(SEVEN_LETTERS), 97, [true, true, false]) && Number(ByteBits(SEVEN_LETTERS), 100, 0) == 0
  {
    hide Number, ByteBits;
    var B := ByteBits(SEVEN_LETTERS);
    ByteIn(SEVEN_LETTERS, 11);
    ByteIn(SEVEN_LETTERS, 12);
    assert B[95..97] == [false, false];
    NumberNone(B, 97);
    assert B[97..100] == [true, true, false];
    NumberNone(B, 100);
  }

  lemma SevenLettersLengths()
    ensures var B := ByteBits(SEVEN_LETTERS);
      |B| == 112 && Reaches(B, START(), Config(Length(true, SevenLettersLens(), [0]), [], 100))
  {
    hide *;
    var B, cl := ByteBits(SEVEN_LETTERS), SevenLettersCl();
    SevenLettersTrees();
    SevenLettersClIs();
    SevenLettersClCode();
    SevenLettersLensAre();
    SevenLettersCode();
    RepeatIs(0);
    RepeatIs(1);
    RepeatIs(3);
    SevenLettersItems0();
    SevenLettersItems1();
    SevenLettersItems2();
    ItemRead(B, 257, 1, cl, [], 18, [true, true, true], 86, 59, 0, 97);
    var l0 := [] + Copies(0, 97);
    ItemRead(B, 257, 1, cl, l0, 3, [false, false], 0, 69, 3, 1);
    var l1 := l0 + Copies(3, 1);
    ItemRead(B, 257, 1, cl, l1, 16, [false, true], 3, 71, 3, 6);
    var l2 := l1 + Copies(3, 6);
    ItemRead(B, 257, 1, cl, l2, 18, [true, true, true], 127, 75, 0, 138);
    var l3 := l2 + Copies(0, 138);
    ItemRead(B, 257, 1, cl, l3, 17, [true, false], 7, 85, 0, 10);
    var l4 := l3 + Copies(0, 10);
    ItemRead(B, 257, 1, cl, l4, 17, [true, false], 1, 90, 0, 4);
    var l5 := l4 + Copies(0, 4);
    ItemRead(B, 257, 1, cl, l5, 3, [false, false], 0, 95, 3, 1);
    var l6 := l5 + Copies(3, 1);
    ItemRead(B, 257, 1, cl, l6, 0, [true, true, false], 0, 97, 0, 1);
    LengthsRead(B, SevenLettersLens(), cl, 100);
  }

  lemma SevenLettersWords()
    ensures |ByteBits(SEVEN_LETTERS)| == 112
    ensures At(ByteBits(SEVEN_LETTERS), 100, [false, false, true]) && At(ByteBits(SEVEN_LETTERS), 103, [false, false, false])
    ensures At(ByteBits(SEVEN_LETTERS), 106, [true, true, false]) && At(ByteBits(SEVEN_LETTERS), 109, [true, true, true])
  {
    hide ByteBits;
    var B := ByteBits(SEVEN_LETTERS);
    ByteIn(SEVEN_LETTERS, 12);
    ByteIn(SEVEN_LETTERS, 13);
    assert B[100..103] == [false, false, true] && B[103..106] == [false, false, false];
    assert B[106..109] == [true, true, false] && B[109..112] == [true, true, true];
  }

  /** "bag", in a dynamic block whose lengths are repeated in all ways. */
  lemma SevenLettersAreRead()
    ensures Reaches(ByteBits(SEVEN_LETTERS), START(), Config(Done, [98, 97, 103], 112))
  {
    hide *;
    var B, ll := ByteBits(SEVEN_LETTERS), SevenLettersLens();
    SevenLettersLengths();
    SevenLettersLensAre();
    SevenLettersCode();
    SevenLettersWords();
    LiteralRead(B, START(), true, ll, [0], [], 100, 98, [false, false, true]);
    LiteralRead(B, START(), true, ll, [0], [] + [98], 103, 97, [false, false, false]);
    LiteralRead(B, START(), true, ll, [0], [] + [98] + [97], 106, 103, [true, true, false]);
    assert [] + [98] + [97] + [103] == [98 as byte, 97, 103];
    AlignIs(112);
    EndRead(B, START(), ll, [0], [98, 97, 103], 109, [true, true, true]);
  }

  // ---- The fixed codes

  lemma Word5(v: nat)
    ensures Reverse(Bits(v, 5)) == [v / 16 % 2 == 1, v / 8 % 2 == 1, v / 4 % 2 == 1, v / 2 % 2 == 1, v % 2 == 1]
  {
    hide Reverse, Bits;
    Word7(v);
    Word3(v / 8);
    assert v / 8 / 2 == v / 16;
  }

  lemma SevenBits(v: nat)
    ensures Reverse(Bits(v, 7)) ==
      [v / 64 % 2 == 1, v / 32 % 2 == 1, v / 16 % 2 == 1, v / 8 % 2 == 1, v / 4 % 2 == 1, v / 2 % 2 == 1, v % 2 == 1]
  {
    hide Reverse, Bits;
    Word7(v);
    Word7(v / 8);
    Word3(v / 64);
    EighthsOf(v);
  }

  lemma EightBits(v: nat)
    ensures Reverse(Bits(v, 8)) ==
      [v / 128 % 2 == 1, v / 64 % 2 == 1, v / 32 % 2 == 1, v / 16 % 2 == 1, v / 8 % 2 == 1, v / 4 % 2 == 1, v / 2 % 2 == 1, v % 2 == 1]
  {
    hide Reverse, Bits;
    Word7(v);
    Word5(v / 8);
    EighthsOf(v);
  }

  lemma EighthsOf(v: nat)
    ensures v / 8 / 2 == v / 16 && v / 8 / 4 == v / 32 && v / 8 / 8 == v / 64 && v / 8 / 16 == v / 128
  {
  }

  lemma FixedAreComplete()
    ensures Fits(FixedLitLens()) && Fits(FixedDistLens(32)) && |FixedLitLens()| == 288 && |FixedDistLens(32)| == 32
    ensures 0 < FixedLitLens()[256] && forall s :: 0 <= s < 288 ==> 0 < FixedLitLens()[s]
    ensures forall s :: 0 <= s < 32 ==> 0 < FixedDistLens(32)[s]
  {
    hide Taken;
    FixedCodesGood();
    CompleteIsAccepted(FixedLitLens());
    CompleteIsAccepted(FixedDistLens(32));
  }

  lemma FixedWordA()
    ensures CodeWord(FixedLitLens(), 97) == [true, false, false, true, false, false, false, true]
  {
    hide CodeWord, Reverse, Bits;
    FixedLiteralWord(97);
    EightBits(145);
  }

  lemma FixedWordB()
    ensures CodeWord(FixedLitLens(), 98) == [true, false, false, true, false, false, true, false]
  {
    hide CodeWord, Reverse, Bits;
    FixedLiteralWord(98);
    EightBits(146);
  }

  lemma FixedWordC()
    ensures CodeWord(FixedLitLens(), 99) == [true, false, false, true, false, false, true, true]
  {
    hide CodeWord, Reverse, Bits;
    FixedLiteralWord(99);
    EightBits(147);
  }

  lemma FixedWordEnd()
    ensures CodeWord(FixedLitLens(), 256) == [false, false, false, false, false, false, false]
  {
    hide CodeWord, Reverse, Bits;
    FixedLiteralWord(256);
    SevenBits(0);
  }

  lemma FixedWordLength3()
    ensures CodeWord(FixedLitLens(), 257) == [false, false, false, false, false, false, true]
  {
    hide CodeWord, Reverse, Bits;
    FixedLiteralWord(257);
    SevenBits(1);
  }

  lemma FixedWordLength13()
    ensures CodeWord(FixedLitLens(), 266) == [false, false, false, true, false, true, false]
  {
    hide CodeWord, Reverse, Bits;
    FixedLiteralWord(266);
    SevenBits(10);
  }

  lemma FixedWordDistance3()
    ensures CodeWord(FixedDistLens(32), 2) == [false, false, false, true, false]
  {
    hide CodeWord, Reverse, Bits;
    FixedDistanceWord(32, 2);
    Word5(2);
  }

  lemma FixedWordDistance9()
    ensures CodeWord(FixedDistLens(32), 6) == [false, false, true, true, false]
  {
    hide CodeWord, Reverse, Bits;
    FixedDistanceWord(32, 6);
    Word5(6);
  }

  const FIXED_LETTER: seq<byte> := [0x4b, 0x04, 0x00]

  lemma FixedLetterBits()
    ensures |ByteBits(FIXED_LETTER)| == 24
    ensures ByteBits(FIXED_LETTER)[0]
    ensures At(ByteBits(FIXED_LETTER), 3, [true, false, false, true, false, false, false, true])
    ensures At(ByteBits(FIXED_LETTER), 11, [false, false, false, false, false, false, false])
    ensures Number(ByteBits(FIXED_LETTER), 1, 2) == 1
  {
    hide Number, ByteBits;
    var B := ByteBits(FIXED_LETTER);
    ByteIn(FIXED_LETTER, 0);
    ByteIn(FIXED_LETTER, 1);
    ByteIn(FIXED_LETTER, 2);
    assert B[3..11] == [true, false, false, true, false, false, false, true];
    assert B[11..18] == [false, false, false, false, false, false, false];
    Number2(B, 1);
  }

  /** "a", with the fixed codes. */
  lemma FixedLetterIsRead()
    ensures Reaches(ByteBits(FIXED_LETTER), START(), Config(Done, [97], 24))
  {
    hide *;
    var B, ll, dl := ByteBits(FIXED_LETTER), FixedLitLens(), FixedDistLens(32);
    FixedLetterBits();
    FixedAreComplete();
    FixedWordA();
    FixedWordEnd();
    HeaderStep(B, 1, true);
    LiteralRead(B, START(), true, ll, dl, [], 3, 97, [true, false, false, true, false, false, false, true]);
    AlignIs(18);
    assert [] + [97] == [97 as byte];
    EndRead(B, START(), ll, dl, [97], 11, [false, false, false, false, false, false, false]);
  }

  // ---- Matches with extra bits

  /** A match is read and carried out. */
  lemma MatchRead(B: seq<bool>, a: Config, last: bool, ll: seq<nat>, dl: seq<nat>, out: seq<byte>, pos: nat,
                  s: nat, word: seq<bool>, base: nat, extra: nat, length: nat,
                  d: nat, dword: seq<bool>, dbase: nat, dextra: nat, distance: nat, end: nat)
    requires Reaches(B, a, Config(Length(last, ll, dl), out, pos))
    requires Fits(ll) && s < |ll| && 0 < ll[s] && CodeWord(ll, s) == word && At(B, pos, word)
    requires Fits(dl) && d < |dl| && 0 < dl[d] && CodeWord(dl, d) == dword && At(B, pos + |word| + extra, dword)
    requires AfterSymbol(last, ll, dl, s) == LengthExtra(last, ll, dl, base, extra)
    requires AfterDistance(last, ll, dl, length, d) == DistanceExtra(last, ll, dl, length, dbase, dextra)
    requires end == pos + |word| + extra + |dword| + dextra <= |B|
    requires length == base + Number(B, pos + |word|, extra) && distance == dbase + Number(B, end - dextra, dextra)
    requires 1 <= length && 1 <= distance <= |out|
    ensures Reaches(B, a, Config(Length(last, ll, dl), CopyBytes(out, length, distance), end))
  {
    hide *;
    SymbolStep(B, last, ll, dl, out, pos, s, word);
    var p1, p2 := pos + |word|, pos + |word| + extra;
    StepAtExtra(B, last, ll, dl, out, p1, 0, base, extra);
    AtCodeWord(B, p2, dl, d);
    StepAtDistance(B, last, ll, dl, out, p2, length, d);
    StepAtExtra(B, last, ll, dl, out, end - dextra, length, dbase, dextra);
    var c1, c2 := Config(LengthExtra(last, ll, dl, base, extra), out, p1), Config(Distance(last, ll, dl, length), out, p2);
    var c3 := Config(DistanceExtra(last, ll, dl, length, dbase, dextra), out, end - dextra);
    var c4 := Config(Match(last, ll, dl, length, distance), out, end);
    ReachesThen(B, a, Config(Length(last, ll, dl), out, pos), c1);
    ReachesThen(B, a, c1, c2);
    ReachesThen(B, a, c2, c3);
    ReachesThen(B, a, c3, c4);
    MatchDecodes(B, last, ll, dl, out, end, length, distance);
    ReachesTrans(B, a, c4, Config(Length(last, ll, dl), CopyBytes(out, length, distance), end));
  }

  const MATCHES: seq<byte> := [0x4b, 0x4c, 0x4a, 0x46, 0x45, 0x40, 0x26, 0x00]

  lemma MatchesStart()
    ensures |ByteBits(MATCHES)| == 64
    ensures ByteBits(MATCHES)[0]
    ensures At(ByteBits(MATCHES), 3, [true, false, false, true, false, false, false, true])
    ensures At(ByteBits(MATCHES), 11, [true, false, false, true, false, false, true, false])
    ensures At(ByteBits(MATCHES), 19, [true, false, false, true, false, false, true, true])
    ensures Number(ByteBits(MATCHES), 1, 2) == 1
  {
    hide Number, ByteBits;
    var B := ByteBits(MATCHES);
    ByteIn(MATCHES, 0);
    ByteIn(MATCHES, 1);
    ByteIn(MATCHES, 2);
    ByteIn(MATCHES, 3);
    assert B[3..11] == [true, false, false, true, false, false, false, true];
    assert B[11..19] == [true, false, false, true, false, false, true, false];
    assert B[19..27] == [true, false, false, true, false, false, true, true];
    Number2(B, 1);
  }

  lemma MatchesFirst()
    ensures |ByteBits(MATCHES)| == 64
    ensures At(ByteBits(MATCHES), 27, [false, false, false, true, false, true, false])
    ensures At(ByteBits(MATCHES), 35, [false, false, false, true, false])
    ensures Number(ByteBits(MATCHES), 34, 1) == 1
    ensures Number(ByteBits(MATCHES), 40, 0) == 0
  {
    hide Number, ByteBits;
    var B := ByteBits(MATCHES);
    ByteIn(MATCHES, 3);
    ByteIn(MATCHES, 4);
    assert B[27..34] == [false, false, false, true, false, true, false];
    assert B[35..40] == [false, false, false, true, false];
    NumberUp(B, 34, 1);
    NumberNone(B, 35);
    NumberNone(B, 40);
  }

  lemma MatchesSecond()
    ensures |ByteBits(MATCHES)| == 64
    ensures At(ByteBits(MATCHES), 40, [false, false, false, false, false, false, true])
    ensures At(ByteBits(MATCHES), 47, [false, false, true, true, false])
    ensures At(ByteBits(MATCHES), 54, [false, false, false, false, false, false, false])
    ensures Number(ByteBits(MATCHES), 47, 0) == 0
    ensures Number(ByteBits(MATCHES), 52, 2) == 2
  {
    hide Number, ByteBits;
    var B := ByteBits(MATCHES);
    ByteIn(MATCHES, 5);
    ByteIn(MATCHES, 6);
    ByteIn(MATCHES, 7);
    assert B[40..47] == [false, false, false, false, false, false, true];
    assert B[47..52] == [false, false, true, true, false];
    assert B[54..61] == [false, false, false, false, false, false, false];
    NumberNone(B, 47);
    Number2(B, 52);
  }

  function MatchData(): (r: seq<byte>)
    ensures |r| == 20
  {
    [97, 98, 99, 97, 98, 99, 97, 98, 99, 97, 98, 99, 97, 98, 99, 97, 98, 97, 98, 99]
  }

  lemma MatchDataCopies()
    ensures CopyBytes(MatchData()[0..3], 14, 3) == MatchData()[0..17] && CopyBytes(MatchData()[0..17], 3, 11) == MatchData()[0..20]
    ensures [] + [97] + [98] + [99] == MatchData()[0..3] && MatchData()[0..20] == MatchData()
  {
    hide CopyBytes;
    var data := MatchData();
    assert data[3] == data[0] && data[4] == data[1] && data[5] == data[2] && data[6] == data[3] && data[7] == data[4];
    assert data[8] == data[5] && data[9] == data[6] && data[10] == data[7] && data[11] == data[8] && data[12] == data[9];
    assert data[13] == data[10] && data[14] == data[11] && data[15] == data[12] && data[16] == data[13];
    CopyIsRepeat(data, 0, 3, 3, 14);
    CopyIsRepeat(data, 0, 17, 11, 3);
  }

  lemma MatchCodes(ll: seq<nat>, dl: seq<nat>)
    ensures AfterSymbol(true, ll, dl, 266) == LengthExtra(true, ll, dl, 13, 1)
    ensures AfterSymbol(true, ll, dl, 257) == LengthExtra(true, ll, dl, 3, 0)
    ensures AfterDistance(true, ll, dl, 14, 2) == DistanceExtra(true, ll, dl, 14, 3, 0)
    ensures AfterDistance(true, ll, dl, 3, 6) == DistanceExtra(true, ll, dl, 3, 9, 2)
  {
  }

  /** Three literals, 14 bytes from 3 back, and 3 bytes from 11 back. */
  lemma MatchesAreRead()
    ensures Reaches(ByteBits(MATCHES), START(), Config(Done, MatchData(), 64))
  {
    hide *;
    var B, ll, dl, data := ByteBits(MATCHES), FixedLitLens(), FixedDistLens(32), MatchData();
    MatchesStart();
    FixedAreComplete();
    FixedWordA();
    FixedWordB();
    FixedWordC();
    HeaderStep(B, 1, true);
    LiteralRead(B, START(), true, ll, dl, [], 3, 97, [true, false, false, true, false, false, false, true]);
    LiteralRead(B, START(), true, ll, dl, [] + [97], 11, 98, [true, false, false, true, false, false, true, false]);
    LiteralRead(B, START(), true, ll, dl, [] + [97] + [98], 19, 99, [true, false, false, true, false, false, true, true]);
    MatchDataCopies();
    MatchesTail(ll, dl);
  }

  lemma MatchesTail(ll: seq<nat>, dl: seq<nat>)
    requires ll == FixedLitLens() && dl == FixedDistLens(32)
    requires Reaches(ByteBits(MATCHES), START(), Config(Length(true, ll, dl), MatchData()[0..3], 27))
    ensures Reaches(ByteBits(MATCHES), START(), Config(Done, MatchData(), 64))
  {
    hide *;
    var B, data := ByteBits(MATCHES), MatchData();
    MatchesFirst();
    MatchesSecond();
    FixedAreComplete();
    FixedWordLength13();
    FixedWordDistance3();
    FixedWordLength3();
    FixedWordDistance9();
    FixedWordEnd();
    MatchCodes(ll, dl);
    MatchDataCopies();
    MatchRead(B, START(), true, ll, dl, data[0..3], 27, 266, [false, false, false, true, false, true, false], 13, 1, 14, 2, [false, false, false, true, false], 3, 0, 3, 40);
    MatchRead(B, START(), true, ll, dl, data[0..17], 40, 257, [false, false, false, false, false, false, true], 3, 0, 3, 6, [false, false, true, true, false], 9, 2, 11, 54);
    AlignIs(61);
    EndRead(B, START(), ll, dl, data[0..20], 54, [false, false, false, false, false, false, false]);
  }
}
