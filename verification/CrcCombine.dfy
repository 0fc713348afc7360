/** crc32_combine_: the CRC of a concatenation, from the CRCs of its parts, by
    repeatedly squaring the GF(2) matrix that feeds one zero bit. */
module CrcCombine {
  import opened Machine
  import opened Crc32

  /** The vector with only bit i set. */
  function Unit(i: nat): Word
    requires i < 32
  {
    Zeros(32)[i := true]
  }

  /** Row i of a matrix is its image of Unit(i); this one shifts n times. */
  ghost predicate IsShifts(m: seq<Word>, n: nat) {
    |m| == 32 && forall i :: 0 <= i < 32 ==> m[i] == Shifts(Unit(i), n)
  }

  lemma {:induction false} ShiftsOfZero(n: nat)
    ensures Shifts(Zeros(32), n) == Zeros(32)
  {
    if n > 0 {
      assert Shift(Zeros(32)) == Zeros(32);
      ShiftsOfZero(n - 1);
    }
  }

  /** The low k bits of v. */
  function Prefix(v: Word, k: nat): Word
    requires k <= 32
  {
    v[..k] + Zeros(32 - k)
  }

  lemma AddBit(v: Word, k: nat, n: nat)
    requires k < 32
    ensures Shifts(Prefix(v, k + 1), n)
         == if v[k] then Xor(Shifts(Prefix(v, k), n), Shifts(Unit(k), n)) else Shifts(Prefix(v, k), n)
  {
    var low := Prefix(v, k);
    if v[k] {
      assert Prefix(v, k + 1) == Xor(low, Unit(k));
      ShiftsLinear(low, Unit(k), n);
    } else {
      assert Prefix(v, k + 1) == low;
    }
  }

  lemma DropBits(v: Word, k: nat)
    requires k <= 32
    ensures k < 32 ==> ShiftRight(ShiftRight(v, k), 1) == ShiftRight(v, k + 1) && ShiftRight(v, k)[0] == v[k]
    ensures k == 32 ==> ShiftRight(v, k) == Zeros(32)
  {
  }

  lemma TimesStep(m: seq<Word>, v: Word, k: nat, n: nat)
    requires k <= 32 && IsShifts(m, n) && ShiftRight(v, k) != Zeros(32)
    ensures k < 32 && ShiftRight(ShiftRight(v, k), 1) == ShiftRight(v, k + 1)
    ensures var sum := Shifts(Prefix(v, k), n);
            Shifts(Prefix(v, k + 1), n) == if ShiftRight(v, k)[0] then Xor(sum, m[k]) else sum
  {
    DropBits(v, k);
    AddBit(v, k, n);
  }

  lemma NothingLeft(v: Word, k: nat)
    requires k <= 32 && ShiftRight(v, k) == Zeros(32)
    ensures Prefix(v, k) == v
  {
    assert forall i :: k <= i < 32 ==> v[i] == ShiftRight(v, k)[i - k];
  }

  /** gf2_matrix_times */
  method MatrixTimes(mat: array<Word>, vec: Word, ghost n: nat) returns (sum: Word)
    requires mat.Length == 32 && IsShifts(mat[..], n)
    ensures sum == Shifts(vec, n)
  {
    sum := Zeros(32);
    ShiftsOfZero(n);
    var v, k := vec, 0;
    assert Prefix(vec, 0) == Zeros(32);
    assert ShiftRight(vec, 0) == vec;
    while v != Zeros(32)
      invariant 0 <= k <= 32 && v == ShiftRight(vec, k)
      invariant sum == Shifts(Prefix(vec, k), n)
      decreases 32 - k
    {
      TimesStep(mat[..], vec, k, n);
      if v[0] {
        sum := Xor(sum, mat[k]);
      }
      v, k := ShiftRight(v, 1), k + 1;
    }
    NothingLeft(vec, k);
  }

  /** gf2_matrix_square */
  method MatrixSquare(square: array<Word>, mat: array<Word>, ghost n: nat)
    requires square != mat && square.Length == 32 && mat.Length == 32 && IsShifts(mat[..], n)
    modifies square
    ensures IsShifts(square[..], 2 * n)
  {
    for i := 0 to 32
      invariant mat[..] == old(mat[..])
      invariant forall j :: 0 <= j < i ==> square[j] == Shifts(Unit(j), 2 * n)
    {
      assert mat[i] == mat[..][i];
      square[i] := MatrixTimes(mat, mat[i], n);
      ShiftsAdd(Unit(i), n, n);
    }
  }

  /** The matrix for one zero bit. */
  method OneZeroBit(odd: array<Word>)
    requires odd.Length == 32
    modifies odd
    ensures IsShifts(odd[..], 1)
  {
    odd[0] := Poly();
    assert Shift(Unit(0)) == Poly() by {
      assert ShiftRight(Unit(0), 1) == Zeros(32);
      assert Xor(Poly(), Zeros(32)) == Poly();
    }
    var row := Unit(0);
    for n := 1 to 32
      invariant row == if n < 32 then Unit(n - 1) else row
      invariant forall j :: 0 <= j < n ==> odd[j] == Shift(Unit(j))
    {
      odd[n] := row;
      assert Shift(Unit(n)) == Unit(n - 1);
      assert n < 31 ==> ShiftLeft(row, 1) == Unit(n);
      row := ShiftLeft(row, 1);
    }
    assert forall j :: 0 <= j < 32 ==> Shifts(Unit(j), 1) == Shift(Unit(j));
  }

  /** n times w */
  function Scaled(w: nat, n: nat): nat
    decreases n, w
  {
    if n == 0 then 0 else w + Scaled(w, n - 1)
  }

  lemma {:induction false} HalveCount(w: nat, n: nat)
    ensures Scaled(w, n) == (if n % 2 == 1 then w else 0) + Scaled(2 * w, n / 2)
    decreases n
  {
    if n >= 2 {
      HalveCount(w, n - 2);
      assert n / 2 == (n - 2) / 2 + 1;
    }
  }

  lemma {:induction false} ScaledEight(n: nat)
    ensures Scaled(8, n) == 8 * n
  {
    if n > 0 {
      ScaledEight(n - 1);
    }
  }

  /** One bit of len2: square the operator, and apply it if the bit is set. */
  method CombineStep(square: array<Word>, mat: array<Word>, crc: Word, len: nat, ghost w: nat) returns (crc': Word)
    requires square != mat && square.Length == 32 && mat.Length == 32 && IsShifts(mat[..], w)
    modifies square
    ensures IsShifts(square[..], 2 * w)
    ensures Shifts(crc', Scaled(4 * w, len / 2)) == Shifts(crc, Scaled(2 * w, len))
  {
    MatrixSquare(square, mat, w);
    HalveCount(2 * w, len);
    if len % 2 == 1 {
      crc' := MatrixTimes(square, crc, 2 * w);
      ShiftsAdd(crc, 2 * w, Scaled(4 * w, len / 2));
    } else {
      crc' := crc;
    }
  }

  /** The loop of crc32_combine_, with even and odd swapped every round. */
  method ApplyZeros(even: array<Word>, odd: array<Word>, crc1: Word, len2: nat) returns (crc: Word)
    requires len2 > 0 && even != odd && even.Length == 32 && odd.Length == 32 && IsShifts(odd[..], 4)
    modifies even, odd
    ensures crc == Shifts(crc1, Scaled(8, len2))
  {
    var len := len2;
    crc := crc1;
    ghost var w: nat := 4;
    while true
      invariant len > 0
      invariant IsShifts(odd[..], w)
      invariant Shifts(crc, Scaled(2 * w, len)) == Shifts(crc1, Scaled(8, len2))
      decreases len
    {
      crc := CombineStep(even, odd, crc, len, w);
      w, len := 2 * w, len / 2;
      if len == 0 {
        break;
      }
      crc := CombineStep(odd, even, crc, len, w);
      w, len := 2 * w, len / 2;
      if len == 0 {
        break;
      }
    }
  }

  /** crc32_combine_ */
  method Combine(crc1: Word, crc2: Word, len2: int) returns (r: Word)
    ensures len2 <= 0 ==> r == crc1
    ensures len2 > 0 ==> r == Xor(Shifts(crc1, 8 * len2), crc2)
  {
    if len2 <= 0 {
      return crc1;
    }
    var even, odd := new Word[32](i => Zeros(32)), new Word[32](i => Zeros(32));
    OneZeroBit(odd);
    MatrixSquare(even, odd, 1);
    MatrixSquare(odd, even, 2);
    ScaledEight(len2);
    var crc := ApplyZeros(even, odd, crc1, len2);
    r := Xor(crc, crc2);
  }

  lemma XorSwap(x: Word, y: Word, z: Word)
    ensures Xor(Xor(x, y), z) == Xor(Xor(x, z), y)
  {
  }

  /** One more byte, fed to two registers that differ by d. */
  lemma AffineByte(x: Word, d: Word, b: Word, n: nat)
    ensures Shifts(Xor(Xor(x, d), b), n) == Xor(Shifts(Xor(x, b), n), Shifts(d, n))
  {
    XorSwap(x, d, b);
    ShiftsLinear(Xor(x, b), d, n);
  }

  lemma AffineStep(c: Word, d: Word, front: seq<byte>, b: byte, n: nat)
    requires Feed(Xor(c, d), front) == Xor(Feed(c, front), Shifts(d, n))
    ensures Feed(Xor(c, d), front + [b]) == Xor(Feed(c, front + [b]), Shifts(d, n + 8))
  {
    FeedByte(Xor(c, d), front, b);
    FeedByte(c, front, b);
    AffineByte(Feed(c, front), Shifts(d, n), ByteWord(b), 8);
    ShiftsAdd(d, n, 8);
  }

  /** Two registers that differ by d still differ by d, shifted, after the same bytes. */
  lemma {:induction false} FeedAffine(c: Word, d: Word, data: seq<byte>, n: nat)
    requires n == 8 * |data|
    ensures Feed(Xor(c, d), data) == Xor(Feed(c, data), Shifts(d, n))
    decreases n
  {
    if data != [] {
      var front, b := data[..|data| - 1], data[|data| - 1];
      assert data == front + [b];
      FeedAffine(c, d, front, n - 8);
      AffineStep(c, d, front, b, n - 8);
    }
  }

  lemma NotIsXor(x: Word, y: Word)
    ensures x == Xor(Not(Zeros(32)), Not(x))
    ensures Xor(x, Not(y)) == Not(Xor(y, x))
  {
  }

  /** Combining CRCs is the CRC of the concatenation: for all strings, and whatever
      value the first CRC was started from. */
  lemma CombineIsConcatenation(start: Word, a: seq<byte>, b: seq<byte>)
    ensures Xor(Shifts(Crc(start, a), 8 * |b|), Crc(Zeros(32), b)) == Crc(start, a + b)
  {
    var x := Feed(Not(start), a);
    FeedAppend(Not(start), a, b);
    NotIsXor(x, x);
    FeedAffine(Not(Zeros(32)), Not(x), b, 8 * |b|);
    NotIsXor(Shifts(Not(x), 8 * |b|), Feed(Not(Zeros(32)), b));
  }

  /** The library's promise for crc32_combine, end to end. */
  method CombineCrcs(a: seq<byte>, b: seq<byte>) returns (r: Word)
    ensures r == Crc(Zeros(32), a + b)
  {
    var t := MakeCrcTable();
    var crc1 := Crc32Z(t, Zeros(32), Some(a), 0, true);
    var crc2 := Crc32Z(t, Zeros(32), Some(b), 0, true);
    r := Combine(crc1, crc2, |b|);
    CombineIsConcatenation(Zeros(32), a, b);
    if b == [] {
      assert a + b == a;
    }
  }
}
