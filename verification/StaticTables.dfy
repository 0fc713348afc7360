/** tr_static_init of trees.c: the tables that turn match lengths and distances into
    symbols and extra bits, and the fixed trees. */
module StaticTables {
  import opened Machine
  import opened BitStrings
  import opened Canonical
  import opened CodeWords
  import opened DecodeTable
  import opened BitWriter
  import opened DeflateSpec
  import opened DeflateRuns
  import opened RunLengths

  const EXTRA_LBITS: seq<nat> := [0, 0, 0, 0, 0, 0, 0, 0, 1, 1, 1, 1, 2, 2, 2, 2, 3, 3, 3, 3, 4, 4, 4, 4, 5, 5, 5, 5, 0]
  const EXTRA_DBITS: seq<nat> := [0, 0, 0, 0, 1, 1, 2, 2, 3, 3, 4, 4, 5, 5, 6, 6, 7, 7, 8, 8, 9, 9,
                                  10, 10, 11, 11, 12, 12, 13, 13]
  const EXTRA_BLBITS: seq<nat> := [0, 0, 0, 0, 0, 0, 0, 0, 0, 0, 0, 0, 0, 0, 0, 0, 2, 3, 7]

  // ---- The symbol for a length or distance

  /** The last entry of the increasing table, up to index n, that is at most v. */
  function Largest(table: seq<nat>, n: nat, v: nat): (c: nat)
    requires n < |table|
    ensures c <= n
  {
    if n == 0 || table[n] <= v then n else Largest(table, n - 1, v)
  }

  ghost predicate Increasing(table: seq<nat>, n: nat)
    requires n < |table|
  {
    forall i :: 0 <= i < n ==> table[i] < table[i + 1]
  }

  lemma {:induction false} LargestIs(table: seq<nat>, n: nat, v: nat, c: nat)
    requires c <= n < |table| && Increasing(table, n) && table[c] <= v && (c < n ==> v < table[c + 1])
    ensures Largest(table, n, v) == c
  {
    if c < n {
      Later(table, c + 1, n);
      LargestIs(table, n - 1, v, c);
    }
  }

  lemma {:induction false} Later(table: seq<nat>, i: nat, j: nat)
    requires i <= j < |table| && Increasing(table, j)
    ensures table[i] <= table[j]
  {
    if i < j {
      Later(table, i, j - 1);
    }
  }

  lemma {:induction false} LargestBounds(table: seq<nat>, n: nat, v: nat)
    requires n < |table| && Increasing(table, n) && table[0] <= v
    ensures var c := Largest(table, n, v); table[c] <= v && (c < n ==> v < table[c + 1])
  {
    if n > 0 && table[n] > v {
      LargestBounds(table, n - 1, v);
    }
  }

  function LengthCode(len: nat): (c: nat)
    ensures c <= 28
  {
    Largest(LBASE, 28, len)
  }

  function DistanceCode(dist: nat): (c: nat)
    ensures c <= 29
  {
    Largest(DBASE, 29, dist)
  }

  lemma LengthTable()
    ensures |LBASE| == |LEXT| == 31 && |EXTRA_LBITS| == 29 && LBASE[0] == 3
    ensures Increasing(LBASE, 28)
    ensures forall c :: 0 <= c < 29 ==> LEXT[c] == EXTRA_LBITS[c] + 16
  {
  }

  lemma DistanceTable()
    ensures |DBASE| == |DEXT| == 32 && |EXTRA_DBITS| == 30 && DBASE[0] == 1
    ensures Increasing(DBASE, 29)
    ensures forall c :: 0 <= c < 30 ==> DEXT[c] == EXTRA_DBITS[c] + 16
  {
  }

  /** Each code's range ends where the next one's begins; the last but one length code
      also covers 258, which has a code of its own. */
  lemma LengthRanges(c: nat)
    requires c < 28
    ensures c < |LBASE| && c < |EXTRA_LBITS| && EXTRA_LBITS[c] <= 5
    ensures LBASE[c] + Pow2(EXTRA_LBITS[c]) == if c < 27 then LBASE[c + 1] else 259
    ensures LBASE[28] == 258 && EXTRA_LBITS[28] == 0
  {
    PowersUpTo5();
  }

  lemma DistanceRanges(c: nat)
    requires c < 30
    ensures c < |DBASE| && c < |EXTRA_DBITS| && EXTRA_DBITS[c] <= 13
    ensures DBASE[c] + Pow2(EXTRA_DBITS[c]) == if c < 29 then DBASE[c + 1] else 32769
    ensures c >= 16 ==> EXTRA_DBITS[c] >= 7
    ensures c < 16 ==> EXTRA_DBITS[c] <= 6
  {
    PowersUpTo5();
    PowersUpTo13();
  }

  /** A length is its code's base plus a number that fits the extra bits. */
  lemma LengthFits(len: nat)
    requires 3 <= len <= 258
    ensures var c := LengthCode(len);
            LBASE[c] <= len < LBASE[c] + Pow2(EXTRA_LBITS[c]) && LEXT[c] == EXTRA_LBITS[c] + 16
    ensures len == 258 <==> LengthCode(len) == 28
  {
    hide Largest;
    LengthTable();
    LargestBounds(LBASE, 28, len);
    var c := LengthCode(len);
    LengthRanges(if c < 28 then c else 0);
  }

  lemma DistanceFits(dist: nat)
    requires 1 <= dist <= 32768
    ensures var c := DistanceCode(dist);
            DBASE[c] <= dist < DBASE[c] + Pow2(EXTRA_DBITS[c]) && DEXT[c] == EXTRA_DBITS[c] + 16
  {
    hide Largest;
    DistanceTable();
    LargestBounds(DBASE, 29, dist);
    DistanceRanges(DistanceCode(dist));
  }

  /** What the loop that fills _length_code relies on. */
  lemma LengthInRange(c: nat, len: nat)
    requires c < 28 && LBASE[c] <= len < LBASE[c] + Pow2(EXTRA_LBITS[c])
    ensures len != 258 ==> LengthCode(len) == c
    ensures len == 258 ==> LengthCode(len) == 28
  {
    hide Largest, Pow2;
    LengthTable();
    LengthRanges(c);
    if len == 258 {
      LargestIs(LBASE, 28, len, 28);
    } else {
      LargestIs(LBASE, 28, len, c);
    }
  }

  lemma DistanceInRange(c: nat, dist: nat)
    requires c < 30 && DBASE[c] <= dist < DBASE[c] + Pow2(EXTRA_DBITS[c])
    ensures DistanceCode(dist) == c
  {
    hide Largest, Pow2;
    DistanceTable();
    DistanceRanges(c);
    LargestIs(DBASE, 29, dist, c);
  }

  // ---- The tables

  class Tables {
    const lengthCode: array<nat>
    const baseLength: array<nat>
    const distCode: array<nat>
    const baseDist: array<nat>
    const ltFc: array<nat>
    const ltDl: array<nat>
    const dtFc: array<nat>
    const dtDl: array<nat>

    constructor ()
      ensures Sized() && fresh(lengthCode) && fresh(baseLength) && fresh(distCode) && fresh(baseDist)
      ensures fresh(ltFc) && fresh(ltDl) && fresh(dtFc) && fresh(dtDl)
      ensures forall c :: 0 <= c < 29 ==> baseLength[c] == 0
    {
      lengthCode := new nat[256](i => 0);
      baseLength := new nat[29](i => 0);
      distCode := new nat[512](i => 0);
      baseDist := new nat[30](i => 0);
      ltFc := new nat[288](i => 0);
      ltDl := new nat[288](i => 0);
      dtFc := new nat[30](i => 0);
      dtDl := new nat[30](i => 0);
    }

    ghost predicate Sized() {
      lengthCode.Length == 256 && baseLength.Length == 29 && distCode.Length == 512 && baseDist.Length == 30 &&
      ltFc.Length == ltDl.Length == 288 && dtFc.Length == dtDl.Length == 30 &&
      lengthCode != baseLength && lengthCode != distCode && baseLength != distCode && baseDist != distCode &&
      lengthCode != baseDist && baseLength != baseDist && ltFc != ltDl && dtFc != dtDl &&
      {ltFc, ltDl} !! {lengthCode, baseLength, distCode, baseDist} &&
      {dtFc, dtDl} !! {lengthCode, baseLength, distCode, baseDist, ltFc, ltDl}
    }

    /** The tables hold what the encoder needs of them. */
    ghost predicate Valid()
      reads lengthCode, baseLength, distCode, baseDist, ltFc, ltDl, dtFc, dtDl
    {
      Sized() && LengthsSet(lengthCode[..], 256) && BasesSet(baseLength[..], 28) &&
      DistancesSet(distCode[..], 256) && FarSet(distCode[..], 256) && DistBasesSet(baseDist[..], 30) &&
      HoldsCodes(ltFc, ltDl, FixedLitLens()) && HoldsCodes(dtFc, dtDl, FixedDistLens(30))
    }
  }

  ghost predicate LengthsSet(a: seq<nat>, n: nat)
    requires n <= |a|
  {
    forall lc :: 0 <= lc < n ==> a[lc] == LengthCode(lc + 3)
  }

  ghost predicate BasesSet(a: seq<nat>, n: nat)
    requires n <= |a| && n <= |LBASE|
  {
    forall c :: 0 <= c < n ==> a[c] + 3 == LBASE[c]
  }

  ghost predicate DistancesSet(a: seq<nat>, n: nat)
    requires n <= |a|
  {
    forall d :: 0 <= d < n ==> a[d] == DistanceCode(d + 1)
  }

  /** From 256 on, distances are looked up by their top bits. */
  ghost predicate FarSet(a: seq<nat>, n: nat)
    requires 256 + n <= |a|
  {
    forall d: nat {:trigger DistanceCode(d + 1)} :: 256 <= d < 128 * n ==> a[256 + d / 128] == DistanceCode(d + 1)
  }

  ghost predicate DistBasesSet(a: seq<nat>, n: nat)
    requires n <= |a| && n <= |DBASE|
  {
    forall c :: 0 <= c < n ==> a[c] + 1 == DBASE[c]
  }

  /** _length_code up to, but not including, the correction for 258. */
  ghost predicate LengthsNearly(a: seq<nat>, n: nat)
    requires n <= |a|
  {
    forall lc :: 0 <= lc < n && lc != 255 ==> a[lc] == LengthCode(lc + 3)
  }

  lemma LengthEntry(a: seq<nat>, c: nat, n: nat)
    requires n < |a| && LengthsNearly(a, n) && c < 28 && LBASE[c] <= n + 3 < LBASE[c] + Pow2(EXTRA_LBITS[c])
    ensures LengthsNearly(a[n := c], n + 1)
  {
    hide LengthCode;
    LengthInRange(c, n + 3);
  }

  lemma LengthsDone(a: seq<nat>)
    requires |a| == 256 && LengthsNearly(a, 256)
    ensures LengthsSet(a[255 := 28], 256)
  {
    LengthRanges(27);
    LengthInRange(27, 258);
  }

  lemma BaseEntry(a: seq<nat>, c: nat, v: nat)
    requires c < |a| && c < 31 && BasesSet(a, c) && v + 3 == LBASE[c]
    ensures BasesSet(a[c := v], c + 1)
  {
  }

  /** tr_static_init, lengths. */
  method InitLengths(t: Tables)
    requires t.Sized()
    modifies t.lengthCode, t.baseLength
    ensures LengthsSet(t.lengthCode[..], 256) && BasesSet(t.baseLength[..], 28)
  {
    hide *;
    TablesSized(t);
    LengthTable();
    NothingSet(t.lengthCode[..], t.baseLength[..]);
    var length := 0;
    for code := 0 to 28
      invariant length <= 256 && length + 3 == if code < 28 then LBASE[code] else 259
      invariant LengthsNearly(t.lengthCode[..], length) && BasesSet(t.baseLength[..], code)
    {
      LengthRanges(code);
      LengthAtMost(code);
      BaseEntry(t.baseLength[..], code, length);
      t.baseLength[code] := length;
      ghost var bases := t.baseLength[..];
      ghost var start := length;
      for n := 0 to Pow2(EXTRA_LBITS[code])
        invariant length == start + n <= 256 && LengthsNearly(t.lengthCode[..], length)
        invariant t.baseLength[..] == bases
      {
        LengthEntry(t.lengthCode[..], code, length);
        ghost var a := t.lengthCode[..];
        t.lengthCode[length] := code;
        assert t.lengthCode[..] == a[length := code];
        length := length + 1;
      }
    }
    LengthsDone(t.lengthCode[..]);
    t.lengthCode[length - 1] := 28;
  }

  lemma NothingSet(a: seq<nat>, b: seq<nat>)
    ensures LengthsNearly(a, 0) && BasesSet(b, 0) && DistancesSet(a, 0) && DistBasesSet(b, 0)
  {
  }

  lemma TablesSized(t: Tables)
    requires t.Sized()
    ensures t.lengthCode.Length == 256 && t.baseLength.Length == 29 && t.distCode.Length == 512 && t.baseDist.Length == 30
    ensures t.ltFc.Length == t.ltDl.Length == 288 && t.dtFc.Length == t.dtDl.Length == 30
    ensures t.lengthCode != t.baseLength && t.lengthCode != t.distCode && t.baseLength != t.distCode
    ensures t.baseDist != t.distCode && t.ltFc != t.ltDl && t.dtFc != t.dtDl
    ensures t.lengthCode != t.baseDist && t.baseLength != t.baseDist
  {
  }

  lemma DistanceEntry(a: seq<nat>, c: nat, n: nat)
    requires n < |a| && DistancesSet(a, n) && c < 30 && DBASE[c] <= n + 1 < DBASE[c] + Pow2(EXTRA_DBITS[c])
    ensures DistancesSet(a[n := c], n + 1)
  {
    hide DistanceCode;
    DistanceInRange(c, n + 1);
  }

  lemma DistBaseEntry(a: seq<nat>, c: nat, v: nat)
    requires c < |a| && c < 32 && DistBasesSet(a, c) && v + 1 == DBASE[c]
    ensures DistBasesSet(a[c := v], c + 1)
  {
  }

  /** One entry of the second half stands for 128 distances. */
  lemma FarEntry(a: seq<nat>, c: nat, n: nat)
    requires |a| == 512 && n < 256 && 2 <= n && DistancesSet(a, 256) && FarSet(a, n)
    requires 16 <= c < 30 && DBASE[c] <= 128 * n + 1 && 128 * n + 128 < DBASE[c] + Pow2(EXTRA_DBITS[c])
    ensures DistancesSet(a[256 + n := c], 256) && FarSet(a[256 + n := c], n + 1)
  {
    hide DistanceCode;
    forall d: nat | 256 <= d < 128 * (n + 1)
      ensures a[256 + n := c][256 + d / 128] == DistanceCode(d + 1)
    {
      if d >= 128 * n {
        DistanceInRange(c, d + 1);
      }
    }
  }

  lemma FarStart(a: seq<nat>)
    requires |a| == 512
    ensures FarSet(a, 2)
  {
  }

  lemma FarRange(c: nat)
    requires 16 <= c < 30
    ensures c < |EXTRA_DBITS| && EXTRA_DBITS[c] >= 7 && 128 * Pow2(EXTRA_DBITS[c] - 7) == Pow2(EXTRA_DBITS[c])
  {
    DistanceRanges(c);
    Pow2Add(7, EXTRA_DBITS[c] - 7);
    PowersUpTo13();
  }

  /** tr_static_init, distances. */
  method InitDistances(t: Tables)
    requires t.Sized()
    modifies t.distCode, t.baseDist
    ensures DistancesSet(t.distCode[..], 256) && FarSet(t.distCode[..], 256) && DistBasesSet(t.baseDist[..], 30)
  {
    hide *;
    TablesSized(t);
    DistanceTable();
    NothingSet(t.distCode[..], t.baseDist[..]);
    DistanceAt16();
    var dist := 0;
    for code := 0 to 16
      invariant dist <= 256 && dist + 1 == DBASE[code]
      invariant DistancesSet(t.distCode[..], dist) && DistBasesSet(t.baseDist[..], code)
    {
      DistanceRanges(code);
      DistanceBelow16(code);
      DistBaseEntry(t.baseDist[..], code, dist);
      t.baseDist[code] := dist;
      ghost var bases := t.baseDist[..];
      ghost var start := dist;
      for n := 0 to Pow2(EXTRA_DBITS[code])
        invariant dist == start + n <= 256 && DistancesSet(t.distCode[..], dist)
        invariant t.baseDist[..] == bases
      {
        DistanceEntry(t.distCode[..], code, dist);
        ghost var a := t.distCode[..];
        t.distCode[dist] := code;
        assert t.distCode[..] == a[dist := code];
        dist := dist + 1;
      }
    }
    dist := dist / 128;
    FarStart(t.distCode[..]);
    for code := 16 to 30
      invariant 2 <= dist <= 256 && 128 * dist + 1 == if code < 30 then DBASE[code] else 32769
      invariant DistancesSet(t.distCode[..], 256) && FarSet(t.distCode[..], dist) && DistBasesSet(t.baseDist[..], code)
    {
      DistanceRanges(code);
      FarRange(code);
      DistanceAtMost(code);
      DistBaseEntry(t.baseDist[..], code, 128 * dist);
      t.baseDist[code] := 128 * dist;
      ghost var bases := t.baseDist[..];
      ghost var start := dist;
      for n := 0 to Pow2(EXTRA_DBITS[code] - 7)
        invariant dist == start + n <= 256 && DistancesSet(t.distCode[..], 256) && FarSet(t.distCode[..], dist)
        invariant t.baseDist[..] == bases
      {
        FarEntry(t.distCode[..], code, dist);
        ghost var a := t.distCode[..];
        t.distCode[256 + dist] := code;
        assert t.distCode[..] == a[256 + dist := code];
        dist := dist + 1;
      }
    }
  }

  lemma LengthAtMost(c: nat)
    requires c < 28
    ensures c < 27 ==> LBASE[c + 1] <= 227
    ensures |LBASE| == 31
  {
  }

  lemma DistanceAt16()
    ensures |DBASE| == 32 && DBASE[0] == 1 && DBASE[16] == 257
  {
  }

  lemma DistanceBelow16(c: nat)
    requires c < 16
    ensures DBASE[c + 1] <= 257
  {
  }

  lemma DistanceAtMost(c: nat)
    requires c < 30
    ensures c < 29 ==> DBASE[c + 1] <= 24577
  {
  }

  // ---- The fixed trees

  lemma FixedLensAt(n: nat)
    requires n < 288
    ensures FixedLitLens()[n] == if n < 144 then 8 else if n < 256 then 9 else if n < 280 then 7 else 8
  {
  }

  lemma NoneCounted(lens: seq<nat>)
    ensures forall l :: Count(lens, 0, l) == 0
  {
  }

  lemma OneCounted(lens: seq<nat>, n: nat, v: nat)
    requires n < |lens| && lens[n] == v
    ensures forall l :: Count(lens, n + 1, l) == Count(lens, n, l) + if l == v then 1 else 0
  {
  }

  /** A stretch of equal lengths. */
  method FillLens(dl: array<nat>, blCount: array<nat>, from: nat, to: nat, len: nat)
    requires dl != blCount && dl.Length == 288 && blCount.Length == MAXBITS + 1 && from <= to <= 288 && len <= MAXBITS
    requires forall n :: from <= n < to ==> FixedLitLens()[n] == len
    requires forall i :: 0 <= i < from ==> dl[i] == FixedLitLens()[i]
    requires forall l :: 0 <= l <= MAXBITS ==> blCount[l] == Count(FixedLitLens(), from, l)
    modifies dl, blCount
    ensures forall i :: 0 <= i < to ==> dl[i] == FixedLitLens()[i]
    ensures forall l :: 0 <= l <= MAXBITS ==> blCount[l] == Count(FixedLitLens(), to, l)
  {
    hide *;
    var n := from;
    while n < to
      invariant from <= n <= to
      invariant forall i :: 0 <= i < n ==> dl[i] == FixedLitLens()[i]
      invariant forall l :: 0 <= l <= MAXBITS ==> blCount[l] == Count(FixedLitLens(), n, l)
    {
      OneCounted(FixedLitLens(), n, len);
      dl[n] := len;
      n := n + 1;
      blCount[len] := blCount[len] + 1;
    }
  }

  lemma FixedCounts(dl: seq<nat>)
    requires |dl| == 288 && forall i :: 0 <= i < 288 ==> dl[i] == FixedLitLens()[i]
    ensures dl == FixedLitLens() && Fits(FixedLitLens()) && Count(FixedLitLens(), 288, 0) == 0
  {
    hide Taken, Kraft;
    FixedCodesGood();
    NoZeros(288);
  }

  lemma {:induction false} NoZeros(n: nat)
    requires n <= 288
    ensures Count(FixedLitLens(), n, 0) == 0
    decreases n
  {
    if n > 0 {
      NoZeros(n - 1);
    }
  }

  lemma FixedHeld(fc: array<nat>, dl: array<nat>)
    requires fc.Length == dl.Length == 288 && dl[..] == FixedLitLens()
    requires forall n :: 0 <= n < 288 && dl[n] != 0 ==> fc[n] == Val(CodeWord(FixedLitLens(), n))
    ensures HoldsCodes(fc, dl, FixedLitLens())
  {
    hide CodeWord, Val;
    forall s | 0 <= s < 288
      ensures dl[s] == FixedLitLens()[s]
    {
      assert dl[..][s] == dl[s];
    }
  }

  /** tr_static_init, the static literal tree. */
  method InitLiteralTree(t: Tables)
    requires t.Sized()
    modifies t.ltFc, t.ltDl
    ensures HoldsCodes(t.ltFc, t.ltDl, FixedLitLens())
  {
    hide *;
    TablesSized(t);
    var blCount := new nat[MAXBITS + 1](i => 0);
    NoneCounted(FixedLitLens());
    forall n: nat | n < 288
      ensures FixedLitLens()[n] == if n < 144 then 8 else if n < 256 then 9 else if n < 280 then 7 else 8
    {
      FixedLensAt(n);
    }
    MaxBits();
    FillLens(t.ltDl, blCount, 0, 144, 8);
    FillLens(t.ltDl, blCount, 144, 256, 9);
    FillLens(t.ltDl, blCount, 256, 280, 7);
    FillLens(t.ltDl, blCount, 280, 288, 8);
    FixedCounts(t.ltDl[..]);
    assert t.ltDl[..288] == t.ltDl[..];
    GenCodes(t.ltFc, t.ltDl, 288, blCount);
    FixedHeld(t.ltFc, t.ltDl);
  }

  /** Equal lengths: the codes count up. */
  lemma {:induction false} EqualLengthCodes(n: nat, m: nat, s: nat)
    requires s <= m <= n
    ensures Taken(FixedDistLens(n), m, 5, s) == s
    decreases m
  {
    if m > s {
      EqualLengthCodes(n, m - 1, s);
    } else if m > 0 {
      EqualLengthCodes(n, m - 1, s - 1);
      TakenNext(FixedDistLens(n), m - 1, 5, s - 1);
    }
  }

  lemma FixedDistanceWord(n: nat, s: nat)
    requires s < n
    ensures CodeWord(FixedDistLens(n), s) == Reverse(Bits(s, 5))
  {
    hide Taken, Bits, Reverse;
    EqualLengthCodes(n, n, s);
  }

  /** tr_static_init, the static distance tree. */
  method InitDistanceTree(t: Tables)
    requires t.Sized()
    modifies t.dtFc, t.dtDl
    ensures HoldsCodes(t.dtFc, t.dtDl, FixedDistLens(30))
  {
    hide CodeWord, Val, Taken, Reverse, Bits;
    for n := 0 to 30
      invariant forall i :: 0 <= i < n ==> t.dtDl[i] == 5 && t.dtFc[i] == Val(Reverse(Bits(i, 5)))
    {
      t.dtDl[n] := 5;
      t.dtFc[n] := BiReverse(n, 5);
    }
    forall s | 0 <= s < 30
      ensures t.dtFc[s] == Val(CodeWord(FixedDistLens(30), s))
    {
      FixedDistanceWord(30, s);
    }
  }

  /** tr_static_init */
  method TrStaticInit() returns (t: Tables)
    ensures t.Valid() && fresh(t)
    ensures fresh(t.lengthCode) && fresh(t.baseLength) && fresh(t.distCode) && fresh(t.baseDist)
    ensures fresh(t.ltFc) && fresh(t.ltDl) && fresh(t.dtFc) && fresh(t.dtDl)
  {
    hide LengthsSet, BasesSet, DistancesSet, FarSet, DistBasesSet, HoldsCodes;
    t := new Tables();
    InitLengths(t);
    InitDistances(t);
    InitLiteralTree(t);
    InitDistanceTree(t);
  }
}
