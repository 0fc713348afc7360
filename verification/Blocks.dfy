/** The block writer of trees.c: collecting literals and matches, and writing them out. */
module Blocks {
  import opened Machine
  import opened BitStrings
  import opened Canonical
  import opened DecodeTable
  import opened BitLengths
  import opened TreeBuilder
  import opened BitWriter
  import opened DeflateSpec
  import opened RunLengths
  import opened StaticTables
  import opened BlockFormat
  import opened BlockHeaders
  import opened BlockSizes

  /** The token that an entry of d_buf and l_buf stands for. */
  function TokenOf(dist: nat, lc: nat): Token {
    if dist == 0 then Lit(ToByte(lc)) else Copy(lc + 3, dist)
  }

  function TokensOf(d: seq<nat>, l: seq<nat>, n: nat): (r: seq<Token>)
    requires n <= |d| && n <= |l|
    ensures |r| == n
  {
    seq(n, i requires 0 <= i < n => TokenOf(d[i], l[i]))
  }

  ghost predicate ValidBuffers(d: seq<nat>, l: seq<nat>, n: nat)
    requires n <= |d| && n <= |l|
  {
    forall i :: 0 <= i < n ==> d[i] <= 32768 && l[i] < 256
  }

  /** All zero but for a 1 in one place. */
  ghost predicate Starting(f: seq<nat>, one: nat) {
    forall i :: 0 <= i < |f| ==> f[i] == if i == one then 1 else 0
  }

  /** Two new arrays, the first with a 1 in one place. */
  method NewPair(size: nat, one: nat, ghost taken: set<array<nat>>) returns (a: array<nat>, b: array<nat>)
    ensures fresh(a) && fresh(b) && a != b && {a, b} !! taken && a.Length == b.Length == size && Starting(a[..], one)
  {
    a := new nat[size](i => if i == one then 1 else 0);
    b := new nat[size](i => 0);
  }

  lemma TablesAre(t: Tables)
    requires t.Valid()
    ensures t.Sized()
    ensures {t.lengthCode, t.baseLength, t.distCode, t.baseDist} !! {t.ltFc, t.ltDl} !! {t.dtFc, t.dtDl}
  {
  }

  lemma StateIs(s: State)
    requires s.Valid() && forall x :: 0 <= x < s.depth.Length ==> s.depth[x] == 0
    ensures Bytes(s.depth[..])
  {
  }

  lemma Chained<T>(a: set<T>, b: set<T>, c: set<T>, d: set<T>, e: set<T>, f: set<T>, g: set<T>, h: set<T>)
    requires f !! g !! h && a !! (f + g + h) && b !! (f + g + h + a) && c !! (f + g + h + a + b)
    requires d !! (f + g + h + a + b + c) && e !! (f + g + h + a + b + c + d)
    ensures a !! b !! c !! d !! e !! f !! g !! h
  {
  }

  /** The block-building part of the compression state. */
  class Block {
    const w: Writer
    const s: State
    const t: Tables
    const lFc: array<nat>
    const lDl: array<nat>
    const dFc: array<nat>
    const dDl: array<nat>
    const bFc: array<nat>
    const bDl: array<nat>
    const dBuf: array<nat>
    const lBuf: array<nat>
    var lastLit: nat
    var matches: nat

    constructor (w: Writer, t: Tables, litBufsize: nat)
      requires w.Valid() && t.Valid() && 1 < litBufsize <= 32768
      ensures this.w == w && this.t == t && dBuf.Length == litBufsize && Valid() && Tokens() == []
      ensures fresh(s) && w.Stream() == old(w.Stream())
    {
      hide *;
      this.w, this.t := w, t;
      TablesAre(t);
      ghost var lens, lt, dt := {t.lengthCode, t.baseLength, t.distCode, t.baseDist}, {t.ltFc, t.ltDl}, {t.dtFc, t.dtDl};
      var state := new State();
      StateIs(state);
      ghost var work := {state.heap, state.depth, state.blCount};
      s := state;
      var l0, l1 := NewPair(573, 256, lens + lt + dt + work);
      var d0, d1 := NewPair(61, 61, lens + lt + dt + work + {l0, l1});
      var b0, b1 := NewPair(39, 39, lens + lt + dt + work + {l0, l1} + {d0, d1});
      var dist, len := NewPair(litBufsize, litBufsize, lens + lt + dt + work + {l0, l1} + {d0, d1} + {b0, b1});
      lFc, lDl, dFc, dDl, bFc, bDl, dBuf, lBuf := l0, l1, d0, d1, b0, b1, dist, len;
      lastLit, matches := 0, 0;
      new;
      Chained(work, {l0, l1}, {d0, d1}, {b0, b1}, {dist, len}, lens, lt, dt);
      IsSized();
      Starts();
    }

    lemma IsSized()
      requires s.Valid() && t.Sized()
      requires lFc.Length == lDl.Length == 573 && dFc.Length == dDl.Length == 61 && bFc.Length == bDl.Length == 39
      requires 1 < dBuf.Length == lBuf.Length <= 32768
      requires {s.heap, s.depth, s.blCount} !! {lFc, lDl} !! {dFc, dDl} !! {bFc, bDl} !! {dBuf, lBuf} !!
        {t.lengthCode, t.baseLength, t.distCode, t.baseDist} !! {t.ltFc, t.ltDl} !! {t.dtFc, t.dtDl}
      requires lFc != lDl && dFc != dDl && bFc != bDl && dBuf != lBuf
      ensures Sized()
    {
    }

    lemma Starts()
      requires Sized() && w.Valid() && t.Valid() && Bytes(s.depth[..]) && s.optLen == s.staticLen == 0 && lastLit == 0
      requires Starting(lFc[..], 256) && Starting(dFc[..], 61) && Starting(bFc[..], 39)
      ensures Valid() && Tokens() == []
    {
      assert lFc[..286] == LitFreqs([]);
      assert dFc[..30] == DistFreqs([]);
    }

    ghost predicate Sized() {
      s.Valid() && t.Sized() &&
      lFc.Length == lDl.Length == 573 && dFc.Length == dDl.Length == 61 && bFc.Length == bDl.Length == 39 &&
      1 < dBuf.Length == lBuf.Length <= 32768 &&
      {s.heap, s.depth, s.blCount} !! {lFc, lDl} !! {dFc, dDl} !! {bFc, bDl} !! {dBuf, lBuf} !!
        {t.lengthCode, t.baseLength, t.distCode, t.baseDist} !! {t.ltFc, t.ltDl} !! {t.dtFc, t.dtDl} &&
      lFc != lDl && dFc != dDl && bFc != bDl && dBuf != lBuf
    }

    /** The tokens collected for the current block. */
    ghost function Tokens(): seq<Token>
      reads this, dBuf, lBuf
      requires lastLit <= dBuf.Length && lastLit <= lBuf.Length
    {
      TokensOf(dBuf[..], lBuf[..], lastLit)
    }

    /** Valid but for the frequencies, which the trees have taken the place of. */
    ghost predicate Valid0()
      reads this, w, dBuf, lBuf
      reads t.lengthCode, t.baseLength, t.distCode, t.baseDist, t.ltFc, t.ltDl, t.dtFc, t.dtDl
    {
      Sized() && w.Valid() && t.Valid() && lastLit < dBuf.Length && ValidBuffers(dBuf[..], lBuf[..], lastLit)
    }

    lemma Parts()
      requires Valid0()
      ensures Sized() && w.Valid() && t.Valid() && lastLit < dBuf.Length == lBuf.Length
      ensures ValidBuffers(dBuf[..], lBuf[..], lastLit)
    {
    }

    lemma IsValid0()
      requires Sized() && w.Valid() && t.Valid() && lastLit < dBuf.Length == lBuf.Length
      requires ValidBuffers(dBuf[..], lBuf[..], lastLit)
      ensures Valid0()
    {
    }

    /** A block is being collected; the frequencies are those of its tokens. */
    ghost predicate Valid()
      reads this, w, s, s.depth, lFc, dFc, bFc, dBuf, lBuf
      reads t.lengthCode, t.baseLength, t.distCode, t.baseDist, t.ltFc, t.ltDl, t.dtFc, t.dtDl
    {
      Sized() && w.Valid() && t.Valid() && Bytes(s.depth[..]) && s.optLen == s.staticLen == 0 &&
      lastLit < dBuf.Length && ValidBuffers(dBuf[..], lBuf[..], lastLit) &&
      lFc[..286] == LitFreqs(Tokens()) && dFc[..30] == DistFreqs(Tokens()) &&
      forall i :: 0 <= i < 19 ==> bFc[i] == 0
    }
  }

  // ---- Looking up symbols

  /** d_code */
  function DCode(t: Tables, dist: nat): (c: nat)
    requires t.Sized() && dist < 32768
    reads t.distCode
  {
    if dist < 256 then t.distCode[dist] else t.distCode[256 + dist / 128]
  }

  lemma DCodeIs(t: Tables, dist: nat)
    requires t.Valid() && dist < 32768
    ensures DCode(t, dist) == DistanceCode(dist + 1)
  {
    hide DistanceCode, HoldsCodes, LengthsSet, BasesSet, DistBasesSet;
    if dist >= 256 {
      assert t.distCode[..][256 + dist / 128] == DistanceCode(dist + 1);
    }
  }

  lemma LengthLookup(t: Tables, lc: nat)
    requires t.Valid() && lc < 256
    ensures t.Sized() && t.lengthCode[lc] == LengthCode(lc + 3) <= 28
    ensures t.lengthCode[lc] < 28 ==> t.baseLength[t.lengthCode[lc]] + 3 == LBASE[t.lengthCode[lc]]
    ensures t.lengthCode[lc] == 28 ==> EXTRA_LBITS[28] == 0
  {
    hide LengthCode, HoldsCodes, FarSet, DistancesSet, DistBasesSet;
    LengthRanges(0);
    assert t.lengthCode[..][lc] == t.lengthCode[lc];
    if t.lengthCode[lc] < 28 {
      assert t.baseLength[..][t.lengthCode[lc]] == t.baseLength[t.lengthCode[lc]];
    }
  }

  lemma DistBaseLookup(t: Tables, c: nat)
    requires t.Valid() && c < 30
    ensures t.Sized() && t.baseDist[c] + 1 == DBASE[c]
  {
    hide HoldsCodes, FarSet, DistancesSet, LengthsSet, BasesSet;
    assert t.baseDist[..][c] == t.baseDist[c];
  }

  // ---- Collecting

  lemma TokensGrow(d: seq<nat>, l: seq<nat>, d': seq<nat>, l': seq<nat>, n: nat, dist: nat, lc: nat)
    requires n < |d| == |d'| && n < |l| == |l'| && d' == d[n := dist] && l' == l[n := lc]
    ensures TokensOf(d', l', n + 1) == TokensOf(d, l, n) + [TokenOf(dist, lc)]
    ensures ValidBuffers(d, l, n) && dist <= 32768 && lc < 256 ==> ValidBuffers(d', l', n + 1)
  {
  }

  lemma Bumped(a: array<nat>, before: seq<nat>, n: nat, s: nat)
    requires s < n <= a.Length == |before| && a[..] == before[s := before[s] + 1]
    ensures a[..n] == Bump(before[..n], s)
  {
    assert a[..n] == a[..][..n];
  }

  lemma BlockSizesOf(b: Block)
    requires b.Sized()
    ensures b.s.Valid() && b.t.Sized() && b.lFc.Length == b.lDl.Length == 573 && b.dFc.Length == b.dDl.Length == 61
    ensures b.bFc.Length == b.bDl.Length == 39 && 1 < b.dBuf.Length == b.lBuf.Length <= 32768
    ensures Apart(b.s, b.lFc, b.lDl) && Apart(b.s, b.dFc, b.dDl) && Apart(b.s, b.bFc, b.bDl)
    ensures b.lFc != b.dFc && b.lFc != b.dDl && b.lFc != b.bFc && b.lFc != b.bDl
    ensures b.lDl != b.dFc && b.lDl != b.dDl && b.lDl != b.bFc && b.lDl != b.bDl
    ensures b.dFc != b.bFc && b.dFc != b.bDl && b.dDl != b.bFc && b.dDl != b.bDl && b.dBuf != b.lBuf
  {
  }

  lemma BufferApart(b: Block)
    requires b.Sized()
    ensures b.dBuf != b.lFc && b.dBuf != b.lDl && b.dBuf != b.dFc && b.dBuf != b.dDl && b.dBuf != b.bFc && b.dBuf != b.bDl
    ensures b.lBuf != b.lFc && b.lBuf != b.lDl && b.lBuf != b.dFc && b.lBuf != b.dDl && b.lBuf != b.bFc && b.lBuf != b.bDl
    ensures b.dBuf != b.s.heap && b.dBuf != b.s.depth && b.dBuf != b.s.blCount
    ensures b.lBuf != b.s.heap && b.lBuf != b.s.depth && b.lBuf != b.s.blCount
  {
  }

  ghost function TableArrays(t: Tables): set<array<nat>> {
    {t.lengthCode, t.baseLength, t.distCode, t.baseDist, t.ltFc, t.ltDl, t.dtFc, t.dtDl}
  }

  /** Nothing that changes is part of the tables. */
  lemma TablesApart(b: Block)
    requires b.Sized()
    ensures {b.lFc, b.lDl, b.dFc, b.dDl, b.bFc, b.bDl, b.dBuf, b.lBuf, b.s.heap, b.s.depth, b.s.blCount} !! TableArrays(b.t)
    ensures b.t.lengthCode in TableArrays(b.t) && b.t.baseLength in TableArrays(b.t) && b.t.distCode in TableArrays(b.t)
    ensures b.t.baseDist in TableArrays(b.t) && b.t.ltFc in TableArrays(b.t) && b.t.ltDl in TableArrays(b.t)
    ensures b.t.dtFc in TableArrays(b.t) && b.t.dtDl in TableArrays(b.t)
  {
  }

  lemma BlockFacts(b: Block)
    requires b.Valid()
    ensures b.Sized() && b.w.Valid() && b.t.Valid() && Bytes(b.s.depth[..]) && b.s.optLen == b.s.staticLen == 0
    ensures b.lastLit < b.dBuf.Length == b.lBuf.Length <= 32768 && b.lFc.Length == 573 && b.dFc.Length == 61 && b.bFc.Length == 39
    ensures ValidBuffers(b.dBuf[..], b.lBuf[..], b.lastLit)
    ensures b.lFc[..286] == LitFreqs(b.Tokens()) && b.dFc[..30] == DistFreqs(b.Tokens())
    ensures forall i :: 0 <= i < 19 ==> b.bFc[i] == 0
  {
  }

  lemma BlockIsValid(b: Block)
    requires b.Sized() && b.w.Valid() && b.t.Valid() && Bytes(b.s.depth[..]) && b.s.optLen == b.s.staticLen == 0
    requires b.lastLit < b.dBuf.Length == b.lBuf.Length && b.lFc.Length == 573 && b.dFc.Length == 61 && b.bFc.Length == 39
    requires ValidBuffers(b.dBuf[..], b.lBuf[..], b.lastLit)
    requires b.lFc[..286] == LitFreqs(b.Tokens()) && b.dFc[..30] == DistFreqs(b.Tokens())
    requires forall i :: 0 <= i < 19 ==> b.bFc[i] == 0
    ensures b.Valid()
  {
  }

  /** Writing elsewhere leaves the tables alone. */
  twostate lemma TablesKept(b: Block)
    requires b.Sized() && old(b.t.Valid())
    requires unchanged(b.t.lengthCode) && unchanged(b.t.baseLength) && unchanged(b.t.distCode) && unchanged(b.t.baseDist)
    requires unchanged(b.t.ltFc) && unchanged(b.t.ltDl) && unchanged(b.t.dtFc) && unchanged(b.t.dtDl)
    ensures b.t.Valid()
  {
    hide LengthsSet, BasesSet, DistancesSet, FarSet, DistBasesSet, HoldsCodes;
  }

  /** _tr_tally: one more literal or match; the result says whether the block is full. */
  method TrTally(b: Block, dist: nat, lc: nat) returns (full: bool)
    requires b.Valid() && dist <= 32768 && lc < 256 && b.lastLit + 1 < b.dBuf.Length
    modifies b, b.dBuf, b.lBuf, b.lFc, b.dFc
    ensures b.Valid() && b.Tokens() == old(b.Tokens()) + [TokenOf(dist, lc)]
    ensures full <==> b.lastLit == b.dBuf.Length - 1
  {
    hide *;
    BlockFacts(b);
    BlockSizesOf(b);
    BufferApart(b);
    TablesApart(b);
    TokensIs(b);
    ghost var d: seq<nat>, l: seq<nat> := b.dBuf[..], b.lBuf[..];
    ghost var lf: seq<nat>, df: seq<nat> := b.lFc[..], b.dFc[..];
    ghost var tokens, token := b.Tokens(), TokenOf(dist, lc);
    TokensGrow(d, l, d[b.lastLit := dist], l[b.lastLit := lc], b.lastLit, dist, lc);
    FreqsSnoc(tokens, token);
    TokenMeans(dist, lc);
    LengthLookup(b.t, lc);
    b.dBuf[b.lastLit] := dist;
    b.lBuf[b.lastLit] := lc;
    b.lastLit := b.lastLit + 1;
    if dist == 0 {
      b.lFc[lc] := b.lFc[lc] + 1;
      Bumped(b.lFc, lf, 286, lc);
    } else {
      b.matches := b.matches + 1;
      var dist := dist - 1;
      DCodeIs(b.t, dist);
      var ls, ds := b.t.lengthCode[lc] + 257, DCode(b.t, dist);
      CodeBounds(dist + 1);
      b.lFc[ls] := b.lFc[ls] + 1;
      b.dFc[ds] := b.dFc[ds] + 1;
      Bumped(b.lFc, lf, 286, ls);
      Bumped(b.dFc, df, 30, ds);
    }
    assert b.dBuf[..] == d[b.lastLit - 1 := dist] && b.lBuf[..] == l[b.lastLit - 1 := lc];
    TokensIs(b);
    full := b.lastLit == b.dBuf.Length - 1;
    TablesKept(b);
    BlockIsValid(b);
  }

  lemma TokensIs(b: Block)
    requires b.lastLit <= b.dBuf.Length && b.lastLit <= b.lBuf.Length
    ensures b.Tokens() == TokensOf(b.dBuf[..], b.lBuf[..], b.lastLit)
  {
  }

  lemma CodeBounds(dist: nat)
    ensures DistanceCode(dist) <= 29
  {
  }

  lemma TokenMeans(dist: nat, lc: nat)
    requires lc < 256
    ensures LitSymbol(TokenOf(dist, lc)) == if dist == 0 then lc else 257 + LengthCode(lc + 3)
    ensures TokenOf(dist, lc).Copy? <==> dist != 0
    ensures dist != 0 ==> TokenOf(dist, lc).distance == dist
  {
  }

  // ---- Writing the tokens

  lemma TokenAt(b: Block, i: nat)
    requires b.lastLit <= b.dBuf.Length && b.lastLit <= b.lBuf.Length && i < b.lastLit
    ensures b.Tokens()[i] == TokenOf(b.dBuf[i], b.lBuf[i])
    ensures b.Tokens()[..i + 1] == b.Tokens()[..i] + [b.Tokens()[i]]
  {
  }

  lemma PrefixBits(ll: seq<nat>, dl: seq<nat>, tokens: seq<Token>, i: nat)
    requires AllCodedTokens(ll, dl, tokens) && i < |tokens|
    ensures AllCodedTokens(ll, dl, tokens[..i]) && AllCodedTokens(ll, dl, tokens[..i + 1]) && Coded(ll, dl, tokens[i])
    ensures TokensBits(ll, dl, tokens[..i + 1]) == TokensBits(ll, dl, tokens[..i]) + TokenBits(ll, dl, tokens[i])
  {
    hide Coded, TokenBits;
    assert tokens[..i + 1][..i] == tokens[..i];
  }

  lemma NoTokenBits(ll: seq<nat>, dl: seq<nat>, tokens: seq<Token>)
    ensures tokens[..0] == [] && AllCodedTokens(ll, dl, []) && TokensBits(ll, dl, []) == []
    ensures tokens[..|tokens|] == tokens
  {
  }

  lemma LiteralWord(ll: seq<nat>, dl: seq<nat>, lc: nat)
    requires lc < 256 && Coded(ll, dl, TokenOf(0, lc))
    ensures lc < |ll| && 0 < ll[lc] && TokenBits(ll, dl, TokenOf(0, lc)) == CodeWord(ll, lc)
  {
  }

  lemma CopyWords(ll: seq<nat>, dl: seq<nat>, dist: nat, lc: nat)
    requires 0 < dist && Coded(ll, dl, TokenOf(dist, lc))
    ensures 3 <= lc + 3 <= 258 && dist <= 32768
    ensures HasWord(ll, 257 + LengthCode(lc + 3)) && HasWord(dl, DistanceCode(dist))
    ensures TokenBits(ll, dl, TokenOf(dist, lc)) == LengthBits(ll, lc + 3) + DistanceBits(dl, dist)
  {
  }

  lemma HasWordMeans(lens: seq<nat>, s: nat)
    requires HasWord(lens, s)
    ensures s < |lens| && 0 < lens[s]
  {
  }

  /** The length part of a match. */
  method SendLength(w: Writer, t: Tables, lc0: nat, fc: array<nat>, dl: array<nat>, ghost lens: seq<nat>)
    requires w.Valid() && t.Valid() && lc0 < 256 && HoldsCodes(fc, dl, lens) && HasWord(lens, 257 + LengthCode(lc0 + 3))
    modifies w
    ensures w.Valid() && w.Stream() == old(w.Stream()) + LengthBits(lens, lc0 + 3)
  {
    hide *;
    LengthLookup(t, lc0);
    TablesSized(t);
    HasWordMeans(lens, 257 + LengthCode(lc0 + 3));
    LengthWord(lens, lc0 + 3);
    LengthExtraFits(lc0 + 3);
    var lc := lc0;
    var code := t.lengthCode[lc];
    ghost var before := w.Stream();
    SendCode(w, code + 257, fc, dl, lens);
    var extra := EXTRA_LBITS[code];
    NoBits(lc + 3 - LBASE[code]);
    if extra != 0 {
      lc := lc - t.baseLength[code];
      w.SendBits(lc, extra);
    }
    Assoc(before, CodeWord(lens, code + 257), Bits(lc0 + 3 - LBASE[code], extra));
    assert w.Stream() == before + (CodeWord(lens, code + 257) + Bits(lc0 + 3 - LBASE[code], extra));
  }

  lemma LengthExtraFits(len: nat)
    requires 3 <= len <= 258
    ensures var c := LengthCode(len);
            c < |LBASE| && c < |EXTRA_LBITS| && EXTRA_LBITS[c] <= 5 && LBASE[c] <= len &&
            len - LBASE[c] < Pow2(EXTRA_LBITS[c])
  {
    hide LengthCode;
    LengthFits(len);
    LengthTable();
    LengthRanges(if LengthCode(len) < 28 then LengthCode(len) else 0);
  }

  lemma DistanceExtraFits(dist: nat)
    requires 1 <= dist <= 32768
    ensures var c := DistanceCode(dist);
            c < |DBASE| && c < |EXTRA_DBITS| && EXTRA_DBITS[c] <= 13 && DBASE[c] <= dist &&
            dist - DBASE[c] < Pow2(EXTRA_DBITS[c])
  {
    hide DistanceCode;
    DistanceFits(dist);
    DistanceTable();
    DistanceRanges(DistanceCode(dist));
  }

  lemma Assoc(a: seq<bool>, b: seq<bool>, c: seq<bool>)
    ensures a + b + c == a + (b + c)
  {
  }

  /** The distance part of a match; dist is the distance less 1. */
  method SendDistance(w: Writer, t: Tables, dist0: nat, fc: array<nat>, dl: array<nat>, ghost lens: seq<nat>)
    requires w.Valid() && t.Valid() && dist0 < 32768 && HoldsCodes(fc, dl, lens) && HasWord(lens, DistanceCode(dist0 + 1))
    modifies w
    ensures w.Valid() && w.Stream() == old(w.Stream()) + DistanceBits(lens, dist0 + 1)
  {
    hide *;
    LengthLookup(t, 0);
    TablesSized(t);
    DCodeIs(t, dist0);
    HasWordMeans(lens, DistanceCode(dist0 + 1));
    DistanceWord(lens, dist0 + 1);
    DistanceExtraFits(dist0 + 1);
    CodeBounds(dist0 + 1);
    var dist := dist0;
    var code := DCode(t, dist);
    DistBaseLookup(t, code);
    ghost var before := w.Stream();
    SendCode(w, code, fc, dl, lens);
    var extra := EXTRA_DBITS[code];
    NoBits(dist + 1 - DBASE[code]);
    if extra != 0 {
      dist := dist - t.baseDist[code];
      w.SendBits(dist, extra);
    }
    Assoc(before, CodeWord(lens, code), Bits(dist0 + 1 - DBASE[code], extra));
    assert w.Stream() == before + (CodeWord(lens, code) + Bits(dist0 + 1 - DBASE[code], extra));
  }

  /** compress_block */
  method CompressBlock(b: Block, lfc: array<nat>, ldl: array<nat>, dfc: array<nat>, ddl: array<nat>,
                       ghost ll: seq<nat>, ghost dl: seq<nat>)
    requires b.w.Valid() && b.t.Valid() && b.lastLit <= b.dBuf.Length == b.lBuf.Length
    requires ValidBuffers(b.dBuf[..], b.lBuf[..], b.lastLit)
    requires HoldsCodes(lfc, ldl, ll) && HoldsCodes(dfc, ddl, dl) && HasWord(ll, 256) && AllCodedTokens(ll, dl, b.Tokens())
    modifies b.w
    ensures b.w.Valid() && |ll| > 256 && b.w.Stream() == old(b.w.Stream()) + BodyBits(ll, dl, b.Tokens())
  {
    hide *;
    HasWordMeans(ll, 256);
    ghost var tokens, before := b.Tokens(), b.w.Stream();
    TokensIs(b);
    NoTokenBits(ll, dl, tokens);
    assert before + [] == before;
    var lx := 0;
    while lx < b.lastLit
      invariant 0 <= lx <= b.lastLit && b.w.Valid() && b.t.Valid() && tokens == b.Tokens()
      invariant HoldsCodes(lfc, ldl, ll) && HoldsCodes(dfc, ddl, dl)
      invariant AllCodedTokens(ll, dl, tokens[..lx]) && b.w.Stream() == before + TokensBits(ll, dl, tokens[..lx])
    {
      TokenAt(b, lx);
      PrefixBits(ll, dl, tokens, lx);
      BufferEntry(b.dBuf[..], b.lBuf[..], b.lastLit, lx);
      ghost var sent := TokensBits(ll, dl, tokens[..lx]);
      Assoc(before, sent, TokenBits(ll, dl, tokens[lx]));
      var dist, lc := b.dBuf[lx], b.lBuf[lx];
      lx := lx + 1;
      if dist == 0 {
        LiteralWord(ll, dl, lc);
        SendCode(b.w, lc, lfc, ldl, ll);
      } else {
        CopyWords(ll, dl, dist, lc);
        SendLength(b.w, b.t, lc, lfc, ldl, ll);
        SendDistance(b.w, b.t, dist - 1, dfc, ddl, dl);
        Assoc(before + sent, LengthBits(ll, lc + 3), DistanceBits(dl, dist));
      }
    }
    SendCode(b.w, 256, lfc, ldl, ll);
    BodyIs(ll, dl, tokens);
    Assoc(before, TokensBits(ll, dl, tokens), CodeWord(ll, 256));
  }

  lemma BodyIs(ll: seq<nat>, dl: seq<nat>, tokens: seq<Token>)
    requires AllCodedTokens(ll, dl, tokens) && |ll| > 256
    ensures BodyBits(ll, dl, tokens) == TokensBits(ll, dl, tokens) + CodeWord(ll, 256)
  {
  }

  lemma BufferEntry(d: seq<nat>, l: seq<nat>, n: nat, i: nat)
    requires n <= |d| && n <= |l| && i < n && ValidBuffers(d, l, n)
    ensures d[i] <= 32768 && l[i] < 256
  {
  }

  // ---- Writing the trees

  lemma SizesFit(lcodes: nat, dcodes: nat, blcodes: nat)
    requires 257 <= lcodes <= 286 && 1 <= dcodes <= 30 && 4 <= blcodes <= 19
    ensures lcodes - 257 < Pow2(5) && dcodes - 1 < Pow2(5) && blcodes - 4 < Pow2(4)
    ensures SizesBits(lcodes, dcodes, blcodes) == Bits(lcodes - 257, 5) + Bits(dcodes - 1, 5) + Bits(blcodes - 4, 4)
  {
    hide Bits;
    RepeatRanges();
    Pow2Add(2, 2);
    Pow2Add(2, 3);
  }

  lemma ClBitsNext(cl: seq<nat>, n: nat)
    requires n < 19 == |cl| && forall s :: 0 <= s < 19 ==> cl[s] <= 7
    ensures n < |ORDER| && ORDER[n] < 19 && ClBits(cl, 0) == [] && ClBits(cl, n + 1) == ClBits(cl, n) + Bits(cl[ORDER[n]], 3)
    ensures cl[ORDER[n]] < Pow2(3)
  {
    hide Bits;
    OrderIsPermutation(n);
    RepeatRanges();
  }

  lemma TreesBitsIs(ll: seq<nat>, dl: seq<nat>, cl: seq<nat>, ncode: nat)
    requires 257 <= |ll| && 1 <= |dl| && 4 <= ncode <= 19 == |cl|
    requires AllCoded(cl, TreeItems(ll)) && AllCoded(cl, TreeItems(dl))
    ensures TreesBits(ll, dl, cl, ncode) ==
            SizesBits(|ll|, |dl|, ncode) + ClBits(cl, ncode) + ItemsBits(cl, TreeItems(ll)) + ItemsBits(cl, TreeItems(dl))
  {
  }

  /** send_all_trees */
  method SendAllTrees(b: Block, lcodes: nat, dcodes: nat, blcodes: nat, ghost ll: seq<nat>, ghost dl: seq<nat>, ghost cl: seq<nat>)
    requires b.Sized() && b.w.Valid() && 257 <= lcodes <= 286 && 1 <= dcodes <= 30 && 4 <= blcodes <= 19
    requires b.lDl.Length == 573 && b.dDl.Length == 61 && b.bDl.Length == 39
    requires ll == b.lDl[..lcodes] && dl == b.dDl[..dcodes] && cl == b.bDl[..19]
    requires b.lDl[lcodes] == 0xffff && b.dDl[dcodes] == 0xffff
    requires forall i :: 0 <= i < lcodes ==> ll[i] < 16
    requires forall i :: 0 <= i < dcodes ==> dl[i] < 16
    requires forall s :: 0 <= s < 19 ==> cl[s] <= 7
    requires HoldsCodes(b.bFc, b.bDl, cl) && AllCoded(cl, TreeItems(ll)) && AllCoded(cl, TreeItems(dl))
    modifies b.w
    ensures b.w.Valid() && b.w.Stream() == old(b.w.Stream()) + TreesBits(ll, dl, cl, blcodes)
  {
    hide *;
    ghost var before := b.w.Stream();
    SizesFit(lcodes, dcodes, blcodes);
    b.w.SendBits(lcodes - 257, 5);
    b.w.SendBits(dcodes - 1, 5);
    b.w.SendBits(blcodes - 4, 4);
    ghost var sizes := SizesBits(lcodes, dcodes, blcodes);
    Assoc(before, Bits(lcodes - 257, 5), Bits(dcodes - 1, 5));
    Assoc(before, Bits(lcodes - 257, 5) + Bits(dcodes - 1, 5), Bits(blcodes - 4, 4));
    ClBitsNext(cl, 0);
    assert before + sizes + [] == before + sizes;
    for rank := 0 to blcodes
      invariant b.w.Valid() && b.w.Stream() == before + sizes + ClBits(cl, rank)
    {
      ClBitsNext(cl, rank);
      Assoc(before + sizes, ClBits(cl, rank), Bits(cl[ORDER[rank]], 3));
      b.w.SendBits(b.bDl[ORDER[rank]], 3);
    }
    SendTree(b.w, b.lDl, lcodes - 1, b.bFc, b.bDl, ll, cl);
    SendTree(b.w, b.dDl, dcodes - 1, b.bFc, b.bDl, dl, cl);
    ghost var x, y, z := ClBits(cl, blcodes), ItemsBits(cl, TreeItems(ll)), ItemsBits(cl, TreeItems(dl));
    TreesBitsIs(ll, dl, cl, blcodes);
    assert before + sizes + x + y + z == before + (sizes + x + y + z);
  }

  // ---- Stored blocks

  /** What follows the first three bits and the padding of a stored block. */
  function StoredBits(buf: seq<byte>): seq<bool>
    requires |buf| < 65536
  {
    Bits(|buf|, 16) + Bits(65535 - |buf|, 16) + ByteBits(buf)
  }

  /** zmemcpy to pending_buf. */
  method PutBytes(w: Writer, buf: seq<byte>)
    requires w.Valid() && w.biValid == 0
    modifies w
    ensures w.Valid() && w.biValid == 0 && w.Stream() == old(w.Stream()) + ByteBits(buf)
  {
    hide ByteBits;
    NoBits(w.biBuf);
    ByteBitsAppend(w.pending, buf);
    w.pending := w.pending + buf;
  }

  method PutShortAligned(w: Writer, v: nat)
    requires w.Valid() && w.biValid == 0 && v < 65536
    modifies w
    ensures w.Valid() && w.biValid == 0 && w.Stream() == old(w.Stream()) + Bits(v, 16)
  {
    hide Bits, ByteBits;
    NoBits(w.biBuf);
    w.PutShort(v);
  }

  /** _tr_stored_block */
  method StoredBlock(w: Writer, buf: seq<byte>, last: bool) returns (ghost pad: seq<bool>)
    requires w.Valid() && |buf| < 65536
    modifies w
    ensures w.Valid() && w.biValid == 0
    ensures |pad| < 8 && (|old(w.Stream())| + 3 + |pad|) % 8 == 0
    ensures w.Stream() == old(w.Stream()) + HeaderBits(0, last) + pad + StoredBits(buf)
  {
    hide *;
    ghost var before := w.Stream();
    HeaderFits(0, last);
    w.SendBits(2 * 0 + if last then 1 else 0, 3);
    ghost var start := w.Stream();
    w.BiWindup();
    pad :| |pad| < 8 && w.Stream() == start + pad;
    PutShortAligned(w, |buf|);
    PutShortAligned(w, 65535 - |buf|);
    PutBytes(w, buf);
    StoredBitsIs(buf);
    assert start + pad + Bits(|buf|, 16) + Bits(65535 - |buf|, 16) + ByteBits(buf)
        == start + pad + (Bits(|buf|, 16) + Bits(65535 - |buf|, 16) + ByteBits(buf));
  }

  lemma StoredBitsIs(buf: seq<byte>)
    requires |buf| < 65536
    ensures StoredBits(buf) == Bits(|buf|, 16) + Bits(65535 - |buf|, 16) + ByteBits(buf)
  {
  }

  lemma HeaderFits(kind: nat, last: bool)
    requires kind < 4
    ensures 2 * kind + (if last then 1 else 0) < Pow2(3)
    ensures HeaderBits(kind, last) == Bits(2 * kind + if last then 1 else 0, 3)
    ensures |HeaderBits(kind, last)| == 3
  {
    RepeatRanges();
  }
}
