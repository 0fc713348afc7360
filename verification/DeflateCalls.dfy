/** deflate of deflate.c, for raw data and levels 1 to 9: what any sequence of calls amounts to. */
module DeflateCalls {
  import opened Machine
  import opened BitStrings
  import opened Hashing
  import opened HashChains
  import opened BitWriter
  import opened DeflateSpec
  import opened StaticTables
  import opened BlockFormat
  import opened BlockHeaders
  import opened Blocks
  import opened BlockFlush
  import opened DeflateState
  import opened LongestMatch
  import opened FillWindow
  import opened DeflateOutput
  import opened DeflateFast
  import opened DeflateSlow

  datatype Status = OK | STREAM_END | STREAM_ERROR | BUF_ERROR

  function FlushCode(flush: Flush): LastFlush {
    match flush
    case NoFlush => 0
    case PartialFlush => 1
    case SyncFlush => 2
    case FullFlush => 3
    case Finish => 4
    case BlockFlush => 5
  }

  /** RANK */
  function FlushRank(f: int): int {
    f * 2 - if f > 4 then 9 else 0
  }

  /** How much a flush value asks for. */
  function Strength(flush: Flush): nat {
    match flush
    case NoFlush => 0
    case BlockFlush => 1
    case PartialFlush => 2
    case SyncFlush => 3
    case FullFlush => 4
    case Finish => 5
  }

  /** The last call asked for as much already; after a call that ran out of room none has. */
  ghost predicate AskedBefore(flush: Flush, last: LastFlush) {
    exists f: Flush :: FlushCode(f) == last && Strength(flush) <= Strength(f)
  }

  /** RANK orders the flush values by what they ask for. */
  lemma RankOrders(flush: Flush, last: LastFlush)
    ensures FlushRank(FlushCode(flush)) <= FlushRank(last) <==> AskedBefore(flush, last)
  {
    if last != -1 {
      var f := if last == 0 then NoFlush else if last == 1 then PartialFlush else if last == 2 then SyncFlush
        else if last == 3 then FullFlush else if last == 4 then Finish else BlockFlush;
      assert FlushCode(f) == last;
    }
  }

  /** Between calls: what the compression function of the level needs and keeps. */
  ghost predicate Rest(s: Deflater)
    reads s, s.window, s.head, s.prev, s.b, s.b.w, s.b.s, s.b.s.depth, s.b.lFc, s.b.dFc, s.b.bFc, s.b.dBuf, s.b.lBuf
    reads s.b.t.lengthCode, s.b.t.baseLength, s.b.t.distCode, s.b.t.baseDist, s.b.t.ltFc, s.b.t.ltDl, s.b.t.dtFc, s.b.t.dtDl
  {
    if s.level <= 3 then Steady(s) else Lazy(s)
  }

  /** How far the parse has come. */
  ghost function ParsedTo(s: Deflater): int
    reads s`base, s`strstart, s`matchAvailable
  {
    if s.level <= 3 then s.base + s.strstart else Upto(s)
  }

  /** What the two compression functions have in common. */
  lemma RestFacts(s: Deflater)
    requires Rest(s)
    ensures AtString(s) && ParsedTo(s) >= 0 && s.StreamOk(ParsedTo(s)) && Room(s) && Drained(s)
    ensures s.next <= |s.input| && s.highWater <= s.window.Length
    ensures s.base + s.strstart - 1 <= ParsedTo(s) <= s.base + s.strstart
    ensures s.WindowOk() && s.Sized() && s.base + s.strstart + s.lookahead == |s.total|
  {
    hide *;
    ParsedToIs(s);
    if s.level <= 3 {
      RestIsSteady(s);
      SteadyParts(s);
    } else {
      RestIsLazy(s);
      LazyParts(s);
      UptoIs(s);
    }
    AtStringParts(s);
    WindowFacts(s);
  }

  lemma ParsedToIs(s: Deflater)
    ensures ParsedTo(s) == if s.level <= 3 then s.base + s.strstart else Upto(s)
  {
  }

  lemma RestIsSteady(s: Deflater)
    requires s.level <= 3
    ensures Rest(s) <==> Steady(s)
  {
    hide Steady;
  }

  lemma RestIsLazy(s: Deflater)
    requires s.level > 3
    ensures Rest(s) <==> Lazy(s)
  {
    hide Lazy;
  }

  // ---- The start

  /** ChainsOk(0, 0) and so on, at the place where there is nothing yet. */
  lemma AtStart(s: Deflater)
    requires s.WindowOk() && s.InsertOk() && s.ChainsOk(0, 0) && s.HashOk(0) && s.StreamOk(0) && Room(s) && Drained(s)
    requires s.base == s.strstart == s.insert == s.next == s.highWater == 0 && s.input == []
    requires s.matchLength == s.prevLength == 2 && !s.matchAvailable
    ensures Steady(s) && Lazy(s)
  {
    hide *;
    WindowFacts(s);
    SizeFacts(s);
    IsAtString(s);
    IsDeferred(s);
    UptoIs(s);
    IsSteady(s);
    IsLazy(s, 0);
  }

  lemma EmptyStream(w: Writer)
    requires w.Stream() == []
    ensures w.biValid == 0
  {
    StreamIs(w);
  }

  lemma ParameterFacts(windowBits: int, memLevel: int)
    requires 9 <= windowBits <= 15 && 1 <= memLevel <= 9
    ensures 512 <= Pow2(windowBits) <= 32768 && 128 <= Pow2(memLevel + 6) <= 32768
    ensures HashSizes(memLevel + 7, (memLevel + 7 + 2) / 3)
  {
    Pow2Monotone(9, windowBits);
    Pow2Monotone(windowBits, 15);
    Pow2Monotone(7, memLevel + 6);
    Pow2Monotone(memLevel + 6, 15);
    PowersHere();
  }

  lemma PowersHere()
    ensures Pow2(7) == 128 && Pow2(9) == 512 && Pow2(15) == 32768
  {
  }

  /** Nothing has been read, written or flushed yet. */
  ghost predicate Untouched(s: Deflater)
    reads s`finished, s`total, s`out, s`spent, s`restart, s`lastFlush
  {
    !s.finished && s.total == [] && s.out == [] && s.spent == 0 && s.restart == BEGINNING && s.lastFlush == 0
  }

  lemma UntouchedIs(s: Deflater)
    ensures Untouched(s) <==>
      !s.finished && s.total == [] && s.out == [] && s.spent == 0 && s.restart == BEGINNING && s.lastFlush == 0
  {
  }

  /** deflateInit2 for raw data, a level other than 0, and a strategy that looks for matches. */
  method DeflateInit2(level0: int, windowBits: int, memLevel: int, strategy: Strategy) returns (r: Option<Deflater>)
    requires level0 != 0
    ensures r.Some? <==> (level0 == -1 || 1 <= level0 <= 9) && 9 <= windowBits <= 15 && 1 <= memLevel <= 9
    ensures r.Some? ==> Rest(r.value) && !r.value.finished && r.value.total == [] && r.value.out == [] && r.value.fits
    ensures r.Some? ==> r.value.level == (if level0 == -1 then 6 else level0) && r.value.strategy == strategy
    ensures r.Some? ==> r.value.z == Sizes(Pow2(windowBits), memLevel + 7, (memLevel + 9) / 3)
    ensures r.Some? ==> r.value.b.dBuf.Length == Pow2(memLevel + 6)
    ensures r.Some? ==> Untouched(r.value)
    ensures r.Some? ==> fresh(r.value) && fresh(r.value.window) && fresh(r.value.b)
  {
    hide *;
    var level := if level0 == -1 then 6 else level0;
    if memLevel < 1 || memLevel > 9 || windowBits < 9 || windowBits > 15 || level < 0 || level > 9 {
      return None;
    }
    ParameterFacts(windowBits, memLevel);
    var hashBits := memLevel + 7;
    var z := Sizes(Pow2(windowBits), hashBits, (hashBits + 2) / 3);
    SizesAreValid(z);
    var t := TrStaticInit();
    var w := new Writer();
    EmptyStream(w);
    var b := new Block(w, t, Pow2(memLevel + 6));
    StreamIs(w);
    var s := new Deflater(level, strategy, z, b);
    BlockRoomOf(s);
    EmptyStream(b.w);
    DrainedFacts(s);
    AtStart(s);
    if level <= 3 {
      RestIsSteady(s);
    } else {
      RestIsLazy(s);
    }
    UntouchedIs(s);
    r := Some(s);
  }

  lemma SizesAreValid(z: Sizes)
    requires 512 <= z.w <= 32768 && HashSizes(z.bits, z.shift)
    ensures ValidSizes(z)
  {
  }

  lemma BlockRoomOf(s: Deflater)
    requires s.b.Valid() && s.b.Tokens() == []
    ensures Room(s)
  {
    BlockRoom(s);
  }

  // ---- Flush markers

  const MARKER: nat := 42

  lemma EmptySentFrom(fits: bool, stream: seq<bool>, bits: seq<bool>, total: seq<byte>, start: int, from: Restart)
    requires SentFrom(fits, false, stream, total, start, from) && forall out :: Decodes(stream, bits, false, out, out)
    ensures SentFrom(fits, false, stream + bits, total, start, from)
  {
    hide Decodes, SentFrom;
    SentFromRange(fits, false, stream, total, start, from);
    var sofar := total[from.input..start];
    assert Decodes(stream, bits, false, sofar, sofar);
    SentFromThen(fits, stream, total, start, from, bits, [], false, start);
    assert stream + bits + [] == stream + bits;
  }

  lemma EmptySent(fits: bool, stream: seq<bool>, bits: seq<bool>, total: seq<byte>, start: int, restart: Restart, spent: nat)
    requires Sent(fits, false, stream, total, start, restart, spent) && |bits| <= MARKER
    requires forall out :: Decodes(stream, bits, false, out, out)
    ensures Sent(fits, false, stream + bits, total, start, restart, spent + MARKER)
  {
    hide Decodes, SentFrom;
    EmptySentFrom(fits, stream, bits, total, start, BEGINNING);
    EmptySentFrom(fits, stream, bits, total, start, restart);
  }

  lemma EmptyStoredDecodes(start: seq<bool>, pad: seq<bool>)
    requires |pad| < 8 && (|start| + 3 + |pad|) % 8 == 0
    ensures forall out :: Decodes(start, HeaderBits(0, false) + pad + StoredBits([]), false, out, out)
    ensures |HeaderBits(0, false) + pad + StoredBits([])| <= MARKER
  {
    hide Decodes, HeaderBits, StoredBits;
    StoredBlockSize([], false);
    forall out: seq<byte>
      ensures Decodes(start, HeaderBits(0, false) + pad + StoredBits([]), false, out, out)
    {
      StoredBlockDecodes(start, pad, [], false, out);
      assert out + [] == out;
    }
  }

  lemma TenBits(bits: seq<bool>)
    requires |bits| == 10
    ensures |bits| <= MARKER
  {
  }

  /** The stream ends with the lengths of an empty stored block. */
  ghost predicate EndsEmpty(stream: seq<bool>) {
    |stream| >= 32 && stream[|stream| - 32..] == StoredBits([])
  }

  lemma EndsWithLengths(front: seq<bool>)
    ensures EndsEmpty(front + StoredBits([]))
  {
    hide StoredBits;
    StoredBlockSize([], false);
  }

  /** After a flush other than Z_BLOCK, an empty block: of ten bits with the fixed codes, or a stored one. */
  method Marker(s: Deflater, flush: Flush) returns (ghost bits: seq<bool>)
    requires s.StreamOk(s.base + s.strstart) && !s.finished && flush != NoFlush && flush != Finish
    modifies s.b.w, s`spent
    ensures s.StreamOk(s.base + s.strstart) && s.spent <= old(s.spent) + MARKER
    ensures s.b.w.Stream() == old(s.b.w.Stream()) + bits
    ensures flush == BlockFlush ==> bits == []
    ensures flush == PartialFlush ==> |bits| == 10
    ensures flush == SyncFlush || flush == FullFlush ==> s.b.w.biValid == 0 && EndsEmpty(s.b.w.Stream())
  {
    hide *;
    StreamFacts(s, s.base + s.strstart);
    BlockFacts(s.b);
    ghost var stream := s.b.w.Stream();
    bits := [];
    if flush == PartialFlush {
      bits := TrAlign(s.b);
      TenBits(bits);
      EmptySent(s.fits, stream, bits, s.total, s.base + s.blockStart, s.restart, s.spent);
      s.spent := s.spent + MARKER;
    } else if flush != BlockFlush {
      ghost var pad := StoredBlock(s.b.w, [], false);
      bits := HeaderBits(0, false) + pad + StoredBits([]);
      assert stream + HeaderBits(0, false) + pad + StoredBits([]) == stream + bits;
      EndsWithLengths(stream + HeaderBits(0, false) + pad);
      EmptyStoredDecodes(stream, pad);
      EmptySent(s.fits, stream, bits, s.total, s.base + s.blockStart, s.restart, s.spent);
      s.spent := s.spent + MARKER;
    }
    OutStays(ByteBits(s.out), stream, bits, []);
    assert stream + bits + [] == stream + bits;
    assert stream + [] == stream;
    BlockIsValid(s.b);
    IsStream(s, s.base + s.strstart);
  }

  lemma AllZero(s: Deflater)
    requires s.Sized() && s.strstart == s.lookahead == 0 && s.base == |s.total| && s.insert == 0
    requires forall h :: 0 <= h < s.head.Length ==> s.head[h] == 0
    requires s.inserted == {}
    ensures AtString(s)
  {
    NoChains(s.head[..], s.prev[..], s.z, s.total, s.base, s.base, s.base);
    assert s.window[..0] == s.total[s.base..];
  }

  /** With no tokens collected, decoding may begin here. */
  lemma RestartHere(fits: bool, stream: seq<bool>, total: seq<byte>, start: int, restart: Restart, spent: nat, tokens: seq<Token>,
                    upto: nat, far: nat, here: Restart)
    requires Sent(fits, false, stream, total, start, restart, spent) && Parsed(total, restart.input, start, tokens, upto, far)
    requires start == upto == here.input && |stream| == 8 * here.output
    ensures Sent(fits, false, stream, total, start, here, spent) && Parsed(total, here.input, start, tokens, upto, far)
  {
    hide SentFrom, Parsed;
    SentRange(fits, false, stream, total, start, restart, spent);
    ParsedSpan(total, restart.input, start, tokens, upto, far);
    ParsedLength(total, restart.input, start, tokens, upto, far);
    assert tokens == [];
    NothingParsed(total, here.input, start, far);
    NothingSentFrom(fits, stream, total, here);
  }

  /** CLEAR_HASH */
  method ClearHash(head: array<Pos>)
    modifies head
    ensures forall h :: 0 <= h < head.Length ==> head[h] == 0
  {
    for h := 0 to head.Length
      invariant forall i :: 0 <= i < h ==> head[i] == 0
    {
      head[h] := 0;
    }
  }

  /** The stream as it is when decoding may begin here. */
  ghost predicate CanRestart(s: Deflater, here: Restart)
    reads s`total, s`base, s`strstart, s`fits, s`out, s`spent
    reads s.b, s.b.w, s.b.s, s.b.s.depth, s.b.lFc, s.b.dFc, s.b.bFc, s.b.dBuf, s.b.lBuf
    reads s.b.t.lengthCode, s.b.t.baseLength, s.b.t.distCode, s.b.t.baseDist, s.b.t.ltFc, s.b.t.ltDl, s.b.t.dtFc, s.b.t.dtDl
  {
    s.Sized() && s.b.Valid() && (s.strategy == Fixed ==> s.fits) && here.input == s.base + s.strstart &&
    Parsed(s.total, here.input, here.input, s.b.Tokens(), here.input, MaxDist(s.z)) &&
    Sent(s.fits, false, s.b.w.Stream(), s.total, here.input, here, s.spent) && ByteBits(s.out) <= s.b.w.Stream() &&
    |s.b.w.Stream()| == 8 * here.output
  }

  lemma CanRestartFacts(s: Deflater, here: Restart)
    requires CanRestart(s, here)
    ensures s.Sized() && s.b.Valid() && (s.strategy == Fixed ==> s.fits) && here.input == s.base + s.strstart
    ensures Parsed(s.total, here.input, here.input, s.b.Tokens(), here.input, MaxDist(s.z))
    ensures Sent(s.fits, false, s.b.w.Stream(), s.total, here.input, here, s.spent) && ByteBits(s.out) <= s.b.w.Stream()
    ensures |s.b.w.Stream()| == 8 * here.output
  {
    hide Parsed, Sent, ByteBits;
  }

  lemma IsCanRestart(s: Deflater, here: Restart)
    requires s.StreamOk(s.base + s.strstart) && !s.finished && s.b.w.biValid == 0 && s.blockStart == s.strstart
    requires here == Restart(s.base + s.strstart, |s.b.w.pending|)
    ensures CanRestart(s, here)
  {
    hide Parsed, Sent, ByteBits;
    StreamFacts(s, s.base + s.strstart);
    WholeBytes(s.b.w);
    RestartHere(s.fits, s.b.w.Stream(), s.total, here.input, s.restart, s.spent, s.b.Tokens(), here.input, MaxDist(s.z), here);
  }

  /** The window begins anew where it stands. */
  method BeginAnew(s: Deflater, ghost here: Restart)
    requires s.Sized() && CanRestart(s, here) && s.lookahead == 0 && s.base + s.strstart == |s.total| && !s.finished
    requires forall h :: 0 <= h < s.head.Length ==> s.head[h] == 0
    modifies s`strstart, s`blockStart, s`insert, s`base, s`inserted, s`restart
    ensures AtString(s) && s.StreamOk(s.base + s.strstart) && s.base + s.strstart == old(s.base + s.strstart)
    ensures s.strstart == s.blockStart == 0 && s.restart == here
  {
    hide *;
    CanRestartFacts(s, here);
    s.base := s.base + s.strstart;
    s.inserted := {};
    s.strstart := 0;
    s.blockStart := 0;
    s.insert := 0;
    s.restart := here;
    AllZero(s);
    IsStream(s, here.input);
  }

  /** Z_FULL_FLUSH: CLEAR_HASH, and nothing before is referred to again. */
  method ForgetHistory(s: Deflater)
    requires AtString(s) && s.StreamOk(s.base + s.strstart) && s.lookahead == 0 && s.blockStart == s.strstart
    requires !s.finished && s.b.w.biValid == 0
    modifies s.head, s`strstart, s`blockStart, s`insert, s`base, s`inserted, s`restart
    ensures AtString(s) && s.StreamOk(s.base + s.strstart) && s.base + s.strstart == old(s.base + s.strstart)
    ensures s.strstart == s.blockStart == 0
    ensures s.restart.input == |s.total| && 8 * s.restart.output == |s.b.w.Stream()|
  {
    hide *;
    AtStringParts(s);
    WindowFacts(s);
    ghost var here := Restart(s.base + s.strstart, |s.b.w.pending|);
    IsCanRestart(s, here);
    CanRestartFacts(s, here);
    ClearHash(s.head);
    BeginAnew(s, here);
  }

  lemma WholeBytes(w: Writer)
    requires w.biValid == 0
    ensures |w.Stream()| == 8 * |w.pending|
  {
    hide *;
    StreamIs(w);
    BitsLength(w.biBuf, 0);
    ByteBitsSizes(w.pending, []);
  }

  // ---- deflate

  /** The compression function of the level. */
  method Compress(s: Deflater, flush: Flush) returns (ret: BlockState)
    requires Rest(s) && !s.finished
    modifies s.window, s.head, s.prev, s`strstart, s`matchStart, s`matchLength, s`blockStart, s`base, s`lookahead, s`next, s`total
    modifies s`prevLength, s`prevMatch, s`matchAvailable
    modifies s`insH, s`insert, s`inserted, s`highWater, s`fits, s`spent, s`finished, s`out, s`availOut
    modifies s.b, s.b.w, s.b.s, s.b.s.heap, s.b.s.depth, s.b.s.blCount, s.b.lFc, s.b.lDl, s.b.dFc, s.b.dDl, s.b.bFc, s.b.bDl
    modifies s.b.dBuf, s.b.lBuf
    ensures Rest(s) && Outcome(s, flush, ret) && (ret != NeedMore ==> ParsedTo(s) == s.base + s.strstart)
    ensures s.spent <= old(s.spent) + if flush == NoFlush then 0 else SHORT_BLOCK
    ensures old(s.next) <= s.next <= |s.input| && s.total == old(s.total) + s.input[old(s.next)..s.next]
    ensures |s.out| + s.availOut == old(|s.out| + s.availOut) && old(s.out) <= s.out
    ensures ret == FinishDone ==> s.out == s.b.w.pending
  {
    hide *;
    if s.level <= 3 {
      RestIsSteady(s);
      ret := DeflateFast.DeflateFast(s, flush);
      RestIsSteady(s);
    } else {
      RestIsLazy(s);
      ret := DeflateSlow.DeflateSlow(s, flush);
      RestIsLazy(s);
      UptoIs(s);
    }
    ParsedToIs(s);
  }

  /** At a block boundary nothing is deferred. */
  lemma AtBoundary(s: Deflater)
    requires Rest(s) && ParsedTo(s) == s.base + s.strstart
    ensures if s.level <= 3 then s.matchLength < 3 && s.prevLength == 2 else !s.matchAvailable && s.matchLength == 2
  {
    hide *;
    ParsedToIs(s);
    if s.level <= 3 {
      RestIsSteady(s);
      SteadyParts(s);
    } else {
      RestIsLazy(s);
      LazyParts(s);
      UptoIs(s);
      DeferredFacts(s);
    }
  }

  lemma RestAgain(s: Deflater)
    requires AtString(s) && s.StreamOk(s.base + s.strstart) && Room(s) && Drained(s) && s.next <= |s.input| && s.highWater <= s.window.Length
    requires if s.level <= 3 then s.matchLength < 3 && s.prevLength == 2 else !s.matchAvailable && s.matchLength == 2
    ensures Rest(s)
  {
    hide *;
    if s.level <= 3 {
      IsSteady(s);
      RestIsSteady(s);
    } else {
      IsDeferred(s);
      UptoIs(s);
      IsLazy(s, s.base + s.strstart);
      RestIsLazy(s);
    }
  }

  /** Everything read has gone out, and what has gone out is whole bytes of it. */
  ghost predicate Flushed(s: Deflater, whole: bool)
    reads s`total, s`base, s`blockStart, s`out, s.b.w
  {
    s.out == s.b.w.pending && s.base + s.blockStart == |s.total| && (whole ==> s.b.w.biValid == 0)
  }

  lemma IsFlushed(s: Deflater, whole: bool)
    requires s.out == s.b.w.pending && s.base + s.blockStart == |s.total| && (whole ==> s.b.w.biValid == 0)
    ensures Flushed(s, whole)
  {
  }

  predicate Whole(flush: Flush) {
    flush == SyncFlush || flush == FullFlush
  }

  lemma WholeIs(flush: Flush)
    ensures Whole(flush) <==> flush == SyncFlush || flush == FullFlush
  {
  }

  /** What has gone out is enough for inflate to put out all that was read. */
  ghost predicate Readable(out: seq<byte>, total: seq<byte>) {
    exists n: nat :: n <= 8 * |out| && Reaches(ByteBits(out), START(), Config(Header(false), total, n))
  }

  /** After a block that stands for the last of the input, at most nine bits may be held back of the marker. */
  lemma SoonReadable(stream: seq<bool>, total: seq<byte>, restart: Restart, spent: nat, bits: seq<bool>, out: seq<byte>, rest: seq<bool>)
    requires Sent(true, false, stream, total, |total|, restart, spent) && |bits| >= |rest|
    requires stream + bits == ByteBits(out) + rest
    ensures Readable(out, total)
  {
    hide SentFrom, Reaches, ByteBits;
    SentFacts(true, false, stream, total, |total|, restart, spent);
    DecodesTotal(stream, total);
    var B, none := ByteBits(out), [];
    assert B == (stream + bits)[..|B|];
    assert Continues(B, none, stream) by {
      assert none + stream == stream;
      assert stream == (stream + bits)[..|stream|];
    }
    assert Reaches(B, Config(Header(false), [], |none|), Config(Header(false), total, |none| + |stream|));
    assert Config(Header(false), [], |none|) == START();
  }

  lemma DecodesTotal(stream: seq<bool>, total: seq<byte>)
    requires SentFrom(true, false, stream, total, |total|, BEGINNING)
    ensures Decodes([], stream, false, [], total)
  {
    hide Decodes;
    assert stream[..0] == [] && stream[0..] == stream && total[0..|total|] == total;
  }

  /** The four bytes of the lengths of an empty stored block. */
  const EMPTY_BLOCK: seq<byte> := [0, 0, 0xff, 0xff]

  lemma EmptyBlockBits()
    ensures ByteBits(EMPTY_BLOCK) == StoredBits([]) && |EMPTY_BLOCK| == 4
  {
    hide Bits, ByteBits;
    TwoBytes(0, 0, 0);
    TwoBytes(0xff, 0xff, 65535);
    ByteBitsAppend([0, 0], [0xff, 0xff]);
    assert EMPTY_BLOCK == [0, 0] + [0xff, 0xff];
    assert ByteBits([]) == [];
  }

  lemma TwoBytes(a: byte, b: byte, v: nat)
    requires v == a as nat + 256 * b as nat
    ensures ByteBits([a, b]) == Bits(v, 16)
  {
    hide Bits, ByteBits;
    ByteBitsSnoc([a], b);
    ByteBitsSnoc([], a);
    assert [] + [a] == [a] && [a] + [b] == [a, b] && |ByteBits([])| == 0;
    BitsSplit(v, 8, 8);
    Pow2Of8();
    LowHighAreModDiv(v, 8);
    BitsLow(v, 8, 8);
  }

  /** Where the stream ends with an empty stored block, so do its bytes. */
  lemma EndsWithEmptyBlock(out: seq<byte>)
    requires EndsEmpty(ByteBits(out))
    ensures |out| >= 4 && out[|out| - 4..] == EMPTY_BLOCK
  {
    hide ByteBits, StoredBits;
    ByteBitsSizes(out, EMPTY_BLOCK);
    EmptyBlockBits();
    BytesAfter(out, |out| - 4);
    BytesFromBits(out[|out| - 4..], EMPTY_BLOCK);
  }

  /** What a flush promises of what has gone out: all that was read can be put out by inflate, and after
      Z_SYNC_FLUSH and Z_FULL_FLUSH it ends with the bytes 00 00 FF FF. */
  ghost predicate Told(s: Deflater, flush: Flush)
    reads s`out, s`total, s`fits
  {
    (flush == SyncFlush || flush == FullFlush ==> |s.out| >= 4 && s.out[|s.out| - 4..] == EMPTY_BLOCK) &&
    (flush == PartialFlush || flush == SyncFlush || flush == FullFlush ==> s.fits ==> Readable(s.out, s.total))
  }

  lemma ToldIs(s: Deflater, flush: Flush)
    ensures flush != PartialFlush && flush != SyncFlush && flush != FullFlush ==> Told(s, flush)
  {
    hide Readable;
  }

  lemma ToldNow(s: Deflater, flush: Flush, stream: seq<bool>, bits: seq<bool>, restart: Restart, spent: nat)
    requires s.out == s.b.w.pending && s.b.w.Stream() == stream + bits && s.b.w.biValid <= 7
    requires s.fits ==> Sent(true, false, stream, s.total, |s.total|, restart, spent)
    requires flush == SyncFlush || flush == FullFlush ==> s.b.w.biValid == 0 && EndsEmpty(stream + bits)
    requires flush == PartialFlush ==> |bits| == 10
    ensures Told(s, flush)
  {
    hide Readable, Sent, ByteBits, EndsEmpty;
    StreamIs(s.b.w);
    var rest := Bits(s.b.w.biBuf, s.b.w.biValid);
    BitsLength(s.b.w.biBuf, s.b.w.biValid);
    if flush == SyncFlush || flush == FullFlush {
      assert rest == [] && ByteBits(s.out) + rest == ByteBits(s.out);
      EndsWithEmptyBlock(s.out);
    }
    if s.fits && (flush == PartialFlush || flush == SyncFlush || flush == FullFlush) {
      SoonReadable(stream, s.total, restart, spent, bits, s.out, rest);
    }
  }

  /** The marker of a flush, and what a full flush does to the window. */
  method MarkBlock(s: Deflater, flush: Flush) returns (ghost bits: seq<bool>)
    requires AtString(s) && s.StreamOk(s.base + s.strstart) && s.lookahead == 0 && s.blockStart == s.strstart
    requires !s.finished && flush != NoFlush && flush != Finish
    modifies s.b.w, s.head, s`strstart, s`blockStart, s`insert, s`base, s`inserted, s`restart, s`spent
    ensures AtString(s) && s.StreamOk(s.base + s.strstart) && s.base + s.strstart == old(s.base + s.strstart)
    ensures s.blockStart == s.strstart && s.b.w.Stream() == old(s.b.w.Stream()) + bits && s.spent <= old(s.spent) + MARKER
    ensures flush == PartialFlush ==> |bits| == 10
    ensures flush == SyncFlush || flush == FullFlush ==> s.b.w.biValid == 0 && EndsEmpty(s.b.w.Stream())
    ensures if flush == FullFlush then s.restart.input == |s.total| && 8 * s.restart.output == |s.b.w.Stream()|
            else s.restart == old(s.restart)
  {
    hide *;
    bits := Marker(s, flush);
    if flush == FullFlush {
      ForgetHistory(s);
    }
  }

  /** The block of a flush is done: the marker goes out, and after a full flush decoding may begin here. */
  method AfterBlock(s: Deflater, flush: Flush)
    requires Rest(s) && !s.finished && Outcome(s, flush, BlockDone) && ParsedTo(s) == s.base + s.strstart
    modifies s.b.w, s.head, s`strstart, s`blockStart, s`insert, s`base, s`inserted, s`out, s`availOut, s`restart, s`spent
    ensures Rest(s) && |s.out| + s.availOut == old(|s.out| + s.availOut) && old(s.out) <= s.out
    ensures s.availOut > 0 ==> Flushed(s, Whole(flush))
    ensures s.spent <= old(s.spent) + MARKER
    ensures if flush == FullFlush then s.restart.input == |s.total| && 8 * s.restart.output == |s.b.w.Stream()|
            else s.restart == old(s.restart)
    ensures s.availOut > 0 ==> Told(s, flush)
  {
    hide *;
    RestFacts(s);
    AtBoundary(s);
    OutcomeMeans(s, flush, BlockDone);
    WholeIs(flush);
    WindowFacts(s);
    StreamFacts(s, s.base + s.strstart);
    ghost var stream, restart, spent := s.b.w.Stream(), s.restart, s.spent;
    ghost var bits := MarkBlock(s, flush);
    FlushWhole(s, s.base + s.strstart, Whole(flush));
    DrainedFacts(s);
    RestAgain(s);
    if s.availOut > 0 {
      IsFlushed(s, Whole(flush));
      ToldNow(s, flush, stream, bits, restart, spent);
    }
  }

  /** flush_pending does not leave bits over where there were none, and stops only for want of room. */
  method FlushWhole(s: Deflater, ghost upto: nat, ghost whole: bool)
    requires s.StreamOk(upto) && (whole ==> s.b.w.biValid == 0)
    modifies s.b.w, s`out, s`availOut
    ensures s.StreamOk(upto) && |s.out| + s.availOut == old(|s.out| + s.availOut) && old(s.out) <= s.out
    ensures s.availOut == 0 || s.out == s.b.w.pending
    ensures s.b.w.biValid <= 7 && (whole ==> s.b.w.biValid == 0) && s.b.w.Stream() == old(s.b.w.Stream())
    ensures s.out <= s.b.w.pending && (old(s.b.w.biValid) <= 7 ==> |s.b.w.pending| == old(|s.b.w.pending|))
  {
    hide *;
    StreamIs(s.b.w);
    BitsLength(s.b.w.biBuf, s.b.w.biValid);
    ghost var n, m := |s.b.w.pending|, s.b.w.biValid;
    ByteBitsSizes(s.b.w.pending, []);
    FlushPending(s, upto);
    StreamIs(s.b.w);
    BitsLength(s.b.w.biBuf, s.b.w.biValid);
    ByteBitsSizes(s.b.w.pending, []);
  }

  lemma OutcomeMeans(s: Deflater, flush: Flush, ret: BlockState)
    requires Outcome(s, flush, ret)
    ensures ret == NeedMore ==> !s.finished && (s.availOut == 0 || (flush == NoFlush && s.next == |s.input|))
    ensures ret == BlockDone ==>
      !s.finished && flush != NoFlush && flush != Finish && s.next == |s.input| && s.lookahead == 0 && s.blockStart == s.strstart
    ensures ret == FinishStarted ==> s.finished && flush == Finish && s.next == |s.input| && s.lookahead == 0 && s.availOut == 0
    ensures ret == FinishDone ==> s.finished && flush == Finish && s.next == |s.input| && s.lookahead == 0 && s.availOut > 0
  {
  }

  /** The last block has been written and all of it has gone out. */
  ghost predicate Complete(s: Deflater)
    reads s`finished, s`total, s`base, s`blockStart, s`out, s.b.w
  {
    s.finished && Flushed(s, true)
  }

  lemma IsComplete(s: Deflater, upto: nat)
    requires s.StreamOk(upto) && s.finished && Drained(s) && s.out == s.b.w.pending
    ensures Complete(s)
  {
    hide *;
    StreamFacts(s, upto);
    DrainedFacts(s);
    SizeFacts(s);
    BlockFacts(s.b);
    SentRange(s.fits, s.finished, s.b.w.Stream(), s.total, s.base + s.blockStart, s.restart, s.spent);
    IsFlushed(s, true);
    CompleteIs(s);
  }

  lemma CompleteIs(s: Deflater)
    ensures Complete(s) <==> s.finished && Flushed(s, true)
  {
    hide Flushed;
  }

  /** What a call returns, and why. */
  ghost predicate Returned(s: Deflater, flush: Flush, ret: Status)
    reads s`finished, s`total, s`base, s`blockStart, s`out, s.b.w, s`availOut, s`next, s`input
  {
    match ret
    case STREAM_END => flush == Finish && Complete(s) && s.next == |s.input|
    case OK =>
      s.availOut == 0 ||
      (flush != Finish && s.next == |s.input| && (flush != NoFlush ==> Flushed(s, Whole(flush))))
    case STREAM_ERROR => true
    case BUF_ERROR => true
  }

  lemma ReturnedIs(s: Deflater, flush: Flush, ret: Status)
    requires ret == STREAM_END ==> flush == Finish && Complete(s) && s.next == |s.input|
    requires ret == OK ==>
      (s.availOut == 0 || (flush != Finish && s.next == |s.input| && (flush != NoFlush ==> Flushed(s, Whole(flush)))))
    ensures Returned(s, flush, ret)
  {
    hide Complete, Flushed, Whole;
  }

  /** The caller's buffers are taken up. */
  method SetBuffers(s: Deflater, input: seq<byte>, avail: nat)
    requires Rest(s)
    modifies s`input, s`next, s`availOut
    ensures Rest(s) && s.input == input && s.next == 0 && s.availOut == avail
  {
    hide *;
    if s.level <= 3 {
      RestIsSteady(s);
      SteadyParts(s);
      s.input, s.next, s.availOut := input, 0, avail;
      IsSteady(s);
      RestIsSteady(s);
    } else {
      RestIsLazy(s);
      LazyParts(s);
      UptoIs(s);
      s.input, s.next, s.availOut := input, 0, avail;
      UptoIs(s);
      IsLazy(s, Upto(s));
      RestIsLazy(s);
    }
  }

  method SetLastFlush(s: Deflater, f: LastFlush)
    requires Rest(s)
    modifies s`lastFlush
    ensures Rest(s) && s.lastFlush == f
  {
    hide *;
    if s.level <= 3 {
      RestIsSteady(s);
      SteadyParts(s);
      s.lastFlush := f;
      IsSteady(s);
      RestIsSteady(s);
    } else {
      RestIsLazy(s);
      LazyParts(s);
      UptoIs(s);
      s.lastFlush := f;
      UptoIs(s);
      IsLazy(s, Upto(s));
      RestIsLazy(s);
    }
  }

  /** Pending output from earlier calls. */
  method FlushFirst(s: Deflater)
    requires Rest(s)
    modifies s.b.w, s`out, s`availOut
    ensures Rest(s) && |s.out| + s.availOut == old(|s.out| + s.availOut) && old(s.out) <= s.out
    ensures s.availOut == 0 || s.out == s.b.w.pending
    ensures s.out <= s.b.w.pending && |s.b.w.pending| == old(|s.b.w.pending|)
  {
    hide *;
    RestFacts(s);
    DrainedFacts(s);
    if s.level <= 3 {
      RestIsSteady(s);
      SteadyParts(s);
      FlushWhole(s, s.base + s.strstart, s.finished);
      DrainedFacts(s);
      IsSteady(s);
      RestIsSteady(s);
    } else {
      RestIsLazy(s);
      LazyParts(s);
      UptoIs(s);
      FlushWhole(s, Upto(s), s.finished);
      DrainedFacts(s);
      UptoIs(s);
      IsLazy(s, Upto(s));
      RestIsLazy(s);
    }
  }

  /** What has gone out is the beginning of what was written. */
  lemma OutWithinPending(s: Deflater)
    requires Rest(s)
    ensures s.out <= s.b.w.pending
  {
    hide *;
    RestFacts(s);
    StreamFacts(s, ParsedTo(s));
    StreamIs(s.b.w);
    DrainedFacts(s);
    BitsLength(s.b.w.biBuf, s.b.w.biValid);
    OutIsPrefix(s.out, s.b.w.pending, Bits(s.b.w.biBuf, s.b.w.biValid));
  }

  lemma BitsLength(v: nat, n: nat)
    ensures |Bits(v, n)| == n
  {
  }

  /** After the last block there is nothing to look at. */
  lemma NothingAfterEnd(s: Deflater)
    requires Rest(s) && s.finished
    ensures s.lookahead == 0
  {
    hide *;
    RestFacts(s);
    StreamFacts(s, ParsedTo(s));
    SizeFacts(s);
    BlockFacts(s.b);
    ParsedFacts(s.total, s.restart.input, s.base + s.blockStart, s.b.Tokens(), ParsedTo(s), MaxDist(s.z));
    SentRange(s.fits, s.finished, s.b.w.Stream(), s.total, s.base + s.blockStart, s.restart, s.spent);
  }

  /** The bits that a call may take beyond those for the data. */
  function FlushCost(flush: Flush): nat {
    if flush == NoFlush then 0 else if flush == Finish then SHORT_BLOCK else SHORT_BLOCK + MARKER
  }

  lemma FlushCostIs(flush: Flush)
    ensures FlushCost(flush) == if flush == NoFlush then 0 else if flush == Finish then SHORT_BLOCK else SHORT_BLOCK + MARKER
  {
  }

  /** After a full flush that had room enough, decoding may begin after what has gone out. */
  lemma RestartIsHere(s: Deflater)
    requires Flushed(s, true) && s.restart.input == |s.total| && 8 * s.restart.output == |s.b.w.Stream()|
    ensures s.restart == Restart(|s.total|, |s.out|)
  {
    hide *;
    FlushedIs(s, true);
    WholeBytes(s.b.w);
  }

  lemma FlushedIs(s: Deflater, whole: bool)
    requires Flushed(s, whole)
    ensures s.out == s.b.w.pending && s.base + s.blockStart == |s.total| && (whole ==> s.b.w.biValid == 0)
  {
  }

  /** The frame of full flushes: where decoding may begin stays, or comes to the end of the input. */
  ghost predicate Restarted(s: Deflater, before: Restart, flush: Flush)
    reads s`restart, s`total, s`next, s`input
  {
    s.restart == before || (flush == FullFlush && s.restart.input == |s.total| && s.next == |s.input|)
  }

  lemma RestartedIs(s: Deflater, before: Restart, flush: Flush)
    ensures Restarted(s, before, flush) <==>
      s.restart == before || (flush == FullFlush && s.restart.input == |s.total| && s.next == |s.input|)
  {
  }

  /** The compression function, and what its outcome calls for; whether the call ends with that. */
  method CompressOnce(s: Deflater, flush: Flush) returns (stop: bool)
    requires Rest(s) && !s.finished && s.availOut > 0
    modifies s.window, s.head, s.prev, s`strstart, s`matchStart, s`matchLength, s`blockStart, s`base, s`lookahead, s`next, s`total
    modifies s`prevLength, s`prevMatch, s`matchAvailable, s`lastFlush, s`restart
    modifies s`insH, s`insert, s`inserted, s`highWater, s`fits, s`spent, s`finished, s`out, s`availOut
    modifies s.b, s.b.w, s.b.s, s.b.s.heap, s.b.s.depth, s.b.s.blCount, s.b.lFc, s.b.lDl, s.b.dFc, s.b.dDl, s.b.bFc, s.b.bDl
    modifies s.b.dBuf, s.b.lBuf
    ensures Rest(s) && s.spent <= old(s.spent) + FlushCost(flush)
    ensures s.lastFlush == if s.availOut == 0 then -1 else old(s.lastFlush)
    ensures Restarted(s, old(s.restart), flush)
    ensures flush == FullFlush && s.availOut > 0 ==> s.restart == Restart(|s.total|, |s.out|)
    ensures old(s.next) <= s.next <= |s.input| && s.total == old(s.total) + s.input[old(s.next)..s.next]
    ensures |s.out| + s.availOut == old(|s.out| + s.availOut) && old(s.out) <= s.out
    ensures stop ==> s.availOut == 0 || (flush == NoFlush && s.next == |s.input|)
    ensures !stop ==> s.availOut > 0 && s.next == |s.input| && flush != NoFlush
    ensures !stop ==> if flush == Finish then s.finished && s.out == s.b.w.pending else Flushed(s, Whole(flush)) && Told(s, flush)
  {
    hide *;
    FlushCostIs(flush);
    RestartedIs(s, s.restart, flush);
    var state := Compress(s, flush);
    OutcomeMeans(s, flush, state);
    RestartedIs(s, s.restart, flush);
    stop := state == NeedMore || state == FinishStarted;
    if state == BlockDone {
      RestFacts(s);
      ghost var before := s.restart;
      AfterBlock(s, flush);
      RestartedIs(s, before, flush);
      if flush == FullFlush && s.availOut > 0 {
        WholeIs(flush);
        RestartIsHere(s);
      }
      stop := s.availOut == 0;
    }
    if stop && s.availOut == 0 {
      SetLastFlush(s, -1);
    }
  }

  /** deflate from "Start a new block or continue the current one" on. */
  method DeflateBlocks(s: Deflater, flush: Flush) returns (ret: Status)
    requires Rest(s) && (s.finished ==> flush == Finish && s.next == |s.input|) && s.availOut > 0
    requires s.finished ==> s.out == s.b.w.pending
    modifies s.window, s.head, s.prev, s`strstart, s`matchStart, s`matchLength, s`blockStart, s`base, s`lookahead, s`next, s`total
    modifies s`prevLength, s`prevMatch, s`matchAvailable, s`lastFlush, s`restart
    modifies s`insH, s`insert, s`inserted, s`highWater, s`fits, s`spent, s`finished, s`out, s`availOut
    modifies s.b, s.b.w, s.b.s, s.b.s.heap, s.b.s.depth, s.b.s.blCount, s.b.lFc, s.b.lDl, s.b.dFc, s.b.dDl, s.b.bFc, s.b.bDl
    modifies s.b.dBuf, s.b.lBuf
    ensures Rest(s) && Returned(s, flush, ret) && s.spent <= old(s.spent) + FlushCost(flush)
    ensures s.lastFlush == if s.availOut == 0 then -1 else old(s.lastFlush)
    ensures Restarted(s, old(s.restart), flush)
    ensures flush == FullFlush && ret == OK && s.availOut > 0 ==> s.restart == Restart(|s.total|, |s.out|)
    ensures ret == OK && s.availOut > 0 ==> Told(s, flush)
    ensures old(s.next) <= s.next <= |s.input| && s.total == old(s.total) + s.input[old(s.next)..s.next]
    ensures |s.out| + s.availOut == old(|s.out| + s.availOut) && old(s.out) <= s.out
    ensures ret == OK || ret == STREAM_END
  {
    hide *;
    RestFacts(s);
    FlushCostIs(flush);
    RestartedIs(s, s.restart, flush);
    ToldIs(s, flush);
    assert s.total == s.total + s.input[s.next..s.next];
    if s.finished {
      NothingAfterEnd(s);
    }
    if s.next < |s.input| || s.lookahead != 0 || (flush != NoFlush && !s.finished) {
      var stop := CompressOnce(s, flush);
      ToldIs(s, flush);
      if stop {
        ReturnedIs(s, flush, OK);
        return OK;
      }
    }
    if flush != Finish {
      ReturnedIs(s, flush, OK);
      return OK;
    }
    RestFacts(s);
    IsComplete(s, ParsedTo(s));
    ReturnedIs(s, flush, STREAM_END);
    return STREAM_END;
  }

  /** Between calls, what has gone out is at most so much longer than what was read. */
  lemma Expansion(s: Deflater)
    requires Rest(s)
    ensures 1016 * |s.out| <= 1153 * |s.total| + 127 * s.spent
  {
    hide *;
    RestFacts(s);
    StreamFacts(s, ParsedTo(s));
    SentFacts(s.fits, s.finished, s.b.w.Stream(), s.total, s.base + s.blockStart, s.restart, s.spent);
    SentRange(s.fits, s.finished, s.b.w.Stream(), s.total, s.base + s.blockStart, s.restart, s.spent);
    ByteBitsSizes(s.out, []);
  }

  /** deflateBound for raw data, but for the settings that have a tighter bound. */
  function DeflateBound(sourceLen: nat): nat {
    sourceLen + (sourceLen + 7) / 8 + (sourceLen + 63) / 64 + 5
  }

  /** The calls for which there is nothing to do, or no room to do it. */
  ghost predicate Idle(finished: bool, pending: int, last: LastFlush, input: seq<byte>, avail: nat, flush: Flush) {
    !(finished && flush != Finish) &&
    (avail == 0 || (pending == 0 && input == [] && flush != Finish && AskedBefore(flush, last)) ||
     (finished && input != [] && pending < avail))
  }

  lemma IdleIs(finished: bool, pending: int, last: LastFlush, input: seq<byte>, avail: nat, flush: Flush)
    ensures Idle(finished, pending, last, input, avail, flush) <==>
      !(finished && flush != Finish) &&
      (avail == 0 || (pending == 0 && input == [] && flush != Finish && FlushRank(FlushCode(flush)) <= FlushRank(last)) ||
       (finished && input != [] && pending < avail))
  {
    hide AskedBefore, FlushRank, FlushCode;
    RankOrders(flush, last);
  }

  /** What is left of earlier calls goes out first; whether this call goes on after that. */
  method BeginCall(s: Deflater, input: seq<byte>, avail: nat, flush: Flush) returns (ret: Status, go: bool)
    requires Rest(s) && (s.finished ==> flush == Finish) && avail > 0
    modifies s`input, s`next, s`availOut, s`lastFlush, s`out, s.b.w
    ensures Rest(s) && s.input == input && s.next == 0 && |s.out| + s.availOut == |old(s.out)| + avail && old(s.out) <= s.out
    ensures go ==> s.availOut > 0 && s.lastFlush == FlushCode(flush) && (s.finished ==> s.out == s.b.w.pending && input == [])
    ensures go || ret == OK ==> !Idle(old(s.finished), old(|s.b.w.pending| - |s.out|), old(s.lastFlush), input, avail, flush)
    ensures !go ==> ret == OK || ret == BUF_ERROR
    ensures !go && ret == OK ==> s.availOut == 0 && s.lastFlush == -1
    ensures !go && ret == BUF_ERROR ==>
      s.availOut > 0 && s.lastFlush == FlushCode(flush) &&
      Idle(old(s.finished), old(|s.b.w.pending| - |s.out|), old(s.lastFlush), input, avail, flush)
  {
    hide *;
    OutWithinPending(s);
    IdleIs(s.finished, |s.b.w.pending| - |s.out|, s.lastFlush, input, avail, flush);
    SetBuffers(s, input, avail);
    var oldFlush := s.lastFlush;
    SetLastFlush(s, FlushCode(flush));
    ret, go := OK, false;
    if |s.out| < |s.b.w.pending| {
      FlushFirst(s);
      if s.availOut == 0 {
        SetLastFlush(s, -1);
        return;
      }
    } else if |input| == 0 && FlushRank(FlushCode(flush)) <= FlushRank(oldFlush) && flush != Finish {
      return BUF_ERROR, false;
    }
    if s.finished && |input| != 0 {
      return BUF_ERROR, false;
    }
    go := true;
  }

  /** So much room that a call with Z_FINISH cannot fill it. */
  ghost predicate Ample(total: seq<byte>, out: seq<byte>, spent: nat, input: seq<byte>, avail: nat) {
    1016 * (|out| + avail) > 1153 * (|total| + |input|) + 127 * (spent + SHORT_BLOCK)
  }

  lemma AmpleIs(total: seq<byte>, out: seq<byte>, spent: nat, input: seq<byte>, avail: nat)
    ensures Ample(total, out, spent, input, avail) <==>
      1016 * (|out| + avail) > 1153 * (|total| + |input|) + 127 * (spent + SHORT_BLOCK)
  {
  }

  /** At the beginning, deflateBound is ample. */
  lemma BoundIsAmple(s: Deflater, input: seq<byte>, avail: nat)
    ensures Untouched(s) && avail >= DeflateBound(|input|) ==>
      Ample(s.total, s.out, s.spent, input, avail) && avail > 0 && !s.finished
  {
  }

  /** deflate, for raw data: reads from input, and gives at most avail bytes. */
  method Deflate(s: Deflater, input: seq<byte>, avail: nat, flush: Flush) returns (ret: Status, consumed: nat)
    requires Rest(s)
    modifies s, s.window, s.head, s.prev
    modifies s.b, s.b.w, s.b.s, s.b.s.heap, s.b.s.depth, s.b.s.blCount, s.b.lFc, s.b.lDl, s.b.dFc, s.b.dDl, s.b.bFc, s.b.bDl
    modifies s.b.dBuf, s.b.lBuf
    ensures Rest(s) && consumed <= |input| && s.total == old(s.total) + input[..consumed]
    ensures old(s.out) <= s.out && |s.out| - |old(s.out)| <= avail
    ensures ret == STREAM_ERROR <==> old(s.finished) && flush != Finish
    ensures ret == BUF_ERROR <==>
      Idle(old(s.finished), old(|s.b.w.pending| - |s.out|), old(s.lastFlush), input, avail, flush)
    ensures ret == STREAM_ERROR || ret == BUF_ERROR ==> consumed == 0
    ensures ret == STREAM_END ==> flush == Finish && consumed == |input| && Complete(s)
    ensures ret == OK && |s.out| - |old(s.out)| < avail ==>
      (flush != Finish && consumed == |input| && (flush != NoFlush ==> Flushed(s, Whole(flush))))
    ensures flush == Finish && !old(s.finished) && avail > 0 && old(Ample(s.total, s.out, s.spent, input, avail)) ==> ret == STREAM_END
    ensures flush == Finish && old(Untouched(s)) && avail >= DeflateBound(|input|) ==> ret == STREAM_END
    ensures s.lastFlush ==
      if ret == STREAM_ERROR || avail == 0 then old(s.lastFlush)
      else if |s.out| - |old(s.out)| == avail then -1 else FlushCode(flush)
    ensures s.restart == old(s.restart) || (flush == FullFlush && s.restart.input == |s.total| && consumed == |input|)
    ensures ret == OK && |s.out| - |old(s.out)| < avail ==> Told(s, flush)
    ensures flush == FullFlush && ret == OK && |s.out| - |old(s.out)| < avail ==> s.restart == Restart(|s.total|, |s.out|)
    ensures s.spent <= old(s.spent) + FlushCost(flush)
  {
    hide *;
    IdleIs(s.finished, |s.b.w.pending| - |s.out|, s.lastFlush, input, avail, flush);
    AmpleIs(s.total, s.out, s.spent, input, avail);
    BoundIsAmple(s, input, avail);
    FlushCostIs(flush);
    assert s.total == s.total + input[..0];
    if s.finished && flush != Finish {
      return STREAM_ERROR, 0;
    }
    if avail == 0 {
      return BUF_ERROR, 0;
    }
    var go;
    ghost var restart0 := s.restart;
    ret, go := BeginCall(s, input, avail, flush);
    consumed := 0;
    if go {
      ret := DeflateBlocks(s, flush);
      consumed := s.next;
      ReturnedMeans(s, flush, ret);
      RestartedIs(s, restart0, flush);
      assert input[0..consumed] == input[..consumed];
    }
    Expansion(s);
  }

  lemma ReturnedMeans(s: Deflater, flush: Flush, ret: Status)
    requires Returned(s, flush, ret)
    ensures ret == STREAM_END ==> flush == Finish && Complete(s) && s.next == |s.input|
    ensures ret == OK ==>
      (s.availOut == 0 || (flush != Finish && s.next == |s.input| && (flush != NoFlush ==> Flushed(s, Whole(flush)))))
  {
    hide Complete, Flushed, Whole;
  }
}
