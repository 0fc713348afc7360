/** deflate_slow of deflate.c: a match is taken only if there is no better one at the next position. */
module DeflateSlow {
  import opened Machine
  import opened BitStrings
  import opened Hashing
  import opened HashChains
  import opened BitWriter
  import opened BlockFormat
  import opened Blocks
  import opened DeflateState
  import opened LongestMatch
  import opened FillWindow
  import opened DeflateOutput
  import opened DeflateFast

  const TOO_FAR: nat := 4096

  /** How far the parse has come: a byte is kept back while the match at it may be bettered. */
  ghost function Upto(s: Deflater): int
    reads s`base, s`strstart, s`matchAvailable
  {
    s.base + s.strstart - if s.matchAvailable then 1 else 0
  }

  /** The match kept back is a true one, within reach; its distance survives the wrapping of match_start. */
  ghost predicate Deferred(s: Deflater)
    reads s`base, s`strstart, s`matchAvailable, s`matchLength, s`matchStart, s`total, s`restart
  {
    2 <= s.matchLength <= 258 && (s.matchAvailable ==> s.strstart >= 1) &&
    (s.matchLength >= 3 ==>
       s.matchAvailable && Emittable(s.total, s.restart.input, s.base + s.strstart - 1, Wrap(s.strstart - 1 - s.matchStart), s.matchLength, s.z))
  }

  /** A match that may be emitted. */
  ghost predicate Emittable(total: seq<byte>, since: nat, at: int, dist: nat, len: nat, z: Sizes) {
    at >= 0 && ValidSizes(z) && dist <= MaxDist(z) && since + dist <= at && Repeats(total, at, dist, len)
  }

  lemma EmittableFacts(total: seq<byte>, since: nat, at: int, dist: nat, len: nat, z: Sizes)
    requires Emittable(total, since, at, dist, len, z)
    ensures at >= 1 && ValidSizes(z) && 1 <= dist <= MaxDist(z) && since + dist <= at && Repeats(total, at, dist, len) && at + len <= |total|
  {
  }

  lemma IsEmittable(total: seq<byte>, since: nat, at: int, dist: nat, len: nat, z: Sizes)
    requires at >= 0 && ValidSizes(z) && dist <= MaxDist(z) && since + dist <= at && Repeats(total, at, dist, len)
    ensures Emittable(total, since, at, dist, len, z)
  {
  }

  lemma EmittableLater(total: seq<byte>, more: seq<byte>, since: nat, at: int, dist: nat, len: nat, z: Sizes)
    requires Emittable(total, since, at, dist, len, z)
    ensures Emittable(total + more, since, at, dist, len, z)
  {
    RepeatGrows(total, more, at, dist, len);
  }

  lemma DeferredFacts(s: Deflater)
    requires Deferred(s)
    ensures 2 <= s.matchLength <= 258 && (s.matchAvailable ==> s.strstart >= 1)
    ensures s.matchLength >= 3 ==>
      s.matchAvailable && Emittable(s.total, s.restart.input, s.base + s.strstart - 1, Wrap(s.strstart - 1 - s.matchStart), s.matchLength, s.z)
  {
    hide Emittable;
  }

  lemma IsDeferred(s: Deflater)
    requires 2 <= s.matchLength <= 258 && (s.matchAvailable ==> s.strstart >= 1)
    requires s.matchLength >= 3 ==>
      s.matchAvailable && Emittable(s.total, s.restart.input, s.base + s.strstart - 1, Wrap(s.strstart - 1 - s.matchStart), s.matchLength, s.z)
    ensures Deferred(s)
  {
    hide Emittable;
  }

  lemma UptoIs(s: Deflater)
    ensures Upto(s) == s.base + s.strstart - if s.matchAvailable then 1 else 0
  {
  }

  /** What holds between one string and the next. */
  ghost predicate Lazy(s: Deflater)
    reads s, s.window, s.head, s.prev, s.b, s.b.w, s.b.s, s.b.s.depth, s.b.lFc, s.b.dFc, s.b.bFc, s.b.dBuf, s.b.lBuf
    reads s.b.t.lengthCode, s.b.t.baseLength, s.b.t.distCode, s.b.t.baseDist, s.b.t.ltFc, s.b.t.ltDl, s.b.t.dtFc, s.b.t.dtDl
  {
    AtString(s) && Deferred(s) && Upto(s) >= 0 && s.StreamOk(Upto(s)) && Room(s) && s.next <= |s.input| &&
    s.highWater <= s.window.Length && Drained(s)
  }

  lemma LazyParts(s: Deflater)
    requires Lazy(s)
    ensures AtString(s) && Deferred(s) && Upto(s) >= 0 && s.StreamOk(Upto(s)) && Room(s) && s.next <= |s.input|
    ensures s.highWater <= s.window.Length && Drained(s)
  {
    hide Chains, Rolled, Parsed, Sent, ByteBits, Deferred;
  }

  lemma IsLazy(s: Deflater, upto: nat)
    requires AtString(s) && Deferred(s) && Upto(s) == upto && s.StreamOk(upto) && Room(s) && s.next <= |s.input|
    requires s.highWater <= s.window.Length && Drained(s)
    ensures Lazy(s)
  {
    hide Chains, Rolled, Parsed, Sent, ByteBits, Deferred;
  }

  /** When the window slides under a deferred match, its distance stays what it was. */
  lemma DistanceStays(strstart: nat, matchStart: nat, d: nat)
    requires d <= strstart
    ensures Wrap((strstart - d) - 1 - Moved(matchStart, d)) == Wrap(strstart - 1 - matchStart)
  {
  }

  /** fill_window, with a match deferred. */
  method FillLazy(s: Deflater, ghost first: seq<byte>, ghost since: nat)
    requires Lazy(s) && !s.finished && s.lookahead < MIN_LOOKAHEAD
    requires since <= s.next <= |s.input| && s.total == first + s.input[since..s.next]
    modifies s.window, s.head, s.prev, s`strstart, s`matchStart, s`blockStart, s`base, s`lookahead, s`next, s`total
    modifies s`insH, s`insert, s`inserted, s`highWater
    ensures Lazy(s) && s.strstart + MIN_LOOKAHEAD <= s.window.Length
    ensures s.lookahead >= MIN_LOOKAHEAD || s.next == |s.input|
    ensures old(s.next) <= s.next <= |s.input| && s.total == first + s.input[since..s.next]
    ensures s.lookahead == old(s.lookahead) + s.next - old(s.next) && s.base + s.strstart == old(s.base + s.strstart)
  {
    hide *;
    LazyParts(s);
    DeferredFacts(s);
    AtStringParts(s);
    WindowFacts(s);
    SizeFacts(s);
    UptoIs(s);
    ghost var total0, next0, base0, upto := s.total, s.next, s.base, Upto(s);
    ghost var strstart0: int, match0: int := s.strstart, s.matchStart;
    Fill(s, upto);
    InitialisedFacts(s);
    DistanceStays(strstart0, match0, s.base - base0);
    if s.matchLength >= 3 {
      EmittableLater(total0, s.input[next0..s.next], s.restart.input, base0 + strstart0 - 1, Wrap(strstart0 - 1 - match0), s.matchLength, s.z);
    }
    UptoIs(s);
    SlicesJoin(s.input, since, next0, s.next);
    IsDeferred(s);
    IsLazy(s, upto);
  }

  lemma LazyLevel(s: Deflater)
    requires s.Sized()
    ensures 1 <= s.level < |LAZY| && LAZY[s.level] <= 258
  {
    LevelFacts(s.level);
  }

  lemma WrapSmall(a: nat, b: nat)
    requires b <= a < 0x1_0000_0000
    ensures Wrap(a - b) == a - b
  {
  }

  /** The search at the current string, given the length at the one before. */
  method SearchLazy(s: Deflater, hashHead: nat)
    requires PastString(s) && HeadOf(s, hashHead) && s.strstart + MIN_LOOKAHEAD <= s.window.Length && 2 <= s.prevLength <= 258
    requires s.restart.input <= s.base
    modifies s`matchLength, s`matchStart
    ensures 2 <= s.matchLength <= 258
    ensures s.matchLength > s.prevLength ==>
      (s.matchStart < s.strstart && Emittable(s.total, s.restart.input, s.base + s.strstart, s.strstart - s.matchStart, s.matchLength, s.z))
    ensures s.Sized() && 1 <= s.level < |LAZY|
    ensures s.prevLength >= LAZY[s.level] ==> s.matchLength == 2
    ensures hashHead != 0 && s.prevLength < LAZY[s.level] && s.strstart - hashHead <= MaxDist(s.z) ==>
      NoShorter(s, hashHead, if s.strategy == Filtered then 6 else 4, s.matchLength)
  {
    hide *;
    PastStringParts(s);
    InsertFacts(s);
    WindowFacts(s);
    SizeFacts(s);
    LazyLevel(s);
    s.matchLength := 2;
    if hashHead != 0 {
      HeadOfFacts(s, hashHead);
      if s.prevLength < LAZY[s.level] && s.strstart - hashHead <= MaxDist(s.z) {
        ghost var visited;
        s.matchLength, visited := FindLongest(s, hashHead);
        if s.matchLength > s.prevLength {
          IsEmittable(s.total, s.restart.input, s.base + s.strstart, s.strstart - s.matchStart, s.matchLength, s.z);
        }
        ghost var least, len := if s.strategy == Filtered then 6 else 4, s.matchLength;
        HeadNoLonger(s, visited, hashHead, len, least);
        if s.matchLength <= 5 && (s.strategy == Filtered || (s.matchLength == 3 && Wrap(s.strstart - s.matchStart) > TOO_FAR)) {
          s.matchLength := 2;
          NoShorterFrom(s, hashHead, least, len, least, 2);
        }
      }
    }
  }

  /** Over a deferred match: its strings but the first two are inserted, as far as there is input for them. */
  method InsertRest(s: Deflater)
    requires PastString(s) && 3 <= s.prevLength && s.prevLength - 1 <= s.lookahead && s.strstart >= 1
    modifies s`strstart, s`lookahead, s`prevLength, s`insH, s.prev, s.head, s`inserted
    ensures AtString(s) && s.strstart == old(s.strstart + s.prevLength) - 1 && s.lookahead == old(s.lookahead) + 1 - old(s.prevLength)
    ensures s.prevLength == 0
  {
    hide *;
    ghost var strstart0, lookahead0, length0 := s.strstart, s.lookahead, s.prevLength;
    var maxInsert := s.strstart + s.lookahead - 3;
    s.prevLength := s.prevLength - 2;
    while true
      invariant PastString(s) && 1 <= s.prevLength <= length0 - 2
      invariant s.strstart == strstart0 + (length0 - 2 - s.prevLength) && s.lookahead == lookahead0 - (length0 - 2 - s.prevLength)
      decreases s.prevLength
    {
      Advance(s);
      if s.strstart <= maxInsert {
        var _ := InsertCurrent(s);
      } else {
        TooShort(s);
      }
      s.prevLength := s.prevLength - 1;
      if s.prevLength == 0 {
        break;
      }
    }
    Advance(s);
  }

  /** What FLUSH_BLOCK needs and keeps. */
  method FlushLazy(s: Deflater, last: bool) returns (stop: bool)
    requires AtString(s) && Deferred(s) && !s.matchAvailable && s.StreamOk(s.base + s.strstart) && !s.finished
    requires s.strstart < 65536 && (last ==> s.lookahead == 0) && s.next <= |s.input| && s.highWater <= s.window.Length
    modifies s`blockStart, s`fits, s`spent, s`finished, s`out, s`availOut, s.b, s.b.w, s.b.s, s.b.s.heap, s.b.s.depth, s.b.s.blCount
    modifies s.b.lFc, s.b.lDl, s.b.dFc, s.b.dDl, s.b.bFc, s.b.bDl
    ensures Lazy(s) && s.blockStart == s.strstart && s.finished == last && (stop <==> s.availOut == 0)
    ensures s.spent == old(s.spent) + if !last && old(LongBlock(s)) then 0 else SHORT_BLOCK
    ensures |s.out| + s.availOut == old(|s.out| + s.availOut) && old(s.out) <= s.out <= s.b.w.pending
    ensures stop || s.out == s.b.w.pending
  {
    hide *;
    AtStringParts(s);
    FlushBlockOnly(s, last);
    stop := s.availOut == 0;
    UptoIs(s);
    IsLazy(s, s.base + s.strstart);
  }

  /** The previous match is at least as good: it is tallied. */
  method EmitPrevious(s: Deflater) returns (full: bool)
    requires PastString(s) && s.matchAvailable && s.strstart >= 1 && s.StreamOk(s.base + s.strstart - 1) && Room(s)
    requires 3 <= s.prevLength <= 258
    requires Emittable(s.total, s.restart.input, s.base + s.strstart - 1, Wrap(s.strstart - 1 - s.prevMatch), s.prevLength, s.z)
    modifies s`strstart, s`lookahead, s`prevLength, s`matchLength, s`matchAvailable, s`insH, s.prev, s.head, s`inserted
    modifies s.b, s.b.dBuf, s.b.lBuf, s.b.lFc, s.b.dFc
    ensures AtString(s) && s.StreamOk(s.base + s.strstart) && (full || Room(s)) && (full ==> LongBlock(s))
    ensures Deferred(s) && !s.matchAvailable
    ensures s.strstart == old(s.strstart + s.prevLength) - 1 && s.strstart + s.lookahead == old(s.strstart + s.lookahead)
  {
    hide *;
    PastStringParts(s);
    WindowFacts(s);
    EmittableFacts(s.total, s.restart.input, s.base + s.strstart - 1, Wrap(s.strstart - 1 - s.prevMatch), s.prevLength, s.z);
    ghost var upto := s.base + s.strstart - 1 + s.prevLength;
    full := TallyMatch(s, Wrap(s.strstart - 1 - s.prevMatch), s.prevLength, s.base + s.strstart - 1);
    InsertRest(s);
    s.matchAvailable := false;
    s.matchLength := 2;
    IsDeferred(s);
    assert s.base + s.strstart == upto;
  }

  /** A byte on, with the match at the byte before deferred. */
  method DeferMatch(s: Deflater)
    requires PastString(s) && s.matchAvailable && s.StreamOk(s.base + s.strstart) && Room(s) && s.next <= |s.input|
    requires s.highWater <= s.window.Length && 2 <= s.matchLength <= 258 && Drained(s)
    requires s.matchLength >= 3 ==>
      (s.matchStart < s.strstart && Emittable(s.total, s.restart.input, s.base + s.strstart, s.strstart - s.matchStart, s.matchLength, s.z))
    modifies s`strstart, s`lookahead
    ensures Lazy(s) && s.strstart == old(s.strstart) + 1 && s.lookahead == old(s.lookahead) - 1
  {
    hide *;
    PastStringParts(s);
    WindowFacts(s);
    SizeFacts(s);
    ghost var upto := s.base + s.strstart;
    if s.matchLength >= 3 {
      WrapSmall(s.strstart, s.matchStart);
    }
    Advance(s);
    assert s.base + s.strstart - 1 == upto;
    IsDeferred(s);
    UptoIs(s);
    IsLazy(s, upto);
  }

  /** The byte before is a literal after all. */
  method EmitLiteral(s: Deflater) returns (full: bool)
    requires s.WindowOk() && s.strstart >= 1 && s.StreamOk(s.base + s.strstart - 1) && Room(s)
    modifies s.b, s.b.dBuf, s.b.lBuf, s.b.lFc, s.b.dFc
    ensures s.StreamOk(s.base + s.strstart) && (full || Room(s)) && (full ==> LongBlock(s))
  {
    hide *;
    WindowFacts(s);
    WindowAt(s, s.strstart - 1);
    full := TallyLiteral(s, s.window[s.strstart - 1], s.base + s.strstart - 1);
  }

  // ---- The loop

  /** The string is inserted and looked for; the match at the byte before, if any, is still a true one. */
  method Look(s: Deflater)
    requires Lazy(s) && s.lookahead > 0 && s.strstart + MIN_LOOKAHEAD <= s.window.Length
    modifies s`insH, s.prev, s.head, s`inserted, s`prevLength, s`prevMatch, s`matchLength, s`matchStart
    ensures PastString(s) && 2 <= s.matchLength <= 258 && 2 <= s.prevLength <= 258
    ensures s.prevLength >= 3 ==>
      (s.matchAvailable && s.strstart >= 1 &&
       Emittable(s.total, s.restart.input, s.base + s.strstart - 1, Wrap(s.strstart - 1 - s.prevMatch), s.prevLength, s.z))
    ensures s.matchLength > s.prevLength ==>
      (s.matchStart < s.strstart && Emittable(s.total, s.restart.input, s.base + s.strstart, s.strstart - s.matchStart, s.matchLength, s.z))
    ensures s.prevLength == old(s.matchLength) && s.prevMatch == old(s.matchStart) && s.Sized() && 1 <= s.level < |LAZY|
    ensures s.prevLength >= LAZY[s.level] ==> s.matchLength == 2
    ensures var head := ChainHead(old(s.head[..]), s.total, s.base + s.strstart, s.z);
            head != 0 && s.prevLength < LAZY[s.level] && s.strstart - head <= MaxDist(s.z) ==>
            NoShorter(s, head, if s.strategy == Filtered then 6 else 4, s.matchLength)
  {
    hide *;
    LazyParts(s);
    DeferredFacts(s);
    StreamFacts(s, Upto(s));
    var hashHead := InsertHere(s);
    s.prevLength, s.prevMatch := s.matchLength, s.matchStart;
    SearchLazy(s, hashHead);
  }

  /** The previous match goes out, and the block if that is full. */
  method StepEmit(s: Deflater) returns (stop: bool)
    requires PastString(s) && s.matchAvailable && s.strstart >= 1 && s.StreamOk(s.base + s.strstart - 1) && Room(s)
    requires 3 <= s.prevLength <= 258 && Drained(s) && !s.finished && s.next <= |s.input| && s.highWater <= s.window.Length
    requires Emittable(s.total, s.restart.input, s.base + s.strstart - 1, Wrap(s.strstart - 1 - s.prevMatch), s.prevLength, s.z)
    requires s.strstart + MIN_LOOKAHEAD <= s.window.Length
    modifies s`strstart, s`lookahead, s`prevLength, s`matchLength, s`matchAvailable, s`insH, s.prev, s.head, s`inserted
    modifies s`blockStart, s`fits, s`spent, s`finished, s`out, s`availOut, s.b, s.b.w, s.b.s, s.b.s.heap, s.b.s.depth, s.b.s.blCount
    modifies s.b.lFc, s.b.lDl, s.b.dFc, s.b.dDl, s.b.bFc, s.b.bDl, s.b.dBuf, s.b.lBuf
    ensures Lazy(s) && !s.finished && (stop ==> s.availOut == 0) && s.spent == old(s.spent)
    ensures |s.out| + s.availOut == old(|s.out| + s.availOut) && old(s.out) <= s.out
    ensures s.strstart == old(s.strstart + s.prevLength) - 1 && s.strstart + s.lookahead == old(s.strstart + s.lookahead)
  {
    hide *;
    PastStringParts(s);
    WindowFacts(s);
    SizeFacts(s);
    var full := EmitPrevious(s);
    stop := false;
    if full {
      stop := FlushLazy(s, false);
    } else {
      UptoIs(s);
      IsLazy(s, s.base + s.strstart);
    }
  }

  /** The byte before goes out as a literal, and the block if that is full. */
  method LiteralOut(s: Deflater)
    requires s.WindowOk() && s.strstart >= 1 && s.StreamOk(s.base + s.strstart - 1) && Room(s) && Drained(s) && !s.finished && s.strstart < 65536
    modifies s`blockStart, s`fits, s`spent, s`finished, s`out, s`availOut, s.b, s.b.w, s.b.s, s.b.s.heap, s.b.s.depth, s.b.s.blCount
    modifies s.b.lFc, s.b.lDl, s.b.dFc, s.b.dDl, s.b.bFc, s.b.bDl, s.b.dBuf, s.b.lBuf
    ensures s.StreamOk(s.base + s.strstart) && Room(s) && Drained(s) && !s.finished && s.spent == old(s.spent)
    ensures |s.out| + s.availOut == old(|s.out| + s.availOut) && old(s.out) <= s.out
  {
    hide *;
    var full := EmitLiteral(s);
    if full {
      FlushBlockOnly(s, false);
    }
  }

  /** The byte before goes out as a literal, and the current match is deferred in its turn. */
  method StepLiteral(s: Deflater) returns (stop: bool)
    requires PastString(s) && s.matchAvailable && s.strstart >= 1 && s.StreamOk(s.base + s.strstart - 1) && Room(s)
    requires Drained(s) && !s.finished && s.next <= |s.input| && s.highWater <= s.window.Length && 2 <= s.matchLength <= 258
    requires s.strstart + MIN_LOOKAHEAD <= s.window.Length
    requires s.matchLength >= 3 ==>
      (s.matchStart < s.strstart && Emittable(s.total, s.restart.input, s.base + s.strstart, s.strstart - s.matchStart, s.matchLength, s.z))
    modifies s`strstart, s`lookahead
    modifies s`blockStart, s`fits, s`spent, s`finished, s`out, s`availOut, s.b, s.b.w, s.b.s, s.b.s.heap, s.b.s.depth, s.b.s.blCount
    modifies s.b.lFc, s.b.lDl, s.b.dFc, s.b.dDl, s.b.bFc, s.b.bDl, s.b.dBuf, s.b.lBuf
    ensures Lazy(s) && !s.finished && (stop ==> s.availOut == 0) && s.spent == old(s.spent)
    ensures |s.out| + s.availOut == old(|s.out| + s.availOut) && old(s.out) <= s.out
    ensures old(s.strstart) < s.strstart && s.strstart + s.lookahead == old(s.strstart + s.lookahead)
  {
    hide *;
    PastStringParts(s);
    WindowFacts(s);
    SizeFacts(s);
    LiteralOut(s);
    DeferMatch(s);
    stop := s.availOut == 0;
  }

  /** One string. */
  method LazyStep(s: Deflater) returns (stop: bool)
    requires Lazy(s) && !s.finished && s.lookahead > 0 && s.strstart + MIN_LOOKAHEAD <= s.window.Length
    modifies s`strstart, s`lookahead, s`prevLength, s`prevMatch, s`matchLength, s`matchStart, s`matchAvailable
    modifies s`insH, s.prev, s.head, s`inserted
    modifies s`blockStart, s`fits, s`spent, s`finished, s`out, s`availOut, s.b, s.b.w, s.b.s, s.b.s.heap, s.b.s.depth, s.b.s.blCount
    modifies s.b.lFc, s.b.lDl, s.b.dFc, s.b.dDl, s.b.bFc, s.b.bDl, s.b.dBuf, s.b.lBuf
    ensures Lazy(s) && !s.finished && (stop ==> s.availOut == 0) && s.spent == old(s.spent)
    ensures |s.out| + s.availOut == old(|s.out| + s.availOut) && old(s.out) <= s.out
    ensures old(s.strstart) < s.strstart && s.strstart + s.lookahead == old(s.strstart + s.lookahead)
    ensures s.Sized() && 1 <= s.level < |LAZY|
    ensures old(s.matchLength) >= 3 && old(s.matchLength) >= LAZY[s.level] ==> s.strstart == old(s.strstart + s.matchLength) - 1
  {
    hide *;
    LazyParts(s);
    DeferredFacts(s);
    UptoIs(s);
    Look(s);
    PastStringParts(s);
    WindowFacts(s);
    if s.prevLength >= 3 && s.matchLength <= s.prevLength {
      stop := StepEmit(s);
    } else if s.matchAvailable {
      stop := StepLiteral(s);
    } else {
      s.matchAvailable := true;
      DeferMatch(s);
      stop := false;
    }
  }

  /** A match cannot be deferred past the end of the input. */
  lemma NoneDeferred(s: Deflater)
    requires Deferred(s) && s.base + s.strstart == |s.total|
    ensures s.matchLength == 2
  {
    hide *;
    DeferredFacts(s);
    if s.matchLength >= 3 {
      EmittableFacts(s.total, s.restart.input, s.base + s.strstart - 1, Wrap(s.strstart - 1 - s.matchStart), s.matchLength, s.z);
    }
  }

  /** The byte kept back, if any, goes to the tokens. */
  method FinalByte(s: Deflater)
    requires Lazy(s) && s.lookahead == 0
    modifies s`insert, s`matchAvailable, s.b, s.b.dBuf, s.b.lBuf, s.b.lFc, s.b.dFc
    ensures AtString(s) && Deferred(s) && !s.matchAvailable && s.StreamOk(s.base + s.strstart) && Drained(s)
    ensures s.next <= |s.input| && s.highWater <= s.window.Length
  {
    hide *;
    LazyParts(s);
    DeferredFacts(s);
    AtStringParts(s);
    WindowFacts(s);
    NoneDeferred(s);
    UptoIs(s);
    if s.matchAvailable {
      var full := EmitLiteral(s);
      s.matchAvailable := false;
    }
    LeaveLast(s);
    IsDeferred(s);
    UptoIs(s);
  }

  /** deflate_slow after its loop: the byte kept back, and what is left to flush. */
  method FinishSlow(s: Deflater, flush: Flush) returns (ret: BlockState)
    requires Lazy(s) && !s.finished && s.lookahead == 0 && s.next == |s.input| && flush != NoFlush && s.strstart < 65536
    modifies s`insert, s`matchAvailable, s`blockStart, s`fits, s`spent, s`finished, s`out, s`availOut
    modifies s.b, s.b.w, s.b.s, s.b.s.heap, s.b.s.depth, s.b.s.blCount, s.b.lFc, s.b.lDl, s.b.dFc, s.b.dDl, s.b.bFc, s.b.bDl
    modifies s.b.dBuf, s.b.lBuf
    ensures Lazy(s) && Outcome(s, flush, ret) && !s.matchAvailable && s.spent <= old(s.spent) + SHORT_BLOCK
    ensures |s.out| + s.availOut == old(|s.out| + s.availOut) && old(s.out) <= s.out
    ensures ret == FinishDone ==> s.out == s.b.w.pending
  {
    hide *;
    LazyParts(s);
    FinalByte(s);
    if flush == Finish {
      var stop := FlushLazy(s, true);
      ret := if stop then FinishStarted else FinishDone;
    } else if s.b.lastLit > 0 {
      var stop := FlushLazy(s, false);
      ret := if stop then NeedMore else BlockDone;
    } else {
      NothingCollected(s);
      EmptyRoom(s);
      UptoIs(s);
      IsLazy(s, s.base + s.strstart);
      ret := BlockDone;
    }
    OutcomeIs(s, flush, ret);
  }

  lemma EmptyRoom(s: Deflater)
    requires s.StreamOk(s.base + s.strstart) && s.b.lastLit == 0
    ensures Room(s)
  {
    hide *;
    StreamFacts(s, s.base + s.strstart);
    BlockFacts(s.b);
    BlockSizesOf(s.b);
    RoomIs(s);
  }

  /** deflate_slow: whatever the sizes of the pieces of input and output, all input is parsed without loss,
      but for the byte that may be kept back, and goes out in whole blocks. */
  method DeflateSlow(s: Deflater, flush: Flush) returns (ret: BlockState)
    requires Lazy(s) && !s.finished
    modifies s.window, s.head, s.prev, s`strstart, s`matchStart, s`matchLength, s`blockStart, s`base, s`lookahead, s`next, s`total
    modifies s`prevLength, s`prevMatch, s`matchAvailable
    modifies s`insH, s`insert, s`inserted, s`highWater, s`fits, s`spent, s`finished, s`out, s`availOut
    modifies s.b, s.b.w, s.b.s, s.b.s.heap, s.b.s.depth, s.b.s.blCount, s.b.lFc, s.b.lDl, s.b.dFc, s.b.dDl, s.b.bFc, s.b.bDl
    modifies s.b.dBuf, s.b.lBuf
    ensures Lazy(s) && Outcome(s, flush, ret) && (ret != NeedMore ==> !s.matchAvailable)
    ensures s.spent <= old(s.spent) + if flush == NoFlush then 0 else SHORT_BLOCK
    ensures old(s.next) <= s.next <= |s.input| && s.total == old(s.total) + s.input[old(s.next)..s.next]
    ensures |s.out| + s.availOut == old(|s.out| + s.availOut) && old(s.out) <= s.out
    ensures ret == FinishDone ==> s.out == s.b.w.pending
  {
    hide *;
    LazyParts(s);
    ghost var total0, next0, out0 := s.total, s.next, s.out;
    assert s.total == total0 + s.input[next0..s.next];
    while true
      invariant Lazy(s) && !s.finished && next0 <= s.next <= |s.input| && s.total == total0 + s.input[next0..s.next]
      invariant |s.out| + s.availOut == old(|s.out| + s.availOut) && out0 <= s.out && s.spent == old(s.spent)
      decreases |s.input| - s.next + s.lookahead
    {
      LazyParts(s);
      AtStringParts(s);
      WindowFacts(s);
      SizeFacts(s);
      if s.lookahead < MIN_LOOKAHEAD {
        FillLazy(s, total0, next0);
        if s.lookahead < MIN_LOOKAHEAD && flush == NoFlush {
          OutcomeIs(s, flush, NeedMore);
          return NeedMore;
        }
        if s.lookahead == 0 {
          ret := FinishSlow(s, flush);
          return;
        }
      }
      var stop := LazyStep(s);
      if stop {
        OutcomeIs(s, flush, NeedMore);
        return NeedMore;
      }
    }
  }
}
