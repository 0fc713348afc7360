/** deflate_fast of deflate.c: every match that is found is taken. */
module DeflateFast {
  import opened Machine
  import opened BitStrings
  import opened Hashing
  import opened HashChains
  import opened BitWriter
  import opened BlockFormat
  import opened Blocks
  import opened DeflateState
  import opened LongestMatch
  import opened FillWindow
  import opened DeflateOutput

  datatype Flush = NoFlush | PartialFlush | SyncFlush | FullFlush | Finish | BlockFlush

  datatype BlockState = NeedMore | BlockDone | FinishStarted | FinishDone

  // ---- One position on

  /** The string at strstart has been inserted, or there is not enough input for it. */
  ghost predicate PastString(s: Deflater)
    reads s`strstart, s`lookahead, s`total, s`base, s`insert, s`insH, s`inserted, s.window, s.head, s.prev
  {
    s.WindowOk() && s.InsertOk() && s.insert <= s.strstart && s.lookahead > 0 &&
    s.ChainsOk(s.base + s.strstart + 1, s.base + s.strstart + 1 - s.insert) && s.HashOk(s.base + s.strstart + 1)
  }

  lemma PastStringParts(s: Deflater)
    requires PastString(s)
    ensures s.WindowOk() && s.InsertOk() && s.insert <= s.strstart && s.lookahead > 0 && s.HashOk(s.base + s.strstart + 1)
    ensures s.ChainsOk(s.base + s.strstart + 1, s.base + s.strstart + 1 - s.insert)
  {
    hide Chains, Rolled;
  }

  lemma IsPastString(s: Deflater)
    requires s.WindowOk() && s.InsertOk() && s.insert <= s.strstart && s.lookahead > 0 && s.HashOk(s.base + s.strstart + 1)
    requires s.ChainsOk(s.base + s.strstart + 1, s.base + s.strstart + 1 - s.insert)
    ensures PastString(s)
  {
    hide Chains, Rolled;
  }

  /** What hash_head is: 0, or the newest earlier string with the hash of the current one. */
  ghost predicate HeadOf(s: Deflater, hashHead: nat)
    reads s`total, s`base, s`strstart, s`lookahead, s`inserted
  {
    hashHead != 0 ==>
      s.lookahead >= 3 && s.base + s.strstart + 2 < |s.total| &&
      Linked(hashHead, s.base + s.strstart, HashAt(s.total, s.base + s.strstart, s.z), s.z, s.total, s.base, s.inserted)
  }

  lemma HeadOfFacts(s: Deflater, hashHead: nat)
    requires HeadOf(s, hashHead) && hashHead != 0
    ensures s.lookahead >= 3 && s.base + s.strstart + 2 < |s.total| && hashHead < s.strstart
    ensures Linked(hashHead, s.base + s.strstart, HashAt(s.total, s.base + s.strstart, s.z), s.z, s.total, s.base, s.inserted)
  {
    hide HashAt;
  }

  lemma IsHeadOf(s: Deflater, hashHead: nat)
    requires hashHead == 0 || (s.lookahead >= 3 && s.base + s.strstart + 2 < |s.total| &&
      Linked(hashHead, s.base + s.strstart, HashAt(s.total, s.base + s.strstart, s.z), s.z, s.total, s.base, s.inserted))
    ensures HeadOf(s, hashHead)
  {
    hide HashAt, Linked;
  }

  lemma ChainsOn(s: Deflater, from: nat, top: nat, from': nat, top': nat)
    requires s.ChainsOk(from, top) && from <= from' && top <= top'
    ensures s.ChainsOk(from', top')
  {
    hide Chains;
    ChainsLater(s.head[..], s.prev[..], s.z, s.total, s.base, s.inserted, from, top, from', top');
  }

  /** INSERT_STRING at strstart. */
  method InsertCurrent(s: Deflater) returns (hashHead: nat)
    requires AtString(s) && s.lookahead >= 3
    modifies s`insH, s.prev, s.head, s`inserted
    ensures PastString(s) && HeadOf(s, hashHead)
    ensures hashHead == ChainHead(old(s.head[..]), s.total, s.base + s.strstart, s.z)
  {
    hide *;
    AtStringParts(s);
    InsertFacts(s);
    WindowFacts(s);
    ChainsOn(s, s.base + s.strstart, s.base + s.strstart, s.base + s.strstart + 1, s.base + s.strstart);
    hashHead := InsertString(s, s.strstart, s.base + s.strstart + 1, s.base + s.strstart);
    IsPastString(s);
    IsHeadOf(s, hashHead);
  }

  /** hash_head = NIL, and INSERT_STRING if there are three bytes. */
  method InsertHere(s: Deflater) returns (hashHead: nat)
    requires AtString(s) && s.lookahead > 0
    modifies s`insH, s.prev, s.head, s`inserted
    ensures PastString(s) && HeadOf(s, hashHead)
    ensures hashHead == ChainHead(old(s.head[..]), s.total, s.base + s.strstart, s.z)
  {
    hide *;
    hashHead := 0;
    if s.lookahead >= 3 {
      hashHead := InsertCurrent(s);
    } else {
      TooShort(s);
      IsHeadOf(s, hashHead);
      WindowIsShort(s);
      ChainHeadIs(s.head[..], s.total, s.base + s.strstart, s.z);
    }
  }

  lemma WindowIsShort(s: Deflater)
    requires PastString(s) && s.lookahead < 3
    ensures s.base + s.strstart + 2 >= |s.total|
  {
    hide *;
    PastStringParts(s);
    WindowFacts(s);
  }

  /** Less than three bytes are no string to insert. */
  lemma TooShort(s: Deflater)
    requires AtString(s) && 0 < s.lookahead < 3
    ensures PastString(s)
  {
    hide *;
    AtStringParts(s);
    InsertFacts(s);
    WindowFacts(s);
    ChainsOn(s, s.base + s.strstart, s.base + s.strstart - s.insert, s.base + s.strstart + 1, s.base + s.strstart + 1 - s.insert);
    HashIsReady(s, s.base + s.strstart + 1);
    IsPastString(s);
  }

  lemma WindowOn(s: Deflater, end: nat)
    requires s.Sized() && s.strstart + s.lookahead == end <= s.window.Length && s.base + end == |s.total|
    requires s.window[..end] == s.total[s.base..]
    ensures s.WindowOk()
  {
  }

  /** strstart++, lookahead-- */
  method Advance(s: Deflater)
    requires PastString(s)
    modifies s`strstart, s`lookahead
    ensures AtString(s) && s.strstart == old(s.strstart) + 1 && s.lookahead == old(s.lookahead) - 1
  {
    hide *;
    PastStringParts(s);
    InsertFacts(s);
    WindowFacts(s);
    ghost var end, at, top := s.strstart + s.lookahead, s.base + s.strstart + 1, s.base + s.strstart + 1 - s.insert;
    s.strstart := s.strstart + 1;
    s.lookahead := s.lookahead - 1;
    WindowOn(s, end);
    InsertOkIs(s);
    AtEqual(s, at, top);
  }

  /** Over a match without inserting its strings; the hash is made afresh. */
  method SkipMatch(s: Deflater, n: nat)
    requires PastString(s) && 3 <= n <= s.lookahead && s.strstart + n + 1 < s.window.Length
    modifies s`strstart, s`lookahead, s`insH
    ensures AtString(s) && s.strstart == old(s.strstart) + n && s.lookahead == old(s.lookahead) - n
  {
    hide *;
    PastStringParts(s);
    InsertFacts(s);
    WindowFacts(s);
    SizeFacts(s);
    ghost var end, at := s.strstart + s.lookahead, s.base + s.strstart + 1;
    s.strstart := s.strstart + n;
    s.lookahead := s.lookahead - n;
    WindowOn(s, end);
    InsertOkIs(s);
    ChainsOn(s, at, at, s.base + s.strstart, s.base + s.strstart);
    s.insH := s.window[s.strstart] as nat;
    s.insH := UpdateHash(s.insH, s.window[s.strstart + 1], s.z.bits, s.z.shift);
    if s.lookahead >= 3 {
      WindowAt(s, s.strstart);
      WindowAt(s, s.strstart + 1);
      RolledAfresh(s.window[s.strstart], s.window[s.strstart + 1], s.z.bits, s.z.shift);
    }
    HashIsReady(s, s.base + s.strstart);
    AtEqual(s, s.base + s.strstart, s.base + s.strstart);
  }

  /** At the end of the input the last two strings are left to be inserted when there is more. */
  method LeaveLast(s: Deflater)
    requires AtString(s) && s.lookahead == 0
    modifies s`insert
    ensures AtString(s) && s.insert == if s.strstart < 2 then s.strstart else 2
  {
    hide *;
    AtStringParts(s);
    InsertFacts(s);
    WindowFacts(s);
    ghost var top := s.base + s.strstart - s.insert;
    s.insert := if s.strstart < 2 then s.strstart else 2;
    LastNotInserted(s, s.base + s.strstart, top);
    InsertOkIs(s);
    IsAtString(s);
  }

  lemma LastNotInserted(s: Deflater, from: nat, top: nat)
    requires s.ChainsOk(from, top) && s.base + s.strstart == |s.total| && from == s.base + s.strstart
    requires s.insert == if s.strstart < 2 then s.strstart else 2
    ensures s.ChainsOk(from, from - s.insert)
  {
    hide HashAt, Slot;
    var top' := from - s.insert;
    forall h | 0 <= h < |s.head[..]|
      ensures Linked(s.head[..][h] as nat, top', h, s.z, s.total, s.base, s.inserted)
    {
      assert Linked(s.head[..][h] as nat, top, h, s.z, s.total, s.base, s.inserted);
    }
  }

  // ---- The loop

  lemma SlicesJoin(a: seq<byte>, i: nat, j: nat, k: nat)
    requires i <= j <= k <= |a|
    ensures a[i..k] == a[i..j] + a[j..k]
  {
  }

  /** What holds between one string and the next. */
  ghost predicate Steady(s: Deflater)
    reads s, s.window, s.head, s.prev, s.b, s.b.w, s.b.s, s.b.s.depth, s.b.lFc, s.b.dFc, s.b.bFc, s.b.dBuf, s.b.lBuf
    reads s.b.t.lengthCode, s.b.t.baseLength, s.b.t.distCode, s.b.t.baseDist, s.b.t.ltFc, s.b.t.ltDl, s.b.t.dtFc, s.b.t.dtDl
  {
    AtString(s) && s.StreamOk(s.base + s.strstart) && Room(s) && s.next <= |s.input| && s.highWater <= s.window.Length &&
    s.matchLength < 3 && s.prevLength == 2 && Drained(s)
  }

  lemma SteadyParts(s: Deflater)
    requires Steady(s)
    ensures AtString(s) && s.StreamOk(s.base + s.strstart) && Room(s) && s.next <= |s.input| && s.highWater <= s.window.Length
    ensures s.matchLength < 3 && s.prevLength == 2 && Drained(s)
  {
    hide Chains, Rolled, Parsed, Sent, ByteBits;
  }

  lemma IsSteady(s: Deflater)
    requires AtString(s) && s.StreamOk(s.base + s.strstart) && Room(s) && s.next <= |s.input| && s.highWater <= s.window.Length
    requires s.matchLength < 3 && s.prevLength == 2 && Drained(s)
    ensures Steady(s)
  {
    hide Chains, Rolled, Parsed, Sent, ByteBits;
  }

  /** Over a match, with all its strings inserted. */
  method InsertMatch(s: Deflater)
    requires PastString(s) && 3 <= s.matchLength && s.matchLength + 3 <= s.lookahead
    modifies s`strstart, s`lookahead, s`matchLength, s`insH, s.prev, s.head, s`inserted
    ensures AtString(s) && s.strstart == old(s.strstart + s.matchLength) && s.lookahead == old(s.lookahead - s.matchLength)
    ensures s.matchLength == 0
  {
    hide *;
    ghost var strstart0, lookahead0, length0 := s.strstart, s.lookahead, s.matchLength;
    s.matchLength := s.matchLength - 1;
    while true
      invariant PastString(s) && 1 <= s.matchLength < length0
      invariant s.strstart == strstart0 + (length0 - 1 - s.matchLength) && s.lookahead == lookahead0 - (length0 - 1 - s.matchLength)
      decreases s.matchLength
    {
      Advance(s);
      var _ := InsertCurrent(s);
      s.matchLength := s.matchLength - 1;
      if s.matchLength == 0 {
        break;
      }
    }
    Advance(s);
  }

  lemma LazyLimit(s: Deflater)
    requires s.Sized()
    ensures 1 <= s.level < |LAZY|
  {
  }

  /** A match is tallied and passed over. */
  method TakeMatch(s: Deflater) returns (full: bool)
    requires PastString(s) && s.StreamOk(s.base + s.strstart) && Room(s) && s.strstart + MIN_LOOKAHEAD <= s.window.Length
    requires 3 <= s.matchLength <= 258 && s.matchStart < s.strstart && s.strstart - s.matchStart <= MaxDist(s.z)
    requires Repeats(s.total, s.base + s.strstart, s.strstart - s.matchStart, s.matchLength)
    modifies s`strstart, s`lookahead, s`matchLength, s`insH, s.prev, s.head, s`inserted
    modifies s.b, s.b.dBuf, s.b.lBuf, s.b.lFc, s.b.dFc
    ensures AtString(s) && s.StreamOk(s.base + s.strstart) && (full || Room(s)) && (full ==> LongBlock(s)) && s.matchLength == 0
    ensures s.strstart == old(s.strstart + s.matchLength) && s.lookahead == old(s.lookahead - s.matchLength)
  {
    hide *;
    PastStringParts(s);
    WindowFacts(s);
    SizeFacts(s);
    LazyLimit(s);
    ghost var upto := s.base + s.strstart + s.matchLength;
    RepeatFits(s.total, s.base + s.strstart, s.strstart - s.matchStart, s.matchLength);
    StreamFacts(s, s.base + s.strstart);
    full := TallyMatch(s, s.strstart - s.matchStart, s.matchLength, s.base + s.strstart);
    if s.matchLength <= LAZY[s.level] && s.lookahead - s.matchLength >= 3 {
      InsertMatch(s);
    } else {
      SkipMatch(s, s.matchLength);
      s.matchLength := 0;
    }
    assert s.base + s.strstart == upto;
  }

  /** A literal is tallied and passed over. */
  method TakeLiteral(s: Deflater) returns (full: bool)
    requires PastString(s) && s.StreamOk(s.base + s.strstart) && Room(s)
    modifies s`strstart, s`lookahead, s.b, s.b.dBuf, s.b.lBuf, s.b.lFc, s.b.dFc
    ensures AtString(s) && s.StreamOk(s.base + s.strstart) && (full || Room(s)) && (full ==> LongBlock(s))
    ensures s.strstart == old(s.strstart) + 1 && s.lookahead == old(s.lookahead) - 1
  {
    hide *;
    PastStringParts(s);
    WindowFacts(s);
    WindowAt(s, s.strstart);
    ghost var upto := s.base + s.strstart;
    full := TallyLiteral(s, s.window[s.strstart], upto);
    Advance(s);
    assert s.base + s.strstart == upto + 1;
  }

  /** The string is inserted and looked for. */
  method LookHere(s: Deflater)
    requires Steady(s) && s.lookahead > 0 && s.strstart + MIN_LOOKAHEAD <= s.window.Length
    modifies s`matchLength, s`matchStart, s`insH, s.prev, s.head, s`inserted
    ensures PastString(s) && s.StreamOk(s.base + s.strstart) && Room(s)
    ensures s.matchLength >= 3 ==>
      s.matchLength <= 258 && s.matchStart < s.strstart && s.strstart - s.matchStart <= MaxDist(s.z) &&
      Repeats(s.total, s.base + s.strstart, s.strstart - s.matchStart, s.matchLength)
    ensures ValidSizes(s.z)
    ensures var head := ChainHead(old(s.head[..]), s.total, s.base + s.strstart, s.z);
            head != 0 && s.strstart - head <= MaxDist(s.z) ==> NoShorter(s, head, 3, s.matchLength)
  {
    hide *;
    SteadyParts(s);
    AtStringParts(s);
    WindowFacts(s);
    SizeFacts(s);
    var hashHead := InsertHere(s);
    PastStringParts(s);
    if hashHead != 0 {
      HeadOfFacts(s, hashHead);
      if s.strstart - hashHead <= MaxDist(s.z) {
        InsertFacts(s);
        ghost var visited;
        s.matchLength, visited := FindLongest(s, hashHead);
        HeadNoLonger(s, visited, hashHead, s.matchLength, 3);
      }
    }
  }

  /** One string: a match if there is one, or a literal. */
  method FastStep(s: Deflater) returns (full: bool)
    requires Steady(s) && s.lookahead > 0 && s.strstart + MIN_LOOKAHEAD <= s.window.Length
    modifies s`strstart, s`lookahead, s`matchLength, s`matchStart, s`insH, s.prev, s.head, s`inserted
    modifies s.b, s.b.dBuf, s.b.lBuf, s.b.lFc, s.b.dFc
    ensures AtString(s) && s.StreamOk(s.base + s.strstart) && (full || Room(s)) && (full ==> LongBlock(s)) && s.matchLength < 3
    ensures old(s.strstart) < s.strstart && s.strstart + s.lookahead == old(s.strstart + s.lookahead) && s.strstart < 65536
    ensures ValidSizes(s.z)
    ensures var n, head := s.strstart - old(s.strstart), old(ChainHead(s.head[..], s.total, s.base + s.strstart, s.z));
            head != 0 && old(s.strstart) - head <= MaxDist(s.z) ==> old(NoShorter(s, head, 3, n))
  {
    hide *;
    SteadyParts(s);
    AtStringParts(s);
    WindowFacts(s);
    SizeFacts(s);
    ghost var head := ChainHead(s.head[..], s.total, s.base + s.strstart, s.z);
    LookHere(s);
    if head != 0 && s.strstart - head <= MaxDist(s.z) {
      NoShorterFrom(s, head, 3, s.matchLength, 3, if s.matchLength >= 3 then s.matchLength else 1);
    }
    if s.matchLength >= 3 {
      full := TakeMatch(s);
    } else {
      full := TakeLiteral(s);
    }
    AtStringParts(s);
    WindowFacts(s);
  }

  /** Steady but for the lookahead and, once the input is at its end, for what is left to insert. */
  method FillSteady(s: Deflater, ghost first: seq<byte>, ghost since: nat)
    requires Steady(s) && !s.finished && s.lookahead < MIN_LOOKAHEAD
    requires since <= s.next <= |s.input| && s.total == first + s.input[since..s.next]
    modifies s.window, s.head, s.prev, s`strstart, s`matchStart, s`blockStart, s`base, s`lookahead, s`next, s`total
    modifies s`insH, s`insert, s`inserted, s`highWater
    ensures Steady(s) && s.strstart + MIN_LOOKAHEAD <= s.window.Length
    ensures s.lookahead >= MIN_LOOKAHEAD || s.next == |s.input|
    ensures old(s.next) <= s.next <= |s.input| && s.total == first + s.input[since..s.next]
    ensures s.lookahead == old(s.lookahead) + s.next - old(s.next) && s.base + s.strstart == old(s.base + s.strstart)
  {
    hide *;
    SteadyParts(s);
    ghost var next := s.next;
    Fill(s, s.base + s.strstart);
    InitialisedFacts(s);
    SlicesJoin(s.input, since, next, s.next);
    IsSteady(s);
  }

  lemma InitialisedFacts(s: Deflater)
    requires Initialised(s)
    ensures s.highWater <= s.window.Length
  {
  }

  /** FLUSH_BLOCK: whether the caller has to stop for want of room. */
  method FlushSteady(s: Deflater, last: bool) returns (stop: bool)
    requires AtString(s) && s.StreamOk(s.base + s.strstart) && !s.finished && s.strstart < 65536 && (last ==> s.lookahead == 0)
    requires s.next <= |s.input| && s.highWater <= s.window.Length && s.matchLength < 3 && s.prevLength == 2
    modifies s`blockStart, s`fits, s`spent, s`finished, s`out, s`availOut, s.b, s.b.w, s.b.s, s.b.s.heap, s.b.s.depth, s.b.s.blCount
    modifies s.b.lFc, s.b.lDl, s.b.dFc, s.b.dDl, s.b.bFc, s.b.bDl
    ensures Steady(s) && s.blockStart == s.strstart && s.finished == last && (stop <==> s.availOut == 0)
    ensures s.spent == old(s.spent) + if !last && old(LongBlock(s)) then 0 else SHORT_BLOCK
    ensures |s.out| + s.availOut == old(|s.out| + s.availOut) && old(s.out) <= s.out <= s.b.w.pending
    ensures stop || s.out == s.b.w.pending
  {
    hide *;
    AtStringParts(s);
    FlushBlockOnly(s, last);
    stop := s.availOut == 0;
    IsSteady(s);
  }

  /** What a call has done when it returns this. */
  ghost predicate Outcome(s: Deflater, flush: Flush, ret: BlockState)
    reads s`finished, s`availOut, s`next, s`input, s`lookahead, s`blockStart, s`strstart
  {
    match ret
    case NeedMore => !s.finished && (s.availOut == 0 || (flush == NoFlush && s.next == |s.input|))
    case BlockDone =>
      !s.finished && flush != NoFlush && flush != Finish && s.next == |s.input| && s.lookahead == 0 && s.blockStart == s.strstart
    case FinishStarted => s.finished && flush == Finish && s.next == |s.input| && s.lookahead == 0 && s.availOut == 0
    case FinishDone => s.finished && flush == Finish && s.next == |s.input| && s.lookahead == 0 && s.availOut > 0
  }

  lemma OutcomeIs(s: Deflater, flush: Flush, ret: BlockState)
    requires ret == NeedMore ==> !s.finished && (s.availOut == 0 || (flush == NoFlush && s.next == |s.input|))
    requires ret == BlockDone ==>
      !s.finished && flush != NoFlush && flush != Finish && s.next == |s.input| && s.lookahead == 0 && s.blockStart == s.strstart
    requires ret == FinishStarted ==> s.finished && flush == Finish && s.next == |s.input| && s.lookahead == 0 && s.availOut == 0
    requires ret == FinishDone ==> s.finished && flush == Finish && s.next == |s.input| && s.lookahead == 0 && s.availOut > 0
    ensures Outcome(s, flush, ret)
  {
  }

  lemma NothingCollected(s: Deflater)
    requires s.StreamOk(s.base + s.strstart) && s.b.lastLit == 0
    ensures s.blockStart == s.strstart
  {
    hide *;
    StreamFacts(s, s.base + s.strstart);
    SizeFacts(s);
    BlockFacts(s.b);
    NoTokensYet(s.b);
    ParsedNothing(s.total, s.restart.input, s.base + s.blockStart, s.base + s.strstart, MaxDist(s.z));
  }

  lemma NoTokensYet(b: Block)
    requires b.lastLit == 0 && b.lastLit <= b.dBuf.Length && b.lastLit <= b.lBuf.Length
    ensures b.Tokens() == []
  {
  }

  /** deflate_fast after its loop: the rest is flushed. */
  method FinishFast(s: Deflater, flush: Flush) returns (ret: BlockState)
    requires Steady(s) && !s.finished && s.lookahead == 0 && s.next == |s.input| && flush != NoFlush && s.strstart < 65536
    modifies s`insert, s`blockStart, s`fits, s`spent, s`finished, s`out, s`availOut
    modifies s.b, s.b.w, s.b.s, s.b.s.heap, s.b.s.depth, s.b.s.blCount, s.b.lFc, s.b.lDl, s.b.dFc, s.b.dDl, s.b.bFc, s.b.bDl
    ensures Steady(s) && Outcome(s, flush, ret) && s.spent <= old(s.spent) + SHORT_BLOCK
    ensures |s.out| + s.availOut == old(|s.out| + s.availOut) && old(s.out) <= s.out
    ensures ret == FinishDone ==> s.out == s.b.w.pending
  {
    hide *;
    SteadyParts(s);
    LeaveLast(s);
    if flush == Finish {
      var stop := FlushSteady(s, true);
      ret := if stop then FinishStarted else FinishDone;
    } else if s.b.lastLit > 0 {
      var stop := FlushSteady(s, false);
      ret := if stop then NeedMore else BlockDone;
    } else {
      NothingCollected(s);
      IsSteady(s);
      ret := BlockDone;
    }
    OutcomeIs(s, flush, ret);
  }

  /** One string, and the block if it is full. */
  method FastTurn(s: Deflater) returns (stop: bool)
    requires Steady(s) && !s.finished && s.lookahead > 0 && s.strstart + MIN_LOOKAHEAD <= s.window.Length
    modifies s`strstart, s`lookahead, s`matchLength, s`matchStart, s`insH, s.prev, s.head, s`inserted
    modifies s`blockStart, s`fits, s`spent, s`finished, s`out, s`availOut, s.b, s.b.w, s.b.s, s.b.s.heap, s.b.s.depth, s.b.s.blCount
    modifies s.b.lFc, s.b.lDl, s.b.dFc, s.b.dDl, s.b.bFc, s.b.bDl, s.b.dBuf, s.b.lBuf
    ensures Steady(s) && !s.finished && (stop ==> s.availOut == 0) && s.spent == old(s.spent)
    ensures |s.out| + s.availOut == old(|s.out| + s.availOut) && old(s.out) <= s.out
    ensures old(s.strstart) < s.strstart && s.strstart + s.lookahead == old(s.strstart + s.lookahead)
  {
    hide *;
    SteadyParts(s);
    var full := FastStep(s);
    stop := false;
    if full {
      stop := FlushSteady(s, false);
    } else {
      IsSteady(s);
    }
  }

  /** deflate_fast: whatever the sizes of the pieces of input and output, all input is parsed without loss, and
      goes out in whole blocks. */
  method DeflateFast(s: Deflater, flush: Flush) returns (ret: BlockState)
    requires Steady(s) && !s.finished
    modifies s.window, s.head, s.prev, s`strstart, s`matchStart, s`matchLength, s`blockStart, s`base, s`lookahead, s`next, s`total
    modifies s`insH, s`insert, s`inserted, s`highWater, s`fits, s`spent, s`finished, s`out, s`availOut
    modifies s.b, s.b.w, s.b.s, s.b.s.heap, s.b.s.depth, s.b.s.blCount, s.b.lFc, s.b.lDl, s.b.dFc, s.b.dDl, s.b.bFc, s.b.bDl
    modifies s.b.dBuf, s.b.lBuf
    ensures Steady(s) && Outcome(s, flush, ret) && s.spent <= old(s.spent) + if flush == NoFlush then 0 else SHORT_BLOCK
    ensures old(s.next) <= s.next <= |s.input| && s.total == old(s.total) + s.input[old(s.next)..s.next]
    ensures |s.out| + s.availOut == old(|s.out| + s.availOut) && old(s.out) <= s.out
    ensures ret == FinishDone ==> s.out == s.b.w.pending
  {
    hide *;
    SteadyParts(s);
    ghost var total0, next0, out0 := s.total, s.next, s.out;
    assert s.total == total0 + s.input[next0..s.next];
    while true
      invariant Steady(s) && !s.finished && next0 <= s.next <= |s.input| && s.total == total0 + s.input[next0..s.next]
      invariant |s.out| + s.availOut == old(|s.out| + s.availOut) && out0 <= s.out && s.spent == old(s.spent)
      decreases |s.input| - s.next + s.lookahead
    {
      SteadyParts(s);
      AtStringParts(s);
      WindowFacts(s);
      SizeFacts(s);
      if s.lookahead < MIN_LOOKAHEAD {
        FillSteady(s, total0, next0);
        if s.lookahead < MIN_LOOKAHEAD && flush == NoFlush {
          OutcomeIs(s, flush, NeedMore);
          return NeedMore;
        }
        if s.lookahead == 0 {
          ret := FinishFast(s, flush);
          return;
        }
      }
      var stop := FastTurn(s);
      if stop {
        OutcomeIs(s, flush, NeedMore);
        return NeedMore;
      }
    }
  }
}
