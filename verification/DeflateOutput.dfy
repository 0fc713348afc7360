/** What the compression loops of deflate.c share: tallying, FLUSH_BLOCK_ONLY and flush_pending. */
module DeflateOutput {
  import opened Machine
  import opened BitStrings
  import opened Hashing
  import opened HashChains
  import opened BitWriter
  import opened DeflateSpec
  import opened BlockFormat
  import opened Blocks
  import opened BlockFlush
  import opened DeflateState

  /** There is room for one more token. */
  ghost predicate Room(s: Deflater)
    reads s.b
  {
    s.b.lastLit + 1 < s.b.dBuf.Length
  }

  /** So many tokens that the bits for the header and the end of the block are few for each. */
  ghost predicate LongBlock(s: Deflater)
    reads s.b
  {
    s.b.lastLit >= 127
  }

  lemma LongBlockIs(s: Deflater)
    ensures LongBlock(s) <==> s.b.lastLit >= 127
  {
  }

  lemma RoomIs(s: Deflater)
    ensures Room(s) <==> s.b.lastLit + 1 < s.b.dBuf.Length
  {
  }

  lemma LiteralToken(c: byte)
    ensures TokenOf(0, c as nat) == Lit(c)
  {
  }

  lemma MatchToken(dist: nat, len: nat)
    requires dist > 0 && 3 <= len
    ensures TokenOf(dist, len - 3) == Copy(len, dist)
  {
  }

  /** _tr_tally_lit */
  method TallyLiteral(s: Deflater, c: byte, ghost upto: nat) returns (full: bool)
    requires s.StreamOk(upto) && Room(s) && upto < |s.total| && c == s.total[upto]
    modifies s.b, s.b.dBuf, s.b.lBuf, s.b.lFc, s.b.dFc
    ensures s.StreamOk(upto + 1) && (full || Room(s)) && (full ==> LongBlock(s))
  {
    hide *;
    StreamFacts(s, upto);
    SizeFacts(s);
    BlockFacts(s.b);
    RoomIs(s);
    LiteralToken(c);
    ParsedLiteral(s.total, s.restart.input, s.base + s.blockStart, s.b.Tokens(), upto, MaxDist(s.z), c);
    full := TrTally(s.b, 0, c as nat);
    BlockFacts(s.b);
    IsStream(s, upto + 1);
    RoomIs(s);
    LongBlockIs(s);
  }

  /** _tr_tally_dist */
  method TallyMatch(s: Deflater, dist: nat, len: nat, ghost upto: nat) returns (full: bool)
    requires s.StreamOk(upto) && Room(s) && Repeats(s.total, upto, dist, len) && 3 <= len <= 258 && dist <= MaxDist(s.z)
    requires s.restart.input + dist <= upto
    modifies s.b, s.b.dBuf, s.b.lBuf, s.b.lFc, s.b.dFc
    ensures s.StreamOk(upto + len) && (full || Room(s)) && (full ==> LongBlock(s))
  {
    hide *;
    StreamFacts(s, upto);
    SizeFacts(s);
    BlockFacts(s.b);
    RoomIs(s);
    RepeatFits(s.total, upto, dist, len);
    MatchToken(dist, len);
    ParsedMatch(s.total, s.restart.input, s.base + s.blockStart, s.b.Tokens(), upto, MaxDist(s.z), dist, len);
    full := TrTally(s.b, dist, len - 3);
    BlockFacts(s.b);
    IsStream(s, upto + len);
    RoomIs(s);
    LongBlockIs(s);
  }

  // ---- flush_pending

  lemma {:induction false} BytesFromBits(a: seq<byte>, b: seq<byte>)
    requires ByteBits(a) == ByteBits(b)
    ensures a == b
  {
    hide Bits;
    assert |a| == |b|;
    if a != [] {
      var n := |a| - 1;
      ByteBitsSnoc(a[..n], a[n]);
      ByteBitsSnoc(b[..n], b[n]);
      assert a == a[..n] + [a[n]] && b == b[..n] + [b[n]];
      assert ByteBits(a)[..8 * n] == ByteBits(a[..n]) && ByteBits(b)[..8 * n] == ByteBits(b[..n]);
      assert ByteBits(a)[8 * n..] == Bits(a[n] as nat, 8) && ByteBits(b)[8 * n..] == Bits(b[n] as nat, 8);
      Pow2Of8();
      ValBits(a[n] as nat, 8);
      ValBits(b[n] as nat, 8);
      LowBound(a[n] as nat, 8);
      LowBound(b[n] as nat, 8);
      BytesFromBits(a[..n], b[..n]);
    }
  }

  lemma ByteBitsSizes(a: seq<byte>, b: seq<byte>)
    ensures |ByteBits(a)| == 8 * |a| && |ByteBits(b)| == 8 * |b|
  {
  }

  lemma BytesAfter(out: seq<byte>, m: nat)
    requires m <= |out|
    ensures |ByteBits(out)| == 8 * |out| && ByteBits(out)[8 * m..] == ByteBits(out[m..])
  {
    hide ByteBits;
    ByteBitsAppend(out[..m], out[m..]);
    ByteBitsSizes(out, out[..m]);
    assert out[..m] + out[m..] == out;
  }

  lemma PrefixesEqual(a: seq<bool>, b: seq<bool>, c: seq<bool>, d: seq<bool>)
    requires |a| == |b| && a <= b + c + d
    ensures a == b
  {
    assert (b + c + d)[..|b|] == b;
  }

  /** What has gone out is the beginning of what was written. */
  lemma OutIsPrefix(out: seq<byte>, pending: seq<byte>, rest: seq<bool>)
    requires ByteBits(out) <= ByteBits(pending) + rest && |rest| <= 7
    ensures out <= pending
  {
    hide *;
    ByteBitsSizes(out, pending);
    var n := |out|;
    assert |out| <= |pending|;
    ByteBitsAppend(pending[..n], pending[n..]);
    ByteBitsSizes(pending[..n], pending[n..]);
    assert pending == pending[..n] + pending[n..];
    PrefixesEqual(ByteBits(out), ByteBits(pending[..n]), ByteBits(pending[n..]), rest);
    BytesFromBits(out, pending[..n]);
  }

  lemma PrefixOut(out: seq<byte>, pending: seq<byte>, rest: seq<bool>)
    requires out <= pending
    ensures ByteBits(out) <= ByteBits(pending) + rest
  {
    assert pending == out + pending[|out|..];
    ByteBitsAppend(out, pending[|out|..]);
  }

  lemma StreamIs(w: Writer)
    ensures w.Stream() == ByteBits(w.pending) + Bits(w.biBuf, w.biValid)
  {
  }

  /** flush_pending: as much as there is room for goes out, in order. */
  method FlushPending(s: Deflater, ghost upto: nat)
    requires s.StreamOk(upto)
    modifies s.b.w, s`out, s`availOut
    ensures s.StreamOk(upto) && s.b.w.Stream() == old(s.b.w.Stream())
    ensures |s.out| + s.availOut == old(|s.out| + s.availOut) && old(s.out) <= s.out <= s.b.w.pending
    ensures s.availOut == 0 || s.out == s.b.w.pending
    ensures s.b.w.biValid <= 7
  {
    hide *;
    StreamFacts(s, upto);
    BlockFacts(s.b);
    s.b.w.BiFlush();
    StreamIs(s.b.w);
    OutIsPrefix(s.out, s.b.w.pending, Bits(s.b.w.biBuf, s.b.w.biValid));
    var len: nat := |s.b.w.pending| - |s.out|;
    if len > s.availOut {
      len := s.availOut;
    }
    s.out := s.out + s.b.w.pending[|s.out|..|s.out| + len];
    s.availOut := s.availOut - len;
    PrefixOut(s.out, s.b.w.pending, Bits(s.b.w.biBuf, s.b.w.biValid));
    BlockIsValid(s.b);
    IsStream(s, upto);
  }

  /** Less than a byte is held back in bi_buf, and nothing once the last block is out. */
  ghost predicate Drained(s: Deflater)
    reads s`finished, s.b.w
  {
    s.b.w.biValid <= 7 && (s.finished ==> s.b.w.biValid == 0)
  }

  lemma DrainedFacts(s: Deflater)
    ensures Drained(s) <==> s.b.w.biValid <= 7 && (s.finished ==> s.b.w.biValid == 0)
  {
  }

  // ---- FLUSH_BLOCK_ONLY

  lemma BlockBytes(s: Deflater)
    requires s.WindowOk() && 0 <= s.blockStart <= s.strstart
    ensures s.strstart <= s.window.Length && s.base + s.strstart <= |s.total|
    ensures s.window[s.blockStart..s.strstart] == s.total[s.base + s.blockStart..s.base + s.strstart]
  {
    hide *;
    WindowFacts(s);
    SameSlice(s.window[..], s.total, s.strstart + s.lookahead, s.base, s.blockStart, s.strstart);
  }

  lemma SameSlice(window: seq<byte>, total: seq<byte>, end: nat, base: nat, a: nat, b: nat)
    requires a <= b <= end <= |window| && base <= |total| && window[..end] == total[base..]
    ensures base + b <= |total| && window[a..b] == total[base + a..base + b]
  {
    assert |total| == base + end;
    forall i | 0 <= i < b - a ensures window[a..b][i] == total[base + a..base + b][i] {
      assert window[..end][a + i] == total[base..][a + i];
    }
  }

  lemma ChoiceNeedsBuffer(buf: Option<seq<byte>>, fixed: bool, opt: nat, stat: nat)
    ensures Choice(buf, fixed, opt, stat) == 0 ==> buf.Some?
    ensures fixed ==> Choice(buf, fixed, opt, stat) != 2
  {
  }

  lemma OnlyDynamicNeedsRoom(r: Written)
    ensures r.kind != 2 ==> TablesFit(r)
  {
  }

  lemma OutStays(out: seq<bool>, stream: seq<bool>, bits: seq<bool>, pad: seq<bool>)
    requires out <= stream
    ensures out <= stream + bits + pad
  {
  }

  /** What the tokens of the block to be written stand for. */
  lemma CollectedFacts(s: Deflater, upto: nat)
    requires s.StreamOk(upto)
    ensures s.b.Valid() && s.b.lastLit <= s.b.dBuf.Length && s.b.lastLit <= s.b.lBuf.Length
    ensures 0 <= s.base + s.blockStart <= upto == s.base + s.blockStart + Span(s.b.Tokens())
    ensures LongBlock(s) ==> Span(s.b.Tokens()) >= 127
  {
    hide *;
    StreamFacts(s, upto);
    SizeFacts(s);
    BlockFacts(s.b);
    ghost var since, start, tokens, far := s.restart.input, s.base + s.blockStart, s.b.Tokens(), MaxDist(s.z);
    ParsedFacts(s.total, since, start, tokens, upto, far);
    ParsedSpan(s.total, since, start, tokens, upto, far);
    ParsedLength(s.total, since, start, tokens, upto, far);
    TokensNumber(s.b);
    LongBlockIs(s);
  }

  /** What one more block makes of what has been sent. */
  lemma SentWithBlock(fits: bool, stream: seq<bool>, total: seq<byte>, start: int, restart: Restart, spent: nat, tokens: seq<Token>,
                      upto: nat, far: nat, buf: Option<seq<byte>>, r: Written, last: bool, fixed: bool, long: bool)
    requires Sent(fits, false, stream, total, start, restart, spent) && Parsed(total, restart.input, start, tokens, upto, far)
    requires (buf.Some? ==> buf.value == total[start..upto]) && upto == start + Span(tokens) && (last ==> upto == |total|)
    requires Faithful(stream, r, tokens, buf, last) && r.kind == Choice(buf, fixed, r.opt, r.stat) && StaticSize(r, tokens)
    requires if last then |r.pad| < 8 && |stream + r.bits + r.pad| % 8 == 0 else r.pad == []
    requires r.kind == 0 && buf.Some? ==> |r.bits| <= 42 + 8 * |buf.value|
    requires r.kind == 1 ==> |r.bits| == 3 + r.stat
    requires r.kind == 2 ==> |r.bits| == 3 + r.opt
    requires long ==> !last && Span(tokens) >= 127
    ensures Sent(fits && TablesFit(r), last, stream + r.bits + r.pad, total, upto, restart, spent + if long then 0 else SHORT_BLOCK)
    ensures (fixed && fits ==> fits && TablesFit(r)) && (start <= upto <= |total| && restart.input <= upto)
    ensures Parsed(total, restart.input, upto, [], upto, far)
  {
    hide *;
    ParsedFacts(total, restart.input, start, tokens, upto, far);
    NothingParsed(total, restart.input, upto, far);
    ChoiceNeedsBuffer(buf, fixed, r.opt, r.stat);
    OnlyDynamicNeedsRoom(r);
    BlockSize(r, tokens, buf, fixed);
    BlockSent(fits, stream, total, start, restart, spent, tokens, upto, far, buf, r, last);
  }

  /** The bytes of the block, if the window still has them. */
  method CurrentBlock(s: Deflater) returns (buf: Option<seq<byte>>)
    requires s.WindowOk() && s.blockStart <= s.strstart && 0 <= s.base + s.blockStart
    ensures s.base + s.strstart <= |s.total|
    ensures buf.Some? ==> buf.value == s.total[s.base + s.blockStart..s.base + s.strstart] && |buf.value| <= s.strstart
    ensures buf.Some? <==> s.blockStart >= 0
  {
    hide *;
    WindowFacts(s);
    buf := None;
    if s.blockStart >= 0 {
      BlockBytes(s);
      buf := Some(s.window[s.blockStart..s.strstart]);
    }
  }

  /** What is recorded of a block that has been written. */
  method EndBlock(s: Deflater, last: bool, ghost r: Written, ghost stream: seq<bool>, ghost spent: nat, ghost upto: nat)
    requires s.Sized() && s.b.Valid() && (s.strategy == Fixed ==> s.fits && TablesFit(r)) && s.restart.input <= s.base
    requires upto == s.base + s.strstart && s.b.Tokens() == [] && Parsed(s.total, s.restart.input, upto, [], upto, MaxDist(s.z))
    requires Sent(s.fits && TablesFit(r), last, stream + r.bits + r.pad, s.total, upto, s.restart, spent)
    requires s.b.w.Stream() == stream + r.bits + r.pad && ByteBits(s.out) <= stream
    modifies s`blockStart, s`fits, s`spent, s`finished
    ensures s.StreamOk(upto) && s.blockStart == s.strstart && s.finished == last && s.spent == spent
  {
    hide *;
    OutStays(ByteBits(s.out), stream, r.bits, r.pad);
    s.fits := s.fits && TablesFit(r);
    s.spent := spent;
    s.finished := last;
    s.blockStart := s.strstart;
    IsStream(s, upto);
  }

  /** The block that stands for the input since block_start is written. */
  method WriteParsed(s: Deflater, last: bool)
    requires s.WindowOk() && s.StreamOk(s.base + s.strstart) && !s.finished && s.strstart < 65536
    requires last ==> s.lookahead == 0
    modifies s`blockStart, s`fits, s`spent, s`finished, s.b, s.b.w, s.b.s, s.b.s.heap, s.b.s.depth, s.b.s.blCount
    modifies s.b.lFc, s.b.lDl, s.b.dFc, s.b.dDl, s.b.bFc, s.b.bDl
    ensures s.StreamOk(s.base + s.strstart) && s.blockStart == s.strstart && s.finished == last && Room(s)
    ensures s.spent == old(s.spent) + if !last && old(LongBlock(s)) then 0 else SHORT_BLOCK
  {
    hide *;
    WindowFacts(s);
    SizeFacts(s);
    StreamFacts(s, s.base + s.strstart);
    CollectedFacts(s, s.base + s.strstart);
    ghost var upto, start, stream, tokens := s.base + s.strstart, s.base + s.blockStart, s.b.w.Stream(), s.b.Tokens();
    ghost var long, fixed, far := !last && LongBlock(s), s.strategy == Fixed, MaxDist(s.z);
    var buf := CurrentBlock(s);
    ghost var r := FlushBlock(s.b, buf, last, s.strategy == Fixed);
    BlockRoom(s);
    SentWithBlock(s.fits, stream, s.total, start, s.restart, s.spent, tokens, upto, far, buf, r, last, fixed, long);
    EndBlock(s, last, r, stream, s.spent + if long then 0 else SHORT_BLOCK, upto);
  }

  lemma TokensNumber(b: Block)
    requires b.lastLit <= b.dBuf.Length && b.lastLit <= b.lBuf.Length
    ensures |b.Tokens()| == b.lastLit
  {
  }

  /** After the last block no bits are left over. */
  lemma NothingLeftOver(s: Deflater, upto: nat)
    requires s.StreamOk(upto) && s.finished && s.b.w.biValid <= 7
    ensures s.b.w.biValid == 0
  {
    hide *;
    StreamFacts(s, upto);
    BlockFacts(s.b);
    SentRange(s.fits, s.finished, s.b.w.Stream(), s.total, s.base + s.blockStart, s.restart, s.spent);
    StreamIs(s.b.w);
    ByteBitsSizes(s.b.w.pending, []);
  }

  /** FLUSH_BLOCK_ONLY: what has been parsed goes out as a block. */
  method FlushBlockOnly(s: Deflater, last: bool)
    requires s.WindowOk() && s.StreamOk(s.base + s.strstart) && !s.finished && s.strstart < 65536
    requires last ==> s.lookahead == 0
    modifies s`blockStart, s`fits, s`spent, s`finished, s`out, s`availOut, s.b, s.b.w, s.b.s, s.b.s.heap, s.b.s.depth, s.b.s.blCount
    modifies s.b.lFc, s.b.lDl, s.b.dFc, s.b.dDl, s.b.bFc, s.b.bDl
    ensures s.WindowOk() && s.StreamOk(s.base + s.strstart) && s.blockStart == s.strstart && s.finished == last && Room(s)
    ensures |s.out| + s.availOut == old(|s.out| + s.availOut) && old(s.out) <= s.out <= s.b.w.pending
    ensures s.availOut == 0 || s.out == s.b.w.pending
    ensures Drained(s) && s.spent == old(s.spent) + if !last && old(LongBlock(s)) then 0 else SHORT_BLOCK
  {
    hide *;
    WriteParsed(s, last);
    FlushPending(s, s.base + s.strstart);
    DrainedFacts(s);
    if last {
      NothingLeftOver(s, s.base + s.strstart);
    }
  }

  lemma BlockRoom(s: Deflater)
    requires s.b.Valid() && s.b.Tokens() == []
    ensures Room(s)
  {
  }
}
