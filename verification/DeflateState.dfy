/** The compressor's state of deflate.h, and what it stands for: how much of the input has been read,
    parsed into literals and matches, and written. */
module DeflateState {
  import opened Machine
  import opened BitStrings
  import opened Hashing
  import opened HashChains
  import opened BitWriter
  import opened DeflateSpec
  import opened BlockFormat
  import opened Blocks
  import opened BlockFlush

  const MIN_MATCH: nat := 3
  const MAX_MATCH: nat := 258
  const MIN_LOOKAHEAD: nat := 262

  /** MAX_DIST */
  function MaxDist(z: Sizes): nat
    requires ValidSizes(z)
  {
    z.w - MIN_LOOKAHEAD
  }

  /** Arithmetic on an unsigned int. */
  function Wrap(x: int): nat {
    x % 0x1_0000_0000
  }

  /** configuration_table, for the levels that look for matches. */
  const GOOD: seq<nat> := [0, 4, 4, 4, 4, 8, 8, 8, 32, 32]
  const LAZY: seq<nat> := [0, 4, 5, 6, 4, 16, 16, 32, 128, 258]
  const NICE: seq<nat> := [0, 8, 16, 32, 16, 32, 128, 128, 258, 258]
  const CHAIN: seq<nat> := [0, 4, 8, 32, 16, 32, 128, 256, 1024, 4096]

  lemma LevelFacts(level: nat)
    requires 1 <= level <= 9
    ensures 3 <= LAZY[level] <= 258 && 1 <= NICE[level] <= 258 && 4 <= CHAIN[level]
  {
  }

  /** The code of a flush value, or -1. */
  type LastFlush = f: int | -1 <= f <= 5

  datatype Strategy = DefaultStrategy | Filtered | Fixed

  // ---- Parsing

  /** The input at `at` repeats what is dist before it, for len bytes. */
  ghost predicate Repeats(total: seq<byte>, at: nat, dist: nat, len: nat) {
    1 <= dist <= at && at + len <= |total| && forall i :: at <= i < at + len ==> total[i] == total[i - dist]
  }

  /** The literals and matches collected since `start` stand for the input up to `upto`, and refer to nothing
      before `since`. */
  ghost predicate Parsed(total: seq<byte>, since: nat, start: int, tokens: seq<Token>, upto: nat, far: nat) {
    since <= start <= upto <= |total| && AllInReach(total[since..start], tokens) &&
    Expand(total[since..start], tokens) == total[since..upto] && forall i :: 0 <= i < |tokens| ==> Near(tokens[i], far)
  }

  predicate Near(t: Token, far: nat) {
    ValidToken(t) && (t.Copy? ==> t.distance <= far)
  }

  lemma ParsedFacts(total: seq<byte>, since: nat, start: int, tokens: seq<Token>, upto: nat, far: nat)
    requires Parsed(total, since, start, tokens, upto, far)
    ensures since <= start <= upto <= |total|
  {
  }

  lemma NothingParsed(total: seq<byte>, since: nat, start: nat, far: nat)
    requires since <= start <= |total|
    ensures Parsed(total, since, start, [], start, far)
  {
  }

  lemma ParsedNothing(total: seq<byte>, since: nat, start: int, upto: nat, far: nat)
    requires Parsed(total, since, start, [], upto, far)
    ensures start == upto
  {
    assert |total[since..start]| == |total[since..upto]|;
  }

  lemma ParsedGrows(total: seq<byte>, more: seq<byte>, since: nat, start: int, tokens: seq<Token>, upto: nat, far: nat)
    requires Parsed(total, since, start, tokens, upto, far)
    ensures Parsed(total + more, since, start, tokens, upto, far)
  {
    hide AllInReach, Expand, ValidToken;
    assert (total + more)[since..start] == total[since..start] && (total + more)[since..upto] == total[since..upto];
  }

  /** Tokens that refer to nothing before `since` refer to nothing before the beginning. */
  lemma ParsedFromStart(total: seq<byte>, since: nat, start: int, tokens: seq<Token>, upto: nat, far: nat)
    requires Parsed(total, since, start, tokens, upto, far)
    ensures Parsed(total, 0, start, tokens, upto, far)
  {
    hide AllInReach, Expand, Near;
    ExpandAfter(total[..since], total[since..start], tokens);
    assert total[..since] + total[since..start] == total[0..start];
    assert total[..since] + total[since..upto] == total[0..upto];
  }

  lemma ParsedLiteral(total: seq<byte>, since: nat, start: int, tokens: seq<Token>, upto: nat, far: nat, c: byte)
    requires Parsed(total, since, start, tokens, upto, far) && upto < |total| && c == total[upto]
    ensures Parsed(total, since, start, tokens + [Lit(c)], upto + 1, far)
  {
    var out := total[since..start];
    ExpandOneMore(out, tokens, Lit(c));
    assert total[since..upto] + [c] == total[since..upto + 1];
  }

  lemma ExpandOneMore(out: seq<byte>, tokens: seq<Token>, t: Token)
    requires AllInReach(out, tokens) && InReach(Expand(out, tokens), t)
    ensures AllInReach(out, tokens + [t]) && Expand(out, tokens + [t]) == ExpandOne(Expand(out, tokens), t)
  {
    ExpandAppend(out, tokens, [t]);
    var mid := Expand(out, tokens);
    assert [t][1..] == [];
    assert AllInReach(mid, [t]) && Expand(mid, [t]) == ExpandOne(mid, t);
  }

  lemma {:induction false} CopyIsRepeat(total: seq<byte>, since: nat, at: nat, dist: nat, len: nat)
    requires Repeats(total, at, dist, len) && since + dist <= at
    ensures CopyBytes(total[since..at], len, dist) == total[since..at + len]
    decreases len
  {
    if len > 0 {
      assert total[since..at] + [total[at - dist]] == total[since..at + 1];
      if len > 1 {
        CopyIsRepeat(total, since, at + 1, dist, len - 1);
      }
    }
  }

  lemma ParsedMatch(total: seq<byte>, since: nat, start: int, tokens: seq<Token>, upto: nat, far: nat, dist: nat, len: nat)
    requires Parsed(total, since, start, tokens, upto, far) && Repeats(total, upto, dist, len)
    requires 3 <= len <= 258 && dist <= far <= 32768 && since + dist <= upto
    ensures Parsed(total, since, start, tokens + [Copy(len, dist)], upto + len, far)
  {
    hide Repeats, CopyBytes;
    RepeatFits(total, upto, dist, len);
    ExpandOneMore(total[since..start], tokens, Copy(len, dist));
    CopyIsRepeat(total, since, upto, dist, len);
  }

  lemma ParsedLength(total: seq<byte>, since: nat, start: int, tokens: seq<Token>, upto: nat, far: nat)
    requires Parsed(total, since, start, tokens, upto, far)
    ensures |tokens| <= Span(tokens)
  {
    hide Expand, AllInReach, Span, ValidToken;
    SpanGrows(tokens);
  }

  /** As many bytes as the tokens stand for. */
  lemma ParsedSpan(total: seq<byte>, since: nat, start: int, tokens: seq<Token>, upto: nat, far: nat)
    requires Parsed(total, since, start, tokens, upto, far)
    ensures upto == start + Span(tokens)
  {
    hide Expand, AllInReach, Near;
    ExpandSpan(total[since..start], tokens);
  }

  lemma RepeatFits(total: seq<byte>, at: nat, dist: nat, len: nat)
    requires Repeats(total, at, dist, len)
    ensures 1 <= dist <= at && at + len <= |total|
  {
  }

  lemma RepeatGrows(total: seq<byte>, more: seq<byte>, at: nat, dist: nat, len: nat)
    requires Repeats(total, at, dist, len)
    ensures Repeats(total + more, at, dist, len)
  {
  }

  // ---- What has been written

  /** Where decoding may begin: at the beginning, or after a full flush. How much input had been read, and how
      many bytes written. */
  datatype Restart = Restart(input: nat, output: nat)

  const BEGINNING: Restart := Restart(0, 0)

  /** From there on, the blocks written decode to the input up to `start`; after the last one, to all of it. The
      claim rests on inflate having room for the tables of the dynamic blocks, which `fits` records. */
  ghost predicate SentFrom(fits: bool, finished: bool, stream: seq<bool>, total: seq<byte>, start: int, from: Restart) {
    from.input <= start <= |total| && 8 * from.output <= |stream| &&
    if finished then
      |stream| % 8 == 0 && start == |total| &&
      (fits ==> Reaches(stream, Config(Header(false), [], 8 * from.output), Config(Done, total[from.input..], |stream|)))
    else fits ==> Decodes(stream[..8 * from.output], stream[8 * from.output..], false, [], total[from.input..start])
  }

  lemma SentFromRange(fits: bool, finished: bool, stream: seq<bool>, total: seq<byte>, start: int, from: Restart)
    requires SentFrom(fits, finished, stream, total, start, from)
    ensures from.input <= start <= |total| && 8 * from.output <= |stream|
    ensures finished ==> |stream| % 8 == 0 && start == |total|
  {
    hide Decodes, Reaches;
  }

  /** Nothing is sent yet from here on. */
  lemma NothingSentFrom(fits: bool, stream: seq<bool>, total: seq<byte>, from: Restart)
    requires from.input <= |total| && 8 * from.output == |stream|
    ensures SentFrom(fits, false, stream, total, from.input, from)
  {
    hide Reaches;
    var none: seq<bool> := [];
    forall B: seq<bool> | Continues(B, stream, none)
      ensures Reaches(B, Config(Header(false), [], |stream|), Config(Header(false), [], |stream| + |none|))
    {
      ReachesSelf(B, Config(Header(false), [], |stream|));
    }
    assert stream[..|stream|] == stream && stream[|stream|..] == none;
    assert total[from.input..from.input] == [];
  }

  lemma SentFromGrows(fits: bool, stream: seq<bool>, total: seq<byte>, more: seq<byte>, start: int, from: Restart)
    requires SentFrom(fits, false, stream, total, start, from)
    ensures SentFrom(fits, false, stream, total + more, start, from)
  {
    hide Decodes;
    assert (total + more)[from.input..start] == total[from.input..start];
  }

  /** More bits that decode. */
  lemma SentFromThen(fits: bool, stream: seq<bool>, total: seq<byte>, start: int, from: Restart,
                     bits: seq<bool>, pad: seq<bool>, last: bool, upto: int)
    requires SentFrom(fits, false, stream, total, start, from) && start <= upto <= |total| && (last ==> upto == |total|)
    requires fits ==> Decodes(stream, bits, last, total[from.input..start], total[from.input..upto])
    requires last ==> |pad| < 8 && |stream + bits + pad| % 8 == 0
    requires !last ==> pad == []
    ensures SentFrom(fits, last, stream + bits + pad, total, upto, from)
  {
    hide Decodes, Reaches;
    var n := 8 * from.output;
    var before, after := stream[..n], stream[n..];
    assert before + after == stream;
    var all := stream + bits + pad;
    if fits {
      DecodesThen(before, after, bits, last, [], total[from.input..start], total[from.input..upto]);
      if last {
        assert before + (after + bits) + pad == all;
        DecodesToEnd(before, after + bits, pad, [], total[from.input..upto]);
        assert total[from.input..upto] == total[from.input..];
      } else {
        assert all[..n] == before && all[n..] == after + bits;
      }
    }
  }

  /** With less to claim, the claim still stands. */
  lemma SentFromWeaker(fits: bool, fits': bool, finished: bool, stream: seq<bool>, total: seq<byte>, start: int, from: Restart)
    requires SentFrom(fits, finished, stream, total, start, from) && (fits' ==> fits)
    ensures SentFrom(fits', finished, stream, total, start, from)
  {
    hide Decodes, Reaches;
  }

  /** A block more. */
  lemma BlockSentFrom(fits: bool, stream: seq<bool>, total: seq<byte>, start: int, from: Restart, tokens: seq<Token>, upto: nat,
                      far: nat, buf: Option<seq<byte>>, r: Written, last: bool)
    requires SentFrom(fits, false, stream, total, start, from) && Parsed(total, from.input, start, tokens, upto, far)
    requires buf.Some? ==> buf.value == total[start..upto]
    requires r.kind == 0 ==> buf.Some?
    requires Faithful(stream, r, tokens, buf, last) && (last ==> upto == |total|)
    requires last ==> |r.pad| < 8 && |stream + r.bits + r.pad| % 8 == 0
    requires !last ==> r.pad == []
    ensures SentFrom(fits && TablesFit(r), last, stream + r.bits + r.pad, total, upto, from)
  {
    hide Decodes, TablesFit, AllInReach, Expand, Near, SentFrom;
    SentFromRange(fits, false, stream, total, start, from);
    SentFromWeaker(fits, fits && TablesFit(r), false, stream, total, start, from);
    if TablesFit(r) {
      var out := total[from.input..start];
      assert r.kind == 0 ==> out + buf.value == total[from.input..upto];
      assert Decodes(stream, r.bits, last, out, Expand(out, tokens));
    }
    SentFromThen(fits && TablesFit(r), stream, total, start, from, r.bits, r.pad, last, upto);
  }

  /** What has been written decodes, from the beginning and from the last full flush; it takes up at most nine bits
      a byte, ten for each block of at least 127 bytes, and what flushes and short blocks took. */
  ghost predicate Sent(fits: bool, finished: bool, stream: seq<bool>, total: seq<byte>, start: int, restart: Restart, spent: nat) {
    SentFrom(fits, finished, stream, total, start, BEGINNING) && SentFrom(fits, finished, stream, total, start, restart) &&
    127 * |stream| <= 1153 * start + 127 * spent
  }

  lemma SentFacts(fits: bool, finished: bool, stream: seq<bool>, total: seq<byte>, start: int, restart: Restart, spent: nat)
    requires Sent(fits, finished, stream, total, start, restart, spent)
    ensures SentFrom(fits, finished, stream, total, start, BEGINNING) && SentFrom(fits, finished, stream, total, start, restart)
    ensures 127 * |stream| <= 1153 * start + 127 * spent
  {
    hide SentFrom;
  }

  lemma SentRange(fits: bool, finished: bool, stream: seq<bool>, total: seq<byte>, start: int, restart: Restart, spent: nat)
    requires Sent(fits, finished, stream, total, start, restart, spent)
    ensures 0 <= start <= |total| && (finished ==> |stream| % 8 == 0 && start == |total|)
  {
    hide SentFrom;
    SentFromRange(fits, finished, stream, total, start, BEGINNING);
  }

  lemma NothingSent(fits: bool, total: seq<byte>)
    ensures Sent(fits, false, [], total, 0, BEGINNING, 0)
  {
    hide SentFrom;
    NothingSentFrom(fits, [], total, BEGINNING);
  }

  lemma SentGrows(fits: bool, stream: seq<bool>, total: seq<byte>, more: seq<byte>, start: int, restart: Restart, spent: nat)
    requires Sent(fits, false, stream, total, start, restart, spent)
    ensures Sent(fits, false, stream, total + more, start, restart, spent)
  {
    hide SentFrom;
    SentFromGrows(fits, stream, total, more, start, BEGINNING);
    SentFromGrows(fits, stream, total, more, start, restart);
  }

  const SHORT_BLOCK: nat := 34

  lemma BlockSent(fits: bool, stream: seq<bool>, total: seq<byte>, start: int, restart: Restart, spent: nat, tokens: seq<Token>,
                  upto: nat, far: nat, buf: Option<seq<byte>>, r: Written, last: bool)
    requires Sent(fits, false, stream, total, start, restart, spent) && Parsed(total, restart.input, start, tokens, upto, far)
    requires buf.Some? ==> buf.value == total[start..upto]
    requires r.kind == 0 ==> buf.Some?
    requires Faithful(stream, r, tokens, buf, last) && (last ==> upto == |total|)
    requires last ==> |r.pad| < 8 && |stream + r.bits + r.pad| % 8 == 0
    requires !last ==> r.pad == []
    requires |r.bits| <= 9 * Span(tokens) + 27 && (Span(tokens) >= 127 ==> |r.bits| <= 9 * Span(tokens) + 10)
    ensures Sent(fits && TablesFit(r), last, stream + r.bits + r.pad, total, upto, restart, spent + SHORT_BLOCK)
    ensures !last && Span(tokens) >= 127 ==>
      Sent(fits && TablesFit(r), last, stream + r.bits + r.pad, total, upto, restart, spent)
  {
    hide SentFrom, Parsed, Faithful, TablesFit, Span;
    ParsedFacts(total, restart.input, start, tokens, upto, far);
    ParsedSpan(total, restart.input, start, tokens, upto, far);
    ParsedFromStart(total, restart.input, start, tokens, upto, far);
    BlockSentFrom(fits, stream, total, start, BEGINNING, tokens, upto, far, buf, r, last);
    BlockSentFrom(fits, stream, total, start, restart, tokens, upto, far, buf, r, last);
  }

  // ---- The state

  class Deflater {
    const level: nat
    const strategy: Strategy
    const z: Sizes
    const b: Block
    const window: array<byte>
    const prev: array<Pos>
    const head: array<Pos>
    var insH: nat
    var blockStart: int
    var matchLength: nat
    var prevMatch: nat
    var matchAvailable: bool
    var strstart: nat
    var matchStart: nat
    var lookahead: nat
    var prevLength: nat
    var insert: nat
    var highWater: nat
    var finished: bool
    var lastFlush: LastFlush
    // the stream interface: unread input, room for output, and what has gone out
    var input: seq<byte>
    var next: nat
    var availOut: nat
    var out: seq<byte>
    // all input read so far, where the window starts in it, and the positions in the hash table
    ghost var total: seq<byte>
    ghost var base: nat
    ghost var inserted: set<nat>
    ghost var fits: bool
    // where the last full flush was, and the bits that flushes and short blocks took
    ghost var restart: Restart
    ghost var spent: nat

    /** lm_init and the allocations of deflateInit2 */
    constructor (level: nat, strategy: Strategy, z: Sizes, b: Block)
      requires 1 <= level <= 9 && ValidSizes(z) && b.Valid() && b.Tokens() == [] && b.w.Stream() == [] && 128 <= b.dBuf.Length
      ensures this.level == level && this.strategy == strategy && this.z == z && this.b == b
      ensures fresh(window) && fresh(prev) && fresh(head) && Sized()
      ensures WindowOk() && InsertOk() && ChainsOk(0, 0) && HashOk(0) && StreamOk(0) && !finished && total == [] && out == []
      ensures base == strstart == lookahead == insert == blockStart == highWater == next == availOut == 0 && input == []
      ensures matchLength == prevLength == 2 && !matchAvailable && fits && lastFlush == 0
      ensures restart == BEGINNING && spent == 0
    {
      this.level, this.strategy, this.z, this.b := level, strategy, z, b;
      window := new byte[2 * z.w](i => 0);
      prev := new Pos[z.w](i => 0);
      head := new Pos[Pow2(z.bits)](i => 0);
      insH, blockStart, matchLength, prevMatch, matchAvailable := 0, 0, 2, 0, false;
      strstart, matchStart, lookahead, prevLength, insert, highWater := 0, 0, 0, 2, 0, 0;
      finished, lastFlush := false, 0;
      input, next, availOut, out := [], 0, 0, [];
      total, base, inserted, fits, restart, spent := [], 0, {}, true, BEGINNING, 0;
      new;
      NoChains(head[..], prev[..], z, [], 0, 0, 0);
      NothingParsed([], 0, 0, MaxDist(z));
      NothingSent(true, []);
    }

    ghost predicate Sized() {
      1 <= level <= 9 && ValidSizes(z) && window.Length == 2 * z.w && prev.Length == z.w && head.Length == Pow2(z.bits) && prev != head &&
      128 <= b.dBuf.Length
    }

    /** The window up to the end of the lookahead is the end of the input read. */
    ghost predicate WindowOk()
      reads `strstart, `lookahead, `total, `base, window
    {
      Sized() && strstart + lookahead <= window.Length && base + strstart + lookahead == |total| &&
      window[..strstart + lookahead] == total[base..]
    }

    /** The chains are good for positions from a window's size before `from`, and hold none from `top` on. */
    ghost predicate ChainsOk(from: nat, top: nat)
      reads `total, `base, `inserted, head, prev
    {
      Chains(head[..], prev[..], z, total, base, inserted, from, top)
    }

    /** The hash is ready for the string at `at`, if there is one. */
    ghost predicate HashOk(at: nat)
      reads `insH, `total
    {
      at + 2 < |total| ==> Rolled(insH, total[at], total[at + 1], z.bits, z.shift)
    }

    /** Strings are left to be inserted only for want of input. */
    ghost predicate InsertOk()
      reads `insert, `strstart, `lookahead
    {
      insert <= strstart && (insert > 0 ==> lookahead + insert < 3)
    }

    /** Up to `upto` the input is in the blocks written or in the tokens collected. */
    ghost predicate StreamOk(upto: nat)
      reads `total, `base, `blockStart, `fits, `finished, `out, `restart, `spent
      reads b, b.w, b.s, b.s.depth, b.lFc, b.dFc, b.bFc, b.dBuf, b.lBuf
      reads b.t.lengthCode, b.t.baseLength, b.t.distCode, b.t.baseDist, b.t.ltFc, b.t.ltDl, b.t.dtFc, b.t.dtDl
    {
      Sized() && b.Valid() && (strategy == Fixed ==> fits) && restart.input <= base &&
      Parsed(total, restart.input, base + blockStart, b.Tokens(), upto, MaxDist(z)) &&
      Sent(fits, finished, b.w.Stream(), total, base + blockStart, restart, spent) && ByteBits(out) <= b.w.Stream()
    }
  }

  lemma SizeFacts(s: Deflater)
    requires s.Sized()
    ensures 1 <= s.level <= 9 && ValidSizes(s.z) && 512 <= s.z.w <= 32768 && HashSizes(s.z.bits, s.z.shift)
    ensures s.window.Length == 2 * s.z.w && s.prev.Length == s.z.w && s.head.Length == Pow2(s.z.bits) && s.prev != s.head
    ensures 128 <= s.b.dBuf.Length
    ensures MaxDist(s.z) == s.z.w - 262 && MIN_LOOKAHEAD == 262 && MAX_MATCH == 258 && MIN_MATCH == 3
  {
  }

  lemma WindowFacts(s: Deflater)
    requires s.WindowOk()
    ensures s.Sized() && s.strstart + s.lookahead <= s.window.Length && s.base + s.strstart + s.lookahead == |s.total|
    ensures s.window[..s.strstart + s.lookahead] == s.total[s.base..]
  {
  }

  lemma WindowIs(s: Deflater)
    requires s.Sized() && s.strstart + s.lookahead <= s.window.Length && s.base + s.strstart + s.lookahead == |s.total|
    requires s.window[..s.strstart + s.lookahead] == s.total[s.base..]
    ensures s.WindowOk()
  {
  }

  /** One byte of it. */
  lemma WindowAt(s: Deflater, i: nat)
    requires s.WindowOk() && i < s.strstart + s.lookahead
    ensures i < s.window.Length && s.base + i < |s.total| && s.window[i] == s.total[s.base + i]
  {
    assert s.window[..s.strstart + s.lookahead][i] == s.window[i];
  }

  lemma ChainsAre(s: Deflater, from: nat, top: nat)
    requires s.ChainsOk(from, top)
    ensures Chains(s.head[..], s.prev[..], s.z, s.total, s.base, s.inserted, from, top)
  {
    hide Chains;
  }

  lemma AreChains(s: Deflater, from: nat, top: nat)
    requires Chains(s.head[..], s.prev[..], s.z, s.total, s.base, s.inserted, from, top)
    ensures s.ChainsOk(from, top)
  {
    hide Chains;
  }

  lemma StreamFacts(s: Deflater, upto: nat)
    requires s.StreamOk(upto)
    ensures s.Sized() && s.b.Valid() && (s.strategy == Fixed ==> s.fits) && s.restart.input <= s.base
    ensures Parsed(s.total, s.restart.input, s.base + s.blockStart, s.b.Tokens(), upto, MaxDist(s.z))
    ensures Sent(s.fits, s.finished, s.b.w.Stream(), s.total, s.base + s.blockStart, s.restart, s.spent) && ByteBits(s.out) <= s.b.w.Stream()
  {
    hide Parsed, Sent, ByteBits;
  }

  lemma IsStream(s: Deflater, upto: nat)
    requires s.Sized() && s.b.Valid() && (s.strategy == Fixed ==> s.fits) && s.restart.input <= s.base
    requires Parsed(s.total, s.restart.input, s.base + s.blockStart, s.b.Tokens(), upto, MaxDist(s.z))
    requires Sent(s.fits, s.finished, s.b.w.Stream(), s.total, s.base + s.blockStart, s.restart, s.spent) && ByteBits(s.out) <= s.b.w.Stream()
    ensures s.StreamOk(upto)
  {
    hide Parsed, Sent, ByteBits;
  }
}
