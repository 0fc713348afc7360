/** deflate_stored of deflate.c, level 0: stored blocks go straight from the input to the output where there
    is room, and through the window and the pending buffer where there is not. */
module DeflateStored {
  import opened Machine
  import opened BitStrings
  import opened BitWriter
  import opened DeflateSpec
  import opened BlockFormat
  import opened BlockHeaders
  import opened Blocks
  import opened BlockFlush
  import opened DeflateState
  import opened DeflateOutput
  import opened DeflateFast

  const MAX_STORED: nat := 65535

  function Min(a: nat, b: nat): nat {
    if a > b then b else a
  }

  /** The part of the compressor's state that level 0 uses. */
  class Storer {
    const w: Writer
    const wSize: nat
    const pendingBufSize: nat
    const window: array<byte>
    var strstart: nat
    var blockStart: nat
    var insert: nat
    var matches: nat
    var highWater: nat
    var finished: bool
    // the stream interface: unread input, room for output, and what has gone out
    var input: seq<byte>
    var next: nat
    var availOut: nat
    var out: seq<byte>
    // all input taken so far
    ghost var total: seq<byte>

    constructor (w: Writer, wSize: nat, pendingBufSize: nat)
      requires w.Valid() && w.Stream() == [] && 512 <= wSize <= 32768 && 512 <= pendingBufSize
      ensures this.w == w && this.wSize == wSize && this.pendingBufSize == pendingBufSize && fresh(window)
      ensures Sized() && WindowOk([]) && StreamOk(0) && !finished && total == [] && out == [] && input == []
      ensures strstart == blockStart == insert == matches == highWater == next == availOut == 0
    {
      this.w, this.wSize, this.pendingBufSize := w, wSize, pendingBufSize;
      window := new byte[2 * wSize](i => 0);
      strstart, blockStart, insert, matches, highWater := 0, 0, 0, 0, 0;
      finished, input, next, availOut, out, total := false, [], 0, 0, [], [];
      new;
      NothingSentFrom(true, [], [], BEGINNING);
      StreamIs(w);
    }

    ghost predicate Sized() {
      512 <= wSize <= 32768 && 512 <= pendingBufSize && window.Length == 2 * wSize
    }

    /** The window up to strstart is the end of what was seen. */
    ghost predicate WindowOk(seen: seq<byte>)
      reads `strstart, `blockStart, `insert, window
    {
      Sized() && insert <= wSize && blockStart <= strstart < window.Length && strstart <= |seen| && window[..strstart] == seen[|seen| - strstart..]
    }

    /** The blocks written hold the input up to `start`. */
    ghost predicate StreamOk(start: int)
      reads `total, `finished, `out, w
    {
      w.Valid() && w.biValid <= 7 && SentFrom(true, finished, w.Stream(), total, start, BEGINNING) && ByteBits(out) <= w.Stream()
    }
  }

  lemma SizesOf(s: Storer)
    requires s.Sized()
    ensures 512 <= s.wSize <= 32768 && 512 <= s.pendingBufSize && s.window.Length == 2 * s.wSize && MAX_STORED == 65535
  {
  }

  lemma WindowFactsOf(s: Storer, seen: seq<byte>)
    requires s.WindowOk(seen)
    ensures s.Sized() && s.insert <= s.wSize && s.blockStart <= s.strstart < s.window.Length && s.strstart <= |seen|
    ensures s.window[..s.strstart] == seen[|seen| - s.strstart..]
  {
  }

  lemma IsWindow(s: Storer, seen: seq<byte>)
    requires s.Sized() && s.insert <= s.wSize && s.blockStart <= s.strstart < s.window.Length && s.strstart <= |seen|
    requires s.window[..s.strstart] == seen[|seen| - s.strstart..]
    ensures s.WindowOk(seen)
  {
  }

  lemma StreamOf(s: Storer, start: int)
    requires s.StreamOk(start)
    ensures s.w.Valid() && s.w.biValid <= 7 && SentFrom(true, s.finished, s.w.Stream(), s.total, start, BEGINNING) && ByteBits(s.out) <= s.w.Stream()
  {
    hide SentFrom, ByteBits;
  }

  lemma IsStreamOf(s: Storer, start: int)
    requires s.w.Valid() && s.w.biValid <= 7 && SentFrom(true, s.finished, s.w.Stream(), s.total, start, BEGINNING) && ByteBits(s.out) <= s.w.Stream()
    ensures s.StreamOk(start)
  {
    hide SentFrom, ByteBits;
  }

  // ---- Writing a stored block

  /** One stored block more. */
  lemma StoredSent(stream: seq<bool>, total: seq<byte>, start: int, payload: seq<byte>, pad: seq<bool>, last: bool)
    requires SentFrom(true, false, stream, total, start, BEGINNING) && start + |payload| <= |total| && |payload| < 65536
    requires start >= 0 && payload == total[start..start + |payload|] && (last ==> start + |payload| == |total|)
    requires |pad| < 8 && (|stream| + 3 + |pad|) % 8 == 0
    ensures SentFrom(true, last, stream + (HeaderBits(0, last) + pad + StoredBits(payload)), total, start + |payload|, BEGINNING)
  {
    hide Decodes, HeaderBits, StoredBits, SentFrom;
    var bits := HeaderBits(0, last) + pad + StoredBits(payload);
    StoredBlockDecodes(stream, pad, payload, last, total[0..start]);
    assert total[0..start] + payload == total[0..start + |payload|];
    StoredBlockSize(payload, last);
    assert stream + bits + [] == stream + bits;
    SentFromThen(true, stream, total, start, BEGINNING, bits, [], last, start + |payload|);
  }

  /** The bits of the two lengths. */
  function LengthBits(len: nat): seq<bool>
    requires len < 65536
  {
    Bits(len, 16) + Bits(65535 - len, 16)
  }

  function LengthBytes(len: nat): seq<byte>
    requires len < 65536
  {
    [Low8(len), Low8(len / 256), Low8(65535 - len), Low8((65535 - len) / 256)]
  }

  lemma LengthsAre(len: nat)
    requires len < 65536
    ensures ByteBits(LengthBytes(len)) == LengthBits(len) && |LengthBits(len)| == 32
  {
    hide Bits, Low8;
    ShortBits(len);
    ShortBits(65535 - len);
    var a, b, c, d := Low8(len), Low8(len / 256), Low8(65535 - len), Low8((65535 - len) / 256);
    ByteBitsSnoc([], a);
    ByteBitsSnoc([a], b);
    ByteBitsSnoc([a, b], c);
    ByteBitsSnoc([a, b, c], d);
    assert [] + [a] == [a] && [a] + [b] == [a, b] && [a, b] + [c] == [a, b, c] && [a, b, c] + [d] == LengthBytes(len);
  }

  lemma EmptyBlockBits(len: nat)
    requires len < 65536
    ensures StoredBits([]) == LengthBits(0)
  {
    assert ByteBits([]) == [];
  }

  /** The lengths at the end of the pending bytes are replaced. */
  lemma LengthsReplaced(pending: seq<byte>, front: seq<bool>, len: nat)
    requires ByteBits(pending) == front + LengthBits(0) && len < 65536
    ensures |pending| >= 4 && ByteBits(pending[..|pending| - 4] + LengthBytes(len)) == front + LengthBits(len)
  {
    hide *;
    LengthsAre(0);
    LengthsAre(len);
    ByteBitsSizes(pending, []);
    var kept, four := pending[..|pending| - 4], pending[|pending| - 4..];
    assert pending == kept + four;
    ByteBitsAppend(kept, four);
    ByteBitsSizes(kept, four);
    SameFront(ByteBits(kept), ByteBits(four), front, LengthBits(0));
    ByteBitsAppend(kept, LengthBytes(len));
  }

  lemma SameFront(a: seq<bool>, b: seq<bool>, c: seq<bool>, d: seq<bool>)
    requires a + b == c + d && |b| == |d|
    ensures a == c
  {
    assert (a + b)[..|a|] == a && (c + d)[..|c|] == c;
  }

  /** Number of bytes of a stored block before its data. */
  function HeaderSize(biValid: nat): nat {
    (biValid + 42) / 8
  }

  lemma HeaderFitsIn(n: nat, biValid: nat, pad: nat, m: nat)
    requires biValid <= 7 && pad < 8 && (8 * n + biValid + 3 + pad) % 8 == 0 && 8 * m == 8 * n + biValid + 3 + pad + 32
    ensures m == n + HeaderSize(biValid)
  {
  }

  /** A stored block's header goes out: an empty block with its lengths replaced. */
  method HeaderOut(s: Storer, len: nat, last: bool) returns (ghost pad: seq<bool>)
    requires s.w.Valid() && s.w.biValid <= 7 && s.out == s.w.pending && len < 65536 && HeaderSize(s.w.biValid) <= s.availOut
    modifies s.w, s`out, s`availOut
    ensures s.w.Valid() && s.w.biValid == 0 && s.out == s.w.pending
    ensures s.availOut == old(s.availOut) - HeaderSize(old(s.w.biValid)) && |s.out| + s.availOut == old(|s.out| + s.availOut)
    ensures old(s.out) <= s.out && |pad| < 8 && (|old(s.w.Stream())| + 3 + |pad|) % 8 == 0
    ensures s.w.Stream() == old(s.w.Stream()) + (HeaderBits(0, last) + pad + LengthBits(len))
  {
    hide *;
    ghost var stream, pending, biValid := s.w.Stream(), s.w.pending, s.w.biValid;
    StreamIs(s.w);
    BitsSize(s.w.biBuf, s.w.biValid);
    pad := StoredBlock(s.w, [], last);
    EmptyBlockBits(len);
    StreamIs(s.w);
    BitsSize(s.w.biBuf, 0);
    ghost var front := stream + HeaderBits(0, last) + pad;
    assert ByteBits(s.w.pending) == front + LengthBits(0);
    LengthsReplaced(s.w.pending, front, len);
    LengthsAre(0);
    LengthsAre(len);
    StoredBlockSize([], last);
    ByteBitsSizes(pending, s.w.pending);
    HeaderFitsIn(|pending|, biValid, |pad|, |s.w.pending|);
    NothingHeld(s.w);
    s.w.pending := s.w.pending[..|s.w.pending| - 4] + LengthBytes(len);
    FourBytes(len);
    assert front + LengthBits(len) == stream + (HeaderBits(0, last) + pad + LengthBits(len));
    ValidAt(s.w);
    StreamIs(s.w);
    assert s.w.Stream() == front + LengthBits(len);
    PendingGrew(pending, s.w.pending, stream, HeaderBits(0, last) + pad + LengthBits(len), biValid);
    // flush_pending
    var n: nat := |s.w.pending| - |s.out|;
    s.out := s.out + s.w.pending[|s.out|..|s.out| + n];
    s.availOut := s.availOut - n;
  }

  lemma FourBytes(len: nat)
    requires len < 65536
    ensures |LengthBytes(len)| == 4
  {
  }

  lemma NothingHeld(w: Writer)
    requires w.Valid() && w.biValid == 0
    ensures w.biBuf < Pow2(0)
  {
  }

  lemma ValidAt(w: Writer)
    requires w.biValid == 0 && w.biBuf < Pow2(0)
    ensures w.Valid()
  {
  }

  lemma BitsSize(v: nat, n: nat)
    ensures |Bits(v, n)| == n
  {
  }

  /** Bytes once written stay. */
  lemma PendingGrew(before: seq<byte>, after: seq<byte>, stream: seq<bool>, bits: seq<bool>, biValid: nat)
    requires ByteBits(before) <= stream && |stream| == 8 * |before| + biValid && ByteBits(after) == stream + bits
    ensures before <= after
  {
    hide *;
    ByteBitsSizes(before, after);
    OutIsPrefix(before, after, []);
  }

  // ---- Copying directly

  /** While blocks are copied directly: what the window held when that began is `seen`, and bytes of the input
      since next0 have been copied past it, once the window had nothing left to write. */
  ghost predicate Direct(s: Storer, seen: seq<byte>, next0: nat)
    reads s`strstart, s`blockStart, s`insert, s`input, s`next, s`total, s`finished, s`out, s.window, s.w
  {
    s.WindowOk(seen) && next0 <= s.next <= |s.input| && s.total == seen + s.input[next0..s.next] &&
    (s.next > next0 ==> s.blockStart == s.strstart) && s.blockStart <= s.strstart &&
    s.StreamOk(|s.total| - (s.strstart - s.blockStart)) && s.out == s.w.pending
  }

  lemma DirectFacts(s: Storer, seen: seq<byte>, next0: nat)
    requires Direct(s, seen, next0)
    ensures s.WindowOk(seen) && next0 <= s.next <= |s.input| && s.total == seen + s.input[next0..s.next]
    ensures s.next > next0 ==> s.blockStart == s.strstart
    ensures s.blockStart <= s.strstart && s.StreamOk(|s.total| - (s.strstart - s.blockStart)) && s.out == s.w.pending
  {
    hide SentFrom, ByteBits;
  }

  lemma IsDirect(s: Storer, seen: seq<byte>, next0: nat)
    requires s.WindowOk(seen) && next0 <= s.next <= |s.input| && s.total == seen + s.input[next0..s.next]
    requires s.next > next0 ==> s.blockStart == s.strstart
    requires s.blockStart <= s.strstart && s.StreamOk(|s.total| - (s.strstart - s.blockStart)) && s.out == s.w.pending
    ensures Direct(s, seen, next0)
  {
    hide SentFrom, ByteBits;
  }

  /** zmemcpy to next_out */
  method BytesOut(s: Storer, bytes: seq<byte>)
    requires s.w.Valid() && s.w.biValid == 0 && s.out == s.w.pending && |bytes| <= s.availOut
    modifies s.w, s`out, s`availOut
    ensures s.w.Valid() && s.w.biValid == 0 && s.out == s.w.pending && s.out == old(s.out) + bytes
    ensures s.availOut == old(s.availOut) - |bytes| && s.w.Stream() == old(s.w.Stream()) + ByteBits(bytes)
  {
    hide *;
    NothingHeld(s.w);
    StreamIs(s.w);
    BitsSize(s.w.biBuf, 0);
    ByteBitsAppend(s.w.pending, bytes);
    s.w.pending := s.w.pending + bytes;
    s.out := s.out + bytes;
    s.availOut := s.availOut - |bytes|;
    ValidAt(s.w);
    StreamIs(s.w);
  }

  /** What is taken from the window, and then from the input, is what comes next in it all. */
  lemma PayloadIs(window: seq<byte>, seen: seq<byte>, total: seq<byte>, strstart: nat, blockStart: nat, n: nat, more: seq<byte>)
    requires blockStart <= strstart <= |window| && strstart <= |seen| && window[..strstart] == seen[|seen| - strstart..]
    requires blockStart < strstart ==> total == seen
    requires n <= strstart - blockStart && (n < strstart - blockStart ==> more == []) && strstart - blockStart <= |total|
    ensures var start := |total| - (strstart - blockStart);
            start + n + |more| <= |total + more| &&
            (total + more)[start..start + n + |more|] == window[blockStart..blockStart + n] + more
  {
    var start := |total| - (strstart - blockStart);
    assert window[blockStart..blockStart + n] == window[..strstart][blockStart..blockStart + n];
    if blockStart < strstart {
      assert window[..strstart][blockStart..blockStart + n] == total[start..start + n];
    }
  }

  lemma StoredJoins(stream: seq<bool>, last: bool, pad: seq<bool>, a: seq<byte>, b: seq<byte>)
    requires |a| + |b| < 65536
    ensures stream + (HeaderBits(0, last) + pad + LengthBits(|a| + |b|)) + ByteBits(a) + ByteBits(b)
         == stream + (HeaderBits(0, last) + pad + StoredBits(a + b))
  {
    hide Bits, ByteBits, HeaderBits;
    ByteBitsAppend(a, b);
    var h, n := HeaderBits(0, last) + pad, LengthBits(|a| + |b|);
    assert StoredBits(a + b) == n + (ByteBits(a) + ByteBits(b));
    assert stream + (h + n) + ByteBits(a) + ByteBits(b) == stream + (h + (n + (ByteBits(a) + ByteBits(b))));
  }

  /** The data of a block: from the window, and what that does not have straight from the input. */
  method CopyPayload(s: Storer, len0: nat) returns (ghost n: nat)
    requires s.w.Valid() && s.w.biValid == 0 && s.out == s.w.pending && len0 <= s.availOut && s.next <= |s.input|
    requires s.blockStart <= s.strstart <= s.window.Length && len0 <= s.strstart - s.blockStart + (|s.input| - s.next)
    modifies s.w, s`out, s`availOut, s`blockStart, s`next
    ensures s.w.Valid() && s.w.biValid == 0 && s.out == s.w.pending && old(s.out) <= s.out && s.availOut == old(s.availOut) - len0
    ensures |s.out| == |old(s.out)| + len0
    ensures n == if old(s.strstart - s.blockStart) > len0 then len0 else old(s.strstart - s.blockStart)
    ensures s.blockStart == old(s.blockStart) + n <= s.window.Length && s.next == old(s.next) + (len0 - n) <= |s.input|
    ensures s.w.Stream() == old(s.w.Stream()) + ByteBits(s.window[old(s.blockStart)..s.blockStart]) + ByteBits(s.input[old(s.next)..s.next])
  {
    hide *;
    ghost var stream, next, blockStart := s.w.Stream(), s.next, s.blockStart;
    var len := len0;
    var left := s.strstart - s.blockStart;
    if left > len {
      left := len;
    }
    n := left;
    NoBytesOut(stream, s.window[blockStart..blockStart]);
    if left > 0 {
      BytesOut(s, s.window[s.blockStart..s.blockStart + left]);
      s.blockStart := s.blockStart + left;
      len := len - left;
    }
    NoBytesOut(s.w.Stream(), s.input[next..next]);
    if len > 0 {
      BytesOut(s, s.input[s.next..s.next + len]);
      s.next := s.next + len;
    }
  }

  /** One block, straight to the output. */
  method DirectBlock(s: Storer, len0: nat, last: bool, ghost seen: seq<byte>, ghost next0: nat)
    requires Direct(s, seen, next0) && !s.finished && len0 <= MAX_STORED && HeaderSize(s.w.biValid) + len0 <= s.availOut
    requires len0 <= s.strstart - s.blockStart + (|s.input| - s.next)
    requires last ==> len0 == s.strstart - s.blockStart + (|s.input| - s.next)
    modifies s.w, s`out, s`availOut, s`blockStart, s`next, s`total, s`finished
    ensures Direct(s, seen, next0) && s.finished == last && s.w.biValid == 0
    ensures s.availOut == old(s.availOut - HeaderSize(s.w.biValid)) - len0
    ensures s.strstart - s.blockStart + (|s.input| - s.next) == old(s.strstart - s.blockStart + (|s.input| - s.next)) - len0
    ensures |s.out| + s.availOut == old(|s.out| + s.availOut) && old(s.out) <= s.out && old(s.next) <= s.next
  {
    hide *;
    DirectFacts(s, seen, next0);
    WindowFactsOf(s, seen);
    SizesOf(s);
    ghost var start, stream, total, window, blockStart := |s.total| - (s.strstart - s.blockStart), s.w.Stream(), s.total, s.window[..], s.blockStart;
    ghost var next1 := s.next;
    StreamOf(s, start);
    SentFromRange(true, s.finished, stream, s.total, start, BEGINNING);
    ghost var pad := HeaderOut(s, len0, last);
    ghost var left := CopyPayload(s, len0);
    ghost var b := s.input[next1..s.next];
    s.total := s.total + b;
    SlicesJoin(s.input, next0, next1, s.next);
    DirectSent(stream, seen, total, window, s.strstart, blockStart, left, b, pad, last, s.w.Stream());
    s.finished := last;
    DirectAgain(s, seen, next0);
  }

  lemma DirectAgain(s: Storer, seen: seq<byte>, next0: nat)
    requires s.Sized() && s.insert <= s.wSize && s.blockStart <= s.strstart < s.window.Length && s.strstart <= |seen|
    requires s.window[..s.strstart] == seen[|seen| - s.strstart..] && s.out == s.w.pending && s.w.Valid() && s.w.biValid == 0
    requires next0 <= s.next <= |s.input| && s.total == seen + s.input[next0..s.next]
    requires s.next > next0 ==> s.blockStart == s.strstart
    requires SentFrom(true, s.finished, s.w.Stream(), s.total, |s.total| - (s.strstart - s.blockStart), BEGINNING)
    ensures Direct(s, seen, next0)
  {
    hide *;
    OutIsAll(s);
    IsStreamOf(s, |s.total| - (s.strstart - s.blockStart));
    IsWindow(s, seen);
    IsDirect(s, seen, next0);
  }

  lemma DirectSent(stream: seq<bool>, seen: seq<byte>, total: seq<byte>, window: seq<byte>, strstart: nat, blockStart: nat,
                   n: nat, more: seq<byte>, pad: seq<bool>, last: bool, stream': seq<bool>)
    requires blockStart <= strstart <= |window| && strstart <= |seen| && window[..strstart] == seen[|seen| - strstart..]
    requires (blockStart < strstart ==> total == seen) && strstart - blockStart <= |total|
    requires n <= strstart - blockStart && (n < strstart - blockStart ==> more == []) && n + |more| < 65536
    requires SentFrom(true, false, stream, total, |total| - (strstart - blockStart), BEGINNING)
    requires |pad| < 8 && (|stream| + 3 + |pad|) % 8 == 0 && (last ==> n == strstart - blockStart)
    requires stream' == stream + (HeaderBits(0, last) + pad + LengthBits(n + |more|)) + ByteBits(window[blockStart..blockStart + n]) + ByteBits(more)
    ensures SentFrom(true, last, stream', total + more, |total| - (strstart - blockStart) + n + |more|, BEGINNING)
  {
    hide *;
    var start, a := |total| - (strstart - blockStart), window[blockStart..blockStart + n];
    PayloadIs(window, seen, total, strstart, blockStart, n, more);
    SentFromGrows(true, stream, total, more, start, BEGINNING);
    StoredSent(stream, total + more, start, a + more, pad, last);
    StoredJoins(stream, last, pad, a, more);
  }

  lemma NoBytesOut(stream: seq<bool>, a: seq<byte>)
    ensures a == [] ==> stream + ByteBits(a) == stream
  {
    assert stream + [] == stream;
  }

  lemma OutIsAll(s: Storer)
    requires s.out == s.w.pending
    ensures ByteBits(s.out) <= s.w.Stream()
  {
    StreamIs(s.w);
  }

  // ---- The window

  /** The window's first n bytes are the end of what was seen. */
  ghost predicate Tail(window: seq<byte>, n: nat, seen: seq<byte>) {
    n <= |window| && n <= |seen| && window[..n] == seen[|seen| - n..]
  }

  lemma TailMoves(window: seq<byte>, window': seq<byte>, n: nat, w: nat, seen: seq<byte>)
    requires Tail(window, n, seen) && w <= n && |window'| == |window| && window'[..n - w] == window[w..n]
    ensures Tail(window', n - w, seen)
  {
    assert window[w..n] == window[..n][w..];
  }

  lemma TailGrows(window: seq<byte>, window': seq<byte>, n: nat, seen: seq<byte>, more: seq<byte>)
    requires Tail(window, n, seen) && |window'| == |window| && n + |more| <= |window|
    requires window'[..n + |more|] == window[..n] + more
    ensures Tail(window', n + |more|, seen + more)
  {
  }

  /** The upper half moves to the lower. */
  method MoveDown(s: Storer, ghost seen: seq<byte>)
    requires s.Sized() && s.wSize <= s.strstart && Tail(s.window[..], s.strstart, seen) && s.strstart <= s.window.Length
    modifies s.window, s`strstart, s`matches
    ensures Tail(s.window[..], s.strstart, seen) && s.strstart == old(s.strstart) - s.wSize
  {
    hide *;
    SizesOf(s);
    ghost var window := s.window[..];
    s.strstart := s.strstart - s.wSize;
    for j := 0 to s.strstart
      modifies s.window
      invariant s.window[..j] == window[s.wSize..s.wSize + j]
      invariant forall i :: j <= i < s.window.Length ==> s.window[i] == window[i]
    {
      s.window[j] := s.window[s.wSize + j];
    }
    TailMoves(window, s.window[..], s.strstart + s.wSize, s.wSize, seen);
    if s.matches < 2 {
      s.matches := s.matches + 1;
    }
  }

  /** zmemcpy to the end of what the window has. */
  method Append(s: Storer, bytes: seq<byte>, ghost seen: seq<byte>)
    requires Tail(s.window[..], s.strstart, seen) && s.strstart + |bytes| <= s.window.Length
    modifies s.window, s`strstart
    ensures Tail(s.window[..], s.strstart, seen + bytes) && s.strstart == old(s.strstart) + |bytes|
  {
    hide *;
    ghost var window := s.window[..];
    for j := 0 to |bytes|
      modifies s.window
      invariant s.window[..s.strstart] == window[..s.strstart]
      invariant s.window[s.strstart..s.strstart + j] == bytes[..j]
    {
      s.window[s.strstart + j] := bytes[j];
    }
    assert bytes[..|bytes|] == bytes;
    assert s.window[..s.strstart + |bytes|] == s.window[..s.strstart] + s.window[s.strstart..s.strstart + |bytes|];
    TailGrows(window, s.window[..], s.strstart, seen, bytes);
    s.strstart := s.strstart + |bytes|;
  }

  lemma TailOfWindow(s: Storer, seen: seq<byte>)
    requires s.WindowOk(seen)
    ensures Tail(s.window[..], s.strstart, seen)
  {
  }

  lemma WindowOfTail(s: Storer, seen: seq<byte>)
    requires s.Sized() && s.insert <= s.wSize && Tail(s.window[..], s.strstart, seen) && s.blockStart <= s.strstart < s.window.Length
    ensures s.WindowOk(seen)
  {
  }

  /** A copy of a whole window's worth replaces it. */
  method Supplant(s: Storer, bytes: seq<byte>, ghost seen: seq<byte>)
    requires s.Sized() && |bytes| == s.wSize <= |seen| && bytes == seen[|seen| - s.wSize..]
    modifies s.window, s`strstart
    ensures Tail(s.window[..], s.strstart, seen) && s.strstart == s.wSize
  {
    hide *;
    SizesOf(s);
    s.strstart := 0;
    EmptyTail(s.window[..]);
    Append(s, bytes, []);
    assert [] + bytes == bytes;
    LastTail(s.window[..], s.wSize, seen, bytes);
  }

  lemma EmptyTail(window: seq<byte>)
    ensures Tail(window, 0, [])
  {
  }

  lemma LastTail(window: seq<byte>, n: nat, seen: seq<byte>, bytes: seq<byte>)
    requires Tail(window, n, bytes) && |bytes| == n <= |seen| && bytes == seen[|seen| - n..]
    ensures Tail(window, n, seen)
  {
  }

  lemma LastTaken(total: seq<byte>, seen: seq<byte>, input: seq<byte>, next0: nat, next: nat, n: nat)
    requires next0 + n <= next <= |input| && total == seen + input[next0..next]
    ensures input[next - n..next] == total[|total| - n..]
  {
    assert total[|total| - n..] == input[next0..next][next - next0 - n..];
  }

  /** After direct copying the window takes over the last bytes copied. */
  method UpdateHistory(s: Storer, used: nat, ghost seen: seq<byte>, ghost next0: nat)
    requires Direct(s, seen, next0) && used == s.next - next0
    modifies s.window, s`strstart, s`blockStart, s`insert, s`matches
    ensures s.WindowOk(s.total) && s.strstart - s.blockStart == old(s.strstart - s.blockStart)
  {
    hide *;
    DirectFacts(s, seen, next0);
    WindowFactsOf(s, seen);
    SizesOf(s);
    TailOfWindow(s, seen);
    if used > 0 {
      if used >= s.wSize {
        s.matches := 2;
        LastTaken(s.total, seen, s.input, next0, s.next, s.wSize);
        Supplant(s, s.input[s.next - s.wSize..s.next], s.total);
      } else {
        if s.window.Length - s.strstart <= used {
          MoveDown(s, seen);
        }
        Append(s, s.input[s.next - used..s.next], seen);
      }
      s.blockStart := s.strstart;
      MinIs(used, s.wSize - s.insert);
      s.insert := s.insert + Min(used, s.wSize - s.insert);
    } else {
      assert s.total == seen;
    }
    WindowOfTail(s, s.total);
  }

  lemma MinIs(a: nat, b: nat)
    ensures Min(a, b) == if a > b then b else a
  {
  }

  /** What fits of the remaining input goes into the window. */
  method FillRest(s: Storer)
    requires s.WindowOk(s.total) && s.StreamOk(|s.total| - (s.strstart - s.blockStart)) && !s.finished && s.next <= |s.input|
    modifies s.window, s`strstart, s`blockStart, s`matches, s`next, s`total
    ensures s.WindowOk(s.total) && s.blockStart <= s.strstart && s.StreamOk(|s.total| - (s.strstart - s.blockStart))
    ensures old(s.next) <= s.next <= |s.input| && s.total == old(s.total) + s.input[old(s.next)..s.next]
    ensures s.strstart - s.blockStart == old(s.strstart - s.blockStart) + (s.next - old(s.next))
    ensures s.next == |s.input| || s.strstart - s.blockStart >= s.wSize
  {
    hide *;
    WindowFactsOf(s, s.total);
    SizesOf(s);
    TailOfWindow(s, s.total);
    ghost var total, start := s.total, |s.total| - (s.strstart - s.blockStart);
    StreamOf(s, start);
    var have: nat := s.window.Length - s.strstart - 1;
    if |s.input| - s.next > have && s.blockStart >= s.wSize {
      s.blockStart := s.blockStart - s.wSize;
      MoveDown(s, total);
      have := have + s.wSize;
    }
    if have > |s.input| - s.next {
      have := |s.input| - s.next;
    }
    ghost var data := s.input[s.next..s.next + have];
    if have > 0 {
      Append(s, s.input[s.next..s.next + have], total);
      s.next := s.next + have;
    } else {
      assert total + data == total;
    }
    s.total := total + data;
    SentFromGrows(true, s.w.Stream(), total, data, start, BEGINNING);
    IsStreamOf(s, |s.total| - (s.strstart - s.blockStart));
    WindowOfTail(s, s.total);
  }

  // ---- Through the pending buffer

  /** Up to blockStart all input taken is in the blocks written; the window has the rest. */
  ghost predicate Rested(s: Storer)
    reads s`strstart, s`blockStart, s`insert, s`input, s`next, s`total, s`finished, s`out, s.window, s.w
  {
    s.WindowOk(s.total) && s.blockStart <= s.strstart && s.StreamOk(|s.total| - (s.strstart - s.blockStart)) && s.next <= |s.input|
  }

  lemma RestedFacts(s: Storer)
    requires Rested(s)
    ensures s.WindowOk(s.total) && s.blockStart <= s.strstart && s.StreamOk(|s.total| - (s.strstart - s.blockStart)) && s.next <= |s.input|
  {
    hide SentFrom, ByteBits;
  }

  lemma IsRested(s: Storer)
    requires s.WindowOk(s.total) && s.blockStart <= s.strstart && s.StreamOk(|s.total| - (s.strstart - s.blockStart)) && s.next <= |s.input|
    ensures Rested(s)
  {
    hide SentFrom, ByteBits;
  }

  /** flush_pending */
  method FlushStored(s: Storer, ghost start: int)
    requires s.StreamOk(start) && s.w.biValid == 0
    modifies s.w, s`out, s`availOut
    ensures s.StreamOk(start) && s.w.biValid == 0 && s.w.pending == old(s.w.pending) && old(s.out) <= s.out <= s.w.pending
    ensures |s.out| + s.availOut == old(|s.out| + s.availOut)
    ensures |s.out| == (if |s.w.pending| - |old(s.out)| > old(s.availOut) then |old(s.out)| + old(s.availOut) else |s.w.pending|)
  {
    hide *;
    StreamOf(s, start);
    NothingHeld(s.w);
    StreamIs(s.w);
    ghost var pending, stream := s.w.pending, s.w.Stream();
    BitsSize(s.w.biBuf, 0);
    s.w.BiFlush();
    StreamIs(s.w);
    BitsSize(s.w.biBuf, s.w.biValid);
    SameBytes(pending, s.w.pending, Bits(s.w.biBuf, s.w.biValid));
    OutIsPrefix(s.out, s.w.pending, []);
    var len: nat := |s.w.pending| - |s.out|;
    if len > s.availOut {
      len := s.availOut;
    }
    s.out := s.out + s.w.pending[|s.out|..|s.out| + len];
    s.availOut := s.availOut - len;
    PrefixOut(s.out, s.w.pending, []);
    IsStreamOf(s, start);
  }

  /** bi_flush has nothing to do on a byte boundary. */
  lemma SameBytes(before: seq<byte>, after: seq<byte>, rest: seq<bool>)
    requires ByteBits(before) + [] == ByteBits(after) + rest && |rest| <= 7
    ensures before == after && rest == []
  {
    hide *;
    ByteBitsSizes(before, after);
    assert ByteBits(before) + [] == ByteBits(before);
    assert |rest| == 0;
    assert ByteBits(after) + rest == ByteBits(after);
    BytesFromBits(before, after);
  }

  /** A stored block from the window, as far as the pending buffer has room. */
  method PendingBlock(s: Storer, len: nat, last: bool)
    requires Rested(s) && !s.finished && s.out == s.w.pending && len <= s.strstart - s.blockStart && len <= MAX_STORED
    requires HeaderSize(s.w.biValid) + len <= s.pendingBufSize && (last ==> len == s.strstart - s.blockStart)
    modifies s.w, s`out, s`availOut, s`blockStart, s`finished
    ensures Rested(s) && s.finished == last && s.blockStart == old(s.blockStart) + len && |s.w.pending| - |s.out| <= s.pendingBufSize
    ensures |s.out| + s.availOut == old(|s.out| + s.availOut) && old(s.out) <= s.out <= s.w.pending
    ensures s.availOut == 0 || s.out == s.w.pending
    ensures old(s.availOut) <= old(HeaderSize(s.w.biValid)) + len ==> s.availOut == 0
    ensures old(s.availOut) > 0 && s.availOut > 0 ==> s.availOut == old(s.availOut - HeaderSize(s.w.biValid)) - len
  {
    hide *;
    RestedFacts(s);
    WindowFactsOf(s, s.total);
    SizesOf(s);
    ghost var start, stream, biValid, pending := |s.total| - (s.strstart - s.blockStart), s.w.Stream(), s.w.biValid, s.w.pending;
    StreamOf(s, start);
    SentFromRange(true, s.finished, stream, s.total, start, BEGINNING);
    StreamIs(s.w);
    BitsSize(s.w.biBuf, s.w.biValid);
    ghost var payload := s.window[s.blockStart..s.blockStart + len];
    WindowPayload(s.window[..], s.total, s.strstart, s.blockStart, len);
    ghost var pad := StoredBlock(s.w, s.window[s.blockStart..s.blockStart + len], last);
    ghost var bits := HeaderBits(0, last) + pad + StoredBits(payload);
    assert stream + HeaderBits(0, last) + pad + StoredBits(payload) == stream + bits;
    StoredSent(stream, s.total, start, payload, pad, last);
    s.blockStart := s.blockStart + len;
    s.finished := last;
    OutIsFront(ByteBits(s.out), stream, bits);
    IsStreamOf(s, start + len);
    PendingSize(s.w, pending, stream, biValid, pad, payload, last);
    FlushStored(s, start + len);
    IsWindow(s, s.total);
    IsRested(s);
  }

  lemma OutIsFront(out: seq<bool>, stream: seq<bool>, bits: seq<bool>)
    requires out <= stream
    ensures out <= stream + bits
  {
  }

  lemma WindowPayload(window: seq<byte>, total: seq<byte>, strstart: nat, blockStart: nat, n: nat)
    requires blockStart + n <= strstart <= |window| && strstart <= |total| && window[..strstart] == total[|total| - strstart..]
    ensures var start := |total| - (strstart - blockStart); total[start..start + n] == window[blockStart..blockStart + n]
  {
    assert window[blockStart..blockStart + n] == window[..strstart][blockStart..blockStart + n];
  }

  lemma PendingSize(w: Writer, pending: seq<byte>, stream: seq<bool>, biValid: nat, pad: seq<bool>, payload: seq<byte>, last: bool)
    requires w.biValid == 0 && |stream| == 8 * |pending| + biValid && biValid <= 7 && |pad| < 8 && (|stream| + 3 + |pad|) % 8 == 0
    requires |payload| < 65536 && w.Stream() == stream + (HeaderBits(0, last) + pad + StoredBits(payload))
    ensures |w.pending| == |pending| + HeaderSize(biValid) + |payload|
  {
    hide *;
    StreamIs(w);
    BitsSize(w.biBuf, 0);
    ByteBitsSizes(w.pending, pending);
    StoredBlockSize(payload, last);
    HeaderFitsIn(|pending|, biValid, |pad|, |w.pending| - |payload|);
  }

  // ---- deflate_stored

  /** Why direct copying stopped, with `rest` bytes of window and input still to be written. */
  predicate Stopped(rest: nat, availOut: nat, header: nat, minBlock: nat, flush: Flush) {
    availOut < header || (availOut - header < rest && availOut - header < minBlock) || (rest == 0 && flush != Finish) ||
    (flush == NoFlush && rest < minBlock)
  }

  /** The length to copy directly next. */
  function DirectLen(rest: nat, availOut: nat, header: nat): nat
    requires header <= availOut
  {
    Min(Min(MAX_STORED, rest), availOut - header)
  }

  /** Not worth it, or not all that a flush has to write. */
  predicate TooLittle(rest: nat, len: nat, minBlock: nat, flush: Flush) {
    len < minBlock && ((len == 0 && flush != Finish) || flush == NoFlush || len != rest)
  }

  lemma StopsFor(rest: nat, availOut: nat, header: nat, minBlock: nat, flush: Flush)
    requires minBlock <= 32768
    ensures availOut < header ==> Stopped(rest, availOut, header, minBlock, flush)
    ensures availOut >= header && TooLittle(rest, DirectLen(rest, availOut, header), minBlock, flush) ==>
              Stopped(rest, availOut, header, minBlock, flush)
    ensures availOut >= header ==> DirectLen(rest, availOut, header) <= rest && DirectLen(rest, availOut, header) <= MAX_STORED
    ensures availOut >= header ==> header + DirectLen(rest, availOut, header) <= availOut
  {
  }

  /** If not the last, the next block can only be as large while there is something left. */
  lemma GoesOn(rest: nat, len: nat, minBlock: nat, flush: Flush)
    requires !TooLittle(rest, len, minBlock, flush) && 0 < minBlock && !(flush == Finish && len == rest)
    ensures len > 0
  {
  }

  /** The loop of direct copies. */
  method CopyDirectly(s: Storer, flush: Flush, minBlock: nat, ghost seen: seq<byte>, ghost next0: nat) returns (last: bool)
    requires Direct(s, seen, next0) && !s.finished && 0 < minBlock <= 32768
    modifies s.w, s`out, s`availOut, s`blockStart, s`next, s`total, s`finished
    ensures Direct(s, seen, next0) && s.finished == last && old(s.next) <= s.next
    ensures |s.out| + s.availOut == old(|s.out| + s.availOut) && old(s.out) <= s.out
    ensures last ==> flush == Finish && s.next == |s.input| && s.blockStart == s.strstart
    ensures !last ==> Stopped(s.strstart - s.blockStart + (|s.input| - s.next), s.availOut, HeaderSize(s.w.biValid), minBlock, flush)
  {
    hide *;
    DirectFacts(s, seen, next0);
    last := false;
    while true
      invariant Direct(s, seen, next0) && !s.finished && !last && old(s.next) <= s.next <= |s.input| && s.blockStart <= s.strstart
      invariant |s.out| + s.availOut == old(|s.out| + s.availOut) && old(s.out) <= s.out
      decreases s.strstart - s.blockStart + (|s.input| - s.next)
    {
      var header := HeaderSize(s.w.biValid);
      var left := s.strstart - s.blockStart;
      var rest := left + (|s.input| - s.next);
      StopsFor(rest, s.availOut, header, minBlock, flush);
      if s.availOut < header {
        break;
      }
      var len := DirectLen(rest, s.availOut, header);
      if TooLittle(rest, len, minBlock, flush) {
        break;
      }
      last := flush == Finish && len == rest;
      if !last {
        GoesOn(rest, len, minBlock, flush);
      }
      DirectBlock(s, len, last, seen, next0);
      DirectFacts(s, seen, next0);
      if last {
        break;
      }
    }
  }

  /** What the last part does: a block through the pending buffer, if there is enough for one. */
  predicate WorthPending(left: nat, availIn: nat, have: nat, minBlock: nat, flush: Flush) {
    left >= minBlock || ((left > 0 || flush == Finish) && flush != NoFlush && availIn == 0 && left <= have)
  }

  /** Direct copying stopped for want of room: then the pending block fills all the room there is. */
  lemma PendingFills(rest: nat, availOut: nat, biValid: nat, wSize: nat, pendingBufSize: nat, flush: Flush, left: nat, availIn: nat)
    requires biValid <= 7 && 512 <= wSize <= 32768 && 512 <= pendingBufSize && rest == left + availIn
    requires Stopped(rest, availOut, HeaderSize(biValid), Min(pendingBufSize - 5, wSize), flush)
    requires availIn == 0 || left >= wSize
    requires flush != NoFlush && flush != Finish && availIn == 0 ==> left > 0
    ensures var have := Min(pendingBufSize - HeaderSize(biValid), MAX_STORED);
            if WorthPending(left, availIn, have, Min(have, wSize), flush) then
              availOut <= HeaderSize(biValid) + Min(left, have) || (flush == NoFlush && availIn == 0)
            else flush == NoFlush && availIn == 0
  {
  }

  /** Why a call came to its end. */
  ghost predicate StoredOutcome(s: Storer, flush: Flush, ret: BlockState)
    reads s`finished, s`availOut, s`next, s`input, s`blockStart, s`strstart, s`out, s.w
  {
    match ret
    case NeedMore => !s.finished && (s.availOut == 0 || (flush == NoFlush && s.next == |s.input|))
    case BlockDone =>
      !s.finished && flush != NoFlush && flush != Finish && s.next == |s.input| && s.blockStart == s.strstart && s.out == s.w.pending
    case FinishStarted => s.finished && flush == Finish && s.next == |s.input| && s.blockStart == s.strstart && s.availOut == 0
    case FinishDone => s.finished && flush == Finish && s.next == |s.input| && s.blockStart == s.strstart && s.out == s.w.pending
  }

  lemma StoredOutcomeIs(s: Storer, flush: Flush, ret: BlockState)
    requires ret == NeedMore ==> !s.finished && (s.availOut == 0 || (flush == NoFlush && s.next == |s.input|))
    requires ret == BlockDone ==>
      (!s.finished && flush != NoFlush && flush != Finish && s.next == |s.input| && s.blockStart == s.strstart && s.out == s.w.pending)
    requires ret == FinishStarted ==>
      (s.finished && flush == Finish && s.next == |s.input| && s.blockStart == s.strstart && s.availOut == 0)
    requires ret == FinishDone ==>
      (s.finished && flush == Finish && s.next == |s.input| && s.blockStart == s.strstart && s.out == s.w.pending)
    ensures StoredOutcome(s, flush, ret)
  {
  }

  lemma PendingRoom(biValid: nat, pendingBufSize: nat, left: nat)
    requires biValid <= 7 && 512 <= pendingBufSize
    ensures HeaderSize(biValid) <= 6
    ensures var have := Min(pendingBufSize - HeaderSize(biValid), MAX_STORED);
            HeaderSize(biValid) + Min(left, have) <= pendingBufSize && Min(left, have) <= left && Min(left, have) <= MAX_STORED
  {
  }

  /** deflate_stored after the direct copies. */
  method StoreRest(s: Storer, flush: Flush, ghost rest: nat) returns (ret: BlockState)
    requires Rested(s) && !s.finished && s.out == s.w.pending && s.w.biValid <= 7 && s.blockStart <= s.strstart
    requires s.next <= |s.input| && rest == s.strstart - s.blockStart + (|s.input| - s.next) && s.Sized()
    requires Stopped(rest, s.availOut, HeaderSize(s.w.biValid), Min(s.pendingBufSize - 5, s.wSize), flush)
    modifies s.w, s.window, s`out, s`availOut, s`strstart, s`blockStart, s`matches, s`highWater, s`next, s`total, s`finished
    ensures Rested(s) && StoredOutcome(s, flush, ret) && s.out <= s.w.pending && |s.w.pending| - |s.out| <= s.pendingBufSize
    ensures old(s.next) <= s.next <= |s.input| && s.total == old(s.total) + s.input[old(s.next)..s.next]
    ensures |s.out| + s.availOut == old(|s.out| + s.availOut) && old(s.out) <= s.out
    ensures s.availOut == 0 || s.out == s.w.pending
  {
    hide *;
    SizesOf(s);
    if flush != NoFlush && flush != Finish && s.next == |s.input| && s.strstart == s.blockStart {
      assert s.total == s.total + s.input[s.next..s.next];
      StoredOutcomeIs(s, flush, BlockDone);
      return BlockDone;
    }
    RestedFacts(s);
    FillRest(s);
    IsRested(s);
    if s.highWater < s.strstart {
      s.highWater := s.strstart;
    }
    var header := HeaderSize(s.w.biValid);
    var left := s.strstart - s.blockStart;
    PendingRoom(s.w.biValid, s.pendingBufSize, left);
    PendingFills(rest, s.availOut, s.w.biValid, s.wSize, s.pendingBufSize, flush, left, |s.input| - s.next);
    var have := Min(s.pendingBufSize - header, MAX_STORED);
    var minBlock := Min(have, s.wSize);
    var last := false;
    if WorthPending(left, |s.input| - s.next, have, minBlock, flush) {
      var len := Min(left, have);
      last := flush == Finish && s.next == |s.input| && len == left;
      PendingBlock(s, len, last);
    }
    ret := if last then FinishStarted else NeedMore;
    StoredOutcomeIs(s, flush, ret);
  }

  lemma NothingTaken(a: seq<byte>, input: seq<byte>, next: nat)
    requires next <= |input|
    ensures a == a + input[next..next]
  {
  }

  /** deflate_stored: all input taken is in the blocks written or, in order, in the window after block_start; the
      pending buffer never overflows; and the call only ends for want of room or of input, or when all is done. */
  method DeflateStored(s: Storer, flush: Flush) returns (ret: BlockState)
    requires Rested(s) && !s.finished && s.out == s.w.pending
    modifies s.w, s.window, s`out, s`availOut, s`strstart, s`blockStart, s`insert, s`matches, s`highWater, s`next, s`total, s`finished
    ensures Rested(s) && StoredOutcome(s, flush, ret) && s.out <= s.w.pending && |s.w.pending| - |s.out| <= s.pendingBufSize
    ensures old(s.next) <= s.next <= |s.input| && s.total == old(s.total) + s.input[old(s.next)..s.next]
    ensures |s.out| + s.availOut == old(|s.out| + s.availOut) && old(s.out) <= s.out
    ensures s.availOut == 0 || s.out == s.w.pending
  {
    hide *;
    RestedFacts(s);
    WindowFactsOf(s, s.total);
    SizesOf(s);
    MinIs(s.pendingBufSize - 5, s.wSize);
    var minBlock := Min(s.pendingBufSize - 5, s.wSize);
    var used := |s.input| - s.next;
    ghost var seen, next0, out0 := s.total, s.next, s.out;
    NothingTaken(seen, s.input, next0);
    IsDirect(s, seen, next0);
    var last := CopyDirectly(s, flush, minBlock, seen, next0);
    DirectFacts(s, seen, next0);
    StreamOf(s, |s.total| - (s.strstart - s.blockStart));
    used := used - (|s.input| - s.next);
    UpdateHistory(s, used, seen, next0);
    WindowFactsOf(s, s.total);
    IsRested(s);
    if s.highWater < s.strstart {
      s.highWater := s.strstart;
    }
    if last {
      ret := FinishDone;
      StoredOutcomeIs(s, flush, ret);
      return;
    }
    ghost var next1 := s.next;
    ret := StoreRest(s, flush, s.strstart - s.blockStart + (|s.input| - s.next));
    SlicesJoin(s.input, next0, next1, s.next);
  }

  /** After the last block what was written decodes to all the input; nothing is supposed of it. */
  lemma StoredDecodesAll(s: Storer)
    requires Rested(s) && s.finished
    ensures s.blockStart == s.strstart && Reaches(s.w.Stream(), START(), Config(Done, s.total, |s.w.Stream()|))
  {
    hide *;
    RestedFacts(s);
    StreamOf(s, |s.total| - (s.strstart - s.blockStart));
    FinishedDecodes(s.w.Stream(), s.total, |s.total| - (s.strstart - s.blockStart));
  }

  lemma FinishedDecodes(stream: seq<bool>, total: seq<byte>, start: int)
    requires SentFrom(true, true, stream, total, start, BEGINNING)
    ensures start == |total| && Reaches(stream, START(), Config(Done, total, |stream|))
  {
    hide Decodes, Reaches;
    assert total[0..] == total;
  }

  /** Between calls: the blocks written decode to the input up to what the window still has to write. */
  lemma StoredConserves(s: Storer)
    requires Rested(s) && !s.finished
    ensures s.window.Length >= s.strstart >= s.blockStart && s.strstart - s.blockStart <= |s.total|
    ensures var n := |s.total| - (s.strstart - s.blockStart);
            s.total == s.total[..n] + s.window[s.blockStart..s.strstart] && Decodes([], s.w.Stream(), false, [], s.total[..n])
  {
    hide *;
    RestedFacts(s);
    WindowFactsOf(s, s.total);
    WindowPayload(s.window[..], s.total, s.strstart, s.blockStart, s.strstart - s.blockStart);
    StreamOf(s, |s.total| - (s.strstart - s.blockStart));
    UnfinishedDecodes(s.w.Stream(), s.total, |s.total| - (s.strstart - s.blockStart));
  }

  lemma UnfinishedDecodes(stream: seq<bool>, total: seq<byte>, start: int)
    requires SentFrom(true, false, stream, total, start, BEGINNING)
    ensures 0 <= start <= |total| && Decodes([], stream, false, [], total[..start])
  {
    hide Decodes, Reaches;
    assert stream[..0] == [] && stream[0..] == stream && total[0..start] == total[..start];
  }
}
