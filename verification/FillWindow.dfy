/** fill_window, slide_hash and INSERT_STRING of deflate.c: input comes into the window, and the
    window and the hash chains slide along it. */
module FillWindow {
  import opened Machine
  import opened BitStrings
  import opened Hashing
  import opened HashChains
  import opened BitWriter
  import opened DeflateSpec
  import opened BlockFormat
  import opened Blocks
  import opened BlockFlush
  import opened DeflateState

  // ---- INSERT_STRING

  lemma LinkedStill(q: nat, a: nat, h: nat, z: Sizes, total: seq<byte>, base: nat, inserted: set<nat>, more: set<nat>, a': nat)
    requires Linked(q, a, h, z, total, base, inserted) && a <= a'
    ensures Linked(q, a', h, z, total, base, inserted + more)
  {
    hide HashAt;
  }

  lemma HashReady(s: Deflater, at: nat)
    requires s.HashOk(at) && at + 2 < |s.total|
    ensures Rolled(s.insH, s.total[at], s.total[at + 1], s.z.bits, s.z.shift)
  {
    hide Rolled;
  }

  lemma HashIsReady(s: Deflater, at: nat)
    requires at + 2 < |s.total| ==> Rolled(s.insH, s.total[at], s.total[at + 1], s.z.bits, s.z.shift)
    ensures s.HashOk(at)
  {
    hide Rolled;
  }

  lemma HashAtIs(total: seq<byte>, a: nat, z: Sizes)
    requires a + 2 < |total|
    ensures HashAt(total, a, z) == Hash(total[a], total[a + 1], total[a + 2], z.bits, z.shift)
  {
  }

  lemma ChainHeadIs(head: seq<Pos>, total: seq<byte>, a: nat, z: Sizes)
    ensures a + 2 >= |total| ==> ChainHead(head, total, a, z) == 0
    ensures a + 2 < |total| && HashAt(total, a, z) < |head| ==> ChainHead(head, total, a, z) == head[HashAt(total, a, z)] as nat
  {
    hide HashAt;
  }

  /** INSERT_STRING: gives the head of the chain of earlier strings with the same hash. */
  method InsertString(s: Deflater, str: nat, ghost from: nat, ghost top: nat) returns (hashHead: nat)
    requires s.WindowOk() && s.ChainsOk(from, top) && s.HashOk(s.base + str)
    requires top <= s.base + str < from && str + 2 < s.strstart + s.lookahead
    modifies s`insH, s.prev, s.head, s`inserted
    ensures s.WindowOk() && s.ChainsOk(from, s.base + str + 1) && s.HashOk(s.base + str + 1)
    ensures s.base + str + 2 < |s.total|
    ensures Linked(hashHead, s.base + str, HashAt(s.total, s.base + str, s.z), s.z, s.total, s.base, s.inserted)
    ensures hashHead == ChainHead(old(s.head[..]), s.total, s.base + str, s.z)
  {
    hide *;
    WindowFacts(s);
    SizeFacts(s);
    ChainsAre(s, from, top);
    ghost var a := s.base + str;
    HashReady(s, a);
    WindowAt(s, str + 2);
    RollsOn(s.insH, s.total[a], s.total[a + 1], s.total[a + 2], s.z.bits, s.z.shift);
    HashBound(s.insH, s.window[str + 2], s.z.bits, s.z.shift);
    HashAtIs(s.total, a, s.z);
    s.insH := UpdateHash(s.insH, s.window[str + 2], s.z.bits, s.z.shift);
    HeadIs(s.head[..], s.prev[..], s.z, s.total, s.base, s.inserted, from, top, s.insH);
    InsertKeeps(s.head[..], s.prev[..], s.z, s.total, s.base, s.inserted, from, top, str, s.insH);
    LinkedStill(s.head[s.insH] as nat, top, s.insH, s.z, s.total, s.base, s.inserted, {a}, a);
    hashHead := s.head[s.insH] as nat;
    ChainHeadIs(s.head[..], s.total, a, s.z);
    ghost var heads, links := s.head[..], s.prev[..];
    s.prev[str % s.z.w] := s.head[s.insH];
    s.head[s.insH] := str as Pos;
    s.inserted := s.inserted + {a};
    assert s.head[..] == heads[s.insH := str as Pos] && s.prev[..] == links[str % s.z.w := heads[s.insH]];
    AreChains(s, from, a + 1);
    HashIsReady(s, a + 1);
  }

  // ---- Sliding

  /** slide_hash */
  method SlideHash(s: Deflater)
    requires s.Sized()
    modifies s.head, s.prev
    ensures AllSlid(old(s.head[..]), s.head[..], s.z.w) && AllSlid(old(s.prev[..]), s.prev[..], s.z.w)
  {
    SlideEntries(s.head, s.z.w);
    SlideEntries(s.prev, s.z.w);
  }

  method SlideEntries(a: array<Pos>, w: nat)
    modifies a
    ensures AllSlid(old(a[..]), a[..], w)
  {
    ghost var before := a[..];
    var n := a.Length;
    while n > 0
      invariant 0 <= n <= a.Length
      invariant forall i :: n <= i < a.Length ==> a[i] == Slid(before[i], w)
      invariant forall i :: 0 <= i < n ==> a[i] == before[i]
    {
      n := n - 1;
      var m := a[n];
      a[n] := if m as nat >= w then ((m as nat) - w) as Pos else 0;
    }
  }

  lemma WindowMoved(s: Deflater, window: seq<byte>, end: nat, base: nat)
    requires s.Sized() && s.z.w <= end <= |window| == s.window.Length && base + end == |s.total| && window[..end] == s.total[base..]
    requires s.base == base + s.z.w && s.strstart + s.lookahead == end - s.z.w
    requires forall i :: 0 <= i < end - s.z.w ==> s.window[i] == window[i + s.z.w]
    ensures s.WindowOk()
  {
    assert forall i :: 0 <= i < end - s.z.w ==> s.window[i] == window[..end][i + s.z.w];
    assert s.window[..end - s.z.w] == s.total[s.base..];
  }

  /** The upper half of the window moves to the lower. */
  method SlideDown(s: Deflater, more: nat, ghost from: nat, ghost top: nat)
    requires s.WindowOk() && s.ChainsOk(from, top) && s.strstart >= s.z.w + MaxDist(s.z)
    requires more == s.window.Length - s.lookahead - s.strstart
    modifies s.window, s.head, s.prev, s`strstart, s`matchStart, s`blockStart, s`base
    ensures s.WindowOk() && s.ChainsOk(from, top) && s.base == old(s.base) + s.z.w && s.strstart == old(s.strstart) - s.z.w
    ensures s.blockStart == old(s.blockStart) - s.z.w && s.matchStart == Wrap(old(s.matchStart) - s.z.w)
  {
    hide *;
    WindowFacts(s);
    SizeFacts(s);
    ChainsAre(s, from, top);
    ghost var window, heads, links, base := s.window[..], s.head[..], s.prev[..], s.base;
    ghost var end := s.strstart + s.lookahead;
    for j := 0 to s.z.w - more
      modifies s.window
      invariant forall i :: 0 <= i < j ==> s.window[i] == window[i + s.z.w]
      invariant forall i :: j <= i < s.window.Length ==> s.window[i] == window[i]
    {
      s.window[j] := s.window[s.z.w + j];
    }
    s.matchStart := Wrap(s.matchStart - s.z.w);
    s.strstart := s.strstart - s.z.w;
    s.blockStart := s.blockStart - s.z.w;
    s.base := s.base + s.z.w;
    WindowMoved(s, window, end, base);
    assert s.head[..] == heads && s.prev[..] == links;
    SlideHash(s);
    SlideKeeps(heads, links, s.head[..], s.prev[..], s.z, s.total, base, s.inserted, from, top);
    AreChains(s, from, top);
  }

  // ---- Reading

  lemma WindowFed(s: Deflater, window: seq<byte>, end: nat, data: seq<byte>, total: seq<byte>)
    requires s.Sized() && |window| == s.window.Length && end + |data| <= |window| && s.strstart + s.lookahead == end + |data|
    requires s.base + end == |total| && window[..end] == total[s.base..] && s.total == total + data
    requires forall i :: 0 <= i < end ==> s.window[i] == window[i]
    requires forall i :: end <= i < end + |data| ==> s.window[i] == data[i - end]
    ensures s.WindowOk()
  {
    assert s.window[..end] == window[..end];
    assert s.window[..end + |data|] == s.window[..end] + data;
    assert s.total[s.base..] == total[s.base..] + data;
  }

  /** read_buf, to the end of the lookahead, which grows. */
  method ReadMore(s: Deflater, more: nat, ghost from: nat, ghost top: nat)
    requires s.WindowOk() && s.ChainsOk(from, top) && s.next <= |s.input| && more <= s.window.Length - s.lookahead - s.strstart
    modifies s.window, s`lookahead, s`next, s`total
    ensures s.WindowOk() && s.ChainsOk(from, top) && old(s.next) <= s.next <= |s.input|
    ensures s.total == old(s.total) + s.input[old(s.next)..s.next] && s.lookahead == old(s.lookahead) + s.next - old(s.next)
    ensures s.next - old(s.next) == if |s.input| - old(s.next) > more then more else |s.input| - old(s.next)
  {
    hide *;
    WindowFacts(s);
    ChainsAre(s, from, top);
    var len := |s.input| - s.next;
    if len > more {
      len := more;
    }
    ghost var window, total, data := s.window[..], s.total, s.input[s.next..s.next + len];
    var end := s.strstart + s.lookahead;
    for j := 0 to len
      modifies s.window
      invariant forall i :: 0 <= i < end ==> s.window[i] == window[i]
      invariant forall i :: end <= i < end + j ==> s.window[i] == data[i - end]
    {
      s.window[end + j] := s.input[s.next + j];
    }
    s.next := s.next + len;
    s.lookahead := s.lookahead + len;
    ChainsGrow(s.head[..], s.prev[..], s.z, total, data, s.base, s.inserted, from, top);
    s.total := s.total + data;
    AreChains(s, from, top);
    WindowFed(s, window, end, data, total);
  }

  /** The hash value for the string to be inserted next, and the strings that had been left. */
  method CatchUp(s: Deflater)
    requires s.WindowOk() && s.insert <= s.strstart && s.lookahead + s.insert >= 3
    requires s.ChainsOk(s.base + s.strstart, s.base + s.strstart - s.insert)
    modifies s`insH, s`insert, s.prev, s.head, s`inserted
    ensures s.WindowOk() && s.InsertOk() && s.HashOk(s.base + s.strstart)
    ensures s.insert <= s.strstart && s.ChainsOk(s.base + s.strstart, s.base + s.strstart - s.insert)
  {
    hide *;
    WindowFacts(s);
    SizeFacts(s);
    var str := s.strstart - s.insert;
    WindowAt(s, str);
    WindowAt(s, str + 1);
    s.insH := s.window[str] as nat;
    RolledAfresh(s.window[str], s.window[str + 1], s.z.bits, s.z.shift);
    s.insH := UpdateHash(s.insH, s.window[str + 1], s.z.bits, s.z.shift);
    HashIsReady(s, s.base + str);
    while s.insert > 0
      invariant s.WindowOk() && s.ChainsOk(s.base + s.strstart, s.base + str) && s.HashOk(s.base + str)
      invariant s.insert <= s.strstart && str == s.strstart - s.insert && s.lookahead + s.insert >= 3
      decreases s.insert
    {
      var _ := InsertString(s, str, s.base + s.strstart, s.base + str);
      str := str + 1;
      s.insert := s.insert - 1;
      if s.lookahead + s.insert < 3 {
        break;
      }
    }
    if s.insert > 0 {
      HashIsReady(s, s.base + s.strstart);
    }
    InsertOkIs(s);
  }

  lemma InsertOkIs(s: Deflater)
    requires s.insert <= s.strstart && (s.insert > 0 ==> s.lookahead + s.insert < 3)
    ensures s.InsertOk()
  {
  }

  lemma InsertFacts(s: Deflater)
    requires s.InsertOk()
    ensures s.insert <= s.strstart && (s.insert > 0 ==> s.lookahead + s.insert < 3)
  {
  }

  // ---- fill_window

  /** The matcher stands at strstart: ready to insert and to search there. */
  ghost predicate AtString(s: Deflater)
    reads s`strstart, s`lookahead, s`total, s`base, s`insert, s`insH, s`inserted, s.window, s.head, s.prev
  {
    s.WindowOk() && s.InsertOk() && s.insert <= s.strstart &&
    s.ChainsOk(s.base + s.strstart, s.base + s.strstart - s.insert) && s.HashOk(s.base + s.strstart)
  }

  lemma AtStringParts(s: Deflater)
    requires AtString(s)
    ensures s.WindowOk() && s.InsertOk() && s.insert <= s.strstart && s.HashOk(s.base + s.strstart)
    ensures s.ChainsOk(s.base + s.strstart, s.base + s.strstart - s.insert)
  {
    hide Chains, Rolled;
  }

  lemma IsAtString(s: Deflater)
    requires s.WindowOk() && s.InsertOk() && s.insert <= s.strstart && s.HashOk(s.base + s.strstart)
    requires s.ChainsOk(s.base + s.strstart, s.base + s.strstart - s.insert)
    ensures AtString(s)
  {
    hide Chains, Rolled;
  }

  /** The parse so far still stands when the window has moved or more has been read. */
  lemma StreamKeeps(s: Deflater, upto: nat, total: seq<byte>, start: int, more: seq<byte>)
    requires s.Sized() && s.b.Valid() && (s.strategy == Fixed ==> s.fits) && !s.finished && s.restart.input <= s.base
    requires Parsed(total, s.restart.input, start, s.b.Tokens(), upto, MaxDist(s.z))
    requires Sent(s.fits, s.finished, s.b.w.Stream(), total, start, s.restart, s.spent) && ByteBits(s.out) <= s.b.w.Stream()
    requires s.total == total + more && s.base + s.blockStart == start
    ensures s.StreamOk(upto)
  {
    hide *;
    BlockFacts(s.b);
    SizeFacts(s);
    ParsedGrows(total, more, s.restart.input, start, s.b.Tokens(), upto, MaxDist(s.z));
    SentGrows(s.fits, s.b.w.Stream(), total, more, start, s.restart, s.spent);
    IsStream(s, upto);
  }

  /** match_start, after the window has moved: it wraps if the match began before the new window. */
  function Moved(m: nat, d: nat): nat {
    if d == 0 then m else Wrap(m - d)
  }

  lemma MovedTwice(m: nat, a: nat, b: nat)
    ensures Moved(Moved(m, a), b) == Moved(m, a + b)
    ensures Moved(m, 0) == m && (a > 0 ==> Moved(m, a) == Wrap(m - a))
  {
  }

  lemma AtEqual(s: Deflater, at: nat, top: nat)
    requires s.WindowOk() && s.InsertOk() && s.insert <= s.strstart && s.HashOk(at) && s.ChainsOk(at, top)
    requires at == s.base + s.strstart && top == at - s.insert
    ensures AtString(s)
  {
    hide Chains, Rolled;
  }

  /** The window slides when little of it is left. */
  method MakeRoom(s: Deflater, ghost upto: nat) returns (more: nat)
    requires AtString(s) && s.StreamOk(upto) && !s.finished && s.lookahead < MIN_LOOKAHEAD
    modifies s.window, s.head, s.prev, s`strstart, s`matchStart, s`blockStart, s`base
    ensures AtString(s) && s.StreamOk(upto) && s.strstart + MIN_LOOKAHEAD <= s.window.Length
    ensures 2 <= more == s.window.Length - s.lookahead - s.strstart && s.base + s.strstart == old(s.base + s.strstart)
    ensures s.base + s.blockStart == old(s.base + s.blockStart)
    ensures s.base >= old(s.base) && s.matchStart == Moved(old(s.matchStart), s.base - old(s.base))
    ensures s.base == old(s.base) || s.strstart >= MaxDist(s.z)
  {
    hide *;
    MovedTwice(s.matchStart, s.z.w, 0);
    AtStringParts(s);
    InsertFacts(s);
    WindowFacts(s);
    SizeFacts(s);
    more := s.window.Length - s.lookahead - s.strstart;
    if s.strstart >= s.z.w + MaxDist(s.z) {
      StreamFacts(s, upto);
      ghost var total, start, at, top := s.total, s.base + s.blockStart, s.base + s.strstart, s.base + s.strstart - s.insert;
      SlideDown(s, more, at, top);
      more := more + s.z.w;
      InsertOkIs(s);
      WindowFacts(s);
      AtEqual(s, at, top);
      assert s.total == total + [];
      StreamKeeps(s, upto, total, start, []);
    }
  }

  /** Input is read, as much as there is room for. */
  method TakeInput(s: Deflater, more: nat, ghost upto: nat)
    requires AtString(s) && s.StreamOk(upto) && !s.finished && s.next < |s.input|
    requires 2 <= more && s.strstart + s.lookahead + more == s.window.Length
    modifies s.window, s.head, s.prev, s`lookahead, s`next, s`total, s`insH, s`insert, s`inserted
    ensures AtString(s) && s.StreamOk(upto) && old(s.next) < s.next <= |s.input|
    ensures s.total == old(s.total) + s.input[old(s.next)..s.next] && s.lookahead == old(s.lookahead) + s.next - old(s.next)
  {
    hide *;
    AtStringParts(s);
    InsertFacts(s);
    WindowFacts(s);
    StreamFacts(s, upto);
    ghost var total, start, next0, at, top := s.total, s.base + s.blockStart, s.next, s.base + s.strstart, s.base + s.strstart - s.insert;
    ReadMore(s, more, at, top);
    WindowFacts(s);
    if s.lookahead + s.insert >= 3 {
      CatchUp(s);
      IsAtString(s);
    } else {
      InsertOkIs(s);
      HashIsReady(s, at);
      AtEqual(s, at, top);
    }
    StreamKeeps(s, upto, total, start, s.input[next0..s.next]);
  }

  /** zmemzero, past the end of the lookahead. */
  method ZeroAfter(s: Deflater, start: nat, n: nat)
    requires s.WindowOk() && s.strstart + s.lookahead <= start && start + n <= s.window.Length
    modifies s.window
    ensures s.WindowOk()
  {
    WindowFacts(s);
    ghost var end := s.strstart + s.lookahead;
    ghost var valid := s.window[..end];
    for j := 0 to n
      invariant s.window[..end] == valid
    {
      s.window[start + j] := 0;
    }
  }

  /** The bytes beyond the input that the matcher may look at have been written. */
  ghost predicate Initialised(s: Deflater)
    reads s`highWater, s`strstart, s`lookahead
  {
    s.highWater <= s.window.Length && (s.strstart + s.lookahead + MAX_MATCH <= s.highWater || s.highWater == s.window.Length)
  }

  method ZeroInit(s: Deflater)
    requires AtString(s) && s.highWater <= s.window.Length
    modifies s.window, s`highWater
    ensures AtString(s) && Initialised(s)
  {
    AtStringParts(s);
    WindowFacts(s);
    if s.highWater < s.window.Length {
      var curr := s.strstart + s.lookahead;
      if s.highWater < curr {
        var init := s.window.Length - curr;
        if init > MAX_MATCH {
          init := MAX_MATCH;
        }
        ZeroAfter(s, curr, init);
        s.highWater := curr + init;
      } else if s.highWater < curr + MAX_MATCH {
        var init := curr + MAX_MATCH - s.highWater;
        if init > s.window.Length - s.highWater {
          init := s.window.Length - s.highWater;
        }
        ZeroAfter(s, s.highWater, init);
        s.highWater := s.highWater + init;
      }
    }
  }

  /** Makes room and reads once; stops when there is no input. */
  method ReadOnce(s: Deflater, ghost upto: nat) returns (stop: bool)
    requires AtString(s) && s.StreamOk(upto) && !s.finished && s.lookahead < MIN_LOOKAHEAD && s.next <= |s.input|
    requires s.highWater <= s.window.Length
    modifies s.window, s.head, s.prev, s`strstart, s`matchStart, s`blockStart, s`base, s`lookahead, s`next, s`total
    modifies s`insH, s`insert, s`inserted
    ensures AtString(s) && s.StreamOk(upto) && s.strstart + MIN_LOOKAHEAD <= s.window.Length && s.highWater <= s.window.Length
    ensures stop <==> old(s.next) == |s.input|
    ensures old(s.next) <= s.next <= |s.input| && (!stop ==> old(s.next) < s.next)
    ensures s.total == old(s.total) + s.input[old(s.next)..s.next] && s.lookahead == old(s.lookahead) + s.next - old(s.next)
    ensures s.base + s.strstart == old(s.base + s.strstart) && s.base + s.blockStart == old(s.base + s.blockStart)
    ensures s.base >= old(s.base) && s.matchStart == Moved(old(s.matchStart), s.base - old(s.base))
    ensures s.base == old(s.base) || s.strstart >= MaxDist(s.z)
  {
    hide *;
    var more := MakeRoom(s, upto);
    stop := s.next == |s.input|;
    if !stop {
      TakeInput(s, more, upto);
    }
  }

  /** fill_window: at least MIN_LOOKAHEAD bytes ahead, or all that there is; the place in the input, the start
      of the block and the parse so far stay what they were. */
  method Fill(s: Deflater, ghost upto: nat)
    requires AtString(s) && s.StreamOk(upto) && !s.finished && s.lookahead < MIN_LOOKAHEAD && s.next <= |s.input|
    requires s.highWater <= s.window.Length
    modifies s.window, s.head, s.prev, s`strstart, s`matchStart, s`blockStart, s`base, s`lookahead, s`next, s`total
    modifies s`insH, s`insert, s`inserted, s`highWater
    ensures AtString(s) && s.StreamOk(upto) && Initialised(s) && s.strstart + MIN_LOOKAHEAD <= s.window.Length
    ensures s.lookahead >= MIN_LOOKAHEAD || s.next == |s.input|
    ensures old(s.next) <= s.next <= |s.input| && s.total == old(s.total) + s.input[old(s.next)..s.next]
    ensures s.lookahead == old(s.lookahead) + s.next - old(s.next)
    ensures s.base + s.strstart == old(s.base + s.strstart) && s.base + s.blockStart == old(s.base + s.blockStart)
    ensures s.base >= old(s.base) && s.matchStart == Moved(old(s.matchStart), s.base - old(s.base))
    ensures s.base == old(s.base) || s.strstart >= MaxDist(s.z)
  {
    hide *;
    ghost var total0, next0, base0, match0, at0, start0 := s.total, s.next, s.base, s.matchStart, s.base + s.strstart, s.base + s.blockStart;
    AtStringParts(s);
    WindowFacts(s);
    SizeFacts(s);
    MovedTwice(match0, 0, 0);
    assert total0 == total0 + s.input[next0..next0];
    while true
      invariant AtString(s) && s.StreamOk(upto) && s.lookahead < MIN_LOOKAHEAD && next0 <= s.next <= |s.input|
      invariant s.base == base0 || s.strstart >= MaxDist(s.z)
      invariant s.base >= base0 && s.matchStart == Moved(match0, s.base - base0) && s.base + s.strstart == at0
      invariant s.base + s.blockStart == start0 && s.total == total0 + s.input[next0..s.next]
      invariant s.lookahead == old(s.lookahead) + s.next - next0 && s.highWater <= s.window.Length
      decreases |s.input| - s.next
    {
      ghost var base1, next1 := s.base, s.next;
      var stop := ReadOnce(s, upto);
      MovedTwice(match0, base1 - base0, s.base - base1);
      assert s.input[next0..s.next] == s.input[next0..next1] + s.input[next1..s.next];
      if stop {
        break;
      }
      if s.lookahead >= MIN_LOOKAHEAD || s.next == |s.input| {
        break;
      }
    }
    ZeroInit(s);
  }
}
