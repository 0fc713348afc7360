/** longest_match of deflate.c: the search along a hash chain. */
module LongestMatch {
  import opened Machine
  import opened BitStrings
  import opened Hashing
  import opened HashChains
  import opened DeflateState

  /** n bytes at p and at q are the same. */
  ghost predicate Same(a: seq<byte>, p: nat, q: nat, n: nat) {
    p + n <= |a| && q + n <= |a| && a[p..p + n] == a[q..q + n]
  }

  /** The bytes at p and at q are the same for len bytes and no more, as far as 258. */
  ghost predicate MatchOf(a: seq<byte>, p: nat, q: nat, len: nat) {
    Same(a, p, q, len) && len <= 258 && (len < 258 ==> p + len < |a| && q + len < |a| && a[p + len] != a[q + len])
  }

  lemma SameMore(a: seq<byte>, p: nat, q: nat, n: nat)
    requires Same(a, p, q, n) && p + n < |a| && q + n < |a|
    ensures Same(a, p, q, n + 1) <==> a[p + n] == a[q + n]
  {
    assert a[p..p + n + 1] == a[p..p + n] + [a[p + n]] && a[q..q + n + 1] == a[q..q + n] + [a[q + n]];
  }

  lemma SameLess(a: seq<byte>, p: nat, q: nat, m: nat, n: nat)
    requires Same(a, p, q, n) && m <= n
    ensures Same(a, p, q, m)
  {
    assert a[p..p + m] == a[p..p + n][..m] && a[q..q + m] == a[q..q + n][..m];
  }

  /** Eight comparisons: how many bytes on, and whether all were the same. */
  method EightMore(window: array<byte>, scan0: nat, match0: nat, ghost p: nat, ghost q: nat) returns (scan: nat, match_: nat, all: bool)
    requires match0 < scan0 && scan0 + 8 < window.Length && q <= scan0 && p + (scan0 - q) == match0
    requires Same(window[..], p, q, scan0 - q + 1)
    ensures scan0 < scan <= scan0 + 8 && match_ - match0 == scan - scan0
    ensures all ==> scan == scan0 + 8 && Same(window[..], p, q, scan - q + 1)
    ensures !all ==> Same(window[..], p, q, scan - q) && window[match_] != window[scan]
  {
    scan, match_, all := scan0, match0, true;
    while true
      invariant scan0 <= scan < scan0 + 8 && match_ - match0 == scan - scan0 && all
      invariant Same(window[..], p, q, scan - q + 1)
      decreases scan0 + 8 - scan
    {
      scan, match_ := scan + 1, match_ + 1;
      SameMore(window[..], p, q, scan - q);
      if window[scan] != window[match_] {
        all := false;
        break;
      }
      if scan == scan0 + 8 {
        break;
      }
    }
  }

  lemma IsMatchOf(a: seq<byte>, p: nat, q: nat, len: nat)
    requires Same(a, p, q, len) && len <= 258 && (len < 258 ==> p + len < |a| && q + len < |a| && a[p + len] != a[q + len])
    ensures MatchOf(a, p, q, len)
  {
  }

  lemma SameHere(a: seq<byte>, p: nat, q: nat)
    requires Same(a, p, q, 3)
    ensures p + 3 <= |a| && q + 3 <= |a|
  {
  }

  /** The length of the match at cur with the string at scan0, when its first three bytes are the same. */
  method Compare(window: array<byte>, scan0: nat, cur: nat) returns (len: nat)
    requires cur < scan0 && scan0 + 258 < window.Length && Same(window[..], cur, scan0, 3)
    ensures 3 <= len && MatchOf(window[..], cur, scan0, len)
  {
    hide *;
    var strend := scan0 + 258;
    SameHere(window[..], cur, scan0);
    var scan, match_ := scan0 + 2, cur + 2;
    ghost var groups := 0;
    while true
      invariant scan == scan0 + 2 + 8 * groups && groups < 32 && match_ == cur + (scan - scan0)
      invariant Same(window[..], cur, scan0, scan - scan0 + 1)
      decreases strend - scan
    {
      var all;
      scan, match_, all := EightMore(window, scan, match_, cur, scan0);
      groups := groups + 1;
      if !all {
        break;
      }
      if scan >= strend {
        SameLess(window[..], cur, scan0, 258, scan - scan0 + 1);
        break;
      }
    }
    len := 258 - (strend - scan);
    IsMatchOf(window[..], cur, scan0, len);
  }

  /** No position in `visited` matches for more than n bytes. */
  ghost predicate NoneLonger(a: seq<byte>, visited: seq<nat>, q: nat, n: nat) {
    n >= 258 || forall i :: 0 <= i < |visited| ==> !Same(a, visited[i], q, n + 1)
  }

  lemma NoneLongerStill(a: seq<byte>, visited: seq<nat>, q: nat, m: nat, n: nat)
    requires NoneLonger(a, visited, q, m) && m <= n
    ensures NoneLonger(a, visited, q, n)
  {
    if n < 258 {
      forall i | 0 <= i < |visited|
        ensures !Same(a, visited[i], q, n + 1)
      {
        if Same(a, visited[i], q, n + 1) {
          SameLess(a, visited[i], q, m + 1, n + 1);
        }
      }
    }
  }

  lemma OneMoreNotLonger(a: seq<byte>, visited: seq<nat>, v: nat, q: nat, n: nat)
    requires NoneLonger(a, visited, q, n) && (n >= 258 || !Same(a, v, q, n + 1))
    ensures NoneLonger(a, visited + [v], q, n)
  {
  }

  /** A walk along a chain. */
  ghost predicate Walk(prev: seq<Pos>, visited: seq<nat>, first: nat) {
    |prev| > 0 && |visited| > 0 && visited[0] == first &&
    forall i {:trigger visited[i + 1]} :: 0 <= i < |visited| - 1 ==> visited[i + 1] == prev[visited[i] % |prev|] as nat
  }

  lemma WalkOn(prev: seq<Pos>, visited: seq<nat>, first: nat)
    requires Walk(prev, visited, first)
    ensures visited[|visited| - 1] % |prev| < |prev|
    ensures Walk(prev, visited + [prev[visited[|visited| - 1] % |prev|] as nat], first)
  {
  }

  /** Where the bytes are the same in the window up to the lookahead, the input repeats. */
  lemma SameRepeats(s: Deflater, cur: nat, n: nat)
    requires s.WindowOk() && cur < s.strstart && n <= s.lookahead && Same(s.window[..], cur, s.strstart, n)
    ensures Repeats(s.total, s.base + s.strstart, s.strstart - cur, n)
  {
    forall i | s.base + s.strstart <= i < s.base + s.strstart + n
      ensures s.total[i] == s.total[i - (s.strstart - cur)]
    {
      var k := i - s.base - s.strstart;
      assert s.window[..][cur..cur + n][k] == s.window[..][s.strstart..s.strstart + n][k];
      WindowAt(s, cur + k);
      WindowAt(s, s.strstart + k);
    }
  }

  lemma RepeatsSame(s: Deflater, cur: nat, n: nat)
    requires s.WindowOk() && cur < s.strstart && n <= s.lookahead
    requires Repeats(s.total, s.base + s.strstart, s.strstart - cur, n)
    ensures Same(s.window[..], cur, s.strstart, n)
  {
    var here, there := s.window[..][s.strstart..s.strstart + n], s.window[..][cur..cur + n];
    forall k | 0 <= k < n
      ensures there[k] == here[k]
    {
      var i := s.base + s.strstart + k;
      assert s.total[i] == s.total[i - (s.strstart - cur)];
      WindowAt(s, cur + k);
      WindowAt(s, s.strstart + k);
    }
  }

  /** Agreement on two bytes and on the hash forces the third. */
  lemma ThreeSame(s: Deflater, cur: nat)
    requires s.WindowOk() && cur < s.strstart && 3 <= s.lookahead && s.strstart + 2 < s.window.Length
    requires HashAt(s.total, s.base + cur, s.z) == HashAt(s.total, s.base + s.strstart, s.z)
    requires s.window[cur] == s.window[s.strstart] && s.window[cur + 1] == s.window[s.strstart + 1]
    ensures Same(s.window[..], cur, s.strstart, 3)
  {
    hide Hash;
    WindowAt(s, cur);
    WindowAt(s, cur + 1);
    WindowAt(s, cur + 2);
    WindowAt(s, s.strstart);
    WindowAt(s, s.strstart + 1);
    WindowAt(s, s.strstart + 2);
    ThirdByteForced(s.window[cur], s.window[cur + 1], s.window[cur + 2], s.window[s.strstart + 2], s.z.bits, s.z.shift);
  }

  /** One candidate: its length, if that is more than bestLen. */
  method TryMatch(s: Deflater, cur: nat, bestLen: nat) returns (len: nat)
    requires s.WindowOk() && cur < s.strstart && 3 <= s.lookahead && s.strstart + 258 < s.window.Length && 2 <= bestLen < 258
    requires HashAt(s.total, s.base + cur, s.z) == HashAt(s.total, s.base + s.strstart, s.z)
    ensures len > bestLen ==> MatchOf(s.window[..], cur, s.strstart, len)
    ensures len <= bestLen ==> !Same(s.window[..], cur, s.strstart, bestLen + 1)
  {
    hide *;
    len := 0;
    if s.window[cur + bestLen] != s.window[s.strstart + bestLen] || s.window[cur + bestLen - 1] != s.window[s.strstart + bestLen - 1] ||
       s.window[cur] != s.window[s.strstart] || s.window[cur + 1] != s.window[s.strstart + 1] {
      NotSame(s.window[..], cur, s.strstart, bestLen);
      return;
    }
    ThreeSame(s, cur);
    len := Compare(s.window, s.strstart, cur);
    if len <= bestLen {
      MatchEnds(s.window[..], cur, s.strstart, len, bestLen);
    }
  }

  lemma SameAt(a: seq<byte>, p: nat, q: nat, n: nat, i: nat)
    requires Same(a, p, q, n) && i < n
    ensures p + i < |a| && q + i < |a| && a[p + i] == a[q + i]
  {
    assert a[p..p + n][i] == a[q..q + n][i];
  }

  lemma NotSame(a: seq<byte>, p: nat, q: nat, n: nat)
    requires p + n < |a| && q + n < |a| && 2 <= n
    requires a[p + n] != a[q + n] || a[p + n - 1] != a[q + n - 1] || a[p] != a[q] || a[p + 1] != a[q + 1]
    ensures !Same(a, p, q, n + 1)
  {
    if Same(a, p, q, n + 1) {
      SameAt(a, p, q, n + 1, 0);
      SameAt(a, p, q, n + 1, 1);
      SameAt(a, p, q, n + 1, n - 1);
      SameAt(a, p, q, n + 1, n);
    }
  }

  lemma MatchEnds(a: seq<byte>, p: nat, q: nat, len: nat, n: nat)
    requires MatchOf(a, p, q, len) && len <= n < 258
    ensures !Same(a, p, q, n + 1)
  {
    if Same(a, p, q, n + 1) {
      SameAt(a, p, q, n + 1, len);
    }
  }

  lemma MatchIsSame(a: seq<byte>, p: nat, q: nat, len: nat)
    requires MatchOf(a, p, q, len)
    ensures Same(a, p, q, len) && len <= 258
    ensures len >= 258 || !Same(a, p, q, len + 1)
  {
    if len < 258 {
      MatchEnds(a, p, q, len, len);
    }
  }

  /** How far back the search goes. */
  function Limit(strstart: nat, z: Sizes): nat
    requires ValidSizes(z)
  {
    if strstart > MaxDist(z) then strstart - MaxDist(z) else 0
  }

  function SearchDepth(level: nat, prevLength: nat): nat
    requires 1 <= level <= 9
  {
    if prevLength >= GOOD[level] then CHAIN[level] / 4 else CHAIN[level]
  }

  function NiceLength(level: nat, lookahead: nat): nat
    requires 1 <= level <= 9
  {
    if NICE[level] > lookahead then lookahead else NICE[level]
  }

  /** Why the search stopped where it did. */
  ghost predicate Stopped(prev: seq<Pos>, visited: seq<nat>, limit: nat, depth: nat, best: nat, nice: nat) {
    |prev| > 0 && |visited| > 0 &&
    (best >= nice || |visited| == depth || prev[visited[|visited| - 1] % |prev|] as nat <= limit)
  }

  lemma StoppedIs(prev: seq<Pos>, visited: seq<nat>, limit: nat, depth: nat, best: nat, nice: nat)
    requires |prev| > 0 && |visited| > 0 && visited[|visited| - 1] % |prev| < |prev|
    requires best >= nice || |visited| == depth || prev[visited[|visited| - 1] % |prev|] as nat <= limit
    ensures Stopped(prev, visited, limit, depth, best, nice)
  {
  }

  lemma WalkStarts(prev: seq<Pos>, first: nat)
    requires |prev| > 0
    ensures Walk(prev, [first], first)
  {
  }

  lemma SearchSettings(s: Deflater)
    requires s.Sized()
    ensures 1 <= s.level < |GOOD| == |CHAIN| == |NICE| == |LAZY| == 10
    ensures NiceLength(s.level, s.lookahead) == (if NICE[s.level] > s.lookahead then s.lookahead else NICE[s.level]) <= 258
    ensures SearchDepth(s.level, s.prevLength) == (if s.prevLength >= GOOD[s.level] then CHAIN[s.level] / 4 else CHAIN[s.level])
    ensures CHAIN[s.level] >= 4
    ensures Limit(s.strstart, s.z) == if s.strstart > MaxDist(s.z) then s.strstart - MaxDist(s.z) else 0
  {
    LevelFacts(s.level);
  }

  /** What a candidate along the chain is good for. */
  lemma LinkIsCandidate(s: Deflater, cur: nat, a: nat)
    requires s.WindowOk() && cur != 0 && a <= s.base + s.strstart && s.base + s.strstart + 2 < |s.total|
    requires Linked(cur, a, HashAt(s.total, s.base + s.strstart, s.z), s.z, s.total, s.base, s.inserted)
    ensures cur < s.strstart && s.base + cur + 2 < |s.total|
    ensures HashAt(s.total, s.base + cur, s.z) == HashAt(s.total, s.base + s.strstart, s.z)
  {
    hide HashAt;
  }

  /** The string at v is the same as the current one for n bytes. */
  ghost predicate Offers(s: Deflater, v: nat, n: nat)
    reads s`total, s`base, s`strstart
  {
    v < s.strstart && Repeats(s.total, s.base + s.strstart, s.strstart - v, n)
  }

  /** No visited position offers more than len bytes. */
  ghost predicate IsLongest(s: Deflater, visited: seq<nat>, len: nat)
    reads s`total, s`base, s`strstart, s`lookahead
  {
    forall i, n :: 0 <= i < |visited| && len < n <= 258 && n <= s.lookahead ==> !Offers(s, visited[i], n)
  }

  /** A match of `len` bytes is no shorter than what v offers, as far as that is `least` bytes or more. */
  ghost predicate NoShorter(s: Deflater, v: nat, least: nat, len: nat)
    reads s`total, s`base, s`strstart, s`lookahead
  {
    forall n :: least <= n <= 258 && n <= s.lookahead && Offers(s, v, n) ==> n <= len
  }

  /** The head of the chain is visited. */
  lemma HeadNoLonger(s: Deflater, visited: seq<nat>, head: nat, len: nat, least: nat)
    requires IsLongest(s, visited, len) && Walk(s.prev[..], visited, head)
    ensures NoShorter(s, head, least, len)
  {
    hide Offers;
    forall n | least <= n <= 258 && n <= s.lookahead && Offers(s, head, n)
      ensures n <= len
    {
      assert visited[0] == head;
    }
  }

  lemma NoShorterFrom(s: Deflater, v: nat, least: nat, len: nat, least': nat, len': nat)
    requires NoShorter(s, v, least, len) && least <= least' && (len <= len' || len < least')
    ensures NoShorter(s, v, least', len')
  {
    hide Offers;
  }

  lemma LongestIs(s: Deflater, visited: seq<nat>, best: nat, len: nat)
    requires s.WindowOk() && NoneLonger(s.window[..], visited, s.strstart, best)
    requires len == if best <= s.lookahead then best else s.lookahead
    ensures IsLongest(s, visited, len)
  {
    hide Repeats, Same;
    forall i, n | 0 <= i < |visited| && len < n <= 258 && n <= s.lookahead
      ensures !Offers(s, visited[i], n)
    {
      if Offers(s, visited[i], n) {
        RepeatsSame(s, visited[i], n);
        SameLess(s.window[..], visited[i], s.strstart, best + 1, n);
      }
    }
  }

  lemma NoneYet(a: seq<byte>, q: nat, n: nat)
    ensures NoneLonger(a, [], q, n)
  {
  }

  /** After a candidate has been tried, it is no longer than the best. */
  lemma Tried(a: seq<byte>, visited: seq<nat>, q: nat, best: nat, len: nat)
    requires |visited| > 0 && NoneLonger(a, visited[..|visited| - 1], q, best)
    requires len > best ==> MatchOf(a, visited[|visited| - 1], q, len)
    requires len <= best ==> !Same(a, visited[|visited| - 1], q, best + 1)
    ensures NoneLonger(a, visited, q, if len > best then len else best)
  {
    hide NoneLonger, Same;
    var n := if len > best then len else best;
    NoneLongerStill(a, visited[..|visited| - 1], q, best, n);
    if len > best {
      MatchIsSame(a, visited[|visited| - 1], q, len);
    }
    OneMoreNotLonger(a, visited[..|visited| - 1], visited[|visited| - 1], q, n);
    assert visited[..|visited| - 1] + [visited[|visited| - 1]] == visited;
  }

  lemma LinkGoesBack(q: nat, a: nat, h: nat, z: Sizes, total: seq<byte>, base: nat, inserted: set<nat>)
    requires Linked(q, a, h, z, total, base, inserted) && q != 0
    ensures base + q < a
  {
    hide HashAt;
  }

  lemma LastSlot(prev: seq<Pos>, visited: seq<nat>)
    requires |prev| > 0 && |visited| > 0
    ensures visited[|visited| - 1] % |prev| < |prev|
  {
  }

  /** The match that match_start stands for. */
  ghost predicate Found(s: Deflater, visited: seq<nat>, len: nat)
    reads s`matchStart, s`strstart, s.window
  {
    s.matchStart < s.strstart && ValidSizes(s.z) && s.strstart - s.matchStart <= MaxDist(s.z) && s.matchStart in visited &&
    len <= 258 && Same(s.window[..], s.matchStart, s.strstart, len)
  }

  lemma IsFound(s: Deflater, visited: seq<nat>, len: nat)
    requires s.matchStart < s.strstart && ValidSizes(s.z) && s.strstart - s.matchStart <= MaxDist(s.z)
    requires |visited| > 0 && visited[|visited| - 1] == s.matchStart
    requires len <= 258 && Same(s.window[..], s.matchStart, s.strstart, len)
    ensures Found(s, visited, len)
  {
    hide Same;
  }

  lemma FoundMeans(s: Deflater, visited: seq<nat>, len: nat)
    requires Found(s, visited, len)
    ensures s.matchStart < s.strstart && ValidSizes(s.z) && s.strstart - s.matchStart <= MaxDist(s.z) && s.matchStart in visited
    ensures len <= 258 && Same(s.window[..], s.matchStart, s.strstart, len)
  {
    hide Same;
  }

  lemma StillFound(s: Deflater, visited: seq<nat>, next: nat, len: nat)
    requires Found(s, visited, len) || len <= s.prevLength
    ensures len > s.prevLength ==> Found(s, visited + [next], len)
  {
    hide Same;
  }

  /** The candidates along the chain, one after the other. */
  method Search(s: Deflater, cur0: nat, chain0: nat, niceMatch: nat, limit: nat) returns (bestLen: nat, ghost visited: seq<nat>)
    requires s.WindowOk() && s.ChainsOk(s.base + s.strstart + 1, s.base + s.strstart + 1)
    requires 3 <= s.lookahead && s.strstart + 258 < s.window.Length && 2 <= s.prevLength < 258 && niceMatch <= 258
    requires 0 < cur0 < s.strstart && s.strstart - cur0 <= MaxDist(s.z) && chain0 >= 1 && limit == Limit(s.strstart, s.z)
    requires Linked(cur0, s.base + s.strstart, HashAt(s.total, s.base + s.strstart, s.z), s.z, s.total, s.base, s.inserted)
    modifies s`matchStart
    ensures s.prevLength <= bestLen && NoneLonger(s.window[..], visited, s.strstart, bestLen)
    ensures bestLen > s.prevLength ==> Found(s, visited, bestLen)
    ensures Walk(s.prev[..], visited, cur0) && Stopped(s.prev[..], visited, limit, chain0, bestLen, niceMatch)
  {
    hide *;
    WindowFacts(s);
    SizeFacts(s);
    SearchSettings(s);
    ChainsAre(s, s.base + s.strstart + 1, s.base + s.strstart + 1);
    var chainLength := chain0;
    bestLen := s.prevLength;
    var cur: nat := cur0;
    ghost var at: nat, h := s.base + s.strstart, HashAt(s.total, s.base + s.strstart, s.z);
    visited := [cur0];
    WalkStarts(s.prev[..], cur0);
    NoneYet(s.window[..], s.strstart, bestLen);
    while true
      invariant 0 < cur < s.strstart && s.strstart - cur <= MaxDist(s.z)
      invariant at <= s.base + s.strstart && Linked(cur, at, h, s.z, s.total, s.base, s.inserted)
      invariant |visited| > 0 && visited[|visited| - 1] == cur && Walk(s.prev[..], visited, cur0)
      invariant NoneLonger(s.window[..], visited[..|visited| - 1], s.strstart, bestLen)
      invariant s.prevLength <= bestLen < 258 && chainLength >= 1 && |visited| + chainLength == chain0 + 1
      invariant bestLen > s.prevLength ==> Found(s, visited, bestLen)
      decreases cur
    {
      LinkIsCandidate(s, cur, at);
      var len := TryMatch(s, cur, bestLen);
      Tried(s.window[..], visited, s.strstart, bestLen, len);
      LastSlot(s.prev[..], visited);
      if len > bestLen {
        s.matchStart := cur;
        bestLen := len;
        MatchIsSame(s.window[..], cur, s.strstart, len);
        IsFound(s, visited, bestLen);
        if len >= niceMatch {
          StoppedIs(s.prev[..], visited, limit, chain0, bestLen, niceMatch);
          return;
        }
      }
      NextIs(s.head[..], s.prev[..], s.z, s.total, s.base, s.inserted, s.base + s.strstart + 1, s.base + s.strstart + 1, cur, at, h);
      at := s.base + cur;
      var next := s.prev[cur % s.z.w] as nat;
      chainLength := chainLength - 1;
      if next <= limit || chainLength == 0 {
        StoppedIs(s.prev[..], visited, limit, chain0, bestLen, niceMatch);
        return;
      }
      WalkOn(s.prev[..], visited, cur0);
      LinkGoesBack(next, at, h, s.z, s.total, s.base, s.inserted);
      StillFound(s, visited, next, bestLen);
      visited := visited + [next];
      cur := next;
    }
  }

  /** longest_match: a length beyond prevLength is that of a true match, within reach and within the
      lookahead, and none of the positions visited has a longer one. */
  method FindLongest(s: Deflater, cur0: nat) returns (len: nat, ghost visited: seq<nat>)
    requires s.WindowOk() && s.ChainsOk(s.base + s.strstart + 1, s.base + s.strstart + 1)
    requires 3 <= s.lookahead && s.strstart + MIN_LOOKAHEAD <= s.window.Length && 2 <= s.prevLength < 258
    requires 0 < cur0 < s.strstart && s.strstart - cur0 <= MaxDist(s.z)
    requires Linked(cur0, s.base + s.strstart, HashAt(s.total, s.base + s.strstart, s.z), s.z, s.total, s.base, s.inserted)
    modifies s`matchStart
    ensures len <= s.lookahead && len <= 258 && (s.prevLength <= len || len == s.lookahead)
    ensures len > s.prevLength ==> s.matchStart < s.strstart && s.strstart - s.matchStart <= MaxDist(s.z) && s.matchStart in visited
    ensures len > s.prevLength ==> Repeats(s.total, s.base + s.strstart, s.strstart - s.matchStart, len)
    ensures Walk(s.prev[..], visited, cur0) && IsLongest(s, visited, len)
    ensures Stopped(s.prev[..], visited, Limit(s.strstart, s.z), SearchDepth(s.level, s.prevLength), len, NiceLength(s.level, s.lookahead))
  {
    hide *;
    WindowFacts(s);
    SizeFacts(s);
    SearchSettings(s);
    var chainLength := CHAIN[s.level];
    var niceMatch := NICE[s.level];
    if s.prevLength >= GOOD[s.level] {
      chainLength := chainLength / 4;
    }
    if niceMatch > s.lookahead {
      niceMatch := s.lookahead;
    }
    var bestLen;
    bestLen, visited := Search(s, cur0, chainLength, niceMatch, Limit(s.strstart, s.z));
    len := if bestLen <= s.lookahead then bestLen else s.lookahead;
    LongestIs(s, visited, bestLen, len);
    StoppedCapped(s.prev[..], visited, Limit(s.strstart, s.z), chainLength, bestLen, niceMatch, len);
    if len > s.prevLength {
      FoundMeans(s, visited, bestLen);
      SameLess(s.window[..], s.matchStart, s.strstart, len, bestLen);
      SameRepeats(s, s.matchStart, len);
    }
  }

  lemma StoppedCapped(prev: seq<Pos>, visited: seq<nat>, limit: nat, depth: nat, best: nat, nice: nat, len: nat)
    requires Stopped(prev, visited, limit, depth, best, nice) && (len >= best || len >= nice)
    ensures Stopped(prev, visited, limit, depth, len, nice)
  {
  }
}
