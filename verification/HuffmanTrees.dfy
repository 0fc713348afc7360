/** build_tree of trees.c as a whole, and what it guarantees. */
module HuffmanTrees {
  import opened Machine
  import opened BitStrings
  import opened Canonical
  import opened CodeWords
  import opened Heap
  import opened HuffmanTheory
  import opened MergeOrder
  import opened BitLengths
  import opened LengthRepair
  import opened LengthAssignment
  import opened TreeBuilder

  // ---- From lengths that fill the code space to a complete canonical code

  lemma {:induction false} KraftIsSpace(used: seq<bool>, lens: seq<nat>, n: nat, s: nat)
    requires n <= |used| == |lens| && n <= s
    requires forall x :: 0 <= x < n ==> if used[x] then 1 <= lens[x] <= MAXBITS else lens[x] == 0
    ensures Taken(lens, n, MAXBITS, s) == Space(used, lens, n, MAXBITS)
  {
    if n > 0 {
      KraftIsSpace(used, lens, n - 1, s);
    }
  }

  lemma LengthsComplete(desc: StaticDesc, used: seq<bool>, w: seq<nat>, d: seq<nat>, bl: seq<nat>)
    requires GoodLengths(desc, used, w, d, bl)
    ensures Complete(d[..desc.elems])
    ensures forall x :: 0 <= x < desc.elems ==> if used[x] then 1 <= d[x] <= desc.maxLength else d[x] == 0
  {
    hide Levels, Space, Taken;
    var n, max, lens := desc.elems, desc.maxLength, d[..desc.elems];
    KraftIsSpace(used, lens, n, n);
    SpaceSame(used, used, d, lens, n, MAXBITS);
    SpaceScales(used, d, n, max, MAXBITS);
    ShlPow2(max, MAXBITS - max);
  }

  /** Symbols past the last used one change nothing. */
  lemma {:induction false} TakenPrefix(lens: seq<nat>, codes: nat, n: nat, l: nat, s: nat)
    requires n <= |lens| && codes <= |lens| && forall x :: codes <= x < |lens| ==> lens[x] == 0
    ensures Taken(lens, n, l, s) == Taken(lens[..codes], if n <= codes then n else codes, l, s)
    decreases n
  {
    if n > 0 {
      TakenPrefix(lens, codes, n - 1, l, s);
    }
  }

  lemma CodesOfPrefix(lens: seq<nat>, codes: nat)
    requires codes <= |lens| && forall x :: codes <= x < |lens| ==> lens[x] == 0
    ensures Complete(lens) ==> Complete(lens[..codes])
    ensures forall s :: 0 <= s < codes ==> CodeWord(lens[..codes], s) == CodeWord(lens, s)
  {
    hide Taken;
    TakenPrefix(lens, codes, |lens|, MAXBITS, |lens|);
    TakenLate(lens[..codes], codes, MAXBITS, |lens|, codes);
    forall s | 0 <= s < codes
      ensures Code(lens[..codes], s) == Code(lens, s)
    {
      TakenPrefix(lens, codes, |lens|, lens[s], s);
    }
  }

  lemma {:induction false} LevelIsCount(used: seq<bool>, d: seq<nat>, codes: nat, n: nat, l: nat)
    requires n <= |used| && n <= |d| && codes <= |d| && 0 < l
    requires forall x :: 0 <= x < n && !used[x] ==> d[x] == 0
    requires forall x :: codes <= x < n ==> !used[x]
    ensures AtLevel(used, d, n, l) == Count(d[..codes], if n <= codes then n else codes, l)
    decreases n
  {
    if n > 0 {
      LevelIsCount(used, d, codes, n - 1, l);
    }
  }

  lemma CodesReady(desc: StaticDesc, used: seq<bool>, w: seq<nat>, d: seq<nat>, bl: seq<nat>, maxCode: nat)
    requires GoodLengths(desc, used, w, d, bl) && maxCode < desc.elems
    requires forall x :: 0 <= x < desc.elems && used[x] ==> x <= maxCode
    ensures |bl| == MAXBITS + 1 && bl[0] == 0 && maxCode + 1 <= |d| && Fits(d[..maxCode + 1])
    ensures forall l :: 1 <= l <= MAXBITS ==> bl[l] == Count(d[..maxCode + 1], maxCode + 1, l)
    ensures forall s :: 0 <= s <= maxCode ==> CodeWord(d[..maxCode + 1], s) == CodeWord(d[..desc.elems], s)
  {
    hide Space, AtLevel, Count, CodeWord, Taken, Kraft;
    LengthsComplete(desc, used, w, d, bl);
    CodesOfPrefix(d[..desc.elems], maxCode + 1);
    assert d[..desc.elems][..maxCode + 1] == d[..maxCode + 1];
    forall l | 1 <= l <= MAXBITS
      ensures bl[l] == Count(d[..maxCode + 1], maxCode + 1, l)
    {
      LevelIsCount(used, d, maxCode + 1, desc.elems, l);
    }
    NoneAtLevel(used, d, desc.elems, 0);
  }

  // ---- The accounts without the forced symbols

  /** Two code words that fill the code space both have length 1. */
  lemma {:induction false} TwoLeaves(used: seq<bool>, d: seq<nat>, n: nat, max: nat, x: nat)
    requires n <= |used| && n <= |d| && Within(used, d, n, max) && x < n && used[x]
    requires Size(used, n) == 2 && Space(used, d, n, max) == Pow2(max) && 1 <= max
    ensures d[x] == 1
  {
    var used' := used[x := false];
    SpaceDrop(used, used', d, x, n, max);
    SizeOne(used', x, n);
    assert used'[x := true] == used;
    OneLeaf(used', d, n, max);
    HalfOnly(d[x], max);
  }

  /** One code word of length at least 1 takes up at most half of the space. */
  lemma {:induction false} OneLeaf(act: seq<bool>, d: seq<nat>, n: nat, max: nat)
    requires n <= |act| && n <= |d| && Within(act, d, n, max) && 1 <= max
    ensures Size(act, n) == 0 ==> Space(act, d, n, max) == 0
    ensures Size(act, n) == 1 ==> Space(act, d, n, max) <= Pow2(max - 1)
  {
    if n > 0 {
      OneLeaf(act, d, n - 1, max);
      if act[n - 1] {
        Pow2Monotone(max - d[n - 1], max - 1);
      }
    }
  }

  lemma HalfOnly(len: nat, max: nat)
    requires 1 <= len <= max && Pow2(max) <= Pow2(max - len) + Pow2(max - 1)
    ensures len == 1
  {
    if len > 1 {
      Pow2Monotone(max - len, max - 2);
    }
  }

  lemma {:induction false} SumOfOnes(act: seq<bool>, d: seq<nat>, n: nat)
    requires n <= |act| && n <= |d| && forall x :: 0 <= x < n && act[x] ==> d[x] == 1
    ensures LengthSum(act, d, n) == Size(act, n)
  {
    if n > 0 {
      SumOfOnes(act, d, n - 1);
    }
  }

  lemma {:induction false} SumOfZeros(act: seq<bool>, d: seq<nat>, n: nat)
    requires n <= |act| && n <= |d| && forall x :: 0 <= x < n && act[x] ==> d[x] == 0
    ensures LengthSum(act, d, n) == 0
  {
    if n > 0 {
      SumOfZeros(act, d, n - 1);
    }
  }

  lemma ForcedAccounts(desc: StaticDesc, freq: seq<nat>, w: seq<nat>, used: seq<bool>, forced: seq<bool>,
                       d: seq<nat>, bl: seq<nat>, stat: int)
    requires GoodLengths(desc, used, w, d, bl) && |freq| == desc.elems == |used| <= |w|
    requires ForcedIn(freq, w[..desc.elems], used, forced)
    requires Size(forced, desc.elems) > 0 ==> Size(used, desc.elems) == 2
    requires StaticCost(desc, used, w, stat)
    ensures |AllExtraBits(desc)| == desc.elems <= |d|
    ensures CostWithExtra(used, w, d, AllExtraBits(desc)) - Size(forced, desc.elems)
         == CostWithExtra(used, freq, d, AllExtraBits(desc))
    ensures desc.staticLens.Some? ==> |desc.staticLens.value| >= desc.elems
    ensures StaticCost(desc, used, freq, stat -
              if desc.staticLens.Some? then LengthSum(forced, desc.staticLens.value, desc.elems) else 0)
  {
    hide Levels, Space, Cost, Pow2, LengthSum, Size;
    var n, extra := desc.elems, AllExtraBits(desc);
    ForcedCost(freq, w, used, forced, d, n);
    ForcedCost(freq, w, used, forced, extra, n);
    SumOfZeros(forced, extra, n);
    if Size(forced, n) == 0 {
      NoSize(forced, n);
      SumOfZeros(forced, d, n);
    } else {
      forall x | 0 <= x < n && forced[x]
        ensures d[x] == 1
      {
        TwoLeaves(used, d, n, desc.maxLength, x);
      }
      SumOfOnes(forced, d, n);
    }
    if desc.staticLens.Some? {
      ForcedCost(freq, w, used, forced, desc.staticLens.value, n);
    }
  }

  lemma {:induction false} NoSize(act: seq<bool>, n: nat)
    requires n <= |act| && Size(act, n) == 0
    ensures forall x :: 0 <= x < n ==> !act[x]
  {
    if n > 0 {
      NoSize(act, n - 1);
    }
  }

  // ---- The result

  /** used says which symbols get a code word: those that occur, and enough others to make two. */
  ghost predicate CoversUsed(freq: seq<nat>, used: seq<bool>) {
    |freq| == |used| && 2 <= Size(used, |used|) &&
    forall x :: 0 <= x < |used| ==>
      (freq[x] > 0 ==> used[x]) && (used[x] && freq[x] == 0 ==> x <= 2 && Size(used, |used|) == 2)
  }

  /** A complete canonical prefix code of limited length, longer for rarer symbols. */
  ghost predicate GoodTree(desc: StaticDesc, freq: seq<nat>, used: seq<bool>, lens: seq<nat>, codes: seq<nat>) {
    |freq| == |used| == |lens| == |codes| == desc.elems && CoversUsed(freq, used) && Complete(lens) &&
    (forall x :: 0 <= x < desc.elems ==> if used[x] then 1 <= lens[x] <= desc.maxLength else lens[x] == 0) &&
    (forall x :: 0 <= x < desc.elems && used[x] ==> codes[x] == Val(CodeWord(lens, x))) &&
    forall x, y :: 0 <= x < desc.elems && 0 <= y < desc.elems && used[x] && used[y] && freq[x] < freq[y] ==>
      lens[x] >= lens[y]
  }

  lemma UsedCovered(freq: seq<nat>, w: seq<nat>, used: seq<bool>, forced: seq<bool>)
    requires ForcedIn(freq, w, used, forced) && 2 <= Size(used, |used|)
    requires Size(forced, |used|) > 0 ==> Size(used, |used|) == 2
    ensures CoversUsed(freq, used)
    ensures (forall x :: 0 <= x < |used| && used[x] ==> freq[x] > 0) ==> w == freq
  {
    if Size(forced, |used|) == 0 {
      NoSize(forced, |used|);
    }
  }

  lemma RarerStill(desc: StaticDesc, freq: seq<nat>, w: seq<nat>, used: seq<bool>, forced: seq<bool>,
                   d: seq<nat>, bl: seq<nat>, x: nat, y: nat)
    requires GoodLengths(desc, used, w, d, bl) && |freq| == desc.elems == |used| <= |w|
    requires ForcedIn(freq, w[..desc.elems], used, forced)
    requires Size(forced, desc.elems) > 0 ==> Size(used, desc.elems) == 2
    requires x < desc.elems && y < desc.elems && used[x] && used[y] && freq[x] < freq[y]
    ensures d[x] >= d[y]
  {
    hide Levels, Space, Size;
    if Size(forced, desc.elems) == 0 {
      NoSize(forced, desc.elems);
    } else {
      TwoLeaves(used, d, desc.elems, desc.maxLength, x);
      TwoLeaves(used, d, desc.elems, desc.maxLength, y);
    }
  }

  lemma TreeIsGood(desc: StaticDesc, freq: seq<nat>, w: seq<nat>, used: seq<bool>, forced: seq<bool>,
                   d: seq<nat>, bl: seq<nat>, codes: seq<nat>)
    requires GoodLengths(desc, used, w, d, bl) && |freq| == desc.elems == |used| == |codes| && desc.elems <= |w|
    requires ForcedIn(freq, w[..desc.elems], used, forced) && 2 <= Size(used, desc.elems) && desc.elems <= |d|
    requires Size(forced, desc.elems) > 0 ==> Size(used, desc.elems) == 2
    requires forall x :: 0 <= x < desc.elems && d[x] != 0 ==> codes[x] == Val(CodeWord(d[..desc.elems], x))
    ensures GoodTree(desc, freq, used, d[..desc.elems], codes)
  {
    hide GoodLengths, Size, ForcedIn, Complete, CodeWord;
    LengthsComplete(desc, used, w, d, bl);
    UsedCovered(freq, w[..desc.elems], used, forced);
    forall x, y | 0 <= x < desc.elems && 0 <= y < desc.elems && used[x] && used[y] && freq[x] < freq[y]
      ensures d[x] >= d[y]
    {
      RarerStill(desc, freq, w, used, forced, d, bl, x, y);
    }
  }

  /** No code for the used symbols makes the data shorter. */
  ghost predicate IsOptimal(freq: seq<nat>, used: seq<bool>, lens: seq<nat>) {
    |freq| == |used| == |lens| &&
    forall other, l :: |other| == |used| && IsCode(used, other, l) ==>
      Cost(used, freq, lens, |used|) <= Cost(used, freq, other, |used|)
  }

  lemma OptimalStill(freq: seq<nat>, w: seq<nat>, used: seq<bool>, d: seq<nat>, n: nat)
    requires |freq| == |used| == n && n <= |w| && n <= |d| && w[..n] == freq
    requires forall len, l :: |len| == n && IsCode(used, len, l) ==> Cost(used, w, d, n) <= Cost(used, w, len, n)
    ensures IsOptimal(freq, used, d[..n])
  {
    forall len, l | |len| == n && IsCode(used, len, l)
      ensures Cost(used, freq, d[..n], n) <= Cost(used, freq, len, n)
    {
      CostPrefix(used, w, d, n, n);
      CostPrefix(used, w, len, n, n);
      assert len[..n] == len;
    }
  }

  lemma {:induction false} CostPrefix(act: seq<bool>, w: seq<nat>, len: seq<nat>, m: nat, n: nat)
    requires n <= m && m <= |act| && m <= |w| && m <= |len|
    ensures Cost(act, w[..m], len[..m], n) == Cost(act, w, len, n)
  {
    if n > 0 {
      CostPrefix(act, w, len, m, n - 1);
    }
  }

  // ---- The method

  /** build_tree, putting the heap in order. */
  method OrderHeap(s: State, fc: array<nat>, ghost key: seq<nat>)
    requires s.Valid() && s.heap != fc && AreKeys(fc, s.depth, key) && s.heapLen < s.heap.Length
    requires InRange(s.heap[..], s.heapLen, |key|) && Ordered(s.heap[..], s.heapLen, key, s.heapLen / 2 + 1)
    requires 1 <= s.heapLen
    modifies s.heap
    ensures InRange(s.heap[..], s.heapLen, |key|) && Ordered(s.heap[..], s.heapLen, key, 1)
    ensures Nodes(s.heap[..], s.heapLen) == old(Nodes(s.heap[..], s.heapLen))
  {
    hide *;
    StateSizes(s);
    var n := s.heapLen / 2;
    while n >= 1
      invariant 0 <= n <= s.heapLen / 2
      invariant InRange(s.heap[..], s.heapLen, |key|) && Ordered(s.heap[..], s.heapLen, key, n + 1)
      invariant Nodes(s.heap[..], s.heapLen) == old(Nodes(s.heap[..], s.heapLen))
      invariant AreKeys(fc, s.depth, key)
      decreases n
    {
      PqDownHeap(s.heap, s.heapLen, fc, s.depth, n, key);
      n := n - 1;
    }
  }

  lemma KeysAreKeys(fc: array<nat>, depth: array<nat>, n: nat)
    requires n <= fc.Length && n <= depth.Length && Bytes(depth[..])
    ensures AreKeys(fc, depth, Keys(fc[..], depth[..], n)) && KeysMatch(Keys(fc[..], depth[..], n), fc[..n])
  {
    assert forall x :: 0 <= x < n ==> depth[..][x] == depth[x];
  }

  lemma FillSize(h: seq<nat>, heapLen: nat, used: seq<bool>, maxCode: int)
    requires Filling(h, heapLen, used, maxCode)
    ensures Size(used, |used|) == heapLen && (maxCode >= 0 ==> maxCode < |used| && used[maxCode])
    ensures forall x :: 0 <= x < |used| && used[x] ==> x <= maxCode
  {
    QueueSize(Nodes(h, heapLen), used);
  }

  lemma NoFathers(dl: seq<nat>, leaves: nat)
    ensures Fathered(dl, leaves, [])
  {
  }

  lemma AreFathered(dl: seq<nat>, leaves: nat, merges: seq<Merge>)
    requires Fathered(dl, leaves, merges)
    ensures forall p :: 0 <= p < 2 * |merges| ==> NodeAt(merges, p) < |dl| && dl[NodeAt(merges, p)] == leaves + p / 2
  {
  }

  lemma TotalWeight(freq: seq<nat>, w: seq<nat>, used: seq<bool>, forced: seq<bool>)
    requires ForcedIn(freq, w, used, forced) && Size(forced, |used|) <= 2
    ensures |used| == |freq| == |w| && Weight(used, w) <= FreqSum(freq, |freq|) + 2
  {
    WeightBound(freq, w, used, forced, |used|);
  }

  /** build_tree, the heap and the merging loop. */
  method MergeAll(s: State, desc: StaticDesc, fc: array<nat>, dl: array<nat>)
    returns (maxCode: nat, ghost used: seq<bool>, ghost forced: seq<bool>, ghost merges: seq<Merge>, ghost w: seq<nat>)
    requires s.Valid() && ValidDesc(desc) && Apart(s, fc, dl) && 2 * desc.elems <= fc.Length && 2 * desc.elems <= dl.Length
    requires Bytes(s.depth[..]) && FreqSum(fc[..desc.elems], desc.elems) + 2 < 65536
    modifies s, s.heap, s.depth, fc, dl
    ensures IsTree(used, desc.elems, merges, w) && Queued(s.heap[..], desc.elems, merges)
    ensures s.heapMax == HEAP_SIZE - 1 - 2 * |merges| && Bytes(s.depth[..])
    ensures |w| <= fc.Length && |w| <= dl.Length && forall x :: 0 <= x < |w| ==> fc[x] == w[x]
    ensures |used| == desc.elems && maxCode < desc.elems && used[maxCode]
    ensures forall x :: 0 <= x < desc.elems && used[x] ==> x <= maxCode
    ensures forall x :: 0 <= x < desc.elems && !used[x] ==> dl[x] == 0
    ensures Fathered(dl[..], desc.elems, merges)
    ensures desc.elems <= |w| && ForcedIn(old(fc[..desc.elems]), w[..desc.elems], used, forced)
    ensures 2 <= Size(used, desc.elems) && (Size(forced, desc.elems) > 0 ==> Size(used, desc.elems) == 2)
    ensures s.optLen == old(s.optLen) - Size(forced, desc.elems)
    ensures desc.staticLens.Some? ==> |desc.staticLens.value| >= desc.elems
    ensures s.staticLen == old(s.staticLen) -
              if desc.staticLens.Some? then LengthSum(forced, desc.staticLens.value, desc.elems) else 0
  {
    hide *;
    StateSizes(s);
    AreApart(s, fc, dl);
    DescFacts(desc);
    ghost var freq: seq<nat> := fc[..desc.elems];
    maxCode, used, forced := FillHeap(s, desc, fc, dl);
    w := fc[..desc.elems];
    FillFacts(s.heap[..], s.heapLen, used, maxCode);
    FillSize(s.heap[..], s.heapLen, used, maxCode);
    SizesAgree(freq, w, used, forced);
    ForcedFewer(freq, w, used, forced, desc.elems);
    TotalWeight(freq, w, used, forced);
    ghost var key := Keys(fc[..], s.depth[..], desc.elems);
    KeysAreKeys(fc, s.depth, desc.elems);
    Unordered(s.heap[..], s.heapLen, used, maxCode, key);
    OrderHeap(s, fc, key);
    ghost var total, count := Weight(used, w), s.heapLen;
    MergingStarts(used, w, key, s.heap[..], s.heapLen);
    merges := [];
    NoFathers(dl[..], desc.elems);
    var node := desc.elems;
    while true
      modifies s`heapLen, s`heapMax, s.heap, s.depth, fc, dl
      invariant 2 <= s.heapLen && node == desc.elems + |merges| && s.heapMax == HEAP_SIZE - 2 * |merges|
      invariant Merging(used, desc.elems, merges, w, key, s.heap[..], s.heapLen, total, count)
      invariant AreKeys(fc, s.depth, key) && Bytes(s.depth[..]) && desc.elems <= |w| <= fc.Length
      invariant forall x :: 0 <= x < |w| ==> fc[x] == w[x]
      invariant w[..desc.elems] == fc[..desc.elems] && ForcedIn(freq, w[..desc.elems], used, forced)
      invariant Fathered(dl[..], desc.elems, merges)
      invariant forall x :: 0 <= x < desc.elems && !used[x] ==> dl[x] == 0
      decreases s.heapLen
    {
      ghost var w0 := fc[..desc.elems];
      merges, w, key := MergeTwo(s, fc, dl, node, used, desc.elems, merges, w, key, total, count);
      MergingFacts(used, desc.elems, merges, w, key, s.heap[..], s.heapLen, total, count);
      assert fc[..desc.elems] == w0;
      assert w[..desc.elems] == fc[..desc.elems];
      node := node + 1;
      if s.heapLen < 2 {
        break;
      }
    }
    MergingFacts(used, desc.elems, merges, w, key, s.heap[..], s.heapLen, total, count);
    ghost var h := s.heap[..];
    s.heapMax := s.heapMax - 1;
    s.heap[s.heapMax] := s.heap[1];
    MergingEnds(used, desc.elems, merges, w, key, h, total, count, s.heap[..]);
  }

  lemma SizesAgree(freq: seq<nat>, w: seq<nat>, used: seq<bool>, forced: seq<bool>)
    requires ForcedIn(freq, w, used, forced)
    ensures |freq| == |w| == |used| == |forced|
  {
  }

  lemma CostOfPrefix(act: seq<bool>, w: seq<nat>, d: seq<nat>, extra: seq<nat>)
    requires |act| <= |w| && |act| <= |d| && |act| <= |extra|
    ensures CostWithExtra(act, w, d[..|act|], extra) == CostWithExtra(act, w, d, extra)
  {
    CostSame(act, act, w, d, d[..|act|], |act|);
  }

  /** build_tree */
  method BuildTree(s: State, desc: StaticDesc, fc: array<nat>, dl: array<nat>)
    returns (maxCode: nat, ghost used: seq<bool>, ghost merges: seq<Merge>, ghost w: seq<nat>, ghost cut: nat)
    requires s.Valid() && ValidDesc(desc) && Apart(s, fc, dl) && 2 * desc.elems <= fc.Length && 2 * desc.elems <= dl.Length
    requires Bytes(s.depth[..]) && FreqSum(fc[..desc.elems], desc.elems) + 2 < 65536
    modifies s, s.heap, s.depth, s.blCount, fc, dl
    ensures Bytes(s.depth[..])
    ensures GoodTree(desc, old(fc[..desc.elems]), used, dl[..desc.elems], fc[..desc.elems])
    ensures maxCode < desc.elems && used[maxCode] && forall x :: maxCode < x < desc.elems ==> !used[x]
    // the accounts: exactly what the data will take up with the new code, and with the static one
    ensures |AllExtraBits(desc)| == desc.elems
    ensures s.optLen == old(s.optLen) + CostWithExtra(used, old(fc[..desc.elems]), dl[..desc.elems], AllExtraBits(desc))
    ensures StaticCost(desc, used, old(fc[..desc.elems]), s.staticLen - old(s.staticLen))
    // optimality: cut counts the nodes of the Huffman tree that lie deeper than the limit
    ensures IsTree(used, desc.elems, merges, w)
    ensures exists d :: IsClippedDepth(desc.elems, merges, d, desc.maxLength) &&
              cut == Cut(desc.elems, merges, d, desc.maxLength, 0)
    ensures cut == 0 && (forall x :: 0 <= x < desc.elems && used[x] ==> old(fc[x]) > 0) ==>
              IsOptimal(old(fc[..desc.elems]), used, dl[..desc.elems])
  {
    hide *;
    StateSizes(s);
    AreApart(s, fc, dl);
    DescFacts(desc);
    ghost var freq: seq<nat> := fc[..desc.elems];
    ghost var forced: seq<bool>;
    maxCode, used, forced, merges, w := MergeAll(s, desc, fc, dl);
    AreFathered(dl[..], desc.elems, merges);
    TreeIsRun(used, desc.elems, merges, w);
    cut := GenBitlen(s, desc, fc, dl, maxCode, used, merges, w);
    ghost var d, bl := dl[..], s.blCount[..];
    SizesAgree(freq, w[..desc.elems], used, forced);
    ForcedAccounts(desc, freq, w, used, forced, d, bl, s.staticLen - old(s.staticLen) +
      if desc.staticLens.Some? then LengthSum(forced, desc.staticLens.value, desc.elems) else 0);
    CostOfPrefix(used, freq, d, AllExtraBits(desc));
    LengthsComplete(desc, used, w, d, bl);
    CodesReady(desc, used, w, d, bl, maxCode);
    UsedCovered(freq, w[..desc.elems], used, forced);
    if cut == 0 && (forall x :: 0 <= x < desc.elems && used[x] ==> freq[x] > 0) {
      OptimalStill(freq, w, used, d, desc.elems);
    }
    GenCodes(fc, dl, maxCode + 1, s.blCount);
    TreeIsGood(desc, freq, w, used, forced, d, bl, fc[..desc.elems]);
  }
}
