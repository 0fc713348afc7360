/** gen_bitlen of trees.c: code lengths from the order in which nodes were merged,
    with the repair that keeps every length within a limit. */
module BitLengths {
  import opened Machine
  import opened BitStrings
  import opened Canonical
  import opened HuffmanTheory
  import opened MergeOrder
  import opened Heap

  const HEAP_SIZE: nat := 573

  /** What never changes about a kind of tree. */
  datatype StaticDesc = StaticDesc(staticLens: Option<seq<nat>>, extra: seq<nat>, base: nat, elems: nat, maxLength: nat)

  ghost predicate ValidDesc(desc: StaticDesc) {
    3 <= desc.elems && 2 * desc.elems < HEAP_SIZE && desc.elems <= Pow2(desc.maxLength) &&
    2 <= desc.maxLength <= MAXBITS &&
    |desc.extra| + desc.base >= desc.elems &&
    (desc.staticLens.Some? ==> |desc.staticLens.value| >= desc.elems) &&
    forall n :: 0 <= n <= 2 ==> ExtraBits(desc, n) == 0
  }

  /** The extra bits that follow a symbol's code word. */
  function ExtraBits(desc: StaticDesc, n: nat): nat
    requires n < desc.elems <= |desc.extra| + desc.base
  {
    if n >= desc.base then desc.extra[n - desc.base] else 0
  }

  function AllExtraBits(desc: StaticDesc): (r: seq<nat>)
    requires desc.elems <= |desc.extra| + desc.base
    ensures |r| == desc.elems
  {
    seq(desc.elems, n requires 0 <= n < desc.elems => ExtraBits(desc, n))
  }

  /** The part of the compression state that building a tree works with. */
  class State {
    const heap: array<nat>
    const depth: array<nat>
    const blCount: array<nat>
    var heapLen: nat
    var heapMax: nat
    var optLen: int
    var staticLen: int

    ghost predicate Valid()
    {
      heap.Length == HEAP_SIZE && depth.Length == HEAP_SIZE && blCount.Length == MAXBITS + 1 &&
      heap != depth && heap != blCount && depth != blCount
    }

    constructor ()
      ensures Valid() && fresh(heap) && fresh(depth) && fresh(blCount) && optLen == staticLen == 0
      ensures forall x :: 0 <= x < HEAP_SIZE ==> depth[x] == 0
    {
      heap := new nat[HEAP_SIZE](i => 0);
      depth := new nat[HEAP_SIZE](i => 0);
      blCount := new nat[MAXBITS + 1](i => 0);
      heapLen, heapMax, optLen, staticLen := 0, HEAP_SIZE, 0, 0;
      new;
    }
  }

  /** The tree that Huffman's algorithm builds. */
  ghost predicate IsTree(used: seq<bool>, leaves: nat, merges: seq<Merge>, w: seq<nat>) {
    IsRun(used, leaves, merges, w) && IsGreedy(used, leaves, merges, w) && EndsInRoot(used, leaves, merges) &&
    |w| == leaves + |merges|
  }

  /** The heap array keeps the nodes as they came off the queue, last one lowest. */
  ghost predicate Queued(h: seq<nat>, leaves: nat, merges: seq<Merge>) {
    |h| == HEAP_SIZE && 0 < 2 * |merges| < HEAP_SIZE &&
    h[HEAP_SIZE - 1 - 2 * |merges|] == leaves + |merges| - 1 &&
    forall p :: 0 <= p < 2 * |merges| ==> h[HEAP_SIZE - 1 - p] == NodeAt(merges, p)
  }

  lemma StateSizes(s: State)
    requires s.Valid()
    ensures s.heap.Length == HEAP_SIZE && s.depth.Length == HEAP_SIZE && s.blCount.Length == MAXBITS + 1
    ensures s.heap != s.depth && s.heap != s.blCount && s.depth != s.blCount
  {
  }

  // ---- First pass: depths, cut off at the limit

  function Clip(x: nat, max: nat): nat {
    if x <= max then x else max
  }

  /** Lengths are set from the p-th node taken on; the others still point to their father. */
  ghost predicate Passed(dl: seq<nat>, leaves: nat, merges: seq<Merge>, max: nat, q: nat) {
    0 < |merges| && leaves + |merges| <= |dl| && q <= 2 * |merges| &&
    dl[leaves + |merges| - 1] == 0 &&
    (forall p :: 0 <= p < 2 * |merges| ==> NodeAt(merges, p) < leaves + p / 2) &&
    (forall p :: q <= p < 2 * |merges| ==> dl[NodeAt(merges, p)] == Clip(dl[leaves + p / 2] + 1, max)) &&
    (forall p :: 0 <= p < q ==> dl[NodeAt(merges, p)] == leaves + p / 2)
  }

  /** How many nodes from the q-th on had their depth cut. */
  function Overflow(dl: seq<nat>, leaves: nat, merges: seq<Merge>, max: nat, q: nat): nat
    requires leaves + |merges| <= |dl| && q <= 2 * |merges|
    decreases 2 * |merges| - q
  {
    if q == 2 * |merges| then 0
    else (if dl[leaves + q / 2] + 1 > max then 1 else 0) + Overflow(dl, leaves, merges, max, q + 1)
  }

  lemma {:induction false} OverflowSame(dl: seq<nat>, dl': seq<nat>, leaves: nat, merges: seq<Merge>, max: nat, q: nat)
    requires leaves + |merges| <= |dl| == |dl'| && q <= 2 * |merges|
    requires forall x :: leaves + q / 2 <= x < leaves + |merges| ==> dl'[x] == dl[x]
    ensures Overflow(dl', leaves, merges, max, q) == Overflow(dl, leaves, merges, max, q)
    decreases 2 * |merges| - q
  {
    if q < 2 * |merges| {
      OverflowSame(dl, dl', leaves, merges, max, q + 1);
    }
  }

  /** Two sons for each father cut. */
  lemma {:induction false} OverflowIsTwiceCut(dl: seq<nat>, leaves: nat, merges: seq<Merge>, max: nat, i: nat)
    requires leaves + |merges| <= |dl| && i <= |merges|
    ensures Overflow(dl, leaves, merges, max, 2 * i) == 2 * Cut(leaves, merges, dl, max, i)
    decreases |merges| - i
  {
    if i < |merges| {
      OverflowIsTwiceCut(dl, leaves, merges, max, i + 1);
      assert (2 * i + 1) / 2 == i;
    }
  }

  lemma PassStep(dl: seq<nat>, leaves: nat, merges: seq<Merge>, max: nat, q: nat, used: seq<bool>, w: seq<nat>)
    requires 0 < q && Passed(dl, leaves, merges, max, q) && IsRun(used, leaves, merges, w)
    ensures var n := NodeAt(merges, q - 1);
            n < leaves + (q - 1) / 2 < |dl| && dl[n] == leaves + (q - 1) / 2 &&
            var bits := Clip(dl[dl[n]] + 1, max);
            var dl' := dl[n := bits];
            Passed(dl', leaves, merges, max, q - 1) &&
            Overflow(dl', leaves, merges, max, q - 1)
            == Overflow(dl, leaves, merges, max, q) + if dl[dl[n]] + 1 > max then 1 else 0
  {
    hide IsRun, Clip, NodeAt;
    var n := NodeAt(merges, q - 1);
    var dl' := dl[n := Clip(dl[leaves + (q - 1) / 2] + 1, max)];
    forall p | 0 <= p < 2 * |merges| && p != q - 1
      ensures NodeAt(merges, p) != n
    {
      if p < q - 1 {
        TakenOnce(used, leaves, merges, w, p, q - 1);
      } else {
        TakenOnce(used, leaves, merges, w, q - 1, p);
      }
    }
    OverflowSame(dl, dl', leaves, merges, max, q);
  }

  lemma PassStart(dl: seq<nat>, leaves: nat, merges: seq<Merge>, max: nat, used: seq<bool>, w: seq<nat>)
    requires IsTree(used, leaves, merges, w) && leaves + |merges| <= |dl|
    requires forall p :: 0 <= p < 2 * |merges| ==> dl[NodeAt(merges, p)] == leaves + p / 2
    ensures Passed(dl[leaves + |merges| - 1 := 0], leaves, merges, max, 2 * |merges|)
  {
    hide IsRun;
    forall p | 0 <= p < 2 * |merges|
      ensures NodeAt(merges, p) < leaves + p / 2
    {
      NodeAtFacts(used, leaves, merges, w, p);
    }
  }

  lemma PassEnd(dl: seq<nat>, leaves: nat, merges: seq<Merge>, max: nat)
    requires Passed(dl, leaves, merges, max, 0)
    ensures IsClippedDepth(leaves, merges, dl, max)
  {
    forall i | 0 <= i < |merges|
      ensures merges[i].a < leaves + i && merges[i].b < leaves + i
      ensures dl[merges[i].a] == Clip(dl[leaves + i] + 1, max) == dl[merges[i].b]
    {
      assert NodeAt(merges, 2 * i) == merges[i].a;
      assert NodeAt(merges, 2 * i + 1) == merges[i].b;
    }
  }

  lemma LeftStep(used: seq<bool>, leaves: nat, merges: seq<Merge>, w: seq<nat>, q: nat)
    requires IsRun(used, leaves, merges, w) && 0 < q <= 2 * |merges|
    ensures |used| == leaves
    ensures var n, left := NodeAt(merges, q - 1), Left(used, merges, q);
            if n < leaves then used[n] && !left[n] && Left(used, merges, q - 1) == left[n := true]
            else Left(used, merges, q - 1) == left
  {
    hide IsRun;
    RunSizes(used, leaves, merges, w);
    NodeAtFacts(used, leaves, merges, w, q - 1);
    LeftWasUsed(used, merges, q - 1);
    var n, left := NodeAt(merges, q - 1), Left(used, merges, q);
    if n < leaves {
      assert Left(used, merges, q - 1) == left[n := true];
    }
  }

  lemma {:induction false} LeftWasUsed(used: seq<bool>, merges: seq<Merge>, q: nat)
    requires q <= 2 * |merges|
    ensures forall x :: 0 <= x < |used| && Left(used, merges, q)[x] ==> used[x]
  {
    if q > 0 {
      LeftWasUsed(used, merges, q - 1);
    }
  }

  lemma LeftEnds(used: seq<bool>, leaves: nat, merges: seq<Merge>, w: seq<nat>)
    requires IsTree(used, leaves, merges, w)
    ensures |used| == leaves && Left(used, merges, 0) == used
    ensures forall x :: 0 <= x < leaves ==> !Left(used, merges, 2 * |merges|)[x]
  {
    NoneLeft(used, leaves, merges, w);
  }

  // ---- The statistics

  /** bl_count counts the symbols of each length, among those set. */
  ghost predicate Levels(blCount: seq<nat>, act: seq<bool>, dl: seq<nat>, n: nat)
    requires n <= |act| && n <= |dl|
  {
    |blCount| == MAXBITS + 1 && forall l :: 0 <= l <= MAXBITS ==> blCount[l] == AtLevel(act, dl, n, l)
  }

  lemma LevelOfOne(blCount: seq<nat>, act: seq<bool>, dl: seq<nat>, size: nat, n: nat, v: nat)
    requires size == |act| <= |dl| && n < size && !act[n] && v <= MAXBITS
    requires Levels(blCount, act, dl, size)
    ensures v < |blCount| && Levels(blCount[v := blCount[v] + 1], act[n := true], dl[n := v], size)
  {
    forall l | 0 <= l <= MAXBITS
      ensures AtLevel(act[n := true], dl[n := v], size, l) == AtLevel(act, dl, size, l) + if v == l then 1 else 0
    {
      AtLevelDrop(act[n := true], act, dl[n := v], n, size, l);
      AtLevelSame(act, act, dl, dl[n := v], size, l);
    }
  }

  lemma LevelOfNone(blCount: seq<nat>, act: seq<bool>, dl: seq<nat>, size: nat, n: nat, v: nat)
    requires size == |act| <= n < |dl| && Levels(blCount, act, dl, size)
    ensures Levels(blCount, act, dl[n := v], size)
  {
    forall l | 0 <= l <= MAXBITS
      ensures AtLevel(act, dl[n := v], size, l) == AtLevel(act, dl, size, l)
    {
      AtLevelSame(act, act, dl, dl[n := v], size, l);
    }
  }

  lemma LevelStart(blCount: seq<nat>, act: seq<bool>, dl: seq<nat>, n: nat)
    requires n == |act| <= |dl| && |blCount| == MAXBITS + 1
    requires forall x :: 0 <= x < n ==> !act[x]
    requires forall l :: 0 <= l <= MAXBITS ==> blCount[l] == 0
    ensures Levels(blCount, act, dl, n)
  {
    forall l | 0 <= l <= MAXBITS
      ensures AtLevel(act, dl, n, l) == 0
    {
      NoneAtLevel(act, dl, n, l);
    }
  }

  lemma {:induction false} NoneAtLevel(act: seq<bool>, dl: seq<nat>, n: nat, l: nat)
    requires n <= |act| && n <= |dl| && forall x :: 0 <= x < n ==> !act[x] || dl[x] != l
    ensures AtLevel(act, dl, n, l) == 0
  {
    if n > 0 {
      NoneAtLevel(act, dl, n - 1, l);
    }
  }

  /** What the symbols in act cost, when each is followed by extra bits. */
  function CostWithExtra(act: seq<bool>, w: seq<nat>, dl: seq<nat>, extra: seq<nat>): nat
    requires |act| <= |w| && |act| <= |dl| && |act| <= |extra|
  {
    Cost(act, w, dl, |act|) + Cost(act, w, extra, |act|)
  }

  function Times(f: nat, b: nat): nat {
    f * b
  }

  lemma CostOfOne(act: seq<bool>, w: seq<nat>, dl: seq<nat>, extra: seq<nat>, n: nat, v: nat)
    requires |act| <= |w| && |act| <= |dl| && |act| <= |extra| && n < |act| && !act[n]
    ensures CostWithExtra(act[n := true], w, dl[n := v], extra)
         == CostWithExtra(act, w, dl, extra) + Times(w[n], v + extra[n])
  {
    CostDrop(act[n := true], act, w, dl[n := v], n, |act|);
    CostSame(act, act, w, dl, dl[n := v], |act|);
    CostDrop(act[n := true], act, w, extra, n, |act|);
    assert w[n] * (v + extra[n]) == w[n] * v + w[n] * extra[n];
  }

  lemma CostOfNone(act: seq<bool>, w: seq<nat>, dl: seq<nat>, extra: seq<nat>, n: nat, v: nat)
    requires |act| <= |w| && |act| <= |dl| && |act| <= |extra| && |act| <= n < |dl|
    ensures CostWithExtra(act, w, dl[n := v], extra) == CostWithExtra(act, w, dl, extra)
  {
    CostSame(act, act, w, dl, dl[n := v], |act|);
  }

  lemma CostStart(act: seq<bool>, w: seq<nat>, dl: seq<nat>, extra: seq<nat>)
    requires |act| <= |w| && |act| <= |dl| && |act| <= |extra| && forall x :: 0 <= x < |act| ==> !act[x]
    ensures CostWithExtra(act, w, dl, extra) == 0
  {
    NoCost(act, w, dl, |act|);
    NoCost(act, w, extra, |act|);
  }

  /** What the loops below read and write is apart. */
  ghost predicate Apart(s: State, fc: array<nat>, dl: array<nat>) {
    fc != dl && s.heap != fc && s.heap != dl && s.depth != fc && s.depth != dl && s.blCount != fc && s.blCount != dl
  }

  lemma AreApart(s: State, fc: array<nat>, dl: array<nat>)
    requires Apart(s, fc, dl)
    ensures fc != dl && s.heap != fc && s.heap != dl && s.depth != fc && s.depth != dl && s.blCount != fc && s.blCount != dl
  {
  }

  lemma QueuedAt(h: seq<nat>, leaves: nat, merges: seq<Merge>, i: nat)
    requires Queued(h, leaves, merges) && HEAP_SIZE - 2 * |merges| <= i < HEAP_SIZE
    ensures h[i] == NodeAt(merges, HEAP_SIZE - 1 - i)
  {
    assert i == HEAP_SIZE - 1 - (HEAP_SIZE - 1 - i);
  }

  ghost predicate StaticCost(desc: StaticDesc, act: seq<bool>, w: seq<nat>, cost: int)
    requires ValidDesc(desc) && |act| == desc.elems <= |w|
  {
    cost == if desc.staticLens.Some? then CostWithExtra(act, w, desc.staticLens.value, AllExtraBits(desc)) else 0
  }

  /** Where the first pass stands when the nodes from the q-th on are done. */
  ghost predicate PassState(desc: StaticDesc, used: seq<bool>, merges: seq<Merge>, w: seq<nat>, d: seq<nat>,
                            bl: seq<nat>, q: nat, overflow: nat, opt: int, stat: int)
  {
    ValidDesc(desc) && IsTree(used, desc.elems, merges, w) && |used| == desc.elems <= |w| &&
    Passed(d, desc.elems, merges, desc.maxLength, q) &&
    overflow == Overflow(d, desc.elems, merges, desc.maxLength, q) &&
    Levels(bl, Left(used, merges, q), d, desc.elems) &&
    opt == CostWithExtra(Left(used, merges, q), w, d, AllExtraBits(desc)) &&
    StaticCost(desc, Left(used, merges, q), w, stat) &&
    forall x :: 0 <= x < desc.elems && !used[x] ==> d[x] == 0
  }

  lemma PassNode(desc: StaticDesc, used: seq<bool>, merges: seq<Merge>, w: seq<nat>, d: seq<nat>,
                 bl: seq<nat>, q: nat, overflow: nat, opt: int, stat: int)
    requires PassState(desc, used, merges, w, d, bl, q, overflow, opt, stat) && 0 < q
    ensures q <= 2 * |merges| && |used| == desc.elems
    ensures var n := NodeAt(merges, q - 1);
            n < |d| && n < |w| && d[n] < |d| && (n < desc.elems ==> used[n])
  {
    LeftStep(used, desc.elems, merges, w, q);
    PassStep(d, desc.elems, merges, desc.maxLength, q, used, w);
  }

  lemma PassLeaf(desc: StaticDesc, used: seq<bool>, merges: seq<Merge>, w: seq<nat>, d: seq<nat>,
                 bl: seq<nat>, q: nat, overflow: nat, opt: int, stat: int, n: nat, bits: nat)
    requires PassState(desc, used, merges, w, d, bl, q, overflow, opt, stat)
    requires 0 < q <= 2 * |merges| && n == NodeAt(merges, q - 1) && n < |d| && d[n] < |d| && n < desc.elems
    requires bits == Clip(d[d[n]] + 1, desc.maxLength)
    ensures n < |w| && bits < |bl| && n < |AllExtraBits(desc)|
    ensures var xbits := AllExtraBits(desc)[n];
            PassState(desc, used, merges, w, d[n := bits], bl[bits := bl[bits] + 1], q - 1,
                      overflow + if d[d[n]] + 1 > desc.maxLength then 1 else 0,
                      opt + Times(w[n], bits + xbits),
                      stat + if desc.staticLens.Some? then Times(w[n], desc.staticLens.value[n] + xbits) else 0)
  {
    hide IsTree, Left, CostWithExtra, Levels, Passed, Overflow, AllExtraBits, Clip, NodeAt, Pow2, StaticCost, Times;
    TreeIsRun(used, desc.elems, merges, w);
    var left := Left(used, merges, q);
    LeftStep(used, desc.elems, merges, w, q);
    PassStep(d, desc.elems, merges, desc.maxLength, q, used, w);
    ClipMeans(d[d[n]] + 1, desc.maxLength);
    LevelOfOne(bl, left, d, desc.elems, n, bits);
    CostOfOne(left, w, d, AllExtraBits(desc), n, bits);
    StaticOfOne(desc, left, w, stat, n);
  }

  lemma StaticOfOne(desc: StaticDesc, act: seq<bool>, w: seq<nat>, stat: int, n: nat)
    requires ValidDesc(desc) && |act| == desc.elems <= |w| && n < desc.elems && !act[n]
    requires StaticCost(desc, act, w, stat)
    ensures StaticCost(desc, act[n := true], w, stat +
              if desc.staticLens.Some? then Times(w[n], desc.staticLens.value[n] + AllExtraBits(desc)[n]) else 0)
  {
    if desc.staticLens.Some? {
      var st := desc.staticLens.value;
      CostOfOne(act, w, st, AllExtraBits(desc), n, st[n]);
      assert st[n := st[n]] == st;
    }
  }

  lemma TreeIsRun(used: seq<bool>, leaves: nat, merges: seq<Merge>, w: seq<nat>)
    requires IsTree(used, leaves, merges, w)
    ensures IsRun(used, leaves, merges, w) && IsGreedy(used, leaves, merges, w) && EndsInRoot(used, leaves, merges)
    ensures |used| == leaves && |w| == leaves + |merges| && 0 < |merges|
  {
  }

  lemma PassInner(desc: StaticDesc, used: seq<bool>, merges: seq<Merge>, w: seq<nat>, d: seq<nat>,
                  bl: seq<nat>, q: nat, overflow: nat, opt: int, stat: int, n: nat, bits: nat)
    requires PassState(desc, used, merges, w, d, bl, q, overflow, opt, stat)
    requires 0 < q <= 2 * |merges| && n == NodeAt(merges, q - 1) && n < |d| && d[n] < |d| && n >= desc.elems
    requires bits == Clip(d[d[n]] + 1, desc.maxLength)
    ensures PassState(desc, used, merges, w, d[n := bits], bl, q - 1,
                      overflow + if d[d[n]] + 1 > desc.maxLength then 1 else 0, opt, stat)
  {
    hide IsTree, Left, CostWithExtra, Levels, Passed, Overflow, AllExtraBits, Clip, NodeAt, Pow2;
    TreeIsRun(used, desc.elems, merges, w);
    var left := Left(used, merges, q);
    LeftStep(used, desc.elems, merges, w, q);
    PassStep(d, desc.elems, merges, desc.maxLength, q, used, w);
    LevelOfNone(bl, left, d, desc.elems, n, bits);
    CostOfNone(left, w, d, AllExtraBits(desc), n, bits);
  }

  lemma PassBegins(desc: StaticDesc, used: seq<bool>, merges: seq<Merge>, w: seq<nat>, d: seq<nat>, bl: seq<nat>)
    requires ValidDesc(desc) && IsTree(used, desc.elems, merges, w) && desc.elems + |merges| <= |d|
    requires forall p :: 0 <= p < 2 * |merges| ==> d[NodeAt(merges, p)] == desc.elems + p / 2
    requires forall x :: 0 <= x < desc.elems && !used[x] ==> d[x] == 0
    requires |bl| == MAXBITS + 1 && forall l :: 0 <= l <= MAXBITS ==> bl[l] == 0
    ensures 0 < |merges|
    ensures PassState(desc, used, merges, w, d[desc.elems + |merges| - 1 := 0], bl, 2 * |merges|, 0, 0, 0)
  {
    hide IsTree, Left, CostWithExtra, Levels, Passed;
    TreeIsRun(used, desc.elems, merges, w);
    var left := Left(used, merges, 2 * |merges|);
    var d' := d[desc.elems + |merges| - 1 := 0];
    LeftEnds(used, desc.elems, merges, w);
    PassStart(d, desc.elems, merges, desc.maxLength, used, w);
    LevelStart(bl, left, d', desc.elems);
    CostStart(left, w, d', AllExtraBits(desc));
    if desc.staticLens.Some? {
      CostStart(left, w, desc.staticLens.value, AllExtraBits(desc));
    }
  }

  /** What the first pass leaves behind. */
  ghost predicate FirstPassDone(desc: StaticDesc, used: seq<bool>, merges: seq<Merge>, w: seq<nat>, d: seq<nat>,
                                bl: seq<nat>, overflow: nat, opt: int, stat: int)
  {
    ValidDesc(desc) && IsTree(used, desc.elems, merges, w) && |used| == desc.elems <= |w| &&
    IsClippedDepth(desc.elems, merges, d, desc.maxLength) &&
    overflow == 2 * Cut(desc.elems, merges, d, desc.maxLength, 0) &&
    Levels(bl, used, d, desc.elems) &&
    opt == CostWithExtra(used, w, d, AllExtraBits(desc)) &&
    StaticCost(desc, used, w, stat) &&
    forall x :: 0 <= x < desc.elems && !used[x] ==> d[x] == 0
  }

  lemma PassEnds(desc: StaticDesc, used: seq<bool>, merges: seq<Merge>, w: seq<nat>, d: seq<nat>,
                 bl: seq<nat>, overflow: nat, opt: int, stat: int)
    requires PassState(desc, used, merges, w, d, bl, 0, overflow, opt, stat)
    ensures FirstPassDone(desc, used, merges, w, d, bl, overflow, opt, stat)
  {
    hide IsTree, CostWithExtra, Levels;
    LeftEnds(used, desc.elems, merges, w);
    PassEnd(d, desc.elems, merges, desc.maxLength);
    OverflowIsTwiceCut(d, desc.elems, merges, desc.maxLength, 0);
  }

  /** gen_bitlen, first pass. */
  method FirstPass(s: State, desc: StaticDesc, fc: array<nat>, dl: array<nat>, maxCode: nat,
                   ghost used: seq<bool>, ghost merges: seq<Merge>, ghost w: seq<nat>) returns (overflow: nat)
    requires s.Valid() && ValidDesc(desc) && Apart(s, fc, dl) && maxCode < desc.elems
    requires IsTree(used, desc.elems, merges, w) && Queued(s.heap[..], desc.elems, merges)
    requires |w| <= fc.Length && |w| <= dl.Length && forall x :: 0 <= x < |w| ==> fc[x] == w[x]
    requires |used| == desc.elems && forall x :: 0 <= x < desc.elems && used[x] ==> x <= maxCode
    requires forall x :: 0 <= x < desc.elems && !used[x] ==> dl[x] == 0
    requires forall p :: 0 <= p < 2 * |merges| ==> NodeAt(merges, p) < dl.Length && dl[NodeAt(merges, p)] == desc.elems + p / 2
    requires s.heapMax == HEAP_SIZE - 1 - 2 * |merges|
    modifies s`optLen, s`staticLen, s.blCount, dl
    ensures FirstPassDone(desc, used, merges, w, dl[..], s.blCount[..], overflow,
                          s.optLen - old(s.optLen), s.staticLen - old(s.staticLen))
  {
    hide *;
    TreeIsRun(used, desc.elems, merges, w);
    StateSizes(s);
    AreApart(s, fc, dl);
    for bits := 0 to MAXBITS + 1
      modifies s.blCount
      invariant forall l :: 0 <= l < bits ==> s.blCount[l] == 0
    {
      s.blCount[bits] := 0;
    }
    QueuedRoot(s.heap[..], desc.elems, merges);
    PassBegins(desc, used, merges, w, dl[..], s.blCount[..]);
    ghost var d := dl[..][desc.elems + |merges| - 1 := 0];
    ghost var bl := s.blCount[..];
    dl[s.heap[s.heapMax]] := 0;
    overflow := 0;
    for h := s.heapMax + 1 to HEAP_SIZE
      invariant d == dl[..] && bl == s.blCount[..]
      invariant PassState(desc, used, merges, w, d, bl, HEAP_SIZE - h, overflow,
                          s.optLen - old(s.optLen), s.staticLen - old(s.staticLen))
    {
      ghost var q: nat := HEAP_SIZE - h;
      ghost var opt, stat := s.optLen - old(s.optLen), s.staticLen - old(s.staticLen);
      PassNode(desc, used, merges, w, d, bl, q, overflow, opt, stat);
      QueuedAt(s.heap[..], desc.elems, merges, h);
      var n := s.heap[h];
      var bits := dl[dl[n]] + 1;
      ghost var cut := Clip(bits, desc.maxLength);
      ClipMeans(bits, desc.maxLength);
      if n <= maxCode {
        PassLeaf(desc, used, merges, w, d, bl, q, overflow, opt, stat, n, cut);
        ExtraAt(desc, n);
        TimesAt(desc, w[n], cut, n);
        bl := bl[cut := bl[cut] + 1];
      } else {
        PassInner(desc, used, merges, w, d, bl, q, overflow, opt, stat, n, cut);
      }
      d := d[n := cut];
      if bits > desc.maxLength {
        bits, overflow := desc.maxLength, overflow + 1;
      }
      dl[n] := bits;
      if n > maxCode {
        continue;
      }
      s.blCount[bits] := s.blCount[bits] + 1;
      var xbits := 0;
      if n >= desc.base {
        xbits := desc.extra[n - desc.base];
      }
      var f := fc[n];
      s.optLen := s.optLen + f * (bits + xbits);
      if desc.staticLens.Some? {
        s.staticLen := s.staticLen + f * (desc.staticLens.value[n] + xbits);
      }
    }
    PassEnds(desc, used, merges, w, d, bl, overflow, s.optLen - old(s.optLen), s.staticLen - old(s.staticLen));
  }

  lemma QueuedRoot(h: seq<nat>, leaves: nat, merges: seq<Merge>)
    requires Queued(h, leaves, merges)
    ensures |h| == HEAP_SIZE && 0 < 2 * |merges| < HEAP_SIZE
    ensures h[HEAP_SIZE - 1 - 2 * |merges|] == leaves + |merges| - 1
  {
  }

  lemma ClipMeans(x: nat, max: nat)
    ensures Clip(x, max) == if x > max then max else x
  {
  }

  lemma TimesAt(desc: StaticDesc, f: nat, bits: nat, n: nat)
    requires ValidDesc(desc) && n < |AllExtraBits(desc)|
    ensures Times(f, bits + AllExtraBits(desc)[n]) == f * (bits + AllExtraBits(desc)[n])
    ensures desc.staticLens.Some? ==> n < |desc.staticLens.value|
    ensures desc.staticLens.Some? ==>
              Times(f, desc.staticLens.value[n] + AllExtraBits(desc)[n])
              == f * (desc.staticLens.value[n] + AllExtraBits(desc)[n])
  {
  }

  lemma ExtraAt(desc: StaticDesc, n: nat)
    requires ValidDesc(desc) && n < desc.elems
    ensures n < |AllExtraBits(desc)| && (n >= desc.base ==> n - desc.base < |desc.extra|)
    ensures AllExtraBits(desc)[n] == if n >= desc.base then desc.extra[n - desc.base] else 0
    ensures desc.staticLens.Some? ==> n < |desc.staticLens.value|
  {
  }
}
