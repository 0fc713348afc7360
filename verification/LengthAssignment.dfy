/** gen_bitlen of trees.c as a whole: complete, length-limited code lengths in which a
    rarer symbol never has the shorter word, and optimal ones unless the limit interferes. */
module LengthAssignment {
  import opened Machine
  import opened BitStrings
  import opened Canonical
  import opened HuffmanTheory
  import opened MergeOrder
  import opened BitLengths
  import opened LengthRepair

  function Size(act: seq<bool>, n: nat): nat
    requires n <= |act|
  {
    if n == 0 then 0 else Size(act, n - 1) + if act[n - 1] then 1 else 0
  }

  lemma {:induction false} SizeBound(act: seq<bool>, n: nat)
    requires n <= |act|
    ensures Size(act, n) <= n
  {
    if n > 0 {
      SizeBound(act, n - 1);
    }
  }

  ghost predicate Within(act: seq<bool>, d: seq<nat>, n: nat, max: nat)
    requires n <= |act| && n <= |d|
  {
    forall x :: 0 <= x < n && act[x] ==> 1 <= d[x] <= max
  }

  function Counts(act: seq<bool>, d: seq<nat>, n: nat): (r: seq<nat>)
    requires n <= |act| && n <= |d|
    ensures |r| == MAXBITS + 1
  {
    seq(MAXBITS + 1, l requires 0 <= l => AtLevel(act, d, n, l))
  }

  lemma {:induction false} EmptyRoom(bl: seq<nat>, l: nat)
    requires l < |bl| && forall i :: 0 <= i < |bl| ==> bl[i] == 0
    ensures Room(bl, l) == 0 && Total(bl, l) == 0
  {
    if l > 0 {
      EmptyRoom(bl, l - 1);
    }
  }

  /** Counting by length and counting by symbol agree. */
  lemma {:induction false} CountsAgree(act: seq<bool>, d: seq<nat>, n: nat, max: nat)
    requires n <= |act| && n <= |d| && max <= MAXBITS && Within(act, d, n, max)
    ensures Room(Counts(act, d, n), max) == Space(act, d, n, max)
    ensures Total(Counts(act, d, n), max) == Size(act, n)
  {
    var bl := Counts(act, d, n);
    if n == 0 {
      EmptyRoom(bl, max);
    } else {
      CountsAgree(act, d, n - 1, max);
      var bl0 := Counts(act, d, n - 1);
      if act[n - 1] {
        RoomPlus(bl0, d[n - 1], max);
        assert bl == bl0[d[n - 1] := bl0[d[n - 1]] + 1];
      } else {
        assert bl == bl0;
      }
    }
  }

  lemma LevelsAreCounts(bl: seq<nat>, act: seq<bool>, d: seq<nat>, n: nat)
    requires n <= |act| && n <= |d| && Levels(bl, act, d, n)
    ensures bl == Counts(act, d, n)
  {
  }

  /** Every leaf got a length in 1..max. */
  lemma DepthsWithin(used: seq<bool>, leaves: nat, merges: seq<Merge>, w: seq<nat>, d: seq<nat>, max: nat)
    requires IsTree(used, leaves, merges, w) && IsClippedDepth(leaves, merges, d, max) && 0 < max
    ensures |used| == leaves <= |d| && Within(used, d, leaves, max)
  {
    hide IsTree, IsClippedDepth, EndsInRoot, IsRun, IsGreedy, Active;
    TreeIsRun(used, leaves, merges, w);
    Sizes(leaves, merges, d, max, used, w);
    DepthsBounded(leaves, merges, d, max, used, w, 0);
    AllActive(used, leaves, merges);
    LeftEnds(used, leaves, merges, w);
    forall x | 0 <= x < leaves && used[x]
      ensures 1 <= d[x] <= max
    {
      var q := TakenAt(used, merges, 2 * |merges|, x);
      ClippedAt(leaves, merges, d, max, q / 2);
    }
  }

  lemma RepairBegins(desc: StaticDesc, used: seq<bool>, merges: seq<Merge>, w: seq<nat>, d: seq<nat>,
                     bl: seq<nat>, overflow: nat, opt: int, stat: int)
    requires FirstPassDone(desc, used, merges, w, d, bl, overflow, opt, stat)
    ensures |used| == desc.elems <= |d| && desc.maxLength <= MAXBITS && Within(used, d, desc.elems, desc.maxLength)
    ensures Repairing(bl, desc.maxLength, Size(used, desc.elems), overflow)
    ensures Space(used, d, desc.elems, desc.maxLength) == Pow2(desc.maxLength) + overflow / 2
  {
    hide IsTree, IsClippedDepth, Levels, Space, Room, Total, Size, Cut, Active, AtLevel, StaticCost, CostWithExtra;
    var n, max := desc.elems, desc.maxLength;
    TreeIsRun(used, n, merges, w);
    Sizes(n, merges, d, max, used, w);
    DepthsWithin(used, n, merges, w, d, max);
    ClippedSpace(n, merges, d, max, used, w, 0);
    EnoughAtMax(n, merges, d, max, used, w, 0);
    AllActive(used, n, merges);
    LevelsAreCounts(bl, used, d, n);
    CountsAgree(used, d, n, max);
    SizeBound(used, n);
    CountsAt(used, d, n, max);
    NoneAtZero(used, d, n, max);
  }

  lemma CountsAt(act: seq<bool>, d: seq<nat>, n: nat, l: nat)
    requires n <= |act| && n <= |d| && l <= MAXBITS
    ensures Counts(act, d, n)[l] == AtLevel(act, d, n, l)
  {
  }

  lemma NoneAtZero(act: seq<bool>, d: seq<nat>, n: nat, max: nat)
    requires n <= |act| && n <= |d| && Within(act, d, n, max)
    ensures Counts(act, d, n)[0] == 0 && forall l :: max < l <= MAXBITS ==> Counts(act, d, n)[l] == 0
  {
    NoneAtLevel(act, d, n, 0);
    forall l | max < l <= MAXBITS
      ensures Counts(act, d, n)[l] == 0
    {
      NoneAtLevel(act, d, n, l);
    }
  }

  // ---- Handing out the repaired lengths, longest first, in order of frequency

  /** The leaves among the first p nodes taken. */
  function Done(used: seq<bool>, merges: seq<Merge>, p: nat): (r: seq<bool>)
    requires p <= 2 * |merges|
    ensures |r| == |used|
  {
    var left := Left(used, merges, p);
    seq(|used|, x requires 0 <= x < |used| => used[x] && !left[x])
  }

  lemma DoneStep(used: seq<bool>, leaves: nat, merges: seq<Merge>, w: seq<nat>, p: nat)
    requires IsRun(used, leaves, merges, w) && p < 2 * |merges|
    ensures |used| == leaves
    ensures var n, done := NodeAt(merges, p), Done(used, merges, p);
            if n < leaves then used[n] && !done[n] && Done(used, merges, p + 1) == done[n := true]
            else Done(used, merges, p + 1) == done
  {
    hide IsRun;
    LeftStep(used, leaves, merges, w, p + 1);
    var n, done := NodeAt(merges, p), Done(used, merges, p);
    if n < leaves {
      assert Done(used, merges, p + 1) == done[n := true];
    } else {
      assert Done(used, merges, p + 1) == done;
    }
  }

  lemma DoneEnds(used: seq<bool>, leaves: nat, merges: seq<Merge>, w: seq<nat>)
    requires IsTree(used, leaves, merges, w)
    ensures |used| == leaves && Done(used, merges, 2 * |merges|) == used
    ensures forall x :: 0 <= x < leaves ==> !Done(used, merges, 0)[x]
  {
    LeftEnds(used, leaves, merges, w);
  }

  lemma DoneIsUsed(used: seq<bool>, merges: seq<Merge>, p: nat)
    requires p <= 2 * |merges|
    ensures forall x :: 0 <= x < |used| && Done(used, merges, p)[x] ==> used[x]
  {
  }

  lemma {:induction false} FewerDone(done: seq<bool>, used: seq<bool>, n: nat)
    requires n <= |done| == |used| && forall x :: 0 <= x < n && done[x] ==> used[x]
    ensures Size(done, n) <= Size(used, n)
    ensures Size(done, n) == Size(used, n) ==> forall x :: 0 <= x < n ==> done[x] == used[x]
  {
    if n > 0 {
      FewerDone(done, used, n - 1);
    }
  }

  lemma {:induction false} FewerTotal(cur: seq<nat>, bl: seq<nat>, l: nat)
    requires l < |cur| == |bl| && forall i :: 0 <= i <= l ==> cur[i] <= bl[i]
    ensures Total(cur, l) <= Total(bl, l)
    ensures Total(cur, l) == Total(bl, l) <==> forall i :: 0 <= i <= l ==> cur[i] == bl[i]
  {
    if l > 0 {
      FewerTotal(cur, bl, l - 1);
    }
  }

  /** Lengths never grow along the queue. */
  ghost predicate InOrder(d: seq<nat>, merges: seq<Merge>, leaves: nat, p: nat, bits: nat) {
    leaves <= |d| && p <= 2 * |merges| &&
    (forall i, j :: 0 <= i <= j < p && NodeAt(merges, i) < leaves && NodeAt(merges, j) < leaves ==>
       d[NodeAt(merges, i)] >= d[NodeAt(merges, j)]) &&
    forall i :: 0 <= i < p && NodeAt(merges, i) < leaves ==> d[NodeAt(merges, i)] >= bits
  }

  ghost predicate HandedOut(cur: seq<nat>, bl: seq<nat>, max: nat, bits: nat, n: nat) {
    |cur| == |bl| == MAXBITS + 1 && bits <= max <= MAXBITS &&
    (forall l :: bits < l <= max ==> cur[l] == bl[l]) &&
    (forall l :: 0 <= l < bits ==> cur[l] == 0) &&
    cur[bits] + n == bl[bits]
  }

  ghost predicate Assigning(desc: StaticDesc, used: seq<bool>, merges: seq<Merge>, w: seq<nat>, d: seq<nat>,
                            bl: seq<nat>, p: nat, bits: nat, n: nat)
  {
    ValidDesc(desc) && IsTree(used, desc.elems, merges, w) && |used| == desc.elems <= |w| &&
    p <= 2 * |merges| && desc.elems + |merges| <= |d| &&
    Repairing(bl, desc.maxLength, Size(used, desc.elems), 0) &&
    HandedOut(Counts(Done(used, merges, p), d, desc.elems), bl, desc.maxLength, bits, n) &&
    InOrder(d, merges, desc.elems, p, bits) &&
    Within(used, d, desc.elems, desc.maxLength) &&
    forall x :: 0 <= x < desc.elems && !used[x] ==> d[x] == 0
  }

  lemma AssignBegins(desc: StaticDesc, used: seq<bool>, merges: seq<Merge>, w: seq<nat>, d: seq<nat>, bl: seq<nat>)
    requires ValidDesc(desc) && IsTree(used, desc.elems, merges, w) && |used| == desc.elems <= |w|
    requires desc.elems + |merges| <= |d| && Repairing(bl, desc.maxLength, Size(used, desc.elems), 0)
    requires Within(used, d, desc.elems, desc.maxLength)
    requires forall x :: 0 <= x < desc.elems && !used[x] ==> d[x] == 0
    ensures desc.maxLength < |bl|
    ensures Assigning(desc, used, merges, w, d, bl, 0, desc.maxLength, bl[desc.maxLength])
  {
    hide IsTree, AtLevel, Left, Room, Total, Size, Pow2;
    DoneEnds(used, desc.elems, merges, w);
    forall l | 0 <= l <= MAXBITS
      ensures Counts(Done(used, merges, 0), d, desc.elems)[l] == 0
    {
      NoneAtLevel(Done(used, merges, 0), d, desc.elems, l);
    }
  }

  lemma WithinDone(used: seq<bool>, merges: seq<Merge>, d: seq<nat>, n: nat, max: nat, p: nat)
    requires n == |used| <= |d| && p <= 2 * |merges| && Within(used, d, n, max)
    ensures Within(Done(used, merges, p), d, n, max)
  {
  }

  lemma HandedOutLess(cur: seq<nat>, bl: seq<nat>, max: nat, bits: nat, n: nat)
    requires HandedOut(cur, bl, max, bits, n)
    ensures n > 0 ==> Total(cur, max) < Total(bl, max)
    ensures n == 0 && (bits == 0 || (bits == 1 && bl[0] == 0)) ==>
              Total(cur, max) == Total(bl, max) && forall l :: 0 <= l <= max ==> cur[l] == bl[l]
  {
    FewerTotal(cur, bl, max);
  }

  /** As long as some length is left to hand out, some leaf is left to take it. */
  lemma MoreToTake(desc: StaticDesc, used: seq<bool>, merges: seq<Merge>, w: seq<nat>, d: seq<nat>,
                   bl: seq<nat>, p: nat, bits: nat, n: nat)
    requires Assigning(desc, used, merges, w, d, bl, p, bits, n) && n > 0
    ensures p < 2 * |merges|
  {
    hide IsTree, HandedOut, Within, Counts, Room, Total, Size, Left, InOrder, Space;
    var done := Done(used, merges, p);
    WithinDone(used, merges, d, desc.elems, desc.maxLength, p);
    CountsAgree(done, d, desc.elems, desc.maxLength);
    HandedOutLess(Counts(done, d, desc.elems), bl, desc.maxLength, bits, n);
    DoneEnds(used, desc.elems, merges, w);
  }

  lemma AssignNode(desc: StaticDesc, used: seq<bool>, merges: seq<Merge>, w: seq<nat>, d: seq<nat>,
                   bl: seq<nat>, p: nat, bits: nat, n: nat)
    requires Assigning(desc, used, merges, w, d, bl, p, bits, n) && p < 2 * |merges|
    ensures |used| == desc.elems && NodeAt(merges, p) < |d| && NodeAt(merges, p) < |w|
    ensures NodeAt(merges, p) < desc.elems ==> used[NodeAt(merges, p)]
  {
    hide IsRun, IsGreedy, EndsInRoot;
    NodeAtFacts(used, desc.elems, merges, w, p);
    DoneStep(used, desc.elems, merges, w, p);
  }

  lemma InOrderNext(d: seq<nat>, merges: seq<Merge>, leaves: nat, p: nat, bits: nat, used: seq<bool>, w: seq<nat>)
    requires InOrder(d, merges, leaves, p, bits) && p < 2 * |merges| && IsRun(used, leaves, merges, w)
    ensures NodeAt(merges, p) >= leaves ==> InOrder(d, merges, leaves, p + 1, bits)
    ensures NodeAt(merges, p) < leaves ==> InOrder(d[NodeAt(merges, p) := bits], merges, leaves, p + 1, bits)
  {
    hide IsRun, NodeAt;
    forall i | 0 <= i < p
      ensures NodeAt(merges, i) != NodeAt(merges, p)
    {
      TakenOnce(used, leaves, merges, w, i, p);
    }
  }

  lemma AssignInner(desc: StaticDesc, used: seq<bool>, merges: seq<Merge>, w: seq<nat>, d: seq<nat>,
                    bl: seq<nat>, p: nat, bits: nat, n: nat)
    requires Assigning(desc, used, merges, w, d, bl, p, bits, n) && p < 2 * |merges|
    requires NodeAt(merges, p) >= desc.elems
    ensures Assigning(desc, used, merges, w, d, bl, p + 1, bits, n)
  {
    hide IsTree, HandedOut, Within, Counts, Repairing, Left, InOrder, NodeAt;
    TreeIsRun(used, desc.elems, merges, w);
    DoneStep(used, desc.elems, merges, w, p);
    InOrderNext(d, merges, desc.elems, p, bits, used, w);
  }

  lemma OneMoreCounted(act: seq<bool>, d: seq<nat>, size: nat, x: nat, v: nat)
    requires size == |act| <= |d| && x < size && !act[x] && v <= MAXBITS
    ensures Counts(act[x := true], d[x := v], size)
         == Counts(act, d, size)[v := Counts(act, d, size)[v] + 1]
  {
    var cur := Counts(act, d, size);
    assert Levels(cur, act, d, size);
    LevelOfOne(cur, act, d, size, x, v);
    LevelsAreCounts(cur[v := cur[v] + 1], act[x := true], d[x := v], size);
  }

  lemma OneMoreOut(cur: seq<nat>, bl: seq<nat>, max: nat, bits: nat, n: nat)
    requires HandedOut(cur, bl, max, bits, n) && n > 0
    ensures bits < |cur| && HandedOut(cur[bits := cur[bits] + 1], bl, max, bits, n - 1)
  {
  }

  lemma AssignLeaf(desc: StaticDesc, used: seq<bool>, merges: seq<Merge>, w: seq<nat>, d: seq<nat>,
                   bl: seq<nat>, p: nat, bits: nat, n: nat, x: nat)
    requires Assigning(desc, used, merges, w, d, bl, p, bits, n) && p < 2 * |merges| && n > 0
    requires x == NodeAt(merges, p) < desc.elems && x < |d| && 1 <= bits <= desc.maxLength
    ensures Assigning(desc, used, merges, w, d[x := bits], bl, p + 1, bits, n - 1)
  {
    hide IsTree, HandedOut, Counts, Repairing, Left, InOrder, NodeAt, Pow2, Done;
    TreeIsRun(used, desc.elems, merges, w);
    DoneStep(used, desc.elems, merges, w, p);
    InOrderNext(d, merges, desc.elems, p, bits, used, w);
    var done := Done(used, merges, p);
    OneMoreOut(Counts(done, d, desc.elems), bl, desc.maxLength, bits, n);
    OneMoreCounted(done, d, desc.elems, x, bits);
  }

  lemma AssignNext(desc: StaticDesc, used: seq<bool>, merges: seq<Merge>, w: seq<nat>, d: seq<nat>,
                   bl: seq<nat>, p: nat, bits: nat)
    requires Assigning(desc, used, merges, w, d, bl, p, bits, 0) && 1 <= bits
    ensures bits <= |bl| && Assigning(desc, used, merges, w, d, bl, p, bits - 1, bl[bits - 1])
  {
    hide IsTree, Counts, Repairing, Left, Done, NodeAt, Within, Pow2;
  }

  /** What gen_bitlen promises about the lengths d. */
  ghost predicate GoodLengths(desc: StaticDesc, used: seq<bool>, w: seq<nat>, d: seq<nat>, bl: seq<nat>) {
    ValidDesc(desc) && |used| == desc.elems <= |w| && desc.elems <= |d| &&
    Within(used, d, desc.elems, desc.maxLength) &&
    (forall x :: 0 <= x < desc.elems && !used[x] ==> d[x] == 0) &&
    Space(used, d, desc.elems, desc.maxLength) == Pow2(desc.maxLength) &&
    Levels(bl, used, d, desc.elems) &&
    forall x, y :: 0 <= x < desc.elems && 0 <= y < desc.elems && used[x] && used[y] && w[x] < w[y] ==> d[x] >= d[y]
  }

  lemma AllDone(desc: StaticDesc, used: seq<bool>, merges: seq<Merge>, w: seq<nat>, d: seq<nat>, bl: seq<nat>, p: nat)
    requires Assigning(desc, used, merges, w, d, bl, p, 0, 0)
    ensures Done(used, merges, p) == used && bl == Counts(used, d, desc.elems)
  {
    hide IsTree, HandedOut, Within, Room, Total, Size, Left, InOrder, Space, AtLevel, Done;
    var n, max := desc.elems, desc.maxLength;
    var done := Done(used, merges, p);
    WithinDone(used, merges, d, n, max, p);
    CountsAgree(done, d, n, max);
    HandedOutLess(Counts(done, d, n), bl, max, 0, 0);
    DoneIsUsed(used, merges, p);
    FewerDone(done, used, n);
    assert done == used;
    NoneAtZero(used, d, n, max);
  }

  lemma OrderOf(desc: StaticDesc, used: seq<bool>, merges: seq<Merge>, w: seq<nat>, d: seq<nat>, p: nat, x: nat, y: nat)
    requires IsTree(used, desc.elems, merges, w) && |used| == desc.elems <= |w| && InOrder(d, merges, desc.elems, p, 0)
    requires p <= 2 * |merges| && Done(used, merges, p) == used
    requires x < desc.elems && y < desc.elems && used[x] && used[y] && w[x] < w[y]
    ensures d[x] >= d[y]
  {
    hide IsTree, Left, NodeAt;
    TreeIsRun(used, desc.elems, merges, w);
    assert Done(used, merges, p)[x] && Done(used, merges, p)[y];
    var i := TakenAt(used, merges, p, x);
    var j := TakenAt(used, merges, p, y);
    if j <= i {
      LaterIsHeavier(used, desc.elems, merges, w, j, i);
    }
  }

  lemma AssignEnds(desc: StaticDesc, used: seq<bool>, merges: seq<Merge>, w: seq<nat>, d: seq<nat>, bl: seq<nat>, p: nat)
    requires Assigning(desc, used, merges, w, d, bl, p, 0, 0)
    ensures GoodLengths(desc, used, w, d, bl)
  {
    hide IsTree, HandedOut, Within, Room, Total, Left, InOrder, Space, AtLevel, Done, NodeAt, Size;
    var n, max := desc.elems, desc.maxLength;
    AllDone(desc, used, merges, w, d, bl, p);
    CountsAgree(used, d, n, max);
    forall x, y | 0 <= x < n && 0 <= y < n && used[x] && used[y] && w[x] < w[y]
      ensures d[x] >= d[y]
    {
      OrderOf(desc, used, merges, w, d, p, x, y);
    }
  }

  /** With no overflow the depths are the lengths. */
  lemma NoRepair(desc: StaticDesc, used: seq<bool>, merges: seq<Merge>, w: seq<nat>, d: seq<nat>,
                 bl: seq<nat>, opt: int, stat: int)
    requires FirstPassDone(desc, used, merges, w, d, bl, 0, opt, stat)
    ensures GoodLengths(desc, used, w, d, bl)
    ensures forall len, l :: |len| == desc.elems && IsCode(used, len, l) ==>
              Cost(used, w, d, desc.elems) <= Cost(used, w, len, desc.elems)
  {
    hide IsRun, IsGreedy, EndsInRoot, IsClippedDepth, Levels, Cut, Cost, Space, StaticCost, CostWithExtra, Size, Room, Total;
    var n, max := desc.elems, desc.maxLength;
    RepairBegins(desc, used, merges, w, d, bl, 0, opt, stat);
    forall x, y | 0 <= x < n && 0 <= y < n && used[x] && used[y] && w[x] < w[y]
      ensures d[x] >= d[y]
    {
      RarerIsDeeper(used, n, merges, w, d, max, x, y);
    }
    forall len, l | |len| == n && IsCode(used, len, l)
      ensures Cost(used, w, d, n) <= Cost(used, w, len, n)
    {
      Optimal(used, n, merges, w, d, max, len, l);
    }
  }

  lemma Recost(act: seq<bool>, w: seq<nat>, d: seq<nat>, extra: seq<nat>, x: nat, v: nat)
    requires |act| <= |w| && |act| <= |d| && |act| <= |extra| && x < |act| && act[x]
    ensures CostWithExtra(act, w, d[x := v], extra) == CostWithExtra(act, w, d, extra) + (v - d[x]) * w[x]
  {
    CostChange(act, w, d, d[x := v], x, |act|);
    assert (v - d[x]) * w[x] == w[x] * v - w[x] * d[x];
  }

  lemma AssignFacts(desc: StaticDesc, used: seq<bool>, merges: seq<Merge>, w: seq<nat>, d: seq<nat>,
                    bl: seq<nat>, p: nat, bits: nat, n: nat)
    requires Assigning(desc, used, merges, w, d, bl, p, bits, n)
    ensures |bl| == MAXBITS + 1 && bits <= MAXBITS && |used| == desc.elems <= |w| && desc.elems <= |d|
    ensures bits <= desc.maxLength && p <= 2 * |merges|
  {
    hide IsTree, Counts, Left, Done, NodeAt, Within, InOrder, Pow2;
  }

  lemma DescFacts(desc: StaticDesc)
    requires ValidDesc(desc)
    ensures 2 <= desc.maxLength <= MAXBITS && desc.elems <= |desc.extra| + desc.base && 3 <= desc.elems
    ensures 2 * desc.elems < HEAP_SIZE
  {
    hide Pow2;
  }

  /** gen_bitlen, handing out the repaired lengths. */
  method Reassign(s: State, desc: StaticDesc, fc: array<nat>, dl: array<nat>, maxCode: nat,
                  ghost used: seq<bool>, ghost merges: seq<Merge>, ghost w: seq<nat>)
    requires s.Valid() && Apart(s, fc, dl) && maxCode < desc.elems && ValidDesc(desc)
    requires Queued(s.heap[..], desc.elems, merges)
    requires |w| <= fc.Length && |w| <= dl.Length && forall x :: 0 <= x < |w| ==> fc[x] == w[x]
    requires |used| == desc.elems <= |w| && forall x :: 0 <= x < desc.elems && used[x] ==> x <= maxCode
    requires desc.maxLength <= MAXBITS && |s.blCount[..]| == MAXBITS + 1
    requires Assigning(desc, used, merges, w, dl[..], s.blCount[..], 0, desc.maxLength, s.blCount[desc.maxLength])
    modifies s`optLen, dl
    ensures GoodLengths(desc, used, w, dl[..], s.blCount[..])
    ensures s.optLen - CostWithExtra(used, w, dl[..], AllExtraBits(desc))
         == old(s.optLen) - old(CostWithExtra(used, w, dl[..], AllExtraBits(desc)))
  {
    hide *;
    DescFacts(desc);
    StateSizes(s);
    AreApart(s, fc, dl);
    ghost var bl := s.blCount[..];
    ghost var d := dl[..];
    ghost var base := s.optLen - CostWithExtra(used, w, d, AllExtraBits(desc));
    var h := HEAP_SIZE;
    var bits := desc.maxLength;
    ghost var p: nat := 0;
    while bits != 0
      invariant 0 <= bits <= desc.maxLength && p == HEAP_SIZE - h && d == dl[..] && bits < |bl|
      invariant Assigning(desc, used, merges, w, d, bl, p, bits, if bits == 0 then 0 else bl[bits])
      invariant s.optLen == base + CostWithExtra(used, w, d, AllExtraBits(desc))
      decreases bits
    {
      var n: nat := s.blCount[bits];
      while n != 0
        invariant p == HEAP_SIZE - h && d == dl[..]
        invariant Assigning(desc, used, merges, w, d, bl, p, bits, n)
        invariant s.optLen == base + CostWithExtra(used, w, d, AllExtraBits(desc))
        decreases 2 * |merges| - p
      {
        MoreToTake(desc, used, merges, w, d, bl, p, bits, n);
        AssignNode(desc, used, merges, w, d, bl, p, bits, n);
        h := h - 1;
        QueuedRoot(s.heap[..], desc.elems, merges);
        QueuedAt(s.heap[..], desc.elems, merges, h);
        var m := s.heap[h];
        if m > maxCode {
          AssignInner(desc, used, merges, w, d, bl, p, bits, n);
          p := p + 1;
          continue;
        }
        AssignLeaf(desc, used, merges, w, d, bl, p, bits, n, m);
        Recost(used, w, d, AllExtraBits(desc), m, bits);
        Unchanged(used, w, d, AllExtraBits(desc), m, bits);
        if dl[m] != bits {
          s.optLen := s.optLen + (bits - dl[m]) * fc[m];
          dl[m] := bits;
        }
        d := d[m := bits];
        n, p := n - 1, p + 1;
      }
      AssignFacts(desc, used, merges, w, d, bl, p, bits, 0);
      AssignNext(desc, used, merges, w, d, bl, p, bits);
      AssignLast(desc, used, merges, w, d, bl, p, bits);
      bits := bits - 1;
    }
    AssignEnds(desc, used, merges, w, d, bl, p);
  }

  lemma Unchanged(act: seq<bool>, w: seq<nat>, d: seq<nat>, extra: seq<nat>, x: nat, v: nat)
    requires |act| <= |w| && |act| <= |d| && |act| <= |extra| && x < |act|
    ensures d[x] == v ==> d[x := v] == d
  {
  }

  /** Nothing has length 0. */
  lemma AssignLast(desc: StaticDesc, used: seq<bool>, merges: seq<Merge>, w: seq<nat>, d: seq<nat>,
                   bl: seq<nat>, p: nat, bits: nat)
    requires Assigning(desc, used, merges, w, d, bl, p, bits, 0)
    ensures 0 < |bl| && bl[0] == 0
  {
    hide IsTree, Counts, Left, Done, NodeAt, Within, InOrder, Pow2, Room, Total;
  }

  /** gen_bitlen */
  method GenBitlen(s: State, desc: StaticDesc, fc: array<nat>, dl: array<nat>, maxCode: nat,
                   ghost used: seq<bool>, ghost merges: seq<Merge>, ghost w: seq<nat>) returns (ghost cut: nat)
    requires s.Valid() && ValidDesc(desc) && Apart(s, fc, dl) && maxCode < desc.elems
    requires IsTree(used, desc.elems, merges, w) && Queued(s.heap[..], desc.elems, merges)
    requires |w| <= fc.Length && |w| <= dl.Length && forall x :: 0 <= x < |w| ==> fc[x] == w[x]
    requires |used| == desc.elems && forall x :: 0 <= x < desc.elems && used[x] ==> x <= maxCode
    requires forall x :: 0 <= x < desc.elems && !used[x] ==> dl[x] == 0
    requires forall p :: 0 <= p < 2 * |merges| ==> NodeAt(merges, p) < dl.Length && dl[NodeAt(merges, p)] == desc.elems + p / 2
    requires s.heapMax == HEAP_SIZE - 1 - 2 * |merges|
    modifies s`optLen, s`staticLen, s.blCount, dl
    ensures GoodLengths(desc, used, w, dl[..], s.blCount[..])
    ensures s.optLen == old(s.optLen) + CostWithExtra(used, w, dl[..], AllExtraBits(desc))
    ensures StaticCost(desc, used, w, s.staticLen - old(s.staticLen))
    ensures exists d :: IsClippedDepth(desc.elems, merges, d, desc.maxLength) &&
              cut == Cut(desc.elems, merges, d, desc.maxLength, 0)
    ensures cut == 0 ==> forall len, l :: |len| == desc.elems && IsCode(used, len, l) ==>
              Cost(used, w, dl[..], desc.elems) <= Cost(used, w, len, desc.elems)
  {
    hide *;
    DescFacts(desc);
    StateSizes(s);
    AreApart(s, fc, dl);
    var overflow := FirstPass(s, desc, fc, dl, maxCode, used, merges, w);
    ghost var opt, stat := s.optLen - old(s.optLen), s.staticLen - old(s.staticLen);
    FirstPassFacts(desc, used, merges, w, dl[..], s.blCount[..], overflow, opt, stat);
    cut := overflow / 2;
    if overflow == 0 {
      NoRepair(desc, used, merges, w, dl[..], s.blCount[..], opt, stat);
      return;
    }
    RepairBegins(desc, used, merges, w, dl[..], s.blCount[..], overflow, opt, stat);
    Repair(s.blCount, desc.maxLength, overflow, Size(used, desc.elems));
    AssignBegins(desc, used, merges, w, dl[..], s.blCount[..]);
    Reassign(s, desc, fc, dl, maxCode, used, merges, w);
  }

  lemma FirstPassFacts(desc: StaticDesc, used: seq<bool>, merges: seq<Merge>, w: seq<nat>, d: seq<nat>,
                       bl: seq<nat>, overflow: nat, opt: int, stat: int)
    requires FirstPassDone(desc, used, merges, w, d, bl, overflow, opt, stat)
    ensures |used| == desc.elems <= |w| && desc.elems + |merges| <= |d| && |w| == desc.elems + |merges|
    ensures overflow % 2 == 0 && IsClippedDepth(desc.elems, merges, d, desc.maxLength)
    ensures overflow / 2 == Cut(desc.elems, merges, d, desc.maxLength, 0)
    ensures opt == CostWithExtra(used, w, d, AllExtraBits(desc)) && StaticCost(desc, used, w, stat)
    ensures forall x :: 0 <= x < desc.elems && !used[x] ==> d[x] == 0
  {
    hide IsRun, IsGreedy, EndsInRoot, Levels, StaticCost, CostWithExtra;
  }
}
