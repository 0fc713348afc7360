/** Huffman's algorithm as a list of merges: what the merges of the two lightest
    nodes achieve, whatever data structure finds those nodes. */
module HuffmanTheory {
  import opened BitStrings
  import opened Canonical

  /** The i-th merge makes node leaves + i the father of its two nodes. */
  datatype Merge = Merge(a: nat, b: nat)

  /** Which nodes have no father yet, after the first i merges. */
  function Active(used: seq<bool>, leaves: nat, merges: seq<Merge>, i: nat): (r: seq<bool>)
    requires |used| == leaves && i <= |merges|
    ensures |r| == leaves + i
  {
    if i == 0 then used
    else
      var r := Active(used, leaves, merges, i - 1);
      var m := merges[i - 1];
      seq(leaves + i, x requires 0 <= x < leaves + i =>
        if x == leaves + i - 1 then true else r[x] && x != m.a && x != m.b)
  }

  /** Each merge joins two different fatherless nodes, and the father weighs as much as both. */
  ghost predicate IsRun(used: seq<bool>, leaves: nat, merges: seq<Merge>, w: seq<nat>) {
    |used| == leaves && |w| >= leaves + |merges| &&
    forall i {:trigger merges[i]} :: 0 <= i < |merges| ==>
      var act := Active(used, leaves, merges, i);
      var m := merges[i];
      m.a < leaves + i && m.b < leaves + i && m.a != m.b && act[m.a] && act[m.b] &&
      w[leaves + i] == w[m.a] + w[m.b]
  }

  /** Each merge joins two nodes of least weight. */
  ghost predicate IsGreedy(used: seq<bool>, leaves: nat, merges: seq<Merge>, w: seq<nat>)
    requires |used| == leaves && |w| >= leaves + |merges|
  {
    forall i, x {:trigger merges[i], w[x]} :: 0 <= i < |merges| && 0 <= x < leaves + i ==>
      (Active(used, leaves, merges, i)[x] ==>
         merges[i].a < leaves + i && merges[i].b < leaves + i &&
         w[merges[i].a] <= w[x] && (x != merges[i].a ==> w[merges[i].b] <= w[x]))
  }

  lemma NextActive(used: seq<bool>, leaves: nat, merges: seq<Merge>, w: seq<nat>, i: nat)
    requires IsRun(used, leaves, merges, w) && i < |merges|
    ensures var m, act, act' := merges[i], Active(used, leaves, merges, i), Active(used, leaves, merges, i + 1);
            m.a < leaves + i && m.b < leaves + i && m.a != m.b && act[m.a] && act[m.b] &&
            w[leaves + i] == w[m.a] + w[m.b] && act'[leaves + i] &&
            forall x :: 0 <= x < leaves + i ==> (act'[x] <==> act[x] && x != m.a && x != m.b)
  {
  }

  // ---- Sums over the active nodes

  /** The total length-weight over the active nodes among the first n. */
  function Cost(act: seq<bool>, w: seq<nat>, len: seq<nat>, n: nat): nat
    requires n <= |act| && n <= |w| && n <= |len|
  {
    if n == 0 then 0 else Cost(act, w, len, n - 1) + if act[n - 1] then w[n - 1] * len[n - 1] else 0
  }

  /** The l-bit strings that code words of these lengths take up. */
  function Space(act: seq<bool>, len: seq<nat>, n: nat, l: nat): nat
    requires n <= |act| && n <= |len|
  {
    if n == 0 then 0
    else Space(act, len, n - 1, l) + if act[n - 1] && len[n - 1] <= l then Pow2(l - len[n - 1]) else 0
  }

  ghost predicate AtMost(act: seq<bool>, len: seq<nat>, l: nat)
    requires |len| >= |act|
  {
    forall x :: 0 <= x < |act| && act[x] ==> len[x] <= l
  }

  /** The lengths of some prefix code for the active nodes. */
  ghost predicate IsCode(act: seq<bool>, len: seq<nat>, l: nat)
    requires |len| >= |act|
  {
    AtMost(act, len, l) && Space(act, len, |act|, l) <= Pow2(l)
  }

  /** The weight of the fathers made from merge i on. */
  function Tail(leaves: nat, merges: seq<Merge>, w: seq<nat>, i: nat): nat
    requires i <= |merges| && |w| >= leaves + |merges|
    decreases |merges| - i
  {
    if i == |merges| then 0 else w[leaves + i] + Tail(leaves, merges, w, i + 1)
  }

  // ---- Changing one node

  lemma {:induction false} CostChange(act: seq<bool>, w: seq<nat>, len: seq<nat>, len': seq<nat>, x: nat, n: nat)
    requires n <= |act| && n <= |w| && n <= |len| && |len'| == |len| && x < |len|
    requires forall y :: 0 <= y < |len| && y != x ==> len'[y] == len[y]
    ensures if x < n && act[x] then Cost(act, w, len', n) + w[x] * len[x] == Cost(act, w, len, n) + w[x] * len'[x]
            else Cost(act, w, len', n) == Cost(act, w, len, n)
  {
    if n > 0 {
      CostChange(act, w, len, len', x, n - 1);
    }
  }

  /** One node's share of the space. */
  function Share(len: nat, l: nat): nat {
    if len <= l then Pow2(l - len) else 0
  }

  lemma {:induction false} SpaceChange(act: seq<bool>, len: seq<nat>, len': seq<nat>, x: nat, n: nat, l: nat)
    requires n <= |act| && n <= |len| && |len'| == |len| && x < |len|
    requires forall y :: 0 <= y < |len| && y != x ==> len'[y] == len[y]
    ensures Space(act, len', n, l) == Space(act, len, n, l) +
              if x < n && act[x] then Share(len'[x], l) - Share(len[x], l) else 0
  {
    if n > 0 {
      SpaceChange(act, len, len', x, n - 1, l);
    }
  }

  lemma {:induction false} CostDrop(act: seq<bool>, act': seq<bool>, w: seq<nat>, len: seq<nat>, x: nat, n: nat)
    requires n <= |act| && n <= |w| && n <= |len| && |act'| == |act| && x < |act| && act[x] && !act'[x]
    requires forall y :: 0 <= y < |act| && y != x ==> act'[y] == act[y]
    ensures Cost(act, w, len, n) == Cost(act', w, len, n) + if x < n then w[x] * len[x] else 0
  {
    if n > 0 {
      CostDrop(act, act', w, len, x, n - 1);
    }
  }

  lemma {:induction false} SpaceDrop(act: seq<bool>, act': seq<bool>, len: seq<nat>, x: nat, n: nat, l: nat)
    requires n <= |act| && n <= |len| && |act'| == |act| && x < |act| && act[x] && !act'[x]
    requires forall y :: 0 <= y < |act| && y != x ==> act'[y] == act[y]
    ensures Space(act, len, n, l) == Space(act', len, n, l) + if x < n then Share(len[x], l) else 0
  {
    if n > 0 {
      SpaceDrop(act, act', len, x, n - 1, l);
    }
  }

  lemma {:induction false} CostSame(act: seq<bool>, act': seq<bool>, w: seq<nat>, len: seq<nat>, len': seq<nat>, n: nat)
    requires n <= |act| && n <= |w| && n <= |len| && n <= |act'| && n <= |len'|
    requires forall y :: 0 <= y < n ==> act'[y] == act[y] && (act[y] ==> len'[y] == len[y])
    ensures Cost(act', w, len', n) == Cost(act, w, len, n)
  {
    if n > 0 {
      CostSame(act, act', w, len, len', n - 1);
    }
  }

  lemma {:induction false} SpaceSame(act: seq<bool>, act': seq<bool>, len: seq<nat>, len': seq<nat>, n: nat, l: nat)
    requires n <= |act| && n <= |len| && n <= |act'| && n <= |len'|
    requires forall y :: 0 <= y < n ==> act'[y] == act[y] && (act[y] ==> len'[y] == len[y])
    ensures Space(act', len', n, l) == Space(act, len, n, l)
  {
    if n > 0 {
      SpaceSame(act, act', len, len', n - 1, l);
    }
  }

  /** From two nodes to their father. */
  lemma MergeSums(used: seq<bool>, leaves: nat, merges: seq<Merge>, w: seq<nat>, i: nat, len: seq<nat>, l: nat)
    requires IsRun(used, leaves, merges, w) && i < |merges| && |len| >= leaves + i + 1
    ensures var m := merges[i];
            var act, act' := Active(used, leaves, merges, i), Active(used, leaves, merges, i + 1);
            Cost(act, w, len, leaves + i) + w[leaves + i] * len[leaves + i]
            == Cost(act', w, len, leaves + i + 1) + w[m.a] * len[m.a] + w[m.b] * len[m.b] &&
            Space(act, len, leaves + i, l) + Share(len[leaves + i], l)
            == Space(act', len, leaves + i + 1, l) + Share(len[m.a], l) + Share(len[m.b], l)
  {
    var m := merges[i];
    var act, act' := Active(used, leaves, merges, i), Active(used, leaves, merges, i + 1);
    var act1 := act[m.a := false];
    var act2 := act1[m.b := false];
    CostDrop(act, act1, w, len, m.a, leaves + i);
    CostDrop(act1, act2, w, len, m.b, leaves + i);
    CostSame(act2, act', w, len, len, leaves + i);
    SpaceDrop(act, act1, len, m.a, leaves + i, l);
    SpaceDrop(act1, act2, len, m.b, leaves + i, l);
    SpaceSame(act2, act', len, len, leaves + i, l);
  }

  // ---- No prefix code is cheaper

  lemma SwapPays(wa: nat, wx: nat, la: nat, lx: nat)
    requires wa <= wx && la <= lx
    ensures wa * lx + wx * la <= wa * la + wx * lx
  {
    var d, e := wx - wa, lx - la;
    assert wa * lx == wa * la + wa * e;
    assert wx * lx == wx * la + wx * e;
    assert wa * e <= wx * e;
  }

  /** Giving the lighter node a longer of two lengths costs no more. */
  lemma Exchange(act: seq<bool>, w: seq<nat>, len: seq<nat>, a: nat, x: nat, l: nat) returns (len': seq<nat>)
    requires |w| >= |act| && |len| == |act| && IsCode(act, len, l)
    requires a < |act| && x < |act| && act[a] && act[x] && w[a] <= w[x] && len[a] <= len[x]
    ensures |len'| == |len| && IsCode(act, len', l) && Cost(act, w, len', |act|) <= Cost(act, w, len, |act|)
    ensures len'[a] == len[x] && len'[x] == len[a]
    ensures forall y :: 0 <= y < |act| && y != a && y != x ==> len'[y] == len[y]
  {
    if a == x {
      len' := len;
    } else {
      var len1 := len[a := len[x]];
      len' := len1[x := len[a]];
      CostChange(act, w, len, len1, a, |act|);
      CostChange(act, w, len1, len', x, |act|);
      SpaceChange(act, len, len1, a, |act|, l);
      SpaceChange(act, len1, len', x, |act|, l);
      SwapPays(w[a], w[x], len[a], len[x]);
    }
  }

  lemma {:induction false} SpaceScales(act: seq<bool>, len: seq<nat>, n: nat, k: nat, l: nat)
    requires n <= |act| && n <= |len| && k <= l
    requires forall x :: 0 <= x < n && act[x] ==> len[x] <= k
    ensures Space(act, len, n, l) == Shl(Space(act, len, n, k), l - k)
  {
    if n == 0 {
      ShlZero(l - k);
    } else {
      SpaceScales(act, len, n - 1, k, l);
      if act[n - 1] {
        ShlAdd(Space(act, len, n - 1, k), Pow2(k - len[n - 1]), l - k);
        ShlPow2(k - len[n - 1], l - k);
      }
    }
  }

  /** A single longest code word can be shortened to the next longest length. */
  lemma Shorten(act: seq<bool>, w: seq<nat>, len: seq<nat>, a: nat, k: nat, l: nat) returns (len': seq<nat>)
    requires |w| >= |act| && |len| == |act| && IsCode(act, len, l) && a < |act| && act[a] && k <= len[a]
    requires forall x :: 0 <= x < |act| && act[x] && x != a ==> len[x] <= k
    ensures len' == len[a := k] && IsCode(act, len', l) && Cost(act, w, len', |act|) <= Cost(act, w, len, |act|)
  {
    hide *;
    len' := len[a := k];
    CostChange(act, w, len, len', a, |act|);
    ShorterCosts(w[a], k, len[a]);
    SpaceChange(act, len, len', a, |act|, l);
    ShortenFits(act, len, a, k, l);
    MeansCode(act, len, l);
    MeansCode(act, len', l);
  }

  lemma ShorterCosts(x: nat, k: nat, m: nat)
    requires k <= m
    ensures x * k <= x * m
  {
  }

  lemma MeansCode(act: seq<bool>, len: seq<nat>, l: nat)
    requires |len| >= |act|
    ensures IsCode(act, len, l) <==>
              (forall x :: 0 <= x < |act| && act[x] ==> len[x] <= l) && Space(act, len, |act|, l) <= Pow2(l)
  {
  }

  lemma ShortenFits(act: seq<bool>, len: seq<nat>, a: nat, k: nat, l: nat)
    requires |len| == |act| && IsCode(act, len, l) && a < |act| && act[a] && k <= len[a]
    requires forall x :: 0 <= x < |act| && act[x] && x != a ==> len[x] <= k
    ensures Space(act, len, |act|, l) + Share(k, l) - Share(len[a], l) <= Pow2(l)
  {
    hide Space;
    if k < len[a] {
      var rest := act[a := false];
      SpaceDrop(act, rest, len, a, |act|, l);
      SpaceScales(rest, len, |act|, k, l);
      RoomForOneMore(Space(rest, len, |act|, k), len[a], k, l);
    }
  }

  lemma RoomForOneMore(s: nat, m: nat, k: nat, l: nat)
    requires k < m <= l && Shl(s, l - k) + Pow2(l - m) <= Pow2(l)
    ensures Shl(s, l - k) + Pow2(l - k) <= Pow2(l)
  {
    ShlPow2(k, l - k);
    ShlMonotone(Pow2(k), s, l - k);
    ShlMonotone(s + 1, Pow2(k), l - k);
    ShlAdd(s, 1, l - k);
    ShlPow2(0, l - k);
  }

  lemma LongestActive(act: seq<bool>, len: seq<nat>, skip: int, n: nat) returns (x: nat)
    requires n <= |act| && n <= |len| && exists y :: 0 <= y < n && act[y] && y != skip
    ensures x < n && act[x] && x != skip && forall y :: 0 <= y < n && act[y] && y != skip ==> len[y] <= len[x]
    decreases n
  {
    if exists y :: 0 <= y < n - 1 && act[y] && y != skip {
      x := LongestActive(act, len, skip, n - 1);
      if act[n - 1] && n - 1 != skip && len[n - 1] > len[x] {
        x := n - 1;
      }
    } else {
      x := n - 1;
    }
  }

  /** Rearrange a prefix code so that the next two nodes to be merged are siblings. */
  lemma MakeSiblings(used: seq<bool>, leaves: nat, merges: seq<Merge>, w: seq<nat>, i: nat, len: seq<nat>, l: nat)
    returns (len': seq<nat>)
    requires IsRun(used, leaves, merges, w) && IsGreedy(used, leaves, merges, w)
    requires i < |merges| && |len| == leaves + i && IsCode(Active(used, leaves, merges, i), len, l)
    ensures var act := Active(used, leaves, merges, i);
            |len'| == |len| && IsCode(act, len', l) && Cost(act, w, len', |act|) <= Cost(act, w, len, |act|) &&
            len'[merges[i].a] == len'[merges[i].b]
  {
    var act, a, b := Active(used, leaves, merges, i), merges[i].a, merges[i].b;
    assert act[a];
    var x := LongestActive(act, len, -1, |act|);
    var len1 := Exchange(act, w, len, a, x, l);
    assert act[b] && b != a;
    var y := LongestActive(act, len1, a, |act|);
    var len2 := Exchange(act, w, len1, b, y, l);
    len' := Shorten(act, w, len2, a, len2[b], l);
  }

  /** Replacing two siblings by their father saves the father's weight. */
  lemma MergeSiblings(used: seq<bool>, leaves: nat, merges: seq<Merge>, w: seq<nat>, i: nat, len: seq<nat>, l: nat)
    returns (len': seq<nat>)
    requires IsRun(used, leaves, merges, w)
    requires i < |merges| && |len| == leaves + i && IsCode(Active(used, leaves, merges, i), len, l)
    requires len[merges[i].a] == len[merges[i].b]
    ensures |len'| == leaves + i + 1 && IsCode(Active(used, leaves, merges, i + 1), len', l)
    ensures Cost(Active(used, leaves, merges, i), w, len, leaves + i)
         == Cost(Active(used, leaves, merges, i + 1), w, len', leaves + i + 1) + w[leaves + i]
  {
    hide Cost, Space, Pow2;
    var act, m := Active(used, leaves, merges, i), merges[i];
    var act1 := act[m.a := false];
    SpaceDrop(act, act1, len, m.a, leaves + i, l);
    SpaceDrop(act1, act1[m.b := false], len, m.b, leaves + i, l);
    var k := len[m.a];
    assert act[m.a];
    assert k > 0 by {
      assert k == 0 ==> Share(k, l) == Pow2(l);
    }
    len' := len + [k - 1];
    CostSame(act, act, w, len, len', leaves + i);
    SpaceSame(act, act, len, len', leaves + i, l);
    MergeSums(used, leaves, merges, w, i, len', l);
    ShareDoubles(k, l);
    Products(w[m.a], w[m.b], k);
  }

  lemma ShareDoubles(k: nat, l: nat)
    requires 0 < k <= l
    ensures Share(k - 1, l) == 2 * Share(k, l)
  {
  }

  lemma Products(x: nat, y: nat, k: nat)
    requires k > 0
    ensures x * k + y * k == (x + y) * (k - 1) + (x + y)
  {
  }

  /** Every prefix code for the nodes active after i merges costs at least the
      weight of the fathers still to be made. */
  lemma {:induction false} LowerBound(used: seq<bool>, leaves: nat, merges: seq<Merge>, w: seq<nat>, i: nat, len: seq<nat>, l: nat)
    requires IsRun(used, leaves, merges, w) && IsGreedy(used, leaves, merges, w)
    requires i <= |merges| && |len| == leaves + i && IsCode(Active(used, leaves, merges, i), len, l)
    ensures Cost(Active(used, leaves, merges, i), w, len, leaves + i) >= Tail(leaves, merges, w, i)
    decreases |merges| - i
  {
    hide IsRun, IsGreedy, IsCode, Cost, Active;
    if i < |merges| {
      var len1 := MakeSiblings(used, leaves, merges, w, i, len, l);
      var len2 := MergeSiblings(used, leaves, merges, w, i, len1, l);
      LowerBound(used, leaves, merges, w, i + 1, len2, l);
    }
  }

  // ---- Depths

  /** After all merges only the last father is left. */
  ghost predicate EndsInRoot(used: seq<bool>, leaves: nat, merges: seq<Merge>)
    requires |used| == leaves
  {
    |merges| > 0 &&
    forall x :: 0 <= x < leaves + |merges| ==>
      (Active(used, leaves, merges, |merges|)[x] <==> x == leaves + |merges| - 1)
  }

  /** Depths below the root, cut off at max. */
  ghost predicate IsClippedDepth(leaves: nat, merges: seq<Merge>, d: seq<nat>, max: nat) {
    |merges| > 0 && |d| >= leaves + |merges| && d[leaves + |merges| - 1] == 0 &&
    forall i {:trigger merges[i]} :: 0 <= i < |merges| ==>
      merges[i].a < leaves + i && merges[i].b < leaves + i &&
      var below := if d[leaves + i] + 1 <= max then d[leaves + i] + 1 else max;
      d[merges[i].a] == below && d[merges[i].b] == below
  }

  /** How many of the fathers from merge i on sit at the cut-off. */
  function Cut(leaves: nat, merges: seq<Merge>, d: seq<nat>, max: nat, i: nat): nat
    requires i <= |merges| && |d| >= leaves + |merges|
    decreases |merges| - i
  {
    if i == |merges| then 0 else (if d[leaves + i] >= max then 1 else 0) + Cut(leaves, merges, d, max, i + 1)
  }

  lemma Sizes(leaves: nat, merges: seq<Merge>, d: seq<nat>, max: nat, used: seq<bool>, w: seq<nat>)
    requires IsClippedDepth(leaves, merges, d, max) && IsRun(used, leaves, merges, w)
    ensures |used| == leaves && |w| >= leaves + |merges| && |d| >= leaves + |merges|
    ensures forall i :: 0 <= i < |merges| ==> merges[i].a < leaves + i && merges[i].b < leaves + i
  {
  }

  lemma ClippedAt(leaves: nat, merges: seq<Merge>, d: seq<nat>, max: nat, i: nat)
    requires IsClippedDepth(leaves, merges, d, max) && i < |merges|
    ensures var m := merges[i];
            m.a < leaves + i && m.b < leaves + i && d[m.a] <= max && d[m.a] == d[m.b] &&
            d[m.a] == if d[leaves + i] + 1 <= max then d[leaves + i] + 1 else max
  {
  }

  lemma OnlyRoot(leaves: nat, merges: seq<Merge>, d: seq<nat>, max: nat, used: seq<bool>)
    requires IsClippedDepth(leaves, merges, d, max) && |used| == leaves && EndsInRoot(used, leaves, merges)
    ensures |merges| > 0 && d[leaves + |merges| - 1] == 0
    ensures forall x :: 0 <= x < leaves + |merges| ==>
              (Active(used, leaves, merges, |merges|)[x] <==> x == leaves + |merges| - 1)
  {
  }

  lemma {:induction false} DepthsBounded(leaves: nat, merges: seq<Merge>, d: seq<nat>, max: nat, used: seq<bool>, w: seq<nat>, i: nat)
    requires IsClippedDepth(leaves, merges, d, max) && IsRun(used, leaves, merges, w) && EndsInRoot(used, leaves, merges)
    requires i <= |merges|
    ensures forall x :: 0 <= x < leaves + i && Active(used, leaves, merges, i)[x] ==> d[x] <= max
    decreases |merges| - i
  {
    hide *;
    Sizes(leaves, merges, d, max, used, w);
    if i < |merges| {
      DepthsBounded(leaves, merges, d, max, used, w, i + 1);
      NextActive(used, leaves, merges, w, i);
      ClippedAt(leaves, merges, d, max, i);
    } else {
      OnlyRoot(leaves, merges, d, max, used);
    }
  }

  lemma FatherShare(c: nat, max: nat)
    requires c <= max
    ensures Share(c, max) == if c < max then 2 * Share(c + 1, max) else 1
    ensures Share(max, max) == 1
  {
  }

  /** Cutting depths off at max overfills the code space by one for each father cut. */
  lemma {:induction false} ClippedSpace(leaves: nat, merges: seq<Merge>, d: seq<nat>, max: nat, used: seq<bool>, w: seq<nat>, i: nat)
    requires IsClippedDepth(leaves, merges, d, max) && IsRun(used, leaves, merges, w) && EndsInRoot(used, leaves, merges)
    requires i <= |merges|
    ensures Space(Active(used, leaves, merges, i), d, leaves + i, max) == Pow2(max) + Cut(leaves, merges, d, max, i)
    decreases |merges| - i
  {
    hide Active, IsRun, IsClippedDepth, EndsInRoot, Space;
    Sizes(leaves, merges, d, max, used, w);
    var act := Active(used, leaves, merges, i);
    if i == |merges| {
      var root := leaves + i - 1;
      OnlyRoot(leaves, merges, d, max, used);
      SpaceDrop(act, act[root := false], d, root, leaves + i, max);
      NoSpace(act[root := false], d, leaves + i, max);
    } else {
      ClippedSpace(leaves, merges, d, max, used, w, i + 1);
      MergeSums(used, leaves, merges, w, i, d, max);
      DepthsBounded(leaves, merges, d, max, used, w, i + 1);
      NextActive(used, leaves, merges, w, i);
      ClippedAt(leaves, merges, d, max, i);
      FatherShare(d[leaves + i], max);
    }
  }

  lemma {:induction false} NoSpace(act: seq<bool>, len: seq<nat>, n: nat, l: nat)
    requires n <= |act| && n <= |len| && forall x :: 0 <= x < n ==> !act[x]
    ensures Space(act, len, n, l) == 0
  {
    if n > 0 {
      NoSpace(act, len, n - 1, l);
    }
  }

  /** How many active nodes among the first n sit at level l. */
  function AtLevel(act: seq<bool>, len: seq<nat>, n: nat, l: nat): nat
    requires n <= |act| && n <= |len|
  {
    if n == 0 then 0 else AtLevel(act, len, n - 1, l) + if act[n - 1] && len[n - 1] == l then 1 else 0
  }

  lemma {:induction false} AtLevelDrop(act: seq<bool>, act': seq<bool>, len: seq<nat>, x: nat, n: nat, l: nat)
    requires n <= |act| && n <= |len| && |act'| == |act| && x < |act| && act[x] && !act'[x]
    requires forall y :: 0 <= y < |act| && y != x ==> act'[y] == act[y]
    ensures AtLevel(act, len, n, l) == AtLevel(act', len, n, l) + if x < n && len[x] == l then 1 else 0
  {
    if n > 0 {
      AtLevelDrop(act, act', len, x, n - 1, l);
    }
  }

  lemma {:induction false} AtLevelSame(act: seq<bool>, act': seq<bool>, len: seq<nat>, len': seq<nat>, n: nat, l: nat)
    requires n <= |act| && n <= |len| && n <= |act'| && n <= |len'|
    requires forall y :: 0 <= y < n ==> act'[y] == act[y] && (act[y] ==> len'[y] == len[y])
    ensures AtLevel(act', len', n, l) == AtLevel(act, len, n, l)
  {
    if n > 0 {
      AtLevelSame(act, act', len, len', n - 1, l);
    }
  }

  /** There are at least as many nodes at the cut-off as fathers cut. */
  lemma {:induction false} EnoughAtMax(leaves: nat, merges: seq<Merge>, d: seq<nat>, max: nat, used: seq<bool>, w: seq<nat>, i: nat)
    requires IsClippedDepth(leaves, merges, d, max) && IsRun(used, leaves, merges, w)
    requires i <= |merges|
    ensures AtLevel(Active(used, leaves, merges, i), d, leaves + i, max) >= Cut(leaves, merges, d, max, i)
    decreases |merges| - i
  {
    if i < |merges| {
      EnoughAtMax(leaves, merges, d, max, used, w, i + 1);
      var act, act', m := Active(used, leaves, merges, i), Active(used, leaves, merges, i + 1), merges[i];
      var act1 := act[m.a := false];
      var act2 := act1[m.b := false];
      AtLevelDrop(act, act1, d, m.a, leaves + i, max);
      AtLevelDrop(act1, act2, d, m.b, leaves + i, max);
      AtLevelSame(act2, act', d, d, leaves + i, max);
    }
  }

  /** When nothing is cut, the depths cost exactly the weight of the fathers. */
  lemma {:induction false} DepthCost(leaves: nat, merges: seq<Merge>, d: seq<nat>, max: nat, used: seq<bool>, w: seq<nat>, i: nat)
    requires IsClippedDepth(leaves, merges, d, max) && IsRun(used, leaves, merges, w) && EndsInRoot(used, leaves, merges)
    requires i <= |merges| && Cut(leaves, merges, d, max, i) == 0
    ensures Cost(Active(used, leaves, merges, i), w, d, leaves + i) == Tail(leaves, merges, w, i)
    decreases |merges| - i
  {
    hide Active, IsRun, IsClippedDepth, EndsInRoot, Cost;
    Sizes(leaves, merges, d, max, used, w);
    var act := Active(used, leaves, merges, i);
    if i == |merges| {
      var root := leaves + i - 1;
      OnlyRoot(leaves, merges, d, max, used);
      CostDrop(act, act[root := false], w, d, root, leaves + i);
      NoCost(act[root := false], w, d, leaves + i);
    } else {
      DepthCost(leaves, merges, d, max, used, w, i + 1);
      MergeSums(used, leaves, merges, w, i, d, max);
      DepthsBounded(leaves, merges, d, max, used, w, i + 1);
      NextActive(used, leaves, merges, w, i);
      ClippedAt(leaves, merges, d, max, i);
      Products(w[merges[i].a], w[merges[i].b], d[leaves + i] + 1);
    }
  }

  lemma {:induction false} NoCost(act: seq<bool>, w: seq<nat>, len: seq<nat>, n: nat)
    requires n <= |act| && n <= |len| && n <= |w| && forall x :: 0 <= x < n ==> !act[x]
    ensures Cost(act, w, len, n) == 0
  {
    if n > 0 {
      NoCost(act, w, len, n - 1);
    }
  }

  /** Huffman's theorem: greedy merging minimises the total weighted length over
      all prefix codes for the used leaves, whatever their longest length. */
  lemma Optimal(used: seq<bool>, leaves: nat, merges: seq<Merge>, w: seq<nat>, d: seq<nat>, max: nat, len: seq<nat>, l: nat)
    requires IsRun(used, leaves, merges, w) && IsGreedy(used, leaves, merges, w) && EndsInRoot(used, leaves, merges)
    requires IsClippedDepth(leaves, merges, d, max) && Cut(leaves, merges, d, max, 0) == 0
    requires |len| == leaves && IsCode(used, len, l)
    ensures Cost(used, w, d, leaves) <= Cost(used, w, len, leaves)
  {
    LowerBound(used, leaves, merges, w, 0, len, l);
    DepthCost(leaves, merges, d, max, used, w, 0);
  }

  lemma SwapWins(wx: nat, wy: nat, dx: nat, dy: nat)
    requires wx < wy && dx < dy
    ensures wx * dy + wy * dx < wx * dx + wy * dy
  {
    var e, f := wy - wx, dy - dx;
    assert wx * dy == wx * dx + wx * f;
    assert wy * dy == wy * dx + wy * f;
    assert wy * f == wx * f + e * f;
    assert e * f > 0;
  }

  lemma PrefixCost(act: seq<bool>, w: seq<nat>, d: seq<nat>, l: nat)
    requires |act| <= |w| && |act| <= |d|
    ensures Cost(act, w, d[..|act|], |act|) == Cost(act, w, d, |act|)
    ensures Space(act, d[..|act|], |act|, l) == Space(act, d, |act|, l)
  {
    CostSame(act, act, w, d, d[..|act|], |act|);
    SpaceSame(act, act, d, d[..|act|], |act|, l);
  }

  /** When nothing is cut, a rarer leaf never gets a shorter code word. */
  lemma RarerIsDeeper(used: seq<bool>, leaves: nat, merges: seq<Merge>, w: seq<nat>, d: seq<nat>, max: nat, x: nat, y: nat)
    requires IsRun(used, leaves, merges, w) && IsGreedy(used, leaves, merges, w) && EndsInRoot(used, leaves, merges)
    requires IsClippedDepth(leaves, merges, d, max) && Cut(leaves, merges, d, max, 0) == 0
    requires |used| == leaves <= |d| && leaves <= |w| && IsCode(used, d, max)
    requires x < leaves && y < leaves && used[x] && used[y] && w[x] < w[y]
    ensures d[x] >= d[y]
  {
    hide IsRun, IsGreedy, EndsInRoot, IsClippedDepth, Cut, Cost, Space;
    if d[x] < d[y] {
      PrefixCost(used, w, d, max);
      var d0 := d[..leaves];
      var d1 := d0[x := d[y]];
      var d2 := d1[y := d[x]];
      CostChange(used, w, d0, d1, x, leaves);
      CostChange(used, w, d1, d2, y, leaves);
      SpaceChange(used, d0, d1, x, leaves, max);
      SpaceChange(used, d1, d2, y, leaves, max);
      SwapWins(w[x], w[y], d[x], d[y]);
      Optimal(used, leaves, merges, w, d, max, d2, max);
    }
  }
}
