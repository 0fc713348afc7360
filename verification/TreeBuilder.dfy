/** build_tree of trees.c: from symbol frequencies to code lengths and code words. */
module TreeBuilder {
  import opened Machine
  import opened BitStrings
  import opened Canonical
  import opened Heap
  import opened HuffmanTheory
  import opened MergeOrder
  import opened BitLengths
  import opened LengthRepair
  import opened LengthAssignment
  import opened CodeWords

  /** The queue holds exactly the active nodes. */
  ghost predicate IsQueue(nodes: multiset<nat>, act: seq<bool>) {
    forall x: nat :: nodes[x] == if x < |act| && act[x] then 1 else 0
  }

  // ---- Extending a run by one merge

  lemma {:induction false} ActivePrefix(used: seq<bool>, leaves: nat, merges: seq<Merge>, m: Merge, i: nat)
    requires |used| == leaves && i <= |merges|
    ensures Active(used, leaves, merges + [m], i) == Active(used, leaves, merges, i)
  {
    if i > 0 {
      ActivePrefix(used, leaves, merges, m, i - 1);
      assert (merges + [m])[i - 1] == merges[i - 1];
      ActiveSame(used, leaves, merges, merges + [m], i);
    }
  }

  lemma ActiveSame(used: seq<bool>, leaves: nat, merges: seq<Merge>, merges': seq<Merge>, i: nat)
    requires |used| == leaves && 0 < i <= |merges| && i <= |merges'| && merges'[i - 1] == merges[i - 1]
    requires Active(used, leaves, merges', i - 1) == Active(used, leaves, merges, i - 1)
    ensures Active(used, leaves, merges', i) == Active(used, leaves, merges, i)
  {
  }

  /** A node of least weight, and one of least weight among the rest. */
  ghost predicate Lightest(act: seq<bool>, w: seq<nat>, a: nat, b: nat)
    requires |act| <= |w|
  {
    a < |act| && b < |act| && a != b && act[a] && act[b] &&
    forall x :: 0 <= x < |act| && act[x] ==> w[a] <= w[x] && (x != a ==> w[b] <= w[x])
  }

  /** One more merge leaves the stages before it as they were. */
  lemma StagesKept(used: seq<bool>, leaves: nat, merges: seq<Merge>, m: Merge)
    requires |used| == leaves
    ensures forall i {:trigger Active(used, leaves, merges, i)} :: 0 <= i <= |merges| ==>
              Active(used, leaves, merges + [m], i) == Active(used, leaves, merges, i)
  {
    hide Active;
    forall i {:trigger Active(used, leaves, merges, i)} | 0 <= i <= |merges|
      ensures Active(used, leaves, merges + [m], i) == Active(used, leaves, merges, i)
    {
      ActivePrefix(used, leaves, merges, m, i);
    }
  }

  lemma RunStays(used: seq<bool>, leaves: nat, merges: seq<Merge>, w: seq<nat>, a: nat, b: nat)
    requires IsRun(used, leaves, merges, w) && |w| == leaves + |merges|
    requires a != b && a < |w| && b < |w| && |Active(used, leaves, merges, |merges|)| == |w|
    requires Active(used, leaves, merges, |merges|)[a] && Active(used, leaves, merges, |merges|)[b]
    ensures IsRun(used, leaves, merges + [Merge(a, b)], w + [w[a] + w[b]])
  {
    hide Active;
    var merges', w' := merges + [Merge(a, b)], w + [w[a] + w[b]];
    StagesKept(used, leaves, merges, Merge(a, b));
    forall i {:trigger merges'[i]} | 0 <= i < |merges'|
      ensures var act, m := Active(used, leaves, merges', i), merges'[i];
              m.a < leaves + i && m.b < leaves + i && m.a != m.b && act[m.a] && act[m.b] &&
              w'[leaves + i] == w'[m.a] + w'[m.b]
    {
      assert Active(used, leaves, merges', i) == Active(used, leaves, merges, i);
      if i < |merges| {
        assert merges'[i] == merges[i];
      }
    }
  }

  lemma GreedyStays(used: seq<bool>, leaves: nat, merges: seq<Merge>, w: seq<nat>, a: nat, b: nat)
    requires IsRun(used, leaves, merges, w) && IsGreedy(used, leaves, merges, w) && |w| == leaves + |merges|
    requires Lightest(Active(used, leaves, merges, |merges|), w, a, b) && a < |w| && b < |w|
    ensures IsGreedy(used, leaves, merges + [Merge(a, b)], w + [w[a] + w[b]])
  {
    hide Active;
    var merges', w' := merges + [Merge(a, b)], w + [w[a] + w[b]];
    StagesKept(used, leaves, merges, Merge(a, b));
    forall i, x | 0 <= i < |merges'| && 0 <= x < leaves + i && Active(used, leaves, merges', i)[x]
      ensures merges'[i].a < leaves + i && merges'[i].b < leaves + i
      ensures w'[merges'[i].a] <= w'[x] && (x != merges'[i].a ==> w'[merges'[i].b] <= w'[x])
    {
      assert Active(used, leaves, merges', i) == Active(used, leaves, merges, i);
      if i < |merges| {
        assert merges'[i] == merges[i];
        assert w'[x] == w[x];
      }
    }
  }

  /** Merging the two lightest nodes goes on with the run. */
  lemma RunExtends(used: seq<bool>, leaves: nat, merges: seq<Merge>, w: seq<nat>, a: nat, b: nat)
    requires IsRun(used, leaves, merges, w) && IsGreedy(used, leaves, merges, w)
    requires |used| == leaves && |w| == leaves + |merges|
    requires Lightest(Active(used, leaves, merges, |merges|), w, a, b)
    ensures a < |w| && b < |w|
    ensures var merges', w' := merges + [Merge(a, b)], w + [w[a] + w[b]];
            IsRun(used, leaves, merges', w') && IsGreedy(used, leaves, merges', w') &&
            (forall x :: 0 <= x < leaves + |merges| ==>
              (Active(used, leaves, merges', |merges'|)[x] <==> Active(used, leaves, merges, |merges|)[x] && x != a && x != b)) &&
            Active(used, leaves, merges', |merges'|)[leaves + |merges|]
  {
    hide Active, IsRun, IsGreedy;
    var merges', w' := merges + [Merge(a, b)], w + [w[a] + w[b]];
    RunStays(used, leaves, merges, w, a, b);
    GreedyStays(used, leaves, merges, w, a, b);
    StagesKept(used, leaves, merges, Merge(a, b));
    NextActive(used, leaves, merges', w', |merges|);
    assert Active(used, leaves, merges', |merges|) == Active(used, leaves, merges, |merges|);
  }

  /** What is in front of the queue comes first of everything in it. */
  lemma FrontIsFirst(h: seq<nat>, len: nat, key: seq<nat>)
    requires 1 <= len < |h| && InRange(h, len, |key|) && Ordered(h, len, key, 1)
    ensures h[1] in Nodes(h, len)
    ensures forall x: nat :: x in Nodes(h, len) ==> x < |key| && key[h[1]] <= key[x]
  {
    forall x: nat | x in Nodes(h, len)
      ensures x < |key| && key[h[1]] <= key[x]
    {
      assert x in h[1..len + 1];
      var j :| 0 <= j < |h[1..len + 1]| && h[1..len + 1][j] == x;
      FrontIsLeast(h, len, key, j + 1);
    }
    assert h[1..len + 1][0] == h[1];
  }

  ghost predicate KeysMatch(key: seq<nat>, w: seq<nat>) {
    |key| == |w| && forall x :: 0 <= x < |w| ==> 256 * w[x] <= key[x] < 256 * w[x] + 256
  }

  lemma KeyOrder(key: seq<nat>, w: seq<nat>, x: nat, y: nat)
    requires KeysMatch(key, w) && x < |w| && y < |w| && key[x] <= key[y]
    ensures w[x] <= w[y]
  {
  }

  /** The two nodes taken from the queue are the two lightest. */
  lemma TakenAreLightest(act: seq<bool>, w: seq<nat>, key: seq<nat>, nodes: multiset<nat>, rest: multiset<nat>, a: nat, b: nat)
    requires |act| == |w| && KeysMatch(key, w) && a < |key| && b < |key| && IsQueue(nodes, act) && nodes == rest + multiset{a} && b in rest
    requires forall x: nat :: x in nodes ==> x < |key| && key[a] <= key[x]
    requires forall x: nat :: x in rest ==> x < |key| && key[b] <= key[x]
    ensures Lightest(act, w, a, b)
  {
    assert a in nodes && b in nodes && nodes[a] == 1;
    forall x | 0 <= x < |act| && act[x]
      ensures w[a] <= w[x] && (x != a ==> w[b] <= w[x])
    {
      assert x in nodes;
      KeyOrder(key, w, a, x);
      if x != a {
        assert x in rest;
        KeyOrder(key, w, b, x);
      }
    }
  }

  /** The father takes the place of the two sons. */
  lemma QueueStep(act: seq<bool>, act': seq<bool>, nodes: multiset<nat>, rest: multiset<nat>, rest': multiset<nat>, a: nat, b: nat)
    requires IsQueue(nodes, act) && nodes == rest + multiset{a} && rest' == rest - multiset{b} + multiset{|act|} && b in rest
    requires |act'| == |act| + 1 && act'[|act|] && forall x :: 0 <= x < |act| ==> (act'[x] <==> act[x] && x != a && x != b)
    ensures IsQueue(rest', act')
  {
    assert nodes[|act|] == 0;
    forall x: nat
      ensures rest'[x] == if x < |act'| && act'[x] then 1 else 0
    {
      assert nodes[x] == if x < |act| && act[x] then 1 else 0;
      assert nodes[x] == rest[x] + if x == a then 1 else 0;
    }
  }

  lemma ReplaceFront(h: seq<nat>, len: nat, v: nat)
    requires 1 <= len < |h|
    ensures Nodes(h[1 := v], len) == Nodes(h, len) - multiset{h[1]} + multiset{v}
    ensures h[1] in Nodes(h, len)
  {
    var s := h[1..len + 1];
    assert h[1 := v][1..len + 1] == s[0 := v];
    assert s[0] == h[1];
  }

  /** Only the nodes in the queue matter. */
  lemma NodesSame(h: seq<nat>, h': seq<nat>, len: nat)
    requires len < |h| && len < |h'| && forall j :: 1 <= j <= len ==> h'[j] == h[j]
    ensures Nodes(h', len) == Nodes(h, len)
  {
    assert h'[1..len + 1] == h[1..len + 1];
  }

  // ---- Weights stay within 16 bits

  function Ones(n: nat): (r: seq<nat>)
    ensures |r| == n && forall x :: 0 <= x < n ==> r[x] == 1
  {
    seq(n, x => 1)
  }

  function Weight(act: seq<bool>, w: seq<nat>): nat
    requires |act| <= |w|
  {
    Cost(act, w, Ones(|w|), |act|)
  }

  /** A merge keeps the total weight of the active nodes. */
  lemma WeightKept(used: seq<bool>, leaves: nat, merges: seq<Merge>, w: seq<nat>, i: nat)
    requires IsRun(used, leaves, merges, w) && |used| == leaves && |w| == leaves + |merges| && i < |merges|
    ensures Weight(Active(used, leaves, merges, i + 1), w) == Weight(Active(used, leaves, merges, i), w)
    ensures w[leaves + i] <= Weight(Active(used, leaves, merges, i + 1), w)
  {
    hide IsRun, Active, Cost;
    var ones := Ones(|w|);
    NextActive(used, leaves, merges, w, i);
    MergeSums(used, leaves, merges, w, i, ones, 0);
    LastCost(Active(used, leaves, merges, i + 1), w, ones, leaves + i);
  }

  lemma LastCost(act: seq<bool>, w: seq<nat>, len: seq<nat>, n: nat)
    requires n < |act| && n < |w| && n < |len| && act[n] && len[n] == 1
    ensures w[n] <= Cost(act, w, len, n + 1)
  {
  }

  lemma WeightSame(act: seq<bool>, w: seq<nat>, v: nat)
    requires |act| <= |w|
    ensures Weight(act, w + [v]) == Weight(act, w)
  {
    CostSame(act, act, w, Ones(|w|), Ones(|w| + 1), |act|);
    CostGrows(act, w, v, Ones(|w| + 1), |act|);
  }

  lemma {:induction false} CostGrows(act: seq<bool>, w: seq<nat>, v: nat, len: seq<nat>, n: nat)
    requires n <= |act| && n <= |w| && n <= |len|
    ensures Cost(act, w + [v], len, n) == Cost(act, w, len, n)
  {
    if n > 0 {
      CostGrows(act, w, v, len, n - 1);
    }
  }

  // ---- The merging loop

  /** Where the merging loop stands. */
  ghost predicate Merging(used: seq<bool>, leaves: nat, merges: seq<Merge>, w: seq<nat>, key: seq<nat>,
                          h: seq<nat>, heapLen: nat, total: nat, count: nat)
  {
    IsRun(used, leaves, merges, w) && |used| == leaves && |w| == leaves + |merges| &&
    IsGreedy(used, leaves, merges, w) && KeysMatch(key, w) &&
    2 * leaves < HEAP_SIZE == |h| && 1 <= heapLen && heapLen + |merges| == count <= leaves &&
    InRange(h, heapLen, |key|) && Ordered(h, heapLen, key, 1) &&
    IsQueue(Nodes(h, heapLen), Active(used, leaves, merges, |merges|)) &&
    Weight(Active(used, leaves, merges, |merges|), w) == total &&
    forall p :: 0 <= p < 2 * |merges| ==> h[HEAP_SIZE - 1 - p] == NodeAt(merges, p)
  }

  lemma TakenFacts(used: seq<bool>, leaves: nat, merges: seq<Merge>, w: seq<nat>, key: seq<nat>,
                   h: seq<nat>, heapLen: nat, total: nat, count: nat, h1: seq<nat>, n: nat, m: nat)
    requires Merging(used, leaves, merges, w, key, h, heapLen, total, count) && 2 <= heapLen
    requires |h1| == HEAP_SIZE && InRange(h1, heapLen - 1, |key|) && Ordered(h1, heapLen - 1, key, 1)
    requires n == h[1] && m == h1[1] && Nodes(h, heapLen) == Nodes(h1, heapLen - 1) + multiset{n}
    ensures |used| == leaves && |w| == leaves + |merges| && n < |w| && m < |w| && n != m && m in Nodes(h1, heapLen - 1)
    ensures Lightest(Active(used, leaves, merges, |merges|), w, n, m)
    ensures w[n] + w[m] <= total
  {
    hide IsRun, IsGreedy, InRange, Ordered, Nodes, NodeAt, Active, Cost, Weight, IsQueue;
    var act := Active(used, leaves, merges, |merges|);
    FrontIsFirst(h, heapLen, key);
    FrontIsFirst(h1, heapLen - 1, key);
    TakenAreLightest(act, w, key, Nodes(h, heapLen), Nodes(h1, heapLen - 1), n, m);
    FatherWeight(used, leaves, merges, w, n, m);
  }

  lemma FatherWeight(used: seq<bool>, leaves: nat, merges: seq<Merge>, w: seq<nat>, n: nat, m: nat)
    requires IsRun(used, leaves, merges, w) && IsGreedy(used, leaves, merges, w)
    requires |used| == leaves && |w| == leaves + |merges|
    requires Lightest(Active(used, leaves, merges, |merges|), w, n, m)
    ensures n < |w| && m < |w| && w[n] + w[m] <= Weight(Active(used, leaves, merges, |merges|), w)
    ensures var merges', w' := merges + [Merge(n, m)], w + [w[n] + w[m]];
            Weight(Active(used, leaves, merges', |merges'|), w') == Weight(Active(used, leaves, merges, |merges|), w)
  {
    hide IsRun, IsGreedy, Active, Weight, Lightest;
    RunExtends(used, leaves, merges, w, n, m);
    var merges', w' := merges + [Merge(n, m)], w + [w[n] + w[m]];
    WeightKept(used, leaves, merges', w', |merges|);
    ActivePrefix(used, leaves, merges, Merge(n, m), |merges|);
    WeightSame(Active(used, leaves, merges, |merges|), w, w[n] + w[m]);
  }

  lemma KeysExtend(key: seq<nat>, w: seq<nat>, k: nat, v: nat)
    requires KeysMatch(key, w) && 256 * v <= k < 256 * v + 256
    ensures KeysMatch(key + [k], w + [v])
  {
  }

  lemma NodeAtExtends(merges: seq<Merge>, m: Merge, p: nat)
    requires p < 2 * |merges|
    ensures NodeAt(merges + [m], p) == NodeAt(merges, p)
  {
  }

  lemma MergeStep(used: seq<bool>, leaves: nat, merges: seq<Merge>, w: seq<nat>, key: seq<nat>,
                  h: seq<nat>, heapLen: nat, total: nat, count: nat, h1: seq<nat>, n: nat, m: nat,
                  h4: seq<nat>, key': seq<nat>)
    requires Merging(used, leaves, merges, w, key, h, heapLen, total, count) && 2 <= heapLen
    requires |h1| == HEAP_SIZE == |h4| && InRange(h1, heapLen - 1, |key|) && Ordered(h1, heapLen - 1, key, 1)
    requires n == h[1] && m == h1[1] && Nodes(h, heapLen) == Nodes(h1, heapLen - 1) + multiset{n}
    requires |used| == leaves && |w| == leaves + |merges| && n < |w| && m < |w|
    requires |key'| == |key| + 1 && key'[..|key|] == key && 256 * (w[n] + w[m]) <= key'[|key|] < 256 * (w[n] + w[m]) + 256
    requires InRange(h4, heapLen - 1, |key'|) && Ordered(h4, heapLen - 1, key', 1)
    requires Nodes(h4, heapLen - 1) == Nodes(h1, heapLen - 1) - multiset{m} + multiset{leaves + |merges|}
    requires heapLen + 1 + 2 * |merges| < HEAP_SIZE
    requires h4[HEAP_SIZE - 1 - 2 * |merges|] == n && h4[HEAP_SIZE - 2 - 2 * |merges|] == m
    requires forall j :: HEAP_SIZE - 2 * |merges| <= j < HEAP_SIZE ==> h4[j] == h[j]
    ensures Merging(used, leaves, merges + [Merge(n, m)], w + [w[n] + w[m]], key', h4, heapLen - 1, total, count)
  {
    hide IsRun, IsGreedy, InRange, Ordered, Nodes, Active, Cost, Weight, IsQueue, NodeAt, KeysMatch, Lightest;
    TakenFacts(used, leaves, merges, w, key, h, heapLen, total, count, h1, n, m);
    RunExtends(used, leaves, merges, w, n, m);
    FatherWeight(used, leaves, merges, w, n, m);
    assert key' == key + [key'[|key|]];
    KeysExtend(key, w, key'[|key|], w[n] + w[m]);
    var merges' := merges + [Merge(n, m)];
    MatchSizes(key, w);
    QueueStep(Active(used, leaves, merges, |merges|), Active(used, leaves, merges', |merges'|),
              Nodes(h, heapLen), Nodes(h1, heapLen - 1), Nodes(h4, heapLen - 1), n, m);
    forall p | 0 <= p < 2 * |merges'|
      ensures h4[HEAP_SIZE - 1 - p] == NodeAt(merges', p)
    {
      if p < 2 * |merges| {
        NodeAtExtends(merges, Merge(n, m), p);
      } else {
        LastNodes(merges, Merge(n, m), p);
      }
    }
  }

  lemma LastNodes(merges: seq<Merge>, m: Merge, p: nat)
    requires 2 * |merges| <= p < 2 * |merges| + 2
    ensures NodeAt(merges + [m], p) == if p == 2 * |merges| then m.a else m.b
  {
  }

  lemma MatchSizes(key: seq<nat>, w: seq<nat>)
    requires KeysMatch(key, w)
    ensures |key| == |w|
  {
  }

  lemma FrontReplaced(h1: seq<nat>, h3: seq<nat>, len: nat, key: seq<nat>, key': seq<nat>)
    requires 1 <= len < |h1| == |h3| && InRange(h1, len, |key|) && Ordered(h1, len, key, 1)
    requires h3[1] == |key| && |key'| == |key| + 1 && key'[..|key|] == key
    requires forall j :: 2 <= j <= len ==> h3[j] == h1[j]
    ensures InRange(h3, len, |key'|) && Ordered(h3, len, key', 2)
    ensures Nodes(h3, len) == Nodes(h1, len) - multiset{h1[1]} + multiset{|key|}
  {
    forall j | 1 <= j <= len
      ensures h3[j] < |key'|
    {
    }
    forall j | 2 <= j <= len && 2 <= j / 2
      ensures key'[h3[j / 2]] <= key'[h3[j]]
    {
      assert key'[h3[j / 2]] == key[h1[j / 2]];
      assert key'[h3[j]] == key[h1[j]];
    }
    ReplaceFront(h1, len, |key|);
    NodesSame(h1[1 := |key|], h3, len);
  }

  // ---- Filling the heap

  /** After the first n symbols: the queue holds the used ones, in order. */
  ghost predicate Filling(h: seq<nat>, heapLen: nat, used: seq<bool>, maxCode: int) {
    |h| == HEAP_SIZE && heapLen <= |used| && 2 * |used| < HEAP_SIZE &&
    IsQueue(Nodes(h, heapLen), used) &&
    -1 <= maxCode < |used| && (maxCode == -1 <==> heapLen == 0) && (maxCode >= 0 ==> used[maxCode]) &&
    (forall x :: 0 <= x < |used| && used[x] ==> x <= maxCode) &&
    (heapLen == 1 ==> forall x :: 0 <= x < |used| && used[x] ==> x == maxCode)
  }

  lemma Pushed(h: seq<nat>, h': seq<nat>, len: nat, v: nat)
    requires len + 1 < |h| == |h'| && h' == h[len + 1 := v]
    ensures Nodes(h', len + 1) == Nodes(h, len) + multiset{v}
  {
    assert h'[1..len + 2] == h[1..len + 1] + [v];
  }

  lemma FillUsed(h: seq<nat>, h': seq<nat>, heapLen: nat, used: seq<bool>, maxCode: int)
    requires Filling(h, heapLen, used, maxCode) && 2 * (|used| + 1) < HEAP_SIZE
    requires |h'| == |h| && h' == h[heapLen + 1 := |used|]
    ensures Filling(h', heapLen + 1, used + [true], |used|)
  {
    hide Nodes;
    Pushed(h, h', heapLen, |used|);
  }

  lemma FillUnused(h: seq<nat>, heapLen: nat, used: seq<bool>, maxCode: int)
    requires Filling(h, heapLen, used, maxCode) && 2 * (|used| + 1) < HEAP_SIZE
    ensures Filling(h, heapLen, used + [false], maxCode)
  {
    hide Nodes;
  }

  /** The symbol that is forced in when there are fewer than two. */
  function ForcedNode(maxCode: int): int {
    if maxCode < 2 then maxCode + 1 else 0
  }

  lemma FillForced(h: seq<nat>, h': seq<nat>, heapLen: nat, used: seq<bool>, maxCode: int)
    requires Filling(h, heapLen, used, maxCode) && heapLen < 2 && |used| >= 3
    requires |h'| == |h| && h' == h[heapLen + 1 := ForcedNode(maxCode)]
    ensures ForcedNode(maxCode) <= 2 && !used[ForcedNode(maxCode)]
    ensures Filling(h', heapLen + 1, used[ForcedNode(maxCode) := true], if maxCode < 2 then maxCode + 1 else maxCode)
  {
    hide Nodes;
    Pushed(h, h', heapLen, ForcedNode(maxCode));
  }

  /** The symbols that had to be added. */
  ghost predicate ForcedIn(freq: seq<nat>, w: seq<nat>, used: seq<bool>, forced: seq<bool>) {
    |freq| == |w| == |used| == |forced| &&
    forall x :: 0 <= x < |used| ==>
      (used[x] <==> w[x] > 0) &&
      (if forced[x] then freq[x] == 0 && w[x] == 1 && x <= 2 else w[x] == freq[x])
  }

  lemma ForceOne(freq: seq<nat>, w: seq<nat>, used: seq<bool>, forced: seq<bool>, x: nat)
    requires ForcedIn(freq, w, used, forced) && x < |used| && x <= 2 && !used[x]
    ensures !forced[x] && ForcedIn(freq, w[x := 1], used[x := true], forced[x := true])
  {
  }

  lemma {:induction false} SizeOne(act: seq<bool>, x: nat, n: nat)
    requires n <= |act| && x < |act| && !act[x]
    ensures Size(act[x := true], n) == Size(act, n) + if x < n then 1 else 0
  {
    if n > 0 {
      SizeOne(act, x, n - 1);
    }
  }

  /** What the forced symbols add to a cost when each weighs 1. */
  function LengthSum(act: seq<bool>, len: seq<nat>, n: nat): nat
    requires n <= |act| && n <= |len|
  {
    if n == 0 then 0 else LengthSum(act, len, n - 1) + if act[n - 1] then len[n - 1] else 0
  }

  lemma {:induction false} LengthSumOne(act: seq<bool>, len: seq<nat>, x: nat, n: nat)
    requires n <= |act| && n <= |len| && x < |act| && !act[x]
    ensures LengthSum(act[x := true], len, n) == LengthSum(act, len, n) + if x < n then len[x] else 0
  {
    if n > 0 {
      LengthSumOne(act, len, x, n - 1);
    }
  }

  lemma {:induction false} NoLengthSum(act: seq<bool>, len: seq<nat>, n: nat)
    requires n <= |act| && n <= |len| && forall x :: 0 <= x < n ==> !act[x]
    ensures LengthSum(act, len, n) == 0 && Size(act, n) == 0
  {
    if n > 0 {
      NoLengthSum(act, len, n - 1);
    }
  }

  /** The cost without the forced symbols. */
  lemma {:induction false} ForcedCost(freq: seq<nat>, w: seq<nat>, used: seq<bool>, forced: seq<bool>, len: seq<nat>, n: nat)
    requires |w| >= |freq| && ForcedIn(freq, w[..|freq|], used, forced) && n <= |freq| && n <= |len|
    ensures Cost(used, w, len, n) == Cost(used, freq, len, n) + LengthSum(forced, len, n)
  {
    if n > 0 {
      ForcedCost(freq, w, used, forced, len, n - 1);
      assert w[..|freq|][n - 1] == w[n - 1];
    }
  }

  lemma FillFacts(h: seq<nat>, heapLen: nat, used: seq<bool>, maxCode: int)
    requires Filling(h, heapLen, used, maxCode)
    ensures |h| == HEAP_SIZE && heapLen <= |used| && 2 * |used| < HEAP_SIZE && -1 <= maxCode < |used|
    ensures heapLen > 0 ==> maxCode >= 0
  {
    hide Nodes;
  }

  lemma FillStart(h: seq<nat>)
    requires |h| == HEAP_SIZE
    ensures Filling(h, 0, [], -1)
  {
    assert h[1..1] == [];
  }

  ghost predicate Bytes(d: seq<nat>) {
    forall x :: 0 <= x < |d| ==> d[x] < 256
  }

  lemma ByteSet(d: seq<nat>, x: nat, v: nat)
    requires Bytes(d) && x < |d| && v < 256
    ensures Bytes(d[x := v])
  {
  }

  function NoneOf(n: nat): (r: seq<bool>)
    ensures |r| == n && forall x :: 0 <= x < n ==> !r[x]
  {
    seq(n, x => false)
  }

  lemma NothingForced(desc: StaticDesc, freq: seq<nat>, used: seq<bool>)
    requires ValidDesc(desc)
    requires |freq| == |used| == desc.elems && forall x :: 0 <= x < |used| ==> (used[x] <==> freq[x] > 0)
    ensures ForcedIn(freq, freq, used, NoneOf(|used|)) && Size(NoneOf(|used|), |used|) == 0
    ensures desc.staticLens.Some? ==> |desc.staticLens.value| >= |used|
    ensures desc.staticLens.Some? ==> LengthSum(NoneOf(|used|), desc.staticLens.value, |used|) == 0
  {
    hide NoneOf;
    NoLengthSum(NoneOf(|used|), Ones(|used|), |used|);
    if desc.staticLens.Some? {
      NoLengthSum(NoneOf(|used|), desc.staticLens.value, |used|);
    }
  }

  /** At least two codes of non zero frequency are forced. */
  method ForceCodes(s: State, desc: StaticDesc, fc: array<nat>, dl: array<nat>, max0: int, ghost freq: seq<nat>,
                    ghost used0: seq<bool>, ghost forced0: seq<bool>) returns (max: int, ghost used: seq<bool>, ghost forced: seq<bool>)
    requires s.Valid() && ValidDesc(desc) && Apart(s, fc, dl) && desc.elems <= fc.Length && desc.elems <= dl.Length
    requires |used0| == |forced0| == desc.elems && Filling(s.heap[..], s.heapLen, used0, max0) && Bytes(s.depth[..])
    requires ForcedIn(freq, fc[..desc.elems], used0, forced0) && Size(forced0, desc.elems) == 0
    requires desc.staticLens.Some? ==> |desc.staticLens.value| >= desc.elems && LengthSum(forced0, desc.staticLens.value, desc.elems) == 0
    requires forall x :: 0 <= x < desc.elems && !used0[x] ==> dl[x] == 0
    modifies s`heapLen, s`optLen, s`staticLen, s.heap, s.depth, fc
    ensures |used| == |forced| == desc.elems && Filling(s.heap[..], s.heapLen, used, max) && Bytes(s.depth[..]) && 2 <= s.heapLen
    ensures ForcedIn(freq, fc[..desc.elems], used, forced)
    ensures Size(forced, desc.elems) > 0 ==> s.heapLen <= 2
    ensures s.optLen == old(s.optLen) - Size(forced, desc.elems)
    ensures s.staticLen == old(s.staticLen) -
              if desc.staticLens.Some? then LengthSum(forced, desc.staticLens.value, desc.elems) else 0
    ensures forall x :: 0 <= x < desc.elems && !used[x] ==> dl[x] == 0
  {
    hide *;
    StateSizes(s);
    AreApart(s, fc, dl);
    DescFacts(desc);
    max, used, forced := max0, used0, forced0;
    while s.heapLen < 2
      modifies s`heapLen, s`optLen, s`staticLen, s.heap, s.depth, fc
      invariant |used| == |forced| == desc.elems && Filling(s.heap[..], s.heapLen, used, max) && Bytes(s.depth[..])
      invariant ForcedIn(freq, fc[..desc.elems], used, forced)
      invariant Size(forced, desc.elems) > 0 ==> s.heapLen <= 2
      invariant s.optLen == old(s.optLen) - Size(forced, desc.elems)
      invariant s.staticLen == old(s.staticLen) -
                if desc.staticLens.Some? then LengthSum(forced, desc.staticLens.value, desc.elems) else 0
      invariant forall x :: 0 <= x < desc.elems && !used[x] ==> dl[x] == 0
    {
      FillFacts(s.heap[..], s.heapLen, used, max);
      ghost var h, depth, w := s.heap[..], s.depth[..], fc[..desc.elems];
      ghost var max0 := max;
      ForcedMeans(max);
      var node: nat;
      if max < 2 {
        max := max + 1;
        node := max;
      } else {
        node := 0;
      }
      s.heapLen := s.heapLen + 1;
      s.heap[s.heapLen] := node;
      FillForced(h, s.heap[..], s.heapLen - 1, used, max0);
      ForceOne(freq, w, used, forced, node);
      SizeOne(forced, node, desc.elems);
      fc[node] := 1;
      assert fc[..desc.elems] == w[node := 1];
      s.depth[node] := 0;
      ByteSet(depth, node, 0);
      assert s.depth[..] == depth[node := 0];
      s.optLen := s.optLen - 1;
      if desc.staticLens.Some? {
        LengthSumOne(forced, desc.staticLens.value, node, desc.elems);
        s.staticLen := s.staticLen - desc.staticLens.value[node];
      }
      used, forced := used[node := true], forced[node := true];
    }
  }

  /** build_tree, the initial heap: every used symbol, and at least two. */
  method FillHeap(s: State, desc: StaticDesc, fc: array<nat>, dl: array<nat>)
    returns (maxCode: nat, ghost used: seq<bool>, ghost forced: seq<bool>)
    requires s.Valid() && ValidDesc(desc) && Apart(s, fc, dl) && desc.elems <= fc.Length && desc.elems <= dl.Length
    requires Bytes(s.depth[..])
    modifies s, s.heap, s.depth, fc, dl
    ensures Filling(s.heap[..], s.heapLen, used, maxCode) && 2 <= s.heapLen && |used| == desc.elems
    ensures ForcedIn(old(fc[..desc.elems]), fc[..desc.elems], used, forced)
    ensures Size(forced, desc.elems) > 0 ==> s.heapLen == 2
    ensures s.optLen == old(s.optLen) - Size(forced, desc.elems)
    ensures desc.staticLens.Some? ==> |desc.staticLens.value| >= desc.elems
    ensures s.staticLen == old(s.staticLen) -
              if desc.staticLens.Some? then LengthSum(forced, desc.staticLens.value, desc.elems) else 0
    ensures s.heapMax == HEAP_SIZE && Bytes(s.depth[..])
    ensures forall x :: 0 <= x < desc.elems && !used[x] ==> dl[x] == 0
  {
    hide *;
    StateSizes(s);
    AreApart(s, fc, dl);
    DescFacts(desc);
    s.heapLen, s.heapMax := 0, HEAP_SIZE;
    var max: int := -1;
    used := [];
    ghost var freq := fc[..desc.elems];
    FillStart(s.heap[..]);
    for n := 0 to desc.elems
      modifies s`heapLen, s.heap, s.depth, dl
      invariant |used| == n && Filling(s.heap[..], s.heapLen, used, max) && Bytes(s.depth[..])
      invariant forall x :: 0 <= x < n ==> (used[x] <==> fc[x] > 0)
      invariant forall x :: 0 <= x < n && !used[x] ==> dl[x] == 0
    {
      FillFacts(s.heap[..], s.heapLen, used, max);
      ghost var h, depth := s.heap[..], s.depth[..];
      if fc[n] != 0 {
        s.heapLen := s.heapLen + 1;
        s.heap[s.heapLen] := n;
        FillUsed(h, s.heap[..], s.heapLen - 1, used, max);
        max := n;
        s.depth[n] := 0;
        ByteSet(depth, n, 0);
        assert s.depth[..] == depth[n := 0];
      } else {
        FillUnused(h, s.heapLen, used, max);
        dl[n] := 0;
      }
      used := used + [fc[n] != 0];
    }
    forced := NoneOf(desc.elems);
    assert fc[..desc.elems] == freq;
    NothingForced(desc, freq, used);
    max, used, forced := ForceCodes(s, desc, fc, dl, max, freq, used, forced);
    FillFacts(s.heap[..], s.heapLen, used, max);
    maxCode := max;
  }

  lemma ForcedMeans(maxCode: int)
    ensures ForcedNode(maxCode) == if maxCode < 2 then maxCode + 1 else 0
  {
  }

  // ---- From the used symbols to the first state of the merging loop

  function FreqSum(freq: seq<nat>, n: nat): nat
    requires n <= |freq|
  {
    if n == 0 then 0 else FreqSum(freq, n - 1) + freq[n - 1]
  }

  lemma {:induction false} WeightBound(freq: seq<nat>, w: seq<nat>, used: seq<bool>, forced: seq<bool>, n: nat)
    requires ForcedIn(freq, w, used, forced) && n <= |used|
    ensures Cost(used, w, Ones(|w|), n) <= FreqSum(freq, n) + Size(forced, n)
  {
    if n > 0 {
      WeightBound(freq, w, used, forced, n - 1);
    }
  }

  lemma {:induction false} ForcedFewer(freq: seq<nat>, w: seq<nat>, used: seq<bool>, forced: seq<bool>, n: nat)
    requires ForcedIn(freq, w, used, forced) && n <= |used|
    ensures Size(forced, n) <= Size(used, n)
  {
    if n > 0 {
      ForcedFewer(freq, w, used, forced, n - 1);
    }
  }

  lemma {:induction false} QueueSize(nodes: multiset<nat>, act: seq<bool>)
    requires IsQueue(nodes, act)
    ensures |nodes| == Size(act, |act|)
    decreases |act|
  {
    if |act| == 0 {
      assert forall x: nat :: nodes[x] == 0;
      assert nodes == multiset{};
    } else {
      var n: nat, act' := |act| - 1, act[..|act| - 1];
      SizePrefix(act, n);
      assert nodes[n] == if act[n] then 1 else 0;
      var rest := if act[n] then nodes - multiset{n} else nodes;
      forall x: nat
        ensures rest[x] == if x < |act'| && act'[x] then 1 else 0
      {
        assert nodes[x] == if x < |act| && act[x] then 1 else 0;
      }
      QueueSize(rest, act');
    }
  }

  lemma {:induction false} SizePrefix(act: seq<bool>, n: nat)
    requires n <= |act|
    ensures Size(act[..n], n) == Size(act, n)
    decreases n
  {
    if n > 0 {
      SizePrefix(act, n - 1);
      SizePrefix(act[..n], n - 1);
      assert act[..n][..n - 1] == act[..n - 1];
    }
  }

  function Keys(fc: seq<nat>, depth: seq<nat>, n: nat): (r: seq<nat>)
    requires n <= |fc| && n <= |depth|
    ensures |r| == n && forall x :: 0 <= x < n ==> r[x] == 256 * fc[x] + depth[x]
  {
    seq(n, x requires 0 <= x < n => 256 * fc[x] + depth[x])
  }

  /** The start of the loop that puts the heap in order. */
  lemma Unordered(h: seq<nat>, heapLen: nat, used: seq<bool>, maxCode: int, key: seq<nat>)
    requires Filling(h, heapLen, used, maxCode) && |key| == |used|
    ensures heapLen < |h| && InRange(h, heapLen, |key|) && Ordered(h, heapLen, key, heapLen / 2 + 1)
    ensures IsQueue(Nodes(h, heapLen), used)
  {
    forall j | 1 <= j <= heapLen
      ensures h[j] < |key|
    {
      assert h[1..heapLen + 1][j - 1] == h[j];
      assert h[j] in Nodes(h, heapLen);
    }
  }

  lemma MergingStarts(used: seq<bool>, w: seq<nat>, key: seq<nat>, h: seq<nat>, heapLen: nat)
    requires |used| == |w| && KeysMatch(key, w) && 2 * |used| < HEAP_SIZE == |h| && 1 <= heapLen <= |used|
    requires InRange(h, heapLen, |key|) && Ordered(h, heapLen, key, 1) && IsQueue(Nodes(h, heapLen), used)
    ensures Merging(used, |used|, [], w, key, h, heapLen, Weight(used, w), heapLen)
  {
    AllActive(used, |used|, []);
  }

  lemma MergingFacts(used: seq<bool>, leaves: nat, merges: seq<Merge>, w: seq<nat>, key: seq<nat>,
                     h: seq<nat>, heapLen: nat, total: nat, count: nat)
    requires Merging(used, leaves, merges, w, key, h, heapLen, total, count)
    ensures |key| == |w| == leaves + |merges| && |h| == HEAP_SIZE && 1 <= heapLen && heapLen + |merges| == count <= leaves
    ensures InRange(h, heapLen, |key|) && Ordered(h, heapLen, key, 1) && 2 * leaves < HEAP_SIZE
    ensures forall p :: 0 <= p < 2 * |merges| ==> h[HEAP_SIZE - 1 - p] == NodeAt(merges, p)
    ensures forall x :: 0 <= x < |w| ==> 256 * w[x] <= key[x] < 256 * w[x] + 256
  {
    hide IsRun, IsGreedy, Active, Weight, IsQueue, Ordered, NodeAt;
  }

  /** When one node is left in the queue it is the root. */
  lemma MergingEnds(used: seq<bool>, leaves: nat, merges: seq<Merge>, w: seq<nat>, key: seq<nat>,
                    h: seq<nat>, total: nat, count: nat, h': seq<nat>)
    requires Merging(used, leaves, merges, w, key, h, 1, total, count) && 2 <= count
    requires 2 * |merges| < HEAP_SIZE && |h'| == |h| && h' == h[HEAP_SIZE - 1 - 2 * |merges| := h[1]]
    ensures IsTree(used, leaves, merges, w) && Queued(h', leaves, merges)
  {
    hide IsRun, IsGreedy, NodeAt, Weight, Ordered, Active;
    var act := Active(used, leaves, merges, |merges|);
    var root := leaves + |merges| - 1;
    NextActive(used, leaves, merges, w, |merges| - 1);
    assert act[root];
    assert h[1..2] == [h[1]];
    assert Nodes(h, 1) == multiset{h[1]};
    assert root in Nodes(h, 1);
    forall x | 0 <= x < leaves + |merges|
      ensures act[x] <==> x == root
    {
      assert act[x] <==> x in Nodes(h, 1);
    }
  }

  ghost predicate Fathered(dl: seq<nat>, leaves: nat, merges: seq<Merge>) {
    forall p :: 0 <= p < 2 * |merges| ==> NodeAt(merges, p) < |dl| && dl[NodeAt(merges, p)] == leaves + p / 2
  }

  /** Fathers are recorded in the order of the merges. */
  lemma FatheredStep(dl: seq<nat>, dl': seq<nat>, used: seq<bool>, leaves: nat, merges: seq<Merge>, w: seq<nat>, n: nat, m: nat)
    requires Fathered(dl, leaves, merges) && IsRun(used, leaves, merges + [Merge(n, m)], w)
    requires n < |dl| && m < |dl| && dl' == dl[n := leaves + |merges|][m := leaves + |merges|]
    ensures Fathered(dl', leaves, merges + [Merge(n, m)])
  {
    hide IsRun, NodeAt;
    var merges' := merges + [Merge(n, m)];
    forall p | 0 <= p < 2 * |merges'|
      ensures NodeAt(merges', p) < |dl'| && dl'[NodeAt(merges', p)] == leaves + p / 2
    {
      LastNodes(merges, Merge(n, m), 2 * |merges|);
      LastNodes(merges, Merge(n, m), 2 * |merges| + 1);
      if p < 2 * |merges| {
        NodeAtExtends(merges, Merge(n, m), p);
        TakenOnce(used, leaves, merges', w, p, 2 * |merges|);
        TakenOnce(used, leaves, merges', w, p, 2 * |merges| + 1);
      }
    }
  }

  lemma MergingRun(used: seq<bool>, leaves: nat, merges: seq<Merge>, w: seq<nat>, key: seq<nat>,
                   h: seq<nat>, heapLen: nat, total: nat, count: nat)
    requires Merging(used, leaves, merges, w, key, h, heapLen, total, count)
    ensures IsRun(used, leaves, merges, w) && |used| == leaves && IsGreedy(used, leaves, merges, w)
  {
  }

  /** A leaf that is not used is never merged. */
  lemma MergedWasUsed(used: seq<bool>, leaves: nat, merges: seq<Merge>, w: seq<nat>, n: nat, m: nat)
    requires IsRun(used, leaves, merges + [Merge(n, m)], w) && |used| == leaves
    ensures n < leaves ==> used[n]
    ensures m < leaves ==> used[m]
  {
    hide IsRun, NodeAt, Left;
    var merges' := merges + [Merge(n, m)];
    LastNodes(merges, Merge(n, m), 2 * |merges|);
    LastNodes(merges, Merge(n, m), 2 * |merges| + 1);
    NodeAtFacts(used, leaves, merges', w, 2 * |merges|);
    NodeAtFacts(used, leaves, merges', w, 2 * |merges| + 1);
    LeftWasUsed(used, merges', 2 * |merges|);
    LeftWasUsed(used, merges', 2 * |merges| + 1);
  }

  /** build_tree, a new node father of n and m. */
  method MakeFather(depth: array<nat>, fc: array<nat>, dl: array<nat>, node: nat, n: nat, m: nat,
                    ghost used: seq<bool>, ghost leaves: nat, ghost merges: seq<Merge>, ghost w: seq<nat>,
                    ghost key: seq<nat>)
    returns (ghost key': seq<nat>)
    requires fc != dl && depth != fc && depth != dl
    requires |w| == |key| == leaves + |merges| == node && n < |w| && m < |w| && w[n] + w[m] < 65536
    requires node < depth.Length && node < fc.Length && node < dl.Length
    requires AreKeys(fc, depth, key) && Bytes(depth[..]) && forall x :: 0 <= x < |w| ==> fc[x] == w[x]
    requires |used| == leaves && Fathered(dl[..], leaves, merges)
    requires IsRun(used, leaves, merges + [Merge(n, m)], w + [w[n] + w[m]])
    requires forall x :: 0 <= x < leaves && !used[x] ==> dl[x] == 0
    modifies depth, fc, dl
    ensures |key'| == |key| + 1 && key'[..|key|] == key
    ensures 256 * (w[n] + w[m]) <= key'[|key|] < 256 * (w[n] + w[m]) + 256
    ensures AreKeys(fc, depth, key') && Bytes(depth[..])
    ensures fc[|w|] == w[n] + w[m] && forall x :: 0 <= x < |w| ==> fc[x] == w[x]
    ensures Fathered(dl[..], leaves, merges + [Merge(n, m)])
    ensures forall x :: 0 <= x < leaves && !used[x] ==> dl[x] == 0
  {
    hide *;
    ghost var d: seq<nat>, f: seq<nat> := depth[..], fc[..];
    FatherKeys(fc, depth, key, w, n, m);
    fc[node] := Ush(fc[n] + fc[m]);
    depth[node] := ((if depth[n] >= depth[m] then depth[n] else depth[m]) + 1) % 256;
    key' := key + [256 * fc[node] + depth[node]];
    ByteSet(d, node, depth[node]);
    assert depth[..] == d[node := depth[node]];
    assert fc[..] == f[node := fc[node]];
    KeysStay(fc, depth, f, d, key, key');
    ghost var l: seq<nat> := dl[..];
    dl[n] := node;
    dl[m] := node;
    assert dl[..] == l[n := node][m := node];
    FatheredStep(l, dl[..], used, leaves, merges, w + [w[n] + w[m]], n, m);
    MergedWasUsed(used, leaves, merges, w + [w[n] + w[m]], n, m);
  }

  /** The two nodes are kept at the end of the heap, in the order they came. */
  method KeepNodes(s: State, n: nat, m: nat)
    requires s.Valid() && 2 <= s.heapMax <= HEAP_SIZE
    modifies s`heapMax, s.heap
    ensures s.heapMax == old(s.heapMax) - 2 && s.heap.Length == HEAP_SIZE
    ensures s.heap[s.heapMax] == m && s.heap[s.heapMax + 1] == n
    ensures forall j :: 0 <= j < HEAP_SIZE && j != s.heapMax && j != s.heapMax + 1 ==> s.heap[j] == old(s.heap[j])
  {
    s.heapMax := s.heapMax - 1;
    s.heap[s.heapMax] := n;
    s.heapMax := s.heapMax - 1;
    s.heap[s.heapMax] := m;
  }

  /** build_tree, one merge of the two least frequent nodes. */
  method MergeTwo(s: State, fc: array<nat>, dl: array<nat>, node: nat,
                  ghost used: seq<bool>, ghost leaves: nat, ghost merges: seq<Merge>, ghost w: seq<nat>,
                  ghost key: seq<nat>, ghost total: nat, ghost count: nat)
    returns (ghost merges': seq<Merge>, ghost w': seq<nat>, ghost key': seq<nat>)
    requires s.Valid() && Apart(s, fc, dl) && 2 * leaves <= fc.Length && 2 * leaves <= dl.Length
    requires Merging(used, leaves, merges, w, key, s.heap[..], s.heapLen, total, count) && 2 <= s.heapLen
    requires node == leaves + |merges| && s.heapMax == HEAP_SIZE - 2 * |merges| && total < 65536
    requires AreKeys(fc, s.depth, key) && Bytes(s.depth[..]) && |w| <= fc.Length && forall x :: 0 <= x < |w| ==> fc[x] == w[x]
    requires Fathered(dl[..], leaves, merges) && |used| == leaves
    requires forall x :: 0 <= x < leaves && !used[x] ==> dl[x] == 0
    modifies s`heapLen, s`heapMax, s.heap, s.depth, fc, dl
    ensures |merges'| == |merges| + 1 && s.heapLen == old(s.heapLen) - 1 && s.heapMax == HEAP_SIZE - 2 * |merges'|
    ensures Merging(used, leaves, merges', w', key', s.heap[..], s.heapLen, total, count)
    ensures AreKeys(fc, s.depth, key') && Bytes(s.depth[..]) && |w'| <= fc.Length && forall x :: 0 <= x < |w'| ==> fc[x] == w'[x]
    ensures Fathered(dl[..], leaves, merges')
    ensures forall x :: 0 <= x < leaves && !used[x] ==> dl[x] == 0
    ensures forall x :: 0 <= x < leaves ==> fc[x] == old(fc[x])
  {
    hide *;
    StateSizes(s);
    AreApart(s, fc, dl);
    MergingFacts(used, leaves, merges, w, key, s.heap[..], s.heapLen, total, count);
    ghost var h, len := s.heap[..], s.heapLen;
    var n: nat;
    n, s.heapLen := PqRemove(s.heap, s.heapLen, fc, s.depth, key);
    ghost var h1 := s.heap[..];
    var m := s.heap[1];
    TakenFacts(used, leaves, merges, w, key, h, len, total, count, h1, n, m);
    MergingRun(used, leaves, merges, w, key, h, len, total, count);
    RunExtends(used, leaves, merges, w, n, m);
    KeepNodes(s, n, m);
    merges', w' := merges + [Merge(n, m)], w + [w[n] + w[m]];
    key' := MakeFather(s.depth, fc, dl, node, n, m, used, leaves, merges, w, key);
    s.heap[1] := node;
    FrontReplaced(h1, s.heap[..], s.heapLen, key, key');
    PqDownHeap(s.heap, s.heapLen, fc, s.depth, 1, key');
    MergeStep(used, leaves, merges, w, key, h, len, total, count, h1, n, m, s.heap[..], key');
  }

  lemma FatherKeys(fc: array<nat>, depth: array<nat>, key: seq<nat>, w: seq<nat>, n: nat, m: nat)
    requires AreKeys(fc, depth, key) && n < |w| && m < |w| && |w| == |key|
    ensures |key| <= fc.Length && |key| <= depth.Length
    ensures forall x :: 0 <= x < |key| ==> depth[..][x] < 256 && key[x] == 256 * fc[..][x] + depth[..][x]
    ensures w[n] + w[m] < 65536 ==> Ush(w[n] + w[m]) == w[n] + w[m]
  {
  }

  lemma KeysStay(fc: array<nat>, depth: array<nat>, f: seq<nat>, d: seq<nat>, key: seq<nat>, key': seq<nat>)
    requires |key| < |f| && |key| < |d| && |f| == fc.Length && |d| == depth.Length
    requires forall x :: 0 <= x < |key| ==> d[x] < 256 && key[x] == 256 * f[x] + d[x]
    requires fc[..] == f[|key| := fc[|key|]] && depth[..] == d[|key| := depth[|key|]] && depth[|key|] < 256
    requires key' == key + [256 * fc[|key|] + depth[|key|]]
    ensures AreKeys(fc, depth, key')
  {
    assert forall x :: 0 <= x < |key| ==> fc[..][x] == f[x] && depth[..][x] == d[x];
  }
}
