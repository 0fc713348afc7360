/** The order in which Huffman's algorithm takes the nodes off the queue: the heap
    array keeps it, and the code lengths are assigned along it. */
module MergeOrder {
  import opened BitStrings
  import opened Canonical
  import opened HuffmanTheory

  /** The p-th node taken off the queue. */
  function NodeAt(merges: seq<Merge>, p: nat): nat
    requires p < 2 * |merges|
  {
    if p % 2 == 0 then merges[p / 2].a else merges[p / 2].b
  }

  /** The leaves not yet taken off the queue after p steps. */
  function Left(used: seq<bool>, merges: seq<Merge>, p: nat): (r: seq<bool>)
    requires p <= 2 * |merges|
    ensures |r| == |used|
  {
    if p == 0 then used
    else
      var r, n := Left(used, merges, p - 1), NodeAt(merges, p - 1);
      if n < |used| then r[n := false] else r
  }

  lemma {:induction false} LeftIsActive(used: seq<bool>, leaves: nat, merges: seq<Merge>, w: seq<nat>, i: nat)
    requires IsRun(used, leaves, merges, w) && i <= |merges|
    ensures forall x :: 0 <= x < leaves ==> Left(used, merges, 2 * i)[x] == Active(used, leaves, merges, i)[x]
  {
    hide IsRun, Active;
    RunSizes(used, leaves, merges, w);
    if i > 0 {
      LeftIsActive(used, leaves, merges, w, i - 1);
      NextActive(used, leaves, merges, w, i - 1);
      assert NodeAt(merges, 2 * i - 1) == merges[i - 1].b;
      assert NodeAt(merges, 2 * i - 2) == merges[i - 1].a;
      var r := Left(used, merges, 2 * i - 2);
      assert forall x :: 0 <= x < leaves ==>
        Left(used, merges, 2 * i - 1)[x] == (r[x] && x != merges[i - 1].a);
    } else {
      AllActive(used, leaves, merges);
    }
  }

  lemma AllActive(used: seq<bool>, leaves: nat, merges: seq<Merge>)
    requires |used| == leaves
    ensures Active(used, leaves, merges, 0) == used
  {
  }

  lemma RunSizes(used: seq<bool>, leaves: nat, merges: seq<Merge>, w: seq<nat>)
    requires IsRun(used, leaves, merges, w)
    ensures |used| == leaves && |w| >= leaves + |merges|
  {
  }

  /** Each node taken is older than its father, and a leaf that is taken was there to take. */
  lemma NodeAtFacts(used: seq<bool>, leaves: nat, merges: seq<Merge>, w: seq<nat>, p: nat)
    requires IsRun(used, leaves, merges, w) && p < 2 * |merges|
    ensures |used| == leaves && NodeAt(merges, p) < leaves + p / 2
    ensures NodeAt(merges, p) < leaves ==> Left(used, merges, p)[NodeAt(merges, p)]
  {
    hide IsRun, Active;
    RunSizes(used, leaves, merges, w);
    var i := p / 2;
    LeftIsActive(used, leaves, merges, w, i);
    NextActive(used, leaves, merges, w, i);
    if p % 2 == 1 {
      assert NodeAt(merges, p - 1) == merges[i].a;
    }
  }

  lemma {:induction false} Gone(used: seq<bool>, leaves: nat, merges: seq<Merge>, w: seq<nat>, i: nat, j: nat, x: nat)
    requires IsRun(used, leaves, merges, w) && i < j <= |merges| && (x == merges[i].a || x == merges[i].b)
    ensures |used| == leaves && x < leaves + i && !Active(used, leaves, merges, j)[x]
  {
    hide IsRun, Active;
    NextActive(used, leaves, merges, w, j - 1);
    RunSizes(used, leaves, merges, w);
    NextActive(used, leaves, merges, w, i);
    if i < j - 1 {
      Gone(used, leaves, merges, w, i, j - 1, x);
    }
  }

  /** No node is taken twice. */
  lemma TakenOnce(used: seq<bool>, leaves: nat, merges: seq<Merge>, w: seq<nat>, p: nat, q: nat)
    requires IsRun(used, leaves, merges, w) && p < q < 2 * |merges|
    ensures NodeAt(merges, p) != NodeAt(merges, q)
  {
    hide IsRun, Active;
    RunSizes(used, leaves, merges, w);
    NextActive(used, leaves, merges, w, q / 2);
    if p / 2 < q / 2 {
      Gone(used, leaves, merges, w, p / 2, q / 2, NodeAt(merges, p));
    }
  }

  /** Every leaf is taken in the end. */
  lemma NoneLeft(used: seq<bool>, leaves: nat, merges: seq<Merge>, w: seq<nat>)
    requires IsRun(used, leaves, merges, w) && |used| == leaves && EndsInRoot(used, leaves, merges)
    ensures forall x :: 0 <= x < leaves ==> !Left(used, merges, 2 * |merges|)[x]
  {
    LeftIsActive(used, leaves, merges, w, |merges|);
  }

  /** The queue gives the nodes in order of weight. */
  lemma NextIsHeavier(used: seq<bool>, leaves: nat, merges: seq<Merge>, w: seq<nat>, p: nat)
    requires IsRun(used, leaves, merges, w) && IsGreedy(used, leaves, merges, w) && p + 1 < 2 * |merges|
    ensures NodeAt(merges, p) < |w| && NodeAt(merges, p + 1) < |w|
    ensures w[NodeAt(merges, p)] <= w[NodeAt(merges, p + 1)]
  {
    hide IsRun, Active;
    RunSizes(used, leaves, merges, w);
    var i := p / 2;
    NextActive(used, leaves, merges, w, i);
    if p % 2 == 1 {
      NextActive(used, leaves, merges, w, i + 1);
    }
  }

  lemma {:induction false} LaterIsHeavier(used: seq<bool>, leaves: nat, merges: seq<Merge>, w: seq<nat>, p: nat, q: nat)
    requires IsRun(used, leaves, merges, w) && IsGreedy(used, leaves, merges, w) && p <= q < 2 * |merges|
    ensures NodeAt(merges, p) < |w| && NodeAt(merges, q) < |w|
    ensures w[NodeAt(merges, p)] <= w[NodeAt(merges, q)]
  {
    hide IsRun, IsGreedy;
    if p < q {
      LaterIsHeavier(used, leaves, merges, w, p, q - 1);
      NextIsHeavier(used, leaves, merges, w, q - 1);
    } else {
      NodeAtFacts(used, leaves, merges, w, p);
      RunSizes(used, leaves, merges, w);
    }
  }

  /** Where a used leaf is taken. */
  lemma {:induction false} TakenAt(used: seq<bool>, merges: seq<Merge>, p: nat, x: nat) returns (q: nat)
    requires p <= 2 * |merges| && x < |used| && used[x] && !Left(used, merges, p)[x]
    ensures q < p && NodeAt(merges, q) == x
  {
    if p > 0 {
      if Left(used, merges, p - 1)[x] {
        q := p - 1;
      } else {
        q := TakenAt(used, merges, p - 1, x);
      }
    }
  }
}
