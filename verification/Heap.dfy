/** The priority queue of trees.c: a binary heap of tree nodes in heap[1..heapLen],
    ordered by frequency, and by depth among equal frequencies. */
module Heap {

  /** The order that the macro smaller compares by, as one number. */
  ghost predicate AreKeys(fc: array<nat>, depth: array<nat>, key: seq<nat>)
    reads fc, depth
  {
    |key| <= fc.Length && |key| <= depth.Length &&
    forall x :: 0 <= x < |key| ==> depth[x] < 256 && key[x] == 256 * fc[x] + depth[x]
  }

  /** smaller */
  predicate Smaller(fc: array<nat>, depth: array<nat>, n: nat, m: nat)
    requires n < fc.Length && n < depth.Length && m < fc.Length && m < depth.Length
    reads fc, depth
  {
    fc[n] < fc[m] || (fc[n] == fc[m] && depth[n] <= depth[m])
  }

  ghost predicate InRange(h: seq<nat>, len: nat, n: nat)
    requires len < |h|
  {
    forall j :: 1 <= j <= len ==> h[j] < n
  }

  /** Each father from position k on comes no later than its sons. */
  ghost predicate Ordered(h: seq<nat>, len: nat, key: seq<nat>, k: nat)
    requires len < |h| && InRange(h, len, |key|)
  {
    forall j :: 2 <= j <= len && k <= j / 2 ==> key[h[j / 2]] <= key[h[j]]
  }

  ghost function Nodes(h: seq<nat>, len: nat): multiset<nat>
    requires len < |h|
  {
    multiset(h[1..len + 1])
  }

  /** Ordered, were it not for position k, whose contents are about to be replaced by v. */
  ghost predicate Sifting(h: seq<nat>, len: nat, key: seq<nat>, start: nat, k: nat, v: nat)
    requires len < |h| && InRange(h, len, |key|)
  {
    1 <= start <= k <= len && v < |key| &&
    (forall j :: 2 <= j <= len && start <= j / 2 && j / 2 != k ==> key[h[j / 2]] <= key[h[j]]) &&
    (start <= k / 2 ==>
       key[h[k / 2]] <= key[v] && forall j :: 2 <= j <= len && j / 2 == k ==> key[h[k / 2]] <= key[h[j]])
  }

  lemma SmallerMeans(fc: array<nat>, depth: array<nat>, key: seq<nat>, n: nat, m: nat)
    requires AreKeys(fc, depth, key) && n < |key| && m < |key|
    ensures n < fc.Length && n < depth.Length && m < fc.Length && m < depth.Length
    ensures Smaller(fc, depth, n, m) <==> key[n] <= key[m]
  {
  }

  lemma Entry(h: seq<nat>, len: nat, n: nat, j: nat)
    requires len < |h| && InRange(h, len, n) && 1 <= j <= len
    ensures h[j] < n
  {
  }

  lemma SiftStart(h: seq<nat>, len: nat, key: seq<nat>, start: nat)
    requires len < |h| && InRange(h, len, |key|) && 1 <= start <= len && Ordered(h, len, key, start + 1)
    ensures Sifting(h, len, key, start, start, h[start])
  {
  }

  lemma SiftBounds(h: seq<nat>, len: nat, key: seq<nat>, start: nat, k: nat, v: nat)
    requires len < |h| && InRange(h, len, |key|) && Sifting(h, len, key, start, k, v)
    ensures 1 <= start <= k <= len && v < |key|
  {
  }

  lemma SiftStep(h: seq<nat>, len: nat, key: seq<nat>, start: nat, k: nat, v: nat, j: nat)
    requires len < |h| && InRange(h, len, |key|) && Sifting(h, len, key, start, k, v)
    requires j <= len && j / 2 == k && key[h[j]] <= key[v]
    requires forall i :: 2 <= i <= len && i / 2 == k ==> key[h[j]] <= key[h[i]]
    ensures InRange(h[k := h[j]], len, |key|) && Sifting(h[k := h[j]], len, key, start, j, v)
    ensures Nodes(h[k := h[j]][j := v], len) == Nodes(h[k := v], len)
  {
    var h' := h[k := h[j]];
    assert k < j;
    forall i | 2 <= i <= len && start <= i / 2 && i / 2 != j
      ensures key[h'[i / 2]] <= key[h'[i]]
    {
      if i == k {
        assert i / 2 != k;
      }
    }
    forall i | 2 <= i <= len && i / 2 == j
      ensures key[h'[j / 2]] <= key[h'[i]]
    {
      assert i != k;
    }
    SwapNodes(h, len, k, j, v);
  }

  lemma SwapNodes(h: seq<nat>, len: nat, k: nat, j: nat, v: nat)
    requires 1 <= k < j <= len < |h|
    ensures Nodes(h[k := h[j]][j := v], len) == Nodes(h[k := v], len)
  {
    var s := h[1..len + 1];
    assert h[k := v][1..len + 1] == s[k - 1 := v];
    assert h[k := h[j]][j := v][1..len + 1] == s[k - 1 := s[j - 1]][j - 1 := v];
    var t := s[k - 1 := v];
    assert multiset(t) == multiset(s) - multiset{s[k - 1]} + multiset{v};
    var u := s[k - 1 := s[j - 1]];
    assert multiset(u) == multiset(s) - multiset{s[k - 1]} + multiset{s[j - 1]};
    assert multiset(u[j - 1 := v]) == multiset(u) - multiset{u[j - 1]} + multiset{v};
  }

  lemma SiftDone(h: seq<nat>, len: nat, key: seq<nat>, start: nat, k: nat, v: nat)
    requires len < |h| && InRange(h, len, |key|) && Sifting(h, len, key, start, k, v)
    requires forall i :: 2 <= i <= len && i / 2 == k ==> key[v] <= key[h[i]]
    ensures InRange(h[k := v], len, |key|) && Ordered(h[k := v], len, key, start)
  {
    var h' := h[k := v];
    forall j | 2 <= j <= len && start <= j / 2
      ensures key[h'[j / 2]] <= key[h'[j]]
    {
      if j / 2 == k {
        assert j != k;
      }
    }
  }

  /** pqdownheap: restore the order below position k. */
  method PqDownHeap(heap: array<nat>, heapLen: nat, fc: array<nat>, depth: array<nat>, start: nat, ghost key: seq<nat>)
    requires heap != fc && heap != depth && AreKeys(fc, depth, key)
    requires 1 <= start <= heapLen < heap.Length && InRange(heap[..], heapLen, |key|)
    requires Ordered(heap[..], heapLen, key, start + 1)
    modifies heap
    ensures InRange(heap[..], heapLen, |key|) && Ordered(heap[..], heapLen, key, start)
    ensures Nodes(heap[..], heapLen) == old(Nodes(heap[..], heapLen))
    ensures forall j :: 0 <= j < heap.Length && (j < start || j > heapLen) ==> heap[j] == old(heap[j])
  {
    hide *;
    var k := start;
    var v := heap[k];
    var j := 2 * k;
    ghost var h := heap[..];
    assert h[k := v] == h;
    SiftStart(h, heapLen, key, start);
    while j <= heapLen
      invariant j == 2 * k && AreKeys(fc, depth, key) && heap[..] == h && start <= k <= heapLen && |h| == |old(heap[..])|
      invariant InRange(h, heapLen, |key|) && Sifting(h, heapLen, key, start, k, v)
      invariant Nodes(h[k := v], heapLen) == old(Nodes(heap[..], heapLen))
      invariant forall i :: 0 <= i < heap.Length && (i < start || i > heapLen) ==> heap[i] == old(heap[i])
    {
      SiftBounds(h, heapLen, key, start, k, v);
      Entry(h, heapLen, |key|, j);
      SmallerMeans(fc, depth, key, v, heap[j]);
      if j < heapLen {
        Entry(h, heapLen, |key|, j + 1);
        SmallerMeans(fc, depth, key, heap[j + 1], heap[j]);
        SmallerMeans(fc, depth, key, v, heap[j + 1]);
      }
      if j < heapLen && Smaller(fc, depth, heap[j + 1], heap[j]) {
        j := j + 1;
      }
      Sons(h, heapLen, key, k, j);
      if Smaller(fc, depth, v, heap[j]) {
        break;
      }
      SiftStep(h, heapLen, key, start, k, v, j);
      heap[k] := heap[j];
      h := h[k := h[j]];
      k := j;
      j := 2 * j;
    }
    SiftBounds(h, heapLen, key, start, k, v);
    SiftDone(h, heapLen, key, start, k, v);
    heap[k] := v;
    assert heap[..] == h[k := v];
  }

  /** The sons of k are at 2 * k and 2 * k + 1. */
  lemma Sons(h: seq<nat>, len: nat, key: seq<nat>, k: nat, j: nat)
    requires len < |h| && InRange(h, len, |key|) && 1 <= k && 2 * k <= len && 2 * k <= j <= 2 * k + 1 && j <= len
    requires key[h[j]] <= key[h[2 * k]] && (2 * k < len ==> key[h[j]] <= key[h[2 * k + 1]])
    ensures j / 2 == k && forall i :: 2 <= i <= len && i / 2 == k ==> key[h[j]] <= key[h[i]]
  {
    forall i | 2 <= i <= len && i / 2 == k
      ensures i == 2 * k || i == 2 * k + 1
    {
    }
  }

  /** The node in front comes first of all. */
  lemma {:induction false} FrontIsLeast(h: seq<nat>, len: nat, key: seq<nat>, j: nat)
    requires len < |h| && InRange(h, len, |key|) && Ordered(h, len, key, 1) && 1 <= j <= len
    ensures key[h[1]] <= key[h[j]]
  {
    if j > 1 {
      FrontIsLeast(h, len, key, j / 2);
    }
  }

  lemma LastToFrontOrdered(h: seq<nat>, len: nat, key: seq<nat>)
    requires 2 <= len < |h| && InRange(h, len, |key|) && Ordered(h, len, key, 1)
    ensures h[1] < |key| && InRange(h[1 := h[len]], len - 1, |key|) && Ordered(h[1 := h[len]], len - 1, key, 2)
  {
  }

  lemma LastToFront(h: seq<nat>, len: nat)
    requires 2 <= len < |h|
    ensures Nodes(h, len) == Nodes(h[1 := h[len]], len - 1) + multiset{h[1]}
  {
    var s := h[1..len + 1];
    assert h[1 := h[len]][1..len] == s[0 := s[len - 1]][..len - 1];
    assert s[0 := s[len - 1]] == s[0 := s[len - 1]][..len - 1] + [s[len - 1]];
    assert multiset(s[0 := s[len - 1]]) == multiset(s) - multiset{s[0]} + multiset{s[len - 1]};
    assert s[0] in multiset(s);
  }

  /** pqremove: take the first node off the queue. */
  method PqRemove(heap: array<nat>, heapLen: nat, fc: array<nat>, depth: array<nat>, ghost key: seq<nat>)
    returns (top: nat, heapLen': nat)
    requires heap != fc && heap != depth && AreKeys(fc, depth, key)
    requires 2 <= heapLen < heap.Length && InRange(heap[..], heapLen, |key|) && Ordered(heap[..], heapLen, key, 1)
    modifies heap
    ensures heapLen' == heapLen - 1
    ensures InRange(heap[..], heapLen', |key|) && Ordered(heap[..], heapLen', key, 1)
    ensures old(Nodes(heap[..], heapLen)) == Nodes(heap[..], heapLen') + multiset{top}
    ensures top == old(heap[1]) < |key|
    ensures forall j :: heapLen' < j < heap.Length ==> heap[j] == old(heap[j])
  {
    hide *;
    LastToFront(heap[..], heapLen);
    LastToFrontOrdered(heap[..], heapLen, key);
    ghost var h := heap[..];
    top := heap[1];
    heap[1] := heap[heapLen];
    heapLen' := heapLen - 1;
    assert heap[..] == h[1 := h[heapLen]];
    PqDownHeap(heap, heapLen', fc, depth, 1, key);
  }
}
