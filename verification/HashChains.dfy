/** The hash chains of deflate.c: head and prev link the positions of the window whose three bytes
    have the same hash, the newest first. */
module HashChains {
  import opened Machine
  import opened BitStrings
  import opened Hashing

  /** An index into the window; 0 ends a chain. */
  newtype Pos = x: int | 0 <= x < 65536

  /** Window size, and bits and shift of the hash. */
  datatype Sizes = Sizes(w: nat, bits: nat, shift: nat)

  predicate ValidSizes(z: Sizes) {
    512 <= z.w <= 32768 && HashSizes(z.bits, z.shift)
  }

  function HashAt(total: seq<byte>, a: nat, z: Sizes): nat
    requires a + 2 < |total|
  {
    Hash(total[a], total[a + 1], total[a + 2], z.bits, z.shift)
  }

  /** The head of the chain that the string at `a` belongs to; 0 when it is none, or too short for a hash. */
  function ChainHead(head: seq<Pos>, total: seq<byte>, a: nat, z: Sizes): nat {
    if a + 2 < |total| && HashAt(total, a, z) < |head| then head[HashAt(total, a, z)] as nat else 0
  }

  /** Positions are counted from the start of the input; the window starts at `base`. */
  ghost predicate Entered(inserted: set<nat>, total: seq<byte>, top: nat) {
    forall a :: a in inserted ==> a < top && a + 2 < |total|
  }

  /** The window index q is the end of a chain, or a position before a with the same hash. */
  ghost predicate Linked(q: nat, a: nat, h: nat, z: Sizes, total: seq<byte>, base: nat, inserted: set<nat>) {
    q == 0 || (base + q in inserted && base + q < a && base + q + 2 < |total| && HashAt(total, base + q, z) == h)
  }

  ghost predicate HeadsOk(head: seq<Pos>, z: Sizes, total: seq<byte>, base: nat, inserted: set<nat>, top: nat) {
    forall h :: 0 <= h < |head| ==> Linked(head[h] as nat, top, h, z, total, base, inserted)
  }

  function Slot(a: nat, base: nat, w: nat): (i: nat)
    requires base <= a && w > 0
    ensures i < w
  {
    (a - base) % w
  }

  /** The links are good of every position that was entered and is less than a window's size below `from`. */
  ghost predicate LinksOk(prev: seq<Pos>, z: Sizes, total: seq<byte>, base: nat, inserted: set<nat>, from: nat) {
    |prev| == z.w > 0 &&
    forall a :: a in inserted && base <= a && from <= a + z.w && a + 2 < |total| ==>
      Linked(prev[Slot(a, base, z.w)] as nat, a, HashAt(total, a, z), z, total, base, inserted)
  }

  /** What head and prev mean. */
  ghost predicate Chains(head: seq<Pos>, prev: seq<Pos>, z: Sizes, total: seq<byte>, base: nat, inserted: set<nat>,
                         from: nat, top: nat)
  {
    ValidSizes(z) && |head| == Pow2(z.bits) && Entered(inserted, total, top) &&
    HeadsOk(head, z, total, base, inserted, top) && LinksOk(prev, z, total, base, inserted, from)
  }

  /** Nothing has been entered. */
  lemma NoChains(head: seq<Pos>, prev: seq<Pos>, z: Sizes, total: seq<byte>, base: nat, from: nat, top: nat)
    requires ValidSizes(z) && |head| == Pow2(z.bits) && |prev| == z.w && forall h :: 0 <= h < |head| ==> head[h] == 0
    ensures Chains(head, prev, z, total, base, {}, from, top)
  {
  }

  lemma ChainsLater(head: seq<Pos>, prev: seq<Pos>, z: Sizes, total: seq<byte>, base: nat, inserted: set<nat>,
                    from: nat, top: nat, from': nat, top': nat)
    requires Chains(head, prev, z, total, base, inserted, from, top) && from <= from' && top <= top'
    ensures Chains(head, prev, z, total, base, inserted, from', top')
  {
    hide HashAt, Slot;
    forall h | 0 <= h < |head|
      ensures Linked(head[h] as nat, top', h, z, total, base, inserted)
    {
      assert Linked(head[h] as nat, top, h, z, total, base, inserted);
    }
  }

  /** More input does not change the hash of what was there. */
  lemma ChainsGrow(head: seq<Pos>, prev: seq<Pos>, z: Sizes, total: seq<byte>, more: seq<byte>, base: nat, inserted: set<nat>,
                   from: nat, top: nat)
    requires Chains(head, prev, z, total, base, inserted, from, top)
    ensures Chains(head, prev, z, total + more, base, inserted, from, top)
  {
    hide Hash, Slot;
    forall h | 0 <= h < |head|
      ensures Linked(head[h] as nat, top, h, z, total + more, base, inserted)
    {
      assert Linked(head[h] as nat, top, h, z, total, base, inserted);
    }
    forall a | a in inserted && base <= a && from <= a + z.w && a + 2 < |total + more|
      ensures Linked(prev[Slot(a, base, z.w)] as nat, a, HashAt(total + more, a, z), z, total + more, base, inserted)
    {
      assert Linked(prev[Slot(a, base, z.w)] as nat, a, HashAt(total, a, z), z, total, base, inserted);
    }
  }

  // ---- Inserting

  /** Positions less than a window's size apart have different slots. */
  lemma SlotsDiffer(a: nat, b: nat, base: nat, w: nat)
    requires w > 0 && base <= a < b < a + w
    ensures Slot(a, base, w) != Slot(b, base, w)
  {
    var x, y := a - base, b - base;
    var p, q := x / w, y / w;
    if x % w == y % w {
      assert y - x == w * q - w * p == w * (q - p);
      NoMultipleBetween(w, q - p);
    }
  }

  lemma NoMultipleBetween(w: nat, k: int)
    requires w > 0
    ensures !(0 < w * k < w)
  {
    if k >= 1 {
      MulMonotone(w, 0, k);
    }
  }

  /** INSERT_STRING: position str becomes the head of its chain. */
  lemma InsertKeeps(head: seq<Pos>, prev: seq<Pos>, z: Sizes, total: seq<byte>, base: nat, inserted: set<nat>,
                    from: nat, top: nat, str: nat, h: nat)
    requires Chains(head, prev, z, total, base, inserted, from, top)
    requires str < 65536 && top <= base + str < from && base + str + 2 < |total| && h == HashAt(total, base + str, z) && h < |head|
    ensures |prev| == z.w && str % z.w < |prev|
    ensures Chains(head[h := str as Pos], prev[str % z.w := head[h]], z, total, base, inserted + {base + str}, from, base + str + 1)
  {
    hide HashAt, Slot;
    var a0 := base + str;
    var head', prev', inserted' := head[h := str as Pos], prev[str % z.w := head[h]], inserted + {a0};
    SlotOf(str, base, z.w);
    forall k | 0 <= k < |head'|
      ensures Linked(head'[k] as nat, a0 + 1, k, z, total, base, inserted')
    {
      assert Linked(head[k] as nat, top, k, z, total, base, inserted);
    }
    forall a | a in inserted' && base <= a && from <= a + z.w && a + 2 < |total|
      ensures Linked(prev'[Slot(a, base, z.w)] as nat, a, HashAt(total, a, z), z, total, base, inserted')
    {
      if a == a0 {
        assert Linked(head[h] as nat, top, h, z, total, base, inserted);
      } else {
        SlotsDiffer(a, a0, base, z.w);
        SlotBound(a, base, z.w);
        assert Linked(prev[Slot(a, base, z.w)] as nat, a, HashAt(total, a, z), z, total, base, inserted);
      }
    }
  }

  lemma SlotOf(str: nat, base: nat, w: nat)
    requires w > 0
    ensures Slot(base + str, base, w) == str % w < w
  {
  }

  lemma SlotBound(a: nat, base: nat, w: nat)
    requires w > 0 && base <= a
    ensures Slot(a, base, w) < w
  {
  }

  /** The head of a chain, at a position with hash h. */
  lemma HeadIs(head: seq<Pos>, prev: seq<Pos>, z: Sizes, total: seq<byte>, base: nat, inserted: set<nat>, from: nat, top: nat, h: nat)
    requires Chains(head, prev, z, total, base, inserted, from, top) && h < |head|
    ensures Linked(head[h] as nat, top, h, z, total, base, inserted)
  {
    hide Linked;
  }

  /** One link further. */
  lemma NextIs(head: seq<Pos>, prev: seq<Pos>, z: Sizes, total: seq<byte>, base: nat, inserted: set<nat>, from: nat, top: nat,
               cur: nat, a: nat, h: nat)
    requires Chains(head, prev, z, total, base, inserted, from, top)
    requires cur != 0 && Linked(cur, a, h, z, total, base, inserted) && from <= base + cur + z.w
    ensures |prev| == z.w && cur % z.w < |prev| && base + cur < a
    ensures Linked(prev[cur % z.w] as nat, base + cur, h, z, total, base, inserted)
  {
    hide HashAt, Slot;
    SlotOf(cur, base, z.w);
  }

  // ---- Sliding

  /** slide_hash, for one entry. */
  function Slid(m: Pos, w: nat): Pos {
    if m as nat >= w then ((m as nat) - w) as Pos else 0
  }

  ghost predicate AllSlid(old_: seq<Pos>, new_: seq<Pos>, w: nat) {
    |new_| == |old_| && forall i :: 0 <= i < |new_| ==> new_[i] == Slid(old_[i], w)
  }

  lemma LinkSlides(q: Pos, a: nat, h: nat, z: Sizes, total: seq<byte>, base: nat, inserted: set<nat>)
    requires Linked(q as nat, a, h, z, total, base, inserted)
    ensures Linked(Slid(q, z.w) as nat, a, h, z, total, base + z.w, inserted)
  {
    hide HashAt;
    if q as nat >= z.w {
      assert base + z.w + (q as nat - z.w) == base + q as nat;
    }
  }

  lemma SlotSlides(a: nat, base: nat, w: nat)
    requires w > 0 && base + w <= a
    ensures Slot(a, base + w, w) == Slot(a, base, w)
  {
    var x := a - base - w;
    assert (x + w) % w == x % w by {
      var q, r := x / w, x % w;
      assert x + w == r + w * (q + 1);
      DivModUnique(x + w, w, q + 1, r);
    }
  }

  /** The window moves down, and the chains with it. */
  lemma SlideKeeps(head: seq<Pos>, prev: seq<Pos>, head': seq<Pos>, prev': seq<Pos>, z: Sizes, total: seq<byte>, base: nat,
                   inserted: set<nat>, from: nat, top: nat)
    requires Chains(head, prev, z, total, base, inserted, from, top) && AllSlid(head, head', z.w) && AllSlid(prev, prev', z.w)
    ensures Chains(head', prev', z, total, base + z.w, inserted, from, top)
  {
    hide HashAt, Slot, Linked, Slid;
    forall h | 0 <= h < |head'|
      ensures Linked(head'[h] as nat, top, h, z, total, base + z.w, inserted)
    {
      LinkSlides(head[h], top, h, z, total, base, inserted);
    }
    forall a | a in inserted && base + z.w <= a && from <= a + z.w && a + 2 < |total|
      ensures Slot(a, base + z.w, z.w) < |prev'|
      ensures Linked(prev'[Slot(a, base + z.w, z.w)] as nat, a, HashAt(total, a, z), z, total, base + z.w, inserted)
    {
      SlotSlides(a, base, z.w);
      SlotBound(a, base, z.w);
      LinkSlides(prev[Slot(a, base, z.w)], a, HashAt(total, a, z), z, total, base, inserted);
    }
  }
}
