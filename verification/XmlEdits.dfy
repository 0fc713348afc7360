/** What inserting, replacing, removing and clearing children in tinyxml.cpp make of a forest, link by link. */
module XmlEdits {
  import opened XmlForest

  /** The nodes of a list from a place on. */
  ghost function From(nodes: seq<Node>, k: nat): set<Node>
    requires k <= |nodes|
  {
    set i | k <= i < |nodes| :: nodes[i]
  }

  ghost function Renumbered(f: Forest, who: set<Node>, step: int): (r: Forest)
    ensures r.Keys == f.Keys
  {
    map n | n in f :: if n in who then f[n].(index := f[n].index + step) else f[n]
  }

  ghost function At(nodes: seq<Node>, i: int): Node? {
    if 0 <= i < |nodes| then nodes[i] else null
  }

  /** The children with one more in place k. */
  function With(nodes: seq<Node>, k: nat, c: Node): (r: seq<Node>)
    requires k <= |nodes|
    ensures |r| == |nodes| + 1 && r[k] == c
    ensures forall i :: 0 <= i < k ==> r[i] == nodes[i]
    ensures forall i :: k < i < |r| ==> r[i] == nodes[i - 1]
  {
    nodes[..k] + [c] + nodes[k..]
  }

  function Without(nodes: seq<Node>, k: nat): (r: seq<Node>)
    requires k < |nodes|
    ensures |r| == |nodes| - 1
    ensures forall i :: 0 <= i < k ==> r[i] == nodes[i]
    ensures forall i :: k <= i < |r| ==> r[i] == nodes[i + 1]
  {
    nodes[..k] + nodes[k + 1..]
  }

  /** The node before is linked forward to another, or the list begins with that. */
  ghost function LinkedAfter(f: Forest, n: Node, before: Node?, c: Node?): (r: Forest)
    requires n in f && (before == null || before in f)
    ensures r.Keys == f.Keys
  {
    if before == null then f[n := f[n].(firstChild := c)] else f[before := f[before].(next := c)]
  }

  /** The node after is linked back to another, or the list ends with that. */
  ghost function LinkedBefore(f: Forest, n: Node, after: Node?, c: Node?): (r: Forest)
    requires n in f && (after == null || after in f)
    ensures r.Keys == f.Keys
  {
    if after == null then f[n := f[n].(lastChild := c)] else f[after := f[after].(prev := c)]
  }

  /** A node is linked to a parent and to neighbours. */
  ghost function Attached(f: Forest, c: Node, n: Node, before: Node?, after: Node?, k: nat): (r: Forest)
    requires c in f
    ensures r.Keys == f.Keys
  {
    f[c := f[c].(parent := n, prev := before, next := after, index := k)]
  }

  /** A node is in no list. */
  ghost function Loosened(f: Forest, c: Node): (r: Forest)
    requires c in f
    ensures r.Keys == f.Keys
  {
    f[c := f[c].(index := -1)]
  }

  ghost function Relisted(f: Forest, n: Node, children: seq<Node>): (r: Forest)
    requires n in f
    ensures r.Keys == f.Keys
  {
    f[n := f[n].(children := children)]
  }

  /** Every child of n is in the forest, at the place it says, and is not n. */
  ghost predicate Children(f: Forest, n: Node) {
    n in f && forall i :: 0 <= i < |f[n].children| ==>
      f[n].children[i] in f && f[f[n].children[i]].index == i && f[n].children[i] != n
  }

  lemma SoundChildren(f: Forest, n: Node)
    requires Sound(f) && n in f
    ensures Children(f, n)
  {
    forall i | 0 <= i < |f[n].children|
      ensures f[n].children[i] in f && f[f[n].children[i]].index == i && f[n].children[i] != n
    {
      ChildIs(f, n, i);
    }
  }

  ghost function Inserted(f: Forest, n: Node, k: nat, c: Node): Forest
    requires Children(f, n) && k <= |f[n].children| && c in f
  {
    var cs := f[n].children;
    var f1 := Renumbered(f, From(cs, k), 1);
    var f2 := Attached(f1, c, n, At(cs, k - 1), At(cs, k), k);
    var f3 := LinkedBefore(LinkedAfter(f2, n, At(cs, k - 1), c), n, At(cs, k), c);
    Relisted(f3, n, With(cs, k, c))
  }

  lemma FromHas(f: Forest, n: Node, k: nat, i: nat)
    requires Children(f, n) && k <= |f[n].children| && i < |f[n].children|
    ensures f[n].children[i] in From(f[n].children, k) <==> i >= k
  {
  }

  /** What becomes of a child. */
  lemma InsertedAt(f: Forest, n: Node, k: nat, c: Node, i: nat)
    requires Children(f, n) && k <= |f[n].children| && c in f && f[c].index == -1 && c != n && i < |f[n].children|
    ensures var m := f[n].children[i];
      m in Inserted(f, n, k, c) && m != c &&
      Inserted(f, n, k, c)[m] == f[m].(
        index := if i < k then i else i + 1,
        next := if i + 1 == k then c else f[m].next,
        prev := if i == k then c else f[m].prev)
  {
    hide From, With;
    FromHas(f, n, k, i);
  }

  /** What becomes of the new child and of the owner, and of any other node. */
  lemma InsertedElse(f: Forest, n: Node, k: nat, c: Node)
    requires Children(f, n) && k <= |f[n].children| && c in f && f[c].index == -1 && c != n
    ensures var cs := f[n].children; var g := Inserted(f, n, k, c);
      && g.Keys == f.Keys
      && g[c] == f[c].(parent := n, prev := At(cs, k - 1), next := At(cs, k), index := k)
      && g[n] == f[n].(
        firstChild := if k == 0 then c else f[n].firstChild,
        lastChild := if k == |cs| then c else f[n].lastChild,
        children := With(cs, k, c))
      && forall m :: m in f && m !in cs && m != c && m != n ==> g[m] == f[m]
  {
    hide With;
  }

  lemma InsertedEarlier(f: Forest, n: Node, k: nat, c: Node, i: nat)
    requires Sound(f) && Children(f, n) && k <= |f[n].children| && c in f && c != n && i < k
    requires f[c].index == -1 && f[c].height < f[n].height && f[c].data.kind != Document
    ensures n in Inserted(f, n, k, c) && |Inserted(f, n, k, c)[n].children| == |f[n].children| + 1 && Child(Inserted(f, n, k, c), n, i)
  {
    hide Sound, Inserted;
    InsertedElse(f, n, k, c);
    InsertedAt(f, n, k, c, i);
    ChildIs(f, n, i);
  }

  lemma InsertedHere(f: Forest, n: Node, k: nat, c: Node)
    requires Sound(f) && Children(f, n) && k <= |f[n].children| && c in f && c != n
    requires f[c].index == -1 && f[c].height < f[n].height && f[c].data.kind != Document
    ensures n in Inserted(f, n, k, c) && |Inserted(f, n, k, c)[n].children| == |f[n].children| + 1 && Child(Inserted(f, n, k, c), n, k)
  {
    hide Sound, Inserted;
    InsertedElse(f, n, k, c);
  }

  lemma InsertedLater(f: Forest, n: Node, k: nat, c: Node, i: nat)
    requires Sound(f) && Children(f, n) && k <= |f[n].children| && c in f && c != n && k <= i < |f[n].children|
    requires f[c].index == -1 && f[c].height < f[n].height && f[c].data.kind != Document
    ensures n in Inserted(f, n, k, c) && |Inserted(f, n, k, c)[n].children| == |f[n].children| + 1 && Child(Inserted(f, n, k, c), n, i + 1)
  {
    hide Sound, Inserted;
    InsertedElse(f, n, k, c);
    InsertedAt(f, n, k, c, i);
    ChildIs(f, n, i);
  }

  lemma InsertedChild(f: Forest, n: Node, k: nat, c: Node, i: nat)
    requires Sound(f) && Children(f, n) && k <= |f[n].children| && c in f && c != n && i <= |f[n].children|
    requires f[c].index == -1 && f[c].height < f[n].height && f[c].data.kind != Document
    ensures n in Inserted(f, n, k, c) && |Inserted(f, n, k, c)[n].children| == |f[n].children| + 1 && Child(Inserted(f, n, k, c), n, i)
  {
    hide *;
    if i < k {
      InsertedEarlier(f, n, k, c, i);
    } else if i == k {
      InsertedHere(f, n, k, c);
    } else {
      InsertedLater(f, n, k, c, i - 1);
    }
  }

  lemma InsertedList(f: Forest, n: Node, k: nat, c: Node)
    requires Sound(f) && Children(f, n) && k <= |f[n].children| && c in f && c != n
    requires f[c].index == -1 && f[c].height < f[n].height && f[c].data.kind != Document
    ensures n in Inserted(f, n, k, c) && Listed(Inserted(f, n, k, c), n)
  {
    hide Sound, Inserted, Child;
    var g := Inserted(f, n, k, c);
    SoundAt(f, n);
    InsertedElse(f, n, k, c);
    forall i | 0 <= i < |f[n].children| + 1 ensures Child(g, n, i) {
      InsertedChild(f, n, k, c, i);
    }
  }

  lemma InsertedKeeps(f: Forest, n: Node, k: nat, c: Node, m: Node)
    requires Children(f, n) && k <= |f[n].children| && c in f && f[c].index == -1 && c != n && m in f
    requires n in Inserted(f, n, k, c) && m in Inserted(f, n, k, c)
    ensures EditedAt(f, Inserted(f, n, k, c), n, m)
  {
    hide Inserted, With;
    var cs := f[n].children;
    InsertedElse(f, n, k, c);
    if m in cs {
      var i :| 0 <= i < |cs| && cs[i] == m;
      InsertedAt(f, n, k, c, i);
      assert With(cs, k, c)[if i < k then i else i + 1] == cs[i];
    } else if m != c {
      assert m !in With(cs, k, c);
    }
  }

  lemma InsertedIs(f: Forest, n: Node, k: nat, c: Node)
    requires Sound(f) && Children(f, n) && k <= |f[n].children| && c in f && c != n
    requires f[c].index == -1 && f[c].height < f[n].height && f[c].data.kind != Document
    ensures Inserted(f, n, k, c).Keys == f.Keys && Edited(f, Inserted(f, n, k, c), n, With(f[n].children, k, c))
  {
    hide Sound, Inserted, Listed, EditedAt, With, Edited;
    var g := Inserted(f, n, k, c);
    InsertedList(f, n, k, c);
    InsertedElse(f, n, k, c);
    forall m | m in f ensures EditedAt(f, g, n, m) {
      InsertedKeeps(f, n, k, c, m);
    }
    EditIsSound(f, g, n);
  }

  // ---- Taking a child out

  ghost function Removed(f: Forest, n: Node, k: nat): Forest
    requires Children(f, n) && k < |f[n].children|
  {
    var cs := f[n].children;
    var f1 := Renumbered(f, From(cs, k + 1), -1);
    var f2 := LinkedBefore(f1, n, At(cs, k + 1), At(cs, k - 1));
    var f3 := LinkedAfter(f2, n, At(cs, k - 1), At(cs, k + 1));
    Relisted(Loosened(f3, cs[k]), n, Without(cs, k))
  }

  lemma RemovedAt(f: Forest, n: Node, k: nat, i: nat)
    requires Children(f, n) && k < |f[n].children| && i < |f[n].children|
    ensures var m := f[n].children[i];
      m in Removed(f, n, k) &&
      Removed(f, n, k)[m] == f[m].(
        index := if i < k then i else if i == k then -1 else i - 1,
        next := if i + 1 == k then At(f[n].children, k + 1) else f[m].next,
        prev := if i == k + 1 then At(f[n].children, k - 1) else f[m].prev)
  {
    hide From, Without;
    FromHas(f, n, k + 1, i);
  }

  lemma RemovedElse(f: Forest, n: Node, k: nat)
    requires Children(f, n) && k < |f[n].children|
    ensures var cs := f[n].children; var g := Removed(f, n, k);
      && g.Keys == f.Keys
      && g[n] == f[n].(
        firstChild := if k == 0 then At(cs, 1) else f[n].firstChild,
        lastChild := if k + 1 == |cs| then At(cs, k - 1) else f[n].lastChild,
        children := Without(cs, k))
      && forall m :: m in f && m !in cs && m != n ==> g[m] == f[m]
  {
    hide Without;
  }

  lemma RemovedList(f: Forest, n: Node, k: nat)
    requires Sound(f) && Children(f, n) && k < |f[n].children|
    ensures n in Removed(f, n, k) && Listed(Removed(f, n, k), n)
  {
    hide Sound, Removed;
    var g := Removed(f, n, k);
    var cs := f[n].children;
    SoundAt(f, n);
    RemovedElse(f, n, k);
    forall i | 0 <= i < |cs| - 1 ensures Child(g, n, i) {
      if i < k {
        RemovedAt(f, n, k, i);
        assert Child(f, n, i);
      } else {
        RemovedAt(f, n, k, i + 1);
        assert Child(f, n, i + 1);
      }
    }
  }

  lemma RemovedKeeps(f: Forest, n: Node, k: nat, m: Node)
    requires Children(f, n) && k < |f[n].children| && m in f
    requires n in Removed(f, n, k) && m in Removed(f, n, k)
    ensures EditedAt(f, Removed(f, n, k), n, m)
  {
    hide Removed, Without;
    var cs := f[n].children;
    RemovedElse(f, n, k);
    if m in cs {
      var i :| 0 <= i < |cs| && cs[i] == m;
      RemovedAt(f, n, k, i);
      if i != k {
        assert Without(cs, k)[if i < k then i else i - 1] == cs[i];
      }
    } else {
      assert m !in Without(cs, k);
    }
  }

  lemma RemovedIs(f: Forest, n: Node, k: nat)
    requires Sound(f) && Children(f, n) && k < |f[n].children|
    ensures var g := Removed(f, n, k); var c := f[n].children[k];
      g.Keys == f.Keys && Edited(f, g, n, Without(f[n].children, k)) && g[c].index == -1
  {
    hide Sound, Removed, Listed, EditedAt, Without, Edited;
    var g := Removed(f, n, k);
    RemovedList(f, n, k);
    RemovedElse(f, n, k);
    RemovedAt(f, n, k, k);
    forall m | m in f ensures EditedAt(f, g, n, m) {
      RemovedKeeps(f, n, k, m);
    }
    EditIsSound(f, g, n);
  }

  // ---- Putting a node in a child's place

  ghost function Replaced(f: Forest, n: Node, k: nat, c: Node): Forest
    requires Children(f, n) && k < |f[n].children| && c in f
  {
    var cs := f[n].children;
    var f1 := Attached(f, c, n, At(cs, k - 1), At(cs, k + 1), k);
    var f2 := LinkedBefore(f1, n, At(cs, k + 1), c);
    var f3 := LinkedAfter(f2, n, At(cs, k - 1), c);
    Relisted(Loosened(f3, cs[k]), n, cs[k := c])
  }

  lemma ReplacedAt(f: Forest, n: Node, k: nat, c: Node, i: nat)
    requires Children(f, n) && k < |f[n].children| && c in f && f[c].index == -1 && c != n && i < |f[n].children|
    ensures var m := f[n].children[i];
      m in Replaced(f, n, k, c) && m != c &&
      Replaced(f, n, k, c)[m] == f[m].(
        index := if i == k then -1 else i,
        next := if i + 1 == k then c else f[m].next,
        prev := if i == k + 1 then c else f[m].prev)
  {
  }

  lemma ReplacedElse(f: Forest, n: Node, k: nat, c: Node)
    requires Children(f, n) && k < |f[n].children| && c in f && f[c].index == -1 && c != n
    ensures var cs := f[n].children; var g := Replaced(f, n, k, c);
      && g.Keys == f.Keys
      && g[c] == f[c].(parent := n, prev := At(cs, k - 1), next := At(cs, k + 1), index := k)
      && g[n] == f[n].(
        firstChild := if k == 0 then c else f[n].firstChild,
        lastChild := if k + 1 == |cs| then c else f[n].lastChild,
        children := cs[k := c])
      && forall m :: m in f && m !in cs && m != c && m != n ==> g[m] == f[m]
  {
  }

  lemma ReplacedList(f: Forest, n: Node, k: nat, c: Node)
    requires Sound(f) && Children(f, n) && k < |f[n].children| && c in f && c != n
    requires f[c].index == -1 && f[c].height < f[n].height && f[c].data.kind != Document
    ensures n in Replaced(f, n, k, c) && Listed(Replaced(f, n, k, c), n)
  {
    hide Sound, Replaced;
    var g := Replaced(f, n, k, c);
    var cs := f[n].children;
    SoundAt(f, n);
    ReplacedElse(f, n, k, c);
    forall i | 0 <= i < |cs| ensures Child(g, n, i) {
      ReplacedAt(f, n, k, c, i);
      assert Child(f, n, i);
    }
  }

  lemma ReplacedKeeps(f: Forest, n: Node, k: nat, c: Node, m: Node)
    requires Children(f, n) && k < |f[n].children| && c in f && f[c].index == -1 && c != n && m in f
    requires n in Replaced(f, n, k, c) && m in Replaced(f, n, k, c)
    ensures EditedAt(f, Replaced(f, n, k, c), n, m)
  {
    hide Replaced;
    var cs := f[n].children;
    ReplacedElse(f, n, k, c);
    if m in cs {
      var i :| 0 <= i < |cs| && cs[i] == m;
      ReplacedAt(f, n, k, c, i);
      if i != k {
        assert cs[k := c][i] == cs[i];
      }
    } else if m == c {
      assert cs[k := c][k] == c;
    } else {
      assert m !in cs[k := c];
    }
  }

  lemma ReplacedIs(f: Forest, n: Node, k: nat, c: Node)
    requires Sound(f) && Children(f, n) && k < |f[n].children| && c in f && c != n
    requires f[c].index == -1 && f[c].height < f[n].height && f[c].data.kind != Document
    ensures var g := Replaced(f, n, k, c);
      g.Keys == f.Keys && Edited(f, g, n, f[n].children[k := c]) && g[f[n].children[k]].index == -1
  {
    hide Sound, Replaced, Listed, EditedAt, Edited;
    var g := Replaced(f, n, k, c);
    ReplacedList(f, n, k, c);
    ReplacedElse(f, n, k, c);
    ReplacedAt(f, n, k, c, k);
    forall m | m in f ensures EditedAt(f, g, n, m) {
      ReplacedKeeps(f, n, k, c, m);
    }
    EditIsSound(f, g, n);
  }

  // ---- Taking out all children

  /** Without the children and what is below them. */
  ghost function Cleared(f: Forest, n: Node): Forest
    requires Closed(f) && n in f
  {
    var g := Left(f, BelowFirst(f, n, |f[n].children|));
    if n in g then g[n := g[n].(firstChild := null, lastChild := null, children := [])] else g
  }

  lemma ClearedIs(f: Forest, n: Node)
    requires Sound(f) && Closed(f) && n in f
    ensures Edited(f, Cleared(f, n), n, [])
    ensures Cleared(f, n).Keys == f.Keys - (Below(f, n) - {n})
  {
    hide Sound, Below, BelowFirst;
    BelowAll(f, n);
    var g := Cleared(f, n);
    forall m | m in g ensures Listed(g, m) && Placed(g, m) {
      SoundAt(f, m);
      forall i | 0 <= i < |g[m].children| ensures Child(g, m, i) {
        assert Child(f, m, i);
        StillThere(f, n, m, i);
      }
      if g[m].index >= 0 {
        ParentStillThere(f, n, m);
      }
    }
    IsSound(g);
  }

  lemma StillThere(f: Forest, n: Node, m: Node, i: nat)
    requires Sound(f) && Closed(f) && n in f && m in f && m !in Below(f, n) && i < |f[m].children|
    ensures f[m].children[i] in f && f[m].children[i] !in Below(f, n) - {n}
  {
    hide Sound, Within;
    var c := f[m].children[i];
    ChildIs(f, m, i);
    if c in Below(f, n) && c != n {
      ParentWithin(f, n, c);
    }
  }

  lemma ParentStillThere(f: Forest, n: Node, m: Node)
    requires Sound(f) && Closed(f) && n in f && m in f && f[m].index >= 0
    requires m !in Below(f, n) - {n}
    ensures f[m].parent in f && f[m].parent !in Below(f, n)
  {
    hide Sound, Within;
    SoundAt(f, m);
    if f[m].parent in Below(f, n) {
      ChildWithin(f, n, f[m].parent, f[m].index);
      ChildIs(f, f[m].parent, f[m].index);
      WithinIsLower(f, n, f[m].parent);
    }
  }
}
