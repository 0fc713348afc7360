/**
 * Editing the trees of TinyXML: LinkEndChild, InsertBeforeChild, InsertAfterChild, ReplaceChild, RemoveChild, Clear,
 * Clone and the destructor of tinyxml.cpp.
 *
 * The set of the nodes that have been made and not yet deleted is passed along as a ghost: `live` before, `now` after.
 */
module XmlNodes {
  import opened XmlAttributes
  import opened XmlEdits
  import opened XmlForest

  ghost function Data(n: Node): Label
    reads n`value, n`details, n.attributes, n.attributes.ring
  {
    Label(n.kind, n.value,
          if n.kind == Text || n.kind == Declaration || n.kind == Document then n.details else NoDetails,
          if n.kind == Element then n.attributes.Contents() else [])
  }

  ghost function Held(n: Node): Links
    reads n, n.attributes, n.attributes.ring
  {
    Links(Data(n), n.parent, n.firstChild, n.lastChild, n.prev, n.next, n.children, n.index, n.height)
  }

  /** What the nodes hold now. */
  ghost function Snap(live: set<Node>): (f: Forest)
    reads live, set n | n in live :: n.attributes, set n, i | n in live && 0 <= i < |n.attributes.ring| :: n.attributes.ring[i]
    ensures f.Keys == live
  {
    map n | n in live :: Held(n)
  }

  ghost method Raise(live: set<Node>, who: set<Node>, k: nat)
    requires who <= live
    modifies who`height
    ensures Snap(live) == Raised(old(Snap(live)), who, k)
  {
    hide Data;
    forall m | m in who {
      m.height := m.height + k;
    }
    forall m | m in live ensures Data(m) == old(Data(m)) {
    }
  }

  ghost method Renumber(live: set<Node>, who: set<Node>, step: int)
    requires who <= live
    modifies who`index
    ensures Snap(live) == Renumbered(old(Snap(live)), who, step)
  {
    hide Data;
    forall m | m in who {
      m.index := m.index + step;
    }
    forall m | m in live ensures Data(m) == old(Data(m)) {
    }
  }

  /** What the links of a node say of its neighbours. */
  lemma Neighbours(f: Forest, n: Node, k: nat)
    requires Sound(f) && n in f && k < |f[n].children|
    ensures var c := f[n].children[k];
      && c in f && f[c].parent == n && f[c].index == k
      && f[c].prev == At(f[n].children, k - 1) && f[c].next == At(f[n].children, k + 1)
      && (f[c].prev != null ==> f[c].prev in f) && (f[c].next != null ==> f[c].next in f)
  {
    ChildIs(f, n, k);
    if k > 0 {
      ChildIs(f, n, k - 1);
    }
    if k + 1 < |f[n].children| {
      ChildIs(f, n, k + 1);
    }
  }

  lemma FromIsLive(f: Forest, n: Node, k: nat)
    requires Children(f, n) && k <= |f[n].children|
    ensures From(f[n].children, k) <= f.Keys && n !in From(f[n].children, k)
  {
  }

  lemma Ends(f: Forest, n: Node)
    requires Sound(f) && n in f
    ensures f[n].firstChild == At(f[n].children, 0) && f[n].lastChild == At(f[n].children, |f[n].children| - 1)
    ensures f[n].firstChild != null ==> f[n].firstChild in f
    ensures f[n].lastChild != null ==> f[n].lastChild in f
  {
    SoundAt(f, n);
    SoundChildren(f, n);
  }

  /** Links the node before, or the beginning of the list, forward to another. */
  method LinkAfter(self: Node, before: Node?, c: Node?, ghost live: set<Node>)
    requires self in live && (before == null || before in live)
    modifies self`firstChild, live`next
    ensures Snap(live) == LinkedAfter(old(Snap(live)), self, before, c)
  {
    hide Data;
    if before != null {
      before.next := c;
    } else {
      self.firstChild := c;
    }
    forall m | m in live ensures Data(m) == old(Data(m)) {
    }
  }

  /** Links the node after, or the end of the list, back to another. */
  method LinkBefore(self: Node, after: Node?, c: Node?, ghost live: set<Node>)
    requires self in live && (after == null || after in live)
    modifies self`lastChild, live`prev
    ensures Snap(live) == LinkedBefore(old(Snap(live)), self, after, c)
  {
    hide Data;
    if after != null {
      after.prev := c;
    } else {
      self.lastChild := c;
    }
    forall m | m in live ensures Data(m) == old(Data(m)) {
    }
  }

  lemma SnapHas(n: Node, live: set<Node>)
    requires n in live
    ensures Snap(live)[n] == Held(n) && Held(n).children == n.children && Held(n).index == n.index && Held(n).height == n.height
    ensures Held(n).firstChild == n.firstChild && Held(n).lastChild == n.lastChild
    ensures Held(n).parent == n.parent && Held(n).prev == n.prev && Held(n).next == n.next
    ensures Held(n).data == Data(n) && Data(n).kind == n.kind
  {
  }

  method PutUnder(self: Node, node: Node, ghost k: nat, ghost live: set<Node>)
    requires node in live
    modifies node`parent, node`index
    ensures Snap(live) == old(Snap(live))[node := old(Held(node)).(parent := self, index := k)]
  {
    hide Data;
    node.parent := self;
    node.index := k;
    forall m | m in live ensures Data(m) == old(Data(m)) {
    }
  }

  method PutBetween(node: Node, before: Node?, after: Node?, ghost live: set<Node>)
    requires node in live
    modifies node`prev, node`next
    ensures Snap(live) == old(Snap(live))[node := old(Held(node)).(prev := before, next := after)]
  {
    hide Data;
    node.prev := before;
    node.next := after;
    forall m | m in live ensures Data(m) == old(Data(m)) {
    }
  }

  method Attach(self: Node, node: Node, before: Node?, after: Node?, ghost k: nat, ghost live: set<Node>)
    requires node in live
    modifies node`parent, node`prev, node`next, node`index
    ensures Snap(live) == Attached(old(Snap(live)), node, self, before, after, k)
  {
    hide Snap, Held, Data;
    SnapHas(node, live);
    PutUnder(self, node, k, live);
    SnapHas(node, live);
    PutBetween(node, before, after, live);
  }

  ghost method SetChildren(self: Node, children: seq<Node>, live: set<Node>)
    requires self in live
    modifies self`children
    ensures Snap(live) == Relisted(old(Snap(live)), self, children)
  {
    hide Data;
    self.children := children;
  }

  /** Puts a node that is in no list between two neighbours of a list. */
  method Link(self: Node, node: Node, before: Node?, after: Node?, ghost k: nat, ghost live: set<Node>)
    requires Sound(Snap(live)) && self in live && node in live && node != self
    requires node.index == -1 && node.height < self.height && node.kind != Document
    requires k <= |self.children| && before == At(self.children, k - 1) && after == At(self.children, k)
    modifies self`firstChild, self`lastChild, self`children, node`parent, live`prev, live`next, live`index
    ensures Edited(old(Snap(live)), Snap(live), self, With(old(self.children), k, node))
  {
    hide Snap, Held, Data, Renumbered, LinkedAfter, LinkedBefore, Attached, Loosened, Relisted, With, From, Sound, Edited;
    ghost var f := Snap(live);
    ghost var cs := self.children;
    SnapHas(self, live);
    SnapHas(node, live);
    SoundChildren(f, self);
    FromIsLive(f, self, k);
    Renumber(live, From(cs, k), 1);
    SnapHas(node, live);
    Attach(self, node, before, after, k, live);
    LinkAfter(self, before, node, live);
    LinkBefore(self, after, node, live);
    SnapHas(self, live);
    SetChildren(self, With(cs, k, node), live);
    assert Snap(live) == Inserted(f, self, k, node);
    InsertedIs(f, self, k, node);
  }

  // ---- Deletion

  /**
   * Deletes a node and what is below it. `live` is what has not been deleted yet: every node whose next is read, and
   * every node deleted, is still there.
   */
  method Destroy(n: Node, ghost all: set<Node>, ghost live: set<Node>) returns (ghost now: set<Node>)
    requires Sound(Snap(all)) && n in all && live <= all && Below(Snap(all), n) <= live
    ensures now == live - Below(Snap(all), n)
    decreases n.height
  {
    hide Sound, Closed, Below, BelowFirst, Within, Snap, Held, Data, Child;
    ghost var f := Snap(all);
    SoundIsClosed(f);
    SnapHas(n, all);
    BelowAll(f, n);
    Ends(f, n);
    now := live;
    ghost var k := 0;
    var node := n.firstChild;
    while node != null
      invariant k <= |n.children| && node == (if k < |n.children| then n.children[k] else null)
      invariant now == live - BelowFirst(f, n, k)
      decreases |n.children| - k
    {
      var temp := node;
      NextBelow(f, n, k);
      Neighbours(f, n, k);
      ChildIs(f, n, k);
      SnapHas(node, all);
      assert node in now;
      node := node.next;
      now := Destroy(temp, all, now);
      k := k + 1;
    }
    assert n in now;
    now := now - {n};
  }

  // ---- The edits of a list

  /** Deletes a child; false when it is none of this node's. */
  method RemoveChild(self: Node, removeThis: Node?, ghost live: set<Node>) returns (ok: bool, ghost now: set<Node>)
    requires Sound(Snap(live)) && self in live
    requires removeThis != null ==> removeThis in live && (removeThis.parent == self ==> removeThis.index >= 0)
    modifies self`firstChild, self`lastChild, self`children, live`prev, live`next, live`index
    ensures ok <==> removeThis != null && old(removeThis.parent) == self
    ensures !ok ==> now == live && Snap(now) == old(Snap(live))
    ensures ok ==> now == live - old(Below(Snap(live), removeThis))
    ensures ok ==> 0 <= old(removeThis.index) < |old(self.children)|
    ensures ok ==> Edited(old(Snap(live)), Snap(now), self, Without(old(self.children), old(removeThis.index)))
  {
    hide *;
    if removeThis == null {
      return false, live;
    }
    if removeThis.parent != self {
      return false, live;
    }
    ghost var f := Snap(live);
    ghost var k := removeThis.index;
    SnapHas(removeThis, live);
    SnapHas(self, live);
    Place(f, removeThis, self);
    SoundIsClosed(f);
    Unlink(self, removeThis, k, live);
    SnapHas(removeThis, live);
    EditedIsSound(f, Snap(live), self, Without(f[self].children, k));
    EditedThenSevered(f, Snap(live), self, removeThis, Without(f[self].children, k));
    BelowIsLive(f, removeThis);
    now := Destroy(removeThis, live, live);
    SnapLeft(live, Below(f, removeThis));
    return true, now;
  }

  lemma SnapLeft(live: set<Node>, gone: set<Node>)
    ensures Snap(live - gone) == Left(Snap(live), gone)
  {
  }

  lemma BelowIsLive(f: Forest, n: Node)
    requires Closed(f) && n in f
    ensures Below(f, n) <= f.Keys
  {
  }

  lemma Place(f: Forest, c: Node, n: Node)
    requires Sound(f) && c in f && n in f && f[c].index >= 0 && f[c].parent == n
    ensures f[c].index < |f[n].children| && f[n].children[f[c].index] == c
  {
    SoundAt(f, c);
  }

  /** Joins the neighbours of a child, which is in no list then. */
  method Unlink(self: Node, node: Node, ghost k: nat, ghost live: set<Node>)
    requires Sound(Snap(live)) && self in live && node in live && k < |self.children| && self.children[k] == node
    modifies self`firstChild, self`lastChild, self`children, live`prev, live`next, live`index
    ensures Edited(old(Snap(live)), Snap(live), self, Without(old(self.children), k)) && node.index == -1
  {
    hide Snap, Held, Data, Renumbered, LinkedAfter, LinkedBefore, Attached, Loosened, Relisted, With, Without, From, Sound, Edited, At, Children, Closed;
    ghost var f := Snap(live);
    ghost var cs := self.children;
    SnapHas(self, live);
    SnapHas(node, live);
    SoundChildren(f, self);
    FromIsLive(f, self, k + 1);
    Neighbours(f, self, k);
    Renumber(live, From(cs, k + 1), -1);
    var before, after := node.prev, node.next;
    LinkBefore(self, after, before, live);
    LinkAfter(self, before, after, live);
    Leave(node, live);
    SnapHas(self, live);
    SetChildren(self, Without(cs, k), live);
    assert Snap(live) == Removed(f, self, k);
    RemovedIs(f, self, k);
  }

  ghost method Leave(node: Node, live: set<Node>)
    requires node in live
    modifies node`index
    ensures Snap(live) == Loosened(old(Snap(live)), node) && node.index == -1
  {
    hide Data;
    node.index := -1;
  }

  /** Deletes all children. */
  method Clear(self: Node, ghost live: set<Node>) returns (ghost now: set<Node>)
    requires Sound(Snap(live)) && self in live
    modifies self`firstChild, self`lastChild, self`children
    ensures now == live - (old(Below(Snap(live), self)) - {self})
    ensures Edited(old(Snap(live)), Snap(now), self, [])
  {
    hide Sound, Closed, Below, BelowFirst, Within, Snap, Held, Data, Child, Edited, Cleared;
    ghost var f := Snap(live);
    ghost var cs := self.children;
    SoundIsClosed(f);
    SnapHas(self, live);
    BelowAll(f, self);
    BelowIsLive(f, self);
    Ends(f, self);
    now := live;
    ghost var k := 0;
    var node := self.firstChild;
    while node != null
      invariant k <= |cs| && node == (if k < |cs| then cs[k] else null)
      invariant now == live - BelowFirst(f, self, k)
      invariant Snap(live) == f && self.children == cs
      decreases |cs| - k
    {
      var temp := node;
      NextBelow(f, self, k);
      Neighbours(f, self, k);
      ChildIs(f, self, k);
      SnapHas(node, live);
      node := node.next;
      now := Destroy(temp, live, now);
      k := k + 1;
    }
    EmptyList(self, live, now);
    ClearedIs(f, self);
  }

  method EmptyList(self: Node, ghost live: set<Node>, ghost now: set<Node>)
    requires Sound(Snap(live)) && self in live
    requires now == live - BelowFirst(Snap(live), self, |self.children|)
    modifies self`firstChild, self`lastChild, self`children
    ensures Snap(now) == Cleared(old(Snap(live)), self)
  {
    hide *;
    ghost var f := Snap(live);
    SoundIsClosed(f);
    BelowAll(f, self);
    SnapHas(self, live);
    SnapLeft(live, BelowFirst(f, self, |self.children|));
    NoEnds(self, now);
    SetChildren(self, [], now);
    ClearedMeans(f, self);
  }

  method NoEnds(self: Node, ghost live: set<Node>)
    requires self in live
    modifies self`firstChild, self`lastChild
    ensures Snap(live) == LinkedBefore(LinkedAfter(old(Snap(live)), self, null, null), self, null, null)
  {
    hide Data;
    self.firstChild := null;
    self.lastChild := null;
    forall m | m in live ensures Data(m) == old(Data(m)) {
    }
    forall m | m in live && m != self ensures Held(m) == old(Held(m)) {
    }
  }

  lemma ClearedMeans(f: Forest, n: Node)
    requires Closed(f) && n in f && n !in BelowFirst(f, n, |f[n].children|)
    ensures var g := Left(f, BelowFirst(f, n, |f[n].children|));
      n in g && Cleared(f, n) == Relisted(LinkedBefore(LinkedAfter(g, n, null, null), n, null, null), n, [])
  {
    hide Closed, BelowFirst;
  }

  /** Takes a node that is in no list as the last child; a document is deleted instead. */
  method LinkEndChild(self: Node, node: Node, ghost live: set<Node>) returns (r: Node?, ghost now: set<Node>)
    requires Sound(Snap(live)) && self in live && node in live
    requires node.index == -1 && (node.parent == null || node.parent == self)
    requires !Within(Snap(live), node, self)
    modifies self`firstChild, self`lastChild, self`children, node`parent, live`prev, live`next, live`index, live`height
    ensures r == if node.kind == Document then null else node
    ensures r == null ==> now == live - old(Below(Snap(live), node)) && Edited(old(Snap(live)), Snap(now), self, old(self.children))
    ensures r != null ==> now == live && Edited(old(Snap(live)), Snap(now), self, old(self.children) + [node])
  {
    hide *;
    ghost var f := Snap(live);
    SoundIsClosed(f);
    SnapHas(self, live);
    SnapHas(node, live);
    BelowIsLive(f, node);
    if node.kind == Document {
      Severed(f, node);
      now := Destroy(node, live, live);
      SnapLeft(live, Below(f, node));
      LeftIs(f, node, self);
      return null, now;
    }
    ghost var others := live - Below(f, node);
    BelowAll(f, node);
    NotWithin(f, node, self);
    Raise(live, others, node.height + 1);
    RaisedAround(f, node, node.height + 1);
    SnapHas(self, live);
    SnapHas(node, live);
    RaisedHas(f, others, node.height + 1, self, node);
    Ends(Snap(live), self);
    WithAtEnd(self.children, node);
    Link(self, node, self.lastChild, null, |self.children|, live);
    RaisedEdited(f, others, f[node].height + 1, Snap(live), self, With(f[self].children, |f[self].children|, node));
    return node, live;
  }

  lemma LeftIs(f: Forest, gone: Node, n: Node)
    requires Sound(f) && Closed(f) && gone in f && n in f && !Within(f, gone, n)
    requires Sound(Left(f, Below(f, gone)))
    ensures Edited(f, Left(f, Below(f, gone)), n, f[n].children)
  {
  }

  lemma NotWithin(f: Forest, n: Node, m: Node)
    requires Closed(f) && n in f && m in f && !Within(f, n, m)
    ensures m !in Below(f, n) && m != n
  {
  }

  lemma RaisedHas(f: Forest, who: set<Node>, k: nat, n: Node, c: Node)
    requires n in f && c in f && n in who && c !in who
    ensures var g := Raised(f, who, k);
      n in g && c in g && g[n] == f[n].(height := f[n].height + k) && g[c] == f[c]
  {
  }

  lemma RaisedEdited(f: Forest, who: set<Node>, k: nat, g: Forest, n: Node, children: seq<Node>)
    requires n in f && n in Raised(f, who, k) && Edited(Raised(f, who, k), g, n, children)
    ensures Edited(f, g, n, children)
  {
    forall m | m in f ensures m in Raised(f, who, k) {
    }
  }

  lemma WithAtEnd(nodes: seq<Node>, c: Node)
    ensures With(nodes, |nodes|, c) == nodes + [c] && At(nodes, |nodes|) == null
  {
  }

  // ---- Cloning

  /** Every node's ring of attributes is in order. */
  ghost predicate Tagged(live: set<Node>)
    reads set n | n in live :: n.attributes, set n | n in live :: n.attributes.sentinel,
      set n, i | n in live && 0 <= i < |n.attributes.ring| :: n.attributes.ring[i]
  {
    forall n :: n in live ==> n.attributes.Valid()
  }

  /** Copies what a node says itself to a new node of its kind. */
  method CopyLabel(source: Node, target: Node)
    requires source != target && source.kind == target.kind
    requires source.attributes.Valid() && target.attributes.Valid()
    requires Apart(source.attributes, target.attributes) && target.attributes.Contents() == []
    modifies target`value, target`details, target.attributes, target.attributes.ring
    ensures source.attributes.Valid() && target.attributes.Valid()
    ensures Data(source) == old(Data(source))
    ensures Data(target) == (if source.kind == Element then Data(source).(attributes := Seen(Data(source).attributes)) else Data(source))
    ensures forall k :: 0 <= k < |target.attributes.ring| ==>
      target.attributes.ring[k] in old(target.attributes.ring) || fresh(target.attributes.ring[k])
  {
    hide AttributeSet.Valid, AttributeSet.Circular, AttributeSet.Contents, Apart, Seen;
    target.value := source.value;
    match source.kind {
      case Element =>
        CopyAttributes(source.attributes, target.attributes);
      case Text | Declaration | Document =>
        target.details := source.details;
      case Comment | Unknown =>
    }
  }

  /** The clone of a node before its children are cloned. */
  method StartClone(source: Node) returns (clone: Node)
    requires source.attributes.Valid()
    ensures fresh(clone) && fresh(clone.attributes) && fresh(clone.attributes.ring) && clone.attributes.Valid()
    ensures clone.kind == source.kind && clone.children == [] && clone.index == -1
    ensures clone.firstChild == null && clone.lastChild == null && clone.parent == null
    ensures Data(clone) == (if source.kind == Element then Data(source).(attributes := Seen(Data(source).attributes)) else Data(source))
  {
    clone := new Node(source.kind, "", NoDetails);
    CopyLabel(source, clone);
  }

  lemma SingleIsSound(f: Forest, n: Node)
    requires f.Keys == {n} && f[n].children == [] && f[n].firstChild == null && f[n].lastChild == null && f[n].index == -1
    ensures Sound(f) && Closed(f) && Tree(f, n) == Xml(f[n].data, [])
  {
  }

  lemma SnapJoin(a: set<Node>, b: set<Node>)
    ensures Snap(a + b) == Snap(a) + Snap(b)
  {
  }

  /** What has been made so far of a clone: its first children are clones of the first children. */
  ghost predicate ClonedUpTo(f: Forest, source: Node, k: nat, g: Forest, clone: Node)
    requires Closed(f) && source in f && k <= |f[source].children|
  {
    && Sound(g) && Closed(g) && clone in g
    && g[clone].index == -1 && g[clone].parent == null
    && g[clone].data.kind == f[source].data.kind
    && Tree(g, clone) == Xml(Copied(Xml(f[source].data, [])).data, CopiedAll(Tree(f, source).children[..k]))
  }

  lemma ClonedOneMore(f: Forest, source: Node, k: nat, g: Forest, h: Forest, j: Forest, clone: Node, child: Node)
    requires Closed(f) && source in f && k < |f[source].children| && ClonedUpTo(f, source, k, g, clone)
    requires f[source].children[k] in f
    requires Closed(h) && child in h && Tree(h, child) == Copied(Tree(f, f[source].children[k])) && h[child].index == -1
    requires g.Keys !! h.Keys && Closed(g + h) && Children(g, clone) && j.Keys == g.Keys + h.Keys
    requires Edited(g + h, j, clone, g[clone].children + [child])
    ensures ClonedUpTo(f, source, k + 1, j, clone)
  {
    hide Sound, Closed, Edited;
    EditedIsSound(g + h, j, clone, g[clone].children + [child]);
    GraftedTree(g, h, j, clone, child);
    GraftedOwner(g, h, j, clone, g[clone].children + [child]);
    StillRoot(g + h, j, clone, child);
    CopiedNext(Tree(f, source).children, k);
  }

  lemma StillRoot(f: Forest, g: Forest, n: Node, c: Node)
    requires Children(f, n) && n in g && c in f && c != n && Edited(f, g, n, f[n].children + [c])
    ensures g[n].parent == f[n].parent && g[n].index == f[n].index
  {
  }

  lemma CopiedNext(xs: seq<Xml>, k: nat)
    requires k < |xs|
    ensures CopiedAll(xs[..k]) + [Copied(xs[k])] == CopiedAll(xs[..k + 1])
  {
    assert xs[..k + 1][..k] == xs[..k];
  }

  lemma DisjointIsSound(g: Forest, h: Forest, n: Node, d: Node)
    requires Sound(g) && Sound(h) && g.Keys !! h.Keys && n in g && d in h
    ensures Sound(g + h) && Closed(g + h) && Closed(g) && Closed(h) && Children(g, n) && Children(g + h, n) && !Within(g + h, d, n)
  {
    JoinedIsSound(g, h);
    SoundChildren(g, n);
    SoundChildren(g + h, n);
    if Within(g + h, d, n) {
      WithinStays(g + h, d, n, h.Keys);
    }
  }

  method AddClone(ghost live: set<Node>, ghost f: Forest, ghost source: Node, ghost k: nat, clone: Node, ghost made: set<Node>, child: Node, ghost more: set<Node>)
    returns (ghost all: set<Node>)
    requires Closed(f) && source in f && k < |f[source].children| && f[source].children[k] in f
    requires ClonedUpTo(f, source, k, Snap(made), clone)
    requires Sound(Snap(more)) && child in more && child.kind != Document && child.index == -1 && child.parent == null
    requires Tree(Snap(more), child) == Copied(Tree(f, f[source].children[k]))
    requires made !! more && clone in made && live !! made && live !! more && Tagged(live) && Tagged(made + more)
    modifies clone`firstChild, clone`lastChild, clone`children, child`parent
    modifies made`prev, made`next, made`index, made`height, more`prev, more`next, more`index, more`height
    ensures all == made + more && Tagged(all) && Tagged(live) && Snap(live) == old(Snap(live))
    ensures ClonedUpTo(f, source, k + 1, Snap(all), clone)
  {
    hide *;
    all := made + more;
    ghost var g, h := Snap(made), Snap(more);
    SnapHas(clone, made);
    SnapHas(child, more);
    SnapHas(clone, all);
    SnapHas(child, all);
    SnapJoin(made, more);
    ClonedParts(f, source, k, g, clone);
    DisjointIsSound(g, h, clone, child);
    var r, now := LinkEndChild(clone, child, all);
    ClonedOneMore(f, source, k, g, h, Snap(all), clone, child);
  }

  lemma ClonedParts(f: Forest, source: Node, k: nat, g: Forest, clone: Node)
    requires Closed(f) && source in f && k <= |f[source].children| && ClonedUpTo(f, source, k, g, clone)
    ensures Sound(g) && Closed(g) && clone in g && g[clone].index == -1 && g[clone].parent == null
  {
  }

  lemma ClonedNone(f: Forest, source: Node, g: Forest, clone: Node)
    requires Closed(f) && source in f && g.Keys == {clone}
    requires g[clone].children == [] && g[clone].firstChild == null && g[clone].lastChild == null
    requires g[clone].index == -1 && g[clone].parent == null
    requires g[clone].data == (if f[source].data.kind == Element then
      f[source].data.(attributes := Seen(f[source].data.attributes)) else f[source].data)
    ensures ClonedUpTo(f, source, 0, g, clone)
  {
    SingleIsSound(g, clone);
    assert Tree(f, source).children[..0] == [];
  }

  lemma ClonedAll(f: Forest, source: Node, k: nat, g: Forest, clone: Node)
    requires Closed(f) && source in f && k <= |f[source].children| && ClonedUpTo(f, source, k, g, clone)
    requires k == if f[source].data.kind == Element || f[source].data.kind == Document then |f[source].children| else 0
    ensures Tree(g, clone) == Copied(Tree(f, source))
  {
    var xs := Tree(f, source).children;
    assert xs[..|xs|] == xs && xs[..0] == [];
  }

  lemma TaggedHas(live: set<Node>, n: Node)
    requires Tagged(live) && n in live
    ensures n.attributes.Valid()
  {
  }

  lemma TaggedOne(n: Node)
    requires n.attributes.Valid()
    ensures Tagged({n})
  {
  }

  lemma TaggedBoth(a: set<Node>, b: set<Node>)
    requires Tagged(a) && Tagged(b)
    ensures Tagged(a + b)
  {
  }

  /** A node with all below it, new; only elements and documents pass their children on. */
  method Clone(source: Node, ghost live: set<Node>) returns (clone: Node, ghost made: set<Node>)
    requires Sound(Snap(live)) && Tagged(live) && source in live
    ensures fresh(made) && Tagged(made) && Sound(Snap(made)) && clone in made
    ensures clone.kind == source.kind && clone.index == -1 && clone.parent == null
    ensures Tree(Snap(made), clone) == Copied(Tree(Snap(live), source))
    decreases source.height, 1
  {
    hide Snap, Held, Data, Tagged, Sound, Closed, Child, Listed, ClonedUpTo, Copied, CopiedAll, AttributeSet.Valid, AttributeSet.Circular;
    ghost var f := Snap(live);
    SoundIsClosed(f);
    SnapHas(source, live);
    TaggedHas(live, source);
    clone := StartClone(source);
    made := {clone};
    SnapHas(clone, made);
    TaggedOne(clone);
    ClonedNone(f, source, Snap(made), clone);
    ghost var k := 0;
    if source.kind == Element || source.kind == Document {
      var node := source.firstChild;
      Ends(f, source);
      while node != null
        invariant fresh(made) && Tagged(made) && Snap(live) == f && Tagged(live)
        invariant k <= |f[source].children| && node == At(f[source].children, k)
        invariant ClonedUpTo(f, source, k, Snap(made), clone)
        decreases |f[source].children| - k
      {
        made := CloneChild(source, node, k, clone, live, made);
        Neighbours(f, source, k);
        SnapHas(node, live);
        node := node.next;
        k := k + 1;
      }
    }
    ClonedParts(f, source, k, Snap(made), clone);
    ClonedAll(f, source, k, Snap(made), clone);
    SnapHas(clone, made);
  }

  /** Clones one child and links it to the clone. */
  method CloneChild(source: Node, node: Node, ghost k: nat, clone: Node, ghost live: set<Node>, ghost made: set<Node>)
    returns (ghost all: set<Node>)
    requires Sound(Snap(live)) && Closed(Snap(live)) && Tagged(live) && source in live
    requires k < |Snap(live)[source].children| && node == Snap(live)[source].children[k]
    requires made !! live && Tagged(made) && ClonedUpTo(Snap(live), source, k, Snap(made), clone)
    modifies clone`firstChild, clone`lastChild, clone`children, made`prev, made`next, made`index, made`height
    ensures fresh(all - made) && Tagged(all) && Snap(live) == old(Snap(live)) && Tagged(live)
    ensures ClonedUpTo(Snap(live), source, k + 1, Snap(all), clone)
    decreases source.height, 0
  {
    hide *;
    ghost var f := Snap(live);
    Neighbours(f, source, k);
    ChildIs(f, source, k);
    SnapHas(source, live);
    SnapHas(node, live);
    NotADocument(f, source, k);
    var child, more := Clone(node, live);
    TaggedBoth(made, more);
    ClonedParts(f, source, k, Snap(made), clone);
    all := AddClone(live, f, source, k, clone, made, child, more);
  }

  lemma NotADocument(f: Forest, n: Node, k: nat)
    requires Sound(f) && n in f && k < |f[n].children| && f[n].children[k] in f
    ensures f[f[n].children[k]].data.kind != Document
  {
    ChildIs(f, n, k);
  }

  // ---- Inserting clones

  /** The tree of a node is what Clone makes of a tree. */
  ghost predicate IsClone(f: Forest, n: Node, x: Xml) {
    Closed(f) && n in f && Tree(f, n) == Copied(x)
  }

  lemma CloneIs(f: Forest, n: Node, x: Xml)
    requires Closed(f) && n in f && Tree(f, n) == Copied(x)
    ensures IsClone(f, n, x)
  {
  }

  /** Two forests side by side, the nodes of the first raised above those of the second, before the edit of a list. */
  lemma RaisedJoin(g: Forest, h: Forest, n: Node, d: Node)
    requires Sound(g) && Sound(h) && g.Keys !! h.Keys && n in g && d in h && h[d].index == -1
    ensures var j := Raised(g + h, g.Keys, h[d].height + 1);
      && Sound(j) && Closed(j) && j.Keys == g.Keys + h.Keys && n in j && d in j && d != n
      && j[n] == g[n].(height := g[n].height + h[d].height + 1) && j[d] == h[d]
  {
    hide Sound;
    DisjointIsSound(g, h, n, d);
    SoundIsClosed(g);
    SoundIsClosed(h);
    forall m, i | m in g + h && 0 <= i < |(g + h)[m].children| && (g + h)[m].children[i] in g.Keys ensures m in g.Keys {
    }
    RaisedIsSound(g + h, g.Keys, h[d].height + 1);
    SoundIsClosed(Raised(g + h, g.Keys, h[d].height + 1));
  }

  /** An edit of two forests seen from the first alone, and a tree of the second. */
  lemma JoinEdited(g: Forest, h: Forest, j: Forest, n: Node, d: Node, children: seq<Node>)
    requires Closed(h) && g.Keys !! h.Keys && n in g && d in h && h.Keys <= j.Keys && Edited(g + h, j, n, children)
    ensures Edited(g, j, n, children) && Closed(j) && Tree(j, d) == Tree(h, d)
  {
    hide Sound, Tree;
    EditedIsSound(g + h, j, n, children);
    SameTree(h, j, d, h.Keys);
  }

  /** New nodes beside the others, which are raised above them. */
  ghost method Beside(self: Node, node: Node, live: set<Node>, made: set<Node>)
    requires Sound(Snap(live)) && self in live && Sound(Snap(made)) && live !! made && node in made && node.index == -1
    requires Tagged(live + made)
    modifies live`height
    ensures Snap(live + made) == Raised(old(Snap(live) + Snap(made)), live, node.height + 1) && Tagged(live + made)
    ensures Sound(Snap(live + made)) && Closed(Snap(live + made)) && Closed(old(Snap(made))) && Closed(old(Snap(live)))
    ensures node.height < self.height && node != self
  {
    hide *;
    ghost var g, h := Snap(live), Snap(made);
    SnapHas(self, live);
    SnapHas(node, made);
    SoundIsClosed(g);
    SoundIsClosed(h);
    SnapJoin(live, made);
    RaisedJoin(g, h, self, node);
    Raise(live + made, live, node.height + 1);
    SnapHas(self, live + made);
    SnapHas(node, live + made);
  }

  /** Links a clone between two neighbours of a list. */
  method LinkNew(self: Node, node: Node, before: Node?, after: Node?, ghost k: nat, ghost live: set<Node>, ghost made: set<Node>)
    requires Sound(Snap(live)) && self in live && k <= |self.children|
    requires before == At(self.children, k - 1) && after == At(self.children, k)
    requires Sound(Snap(made)) && live !! made && node in made && node.index == -1 && node.kind != Document
    requires Tagged(live + made)
    modifies self`firstChild, self`lastChild, self`children, node`parent
    modifies live`prev, live`next, live`index, live`height, made`prev, made`next, made`index
    ensures Closed(old(Snap(made))) && Tagged(live + made)
    ensures var f := Raised(old(Snap(live)) + old(Snap(made)), live, old(node.height) + 1);
      self in f && Edited(f, Snap(live + made), self, With(old(self.children), k, node))
  {
    hide *;
    SnapHas(self, live);
    SnapHas(node, made);
    RaisedJoin(Snap(live), Snap(made), self, node);
    Beside(self, node, live, made);
    Link(self, node, before, after, k, live + made);
  }

  /** Puts a clone between two neighbours of a list. */
  method Graft(self: Node, node: Node, before: Node?, after: Node?, ghost k: nat, ghost live: set<Node>, ghost made: set<Node>)
    returns (ghost now: set<Node>)
    requires Sound(Snap(live)) && self in live && k <= |self.children|
    requires before == At(self.children, k - 1) && after == At(self.children, k)
    requires Sound(Snap(made)) && live !! made && node in made && node.index == -1 && node.kind != Document
    requires Tagged(live + made)
    modifies self`firstChild, self`lastChild, self`children, node`parent
    modifies live`prev, live`next, live`index, live`height, made`prev, made`next, made`index
    ensures now == live + made && Edited(old(Snap(live)), Snap(now), self, With(old(self.children), k, node))
    ensures Closed(Snap(now)) && Tree(Snap(now), node) == old(Tree(Snap(made), node)) && Tagged(now)
  {
    hide *;
    ghost var g, h := Snap(live), Snap(made);
    SnapHas(self, live);
    SnapHas(node, made);
    now := live + made;
    LinkNew(self, node, before, after, k, live, made);
    RaisedEdited(g + h, live, h[node].height + 1, Snap(now), self, With(g[self].children, k, node));
    JoinEdited(g, h, Snap(now), self, node, With(g[self].children, k, node));
  }

  /** Clones a node and puts the clone between two neighbours of a list. */
  method InsertClone(self: Node, addThis: Node, before: Node?, after: Node?, ghost k: nat, ghost live: set<Node>)
    returns (r: Node, ghost now: set<Node>)
    requires Sound(Snap(live)) && Tagged(live) && self in live && addThis in live && addThis.kind != Document
    requires k <= |self.children| && before == At(self.children, k - 1) && after == At(self.children, k)
    modifies self`firstChild, self`lastChild, self`children, live`prev, live`next, live`index, live`height
    ensures fresh(now - live) && live <= now && r in now - live && Tagged(now)
    ensures Edited(old(Snap(live)), Snap(now), self, With(old(self.children), k, r))
    ensures IsClone(Snap(now), r, old(Tree(Snap(live), addThis)))
  {
    hide *;
    ghost var f := Snap(live);
    SoundIsClosed(f);
    SnapHas(self, live);
    ghost var x := Tree(f, addThis);
    var node, made := Clone(addThis, live);
    TaggedBoth(live, made);
    now := Graft(self, node, before, after, k, live, made);
    CloneIs(Snap(now), node, x);
    r := node;
  }

  /** Puts a clone before a child; null when it is none of this node's, or a document is to be cloned. */
  method InsertBeforeChild(self: Node, beforeThis: Node?, addThis: Node, ghost live: set<Node>) returns (r: Node?, ghost now: set<Node>)
    requires Sound(Snap(live)) && Tagged(live) && self in live && addThis in live
    requires beforeThis != null ==> beforeThis in live && (beforeThis.parent == self ==> beforeThis.index >= 0)
    modifies self`firstChild, self`lastChild, self`children, live`prev, live`next, live`index, live`height
    ensures r == null <==> beforeThis == null || old(beforeThis.parent) != self || addThis.kind == Document
    ensures r == null ==> now == live && Snap(now) == old(Snap(live))
    ensures r != null ==> fresh(now - live) && live <= now && r in now - live && 0 <= old(beforeThis.index) <= |old(self.children)|
    ensures r != null ==> Edited(old(Snap(live)), Snap(now), self, With(old(self.children), old(beforeThis.index), r))
    ensures r != null ==> IsClone(Snap(now), r, old(Tree(Snap(live), addThis)))
    ensures Tagged(now)
  {
    hide *;
    if beforeThis == null || beforeThis.parent != self {
      return null, live;
    }
    if addThis.kind == Document {
      return null, live;
    }
    ghost var f := Snap(live);
    ghost var k := beforeThis.index;
    SnapHas(self, live);
    SnapHas(beforeThis, live);
    Place(f, beforeThis, self);
    Neighbours(f, self, k);
    AtPlace(self.children, k);
    SoundIsClosed(f);
    r, now := InsertClone(self, addThis, beforeThis.prev, beforeThis, k, live);
  }

  lemma AtPlace(nodes: seq<Node>, k: nat)
    requires k < |nodes|
    ensures At(nodes, k) == nodes[k]
  {
  }

  /** Puts a clone after a child; null when it is none of this node's, or a document is to be cloned. */
  method InsertAfterChild(self: Node, afterThis: Node?, addThis: Node, ghost live: set<Node>) returns (r: Node?, ghost now: set<Node>)
    requires Sound(Snap(live)) && Tagged(live) && self in live && addThis in live
    requires afterThis != null ==> afterThis in live && (afterThis.parent == self ==> afterThis.index >= 0)
    modifies self`firstChild, self`lastChild, self`children, live`prev, live`next, live`index, live`height
    ensures r == null <==> afterThis == null || old(afterThis.parent) != self || addThis.kind == Document
    ensures r == null ==> now == live && Snap(now) == old(Snap(live))
    ensures r != null ==> fresh(now - live) && live <= now && r in now - live && 0 <= old(afterThis.index) < |old(self.children)|
    ensures r != null ==> Edited(old(Snap(live)), Snap(now), self, With(old(self.children), old(afterThis.index) + 1, r))
    ensures r != null ==> IsClone(Snap(now), r, old(Tree(Snap(live), addThis)))
    ensures Tagged(now)
  {
    hide *;
    if afterThis == null || afterThis.parent != self {
      return null, live;
    }
    if addThis.kind == Document {
      return null, live;
    }
    ghost var f := Snap(live);
    ghost var k := afterThis.index;
    SnapHas(self, live);
    SnapHas(afterThis, live);
    Place(f, afterThis, self);
    Neighbours(f, self, k);
    AtPlace(self.children, k);
    SoundIsClosed(f);
    r, now := InsertClone(self, addThis, afterThis, afterThis.next, k + 1, live);
  }

  /** Makes a new node the last child. */
  method GraftLast(self: Node, node: Node, ghost live: set<Node>, ghost made: set<Node>) returns (ghost now: set<Node>)
    requires Sound(Snap(live)) && self in live
    requires Sound(Snap(made)) && live !! made && node in made && node.index == -1 && node.parent == null && node.kind != Document
    requires Tagged(live + made)
    modifies self`firstChild, self`lastChild, self`children, node`parent
    modifies live`prev, live`next, live`index, live`height, made`prev, made`next, made`index, made`height
    ensures now == live + made && Edited(old(Snap(live)), Snap(now), self, old(self.children) + [node])
    ensures Closed(Snap(now)) && Tree(Snap(now), node) == old(Tree(Snap(made), node)) && Tagged(now)
  {
    hide *;
    ghost var g, h := Snap(live), Snap(made);
    now := live + made;
    SnapJoin(live, made);
    SnapHas(self, live);
    SnapHas(node, made);
    DisjointIsSound(g, h, self, node);
    var r, all := LinkEndChild(self, node, now);
    JoinEdited(g, h, Snap(now), self, node, g[self].children + [node]);
  }

  /** Makes a clone the last child; null when a document is to be cloned. */
  method InsertEndChild(self: Node, addThis: Node, ghost live: set<Node>) returns (r: Node?, ghost now: set<Node>)
    requires Sound(Snap(live)) && Tagged(live) && self in live && addThis in live
    modifies self`firstChild, self`lastChild, self`children, live`prev, live`next, live`index, live`height
    ensures r == null <==> addThis.kind == Document
    ensures r == null ==> now == live && Snap(now) == old(Snap(live))
    ensures r != null ==> fresh(now - live) && live <= now && r in now - live
    ensures r != null ==> Edited(old(Snap(live)), Snap(now), self, With(old(self.children), |old(self.children)|, r))
    ensures r != null ==> IsClone(Snap(now), r, old(Tree(Snap(live), addThis)))
    ensures Tagged(now)
  {
    hide *;
    if addThis.kind == Document {
      return null, live;
    }
    ghost var g := Snap(live);
    SoundIsClosed(g);
    ghost var x := Tree(g, addThis);
    SnapHas(self, live);
    var node, made := Clone(addThis, live);
    TaggedBoth(live, made);
    WithAtEnd(self.children, node);
    now := GraftLast(self, node, live, made);
    CloneIs(Snap(now), node, x);
    return node, now;
  }

  lemma TaggedLess(live: set<Node>, now: set<Node>)
    requires Tagged(live) && now <= live
    ensures Tagged(now)
  {
  }

  /** The links of a node put where a child was. */
  method TakePlace(self: Node, node: Node, before: Node?, after: Node?, ghost k: nat, ghost live: set<Node>)
    requires self in live && node in live && (before == null || before in live) && (after == null || after in live)
    modifies self`firstChild, self`lastChild, node`parent, live`prev, live`next, node`index
    ensures Snap(live) == LinkedAfter(LinkedBefore(Attached(old(Snap(live)), node, self, before, after, k), self, after, node), self, before, node)
  {
    hide *;
    Attach(self, node, before, after, k, live);
    LinkBefore(self, after, node, live);
    LinkAfter(self, before, node, live);
  }

  ghost method LeavePlace(self: Node, replaceThis: Node, children: seq<Node>, live: set<Node>)
    requires self in live && replaceThis in live
    modifies self`children, replaceThis`index
    ensures Snap(live) == Relisted(Loosened(old(Snap(live)), replaceThis), self, children)
    ensures replaceThis.index == -1
  {
    hide *;
    Leave(replaceThis, live);
    SetChildren(self, children, live);
  }

  /** Links a node where a child was; it knows its parent before the old one is deleted, not after. */
  method Exchange(self: Node, replaceThis: Node, node: Node, ghost k: nat, ghost live: set<Node>)
    requires Sound(Snap(live)) && self in live && replaceThis in live && k < |self.children| && self.children[k] == replaceThis
    requires node in live && node != self && node.index == -1 && node.height < self.height && node.kind != Document
    modifies self`firstChild, self`lastChild, self`children, node`parent, live`prev, live`next, live`index
    ensures Edited(old(Snap(live)), Snap(live), self, old(self.children)[k := node])
    ensures replaceThis.index == -1
  {
    hide *;
    ghost var f := Snap(live);
    ghost var cs := self.children;
    SnapHas(self, live);
    SnapHas(node, live);
    SnapHas(replaceThis, live);
    SoundChildren(f, self);
    Neighbours(f, self, k);
    var before, after := replaceThis.prev, replaceThis.next;
    TakePlace(self, node, before, after, k, live);
    LeavePlace(self, replaceThis, cs[k := node], live);
    ReplacedMeans(f, self, k, node);
    ReplacedIs(f, self, k, node);
  }

  lemma ReplacedMeans(f: Forest, n: Node, k: nat, c: Node)
    requires Children(f, n) && k < |f[n].children| && c in f
    requires var cs := f[n].children; (At(cs, k - 1) == null || At(cs, k - 1) in f) && (At(cs, k + 1) == null || At(cs, k + 1) in f)
    ensures var cs := f[n].children; var before, after := At(cs, k - 1), At(cs, k + 1);
      && cs[k] in f
      && Replaced(f, n, k, c) ==
        Relisted(Loosened(LinkedAfter(LinkedBefore(Attached(f, c, n, before, after, k), n, after, c), n, before, c), cs[k]), n, cs[k := c])
  {
    hide At, Attached, Loosened, Relisted, LinkedAfter, LinkedBefore;
  }

  /** What is left when the replaced child is deleted. */
  lemma ReplacedJoin(g: Forest, h: Forest, k: nat, j: Forest, n: Node, c: Node, d: Node, children: seq<Node>)
    requires Sound(g) && Closed(g) && Closed(h) && g.Keys !! h.Keys && n in g && c in g && c in g[n].children && d in h
    requires var f := Raised(g + h, g.Keys, k);
      Sound(f) && Closed(f) && n in f && j.Keys == f.Keys && Edited(f, j, n, children) && Closed(j) && j[c].index == -1
    ensures Below(j, c) == Below(g, c) && n !in Below(g, c)
    ensures Edited(g, Left(j, Below(g, c)), n, children) && Closed(Left(j, Below(g, c)))
    ensures d in Left(j, Below(g, c)) && Tree(Left(j, Below(g, c)), d) == Tree(h, d)
  {
    hide Sound, Within, Tree, Edited;
    var f := Raised(g + h, g.Keys, k);
    forall m ensures m in Below(f, c) <==> m in Below(g, c) {
      SameWithin(g, f, c, m, g[c].height + 1);
      if Within(g, c, m) {
        WithinIsLower(g, c, m);
      }
    }
    assert Below(f, c) == Below(g, c);
    EditedThenSevered(f, j, n, c, children);
    var l := Left(j, Below(g, c));
    RaisedEdited(g + h, g.Keys, k, l, n, children);
    BelowIsLive(g, c);
    JoinEdited(g, h, l, n, d, children);
  }

  /** Links a clone where a child was. */
  method ExchangeNew(self: Node, replaceThis: Node, node: Node, ghost k: nat, ghost live: set<Node>, ghost made: set<Node>)
    requires Sound(Snap(live)) && self in live && replaceThis in live && k < |self.children| && self.children[k] == replaceThis
    requires Sound(Snap(made)) && live !! made && node in made && node.index == -1 && node.kind != Document
    requires Tagged(live + made)
    modifies self`firstChild, self`lastChild, self`children, node`parent
    modifies live`prev, live`next, live`index, live`height, made`prev, made`next, made`index
    ensures Closed(old(Snap(live))) && Closed(old(Snap(made))) && Closed(Snap(live + made))
    ensures Tagged(live + made) && replaceThis.index == -1
    ensures var f := Raised(old(Snap(live)) + old(Snap(made)), live, old(node.height) + 1);
      self in f && Sound(f) && Closed(f) && Sound(Snap(live + made)) && Snap(live + made).Keys == f.Keys &&
      Edited(f, Snap(live + made), self, old(self.children)[k := node])
  {
    hide *;
    ghost var g, h := Snap(live), Snap(made);
    ghost var cs := self.children;
    SnapHas(self, live);
    SnapHas(node, made);
    RaisedJoin(g, h, self, node);
    Beside(self, node, live, made);
    Exchange(self, replaceThis, node, k, live + made);
    EditedIsSound(Raised(g + h, live, h[node].height + 1), Snap(live + made), self, cs[k := node]);
  }

  /** Puts a clone in the place of a child, which is deleted. */
  method Supplant(self: Node, replaceThis: Node, node: Node, ghost k: nat, ghost live: set<Node>, ghost made: set<Node>)
    returns (ghost now: set<Node>)
    requires Sound(Snap(live)) && self in live && replaceThis in live && k < |self.children| && self.children[k] == replaceThis
    requires Sound(Snap(made)) && live !! made && node in made && node.index == -1 && node.kind != Document
    requires Tagged(live + made)
    modifies self`firstChild, self`lastChild, self`children, node`parent
    modifies live`prev, live`next, live`index, live`height, made`prev, made`next, made`index
    ensures now == live + made - old(Below(Snap(live), replaceThis)) && old(Below(Snap(live), replaceThis)) <= live
    ensures node in now && Edited(old(Snap(live)), Snap(now), self, old(self.children)[k := node])
    ensures Closed(Snap(now)) && Tree(Snap(now), node) == old(Tree(Snap(made), node)) && Tagged(now)
  {
    hide *;
    ghost var g, h := Snap(live), Snap(made);
    ghost var all := live + made;
    SnapHas(self, live);
    SnapHas(node, made);
    ExchangeNew(self, replaceThis, node, k, live, made);
    SnapHas(replaceThis, all);
    ReplacedJoin(g, h, h[node].height + 1, Snap(all), self, replaceThis, node, g[self].children[k := node]);
    BelowIsLive(g, replaceThis);
    now := Destroy(replaceThis, all, all);
    SnapLeft(all, Below(g, replaceThis));
    TaggedLess(all, now);
  }

  /** Puts a clone in the place of a child, which is deleted; null when it is none of this node's, or a document is to be cloned. */
  method ReplaceChild(self: Node, replaceThis: Node?, withThis: Node, ghost live: set<Node>) returns (r: Node?, ghost now: set<Node>)
    requires Sound(Snap(live)) && Tagged(live) && self in live && withThis in live
    requires replaceThis != null ==> replaceThis in live && (replaceThis.parent == self ==> replaceThis.index >= 0)
    modifies self`firstChild, self`lastChild, self`children, live`prev, live`next, live`index, live`height
    ensures r == null <==> replaceThis == null || old(replaceThis.parent) != self || withThis.kind == Document
    ensures r == null ==> now == live && Snap(now) == old(Snap(live))
    ensures r != null ==> fresh(r) && fresh(now - live) && r in now && live - now == old(Below(Snap(live), replaceThis))
    ensures r != null ==> 0 <= old(replaceThis.index) < |old(self.children)|
    ensures r != null ==> Edited(old(Snap(live)), Snap(now), self, old(self.children)[old(replaceThis.index) := r])
    ensures r != null ==> IsClone(Snap(now), r, old(Tree(Snap(live), withThis)))
    ensures Tagged(now)
  {
    hide *;
    if replaceThis == null {
      return null, live;
    }
    if replaceThis.parent != self {
      return null, live;
    }
    if withThis.kind == Document {
      return null, live;
    }
    ghost var g := Snap(live);
    ghost var k := replaceThis.index;
    SnapHas(self, live);
    SnapHas(replaceThis, live);
    Place(g, replaceThis, self);
    SoundIsClosed(g);
    ghost var x := Tree(g, withThis);
    var node, made := Clone(withThis, live);
    TaggedBoth(live, made);
    now := Supplant(self, replaceThis, node, k, live, made);
    CloneIs(Snap(now), node, x);
    return node, now;
  }
}
