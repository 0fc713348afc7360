/**
 * The trees of TinyXML: nodes of tinyxml.cpp whose children hang on prev, next, firstChild and lastChild.
 *
 * A forest is what the nodes in use hold at one time. This module says when their links make up lists and trees, what
 * document a tree stands for, and that editing one list keeps the others.
 */
module XmlForest {
  import opened XmlAttributes

  datatype Kind = Document | Element | Comment | Unknown | Text | Declaration

  /** What a text, a declaration or a document has besides its value. */
  datatype Details =
    | NoDetails
    | TextDetails(cdata: bool)
    | DeclarationDetails(version: string, encoding: string, standalone: string)
    | DocumentDetails(error: bool, errorId: int, errorDesc: string, tabsize: int, useMicrosoftBOM: bool)

  class Node {
    const kind: Kind
    const attributes: AttributeSet
    var value: string
    var details: Details
    var parent: Node?
    var firstChild: Node?
    var lastChild: Node?
    var prev: Node?
    var next: Node?

    // The children in order; the place among the parent's children, or -1; more than the height of any child.
    ghost var children: seq<Node>
    ghost var index: int
    ghost var height: nat

    constructor (kind: Kind, value: string, details: Details)
      ensures this.kind == kind && this.value == value && this.details == details
      ensures parent == null && firstChild == null && lastChild == null && prev == null && next == null
      ensures children == [] && index == -1
      ensures attributes.Valid() && attributes.Contents() == [] && fresh(attributes) && fresh(attributes.ring)
    {
      this.kind, this.value, this.details := kind, value, details;
      attributes := new AttributeSet();
      parent, firstChild, lastChild, prev, next := null, null, null, null, null;
      children, index := [], -1;
    }
  }

  /** What a node says itself. */
  datatype Label = Label(kind: Kind, value: string, details: Details, attributes: seq<Pair>)

  /** What a node holds. */
  datatype Links = Links(
    data: Label, parent: Node?, firstChild: Node?, lastChild: Node?, prev: Node?, next: Node?,
    children: seq<Node>, index: int, height: nat)

  type Forest = map<Node, Links>

  // ---- Lists

  /** The child in place i is linked to its neighbours and to its parent. */
  ghost predicate Child(f: Forest, n: Node, i: nat)
    requires n in f && i < |f[n].children|
  {
    var cs := f[n].children;
    var c := cs[i];
    && c in f && f[c].height < f[n].height
    && f[c].parent == n && f[c].index == i && f[c].data.kind != Document
    && f[c].prev == (if i == 0 then null else cs[i - 1])
    && f[c].next == (if i + 1 == |cs| then null else cs[i + 1])
  }

  /** Both chains of a node run through its children. */
  ghost predicate Listed(f: Forest, n: Node)
    requires n in f
  {
    var cs := f[n].children;
    && f[n].firstChild == (if cs == [] then null else cs[0])
    && f[n].lastChild == (if cs == [] then null else cs[|cs| - 1])
    && forall i {:trigger Child(f, n, i)} :: 0 <= i < |cs| ==> Child(f, n, i)
  }

  /** A node with a place is in that place. */
  ghost predicate Placed(f: Forest, n: Node)
    requires n in f
  {
    f[n].index >= 0 ==>
      var p := f[n].parent;
      p != null && p in f && f[n].index < |f[p].children| && f[p].children[f[n].index] == n
  }

  /** The children are nodes as well, and lower. */
  ghost predicate Closed(f: Forest) {
    forall n, i :: n in f && 0 <= i < |f[n].children| ==> f[n].children[i] in f && f[f[n].children[i]].height < f[n].height
  }

  /** Every list is in order, and the lists make up trees. */
  ghost predicate Sound(f: Forest) {
    Closed(f) && forall n :: n in f ==> Listed(f, n) && Placed(f, n)
  }

  /** Following next from a node visits exactly these, and then ends. */
  ghost predicate Forward(f: Forest, from: Node?, nodes: seq<Node>) {
    if nodes == [] then from == null
    else from == nodes[0] && from in f && Forward(f, f[from].next, nodes[1..])
  }

  /** Following prev from a node visits exactly these from the end, and then ends. */
  ghost predicate Backward(f: Forest, from: Node?, nodes: seq<Node>) {
    if nodes == [] then from == null
    else from == nodes[|nodes| - 1] && from in f && Backward(f, f[from].prev, nodes[..|nodes| - 1])
  }

  lemma {:induction false} ForwardFrom(f: Forest, n: Node, i: nat)
    requires n in f && Listed(f, n) && i <= |f[n].children|
    ensures Forward(f, if i < |f[n].children| then f[n].children[i] else null, f[n].children[i..])
    decreases |f[n].children| - i
  {
    var cs := f[n].children;
    if i < |cs| {
      assert Child(f, n, i);
      ForwardFrom(f, n, i + 1);
      assert cs[i..][1..] == cs[i + 1..];
    }
  }

  lemma {:induction false} BackwardFrom(f: Forest, n: Node, i: nat)
    requires n in f && Listed(f, n) && i <= |f[n].children|
    ensures Backward(f, if i > 0 then f[n].children[i - 1] else null, f[n].children[..i])
  {
    var cs := f[n].children;
    if i > 0 {
      assert Child(f, n, i - 1);
      BackwardFrom(f, n, i - 1);
      assert cs[..i][..i - 1] == cs[..i - 1];
    }
  }

  /** The forward chain and the backward chain of a node are its children, and it is the parent of each. */
  lemma ChainsAgree(f: Forest, n: Node)
    requires Sound(f) && n in f
    ensures Forward(f, f[n].firstChild, f[n].children) && Backward(f, f[n].lastChild, f[n].children)
    ensures forall c :: c in f[n].children ==> c in f && f[c].parent == n
    ensures forall i, j :: 0 <= i < j < |f[n].children| ==> f[n].children[i] != f[n].children[j]
  {
    var cs := f[n].children;
    assert Listed(f, n);
    ForwardFrom(f, n, 0);
    BackwardFrom(f, n, |cs|);
    assert cs[0..] == cs && cs[..|cs|] == cs;
    forall i | 0 <= i < |cs| ensures cs[i] in f && f[cs[i]].parent == n && f[cs[i]].index == i {
      assert Child(f, n, i);
    }
  }

  lemma ChildIs(f: Forest, n: Node, i: nat)
    requires Sound(f) && n in f && i < |f[n].children|
    ensures Child(f, n, i) && f[n].children[i] in f && f[f[n].children[i]].height < f[n].height
  {
    assert Listed(f, n);
  }

  lemma SoundAt(f: Forest, n: Node)
    requires Sound(f) && n in f
    ensures Listed(f, n) && Placed(f, n)
  {
  }

  lemma IsSound(f: Forest)
    requires forall n :: n in f ==> Listed(f, n) && Placed(f, n)
    ensures Sound(f)
  {
    forall n, i | n in f && 0 <= i < |f[n].children|
      ensures f[n].children[i] in f && f[f[n].children[i]].height < f[n].height
    {
      assert Child(f, n, i);
    }
  }

  // ---- Trees

  lemma SoundIsClosed(f: Forest)
    requires Sound(f)
    ensures Closed(f)
  {
  }

  /** m is n or below it. */
  ghost predicate Within(f: Forest, n: Node, m: Node)
    requires Closed(f) && n in f
    decreases f[n].height
  {
    n == m || exists i :: 0 <= i < |f[n].children| && Within(f, f[n].children[i], m)
  }

  ghost function Below(f: Forest, n: Node): set<Node>
    requires Closed(f) && n in f
  {
    set m | m in f && Within(f, n, m)
  }

  lemma {:induction false} WithinIsLower(f: Forest, n: Node, m: Node)
    requires Closed(f) && n in f && Within(f, n, m)
    ensures m in f && (m == n || f[m].height < f[n].height)
    decreases f[n].height
  {
    if n != m {
      var i :| 0 <= i < |f[n].children| && Within(f, f[n].children[i], m);
      WithinIsLower(f, f[n].children[i], m);
    }
  }

  /** Whoever is below a node has a parent there. */
  lemma {:induction false} ParentWithin(f: Forest, n: Node, m: Node)
    requires Sound(f) && Closed(f) && n in f && Within(f, n, m) && m != n
    ensures m in f && f[m].index >= 0 && f[m].parent != null && f[m].parent in f
    ensures Within(f, n, f[m].parent) && f[m].height < f[f[m].parent].height
    decreases f[n].height
  {
    var i :| 0 <= i < |f[n].children| && Within(f, f[n].children[i], m);
    ChildIs(f, n, i);
    if m == f[n].children[i] {
      assert Within(f, n, n);
    } else {
      ParentWithin(f, f[n].children[i], m);
    }
  }

  /** A child of a node below is below. */
  lemma {:induction false} ChildWithin(f: Forest, n: Node, m: Node, k: nat)
    requires Closed(f) && n in f && m in f && Within(f, n, m) && k < |f[m].children|
    ensures Within(f, n, f[m].children[k])
    decreases f[n].height
  {
    if n != m {
      var i :| 0 <= i < |f[n].children| && Within(f, f[n].children[i], m);
      ChildWithin(f, f[n].children[i], m, k);
    } else {
      assert Within(f, f[n].children[k], f[m].children[k]);
    }
  }

  /** Two nodes above a third are one above the other. */
  lemma {:induction false} Comparable(f: Forest, a: Node, b: Node, m: Node)
    requires Sound(f) && Closed(f) && a in f && b in f && m in f && Within(f, a, m) && Within(f, b, m)
    ensures Within(f, a, b) || Within(f, b, a)
    decreases f[a].height - f[m].height
  {
    hide Sound, Within;
    if m != a && m != b {
      ParentWithin(f, a, m);
      ParentWithin(f, b, m);
      WithinIsLower(f, a, f[m].parent);
      Comparable(f, a, b, f[m].parent);
    }
  }

  /** Nothing is below two children of one node. */
  lemma SiblingsApart(f: Forest, n: Node, i: nat, j: nat, m: Node)
    requires Sound(f) && Closed(f) && n in f && i < |f[n].children| && j < |f[n].children| && i != j
    requires Within(f, f[n].children[i], m)
    ensures !Within(f, f[n].children[j], m)
  {
    var a, b := f[n].children[i], f[n].children[j];
    ChildIs(f, n, i);
    ChildIs(f, n, j);
    if Within(f, b, m) {
      WithinIsLower(f, a, m);
      Comparable(f, a, b, m);
      if Within(f, a, b) {
        ParentWithin(f, a, b);
        WithinIsLower(f, a, n);
      } else {
        ParentWithin(f, b, a);
        WithinIsLower(f, b, n);
      }
      assert false;
    }
  }

  // ---- Deletion

  /** The nodes at or below the first k children. */
  ghost function BelowFirst(f: Forest, n: Node, k: nat): set<Node>
    requires Closed(f) && n in f && k <= |f[n].children|
  {
    set m | m in f && exists i :: 0 <= i < k && Within(f, f[n].children[i], m)
  }

  lemma BelowAll(f: Forest, n: Node)
    requires Closed(f) && n in f
    ensures Below(f, n) == {n} + BelowFirst(f, n, |f[n].children|)
    ensures n !in BelowFirst(f, n, |f[n].children|)
    ensures BelowFirst(f, n, 0) == {} && n in Below(f, n)
  {
    if i :| 0 <= i < |f[n].children| && Within(f, f[n].children[i], n) {
      WithinIsLower(f, f[n].children[i], n);
    }
  }

  lemma NextBelow(f: Forest, n: Node, k: nat)
    requires Sound(f) && Closed(f) && n in f && k < |f[n].children|
    ensures BelowFirst(f, n, k + 1) == BelowFirst(f, n, k) + Below(f, f[n].children[k])
    ensures BelowFirst(f, n, k) !! Below(f, f[n].children[k])
    ensures f[n].children[k] in Below(f, f[n].children[k]) && Below(f, f[n].children[k]) <= Below(f, n)
  {
    hide Sound;
    forall m | m in f && Within(f, f[n].children[k], m) ensures m !in BelowFirst(f, n, k) {
      if i :| 0 <= i < k && Within(f, f[n].children[i], m) {
        SiblingsApart(f, n, i, k, m);
      }
    }
  }

  /** The nodes that are left when some are gone. */
  function Left(f: Forest, gone: set<Node>): Forest {
    map n | n in f && n !in gone :: f[n]
  }

  /** Without a node that is in no list, and what is below it, the others are as they were. */
  lemma Severed(f: Forest, n: Node)
    requires Sound(f) && Closed(f) && n in f && f[n].index < 0
    ensures Sound(Left(f, Below(f, n)))
  {
    hide Sound, Closed, Within, Below;
    var g := Left(f, Below(f, n));
    forall m | m in g ensures Listed(g, m) && Placed(g, m) {
      SoundAt(f, m);
      forall i | 0 <= i < |g[m].children| ensures Child(g, m, i) {
        assert Child(f, m, i);
        NotBelow(f, n, m, i);
      }
      if g[m].index >= 0 {
        ParentNotBelow(f, n, m);
      }
    }
    IsSound(g);
  }

  lemma NotBelow(f: Forest, n: Node, m: Node, i: nat)
    requires Sound(f) && Closed(f) && n in f && f[n].index < 0
    requires m in f && m !in Below(f, n) && i < |f[m].children|
    ensures f[m].children[i] !in Below(f, n)
  {
    hide Sound, Within;
    var c := f[m].children[i];
    ChildIs(f, m, i);
    if Within(f, n, c) {
      ParentWithin(f, n, c);
    }
  }

  lemma ParentNotBelow(f: Forest, n: Node, m: Node)
    requires Sound(f) && Closed(f) && n in f && m in f && m !in Below(f, n) && f[m].index >= 0 && Placed(f, m)
    ensures f[m].parent !in Below(f, n)
  {
    hide Sound, Within;
    if f[m].parent in Below(f, n) {
      ChildWithin(f, n, f[m].parent, f[m].index);
    }
  }

  // ---- Edits

  /** What becomes of a node when only n's list differs: nodes have left it, or joined it from no list. */
  ghost predicate EditedAt(f: Forest, g: Forest, n: Node, m: Node)
    requires n in f && n in g && m in f && m in g
  {
    && g[m].data == f[m].data && g[m].height == f[m].height
    && (m != n ==> g[m].children == f[m].children && g[m].firstChild == f[m].firstChild && g[m].lastChild == f[m].lastChild)
    && (m !in f[n].children && m !in g[n].children ==>
      g[m].parent == f[m].parent && g[m].prev == f[m].prev && g[m].next == f[m].next && g[m].index == f[m].index)
    && (m in f[n].children && m !in g[n].children ==> g[m].index == -1)
    && (m in g[n].children ==> m in f[n].children || f[m].index == -1)
  }

  ghost predicate OnlyListOf(f: Forest, g: Forest, n: Node) {
    && n in f && g.Keys == f.Keys
    && forall m {:trigger EditedAt(f, g, n, m)} :: m in f ==> EditedAt(f, g, n, m)
  }

  /** The nodes are what they were but for one list, and all lists are in order. */
  ghost predicate Edited(f: Forest, g: Forest, n: Node, children: seq<Node>)
    requires n in f
  {
    && Sound(g) && n in g && g[n].children == children
    && forall m :: m in f && m in g ==>
      && g[m].data == f[m].data
      && (m != n ==> g[m].children == f[m].children)
      && (m !in f[n].children && m !in children ==> g[m].parent == f[m].parent && g[m].index == f[m].index)
  }

  lemma OthersListed(f: Forest, g: Forest, n: Node, m: Node)
    requires Sound(f) && OnlyListOf(f, g, n) && m in f && m != n
    ensures Listed(g, m)
  {
    hide Sound;
    SoundAt(f, n);
    SoundAt(f, m);
    assert EditedAt(f, g, n, m);
    forall i | 0 <= i < |g[m].children| ensures Child(g, m, i) {
      assert Child(f, m, i);
      var c := f[m].children[i];
      assert EditedAt(f, g, n, c);
      if c in f[n].children {
        var j :| 0 <= j < |f[n].children| && f[n].children[j] == c;
        ChildIs(f, n, j);
      }
    }
  }

  lemma StillPlaced(f: Forest, g: Forest, n: Node, m: Node)
    requires Sound(f) && OnlyListOf(f, g, n) && Listed(g, n) && m in f
    ensures Placed(g, m)
  {
    assert Placed(f, m) && EditedAt(f, g, n, m);
    if g[m].index >= 0 {
      if m in g[n].children {
        var j :| 0 <= j < |g[n].children| && g[n].children[j] == m;
        assert Child(g, n, j);
      } else {
        assert EditedAt(f, g, n, f[m].parent);
      }
    }
  }

  /** An edit of one list keeps all lists in order when the edited one is. */
  lemma EditIsSound(f: Forest, g: Forest, n: Node)
    requires Sound(f) && OnlyListOf(f, g, n) && Listed(g, n)
    ensures Edited(f, g, n, g[n].children)
  {
    forall m | m in f ensures EditedAt(f, g, n, m) {
    }
    forall m | m in g ensures Listed(g, m) && Placed(g, m) {
      StillPlaced(f, g, n, m);
      if m != n {
        OthersListed(f, g, n, m);
      }
    }
    IsSound(g);
  }

  /** The two forests side by side. */
  lemma JoinedIsSound(f: Forest, g: Forest)
    requires Sound(f) && Sound(g) && f.Keys !! g.Keys
    ensures Sound(f + g)
  {
    hide Sound;
    forall m | m in f + g ensures Listed(f + g, m) && Placed(f + g, m) {
      if m in f {
        SoundAt(f, m);
        forall i | 0 <= i < |f[m].children| ensures Child(f + g, m, i) {
          assert Child(f, m, i);
        }
      } else {
        SoundAt(g, m);
        forall i | 0 <= i < |g[m].children| ensures Child(f + g, m, i) {
          assert Child(g, m, i);
        }
      }
    }
    IsSound(f + g);
  }

  /** Some nodes made higher. */
  function Raised(f: Forest, who: set<Node>, k: nat): Forest {
    map n | n in f :: if n in who then f[n].(height := f[n].height + k) else f[n]
  }

  lemma RaisedIsSound(f: Forest, who: set<Node>, k: nat)
    requires Sound(f)
    requires forall n, i :: n in f && 0 <= i < |f[n].children| && f[n].children[i] in who ==> n in who
    ensures Sound(Raised(f, who, k))
  {
    hide Sound;
    var g := Raised(f, who, k);
    forall m | m in g ensures Listed(g, m) && Placed(g, m) {
      SoundAt(f, m);
      forall i | 0 <= i < |g[m].children| ensures Child(g, m, i) {
        assert Child(f, m, i);
      }
    }
    IsSound(g);
  }

  /** Raising what is not below a node keeps everything in order. */
  lemma RaisedAround(f: Forest, n: Node, k: nat)
    requires Sound(f) && Closed(f) && n in f
    ensures Sound(Raised(f, f.Keys - Below(f, n), k))
  {
    hide Sound, Within, Raised;
    forall m, i | m in f && 0 <= i < |f[m].children| && f[m].children[i] in f.Keys - Below(f, n)
      ensures m in f.Keys - Below(f, n)
    {
      if m in Below(f, n) {
        ChildWithin(f, n, m, i);
      }
    }
    RaisedIsSound(f, f.Keys - Below(f, n), k);
  }

  /** What is below a node is the same when only lists of nodes that are not lower differ. */
  lemma {:induction false} SameWithin(f: Forest, g: Forest, n: Node, m: Node, h: nat)
    requires Closed(f) && Closed(g) && n in f && n in g && f[n].height < h
    requires forall c :: c in f && f[c].height < h ==> c in g && g[c].children == f[c].children
    ensures Within(f, n, m) <==> Within(g, n, m)
    decreases f[n].height
  {
    forall i | 0 <= i < |f[n].children| ensures Within(f, f[n].children[i], m) <==> Within(g, f[n].children[i], m) {
      SameWithin(f, g, f[n].children[i], m, h);
    }
  }

  /** Taking a child out and then deleting it. */
  lemma EditedThenSevered(f: Forest, g: Forest, n: Node, c: Node, children: seq<Node>)
    requires Sound(f) && Closed(f) && n in f && c in f && c in f[n].children
    requires g.Keys == f.Keys && Edited(f, g, n, children) && Closed(g) && g[c].index == -1
    ensures Below(g, c) == Below(f, c) && n !in Below(f, c)
    ensures Edited(f, Left(g, Below(f, c)), n, children)
  {
    hide Sound, Within;
    var i :| 0 <= i < |f[n].children| && f[n].children[i] == c;
    ChildIs(f, n, i);
    EditedIsSound(f, g, n, children);
    forall m | m in f ensures Within(f, c, m) <==> Within(g, c, m) {
      SameWithin(f, g, c, m, f[n].height);
    }
    if n in Below(f, c) {
      WithinIsLower(f, c, n);
    }
    Severed(g, c);
  }

  lemma EditedIsSound(f: Forest, g: Forest, n: Node, children: seq<Node>)
    requires n in f && Edited(f, g, n, children)
    ensures Sound(g) && Closed(g)
  {
  }

  // ---- Documents

  /** What a node and all below it say. */
  datatype Xml = Xml(data: Label, children: seq<Xml>)

  ghost function Tree(f: Forest, n: Node): Xml
    requires Closed(f) && n in f
    decreases f[n].height
  {
    Xml(f[n].data, seq(|f[n].children|, i requires 0 <= i < |f[n].children| => Tree(f, f[n].children[i])))
  }

  /** A tree is the same in two forests that agree on its nodes. */
  lemma {:induction false} SameTree(f: Forest, g: Forest, n: Node, who: set<Node>)
    requires Closed(f) && Closed(g) && n in who && who <= f.Keys && who <= g.Keys
    requires forall m :: m in who ==> f[m].data == g[m].data && f[m].children == g[m].children
    requires forall m, i :: m in who && 0 <= i < |f[m].children| ==> f[m].children[i] in who
    ensures Tree(f, n) == Tree(g, n)
    decreases f[n].height
  {
    forall i | 0 <= i < |f[n].children| ensures Tree(f, f[n].children[i]) == Tree(g, f[n].children[i]) {
      SameTree(f, g, f[n].children[i], who);
    }
  }

  /** Editing a node's list changes the tree of that node only in its children, whose trees stay. */
  lemma EditedTree(f: Forest, g: Forest, n: Node, c: Node)
    requires Sound(f) && Closed(f) && Closed(g) && n in f && n in g && f.Keys <= g.Keys && Edited(f, g, n, g[n].children)
    requires c in f && c in g && c in f[n].children
    ensures Tree(g, c) == Tree(f, c)
  {
    hide Sound;
    var i :| 0 <= i < |f[n].children| && f[n].children[i] == c;
    ChildIs(f, n, i);
    var who := set m | m in f && f[m].height < f[n].height;
    SameTree(f, g, c, who);
  }

  /** Nothing outside is below a node of a part that its links do not leave. */
  lemma {:induction false} WithinStays(f: Forest, n: Node, m: Node, who: set<Node>)
    requires Closed(f) && n in who && who <= f.Keys && Within(f, n, m)
    requires forall c, i :: c in who && 0 <= i < |f[c].children| ==> f[c].children[i] in who
    ensures m in who
    decreases f[n].height
  {
    if n != m {
      var i :| 0 <= i < |f[n].children| && Within(f, f[n].children[i], m);
      WithinStays(f, f[n].children[i], m, who);
    }
  }

  /** What Clone makes of a tree: texts, comments and the like keep no children, elements lose attributes after a blank one. */
  function Copied(x: Xml): Xml {
    if x.data.kind == Element then
      Xml(x.data.(attributes := Seen(x.data.attributes)), CopiedAll(x.children))
    else if x.data.kind == Document then
      Xml(x.data, CopiedAll(x.children))
    else
      Xml(x.data, [])
  }

  function CopiedAll(xs: seq<Xml>): (ys: seq<Xml>)
    ensures |ys| == |xs|
    ensures forall i :: 0 <= i < |xs| ==> ys[i] == Copied(xs[i])
  {
    if xs == [] then [] else CopiedAll(xs[..|xs| - 1]) + [Copied(xs[|xs| - 1])]
  }

  /** Only elements and documents have children, and no attribute after the first is without name and value. */
  predicate Plain(x: Xml) {
    && (x.data.kind == Element ==> forall i :: 1 <= i < |x.data.attributes| ==> x.data.attributes[i] != EMPTY)
    && (x.data.kind != Element && x.data.kind != Document ==> x.children == [])
    && forall i :: 0 <= i < |x.children| ==> Plain(x.children[i])
  }

  /** A clone says the same exactly when the tree is plain. */
  lemma {:induction false} CloneIsFaithful(x: Xml)
    ensures Copied(x) == x <==> Plain(x)
  {
    SeesAll(x.data.attributes);
    forall i | 0 <= i < |x.children| ensures Copied(x.children[i]) == x.children[i] <==> Plain(x.children[i]) {
      CloneIsFaithful(x.children[i]);
    }
    if forall i :: 0 <= i < |x.children| ==> Copied(x.children[i]) == x.children[i] {
      assert CopiedAll(x.children) == x.children;
    }
  }

  lemma GraftedChild(g: Forest, h: Forest, j: Forest, n: Node, c: Node, children: seq<Node>)
    requires Sound(g) && Closed(g) && Closed(j) && g.Keys !! h.Keys
    requires n in g && c in g && c in g[n].children && j.Keys == g.Keys + h.Keys && Edited(g + h, j, n, children)
    ensures Tree(j, c) == Tree(g, c)
  {
    hide Sound, Tree;
    var i :| 0 <= i < |g[n].children| && g[n].children[i] == c;
    ChildIs(g, n, i);
    SameTree(g, j, c, set m | m in g && g[m].height < g[n].height);
  }

  lemma GraftedRoot(g: Forest, h: Forest, j: Forest, n: Node, d: Node, children: seq<Node>)
    requires Closed(h) && Closed(j) && g.Keys !! h.Keys
    requires n in g && d in h && j.Keys == g.Keys + h.Keys && Edited(g + h, j, n, children)
    ensures Tree(j, d) == Tree(h, d)
  {
    hide Sound, Tree;
    SameTree(h, j, d, h.Keys);
  }

  lemma GraftedOwner(g: Forest, h: Forest, j: Forest, n: Node, children: seq<Node>)
    requires g.Keys !! h.Keys && n in g && j.Keys == g.Keys + h.Keys && Edited(g + h, j, n, children)
    ensures n in j && j[n].data == g[n].data && j[n].children == children
  {
  }

  /** A tree made of another forest becomes the last child: its tree and those of the other children stay. */
  lemma GraftedTree(g: Forest, h: Forest, j: Forest, n: Node, d: Node)
    requires Sound(g) && Closed(g) && Closed(h) && Closed(g + h) && Closed(j) && g.Keys !! h.Keys
    requires n in g && d in h && j.Keys == g.Keys + h.Keys && Edited(g + h, j, n, g[n].children + [d])
    ensures Tree(j, n) == Xml(g[n].data, Tree(g, n).children + [Tree(h, d)])
  {
    hide Sound, Closed, Edited;
    var cs := g[n].children;
    GraftedOwner(g, h, j, n, cs + [d]);
    forall i | 0 <= i < |cs| ensures cs[i] in g && Tree(j, cs[i]) == Tree(g, cs[i]) {
      ChildIs(g, n, i);
      GraftedChild(g, h, j, n, cs[i], cs + [d]);
    }
    GraftedRoot(g, h, j, n, d, cs + [d]);
  }
}
