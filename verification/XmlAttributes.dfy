/** The attributes of an element in TinyXML: a doubly linked ring of tinyxml.cpp that begins and ends at a sentinel. */
module XmlAttributes {
  type Pair = (string, string)

  const EMPTY: Pair := ("", "")

  class Attribute {
    var name: string
    var value: string
    var prev: Attribute?
    var next: Attribute?

    constructor (name: string, value: string)
      ensures this.name == name && this.value == value && prev == null && next == null
    {
      this.name, this.value, prev, next := name, value, null, null;
    }

    /** The attribute after this one; the end of the ring is told by its having neither name nor value. */
    method Next() returns (r: Attribute?)
      requires next != null
      ensures r == if next.name == "" && next.value == "" then null else next
    {
      if next.value == "" && next.name == "" {
        return null;
      }
      return next;
    }
  }

  // ---- Values

  predicate Unique(pairs: seq<Pair>) {
    forall i, j :: 0 <= i < j < |pairs| ==> pairs[i].0 != pairs[j].0
  }

  /** The names and values with one of them given: in its place, or at the end. */
  function Assigned(pairs: seq<Pair>, name: string, value: string): seq<Pair> {
    if pairs == [] then [(name, value)]
    else if pairs[0].0 == name then [(name, value)] + pairs[1..]
    else [pairs[0]] + Assigned(pairs[1..], name, value)
  }

  /** What a walk with Next sees: all up to a later attribute without name and value. */
  function Seen(pairs: seq<Pair>): seq<Pair> {
    if |pairs| <= 1 then pairs
    else if pairs[1] == EMPTY then pairs[..1]
    else [pairs[0]] + Seen(pairs[1..])
  }

  /** The walk sees every attribute exactly when none after the first is without name and value. */
  lemma {:induction false} SeesAll(pairs: seq<Pair>)
    ensures Seen(pairs) == pairs <==> forall i :: 1 <= i < |pairs| ==> pairs[i] != EMPTY
  {
    if |pairs| > 1 && pairs[1] != EMPTY {
      var rest := pairs[1..];
      SeesAll(rest);
      assert pairs == [pairs[0]] + rest;
      if Seen(pairs) == pairs {
        assert Seen(pairs)[1..] == Seen(rest);
        assert forall i :: 1 <= i < |rest| ==> rest[i] != EMPTY;
        forall i | 1 <= i < |pairs| ensures pairs[i] != EMPTY {
          assert pairs[i] == rest[i - 1];
        }
      } else {
        assert Seen(rest) != rest;
        var i :| 1 <= i < |rest| && rest[i] == EMPTY;
        assert pairs[i + 1] == EMPTY;
      }
    }
  }

  /** An element cloned loses the attributes from the first nameless and valueless one that is not at the front. */
  lemma WalkStopsEarly()
    ensures Seen([("a", "1"), EMPTY, ("b", "2")]) == [("a", "1")]
  {
  }

  /** A name that is there keeps its place. */
  lemma {:induction false} AssignedInPlace(pairs: seq<Pair>, k: nat, name: string, value: string)
    requires Unique(pairs) && k < |pairs| && pairs[k].0 == name
    ensures Assigned(pairs, name, value) == pairs[k := (name, value)]
  {
    if k > 0 {
      AssignedInPlace(pairs[1..], k - 1, name, value);
      assert [pairs[0]] + pairs[1..][k - 1 := (name, value)] == pairs[k := (name, value)];
    }
  }

  /** A name that is not goes to the end. */
  lemma {:induction false} AssignedAtEnd(pairs: seq<Pair>, name: string, value: string)
    requires forall i :: 0 <= i < |pairs| ==> pairs[i].0 != name
    ensures Assigned(pairs, name, value) == pairs + [(name, value)]
  {
    if pairs != [] {
      AssignedAtEnd(pairs[1..], name, value);
      assert [pairs[0]] + (pairs[1..] + [(name, value)]) == pairs + [(name, value)];
    }
  }

  /** The attribute found or made, given its value. */
  lemma IsAssigned(was: seq<Pair>, now: seq<Pair>, k: nat, name: string, value: string)
    requires Unique(was) && k < |now| && now[k].0 == name
    requires now == was || (now == was + [(name, "")] && forall i :: 0 <= i < |was| ==> was[i].0 != name)
    ensures Unique(now[k := (name, value)]) && now[k := (name, value)] == Assigned(was, name, value)
  {
    if now == was {
      AssignedInPlace(was, k, name, value);
    } else {
      assert k == |was|;
      AssignedAtEnd(was, name, value);
    }
  }

  // ---- The ring

  function Dropped<T>(ring: seq<T>, k: nat): (rest: seq<T>)
    requires k < |ring|
    ensures |rest| == |ring| - 1
    ensures forall j :: 0 <= j < k ==> rest[j] == ring[j]
    ensures forall j :: k <= j < |rest| ==> rest[j] == ring[j + 1]
  {
    ring[..k] + ring[k + 1..]
  }

  class AttributeSet {
    const sentinel: Attribute
    // The sentinel and then the attributes in order.
    ghost var ring: seq<Attribute>

    /** The links go round the ring both ways. */
    ghost predicate Circular()
      reads this, ring, sentinel
    {
      && |ring| > 0
      && ring[0] == sentinel
      && sentinel.name == "" && sentinel.value == ""
      && (forall i, j :: 0 <= i < j < |ring| ==> ring[i] != ring[j])
      && (forall i :: 0 <= i < |ring| ==> ring[i].next == ring[if i + 1 == |ring| then 0 else i + 1])
      && (forall i :: 0 <= i < |ring| ==> ring[i].prev == ring[if i == 0 then |ring| - 1 else i - 1])
    }

    /** The names and values in order. */
    ghost function Contents(): (pairs: seq<Pair>)
      reads this, ring
      ensures |ring| > 0 ==> |pairs| == |ring| - 1
      ensures forall i :: 0 <= i < |pairs| ==> i + 1 < |ring| && pairs[i] == (ring[i + 1].name, ring[i + 1].value)
    {
      if |ring| == 0 then []
      else seq(|ring| - 1, i requires 0 <= i < |ring| - 1 reads this, ring => (ring[i + 1].name, ring[i + 1].value))
    }

    ghost predicate Valid()
      reads this, ring, sentinel
    {
      Circular() && Unique(Contents())
    }

    lemma ValidParts()
      ensures Valid() <==> Circular() && Unique(Contents())
      ensures Circular() ==> |ring| == |Contents()| + 1 && ring[0] == sentinel
    {
    }

    constructor ()
      ensures Valid() && Contents() == [] && fresh(ring)
    {
      sentinel := new Attribute("", "");
      new;
      sentinel.next := sentinel;
      sentinel.prev := sentinel;
      ring := [sentinel];
    }

    method First() returns (r: Attribute?)
      requires Circular()
      ensures r == if |ring| == 1 then null else ring[1]
    {
      return if sentinel.next == sentinel then null else sentinel.next;
    }

    /** One step of a walk over the attributes. */
    method Step(attribute: Attribute, ghost i: nat) returns (r: Attribute?)
      requires Circular() && i < |Contents()| && attribute == ring[i + 1]
      ensures r == null <==> i + 1 == |Contents()| || Contents()[i + 1] == EMPTY
      ensures r != null ==> i + 2 < |ring| && r == ring[i + 2]
    {
      r := attribute.Next();
    }

    method Add(addMe: Attribute)
      requires Circular() && addMe !in ring
      modifies this`ring, addMe`prev, addMe`next, sentinel`prev, ring`next
      ensures Circular() && ring == old(ring) + [addMe]
      ensures Contents() == old(Contents()) + [(addMe.name, addMe.value)]
    {
      ghost var was := ring;
      addMe.next := sentinel;
      addMe.prev := sentinel.prev;

      assert sentinel.prev == was[|was| - 1];
      sentinel.prev.next := addMe;
      sentinel.prev := addMe;
      ring := ring + [addMe];
    }

    /** The neighbours of an attribute are joined to each other. */
    method Bypass(node: Attribute, ghost k: nat)
      requires Circular() && 1 <= k < |ring| && ring[k] == node
      modifies ring`next, ring`prev
      ensures forall i :: 0 <= i < |ring| && i != k ==> ring[i].next == if i == k - 1 then old(node.next) else old(ring[i].next)
      ensures forall i :: 0 <= i < |ring| && i != k ==> ring[i].prev == if i == (if k + 1 == |ring| then 0 else k + 1) then old(node.prev) else old(ring[i].prev)
      ensures node.next == null && node.prev == null
    {
      ghost var was := ring;
      assert node.prev == was[k - 1] && node.next == was[if k + 1 == |was| then 0 else k + 1];
      node.prev.next := node.next;
      node.next.prev := node.prev;
      node.next := null;
      node.prev := null;
    }

    method Unlink(node: Attribute, ghost k: nat)
      requires Circular() && 1 <= k < |ring| && ring[k] == node
      modifies this`ring, ring`next, ring`prev
      ensures Circular() && node.next == null && node.prev == null
      ensures ring == Dropped(old(ring), k)
    {
      Bypass(node, k);
      ring := Dropped(ring, k);
    }

    method Remove(removeMe: Attribute)
      requires Circular()
      modifies this`ring, ring`next, ring`prev
      ensures Circular()
      ensures removeMe !in old(ring[1..]) ==> ring == old(ring)
      ensures forall k :: 1 <= k < |old(ring)| && old(ring)[k] == removeMe ==>
        && ring == Dropped(old(ring), k)
        && Contents() == Dropped(old(Contents()), k - 1)
        && removeMe.next == null && removeMe.prev == null
    {
      ghost var k := 1;
      ghost var pairs := Contents();
      var node := sentinel.next;
      while node != sentinel && node != removeMe
        invariant 1 <= k <= |ring|
        invariant node == if k == |ring| then sentinel else ring[k]
        invariant removeMe !in ring[1..k]
        decreases |ring| - k
        modifies {}
      {
        assert ring[1..k + 1] == ring[1..k] + [node];
        node := node.next;
        k := k + 1;
      }
      if node != sentinel {
        assert node == ring[k];
        Unlink(node, k);
        assert Contents() == Dropped(pairs, k - 1);
      } else {
        assert ring[1..k] == ring[1..];
      }
    }

    method Find(name: string) returns (r: Attribute?)
      requires Circular()
      ensures r == null ==> forall i :: 1 <= i < |ring| ==> ring[i].name != name
      ensures r != null ==> exists i :: 1 <= i < |ring| && ring[i] == r && r.name == name && forall j :: 1 <= j < i ==> ring[j].name != name
    {
      ghost var i := 1;
      var node := sentinel.next;
      while node != sentinel
        invariant 1 <= i <= |ring|
        invariant node == if i == |ring| then sentinel else ring[i]
        invariant forall j :: 1 <= j < i ==> ring[j].name != name
        decreases |ring| - i
      {
        if node.name == name {
          return node;
        }
        node := node.next;
        i := i + 1;
      }
      return null;
    }

    method SetName(attribute: Attribute, name: string, ghost k: nat)
      requires Circular() && 1 <= k < |ring| && ring[k] == attribute
      modifies attribute`name
      ensures Circular() && attribute.name == name
      ensures Contents() == old(Contents())[k - 1 := (name, attribute.value)]
    {
      attribute.name := name;
    }

    /** A new attribute joins the ring before it is named. */
    method FindOrCreate(name: string) returns (r: Attribute)
      requires Valid()
      modifies this`ring, sentinel`prev, ring`next
      ensures Circular() && r in ring[1..] && r.name == name
      ensures ring == old(ring) || (fresh(r) && ring == old(ring) + [r] && r.value == "")
      ensures Contents() == old(Contents()) ||
        (Contents() == old(Contents()) + [(name, "")] && forall i :: 0 <= i < |old(Contents())| ==> old(Contents())[i].0 != name)
      ensures ring == old(ring) ==> Contents() == old(Contents())
    {
      var found := Find(name);
      if found == null {
        var attribute := new Attribute("", "");
        Add(attribute);
        SetName(attribute, name, |ring| - 1);
        assert ring[1..][|ring| - 2] == attribute;
        return attribute;
      }
      return found;
    }

    method SetValue(attribute: Attribute, value: string, ghost k: nat)
      requires Circular() && 1 <= k < |ring| && ring[k] == attribute
      modifies attribute`value
      ensures Circular() && Contents() == old(Contents())[k - 1 := (attribute.name, value)]
    {
      attribute.value := value;
    }

    /** Gives the attribute of that name its value. */
    method SetAttribute(name: string, value: string)
      requires Valid()
      modifies this`ring, sentinel`prev, ring`next, ring`value
      ensures Valid() && forall k :: 0 <= k < |ring| ==> ring[k] in old(ring) || fresh(ring[k])
      ensures Contents() == Assigned(old(Contents()), name, value)
    {
      hide *;
      ghost var was := Contents();
      ValidParts();
      var attribute := FindOrCreate(name);
      ghost var k :| 0 <= k < |ring[1..]| && ring[1..][k] == attribute;
      ghost var now := Contents();
      assert now[k].0 == name;
      SetValue(attribute, value, k + 1);
      IsAssigned(was, now, k, name, value);
      ValidParts();
    }
  }

  // ---- Copying

  lemma {:induction false} SeenFrom(pairs: seq<Pair>, i: nat)
    requires i < |pairs| && forall j :: 1 <= j <= i ==> pairs[j] != EMPTY
    ensures Seen(pairs) == pairs[..i] + Seen(pairs[i..])
  {
    if i > 0 {
      var rest := pairs[1..];
      assert forall j :: 0 <= j < |rest| ==> rest[j] == pairs[j + 1];
      SeenFrom(rest, i - 1);
      assert rest[i - 1..] == pairs[i..];
      assert [pairs[0]] + rest[..i - 1] == pairs[..i];
      assert Seen(pairs) == [pairs[0]] + Seen(rest);
    } else {
      assert pairs[0..] == pairs;
    }
  }

  lemma SeenStops(pairs: seq<Pair>, i: nat)
    requires i < |pairs| && forall j :: 1 <= j <= i ==> pairs[j] != EMPTY
    requires i + 1 < |pairs| ==> pairs[i + 1] == EMPTY
    ensures Seen(pairs) == pairs[..i + 1]
  {
    SeenFrom(pairs, i);
    assert pairs[..i] + pairs[i..i + 1] == pairs[..i + 1];
    assert pairs[i..][..1] == pairs[i..i + 1];
  }

  lemma SeenNone(pairs: seq<Pair>)
    requires pairs == []
    ensures Seen(pairs) == []
  {
  }

  lemma AssignedNext(pairs: seq<Pair>, i: nat)
    requires Unique(pairs) && i < |pairs|
    ensures Assigned(pairs[..i], pairs[i].0, pairs[i].1) == pairs[..i + 1]
  {
    AssignedAtEnd(pairs[..i], pairs[i].0, pairs[i].1);
  }

  /** Two rings have no member in common. */
  ghost predicate Apart(a: AttributeSet, b: AttributeSet)
    reads a, b
  {
    && a != b
    && |a.ring| > 0 && |b.ring| > 0
    && forall i, j :: 0 <= i < |a.ring| && 0 <= j < |b.ring| ==> a.ring[i] != b.ring[j]
  }

  method SetFrom(source: AttributeSet, target: AttributeSet, attribute: Attribute, ghost i: nat)
    requires source.Valid() && target.Valid() && Apart(source, target)
    requires i < |source.Contents()| && attribute == source.ring[i + 1]
    modifies target, target.ring
    ensures source.Valid() && source.ring == old(source.ring) && source.Contents() == old(source.Contents())
    ensures target.Valid() && Apart(source, target)
    ensures target.Contents() == Assigned(old(target.Contents()), source.Contents()[i].0, source.Contents()[i].1)
    ensures forall k :: 0 <= k < |target.ring| ==> target.ring[k] in old(target.ring) || fresh(target.ring[k])
  {
    hide Unique, Assigned, Seen, AttributeSet.Circular, AttributeSet.Valid, AttributeSet.Contents;
    source.ValidParts();
    target.ValidParts();
    target.SetAttribute(attribute.name, attribute.value);
    target.ValidParts();
  }

  /** The attributes of one element are set on another that has none. */
  method CopyAttributes(source: AttributeSet, target: AttributeSet)
    requires source.Valid() && target.Valid() && Apart(source, target) && target.Contents() == []
    modifies target, target.ring
    ensures source.Valid() && source.ring == old(source.ring) && source.Contents() == old(source.Contents())
    ensures target.Valid() && Apart(source, target) && target.Contents() == Seen(source.Contents())
    ensures forall k :: 0 <= k < |target.ring| ==> target.ring[k] in old(target.ring) || fresh(target.ring[k])
  {
    hide *;
    ghost var pairs := source.Contents();
    ghost var i: nat := 0;
    source.ValidParts();
    var attribute := source.First();
    if attribute == null {
      SeenNone(pairs);
    }
    while attribute != null
      invariant source.Valid() && source.Contents() == pairs && source.ring == old(source.ring)
      invariant target.Valid() && Apart(source, target)
      invariant forall k :: 0 <= k < |target.ring| ==> target.ring[k] in old(target.ring) || fresh(target.ring[k])
      invariant attribute != null ==> i < |pairs| && attribute == source.ring[i + 1]
      invariant attribute != null ==> forall j :: 1 <= j <= i ==> pairs[j] != EMPTY
      invariant attribute != null ==> target.Contents() == pairs[..i]
      invariant attribute == null ==> target.Contents() == Seen(pairs)
      decreases if attribute == null then 0 else |pairs| - i
    {
      source.ValidParts();
      AssignedNext(pairs, i);
      SetFrom(source, target, attribute, i);
      source.ValidParts();
      attribute := source.Step(attribute, i);
      if attribute == null {
        SeenStops(pairs, i);
      } else {
        i := i + 1;
      }
    }
  }
}
