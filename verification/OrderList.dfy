/** The recency list behind the leaf cache: a doubly linked ring closed by a root
    sentinel, as Go's container/list lays it out. The ring is updated in place. */
module OrderList {
  import opened LeafCacheSpec

  class Element {
    var key: string
    var cert: Leaf
    var next: Element
    var prev: Element

    constructor (key: string, cert: Leaf)
      ensures this.key == key && this.cert == cert && next == this && prev == this
    {
      this.key, this.cert := key, cert;
      next, prev := this, this;
    }
  }

  class OrderList {
    var root: Element
    var len: nat
    ghost var elems: seq<Element>

    /** The ring as it is walked: root, the elements front to back, root again. */
    ghost function Ring(): seq<Element>
      reads this
    {
      [root] + elems + [root]
    }

    ghost predicate Valid()
      reads this, root, elems
    {
      && len == |elems|
      && root !in elems
      && Distinct(elems)
      && Linked(Ring())
    }

    ghost predicate Linked(ring: seq<Element>)
      reads ring
    {
      && (forall i {:trigger ring[i].next} :: 0 <= i < |ring| - 1 ==> ring[i].next == ring[i + 1])
      && (forall i {:trigger ring[i].prev} :: 1 <= i < |ring| ==> ring[i].prev == ring[i - 1])
    }

    constructor ()
      ensures Valid() && elems == [] && fresh(root)
    {
      var leaf := Leaf("", 0, 0);
      root := new Element("", leaf);
      len := 0;
      elems := [];
    }

    /** Empties the list. The dropped elements are left as they were. */
    method Init()
      modifies this, root`next, root`prev
      ensures Valid() && elems == [] && root == old(root)
    {
      root.next, root.prev := root, root;
      len, elems := 0, [];
    }

    method PushFront(e: Element)
      requires Valid() && e !in elems && e != root
      modifies this, root`next, root`prev, elems`next, elems`prev, e`next, e`prev
      ensures Valid() && root == old(root) && elems == [e] + old(elems)
    {
      assert Ring()[0] == root && Ring()[1] == (if elems == [] then root else elems[0]);
      var first := root.next;
      e.prev, e.next := root, first;
      root.next, first.prev := e, e;
      len := len + 1;
      elems := [e] + elems;
      assert Ring() == [root, e] + old(Ring())[1..];
    }

    /** Joins p and n, the neighbours of the element at ring position i + 1. */
    method Unlink(p: Element, n: Element, ghost ring: seq<Element>, ghost i: nat)
      requires i + 2 < |ring| && p == ring[i] && n == ring[i + 2] && Linked(ring)
      requires forall k :: 0 <= k < |ring| - 1 && k != i ==> ring[k] != ring[i]
      requires forall k :: 1 <= k < |ring| && k != i + 2 ==> ring[k] != ring[i + 2]
      modifies p`next, n`prev
      ensures Linked(ring[..i + 1] + ring[i + 2..])
    {
      p.next := n;
      n.prev := p;
      ghost var after := ring[..i + 1] + ring[i + 2..];
      forall k | 0 <= k < |after| - 1
        ensures after[k].next == after[k + 1]
      {
        ghost var j := if k <= i then k else k + 1;
        assert after[k] == ring[j] && (k != i ==> after[k + 1] == ring[j + 1]);
      }
      forall k | 1 <= k < |after|
        ensures after[k].prev == after[k - 1]
      {
        ghost var j := if k <= i then k else k + 1;
        assert after[k] == ring[j] && (k != i + 1 ==> after[k - 1] == ring[j - 1]);
      }
    }

    method Remove(e: Element, ghost i: nat)
      requires Valid() && i < |elems| && elems[i] == e
      modifies this, root`next, root`prev, elems`next, elems`prev
      ensures Valid() && root == old(root)
      ensures elems == old(elems)[..i] + old(elems)[i + 1..]
    {
      ghost var ring := Ring();
      CutRing(root, elems, i);
      assert ring[i + 1].prev == ring[i] && ring[i + 1].next == ring[i + 2];
      Unlink(e.prev, e.next, ring, i);
      len := len - 1;
      elems := elems[..i] + elems[i + 1..];
    }

    /** The ring without its element i, and where that element's neighbours occur in it. */
    static lemma CutRing(root: Element, elems: seq<Element>, i: nat)
      requires i < |elems| && root !in elems && Distinct(elems)
      ensures var ring := [root] + elems + [root];
              && ring[i + 1] == elems[i]
              && (forall k :: 0 <= k < |ring| - 1 && k != i ==> ring[k] != ring[i])
              && (forall k :: 1 <= k < |ring| && k != i + 2 ==> ring[k] != ring[i + 2])
              && [root] + (elems[..i] + elems[i + 1..]) + [root] == ring[..i + 1] + ring[i + 2..]
    {
      var ring := [root] + elems + [root];
      assert forall k :: 1 <= k < |ring| - 1 ==> ring[k] == elems[k - 1];
    }

    /** Unlinks e and links it again behind the root. */
    method MoveToFront(e: Element, ghost i: nat)
      requires Valid() && i < |elems| && elems[i] == e
      modifies this, root`next, root`prev, elems`next, elems`prev
      ensures Valid() && root == old(root)
      ensures elems == [e] + (old(elems)[..i] + old(elems)[i + 1..])
    {
      if root.next == e {
        assert Ring()[0].next == Ring()[1];
        return;
      }
      Remove(e, i);
      PushFront(e);
    }

    /** The least recently used element. */
    method Back() returns (e: Element)
      requires Valid() && elems != []
      ensures e == elems[|elems| - 1]
    {
      assert Ring()[|elems|] == elems[|elems| - 1];
      assert Ring()[|elems|].next == Ring()[|elems| + 1] == root;
      e := root.prev;
    }
  }
}
