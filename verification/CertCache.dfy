/** The count-bounded LRU of pkg/mitm/lru.go: a recency list and a map from key to
    list element, updated together in place. */
module CertCache {
  import opened Options
  import opened LeafCacheSpec
  import opened OrderList

  class CertCache {
    const max: nat
    var order: OrderList
    var index: map<string, Element>
    var hits: nat
    var misses: nat
    ghost var entries: seq<Entry>  // what the list holds, front to back

    /** List elements and index entries are in bijection: each element is the one its
        key indexes, and each indexed element is in the list under that key. */
    static ghost predicate Indexes(es: seq<Element>, index: map<string, Element>, entries: seq<Entry>)
      reads es`key, es`cert
    {
      && |es| == |entries|
      && (forall i :: 0 <= i < |es| ==> entries[i] == Entry(es[i].key, es[i].cert))
      && (forall i :: 0 <= i < |es| ==> es[i].key in index && index[es[i].key] == es[i])
      && (forall k <- index :: index[k] in es && index[k].key == k)
    }

    ghost predicate Consistent()
      reads `order, `index, `entries, order, order.root, order.elems
    {
      order.Valid() && Indexes(order.elems, index, entries)
    }

    ghost predicate Valid()
      reads `order, `index, `entries, order, order.root, order.elems
    {
      1 <= max && Consistent() && order.len <= max
    }

    ghost function State(): Cache
      reads this
    {
      Cache(max, entries, hits, misses)
    }

    lemma ValidIsWellFormed()
      requires Valid()
      ensures WellFormed(State())
    {
      var ks := Keys(entries);
      forall i, j | 0 <= i < j < |ks|
        ensures ks[i] != ks[j]
      {
        assert order.elems[i] != order.elems[j];
      }
    }

    /** The list is the same object, holding only old or newly made elements. */
    twostate predicate SameNodes()
      reads this, order
    {
      && order == old(order) && order.root == old(order.root)
      && forall e <- order.elems :: e in old(order.elems) || fresh(e)
    }

    constructor (max: int)
      ensures Valid() && fresh(order) && fresh(order.root)
      ensures State() == Cache(if max < 1 then 1 else max, [], 0, 0)
    {
      this.max := if max < 1 then 1 else max;
      order := new OrderList();
      index := map[];
      hits, misses := 0, 0;
      entries := [];
    }

    /** s with its element i moved to the front. */
    static ghost function Rotated<T>(s: seq<T>, i: nat): (r: seq<T>)
      requires i < |s|
      ensures |r| == |s|
    {
      [s[i]] + (s[..i] + s[i + 1..])
    }

    /** Where a key is indexed, the list holds its element, and that entry is the key's. */
    lemma Indexed(key: string) returns (i: nat)
      requires Valid() && key in index
      ensures i < |order.elems| && order.elems[i] == index[key]
      ensures entries[i] == Entry(key, index[key].cert)
      ensures Find(entries, key) == Some(index[key].cert)
      ensures LeafCacheSpec.Get(State(), key) == State().(entries := Rotated(entries, i), hits := hits + 1)
      ensures forall cert :: Front(entries, Entry(key, cert)) == Rotated(entries[i := Entry(key, cert)], i)
    {
      i :| 0 <= i < |order.elems| && order.elems[i] == index[key];
      ValidIsWellFormed();
      OthersAt(entries, i);
      assert forall cert :: Front(entries, Entry(key, cert)) == [Entry(key, cert)] + (entries[..i] + entries[i + 1..]);
    }

    lemma NotIndexed(key: string)
      requires Valid() && key !in index
      ensures Find(entries, key).None?
      ensures Others(entries, key) == entries
    {
      OthersAbsent(entries, key);
    }

    static lemma RotatedAt<T>(s: seq<T>, i: nat, j: nat) returns (was: nat)
      requires i < |s| && j < |s|
      ensures was < |s| && Rotated(s, i)[j] == s[was]
      ensures was == if j == 0 then i else if j <= i then j - 1 else j
    {
      was := if j == 0 then i else if j <= i then j - 1 else j;
    }

    static lemma RotatedIndexes(es: seq<Element>, index: map<string, Element>, entries: seq<Entry>, i: nat)
      requires i < |es| && Indexes(es, index, entries)
      ensures Indexes(Rotated(es, i), index, Rotated(entries, i))
    {
      var res, ren := Rotated(es, i), Rotated(entries, i);
      forall j | 0 <= j < |res|
        ensures ren[j] == Entry(res[j].key, res[j].cert) && res[j].key in index && index[res[j].key] == res[j]
      {
        var was := RotatedAt(es, i, j);
        var was' := RotatedAt(entries, i, j);
      }
      forall k | k in index
        ensures index[k] in res
      {
        var j :| 0 <= j < |es| && es[j] == index[k];
        var now := if j == i then 0 else if j < i then j + 1 else j;
        var was := RotatedAt(es, i, now);
      }
    }

    static lemma PushIndexes(es: seq<Element>, index: map<string, Element>, entries: seq<Entry>, e: Element)
      requires Indexes(es, index, entries) && e.key !in index
      ensures Indexes([e] + es, index[e.key := e], [Entry(e.key, e.cert)] + entries)
    {}

    static lemma PopIndexes(es: seq<Element>, index: map<string, Element>, entries: seq<Entry>)
      requires es != [] && Distinct(es) && Indexes(es, index, entries)
      ensures var n := |es| - 1;
              Indexes(es[..n], index - {es[n].key}, entries[..n])
    {
      assert es == es[..|es| - 1] + [es[|es| - 1]];
    }

    /** Moves the element at position i to the front. */
    method Promote(el: Element, ghost i: nat)
      requires Valid() && i < |order.elems| && order.elems[i] == el
      modifies this`entries, order, order.root`next, order.root`prev, order.elems`next, order.elems`prev
      ensures Valid() && SameNodes()
      ensures entries == Rotated(old(entries), i)
    {
      ghost var es := order.elems;
      order.MoveToFront(el, i);
      RotatedIndexes(es, index, entries, i);
      assert order.elems == Rotated(es, i);
      entries := Rotated(entries, i);
    }

    method Get(key: string) returns (found: Option<Leaf>)
      requires Valid()
      modifies this, order, order.root, order.elems
      ensures Valid() && SameNodes()
      ensures found == Find(old(entries), key)
      ensures State() == LeafCacheSpec.Get(old(State()), key)
    {
      if key !in index {
        NotIndexed(key);
        misses := misses + 1;
        return None;
      }
      var cert := Hit(key);
      return Some(cert);
    }

    method Hit(key: string) returns (cert: Leaf)
      requires Valid() && key in index
      modifies this, order, order.root, order.elems
      ensures Valid() && SameNodes()
      ensures Find(old(entries), key) == Some(cert)
      ensures State() == LeafCacheSpec.Get(old(State()), key)
    {
      ghost var i := Indexed(key);
      var el := index[key];
      cert := el.cert;
      Promote(el, i);
      hits := hits + 1;
    }

    method Put(key: string, cert: Leaf)
      requires Valid()
      modifies this, order, order.root, order.elems
      ensures Valid() && SameNodes()
      ensures State() == LeafCacheSpec.Put(old(State()), key, cert)
    {
      if key in index {
        ghost var i := Indexed(key);
        Overwrite(index[key], i, cert);
        Promote(index[key], i);
      } else {
        NotIndexed(key);
        Insert(key, cert);
      }
    }

    method Overwrite(el: Element, ghost i: nat, cert: Leaf)
      requires Valid() && i < |order.elems| && order.elems[i] == el
      modifies this`entries, el`cert
      ensures Valid()
      ensures entries == old(entries)[i := Entry(el.key, cert)]
    {
      el.cert := cert;
      entries := entries[i := Entry(el.key, cert)];
    }

    method Insert(key: string, cert: Leaf)
      requires Valid() && key !in index
      modifies this, order, order.root, order.elems
      ensures Valid() && SameNodes() && hits == old(hits) && misses == old(misses)
      ensures entries == Take([Entry(key, cert)] + old(entries), max)
    {
      AddFront(key, cert);
      while order.len > max
        invariant Consistent() && SameNodes()
        invariant order.len == |order.elems| && (order.len <= max ==> order.len == |old(entries)| + 1 || order.len == max)
        invariant hits == old(hits) && misses == old(misses)
        invariant order.len <= |old(entries)| + 1
        invariant entries == ([Entry(key, cert)] + old(entries))[..order.len]
        decreases order.len
      {
        EvictOldest();
      }
    }

    method AddFront(key: string, cert: Leaf)
      requires Consistent() && key !in index
      modifies `index, `entries, order, order.root`next, order.root`prev, order.elems`next, order.elems`prev
      ensures Consistent() && SameNodes()
      ensures entries == [Entry(key, cert)] + old(entries)
    {
      var el := new Element(key, cert);
      order.PushFront(el);
      PushIndexes(old(order.elems), index, entries, el);
      index := index[key := el];
      entries := [Entry(key, cert)] + entries;
    }

    method EvictOldest()
      requires Consistent() && order.len > 0
      modifies `index, `entries, order, order.root`next, order.root`prev, order.elems`next, order.elems`prev
      ensures Consistent() && order == old(order) && order.root == old(order.root)
      ensures order.elems <= old(order.elems)
      ensures entries == old(entries)[..|old(entries)| - 1]
    {
      ghost var es, last := order.elems, |order.elems| - 1;
      var oldest := order.Back();
      PopIndexes(es, index, entries);
      order.Remove(oldest, last);
      assert order.elems == es[..last];
      index := index - {oldest.key};
      entries := entries[..last];
    }

    method Purge()
      requires Valid()
      modifies this, order, order.root, order.elems
      ensures Valid() && SameNodes()
      ensures State() == LeafCacheSpec.Purge(old(State()))
    {
      order.Init();
      index := map[];
      entries := [];
    }

    method Len() returns (n: nat)
      requires Valid()
      ensures n == |State().entries|
    {
      n := order.len;
    }
  }
}
