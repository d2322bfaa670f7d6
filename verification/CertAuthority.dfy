/** The signing CA of pkg/mitm/ca.go with its leaf cache: its methods run one at a time,
    on the heap-level cache. Rotation.dfy treats the same methods running concurrently. */
module CertAuthority {
  import opened Options
  import opened LeafCacheSpec
  import opened CertCache
  import opened OrderList

  const DEFAULT_LEAF_TTL: nat := 7 * 24 * 3600 * 1_000_000_000
  const DEFAULT_CACHE_SIZE: nat := 1000

  class CA {
    const leafTTL: nat
    const cache: CertCache
    var gen: nat  // generation of the current certificate and key

    ghost predicate Valid()
      reads this, cache, cache.order, cache.order.root, cache.order.elems
    {
      cache.Valid() && AllCurrent(cache.State().entries, gen) && leafTTL > 0
    }

    constructor (leafTTL: int, cacheSize: int)
      ensures Valid() && fresh(cache) && fresh(cache.order) && fresh(cache.order.root)
      ensures gen == 0 && this.leafTTL == (if leafTTL <= 0 then DEFAULT_LEAF_TTL else leafTTL)
      ensures cache.State() == Cache(if cacheSize <= 0 then DEFAULT_CACHE_SIZE else cacheSize, [], 0, 0)
    {
      this.leafTTL := if leafTTL <= 0 then DEFAULT_LEAF_TTL else leafTTL;
      cache := new CertCache(if cacheSize <= 0 then DEFAULT_CACHE_SIZE else cacheSize);
      gen := 0;
    }

    /** Serves a leaf for a name; signs tells whether signing, if needed, succeeds. */
    method CertFor(name: string, now: int, signs: bool) returns (r: Option<Leaf>)
      requires Valid()
      modifies cache, cache.order, cache.order.root, cache.order.elems
      ensures Valid() && cache.SameNodes()
      ensures r == Answer(old(cache.State()), name, Leaf(name, gen, now + leafTTL), now, signs)
      ensures cache.State() ==
        if r.Some? then LeafCacheSpec.CertFor(old(cache.State()), name, Leaf(name, gen, now + leafTTL), now)
        else LeafCacheSpec.Get(old(cache.State()), name)
    {
      GetKeepsCurrent(cache.State(), name, gen);
      var found := cache.Get(name);
      if found.Some? && Fresh(found.value, now) {
        return found;
      }
      if !signs {
        return None;
      }
      var leaf := Leaf(name, gen, now + leafTTL);
      AddFresh(leaf);
      return Some(leaf);
    }

    /** Caches a leaf just minted, unless the CA was replaced since. */
    method AddFresh(leaf: Leaf)
      requires Valid()
      modifies cache, cache.order, cache.order.root, cache.order.elems
      ensures Valid() && cache.SameNodes()
      ensures cache.State() == if leaf.gen == gen then LeafCacheSpec.Put(old(cache.State()), leaf.name, leaf)
                               else old(cache.State())
    {
      if leaf.gen == gen {
        PutKeepsCurrent(cache.State(), leaf, gen);
        cache.Put(leaf.name, leaf);
      }
    }

    /** Replaces the CA material, if acceptable, and drops every leaf signed by the old one. */
    method Rotate(acceptable: bool) returns (ok: bool)
      requires Valid()
      modifies this, cache, cache.order, cache.order.root, cache.order.elems
      ensures Valid() && cache.SameNodes() && ok == acceptable
      ensures gen == (if ok then old(gen) + 1 else old(gen))
      ensures cache.State() == if ok then LeafCacheSpec.Purge(old(cache.State())) else old(cache.State())
    {
      if !acceptable {
        return false;
      }
      gen := gen + 1;
      cache.Purge();
      return true;
    }
  }

  /** Every cached leaf certifies the name it is cached under and the current CA signed it. */
  ghost predicate AllCurrent(entries: seq<Entry>, gen: nat) {
    forall e <- entries :: e.cert.name == e.key && e.cert.gen == gen
  }

  lemma {:induction false} OthersCurrent(entries: seq<Entry>, key: string, gen: nat)
    requires AllCurrent(entries, gen)
    ensures AllCurrent(Others(entries, key), gen)
    ensures Find(entries, key).Some? ==> var leaf := Find(entries, key).value; leaf.name == key && leaf.gen == gen
  {
    if entries != [] {
      assert entries[0] in entries;
      OthersCurrent(entries[1..], key, gen);
    }
  }

  /** With distinct keys an entry for the name is the one that is found. */
  lemma CachedOnce(c: Cache, name: string)
    requires WellFormed(c)
    ensures forall e <- c.entries :: e.key == name ==> Find(c.entries, name) == Some(e.cert)
  {
    forall e | e in c.entries && e.key == name
      ensures Find(c.entries, name) == Some(e.cert)
    {
      var i :| 0 <= i < |c.entries| && c.entries[i] == e;
      OthersAt(c.entries, i);
    }
  }

  /** What a request for a leaf is answered; minted is the leaf it would sign. */
  function Answer(c: Cache, name: string, minted: Leaf, now: int, signs: bool): Option<Leaf> {
    var found := Find(c.entries, name);
    if found.Some? && Fresh(found.value, now) then found else if signs then Some(minted) else None
  }

  /** A leaf served certifies the name under the current CA and has not expired; it heads the
      cache; it has more than a minute left or was minted just now, and a cached leaf with more
      than a minute left is never minted anew. None is served only if signing is needed and fails. */
  lemma ServesTheorem(c: Cache, name: string, gen: nat, now: int, ttl: int, signs: bool)
    requires WellFormed(c) && AllCurrent(c.entries, gen) && ttl > 0
    ensures var minted := Leaf(name, gen, now + ttl);
            var r := Answer(c, name, minted, now, signs);
            && (r.Some? ==> r.value.name == name && r.value.gen == gen && r.value.notAfter > now
                            && (r.value.notAfter > now + 60_000_000_000 || r.value.notAfter == now + ttl)
                            && [Entry(name, r.value)] <= LeafCacheSpec.CertFor(c, name, minted, now).entries)
            && (forall e <- c.entries :: e.key == name && e.cert.notAfter > now + 60_000_000_000 ==> r == Some(e.cert))
            && (r.None? <==> !signs && forall e <- c.entries :: e.key == name ==> e.cert.notAfter <= now + 60_000_000_000)
  {
    CachedOnce(c, name);
    FoundMember(c.entries, name);
  }

  lemma GetKeepsCurrent(c: Cache, name: string, gen: nat)
    requires AllCurrent(c.entries, gen)
    ensures AllCurrent(Get(c, name).entries, gen)
    ensures Find(c.entries, name).Some? ==> var leaf := Find(c.entries, name).value; leaf.name == name && leaf.gen == gen
  {
    OthersCurrent(c.entries, name, gen);
  }

  lemma PutKeepsCurrent(c: Cache, leaf: Leaf, gen: nat)
    requires AllCurrent(c.entries, gen) && leaf.gen == gen
    ensures AllCurrent(Put(c, leaf.name, leaf).entries, gen)
  {
    OthersCurrent(c.entries, leaf.name, gen);
  }
}
