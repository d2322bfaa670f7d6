/** What the leaf cache of pkg/mitm/lru.go means: a bounded list of entries, most
    recently used first, with lifetime hit and miss counters. */
module LeafCacheSpec {
  import opened Options

  /** A minted leaf certificate, reduced to the name it certifies, the CA generation
      that signed it and the instant it expires. */
  datatype Leaf = Leaf(name: string, gen: nat, notAfter: int)

  datatype Entry = Entry(key: string, cert: Leaf)

  datatype Cache = Cache(max: nat, entries: seq<Entry>, hits: nat, misses: nat)

  function Take<T>(s: seq<T>, n: nat): (r: seq<T>)
    ensures |r| <= n
    ensures r <= s
  {
    if |s| <= n then s else s[..n]
  }

  /** The keys of the entries, in order. */
  function Keys(entries: seq<Entry>): (r: seq<string>)
    ensures |r| == |entries|
    ensures forall i :: 0 <= i < |r| ==> r[i] == entries[i].key
  {
    seq(|entries|, i requires 0 <= i < |entries| => entries[i].key)
  }

  ghost predicate Distinct<T>(s: seq<T>) {
    forall i, j :: 0 <= i < j < |s| ==> s[i] != s[j]
  }

  /** s without any occurrence of x, order kept. */
  function Without<T(==)>(s: seq<T>, x: T): (r: seq<T>)
    ensures |r| <= |s|
  {
    if s == [] then []
    else if s[0] == x then Without(s[1..], x)
    else [s[0]] + Without(s[1..], x)
  }

  function Find(entries: seq<Entry>, key: string): Option<Leaf> {
    if entries == [] then None
    else if entries[0].key == key then Some(entries[0].cert)
    else Find(entries[1..], key)
  }

  /** The entries whose key differs from the given one, order kept. */
  function Others(entries: seq<Entry>, key: string): seq<Entry> {
    if entries == [] then []
    else if entries[0].key == key then Others(entries[1..], key)
    else [entries[0]] + Others(entries[1..], key)
  }

  /** Inserting at the front, dropping the key's previous entry. */
  function Front(entries: seq<Entry>, e: Entry): seq<Entry> {
    [e] + Others(entries, e.key)
  }

  /** The cache after a lookup, whose answer is Find(c.entries, key). */
  function Get(c: Cache, key: string): Cache {
    match Find(c.entries, key)
    case None => c.(misses := c.misses + 1)
    case Some(cert) => c.(entries := Front(c.entries, Entry(key, cert)), hits := c.hits + 1)
  }

  function Put(c: Cache, key: string, cert: Leaf): Cache {
    c.(entries := Take(Front(c.entries, Entry(key, cert)), c.max))
  }

  function Purge(c: Cache): Cache {
    c.(entries := [])
  }

  /** How long before its expiry a cached leaf is retired, in nanoseconds. */
  const LEAF_RENEW_BEFORE: nat := 60_000_000_000

  predicate Fresh(leaf: Leaf, now: int) {
    now + LEAF_RENEW_BEFORE < leaf.notAfter
  }

  /** The cache after one uninterrupted, successful request for a leaf: a lookup, then an
      insert of a newly minted leaf unless the lookup found a fresh one. */
  function CertFor(c: Cache, name: string, minted: Leaf, now: int): Cache {
    match Find(c.entries, name)
    case Some(leaf) => if Fresh(leaf, now) then Get(c, name) else Put(Get(c, name), name, minted)
    case None => Put(Get(c, name), name, minted)
  }

  ghost predicate WellFormed(c: Cache) {
    1 <= c.max && |c.entries| <= c.max && Distinct(Keys(c.entries))
  }

  lemma {:induction false} WithoutMembers<T>(s: seq<T>, x: T, y: T)
    ensures y in Without(s, x) <==> y in s && y != x
  {
    if s != [] {
      assert s == [s[0]] + s[1..];
      WithoutMembers(s[1..], x, y);
    }
  }

  lemma {:induction false} WithoutDistinct<T>(s: seq<T>, x: T)
    requires Distinct(s)
    ensures Distinct(Without(s, x))
    ensures x in s ==> |Without(s, x)| == |s| - 1
    ensures x !in s ==> Without(s, x) == s
  {
    if s != [] {
      var rest := s[1..];
      assert Distinct(rest) && s[0] !in rest;
      WithoutDistinct(rest, x);
      WithoutMembers(rest, x, s[0]);
      if s[0] != x {
        assert s == [s[0]] + rest;
        DistinctCons(s[0], Without(rest, x));
      }
    }
  }

  lemma DistinctCons<T>(x: T, s: seq<T>)
    requires Distinct(s) && x !in s
    ensures Distinct([x] + s)
  {}

  lemma {:induction false} OthersKeys(entries: seq<Entry>, key: string)
    ensures Keys(Others(entries, key)) == Without(Keys(entries), key)
    ensures Find(entries, key).None? <==> key !in Keys(entries)
  {
    if entries != [] {
      var rest := entries[1..];
      assert Keys(entries) == [entries[0].key] + Keys(rest);
      assert Keys([entries[0]] + Others(rest, key)) == [entries[0].key] + Keys(Others(rest, key));
      OthersKeys(rest, key);
    }
  }

  /** With distinct keys, dropping a key cuts out exactly its one position. */
  lemma {:induction false} OthersAt(entries: seq<Entry>, i: nat)
    requires i < |entries| && Distinct(Keys(entries))
    ensures Others(entries, entries[i].key) == entries[..i] + entries[i + 1..]
    ensures Find(entries, entries[i].key) == Some(entries[i].cert)
  {
    var rest := entries[1..];
    assert Keys(rest) == Keys(entries)[1..];
    assert Distinct(Keys(rest));
    assert Keys(entries)[0] !in Keys(rest);
    if i == 0 {
      OthersAbsent(rest, entries[0].key);
    } else {
      OthersAt(rest, i - 1);
      assert rest[i - 1] == entries[i] && rest[i..] == entries[i + 1..];
      assert Keys(entries)[0] != Keys(entries)[i];
      assert entries[..i] == [entries[0]] + rest[..i - 1];
    }
  }

  lemma {:induction false} OthersAbsent(entries: seq<Entry>, key: string)
    requires key !in Keys(entries)
    ensures Others(entries, key) == entries
    ensures Find(entries, key).None?
  {
    if entries != [] {
      assert Keys(entries)[1..] == Keys(entries[1..]);
      assert Keys(entries)[0] == entries[0].key;
      OthersAbsent(entries[1..], key);
    }
  }

  lemma {:induction false} FoundMember(entries: seq<Entry>, key: string)
    ensures Find(entries, key).Some? ==> Entry(key, Find(entries, key).value) in entries
  {
    if entries != [] {
      FoundMember(entries[1..], key);
    }
  }

  lemma FrontKeys(entries: seq<Entry>, e: Entry)
    ensures Keys(Front(entries, e)) == [e.key] + Without(Keys(entries), e.key)
  {
    OthersKeys(entries, e.key);
  }

  /** Every cache operation keeps the bound and the keys distinct. */
  lemma StepsKeepWellFormed(c: Cache, key: string, cert: Leaf)
    requires WellFormed(c)
    ensures WellFormed(Get(c, key)) && WellFormed(Put(c, key, cert)) && WellFormed(Purge(c))
  {
    var ks := Keys(c.entries);
    WithoutDistinct(ks, key);
    WithoutMembers(ks, key, key);
    DistinctCons(key, Without(ks, key));
    OthersKeys(c.entries, key);
    FrontKeys(c.entries, Entry(key, cert));
    var all := Front(c.entries, Entry(key, cert));
    assert Keys(Take(all, c.max)) <= Keys(all);
    if Find(c.entries, key).Some? {
      FrontKeys(c.entries, Entry(key, Find(c.entries, key).value));
    }
  }
}
