/** Comparing leaf caches of different sizes on the same requests. */
module CacheInclusion {
  import opened Options
  import opened LeafCacheSpec

  /** One request for a leaf: the name, the leaf minted if one is needed, and the time. */
  datatype Request = Request(name: string, minted: Leaf, now: int)

  function Serve(c: Cache, reqs: seq<Request>): Cache {
    if reqs == [] then c
    else
      var r := reqs[|reqs| - 1];
      CertFor(Serve(c, reqs[..|reqs| - 1]), r.name, r.minted, r.now)
  }

  /** Hit or miss, fresh or stale, a served request moves its name to the front. */
  lemma CertForKeys(c: Cache, r: Request)
    requires WellFormed(c)
    ensures var c' := CertFor(c, r.name, r.minted, r.now);
            && WellFormed(c') && c'.max == c.max
            && Keys(c'.entries) == Take([r.name] + Without(Keys(c.entries), r.name), c.max)
            && c'.hits == c.hits + (if r.name in Keys(c.entries) then 1 else 0)
            && c'.misses == c.misses + (if r.name in Keys(c.entries) then 0 else 1)
  {
    OthersKeys(c.entries, r.name);
    StepsKeepWellFormed(c, r.name, r.minted);
    var g := Get(c, r.name);
    StepsKeepWellFormed(g, r.name, r.minted);
    FrontKeys(g.entries, Entry(r.name, r.minted));
    match Find(c.entries, r.name) {
      case None =>
      case Some(leaf) =>
        FrontKeys(c.entries, Entry(r.name, leaf));
        assert Keys(g.entries) == [r.name] + Without(Keys(c.entries), r.name);
        WithoutWithout(Keys(c.entries), r.name);
    }
  }

  lemma {:induction false} WithoutWithout(s: seq<string>, x: string)
    ensures Without(Without(s, x), x) == Without(s, x)
  {
    if s != [] {
      WithoutWithout(s[1..], x);
    }
  }

  lemma {:induction false} WithoutConcat(s: seq<string>, t: seq<string>, x: string)
    ensures Without(s + t, x) == Without(s, x) + Without(t, x)
  {
    if s == [] {
      assert s + t == t;
    } else {
      assert (s + t)[1..] == s[1..] + t;
      WithoutConcat(s[1..], t, x);
    }
  }

  /** Moving x to the front commutes with truncation. */
  lemma MoveToFrontTake(keys: seq<string>, a: nat, x: string)
    requires 1 <= a && Distinct(keys)
    ensures Take([x] + Without(Take(keys, a), x), a) == Take([x] + Without(keys, x), a)
  {
    if a < |keys| {
      assert keys == keys[..a] + keys[a..];
      WithoutConcat(keys[..a], keys[a..], x);
      WithoutDistinct(keys[..a], x);
    }
  }

  /** On the same requests a smaller cache always holds the front of what a larger one
      holds, so growing the cache never loses a hit. */
  lemma {:induction false} InclusionTheorem(small: nat, large: nat, reqs: seq<Request>)
    requires 1 <= small <= large
    ensures var s, l := Serve(Cache(small, [], 0, 0), reqs), Serve(Cache(large, [], 0, 0), reqs);
            && WellFormed(s) && WellFormed(l) && s.max == small && l.max == large
            && Keys(s.entries) == Take(Keys(l.entries), small)
            && s.hits <= l.hits
            && s.hits + s.misses == l.hits + l.misses == |reqs|
  {
    if reqs != [] {
      var before, r := reqs[..|reqs| - 1], reqs[|reqs| - 1];
      InclusionTheorem(small, large, before);
      var s, l := Serve(Cache(small, [], 0, 0), before), Serve(Cache(large, [], 0, 0), before);
      CertForKeys(s, r);
      CertForKeys(l, r);
      var ks, kl := Keys(s.entries), Keys(l.entries);
      MoveToFrontTake(kl, small, r.name);
      var all := [r.name] + Without(kl, r.name);
      assert Take(Take(all, large), small) == Take(all, small);
      assert r.name in ks ==> r.name in kl;
    }
  }
}
