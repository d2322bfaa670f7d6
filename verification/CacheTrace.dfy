/** Whole histories of the leaf cache: what it holds after any run of lookups, inserts
    and purges, and how it grows with its size bound. */
module CacheTrace {
  import opened Options
  import opened LeafCacheSpec

  datatype Op = Lookup(key: string) | Insert(key: string, cert: Leaf) | Flush

  function Step(c: Cache, op: Op): Cache {
    match op
    case Lookup(key) => Get(c, key)
    case Insert(key, cert) => Put(c, key, cert)
    case Flush => Purge(c)
  }

  function Run(c: Cache, ops: seq<Op>): Cache {
    if ops == [] then c else Step(Run(c, ops[..|ops| - 1]), ops[|ops| - 1])
  }

  function Empty(max: nat): Cache {
    Cache(max, [], 0, 0)
  }

  /** The keys accessed since the last flush, oldest first. An insert is an access; so is
      a lookup that finds its key. */
  function Accesses(max: nat, ops: seq<Op>): seq<string> {
    if ops == [] then []
    else
      var before := ops[..|ops| - 1];
      match ops[|ops| - 1]
      case Flush => []
      case Insert(key, _) => Accesses(max, before) + [key]
      case Lookup(key) =>
        if Find(Run(Empty(max), before).entries, key).Some? then Accesses(max, before) + [key]
        else Accesses(max, before)
  }

  /** Position of the last access to a key, or -1. */
  function LastAccess(log: seq<string>, key: string): (r: int)
    ensures -1 <= r < |log|
    ensures r >= 0 <==> key in log
    ensures r >= 0 ==> log[r] == key
  {
    if log == [] then -1
    else if log[|log| - 1] == key then |log| - 1
    else
      assert log == log[..|log| - 1] + [log[|log| - 1]];
      LastAccess(log[..|log| - 1], key)
  }

  /** The certificate most recently inserted for a key since the last flush. */
  function LastInserted(ops: seq<Op>, key: string): Option<Leaf> {
    if ops == [] then None
    else match ops[|ops| - 1]
      case Flush => None
      case Insert(k, cert) => if k == key then Some(cert) else LastInserted(ops[..|ops| - 1], key)
      case Lookup(_) => LastInserted(ops[..|ops| - 1], key)
  }

  function Lookups(ops: seq<Op>): nat {
    if ops == [] then 0
    else (if ops[|ops| - 1].Lookup? then 1 else 0) + Lookups(ops[..|ops| - 1])
  }

  /** keys lists, latest access first, the max most recently accessed keys of the log. */
  ghost predicate MostRecent(keys: seq<string>, log: seq<string>, max: nat) {
    && |keys| <= max
    && (forall k <- keys :: k in log)
    && Descending(keys, log)
    && (forall k <- log :: k !in keys ==>
          |keys| == max && forall k' <- keys :: LastAccess(log, k) < LastAccess(log, k'))
  }

  ghost predicate Descending(keys: seq<string>, log: seq<string>) {
    forall i, j :: 0 <= i < j < |keys| ==> LastAccess(log, keys[i]) > LastAccess(log, keys[j])
  }

  lemma {:induction false} DescendingWithout(keys: seq<string>, log: seq<string>, x: string)
    requires Descending(keys, log)
    ensures Descending(Without(keys, x), log)
  {
    if keys != [] {
      var rest := keys[1..];
      DescendingWithout(rest, log, x);
      forall y | y in Without(rest, x)
        ensures LastAccess(log, keys[0]) > LastAccess(log, y)
      {
        WithoutMembers(rest, x, y);
      }
    }
  }

  lemma LastAccessAppend(log: seq<string>, key: string)
    ensures forall k :: LastAccess(log + [key], k) == if k == key then |log| else LastAccess(log, k)
  {
    assert (log + [key])[..|log|] == log;
  }

  /** Moving a key to the front keeps the keys in order of last access. */
  lemma AccessDescending(keys: seq<string>, log: seq<string>, key: string)
    requires Descending(keys, log) && forall k <- keys :: k in log
    ensures Descending([key] + Without(keys, key), log + [key])
    ensures forall k :: k in Without(keys, key) <==> k in keys && k != key
  {
    LastAccessAppend(log, key);
    DescendingWithout(keys, log, key);
    forall k
      ensures k in Without(keys, key) <==> k in keys && k != key
    {
      WithoutMembers(keys, key, k);
    }
    assert forall k <- Without(keys, key) :: LastAccess(log + [key], k) == LastAccess(log, k);
  }

  /** One access moves its key to the front and drops whatever no longer fits. */
  lemma AccessKeepsMostRecent(keys: seq<string>, log: seq<string>, max: nat, key: string)
    requires 1 <= max && MostRecent(keys, log, max)
    ensures MostRecent(Take([key] + Without(keys, key), max), log + [key], max)
  {
    var log', all := log + [key], [key] + Without(keys, key);
    var keys' := Take(all, max);
    AccessDescending(keys, log, key);
    assert Descending(keys', log');
    forall k | k in log' && k !in keys'
      ensures |keys'| == max && forall k' <- keys' :: LastAccess(log', k) < LastAccess(log', k')
    {
      if k in all {
        DroppedIsOldest(all, log', max, k);
      } else {
        MissingIsOldest(keys, log, max, key, k);
      }
    }
  }

  /** What truncation drops was accessed before everything it keeps. */
  lemma DroppedIsOldest(all: seq<string>, log: seq<string>, max: nat, k: string)
    requires Descending(all, log) && k in all && k !in Take(all, max)
    ensures |Take(all, max)| == max
    ensures forall k' <- Take(all, max) :: LastAccess(log, k) < LastAccess(log, k')
  {
    var j :| 0 <= j < |all| && all[j] == k;
    assert forall m :: 0 <= m < |Take(all, max)| ==> all[m] in Take(all, max);
    forall k' | k' in Take(all, max)
      ensures LastAccess(log, k) < LastAccess(log, k')
    {
      var i :| 0 <= i < max && Take(all, max)[i] == k';
      assert all[i] == k';
    }
  }

  /** What the list lacked already was accessed before everything it holds afterwards. */
  lemma MissingIsOldest(keys: seq<string>, log: seq<string>, max: nat, key: string, k: string)
    requires 1 <= max && MostRecent(keys, log, max) && k in log && k !in keys && k != key
    ensures var keys' := Take([key] + Without(keys, key), max);
            |keys'| == max && forall k' <- keys' :: LastAccess(log + [key], k) < LastAccess(log + [key], k')
  {
    LastAccessAppend(log, key);
    DescendingDistinct(keys, log);
    WithoutDistinct(keys, key);
    var keys' := Take([key] + Without(keys, key), max);
    forall k' | k' in keys'
      ensures LastAccess(log + [key], k) < LastAccess(log + [key], k')
    {
      WithoutMembers(keys, key, k');
    }
  }

  lemma DescendingDistinct(keys: seq<string>, log: seq<string>)
    requires Descending(keys, log)
    ensures Distinct(keys)
  {}

  /** After any history the cache holds, in order of last access, exactly the max most
      recently accessed keys since the last flush, each under the certificate last
      inserted for it; and every lookup was counted once, as a hit or as a miss. */
  lemma {:induction false} HistoryTheorem(max: nat, ops: seq<Op>)
    requires 1 <= max
    ensures var c := Run(Empty(max), ops);
            && WellFormed(c) && c.max == max
            && MostRecent(Keys(c.entries), Accesses(max, ops), max)
            && (forall e <- c.entries :: LastInserted(ops, e.key) == Some(e.cert))
            && c.hits + c.misses == Lookups(ops)
  {
    if ops != [] {
      var before, op := ops[..|ops| - 1], ops[|ops| - 1];
      HistoryTheorem(max, before);
      StepHistory(max, before, op);
      assert before + [op] == ops;
    }
  }

  lemma {:induction false} StepHistory(max: nat, before: seq<Op>, op: Op)
    requires 1 <= max
    requires var c := Run(Empty(max), before);
             && WellFormed(c) && c.max == max
             && MostRecent(Keys(c.entries), Accesses(max, before), max)
             && (forall e <- c.entries :: LastInserted(before, e.key) == Some(e.cert))
    ensures var ops := before + [op];
            var c := Run(Empty(max), ops);
            && WellFormed(c) && c.max == max
            && MostRecent(Keys(c.entries), Accesses(max, ops), max)
            && (forall e <- c.entries :: LastInserted(ops, e.key) == Some(e.cert))
  {
    var ops := before + [op];
    assert ops[..|before|] == before;
    var c, log := Run(Empty(max), before), Accesses(max, before);
    match op {
      case Flush =>
      case Insert(key, cert) =>
        StepsKeepWellFormed(c, key, cert);
        FrontKeys(c.entries, Entry(key, cert));
        AccessKeepsMostRecent(Keys(c.entries), log, max, key);
        TakeKeys(Front(c.entries, Entry(key, cert)), max);
        OthersMembers(c.entries, key);
      case Lookup(key) =>
        StepsKeepWellFormed(c, key, Leaf("", 0, 0));
        match Find(c.entries, key) {
          case None =>
          case Some(cert) =>
            FoundMember(c.entries, key);
            FrontKeys(c.entries, Entry(key, cert));
            AccessKeepsMostRecent(Keys(c.entries), log, max, key);
            OthersMembers(c.entries, key);
            assert Take(Keys(Step(c, op).entries), max) == Keys(Step(c, op).entries);
        }
    }
  }

  lemma TakeKeys(entries: seq<Entry>, n: nat)
    ensures Keys(Take(entries, n)) == Take(Keys(entries), n)
  {}

  lemma {:induction false} OthersMembers(entries: seq<Entry>, key: string)
    ensures forall e <- Others(entries, key) :: e in entries && e.key != key
  {
    if entries != [] {
      OthersMembers(entries[1..], key);
    }
  }
}
