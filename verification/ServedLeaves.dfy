/** What concurrent requests are handed: which CA signed a served leaf, when it expires, and
    what an uninterrupted request does. Each request is watched from its beginning. */
module ServedLeaves {
  import opened Options
  import opened LeafCacheSpec
  import opened CertAuthority
  import opened Rotation

  /** Besides the state: the generation at each call's beginning and at its lookup, and the
      lookup's time; which lookups served nothing, which met a retired leaf, which ran outside
      rotations, and which found their name under a late insert; and the expiry of each leaf
      signed. */
  datatype Watched = Watched(s: State, begun: map<nat, nat>, looked: map<nat, nat>, lookedAt: map<nat, int>,
                             missed: set<nat>, stale: set<nat>, quiet: set<nat>, late: set<nat>, due: map<nat, int>)

  function Start(max: nat): Watched {
    Watched(Init(max), map[], map[], map[], {}, {}, {}, {}, map[])
  }

  ghost function Watch(w: Watched, step: Step): Watched {
    var s, s' := w.s, Apply(w.s, step);
    match step
    case Begin(id, _) => if id in s.calls then w else w.(s := s', begun := w.begun[id := s.gen])
    case LookUp(id, now) =>
      if id in s.calls && s.calls[id].Looking? then
        var name := s.calls[id].name;
        w.(s := s', looked := w.looked[id := s.gen], lookedAt := w.lookedAt[id := now],
           missed := if s'.calls[id].Served? then w.missed else w.missed + {id},
           stale := if name in StaleNames(s) then w.stale + {id} else w.stale,
           quiet := if s.purging == 0 then w.quiet + {id} else w.quiet,
           late := if name in LateInserts(s) then w.late + {id} else w.late)
      else w
    case Mint(id, now, ttl) =>
      if id in s.calls && s.calls[id].Minting? then w.(s := s', due := w.due[id := now + ttl]) else w
    case _ => w.(s := s')
  }

  ghost function WatchAll(max: nat, steps: seq<Step>): Watched {
    if steps == [] then Start(max) else Watch(WatchAll(max, steps[..|steps| - 1]), steps[|steps| - 1])
  }

  lemma WatchState(w: Watched, step: Step)
    ensures Watch(w, step).s == Apply(w.s, step)
  {}

  /** Watching changes nothing. */
  lemma {:induction false} WatchedRun(max: nat, steps: seq<Step>)
    ensures WatchAll(max, steps).s == Run(Init(max), steps)
  {
    if steps != [] {
      var n := |steps| - 1;
      WatchedRun(max, steps[..n]);
      WatchState(WatchAll(max, steps[..n]), steps[n]);
      RunAppend(Init(max), steps[..n], steps[n]);
      assert steps == steps[..n] + [steps[n]];
    }
  }

  // ---------------------------------------------------------------- what every run keeps

  /** A leaf that the call minted: signed no earlier than its lookup. */
  ghost predicate MintedOk(w: Watched, id: nat, leaf: Leaf) {
    id in w.looked && w.looked[id] <= leaf.gen <= w.s.gen && id in w.due && leaf.notAfter == w.due[id]
  }

  /** A leaf from the cache: signed no later than the lookup, by the CA then current exactly
      if the lookup met no retired leaf, and with more than a minute to go. */
  ghost predicate CachedOk(w: Watched, id: nat, leaf: Leaf) {
    && id in w.looked && id in w.lookedAt && leaf.gen <= w.looked[id]
    && (leaf.gen == w.looked[id] <==> id !in w.stale)
    && w.lookedAt[id] + 60_000_000_000 < leaf.notAfter
    && (id in w.stale && id in w.quiet ==> id in w.late)
  }

  ghost predicate WatchOk(w: Watched, id: nat)
    requires id in w.s.calls
  {
    var c := w.s.calls[id];
    && id in w.begun && w.begun[id] <= w.s.gen
    && (c.Looking? ==> id !in w.missed && id !in w.stale && id !in w.quiet && id !in w.late)
    && (!c.Looking? ==> id in w.looked && w.begun[id] <= w.looked[id] <= w.s.gen)
    && (c.Minting? || c.Checking? || c.Putting? ==> id in w.missed)
    && (c.Checking? || c.Putting? ==> MintedOk(w, id, c.leaf))
    && (c.Served? ==> if id in w.missed then MintedOk(w, id, c.leaf) else CachedOk(w, id, c.leaf))
  }

  ghost predicate WatchInv(w: Watched) {
    && Inv(w.s) && WellFormed(w.s.cache)
    && (forall id <- w.s.calls :: WatchOk(w, id))
    && (forall id :: id in w.missed || id in w.stale || id in w.quiet || id in w.late ==> id in w.s.calls)
  }

  lemma StepWellFormed(s: State, step: Step)
    requires WellFormed(s.cache)
    ensures WellFormed(Apply(s, step).cache)
    decreases step.CheckAndInsert?
  {
    match step {
      case LookUp(id, _) =>
        if id in s.calls {
          StepsKeepWellFormed(s.cache, s.calls[id].name, Leaf("", 0, 0));
        }
      case Insert(id) =>
        if Pending(s, id) {
          StepsKeepWellFormed(s.cache, s.calls[id].name, s.calls[id].leaf);
        }
      case CheckAndInsert(id) =>
        StepWellFormed(s, CheckGen(id));
        StepWellFormed(Apply(s, CheckGen(id)), Insert(id));
      case _ =>
    }
  }

  /** What a lookup finds is retired exactly if the cache holds a retired leaf for the name. */
  lemma FoundStale(s: State, name: string)
    requires Inv(s) && WellFormed(s.cache) && Find(s.cache.entries, name).Some?
    ensures var leaf := Find(s.cache.entries, name).value;
            leaf.gen <= s.gen && (leaf.gen == s.gen <==> name !in StaleNames(s))
  {
    FoundMember(s.cache.entries, name);
    CachedOnce(s.cache, name);
  }

  predicate Elsewhere(step: Step, id: nat) { step.Bump? || step.PurgeCache? || step.id != id }

  lemma CallUntouched(s: State, step: Step, id: nat)
    requires Elsewhere(step, id)
    ensures id in Apply(s, step).calls <==> id in s.calls
    ensures id in s.calls ==> Apply(s, step).calls[id] == s.calls[id]
    ensures Apply(s, step).gen >= s.gen
    decreases step.CheckAndInsert?
  {
    if step.CheckAndInsert? {
      CallUntouched(s, CheckGen(step.id), id);
      CallUntouched(Apply(s, CheckGen(step.id)), Insert(step.id), id);
    }
  }

  /** What was watched of a call stays the same while others run. */
  lemma WatchUntouched(w: Watched, step: Step, id: nat)
    requires Elsewhere(step, id)
    ensures var w' := Watch(w, step);
            && (id in w.begun ==> id in w'.begun && w'.begun[id] == w.begun[id])
            && (id in w.looked ==> id in w'.looked && w'.looked[id] == w.looked[id])
            && (id in w.lookedAt ==> id in w'.lookedAt && w'.lookedAt[id] == w.lookedAt[id])
            && (id in w.due ==> id in w'.due && w'.due[id] == w.due[id])
            && (id in w'.missed <==> id in w.missed) && (id in w'.stale <==> id in w.stale)
            && (id in w'.quiet <==> id in w.quiet) && (id in w'.late <==> id in w.late)
  {}

  lemma OtherCalls(w: Watched, step: Step, id: nat)
    requires id in w.s.calls && WatchOk(w, id) && Elsewhere(step, id)
    ensures id in Watch(w, step).s.calls && WatchOk(Watch(w, step), id)
  {
    WatchState(w, step);
    CallUntouched(w.s, step, id);
    WatchUntouched(w, step, id);
  }

  lemma LookUpWatched(w: Watched, id: nat, now: int)
    requires WatchInv(w) && id in w.s.calls && w.s.calls[id].Looking?
    ensures WatchOk(Watch(w, LookUp(id, now)), id)
  {
    var s, name := w.s, w.s.calls[id].name;
    assert WatchOk(w, id);
    if Find(s.cache.entries, name).Some? {
      FoundStale(s, name);
    }
  }

  lemma OwnStep(w: Watched, step: Step)
    requires WatchInv(w) && !step.Bump? && !step.PurgeCache? && step.id in Apply(w.s, step).calls
    ensures WatchOk(Watch(w, step), step.id)
  {
    assert step.id in w.s.calls ==> WatchOk(w, step.id);
    if step.LookUp? && step.id in w.s.calls && w.s.calls[step.id].Looking? {
      LookUpWatched(w, step.id, step.now);
    }
  }

  lemma WatchKeeps(w: Watched, step: Step)
    requires WatchInv(w)
    ensures WatchInv(Watch(w, step))
  {
    var w' := Watch(w, step);
    StepKeepsInv(w.s, step);
    StepWellFormed(w.s, step);
    WatchState(w, step);
    forall id
      ensures id in w'.s.calls ==> WatchOk(w', id)
      ensures id in w'.missed || id in w'.stale || id in w'.quiet || id in w'.late ==> id in w'.s.calls
    {
      if Elsewhere(step, id) {
        CallUntouched(w.s, step, id);
        WatchUntouched(w, step, id);
        if id in w.s.calls {
          OtherCalls(w, step, id);
        }
      } else {
        OwnCall(w, step);
        if id in w'.s.calls {
          OwnStep(w, step);
        }
      }
    }
  }

  lemma OwnCall(w: Watched, step: Step)
    requires WatchInv(w) && !step.Bump? && !step.PurgeCache?
    ensures var w', id := Watch(w, step), step.id;
            id in w'.missed || id in w'.stale || id in w'.quiet || id in w'.late ==> id in w'.s.calls
  {
    WatchState(w, step);
    CallsStay(w.s, step, step.id);
  }

  lemma CallsStay(s: State, step: Step, id: nat)
    ensures id in s.calls ==> id in Apply(s, step).calls
    decreases step.CheckAndInsert?
  {
    if step.CheckAndInsert? {
      CallsStay(s, CheckGen(step.id), id);
      CallsStay(Apply(s, CheckGen(step.id)), Insert(step.id), id);
    }
  }

  lemma {:induction false} WatchAllInv(max: nat, steps: seq<Step>)
    requires 1 <= max
    ensures WatchInv(WatchAll(max, steps))
  {
    if steps != [] {
      WatchAllInv(max, steps[..|steps| - 1]);
      WatchKeeps(WatchAll(max, steps[..|steps| - 1]), steps[|steps| - 1]);
    }
  }

  /** In every run: a leaf that a call minted was signed by the CA current at its lookup or a
      later one, so by none retired before the call began; and one from the cache by the CA
      current at the lookup exactly if none retired was met, which outside rotations takes a
      late insert, and it has more than a minute to go. */
  lemma ServedTheorem(max: nat, steps: seq<Step>, id: nat)
    requires 1 <= max
    requires id in WatchAll(max, steps).s.calls && WatchAll(max, steps).s.calls[id].Served?
    ensures var w := WatchAll(max, steps);
            var leaf := w.s.calls[id].leaf;
            && id in w.begun && id in w.looked && leaf.name == w.s.calls[id].name
            && (id in w.missed ==> w.begun[id] <= w.looked[id] <= leaf.gen <= w.s.gen
                                   && id in w.due && leaf.notAfter == w.due[id])
            && (id !in w.missed ==> && leaf.gen <= w.looked[id] && (leaf.gen == w.looked[id] <==> id !in w.stale)
                                    && (id in w.quiet && id !in w.late ==> leaf.gen == w.looked[id])
                                    && id in w.lookedAt && w.lookedAt[id] + 60_000_000_000 < leaf.notAfter)
  {
    WatchAllInv(max, steps);
    assert WatchOk(WatchAll(max, steps), id) && CallOk(WatchAll(max, steps).s, id);
  }

  // ---------------------------------------------------------------- one request alone

  /** A request that nothing interrupts does to the cache what the CA's own method does: it
      serves a fresh leaf from the cache, or else mints one under the current CA and caches it. */
  lemma AloneTheorem(s: State, id: nat, name: string, now: int, ttl: int)
    requires id !in s.calls
    ensures var minted := Leaf(name, s.gen, now + ttl);
            var s1 := Apply(Apply(s, Begin(id, name)), LookUp(id, now));
            var s' := Apply(Apply(Apply(s1, Mint(id, now, ttl)), CheckGen(id)), Insert(id));
            && s'.cache == CertFor(s.cache, name, minted, now)
            && id in s'.calls && s'.calls[id].Served? && s'.gen == s.gen
            && s'.calls[id].leaf == match Find(s.cache.entries, name)
                                    case Some(leaf) => if now + 60_000_000_000 < leaf.notAfter then leaf else minted
                                    case None => minted
  {
    var s1 := Apply(Apply(s, Begin(id, name)), LookUp(id, now));
    var s2 := Apply(s1, Mint(id, now, ttl));
    if s1.calls[id].Minting? {
      assert s2.calls[id] == Checking(name, Leaf(name, s.gen, now + ttl));
      var s3 := Apply(s2, CheckGen(id));
      assert s3.calls[id] == Putting(name, Leaf(name, s.gen, now + ttl));
    }
  }
}
