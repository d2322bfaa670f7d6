/** Leaf requests and CA rotations running concurrently. Every lock release of certFor and
    Rotate is a point where any other call may run, so each step below is one critical
    section of pkg/mitm/mint.go or pkg/mitm/ca.go. */
module Rotation {
  import opened Options
  import opened LeafCacheSpec

  /** Where one certFor call stands. */
  datatype Call =
    | Looking(name: string)               // before the cache lookup
    | Minting(name: string)               // the lookup missed; before the CA snapshot
    | Checking(name: string, leaf: Leaf)  // signed; before the generation check
    | Putting(name: string, leaf: Leaf)   // passed the check; before the insert
    | Served(name: string, leaf: Leaf)
    | Failed(name: string)

  /** Besides the shared data and the calls, a state remembers three facts about the past:
      how many rotations sit between bump and purge, whether a purge ran since the latest
      bump, and which calls were between check and insert at that bump, with their names. */
  datatype State = State(gen: nat, cache: Cache, calls: map<nat, Call>,
                         purging: nat, purged: bool, late: map<nat, string>)

  datatype Step =
    | Begin(id: nat, name: string)
    | LookUp(id: nat, now: int)
    | Mint(id: nat, now: int, ttl: int)
    | MintFails(id: nat)
    | CheckGen(id: nat)
    | Insert(id: nat)
    | CheckAndInsert(id: nat)  // the two steps above without a lock release between them
    | Bump
    | PurgeCache

  function Init(max: nat): State {
    State(0, Cache(max, [], 0, 0), map[], 0, true, map[])
  }

  /** One step; a step that is not enabled leaves the state alone. */
  function Apply(s: State, step: Step): State
    decreases step.CheckAndInsert?
  {
    match step
    case Begin(id, name) =>
      if id in s.calls then s else s.(calls := s.calls[id := Looking(name)])
    case LookUp(id, now) =>
      if id in s.calls && s.calls[id].Looking? then
        var name := s.calls[id].name;
        var next := match Find(s.cache.entries, name)
          case Some(leaf) => if Fresh(leaf, now) then Served(name, leaf) else Minting(name)
          case None => Minting(name);
        s.(cache := Get(s.cache, name), calls := s.calls[id := next])
      else s
    case Mint(id, now, ttl) =>
      if id in s.calls && s.calls[id].Minting? then
        var name := s.calls[id].name;
        s.(calls := s.calls[id := Checking(name, Leaf(name, s.gen, now + ttl))])
      else s
    case MintFails(id) =>
      if id in s.calls && s.calls[id].Minting? then s.(calls := s.calls[id := Failed(s.calls[id].name)])
      else s
    case CheckGen(id) =>
      if id in s.calls && s.calls[id].Checking? then
        var Checking(name, leaf) := s.calls[id];
        s.(calls := s.calls[id := if leaf.gen == s.gen then Putting(name, leaf) else Served(name, leaf)])
      else s
    case Insert(id) =>
      if id in s.calls && s.calls[id].Putting? then
        var Putting(name, leaf) := s.calls[id];
        s.(cache := Put(s.cache, name, leaf), calls := s.calls[id := Served(name, leaf)])
      else s
    case CheckAndInsert(id) =>
      if id in s.calls && s.calls[id].Checking? then Apply(Apply(s, CheckGen(id)), Insert(id)) else s
    case Bump =>
      s.(gen := s.gen + 1, purging := s.purging + 1, purged := false,
         late := map id | id in s.calls && s.calls[id].Putting? :: s.calls[id].name)
    case PurgeCache =>
      if s.purging > 0 then s.(cache := Purge(s.cache), purging := s.purging - 1, purged := true) else s
  }

  function Run(s: State, steps: seq<Step>): State
    decreases steps
  {
    if steps == [] then s else Run(Apply(s, steps[0]), steps[1..])
  }

  /** The names cached under a leaf of a retired generation. */
  ghost function StaleNames(s: State): set<string> {
    set e | e in s.cache.entries && e.cert.gen != s.gen :: e.key
  }

  /** The late calls that have made their insert by now, by name. */
  ghost function LateInserts(s: State): set<string> {
    set id | id in s.late && !Pending(s, id) :: s.late[id]
  }

  ghost predicate Pending(s: State, id: nat) {
    id in s.calls && s.calls[id].Putting?
  }

  ghost predicate Inv(s: State) {
    && (s.purging == 0 ==> s.purged)
    && (s.purged ==> StaleNames(s) <= LateInserts(s))
    && (forall id <- s.calls :: CallOk(s, id))
    && (forall id <- s.late :: id in s.calls && s.calls[id].name == s.late[id]
                               && (s.calls[id].Putting? || s.calls[id].Served?))
    && (forall e <- s.cache.entries :: e.cert.name == e.key && e.cert.gen <= s.gen)
  }

  /** Every leaf a call holds certifies the name asked for, and a call about to insert a
      leaf of a retired generation was already about to insert at the latest bump. */
  ghost predicate CallOk(s: State, id: nat)
    requires id in s.calls
  {
    var c := s.calls[id];
    && (c.Checking? || c.Putting? || c.Served? ==> c.leaf.name == c.name && c.leaf.gen <= s.gen)
    && (c.Putting? && c.leaf.gen != s.gen ==> id in s.late)
  }

  lemma {:induction false} FrontMembers(entries: seq<Entry>, e: Entry)
    ensures forall x <- Front(entries, e) :: x == e || (x in entries && x.key != e.key)
  {
    if entries != [] {
      FrontMembers(entries[1..], e);
      assert forall x <- Others(entries[1..], e.key) :: x in Front(entries[1..], e);
    }
  }

  /** A lookup brings nothing new into the cache. */
  lemma LookupMembers(c: Cache, key: string)
    ensures forall e <- Get(c, key).entries :: e in c.entries
  {
    FoundMember(c.entries, key);
    if Find(c.entries, key).Some? {
      FrontMembers(c.entries, Entry(key, Find(c.entries, key).value));
    }
  }

  lemma InsertKeepsInv(s: State, id: nat)
    requires Inv(s) && Pending(s, id)
    ensures Inv(Apply(s, Insert(id)))
  {
    var s', leaf, name := Apply(s, Insert(id)), s.calls[id].leaf, s.calls[id].name;
    FrontMembers(s.cache.entries, Entry(name, leaf));
    assert forall e <- s'.cache.entries :: e == Entry(name, leaf) || e in s.cache.entries;
    forall n | s'.purged && n in StaleNames(s')
      ensures n in LateInserts(s')
    {
      if n in StaleNames(s) {
        var id' :| id' in s.late && !Pending(s, id') && s.late[id'] == n;
        assert !Pending(s', id');
      } else {
        assert n == name && s.late[id] == n && !Pending(s', id);
      }
    }
  }

  lemma LookUpKeepsInv(s: State, id: nat, now: int)
    requires Inv(s) && id in s.calls && s.calls[id].Looking?
    ensures Inv(Apply(s, LookUp(id, now)))
  {
    LookupMembers(s.cache, s.calls[id].name);
    FoundMember(s.cache.entries, s.calls[id].name);
    SameLateInserts(s, Apply(s, LookUp(id, now)));
  }

  lemma StepKeepsInv(s: State, step: Step)
    requires Inv(s)
    ensures Inv(Apply(s, step))
    decreases step.CheckAndInsert?
  {
    match step {
      case LookUp(id, now) =>
        if id in s.calls && s.calls[id].Looking? {
          LookUpKeepsInv(s, id, now);
        }
      case Insert(id) =>
        if Pending(s, id) {
          InsertKeepsInv(s, id);
        }
      case CheckAndInsert(id) =>
        if id in s.calls && s.calls[id].Checking? {
          StepKeepsInv(s, CheckGen(id));
          if Pending(Apply(s, CheckGen(id)), id) {
            InsertKeepsInv(Apply(s, CheckGen(id)), id);
          }
        }
      case PurgeCache =>
      case Bump =>
      case _ => CallStepKeepsInv(s, step);
    }
  }

  /** Steps that change nothing but one call. */
  lemma CallStepKeepsInv(s: State, step: Step)
    requires Inv(s) && (step.Begin? || step.Mint? || step.MintFails? || step.CheckGen?)
    ensures Inv(Apply(s, step))
  {
    var s' := Apply(s, step);
    SameLateInserts(s, s');
    assert step.id in s.calls ==> CallOk(s, step.id);
    assert forall id <- s.calls :: id != step.id ==> s'.calls[id] == s.calls[id];
    assert forall id <- s'.calls :: CallOk(s', id);
  }

  lemma SameLateInserts(s: State, s': State)
    requires s'.late == s.late && s'.gen == s.gen
    requires forall e <- s'.cache.entries :: e in s.cache.entries
    requires forall id <- s.late :: !Pending(s, id) ==> !Pending(s', id)
    ensures LateInserts(s) <= LateInserts(s') && StaleNames(s') <= StaleNames(s)
  {}

  lemma {:induction false} RunKeepsInv(s: State, steps: seq<Step>)
    requires Inv(s)
    ensures Inv(Run(s, steps))
    decreases steps
  {
    if steps != [] {
      StepKeepsInv(s, steps[0]);
      RunKeepsInv(Apply(s, steps[0]), steps[1..]);
    }
  }

  ghost predicate Reachable(s: State) {
    exists max: nat, steps: seq<Step> :: s == Run(Init(max), steps)
  }

  lemma {:induction false} ImageSize<T>(ids: set<nat>, f: map<nat, T>, image: set<T>)
    requires ids <= f.Keys && image <= (set id | id in ids :: f[id])
    ensures |image| <= |ids|
  {
    if image != {} {
      var id :| id in ids && f[id] in image;
      forall x | x in image - {f[id]}
        ensures x in (set id' | id' in ids - {id} :: f[id'])
      {
        var id' :| id' in ids && f[id'] == x;
        assert id' in ids - {id};
      }
      ImageSize(ids - {id}, f, image - {f[id]});
    }
  }

  /** Under every interleaving: while no rotation is between its bump and its purge, every
      cached leaf of a retired generation was inserted by a call that had passed the
      generation check before the latest bump, and there are no more such leaves than such
      calls that have inserted. */
  lemma RotationTheorem(s: State)
    requires Reachable(s) && s.purging == 0
    ensures StaleNames(s) <= LateInserts(s)
    ensures |StaleNames(s)| <= |set id | id in s.late && !Pending(s, id)| <= |s.late|
    ensures s.late == map[] ==> forall e <- s.cache.entries :: e.cert.gen == s.gen
  {
    var max: nat, steps: seq<Step> :| s == Run(Init(max), steps);
    RunKeepsInv(Init(max), steps);
    var ids := set id | id in s.late && !Pending(s, id);
    ImageSize(ids, s.late, StaleNames(s));
    assert s.late.Keys == ids + (s.late.Keys - ids);
    forall e | e in s.cache.entries && s.late == map[]
      ensures e.cert.gen == s.gen
    {
      assert e.cert.gen != s.gen ==> e.key in StaleNames(s);
    }
  }

  /** Every leaf handed out certifies the name it was asked for. */
  lemma ServedNameTheorem(s: State, id: nat)
    requires Reachable(s) && id in s.calls && s.calls[id].Served?
    ensures s.calls[id].leaf.name == s.calls[id].name && s.calls[id].leaf.gen <= s.gen
  {
    var max: nat, steps: seq<Step> :| s == Run(Init(max), steps);
    RunKeepsInv(Init(max), steps);
  }

  lemma {:induction false} FusedNeverPends(s: State, steps: seq<Step>)
    requires forall step <- steps :: !step.CheckGen? && !step.Insert?
    requires s.late == map[] && forall id <- s.calls :: !Pending(s, id)
    ensures Run(s, steps).late == map[]
    decreases steps
  {
    if steps != [] {
      FusedStep(s, steps[0]);
      FusedNeverPends(Apply(s, steps[0]), steps[1..]);
    }
  }

  lemma FusedStep(s: State, step: Step)
    requires !step.CheckGen? && !step.Insert?
    requires s.late == map[] && forall id <- s.calls :: !Pending(s, id)
    ensures var s' := Apply(s, step);
            s'.late == map[] && forall id <- s'.calls :: !Pending(s', id)
  {
    if step.CheckAndInsert? && step.id in s.calls && s.calls[step.id].Checking? {
      var mid := Apply(s, CheckGen(step.id));
      assert Apply(s, step) == Apply(mid, Insert(step.id));
      assert forall id <- mid.calls :: id != step.id ==> !Pending(mid, id);
    }
  }

  /** If the generation check and the insert were one critical section, no cached leaf
      would outlive its generation. */
  lemma FusedTheorem(max: nat, steps: seq<Step>)
    requires forall step <- steps :: !step.CheckGen? && !step.Insert?
    ensures var s := Run(Init(max), steps);
            s.purging == 0 ==> forall e <- s.cache.entries :: e.cert.gen == s.gen
  {
    FusedNeverPends(Init(max), steps);
    var s := Run(Init(max), steps);
    if s.purging == 0 {
      RotationTheorem(s);
    }
  }

  /** The insert step leaves a clean cache clean exactly when the generation its leaf was
      signed under is still current: the test certFor makes one lock release earlier. */
  lemma InsertCleanIff(s: State, id: nat)
    requires Pending(s, id) && 1 <= s.cache.max && StaleNames(s) == {}
    ensures StaleNames(Apply(s, Insert(id))) == {} <==> s.calls[id].leaf.gen == s.gen
  {
    var s', leaf, name := Apply(s, Insert(id)), s.calls[id].leaf, s.calls[id].name;
    FrontMembers(s.cache.entries, Entry(name, leaf));
    assert s'.cache.entries[0] == Entry(name, leaf);
    if leaf.gen == s.gen {
      forall e | e in s'.cache.entries
        ensures e.cert.gen == s.gen
      {
        assert e in s.cache.entries && e.cert.gen != s.gen ==> e.key in StaleNames(s);
      }
    } else {
      assert name in StaleNames(s');
    }
  }

  /** Clean whenever it matters: a rotation that is still to purge will clean the cache. */
  ghost predicate Clean(s: State) { s.purging > 0 || StaleNames(s) == {} }

  /** A call inserts a leaf signed before the latest bump, outside any rotation. */
  ghost predicate LateInsert(s: State, step: Step) {
    step.Insert? && Pending(s, step.id) && s.calls[step.id].leaf.gen != s.gen && s.purging == 0
  }

  lemma NothingNewStale(s: State, s': State)
    requires s'.gen == s.gen && s'.purging == s.purging && Clean(s)
    requires forall e <- s'.cache.entries :: e in s.cache.entries || e.cert.gen == s.gen
    ensures Clean(s')
  {
    forall e | e in s'.cache.entries && s.purging == 0
      ensures e.cert.gen == s.gen
    {
      assert e in s.cache.entries && e.cert.gen != s.gen ==> e.key in StaleNames(s);
    }
  }

  lemma InsertClean(s: State, id: nat)
    requires Clean(s) && 1 <= s.cache.max && Pending(s, id)
    ensures Clean(Apply(s, Insert(id))) <==> !LateInsert(s, Insert(id))
  {
    if s.purging == 0 {
      InsertCleanIff(s, id);
    }
  }

  lemma CleanStep(s: State, step: Step)
    requires Clean(s) && 1 <= s.cache.max
    ensures Clean(Apply(s, step)) <==> !LateInsert(s, step)
    ensures Apply(s, step).cache.max == s.cache.max
  {
    match step {
      case LookUp(id, _) =>
        if id in s.calls && s.calls[id].Looking? {
          LookupMembers(s.cache, s.calls[id].name);
          NothingNewStale(s, Apply(s, step));
        }
      case Insert(id) =>
        if Pending(s, id) {
          InsertClean(s, id);
        }
      case CheckAndInsert(id) =>
        if id in s.calls && s.calls[id].Checking? {
          var mid := Apply(s, CheckGen(id));
          NothingNewStale(s, mid);
          if Pending(mid, id) {
            InsertClean(mid, id);
          }
        }
      case Bump =>
      case PurgeCache =>
      case _ => NothingNewStale(s, Apply(s, step));
    }
  }

  ghost predicate AlwaysClean(s: State, steps: seq<Step>)
    decreases steps
  {
    Clean(s) && (steps != [] ==> AlwaysClean(Apply(s, steps[0]), steps[1..]))
  }

  ghost predicate NoLateInsert(s: State, steps: seq<Step>)
    decreases steps
  {
    steps != [] ==> !LateInsert(s, steps[0]) && NoLateInsert(Apply(s, steps[0]), steps[1..])
  }

  lemma {:induction false} CleanFrom(s: State, steps: seq<Step>)
    requires Clean(s) && 1 <= s.cache.max
    ensures AlwaysClean(s, steps) <==> NoLateInsert(s, steps)
    decreases steps
  {
    if steps != [] {
      CleanStep(s, steps[0]);
      if Clean(Apply(s, steps[0])) {
        CleanFrom(Apply(s, steps[0]), steps[1..]);
      }
    }
  }

  /** The cache is free of retired leaves at every moment outside rotations exactly if no
      call inserts, outside any rotation, a leaf that was signed before the latest bump. */
  lemma CleanTheorem(max: nat, steps: seq<Step>)
    requires 1 <= max
    ensures AlwaysClean(Init(max), steps) <==> NoLateInsert(Init(max), steps)
  {
    CleanFrom(Init(max), steps);
  }

  lemma {:induction false} RunAppend(s: State, steps: seq<Step>, step: Step)
    ensures Run(s, steps + [step]) == Apply(Run(s, steps), step)
    decreases steps
  {
    if steps != [] {
      assert (steps + [step])[1..] == steps[1..] + [step];
      RunAppend(Apply(s, steps[0]), steps[1..], step);
    }
  }

  lemma ReachInit(max: nat) returns (s: State)
    ensures s == Init(max) && Reachable(s)
  {
    s := Init(max);
    assert s == Run(Init(max), []);
  }

  lemma ReachStep(s: State, step: Step) returns (s': State)
    requires Reachable(s)
    ensures Reachable(s') && s' == Apply(s, step)
  {
    var max: nat, steps: seq<Step> :| s == Run(Init(max), steps);
    RunAppend(Init(max), steps, step);
    s' := Apply(s, step);
  }

  ghost function OneCall(call: Call, misses: nat): State {
    Init(1).(calls := map[0 := call], cache := Cache(1, [], 0, misses))
  }

  lemma ReachMinting() returns (s: State)
    ensures Reachable(s) && s == OneCall(Minting("a"), 1)
  {
    s := ReachInit(1);
    s := ReachStep(s, Begin(0, "a"));
    assert s == OneCall(Looking("a"), 0);
    s := ReachStep(s, LookUp(0, 0));
  }

  lemma ReachPutting() returns (s: State)
    ensures Reachable(s) && s == OneCall(Putting("a", Leaf("a", 0, 9)), 1)
  {
    s := ReachMinting();
    s := ReachStep(s, Mint(0, 0, 9));
    assert s == OneCall(Checking("a", Leaf("a", 0, 9)), 1);
    s := ReachStep(s, CheckGen(0));
  }

  /** The comment at ca.go:72-73 promises that no leaf of the retired CA lands in the cache
      after the purge. A rotation between check and insert breaks that promise. */
  lemma RaceLeavesStaleLeaf() returns (s: State)
    ensures Reachable(s) && s.purging == 0 && "a" in StaleNames(s)
  {
    s := ReachPutting();
    s := ReachStep(s, Bump);
    s := ReachStep(s, PurgeCache);
    InsertIntoEmpty(s, 0);
    s := ReachStep(s, Insert(0));
  }

  lemma InsertIntoEmpty(s: State, id: nat)
    requires Pending(s, id) && s.cache.entries == [] && 1 <= s.cache.max
    requires s.calls[id].leaf.gen != s.gen
    ensures s.calls[id].name in StaleNames(Apply(s, Insert(id)))
  {
    assert Apply(s, Insert(id)).cache.entries[0] == Entry(s.calls[id].name, s.calls[id].leaf);
  }
}
