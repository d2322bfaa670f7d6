/** Password checks running concurrently with password changes and deletions. Check reads the
    hash, may rewrite it and caches the password in three separate steps; ChangePassword and
    Delete write the table and clear the cache in two. */
module PasswordRace {
  import opened Options
  import opened UserTable
  import AuthTransparency

  datatype Call =
    | Reading(user: string, password: string)                 // the cache had no answer; before the query
    | Verified(user: string, password: string, rehash: bool)  // the hash read verified the password
    | Caching(user: string, password: string)                 // past the rehash
    | Clearing(user: string)                                  // the table is written; before the cache is cleared

  /** chosen is what was last chosen as each user's password, by Add or ChangePassword. */
  datatype State = State(hashes: map<string, Hash>, auth: map<string, CachedAuth>, calls: map<nat, Call>,
                         chosen: map<string, string>)

  datatype Step =
    | Add(user: string, password: string, salt: int)
    | Change(id: nat, user: string, password: string, salt: int)
    | Remove(id: nat, user: string)
    | Clear(id: nat)
    | Begin(id: nat, user: string, password: string, now: int)
    | ReadHash(id: nat)
    | Rehash(id: nat, hashing: Option<int>)
    | Put(id: nat, now: int)

  /** One step; a step that is not enabled leaves the state alone. */
  function Apply(s: State, step: Step): State {
    match step
    case Add(user, password, salt) =>
      if user in s.hashes then s
      else s.(hashes := s.hashes[user := Argon(true, salt, password)], chosen := s.chosen[user := password])
    case Change(id, user, password, salt) =>
      if id in s.calls || user !in s.hashes then s
      else s.(hashes := s.hashes[user := Argon(true, salt, password)], chosen := s.chosen[user := password],
              calls := s.calls[id := Clearing(user)])
    case Remove(id, user) =>
      if id in s.calls || user !in s.hashes then s
      else s.(hashes := s.hashes - {user}, chosen := s.chosen - {user}, calls := s.calls[id := Clearing(user)])
    case Clear(id) =>
      if id in s.calls && s.calls[id].Clearing? then s.(auth := s.auth - {s.calls[id].user}, calls := s.calls - {id}) else s
    case Begin(id, user, password, now) =>
      if id in s.calls || (user in s.auth && now < s.auth[user].validUntil) then s
      else s.(calls := s.calls[id := Reading(user, password)])
    case ReadHash(id) =>
      if id in s.calls && s.calls[id].Reading? then
        var Reading(user, password) := s.calls[id];
        if user in s.hashes && Verifies(password, s.hashes[user])
        then s.(calls := s.calls[id := Verified(user, password, NeedsRehash(s.hashes[user]))])
        else s.(calls := s.calls - {id})
      else s
    case Rehash(id, hashing) =>
      if id in s.calls && s.calls[id].Verified? then
        var Verified(user, password, rehash) := s.calls[id];
        var next := s.(calls := s.calls[id := Caching(user, password)]);
        if rehash && hashing.Some? && user in s.hashes
        then next.(hashes := s.hashes[user := Argon(true, hashing.value, password)]) else next
      else s
    case Put(id, now) =>
      if id in s.calls && s.calls[id].Caching? then
        var Caching(user, password) := s.calls[id];
        s.(auth := s.auth[user := CachedAuth(password, now + CACHE_TTL)], calls := s.calls - {id})
      else s
  }

  // ---------------------------------------------------------------- what should hold

  /** Every stored hash is of the password last chosen. */
  ghost predicate InForce(s: State) {
    s.hashes.Keys == s.chosen.Keys && forall u <- s.hashes :: Verifies(s.chosen[u], s.hashes[u])
  }

  ghost predicate ClearPending(s: State, user: string) {
    exists id :: id in s.calls && s.calls[id] == Clearing(user)
  }

  /** The cache remembers only passwords last chosen, but for users whose entry is about to
      be cleared. */
  ghost predicate CacheHolds(s: State) {
    forall u <- s.auth :: ClearPending(s, u) || (u in s.chosen && s.chosen[u] == s.auth[u].password)
  }

  predicate Current(s: State, user: string, password: string) {
    user in s.chosen && s.chosen[user] == password
  }

  /** The step rewrites a hash for a password that is no longer the chosen one. */
  predicate RevertingRehash(s: State, step: Step) {
    && step.Rehash? && step.id in s.calls && s.calls[step.id].Verified? && s.calls[step.id].rehash
    && step.hashing.Some? && s.calls[step.id].user in s.hashes
    && !Current(s, s.calls[step.id].user, s.calls[step.id].password)
  }

  /** The step caches such a password, with nothing under way to clear it. */
  ghost predicate StalePut(s: State, step: Step) {
    && step.Put? && step.id in s.calls && s.calls[step.id].Caching?
    && !Current(s, s.calls[step.id].user, s.calls[step.id].password) && !ClearPending(s, s.calls[step.id].user)
  }

  // ---------------------------------------------------------------- exactly which steps break it

  lemma InForceStep(s: State, step: Step)
    requires InForce(s)
    ensures InForce(Apply(s, step)) <==> !RevertingRehash(s, step)
  {
    if RevertingRehash(s, step) {
      assert !Verifies(s.chosen[s.calls[step.id].user], Apply(s, step).hashes[s.calls[step.id].user]);
    }
  }

  lemma PendingStays(s: State, s': State, u: string)
    requires forall id <- s.calls :: s.calls[id] == Clearing(u) ==> id in s'.calls && s'.calls[id] == Clearing(u)
    ensures ClearPending(s, u) ==> ClearPending(s', u)
  {}

  lemma CacheStep(s: State, step: Step)
    requires CacheHolds(s) && s.hashes.Keys == s.chosen.Keys
    ensures CacheHolds(Apply(s, step)) <==> !StalePut(s, step)
  {
    var s' := Apply(s, step);
    if step.Put? && step.id in s.calls && s.calls[step.id].Caching? {
      PutStep(s, step);
    } else {
      forall u | u in s'.auth
        ensures ClearPending(s', u) || (u in s'.chosen && s'.chosen[u] == s'.auth[u].password)
      {
        EntryStep(s, step, u);
      }
    }
  }

  lemma EntryStep(s: State, step: Step, u: string)
    requires CacheHolds(s) && s.hashes.Keys == s.chosen.Keys && u in Apply(s, step).auth
    requires step.Put? ==> Apply(s, step) == s
    ensures var s' := Apply(s, step); ClearPending(s', u) || (u in s'.chosen && s'.chosen[u] == s'.auth[u].password)
  {
    var s' := Apply(s, step);
    assert u in s.auth && s'.auth[u] == s.auth[u];
    PendingStays(s, s', u);
    if (step.Change? || step.Remove?) && s' != s && step.user == u {
      assert s'.calls[step.id] == Clearing(u);
    }
  }

  lemma PutStep(s: State, step: Step)
    requires CacheHolds(s) && step.Put? && step.id in s.calls && s.calls[step.id].Caching?
    ensures CacheHolds(Apply(s, step)) <==> !StalePut(s, step)
  {
    var s', user := Apply(s, step), s.calls[step.id].user;
    forall u
      ensures ClearPending(s', u) <==> ClearPending(s, u)
    {
      PendingStays(s, s', u);
      PendingStays(s', s, u);
    }
    assert user in s'.auth;
  }

  // ---------------------------------------------------------------- runs

  /** A table just opened, with hashes of any age. */
  ghost predicate Opened(s: State) {
    s.auth == map[] && s.calls == map[] && InForce(s)
  }

  ghost predicate IsRun(states: seq<State>, steps: seq<Step>) {
    && |states| == |steps| + 1 && Opened(states[0])
    && forall i :: 0 <= i < |steps| ==> states[i + 1] == Apply(states[i], steps[i])
  }

  lemma {:induction false} SameUsers(states: seq<State>, steps: seq<Step>, n: nat)
    requires IsRun(states, steps) && n < |states|
    ensures states[n].hashes.Keys == states[n].chosen.Keys
  {
    if n > 0 {
      SameUsers(states, steps, n - 1);
    }
  }

  /** Throughout an interleaving every stored hash is of the password last chosen exactly if
      no check rewrites a hash for a password that was replaced after it read it. */
  lemma {:induction false} HashTheorem(states: seq<State>, steps: seq<Step>, n: nat)
    requires IsRun(states, steps) && n < |states|
    ensures (forall i :: 0 <= i <= n ==> InForce(states[i])) <==>
              forall j :: 0 <= j < n ==> !RevertingRehash(states[j], steps[j])
  {
    if n == 0 {
      assert InForce(states[0]);
    } else {
      HashTheorem(states, steps, n - 1);
      assert states[n] == Apply(states[n - 1], steps[n - 1]);
      if InForce(states[n - 1]) {
        InForceStep(states[n - 1], steps[n - 1]);
      }
    }
  }

  /** Throughout an interleaving the cache remembers only passwords last chosen, up to entries
      about to be cleared, exactly if no check caches a replaced password after the clearing. */
  lemma {:induction false} CacheTheorem(states: seq<State>, steps: seq<Step>, n: nat)
    requires IsRun(states, steps) && n < |states|
    ensures (forall i :: 0 <= i <= n ==> CacheHolds(states[i])) <==>
              forall j :: 0 <= j < n ==> !StalePut(states[j], steps[j])
  {
    if n == 0 {
      assert CacheHolds(states[0]);
    } else {
      CacheTheorem(states, steps, n - 1);
      assert states[n] == Apply(states[n - 1], steps[n - 1]);
      if CacheHolds(states[n - 1]) {
        SameUsers(states, steps, n - 1);
        CacheStep(states[n - 1], steps[n - 1]);
      }
    }
  }

  /** Where both hold and nothing is about to be cleared, the cache vouches only for passwords
      that verify: what makes it invisible to calls that run one after the other. */
  lemma QuietMeansSound(s: State, d: Db)
    requires InForce(s) && CacheHolds(s) && forall u :: !ClearPending(s, u)
    requires d.auth == s.auth && d.rows.Keys == s.hashes.Keys && forall u <- d.rows :: d.rows[u].hash == s.hashes[u]
    ensures AuthTransparency.AuthInv(d)
  {
    forall u | u in d.auth
      ensures u in d.rows && Verifies(d.auth[u].password, d.rows[u].hash)
    {
      assert !ClearPending(s, u);
    }
  }

  // ---------------------------------------------------------------- calls that nothing interrupts

  /** The same hashes and cache, with no call under way. */
  ghost predicate Mirrors(s: State, d: Db) {
    && s.calls == map[] && s.auth == d.auth && s.hashes.Keys == d.rows.Keys
    && forall u <- d.rows :: d.rows[u].hash == s.hashes[u]
  }

  /** The last two steps of a check that read and verified a hash. */
  lemma FinishAlone(s: State, user: string, password: string, hashing: Option<int>, now: int)
    requires s.calls == map[] && user in s.hashes && Verifies(password, s.hashes[user])
    ensures var verified := s.(calls := map[0 := Verified(user, password, NeedsRehash(s.hashes[user]))]);
            var hash := if NeedsRehash(s.hashes[user]) && hashing.Some? then Argon(true, hashing.value, password) else s.hashes[user];
            Apply(Apply(verified, Rehash(0, hashing)), Put(0, now))
            == s.(hashes := s.hashes[user := hash], auth := s.auth[user := CachedAuth(password, now + CACHE_TTL)])
  {
    var verified := s.(calls := map[0 := Verified(user, password, NeedsRehash(s.hashes[user]))]);
    var s3 := Apply(verified, Rehash(0, hashing));
    assert s3.calls == map[0 := Caching(user, password)];
    assert Apply(s3, Put(0, now)).calls == map[];
    assert s.hashes[user := s.hashes[user]] == s.hashes;
  }

  lemma StartAlone(s: State, user: string, password: string, now: int)
    requires s.calls == map[]
    ensures var s2 := Apply(Apply(s, Begin(0, user, password, now)), ReadHash(0));
            if user in s.auth && now < s.auth[user].validUntil then s2 == s
            else if user in s.hashes && Verifies(password, s.hashes[user])
            then s2 == s.(calls := map[0 := Verified(user, password, NeedsRehash(s.hashes[user]))])
            else s2 == s
  {
    if !(user in s.auth && now < s.auth[user].validUntil) {
      var s1 := Apply(s, Begin(0, user, password, now));
      assert s1 == s.(calls := map[0 := Reading(user, password)]);
      if !(user in s.hashes && Verifies(password, s.hashes[user])) {
        assert Apply(s1, ReadHash(0)).calls == map[];
      } else {
        assert Apply(s1, ReadHash(0)).calls == map[0 := Verified(user, password, NeedsRehash(s.hashes[user]))];
      }
    }
  }

  /** What the database's Check does with a password that it has to verify. */
  lemma CheckVerified(d: Db, user: string, password: string, hashing: Option<int>, now: int)
    requires !(user in d.auth && now < d.auth[user].validUntil)
    ensures var d' := CheckCredentials(d, Credentials(user, password), hashing, now).0;
            if user in d.rows && Verifies(password, d.rows[user].hash) then
              && d'.auth == d.auth[user := CachedAuth(password, now + CACHE_TTL)] && d'.rows.Keys == d.rows.Keys
              && (forall u <- d.rows :: u != user ==> d'.rows[u] == d.rows[u])
              && d'.rows[user].hash == if NeedsRehash(d.rows[user].hash) && hashing.Some? then Argon(true, hashing.value, password)
                                       else d.rows[user].hash
            else d' == d
  {}

  lemma Idle(s: State, hashing: Option<int>, now: int)
    requires s.calls == map[]
    ensures Apply(Apply(s, Rehash(0, hashing)), Put(0, now)) == s
  {}

  /** The four steps of a check, with nothing in between. */
  function WholeCheck(s: State, user: string, password: string, hashing: Option<int>, now: int): State {
    var s2 := Apply(Apply(s, Begin(0, user, password, now)), ReadHash(0));
    Apply(Apply(s2, Rehash(0, hashing)), Put(0, now))
  }

  /** What they amount to. */
  function Checked(s: State, user: string, password: string, hashing: Option<int>, now: int): State {
    if (user in s.auth && now < s.auth[user].validUntil) || user !in s.hashes || !Verifies(password, s.hashes[user]) then s
    else
      var hash := if NeedsRehash(s.hashes[user]) && hashing.Some? then Argon(true, hashing.value, password) else s.hashes[user];
      s.(hashes := s.hashes[user := hash], auth := s.auth[user := CachedAuth(password, now + CACHE_TTL)])
  }

  lemma WholeCheckValue(s: State, user: string, password: string, hashing: Option<int>, now: int)
    requires s.calls == map[]
    ensures WholeCheck(s, user, password, hashing, now) == Checked(s, user, password, hashing, now)
  {
    StartAlone(s, user, password, now);
    Idle(s, hashing, now);
    if user in s.hashes && Verifies(password, s.hashes[user]) {
      FinishAlone(s, user, password, hashing, now);
    }
  }

  lemma CheckedMirrors(s: State, d: Db, user: string, password: string, hashing: Option<int>, now: int)
    requires Mirrors(s, d)
    ensures Mirrors(Checked(s, user, password, hashing, now), CheckCredentials(d, Credentials(user, password), hashing, now).0)
  {
    if !(user in d.auth && now < d.auth[user].validUntil) {
      CheckVerified(d, user, password, hashing, now);
    }
  }

  /** A check whose four steps follow each other does what the database's Check does. */
  lemma CheckAlone(s: State, d: Db, user: string, password: string, hashing: Option<int>, now: int)
    requires Mirrors(s, d)
    ensures Mirrors(WholeCheck(s, user, password, hashing, now), CheckCredentials(d, Credentials(user, password), hashing, now).0)
  {
    WholeCheckValue(s, user, password, hashing, now);
    CheckedMirrors(s, d, user, password, hashing, now);
  }

  /** Likewise a password change and a deletion, each with the clearing right after it. */
  lemma ChangeAlone(s: State, d: Db, user: string, password: string, salt: int)
    requires Mirrors(s, d) && password != ""
    ensures Mirrors(Apply(Apply(s, Step.Change(0, user, password, salt)), Clear(0)),
                    ApplyChangePassword(d, user, password, Some(salt)).0)
  {
    if user in s.hashes {
      assert Apply(Apply(s, Step.Change(0, user, password, salt)), Clear(0)).calls == map[];
    }
  }

  lemma AddAlone(s: State, d: Db, user: string, password: string, salt: int, min: int, max: int)
    requires Mirrors(s, d) && (ApplyAdd(d, user, password, Some(salt), min, max).1.Port? || user in d.rows)
    ensures Mirrors(Apply(s, Step.Add(user, password, salt)), ApplyAdd(d, user, password, Some(salt), min, max).0)
  {}

  lemma RemoveAlone(s: State, d: Db, user: string)
    requires Mirrors(s, d)
    ensures Mirrors(Apply(Apply(s, Remove(0, user)), Clear(0)), ApplyDelete(d, user).0)
  {
    if user in s.hashes {
      assert Apply(Apply(s, Remove(0, user)), Clear(0)).calls == map[];
    }
  }

  // ---------------------------------------------------------------- such an interleaving

  lemma BeforeChange(user: string, was: string, salt: int) returns (s0: State, s1: State, s2: State)
    ensures s0 == State(map[user := Argon(false, salt, was)], map[], map[], map[user := was])
    ensures s1 == Apply(s0, Begin(0, user, was, 0)) && s2 == Apply(s1, ReadHash(0))
    ensures s2 == s0.(calls := map[0 := Verified(user, was, true)])
  {
    s0 := State(map[user := Argon(false, salt, was)], map[], map[], map[user := was]);
    s1 := Apply(s0, Begin(0, user, was, 0));
    assert s1 == s0.(calls := map[0 := Reading(user, was)]);
    s2 := Apply(s1, ReadHash(0));
    assert s2 == s0.(calls := map[0 := Verified(user, was, true)]);
  }

  lemma ChangeGoesBy(s2: State, user: string, was: string, chosen: string, salt: int) returns (s3: State, s4: State)
    requires user in s2.hashes && s2.auth == map[] && s2.calls == map[0 := Verified(user, was, true)]
    requires s2.hashes.Keys == s2.chosen.Keys == {user}
    ensures s3 == Apply(s2, Step.Change(1, user, chosen, salt)) && s4 == Apply(s3, Clear(1))
    ensures s4 == State(map[user := Argon(true, salt, chosen)], map[], map[0 := Verified(user, was, true)], map[user := chosen])
  {
    s3 := Apply(s2, Step.Change(1, user, chosen, salt));
    assert s3.calls == map[0 := Verified(user, was, true), 1 := Clearing(user)];
    s4 := Apply(s3, Clear(1));
    assert s4.calls == map[0 := Verified(user, was, true)];
    assert s4.hashes == map[user := Argon(true, salt, chosen)] && s4.chosen == map[user := chosen];
  }

  lemma CheckGoesOn(s4: State, user: string, was: string, salt: int) returns (s5: State, s6: State)
    requires s4.calls == map[0 := Verified(user, was, true)] && user in s4.hashes
    ensures s5 == Apply(s4, Rehash(0, Some(salt))) && s6 == Apply(s5, Put(0, 0))
    ensures s6 == s4.(hashes := s4.hashes[user := Argon(true, salt, was)], calls := map[],
                      auth := s4.auth[user := CachedAuth(was, CACHE_TTL)])
  {
    s5 := Apply(s4, Rehash(0, Some(salt)));
    assert s5 == s4.(hashes := s4.hashes[user := Argon(true, salt, was)], calls := map[0 := Caching(user, was)]);
    s6 := Apply(s5, Put(0, 0));
    assert s6.calls == map[];
  }

  /** A check that reads a hash of the old parameters before the password is changed, and goes
      on after the change is complete, stores and caches the old password again. */
  lemma OldPasswordReturns(user: string, was: string, chosen: string, salt: int)
    returns (states: seq<State>, steps: seq<Step>)
    requires was != chosen
    ensures IsRun(states, steps) && |states| == 7
    ensures states[6].chosen == map[user := chosen] && states[6].calls == map[]
    ensures user in states[6].hashes && Verifies(was, states[6].hashes[user]) && !Verifies(chosen, states[6].hashes[user])
    ensures user in states[6].auth && states[6].auth[user].password == was
  {
    var s0, s1, s2 := BeforeChange(user, was, salt);
    var s3, s4 := ChangeGoesBy(s2, user, was, chosen, salt);
    var s5, s6 := CheckGoesOn(s4, user, was, salt);
    states := [s0, s1, s2, s3, s4, s5, s6];
    steps := [Begin(0, user, was, 0), ReadHash(0), Step.Change(1, user, chosen, salt), Clear(1), Rehash(0, Some(salt)), Put(0, 0)];
  }
}
