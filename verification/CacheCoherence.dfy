/** The settings caches of the user database over whole runs: they answer as the table
    does, restarts included. */
module CacheCoherence {
  import opened Options
  import opened UserTable
  import opened Downtime

  /** A database in use: when its latest operation ran, and which users were deleted while
      an ad-hoc deadline of theirs was cached and have not had it set or cleared since. */
  datatype Traced = Traced(db: Db, now: int, leftover: set<string>)

  function Leftover(t: Traced, op: Op): set<string> {
    match op
    case Delete(user) => if user in t.db.rows && user in t.db.until then t.leftover + {user} else t.leftover
    case Change(user, Until(_)) => if user in t.db.rows then t.leftover - {user} else t.leftover
    case Change(user, NoUntil) => if user in t.db.rows then t.leftover - {user} else t.leftover
    case Reopen => {}
    case _ => t.leftover
  }

  /** One operation, run no earlier than the one before it. */
  function Step(t: Traced, op: Op, elapsed: nat): Traced {
    Traced(Apply(t.db, op, t.now + elapsed).0, t.now + elapsed, Leftover(t, op))
  }

  datatype Event = Event(op: Op, elapsed: nat)

  function Run(t: Traced, events: seq<Event>): Traced
    decreases events
  {
    if events == [] then t else Run(Step(t, events[0].op, events[0].elapsed), events[1..])
  }

  /** A cached deadline is the stored one to the second; one stored but not cached is past. */
  ghost predicate DeadlineOk(cached: Option<int>, stored: Option<int>, now: int) {
    match cached
    case Some(deadline) => stored == Some(Stored(deadline))
    case None => !Ahead(stored, now)
  }

  function Lookup<V>(m: map<string, V>, user: string): Option<V> {
    if user in m then Some(m[user]) else None
  }

  /** All that the database holds about one user, passwords aside. */
  datatype View = View(row: Option<Row>, dns: Option<DnsEntry>, downtime: Option<Schedule>,
                       override: Option<int>, until: Option<int>, enabled: Option<bool>)

  function ViewOf(d: Db, user: string): View {
    View(Lookup(d.rows, user), Lookup(d.dns, user), Lookup(d.downtime, user),
         Lookup(d.override, user), Lookup(d.until, user), Lookup(d.enabled, user))
  }

  ghost predicate ViewOk(v: View, leftover: bool, now: int) {
    match v.row
    case None =>
      v.dns.None? && v.downtime.None? && v.override.None? && v.enabled.None? && (v.until.Some? ==> leftover)
    case Some(row) =>
      && v.dns == (if row.dnsServer == "" then None else Some(DnsEntry(row.dnsServer, row.dnsProtocol)))
      && v.downtime == (if row.schedule == map[] then None else Some(row.schedule))
      && v.enabled == Some(row.enabled)
      && DeadlineOk(v.override, row.overrideUntil, now)
      && (!leftover ==> DeadlineOk(v.until, row.downtimeUntil, now))
  }

  ghost predicate Coherent(t: Traced) {
    forall u :: ViewOk(ViewOf(t.db, u), u in t.leftover, t.now)
  }

  lemma StoredExact(seconds: int)
    ensures Stored(seconds * SECOND) == seconds
  {}

  lemma OpenView(rows: Table, now: int, u: string)
    ensures ViewOk(ViewOf(Open(rows, now), u), false, now)
  {
    if u in rows {
      if rows[u].overrideUntil.Some? {
        StoredExact(rows[u].overrideUntil.value);
      }
      if rows[u].downtimeUntil.Some? {
        StoredExact(rows[u].downtimeUntil.value);
      }
    }
  }

  lemma OpenCoherent(rows: Table, now: int)
    ensures Coherent(Traced(Open(rows, now), now, {}))
  {
    forall u
      ensures ViewOk(ViewOf(Open(rows, now), u), false, now)
    {
      OpenView(rows, now, u);
    }
  }

  /** The user an operation is about; a check or a restart is about none in particular. */
  predicate About(op: Op, u: string) {
    match op
    case Check(header, _) => Parse(header).Credentials? && Parse(header).user == u
    case Reopen => true
    case _ => op.user == u
  }

  lemma EditOthers(d: Db, user: string, edit: Edit, u: string)
    requires u != user
    ensures ViewOf(ApplyChange(d, user, edit).0, u) == ViewOf(d, u)
  {}

  lemma OthersUntouched(t: Traced, op: Op, elapsed: nat, u: string)
    requires !About(op, u)
    ensures ViewOf(Step(t, op, elapsed).db, u) == ViewOf(t.db, u)
    ensures u in Step(t, op, elapsed).leftover <==> u in t.leftover
  {
    match op {
      case Change(user, edit) => EditOthers(t.db, user, edit, u);
      case Add(_, _, _, _, _) =>
      case Delete(_) =>
      case ChangePassword(_, _, _) =>
      case Check(_, _) =>
    }
  }

  lemma EditView(t: Traced, user: string, edit: Edit)
    requires ViewOk(ViewOf(t.db, user), user in t.leftover, t.now)
    ensures ViewOk(ViewOf(Step(t, Change(user, edit), 0).db, user), user in Step(t, Change(user, edit), 0).leftover, t.now)
  {}

  lemma CheckView(t: Traced, op: Op, elapsed: nat, user: string)
    requires op.Check? && ViewOk(ViewOf(t.db, user), user in t.leftover, t.now + elapsed)
    ensures ViewOk(ViewOf(Step(t, op, elapsed).db, user), user in t.leftover, t.now + elapsed)
  {}

  lemma UserView(t: Traced, op: Op, user: string)
    requires (op.Add? || op.Delete? || op.ChangePassword?) && op.user == user
    requires ViewOk(ViewOf(t.db, user), user in t.leftover, t.now)
    ensures ViewOk(ViewOf(Step(t, op, 0).db, user), user in Step(t, op, 0).leftover, t.now)
  {}

  lemma StepView(t: Traced, op: Op, elapsed: nat, u: string)
    requires ViewOk(ViewOf(t.db, u), u in t.leftover, t.now)
    ensures var t' := Step(t, op, elapsed); ViewOk(ViewOf(t'.db, u), u in t'.leftover, t'.now)
  {
    var later := t.(now := t.now + elapsed);
    assert ViewOk(ViewOf(later.db, u), u in later.leftover, later.now);
    if !About(op, u) {
      OthersUntouched(t, op, elapsed, u);
    } else {
      match op {
        case Change(user, edit) => EditView(later, user, edit);
        case Check(_, _) => CheckView(t, op, elapsed, u);
        case Reopen => OpenView(t.db.rows, later.now, u);
        case _ => UserView(later, op, u);
      }
    }
  }

  lemma StepCoherent(t: Traced, op: Op, elapsed: nat)
    requires Coherent(t)
    ensures Coherent(Step(t, op, elapsed))
  {
    forall u {
      StepView(t, op, elapsed, u);
    }
  }

  lemma {:induction false} RunCoherent(t: Traced, events: seq<Event>)
    requires Coherent(t)
    ensures Coherent(Run(t, events))
    decreases events
  {
    if events != [] {
      StepCoherent(t, events[0].op, events[0].elapsed);
      RunCoherent(Step(t, events[0].op, events[0].elapsed), events[1..]);
    }
  }

  // ---------------------------------------------------------------- what the caches answer

  /** The table's own answers. */
  function TableDns(rows: Table, u: string): DnsEntry {
    if u in rows && rows[u].dnsServer != "" then DnsEntry(rows[u].dnsServer, rows[u].dnsProtocol) else DnsEntry("", "")
  }

  predicate TableEnabled(rows: Table, u: string) {
    u in rows && rows[u].enabled
  }

  function TableSchedule(rows: Table, u: string): Schedule {
    if u in rows then rows[u].schedule else map[]
  }

  function Nanos(stored: Option<int>): Option<int> {
    match stored
    case Some(seconds) => Some(seconds * SECOND)
    case None => None
  }

  predicate TableDowntime(rows: Table, u: string, now: int) {
    u in rows && Decide(Nanos(rows[u].downtimeUntil), Nanos(rows[u].overrideUntil), rows[u].schedule, now)
  }

  /** now is in the last, not stored, fraction of a second before the deadline. */
  predicate InFraction(deadline: Option<int>, now: int) {
    deadline.Some? && Stored(deadline.value) * SECOND <= now < deadline.value
  }

  ghost predicate Reachable(t: Traced) {
    exists rows: Table, start: int, events: seq<Event> :: t == Run(Traced(Open(rows, start), start, {}), events)
  }

  lemma ReachableCoherent(t: Traced)
    requires Reachable(t)
    ensures Coherent(t)
  {
    var rows: Table, start: int, events: seq<Event> :| t == Run(Traced(Open(rows, start), start, {}), events);
    OpenCoherent(rows, start);
    RunCoherent(Traced(Open(rows, start), start, {}), events);
  }

  /** After every run the DNS, schedule and enabled caches answer for every user, known or
      not, exactly as the table would. */
  lemma CoherenceTheorem(t: Traced, u: string)
    requires Reachable(t)
    ensures GetDns(t.db, u) == TableDns(t.db.rows, u)
    ensures IsEnabled(t.db, u) == TableEnabled(t.db.rows, u)
    ensures GetDowntime(t.db, u) == TableSchedule(t.db.rows, u)
  {
    ReachableCoherent(t);
    assert ViewOk(ViewOf(t.db, u), u in t.leftover, t.now);
  }

  /** A deadline read back from the table holds exactly as long as the cached one, but for
      the fraction of a second that was not stored. */
  lemma DeadlineAgrees(cached: Option<int>, stored: Option<int>, now: int, later: int)
    requires DeadlineOk(cached, stored, now) && now <= later
    ensures Before(later, cached) <==> Before(later, Nanos(stored)) || InFraction(cached, later)
    ensures !(Before(later, Nanos(stored)) && InFraction(cached, later))
  {}

  /** Exactly when the caches and the table disagree about downtime, for a user without a
      leftover deadline: only inside the fraction of a second that the table does not
      store, and there only if that fraction decides. */
  lemma DowntimeTheorem(t: Traced, u: string, later: int)
    requires Reachable(t) && u !in t.leftover && t.now <= later
    ensures var blocked := GetDowntime(t.db, u) != map[] && Scheduled(GetDowntime(t.db, u), later);
            var override := Before(later, Deadline(t.db.override, u)) && !InFraction(Deadline(t.db.override, u), later);
            var adHoc := Before(later, Deadline(t.db.until, u));
            InDowntime(t.db, u, later) != TableDowntime(t.db.rows, u, later) <==>
              || (InFraction(Deadline(t.db.until, u), later) && !(blocked && !override))
              || (!adHoc && InFraction(Deadline(t.db.override, u), later) && blocked)
  {
    ReachableCoherent(t);
    var v := ViewOf(t.db, u);
    assert ViewOk(v, false, t.now);
    if u in t.db.rows {
      DeadlineAgrees(v.override, t.db.rows[u].overrideUntil, t.now, later);
      DeadlineAgrees(v.until, t.db.rows[u].downtimeUntil, t.now, later);
    }
  }

  lemma OpenedDowntime(rows: Table, now: int, u: string, later: int)
    requires now <= later
    ensures InDowntime(Open(rows, now), u, later) == TableDowntime(rows, u, later)
  {
    var v := ViewOf(Open(rows, now), u);
    OpenView(rows, now, u);
    if u in rows {
      DeadlineAgrees(v.override, rows[u].overrideUntil, now, later);
      DeadlineAgrees(v.until, rows[u].downtimeUntil, now, later);
    }
  }

  lemma OpenedSettings(rows: Table, now: int, u: string)
    ensures GetDns(Open(rows, now), u) == TableDns(rows, u)
    ensures IsEnabled(Open(rows, now), u) == TableEnabled(rows, u)
    ensures GetDowntime(Open(rows, now), u) == TableSchedule(rows, u)
  {
    OpenView(rows, now, u);
  }

  /** A restart answers as the table does, so closing and reopening the database changes the
      answer for a user only where DowntimeTheorem says that cache and table disagree. */
  lemma RestartTheorem(t: Traced, elapsed: nat, u: string, later: int)
    requires Reachable(t) && t.now + elapsed <= later
    ensures var t' := Step(t, Reopen, elapsed);
            && InDowntime(t'.db, u, later) == TableDowntime(t.db.rows, u, later)
            && GetDns(t'.db, u) == GetDns(t.db, u) && IsEnabled(t'.db, u) == IsEnabled(t.db, u)
            && GetDowntime(t'.db, u) == GetDowntime(t.db, u)
  {
    CoherenceTheorem(t, u);
    OpenedSettings(t.db.rows, t.now + elapsed, u);
    OpenedDowntime(t.db.rows, t.now + elapsed, u, later);
  }

  /** Deleting a user leaves the ad-hoc deadline cached. Recreated under the same name, the
      user is in downtime exactly as long as that deadline is ahead, though the new row
      knows of no downtime at all. */
  lemma RecreatedUserDowntime(t: Traced, user: string, add: Op, later: int)
    requires Reachable(t) && user in t.db.rows && add.Add? && add.user == user
    ensures var t' := Step(Step(t, Delete(user), 0), add, 0);
            user in t'.db.rows ==>
              && !TableDowntime(t'.db.rows, user, later)
              && (InDowntime(t'.db, user, later) <==> Before(later, Deadline(t.db.until, user)))
  {
    ReachableCoherent(t);
    assert ViewOk(ViewOf(t.db, user), user in t.leftover, t.now);
  }
}
