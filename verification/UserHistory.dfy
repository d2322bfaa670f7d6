/** What the database holds after any history, read off the operations and their replies. */
module UserHistory {
  import opened Options
  import opened Downtime
  import opened UserTable
  import opened AuthTransparency

  /** What an operation, given its reply, does to one thing known about one user. */
  datatype Effect<V> = Keep | Set(value: V) | Forget

  /** The latest value set and not forgotten since. */
  function Latest<V>(initial: Option<V>, effect: (Op, Reply) -> Effect<V>, events: seq<Event>, replies: seq<Reply>): Option<V>
    requires |events| == |replies|
  {
    if events == [] then initial
    else
      var n := |events| - 1;
      match effect(events[n].op, replies[n])
      case Keep => Latest(initial, effect, events[..n], replies[..n])
      case Set(value) => Some(value)
      case Forget => None
  }

  function StateAfter(d: Db, events: seq<Event>): Db {
    if events == [] then d
    else
      var n := |events| - 1;
      Apply(StateAfter(d, events[..n]), events[n].op, events[n].now).0
  }

  lemma {:induction false} StateFirst(d: Db, events: seq<Event>)
    requires events != []
    ensures StateAfter(d, events) == StateAfter(Apply(d, events[0].op, events[0].now).0, events[1..])
  {
    var n := |events| - 1;
    if n > 0 {
      StateFirst(d, events[..n]);
      assert events[..n][1..] == events[1..][..n - 1];
    }
  }

  lemma {:induction false} ReplyAt(d: Db, events: seq<Event>, i: nat)
    requires i < |events|
    ensures |Replies(d, events)| == |events|
    ensures Replies(d, events)[i] == Apply(StateAfter(d, events[..i]), events[i].op, events[i].now).1
    decreases events
  {
    var d' := Apply(d, events[0].op, events[0].now).0;
    RepliesLength(d', events[1..]);
    if i > 0 {
      ReplyAt(d', events[1..], i - 1);
      StateFirst(d, events[..i]);
      assert events[..i][1..] == events[1..][..i - 1];
    }
  }

  lemma {:induction false} RepliesLength(d: Db, events: seq<Event>)
    ensures |Replies(d, events)| == |events|
    decreases events
  {
    if events != [] {
      RepliesLength(Apply(d, events[0].op, events[0].now).0, events[1..]);
    }
  }

  /** Replies to the first events do not depend on later ones. */
  lemma RepliesPrefix(d: Db, events: seq<Event>, n: nat)
    requires n <= |events|
    ensures |Replies(d, events)| == |events| && Replies(d, events[..n]) == Replies(d, events)[..n]
  {
    RepliesLength(d, events);
    RepliesLength(d, events[..n]);
    forall i | 0 <= i < n
      ensures Replies(d, events[..n])[i] == Replies(d, events)[i]
    {
      ReplyAt(d, events, i);
      ReplyAt(d, events[..n], i);
      assert events[..n][..i] == events[..i];
    }
  }

  /** The effect tells what one operation does to the thing. */
  ghost predicate Tells<V>(known: Db -> Option<V>, effect: (Op, Reply) -> Effect<V>, d: Db, op: Op, now: int) {
    var (d', reply) := Apply(d, op, now);
    match effect(op, reply)
    case Keep => known(d') == known(d)
    case Set(value) => known(d') == Some(value)
    case Forget => known(d') == None
  }

  lemma {:induction false} LatestIsKnown<V>(known: Db -> Option<V>, effect: (Op, Reply) -> Effect<V>, d: Db, events: seq<Event>)
    requires forall d: Db, op, now :: Tells(known, effect, d, op, now)
    ensures |Replies(d, events)| == |events|
    ensures known(StateAfter(d, events)) == Latest(known(d), effect, events, Replies(d, events))
  {
    RepliesLength(d, events);
    if events != [] {
      var n := |events| - 1;
      LatestIsKnown(known, effect, d, events[..n]);
      RepliesPrefix(d, events, n);
      ReplyAt(d, events, n);
      assert Tells(known, effect, StateAfter(d, events[..n]), events[n].op, events[n].now);
    }
  }

  // ---------------------------------------------------------------- passwords

  /** Add and ChangePassword set the password, Delete forgets it. */
  function PasswordEffect(u: string): (Op, Reply) -> Effect<string> {
    (op: Op, reply: Reply) =>
      if op.Add? && op.user == u && reply.Port? then Set(op.password)
      else if op.ChangePassword? && op.user == u && reply == Done then Set(op.password)
      else if op.Delete? && op.user == u && reply == Done then Forget
      else Keep
  }

  function KnownPassword(u: string): Db -> Option<string> {
    (d: Db) => if u in d.rows && d.rows[u].hash.Argon? then Some(d.rows[u].hash.password) else None
  }

  lemma CheckTells(u: string, d: Db, given: Credentials, hashing: Option<int>, now: int)
    ensures KnownPassword(u)(CheckCredentials(d, given, hashing, now).0) == KnownPassword(u)(d)
  {}

  lemma EditTells(u: string, d: Db, user: string, edit: Edit)
    ensures KnownPassword(u)(ApplyChange(d, user, edit).0) == KnownPassword(u)(d)
  {}

  lemma ChangePasswordTells(u: string, d: Db, user: string, password: string, hashing: Option<int>)
    ensures var (d', reply) := ApplyChangePassword(d, user, password, hashing);
            KnownPassword(u)(d') == if u == user && reply == Done then Some(password) else KnownPassword(u)(d)
  {}

  lemma PasswordTells(u: string, d: Db, op: Op, now: int)
    ensures Tells(KnownPassword(u), PasswordEffect(u), d, op, now)
  {
    match op {
      case Check(header, hashing) => CheckTells(u, d, Parse(header), hashing, now);
      case Change(user, edit) => EditTells(u, d, user, edit);
      case ChangePassword(user, password, hashing) => ChangePasswordTells(u, d, user, password, hashing);
      case _ =>
    }
  }

  lemma {:induction false} AuthInvAfter(d: Db, events: seq<Event>)
    requires AuthInv(d)
    ensures AuthInv(StateAfter(d, events))
  {
    if events != [] {
      var n := |events| - 1;
      var before := StateAfter(d, events[..n]);
      var Event(op, now) := events[n];
      AuthInvAfter(d, events[..n]);
      if op.Check? {
        CheckKeeps(before, before, op.header, op.hashing, now);
      } else {
        PlainStep(before, before, op, now);
      }
    }
  }

  /** Over every history from an opened table, with any clock, a password is accepted for a
      user exactly if it is the one that the latest successful Add or ChangePassword gave since
      any deletion, or else the one that the table was opened with. */
  lemma PasswordTheorem(rows: Table, start: int, events: seq<Event>, i: nat, u: string, p: string)
    requires i < |events| && events[i].op.Check? && Parse(events[i].op.header) == Credentials(u, p)
    ensures var d := Open(rows, start);
            var replies := Replies(d, events);
            && |replies| == |events|
            && (replies[i] == User(u) <==> Latest(KnownPassword(u)(d), PasswordEffect(u), events[..i], replies[..i]) == Some(p))
            && (replies[i] == User(u) || replies[i] == Fail(WrongPassword) || replies[i] == Fail(UnknownUser))
  {
    var d := Open(rows, start);
    var before := StateAfter(d, events[..i]);
    ReplyAt(d, events, i);
    RepliesPrefix(d, events, i);
    forall d: Db, op, now
      ensures Tells(KnownPassword(u), PasswordEffect(u), d, op, now)
    {
      PasswordTells(u, d, op, now);
    }
    LatestIsKnown(KnownPassword(u), PasswordEffect(u), d, events[..i]);
    AuthInvAfter(d, events[..i]);
    CheckReply(before, before, events[i].op.header, events[i].op.hashing, events[i].now);
  }

  /** A check that the cache does not answer leaves a hash of today's parameters, if hashing
      works; no operation ever turns a current hash into an old one. */
  lemma RehashTheorem(d: Db, header: Header, hashing: Option<int>, now: int)
    ensures var (d', reply) := ApplyCheck(d, header, hashing, now);
            reply.User? && reply.name in d.rows && d.rows[reply.name].hash.Argon? ==>
              d'.rows[reply.name].hash.Argon? &&
              (d'.rows[reply.name].hash.current <==>
                 d.rows[reply.name].hash.current ||
                 (hashing.Some? && !(reply.name in d.auth && now < d.auth[reply.name].validUntil)))
  {}

  /** A check that verified the password answers that user's checks for exactly five minutes:
      until then they touch nothing, and after that they verify and, if need be, rehash. */
  lemma RememberedTheorem(d: Db, user: string, password: string, hashing: Option<int>, now: int,
                          again: Credentials, rehashing: Option<int>, later: int)
    requires AuthInv(d) && !(user in d.auth && now < d.auth[user].validUntil)
    requires CheckCredentials(d, Credentials(user, password), hashing, now).1 == User(user)
    requires again.Credentials? && again.user == user
    ensures var d' := CheckCredentials(d, Credentials(user, password), hashing, now).0;
            && (later - now < 300_000_000_000 ==> CheckCredentials(d', again, rehashing, later).0 == d')
            && (later - now >= 300_000_000_000 && again.password == password && rehashing.Some? ==>
                  var d'' := CheckCredentials(d', again, rehashing, later).0;
                  user in d''.rows && d''.rows[user].hash.Argon? && d''.rows[user].hash.current)
  {}

  // ---------------------------------------------------------------- settings

  /** A user's settings as the table holds them; deadlines in whole seconds. */
  function Known<V>(u: string, column: Row -> V): Db -> Option<V> {
    (d: Db) => if u in d.rows then Some(column(d.rows[u])) else None
  }

  /** Add sets a column to its initial value, a successful change of that column sets it to
      the value given, Delete forgets it. */
  function ColumnEffect<V>(u: string, initial: V, given: Edit -> Option<V>): (Op, Reply) -> Effect<V> {
    (op: Op, reply: Reply) =>
      if op.Add? && op.user == u && reply.Port? then Set(initial)
      else if op.Change? && op.user == u && reply == Done && given(op.edit).Some? then Set(given(op.edit).value)
      else if op.Delete? && op.user == u && reply == Done then Forget
      else Keep
  }

  function EnabledColumn(): Row -> bool { (r: Row) => r.enabled }
  function EnabledGiven(): Edit -> Option<bool> { (e: Edit) => if e.Enable? then Some(e.on) else None }

  function DnsColumn(): Row -> DnsEntry { (r: Row) => DnsEntry(r.dnsServer, r.dnsProtocol) }
  function DnsGiven(): Edit -> Option<DnsEntry> {
    (e: Edit) => if e.Dns? then Some(DnsEntry(e.server, e.protocol)) else None
  }

  function ScheduleColumn(): Row -> Schedule { (r: Row) => r.schedule }
  function ScheduleGiven(): Edit -> Option<Schedule> { (e: Edit) => if e.Downtime? then Some(e.schedule) else None }

  function OverrideColumn(): Row -> Option<int> { (r: Row) => r.overrideUntil }
  function OverrideGiven(): Edit -> Option<Option<int>> {
    (e: Edit) => if e.Override? then Some(Some(e.deadline / 1_000_000_000)) else if e.NoOverride? then Some(None) else None
  }

  function UntilColumn(): Row -> Option<int> { (r: Row) => r.downtimeUntil }
  function UntilGiven(): Edit -> Option<Option<int>> {
    (e: Edit) => if e.Until? then Some(Some(e.deadline / 1_000_000_000)) else if e.NoUntil? then Some(None) else None
  }

  /** The column's initial value, and which edits set it to what. */
  ghost predicate IsColumn<V(!new)>(column: Row -> V, initial: V, given: Edit -> Option<V>) {
    && (forall password: string, salt: int, port: int :: column(NewRow(password, salt, port)) == initial)
    && (forall row: Row, hash: Hash :: column(row.(hash := hash)) == column(row))
    && (forall row: Row, edit: Edit :: column(Edited(row, edit)) == if given(edit).Some? then given(edit).value else column(row))
  }

  lemma EnabledIsColumn()
    ensures IsColumn(EnabledColumn(), true, EnabledGiven())
  {}

  lemma DnsIsColumn()
    ensures IsColumn(DnsColumn(), DnsEntry("", ""), DnsGiven())
  {}

  lemma ScheduleIsColumn()
    ensures IsColumn(ScheduleColumn(), map[], ScheduleGiven())
  {}

  lemma OverrideIsColumn()
    ensures IsColumn(OverrideColumn(), None, OverrideGiven())
  {}

  lemma UntilIsColumn()
    ensures IsColumn(UntilColumn(), None, UntilGiven())
  {}

  lemma CheckColumn<V>(u: string, column: Row -> V, d: Db, given: Credentials, hashing: Option<int>, now: int)
    requires forall row: Row, hash: Hash :: column(row.(hash := hash)) == column(row)
    ensures Known(u, column)(CheckCredentials(d, given, hashing, now).0) == Known(u, column)(d)
  {}

  lemma ColumnTells<V(!new)>(u: string, column: Row -> V, initial: V, given: Edit -> Option<V>, d: Db, op: Op, now: int)
    requires IsColumn(column, initial, given)
    ensures Tells(Known(u, column), ColumnEffect(u, initial, given), d, op, now)
  {
    match op {
      case Check(header, hashing) => CheckColumn(u, column, d, Parse(header), hashing, now);
      case _ =>
    }
  }

  /** Over every history each setting of a user in the table is what the latest successful
      operation on it gave, or its initial value since the user was added, or else what the
      table was opened with. */
  lemma SettingTheorem<V(!new)>(column: Row -> V, initial: V, given: Edit -> Option<V>, d: Db, events: seq<Event>, u: string)
    requires IsColumn(column, initial, given)
    ensures |Replies(d, events)| == |events|
    ensures Known(u, column)(StateAfter(d, events))
            == Latest(Known(u, column)(d), ColumnEffect(u, initial, given), events, Replies(d, events))
  {
    forall d: Db, op, now
      ensures Tells(Known(u, column), ColumnEffect(u, initial, given), d, op, now)
    {
      ColumnTells(u, column, initial, given, d, op, now);
    }
    LatestIsKnown(Known(u, column), ColumnEffect(u, initial, given), d, events);
  }

  function PortColumn(): Row -> int { (r: Row) => r.port }

  /** Add sets the port to the one it answers, a successful assignment to the one given. */
  function PortEffect(u: string): (Op, Reply) -> Effect<int> {
    (op: Op, reply: Reply) =>
      if op.Add? && op.user == u && reply.Port? then Set(reply.port)
      else if op.Change? && op.user == u && reply == Done && op.edit.AssignPort? then Set(op.edit.port)
      else if op.Delete? && op.user == u && reply == Done then Forget
      else Keep
  }

  lemma PortTells(u: string, d: Db, op: Op, now: int)
    ensures Tells(Known(u, PortColumn()), PortEffect(u), d, op, now)
  {
    match op {
      case Check(header, hashing) => CheckColumn(u, PortColumn(), d, Parse(header), hashing, now);
      case _ =>
    }
  }

  /** Likewise a user's port. */
  lemma PortTheorem(d: Db, events: seq<Event>, u: string)
    ensures |Replies(d, events)| == |events|
    ensures Known(u, PortColumn())(StateAfter(d, events))
            == Latest(Known(u, PortColumn())(d), PortEffect(u), events, Replies(d, events))
  {
    forall d: Db, op, now
      ensures Tells(Known(u, PortColumn()), PortEffect(u), d, op, now)
    {
      PortTells(u, d, op, now);
    }
    LatestIsKnown(Known(u, PortColumn()), PortEffect(u), d, events);
  }

  /** An operation on a user succeeds exactly if there is such a user, and Add exactly if there
      is none, a free port, and nothing left empty. */
  lemma RepliesTheorem(d: Db, op: Op, now: int)
    ensures op.Change? || op.Delete? ==> Apply(d, op, now).1 == if op.user in d.rows then Done else Fail(UnknownUser)
    ensures op.ChangePassword? ==>
              Apply(d, op, now).1 == if op.password == "" then Fail(EmptyField)
                                     else if op.hashing.None? then Fail(HashingFailed)
                                     else if op.user in d.rows then Done else Fail(UnknownUser)
    ensures op.Add? ==>
              (Apply(d, op, now).1.Port? <==>
                 && op.user != "" && op.password != "" && op.hashing.Some? && op.user !in d.rows
                 && exists p :: op.min <= p <= op.max && !PortUsed(d.rows, p))
  {
    if op.Add? {
      var free := FirstFree(UsedPorts(d.rows), op.min, op.max);
      if free.Some? {
        assert !PortUsed(d.rows, free.value);
      }
    }
  }
}
