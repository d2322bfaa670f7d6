/** Checking a password: whatever happens to the users and however the clock moves, the
    five-minute cache and the silent rehashing never show in an answer. */
module AuthTransparency {
  import opened Options
  import opened UserTable

  /** The answer straight from the table. */
  function DirectCheck(rows: Table, header: Header): Reply {
    match Parse(header)
    case NotGiven => Fail(NoCredentials)
    case Malformed => Fail(MalformedAuth)
    case Credentials(user, password) =>
      if user !in rows then Fail(UnknownUser)
      else if Verifies(password, rows[user].hash) then User(user)
      else Fail(WrongPassword)
  }

  /** A database that answers every check from the table and never rewrites a hash for it. */
  function PlainApply(d: Db, op: Op, now: int): (Db, Reply) {
    if op.Check? then (d, DirectCheck(d.rows, op.header)) else Apply(d, op, now)
  }

  datatype Event = Event(op: Op, now: int)

  function Replies(d: Db, events: seq<Event>): seq<Reply>
    decreases events
  {
    if events == [] then []
    else
      var (d', reply) := Apply(d, events[0].op, events[0].now);
      [reply] + Replies(d', events[1..])
  }

  function PlainReplies(d: Db, events: seq<Event>): seq<Reply>
    decreases events
  {
    if events == [] then []
    else
      var (d', reply) := PlainApply(d, events[0].op, events[0].now);
      [reply] + PlainReplies(d', events[1..])
  }

  /** What the auth cache remembers still verifies against the table. */
  ghost predicate AuthInv(d: Db) {
    forall u <- d.auth :: u in d.rows && Verifies(d.auth[u].password, d.rows[u].hash)
  }

  /** Equal but for the salts and parameters of the hashes, and the auth cache. */
  ghost predicate Similar(d: Db, p: Db) {
    SameRows(d.rows, p.rows) && SameCaches(d, p)
  }

  ghost predicate SameRows(rows: Table, rows': Table) {
    rows.Keys == rows'.Keys && forall u <- rows :: SameRow(rows[u], rows'[u])
  }

  ghost predicate SameCaches(d: Db, p: Db) {
    && d.dns == p.dns && d.downtime == p.downtime && d.override == p.override
    && d.until == p.until && d.enabled == p.enabled
  }

  function PasswordOf(hash: Hash): Option<string> {
    if hash.Argon? then Some(hash.password) else None
  }

  ghost predicate SameRow(r: Row, q: Row) {
    r.(hash := Unreadable) == q.(hash := Unreadable) && PasswordOf(r.hash) == PasswordOf(q.hash)
  }

  lemma SimilarPorts(d: Db, p: Db)
    requires Similar(d, p)
    ensures UsedPorts(d.rows) == UsedPorts(p.rows)
  {
    forall port
      ensures PortUsed(d.rows, port) <==> PortUsed(p.rows, port)
    {
      if u :| u in d.rows && d.rows[u].port == port {
        assert p.rows[u].port == port;
      }
      if u :| u in p.rows && p.rows[u].port == port {
        assert d.rows[u].port == port;
      }
    }
    assert forall port :: port in UsedPorts(d.rows) <==> port in UsedPorts(p.rows);
  }

  lemma SimilarSettings(rows: Table, rows': Table)
    requires SameRows(rows, rows')
    ensures LoadedDns(rows) == LoadedDns(rows') && LoadedDowntime(rows) == LoadedDowntime(rows')
    ensures LoadedEnabled(rows) == LoadedEnabled(rows')
  {
    assert forall u :: u in rows <==> u in rows';
  }

  lemma SimilarDeadlines(rows: Table, rows': Table, now: int)
    requires SameRows(rows, rows')
    ensures LoadedOverride(rows, now) == LoadedOverride(rows', now)
    ensures LoadedUntil(rows, now) == LoadedUntil(rows', now)
  {
    assert forall u :: u in rows <==> u in rows';
  }

  lemma SimilarOpen(d: Db, p: Db, now: int)
    requires Similar(d, p)
    ensures Similar(Open(d.rows, now), Open(p.rows, now))
  {
    SimilarSettings(d.rows, p.rows);
    SimilarDeadlines(d.rows, p.rows, now);
  }

  lemma CheckReply(d: Db, p: Db, header: Header, hashing: Option<int>, now: int)
    requires AuthInv(d) && Similar(d, p)
    ensures ApplyCheck(d, header, hashing, now).1 == DirectCheck(p.rows, header)
  {
    if Parse(header).Credentials? && Parse(header).user in d.rows {
      assert SameRow(d.rows[Parse(header).user], p.rows[Parse(header).user]);
    }
  }

  /** A rewritten hash of the same password. */
  lemma Refreshed(rows: Table, rows': Table, user: string, hash: Hash)
    requires SameRows(rows, rows') && user in rows && PasswordOf(hash) == PasswordOf(rows[user].hash)
    ensures SameRows(rows[user := rows[user].(hash := hash)], rows')
  {}

  lemma CheckKeeps(d: Db, p: Db, header: Header, hashing: Option<int>, now: int)
    requires AuthInv(d) && Similar(d, p)
    ensures var d' := ApplyCheck(d, header, hashing, now).0; AuthInv(d') && Similar(d', p)
  {
    var d' := ApplyCheck(d, header, hashing, now).0;
    if d' != d {
      var Credentials(user, password) := Parse(header);
      Refreshed(d.rows, p.rows, user, d'.rows[user].hash);
    }
  }

  /** A check keeps what the cache remembers verified, and the users the same. */
  lemma CheckKeepsInv(d: Db, header: Header, hashing: Option<int>, now: int)
    requires AuthInv(d)
    ensures AuthInv(ApplyCheck(d, header, hashing, now).0)
    ensures ApplyCheck(d, header, hashing, now).0.rows.Keys == d.rows.Keys
  {
    CheckKeeps(d, d, header, hashing, now);
  }

  /** A check changes no answer to another. */
  lemma CheckChangesNoAnswer(d: Db, header: Header, hashing: Option<int>, now: int, other: Header)
    requires AuthInv(d)
    ensures DirectCheck(ApplyCheck(d, header, hashing, now).0.rows, other) == DirectCheck(d.rows, other)
  {
    CheckKeeps(d, d, header, hashing, now);
    var rows := ApplyCheck(d, header, hashing, now).0.rows;
    if Parse(other).Credentials? && Parse(other).user in rows {
      SameAnswer(rows, d.rows, Parse(other));
    }
  }

  lemma SameAnswer(rows: Table, rows': Table, given: Credentials)
    requires SameRows(rows, rows') && given.Credentials? && given.user in rows
    ensures Verifies(given.password, rows[given.user].hash) <==> Verifies(given.password, rows'[given.user].hash)
  {
    assert SameRow(rows[given.user], rows'[given.user]);
  }

  /** Rewriting one row alike on both sides. */
  lemma UpdateRows(rows: Table, rows': Table, user: string, r: Row, q: Row)
    requires SameRows(rows, rows') && SameRow(r, q)
    ensures SameRows(rows[user := r], rows'[user := q])
  {}

  lemma AddReply(d: Db, p: Db, op: Op)
    requires Similar(d, p) && op.Add?
    ensures Apply(d, op, 0).1 == Apply(p, op, 0).1
    ensures !Apply(d, op, 0).1.Port? ==> Apply(d, op, 0).0 == d && Apply(p, op, 0).0 == p
  {
    SimilarPorts(d, p);
  }

  lemma Added(d: Db, op: Op)
    requires op.Add? && Apply(d, op, 0).1.Port?
    ensures op.hashing.Some? && op.user !in d.rows
    ensures var row := NewRow(op.password, op.hashing.value, Apply(d, op, 0).1.port);
            Apply(d, op, 0).0 == d.(rows := d.rows[op.user := row], enabled := d.enabled[op.user := true])
  {}

  lemma AddStep(d: Db, p: Db, op: Op)
    requires AuthInv(d) && Similar(d, p) && op.Add?
    ensures AuthInv(Apply(d, op, 0).0) && Similar(Apply(d, op, 0).0, Apply(p, op, 0).0)
    ensures Apply(d, op, 0).1 == Apply(p, op, 0).1
  {
    var reply := Apply(d, op, 0).1;
    AddReply(d, p, op);
    if reply.Port? {
      Added(d, op);
      Added(p, op);
      var row := NewRow(op.password, op.hashing.value, reply.port);
      UpdateRows(d.rows, p.rows, op.user, row, row);
    }
  }

  lemma DeleteStep(d: Db, p: Db, user: string)
    requires AuthInv(d) && Similar(d, p)
    ensures AuthInv(ApplyDelete(d, user).0) && Similar(ApplyDelete(d, user).0, ApplyDelete(p, user).0)
    ensures ApplyDelete(d, user).1 == ApplyDelete(p, user).1
  {
    assert Drop(d.rows, user).Keys == Drop(p.rows, user).Keys;
  }

  /** The new hash on both sides; the cache no longer vouches for the user. */
  lemma Rehashed(d: Db, p: Db, user: string, hash: Hash)
    requires AuthInv(d) && Similar(d, p) && user in d.rows
    ensures var d' := Updated(d, user, d.rows[user].(hash := hash)).(auth := Drop(d.auth, user));
            var p' := Updated(p, user, p.rows[user].(hash := hash)).(auth := Drop(p.auth, user));
            AuthInv(d') && Similar(d', p')
  {
    UpdateRows(d.rows, p.rows, user, d.rows[user].(hash := hash), p.rows[user].(hash := hash));
  }

  lemma ChangePasswordStep(d: Db, p: Db, user: string, password: string, hashing: Option<int>)
    requires AuthInv(d) && Similar(d, p)
    ensures AuthInv(ApplyChangePassword(d, user, password, hashing).0)
    ensures Similar(ApplyChangePassword(d, user, password, hashing).0, ApplyChangePassword(p, user, password, hashing).0)
    ensures ApplyChangePassword(d, user, password, hashing).1 == ApplyChangePassword(p, user, password, hashing).1
  {
    if password != "" && hashing.Some? && user in d.rows {
      Rehashed(d, p, user, Argon(true, hashing.value, password));
    }
  }

  lemma RecachedSame(d: Db, p: Db, user: string, edit: Edit)
    requires SameCaches(d, p)
    ensures SameCaches(Recached(d, user, edit), Recached(p, user, edit))
  {}

  lemma ChangeStep(d: Db, p: Db, user: string, edit: Edit)
    requires AuthInv(d) && Similar(d, p)
    ensures AuthInv(ApplyChange(d, user, edit).0)
    ensures Similar(ApplyChange(d, user, edit).0, ApplyChange(p, user, edit).0)
    ensures ApplyChange(d, user, edit).1 == ApplyChange(p, user, edit).1
  {
    if user in d.rows {
      var r, q := d.rows[user], p.rows[user];
      RecachedSame(d, p, user, edit);
      EditedSame(r, q, edit);
      UpdateRows(d.rows, p.rows, user, Edited(r, edit), Edited(q, edit));
    }
  }

  lemma EditedSame(r: Row, q: Row, edit: Edit)
    requires SameRow(r, q)
    ensures SameRow(Edited(r, edit), Edited(q, edit)) && Edited(r, edit).hash == r.hash
  {}

  lemma PlainStep(d: Db, p: Db, op: Op, now: int)
    requires AuthInv(d) && Similar(d, p) && !op.Check?
    ensures AuthInv(Apply(d, op, now).0) && Similar(Apply(d, op, now).0, Apply(p, op, now).0)
    ensures Apply(d, op, now).1 == Apply(p, op, now).1
  {
    match op {
      case Add(_, _, _, _, _) => AddStep(d, p, op);
      case Delete(user) => DeleteStep(d, p, user);
      case ChangePassword(user, password, hashing) => ChangePasswordStep(d, p, user, password, hashing);
      case Change(user, edit) => ChangeStep(d, p, user, edit);
      case Reopen => SimilarOpen(d, p, now);
    }
  }

  /** Every history of operations gets the same replies as one in which each check verifies
      the password directly against the stored hash. */
  lemma {:induction false} TransparencyFrom(d: Db, p: Db, events: seq<Event>)
    requires AuthInv(d) && Similar(d, p)
    ensures Replies(d, events) == PlainReplies(p, events)
    decreases events
  {
    if events != [] {
      var Event(op, now) := events[0];
      if op.Check? {
        CheckReply(d, p, op.header, op.hashing, now);
        CheckKeeps(d, p, op.header, op.hashing, now);
      } else {
        PlainStep(d, p, op, now);
      }
      TransparencyFrom(Apply(d, op, now).0, PlainApply(p, op, now).0, events[1..]);
    }
  }

  lemma TransparencyTheorem(rows: Table, start: int, events: seq<Event>)
    ensures Replies(Open(rows, start), events) == PlainReplies(Open(rows, start), events)
  {
    TransparencyFrom(Open(rows, start), Open(rows, start), events);
  }
}
