/** What each admin action does to the listeners, the table and the user's downtime, said of
    the worlds before and after it. */
module PortActions {
  import opened Options
  import opened Downtime
  import opened UserTable
  import opened PortListeners

  // ---------------------------------------------------------------- servers

  /** Other users' servers stay as they were, and none is added. */
  ghost predicate OthersKeep(w: World, w': World, user: string) {
    && (forall q <- w.ports.servers :: w.ports.servers[q].owner != user ==>
          q in w'.ports.servers && w'.ports.servers[q] == w.ports.servers[q])
    && (forall q <- w'.ports.servers :: w'.ports.servers[q].owner != user ==>
          q in w.ports.servers && w.ports.servers[q] == w'.ports.servers[q])
  }

  /** The user has a server on the port, and nowhere else. */
  ghost predicate ListensOn(w: World, user: string, port: int) {
    && port in w.ports.servers && w.ports.servers[port].owner == user
    && forall q <- w.ports.servers :: w.ports.servers[q].owner == user ==> q == port
  }

  /** A server that already ran on the port is still the same one. */
  predicate Undisturbed(w: World, w': World, port: int) {
    port in w.ports.servers ==> port in w'.ports.servers && w'.ports.servers[port] == w.ports.servers[port]
  }

  // ---------------------------------------------------------------- downtime

  /** The user's schedule covers the instant. */
  ghost predicate ScheduleCovers(d: Db, user: string, now: int) {
    user in d.downtime && Covered(d.downtime[user], ((now - 259_200_000_000_000) / 60_000_000_000) % 10080)
  }

  predicate CachedAhead(deadlines: map<string, int>, user: string, now: int) {
    user in deadlines && now < deadlines[user]
  }

  /** Blocked by ad-hoc downtime, or by the schedule while no override runs. */
  ghost predicate Blocked(d: Db, user: string, now: int) {
    CachedAhead(d.until, user, now) || (!CachedAhead(d.override, user, now) && ScheduleCovers(d, user, now))
  }

  lemma CoveredNow(schedule: Schedule, now: int)
    ensures Covered(schedule, ((now - 259_200_000_000_000) / 60_000_000_000) % 10080) <==>
              schedule != map[] && Scheduled(schedule, now)
  {
    InstantTheorem(schedule, now);
  }

  lemma ScheduleCoversNow(d: Db, user: string, now: int)
    ensures ScheduleCovers(d, user, now) <==>
              GetDowntime(d, user) != map[] && Scheduled(GetDowntime(d, user), now)
  {
    if user in d.downtime {
      CoveredNow(d.downtime[user], now);
    }
  }

  lemma BlockedTheorem(d: Db, user: string, now: int)
    ensures InDowntime(d, user, now) <==> Blocked(d, user, now)
  {
    ScheduleCoversNow(d, user, now);
  }

  /** Which listeners are wanted, said directly of the caches. */
  lemma WantedTheorem(c: Config, d: Db, user: string, now: int)
    ensures WantedBy(c, d, now)(user) <==> c.mitm || (user in d.enabled && d.enabled[user] && !Blocked(d, user, now))
  {
    BlockedTheorem(d, user, now);
  }

  // ---------------------------------------------------------------- the actions

  predicate Known(w: World, user: string) { user != "" && user in w.db.rows }

  /** Enabling starts the user's listener, disabling stops it unless interception is on. */
  ghost predicate EnablingDone(c: Config, w: World, w': World, user: string, on: bool) {
    if !Known(w, user) then w' == w
    else
      var row := w.db.rows[user];
      && w'.db.rows == w.db.rows[user := row.(enabled := on)] && IsEnabled(w'.db, user) == on && OthersKeep(w, w', user)
      && (row.port > 0 && on ==> ListensOn(w', user, row.port) && Undisturbed(w, w', row.port))
      && (row.port > 0 && !on && !c.mitm ==> NoServerOf(w'.ports, user))
      && (row.port == 0 || (!on && c.mitm) ==> w'.ports == w.ports)
  }

  /** At the later instant the schedule is lifted if an override runs and is not over. */
  ghost predicate LiftedAt(d: Db, d': Db, user: string, runs: bool, end: int, later: int) {
    InDowntime(d', user, later) <==>
      CachedAhead(d.until, user, later) || (!(runs && later < end) && ScheduleCovers(d, user, later))
  }

  /** At the later instant the user is blocked if ad-hoc downtime runs and is not over. */
  ghost predicate BlockedUntil(d: Db, d': Db, user: string, runs: bool, end: int, later: int) {
    InDowntime(d', user, later) <==>
      (runs && later < end) || (!CachedAhead(d.override, user, later) && ScheduleCovers(d, user, later))
  }

  ghost predicate LiftPorts(w: World, w': World, user: string, minutes: int)
    requires user in w.db.rows
  {
    var row := w.db.rows[user];
    && OthersKeep(w, w', user)
    && (minutes > 0 && row.port > 0 ==> ListensOn(w', user, row.port) && Undisturbed(w, w', row.port))
    && (minutes <= 0 || row.port == 0 ==> w'.ports == w.ports)
  }

  /** An override of n minutes lifts the schedule for n minutes and starts the listener; one
      of none or fewer ends the override. */
  ghost predicate LiftDone(w: World, w': World, user: string, minutes: int) {
    if !Known(w, user) then w' == w
    else
      var row, runs, end := w.db.rows[user], minutes > 0, w.now + minutes * 60_000_000_000;
      && w'.db.rows == w.db.rows[user := row.(overrideUntil := if minutes > 0 then Some(end / 1_000_000_000) else None)]
      && (forall later :: LiftedAt(w.db, w'.db, user, runs, end, later)) && LiftPorts(w, w', user, minutes)
  }

  ghost predicate BlockPorts(c: Config, w: World, w': World, user: string, minutes: int)
    requires user in w.db.rows
  {
    var row := w.db.rows[user];
    && OthersKeep(w, w', user)
    && (minutes > 0 && row.port > 0 && !c.mitm ==> NoServerOf(w'.ports, user))
    && (minutes <= 0 && row.port > 0 && row.enabled ==> ListensOn(w', user, row.port) && Undisturbed(w, w', row.port))
    && (row.port == 0 || (if minutes > 0 then c.mitm else !row.enabled) ==> w'.ports == w.ports)
  }

  /** Ad-hoc downtime of n minutes blocks for n minutes, whatever else holds, and stops the
      listener unless interception is on; lifting it starts the listener of an enabled user. */
  ghost predicate DowntimeNowDone(c: Config, w: World, w': World, user: string, minutes: int) {
    if !Known(w, user) then w' == w
    else
      var row, runs, end := w.db.rows[user], minutes > 0, w.now + minutes * 60_000_000_000;
      && w'.db.rows == w.db.rows[user := row.(downtimeUntil := if minutes > 0 then Some(end / 1_000_000_000) else None)]
      && (forall later :: BlockedUntil(w.db, w'.db, user, runs, end, later)) && BlockPorts(c, w, w', user, minutes)
  }

  /** A move to zero or to a port in range that no one else holds closes the user's old
      listener and opens one on the new port; any other move changes nothing. */
  ghost predicate MoveDone(c: Config, w: World, w': World, user: string, port: int) {
    if !Known(w, user) || (port != 0 && (port < c.min || c.max < port || HeldByOther(w.db.rows, user, port)))
    then w'.db == w.db && w'.ports == w.ports
    else
      && w'.db.rows == w.db.rows[user := w.db.rows[user].(port := port)] && OthersKeep(w, w', user)
      && (port > 0 ==> ListensOn(w', user, port)) && (port == 0 ==> NoServerOf(w'.ports, user))
  }

  /** A new user is enabled, has the password given and the least free port, and listens there. */
  ghost predicate CreateDone(c: Config, w: World, w': World, user: string, password: string, hashing: Option<int>) {
    var free := exists p :: c.min <= p <= c.max && !PortUsed(w.db.rows, p);
    if user == "" || password == "" || hashing.None? || user in w.db.rows || !free then w' == w
    else
      && user in w'.db.rows && w'.db.rows.Keys == w.db.rows.Keys + {user}
      && (forall u <- w.db.rows :: w'.db.rows[u] == w.db.rows[u])
      && OthersKeep(w, w', user) && IsEnabled(w'.db, user)
      && var row := w'.db.rows[user];
         && row.enabled && row.hash.Argon? && row.hash.current && row.hash.password == password
         && row.schedule == map[] && row.overrideUntil == None && row.downtimeUntil == None && row.dnsServer == ""
         && c.min <= row.port <= c.max && !PortUsed(w.db.rows, row.port)
         && (forall q :: c.min <= q < row.port ==> PortUsed(w.db.rows, q))
         && (row.port > 0 ==> ListensOn(w', user, row.port))
  }

  /** A removed user has no row and no listener; every other user keeps both. */
  ghost predicate RemoveDone(w: World, w': World, user: string) {
    if !Known(w, user) then w'.db == w.db && w'.ports == w.ports
    else w'.db.rows == w.db.rows - {user} && OthersKeep(w, w', user) && NoServerOf(w'.ports, user)
  }

  // ---------------------------------------------------------------- proofs

  lemma OnlyOwner(w: World, user: string, port: int)
    requires Owned(w) && user in w.db.rows && w.db.rows[user].port == port > 0
    ensures port in w.ports.servers ==> w.ports.servers[port].owner == user
    ensures forall q <- w.ports.servers :: w.ports.servers[q].owner == user ==> q == port
  {
    assert forall q <- w.ports.servers :: OwnedAt(w.ports, w.db.rows, q);
  }

  lemma EnsuredListens(w: World, user: string, port: int)
    requires Owned(w) && user in w.db.rows && w.db.rows[user].port == port > 0
    ensures var w' := w.(ports := Ensured(w.ports, port, user));
            ListensOn(w', user, port) && OthersKeep(w, w', user) && Undisturbed(w, w', port)
  {
    OnlyOwner(w, user, port);
  }

  lemma StoppedSilent(w: World, user: string, port: int)
    requires Owned(w) && user in w.db.rows && w.db.rows[user].port == port > 0
    ensures var w' := w.(ports := Stopped(w.ports, port)); NoServerOf(w'.ports, user) && OthersKeep(w, w', user)
  {
    OnlyOwner(w, user, port);
  }

  lemma NoPortNoServer(w: World, user: string)
    requires Owned(w) && (user !in w.db.rows || w.db.rows[user].port == 0)
    ensures NoServerOf(w.ports, user)
  {
    assert forall q <- w.ports.servers :: OwnedAt(w.ports, w.db.rows, q);
  }

  lemma EnablingTheorem(c: Config, w: World, user: string, on: bool)
    requires Owned(w)
    ensures EnablingDone(c, w, AfterEnabling(c, w, user, on), user, on)
  {
    if Known(w, user) && w.db.rows[user].port > 0 {
      EnsuredListens(w, user, w.db.rows[user].port);
      StoppedSilent(w, user, w.db.rows[user].port);
    }
  }

  lemma LiftDowntime(d: Db, user: string, runs: bool, end: int, later: int)
    requires user in d.rows
    ensures LiftedAt(d, ApplyChange(d, user, if runs then Override(end) else NoOverride).0, user, runs, end, later)
  {
    BlockedTheorem(ApplyChange(d, user, if runs then Override(end) else NoOverride).0, user, later);
  }

  lemma AdHocDowntime(d: Db, user: string, runs: bool, end: int, later: int)
    requires user in d.rows
    ensures BlockedUntil(d, ApplyChange(d, user, if runs then Until(end) else NoUntil).0, user, runs, end, later)
  {
    BlockedTheorem(ApplyChange(d, user, if runs then Until(end) else NoUntil).0, user, later);
  }

  lemma LiftListeners(w: World, user: string, minutes: int)
    requires Owned(w) && Known(w, user)
    ensures LiftPorts(w, AfterLift(w, user, minutes), user, minutes)
  {
    if w.db.rows[user].port > 0 {
      EnsuredListens(w, user, w.db.rows[user].port);
    }
  }

  lemma LiftWrites(w: World, user: string, minutes: int)
    requires Known(w, user)
    ensures AfterLift(w, user, minutes).db
            == ApplyChange(w.db, user, if minutes > 0 then Override(w.now + minutes * 60_000_000_000) else NoOverride).0
  {}

  lemma LiftRows(d: Db, user: string, runs: bool, end: int)
    requires user in d.rows
    ensures ApplyChange(d, user, if runs then Override(end) else NoOverride).0.rows
            == d.rows[user := d.rows[user].(overrideUntil := if runs then Some(end / 1_000_000_000) else None)]
  {}

  lemma LiftInstants(d: Db, d': Db, user: string, runs: bool, end: int)
    requires user in d.rows && d' == ApplyChange(d, user, if runs then Override(end) else NoOverride).0
    ensures forall later :: LiftedAt(d, d', user, runs, end, later)
  {
    forall later
      ensures LiftedAt(d, d', user, runs, end, later)
    {
      LiftDowntime(d, user, runs, end, later);
    }
  }

  lemma LiftTheorem(w: World, user: string, minutes: int)
    requires Owned(w)
    ensures LiftDone(w, AfterLift(w, user, minutes), user, minutes)
  {
    if Known(w, user) {
      LiftListeners(w, user, minutes);
      LiftWrites(w, user, minutes);
      var runs, end := minutes > 0, w.now + minutes * 60_000_000_000;
      LiftRows(w.db, user, runs, end);
      LiftInstants(w.db, AfterLift(w, user, minutes).db, user, runs, end);
    }
  }

  lemma BlockListeners(c: Config, w: World, user: string, minutes: int)
    requires Owned(w) && Known(w, user) && minutes > 0
    ensures BlockPorts(c, w, AfterDowntimeNow(c, w, user, minutes), user, minutes)
  {
    if w.db.rows[user].port > 0 {
      StoppedSilent(w, user, w.db.rows[user].port);
    }
  }

  lemma UnblockListeners(c: Config, w: World, user: string, minutes: int)
    requires Owned(w) && Known(w, user) && minutes <= 0
    ensures BlockPorts(c, w, AfterDowntimeNow(c, w, user, minutes), user, minutes)
  {
    if w.db.rows[user].port > 0 {
      EnsuredListens(w, user, w.db.rows[user].port);
    }
  }

  lemma DowntimeNowWrites(c: Config, w: World, user: string, minutes: int)
    requires Known(w, user)
    ensures AfterDowntimeNow(c, w, user, minutes).db
            == ApplyChange(w.db, user, if minutes > 0 then Until(w.now + minutes * 60_000_000_000) else NoUntil).0
  {}

  lemma BlockRows(d: Db, user: string, runs: bool, end: int)
    requires user in d.rows
    ensures ApplyChange(d, user, if runs then Until(end) else NoUntil).0.rows
            == d.rows[user := d.rows[user].(downtimeUntil := if runs then Some(end / 1_000_000_000) else None)]
  {}

  lemma BlockInstants(d: Db, d': Db, user: string, runs: bool, end: int)
    requires user in d.rows && d' == ApplyChange(d, user, if runs then Until(end) else NoUntil).0
    ensures forall later :: BlockedUntil(d, d', user, runs, end, later)
  {
    forall later
      ensures BlockedUntil(d, d', user, runs, end, later)
    {
      AdHocDowntime(d, user, runs, end, later);
    }
  }

  lemma DowntimeNowTheorem(c: Config, w: World, user: string, minutes: int)
    requires Owned(w)
    ensures DowntimeNowDone(c, w, AfterDowntimeNow(c, w, user, minutes), user, minutes)
  {
    if Known(w, user) {
      if minutes > 0 {
        BlockListeners(c, w, user, minutes);
      } else {
        UnblockListeners(c, w, user, minutes);
      }
      DowntimeNowWrites(c, w, user, minutes);
      var runs, end := minutes > 0, w.now + minutes * 60_000_000_000;
      BlockRows(w.db, user, runs, end);
      BlockInstants(w.db, AfterDowntimeNow(c, w, user, minutes).db, user, runs, end);
    }
  }

  /** UpdateUserPort for a known user and a port that no one else holds. */
  lemma MovedListens(w: World, user: string, port: int, was: int)
    requires Owned(w) && IsOldPort(w.ports, user, was) && user in w.db.rows && port >= 0
    requires port == 0 || !HeldByOther(w.db.rows, user, port)
    ensures var w' := Moved(w, user, port, was);
            && w'.db.rows == w.db.rows[user := w.db.rows[user].(port := port)] && OthersKeep(w, w', user)
            && w'.db.enabled == w.db.enabled
            && (port > 0 ==> ListensOn(w', user, port)) && (port == 0 ==> NoServerOf(w'.ports, user))
  {
    OldPortIsAssigned(w, user, was);
    assert forall q <- w.ports.servers :: OwnedAt(w.ports, w.db.rows, q);
  }

  lemma MoveTheorem(c: Config, w: World, w': World, user: string, port: int)
    requires Owned(w) && AfterMove(c, w, user, port, w')
    ensures MoveDone(c, w, w', user, port)
  {
    if user != "" && !(port != 0 && (port < c.min || port > c.max || HeldByOther(w.db.rows, user, port))) {
      var was :| IsOldPort(w.ports, user, was) && w' == Moved(w, user, port, was);
      if user in w.db.rows {
        MovedListens(w, user, port, was);
      } else {
        OldPortIsAssigned(w, user, was);
      }
    }
  }

  lemma Refused(c: Config, w: World, user: string, password: string, hashing: Option<int>)
    ensures var (db, reply) := ApplyAdd(w.db, user, password, hashing, c.min, c.max);
            && (reply.Port? <==> && user != "" && password != "" && hashing.Some? && user !in w.db.rows
                                 && exists p :: c.min <= p <= c.max && !PortUsed(w.db.rows, p))
            && (reply.Port? ==> && db.rows == w.db.rows[user := NewRow(password, hashing.value, reply.port)]
                                && c.min <= reply.port <= c.max && !PortUsed(w.db.rows, reply.port)
                                && (forall q :: c.min <= q < reply.port ==> PortUsed(w.db.rows, q)) && IsEnabled(db, user))
  {
    var free := FirstFree(UsedPorts(w.db.rows), c.min, c.max);
    if free.Some? {
      assert !PortUsed(w.db.rows, free.value);
    }
  }

  lemma CreatedOwned(w: World, user: string, row: Row, db: Db)
    requires Owned(w) && user !in w.db.rows && user != "" && db.rows == w.db.rows[user := row]
    requires row.port >= 0 && !PortUsed(w.db.rows, row.port)
    ensures Owned(w.(db := db)) && !HeldByOther(db.rows, user, row.port)
  {
    AddedRow(w.db.rows, user, row);
    AddedOwned(w, user, row, db);
  }

  lemma PortStays(rows: Table, user: string)
    requires user in rows
    ensures rows[user := rows[user].(port := rows[user].port)] == rows
  {}

  lemma CreatedListens(w: World, w': World, user: string, row: Row, db: Db)
    requires Owned(w) && user !in w.db.rows && user != "" && db.rows == w.db.rows[user := row]
    requires row.port >= 0 && !PortUsed(w.db.rows, row.port) && MovedRel(w.(db := db), user, row.port, w')
    ensures w'.db.rows == db.rows && w'.db.enabled == db.enabled && OthersKeep(w, w', user)
    ensures row.port > 0 ==> ListensOn(w', user, row.port)
  {
    CreatedOwned(w, user, row, db);
    PortStays(db.rows, user);
    var was :| IsOldPort(w.ports, user, was) && w' == Moved(w.(db := db), user, row.port, was);
    MovedListens(w.(db := db), user, row.port, was);
  }

  lemma CreateTheorem(c: Config, w: World, w': World, user: string, password: string, hashing: Option<int>)
    requires Owned(w) && AfterCreate(c, w, user, password, hashing, w')
    ensures CreateDone(c, w, w', user, password, hashing)
  {
    var (db, reply) := ApplyAdd(w.db, user, password, hashing, c.min, c.max);
    Refused(c, w, user, password, hashing);
    if reply.Port? {
      CreatedListens(w, w', user, NewRow(password, hashing.value, reply.port), db);
    }
  }

  lemma RemoveTheorem(w: World, w': World, user: string)
    requires Owned(w) && AfterRemove(w, user, w')
    ensures RemoveDone(w, w', user)
  {
    if user != "" && PortOf(w.db.rows, user) > 0 {
      var mid :| MovedRel(w, user, 0, mid) && w' == mid.(db := ApplyDelete(mid.db, user).0);
      var was :| IsOldPort(w.ports, user, was) && mid == Moved(w, user, 0, was);
      MovedListens(w, user, 0, was);
    } else {
      NoPortNoServer(w, user);
    }
  }

  /** After a restart exactly the wanted ports have a listener, owned by their users. */
  lemma BootTheorem(c: Config, w: World, w': World)
    requires Owned(w) && Next(c, w, Boot, w')
    ensures forall port :: port in w'.ports.servers <==>
              ShouldListen(c, w.db.rows, WantedBy(c, Open(w.db.rows, w.now), w.now), port)
    ensures Owned(w')
  {
    var want, rows := WantedBy(c, Open(w.db.rows, w.now), w.now), w.db.rows;
    var empty := Ports(map[], map[], w.ports.nextId, w.ports.orphaned);
    var ports :| IsPortList(rows, ports) && Filled(empty, Selected(c, ports, want), w'.ports);
    SelectedIff(c, rows, ports, want);
    BootOwned(c, w, w');
  }
}
