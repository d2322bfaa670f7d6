/** The user database as the object it is: methods that update rows and caches in place,
    each proved against its step in UserTable. */
module UserDb {
  import opened Options
  import opened UserTable
  import opened Downtime

  class UserDb {
    var rows: Table
    var cache: map<string, CachedAuth>
    var dnsCache: map<string, DnsEntry>
    var downtimeCache: map<string, Schedule>
    var overrideCache: map<string, int>
    var downtimeUntilCache: map<string, int>
    var enabledCache: map<string, bool>

    ghost function State(): Db
      reads this
    {
      Db(rows, cache, dnsCache, downtimeCache, overrideCache, downtimeUntilCache, enabledCache)
    }

    /** Opens an existing table; called again on the rows left behind, it is a restart. */
    constructor (rows: Table, now: int)
      ensures State() == Open(rows, now)
    {
      this.rows := rows;
      cache, dnsCache, downtimeCache, overrideCache := map[], map[], map[], map[];
      downtimeUntilCache, enabledCache := map[], map[];
      new;
      LoadDnsCache();
      LoadDowntimeCache();
      LoadOverrideCache(now);
      LoadDowntimeUntilCache(now);
      LoadEnabledCache();
    }

    method LoadDnsCache()
      requires dnsCache == map[]
      modifies `dnsCache
      ensures dnsCache == LoadedDns(rows)
    {
      var left := rows.Keys;
      while left != {}
        invariant left <= rows.Keys
        invariant dnsCache == map u | u in rows && u !in left && rows[u].dnsServer != "" :: LoadedDns(rows)[u]
      {
        var u :| u in left;
        left := left - {u};
        if rows[u].dnsServer != "" {
          dnsCache := dnsCache[u := DnsEntry(rows[u].dnsServer, rows[u].dnsProtocol)];
        }
      }
    }

    method LoadDowntimeCache()
      requires downtimeCache == map[]
      modifies `downtimeCache
      ensures downtimeCache == LoadedDowntime(rows)
    {
      var left := rows.Keys;
      while left != {}
        invariant left <= rows.Keys
        invariant downtimeCache == map u | u in rows && u !in left && rows[u].schedule != map[] :: rows[u].schedule
      {
        var u :| u in left;
        left := left - {u};
        if rows[u].schedule != map[] {
          downtimeCache := downtimeCache[u := rows[u].schedule];
        }
      }
    }

    method LoadOverrideCache(now: int)
      requires overrideCache == map[]
      modifies `overrideCache
      ensures overrideCache == LoadedOverride(rows, now)
    {
      var left := rows.Keys;
      while left != {}
        invariant left <= rows.Keys
        invariant overrideCache == map u | u in rows && u !in left && Ahead(rows[u].overrideUntil, now) ::
                                     rows[u].overrideUntil.value * SECOND
      {
        var u :| u in left;
        left := left - {u};
        if rows[u].overrideUntil.Some? {
          var deadline := rows[u].overrideUntil.value * SECOND;
          if now < deadline {
            overrideCache := overrideCache[u := deadline];
          }
        }
      }
    }

    method LoadDowntimeUntilCache(now: int)
      requires downtimeUntilCache == map[]
      modifies `downtimeUntilCache
      ensures downtimeUntilCache == LoadedUntil(rows, now)
    {
      var left := rows.Keys;
      while left != {}
        invariant left <= rows.Keys
        invariant downtimeUntilCache == map u | u in rows && u !in left && Ahead(rows[u].downtimeUntil, now) ::
                                          rows[u].downtimeUntil.value * SECOND
      {
        var u :| u in left;
        left := left - {u};
        if rows[u].downtimeUntil.Some? {
          var deadline := rows[u].downtimeUntil.value * SECOND;
          if now < deadline {
            downtimeUntilCache := downtimeUntilCache[u := deadline];
          }
        }
      }
    }

    method LoadEnabledCache()
      requires enabledCache == map[]
      modifies `enabledCache
      ensures enabledCache == LoadedEnabled(rows)
    {
      var left := rows.Keys;
      while left != {}
        invariant left <= rows.Keys
        invariant enabledCache == map u | u in rows && u !in left :: rows[u].enabled
      {
        var u :| u in left;
        left := left - {u};
        enabledCache := enabledCache[u := rows[u].enabled];
      }
    }

    /** The least port from min to max that no row holds; none exactly when all are held. */
    method NextAvailablePort(min: int, max: int) returns (port: Option<int>)
      ensures port == FirstFree(UsedPorts(rows), min, max)
      ensures port.Some? ==> min <= port.value <= max && !PortUsed(rows, port.value)
                             && forall q :: min <= q < port.value ==> PortUsed(rows, q)
      ensures port.None? <==> forall q :: min <= q <= max ==> PortUsed(rows, q)
    {
      var used: set<int> := {};
      var left := rows.Keys;
      while left != {}
        invariant left <= rows.Keys
        invariant used == set u | u in rows && u !in left && min <= rows[u].port <= max :: rows[u].port
      {
        var u :| u in left;
        left := left - {u};
        if min <= rows[u].port <= max {
          used := used + {rows[u].port};
        }
      }
      assert forall p :: min <= p <= max ==> (p in used <==> p in UsedPorts(rows));
      var p := min;
      while p <= max
        invariant min <= p
        invariant forall q :: min <= q < p && q <= max ==> q in UsedPorts(rows)
        invariant FirstFree(UsedPorts(rows), min, max) == FirstFree(UsedPorts(rows), p, max)
        decreases max - p
      {
        if p !in used {
          return Some(p);
        }
        p := p + 1;
      }
      return None;
    }

    method ListPorts() returns (ports: map<int, string>)
      ensures IsPortList(rows, ports)
    {
      ports := map[];
      var left := rows.Keys;
      while left != {}
        invariant left <= rows.Keys
        invariant forall p <- ports :: p > 0 && ports[p] in rows && rows[ports[p]].port == p
        invariant forall u <- rows :: u !in left && rows[u].port > 0 ==> rows[u].port in ports
      {
        var u :| u in left;
        left := left - {u};
        if rows[u].port > 0 {
          ports := ports[rows[u].port := u];
        }
      }
    }

    /** A user who holds the port, or "" if no one does. */
    method PortOwner(port: int) returns (owner: string)
      ensures (owner == "" && !PortUsed(rows, port)) || (owner in rows && rows[owner].port == port)
    {
      var left := rows.Keys;
      while left != {}
        invariant left <= rows.Keys
        invariant forall u <- rows :: u !in left ==> rows[u].port != port
      {
        var u :| u in left;
        left := left - {u};
        if rows[u].port == port {
          return u;
        }
      }
      return "";
    }

    method Add(user: string, password: string, hashing: Option<int>, min: int, max: int) returns (r: Reply)
      modifies this
      ensures State() == ApplyAdd(old(State()), user, password, hashing, min, max).0
      ensures r == ApplyAdd(old(State()), user, password, hashing, min, max).1
    {
      if user == "" || password == "" {
        return Fail(EmptyField);
      }
      if hashing.None? {
        return Fail(HashingFailed);
      }
      var port := NextAvailablePort(min, max);
      if port.None? {
        return Fail(NoPortAvailable);
      }
      if user in rows {
        return Fail(UserExists);
      }
      rows := rows[user := NewRow(password, hashing.value, port.value)];
      enabledCache := enabledCache[user := true];
      return Port(port.value);
    }

    method Delete(user: string) returns (r: Reply)
      modifies this
      ensures State() == ApplyDelete(old(State()), user).0
      ensures r == ApplyDelete(old(State()), user).1
    {
      if user !in rows {
        return Fail(UnknownUser);
      }
      rows := rows - {user};
      cache := cache - {user};
      dnsCache := dnsCache - {user};
      downtimeCache := downtimeCache - {user};
      overrideCache := overrideCache - {user};
      enabledCache := enabledCache - {user};
      return Done;
    }

    method ChangePassword(user: string, password: string, hashing: Option<int>) returns (r: Reply)
      modifies this
      ensures State() == ApplyChangePassword(old(State()), user, password, hashing).0
      ensures r == ApplyChangePassword(old(State()), user, password, hashing).1
    {
      if password == "" {
        return Fail(EmptyField);
      }
      if hashing.None? {
        return Fail(HashingFailed);
      }
      if user !in rows {
        return Fail(UnknownUser);
      }
      rows := rows[user := rows[user].(hash := Argon(true, hashing.value, password))];
      cache := cache - {user};
      return Done;
    }

    method Check(header: Header, hashing: Option<int>, now: int) returns (r: Reply)
      modifies this
      ensures State() == ApplyCheck(old(State()), header, hashing, now).0
      ensures r == ApplyCheck(old(State()), header, hashing, now).1
    {
      var parsed := Parse(header);
      if parsed.NotGiven? {
        return Fail(NoCredentials);
      }
      if parsed.Malformed? {
        return Fail(MalformedAuth);
      }
      var user, password := parsed.user, parsed.password;
      if user in cache && now < cache[user].validUntil {
        return if cache[user].password == password then User(user) else Fail(WrongPassword);
      }
      if user !in rows {
        return Fail(UnknownUser);
      }
      var stored := rows[user].hash;
      if !Verifies(password, stored) {
        return Fail(WrongPassword);
      }
      if NeedsRehash(stored) && hashing.Some? {
        rows := rows[user := rows[user].(hash := Argon(true, hashing.value, password))];
      }
      cache := cache[user := CachedAuth(password, now + CACHE_TTL)];
      assert rows == old(rows)[user := rows[user]];
      return User(user);
    }

    method SetEnabled(user: string, on: bool) returns (r: Reply)
      modifies this
      ensures State() == ApplyChange(old(State()), user, Enable(on)).0
      ensures r == ApplyChange(old(State()), user, Enable(on)).1
    {
      if user !in rows {
        return Fail(UnknownUser);
      }
      rows := rows[user := rows[user].(enabled := on)];
      enabledCache := enabledCache[user := on];
      return Done;
    }

    method UpdateDns(user: string, server: string, protocol: string) returns (r: Reply)
      modifies this
      ensures State() == ApplyChange(old(State()), user, Dns(server, protocol)).0
      ensures r == ApplyChange(old(State()), user, Dns(server, protocol)).1
    {
      if user !in rows {
        return Fail(UnknownUser);
      }
      rows := rows[user := rows[user].(dnsServer := server, dnsProtocol := protocol)];
      if server == "" {
        dnsCache := dnsCache - {user};
      } else {
        dnsCache := dnsCache[user := DnsEntry(server, protocol)];
      }
      return Done;
    }

    method UpdateDowntime(user: string, schedule: Schedule) returns (r: Reply)
      modifies this
      ensures State() == ApplyChange(old(State()), user, Edit.Downtime(schedule)).0
      ensures r == ApplyChange(old(State()), user, Edit.Downtime(schedule)).1
    {
      if user !in rows {
        return Fail(UnknownUser);
      }
      rows := rows[user := rows[user].(schedule := schedule)];
      if schedule == map[] {
        downtimeCache := downtimeCache - {user};
      } else {
        downtimeCache := downtimeCache[user := schedule];
      }
      return Done;
    }

    method SetDowntimeOverride(user: string, deadline: int) returns (r: Reply)
      modifies this
      ensures State() == ApplyChange(old(State()), user, Override(deadline)).0
      ensures r == ApplyChange(old(State()), user, Override(deadline)).1
    {
      if user !in rows {
        return Fail(UnknownUser);
      }
      rows := rows[user := rows[user].(overrideUntil := Some(Stored(deadline)))];
      overrideCache := overrideCache[user := deadline];
      return Done;
    }

    method ClearDowntimeOverride(user: string) returns (r: Reply)
      modifies this
      ensures State() == ApplyChange(old(State()), user, NoOverride).0
      ensures r == ApplyChange(old(State()), user, NoOverride).1
    {
      if user !in rows {
        return Fail(UnknownUser);
      }
      rows := rows[user := rows[user].(overrideUntil := None)];
      overrideCache := overrideCache - {user};
      return Done;
    }

    method SetDowntimeUntil(user: string, deadline: int) returns (r: Reply)
      modifies this
      ensures State() == ApplyChange(old(State()), user, Until(deadline)).0
      ensures r == ApplyChange(old(State()), user, Until(deadline)).1
    {
      if user !in rows {
        return Fail(UnknownUser);
      }
      rows := rows[user := rows[user].(downtimeUntil := Some(Stored(deadline)))];
      downtimeUntilCache := downtimeUntilCache[user := deadline];
      return Done;
    }

    method ClearDowntimeUntil(user: string) returns (r: Reply)
      modifies this
      ensures State() == ApplyChange(old(State()), user, NoUntil).0
      ensures r == ApplyChange(old(State()), user, NoUntil).1
    {
      if user !in rows {
        return Fail(UnknownUser);
      }
      rows := rows[user := rows[user].(downtimeUntil := None)];
      downtimeUntilCache := downtimeUntilCache - {user};
      return Done;
    }

    method UpdatePort(user: string, port: int) returns (r: Reply)
      modifies this
      ensures State() == ApplyChange(old(State()), user, AssignPort(port)).0
      ensures r == ApplyChange(old(State()), user, AssignPort(port)).1
    {
      if user !in rows {
        return Fail(UnknownUser);
      }
      rows := rows[user := rows[user].(port := port)];
      return Done;
    }

    method Enabled(user: string) returns (r: bool)
      ensures r == IsEnabled(State(), user)
    {
      return user in enabledCache && enabledCache[user];
    }

    method InDowntimeNow(user: string, now: int) returns (r: bool)
      ensures r == InDowntime(State(), user, now)
      ensures r <==> (user in downtimeUntilCache && now < downtimeUntilCache[user])
                     || (!(user in overrideCache && now < overrideCache[user]) && user in downtimeCache
                         && Covered(downtimeCache[user], ((now - 259_200_000_000_000) / 60_000_000_000) % 10080))
    {
      InstantTheorem(GetDowntime(State(), user), now);
      if user in downtimeUntilCache && now < downtimeUntilCache[user] {
        return true;
      }
      if user in overrideCache && now < overrideCache[user] {
        return false;
      }
      var schedule := if user in downtimeCache then downtimeCache[user] else map[];
      if schedule == map[] {
        return false;
      }
      return IsInDowntime(schedule, Weekday(now), MinuteOfDay(now));
    }
  }
}
