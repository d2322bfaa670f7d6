/** The port listeners and the admin handlers as the objects they are: methods that update the
    maps and the database in place, each proved to take one step of PortListeners. */
module PortHandler {
  import opened Options
  import opened UserTable
  import opened PortListeners
  import opened PortActions
  import U = UserDb

  /** Filling in one more port. */
  lemma FilledOneMore(p: Ports, should: map<int, string>, p': Ports, port: int, user: string)
    requires Filled(p, should, p') && port !in should
    ensures Filled(p, should[port := user], if port in p'.servers then p' else Started(p', port, user))
  {}

  /** The next element of a range over a map, whose order is not fixed. */
  method Pick<T(==)>(left: set<T>) returns (x: T)
    requires left != {}
    ensures x in left
  {
    x :| x in left;
  }

  /** Started one by one on ports where nothing runs. */
  ghost predicate FilledFresh(p: Ports, should: map<int, string>, p': Ports) {
    p.servers.Keys == {} == p.portUsers.Keys ==> Filled(p, should, p')
  }

  lemma FreshOneMore(p: Ports, should: map<int, string>, p': Ports, port: int, user: string)
    requires FilledFresh(p, should, p') && port !in should
    ensures FilledFresh(p, should[port := user], Started(p', port, user))
  {
    if p.servers.Keys == {} == p.portUsers.Keys {
      FilledOneMore(p, should, p', port, user);
    }
  }

  class Handler {
    const c: Config
    const users: U.UserDb
    var portUsers: map<int, string>
    var userServers: map<int, Server>
    var nextId: nat
    ghost var orphaned: set<Server>

    ghost function State(): Ports
      reads this
    {
      Ports(portUsers, userServers, nextId, orphaned)
    }

    ghost function At(now: int): World
      reads this, users
    {
      World(users.State(), State(), now)
    }

    constructor (c: Config, users: U.UserDb)
      ensures this.c == c && this.users == users && State() == Ports(map[], map[], 0, {})
    {
      this.c, this.users := c, users;
      portUsers, userServers, nextId, orphaned := map[], map[], 0, {};
    }

    // -------------------------------------------------------------- pkg/proxy/userports.go

    method ListenerWanted(user: string, now: int) returns (wanted: bool)
      ensures wanted == Wanted(c, users.State(), user, now)
      ensures wanted <==> c.mitm || (user in users.enabledCache && users.enabledCache[user] && !Blocked(users.State(), user, now))
    {
      WantedTheorem(c, users.State(), user, now);
      if c.mitm {
        return true;
      }
      var on := users.Enabled(user);
      if !on {
        return false;
      }
      var blocked := users.InDowntimeNow(user, now);
      return !blocked;
    }

    /** The listed ports that should have a running listener. */
    method PortsToRun(now: int) returns (shouldRun: map<int, string>, ports: map<int, string>)
      ensures IsPortList(users.rows, ports) && shouldRun == ShouldRun(c, users.State(), ports, now)
    {
      ports := users.ListPorts();
      shouldRun := map[];
      ghost var want := WantedBy(c, users.State(), now);
      var left := ports.Keys;
      while left != {}
        invariant left <= ports.Keys
        invariant shouldRun == map port | port in ports && port !in left && c.min <= port <= c.max && want(ports[port]) :: ports[port]
      {
        var port := Pick(left);
        left := left - {port};
        if c.min <= port <= c.max {
          var wanted := ListenerWanted(ports[port], now);
          assert wanted == want(ports[port]);
          if wanted {
            shouldRun := shouldRun[port := ports[port]];
          }
        }
      }
    }

    /** Whatever listened on the port before is no longer reachable through the maps. */
    method StartListenerLocked(port: int, user: string)
      requires port in portUsers && portUsers[port] == user
      modifies `userServers, `nextId, `orphaned
      ensures State() == Started(old(State()), port, user)
    {
      if port in userServers {
        orphaned := orphaned + {userServers[port]};
      }
      userServers := userServers[port := Server(nextId, user)];
      nextId := nextId + 1;
      assert portUsers == portUsers[port := user];
    }

    method StopUserListener(port: int)
      modifies `userServers, `portUsers
      ensures State() == Stopped(old(State()), port)
      ensures userServers == old(userServers) - {port}
    {
      if port in userServers {
        userServers := userServers - {port};
        portUsers := portUsers - {port};
      }
    }

    method StartListener(user: string, port: int)
      modifies this
      ensures State() == Ensured(old(State()), port, user)
      ensures userServers == if port in old(userServers) then old(userServers)
                             else old(userServers)[port := Server(old(nextId), user)]
      ensures portUsers == old(portUsers)[port := user]
    {
      portUsers := portUsers[port := user];
      if port in userServers {
        return;
      }
      StartListenerLocked(port, user);
    }

    method StopListener(port: int)
      modifies `userServers, `portUsers
      ensures State() == if c.mitm then old(State()) else Stopped(old(State()), port)
      ensures userServers == if c.mitm then old(userServers) else old(userServers) - {port}
    {
      if c.mitm {
        return;
      }
      StopUserListener(port);
    }

    method UpdateUserPort(user: string, port: int, ghost now: int) returns (r: Reply)
      modifies this, users
      ensures MovedRel(old(At(now)), user, port, At(now))
      ensures r == ApplyChange(old(users.State()), user, AssignPort(port)).1
    {
      var oldPort := 0;
      var left := portUsers.Keys;
      while left != {}
        invariant left <= portUsers.Keys && oldPort == 0
        invariant forall q <- portUsers :: q !in left ==> portUsers[q] != user
        modifies {}
      {
        var q := Pick(left);
        left := left - {q};
        if portUsers[q] == user {
          oldPort := q;
          break;
        }
      }
      ghost var was := oldPort;
      assert IsOldPort(State(), user, was);
      if oldPort != 0 {
        StopUserListener(oldPort);
      }
      ghost var stopped := State();
      r := users.UpdatePort(user, port);
      if r.Fail? || port == 0 {
        return;
      }
      portUsers := portUsers[port := user];
      StartListenerLocked(port, user);
      assert State() == Started(stopped, port, user) by {
        assert portUsers == stopped.portUsers[port := user];
      }
    }

    /** The goroutine of a server whose bind failed. */
    method RemoveFailed(port: int, srv: Server)
      modifies `userServers, `portUsers
      ensures State() == BindFailed(old(State()), port, srv)
      ensures userServers == if port in old(userServers) && old(userServers)[port] == srv then old(userServers) - {port}
                             else old(userServers)
    {
      if port in userServers && userServers[port] == srv {
        userServers := userServers - {port};
        portUsers := portUsers - {port};
      }
    }

    method ShutdownUserListeners()
      modifies `userServers, `portUsers
      ensures State() == Ports(map[], map[], nextId, orphaned)
    {
      userServers := map[];
      portUsers := map[];
    }

    /** Called once, when the process has just started and no server runs yet. */
    method StartUserListeners(now: int)
      modifies this
      ensures old(State()) == Ports(map[], map[], old(nextId), old(orphaned)) ==>
                exists ports :: IsPortList(users.rows, ports)
                  && Filled(old(State()), ShouldRun(c, users.State(), ports, now), State())
    {
      var shouldRun, ports := PortsToRun(now);
      StartAll(shouldRun);
    }

    method StartAll(shouldRun: map<int, string>)
      modifies this
      ensures FilledFresh(old(State()), shouldRun, State())
    {
      var left := shouldRun.Keys;
      assert shouldRun - left == map[];
      while left != {}
        invariant left <= shouldRun.Keys && FilledFresh(old(State()), shouldRun - left, State())
      {
        var port := Pick(left);
        ghost var done, before := shouldRun - left, State();
        left := left - {port};
        portUsers := portUsers[port := shouldRun[port]];
        StartListenerLocked(port, shouldRun[port]);
        assert shouldRun - left == done[port := shouldRun[port]];
        FreshOneMore(old(State()), done, before, port, shouldRun[port]);
        assert State() == Started(before, port, shouldRun[port]);
      }
      assert shouldRun - left == shouldRun;
    }

    /** What runs and should not is removed, then what should run and does not is started. */
    method ReconcileListeners(now: int)
      modifies this
      ensures Reconciled(c, users.State(), now, old(State()), State())
    {
      var shouldRun, ports := PortsToRun(now);
      StopUnwanted(shouldRun);
      StartMissing(shouldRun);
    }

    method StopUnwanted(shouldRun: map<int, string>)
      modifies `userServers, `portUsers
      ensures State() == Pruned(old(State()), shouldRun)
    {
      var running := userServers.Keys;
      var left := running;
      ghost var gone: set<int> := {};
      while left != {}
        invariant left <= running && gone == running - left - shouldRun.Keys
        invariant userServers == old(userServers) - gone && portUsers == old(portUsers) - gone
      {
        var port := Pick(left);
        left := left - {port};
        if port !in shouldRun {
          gone := gone + {port};
          userServers := userServers - {port};
          portUsers := portUsers - {port};
        }
      }
    }

    method StartMissing(shouldRun: map<int, string>)
      modifies this
      ensures Filled(old(State()), shouldRun, State())
    {
      var left := shouldRun.Keys;
      assert shouldRun - left == map[];
      while left != {}
        invariant left <= shouldRun.Keys && Filled(old(State()), shouldRun - left, State())
      {
        var port := Pick(left);
        ghost var done, before := shouldRun - left, State();
        left := left - {port};
        if port !in userServers {
          portUsers := portUsers[port := shouldRun[port]];
          StartListenerLocked(port, shouldRun[port]);
        }
        assert shouldRun - left == done[port := shouldRun[port]];
        FilledOneMore(old(State()), done, before, port, shouldRun[port]);
      }
      assert shouldRun - left == shouldRun;
    }

    // -------------------------------------------------------------- pkg/admin/api.go

    method HandleCreateUser(user: string, password: string, hashing: Option<int>, ghost now: int) returns (status: int)
      modifies this, users
      ensures Next(c, old(At(now)), Create(user, password, hashing), At(now))
      ensures old(Owned(At(now))) ==> CreateDone(c, old(At(now)), At(now), user, password, hashing)
      ensures status == 201 <==> user in users.rows && user !in old(users.rows)
    {
      status := CreateUser(user, password, hashing, now);
      if old(Owned(At(now))) {
        CreateTheorem(c, old(At(now)), At(now), user, password, hashing);
      }
    }

    method CreateUser(user: string, password: string, hashing: Option<int>, ghost now: int) returns (status: int)
      modifies this, users
      ensures AfterCreate(c, old(At(now)), user, password, hashing, At(now))
      ensures status == 201 <==> user in users.rows && user !in old(users.rows)
    {
      if user == "" || password == "" {
        return 400;
      }
      var r := users.Add(user, password, hashing, c.min, c.max);
      if r.Fail? {
        return if r.error.UserExists? || r.error.NoPortAvailable? then 409 else 500;
      }
      var moved := UpdateUserPort(user, r.port, now);
      return 201;
    }

    method HandleDeleteUser(user: string, ghost now: int) returns (status: int)
      modifies this, users
      ensures Next(c, old(At(now)), Remove(user), At(now))
      ensures old(Owned(At(now))) ==> RemoveDone(old(At(now)), At(now), user)
      ensures status == 200 <==> user != "" && user in old(users.rows)
    {
      status := DeleteUser(user, now);
      if old(Owned(At(now))) {
        RemoveTheorem(old(At(now)), At(now), user);
      }
    }

    method DeleteUser(user: string, ghost now: int) returns (status: int)
      modifies this, users
      ensures AfterRemove(old(At(now)), user, At(now))
      ensures status == 200 <==> user != "" && user in old(users.rows)
    {
      if user == "" {
        return 400;
      }
      if PortOf(users.rows, user) > 0 {
        var moved := UpdateUserPort(user, 0, now);
      }
      var r := users.Delete(user);
      return if r.Fail? then 404 else 200;
    }

    /** The database names one owner of the port; with distinct ports there is no other. */
    method HandleUpdatePort(user: string, port: int, ghost now: int) returns (status: int)
      modifies this, users
      ensures old(PortsOk(users.rows)) ==> Next(c, old(At(now)), Move(user, port), At(now))
      ensures old(Owned(At(now))) ==> MoveDone(c, old(At(now)), At(now), user, port)
      ensures old(PortsOk(users.rows)) && user != "" && port != 0 && c.min <= port <= c.max ==>
                (status == 409 <==> HeldByOther(old(users.rows), user, port))
      ensures status == 200 ==> user in users.rows && users.rows[user].port == port
    {
      status := MoveUser(user, port, now);
      if old(Owned(At(now))) {
        MoveTheorem(c, old(At(now)), At(now), user, port);
      }
    }

    method MoveUser(user: string, port: int, ghost now: int) returns (status: int)
      modifies this, users
      ensures old(PortsOk(users.rows)) ==> AfterMove(c, old(At(now)), user, port, At(now))
      ensures old(PortsOk(users.rows)) && user != "" && port != 0 && c.min <= port <= c.max ==>
                (status == 409 <==> HeldByOther(old(users.rows), user, port))
      ensures status == 200 ==> user in users.rows && users.rows[user].port == port
    {
      if user == "" {
        return 400;
      }
      if port != 0 {
        if port < c.min || port > c.max {
          return 400;
        }
        var owner := users.PortOwner(port);
        if owner != "" && owner != user {
          return 409;
        }
      }
      var r := UpdateUserPort(user, port, now);
      return if r.Fail? then 404 else 200;
    }

    method HandleSetEnabled(user: string, on: bool, ghost now: int) returns (status: int)
      modifies this, users
      ensures Next(c, old(At(now)), Enabling(user, on), At(now))
      ensures old(Owned(At(now))) ==> EnablingDone(c, old(At(now)), At(now), user, on)
      ensures status == 200 <==> user != "" && user in old(users.rows)
    {
      status := EnableUser(user, on, now);
      if old(Owned(At(now))) {
        EnablingTheorem(c, old(At(now)), user, on);
      }
    }

    method EnableUser(user: string, on: bool, ghost now: int) returns (status: int)
      modifies this, users
      ensures At(now) == AfterEnabling(c, old(At(now)), user, on)
      ensures status == 200 <==> user != "" && user in old(users.rows)
    {
      if user == "" {
        return 400;
      }
      var r := users.SetEnabled(user, on);
      if r.Fail? {
        return 404;
      }
      var port := PortOf(users.rows, user);
      if port > 0 {
        if on {
          StartListener(user, port);
        } else {
          StopListener(port);
        }
      }
      return 200;
    }

    method HandleDowntimeOverride(user: string, minutes: int, now: int) returns (status: int)
      modifies this, users
      ensures Next(c, old(At(now)), Lift(user, minutes), At(now))
      ensures old(Owned(At(now))) ==> LiftDone(old(At(now)), At(now), user, minutes)
      ensures status == 200 <==> user != "" && user in old(users.rows)
    {
      status := LiftDowntime(user, minutes, now);
      if old(Owned(At(now))) {
        LiftTheorem(old(At(now)), user, minutes);
      }
    }

    method LiftDowntime(user: string, minutes: int, now: int) returns (status: int)
      modifies this, users
      ensures At(now) == AfterLift(old(At(now)), user, minutes)
      ensures status == 200 <==> user != "" && user in old(users.rows)
    {
      if user == "" {
        return 400;
      }
      if minutes <= 0 {
        var cleared := users.ClearDowntimeOverride(user);
        return if cleared.Fail? then 404 else 200;
      }
      var r := users.SetDowntimeOverride(user, now + minutes * MINUTE);
      if r.Fail? {
        return 404;
      }
      var port := PortOf(users.rows, user);
      if port > 0 {
        StartListener(user, port);
      }
      return 200;
    }

    method HandleDowntimeNow(user: string, minutes: int, now: int) returns (status: int)
      modifies this, users
      ensures Next(c, old(At(now)), Action.DowntimeNow(user, minutes), At(now))
      ensures old(Owned(At(now))) ==> DowntimeNowDone(c, old(At(now)), At(now), user, minutes)
      ensures status == 200 <==> user != "" && user in old(users.rows)
    {
      status := BlockUser(user, minutes, now);
      if old(Owned(At(now))) {
        DowntimeNowTheorem(c, old(At(now)), user, minutes);
      }
    }

    method BlockUser(user: string, minutes: int, now: int) returns (status: int)
      modifies this, users
      ensures At(now) == AfterDowntimeNow(c, old(At(now)), user, minutes)
      ensures status == 200 <==> user != "" && user in old(users.rows)
    {
      if user == "" {
        return 400;
      }
      if minutes <= 0 {
        var cleared := users.ClearDowntimeUntil(user);
        if cleared.Fail? {
          return 404;
        }
        var port := PortOf(users.rows, user);
        if port > 0 && users.rows[user].enabled {
          StartListener(user, port);
        }
      } else {
        var r := users.SetDowntimeUntil(user, now + minutes * MINUTE);
        if r.Fail? {
          return 404;
        }
        var port := PortOf(users.rows, user);
        if port > 0 {
          StopListener(port);
        }
      }
      return 200;
    }
  }
}
