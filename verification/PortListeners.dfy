/** The per-user port listeners of pkg/proxy/userports.go as the admin API, the clock and
    failing binds drive them: states, steps and what every run of steps keeps. */
module PortListeners {
  import opened Options
  import opened UserTable
  import opened Downtime

  /** A listening server; its owner is captured when it is started and never changes. */
  datatype Server = Server(id: nat, owner: string)

  /** The two maps. Server ids are never reused; orphaned collects servers that were still
      listening when another one took their place. */
  datatype Ports = Ports(portUsers: map<int, string>, servers: map<int, Server>, nextId: nat, orphaned: set<Server>)

  datatype Config = Config(min: nat, max: nat, mitm: bool)

  // ---------------------------------------------------------------- critical sections

  /** startListenerLocked, together with the portUsers entry its callers set. */
  function Started(p: Ports, port: int, user: string): Ports {
    Ports(p.portUsers[port := user], p.servers[port := Server(p.nextId, user)], p.nextId + 1,
          if port in p.servers then p.orphaned + {p.servers[port]} else p.orphaned)
  }

  function Stopped(p: Ports, port: int): Ports {
    if port in p.servers then p.(portUsers := Drop(p.portUsers, port), servers := Drop(p.servers, port)) else p
  }

  /** StartListener: a port already bound keeps its server. */
  function Ensured(p: Ports, port: int, user: string): Ports {
    if port in p.servers then p.(portUsers := p.portUsers[port := user]) else Started(p, port, user)
  }

  /** A bind that failed removes its own server, if that is still the one on the port. */
  function BindFailed(p: Ports, port: int, srv: Server): Ports {
    if port in p.servers && p.servers[port] == srv then Stopped(p, port) else p
  }

  /** First phase of the reconciler: whatever should not run is removed. */
  function Pruned(p: Ports, should: map<int, string>): Ports {
    var gone := p.servers.Keys - should.Keys;
    p.(servers := p.servers - gone, portUsers := p.portUsers - gone)
  }

  /** Second phase: whatever should run and does not is started, in any order. */
  ghost predicate Filled(p: Ports, should: map<int, string>, p': Ports) {
    && p'.servers.Keys == p.servers.Keys + should.Keys
    && p'.portUsers.Keys == p.portUsers.Keys + (should.Keys - p.servers.Keys)
    && (forall port <- p.servers :: p'.servers[port] == p.servers[port])
    && (forall port <- p.portUsers :: port in p.servers || port !in should ==> p'.portUsers[port] == p.portUsers[port])
    && (forall port <- should :: port !in p.servers ==>
          p'.servers[port].owner == should[port] == p'.portUsers[port] && p.nextId <= p'.servers[port].id < p'.nextId)
    && p.nextId <= p'.nextId && p'.orphaned == p.orphaned
    && (should.Keys <= p.servers.Keys ==> p' == p)
  }

  // ---------------------------------------------------------------- what should run

  /** Without MITM a blocked user's port is closed; with MITM it stays bound. */
  predicate Wanted(c: Config, d: Db, user: string, now: int) {
    c.mitm || (IsEnabled(d, user) && !InDowntime(d, user, now))
  }

  function WantedBy(c: Config, d: Db, now: int): string -> bool {
    user => Wanted(c, d, user, now)
  }

  function Selected(c: Config, ports: map<int, string>, want: string -> bool): map<int, string> {
    map port | port in ports && c.min <= port <= c.max && want(ports[port]) :: ports[port]
  }

  function ShouldRun(c: Config, d: Db, ports: map<int, string>, now: int): map<int, string> {
    Selected(c, ports, WantedBy(c, d, now))
  }

  ghost predicate Reconciled(c: Config, d: Db, now: int, p: Ports, p': Ports) {
    exists ports :: IsPortList(d.rows, ports) && Filled(Pruned(p, ShouldRun(c, d, ports, now)), ShouldRun(c, d, ports, now), p')
  }

  // ---------------------------------------------------------------- the proxy as a whole

  datatype World = World(db: Db, ports: Ports, now: int)

  datatype Action =
    | Create(user: string, password: string, hashing: Option<int>)
    | Remove(user: string)
    | Move(user: string, port: int)
    | Enabling(user: string, on: bool)
    | Lift(user: string, minutes: int)        // an override, or its end
    | DowntimeNow(user: string, minutes: int) // ad-hoc downtime, or its end
    | Other(op: Op)                           // operations that concern no listener
    | Reconcile
    | BindFails(port: int, srv: Server)
    | Boot                                    // shutdown, restart, StartUserListeners
    | Tick(elapsed: nat)

  /** A port under which the user is registered, or 0 if there is none. */
  ghost predicate IsOldPort(p: Ports, user: string, was: int) {
    (was in p.portUsers && p.portUsers[was] == user) || (was == 0 && forall q <- p.portUsers :: p.portUsers[q] != user)
  }

  /** UpdateUserPort, having found the old port. */
  function Moved(w: World, user: string, port: int, was: int): World {
    var stopped := if was != 0 then Stopped(w.ports, was) else w.ports;
    var (db, reply) := ApplyChange(w.db, user, AssignPort(port));
    World(db, if reply.Fail? || port == 0 then stopped else Started(stopped, port, user), w.now)
  }

  ghost predicate MovedRel(w: World, user: string, port: int, w': World) {
    exists was :: IsOldPort(w.ports, user, was) && w' == Moved(w, user, port, was)
  }

  /** The port of a listed user, or 0. */
  function PortOf(rows: Table, user: string): int {
    if user in rows then rows[user].port else 0
  }

  const MINUTE: int := 60 * SECOND

  function AfterEnabling(c: Config, w: World, user: string, on: bool): World {
    if user == "" then w
    else
      var (db, reply) := ApplyChange(w.db, user, Enable(on));
      var port := PortOf(db.rows, user);
      World(db, if reply.Fail? || port <= 0 then w.ports
                else if on then Ensured(w.ports, port, user)
                else if c.mitm then w.ports else Stopped(w.ports, port), w.now)
  }

  function AfterLift(w: World, user: string, minutes: int): World {
    if user == "" then w
    else if minutes <= 0 then w.(db := ApplyChange(w.db, user, NoOverride).0)
    else
      var (db, reply) := ApplyChange(w.db, user, Override(w.now + minutes * MINUTE));
      var port := PortOf(db.rows, user);
      World(db, if reply.Fail? || port <= 0 then w.ports else Ensured(w.ports, port, user), w.now)
  }

  function AfterDowntimeNow(c: Config, w: World, user: string, minutes: int): World {
    if user == "" then w
    else if minutes <= 0 then
      var (db, reply) := ApplyChange(w.db, user, NoUntil);
      var port := PortOf(db.rows, user);
      World(db, if reply.Fail? || port <= 0 || !db.rows[user].enabled then w.ports
                else Ensured(w.ports, port, user), w.now)
    else
      var (db, reply) := ApplyChange(w.db, user, Until(w.now + minutes * MINUTE));
      var port := PortOf(db.rows, user);
      World(db, if reply.Fail? || port <= 0 || c.mitm then w.ports else Stopped(w.ports, port), w.now)
  }

  ghost predicate AfterCreate(c: Config, w: World, user: string, password: string, hashing: Option<int>, w': World) {
    var (db, reply) := ApplyAdd(w.db, user, password, hashing, c.min, c.max);
    if reply.Port? then MovedRel(w.(db := db), user, reply.port, w') else w' == w
  }

  ghost predicate AfterRemove(w: World, user: string, w': World) {
    if user == "" then w' == w
    else if PortOf(w.db.rows, user) > 0 then
      exists mid :: MovedRel(w, user, 0, mid) && w' == mid.(db := ApplyDelete(mid.db, user).0)
    else w' == w.(db := ApplyDelete(w.db, user).0)
  }

  /** Accepted only inside the range and if no other user holds the port. */
  ghost predicate AfterMove(c: Config, w: World, user: string, port: int, w': World) {
    if user == "" || (port != 0 && (port < c.min || port > c.max || HeldByOther(w.db.rows, user, port))) then w' == w
    else MovedRel(w, user, port, w')
  }

  ghost predicate HeldByOther(rows: Table, user: string, port: int) {
    exists u :: u in rows && u != user && rows[u].port == port
  }

  predicate NoListener(op: Op) {
    op.ChangePassword? || op.Check? || (op.Change? && (op.edit.Dns? || op.edit.Downtime?))
  }

  ghost predicate AfterBoot(c: Config, w: World, w': World) {
    var db := Open(w.db.rows, w.now);
    w'.db == db && w'.now == w.now &&
    exists ports :: IsPortList(db.rows, ports)
      && Filled(Ports(map[], map[], w.ports.nextId, w.ports.orphaned), ShouldRun(c, db, ports, w.now), w'.ports)
  }

  ghost predicate Next(c: Config, w: World, a: Action, w': World) {
    match a
    case Create(user, password, hashing) => AfterCreate(c, w, user, password, hashing, w')
    case Remove(user) => AfterRemove(w, user, w')
    case Move(user, port) => AfterMove(c, w, user, port, w')
    case Enabling(user, on) => w' == AfterEnabling(c, w, user, on)
    case Lift(user, minutes) => w' == AfterLift(w, user, minutes)
    case DowntimeNow(user, minutes) => w' == AfterDowntimeNow(c, w, user, minutes)
    case Other(op) => w' == if NoListener(op) then w.(db := Apply(w.db, op, w.now).0) else w
    case Reconcile => w'.db == w.db && w'.now == w.now && Reconciled(c, w.db, w.now, w.ports, w'.ports)
    case BindFails(port, srv) => w' == w.(ports := BindFailed(w.ports, port, srv))
    case Boot => AfterBoot(c, w, w')
    case Tick(elapsed) => w' == w.(now := w.now + elapsed)
  }

  // ---------------------------------------------------------------- ownership over whole runs

  /** Both maps list the same ports; each running server was started for the user whom
      portUsers names and whom the database assigns the port; nothing was orphaned. */
  ghost predicate Owned(w: World) {
    var p, rows := w.ports, w.db.rows;
    && p.portUsers.Keys == p.servers.Keys
    && (forall port <- p.servers :: OwnedAt(p, rows, port))
    && PortsOk(rows) && p.orphaned == {}
  }

  ghost predicate OwnedAt(p: Ports, rows: Table, port: int)
    requires port in p.servers && port in p.portUsers
  {
    var owner := p.servers[port].owner;
    port > 0 && p.portUsers[port] == owner && owner in rows && rows[owner].port == port
  }

  lemma EditPort(d: Db, user: string, edit: Edit)
    requires PortsOk(d.rows)
    ensures ApplyChange(d, user, edit).1.Fail? <==> user !in d.rows
    ensures user !in d.rows ==> ApplyChange(d, user, edit).0 == d
    ensures user in d.rows ==> ApplyChange(d, user, edit).0.rows == d.rows[user := Edited(d.rows[user], edit)]
    ensures !edit.AssignPort? ==> SamePorts(d.rows, ApplyChange(d, user, edit).0.rows)
  {}

  /** The same users on the same ports. */
  ghost predicate SamePorts(rows: Table, rows': Table) {
    rows'.Keys == rows.Keys && forall u <- rows :: rows'[u].port == rows[u].port
  }

  lemma SamePortsOwned(w: World, db: Db)
    requires Owned(w) && SamePorts(w.db.rows, db.rows)
    ensures Owned(w.(db := db))
  {}

  lemma StoppedOwned(w: World, port: int)
    requires Owned(w)
    ensures Owned(w.(ports := Stopped(w.ports, port)))
  {}

  lemma EnsuredOwned(w: World, user: string)
    requires Owned(w) && user in w.db.rows && w.db.rows[user].port > 0
    ensures Owned(w.(ports := Ensured(w.ports, w.db.rows[user].port, user)))
  {}

  /** A registered user is registered under the port the database assigns. */
  lemma OldPortIsAssigned(w: World, user: string, was: int)
    requires Owned(w) && IsOldPort(w.ports, user, was)
    ensures was != 0 ==> user in w.db.rows && w.db.rows[user].port == was
  {
    if was != 0 {
      assert was in w.ports.servers;
    }
  }

  ghost predicate NoServerOf(p: Ports, user: string) {
    forall q <- p.servers :: p.servers[q].owner != user
  }

  /** Giving a user without a server a port that no other user holds. */
  lemma AssignOwned(w: World, user: string, port: int)
    requires Owned(w) && NoServerOf(w.ports, user) && port >= 0 && (port == 0 || !HeldByOther(w.db.rows, user, port))
    ensures Owned(w.(db := ApplyChange(w.db, user, AssignPort(port)).0))
  {
    if user in w.db.rows {
      var rows := w.db.rows[user := w.db.rows[user].(port := port)];
      assert PortsOk(rows);
      assert forall q <- w.ports.servers :: OwnedAt(w.ports, w.db.rows, q);
    }
  }

  /** Starting a user's server where none of theirs runs. */
  lemma StartOwned(w: World, user: string, port: int)
    requires Owned(w) && NoServerOf(w.ports, user) && user in w.db.rows && w.db.rows[user].port == port > 0
    ensures Owned(w.(ports := Started(w.ports, port, user)))
  {
    assert port in w.ports.servers ==> OwnedAt(w.ports, w.db.rows, port);
  }

  /** Moving a user to a port no other user holds. */
  lemma MovedOwned(w: World, user: string, port: int, was: int)
    requires Owned(w) && IsOldPort(w.ports, user, was) && port >= 0
    requires port == 0 || !HeldByOther(w.db.rows, user, port)
    ensures Owned(Moved(w, user, port, was))
    ensures port == 0 ==> NoServerOf(Moved(w, user, port, was).ports, user)
  {
    OldPortIsAssigned(w, user, was);
    StoppedOwned(w, was);
    var stopped := w.(ports := if was != 0 then Stopped(w.ports, was) else w.ports);
    assert NoServerOf(stopped.ports, user) by {
      assert forall q <- w.ports.servers :: OwnedAt(w.ports, w.db.rows, q);
    }
    AssignOwned(stopped, user, port);
    if user in w.db.rows && port > 0 {
      StartOwned(stopped.(db := ApplyChange(w.db, user, AssignPort(port)).0), user, port);
    }
  }

  /** A new row on a free port keeps ports distinct. */
  lemma AddedRow(rows: Table, user: string, row: Row)
    requires PortsOk(rows) && user != "" && row.port >= 0 && !PortUsed(rows, row.port)
    ensures PortsOk(rows[user := row]) && !HeldByOther(rows[user := row], user, row.port)
  {
    assert forall u <- rows :: PortUsed(rows, rows[u].port);
  }

  lemma AddedOwned(w: World, user: string, row: Row, db: Db)
    requires Owned(w) && user !in w.db.rows && db.rows == w.db.rows[user := row] && PortsOk(db.rows)
    ensures Owned(w.(db := db))
  {}

  lemma CreateOwned(c: Config, w: World, a: Action, w': World)
    requires Owned(w) && a.Create? && Next(c, w, a, w')
    ensures Owned(w')
  {
    var (db, reply) := ApplyAdd(w.db, a.user, a.password, a.hashing, c.min, c.max);
    if reply.Port? {
      var row := NewRow(a.password, a.hashing.value, reply.port);
      assert reply.port !in UsedPorts(w.db.rows);
      AddedRow(w.db.rows, a.user, row);
      AddedOwned(w, a.user, row, db);
      var was :| IsOldPort(w.ports, a.user, was) && w' == Moved(w.(db := db), a.user, reply.port, was);
      MovedOwned(w.(db := db), a.user, reply.port, was);
    }
  }

  lemma RemoveOwned(c: Config, w: World, user: string, w': World)
    requires Owned(w) && AfterRemove(w, user, w')
    ensures Owned(w')
  {
    if user != "" {
      if PortOf(w.db.rows, user) > 0 {
        var mid :| MovedRel(w, user, 0, mid) && w' == mid.(db := ApplyDelete(mid.db, user).0);
        var was :| IsOldPort(w.ports, user, was) && mid == Moved(w, user, 0, was);
        MovedOwned(w, user, 0, was);
        DeleteOwned(mid, user);
      } else {
        DeleteOwned(w, user);
      }
    }
  }

  lemma DeleteOwned(w: World, user: string)
    requires Owned(w) && NoServerOf(w.ports, user)
    ensures Owned(w.(db := ApplyDelete(w.db, user).0))
  {}

  /** Starting servers for users on the ports the database assigns them. */
  lemma FilledOwned(rows: Table, p: Ports, should: map<int, string>, p': Ports)
    requires Owned(World(Open(rows, 0), p, 0)) && Filled(p, should, p')
    requires forall port <- should :: port > 0 && should[port] in rows && rows[should[port]].port == port
    ensures Owned(World(Open(rows, 0), p', 0))
  {
    assert p'.portUsers.Keys == p'.servers.Keys;
    forall port | port in p'.servers
      ensures OwnedAt(p', rows, port)
    {
      if port in p.servers {
        assert OwnedAt(p, rows, port);
      }
    }
  }

  lemma PrunedOwned(rows: Table, p: Ports, should: map<int, string>)
    requires Owned(World(Open(rows, 0), p, 0))
    ensures Owned(World(Open(rows, 0), Pruned(p, should), 0))
  {}

  lemma ReconcileOwned(c: Config, w: World, w': World)
    requires Owned(w) && Next(c, w, Reconcile, w')
    ensures Owned(w')
  {
    var want, rows := WantedBy(c, w.db, w.now), w.db.rows;
    var ports :| IsPortList(rows, ports) && Filled(Pruned(w.ports, Selected(c, ports, want)), Selected(c, ports, want), w'.ports);
    assert Owned(World(Open(rows, 0), w.ports, 0));
    PrunedOwned(rows, w.ports, Selected(c, ports, want));
    FilledOwned(rows, Pruned(w.ports, Selected(c, ports, want)), Selected(c, ports, want), w'.ports);
  }

  lemma BootOwned(c: Config, w: World, w': World)
    requires Owned(w) && Next(c, w, Boot, w')
    ensures Owned(w')
  {
    var want, rows := WantedBy(c, Open(w.db.rows, w.now), w.now), w.db.rows;
    var empty := Ports(map[], map[], w.ports.nextId, w.ports.orphaned);
    var ports :| IsPortList(rows, ports) && Filled(empty, Selected(c, ports, want), w'.ports);
    assert Owned(World(Open(rows, 0), empty, 0));
    FilledOwned(rows, empty, Selected(c, ports, want), w'.ports);
  }

  lemma CheckPorts(d: Db, given: Credentials, hashing: Option<int>, now: int)
    ensures SamePorts(d.rows, CheckCredentials(d, given, hashing, now).0.rows)
  {}

  lemma PasswordPorts(d: Db, user: string, password: string, hashing: Option<int>)
    ensures SamePorts(d.rows, ApplyChangePassword(d, user, password, hashing).0.rows)
  {}

  lemma OtherOwned(w: World, op: Op)
    requires Owned(w) && NoListener(op)
    ensures Owned(w.(db := Apply(w.db, op, w.now).0))
  {
    var db := Apply(w.db, op, w.now).0;
    match op {
      case Change(user, edit) => EditPort(w.db, user, edit);
      case Check(header, hashing) => CheckPorts(w.db, Parse(header), hashing, w.now);
      case ChangePassword(user, password, hashing) => PasswordPorts(w.db, user, password, hashing);
    }
    assert SamePorts(w.db.rows, db.rows);
    SamePortsOwned(w, db);
  }

  /** An edit that leaves ports alone, and whatever it does to the user's listener. */
  lemma EditOwned(w: World, user: string, edit: Edit, ports: Ports)
    requires Owned(w) && !edit.AssignPort?
    requires var db, port := ApplyChange(w.db, user, edit).0, PortOf(ApplyChange(w.db, user, edit).0.rows, user);
             ports == w.ports || ports == Stopped(w.ports, port)
             || (port > 0 && ports == Ensured(w.ports, port, user))
    ensures Owned(World(ApplyChange(w.db, user, edit).0, ports, w.now))
  {
    var db := ApplyChange(w.db, user, edit).0;
    EditPort(w.db, user, edit);
    SamePortsOwned(w, db);
    StoppedOwned(w.(db := db), PortOf(db.rows, user));
    if PortOf(db.rows, user) > 0 {
      EnsuredOwned(w.(db := db), user);
    }
  }

  lemma MoveOwned(c: Config, w: World, user: string, port: int, w': World)
    requires Owned(w) && AfterMove(c, w, user, port, w')
    ensures Owned(w')
  {
    if w' != w {
      var was :| IsOldPort(w.ports, user, was) && w' == Moved(w, user, port, was);
      MovedOwned(w, user, port, was);
    }
  }

  lemma EnablingOwned(c: Config, w: World, user: string, on: bool)
    requires Owned(w)
    ensures Owned(AfterEnabling(c, w, user, on))
  {
    if user != "" {
      EditOwned(w, user, Enable(on), AfterEnabling(c, w, user, on).ports);
    }
  }

  lemma LiftOwned(w: World, user: string, minutes: int)
    requires Owned(w)
    ensures Owned(AfterLift(w, user, minutes))
  {
    if user != "" {
      var edit := if minutes <= 0 then NoOverride else Override(w.now + minutes * MINUTE);
      var w' := AfterLift(w, user, minutes);
      var db := ApplyChange(w.db, user, edit).0;
      var port := PortOf(db.rows, user);
      assert w'.db == db && w'.now == w.now;
      assert w'.ports == w.ports || (port > 0 && w'.ports == Ensured(w.ports, port, user));
      EditOwned(w, user, edit, w'.ports);
    }
  }

  lemma DowntimeNowOwned(c: Config, w: World, user: string, minutes: int)
    requires Owned(w)
    ensures Owned(AfterDowntimeNow(c, w, user, minutes))
  {
    if user != "" {
      var edit := if minutes <= 0 then NoUntil else Until(w.now + minutes * MINUTE);
      var w' := AfterDowntimeNow(c, w, user, minutes);
      var db := ApplyChange(w.db, user, edit).0;
      var port := PortOf(db.rows, user);
      assert w'.db == db && w'.now == w.now;
      assert w'.ports == w.ports || w'.ports == Stopped(w.ports, port)
             || (port > 0 && w'.ports == Ensured(w.ports, port, user));
      EditOwned(w, user, edit, w'.ports);
    }
  }

  /** Every action keeps ownership. */
  lemma StepOwned(c: Config, w: World, a: Action, w': World)
    requires Owned(w) && Next(c, w, a, w')
    ensures Owned(w')
  {
    match a {
      case Create(_, _, _) => CreateOwned(c, w, a, w');
      case Remove(user) => RemoveOwned(c, w, user, w');
      case Move(user, port) => MoveOwned(c, w, user, port, w');
      case Enabling(user, on) => EnablingOwned(c, w, user, on);
      case Lift(user, minutes) => LiftOwned(w, user, minutes);
      case DowntimeNow(user, minutes) => DowntimeNowOwned(c, w, user, minutes);
      case Other(op) =>
        if NoListener(op) {
          OtherOwned(w, op);
        }
      case Reconcile => ReconcileOwned(c, w, w');
      case BindFails(port, _) => StoppedOwned(w, port);
      case Boot => BootOwned(c, w, w');
      case Tick(_) =>
    }
  }

  // ---------------------------------------------------------------- theorems

  /** A history: the worlds passed through, each one action after the one before. */
  ghost predicate IsRun(c: Config, worlds: seq<World>, actions: seq<Action>) {
    |worlds| == |actions| + 1 && forall i :: 0 <= i < |actions| ==> Next(c, worlds[i], actions[i], worlds[i + 1])
  }

  /** From any table with distinct ports and no server running, every history of admin
      actions, reconciliations, failed binds and restarts keeps each running server owned by
      the user whom both portUsers and the database name for its port, and never starts a
      server over a live one. */
  lemma {:induction false} OwnershipTheorem(c: Config, worlds: seq<World>, actions: seq<Action>, i: nat)
    requires IsRun(c, worlds, actions) && i < |worlds|
    requires PortsOk(worlds[0].db.rows) && worlds[0].ports == Ports(map[], map[], 0, {})
    ensures Owned(worlds[i])
  {
    if i > 0 {
      OwnershipTheorem(c, worlds, actions, i - 1);
      StepOwned(c, worlds[i - 1], actions[i - 1], worlds[i]);
    }
  }

  predicate InRange(c: Config, port: int) { port == 0 || c.min <= port <= c.max }

  /** Every assigned port is one that may be listened on. */
  ghost predicate AllInRange(c: Config, rows: Table) {
    forall u <- rows :: InRange(c, rows[u].port)
  }

  lemma MovedInRange(c: Config, w: World, user: string, port: int, was: int)
    requires AllInRange(c, w.db.rows) && InRange(c, port)
    ensures AllInRange(c, Moved(w, user, port, was).db.rows)
  {}

  lemma EditInRange(c: Config, d: Db, user: string, edit: Edit)
    requires AllInRange(c, d.rows) && !edit.AssignPort?
    ensures AllInRange(c, ApplyChange(d, user, edit).0.rows)
  {}

  lemma CreateInRange(c: Config, w: World, a: Action, w': World)
    requires AllInRange(c, w.db.rows) && a.Create? && Next(c, w, a, w')
    ensures AllInRange(c, w'.db.rows)
  {
    var (db, reply) := ApplyAdd(w.db, a.user, a.password, a.hashing, c.min, c.max);
    if reply.Port? {
      var was :| IsOldPort(w.ports, a.user, was) && w' == Moved(w.(db := db), a.user, reply.port, was);
      MovedInRange(c, w.(db := db), a.user, reply.port, was);
    }
  }

  lemma RemoveInRange(c: Config, w: World, user: string, w': World)
    requires AllInRange(c, w.db.rows) && AfterRemove(w, user, w')
    ensures AllInRange(c, w'.db.rows)
  {
    if user != "" && PortOf(w.db.rows, user) > 0 {
      var mid :| MovedRel(w, user, 0, mid) && w' == mid.(db := ApplyDelete(mid.db, user).0);
      var was :| IsOldPort(w.ports, user, was) && mid == Moved(w, user, 0, was);
      MovedInRange(c, w, user, 0, was);
    }
  }

  lemma OtherInRange(c: Config, w: World, op: Op)
    requires AllInRange(c, w.db.rows) && NoListener(op)
    ensures AllInRange(c, Apply(w.db, op, w.now).0.rows)
  {
    match op {
      case Change(user, edit) => EditInRange(c, w.db, user, edit);
      case Check(header, hashing) => CheckPorts(w.db, Parse(header), hashing, w.now);
      case ChangePassword(user, password, hashing) => PasswordPorts(w.db, user, password, hashing);
    }
  }

  lemma MoveInRange(c: Config, w: World, user: string, port: int, w': World)
    requires AllInRange(c, w.db.rows) && AfterMove(c, w, user, port, w')
    ensures AllInRange(c, w'.db.rows)
  {
    if w' != w {
      var was :| IsOldPort(w.ports, user, was) && w' == Moved(w, user, port, was);
      MovedInRange(c, w, user, port, was);
    }
  }

  lemma SettingInRange(c: Config, w: World, user: string, edit: Edit, w': World)
    requires AllInRange(c, w.db.rows) && !edit.AssignPort?
    requires w'.db == w.db || w'.db == ApplyChange(w.db, user, edit).0
    ensures AllInRange(c, w'.db.rows)
  {
    EditInRange(c, w.db, user, edit);
  }

  lemma StepInRange(c: Config, w: World, a: Action, w': World)
    requires AllInRange(c, w.db.rows) && Next(c, w, a, w')
    ensures AllInRange(c, w'.db.rows)
  {
    match a {
      case Create(_, _, _) => CreateInRange(c, w, a, w');
      case Remove(user) => RemoveInRange(c, w, user, w');
      case Move(user, port) => MoveInRange(c, w, user, port, w');
      case Enabling(user, on) => SettingInRange(c, w, user, Enable(on), w');
      case Lift(user, minutes) =>
        SettingInRange(c, w, user, if minutes <= 0 then NoOverride else Override(w.now + minutes * MINUTE), w');
      case DowntimeNow(user, minutes) =>
        SettingInRange(c, w, user, if minutes <= 0 then NoUntil else Until(w.now + minutes * MINUTE), w');
      case Other(op) =>
        if NoListener(op) {
          OtherInRange(c, w, op);
        }
      case _ =>
    }
  }

  /** Through every history the assigned ports stay distinct and in range, so that listing
      them by port always inverts the assignment. */
  lemma AllocationTheorem(c: Config, worlds: seq<World>, actions: seq<Action>, i: nat, ports: map<int, string>)
    requires IsRun(c, worlds, actions) && i < |worlds| && IsPortList(worlds[i].db.rows, ports)
    requires PortsOk(worlds[0].db.rows) && AllInRange(c, worlds[0].db.rows)
    requires worlds[0].ports == Ports(map[], map[], 0, {})
    ensures PortsOk(worlds[i].db.rows) && AllInRange(c, worlds[i].db.rows)
    ensures var rows := worlds[i].db.rows;
            forall p, u :: p > 0 && u in rows ==> (rows[u].port == p <==> p in ports && ports[p] == u)
  {
    OwnershipTheorem(c, worlds, actions, i);
    RunInRange(c, worlds, actions, i);
    PortListInverts(worlds[i].db.rows, ports);
  }

  lemma {:induction false} RunInRange(c: Config, worlds: seq<World>, actions: seq<Action>, i: nat)
    requires IsRun(c, worlds, actions) && i < |worlds| && AllInRange(c, worlds[0].db.rows)
    ensures AllInRange(c, worlds[i].db.rows)
  {
    if i > 0 {
      RunInRange(c, worlds, actions, i - 1);
      StepInRange(c, worlds[i - 1], actions[i - 1], worlds[i]);
    }
  }

  /** Creating a user takes the least free port of the range, and finds none exactly when
      every port of the range is held. */
  lemma AddTakesLeast(c: Config, d: Db, user: string, password: string, salt: int)
    requires user != "" && password != "" && user !in d.rows
    ensures var reply := ApplyAdd(d, user, password, Some(salt), c.min, c.max).1;
            && (reply.Port? <==> exists q :: c.min <= q <= c.max && !PortUsed(d.rows, q))
            && (reply.Port? ==> c.min <= reply.port <= c.max && !PortUsed(d.rows, reply.port)
                                && forall q :: c.min <= q < reply.port ==> PortUsed(d.rows, q))
            && (!reply.Port? ==> reply == Fail(NoPortAvailable))
  {
    var free := FirstFree(UsedPorts(d.rows), c.min, c.max);
    if free.Some? {
      assert !PortUsed(d.rows, free.value);
    }
  }

  /** The ports, in range, of users whose listener is wanted. */
  ghost predicate ShouldListen(c: Config, rows: Table, want: string -> bool, port: int) {
    exists u :: u in rows && rows[u].port == port && port > 0 && c.min <= port <= c.max && want(u)
  }

  /** Reconciled, exactly the ports to run are listed, and those that ran keep their server. */
  lemma FilledOnce(p: Ports, should: map<int, string>, p': Ports)
    requires p.portUsers.Keys == p.servers.Keys && Filled(Pruned(p, should), should, p')
    ensures p'.servers.Keys == should.Keys == p'.portUsers.Keys && Pruned(p', should) == p'
    ensures forall port :: port in p.servers && port in should ==> p'.servers[port] == p.servers[port]
  {
    assert p'.servers.Keys - should.Keys == {};
  }

  /** With one and the same set of ports to run, reconciling twice is reconciling once. */
  lemma FilledTwice(p: Ports, should: map<int, string>, p': Ports, p'': Ports)
    requires p.portUsers.Keys == p.servers.Keys
    requires Filled(Pruned(p, should), should, p') && Filled(Pruned(p', should), should, p'')
    ensures p'' == p'
  {
    FilledOnce(p, should, p');
  }

  lemma SelectedIff(c: Config, rows: Table, ports: map<int, string>, want: string -> bool)
    requires PortsOk(rows) && IsPortList(rows, ports)
    ensures forall port :: port in Selected(c, ports, want) <==> ShouldListen(c, rows, want, port)
  {
    PortListInverts(rows, ports);
    forall port
      ensures port in Selected(c, ports, want) <==> ShouldListen(c, rows, want, port)
    {
      if u :| u in rows && rows[u].port == port && port > 0 && c.min <= port <= c.max && want(u) {
        assert ports[port] == u;
      }
    }
  }

  lemma PortListUnique(rows: Table, p1: map<int, string>, p2: map<int, string>)
    requires PortsOk(rows) && IsPortList(rows, p1) && IsPortList(rows, p2)
    ensures p1 == p2
  {
    PortListInverts(rows, p1);
    PortListInverts(rows, p2);
    forall p
      ensures p in p1 <==> p in p2
      ensures p in p1 ==> p1[p] == p2[p]
    {}
  }

  /** An uninterrupted reconcile leaves running exactly the wanted ports, keeps the server of
      every port that was running and still is, and done again at the same moment changes nothing. */
  lemma ReconcileTheorem(c: Config, w: World, w': World, w'': World)
    requires Owned(w) && Next(c, w, Reconcile, w') && Next(c, w', Reconcile, w'')
    ensures forall port :: port in w'.ports.servers <==> ShouldListen(c, w.db.rows, WantedBy(c, w.db, w.now), port)
    ensures forall port :: port in w.ports.servers && port in w'.ports.servers ==>
              w'.ports.servers[port] == w.ports.servers[port]
    ensures w'' == w'
  {
    var want := WantedBy(c, w.db, w.now);
    var p1 :| IsPortList(w.db.rows, p1) && Filled(Pruned(w.ports, Selected(c, p1, want)), Selected(c, p1, want), w'.ports);
    var p2 :| IsPortList(w.db.rows, p2) && Filled(Pruned(w'.ports, Selected(c, p2, want)), Selected(c, p2, want), w''.ports);
    PortListUnique(w.db.rows, p1, p2);
    SelectedIff(c, w.db.rows, p1, want);
    FilledOnce(w.ports, Selected(c, p1, want), w'.ports);
    FilledTwice(w.ports, Selected(c, p1, want), w'.ports, w''.ports);
  }
}
