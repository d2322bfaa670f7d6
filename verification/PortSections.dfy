/** The critical sections of the port listeners by themselves. Handlers, the reconciler and
    failing binds release the lock between them, so they may run in any order and with any
    user, port or snapshot that was read before other sections ran. */
module PortSections {
  import opened Options
  import opened UserTable
  import opened PortListeners

  /** The table and the listeners' two maps. */
  datatype Site = Site(rows: Table, ports: Ports)

  datatype Section =
    | AddSection(user: string, row: Row)      // writes to the database
    | AssignSection(user: string, port: int)
    | DeleteSection(user: string)
    | StopSection(port: int)                  // sections under the lock of the two maps
    | EnsureSection(port: int, user: string)
    | StartSection(port: int, user: string)   // the last part of UpdateUserPort
    | PruneSection(should: map<int, string>)
    | FillSection(should: map<int, string>)
    | FailSection(port: int, srv: Server)
    | ShutdownSection

  predicate WritesRows(a: Section) { a.AddSection? || a.AssignSection? || a.DeleteSection? }

  function RowsAfter(rows: Table, a: Section): Table
    requires WritesRows(a)
  {
    match a
    case AddSection(user, row) => if user in rows then rows else rows[user := row]
    case AssignSection(user, port) => if user in rows then rows[user := rows[user].(port := port)] else rows
    case DeleteSection(user) => rows - {user}
  }

  ghost predicate PortsStep(p: Ports, a: Section, p': Ports)
    requires !WritesRows(a)
  {
    match a
    case StopSection(port) => p' == Stopped(p, port)
    case EnsureSection(port, user) => p' == Ensured(p, port, user)
    case StartSection(port, user) => p' == Started(p, port, user)
    case PruneSection(should) => p' == Pruned(p, should)
    case FillSection(should) => Filled(p, should, p')
    case FailSection(port, srv) => p' == BindFailed(p, port, srv)
    case ShutdownSection => p' == p.(portUsers := map[], servers := map[])
  }

  ghost predicate SectionStep(s: Site, a: Section, s': Site) {
    if WritesRows(a) then s' == s.(rows := RowsAfter(s.rows, a))
    else s'.rows == s.rows && PortsStep(s.ports, a, s'.ports)
  }

  const IDLE: Ports := Ports(map[], map[], 0, {})

  ghost predicate IsInterleaving(states: seq<Site>, sections: seq<Section>) {
    && |states| == |sections| + 1 && states[0].ports == IDLE
    && forall i :: 0 <= i < |sections| ==> SectionStep(states[i], sections[i], states[i + 1])
  }

  /** The sections that write rows are the database's own operations. */
  lemma RowsTheorem(d: Db, user: string, password: string, salt: int, min: int, max: int, port: int)
    ensures RowsAfter(d.rows, AssignSection(user, port)) == ApplyChange(d, user, AssignPort(port)).0.rows
    ensures RowsAfter(d.rows, DeleteSection(user)) == ApplyDelete(d, user).0.rows
    ensures var (d', reply) := ApplyAdd(d, user, password, Some(salt), min, max);
            reply.Port? ==> d'.rows == RowsAfter(d.rows, AddSection(user, NewRow(password, salt, reply.port)))
  {}

  // ---------------------------------------------------------------- the two maps

  lemma SectionKeepsDomains(s: Site, a: Section, s': Site)
    requires s.ports.portUsers.Keys == s.ports.servers.Keys && SectionStep(s, a, s')
    ensures s'.ports.portUsers.Keys == s'.ports.servers.Keys
    ensures s'.ports.orphaned == s.ports.orphaned
              + (if a.StartSection? && a.port in s.ports.servers then {s.ports.servers[a.port]} else {})
  {}

  /** However the critical sections interleave, the two maps list the same ports, and a
      server is orphaned exactly if UpdateUserPort starts on a port already in use. */
  lemma {:induction false} InterleavingTheorem(states: seq<Site>, sections: seq<Section>, i: nat)
    requires IsInterleaving(states, sections) && i < |states|
    ensures states[i].ports.portUsers.Keys == states[i].ports.servers.Keys
    ensures states[i].ports.orphaned == {} <==>
              forall j :: 0 <= j < i && sections[j].StartSection? ==> sections[j].port !in states[j].ports.servers
  {
    if i > 0 {
      InterleavingTheorem(states, sections, i - 1);
      SectionKeepsDomains(states[i - 1], sections[i - 1], states[i]);
    }
  }

  // ---------------------------------------------------------------- owner, map and row

  predicate Assigned(rows: Table, user: string, port: int) {
    user in rows && rows[user].port == port
  }

  /** The captured owner of the server on the port, portUsers and the table agree. */
  predicate AgreesAt(s: Site, port: int)
    requires port in s.ports.servers
  {
    var owner := s.ports.servers[port].owner;
    port in s.ports.portUsers && s.ports.portUsers[port] == owner && Assigned(s.rows, owner, port)
  }

  ghost predicate Agrees(s: Site) {
    s.ports.portUsers.Keys == s.ports.servers.Keys && forall port <- s.ports.servers :: AgreesAt(s, port)
  }

  /** What a section must find for agreement to outlast it. */
  ghost predicate Fits(s: Site, a: Section) {
    var rows, servers := s.rows, s.ports.servers;
    match a
    case AssignSection(user, port) => user in rows ==> forall q <- servers :: servers[q].owner == user ==> q == port
    case DeleteSection(user) => forall q <- servers :: servers[q].owner != user
    case EnsureSection(port, user) => Assigned(rows, user, port) && (port in servers ==> servers[port].owner == user)
    case StartSection(port, user) => Assigned(rows, user, port)
    case FillSection(should) => forall port <- should :: port in servers || Assigned(rows, should[port], port)
    case _ => true
  }

  lemma RowsAgree(s: Site, a: Section, s': Site)
    requires Agrees(s) && SectionStep(s, a, s') && WritesRows(a)
    ensures Agrees(s') <==> Fits(s, a)
  {
    var servers := s.ports.servers;
    assert forall q <- servers :: AgreesAt(s, q);
    if Fits(s, a) {
      forall q | q in servers
        ensures AgreesAt(s', q)
      {
        assert AgreesAt(s, q);
      }
    }
    if Agrees(s') {
      forall q | q in servers
        ensures AgreesAt(s, q) && AgreesAt(s', q)
      {}
    }
  }

  lemma FillAgrees(s: Site, should: map<int, string>, s': Site)
    requires Agrees(s) && SectionStep(s, FillSection(should), s')
    ensures Agrees(s') <==> Fits(s, FillSection(should))
  {
    if Fits(s, FillSection(should)) {
      forall q | q in s'.ports.servers
        ensures AgreesAt(s', q)
      {
        assert q in s.ports.servers ==> AgreesAt(s, q);
      }
    }
    if Agrees(s') {
      forall q | q in should && q !in s.ports.servers
        ensures Assigned(s.rows, should[q], q)
      {
        assert AgreesAt(s', q);
      }
    }
  }

  lemma PortsAgree(s: Site, a: Section, s': Site)
    requires Agrees(s) && SectionStep(s, a, s') && !WritesRows(a) && !a.FillSection?
    ensures Agrees(s') <==> Fits(s, a)
  {
    if Fits(s, a) {
      forall q | q in s'.ports.servers
        ensures AgreesAt(s', q)
      {
        assert q in s.ports.servers ==> AgreesAt(s, q);
      }
    }
    if Agrees(s') && (a.EnsureSection? || a.StartSection?) {
      assert AgreesAt(s', a.port);
    }
  }

  lemma AgreementStep(s: Site, a: Section, s': Site)
    requires Agrees(s) && SectionStep(s, a, s')
    ensures Agrees(s') <==> Fits(s, a)
  {
    if WritesRows(a) {
      RowsAgree(s, a, s');
    } else if a.FillSection? {
      FillAgrees(s, a.should, s');
    } else {
      PortsAgree(s, a, s');
    }
  }

  /** Captured owners, portUsers and the table agree throughout an interleaving exactly if
      every section fits the state that it finds. */
  lemma {:induction false} AgreementTheorem(states: seq<Site>, sections: seq<Section>, n: nat)
    requires IsInterleaving(states, sections) && n < |states|
    ensures (forall i :: 0 <= i <= n ==> Agrees(states[i])) <==> (forall j :: 0 <= j < n ==> Fits(states[j], sections[j]))
  {
    if n > 0 {
      AgreementTheorem(states, sections, n - 1);
      if Agrees(states[n - 1]) {
        AgreementStep(states[n - 1], sections[n - 1], states[n]);
      }
    }
  }

  // ---------------------------------------------------------------- two histories

  /** UpdateUserPort gives a user a port; after its database write and before its start the
      reconciler runs, finds the port assigned and starts a server. Then UpdateUserPort
      starts its own over it. Each section fits, yet the reconciler's server is orphaned. */
  lemma InterleavedMoveOrphans(user: string, row: Row, port: int)
    returns (states: seq<Site>, sections: seq<Section>)
    requires row.port != port > 0
    ensures IsInterleaving(states, sections) && states[0].rows == map[user := row] && |states| == 5
    ensures sections == [AssignSection(user, port), PruneSection(map[port := user]), FillSection(map[port := user]),
                         StartSection(port, user)]
    ensures IsPortList(states[1].rows, map[port := user])
    ensures forall j :: 0 <= j < 4 ==> Fits(states[j], sections[j])
    ensures states[4].ports.orphaned == {Server(0, user)}
  {
    var should, rows := map[port := user], map[user := row.(port := port)];
    var filled := Started(IDLE, port, user);
    sections := [AssignSection(user, port), PruneSection(should), FillSection(should), StartSection(port, user)];
    states := [Site(map[user := row], IDLE), Site(rows, IDLE), Site(rows, IDLE), Site(rows, filled),
               Site(rows, Started(filled, port, user))];
    assert RowsAfter(map[user := row], sections[0]) == rows;
    assert Pruned(IDLE, should) == IDLE;
    assert Filled(IDLE, should, filled);
  }

  /** A handler that looked up a's port before the port went to b, and starts a's listener
      afterwards, leaves portUsers naming a under b's running server. */
  lemma StaleEnsure(a: string, b: string, row: Row, port: int)
    returns (states: seq<Site>, sections: seq<Section>)
    requires a != b && row.port == port != 0
    ensures IsInterleaving(states, sections) && |states| == 5
    ensures states[0].rows == map[a := row, b := row.(port := 0)]
    ensures sections == [AssignSection(a, 0), AssignSection(b, port), StartSection(port, b), EnsureSection(port, a)]
    ensures forall j :: 0 <= j < 3 ==> Fits(states[j], sections[j])
    ensures port in states[4].ports.servers && states[4].ports.servers[port].owner == b
    ensures !Fits(states[3], sections[3]) && !Agrees(states[4])
  {
    var rows0 := map[a := row, b := row.(port := 0)];
    var rows1 := rows0[a := row.(port := 0)];
    var rows2 := rows1[b := row];
    var ports := Started(IDLE, port, b);
    sections := [AssignSection(a, 0), AssignSection(b, port), StartSection(port, b), EnsureSection(port, a)];
    states := [Site(rows0, IDLE), Site(rows1, IDLE), Site(rows2, IDLE), Site(rows2, ports),
               Site(rows2, Ensured(ports, port, a))];
    assert rows1[b].(port := port) == row;
    assert !AgreesAt(states[4], port);
  }
}
