/** The user database of pkg/userdb/userdb.go: the table, the caches that speed it up, and
    what each operation does to both. Times are nanoseconds since the Unix epoch. */
module UserTable {
  import opened Options
  import ClockText
  import opened Downtime

  const SECOND: int := 1_000_000_000
  const CACHE_TTL: int := 300 * SECOND

  /** A stored password hash. Hashing is taken to be injective, so a readable hash determines
      the password it was made from; current tells whether it uses today's parameters. */
  datatype Hash = Argon(current: bool, salt: int, password: string) | Unreadable

  /** A row. An empty schedule and a missing deadline are stored as empty text; deadlines are
      stored in whole seconds. */
  datatype Row = Row(hash: Hash, dnsServer: string, dnsProtocol: string, port: int, enabled: bool,
                     schedule: Schedule, overrideUntil: Option<int>, downtimeUntil: Option<int>)

  type Table = map<string, Row>

  /** A password that was verified, by its digest, and until when that is remembered. */
  datatype CachedAuth = CachedAuth(password: string, validUntil: int)

  datatype DnsEntry = DnsEntry(server: string, protocol: string)

  datatype Db = Db(rows: Table, auth: map<string, CachedAuth>, dns: map<string, DnsEntry>,
                   downtime: map<string, Schedule>, override: map<string, int>,
                   until: map<string, int>, enabled: map<string, bool>)

  datatype Error =
    | NoCredentials | MalformedAuth | UnknownUser | WrongPassword | UserExists
    | NoPortAvailable | EmptyField | HashingFailed

  datatype Reply = Done | Port(port: int) | User(name: string) | Fail(error: Error)

  /** A Proxy-Authorization value: absent, not decodable as Basic, or its decoded text. */
  datatype Header = Absent | Undecodable | Basic(text: string)

  datatype Credentials = NotGiven | Malformed | Credentials(user: string, password: string)

  /** Splits the decoded text at its first colon. */
  function Parse(h: Header): (r: Credentials)
    ensures r.Credentials? ==> ':' !in r.user
    ensures r.Credentials? ==> h == Basic(r.user + ":" + r.password)
  {
    match h
    case Absent => NotGiven
    case Undecodable => Malformed
    case Basic(text) =>
      var colon := ClockText.IndexOf(text, ':');
      if colon == |text| then Malformed
      else
        assert text == text[..colon] + ":" + text[colon + 1..];
        Credentials(text[..colon], text[colon + 1..])
  }

  /** Exactly a decoded text with a colon carries credentials: a name without colons, before
      its first colon, and a password after it. */
  lemma ParseTheorem(h: Header, user: string, password: string)
    ensures Parse(h) == Credentials(user, password) <==> ':' !in user && h == Basic(user + ":" + password)
    ensures Parse(h).NotGiven? <==> h.Absent?
    ensures Parse(h).Malformed? <==> h.Undecodable? || (h.Basic? && ':' !in h.text)
  {
    if ':' !in user && h == Basic(user + ":" + password) {
      assert h.text[..|user|] == user && h.text[|user| + 1..] == password;
      ClockText.FirstAt(h.text, ':', |user|);
    }
  }

  function NewRow(password: string, salt: int, port: int): Row {
    Row(Argon(true, salt, password), "", "", port, true, map[], None, None)
  }

  predicate Verifies(password: string, hash: Hash) {
    hash.Argon? && hash.password == password
  }

  predicate NeedsRehash(hash: Hash) {
    !hash.Argon? || !hash.current
  }

  // ---------------------------------------------------------------- ports

  ghost predicate PortUsed(rows: Table, p: int) {
    exists u :: u in rows && rows[u].port == p
  }

  function UsedPorts(rows: Table): (r: set<int>)
    ensures forall p :: p in r <==> PortUsed(rows, p)
  {
    set u | u in rows :: rows[u].port
  }

  /** No port other than zero is held twice, none is negative, and no row has an empty name. */
  ghost predicate PortsOk(rows: Table) {
    && (forall u, v :: u in rows && v in rows && u != v && rows[u].port == rows[v].port ==> rows[u].port == 0)
    && (forall u <- rows :: rows[u].port >= 0)
    && "" !in rows
  }

  /** ports lists, for every positive port in use, a user who holds it. */
  ghost predicate IsPortList(rows: Table, ports: map<int, string>) {
    && (forall p <- ports :: p > 0 && ports[p] in rows && rows[ports[p]].port == p)
    && (forall u <- rows :: rows[u].port > 0 ==> rows[u].port in ports)
  }

  /** While ports are distinct the list inverts the assignment. */
  lemma PortListInverts(rows: Table, ports: map<int, string>)
    requires PortsOk(rows) && IsPortList(rows, ports)
    ensures forall p, u :: p > 0 && u in rows ==> (rows[u].port == p <==> p in ports && ports[p] == u)
  {}

  /** The first port from p to max not in use. */
  function FirstFree(used: set<int>, p: int, max: int): (r: Option<int>)
    ensures r.Some? ==> p <= r.value <= max && r.value !in used && forall q :: p <= q < r.value ==> q in used
    ensures r.None? ==> forall q :: p <= q <= max ==> q in used
    decreases max - p
  {
    if p > max then None else if p !in used then Some(p) else FirstFree(used, p + 1, max)
  }

  // ---------------------------------------------------------------- operations

  /** A change of one user's settings: one column of the row, and the cache of that column. */
  datatype Edit =
    | Enable(on: bool)
    | Dns(server: string, protocol: string)
    | Downtime(schedule: Schedule)
    | Override(deadline: int)
    | NoOverride
    | Until(deadline: int)
    | NoUntil
    | AssignPort(port: int)

  datatype Op =
    | Add(user: string, password: string, hashing: Option<int>, min: int, max: int)
    | Delete(user: string)
    | ChangePassword(user: string, password: string, hashing: Option<int>)
    | Check(header: Header, hashing: Option<int>)
    | Change(user: string, edit: Edit)
    | Reopen

  function Drop<K, V>(m: map<K, V>, k: K): map<K, V> { m - {k} }

  function Updated(d: Db, user: string, row: Row): Db
    requires user in d.rows
  {
    d.(rows := d.rows[user := row])
  }

  function ApplyAdd(d: Db, user: string, password: string, hashing: Option<int>, min: int, max: int): (Db, Reply) {
    if user == "" || password == "" then (d, Fail(EmptyField))
    else if hashing.None? then (d, Fail(HashingFailed))
    else match FirstFree(UsedPorts(d.rows), min, max)
      case None => (d, Fail(NoPortAvailable))
      case Some(port) =>
        if user in d.rows then (d, Fail(UserExists))
        else (d.(rows := d.rows[user := NewRow(password, hashing.value, port)], enabled := d.enabled[user := true]),
              Port(port))
  }

  /** Every cache forgets the user, except the one for ad-hoc downtime. */
  function ApplyDelete(d: Db, user: string): (Db, Reply) {
    if user !in d.rows then (d, Fail(UnknownUser))
    else (d.(rows := Drop(d.rows, user), auth := Drop(d.auth, user), dns := Drop(d.dns, user),
             downtime := Drop(d.downtime, user), override := Drop(d.override, user),
             enabled := Drop(d.enabled, user)), Done)
  }

  function ApplyChangePassword(d: Db, user: string, password: string, hashing: Option<int>): (Db, Reply) {
    if password == "" then (d, Fail(EmptyField))
    else if hashing.None? then (d, Fail(HashingFailed))
    else if user !in d.rows then (d, Fail(UnknownUser))
    else (Updated(d, user, d.rows[user].(hash := Argon(true, hashing.value, password))).(auth := Drop(d.auth, user)), Done)
  }

  function ApplyCheck(d: Db, header: Header, hashing: Option<int>, now: int): (Db, Reply) {
    CheckCredentials(d, Parse(header), hashing, now)
  }

  function CheckCredentials(d: Db, given: Credentials, hashing: Option<int>, now: int): (Db, Reply) {
    match given
    case NotGiven => (d, Fail(NoCredentials))
    case Malformed => (d, Fail(MalformedAuth))
    case Credentials(user, password) =>
      if user in d.auth && now < d.auth[user].validUntil then
        (d, if d.auth[user].password == password then User(user) else Fail(WrongPassword))
      else if user !in d.rows then (d, Fail(UnknownUser))
      else if !Verifies(password, d.rows[user].hash) then (d, Fail(WrongPassword))
      else
        var hash := if NeedsRehash(d.rows[user].hash) && hashing.Some?
                    then Argon(true, hashing.value, password) else d.rows[user].hash;
        (Updated(d, user, d.rows[user].(hash := hash)).(auth := d.auth[user := CachedAuth(password, now + CACHE_TTL)]),
         User(user))
  }

  function Stored(deadline: int): int { deadline / SECOND }

  /** The row as the edit leaves it in the table. */
  function Edited(row: Row, edit: Edit): Row {
    match edit
    case Enable(on) => row.(enabled := on)
    case Dns(server, protocol) => row.(dnsServer := server, dnsProtocol := protocol)
    case Downtime(schedule) => row.(schedule := schedule)
    case Override(deadline) => row.(overrideUntil := Some(Stored(deadline)))
    case NoOverride => row.(overrideUntil := None)
    case Until(deadline) => row.(downtimeUntil := Some(Stored(deadline)))
    case NoUntil => row.(downtimeUntil := None)
    case AssignPort(port) => row.(port := port)
  }

  /** The database with the cache of the edited column brought up to date. */
  function Recached(d: Db, user: string, edit: Edit): (r: Db)
    ensures r.rows == d.rows && r.auth == d.auth
  {
    match edit
    case Enable(on) => d.(enabled := d.enabled[user := on])
    case Dns(server, protocol) =>
      d.(dns := if server == "" then Drop(d.dns, user) else d.dns[user := DnsEntry(server, protocol)])
    case Downtime(schedule) =>
      d.(downtime := if schedule == map[] then Drop(d.downtime, user) else d.downtime[user := schedule])
    case Override(deadline) => d.(override := d.override[user := deadline])
    case NoOverride => d.(override := Drop(d.override, user))
    case Until(deadline) => d.(until := d.until[user := deadline])
    case NoUntil => d.(until := Drop(d.until, user))
    case AssignPort(_) => d
  }

  function ApplyChange(d: Db, user: string, edit: Edit): (Db, Reply) {
    if user !in d.rows then (d, Fail(UnknownUser))
    else (Updated(Recached(d, user, edit), user, Edited(d.rows[user], edit)), Done)
  }

  /** Opening a table: every cache is loaded from it, deadlines only if still ahead. */
  function Open(rows: Table, now: int): Db {
    Db(rows, map[], LoadedDns(rows), LoadedDowntime(rows), LoadedOverride(rows, now), LoadedUntil(rows, now),
       LoadedEnabled(rows))
  }

  function LoadedDns(rows: Table): map<string, DnsEntry> {
    map u | u in rows && rows[u].dnsServer != "" :: DnsEntry(rows[u].dnsServer, rows[u].dnsProtocol)
  }

  function LoadedDowntime(rows: Table): map<string, Schedule> {
    map u | u in rows && rows[u].schedule != map[] :: rows[u].schedule
  }

  function LoadedEnabled(rows: Table): map<string, bool> {
    map u | u in rows :: rows[u].enabled
  }

  predicate Ahead(stored: Option<int>, now: int) { stored.Some? && now < stored.value * SECOND }

  function LoadedOverride(rows: Table, now: int): map<string, int> {
    map u | u in rows && Ahead(rows[u].overrideUntil, now) :: rows[u].overrideUntil.value * SECOND
  }

  function LoadedUntil(rows: Table, now: int): map<string, int> {
    map u | u in rows && Ahead(rows[u].downtimeUntil, now) :: rows[u].downtimeUntil.value * SECOND
  }

  function Apply(d: Db, op: Op, now: int): (Db, Reply) {
    match op
    case Add(user, password, hashing, min, max) => ApplyAdd(d, user, password, hashing, min, max)
    case Delete(user) => ApplyDelete(d, user)
    case ChangePassword(user, password, hashing) => ApplyChangePassword(d, user, password, hashing)
    case Check(header, hashing) => ApplyCheck(d, header, hashing, now)
    case Change(user, edit) => ApplyChange(d, user, edit)
    case Reopen => (Open(d.rows, now), Done)
  }

  // ---------------------------------------------------------------- queries

  function GetDns(d: Db, user: string): DnsEntry {
    if user in d.dns then d.dns[user] else DnsEntry("", "")
  }

  predicate IsEnabled(d: Db, user: string) {
    user in d.enabled && d.enabled[user]
  }

  function GetDowntime(d: Db, user: string): Schedule {
    if user in d.downtime then d.downtime[user] else map[]
  }

  function Deadline(m: map<string, int>, user: string): Option<int> {
    if user in m then Some(m[user]) else None
  }

  predicate Before(now: int, deadline: Option<int>) {
    deadline.Some? && now < deadline.value
  }

  function Weekday(now: int): (r: int)
    ensures 0 <= r < 7
  {
    (now / (86400 * SECOND) + 4) % 7
  }

  function MinuteOfDay(now: int): (r: int)
    ensures 0 <= r < DAY
  {
    (now / (60 * SECOND)) % DAY
  }

  predicate Scheduled(schedule: Schedule, now: int) {
    IsInDowntime(schedule, Weekday(now), MinuteOfDay(now))
  }

  /** Some window covers minute x of the circular week, which begins on Sunday at 00:00: the
      window, filed under its day's digit, begins start minutes into the day and lasts up to
      its end, past midnight if the end is not after the start. */
  ghost predicate WindowCovers(schedule: Schedule, key: string, d: int, i: nat, x: int) {
    && key in schedule && |key| == 1 && ClockText.Digits(key) == ClockText.Value(d) && 0 <= d <= 6 && i < |schedule[key]|
    && var start, end := ClockText.Minutes(schedule[key][i].start), ClockText.Minutes(schedule[key][i].end);
       (x - (1440 * d + start)) % 10080 < if start < end then end - start else 1440 - start + end
  }

  /** The minute of the week at an instant: whole minutes since Sunday 1970-01-04 00:00. */
  function MinuteOfWeek(now: int): int {
    ((now - 259_200_000_000_000) / 60_000_000_000) % 10080
  }

  lemma DaysOfMinutes(now: int)
    ensures now / (86400 * SECOND) == now / 60_000_000_000 / 1440
  {
    var m, r := now / 60_000_000_000, now % 60_000_000_000;
    assert now == 86400 * SECOND * (m / 1440) + (60_000_000_000 * (m % 1440) + r);
  }

  lemma SinceSunday(now: int)
    ensures (now - 259_200_000_000_000) / 60_000_000_000 == now / 60_000_000_000 - 4320
  {}

  lemma WeekOfMinutes(m: int)
    ensures (m - 4320) % 10080 / 1440 == (m / 1440 + 4) % 7 && (m - 4320) % 10080 % 1440 == m % 1440
  {
    var k, mm := m / 1440, m % 1440;
    assert m - 4320 == 10080 * ((k + 4) / 7 - 1) + (1440 * ((k + 4) % 7) + mm);
    assert (m - 4320) % 10080 == 1440 * ((k + 4) % 7) + mm;
  }

  lemma WeekAndDay(now: int)
    ensures 0 <= MinuteOfWeek(now) < WEEK
    ensures MinuteOfWeek(now) / DAY == Weekday(now) && MinuteOfWeek(now) % DAY == MinuteOfDay(now)
  {
    DaysOfMinutes(now);
    SinceSunday(now);
    WeekOfMinutes(now / 60_000_000_000);
  }

  lemma DayDigit(key: string, d: int)
    requires 0 <= d <= 6
    ensures |key| == 1 && ClockText.Digits(key) == ClockText.Value(d) <==> key == DayKey(d)
  {
    if |key| == 1 {
      assert key == [key[0]];
    }
  }

  lemma CoversIsArc(schedule: Schedule, d: int, i: nat, x: int)
    requires 0 <= d <= 6 && DayKey(d) in schedule && i < |schedule[DayKey(d)]|
    ensures WindowCovers(schedule, DayKey(d), d, i, x) <==> InArc(d, WindowsOf(schedule, d)[i], x)
  {
    DayDigit(DayKey(d), d);
  }

  /** Some window of the schedule covers the minute of the week. */
  ghost predicate Covered(schedule: Schedule, x: int) {
    exists key: string, d: int, i: nat :: WindowCovers(schedule, key, d, i, x)
  }

  lemma CoveredIsArcs(schedule: Schedule, x: int)
    ensures Covered(schedule, x) <==> exists d, w :: 0 <= d < 7 && w in WindowsOf(schedule, d) && InArc(d, w, x)
  {
    if d, w :| 0 <= d < 7 && w in WindowsOf(schedule, d) && InArc(d, w, x) {
      var i :| 0 <= i < |WindowsOf(schedule, d)| && WindowsOf(schedule, d)[i] == w;
      CoversIsArc(schedule, d, i, x);
    }
    if key: string, d: int, i: nat :| WindowCovers(schedule, key, d, i, x) {
      DayDigit(key, d);
      CoversIsArc(schedule, d, i, x);
      assert WindowsOf(schedule, d)[i] in WindowsOf(schedule, d);
    }
  }

  /** At every instant the schedule blocks exactly if some window covers that minute of the week. */
  lemma InstantTheorem(schedule: Schedule, now: int)
    ensures Scheduled(schedule, now) <==> Covered(schedule, MinuteOfWeek(now))
  {
    WeekAndDay(now);
    WeeklyTheorem(schedule, MinuteOfWeek(now));
    CoveredIsArcs(schedule, MinuteOfWeek(now));
  }

  /** Ad-hoc downtime wins; otherwise an override lifts the schedule. */
  predicate Decide(adHoc: Option<int>, override: Option<int>, schedule: Schedule, now: int) {
    Before(now, adHoc) || (!Before(now, override) && schedule != map[] && Scheduled(schedule, now))
  }

  predicate InDowntime(d: Db, user: string, now: int) {
    Decide(Deadline(d.until, user), Deadline(d.override, user), GetDowntime(d, user), now)
  }
}
