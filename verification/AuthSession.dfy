/** The session cache of pkg/proxy/handler.go, which lets a client that authenticated on a
    port go on for five minutes without credentials, and what every admission rests on. */
module AuthSession {
  import opened Options
  import opened ClockText
  import opened UserTable
  import AuthTransparency

  const SESSION_TTL: int := 300 * SECOND

  datatype Session = Session(user: string, expires: int)

  type Sessions = map<string, Session>

  function AuthCacheKey(ip: string, portUser: string): string {
    if portUser == "" then ip else ip + ":" + portUser
  }

  /** One look at a request's credentials: portUser is the port's captured owner, reply what
      checking the header gave. Every listener the proxy starts captures an owner; for a
      request without one portUser is "". */
  datatype Attempt = Attempt(ip: string, portUser: string, header: Header, reply: Reply, at: int)

  datatype Verdict = Denied | ByPassword(user: string) | BySession(user: string)

  /** The user vouched for by password, if the port is that user's or nobody's. */
  function Settle(reply: Reply, portUser: string): Option<string> {
    match reply
    case User(name) => if portUser != "" && name != portUser then None else Some(name)
    case _ => None
  }

  function SessionUser(sessions: Sessions, ip: string, portUser: string, now: int): string {
    var key := AuthCacheKey(ip, portUser);
    if key in sessions && now < sessions[key].expires then sessions[key].user else ""
  }

  /** A first request may fall back on a session, if it came without credentials; the retry
      after a challenge may not. */
  function Judge(sessions: Sessions, a: Attempt, retry: bool): Verdict {
    match Settle(a.reply, a.portUser)
    case Some(user) => ByPassword(user)
    case None =>
      if retry || !a.header.Absent? then Denied
      else
        var user := SessionUser(sessions, a.ip, a.portUser, a.at);
        if user == "" then Denied else BySession(user)
  }

  function Recorded(sessions: Sessions, ip: string, user: string, now: int): Sessions {
    sessions[AuthCacheKey(ip, user) := Session(user, now + SESSION_TTL)]
  }

  function Cleaned(sessions: Sessions, now: int): Sessions {
    map key | key in sessions && now <= sessions[key].expires :: sessions[key]
  }

  // ---------------------------------------------------------------- the key

  /** The owner's name ends in a colon and the user's, and the rest of it continues the
      client's address into the recorded one. */
  predicate Straddles(ip: string, portUser: string, recordedIp: string, user: string) {
    var n := |portUser| - |user| - 1;
    n >= 0 && portUser[n..] == ":" + user && recordedIp == ip + ":" + portUser[..n]
  }

  /** The key's last colon stands before a name without colons. */
  lemma LastColon(p: string, u: string, q: string, v: string)
    requires ':' !in v && p + ":" + u == q + ":" + v
    ensures |p| <= |q| && (':' !in u ==> |p| == |q|)
  {
    var s := p + ":" + u;
    assert s[|p|] == ':' && s[|q|] == ':';
    assert forall k :: |p| < k < |s| ==> s[k] == u[k - |p| - 1];
    assert forall k :: |q| < k < |s| ==> s[k] == v[k - |q| - 1];
  }

  lemma SplitKey(p: string, u: string, q: string, v: string)
    requires ':' !in v && p + ":" + u == q + ":" + v
    ensures (p == q && u == v) || Straddles(p, u, q, v)
  {
    LastColon(p, u, q, v);
    var s := p + ":" + u;
    assert s[..|q|] == q && s[|q| + 1..] == v && s[|p| + 1..] == u;
    if |p| == |q| {
      assert s[..|p|] == p;
    } else {
      var n := |q| - |p| - 1;
      assert n == |u| - |v| - 1;
      assert q == p + ":" + u[..n];
      assert u[n..] == s[|q|..];
      assert s[|q|..] == ":" + v;
    }
  }

  lemma JoinKey(p: string, u: string, q: string, v: string)
    requires Straddles(p, u, q, v)
    ensures p + ":" + u == q + ":" + v
  {
    var n := |u| - |v| - 1;
    assert u == u[..n] + (":" + v);
  }

  /** Exactly when a lookup for a client on a port meets an entry recorded for a user, for
      any addresses and any owner. */
  lemma KeyTheorem(ip: string, portUser: string, recordedIp: string, user: string)
    requires user != "" && ':' !in user
    ensures AuthCacheKey(ip, portUser) == AuthCacheKey(recordedIp, user) <==>
              if portUser == "" then ip == recordedIp + ":" + user
              else (ip == recordedIp && portUser == user) || Straddles(ip, portUser, recordedIp, user)
  {
    if portUser != "" {
      if AuthCacheKey(ip, portUser) == AuthCacheKey(recordedIp, user) {
        SplitKey(ip, portUser, recordedIp, user);
      }
      if Straddles(ip, portUser, recordedIp, user) {
        JoinKey(ip, portUser, recordedIp, user);
      }
    }
  }

  /** An owner whose sessions can be told apart from all others. */
  predicate Plain(portUser: string) { portUser != "" && ':' !in portUser }

  /** An entry met was recorded for the same client exactly on a port with a plain owner, and
      then it is the owner's own. */
  lemma MetEntry(ip: string, portUser: string, recordedIp: string, user: string)
    requires user != "" && ':' !in user && AuthCacheKey(ip, portUser) == AuthCacheKey(recordedIp, user)
    ensures ip == recordedIp <==> Plain(portUser)
    ensures Plain(portUser) ==> portUser == user
  {
    KeyTheorem(ip, portUser, recordedIp, user);
    if Straddles(ip, portUser, recordedIp, user) {
      var n := |portUser| - |user| - 1;
      assert portUser[n] == portUser[n..][0];
      assert |recordedIp| > |ip|;
    }
  }

  // ---------------------------------------------------------------- runs

  /** An admitted request: by password, or on the session recorded for an earlier one. */
  datatype Admission = Admission(ip: string, portUser: string, user: string, source: Option<nat>, at: int)

  /** Looking up a session and recording a success are separate critical sections. marks
      holds, for each admission recorded so far, the time at which it was; origin tells for
      each key which admission was recorded under it last. */
  datatype State = State(sessions: Sessions, origin: map<string, nat>, log: seq<Admission>, marks: map<nat, int>, now: int)

  datatype Step =
    | Authenticate(a: Attempt, retry: bool)
    | Record(admission: nat, at: int)
    | Cleanup(at: int)

  const INIT: State := State(map[], map[], [], map[], 0)

  /** What a check may answer: a user only to credentials that name that user. */
  ghost predicate Plausible(header: Header, reply: Reply) {
    reply.User? ==> reply.name != "" && Parse(header).Credentials? && Parse(header).user == reply.name
  }

  ghost predicate Enabled(s: State, step: Step) {
    match step
    case Authenticate(a, _) => s.now <= a.at && Plausible(a.header, a.reply)
    case Record(i, at) => s.now <= at && i < |s.log| && i !in s.marks
    case Cleanup(at) => s.now <= at
  }

  function Origin(s: State, a: Attempt): nat {
    var key := AuthCacheKey(a.ip, a.portUser);
    if key in s.origin then s.origin[key] else 0
  }

  function Admit(s: State, a: Attempt, v: Verdict): seq<Admission> {
    match v
    case Denied => s.log
    case ByPassword(user) => s.log + [Admission(a.ip, a.portUser, user, None, a.at)]
    case BySession(user) => s.log + [Admission(a.ip, a.portUser, user, Some(Origin(s, a)), a.at)]
  }

  function Do(s: State, step: Step): State
    requires step.Record? ==> step.admission < |s.log|
  {
    match step
    case Authenticate(a, retry) => s.(log := Admit(s, a, Judge(s.sessions, a, retry)), now := a.at)
    case Record(i, at) =>
      s.(sessions := Recorded(s.sessions, s.log[i].ip, s.log[i].user, at),
         origin := s.origin[AuthCacheKey(s.log[i].ip, s.log[i].user) := i], marks := s.marks[i := at], now := at)
    case Cleanup(at) => s.(sessions := Cleaned(s.sessions, at), now := at)
  }

  ghost predicate IsRun(states: seq<State>, steps: seq<Step>) {
    && |states| == |steps| + 1 && states[0] == INIT
    && forall i :: 0 <= i < |steps| ==> Enabled(states[i], steps[i]) && states[i + 1] == Do(states[i], steps[i])
  }

  ghost predicate Reachable(s: State) {
    exists states, steps :: IsRun(states, steps) && states[|states| - 1] == s
  }

  lemma ReachStep(s: State, step: Step)
    requires Reachable(s) && Enabled(s, step)
    ensures Reachable(Do(s, step))
  {
    var states, steps :| IsRun(states, steps) && states[|states| - 1] == s;
    assert IsRun(states + [Do(s, step)], steps + [step]);
  }

  /** A request looked at and, if admitted, recorded. */
  function Tried(s: State, a: Attempt, retry: bool): State {
    var s' := Do(s, Authenticate(a, retry));
    if Judge(s.sessions, a, retry).Denied? then s' else Do(s', Record(|s.log|, a.at))
  }

  lemma TriedSessions(s: State, a: Attempt, retry: bool)
    ensures var v := Judge(s.sessions, a, retry);
            Tried(s, a, retry).now == a.at
            && Tried(s, a, retry).sessions == if v.Denied? then s.sessions else Recorded(s.sessions, a.ip, v.user, a.at)
  {}

  // ---------------------------------------------------------------- evidence

  /** The session recorded for j admitted i: the same user, recorded less than five minutes
      before, and the same client exactly if i came to a port with a plain owner. */
  predicate Vouches(log: seq<Admission>, marks: map<nat, int>, j: nat, i: nat)
    requires j < |log| && i < |log|
  {
    && j in marks && log[j].user == log[i].user
    && log[j].at <= marks[j] <= log[i].at < marks[j] + SESSION_TTL
    && (log[j].ip == log[i].ip <==> Plain(log[i].portUser))
  }

  ghost predicate Linked(log: seq<Admission>, marks: map<nat, int>, i: nat)
    requires i < |log|
  {
    match log[i].source
    case None => true
    case Some(j) => j < i && Vouches(log, marks, j, i)
  }

  /** A chain of admissions, each vouching for the next, from one by password down to i. */
  ghost predicate Evidence(log: seq<Admission>, marks: map<nat, int>, i: nat)
    requires i < |log|
    decreases i
  {
    Linked(log, marks, i) && (log[i].source.Some? ==> Evidence(log, marks, log[i].source.value))
  }

  /** The admission by password at the head of the chain. */
  function Root(log: seq<Admission>, i: nat): (r: nat)
    requires i < |log|
    ensures r <= i
    decreases i
  {
    match log[i].source
    case None => i
    case Some(j) => if j < i then Root(log, j) else i
  }

  /** Every session on the chain was used on a port with a plain owner. */
  predicate PlainChain(log: seq<Admission>, i: nat)
    requires i < |log|
    decreases i
  {
    match log[i].source
    case None => true
    case Some(j) => j < i && Plain(log[i].portUser) && PlainChain(log, j)
  }

  lemma {:induction false} ChainEvidence(log: seq<Admission>, marks: map<nat, int>, i: nat)
    requires i < |log| && forall k: nat :: k < |log| ==> Linked(log, marks, k)
    ensures Evidence(log, marks, i)
    ensures log[Root(log, i)].source.None? && log[Root(log, i)].user == log[i].user
    ensures PlainChain(log, i) ==> log[Root(log, i)].ip == log[i].ip
    decreases i
  {
    assert Linked(log, marks, i);
    if log[i].source.Some? {
      ChainEvidence(log, marks, log[i].source.value);
    }
  }

  /** The entry was recorded for admission j. */
  predicate RecordedFor(s: State, key: string, j: nat)
    requires key in s.sessions
  {
    && j < |s.log| && j in s.marks && key == AuthCacheKey(s.log[j].ip, s.log[j].user)
    && s.sessions[key] == Session(s.log[j].user, s.marks[j] + SESSION_TTL)
  }

  ghost predicate AdmissionOk(s: State, i: nat)
    requires i < |s.log|
  {
    var a := s.log[i];
    && a.user != "" && ':' !in a.user && a.at <= s.now
    && (a.portUser != "" ==> (a.user == a.portUser <==> ':' !in a.portUser))
    && (i in s.marks ==> a.at <= s.marks[i] <= s.now)
    && Linked(s.log, s.marks, i)
  }

  ghost predicate Inv(s: State) {
    && (forall key <- s.sessions :: key in s.origin && RecordedFor(s, key, s.origin[key]))
    && (forall i: nat :: i < |s.log| ==> AdmissionOk(s, i))
    && (forall j <- s.marks :: j < |s.log|)
  }

  ghost predicate Grown(s: State, s': State) {
    && s.log <= s'.log && s.now <= s'.now
    && forall j <- s.marks :: j in s'.marks && s'.marks[j] == s.marks[j]
  }

  lemma OldAdmissionOk(s: State, s': State, i: nat)
    requires i < |s.log| && AdmissionOk(s, i) && Grown(s, s')
    requires i in s'.marks && i !in s.marks ==> s'.marks[i] == s'.now
    ensures AdmissionOk(s', i)
  {
    assert s'.log[i] == s.log[i];
    if s.log[i].source.Some? {
      assert s'.log[s.log[i].source.value] == s.log[s.log[i].source.value];
    }
  }

  lemma NewAdmissionOk(s: State, a: Attempt, retry: bool)
    requires Inv(s) && Enabled(s, Authenticate(a, retry)) && !Judge(s.sessions, a, retry).Denied?
    ensures AdmissionOk(Do(s, Authenticate(a, retry)), |s.log|)
  {
    if Judge(s.sessions, a, retry).BySession? {
      var j := Origin(s, a);
      assert RecordedFor(s, AuthCacheKey(a.ip, a.portUser), j) && AdmissionOk(s, j);
      MetEntry(a.ip, a.portUser, s.log[j].ip, s.log[j].user);
    }
  }

  lemma AuthenticateKeeps(s: State, a: Attempt, retry: bool)
    requires Inv(s) && Enabled(s, Authenticate(a, retry))
    ensures Inv(Do(s, Authenticate(a, retry)))
  {
    var s' := Do(s, Authenticate(a, retry));
    forall i: nat | i < |s'.log|
      ensures AdmissionOk(s', i)
    {
      if i < |s.log| {
        OldAdmissionOk(s, s', i);
      } else {
        NewAdmissionOk(s, a, retry);
      }
    }
    forall key | key in s'.sessions
      ensures key in s'.origin && RecordedFor(s', key, s'.origin[key])
    {
      assert RecordedFor(s, key, s.origin[key]);
    }
  }

  lemma RecordKeeps(s: State, i: nat, at: int)
    requires Inv(s) && Enabled(s, Record(i, at))
    ensures Inv(Do(s, Record(i, at)))
  {
    var s' := Do(s, Record(i, at));
    forall k: nat | k < |s'.log|
      ensures AdmissionOk(s', k)
    {
      assert AdmissionOk(s, i);
      OldAdmissionOk(s, s', k);
    }
    forall key | key in s'.sessions
      ensures key in s'.origin && RecordedFor(s', key, s'.origin[key])
    {
      if key != AuthCacheKey(s.log[i].ip, s.log[i].user) {
        assert RecordedFor(s, key, s.origin[key]);
      }
    }
  }

  lemma CleanupKeeps(s: State, at: int)
    requires Inv(s) && Enabled(s, Cleanup(at))
    ensures Inv(Do(s, Cleanup(at)))
  {
    var s' := Do(s, Cleanup(at));
    forall k: nat | k < |s'.log|
      ensures AdmissionOk(s', k)
    {
      OldAdmissionOk(s, s', k);
    }
    forall key | key in s'.sessions
      ensures key in s'.origin && RecordedFor(s', key, s'.origin[key])
    {
      assert RecordedFor(s, key, s.origin[key]);
    }
  }

  lemma {:induction false} RunKeepsInv(states: seq<State>, steps: seq<Step>, n: nat)
    requires IsRun(states, steps) && n < |states|
    ensures Inv(states[n])
  {
    if n > 0 {
      var s := states[n - 1];
      RunKeepsInv(states, steps, n - 1);
      match steps[n - 1] {
        case Authenticate(a, retry) => AuthenticateKeeps(s, a, retry);
        case Record(i, at) => RecordKeeps(s, i, at);
        case Cleanup(at) => CleanupKeeps(s, at);
      }
    }
  }

  lemma ReachInv(s: State)
    requires Reachable(s)
    ensures Inv(s)
  {
    var states, steps :| IsRun(states, steps) && states[|states| - 1] == s;
    RunKeepsInv(states, steps, |states| - 1);
  }

  /** In every run, whatever the addresses and owners and however lookups, recordings and
      cleanups interleave, an admission rests on a chain that starts with the same user's
      password, each link recorded less than five minutes before the next; a link keeps the
      client exactly on a port with a plain owner, so a chain of such ports keeps it throughout. */
  lemma EvidenceTheorem(s: State, i: nat)
    requires Reachable(s) && i < |s.log|
    ensures var log := s.log;
            && Evidence(log, s.marks, i)
            && log[Root(log, i)].source.None? && log[Root(log, i)].user == log[i].user
            && (PlainChain(log, i) ==> log[Root(log, i)].ip == log[i].ip)
  {
    ReachInv(s);
    forall k: nat | k < |s.log|
      ensures Linked(s.log, s.marks, k)
    {
      assert AdmissionOk(s, k);
    }
    ChainEvidence(s.log, s.marks, i);
  }

  /** In every run, a request admitted on a port is attributed to the port's owner exactly if
      the owner's name holds no colon. */
  lemma AttributionTheorem(s: State, i: nat)
    requires Reachable(s) && i < |s.log|
    ensures var a := s.log[i];
            a.portUser != "" ==> (a.user == a.portUser <==> ':' !in a.portUser)
  {
    ReachInv(s);
    assert AdmissionOk(s, i);
  }

  /** Such an owner, which Add accepts, and such an admission: bob's session at one address
      admits another address, as bob, on the port of a user named 2:bob. */
  lemma OwnerWithColon() returns (s: State)
    ensures Reachable(s)
    ensures s.log == [Admission("::1:2", "bob", "bob", None, 0), Admission("::1", "2:bob", "bob", Some(0), 0)]
  {
    var s2 := BobAdmitted();
    var second := Attempt("::1", "2:bob", Absent, Fail(NoCredentials), 0);
    KeyTheorem("::1", "2:bob", "::1:2", "bob");
    assert Judge(s2.sessions, second, false) == BySession("bob");
    ReachStep(s2, Authenticate(second, false));
    s := Do(s2, Authenticate(second, false));
  }

  lemma BobAdmitted() returns (s: State)
    ensures Reachable(s) && s.now == 0 && s.log == [Admission("::1:2", "bob", "bob", None, 0)]
    ensures var key := AuthCacheKey("::1:2", "bob");
            key in s.sessions && s.sessions[key] == Session("bob", SESSION_TTL) && key in s.origin && s.origin[key] == 0
  {
    var first := Attempt("::1:2", "bob", Basic("bob:pw"), User("bob"), 0);
    BobParses();
    assert IsRun([INIT], []);
    ReachStep(INIT, Authenticate(first, false));
    var s1 := Do(INIT, Authenticate(first, false));
    ReachStep(s1, Record(0, 0));
    s := Do(s1, Record(0, 0));
  }

  lemma BobParses()
    ensures Parse(Basic("bob:pw")).Credentials? && Parse(Basic("bob:pw")).user == "bob"
  {
    assert "bob:pw"[..3] == "bob";
    FirstAt("bob:pw", ':', 3);
  }

  /** Without an owner a session is only found by an address that reads as another one, a
      colon and a user's name. */
  lemma OwnerlessLookup(s: State, a: Attempt)
    requires Reachable(s) && a.portUser == ""
    ensures SessionUser(s.sessions, a.ip, a.portUser, a.at) != "" ==> ':' in a.ip
  {
    ReachInv(s);
    if a.ip in s.sessions {
      var j := s.origin[a.ip];
      assert RecordedFor(s, a.ip, j) && AdmissionOk(s, j);
      assert a.ip[|s.log[j].ip|] == ':';
    }
  }

  // ---------------------------------------------------------------- who is admitted

  /** The credentials are right, and the port is nobody's or that user's. */
  predicate MayUse(rows: Table, header: Header, portUser: string, u: string) {
    AuthTransparency.DirectCheck(rows, header) == User(u) && (portUser == "" || portUser == u)
  }

  /** Less than five minutes ago an admission of the user was recorded under the key that a
      request from this client on this port looks up. */
  ghost predicate RecentlyAdmitted(s: State, ip: string, portUser: string, at: int, u: string) {
    exists j: nat :: j in s.marks && Recent(s, j, ip, portUser, at, u)
  }

  predicate Recent(s: State, j: nat, ip: string, portUser: string, at: int, u: string)
    requires j in s.marks
  {
    && j < |s.log| && s.log[j].user == u && at - s.marks[j] < 300_000_000_000
    && AuthCacheKey(s.log[j].ip, u) == AuthCacheKey(ip, portUser)
  }

  /** A first request is to be admitted as the user: on the right password, or without
      credentials on a recent admission. */
  ghost predicate Entitled(rows: Table, s: State, ip: string, portUser: string, header: Header, at: int, u: string) {
    MayUse(rows, header, portUser, u) || (header.Absent? && RecentlyAdmitted(s, ip, portUser, at, u))
  }

  /** What was recorded and has not run out is still found. */
  ghost predicate Kept(s: State, j: nat)
    requires j in s.marks && j < |s.log|
  {
    var key := AuthCacheKey(s.log[j].ip, s.log[j].user);
    s.now < s.marks[j] + SESSION_TTL ==> key in s.sessions && s.sessions[key].expires >= s.marks[j] + SESSION_TTL
  }

  ghost predicate AllKept(s: State) {
    forall j <- s.marks :: j < |s.log| && Kept(s, j)
  }

  lemma StepKept(s: State, step: Step)
    requires Inv(s) && AllKept(s) && Enabled(s, step)
    ensures AllKept(Do(s, step))
  {
    var s' := Do(s, step);
    forall j | j in s'.marks
      ensures j < |s'.log| && Kept(s', j)
    {
      if j in s.marks {
        assert Kept(s, j) && s'.log[j] == s.log[j] && AdmissionOk(s, j);
      }
    }
  }

  lemma {:induction false} RunKept(states: seq<State>, steps: seq<Step>, n: nat)
    requires IsRun(states, steps) && n < |states|
    ensures AllKept(states[n])
  {
    if n > 0 {
      RunKept(states, steps, n - 1);
      RunKeepsInv(states, steps, n - 1);
      StepKept(states[n - 1], steps[n - 1]);
    }
  }

  /** A live session is found exactly if an admission of its user was recorded under the key
      less than five minutes before. */
  lemma SessionTheorem(s: State, ip: string, portUser: string, at: int, u: string)
    requires Reachable(s) && s.now <= at && u != ""
    ensures SessionUser(s.sessions, ip, portUser, at) == u <==> RecentlyAdmitted(s, ip, portUser, at, u)
  {
    var states, steps :| IsRun(states, steps) && states[|states| - 1] == s;
    RunKept(states, steps, |states| - 1);
    ReachInv(s);
    var key := AuthCacheKey(ip, portUser);
    if SessionUser(s.sessions, ip, portUser, at) == u {
      assert RecordedFor(s, key, s.origin[key]);
      assert Recent(s, s.origin[key], ip, portUser, at, u);
    }
    if RecentlyAdmitted(s, ip, portUser, at, u) {
      var j: nat :| j in s.marks && Recent(s, j, ip, portUser, at, u);
      assert Kept(s, j);
      var o := s.origin[key];
      assert RecordedFor(s, key, o) && AdmissionOk(s, o) && AdmissionOk(s, j);
      MetEntry(s.log[o].ip, s.log[o].user, s.log[j].ip, u);
    }
  }

  predicate Grants(v: Verdict, u: string) { !v.Denied? && v.user == u }

  /** In every reachable state and on a sound database a request is admitted as exactly the
      user that it is entitled to; a retry needs the right password. */
  lemma VerdictTheorem(s: State, a: Attempt, retry: bool, d: Db, hashing: Option<int>, u: string)
    requires Reachable(s) && Sound(d) && s.now <= a.at && a.reply == ApplyCheck(d, a.header, hashing, a.at).1
    ensures Grants(Judge(s.sessions, a, retry), u) <==>
              if retry then MayUse(d.rows, a.header, a.portUser, u)
              else Entitled(d.rows, s, a.ip, a.portUser, a.header, a.at, u)
  {
    AuthTransparency.CheckReply(d, d, a.header, hashing, a.at);
    if u != "" {
      SessionTheorem(s, a.ip, a.portUser, a.at, u);
    } else {
      NoNamelessAdmission(s, a);
    }
  }

  /** Likewise a retry, after the first request's check went before it. */
  lemma RetryTheorem(sessions: Sessions, first: Header, at: int, b: Attempt, d: Db, hashing: Option<int>, u: string)
    requires Sound(d) && b.reply == ApplyCheck(ApplyCheck(d, first, hashing, at).0, b.header, hashing, b.at).1
    ensures Grants(Judge(sessions, b, true), u) <==> MayUse(d.rows, b.header, b.portUser, u)
  {
    var d' := ApplyCheck(d, first, hashing, at).0;
    AuthTransparency.CheckKeepsInv(d, first, hashing, at);
    AuthTransparency.CheckChangesNoAnswer(d, first, hashing, at, b.header);
    AuthTransparency.CheckReply(d', d', b.header, hashing, b.at);
  }

  lemma NoNamelessAdmission(s: State, a: Attempt)
    requires Reachable(s)
    ensures !RecentlyAdmitted(s, a.ip, a.portUser, a.at, "")
  {
    ReachInv(s);
    forall j: nat | j in s.marks
      ensures !Recent(s, j, a.ip, a.portUser, a.at, "")
    {
      assert j < |s.log| ==> AdmissionOk(s, j);
    }
  }

  /** A request handled on a sound database: the run goes on, its sessions are those the
      handler is left with, and the database stays sound. */
  lemma TriedTheorem(s: State, a: Attempt, retry: bool, d: Db, hashing: Option<int>)
    requires Reachable(s) && Sound(d) && s.now <= a.at && a.reply == ApplyCheck(d, a.header, hashing, a.at).1
    ensures Reachable(Tried(s, a, retry)) && Sound(ApplyCheck(d, a.header, hashing, a.at).0)
  {
    CheckPlausible(d, a.header, hashing, a.at);
    AuthTransparency.CheckKeepsInv(d, a.header, hashing, a.at);
    ReachInv(s);
    ReachStep(s, Authenticate(a, retry));
    var s' := Do(s, Authenticate(a, retry));
    if !Judge(s.sessions, a, retry).Denied? {
      ReachStep(s', Record(|s.log|, a.at));
    }
  }

  /** What the password cache remembers verifies, and no user is nameless. */
  ghost predicate Sound(d: Db) { AuthTransparency.AuthInv(d) && "" !in d.rows }

  /** The user database only gives plausible answers. */
  lemma CheckPlausible(d: Db, header: Header, hashing: Option<int>, now: int)
    requires Sound(d)
    ensures Plausible(header, ApplyCheck(d, header, hashing, now).1)
  {
    assert "" !in d.auth;
  }
}
