/** Serving a request: rate limit, authentication with its challenge and retry, the session
    cache, and the block decision (pkg/proxy/handler.go, connect.go and forward.go). */
module ProxyHandler {
  import opened Options
  import opened UserTable
  import opened AuthSession
  import SlidingWindow
  import U = UserDb

  /** What the client gets: 407, 403, the block page, or the connection it asked for. */
  datatype Outcome =
    | RateLimited
    | Unauthorized
    | Forbidden(user: string, reason: string)
    | BlockPage(user: string, reason: string)
    | Forwarded(user: string)

  /** Why a CONNECT of the user is to be blocked, or "". */
  function Reason(d: Db, mitm: bool, user: string, now: int): string {
    if mitm && !IsEnabled(d, user) then "disabled" else if InDowntime(d, user, now) then "downtime" else ""
  }

  /** A blocked CONNECT is refused without a block page server, tunnelled to hosts that must
      not be intercepted, and otherwise shown the block page. */
  function ConnectOutcome(d: Db, mitm: bool, pages: bool, passthrough: bool, user: string, now: int): Outcome {
    var reason := Reason(d, mitm, user, now);
    if reason == "" then Forwarded(user)
    else if !mitm || !pages then Forbidden(user, reason)
    else if passthrough then Forwarded(user)
    else BlockPage(user, reason)
  }

  function ForwardOutcome(d: Db, user: string, now: int): Outcome {
    if InDowntime(d, user, now) then Forbidden(user, "downtime") else Forwarded(user)
  }

  /** With interception on, a disabled user gets through by CONNECT only to passthrough hosts,
      and by plain HTTP whenever no downtime applies. */
  lemma DisabledUser(d: Db, pages: bool, passthrough: bool, user: string, now: int)
    requires !IsEnabled(d, user)
    ensures ConnectOutcome(d, true, pages, passthrough, user, now) == Forwarded(user) <==> pages && passthrough
    ensures ForwardOutcome(d, user, now) == Forwarded(user) <==> !InDowntime(d, user, now)
  {}

  /** The request goes on as the user's: it is forwarded, or blocked for a reason of theirs. */
  predicate Lets(outcome: Outcome, u: string) {
    (outcome.Forbidden? || outcome.BlockPage? || outcome.Forwarded?) && outcome.user == u
  }

  /** A CONNECT is to be admitted as the user: at once, or if no one is entitled at once, on
      the right password in the retry. */
  ghost predicate EntitledConnect(rows: Table, s: State, ip: string, portUser: string, header: Header,
                                  retry: Option<Header>, at: int, u: string) {
    if exists v :: Entitled(rows, s, ip, portUser, header, at, v) then Entitled(rows, s, ip, portUser, header, at, u)
    else retry.Some? && MayUse(rows, retry.value, portUser, u)
  }

  lemma ForwardVerdict(s: State, a: Attempt, d: Db, hashing: Option<int>)
    requires Reachable(s) && Sound(d) && s.now <= a.at && a.reply == ApplyCheck(d, a.header, hashing, a.at).1
    ensures forall u :: Grants(Judge(s.sessions, a, false), u) <==> Entitled(d.rows, s, a.ip, a.portUser, a.header, a.at, u)
  {
    forall u {
      VerdictTheorem(s, a, false, d, hashing, u);
    }
  }

  /** A CONNECT whose first look denied it, retried or not. */
  lemma ConnectVerdict(s: State, a: Attempt, retry: Option<Header>, b: Attempt, d: Db, hashing: Option<int>)
    requires Reachable(s) && Sound(d) && s.now <= a.at && a.reply == ApplyCheck(d, a.header, hashing, a.at).1
    requires Judge(s.sessions, a, false).Denied? && retry.Some? ==>
               b.header == retry.value && b.portUser == a.portUser
               && b.reply == ApplyCheck(ApplyCheck(d, a.header, hashing, a.at).0, b.header, hashing, b.at).1
    ensures var first, second := Judge(s.sessions, a, false), Judge(s.sessions, b, true);
            var last := if first.Denied? && retry.Some? then second else first;
            forall u :: Grants(last, u) <==> EntitledConnect(d.rows, s, a.ip, a.portUser, a.header, retry, a.at, u)
  {
    var first := Judge(s.sessions, a, false);
    ForwardVerdict(s, a, d, hashing);
    if first.Denied? {
      assert forall v :: !Grants(first, v);
      if retry.Some? {
        forall u {
          RetryTheorem(s.sessions, a.header, a.at, b, d, hashing, u);
        }
      }
    } else {
      assert Grants(first, first.user);
    }
  }

  lemma ConnectLets(d: Db, mitm: bool, pages: bool, passthrough: bool, v: Verdict, now: int)
    ensures !v.Denied? ==> forall u :: Lets(ConnectOutcome(d, mitm, pages, passthrough, v.user, now), u) <==> Grants(v, u)
    ensures v.Denied? ==> forall u :: !Lets(Unauthorized, u) && !Grants(v, u)
  {}

  class Handler {
    const users: U.UserDb
    const limiter: SlidingWindow.Limiter
    const mitm: bool
    const pages: bool // whether a block page server is installed
    var authSessions: Sessions
    ghost var history: State // the run of AuthSession that the requests so far make up

    /** The sessions are those of a run, and the database is one that the runs presume. */
    ghost predicate Valid()
      reads this, users
    {
      authSessions == history.sessions && Reachable(history) && Sound(users.State())
    }

    constructor (users: U.UserDb, limiter: SlidingWindow.Limiter, mitm: bool, pages: bool)
      ensures this.users == users && this.limiter == limiter && this.mitm == mitm && this.pages == pages
      ensures authSessions == map[] && history == INIT && Reachable(history)
    {
      this.users, this.limiter, this.mitm, this.pages := users, limiter, mitm, pages;
      authSessions, history := map[], INIT;
      new;
      assert IsRun([INIT], []);
    }

    method RecordAuthSuccess(ip: string, user: string, now: int)
      modifies `authSessions
      ensures authSessions == Recorded(old(authSessions), ip, user, now)
    {
      authSessions := authSessions[AuthCacheKey(ip, user) := Session(user, now + SESSION_TTL)];
    }

    method CheckAuthSession(ip: string, portUser: string, now: int) returns (user: string)
      ensures user == SessionUser(authSessions, ip, portUser, now)
    {
      var key := AuthCacheKey(ip, portUser);
      if key in authSessions && now < authSessions[key].expires {
        return authSessions[key].user;
      }
      return "";
    }

    /** One tick of the cleanup, which ends no session that a lookup would still find. */
    method CleanupAuthSessions(now: int)
      modifies this
      ensures history == Do(old(history), Cleanup(now))
      ensures old(Valid()) && old(history.now) <= now ==> Valid()
      ensures authSessions == Cleaned(old(authSessions), now)
      ensures forall ip, portUser, later :: now <= later ==>
                SessionUser(authSessions, ip, portUser, later) == SessionUser(old(authSessions), ip, portUser, later)
    {
      var left := authSessions.Keys;
      var was := authSessions;
      while left != {}
        invariant left <= was.Keys
        invariant authSessions == map key | key in was && (key in left || now <= was[key].expires) :: was[key]
        modifies `authSessions
      {
        var key :| key in left;
        left := left - {key};
        if now > was[key].expires {
          authSessions := authSessions - {key};
        }
      }
      if old(Valid()) && history.now <= now {
        ReachStep(history, Cleanup(now));
      }
      history := Do(history, Cleanup(now));
    }

    /** The first request's credentials, or its session. */
    method AuthenticateFirst(ip: string, portUser: string, header: Header, hashing: Option<int>, now: int)
      returns (verdict: Verdict, ghost a: Attempt)
      modifies users, `history
      ensures users.State() == ApplyCheck(old(users.State()), header, hashing, now).0
      ensures a == Attempt(ip, portUser, header, ApplyCheck(old(users.State()), header, hashing, now).1, now)
      ensures verdict == Judge(authSessions, a, false) && history == Tried(old(history), a, false)
      ensures old(Valid()) && old(history.now) <= now ==> Continued(verdict, ip, now)
    {
      var hadCredentials := !header.Absent?;
      var reply := users.Check(header, hashing, now);
      a := Attempt(ip, portUser, header, reply, now);
      Chronicle(a, false, old(users.State()), hashing);
      if reply.User? && !(portUser != "" && reply.name != portUser) {
        return ByPassword(reply.name), a;
      }
      verdict := Denied;
      if !hadCredentials {
        var sessionUser := CheckAuthSession(ip, portUser, now);
        if sessionUser != "" {
          verdict := BySession(sessionUser);
        }
      }
    }

    method AuthenticateRetry(ip: string, portUser: string, header: Header, hashing: Option<int>, now: int)
      returns (verdict: Verdict, ghost a: Attempt)
      modifies users, `history
      ensures users.State() == ApplyCheck(old(users.State()), header, hashing, now).0
      ensures a == Attempt(ip, portUser, header, ApplyCheck(old(users.State()), header, hashing, now).1, now)
      ensures verdict == Judge(authSessions, a, true) && history == Tried(old(history), a, true)
      ensures old(Valid()) && old(history.now) <= now ==> Continued(verdict, ip, now)
    {
      var reply := users.Check(header, hashing, now);
      a := Attempt(ip, portUser, header, reply, now);
      Chronicle(a, true, old(users.State()), hashing);
      if reply.User? && !(portUser != "" && reply.name != portUser) {
        return ByPassword(reply.name), a;
      }
      verdict := Denied;
    }

    /** The run has gone on; the sessions follow as soon as a success is recorded. */
    ghost predicate Continued(v: Verdict, ip: string, now: int)
      reads this, users
    {
      && Reachable(history) && Sound(users.State()) && history.now == now
      && history.sessions == if v.Denied? then authSessions else Recorded(authSessions, ip, v.user, now)
    }

    /** Continues the run with a request that is being looked at. */
    ghost method Chronicle(a: Attempt, retry: bool, d: Db, hashing: Option<int>)
      requires a.reply == ApplyCheck(d, a.header, hashing, a.at).1
      modifies `history
      ensures history == Tried(old(history), a, retry) && history.now == a.at
      ensures Reachable(old(history)) && Sound(d) && old(history.now) <= a.at ==>
                Reachable(history) && Sound(ApplyCheck(d, a.header, hashing, a.at).0)
      ensures var v := Judge(old(history.sessions), a, retry);
              history.sessions == if v.Denied? then old(history.sessions)
                                  else Recorded(old(history.sessions), a.ip, v.user, a.at)
    {
      TriedSessions(history, a, retry);
      if Reachable(history) && Sound(d) && history.now <= a.at {
        TriedTheorem(history, a, retry, d, hashing);
      }
      history := Tried(history, a, retry);
    }

    /** A plain HTTP request, one step of AuthSession. Only a failure with credentials counts
        against the client. */
    method HandleForward(ip: string, portUser: string, header: Header, hashing: Option<int>, now: int)
      returns (outcome: Outcome, ghost verdict: Verdict, ghost a: Attempt)
      modifies this, users, limiter
      ensures outcome.RateLimited? <==> !SlidingWindow.LimiterAllows(old(limiter.counts), limiter.limit, limiter.window, ip, now)
      ensures outcome.RateLimited? ==>
                authSessions == old(authSessions) && users.State() == old(users.State()) && history == old(history)
      ensures !outcome.RateLimited? ==>
                && a == Attempt(ip, portUser, header, ApplyCheck(old(users.State()), header, hashing, now).1, now)
                && users.State() == ApplyCheck(old(users.State()), header, hashing, now).0
                && verdict == Judge(old(authSessions), a, false)
                && history == Tried(old(history), a, false)
      ensures old(Valid()) && old(history.now) <= now ==> Valid()
      ensures old(Valid()) && old(history.now) <= now && !outcome.RateLimited? ==>
                forall u :: Lets(outcome, u) <==> Entitled(old(users.rows), old(history), ip, portUser, header, now, u)
      ensures !outcome.RateLimited? && verdict.Denied? ==>
                outcome == Unauthorized && authSessions == old(authSessions)
      ensures !outcome.RateLimited? && !verdict.Denied? ==>
                && outcome == ForwardOutcome(users.State(), verdict.user, now)
                && authSessions == Recorded(old(authSessions), ip, verdict.user, now)
      ensures var filtered := SlidingWindow.LimiterFiltered(old(limiter.counts), limiter.window, ip, now);
              limiter.counts == if outcome.Unauthorized? && !header.Absent?
                                then filtered[ip := SlidingWindow.Times(filtered, ip) + [now]] else filtered
    {
      var allowed := limiter.Allow(ip, now);
      if !allowed {
        return RateLimited, Denied, Attempt(ip, portUser, header, Done, now);
      }
      var v, first := AuthenticateFirst(ip, portUser, header, hashing, now);
      verdict, a := v, first;
      if old(Valid()) && old(history.now) <= now {
        ForwardVerdict(old(history), a, old(users.State()), hashing);
      }
      assert forall u :: Grants(v, u) <==> !v.Denied? && v.user == u;
      if v.Denied? {
        if !header.Absent? {
          limiter.RecordFailure(ip, now);
        }
        outcome := Unauthorized;
        return;
      }
      RecordAuthSuccess(ip, v.user, now);
      var blocked := users.InDowntimeNow(v.user, now);
      outcome := if blocked then Forbidden(v.user, "downtime") else Forwarded(v.user);
    }

    method BlockReason(user: string, now: int) returns (reason: string)
      ensures reason == Reason(users.State(), mitm, user, now)
    {
      if mitm {
        var on := users.Enabled(user);
        if !on {
          return "disabled";
        }
      }
      var blocked := users.InDowntimeNow(user, now);
      return if blocked then "downtime" else "";
    }

    /** A CONNECT ends as its verdict says: refused with no session recorded, or recorded and
        answered as the user's blocks demand. */
    ghost predicate Concluded(before: Sessions, outcome: Outcome, v: Verdict, ip: string, passthrough: bool, now: int)
      reads this, users
    {
      if v.Denied? then outcome == Unauthorized && authSessions == before
      else outcome == ConnectOutcome(users.State(), mitm, pages, passthrough, v.user, now)
           && authSessions == Recorded(before, ip, v.user, now)
    }

    /** Recording the success and deciding what the user gets. */
    method Conclude(ip: string, user: string, passthrough: bool, now: int) returns (outcome: Outcome)
      modifies `authSessions
      ensures outcome == ConnectOutcome(users.State(), mitm, pages, passthrough, user, now)
      ensures authSessions == Recorded(old(authSessions), ip, user, now)
    {
      RecordAuthSuccess(ip, user, now);
      var reason := BlockReason(user, now);
      if reason == "" {
        return Forwarded(user);
      }
      if !mitm || !pages {
        return Forbidden(user, reason);
      }
      if passthrough {
        return Forwarded(user);
      }
      return BlockPage(user, reason);
    }

    /** A CONNECT request, and the client's answer to the challenge: another request with its
        credentials, or None if none could be read. a and b are the one or two steps of
        AuthSession that this makes. The first request's failure counts only if it had
        credentials and no retry came; a failed retry always counts. */
    method HandleConnect(ip: string, portUser: string, header: Header, retry: Option<Header>,
                         hashing: Option<int>, passthrough: bool, now: int, later: int)
      returns (outcome: Outcome, ghost first: Verdict, ghost second: Verdict, ghost a: Attempt, ghost b: Attempt,
               ghost counted: bool)
      modifies this, users, limiter
      ensures outcome.RateLimited? <==> !SlidingWindow.LimiterAllows(old(limiter.counts), limiter.limit, limiter.window, ip, now)
      ensures outcome.RateLimited? ==>
                users.State() == old(users.State()) && authSessions == old(authSessions) && history == old(history)
      ensures !outcome.RateLimited? ==>
                && a == Attempt(ip, portUser, header, ApplyCheck(old(users.State()), header, hashing, now).1, now)
                && first == Judge(old(authSessions), a, false)
      ensures !outcome.RateLimited? && (!first.Denied? || retry.None?) ==>
                && users.State() == ApplyCheck(old(users.State()), header, hashing, now).0
                && history == Tried(old(history), a, false)
      ensures !outcome.RateLimited? && first.Denied? && retry.Some? ==>
                var db := ApplyCheck(old(users.State()), header, hashing, now).0;
                && b == Attempt(ip, portUser, retry.value, ApplyCheck(db, retry.value, hashing, later).1, later)
                && second == Judge(old(authSessions), b, true)
                && users.State() == ApplyCheck(db, retry.value, hashing, later).0
                && history == Tried(Tried(old(history), a, false), b, true)
      ensures old(Valid()) && old(history.now) <= now <= later ==> Valid()
      ensures old(Valid()) && old(history.now) <= now <= later && !outcome.RateLimited? ==>
                forall u :: Lets(outcome, u) <==> EntitledConnect(old(users.rows), old(history), ip, portUser, header, retry, now, u)
      ensures !outcome.RateLimited? ==>
                var retried := first.Denied? && retry.Some?;
                Concluded(old(authSessions), outcome, if retried then second else first, ip, passthrough, if retried then later else now)
      ensures counted <==> outcome.Unauthorized? && (retry.None? ==> !header.Absent?)
      ensures var filtered := SlidingWindow.LimiterFiltered(old(limiter.counts), limiter.window, ip, now);
              limiter.counts == if counted then filtered[ip := SlidingWindow.Times(filtered, ip) + [later]] else filtered
    {
      var allowed := limiter.Allow(ip, now);
      if allowed {
        outcome, first, second, a, b, counted := Answer(ip, portUser, header, retry, hashing, passthrough, now, later);
        if old(Valid()) && old(history.now) <= now <= later {
          ConnectVerdict(old(history), a, retry, b, old(users.State()), hashing);
          ConnectLets(users.State(), mitm, pages, passthrough, first, now);
          ConnectLets(users.State(), mitm, pages, passthrough, second, later);
        }
      } else {
        a := Attempt(ip, portUser, header, Done, now);
        outcome, first, second, b, counted := RateLimited, Denied, Denied, a, false;
      }
    }

    /** A CONNECT request past the rate limit. */
    method Answer(ip: string, portUser: string, header: Header, retry: Option<Header>,
                  hashing: Option<int>, passthrough: bool, now: int, later: int)
      returns (outcome: Outcome, ghost first: Verdict, ghost second: Verdict, ghost a: Attempt, ghost b: Attempt,
               ghost counted: bool)
      modifies this, users, limiter
      ensures !outcome.RateLimited?
      ensures a == Attempt(ip, portUser, header, ApplyCheck(old(users.State()), header, hashing, now).1, now)
      ensures first == Judge(old(authSessions), a, false)
      ensures !first.Denied? || retry.None? ==>
                && users.State() == ApplyCheck(old(users.State()), header, hashing, now).0
                && history == Tried(old(history), a, false)
      ensures first.Denied? && retry.Some? ==>
                var db := ApplyCheck(old(users.State()), header, hashing, now).0;
                && b == Attempt(ip, portUser, retry.value, ApplyCheck(db, retry.value, hashing, later).1, later)
                && second == Judge(old(authSessions), b, true)
                && users.State() == ApplyCheck(db, retry.value, hashing, later).0
                && history == Tried(Tried(old(history), a, false), b, true)
      ensures old(Valid()) && old(history.now) <= now <= later ==> Valid()
      ensures var retried := first.Denied? && retry.Some?;
              Concluded(old(authSessions), outcome, if retried then second else first, ip, passthrough, if retried then later else now)
      ensures counted <==> outcome.Unauthorized? && (retry.None? ==> !header.Absent?)
      ensures limiter.counts == if counted then old(limiter.counts)[ip := SlidingWindow.Times(old(limiter.counts), ip) + [later]]
                                else old(limiter.counts)
    {
      var v, attempt := AuthenticateFirst(ip, portUser, header, hashing, now);
      first, second, a, b, counted := v, Denied, attempt, attempt, false;
      if v.Denied? {
        outcome, second, b, counted := Challenge(ip, portUser, header, retry, hashing, passthrough, later);
      } else {
        outcome := Conclude(ip, v.user, passthrough, now);
      }
    }

    /** After the challenge: the client's second attempt on the same connection, if any. */
    method Challenge(ip: string, portUser: string, header: Header, retry: Option<Header>,
                     hashing: Option<int>, passthrough: bool, later: int)
      returns (outcome: Outcome, ghost second: Verdict, ghost b: Attempt, ghost counted: bool)
      modifies this, users, limiter
      ensures retry.None? ==> users.State() == old(users.State()) && history == old(history)
      ensures retry.Some? ==>
                && b == Attempt(ip, portUser, retry.value, ApplyCheck(old(users.State()), retry.value, hashing, later).1, later)
                && second == Judge(old(authSessions), b, true)
                && users.State() == ApplyCheck(old(users.State()), retry.value, hashing, later).0
                && history == Tried(old(history), b, true)
      ensures old(Valid()) && old(history.now) <= later ==> Valid()
      ensures Concluded(old(authSessions), outcome, if retry.Some? then second else Denied, ip, passthrough, later)
      ensures counted <==> outcome.Unauthorized? && (retry.None? ==> !header.Absent?)
      ensures limiter.counts == if counted then old(limiter.counts)[ip := SlidingWindow.Times(old(limiter.counts), ip) + [later]]
                                else old(limiter.counts)
    {
      b := Attempt(ip, portUser, header, Done, later);
      outcome, second, counted := Unauthorized, Denied, false;
      if retry.None? {
        if !header.Absent? {
          limiter.RecordFailure(ip, later);
          counted := true;
        }
        return;
      }
      var v, attempt := AuthenticateRetry(ip, portUser, retry.value, hashing, later);
      second, b := v, attempt;
      if v.Denied? {
        limiter.RecordFailure(ip, later);
        counted := true;
        return;
      }
      outcome := Conclude(ip, v.user, passthrough, later);
    }
  }
}
