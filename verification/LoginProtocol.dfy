/** Login attempts against the two limiters (pkg/admin/api.go:51-87), interleaved at every
    lock release: an attempt asks the per-IP limiter, then the global ceiling, and on a
    wrong password records its failure with each, so other attempts run in between. */
module LoginProtocol {
  import opened SlidingWindow

  datatype Attempt =
    | Asked(ip: string)     // allowed for its IP; before the global ceiling
    | Admitted(ip: string)  // allowed by both; its outcome still open
    | Noted(ip: string)     // failure recorded for its IP; before the global record

  datatype Config = Config(limit: int, window: int, max: int, globalWindow: int)

  /** The limiters' data, the attempts under way and the clock; besides them, every failure
      ever recorded: log per IP and globalLog overall, neither of them ever filtered. */
  datatype State = State(counts: map<string, seq<int>>, times: seq<int>, attempts: map<nat, Attempt>, now: int,
                         log: map<string, seq<int>>, globalLog: seq<int>)

  datatype Step =
    | Tick(elapsed: nat)
    | AskIp(id: nat, ip: string)
    | AskGlobal(id: nat)
    | RecordIp(id: nat)
    | RecordGlobal(id: nat)
    | Finish(id: nat)  // right password or unreadable request: nothing is recorded
    | Clean

  function Init(now: int): State {
    State(map[], [], map[], now, map[], [])
  }

  /** One critical section; a step that is not enabled leaves the state alone. */
  function Apply(c: Config, s: State, step: Step): State {
    match step
    case Tick(elapsed) => s.(now := s.now + elapsed)
    case AskIp(id, ip) =>
      if id in s.attempts then s
      else
        var filtered := s.(counts := LimiterFiltered(s.counts, c.window, ip, s.now));
        if LimiterAllows(s.counts, c.limit, c.window, ip, s.now) then filtered.(attempts := s.attempts[id := Asked(ip)])
        else filtered
    case AskGlobal(id) =>
      if id in s.attempts && s.attempts[id].Asked? then
        var filtered := s.(times := GlobalFiltered(s.times, c.max, c.globalWindow, s.now));
        if GlobalAllows(s.times, c.max, c.globalWindow, s.now)
        then filtered.(attempts := s.attempts[id := Admitted(s.attempts[id].ip)])
        else filtered.(attempts := s.attempts - {id})
      else s
    case RecordIp(id) =>
      if id in s.attempts && s.attempts[id].Admitted? then
        var ip := s.attempts[id].ip;
        s.(counts := s.counts[ip := Times(s.counts, ip) + [s.now]], attempts := s.attempts[id := Noted(ip)],
           log := s.log[ip := Times(s.log, ip) + [s.now]])
      else s
    case RecordGlobal(id) =>
      if id in s.attempts && s.attempts[id].Noted? then
        s.(times := GlobalRecorded(s.times, c.max, s.now), attempts := s.attempts - {id},
           globalLog := s.globalLog + [s.now])
      else s
    case Finish(id) =>
      if id in s.attempts && s.attempts[id].Admitted? then s.(attempts := s.attempts - {id}) else s
    case Clean => s.(counts := Cleaned(s.counts, s.now - c.window))
  }

  function Run(c: Config, s: State, steps: seq<Step>): State
    decreases steps
  {
    if steps == [] then s else Run(c, Apply(c, s, steps[0]), steps[1..])
  }

  // ---------------------------------------------------------------- one window, abstractly

  /** How many of the times lie in the interval of the given length that ends at end,
      its end included and its start not. */
  function InWindow(times: seq<int>, window: int, end: int): nat {
    if times == [] then 0
    else InWindow(times[..|times| - 1], window, end) + (if end - window < times[|times| - 1] <= end then 1 else 0)
  }

  /** stored stands for the whole log from window before now on; the failures in the
      window and the attempts in flight together stay within bound; and no interval of
      the window's length ever held more failures than that. */
  ghost predicate Gate(stored: seq<int>, log: seq<int>, now: int, window: int, inFlight: nat, bound: nat) {
    && (forall t <- log :: t <= now)
    && Active(stored, now - window) == Active(log, now - window)
    && |Active(log, now - window)| + inFlight <= bound
    && (forall end :: InWindow(log, window, end) <= bound)
  }

  lemma {:induction false} ActiveTwice(times: seq<int>, lo: int, hi: int)
    requires lo <= hi
    ensures Active(Active(times, lo), hi) == Active(times, hi)
    ensures |Active(times, hi)| <= |Active(times, lo)|
  {
    if times != [] {
      var front, t := times[..|times| - 1], times[|times| - 1];
      ActiveTwice(front, lo, hi);
      if t > lo {
        assert Active(times, lo)[..|Active(front, lo)|] == Active(front, lo);
      }
    }
  }

  lemma ActiveAppend(times: seq<int>, t: int, cutoff: int)
    ensures Active(times + [t], cutoff) == Active(times, cutoff) + (if t > cutoff then [t] else [])
  {
    assert (times + [t])[..|times|] == times;
  }

  /** Failures inside an interval that reaches the cutoff's present are active. */
  lemma {:induction false} InWindowActive(times: seq<int>, window: int, end: int, cutoff: int)
    requires cutoff <= end - window
    ensures InWindow(times, window, end) <= |Active(times, cutoff)|
  {
    if times != [] {
      InWindowActive(times[..|times| - 1], window, end, cutoff);
    }
  }

  lemma GateTick(stored: seq<int>, log: seq<int>, now: int, window: int, n: nat, bound: nat, now': int)
    requires Gate(stored, log, now, window, n, bound) && now <= now'
    ensures Gate(stored, log, now', window, n, bound)
  {
    ActiveTwice(stored, now - window, now' - window);
    ActiveTwice(log, now - window, now' - window);
  }

  lemma GateFilter(stored: seq<int>, log: seq<int>, now: int, window: int, n: nat, bound: nat)
    requires Gate(stored, log, now, window, n, bound)
    ensures Gate(Active(stored, now - window), log, now, window, n, bound)
  {
    ActiveTwice(stored, now - window, now - window);
  }

  /** A failure recorded now adds to no interval that ended before. */
  lemma RecordInWindow(log: seq<int>, now: int, window: int, end: int)
    ensures end < now ==> InWindow(log + [now], window, end) == InWindow(log, window, end)
    ensures now <= end ==> InWindow(log + [now], window, end) <= |Active(log + [now], now - window)|
  {
    assert (log + [now])[..|log|] == log;
    if now <= end {
      InWindowActive(log + [now], window, end, now - window);
    }
  }

  lemma GateRecord(stored: seq<int>, log: seq<int>, now: int, window: int, n: nat, bound: nat)
    requires Gate(stored, log, now, window, n, bound) && n > 0
    ensures Gate(stored + [now], log + [now], now, window, n - 1, bound)
  {
    ActiveAppend(stored, now, now - window);
    ActiveAppend(log, now, now - window);
    forall end
      ensures InWindow(log + [now], window, end) <= bound
    {
      RecordInWindow(log, now, window, end);
    }
  }

  // ---------------------------------------------------------------- the attempts in flight

  /** Attempts of an IP between its limiter's Allow and RecordFailure. */
  ghost function InFlight(s: State, ip: string): set<nat> {
    set id | id in s.attempts && !s.attempts[id].Noted? && s.attempts[id].ip == ip
  }

  /** Attempts between the global counter's allow and record. */
  ghost function GlobalInFlight(s: State): set<nat> {
    set id | id in s.attempts && !s.attempts[id].Asked?
  }

  /** A limit below one still lets one failure through after the IP's entry has vanished. */
  function Bound(limit: int, k: nat): nat {
    if limit < 1 then k else limit - 1 + k
  }

  ghost predicate IpInv(c: Config, s: State, ip: string, k: nat) {
    Gate(Times(s.counts, ip), Times(s.log, ip), s.now, c.window, |InFlight(s, ip)|, Bound(c.limit, k))
  }

  ghost predicate GlobalInv(c: Config, s: State, k: nat) {
    Gate(s.times, s.globalLog, s.now, c.globalWindow, |GlobalInFlight(s)|, Bound(c.max, k))
  }

  lemma {:induction false} SubsetSize(a: set<nat>, b: set<nat>)
    requires a <= b
    ensures |a| <= |b|
  {
    assert b == a + (b - a);
  }

  lemma AddOne(a: set<nat>, b: set<nat>, id: nat)
    requires id !in a && b == a + {id}
    ensures |b| == |a| + 1
  {}

  /** A limiter that lets one more attempt in leaves room for every attempt in flight. */
  lemma GateAdmit(stored: seq<int>, log: seq<int>, now: int, window: int, n: nat, limit: int, n': nat, k: nat)
    requires Gate(stored, log, now, window, n, Bound(limit, k)) && n' <= k
    requires |Active(stored, now - window)| < limit || Active(stored, now - window) == []
    ensures Gate(Active(stored, now - window), log, now, window, n', Bound(limit, k))
  {
    ActiveTwice(stored, now - window, now - window);
  }

  lemma AskKeepsIpInv(c: Config, s: State, id: nat, asker: string, ip: string, k: nat)
    requires IpInv(c, s, ip, k) && id !in s.attempts
    requires |InFlight(Apply(c, s, AskIp(id, asker)), ip)| <= k
    ensures IpInv(c, Apply(c, s, AskIp(id, asker)), ip, k)
  {
    var s' := Apply(c, s, AskIp(id, asker));
    var stored, log, n := Times(s.counts, ip), Times(s.log, ip), |InFlight(s, ip)|;
    if asker == ip && id in s'.attempts {
      GateAdmit(stored, log, s.now, c.window, n, c.limit, |InFlight(s', ip)|, k);
    } else {
      GateFilter(stored, log, s.now, c.window, n, Bound(c.limit, k));
      assert InFlight(s', ip) == InFlight(s, ip);
      assert Times(s'.counts, ip) == stored || Times(s'.counts, ip) == Active(stored, s.now - c.window);
    }
  }

  lemma RecordKeepsIpInv(c: Config, s: State, id: nat, ip: string, k: nat)
    requires IpInv(c, s, ip, k) && id in s.attempts && s.attempts[id].Admitted?
    ensures IpInv(c, Apply(c, s, RecordIp(id)), ip, k)
  {
    var s' := Apply(c, s, RecordIp(id));
    if s.attempts[id].ip == ip {
      AddOne(InFlight(s', ip), InFlight(s, ip), id);
      GateRecord(Times(s.counts, ip), Times(s.log, ip), s.now, c.window, |InFlight(s, ip)|, Bound(c.limit, k));
    } else {
      assert InFlight(s', ip) == InFlight(s, ip);
    }
  }

  lemma CleanKeepsIpInv(c: Config, s: State, ip: string, k: nat)
    requires IpInv(c, s, ip, k)
    ensures IpInv(c, Apply(c, s, Clean), ip, k)
  {
    GateFilter(Times(s.counts, ip), Times(s.log, ip), s.now, c.window, |InFlight(s, ip)|, Bound(c.limit, k));
    assert InFlight(Apply(c, s, Clean), ip) == InFlight(s, ip);
    assert Times(Apply(c, s, Clean).counts, ip) == Active(Times(s.counts, ip), s.now - c.window);
  }

  /** Every step keeps the per-IP bound as long as no more than k attempts are in flight. */
  lemma StepKeepsIpInv(c: Config, s: State, step: Step, ip: string, k: nat)
    requires IpInv(c, s, ip, k) && |InFlight(Apply(c, s, step), ip)| <= k
    ensures IpInv(c, Apply(c, s, step), ip, k)
  {
    var s' := Apply(c, s, step);
    match step {
      case Tick(elapsed) =>
        assert InFlight(s', ip) == InFlight(s, ip);
        GateTick(Times(s.counts, ip), Times(s.log, ip), s.now, c.window, |InFlight(s, ip)|, Bound(c.limit, k), s'.now);
      case AskIp(id, asker) =>
        if id !in s.attempts {
          AskKeepsIpInv(c, s, id, asker, ip, k);
        }
      case Clean =>
        CleanKeepsIpInv(c, s, ip, k);
      case RecordIp(id) =>
        if id in s.attempts && s.attempts[id].Admitted? {
          RecordKeepsIpInv(c, s, id, ip, k);
        }
      case _ =>
        SubsetSize(InFlight(s', ip), InFlight(s, ip));
    }
  }

  lemma AskKeepsGlobalInv(c: Config, s: State, id: nat, k: nat)
    requires c.max > 0 && GlobalInv(c, s, k) && id in s.attempts && s.attempts[id].Asked?
    requires |GlobalInFlight(Apply(c, s, AskGlobal(id)))| <= k
    ensures GlobalInv(c, Apply(c, s, AskGlobal(id)), k)
  {
    var s', n := Apply(c, s, AskGlobal(id)), |GlobalInFlight(s)|;
    if GlobalAllows(s.times, c.max, c.globalWindow, s.now) {
      GateAdmit(s.times, s.globalLog, s.now, c.globalWindow, n, c.max, |GlobalInFlight(s')|, k);
    } else {
      GateFilter(s.times, s.globalLog, s.now, c.globalWindow, n, Bound(c.max, k));
      assert GlobalInFlight(s') == GlobalInFlight(s);
    }
  }

  lemma RecordKeepsGlobalInv(c: Config, s: State, id: nat, k: nat)
    requires c.max > 0 && GlobalInv(c, s, k) && id in s.attempts && s.attempts[id].Noted?
    ensures GlobalInv(c, Apply(c, s, RecordGlobal(id)), k)
  {
    AddOne(GlobalInFlight(Apply(c, s, RecordGlobal(id))), GlobalInFlight(s), id);
    GateRecord(s.times, s.globalLog, s.now, c.globalWindow, |GlobalInFlight(s)|, Bound(c.max, k));
  }

  lemma StepKeepsGlobalInv(c: Config, s: State, step: Step, k: nat)
    requires c.max > 0 && GlobalInv(c, s, k) && |GlobalInFlight(Apply(c, s, step))| <= k
    ensures GlobalInv(c, Apply(c, s, step), k)
  {
    var s' := Apply(c, s, step);
    match step {
      case Tick(elapsed) =>
        assert GlobalInFlight(s') == GlobalInFlight(s);
        GateTick(s.times, s.globalLog, s.now, c.globalWindow, |GlobalInFlight(s)|, Bound(c.max, k), s'.now);
      case AskGlobal(id) =>
        if id in s.attempts && s.attempts[id].Asked? {
          AskKeepsGlobalInv(c, s, id, k);
        }
      case RecordGlobal(id) =>
        if id in s.attempts && s.attempts[id].Noted? {
          RecordKeepsGlobalInv(c, s, id, k);
        }
      case _ =>
        SubsetSize(GlobalInFlight(s'), GlobalInFlight(s));
    }
  }

  /** Throughout the run at most k attempts of the IP are in flight at once. */
  ghost predicate AtMostInFlight(c: Config, s: State, steps: seq<Step>, ip: string, k: nat)
    decreases steps
  {
    |InFlight(s, ip)| <= k && (steps != [] ==> AtMostInFlight(c, Apply(c, s, steps[0]), steps[1..], ip, k))
  }

  ghost predicate AtMostGlobal(c: Config, s: State, steps: seq<Step>, k: nat)
    decreases steps
  {
    |GlobalInFlight(s)| <= k && (steps != [] ==> AtMostGlobal(c, Apply(c, s, steps[0]), steps[1..], k))
  }

  lemma {:induction false} RunKeepsIpInv(c: Config, s: State, steps: seq<Step>, ip: string, k: nat)
    requires IpInv(c, s, ip, k) && AtMostInFlight(c, s, steps, ip, k)
    ensures IpInv(c, Run(c, s, steps), ip, k)
    decreases steps
  {
    if steps != [] {
      StepKeepsIpInv(c, s, steps[0], ip, k);
      RunKeepsIpInv(c, Apply(c, s, steps[0]), steps[1..], ip, k);
    }
  }

  lemma {:induction false} RunKeepsGlobalInv(c: Config, s: State, steps: seq<Step>, k: nat)
    requires c.max > 0 && GlobalInv(c, s, k) && AtMostGlobal(c, s, steps, k)
    ensures GlobalInv(c, Run(c, s, steps), k)
    decreases steps
  {
    if steps != [] {
      StepKeepsGlobalInv(c, s, steps[0], k);
      RunKeepsGlobalInv(c, Apply(c, s, steps[0]), steps[1..], k);
    }
  }

  /** If at most k attempts of an IP are ever between check and record, no interval as long
      as the window ever holds more than limit - 1 + k recorded failures of that IP. */
  lemma PerIpTheorem(c: Config, now: int, steps: seq<Step>, ip: string, k: nat)
    requires AtMostInFlight(c, Init(now), steps, ip, k)
    ensures forall end :: InWindow(Times(Run(c, Init(now), steps).log, ip), c.window, end) <= Bound(c.limit, k)
  {
    assert InFlight(Init(now), ip) == {};
    RunKeepsIpInv(c, Init(now), steps, ip, k);
  }

  /** Likewise for the global ceiling over all IPs, when it is switched on. */
  lemma GlobalTheorem(c: Config, now: int, steps: seq<Step>, k: nat)
    requires c.max > 0 && AtMostGlobal(c, Init(now), steps, k)
    ensures forall end :: InWindow(Run(c, Init(now), steps).globalLog, c.globalWindow, end) <= c.max - 1 + k
  {
    assert GlobalInFlight(Init(now)) == {};
    RunKeepsGlobalInv(c, Init(now), steps, k);
  }
}
