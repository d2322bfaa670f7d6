/** The limiters let an attempt in exactly while fewer failures than the limit lie in its
    window, counted on the log of all failures ever recorded. */
module LimiterExact {
  import opened SlidingWindow
  import opened LoginProtocol

  /** What is stored stands for the whole log from the window before now on. */
  ghost predicate Stands(stored: seq<int>, log: seq<int>, now: int, window: int) {
    && (forall t <- log :: t <= now)
    && Active(stored, now - window) == Active(log, now - window)
  }

  lemma StandsLater(stored: seq<int>, log: seq<int>, now: int, window: int, later: int)
    requires Stands(stored, log, now, window) && now <= later
    ensures Stands(stored, log, later, window)
  {
    ActiveTwice(stored, now - window, later - window);
    ActiveTwice(log, now - window, later - window);
  }

  lemma StandsFiltered(stored: seq<int>, log: seq<int>, now: int, window: int)
    requires Stands(stored, log, now, window)
    ensures Stands(Active(stored, now - window), log, now, window)
  {
    ActiveTwice(stored, now - window, now - window);
  }

  lemma StandsRecorded(stored: seq<int>, log: seq<int>, now: int, window: int)
    requires Stands(stored, log, now, window)
    ensures Stands(stored + [now], log + [now], now, window)
  {
    ActiveAppend(stored, now, now - window);
    ActiveAppend(log, now, now - window);
  }

  lemma InWindowAppend(times: seq<int>, t: int, window: int, end: int)
    ensures InWindow(times + [t], window, end) == InWindow(times, window, end) + if end - window < t <= end then 1 else 0
  {
    assert (times + [t])[..|times|] == times;
  }

  /** With no failure after now, those in the window are those after its start. */
  lemma {:induction false} WindowIsActive(log: seq<int>, now: int, window: int)
    requires forall t <- log :: t <= now
    ensures InWindow(log, window, now) == |Active(log, now - window)|
  {
    if log != [] {
      var init, last := log[..|log| - 1], log[|log| - 1];
      forall t | t in init
        ensures t <= now
      {
        assert t in log;
      }
      WindowIsActive(init, now, window);
      assert last in log && log == init + [last];
      ActiveAppend(init, last, now - window);
      InWindowAppend(init, last, window, now);
    }
  }

  ghost predicate IpStands(c: Config, s: State, ip: string) {
    Stands(Times(s.counts, ip), Times(s.log, ip), s.now, c.window)
  }

  ghost predicate GlobalStands(c: Config, s: State) {
    Stands(s.times, s.globalLog, s.now, c.globalWindow)
  }

  lemma CleanedTimes(counts: map<string, seq<int>>, cutoff: int, ip: string)
    ensures Times(Cleaned(counts, cutoff), ip) == Active(Times(counts, ip), cutoff)
  {}

  lemma FilteredTimes(counts: map<string, seq<int>>, window: int, other: string, now: int, ip: string)
    ensures Times(LimiterFiltered(counts, window, other, now), ip)
            == if ip == other then Active(Times(counts, ip), now - window) else Times(counts, ip)
  {}

  lemma AskStands(c: Config, s: State, id: nat, other: string, ip: string)
    requires IpStands(c, s, ip)
    ensures IpStands(c, Apply(c, s, AskIp(id, other)), ip)
  {
    StandsFiltered(Times(s.counts, ip), Times(s.log, ip), s.now, c.window);
    FilteredTimes(s.counts, c.window, other, s.now, ip);
  }

  lemma RecordStands(c: Config, s: State, id: nat, ip: string)
    requires IpStands(c, s, ip)
    ensures IpStands(c, Apply(c, s, RecordIp(id)), ip)
  {
    StandsRecorded(Times(s.counts, ip), Times(s.log, ip), s.now, c.window);
  }

  lemma StepStands(c: Config, s: State, step: Step, ip: string)
    requires IpStands(c, s, ip)
    ensures IpStands(c, Apply(c, s, step), ip)
  {
    var stored, log := Times(s.counts, ip), Times(s.log, ip);
    match step {
      case Tick(elapsed) => StandsLater(stored, log, s.now, c.window, s.now + elapsed);
      case AskIp(id, other) => AskStands(c, s, id, other, ip);
      case RecordIp(id) => RecordStands(c, s, id, ip);
      case Clean =>
        StandsFiltered(stored, log, s.now, c.window);
        CleanedTimes(s.counts, s.now - c.window, ip);
      case _ =>
    }
  }

  lemma GlobalStepStands(c: Config, s: State, step: Step)
    requires GlobalStands(c, s) && c.max > 0
    ensures GlobalStands(c, Apply(c, s, step))
  {
    match step {
      case Tick(elapsed) => StandsLater(s.times, s.globalLog, s.now, c.globalWindow, s.now + elapsed);
      case AskGlobal(id) => StandsFiltered(s.times, s.globalLog, s.now, c.globalWindow);
      case RecordGlobal(id) => StandsRecorded(s.times, s.globalLog, s.now, c.globalWindow);
      case _ =>
    }
  }

  lemma {:induction false} RunStands(c: Config, s: State, steps: seq<Step>, ip: string)
    requires IpStands(c, s, ip)
    ensures IpStands(c, Run(c, s, steps), ip)
    decreases steps
  {
    if steps != [] {
      StepStands(c, s, steps[0], ip);
      RunStands(c, Apply(c, s, steps[0]), steps[1..], ip);
    }
  }

  lemma {:induction false} RunGlobalStands(c: Config, s: State, steps: seq<Step>)
    requires GlobalStands(c, s) && c.max > 0
    ensures GlobalStands(c, Run(c, s, steps))
    decreases steps
  {
    if steps != [] {
      GlobalStepStands(c, s, steps[0]);
      RunGlobalStands(c, Apply(c, s, steps[0]), steps[1..]);
    }
  }

  /** After every interleaving a client is let in exactly if fewer of its failures than the
      limit lie in the window up to now; or, for a limit below one, if none is on record. */
  lemma AllowedTheorem(c: Config, start: int, steps: seq<Step>, ip: string)
    ensures var s := Run(c, Init(start), steps);
            LimiterAllows(s.counts, c.limit, c.window, ip, s.now) <==>
              InWindow(Times(s.log, ip), c.window, s.now) < c.limit || (c.limit < 1 && ip !in s.counts)
  {
    var s := Run(c, Init(start), steps);
    RunStands(c, Init(start), steps, ip);
    WindowIsActive(Times(s.log, ip), s.now, c.window);
  }

  /** Likewise the global ceiling over all clients; zero or less switches it off. */
  lemma GlobalAllowedTheorem(c: Config, start: int, steps: seq<Step>)
    ensures var s := Run(c, Init(start), steps);
            GlobalAllows(s.times, c.max, c.globalWindow, s.now) <==>
              c.max <= 0 || InWindow(s.globalLog, c.globalWindow, s.now) < c.max
  {
    if c.max > 0 {
      var s := Run(c, Init(start), steps);
      RunGlobalStands(c, Init(start), steps);
      WindowIsActive(s.globalLog, s.now, c.globalWindow);
    }
  }
}
