/** The per-IP failure bound is attained: for every limit and every k there is a run, with
    never more than k attempts in flight, that puts as many failures in one window. */
module LimiterTight {
  import opened SlidingWindow
  import opened LoginProtocol

  function Zeros(n: nat): seq<int> {
    if n == 0 then [] else Zeros(n - 1) + [0]
  }

  lemma {:induction false} ZerosActive(n: nat, window: int)
    requires window > 0
    ensures Active(Zeros(n), 0 - window) == Zeros(n) && |Zeros(n)| == n
    ensures InWindow(Zeros(n), window, 0) == n
  {
    if n > 0 {
      ZerosActive(n - 1, window);
      assert Zeros(n)[..n - 1] == Zeros(n - 1);
    }
  }

  function Failures(n: nat, ip: string): map<string, seq<int>> {
    if n == 0 then map[] else map[ip := Zeros(n)]
  }

  /** Attempts 0 to asked - 1, the first noted of them with their failure recorded. */
  function Attempts(asked: nat, noted: nat, ip: string): (r: map<nat, Attempt>)
    ensures forall id: nat :: id in r <==> id < asked
    ensures forall id <- r :: r[id] == if id < noted then Noted(ip) else Admitted(ip)
  {
    if asked == 0 then map[]
    else Attempts(asked - 1, noted, ip)[asked - 1 := if asked - 1 < noted then Noted(ip) else Admitted(ip)]
  }

  function After(n: nat, asked: nat, noted: nat, ip: string, globalLog: seq<int>): State {
    State(Failures(n, ip), [], Attempts(asked, noted, ip), 0, Failures(n, ip), globalLog)
  }

  function Range(a: nat, b: nat): (r: set<nat>)
    requires a <= b
    ensures |r| == b - a && forall id: nat :: id in r <==> a <= id < b
  {
    if a == b then {} else Range(a, b - 1) + {b - 1}
  }

  lemma AfterInFlight(n: nat, asked: nat, noted: nat, ip: string, gl: seq<int>)
    requires noted <= asked
    ensures |InFlight(After(n, asked, noted, ip, gl), ip)| == asked - noted
  {
    assert InFlight(After(n, asked, noted, ip, gl), ip) == Range(noted, asked);
  }

  /** The steps lead from s to s' with never more than k attempts in flight. */
  ghost predicate Leads(c: Config, s: State, steps: seq<Step>, s': State, ip: string, k: nat) {
    Run(c, s, steps) == s' && AtMostInFlight(c, s, steps, ip, k)
  }

  lemma {:induction false} RunConcat(c: Config, s: State, a: seq<Step>, b: seq<Step>, ip: string, k: nat)
    requires AtMostInFlight(c, s, a, ip, k) && AtMostInFlight(c, Run(c, s, a), b, ip, k)
    ensures Run(c, s, a + b) == Run(c, Run(c, s, a), b)
    ensures AtMostInFlight(c, s, a + b, ip, k)
    decreases a
  {
    if a == [] {
      assert a + b == b;
    } else {
      assert (a + b)[1..] == a[1..] + b;
      RunConcat(c, Apply(c, s, a[0]), a[1..], b, ip, k);
    }
  }

  lemma RunOne(c: Config, s: State, step: Step, ip: string, k: nat)
    requires |InFlight(s, ip)| <= k && |InFlight(Apply(c, s, step), ip)| <= k
    ensures Run(c, s, [step]) == Apply(c, s, step) && AtMostInFlight(c, s, [step], ip, k)
  {
    assert [step][1..] == [];
    assert Run(c, Apply(c, s, step), []) == Apply(c, s, step);
  }

  lemma AskOne(c: Config, n: nat, asked: nat, ip: string, k: nat, gl: seq<int>) returns (s: State)
    requires (n < c.limit || n == 0) && c.window > 0 && asked < k
    ensures s == After(n, asked, 0, ip, gl).(attempts := Attempts(asked, 0, ip)[asked := Asked(ip)])
    ensures Run(c, After(n, asked, 0, ip, gl), [AskIp(asked, ip)]) == s
    ensures AtMostInFlight(c, After(n, asked, 0, ip, gl), [AskIp(asked, ip)], ip, k)
    ensures |InFlight(s, ip)| == asked + 1
  {
    var before := After(n, asked, 0, ip, gl);
    ZerosActive(n, c.window);
    AfterInFlight(n, asked, 0, ip, gl);
    assert LimiterFiltered(Failures(n, ip), c.window, ip, 0) == Failures(n, ip);
    assert LimiterAllows(Failures(n, ip), c.limit, c.window, ip, 0);
    s := Apply(c, before, AskIp(asked, ip));
    assert InFlight(s, ip) == InFlight(before, ip) + {asked};
    RunOne(c, before, AskIp(asked, ip), ip, k);
  }

  /** One attempt admitted while fewer than limit failures are in the window. */
  lemma AdmitOne(c: Config, n: nat, asked: nat, ip: string, k: nat, gl: seq<int>) returns (steps: seq<Step>)
    requires (n < c.limit || n == 0) && c.window > 0 && c.max <= 0 && asked < k
    ensures Leads(c, After(n, asked, 0, ip, gl), steps, After(n, asked + 1, 0, ip, gl), ip, k)
  {
    var s := AskOne(c, n, asked, ip, k, gl);
    var next := After(n, asked + 1, 0, ip, gl);
    AfterInFlight(n, asked + 1, 0, ip, gl);
    assert Apply(c, s, AskGlobal(asked)).attempts == next.attempts;
    assert Apply(c, s, AskGlobal(asked)) == next;
    RunOne(c, s, AskGlobal(asked), ip, k);
    RunConcat(c, After(n, asked, 0, ip, gl), [AskIp(asked, ip)], [AskGlobal(asked)], ip, k);
    steps := [AskIp(asked, ip)] + [AskGlobal(asked)];
  }

  /** One admitted attempt records its failure. */
  lemma NoteOne(c: Config, n: nat, asked: nat, noted: nat, ip: string, k: nat, gl: seq<int>) returns (steps: seq<Step>)
    requires noted < asked <= k
    ensures Leads(c, After(n, asked, noted, ip, gl), steps, After(n + 1, asked, noted + 1, ip, gl), ip, k)
  {
    var s, next := After(n, asked, noted, ip, gl), After(n + 1, asked, noted + 1, ip, gl);
    AfterInFlight(n, asked, noted, ip, gl);
    AfterInFlight(n + 1, asked, noted + 1, ip, gl);
    assert Times(Failures(n, ip), ip) + [0] == Zeros(n + 1);
    assert Apply(c, s, RecordIp(noted)).attempts == next.attempts;
    assert Apply(c, s, RecordIp(noted)).log == next.log;
    assert Apply(c, s, RecordIp(noted)) == next;
    RunOne(c, s, RecordIp(noted), ip, k);
    steps := [RecordIp(noted)];
  }

  lemma FinishOne(c: Config, n: nat, ip: string, k: nat, gl: seq<int>)
    requires c.max <= 0
    ensures Run(c, After(n, 1, 1, ip, gl), [RecordGlobal(0)]) == After(n, 0, 0, ip, gl + [0])
    ensures AtMostInFlight(c, After(n, 1, 1, ip, gl), [RecordGlobal(0)], ip, k)
  {
    var s, next := After(n, 1, 1, ip, gl), After(n, 0, 0, ip, gl + [0]);
    AfterInFlight(n, 1, 1, ip, gl);
    AfterInFlight(n, 0, 0, ip, gl + [0]);
    assert s.attempts[0] == Noted(ip);
    assert Apply(c, s, RecordGlobal(0)).attempts == next.attempts;
    assert Apply(c, s, RecordGlobal(0)) == next;
    RunOne(c, s, RecordGlobal(0), ip, k);
  }

  /** One attempt from start to finish. */
  lemma Round(c: Config, n: nat, ip: string, k: nat, gl: seq<int>) returns (steps: seq<Step>)
    requires (n < c.limit || n == 0) && c.window > 0 && c.max <= 0 && 1 <= k
    ensures Run(c, After(n, 0, 0, ip, gl), steps) == After(n + 1, 0, 0, ip, gl + [0])
    ensures AtMostInFlight(c, After(n, 0, 0, ip, gl), steps, ip, k)
  {
    var s := After(n, 0, 0, ip, gl);
    var s1 := AdmitOne(c, n, 0, ip, k, gl);
    var s2 := NoteOne(c, n, 1, 0, ip, k, gl);
    RunConcat(c, s, s1, s2, ip, k);
    FinishOne(c, n + 1, ip, k, gl);
    RunConcat(c, s, s1 + s2, [RecordGlobal(0)], ip, k);
    steps := s1 + s2 + [RecordGlobal(0)];
  }

  /** Failures one at a time, as long as fewer than limit are in the window. */
  lemma {:induction false} Serial(c: Config, n: nat, ip: string, k: nat) returns (steps: seq<Step>, gl: seq<int>)
    requires (n < c.limit || n == 0) && c.window > 0 && c.max <= 0 && 1 <= k
    ensures Leads(c, Init(0), steps, After(n, 0, 0, ip, gl), ip, k)
    decreases n
  {
    if n == 0 {
      steps, gl := [], [];
      assert Init(0) == After(0, 0, 0, ip, []);
      AfterInFlight(0, 0, 0, ip, []);
    } else {
      var s0, gl0 := Serial(c, n - 1, ip, k);
      var s1 := Round(c, n - 1, ip, k, gl0);
      RunConcat(c, Init(0), s0, s1, ip, k);
      steps, gl := s0 + s1, gl0 + [0];
    }
  }

  lemma LeadsOn(c: Config, s: State, a: seq<Step>, mid: State, b: seq<Step>, s': State, ip: string, k: nat)
    requires Leads(c, s, a, mid, ip, k) && Leads(c, mid, b, s', ip, k)
    ensures Leads(c, s, a + b, s', ip, k)
  {
    RunConcat(c, s, a, b, ip, k);
  }

  /** asked attempts admitted together. */
  lemma {:induction false} Admitting(c: Config, n: nat, asked: nat, ip: string, k: nat) returns (steps: seq<Step>, gl: seq<int>)
    requires (n < c.limit || n == 0) && c.window > 0 && c.max <= 0 && 1 <= k && asked <= k
    ensures Leads(c, Init(0), steps, After(n, asked, 0, ip, gl), ip, k)
    decreases asked
  {
    if asked == 0 {
      steps, gl := Serial(c, n, ip, k);
    } else {
      var s0, gl0 := Admitting(c, n, asked - 1, ip, k);
      var s1 := AdmitOne(c, n, asked - 1, ip, k, gl0);
      LeadsOn(c, Init(0), s0, After(n, asked - 1, 0, ip, gl0), s1, After(n, asked, 0, ip, gl0), ip, k);
      steps, gl := s0 + s1, gl0;
    }
  }

  /** k attempts admitted together, of which noted fail. */
  lemma {:induction false} Noting(c: Config, n: nat, noted: nat, ip: string, k: nat) returns (steps: seq<Step>, gl: seq<int>)
    requires (n < c.limit || n == 0) && c.window > 0 && c.max <= 0 && 1 <= k && noted <= k
    ensures Leads(c, Init(0), steps, After(n + noted, k, noted, ip, gl), ip, k)
    decreases noted
  {
    if noted == 0 {
      steps, gl := Admitting(c, n, k, ip, k);
    } else {
      var s0, gl0 := Noting(c, n, noted - 1, ip, k);
      var s1 := NoteOne(c, n + noted - 1, k, noted - 1, ip, k, gl0);
      LeadsOn(c, Init(0), s0, After(n + noted - 1, k, noted - 1, ip, gl0), s1, After(n + noted, k, noted, ip, gl0), ip, k);
      steps, gl := s0 + s1, gl0;
    }
  }

  /** The bound is attained for every limit, those below one included. */
  lemma BoundAttained(limit: int, window: int, k: nat, ip: string)
    returns (c: Config, steps: seq<Step>)
    requires window > 0 && k >= 1
    ensures c.limit == limit && c.window == window && AtMostInFlight(c, Init(0), steps, ip, k)
    ensures InWindow(Times(Run(c, Init(0), steps).log, ip), window, 0) == Bound(limit, k)
  {
    c := Config(limit, window, 0, window);
    var n: nat := if limit < 1 then 0 else limit - 1;
    var gl;
    steps, gl := Noting(c, n, k, ip, k);
    ZerosActive(n + k, window);
  }
}
