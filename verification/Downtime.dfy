/** Weekly downtime schedules (pkg/userdb/downtime.go): validation, the test whether a
    moment is blocked, and what both mean on a circular day and a circular week. */
module Downtime {
  import opened ClockText

  const DAY := 1440
  const WEEK := 10080

  /** A blocked period as it is stored: two times of day, "HH:MM". */
  datatype Window = Window(start: string, end: string)

  type Schedule = map<string, seq<Window>>

  type Minute = m: nat | m < 1440

  /** A window read: the minutes of the day at which it starts and ends. */
  datatype Span = Span(start: Minute, end: Minute)

  function Read(w: Window): Span {
    Span(Minutes(w.start), Minutes(w.end))
  }

  function ReadAll(ws: seq<Window>): (r: seq<Span>)
    ensures |r| == |ws|
    ensures forall i :: 0 <= i < |r| ==> r[i] == Read(ws[i])
  {
    seq(|ws|, i requires 0 <= i < |ws| => Read(ws[i]))
  }

  /** Start at or after end: the window runs past midnight. */
  predicate Overnight(w: Span) { w.start >= w.end }

  function Length(w: Span): nat {
    if Overnight(w) then DAY - w.start + w.end else w.end - w.start
  }

  /** The minutes of the circular day that a window covers. */
  predicate Covers(w: Span, m: int) {
    if Overnight(w) then 0 <= m < w.end || w.start <= m < DAY else w.start <= m < w.end
  }

  function DayKey(d: int): string
    requires 0 <= d < 7
  {
    ["0123456"[d]]
  }

  /** The windows filed under day d. */
  function WindowsOf(sched: Schedule, d: int): seq<Span>
    requires 0 <= d < 7
  {
    if DayKey(d) in sched then ReadAll(sched[DayKey(d)]) else []
  }

  // ---------------------------------------------------------------- is it downtime now?

  /** A window of today: all of it, or the evening of an overnight one. */
  predicate BlocksToday(w: Span, now: int) {
    if w.start < w.end then w.start <= now < w.end else w.start <= now
  }

  /** A window of yesterday: the morning that an overnight one leaves for today. */
  predicate SpillsOver(w: Span, now: int) {
    w.start >= w.end && now < w.end
  }

  predicate IsInDowntime(sched: Schedule, weekday: int, now: int)
    requires 0 <= weekday < 7
  {
    || (exists w <- WindowsOf(sched, weekday) :: BlocksToday(w, now))
    || (exists w <- WindowsOf(sched, (weekday + 6) % 7) :: SpillsOver(w, now))
  }

  /** The arc of the circular week that a window of day d stands for. */
  predicate InArc(d: int, w: Span, x: int) {
    (x - (DAY * d + w.start)) % WEEK < Length(w)
  }

  /** Where an arc of day d that starts at minute s and ends at minute e meets day k. */
  lemma ArcMinutes(d: int, s: int, e: int, k: int, m: int)
    requires 0 <= d < 7 && 0 <= k < 7 && 0 <= s < DAY && 0 <= e < DAY && 0 <= m < DAY
    ensures var length := if s >= e then DAY - s + e else e - s;
            (DAY * k + m - (DAY * d + s)) % WEEK < length <==>
              (k == d && m >= s && (m < e || s >= e)) || ((k + 6) % 7 == d && s >= e && m < e)
  {
    var diff := DAY * (k - d) + m - s;
    assert DAY * k + m - (DAY * d + s) == diff;
    assert -WEEK < diff < WEEK;
    if diff < 0 {
      assert diff % WEEK == diff + WEEK;
      if k == d {
      } else if (k + 6) % 7 == d {
        assert k - d == -6 || k - d == 1;
      } else {
        assert k - d != -6;
      }
    } else {
      assert diff % WEEK == diff;
    }
  }

  lemma ArcByDay(d: int, w: Span, x: int)
    requires 0 <= d < 7 && 0 <= x < WEEK
    ensures InArc(d, w, x) <==>
      (x / DAY == d && BlocksToday(w, x % DAY)) || ((x / DAY + 6) % 7 == d && SpillsOver(w, x % DAY))
  {
    ArcMinutes(d, w.start, w.end, x / DAY, x % DAY);
  }

  /** Evaluating the schedule day by day blocks exactly the union of its weekly arcs,
      Saturday night into Sunday morning included. */
  lemma WeeklyTheorem(sched: Schedule, x: int)
    requires 0 <= x < WEEK
    ensures IsInDowntime(sched, x / DAY, x % DAY) <==>
      exists d, w :: 0 <= d < 7 && w in WindowsOf(sched, d) && InArc(d, w, x)
  {
    var today, yesterday := x / DAY, (x / DAY + 6) % 7;
    forall d, w | 0 <= d < 7
      ensures InArc(d, w, x) <==>
        (d == today && BlocksToday(w, x % DAY)) || (d == yesterday && SpillsOver(w, x % DAY))
    {
      ArcByDay(d, w, x);
    }
    if w :| w in WindowsOf(sched, today) && BlocksToday(w, x % DAY) {
      assert InArc(today, w, x);
    }
    if w :| w in WindowsOf(sched, yesterday) && SpillsOver(w, x % DAY) {
      assert InArc(yesterday, w, x);
    }
  }

  /** Only the seven canonical day keys matter to the downtime test. */
  lemma OtherKeysIgnored(sched: Schedule, weekday: int, now: int)
    requires 0 <= weekday < 7
    ensures var canonical := map k | k in sched && (exists d :: 0 <= d < 7 && k == DayKey(d)) :: sched[k];
            IsInDowntime(canonical, weekday, now) <==> IsInDowntime(sched, weekday, now)
  {
    var canonical := map k | k in sched && (exists d :: 0 <= d < 7 && k == DayKey(d)) :: sched[k];
    assert WindowsOf(canonical, weekday) == WindowsOf(sched, weekday);
    assert WindowsOf(canonical, (weekday + 6) % 7) == WindowsOf(sched, (weekday + 6) % 7);
  }

  // ---------------------------------------------------------------- overlapping windows

  datatype Interval = Interval(start: int, end: int)

  predicate Inside(v: Interval, m: int) { v.start <= m < v.end }

  /** How many of the windows cover a minute of the circular day. */
  function Cover(ws: seq<Span>, m: int): nat {
    if ws == [] then 0 else (if Covers(ws[0], m) then 1 else 0) + Cover(ws[1..], m)
  }

  function Depth(vs: seq<Interval>, m: int): nat {
    if vs == [] then 0 else (if Inside(vs[0], m) then 1 else 0) + Depth(vs[1..], m)
  }

  /** Two different windows of the list share a minute of the circular day. */
  ghost predicate Overlapping(ws: seq<Span>) {
    exists i, j, m :: 0 <= i < j < |ws| && Covers(ws[i], m) && Covers(ws[j], m)
  }

  /** A window as stretches of one day: an overnight window is an evening and, unless it
      ends at midnight, a morning. */
  function Split(w: Span): seq<Interval> {
    if w.start < w.end then [Interval(w.start, w.end)]
    else if w.end > 0 then [Interval(w.start, DAY), Interval(0, w.end)]
    else [Interval(w.start, DAY)]
  }

  function Intervals(ws: seq<Span>): seq<Interval> {
    if ws == [] then [] else Intervals(ws[..|ws| - 1]) + Split(ws[|ws| - 1])
  }

  ghost predicate Sorted(vs: seq<Interval>) {
    forall i, j :: 0 <= i < j < |vs| ==> vs[i].start <= vs[j].start
  }

  ghost predicate NonEmpty(vs: seq<Interval>) {
    forall v <- vs :: v.start < v.end
  }

  ghost predicate AdjacentClash(vs: seq<Interval>) {
    exists i :: 1 <= i < |vs| && vs[i].start < vs[i - 1].end
  }

  /** Coverage is positive exactly where some window reaches. */
  lemma {:induction false} CoverOne(ws: seq<Span>, m: int)
    ensures Cover(ws, m) >= 1 <==> exists i :: 0 <= i < |ws| && Covers(ws[i], m)
  {
    if ws != [] {
      CoverOne(ws[1..], m);
      if Cover(ws[1..], m) >= 1 {
        var i :| 0 <= i < |ws[1..]| && Covers(ws[1..][i], m);
        assert Covers(ws[i + 1], m);
      }
      if i :| 1 <= i < |ws| && Covers(ws[i], m) {
        assert Covers(ws[1..][i - 1], m);
      }
    }
  }

  /** Coverage is two or more exactly where two different windows meet. */
  lemma {:induction false} CoverTwo(ws: seq<Span>, m: int)
    ensures Cover(ws, m) >= 2 <==> exists i, j :: 0 <= i < j < |ws| && Covers(ws[i], m) && Covers(ws[j], m)
  {
    if ws != [] {
      var rest := ws[1..];
      CoverOne(rest, m);
      CoverTwo(rest, m);
      if Cover(ws, m) >= 2 {
        if Cover(rest, m) >= 2 {
          var i, j :| 0 <= i < j < |rest| && Covers(rest[i], m) && Covers(rest[j], m);
          assert Covers(ws[i + 1], m) && Covers(ws[j + 1], m);
        } else {
          var i :| 0 <= i < |rest| && Covers(rest[i], m);
          assert Covers(ws[0], m) && Covers(ws[i + 1], m);
        }
      }
      if i, j :| 0 <= i < j < |ws| && Covers(ws[i], m) && Covers(ws[j], m) {
        assert Covers(rest[j - 1], m);
        if i > 0 {
          assert Covers(rest[i - 1], m);
        }
      }
    }
  }

  /** Depth is positive exactly where some interval reaches. */
  lemma {:induction false} DepthOne(vs: seq<Interval>, m: int)
    ensures Depth(vs, m) >= 1 <==> exists i :: 0 <= i < |vs| && Inside(vs[i], m)
  {
    if vs != [] {
      DepthOne(vs[1..], m);
      if Depth(vs[1..], m) >= 1 {
        var i :| 0 <= i < |vs[1..]| && Inside(vs[1..][i], m);
        assert Inside(vs[i + 1], m);
      }
      if i :| 1 <= i < |vs| && Inside(vs[i], m) {
        assert Inside(vs[1..][i - 1], m);
      }
    }
  }

  /** Depth is two or more exactly where two different intervals meet. */
  lemma {:induction false} DepthTwo(vs: seq<Interval>, m: int)
    ensures Depth(vs, m) >= 2 <==> exists i, j :: 0 <= i < j < |vs| && Inside(vs[i], m) && Inside(vs[j], m)
  {
    if vs != [] {
      var rest := vs[1..];
      DepthOne(rest, m);
      DepthTwo(rest, m);
      if Depth(vs, m) >= 2 {
        if Depth(rest, m) >= 2 {
          var i, j :| 0 <= i < j < |rest| && Inside(rest[i], m) && Inside(rest[j], m);
          assert Inside(vs[i + 1], m) && Inside(vs[j + 1], m);
        } else {
          var i :| 0 <= i < |rest| && Inside(rest[i], m);
          assert Inside(vs[0], m) && Inside(vs[i + 1], m);
        }
      }
      if i, j :| 0 <= i < j < |vs| && Inside(vs[i], m) && Inside(vs[j], m) {
        assert Inside(rest[j - 1], m);
        if i > 0 {
          assert Inside(rest[i - 1], m);
        }
      }
    }
  }

  lemma {:induction false} DepthConcat(a: seq<Interval>, b: seq<Interval>, m: int)
    ensures Depth(a + b, m) == Depth(a, m) + Depth(b, m)
  {
    if a == [] {
      assert a + b == b;
    } else {
      assert (a + b)[1..] == a[1..] + b;
      DepthConcat(a[1..], b, m);
    }
  }

  lemma {:induction false} CoverAppend(ws: seq<Span>, w: Span, m: int)
    ensures Cover(ws + [w], m) == Cover(ws, m) + (if Covers(w, m) then 1 else 0)
  {
    if ws == [] {
      assert ws + [w] == [w];
    } else {
      assert (ws + [w])[1..] == ws[1..] + [w];
      CoverAppend(ws[1..], w, m);
    }
  }

  /** Splitting windows into stretches of one day changes no minute's coverage. */
  lemma {:induction false} IntervalsCover(ws: seq<Span>, m: int)
    ensures Depth(Intervals(ws), m) == Cover(ws, m)
  {
    if ws != [] {
      var front, w := ws[..|ws| - 1], ws[|ws| - 1];
      calc {
        Depth(Intervals(ws), m);
      == { DepthConcat(Intervals(front), Split(w), m); }
        Depth(Intervals(front), m) + Depth(Split(w), m);
      == { IntervalsCover(front, m); SplitCovers(w, m); }
        Cover(front, m) + (if Covers(w, m) then 1 else 0);
      == { CoverAppend(front, w, m); assert front + [w] == ws; }
        Cover(ws, m);
      }
    }
  }

  lemma SplitCovers(w: Span, m: int)
    ensures Depth(Split(w), m) == (if Covers(w, m) then 1 else 0)
  {
    var vs := Split(w);
    assert Depth(vs, m) == (if Inside(vs[0], m) then 1 else 0) + Depth(vs[1..], m);
    if |vs| == 2 {
      assert vs[1..] == [Interval(0, w.end)];
      assert Depth(vs[1..], m) == if Inside(Interval(0, w.end), m) then 1 else 0;
    } else {
      assert vs[1..] == [];
    }
  }

  lemma {:induction false} IntervalsNonEmpty(ws: seq<Span>)
    ensures NonEmpty(Intervals(ws))
  {
    if ws != [] {
      IntervalsNonEmpty(ws[..|ws| - 1]);
    }
  }

  lemma DropInterval(b: seq<Interval>, j: nat, m: int)
    requires j < |b|
    ensures multiset(b[..j] + b[j + 1..]) == multiset(b) - multiset{b[j]}
    ensures Depth(b, m) == (if Inside(b[j], m) then 1 else 0) + Depth(b[..j] + b[j + 1..], m)
  {
    assert b == b[..j] + ([b[j]] + b[j + 1..]);
    DepthConcat(b[..j], [b[j]] + b[j + 1..], m);
    DepthConcat(b[..j], b[j + 1..], m);
  }

  lemma DropFirst(a: seq<Interval>)
    requires a != []
    ensures multiset(a[1..]) == multiset(a) - multiset{a[0]}
  {
    assert a == [a[0]] + a[1..];
  }

  /** Reordering intervals changes no minute's depth. */
  lemma {:induction false} DepthPermutation(a: seq<Interval>, b: seq<Interval>, m: int)
    requires multiset(a) == multiset(b)
    ensures Depth(a, m) == Depth(b, m)
  {
    if a == [] {
      assert |b| == |multiset(b)| == 0;
    } else {
      assert a[0] in multiset(b);
      var j :| 0 <= j < |b| && b[j] == a[0];
      var rest := b[..j] + b[j + 1..];
      DropInterval(b, j, m);
      DropFirst(a);
      DepthPermutation(a[1..], rest, m);
    }
  }

  /** Without an adjacent clash, every later interval starts after every earlier one ends. */
  lemma {:induction false} NoClashSeparates(vs: seq<Interval>, p: nat, q: nat)
    requires Sorted(vs) && NonEmpty(vs) && !AdjacentClash(vs) && p < q < |vs|
    ensures vs[p].end <= vs[q].start
    decreases q
  {
    assert vs[q].start >= vs[q - 1].end;
    if p < q - 1 {
      NoClashSeparates(vs, p, q - 1);
      assert vs[q - 1] in vs;
    }
  }

  /** In a list sorted by start, some minute lies in two intervals exactly when two
      neighbours clash. */
  lemma ClashIff(vs: seq<Interval>)
    requires Sorted(vs) && NonEmpty(vs)
    ensures AdjacentClash(vs) <==> exists m :: Depth(vs, m) >= 2
  {
    if i :| 1 <= i < |vs| && vs[i].start < vs[i - 1].end {
      var m := vs[i].start;
      assert vs[i] in vs;
      assert Inside(vs[i - 1], m) && Inside(vs[i], m);
      DepthTwo(vs, m);
    }
    if m :| Depth(vs, m) >= 2 {
      DepthTwo(vs, m);
      var p, q :| 0 <= p < q < |vs| && Inside(vs[p], m) && Inside(vs[q], m);
      if !AdjacentClash(vs) {
        NoClashSeparates(vs, p, q);
      }
    }
  }

  /** Sort-then-compare-neighbours finds a clash exactly when two windows overlap on the
      circular day, whatever order the sort leaves equal starts in. */
  lemma OverlapTheorem(ws: seq<Span>, vs: seq<Interval>)
    requires multiset(vs) == multiset(Intervals(ws)) && Sorted(vs)
    ensures AdjacentClash(vs) <==> Overlapping(ws)
  {
    SortedNonEmpty(ws, vs);
    ClashIff(vs);
    if m :| Depth(vs, m) >= 2 {
      SortedCover(ws, vs, m);
      CoverTwo(ws, m);
    }
    if i, j, m :| 0 <= i < j < |ws| && Covers(ws[i], m) && Covers(ws[j], m) {
      CoverTwo(ws, m);
      SortedCover(ws, vs, m);
      assert Depth(vs, m) >= 2;
    }
  }

  lemma SortedNonEmpty(ws: seq<Span>, vs: seq<Interval>)
    requires multiset(vs) == multiset(Intervals(ws))
    ensures NonEmpty(vs)
  {
    IntervalsNonEmpty(ws);
    forall v | v in vs
      ensures v.start < v.end
    {
      assert v in multiset(vs);
      assert v in Intervals(ws);
    }
  }

  lemma SortedCover(ws: seq<Span>, vs: seq<Interval>, m: int)
    requires multiset(vs) == multiset(Intervals(ws))
    ensures Depth(vs, m) == Cover(ws, m)
  {
    IntervalsCover(ws, m);
    DepthPermutation(vs, Intervals(ws), m);
  }

  /** sort.Slice by start, reduced to its promise: the same intervals, in order of start. */
  method SortByStart(a: array<Interval>)
    modifies a
    ensures Sorted(a[..])
    ensures multiset(a[..]) == multiset(old(a[..]))
  {
    for n := 0 to a.Length
      invariant Sorted(a[..n])
      invariant multiset(a[..]) == multiset(old(a[..]))
    {
      SinkLast(a, n);
    }
    assert a[..] == a[..a.Length];
  }

  /** Moves element n down to its place among the sorted ones before it. */
  method SinkLast(a: array<Interval>, n: nat)
    requires n < a.Length && Sorted(a[..n])
    modifies a
    ensures Sorted(a[..n + 1])
    ensures multiset(a[..]) == multiset(old(a[..]))
  {
    var j := n;
    assert forall p :: 0 <= p < n ==> a[..n][p] == a[p];
    while j > 0 && a[j - 1].start > a[j].start
      invariant 0 <= j <= n
      invariant forall p, q :: 0 <= p < q <= n && q != j ==> a[p].start <= a[q].start
      invariant multiset(a[..]) == multiset(old(a[..]))
    {
      SwapDown(a, j);
      j := j - 1;
    }
  }

  method SwapDown(a: array<Interval>, j: nat)
    requires 0 < j < a.Length
    modifies a
    ensures a[j - 1] == old(a[j]) && a[j] == old(a[j - 1])
    ensures forall i :: 0 <= i < a.Length && i != j && i != j - 1 ==> a[i] == old(a[i])
    ensures multiset(a[..]) == multiset(old(a[..]))
  {
    a[j - 1], a[j] := a[j], a[j - 1];
  }

  method Expand(windows: seq<Window>) returns (intervals: seq<Interval>)
    ensures intervals == Intervals(ReadAll(windows))
  {
    ghost var ws := ReadAll(windows);
    intervals := [];
    for i := 0 to |windows|
      invariant intervals == Intervals(ws[..i])
    {
      assert ws[..i + 1][..i] == ws[..i];
      var s, e := Minutes(windows[i].start), Minutes(windows[i].end);
      if s < e {
        intervals := intervals + [Interval(s, e)];
      } else {
        intervals := intervals + [Interval(s, DAY)];
        if e > 0 {
          intervals := intervals + [Interval(0, e)];
        }
      }
      assert intervals == Intervals(ws[..i]) + Split(ws[i]);
    }
    assert ws[..|ws|] == ws;
  }

  /** Rejects exactly the window lists in which two windows overlap on the circular day. */
  method CheckOverlaps(windows: seq<Window>) returns (ok: bool)
    ensures ok <==> !Overlapping(ReadAll(windows))
  {
    if |windows| < 2 {
      return true;
    }
    ghost var ws := ReadAll(windows);
    var intervals := Expand(windows);
    var a := new Interval[|intervals|](i requires 0 <= i < |intervals| => intervals[i]);
    assert a[..] == intervals;
    SortByStart(a);
    OverlapTheorem(ws, a[..]);
    var clash := HasAdjacentClash(a);
    return !clash;
  }

  method HasAdjacentClash(a: array<Interval>) returns (clash: bool)
    ensures clash <==> AdjacentClash(a[..])
  {
    var i := 1;
    while i < a.Length
      invariant 1 <= i
      invariant forall k :: 1 <= k < i && k < a.Length ==> a[k].start >= a[k - 1].end
    {
      if a[i].start < a[i - 1].end {
        assert a[..][i].start < a[..][i - 1].end;
        return true;
      }
      i := i + 1;
    }
    return false;
  }

  ghost predicate DayKeyOk(key: string) {
    Atoi(key).Value? && 0 <= Atoi(key).n <= 6
  }

  ghost predicate WindowOk(w: Window) {
    ParseHHMM(w.start).Value? && ParseHHMM(w.end).Value? && ParseHHMM(w.start) != ParseHHMM(w.end)
  }

  /** A readable day key, readable times, no empty window and no two windows overlapping. */
  ghost predicate DayOk(key: string, ws: seq<Window>) {
    DayKeyOk(key) && (forall w <- ws :: WindowOk(w)) && !Overlapping(ReadAll(ws))
  }

  ghost predicate ValidSchedule(sched: Schedule) {
    forall key <- sched :: DayOk(key, sched[key])
  }

  /** An accepted day key is an optionally signed number from 0 to 6, in decimal. */
  lemma DayKeyTheorem(key: string)
    ensures DayKeyOk(key) <==> exists sign, t :: Signed(key, sign, t) && 0 <= sign * Positional(t) <= 6
  {
    AtoiTheorem(key, if Atoi(key).Value? then Atoi(key).n else 0);
    forall sign, t | Signed(key, sign, t)
      ensures Atoi(key) == Value(sign * Positional(t))
    {
      AtoiTheorem(key, sign * Positional(t));
    }
  }

  /** An accepted window has two readable times and blocks neither nothing nor a whole day. */
  lemma WindowTheorem(w: Window)
    ensures WindowOk(w) <==>
              ParseHHMM(w.start).Value? && ParseHHMM(w.end).Value? && 0 < Length(Read(w)) < 1440
  {}

  method CheckDay(key: string, ws: seq<Window>) returns (ok: bool)
    ensures ok <==> DayOk(key, ws)
  {
    var day := Atoi(key);
    if day.Invalid? || day.n < 0 || day.n > 6 {
      return false;
    }
    for i := 0 to |ws|
      invariant forall k :: 0 <= k < i ==> WindowOk(ws[k])
    {
      var s, e := ParseHHMM(ws[i].start), ParseHHMM(ws[i].end);
      if s.Invalid? || e.Invalid? || s.n == e.n {
        assert !WindowOk(ws[i]);
        return false;
      }
    }
    ok := CheckOverlaps(ws);
  }

  method ValidateSchedule(sched: Schedule) returns (ok: bool)
    ensures ok <==> ValidSchedule(sched)
  {
    var keys := sched.Keys;
    while keys != {}
      invariant keys <= sched.Keys
      invariant forall key <- sched.Keys - keys :: DayOk(key, sched[key])
      decreases |keys|
    {
      var key :| key in keys;
      keys := keys - {key};
      var fine := CheckDay(key, sched[key]);
      if !fine {
        return false;
      }
    }
    return true;
  }

  /** Windows filed under a key ever block anything exactly if the key is one of the seven
      canonical ones, whatever other keys validation accepts. */
  lemma EnforcedKeys(key: string, ws: seq<Window>)
    requires ws != []
    ensures (exists weekday, now :: 0 <= weekday < 7 && 0 <= now < DAY && IsInDowntime(map[key := ws], weekday, now)) <==>
              exists d :: 0 <= d < 7 && key == DayKey(d)
  {
    var sched := map[key := ws];
    if d :| 0 <= d < 7 && key == DayKey(d) {
      var w := WindowsOf(sched, d)[0];
      assert w in WindowsOf(sched, d) && BlocksToday(w, w.start);
      assert IsInDowntime(sched, d, w.start);
    }
    if weekday, now :| 0 <= weekday < 7 && 0 <= now < DAY && IsInDowntime(sched, weekday, now) {
      assert WindowsOf(sched, weekday) != [] || WindowsOf(sched, (weekday + 6) % 7) != [];
    }
  }

  /** A zero-padded key passes validation just as its canonical form does, but the downtime
      test never looks it up: windows filed under "01" block nothing. */
  lemma PaddedKeyIgnored(ws: seq<Window>)
    ensures ValidSchedule(map["01" := ws]) <==> ValidSchedule(map["1" := ws])
    ensures forall weekday, now :: 0 <= weekday < 7 ==> !IsInDowntime(map["01" := ws], weekday, now)
  {
    assert "01"[..1] == "0" && "1"[..0] == "" && "0"[..0] == "";
    assert Digits("0") == Value(0) && Digits("01") == Value(1) && Digits("1") == Value(1);
    assert Atoi("01") == Atoi("1") == Value(1);
    assert DayOk("01", ws) <==> DayOk("1", ws);
    assert ValidSchedule(map["01" := ws]) <==> DayOk("01", ws) by {
      assert "01" in map["01" := ws];
    }
    assert ValidSchedule(map["1" := ws]) <==> DayOk("1", ws) by {
      assert "1" in map["1" := ws];
    }
    forall d | 0 <= d < 7
      ensures WindowsOf(map["01" := ws], d) == []
    {
      assert |DayKey(d)| == 1;
    }
  }
}
