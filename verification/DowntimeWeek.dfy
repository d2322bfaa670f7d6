/** Why overlap on the circular day is the right test: what acceptance says about the
    minutes a schedule blocks in a day and in a week. */
module DowntimeWeek {
  import opened Downtime

  /** Total length of the windows. */
  function TotalLength(ws: seq<Span>): nat {
    if ws == [] then 0 else Length(ws[0]) + TotalLength(ws[1..])
  }

  /** Coverage added up over the first n minutes of the day. */
  function Tally(ws: seq<Span>, n: nat): nat {
    if n == 0 then 0 else Tally(ws, n - 1) + Cover(ws, n - 1)
  }

  function Max(a: int, b: int): int { if a < b then b else a }
  function Min(a: int, b: int): int { if a < b then a else b }

  /** How many of the first n minutes one window covers. */
  lemma {:induction false} TallyOne(w: Span, n: nat)
    requires n <= DAY
    ensures Tally([w], n) ==
      if Overnight(w) then Min(n, w.end) + Max(0, n - Max(w.start, w.end)) else Max(0, Min(n, w.end) - w.start)
    decreases n
  {
    if n > 0 {
      TallyOne(w, n - 1);
      assert Cover([w], n - 1) == (if Covers(w, n - 1) then 1 else 0) + Cover([w][1..], n - 1);
    }
  }

  lemma CoverSplit(ws: seq<Span>, m: int)
    requires ws != []
    ensures Cover(ws, m) == Cover([ws[0]], m) + Cover(ws[1..], m)
  {
    assert [ws[0]][1..] == [];
  }

  lemma {:induction false} TallySplit(ws: seq<Span>, n: nat)
    requires ws != []
    ensures Tally(ws, n) == Tally([ws[0]], n) + Tally(ws[1..], n)
    decreases n
  {
    if n > 0 {
      TallySplit(ws, n - 1);
      CoverSplit(ws, n - 1);
    }
  }

  /** Counting by minute and counting by window agree. */
  lemma {:induction false} TallyIsTotalLength(ws: seq<Span>)
    ensures Tally(ws, DAY) == TotalLength(ws)
  {
    if ws == [] {
      TallyEmpty(DAY);
    } else {
      TallySplit(ws, DAY);
      TallyOne(ws[0], DAY);
      TallyIsTotalLength(ws[1..]);
    }
  }

  lemma {:induction false} TallyEmpty(n: nat)
    ensures Tally([], n) == 0
  {
    if n > 0 {
      TallyEmpty(n - 1);
    }
  }

  lemma {:induction false} TallyBound(ws: seq<Span>, n: nat)
    requires !Overlapping(ws)
    ensures Tally(ws, n) <= n
  {
    if n > 0 {
      TallyBound(ws, n - 1);
      CoverTwo(ws, n - 1);
    }
  }

  /** An accepted day has at most one overnight window and no more than 24 hours in all. */
  lemma AcceptedDayTheorem(ws: seq<Span>)
    requires !Overlapping(ws)
    ensures TotalLength(ws) <= DAY
    ensures forall i, j :: 0 <= i < j < |ws| ==> !Overnight(ws[i]) || !Overnight(ws[j])
  {
    TallyIsTotalLength(ws);
    TallyBound(ws, DAY);
    forall i, j | 0 <= i < j < |ws|
      ensures !Overnight(ws[i]) || !Overnight(ws[j])
    {
      assert Overnight(ws[i]) && Overnight(ws[j]) ==> Covers(ws[i], DAY - 1) && Covers(ws[j], DAY - 1);
    }
  }

  // ---------------------------------------------------------------- the same windows every day

  ghost predicate Daily(sched: Schedule, ws: seq<Span>) {
    forall d :: 0 <= d < 7 ==> WindowsOf(sched, d) == ws
  }

  /** No minute of the week lies in two different weekly arcs of the windows. */
  ghost predicate ArcsDisjoint(ws: seq<Span>) {
    forall d, i, d', j, x ::
      0 <= d < 7 && 0 <= d' < 7 && 0 <= i < |ws| && 0 <= j < |ws| && (d, i) != (d', j) && 0 <= x < WEEK ==>
        !(InArc(d, ws[i], x) && InArc(d', ws[j], x))
  }

  /** A weekly arc only covers minutes of the week that its window covers on the day. */
  lemma ArcCovers(d: int, w: Span, x: int)
    requires 0 <= d < 7 && 0 <= x < WEEK && InArc(d, w, x)
    ensures Covers(w, x % DAY)
  {
    ArcByDay(d, w, x);
  }

  /** Each minute that a window covers lies, on any day, in the arc of exactly one day. */
  lemma CoveredInArc(w: Span, x: int) returns (d: int)
    requires 0 <= x < WEEK && Covers(w, x % DAY)
    ensures 0 <= d < 7 && InArc(d, w, x)
    ensures forall d' :: 0 <= d' < 7 && InArc(d', w, x) ==> d' == d
  {
    d := if x % DAY >= w.start then x / DAY else (x / DAY + 6) % 7;
    ArcByDay(d, w, x);
    forall d' | 0 <= d' < 7 && InArc(d', w, x)
      ensures d' == d
    {
      ArcByDay(d', w, x);
    }
  }

  lemma OverlapMeets(ws: seq<Span>, i: nat, j: nat, m: int)
    requires i < j < |ws| && Covers(ws[i], m) && Covers(ws[j], m)
    ensures !ArcsDisjoint(ws)
  {
    var d := CoveredInArc(ws[i], m);
    var d' := CoveredInArc(ws[j], m);
    assert (d, i) != (d', j);
  }

  lemma MeetOverlaps(ws: seq<Span>, d: int, i: nat, d': int, j: nat, x: int)
    requires 0 <= d < 7 && 0 <= d' < 7 && i < |ws| && j < |ws| && (d, i) != (d', j) && 0 <= x < WEEK
    requires InArc(d, ws[i], x) && InArc(d', ws[j], x)
    ensures Overlapping(ws)
  {
    ArcCovers(d, ws[i], x);
    ArcCovers(d', ws[j], x);
    var d0 := CoveredInArc(ws[i], x);
    assert i != j;
    var p, q := Min(i, j), Max(i, j);
    assert Covers(ws[p], x % DAY) && Covers(ws[q], x % DAY);
  }

  /** With the same windows every day, the overlap check accepts exactly when no two of the
      weekly arcs meet. */
  lemma DailyOverlapTheorem(ws: seq<Span>)
    ensures !Overlapping(ws) <==> ArcsDisjoint(ws)
  {
    if i, j, m :| 0 <= i < j < |ws| && Covers(ws[i], m) && Covers(ws[j], m) {
      OverlapMeets(ws, i, j, m);
    } else {
      forall d, i, d', j, x |
        0 <= d < 7 && 0 <= d' < 7 && 0 <= i < |ws| && 0 <= j < |ws| && (d, i) != (d', j) && 0 <= x < WEEK
        ensures !(InArc(d, ws[i], x) && InArc(d', ws[j], x))
      {
        if InArc(d, ws[i], x) && InArc(d', ws[j], x) {
          MeetOverlaps(ws, d, i, d', j, x);
        }
      }
    }
  }

  /** How many of the first n minutes satisfy p. */
  function Count(p: int -> bool, n: nat): nat {
    if n == 0 then 0 else Count(p, n - 1) + (if p(n - 1) then 1 else 0)
  }

  /** The minutes of the week that a schedule blocks. */
  function BlockedMinutes(sched: Schedule): int -> bool {
    x => 0 <= x < WEEK && IsInDowntime(sched, x / DAY, x % DAY)
  }

  lemma DailyBlockedIff(sched: Schedule, ws: seq<Span>, x: int)
    requires Daily(sched, ws) && 0 <= x < WEEK
    ensures BlockedMinutes(sched)(x) <==> Cover(ws, x % DAY) >= 1
  {
    WeeklyTheorem(sched, x);
    CoverOne(ws, x % DAY);
    if d, w :| 0 <= d < 7 && w in WindowsOf(sched, d) && InArc(d, w, x) {
      ArcCovers(d, w, x);
    }
    if i :| 0 <= i < |ws| && Covers(ws[i], x % DAY) {
      var d := CoveredInArc(ws[i], x);
      assert ws[i] in WindowsOf(sched, d);
    }
  }

  /** p marks the minutes of the week that the windows, covering none twice, cover. */
  ghost predicate Marks(p: int -> bool, ws: seq<Span>) {
    forall x :: 0 <= x < WEEK ==> Cover(ws, x % DAY) == if p(x) then 1 else 0
  }

  /** One day of the week holds as many marked minutes as its windows cover. */
  lemma {:induction false} CountDay(p: int -> bool, ws: seq<Span>, k: nat, m: nat)
    requires Marks(p, ws) && k < 7 && m <= DAY
    ensures Count(p, DAY * k + m) == Count(p, DAY * k) + Tally(ws, m)
    decreases m
  {
    if m == 0 {
      assert DAY * k + m == DAY * k;
    } else {
      CountDay(p, ws, k, m - 1);
      MinuteOfWeek(k, m - 1);
      assert Count(p, DAY * k + m) == Count(p, DAY * k + (m - 1)) + (if p(DAY * k + (m - 1)) then 1 else 0);
    }
  }

  lemma MinuteOfWeek(k: nat, m: nat)
    requires k < 7 && m < DAY
    ensures DAY * k + m < WEEK && (DAY * k + m) % DAY == m
  {}

  lemma CountWeek(p: int -> bool, ws: seq<Span>)
    requires Marks(p, ws)
    ensures Count(p, WEEK) == 7 * Tally(ws, DAY)
  {
    CountDay(p, ws, 0, DAY);
    CountDay(p, ws, 1, DAY);
    CountDay(p, ws, 2, DAY);
    CountDay(p, ws, 3, DAY);
    CountDay(p, ws, 4, DAY);
    CountDay(p, ws, 5, DAY);
    CountDay(p, ws, 6, DAY);
  }

  /** With the same accepted windows every day, a week holds exactly seven times their
      total length of downtime. */
  lemma DailyBlockedTheorem(sched: Schedule, ws: seq<Span>)
    requires Daily(sched, ws) && !Overlapping(ws)
    ensures Count(BlockedMinutes(sched), WEEK) == 7 * TotalLength(ws)
  {
    var p := BlockedMinutes(sched);
    forall x | 0 <= x < WEEK
      ensures Cover(ws, x % DAY) == if p(x) then 1 else 0
    {
      DailyBlockedIff(sched, ws, x);
      CoverTwo(ws, x % DAY);
    }
    CountWeek(p, ws);
    TallyIsTotalLength(ws);
  }
}
