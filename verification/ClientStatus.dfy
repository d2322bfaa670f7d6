/** The app's own idea of a user's downtime (UserStatus.swift), and its agreement with the
    server that decides. */
module ClientStatus {
  import opened Options
  import opened ClockText
  import opened Downtime
  import opened UserTable
  import opened CacheCoherence

  // ---------------------------------------------------------------- reading times

  /** The nonempty parts between colons, as Swift's split gives them. */
  function Parts(s: string): seq<string>
    decreases |s|
  {
    if s == "" then []
    else
      var colon := IndexOf(s, ':');
      if colon == |s| then [s]
      else (if colon == 0 then [] else [s[..colon]]) + Parts(s[colon + 1..])
  }

  /** A number, or 0 for text that is none. */
  function IntOrZero(s: string): int {
    match Atoi(s)
    case Value(n) => n
    case Invalid => 0
  }

  /** Text without two parts makes the app stop. */
  predicate Readable(s: string) { |Parts(s)| >= 2 }

  function Mins(s: string): int
    requires Readable(s)
  {
    IntOrZero(Parts(s)[0]) * 60 + IntOrZero(Parts(s)[1])
  }

  lemma NoColon(s: string)
    requires ':' !in s && s != ""
    ensures Parts(s) == [s]
  {
    assert IndexOf(s, ':') == |s|;
  }

  lemma {:induction false} DigitsNoColon(s: string)
    requires Digits(s).Value?
    ensures ':' !in s
  {
    assert AllDigits(s);
  }

  lemma NumberNoColon(s: string)
    requires Atoi(s).Value?
    ensures s != "" && ':' !in s
  {
    if s != "" && (s[0] == '-' || s[0] == '+') {
      DigitsNoColon(s[1..]);
      assert s == [s[0]] + s[1..];
    } else {
      DigitsNoColon(s);
    }
  }

  /** A time that the server accepts, the app reads as the same minute. */
  lemma SameMinutes(s: string)
    requires ParseHHMM(s).Value?
    ensures Readable(s) && Mins(s) == Minutes(s)
  {
    var colon := IndexOf(s, ':');
    NumberNoColon(s[..colon]);
    NumberNoColon(s[colon + 1..]);
    NoColon(s[colon + 1..]);
  }

  // ---------------------------------------------------------------- scheduled downtime

  datatype Period = Period(start: int, end: int)

  predicate WindowReadable(w: Window) { Readable(w.start) && Readable(w.end) }

  /** The windows of a day that the app looks up, read its way. */
  function Periods(ws: seq<Window>): (r: seq<Period>)
    requires forall i :: 0 <= i < |ws| ==> WindowReadable(ws[i])
    ensures |r| == |ws|
  {
    seq(|ws|, i requires 0 <= i < |ws| && WindowReadable(ws[i]) => Period(Mins(ws[i].start), Mins(ws[i].end)))
  }

  predicate ShowsToday(p: Period, now: int) {
    if p.start < p.end then now >= p.start && now < p.end else now >= p.start
  }

  predicate ShowsSpill(p: Period, now: int) {
    p.start >= p.end && now < p.end
  }

  function Day(sched: Schedule, d: int): seq<Window>
    requires 0 <= d < 7
  {
    if DayKey(d) in sched then sched[DayKey(d)] else []
  }

  ghost predicate ScheduleReadable(sched: Schedule) {
    forall key <- sched :: forall i :: 0 <= i < |sched[key]| ==> WindowReadable(sched[key][i])
  }

  ghost predicate ClientInDowntime(sched: Schedule, weekday: int, now: int)
    requires 0 <= weekday < 7 && ScheduleReadable(sched)
  {
    || (exists p <- Periods(Day(sched, weekday)) :: ShowsToday(p, now))
    || (exists p <- Periods(Day(sched, (weekday + 6) % 7)) :: ShowsSpill(p, now))
  }

  lemma ValidReadable(sched: Schedule)
    requires ValidSchedule(sched)
    ensures ScheduleReadable(sched)
  {
    forall key, i | key in sched && 0 <= i < |sched[key]|
      ensures WindowReadable(sched[key][i])
    {
      assert DayOk(key, sched[key]) && WindowOk(sched[key][i]);
      SameMinutes(sched[key][i].start);
      SameMinutes(sched[key][i].end);
    }
  }

  function SpanOf(w: Span): Period { Period(w.start, w.end) }

  lemma SamePeriods(sched: Schedule, d: int)
    requires ValidSchedule(sched) && ScheduleReadable(sched) && 0 <= d < 7
    ensures |Periods(Day(sched, d))| == |WindowsOf(sched, d)|
    ensures forall i :: 0 <= i < |WindowsOf(sched, d)| ==> Periods(Day(sched, d))[i] == SpanOf(WindowsOf(sched, d)[i])
  {
    var ws := Day(sched, d);
    forall i | 0 <= i < |ws|
      ensures Periods(ws)[i] == SpanOf(Read(ws[i]))
    {
      assert DayOk(DayKey(d), ws) && WindowOk(ws[i]);
      SameMinutes(ws[i].start);
      SameMinutes(ws[i].end);
    }
  }

  /** For every schedule that passes validation, app and server agree on every minute. */
  lemma ScheduleTheorem(sched: Schedule, weekday: int, now: int)
    requires ValidSchedule(sched) && 0 <= weekday < 7
    ensures ScheduleReadable(sched)
    ensures ClientInDowntime(sched, weekday, now) <==> IsInDowntime(sched, weekday, now)
  {
    ValidReadable(sched);
    SamePeriods(sched, weekday);
    SamePeriods(sched, (weekday + 6) % 7);
    SameAnswers(Periods(Day(sched, weekday)), WindowsOf(sched, weekday), now);
    SameAnswers(Periods(Day(sched, (weekday + 6) % 7)), WindowsOf(sched, (weekday + 6) % 7), now);
  }

  lemma SameAnswers(ps: seq<Period>, ws: seq<Span>, now: int)
    requires |ps| == |ws| && forall i :: 0 <= i < |ws| ==> ps[i] == SpanOf(ws[i])
    ensures (exists p <- ps :: ShowsToday(p, now)) <==> exists w <- ws :: BlocksToday(w, now)
    ensures (exists p <- ps :: ShowsSpill(p, now)) <==> exists w <- ws :: SpillsOver(w, now)
  {
    forall p | p in ps
      ensures exists w :: w in ws && p == SpanOf(w)
    {
      var i :| 0 <= i < |ps| && ps[i] == p;
      assert ws[i] in ws;
    }
    forall w | w in ws
      ensures SpanOf(w) in ps
    {
      var i :| 0 <= i < |ws| && ws[i] == w;
      assert ps[i] in ps;
    }
  }

  // ---------------------------------------------------------------- what is displayed

  /** A user as listed for the app; deadlines in whole seconds. */
  datatype UserInfo = UserInfo(enabled: bool, schedule: Schedule, downtimeUntil: Option<int>, overrideUntil: Option<int>)

  datatype Flags = Flags(enabled: bool, adHocUntil: Option<int>, overrideUntil: Option<int>, inScheduledDowntime: bool)

  datatype DisplayState =
    | Enabled | Disabled | InDowntimeWindow | Overridden(until: int) | DowntimeNow(until: int)

  function Expiry(deadline: Option<int>, now: int): Option<int> {
    if Ahead(deadline, now) then deadline else None
  }

  ghost function FlagsOf(u: UserInfo, now: int): Flags
    requires ScheduleReadable(u.schedule)
  {
    var adHoc := Expiry(u.downtimeUntil, now);
    Flags(u.enabled, adHoc, Expiry(u.overrideUntil, now),
          adHoc.None? && ClientInDowntime(u.schedule, Weekday(now), MinuteOfDay(now)))
  }

  function StateOf(f: Flags): DisplayState {
    if !f.enabled then Disabled
    else if f.adHocUntil.Some? then DisplayState.DowntimeNow(f.adHocUntil.value)
    else if f.overrideUntil.Some? then Overridden(f.overrideUntil.value)
    else if f.inScheduledDowntime then InDowntimeWindow
    else Enabled
  }

  /** The app displays some kind of downtime. */
  ghost predicate ShowsDowntime(u: UserInfo, now: int)
    requires ScheduleReadable(u.schedule)
  {
    var state := StateOf(FlagsOf(u, now));
    state.InDowntimeWindow? || state.DowntimeNow?
  }

  /** A row as the server listed it at some moment, without deadlines already past. */
  function Listed(row: Row, at: int): UserInfo {
    UserInfo(row.enabled, row.schedule, Expiry(row.downtimeUntil, at), Expiry(row.overrideUntil, at))
  }

  lemma EmptySchedule(sched: Schedule, weekday: int, now: int)
    requires 0 <= weekday < 7
    ensures sched == map[] ==> !IsInDowntime(sched, weekday, now)
  {
    if sched == map[] {
      assert WindowsOf(sched, weekday) == WindowsOf(sched, (weekday + 6) % 7) == [];
    }
  }

  /** From a list fetched at any earlier time, the app shows downtime for an enabled user
      exactly when the table says so, and for a disabled user never. */
  lemma DisplayTheorem(rows: Table, user: string, fetched: int, now: int)
    requires user in rows && ValidSchedule(rows[user].schedule) && fetched <= now
    ensures ScheduleReadable(rows[user].schedule)
    ensures ShowsDowntime(Listed(rows[user], fetched), now) <==>
              rows[user].enabled && TableDowntime(rows, user, now)
  {
    ScheduleTheorem(rows[user].schedule, Weekday(now), MinuteOfDay(now));
    EmptySchedule(rows[user].schedule, Weekday(now), MinuteOfDay(now));
  }

  /** The other displays: disabled users always show so, a running override shows unless ad-hoc
      downtime does, and each deadline shown is the one stored. */
  lemma StateTheorem(rows: Table, user: string, fetched: int, now: int)
    requires user in rows && ScheduleReadable(rows[user].schedule) && fetched <= now
    ensures var row := rows[user];
            var adHoc := row.downtimeUntil.Some? && now < row.downtimeUntil.value * 1_000_000_000;
            var lifted := row.overrideUntil.Some? && now < row.overrideUntil.value * 1_000_000_000;
            var state := StateOf(FlagsOf(Listed(row, fetched), now));
            && (state == Disabled <==> !row.enabled)
            && (row.enabled && adHoc ==> state == DisplayState.DowntimeNow(row.downtimeUntil.value))
            && (row.enabled && !adHoc && lifted ==> state == Overridden(row.overrideUntil.value))
            && (row.enabled && !adHoc && !lifted ==>
                  state == if ClientInDowntime(row.schedule, Weekday(now), MinuteOfDay(now)) then InDowntimeWindow else Enabled)
  {}

  /** Over every run of the server: what the app shows is what the server enforces, but in
      the fraction of a second that a deadline loses when stored, and but for a user whose
      ad-hoc deadline was left over from a deleted namesake. */
  lemma AppTheorem(t: Traced, user: string, fetched: int, now: int)
    requires Reachable(t) && user in t.db.rows && user !in t.leftover
    requires ValidSchedule(t.db.rows[user].schedule) && fetched <= now && t.now <= now
    requires !InFraction(Deadline(t.db.until, user), now) && !InFraction(Deadline(t.db.override, user), now)
    ensures ScheduleReadable(t.db.rows[user].schedule)
    ensures ShowsDowntime(Listed(t.db.rows[user], fetched), now) <==>
              IsEnabled(t.db, user) && InDowntime(t.db, user, now)
  {
    DisplayTheorem(t.db.rows, user, fetched, now);
    CoherenceTheorem(t, user);
    DowntimeTheorem(t, user, now);
  }
}
