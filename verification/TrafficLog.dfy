/** The unbounded log that the ring of pkg/stats/collector.go abbreviates: one bucket of
    traffic for every ten seconds in which something was recorded in time. */
module TrafficLog {
  const WIDTH: int := 10
  const MAX_BUCKETS: nat := 360

  datatype Bucket = Bucket(time: int, requests: nat, read: int, written: int)

  const ZERO: Bucket := Bucket(0, 0, 0, 0)

  /** A log entry that closes a request, or a live count of bytes under way. */
  datatype Event = Entry(at: int, read: int, written: int) | Live(at: int, read: int, written: int)

  /** Times are whole seconds since the Unix epoch, truncated to the bucket's start. */
  function BucketTime(at: int): int { at / WIDTH * WIDTH }

  /** Buckets are ten seconds wide and start at whole tens. */
  lemma BucketTimeTheorem(at: int)
    ensures BucketTime(at) <= at < BucketTime(at) + 10 && BucketTime(at) % 10 == 0
  {}

  function Single(e: Event): Bucket {
    Bucket(BucketTime(e.at), if e.Entry? then 1 else 0, e.read, e.written)
  }

  function Plus(b: Bucket, c: Bucket): Bucket {
    Bucket(b.time, b.requests + c.requests, b.read + c.read, b.written + c.written)
  }

  /** What one event does to the log: it adds to the newest bucket, opens the next one, or,
      if it belongs before the newest bucket, is dropped. */
  function Absorb(log: seq<Bucket>, e: Event): seq<Bucket> {
    if log == [] || BucketTime(e.at) > log[|log| - 1].time then log + [Single(e)]
    else if BucketTime(e.at) == log[|log| - 1].time then log[..|log| - 1] + [Plus(log[|log| - 1], Single(e))]
    else log
  }

  function LogOf(events: seq<Event>): seq<Bucket> {
    if events == [] then [] else Absorb(LogOf(events[..|events| - 1]), events[|events| - 1])
  }

  // ---------------------------------------------------------------- what the log is

  /** The event at i came no later than the bucket after its own was opened. */
  ghost predicate InTime(events: seq<Event>, i: nat)
    requires i < |events|
  {
    forall j :: 0 <= j < i ==> BucketTime(events[j].at) <= BucketTime(events[i].at)
  }

  /** All that came in time for the ten seconds that start at time. */
  ghost function Tally(events: seq<Event>, time: int): Bucket {
    if events == [] then Bucket(time, 0, 0, 0)
    else
      var n := |events| - 1;
      var before := Tally(events[..n], time);
      if InTime(events, n) && BucketTime(events[n].at) == time then Plus(before, Single(events[n])) else before
  }

  /** The entries that did not come in time. */
  ghost function Late(events: seq<Event>): nat {
    if events == [] then 0
    else
      var n := |events| - 1;
      Late(events[..n]) + if events[n].Entry? && !InTime(events, n) then 1 else 0
  }

  function Entries(events: seq<Event>): nat {
    if events == [] then 0
    else Entries(events[..|events| - 1]) + if events[|events| - 1].Entry? then 1 else 0
  }

  function Requests(log: seq<Bucket>): nat {
    if log == [] then 0 else Requests(log[..|log| - 1]) + log[|log| - 1].requests
  }

  ghost predicate Increasing(log: seq<Bucket>) {
    forall i, j :: 0 <= i < j < |log| ==> log[i].time < log[j].time
  }

  /** Buckets are only ever added at the end, and keep their times. */
  lemma AbsorbTimes(log: seq<Bucket>, e: Event)
    requires Increasing(log)
    ensures var log' := Absorb(log, e);
            && Increasing(log') && 0 < |log'| && |log| <= |log'| <= |log| + 1
            && (forall k :: 0 <= k < |log| ==> log'[k].time == log[k].time)
            && (|log'| > |log| ==> log'[|log|].time == BucketTime(e.at))
            && BucketTime(e.at) <= log'[|log'| - 1].time
  {}

  ghost predicate Seen(events: seq<Event>, time: int) {
    exists i :: 0 <= i < |events| && BucketTime(events[i].at) == time
  }

  /** No event belongs after the newest bucket, and every bucket was opened by some event. */
  ghost predicate Shaped(events: seq<Event>, log: seq<Bucket>) {
    && Increasing(log) && (log == [] <==> events == [])
    && (forall i :: 0 <= i < |events| ==> BucketTime(events[i].at) <= log[|log| - 1].time)
    && (forall k :: 0 <= k < |log| ==> Seen(events, log[k].time))
  }

  lemma ShapeStep(events: seq<Event>, log: seq<Bucket>, e: Event)
    requires Shaped(events, log)
    ensures Shaped(events + [e], Absorb(log, e))
  {
    AbsorbTimes(log, e);
    SeenMore(events, e);
  }

  lemma {:induction false} LogShape(events: seq<Event>)
    ensures Shaped(events, LogOf(events))
  {
    if events != [] {
      var n := |events| - 1;
      LogShape(events[..n]);
      ShapeStep(events[..n], LogOf(events[..n]), events[n]);
      assert events == events[..n] + [events[n]];
    }
  }

  lemma SeenMore(before: seq<Event>, e: Event)
    ensures forall time :: Seen(before, time) || time == BucketTime(e.at) ==> Seen(before + [e], time)
  {
    forall time | Seen(before, time) || time == BucketTime(e.at)
      ensures Seen(before + [e], time)
    {
      if Seen(before, time) {
        var i :| 0 <= i < |before| && BucketTime(before[i].at) == time;
        assert (before + [e])[i] == before[i];
      } else {
        assert (before + [e])[|before|] == e;
      }
    }
  }

  lemma InTimeIff(events: seq<Event>)
    requires events != []
    ensures var before, e := LogOf(events[..|events| - 1]), events[|events| - 1];
            InTime(events, |events| - 1) <==> before == [] || BucketTime(e.at) >= before[|before| - 1].time
  {
    var before := events[..|events| - 1];
    var log := LogOf(before);
    LogShape(before);
    assert forall j :: 0 <= j < |before| ==> events[j] == before[j];
    if before != [] {
      assert Seen(before, log[|log| - 1].time);
      var k :| 0 <= k < |before| && BucketTime(before[k].at) == log[|log| - 1].time;
      assert events[k] == before[k];
    }
  }

  lemma {:induction false} NoTally(events: seq<Event>, time: int)
    requires forall e <- events :: BucketTime(e.at) != time
    ensures Tally(events, time) == Bucket(time, 0, 0, 0)
  {
    if events != [] {
      assert forall e <- events[..|events| - 1] :: e in events;
      assert events[|events| - 1] in events;
      NoTally(events[..|events| - 1], time);
    }
  }

  ghost predicate HasBucket(log: seq<Bucket>, time: int) {
    exists k :: 0 <= k < |log| && log[k].time == time
  }

  /** Each bucket of the log holds exactly what came in time for its ten seconds, and every
      time for which something came has its bucket. */
  lemma {:induction false} LogTheorem(events: seq<Event>)
    ensures var log := LogOf(events);
            && Increasing(log)
            && (forall k :: 0 <= k < |log| ==> log[k] == Tally(events, log[k].time))
            && (forall i :: 0 <= i < |events| && InTime(events, i) ==> HasBucket(log, BucketTime(events[i].at)))
  {
    LogShape(events);
    if events != [] {
      var n := |events| - 1;
      LogTheorem(events[..n]);
      TallyStep(events);
      forall i | 0 <= i < |events| && InTime(events, i)
        ensures HasBucket(LogOf(events), BucketTime(events[i].at))
      {
        TimesKept(events, i);
      }
    }
  }

  lemma TimesKept(events: seq<Event>, i: nat)
    requires i < |events| && InTime(events, i)
    requires var before := events[..|events| - 1];
             i < |before| && InTime(before, i) ==> HasBucket(LogOf(before), BucketTime(before[i].at))
    ensures HasBucket(LogOf(events), BucketTime(events[i].at))
  {
    var n := |events| - 1;
    var before, log := events[..n], LogOf(events);
    LogShape(before);
    AbsorbTimes(LogOf(before), events[n]);
    if i == n {
      InTimeIff(events);
      assert log[|log| - 1].time == BucketTime(events[n].at);
    } else {
      assert before[i] == events[i] && InTime(before, i);
      var k :| 0 <= k < |LogOf(before)| && LogOf(before)[k].time == BucketTime(before[i].at);
      assert log[k].time == LogOf(before)[k].time;
    }
  }

  lemma TallyStep(events: seq<Event>)
    requires events != []
    requires var before := events[..|events| - 1];
             forall k :: 0 <= k < |LogOf(before)| ==> LogOf(before)[k] == Tally(before, LogOf(before)[k].time)
    ensures forall k :: 0 <= k < |LogOf(events)| ==> LogOf(events)[k] == Tally(events, LogOf(events)[k].time)
  {
    var n := |events| - 1;
    var before, e := events[..n], events[n];
    var was, log := LogOf(before), LogOf(events);
    LogShape(before);
    LogShape(events);
    InTimeIff(events);
    AbsorbTimes(was, e);
    forall k | 0 <= k < |log|
      ensures log[k] == Tally(events, log[k].time)
    {
      if k < |log| - 1 {
        assert log[k].time < log[|log| - 1].time && was[k] == log[k];
      } else if was != [] && BucketTime(e.at) <= was[|was| - 1].time {
        assert was[|was| - 1] == Tally(before, was[|was| - 1].time);
      } else {
        assert forall x <- before :: BucketTime(x.at) != BucketTime(e.at);
        NoTally(before, BucketTime(e.at));
      }
    }
  }

  /** The requests, bytes read and bytes written of what came in time for time, summed. */
  ghost function RequestsIn(events: seq<Event>, time: int): nat {
    if events == [] then 0
    else
      var n := |events| - 1;
      RequestsIn(events[..n], time) + if InTime(events, n) && BucketTime(events[n].at) == time && events[n].Entry? then 1 else 0
  }

  ghost function ReadIn(events: seq<Event>, time: int): int {
    if events == [] then 0
    else
      var n := |events| - 1;
      ReadIn(events[..n], time) + if InTime(events, n) && BucketTime(events[n].at) == time then events[n].read else 0
  }

  ghost function WrittenIn(events: seq<Event>, time: int): int {
    if events == [] then 0
    else
      var n := |events| - 1;
      WrittenIn(events[..n], time) + if InTime(events, n) && BucketTime(events[n].at) == time then events[n].written else 0
  }

  lemma {:induction false} TallySums(events: seq<Event>, time: int)
    ensures Tally(events, time) == Bucket(time, RequestsIn(events, time), ReadIn(events, time), WrittenIn(events, time))
  {
    if events != [] {
      TallySums(events[..|events| - 1], time);
    }
  }

  /** Every bucket of the log counts the requests and sums the bytes that came in time for it. */
  lemma BucketTheorem(events: seq<Event>, k: nat)
    requires k < |LogOf(events)|
    ensures var b := LogOf(events)[k];
            b == Bucket(b.time, RequestsIn(events, b.time), ReadIn(events, b.time), WrittenIn(events, b.time))
  {
    LogTheorem(events);
    TallySums(events, LogOf(events)[k].time);
  }

  // ---------------------------------------------------------------- conservation

  lemma RequestsAppend(log: seq<Bucket>, b: Bucket)
    ensures Requests(log + [b]) == Requests(log) + b.requests
  {
    assert (log + [b])[..|log|] == log;
  }

  /** Every entry observed is counted in exactly one bucket of the log, or came late. */
  lemma {:induction false} Conservation(events: seq<Event>)
    ensures Entries(events) == Requests(LogOf(events)) + Late(events)
  {
    if events != [] {
      var before, e := events[..|events| - 1], events[|events| - 1];
      var log := LogOf(before);
      Conservation(before);
      InTimeIff(events);
      LogShape(before);
      if log == [] || BucketTime(e.at) > log[|log| - 1].time {
        RequestsAppend(log, Single(e));
      } else if BucketTime(e.at) == log[|log| - 1].time {
        RequestsAppend(log[..|log| - 1], Plus(log[|log| - 1], Single(e)));
      }
    }
  }

  lemma {:induction false} RequestsSplit(older: seq<Bucket>, newer: seq<Bucket>)
    ensures Requests(older + newer) == Requests(older) + Requests(newer)
  {
    if newer == [] {
      assert older + newer == older;
    } else {
      var init, b := newer[..|newer| - 1], newer[|newer| - 1];
      RequestsSplit(older, init);
      assert older + newer == (older + init) + [b];
      RequestsAppend(older + init, b);
      RequestsAppend(init, b);
      assert newer == init + [b];
    }
  }

  /** The newest n buckets, or all of them if there are fewer. */
  function Newest(log: seq<Bucket>, n: nat): (r: seq<Bucket>)
    ensures |r| == (if n <= |log| then n else |log|) && r == log[|log| - |r|..]
  {
    if n <= |log| then log[|log| - n..] else log
  }

  function Older(log: seq<Bucket>, n: nat): (r: seq<Bucket>)
    ensures r + Newest(log, n) == log
  {
    if n <= |log| then log[..|log| - n] else []
  }
}
