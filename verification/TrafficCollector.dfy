/** The traffic ring of pkg/stats/collector.go: 360 buckets written over in place, proved to
    show the newest part of the unbounded log and to lose count of nothing. */
module TrafficCollector {
  import opened TrafficLog

  /** The bucket opened age buckets before the newest, or a zero bucket. */
  function Aged(log: seq<Bucket>, age: nat): Bucket {
    if age < |log| then log[|log| - 1 - age] else ZERO
  }

  /** How many slots the slot lies behind the current one, going round the ring. */
  function Age(idx: nat, slot: nat): nat
    requires slot < MAX_BUCKETS && idx < MAX_BUCKETS
  {
    if slot <= idx then idx - slot else idx + MAX_BUCKETS - slot
  }

  ghost predicate Shows(ring: seq<Bucket>, idx: nat, log: seq<Bucket>) {
    && |ring| == MAX_BUCKETS && idx < MAX_BUCKETS
    && forall slot :: 0 <= slot < MAX_BUCKETS ==> ring[slot] == Aged(log, Age(idx, slot))
  }

  lemma AdvanceShows(ring: seq<Bucket>, idx: nat, log: seq<Bucket>, b: Bucket)
    requires Shows(ring, idx, log)
    ensures var next := (idx + 1) % MAX_BUCKETS;
            ring[next] == Aged(log, MAX_BUCKETS - 1) && Shows(ring[next := b], next, log + [b])
  {
    var next := (idx + 1) % MAX_BUCKETS;
    forall slot | 0 <= slot < MAX_BUCKETS
      ensures ring[next := b][slot] == Aged(log + [b], Age(next, slot))
    {
      assert slot != next ==> Age(next, slot) == Age(idx, slot) + 1;
    }
  }

  lemma AmendShows(ring: seq<Bucket>, idx: nat, log: seq<Bucket>, b: Bucket)
    requires Shows(ring, idx, log) && log != []
    ensures Shows(ring[idx := b], idx, log[..|log| - 1] + [b])
  {
    forall slot | 0 <= slot < MAX_BUCKETS
      ensures ring[idx := b][slot] == Aged(log[..|log| - 1] + [b], Age(idx, slot))
    {
      assert Age(idx, slot) == 0 <==> slot == idx;
    }
  }

  /** Going round from the slot after the current one visits buckets from oldest to newest. */
  lemma RoundShows(ring: seq<Bucket>, idx: nat, log: seq<Bucket>, i: nat)
    requires Shows(ring, idx, log) && i < MAX_BUCKETS
    ensures ring[(idx + 1 + i) % MAX_BUCKETS] == Aged(log, MAX_BUCKETS - 1 - i)
  {
    assert Age(idx, (idx + 1 + i) % MAX_BUCKETS) == MAX_BUCKETS - 1 - i;
  }

  /** What an event does to the slots, oldest first, whatever its time: it is added to the
      newest, occupies the next one, or is dropped. A slot time of zero counts as unused. */
  function Entered(slots: seq<Bucket>, e: Event): (r: seq<Bucket>)
    requires slots != []
    ensures r != []
  {
    var cur := slots[|slots| - 1];
    if cur.time == BucketTime(e.at) then slots[..|slots| - 1] + [Plus(cur, Single(e))]
    else if cur.time == 0 || BucketTime(e.at) > cur.time then slots + [Single(e)]
    else slots
  }

  /** The requests of the bucket that the event writes over, if it does. */
  function WrittenOver(slots: seq<Bucket>, e: Event): nat
    requires slots != []
  {
    if |Entered(slots, e)| > |slots| then Aged(slots, MAX_BUCKETS - 1).requests else 0
  }

  /** The buckets in use. */
  function Shown(slots: seq<Bucket>): seq<Bucket> {
    if slots == [] then []
    else
      var n := |slots| - 1;
      if slots[n].time > 0 then Shown(slots[..n]) + [slots[n]] else Shown(slots[..n])
  }

  lemma ShownAppend(slots: seq<Bucket>, b: Bucket)
    ensures Shown(slots + [b]) == if b.time > 0 then Shown(slots) + [b] else Shown(slots)
  {
    assert (slots + [b])[..|slots|] == slots;
  }

  /** What a round meets in the slot i places after the current one's successor: the ring's
      slots not yet occupied come first. */
  function Met(newest: seq<Bucket>, i: nat): Bucket
    requires i < MAX_BUCKETS && |newest| <= MAX_BUCKETS
  {
    var k := |newest| + i - MAX_BUCKETS;
    if k < 0 then ZERO else newest[k]
  }

  lemma MetIsAged(slots: seq<Bucket>, i: nat)
    requires i < MAX_BUCKETS
    ensures Met(Newest(slots, MAX_BUCKETS), i) == Aged(slots, MAX_BUCKETS - 1 - i)
  {}

  /** The buckets in use among the first i slots of a round. */
  function Gathered(newest: seq<Bucket>, i: nat): seq<Bucket>
    requires i <= MAX_BUCKETS && |newest| <= MAX_BUCKETS
  {
    var k := |newest| + i - MAX_BUCKETS;
    if k <= 0 then [] else Shown(newest[..k])
  }

  lemma GatherOne(newest: seq<Bucket>, i: nat)
    requires i < MAX_BUCKETS && |newest| <= MAX_BUCKETS
    ensures var b := Met(newest, i);
            Gathered(newest, i + 1) == if b.time > 0 then Gathered(newest, i) + [b] else Gathered(newest, i)
  {
    var k := |newest| + i - MAX_BUCKETS;
    if k >= 0 {
      assert newest[..k + 1] == newest[..k] + [newest[k]];
      ShownAppend(newest[..k], newest[k]);
    }
  }

  class Collector {
    const buckets: array<Bucket>
    var bucketIdx: nat
    ghost var slots: seq<Bucket> // every bucket that ever occupied a slot, the first unused one included
    ghost var evicted: nat       // requests in buckets that were written over

    ghost predicate Valid()
      reads `bucketIdx, `slots, buckets
    {
      buckets.Length == MAX_BUCKETS && bucketIdx < MAX_BUCKETS && slots != [] && Shows(buckets[..], bucketIdx, slots)
    }

    constructor ()
      ensures Valid() && slots == [ZERO] && evicted == 0 && fresh(buckets)
    {
      buckets := new Bucket[MAX_BUCKETS](_ => ZERO);
      bucketIdx, slots, evicted := 0, [ZERO], 0;
      new;
      assert forall slot :: 0 <= slot < MAX_BUCKETS ==> buckets[slot] == ZERO;
    }

    /** A request was logged as closed. */
    method RecordTraffic(at: int, read: int, written: int)
      requires Valid()
      modifies this, buckets
      ensures Valid() && slots == Entered(old(slots), Entry(at, read, written))
      ensures evicted == old(evicted) + WrittenOver(old(slots), Entry(at, read, written))
    {
      var bt := BucketTime(at);
      var cur := Current();
      if cur.time == bt {
        Amend(cur.(requests := cur.requests + 1, read := cur.read + read, written := cur.written + written));
      } else if cur.time == 0 || bt > cur.time {
        Advance(Bucket(bt, 1, read, written));
      }
    }

    /** Bytes passed through a connection that is still open. */
    method AddLiveBytes(now: int, read: int, written: int)
      requires Valid()
      modifies this, buckets
      ensures Valid() && slots == Entered(old(slots), Live(now, read, written))
      ensures evicted == old(evicted) + WrittenOver(old(slots), Live(now, read, written))
    {
      var bt := BucketTime(now);
      var cur := Current();
      if cur.time == bt {
        Amend(cur.(read := cur.read + read, written := cur.written + written));
      } else if cur.time == 0 || bt > cur.time {
        Advance(Bucket(bt, 0, read, written));
      }
    }

    method Current() returns (cur: Bucket)
      requires Valid()
      ensures cur == Aged(slots, 0)
    {
      RoundShows(buckets[..], bucketIdx, slots, MAX_BUCKETS - 1);
      cur := buckets[bucketIdx];
    }

    /** Rewrites the newest bucket. */
    method Amend(b: Bucket)
      requires Valid()
      modifies `slots, buckets
      ensures Valid() && slots == old(slots)[..|old(slots)| - 1] + [b]
    {
      ghost var ring := buckets[..];
      AmendShows(ring, bucketIdx, slots, b);
      buckets[bucketIdx] := b;
      assert buckets[..] == ring[bucketIdx := b];
      slots := slots[..|slots| - 1] + [b];
    }

    /** Moves to the next slot, overwriting the oldest bucket. */
    method Advance(b: Bucket)
      requires Valid()
      modifies `bucketIdx, `evicted, `slots, buckets
      ensures Valid() && slots == old(slots) + [b]
      ensures evicted == old(evicted) + Aged(old(slots), MAX_BUCKETS - 1).requests
    {
      ghost var ring := buckets[..];
      AdvanceShows(ring, bucketIdx, slots, b);
      bucketIdx := (bucketIdx + 1) % MAX_BUCKETS;
      evicted := evicted + buckets[bucketIdx].requests;
      buckets[bucketIdx] := b;
      assert buckets[..] == ring[bucketIdx := b];
      slots := slots + [b];
    }

    /** The newest count of the buckets in use, oldest first. */
    method Traffic(count: nat) returns (result: seq<Bucket>)
      requires Valid()
      ensures result == Newest(Shown(Newest(slots, MAX_BUCKETS)), if count < MAX_BUCKETS then count else MAX_BUCKETS)
    {
      var n := if count > MAX_BUCKETS then MAX_BUCKETS else count;
      result := Round();
      if |result| > n {
        result := result[|result| - n..];
      }
    }

    /** The bucket in the slot i places after the one that follows the current slot. */
    method Visit(i: nat) returns (b: Bucket)
      requires Valid() && i < MAX_BUCKETS
      ensures b == Aged(slots, MAX_BUCKETS - 1 - i)
    {
      RoundShows(buckets[..], bucketIdx, slots, i);
      var idx := (bucketIdx + 1 + i) % MAX_BUCKETS;
      b := buckets[idx];
    }

    /** Goes once round the ring and collects the buckets in use. */
    method Round() returns (result: seq<Bucket>)
      requires Valid()
      ensures result == Shown(Newest(slots, MAX_BUCKETS))
    {
      result := [];
      var i := 0;
      ghost var newest := Newest(slots, MAX_BUCKETS);
      while i < MAX_BUCKETS
        invariant i <= MAX_BUCKETS && result == Gathered(newest, i)
      {
        var b := Visit(i);
        MetIsAged(slots, i);
        GatherOne(newest, i);
        if b.time > 0 {
          result := result + [b];
        }
        i := i + 1;
      }
      assert newest[..|newest|] == newest;
    }
  }

  // ---------------------------------------------------------------- whole runs

  function SlotsOf(events: seq<Event>): (r: seq<Bucket>)
    ensures r != []
  {
    if events == [] then [ZERO] else Entered(SlotsOf(events[..|events| - 1]), events[|events| - 1])
  }

  /** The requests written over in the course of the events. */
  function EvictedOf(events: seq<Event>): nat {
    if events == [] then 0
    else
      var n := |events| - 1;
      EvictedOf(events[..n]) + WrittenOver(SlotsOf(events[..n]), events[n])
  }

  ghost predicate Positive(log: seq<Bucket>) {
    forall k :: 0 <= k < |log| ==> log[k].time > 0
  }

  /** While times are positive only the first slot is unused. */
  lemma EnteredIsAbsorbed(log: seq<Bucket>, e: Event)
    requires Positive(log) && BucketTime(e.at) > 0
    ensures Entered([ZERO] + log, e) == [ZERO] + Absorb(log, e) && Positive(Absorb(log, e))
  {
    if log != [] {
      assert ([ZERO] + log)[..|log|] == [ZERO] + log[..|log| - 1];
    }
  }

  lemma {:induction false} SlotsAreLog(events: seq<Event>)
    requires forall i :: 0 <= i < |events| ==> BucketTime(events[i].at) > 0
    ensures SlotsOf(events) == [ZERO] + LogOf(events) && Positive(LogOf(events))
  {
    if events != [] {
      var n := |events| - 1;
      SlotsAreLog(events[..n]);
      EnteredIsAbsorbed(LogOf(events[..n]), events[n]);
    }
  }

  lemma {:induction false} ShownPositive(log: seq<Bucket>)
    requires Positive(log)
    ensures Shown(log) == log
  {
    if log != [] {
      var n := |log| - 1;
      ShownPositive(log[..n]);
      ShownAppend(log[..n], log[n]);
      assert log == log[..n] + [log[n]];
    }
  }

  lemma UnusedStep(log: seq<Bucket>, b: Bucket)
    requires Shown([ZERO] + log) == Shown(log)
    ensures Shown([ZERO] + (log + [b])) == Shown(log + [b])
  {
    assert [ZERO] + (log + [b]) == ([ZERO] + log) + [b];
    ShownAppend([ZERO] + log, b);
    ShownAppend(log, b);
  }

  /** An unused slot does not show. */
  lemma {:induction false} UnusedSlot(log: seq<Bucket>)
    ensures Shown([ZERO] + log) == Shown(log)
  {
    if log == [] {
      assert [ZERO] + log == [ZERO];
    } else {
      var n := |log| - 1;
      UnusedSlot(log[..n]);
      UnusedStep(log[..n], log[n]);
      assert log == log[..n] + [log[n]];
    }
  }

  lemma OlderByOne(log: seq<Bucket>, b: Bucket, n: nat)
    requires 1 <= n <= |log|
    ensures Older(log + [b], n) == Older(log, n) + [log[|log| - n]]
  {
    assert Older(log + [b], n) == log[..|log| - n + 1];
  }

  /** A new bucket pushes out the one 360 before it. */
  lemma OlderGrows(log: seq<Bucket>, b: Bucket)
    ensures Requests(Older(log + [b], MAX_BUCKETS))
            == Requests(Older(log, MAX_BUCKETS)) + Aged([ZERO] + log, MAX_BUCKETS - 1).requests
  {
    if MAX_BUCKETS <= |log| {
      OlderByOne(log, b, MAX_BUCKETS);
      RequestsAppend(Older(log, MAX_BUCKETS), log[|log| - MAX_BUCKETS]);
    }
  }

  lemma WrittenOverStep(log: seq<Bucket>, e: Event)
    requires Positive(log) && BucketTime(e.at) > 0
    ensures Requests(Older(Absorb(log, e), MAX_BUCKETS))
            == Requests(Older(log, MAX_BUCKETS)) + WrittenOver([ZERO] + log, e)
  {
    EnteredIsAbsorbed(log, e);
    if log == [] || BucketTime(e.at) > log[|log| - 1].time {
      OlderGrows(log, Single(e));
    } else {
      assert Older(Absorb(log, e), MAX_BUCKETS) == Older(log, MAX_BUCKETS);
    }
  }

  lemma {:induction false} EvictedIsOlder(events: seq<Event>)
    requires forall i :: 0 <= i < |events| ==> BucketTime(events[i].at) > 0
    ensures EvictedOf(events) == Requests(Older(LogOf(events), MAX_BUCKETS))
  {
    if events != [] {
      var n := |events| - 1;
      EvictedIsOlder(events[..n]);
      SlotsAreLog(events[..n]);
      WrittenOverStep(LogOf(events[..n]), events[n]);
    }
  }

  lemma ShownOfLog(log: seq<Bucket>)
    requires Positive(log)
    ensures Shown(Newest([ZERO] + log, MAX_BUCKETS)) == Newest(log, MAX_BUCKETS)
  {
    if |log| < MAX_BUCKETS {
      assert Newest([ZERO] + log, MAX_BUCKETS) == [ZERO] + log;
      UnusedSlot(log);
      ShownPositive(log);
    } else {
      assert Newest([ZERO] + log, MAX_BUCKETS) == Newest(log, MAX_BUCKETS);
      ShownPositive(Newest(log, MAX_BUCKETS));
    }
  }

  lemma DropTwice(log: seq<Bucket>, a: nat, b: nat)
    requires a + b <= |log|
    ensures log[a..][b..] == log[a + b..]
  {}

  lemma NewestOfNewest(log: seq<Bucket>, m: nat, n: nat)
    requires n <= m
    ensures Newest(Newest(log, m), n) == Newest(log, n)
  {
    if m <= |log| {
      DropTwice(log, |log| - m, m - n);
    }
  }

  lemma NewestIncreasing(log: seq<Bucket>, n: nat)
    requires Increasing(log)
    ensures Increasing(Newest(log, n))
  {
    var newest := Newest(log, n);
    assert forall i :: 0 <= i < |newest| ==> newest[i] == log[|log| - |newest| + i];
  }

  /** From any positive times, what the ring shows is the end of the unbounded log, in
      strict order of time. */
  lemma {:induction false} RingTheorem(events: seq<Event>, count: nat)
    requires forall i :: 0 <= i < |events| ==> BucketTime(events[i].at) > 0
    ensures var n := if count < 360 then count else 360;
            Newest(Shown(Newest(SlotsOf(events), MAX_BUCKETS)), n) == Newest(LogOf(events), n)
            && Increasing(Newest(LogOf(events), n))
  {
    SlotsAreLog(events);
    LogShape(events);
    ShownOfLog(LogOf(events));
    var n := if count < 360 then count else 360;
    NewestOfNewest(LogOf(events), MAX_BUCKETS, n);
    NewestIncreasing(LogOf(events), n);
  }

  /** Every entry ever observed at a positive time is in a bucket that is still shown, was in
      one that has been written over, or came late. */
  lemma {:induction false} ConservationTheorem(events: seq<Event>)
    requires forall i :: 0 <= i < |events| ==> BucketTime(events[i].at) > 0
    ensures Entries(events) ==
              Requests(Shown(Newest(SlotsOf(events), MAX_BUCKETS))) + EvictedOf(events) + Late(events)
  {
    SlotsAreLog(events);
    ShownOfLog(LogOf(events));
    Conservation(events);
    EvictedIsOlder(events);
    RequestsSplit(Older(LogOf(events), MAX_BUCKETS), Newest(LogOf(events), MAX_BUCKETS));
  }

  // ---------------------------------------------------------------- hosts

  datatype Hit = Hit(host: string, at: int)

  function Recent(hits: seq<Hit>, cutoff: int): seq<Hit> {
    if hits == [] then []
    else
      var n := |hits| - 1;
      if hits[n].at > cutoff then Recent(hits[..n], cutoff) + [hits[n]] else Recent(hits[..n], cutoff)
  }

  function CountOf(hits: seq<Hit>, host: string): nat {
    if hits == [] then 0
    else CountOf(hits[..|hits| - 1], host) + if hits[|hits| - 1].host == host then 1 else 0
  }

  lemma RecentAppend(hits: seq<Hit>, h: Hit, cutoff: int)
    ensures Recent(hits + [h], cutoff) == if h.at > cutoff then Recent(hits, cutoff) + [h] else Recent(hits, cutoff)
  {
    assert (hits + [h])[..|hits|] == hits;
  }

  lemma CountAppend(hits: seq<Hit>, h: Hit, host: string)
    ensures CountOf(hits + [h], host) == CountOf(hits, host) + if h.host == host then 1 else 0
  {
    assert (hits + [h])[..|hits|] == hits;
  }

  /** Keeps the recent hits, moved to the front in their order. */
  method CompactHits(hits: array<Hit>, cutoff: int) returns (n: nat)
    modifies hits
    ensures n <= hits.Length && hits[..n] == Recent(old(hits[..]), cutoff)
  {
    ghost var was := hits[..];
    n := 0;
    var i := 0;
    while i < hits.Length
      invariant n <= i <= hits.Length
      invariant hits[..n] == Recent(was[..i], cutoff)
      invariant forall k :: i <= k < hits.Length ==> hits[k] == was[k]
    {
      var h := hits[i];
      assert was[..i + 1][..i] == was[..i];
      if h.at > cutoff {
        hits[n] := h;
        n := n + 1;
      }
      i := i + 1;
    }
    assert was[..i] == was;
  }

  function In(counts: map<string, nat>, host: string): nat {
    if host in counts then counts[host] else 0
  }

  /** The counts are those of the hits, with no entry for a host without hits. */
  ghost predicate Counted(counts: map<string, nat>, hits: seq<Hit>) {
    (forall host :: CountOf(hits, host) == In(counts, host)) && forall host <- counts :: counts[host] > 0
  }

  lemma CountedAppend(counts: map<string, nat>, hits: seq<Hit>, h: Hit)
    requires Counted(counts, hits)
    ensures Counted(counts[h.host := In(counts, h.host) + 1], hits + [h])
  {
    forall host
      ensures CountOf(hits + [h], host) == In(counts[h.host := In(counts, h.host) + 1], host)
    {
      CountAppend(hits, h, host);
    }
  }

  method TopHosts(hits: seq<Hit>, cutoff: int) returns (counts: map<string, nat>)
    ensures Counted(counts, Recent(hits, cutoff))
  {
    counts := map[];
    var i := 0;
    while i < |hits|
      invariant i <= |hits| && Counted(counts, Recent(hits[..i], cutoff))
    {
      var h := hits[i];
      assert hits[..i + 1] == hits[..i] + [h];
      RecentAppend(hits[..i], h, cutoff);
      if h.at > cutoff {
        CountedAppend(counts, Recent(hits[..i], cutoff), h);
        counts := counts[h.host := (if h.host in counts then counts[h.host] else 0) + 1];
      }
      i := i + 1;
    }
    assert hits[..i] == hits;
  }

  lemma CompactionStep(hits: seq<Hit>, h: Hit, cutoff: int, later: int)
    requires cutoff <= later && Recent(Recent(hits, cutoff), later) == Recent(hits, later)
    ensures Recent(Recent(hits + [h], cutoff), later) == Recent(hits + [h], later)
  {
    RecentAppend(hits, h, cutoff);
    RecentAppend(hits, h, later);
    RecentAppend(Recent(hits, cutoff), h, later);
  }

  /** Compaction does not show: whatever is cut off now would be cut off by any later count. */
  lemma {:induction false} CompactionInvisible(hits: seq<Hit>, cutoff: int, later: int)
    requires cutoff <= later
    ensures Recent(Recent(hits, cutoff), later) == Recent(hits, later)
  {
    if hits != [] {
      var n := |hits| - 1;
      CompactionInvisible(hits[..n], cutoff, later);
      CompactionStep(hits[..n], hits[n], cutoff, later);
      assert hits == hits[..n] + [hits[n]];
    }
  }
}
