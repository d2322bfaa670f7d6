/** The failure limiters of pkg/ratelimit/ratelimit.go and pkg/admin/globalcounter.go, as
    objects updated in place. Times are integers from a clock that never goes back. */
module SlidingWindow {

  /** The times after the cutoff, order kept. */
  function Active(times: seq<int>, cutoff: int): seq<int> {
    if times == [] then []
    else if times[|times| - 1] > cutoff then Active(times[..|times| - 1], cutoff) + [times[|times| - 1]]
    else Active(times[..|times| - 1], cutoff)
  }

  function Times(counts: map<string, seq<int>>, ip: string): seq<int> {
    if ip in counts then counts[ip] else []
  }

  /** Every list of times cut down to its active part; empty lists are dropped. */
  function Cleaned(counts: map<string, seq<int>>, cutoff: int): map<string, seq<int>> {
    map ip | ip in counts && Active(counts[ip], cutoff) != [] :: Active(counts[ip], cutoff)
  }

  method FilterActive(times: seq<int>, cutoff: int) returns (active: seq<int>)
    ensures active == Active(times, cutoff)
  {
    active := [];
    for i := 0 to |times|
      invariant active == Active(times[..i], cutoff)
    {
      assert times[..i + 1][..i] == times[..i];
      if times[i] > cutoff {
        active := active + [times[i]];
      }
    }
    assert times[..|times|] == times;
  }

  class Limiter {
    var counts: map<string, seq<int>>
    const limit: int
    const window: int

    constructor (limit: int, window: int)
      ensures this.limit == limit && this.window == window && counts == map[]
    {
      this.limit, this.window := limit, window;
      counts := map[];
    }

    method RecordFailure(ip: string, now: int)
      modifies this
      ensures counts == old(counts)[ip := Times(old(counts), ip) + [now]]
    {
      counts := counts[ip := (if ip in counts then counts[ip] else []) + [now]];
    }

    method Allow(ip: string, now: int) returns (ok: bool)
      modifies this
      ensures ok == LimiterAllows(old(counts), limit, window, ip, now)
      ensures counts == LimiterFiltered(old(counts), window, ip, now)
    {
      if ip !in counts {
        return true;
      }
      var active := FilterActive(counts[ip], now - window);
      counts := counts[ip := active];
      return |active| < limit;
    }

    /** One tick of the background cleanup. */
    method Cleanup(now: int)
      modifies this
      ensures counts == Cleaned(old(counts), now - window)
    {
      ghost var was := counts;
      var ips := counts.Keys;
      while ips != {}
        invariant ips <= was.Keys && ips <= counts.Keys <= was.Keys
        invariant forall ip <- ips :: counts[ip] == was[ip]
        invariant forall ip <- was :: ip !in ips ==> CleanedOne(was, counts, ip, now - window)
        decreases |ips|
      {
        var ip :| ip in ips;
        ips := ips - {ip};
        var active := FilterActive(counts[ip], now - window);
        if |active| == 0 {
          counts := counts - {ip};
        } else {
          counts := counts[ip := active];
        }
        assert CleanedOne(was, counts, ip, now - window);
      }
      assert forall ip <- was :: CleanedOne(was, counts, ip, now - window);
    }
  }

  ghost predicate CleanedOne(was: map<string, seq<int>>, counts: map<string, seq<int>>, ip: string, cutoff: int)
    requires ip in was
  {
    var active := Active(was[ip], cutoff);
    if active == [] then ip !in counts else ip in counts && counts[ip] == active
  }

  predicate LimiterAllows(counts: map<string, seq<int>>, limit: int, window: int, ip: string, now: int) {
    ip !in counts || |Active(counts[ip], now - window)| < limit
  }

  function LimiterFiltered(counts: map<string, seq<int>>, window: int, ip: string, now: int): map<string, seq<int>> {
    if ip in counts then counts[ip := Active(counts[ip], now - window)] else counts
  }

  class GlobalCounter {
    var times: seq<int>
    const max: int
    const window: int

    constructor (max: int, window: int)
      ensures this.max == max && this.window == window && times == []
    {
      this.max, this.window := max, window;
      times := [];
    }

    method Allow(now: int) returns (ok: bool)
      modifies this
      ensures ok == GlobalAllows(old(times), max, window, now)
      ensures times == GlobalFiltered(old(times), max, window, now)
    {
      if max <= 0 {
        return true;
      }
      var active := FilterActive(times, now - window);
      times := active;
      return |active| < max;
    }

    method Record(now: int)
      modifies this
      ensures times == GlobalRecorded(old(times), max, now)
    {
      if max <= 0 {
        return;
      }
      times := times + [now];
    }
  }

  predicate GlobalAllows(times: seq<int>, max: int, window: int, now: int) {
    max <= 0 || |Active(times, now - window)| < max
  }

  function GlobalFiltered(times: seq<int>, max: int, window: int, now: int): seq<int> {
    if max <= 0 then times else Active(times, now - window)
  }

  function GlobalRecorded(times: seq<int>, max: int, now: int): seq<int> {
    if max <= 0 then times else times + [now]
  }
}
