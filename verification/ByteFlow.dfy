/** The bytes counted by pkg/stats/counter.go on their way from the writers to the collector,
    with every atomic operation a step of its own and any interleaving of the steps. */
module ByteFlow {
  /** What the channel between the flushers and the drain loop holds at most. */
  const LIVE_CHAN_SIZE: nat := 256

  /** A packet in the channel: a number of bytes read from a client, or else written to one.
      Its owner is known here only, and is not sent along. */
  datatype Packet = Packet(owner: int, isRead: bool, bytes: nat)

  /** One counting writer. caught are the writes between the two atomic additions, held is
      what the flusher has taken and not yet sent (0 for nothing). */
  datatype Writer = Writer(isRead: bool, pending: nat, total: nat, caught: seq<nat>, held: nat,
                           delivered: nat, dropped: nat, stopping: bool, finished: bool)

  datatype System = System(writers: map<int, Writer>, queue: seq<Packet>)

  datatype Step =
    | NewWriter(w: int, isRead: bool)
    | AddPending(w: int, n: nat)      // the first half of Write
    | AddTotal(w: int, i: nat)        // the second half of one of the writes caught between
    | Swap(w: int, last: bool)        // flush takes what is pending; last: after Close
    | Send(w: int)                    // flush sends it, or drops it when the channel is full
    | Drain                           // the drain loop receives a packet
    | Close(w: int)

  function Fresh(isRead: bool): Writer { Writer(isRead, 0, 0, [], 0, 0, 0, false, false) }

  function Sum(s: seq<nat>): nat {
    if s == [] then 0 else Sum(s[..|s| - 1]) + s[|s| - 1]
  }

  function Without(s: seq<nat>, i: nat): seq<nat>
    requires i < |s|
  {
    s[..i] + s[i + 1..]
  }

  function Queued(queue: seq<Packet>, w: int): nat {
    if queue == [] then 0
    else (if queue[0].owner == w then queue[0].bytes else 0) + Queued(queue[1..], w)
  }

  // ---------------------------------------------------------------- steps of one writer

  function Pended(x: Writer, n: nat): Writer { x.(pending := x.pending + n, caught := x.caught + [n]) }

  function Totalled(x: Writer, i: nat): Writer
    requires i < |x.caught|
  {
    x.(total := x.total + x.caught[i], caught := Without(x.caught, i))
  }

  function Swapped(x: Writer, last: bool): Writer { x.(held := x.pending, pending := 0, finished := last) }

  function Sent(x: Writer, full: bool): Writer {
    x.(held := 0, dropped := if full then x.dropped + x.held else x.dropped)
  }

  function Delivered(x: Writer, n: nat): Writer { x.(delivered := x.delivered + n) }

  predicate Enabled(s: System, a: Step) {
    match a
    case NewWriter(w, _) => w !in s.writers
    case AddPending(w, n) => w in s.writers && n > 0
    case AddTotal(w, i) => w in s.writers && i < |s.writers[w].caught|
    case Swap(w, last) =>
      w in s.writers && s.writers[w].held == 0 && !s.writers[w].finished && (last ==> s.writers[w].stopping)
    case Send(w) => w in s.writers && s.writers[w].held > 0
    case Drain => s.queue != [] && s.queue[0].owner in s.writers
    case Close(w) => w in s.writers && !s.writers[w].stopping
  }

  predicate Full(queue: seq<Packet>) { |queue| >= LIVE_CHAN_SIZE }

  function Do(s: System, a: Step): System
    requires Enabled(s, a)
  {
    match a
    case NewWriter(w, isRead) => s.(writers := s.writers[w := Fresh(isRead)])
    case AddPending(w, n) => s.(writers := s.writers[w := Pended(s.writers[w], n)])
    case AddTotal(w, i) => s.(writers := s.writers[w := Totalled(s.writers[w], i)])
    case Swap(w, last) => s.(writers := s.writers[w := Swapped(s.writers[w], last)])
    case Send(w) =>
      System(s.writers[w := Sent(s.writers[w], Full(s.queue))],
             if Full(s.queue) then s.queue else s.queue + [Packet(w, s.writers[w].isRead, s.writers[w].held)])
    case Drain =>
      var Packet(w, _, n) := s.queue[0];
      System(s.writers[w := Delivered(s.writers[w], n)], s.queue[1..])
    case Close(w) => s.(writers := s.writers[w := s.writers[w].(stopping := true)])
  }

  // ---------------------------------------------------------------- conservation

  /** Nothing counted is lost sight of. */
  predicate Balanced(x: Writer, queued: nat) {
    x.total + Sum(x.caught) == x.pending + x.held + queued + x.delivered + x.dropped
  }

  ghost predicate Conserved(s: System) {
    && |s.queue| <= LIVE_CHAN_SIZE
    && (forall w <- s.writers :: Balanced(s.writers[w], Queued(s.queue, w)))
    && (forall k :: 0 <= k < |s.queue| ==> s.queue[k].owner in s.writers)
  }

  lemma {:induction false} SumWithout(s: seq<nat>, i: nat)
    requires i < |s|
    ensures Sum(s) == Sum(Without(s, i)) + s[i]
  {
    var n := |s| - 1;
    if i == n {
      assert Without(s, i) == s[..n];
    } else {
      SumWithout(s[..n], i);
      assert Without(s, i)[..n - 1] == Without(s[..n], i);
    }
  }

  lemma SumAppend(s: seq<nat>, n: nat)
    ensures Sum(s + [n]) == Sum(s) + n
  {
    assert (s + [n])[..|s|] == s;
  }

  lemma {:induction false} QueuedAppend(queue: seq<Packet>, p: Packet, w: int)
    ensures Queued(queue + [p], w) == Queued(queue, w) + if p.owner == w then p.bytes else 0
  {
    if queue == [] {
      assert queue + [p] == [p];
    } else {
      QueuedAppend(queue[1..], p, w);
      assert (queue + [p])[1..] == queue[1..] + [p];
    }
  }

  lemma {:induction false} NothingQueued(queue: seq<Packet>, w: int)
    requires forall k :: 0 <= k < |queue| ==> queue[k].owner != w
    ensures Queued(queue, w) == 0
  {
    if queue != [] {
      NothingQueued(queue[1..], w);
    }
  }

  lemma SendKeeps(s: System, w: int, u: int)
    requires Conserved(s) && Enabled(s, Send(w)) && u in s.writers
    ensures Balanced(Do(s, Send(w)).writers[u], Queued(Do(s, Send(w)).queue, u))
  {
    assert Balanced(s.writers[u], Queued(s.queue, u));
    QueuedAppend(s.queue, Packet(w, s.writers[w].isRead, s.writers[w].held), u);
  }

  lemma OwnStepKeeps(s: System, a: Step)
    requires Conserved(s) && Enabled(s, a) && !a.Send? && !a.Drain? && !a.NewWriter?
    ensures Balanced(Do(s, a).writers[a.w], Queued(s.queue, a.w))
  {
    var x := s.writers[a.w];
    assert Balanced(x, Queued(s.queue, a.w));
    match a {
      case AddPending(_, n) => SumAppend(x.caught, n);
      case AddTotal(_, i) => SumWithout(x.caught, i);
      case Swap(_, _) =>
      case Close(_) =>
    }
  }

  lemma StepConserves(s: System, a: Step)
    requires Conserved(s) && Enabled(s, a)
    ensures Conserved(Do(s, a))
  {
    var s' := Do(s, a);
    forall u | u in s'.writers
      ensures Balanced(s'.writers[u], Queued(s'.queue, u))
    {
      if a.NewWriter? && u == a.w {
        NothingQueued(s.queue, u);
      } else {
        assert Balanced(s.writers[u], Queued(s.queue, u));
        if a.Send? {
          SendKeeps(s, a.w, u);
        } else if !a.Drain? && u == a.w {
          OwnStepKeeps(s, a);
        }
      }
    }
  }

  ghost predicate IsRun(states: seq<System>, steps: seq<Step>) {
    && |states| == |steps| + 1 && states[0] == System(map[], [])
    && forall i :: 0 <= i < |steps| ==> Enabled(states[i], steps[i]) && states[i + 1] == Do(states[i], steps[i])
  }

  /** Under any interleaving, each writer's total is what is pending, in the flusher's hand,
      queued, delivered or dropped, up to the writes caught between the two additions. */
  lemma {:induction false} ConservationTheorem(states: seq<System>, steps: seq<Step>, i: nat)
    requires IsRun(states, steps) && i < |states|
    ensures |states[i].queue| <= LIVE_CHAN_SIZE
    ensures forall w <- states[i].writers :: Balanced(states[i].writers[w], Queued(states[i].queue, w))
    ensures Conserved(states[i])
  {
    if i > 0 {
      ConservationTheorem(states, steps, i - 1);
      StepConserves(states[i - 1], steps[i - 1]);
    }
  }

  /** The bytes that a writer's writes passed on. */
  function Written(steps: seq<Step>, w: int): nat {
    if steps == [] then 0
    else
      var a := steps[|steps| - 1];
      Written(steps[..|steps| - 1], w) + if a.AddPending? && a.w == w then a.n else 0
  }

  /** A writer's total is what was written, up to the writes caught between the additions;
      so all that was written is accounted for. */
  lemma {:induction false} WrittenTheorem(states: seq<System>, steps: seq<Step>, w: int, i: nat)
    requires IsRun(states, steps) && i < |states|
    ensures w in states[i].writers ==> states[i].writers[w].total + Sum(states[i].writers[w].caught) == Written(steps[..i], w)
    ensures w !in states[i].writers ==> Written(steps[..i], w) == 0
  {
    if i > 0 {
      var a := steps[i - 1];
      WrittenTheorem(states, steps, w, i - 1);
      assert steps[..i][..i - 1] == steps[..i - 1] && states[i] == Do(states[i - 1], a);
      if w in states[i - 1].writers {
        var caught := states[i - 1].writers[w].caught;
        if a.AddPending? && a.w == w {
          SumAppend(caught, a.n);
        } else if a.AddTotal? && a.w == w {
          SumWithout(caught, a.i);
        }
      }
    }
  }

  /** Every packet in the channel goes the way of the writer that it came from. */
  lemma {:induction false} DirectionTheorem(states: seq<System>, steps: seq<Step>, i: nat, k: nat)
    requires IsRun(states, steps) && i < |states| && k < |states[i].queue|
    ensures var p := states[i].queue[k];
            p.owner in states[i].writers && p.isRead == states[i].writers[p.owner].isRead && p.bytes > 0
  {
    var s, a := states[i - 1], steps[i - 1];
    assert states[i] == Do(s, a);
    if a.Drain? {
      DirectionTheorem(states, steps, i - 1, k + 1);
    } else if k < |s.queue| {
      DirectionTheorem(states, steps, i - 1, k);
    }
  }

  // ---------------------------------------------------------------- drops and closing

  predicate Lossy(s: System, a: Step, w: int) { a == Send(w) && |s.queue| >= 256 }

  /** Bytes of a writer are dropped exactly if one of its flushes met a full channel. */
  lemma {:induction false} DropTheorem(states: seq<System>, steps: seq<Step>, w: int, i: nat)
    requires IsRun(states, steps) && i < |states| && w in states[i].writers
    ensures states[i].writers[w].dropped == 0 <==> forall j :: 0 <= j < i ==> !Lossy(states[j], steps[j], w)
  {
    if i > 0 {
      assert states[i] == Do(states[i - 1], steps[i - 1]);
      if w in states[i - 1].writers {
        DropTheorem(states, steps, w, i - 1);
      } else {
        NotThere(states, steps, w, i - 1);
      }
    }
  }

  /** A writer does nothing before it is made. */
  lemma {:induction false} NotThere(states: seq<System>, steps: seq<Step>, w: int, i: nat)
    requires IsRun(states, steps) && i < |states| && w !in states[i].writers
    ensures forall j :: 0 <= j < i ==> w !in states[j].writers && !Lossy(states[j], steps[j], w)
  {
    if i > 0 {
      assert states[i] == Do(states[i - 1], steps[i - 1]);
      NotThere(states, steps, w, i - 1);
    }
  }

  /** The proxy closes a writer only when copying has ended. */
  ghost predicate ClosedAfterUse(states: seq<System>, steps: seq<Step>, w: int)
    requires IsRun(states, steps)
  {
    forall j :: 0 <= j < |steps| ==> (steps[j].AddPending? && steps[j].w == w ==> !states[j].writers[w].stopping)
  }

  lemma {:induction false} FinishedEmpty(states: seq<System>, steps: seq<Step>, w: int, i: nat)
    requires IsRun(states, steps) && ClosedAfterUse(states, steps, w)
    requires i < |states| && w in states[i].writers && states[i].writers[w].finished
    ensures states[i].writers[w].stopping && states[i].writers[w].pending == 0
  {
    if i > 0 {
      assert states[i] == Do(states[i - 1], steps[i - 1]);
      if w in states[i - 1].writers && states[i - 1].writers[w].finished {
        FinishedEmpty(states, steps, w, i - 1);
      }
    }
  }

  /** Once the last flush is done and its packets are through, exactly what was written has
      been delivered, less what met a full channel. */
  lemma FinishedTheorem(states: seq<System>, steps: seq<Step>, w: int, i: nat)
    requires IsRun(states, steps) && ClosedAfterUse(states, steps, w)
    requires i < |states| && w in states[i].writers
    requires var x := states[i].writers[w];
             x.finished && x.held == 0 && x.caught == [] && Queued(states[i].queue, w) == 0
    ensures states[i].writers[w].total == states[i].writers[w].delivered + states[i].writers[w].dropped
    ensures (forall j :: 0 <= j < i ==> !Lossy(states[j], steps[j], w)) ==>
              states[i].writers[w].total == states[i].writers[w].delivered
  {
    ConservationTheorem(states, steps, i);
    FinishedEmpty(states, steps, w, i);
    DropTheorem(states, steps, w, i);
    assert Balanced(states[i].writers[w], Queued(states[i].queue, w));
  }
}
