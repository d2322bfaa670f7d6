/** Counting writers, their channel and the drain loop as objects; each atomic operation is
    proved to be the step of ByteFlow that it stands for. */
module ByteCounter {
  import opened ByteFlow

  class Channel {
    var queue: seq<Packet>

    constructor ()
      ensures queue == []
    {
      queue := [];
    }

    /** A send that gives up rather than wait. */
    method TrySend(p: Packet)
      modifies this
      ensures queue == if Full(old(queue)) then old(queue) else old(queue) + [p]
    {
      if |queue| < LIVE_CHAN_SIZE {
        queue := queue + [p];
      }
    }
  }

  class CountingWriter {
    const id: int
    const isRead: bool
    const ch: Channel
    var pending: nat
    var total: nat
    ghost var caught: seq<nat>
    ghost var held: nat
    ghost var delivered: nat
    ghost var dropped: nat
    ghost var stopping: bool
    ghost var finished: bool

    ghost function State(): Writer
      reads this
    {
      Writer(isRead, pending, total, caught, held, delivered, dropped, stopping, finished)
    }

    constructor (id: int, isRead: bool, ch: Channel)
      ensures this.id == id && this.ch == ch && State() == Fresh(isRead)
    {
      this.id, this.isRead, this.ch := id, isRead, ch;
      pending, total, caught, held, delivered, dropped, stopping, finished := 0, 0, [], 0, 0, 0, false, false;
    }

    method AddPending(n: nat)
      modifies this
      ensures State() == Pended(old(State()), n)
    {
      pending := pending + n;
      caught := caught + [n];
    }

    method AddTotal(n: nat, ghost i: nat)
      requires i < |caught| && caught[i] == n
      modifies this
      ensures State() == Totalled(old(State()), i)
    {
      total := total + n;
      caught := Without(caught, i);
    }

    /** A write of n bytes that no other step comes between. */
    method Write(n: nat)
      modifies this
      ensures State() == if n == 0 then old(State()) else old(State()).(pending := old(pending) + n, total := old(total) + n)
    {
      if n > 0 {
        AddPending(n);
        assert caught[..|caught| - 1] == old(caught);
        AddTotal(n, |caught| - 1);
        assert caught == old(caught);
      }
    }

    method Swap(ghost last: bool) returns (n: nat)
      modifies this
      ensures State() == Swapped(old(State()), last) && n == old(pending)
    {
      n := pending;
      pending := 0;
      held := n;
      finished := last;
    }

    method Send(n: nat)
      requires n == held
      modifies this, ch
      ensures State() == Sent(old(State()), Full(old(ch.queue)))
      ensures ch.queue == if Full(old(ch.queue)) then old(ch.queue) else old(ch.queue) + [Packet(id, isRead, n)]
    {
      if Full(ch.queue) {
        dropped := dropped + n;
      }
      held := 0;
      ch.TrySend(Packet(id, isRead, n));
    }

    /** An uninterrupted flush: what was pending is queued as one packet, or dropped when the
        channel is full; nothing is sent when nothing is pending. */
    method Flush(ghost last: bool)
      requires held == 0
      modifies this, ch
      ensures old(pending) == 0 ==> ch.queue == old(ch.queue) && State() == old(State()).(finished := last)
      ensures old(pending) > 0 ==>
                State() == Sent(Swapped(old(State()), last), Full(old(ch.queue)))
                && ch.queue == if Full(old(ch.queue)) then old(ch.queue) else old(ch.queue) + [Packet(id, isRead, old(pending))]
    {
      var n := Swap(last);
      if n == 0 {
        return;
      }
      Send(n);
    }
  }

  /** The bytes of the packets that go one way. */
  function Bytes(queue: seq<Packet>, isRead: bool): nat {
    if queue == [] then 0
    else (if queue[0].isRead == isRead then queue[0].bytes else 0) + Bytes(queue[1..], isRead)
  }

  /** All that was received went one way or the other, and packets count for their own only. */
  lemma {:induction false} BytesTheorem(queue: seq<Packet>, isRead: bool)
    ensures Bytes(queue, isRead) + Bytes(queue, !isRead) == Sum(seq(|queue|, k requires 0 <= k < |queue| => queue[k].bytes))
    ensures (forall p <- queue :: p.isRead != isRead) ==> Bytes(queue, isRead) == 0
  {
    if queue != [] {
      BytesTheorem(queue[1..], isRead);
      var all := seq(|queue|, k requires 0 <= k < |queue| => queue[k].bytes);
      assert seq(|queue[1..]|, k requires 0 <= k < |queue[1..]| => queue[1..][k].bytes) == all[1..];
      SumFirst(all);
    }
  }

  lemma {:induction false} SumFirst(s: seq<nat>)
    requires s != []
    ensures Sum(s) == s[0] + Sum(s[1..])
  {
    var n := |s| - 1;
    if n > 0 {
      SumFirst(s[..n]);
      assert s[..n][1..] == s[1..][..n - 1];
    }
  }

  /** The drain loop, with what its observers have been told so far. */
  class TrafficCounter {
    const ch: Channel
    var read: nat
    var written: nat
    ghost var received: seq<Packet>

    constructor (ch: Channel)
      ensures this.ch == ch && read == written == 0 && received == []
    {
      this.ch := ch;
      read, written, received := 0, 0, [];
    }

    method Receive()
      requires ch.queue != []
      modifies this, ch
      ensures ch.queue == old(ch.queue)[1..] && received == old(received) + [old(ch.queue)[0]]
      ensures read == old(read) + Bytes(old(ch.queue), true) - Bytes(ch.queue, true)
      ensures written == old(written) + Bytes(old(ch.queue), false) - Bytes(ch.queue, false)
    {
      var p := ch.queue[0];
      ch.queue := ch.queue[1..];
      received := received + [p];
      if p.isRead {
        read := read + p.bytes;
      } else {
        written := written + p.bytes;
      }
    }

    /** After Stop everything still queued is received, in order, and every byte once. */
    method DrainAll()
      modifies this, ch
      ensures ch.queue == [] && received == old(received) + old(ch.queue)
      ensures read == old(read) + Bytes(old(ch.queue), true)
      ensures written == old(written) + Bytes(old(ch.queue), false)
    {
      while ch.queue != []
        invariant received + ch.queue == old(received) + old(ch.queue)
        invariant read + Bytes(ch.queue, true) == old(read) + Bytes(old(ch.queue), true)
        invariant written + Bytes(ch.queue, false) == old(written) + Bytes(old(ch.queue), false)
        decreases |ch.queue|
      {
        Receive();
      }
    }
  }
}
