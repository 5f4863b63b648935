/** What the callbacks tell a client that sees nothing else of the ring. */
module Callbacks {
  import opened Words
  import opened Slots
  import opened Fifo
  import opened Calls

  /** The flag of a client that `on_full` sets and `on_low_d` clears. */
  function Stopped(events: seq<Event>): bool {
    if events == [] then false
    else
      match events[|events| - 1]
      case OnFull => true
      case OnLowD => false
      case _ => Stopped(events[..|events| - 1])
  }

  /** The publications announced by `on_slot_added`, in order. */
  function Announced(events: seq<Event>): seq<Event> {
    if events == [] then []
    else
      var last := events[|events| - 1];
      Announced(events[..|events| - 1]) + if last.SlotAdded? then [last] else []
  }

  function Times(events: seq<Event>, e: Event): nat {
    multiset(events)[e]
  }

  /** The announcement of message number k says where it is, how long, and whether cut. */
  ghost predicate Announces(e: Event, q: Queue, k: nat)
    requires q.slots >= 1 && k < |q.log|
  {
    && e.SlotAdded? && e.slot == SlotOf(q.slots, k)
    && e.truncated == q.log[k].truncated && |q.log[k].bytes| == e.len % 0x8000_0000
  }

  ghost predicate AllAnnounced(q: Queue, events: seq<Event>)
    requires q.slots >= 1
  {
    && |Announced(events)| == |q.log|
    && forall k :: 0 <= k < |q.log| ==> Announces(Announced(events)[k], q, k)
  }

  ghost predicate HitsCounted(stats: Stats, events: seq<Event>) {
    && stats.fullHits == Wrap(Times(events, OnFull))
    && stats.lowDHits == Wrap(Times(events, OnLowD))
    && stats.lowEHits == Wrap(Times(events, OnLowE))
  }

  /** How many of the messages are cut short. */
  function Cuts(log: seq<Message>): nat {
    if log == [] then 0 else Cuts(log[..|log| - 1]) + if log[|log| - 1].truncated then 1 else 0
  }

  lemma OneMoreMessage(log: seq<Message>, m: Message)
    ensures Cuts(log + [m]) == Cuts(log) + if m.truncated then 1 else 0
  {
    assert (log + [m])[..|log|] == log;
  }

  /** The events say what the ring's own fields say. */
  ghost predicate Told(q: Queue)
    requires q.slots >= 1
  {
    && q.fullLatch == Stopped(q.events) && HitsCounted(q.stats, q.events) && AllAnnounced(q, q.events)
    && q.stats.truncated == Cuts(q.log) % WORD64
  }

  lemma OneMoreEvent(events: seq<Event>, e: Event)
    ensures Stopped(events + [e]) == (e.OnFull? || (!e.OnLowD? && Stopped(events)))
    ensures Announced(events + [e]) == Announced(events) + if e.SlotAdded? then [e] else []
    ensures forall x :: Times(events + [e], x) == Times(events, x) + if x == e then 1 else 0
  {
    assert (events + [e])[..|events|] == events;
  }

  lemma RaiseFullTells(q: Queue)
    requires q.slots >= 1 && Told(q)
    ensures RaiseFull(q).slots == q.slots && Told(RaiseFull(q))
  {
    hide Stopped, Announced, Times, Cuts, SlotOf, Wrap, Add32;
    OneMoreEvent(q.events, OnFull);
    AddAdvances(Times(q.events, OnFull), 1);
  }

  lemma RaiseLowDTells(q: Queue, left: int)
    requires q.slots >= 1 && Told(q)
    ensures RaiseLowD(q, left).slots == q.slots && Told(RaiseLowD(q, left))
  {
    hide Stopped, Announced, Times, Cuts, SlotOf, Wrap, Add32, Threshold;
    OneMoreEvent(q.events, OnLowD);
    AddAdvances(Times(q.events, OnLowD), 1);
  }

  lemma RaiseLowETells(q: Queue, left: int)
    requires q.slots >= 1 && Told(q)
    ensures RaiseLowE(q, left).slots == q.slots && Told(RaiseLowE(q, left))
  {
    hide Stopped, Announced, Times, Cuts, SlotOf, Wrap, Add32, Threshold;
    OneMoreEvent(q.events, OnLowE);
    AddAdvances(Times(q.events, OnLowE), 1);
  }

  lemma PublishTells(q: Queue, slot: u32, written: u32, truncated: bool)
    requires q.Ok() && Told(q)
    ensures Told(Fifo.Publish(q, slot, written, truncated).0)
  {
    hide Stopped, Announced, Times, Cuts, SlotOf, Wrap, Add32, IsPow2, RaiseFull, Inc64;
    if q.ready && q.pending.Some? && slot == q.WriteSlot() {
      var m := Meant(q, written, truncated);
      var e := SlotAdded(slot, Min(written, q.cap), m.truncated);
      var q1 := q.(log := q.log + [m], pending := None, events := q.events + [e]);
      var q2 := q1.(stats := PublishStats(q1, m.truncated));
      OneMoreEvent(q.events, e);
      OneMoreMessage(q.log, m);
      CountsOn(Cuts(q.log));
      assert Announces(e, q1, |q.log|);
      assert AllAnnounced(q1, q1.events) by {
        forall k | 0 <= k < |q.log| ensures Announces(Announced(q.events)[k], q1, k) {
          assert Announces(Announced(q.events)[k], q, k);
        }
      }
      assert Told(q2);
      RaiseFullTells(q2);
    }
  }

  lemma ReleaseTells(q: Queue, slot: u32)
    requires q.Ok() && Told(q)
    ensures Told(Fifo.Release(q, slot).0)
  {
    hide Stopped, Announced, Times, Cuts, SlotOf, Wrap, Add32, IsPow2, RaiseLowD, RaiseLowE;
    if q.ready && q.holding && slot == q.ReadSlot() {
      var left := q.seen - q.released;
      var q1 := q.(released := q.released + 1, holding := false,
                   stats := q.stats.(consumed := Inc64(q.stats.consumed)));
      RaiseLowDTells(q1, left);
      RaiseLowETells(RaiseLowD(q1, left), left);
    }
  }

  lemma CallTells(q: Queue, data: seq<seq<Byte>>, c: Call)
    requires Fits(q, data) && Told(q)
    ensures var q' := Answer(q, data, c).0; q'.slots == q.slots && Told(q')
  {
    hide Stopped, Announced, Times, Cuts, SlotOf, Wrap, IsPow2, Fifo.Publish, Fifo.Release, Answer;
    MovingCalls(q, c);
    CallEffect(q, data, c);
    if c.Publish? {
      PublishTells(q, c.slot, c.written, c.truncated);
    } else if c.Release? {
      ReleaseTells(q, c.slot);
    }
  }

  lemma {:induction false} RunTells(q: Queue, data: seq<seq<Byte>>, calls: seq<Call>)
    requires Fits(q, data) && Told(q)
    ensures After(q, data, calls).0.slots >= 1 && Told(After(q, data, calls).0)
    decreases |calls|
  {
    hide Told, Answer, SlotOf, IsPow2;
    if calls != [] {
      AnswerFits(q, data, calls[0]);
      CallTells(q, data, calls[0]);
      var a := Answer(q, data, calls[0]);
      RunTells(a.0, a.1, calls[1..]);
    }
  }

  /** On a new ring, after any calls: the client's flag is the ring's full latch; every message
      ever published has been announced once, in order, with its slot, length and flag; and the
      hit counters count the callbacks made and the truncation counter the messages cut short. */
  lemma CallbacksTellTheState(q: Queue, data: seq<seq<Byte>>, calls: seq<Call>)
    requires Fresh(q, data)
    ensures var q' := After(q, data, calls).0;
            && q'.slots >= 1 && q'.fullLatch == Stopped(q'.events)
            && AllAnnounced(q', q'.events) && HitsCounted(q'.stats, q'.events)
            && q'.stats.truncated == Cuts(q'.log) % WORD64
  {
    RunTells(q, data, calls);
  }
}
