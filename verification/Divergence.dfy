/** Where the builds part: in every geometry that is not safe, as soon as the low-water callbacks
    are on. The same calls on two new rings, one of each build, make `on_low_d` fire on one of
    them and not on the other. */
module Divergence {
  import opened Words
  import opened Slots
  import opened Fifo
  import opened Storage
  import opened Rings
  import opened Calls
  import opened Callbacks
  import opened Twins
  import B = Backpressure

  // The calls, on the abstract queue

  /** One empty message is published. */
  ghost function Sent(q: Queue, data: seq<seq<Byte>>): (r: (Queue, seq<seq<Byte>>))
    requires Fits(q, data)
    ensures Fits(r.0, r.1)
  {
    After(q, data, [Acquire(0), Publish(q.WriteSlot(), 0, false)])
  }

  /** One message is consumed and released. */
  ghost function Passed(q: Queue, data: seq<seq<Byte>>): (r: (Queue, seq<seq<Byte>>))
    requires Fits(q, data)
    ensures Fits(r.0, r.1)
  {
    After(q, data, [Consume, Release(q.ReadSlot())])
  }

  ghost function SentAll(q: Queue, data: seq<seq<Byte>>, n: nat): (r: (Queue, seq<seq<Byte>>))
    requires Fits(q, data)
    ensures Fits(r.0, r.1)
  {
    if n == 0 then (q, data) else var r := SentAll(q, data, n - 1); Sent(r.0, r.1)
  }

  ghost function Trip(q: Queue, data: seq<seq<Byte>>): (r: (Queue, seq<seq<Byte>>))
    requires Fits(q, data)
    ensures Fits(r.0, r.1)
  {
    var s := Sent(q, data);
    Passed(s.0, s.1)
  }

  ghost function Trips(q: Queue, data: seq<seq<Byte>>, n: nat): (r: (Queue, seq<seq<Byte>>))
    requires Fits(q, data)
    ensures Fits(r.0, r.1)
  {
    if n == 0 then (q, data) else var r := Trips(q, data, n - 1); Trip(r.0, r.1)
  }

  /** How many messages the default build is to have in view, and how many are to be sent after
      the one that takes the slot at the tail. */
  function InView(mark: nat, apart: nat): (v: nat)
    ensures apart >= 1 ==> v <= apart
  {
    if mark <= apart then mark else 1
  }

  function Extra(mark: nat, apart: nat): nat {
    if mark >= apart + 2 then mark - apart - 1 else 0
  }

  /** Messages are sent and the first is taken, so that the rest is in view. */
  ghost function InSight(q: Queue, data: seq<seq<Byte>>, view: nat): (r: (Queue, seq<seq<Byte>>))
    requires Fits(q, data)
    ensures Fits(r.0, r.1)
  {
    var b := SentAll(q, data, view + 1);
    Passed(b.0, b.1)
  }

  /** After n round trips, a view of `view` messages behind the next one. */
  ghost function Approach(q: Queue, data: seq<seq<Byte>>, n: nat, view: nat): (r: (Queue, seq<seq<Byte>>))
    requires Fits(q, data)
    ensures Fits(r.0, r.1)
  {
    var a := Trips(q, data, n);
    InSight(a.0, a.1, view)
  }

  /** Then enough messages to take the slot at the tail, and some more. */
  ghost function Overrun(q: Queue, data: seq<seq<Byte>>, before: nat, after: nat): (r: (Queue, seq<seq<Byte>>))
    requires Fits(q, data)
    ensures Fits(r.0, r.1)
  {
    var d := SentAll(q, data, before);
    var e := Sent(d.0, d.1);
    SentAll(e.0, e.1, after)
  }

  ghost function Fork(q: Queue, data: seq<seq<Byte>>, n: nat, view: nat, before: nat, after: nat)
    : (r: (Queue, seq<seq<Byte>>))
    requires Fits(q, data)
    ensures Fits(r.0, r.1)
  {
    var a := Approach(q, data, n, view);
    Overrun(a.0, a.1, before, after)
  }

  /** All calls up to the consume at which the builds part. */
  ghost function Prelude(q: Queue, data: seq<seq<Byte>>, mark: nat, apart: nat): (r: (Queue, seq<seq<Byte>>))
    requires Fits(q, data) && apart >= 1
    ensures Fits(r.0, r.1)
  {
    Fork(q, data, WORD - 2, InView(mark, apart), apart - InView(mark, apart), Extra(mark, apart))
  }

  // The calls, on a ring

  /** The counters of a ring between calls, its settings being those of `q0`. */
  ghost predicate Stands(q0: Queue, q: Queue, sent: nat, released: nat, seen: nat) {
    && q.ready && q.pending.None? && !q.holding
    && |q.log| == sent && q.released == released && q.seen == seen
    && q.limit == q0.limit && q.lowD == q0.lowD && q.slots == q0.slots
  }

  method SendOn(r: Ring, ghost q0: Queue, ghost p: nat, ghost t: nat, ghost v: nat) returns (slot: u32)
    requires r.Valid() && Stands(q0, r.q, p, t, v) && p < t + q0.limit
    modifies r, r.hdr, r.entries, r.stamps, r.data
    ensures r.Valid() && Stands(q0, r.q, p + 1, t, v)
    ensures Fits(old(r.q), old(r.data[..])) && (r.q, r.data[..]) == Sent(old(r.q), old(r.data[..]))
    ensures r.slots >= 1 && slot == SlotOf(r.slots, p)
    ensures r.laps ==> slot < r.stamps.Length && r.stamps[..] == old(r.stamps[..])[slot := Wrap(p + 1)]
  {
    RingFits(r);
    ghost var q, data := r.q, r.data[..];
    hide SlotOf, Wrap, IsPow2, SlotsSafe, InSlots, Linked, Ring.Registers;
    B.SendOne(q, data);
    B.TwoCalls(q, data, Acquire(0), Publish(q.WriteSlot(), 0, false));
    var _, s, _ := r.Acquire(0);
    slot := s;
    assert r.q == Answer(q, data, Acquire(0)).0;
    PublishEffect(r.q, slot, 0, false);
    var _ := r.Publish(slot, 0, false);
  }

  method PassOn(r: Ring, ghost q0: Queue, ghost p: nat, ghost t: nat)
    requires r.Valid() && Stands(q0, r.q, p, t, t) && t < p
    modifies r, r.stamps
    ensures r.Valid() && Stands(q0, r.q, p, t + 1, p)
    ensures Fits(old(r.q), old(r.data[..])) && (r.q, r.data[..]) == Passed(old(r.q), old(r.data[..]))
  {
    RingFits(r);
    ghost var q, data := r.q, r.data[..];
    PassedIs(q, data);
    hide SlotOf, Wrap, IsPow2, SlotsSafe, InSlots, Linked, Ring.Registers, Fifo.Release, Fits, Passed, Stands;
    var _, slot, _, _ := r.Consume();
    var _ := r.Release(slot);
    PassedStands(q0, q, data, p, t);
  }

  lemma PassedIs(q: Queue, data: seq<seq<Byte>>)
    requires Fits(q, data) && q.ready && !q.holding && q.Count() > 0 && q.seen == q.released
    ensures Fifo.Consume(q) == (q.(seen := |q.log|, holding := true), Ok)
    ensures Passed(q, data) == (Fifo.Release(q.(seen := |q.log|, holding := true), q.ReadSlot()).0, data)
  {
    hide SlotOf, IsPow2, Fifo.Release;
    B.TwoCalls(q, data, Consume, Release(q.ReadSlot()));
    B.ConsumeTakesOne(q, data);
  }

  lemma PassedStands(q0: Queue, q: Queue, data: seq<seq<Byte>>, p: nat, t: nat)
    requires Fits(q, data) && Stands(q0, q, p, t, t) && t < p
    ensures Stands(q0, Passed(q, data).0, p, t + 1, p)
  {
    hide SlotOf, IsPow2, Fifo.Release, Threshold;
    PassedIs(q, data);
    ReleaseEffect(q.(seen := |q.log|, holding := true), q.ReadSlot());
  }

  /** None of the n positions from `from` on uses the slot `keep`. */
  ghost predicate Spared(slots: nat, keep: nat, from: nat, n: nat) {
    slots >= 1 && forall p: nat :: from <= p < from + n ==> SlotOf(slots, p) != keep
  }

  method SendAllOn(r: Ring, n: nat, ghost q0: Queue, ghost p: nat, ghost t: nat, ghost v: nat, ghost keep: nat)
    requires r.Valid() && Stands(q0, r.q, p, t, v) && p + n <= t + q0.limit
    modifies r, r.hdr, r.entries, r.stamps, r.data
    ensures r.Valid() && Stands(q0, r.q, p + n, t, v)
    ensures Fits(old(r.q), old(r.data[..])) && (r.q, r.data[..]) == SentAll(old(r.q), old(r.data[..]), n)
    ensures r.laps && keep < r.stamps.Length && Spared(r.slots, keep, p, n) ==>
              r.stamps[keep] == old(r.stamps[..])[keep]
  {
    RingFits(r);
    ghost var q, data := r.q, r.data[..];
    hide SlotOf, Wrap, IsPow2, SlotsSafe, InSlots, Linked, Ring.Registers, Ring.Valid, Sent, Fits, Stands;
    for i := 0 to n
      invariant r.Valid() && (r.q, r.data[..]) == SentAll(q, data, i) && Stands(q0, r.q, p + i, t, v)
      invariant r.laps && keep < r.stamps.Length && Spared(r.slots, keep, p, n) ==>
                  r.stamps[keep] == old(r.stamps[..])[keep]
    {
      var _ := SendOn(r, q0, p + i, t, v);
    }
  }

  method TripOn(r: Ring, ghost q0: Queue, ghost n: nat)
    requires r.Valid() && Stands(q0, r.q, n, n, n) && q0.limit >= 1
    modifies r, r.hdr, r.entries, r.stamps, r.data
    ensures r.Valid() && Stands(q0, r.q, n + 1, n + 1, n + 1)
    ensures Fits(old(r.q), old(r.data[..])) && (r.q, r.data[..]) == Trip(old(r.q), old(r.data[..]))
  {
    RingFits(r);
    hide SlotOf, Wrap, IsPow2, SlotsSafe, InSlots, Linked, Ring.Registers, Ring.Valid, Sent, Passed, Fits, Stands;
    var _ := SendOn(r, q0, n, n, n);
    PassOn(r, q0, n + 1, n);
  }

  method TripsOn(r: Ring, n: nat, ghost q0: Queue)
    requires r.Valid() && Stands(q0, r.q, 0, 0, 0) && q0.limit >= 1
    modifies r, r.hdr, r.entries, r.stamps, r.data
    ensures r.Valid() && Stands(q0, r.q, n, n, n)
    ensures Fits(old(r.q), old(r.data[..])) && (r.q, r.data[..]) == Trips(old(r.q), old(r.data[..]), n)
  {
    RingFits(r);
    ghost var q, data := r.q, r.data[..];
    hide SlotOf, Wrap, IsPow2, SlotsSafe, InSlots, Linked, Ring.Registers, Ring.Valid, Trip, Fits, Stands;
    for i := 0 to n
      invariant r.Valid() && (r.q, r.data[..]) == Trips(q, data, i) && Stands(q0, r.q, i, i, i)
    {
      TripOn(r, q0, i);
    }
  }

  // Parting

  /** After the wrap, positions less than the number of slots apart use different slots. */
  lemma NextLapIsDistinct(slots: nat, p: nat, q: nat)
    requires 1 <= slots < WORD && WORD <= p < q < p + slots && q < 2 * WORD
    ensures SlotOf(slots, p) != SlotOf(slots, q)
  {
    if SlotOf(slots, p) == SlotOf(slots, q) {
      var j := SharedSlot(slots, p, q);
      LapStep(p, q);
      ProductInRange(slots, j);
    }
  }

  /** Consuming with messages in view: the view moves only if the stamp is wrong. */
  method TakeNext(r: Ring, slot: u32)
    requires r.Valid() && r.q.ready && !r.q.holding && r.q.released < r.q.seen && slot == r.q.ReadSlot()
    requires r.laps ==> r.StampMissed(slot)
    modifies r
    ensures r.Valid()
    ensures r.q == old(r.q).(seen := if r.laps then |old(r.q).log| else old(r.q).seen, holding := true)
  {
    hide Wrap, IsPow2, SlotsSafe, InSlots, Linked, SlotOf;
    var e, s, _, _ := r.Consume();
  }

  /** The geometry of the calls: what the mark and the distance of the collision allow. */
  lemma Numbers(q: Queue)
    requires q.Ok() && !SlotsSafe(q.slots, q.limit) && q.lowD >= 1
    ensures 1 <= WORD % q.slots < q.limit && 1 <= B.Mark(q) <= q.limit
    ensures SlotOf(q.slots, WORD - 1) == SlotOf(q.slots, WORD - 1 + WORD % q.slots)
    ensures 1 <= InView(B.Mark(q), WORD % q.slots) <= WORD % q.slots
    ensures WORD % q.slots + 1 + Extra(B.Mark(q), WORD % q.slots) <= q.limit
  {
    Collision(q.slots, q.limit);
    BelowLowIsThreshold(0, q.limit, q.lowD);
  }

  /** The queue just before the builds part. */
  ghost predicate AtTheFork(q: Queue, mark: nat, apart: nat) {
    && Stands(q, q, WORD + apart + Extra(mark, apart), WORD - 1, WORD - 1 + InView(mark, apart))
    && B.Mark(q) == mark
  }

  method ApproachOn(r: Ring, n: nat, view: nat, ghost q0: Queue)
    requires r.Valid() && Stands(q0, r.q, 0, 0, 0) && view + 1 <= q0.limit
    modifies r, r.hdr, r.entries, r.stamps, r.data
    ensures r.Valid() && Stands(q0, r.q, n + 1 + view, n + 1, n + 1 + view)
    ensures Fits(old(r.q), old(r.data[..])) && (r.q, r.data[..]) == Approach(old(r.q), old(r.data[..]), n, view)
  {
    RingFits(r);
    hide Wrap, IsPow2, SlotsSafe, InSlots, Linked, SlotOf, Ring.Registers, Ring.Valid, Fits, Stands, Spared;
    hide InSight, Trips;
    TripsOn(r, n, q0);
    SightOn(r, view, q0, n);
  }

  method SightOn(r: Ring, view: nat, ghost q0: Queue, ghost n: nat)
    requires r.Valid() && Stands(q0, r.q, n, n, n) && view + 1 <= q0.limit
    modifies r, r.hdr, r.entries, r.stamps, r.data
    ensures r.Valid() && Stands(q0, r.q, n + 1 + view, n + 1, n + 1 + view)
    ensures Fits(old(r.q), old(r.data[..])) && (r.q, r.data[..]) == InSight(old(r.q), old(r.data[..]), view)
  {
    RingFits(r);
    hide Wrap, IsPow2, SlotsSafe, InSlots, Linked, SlotOf, Ring.Registers, Ring.Valid, Fits, Stands, Spared;
    hide Passed, SentAll;
    SendAllOn(r, view + 1, q0, n, n, n, 0);
    PassOn(r, q0, n + 1 + view, n);
  }

  method OverrunOn(r: Ring, before: nat, after: nat, ghost q0: Queue, ghost p: nat, ghost t: nat, ghost v: nat)
    returns (slot: u32)
    requires r.Valid() && Stands(q0, r.q, p, t, v) && p + before + 1 + after <= t + q0.limit && t <= p
    requires WORD <= p + before && p + before + 1 + after < 2 * WORD
    modifies r, r.hdr, r.entries, r.stamps, r.data
    ensures r.Valid() && Stands(q0, r.q, p + before + 1 + after, t, v)
    ensures Fits(old(r.q), old(r.data[..])) && (r.q, r.data[..]) == Overrun(old(r.q), old(r.data[..]), before, after)
    ensures r.slots >= 1 && slot == SlotOf(r.slots, p + before)
    ensures r.laps ==> slot < r.stamps.Length && r.stamps[slot] == Wrap(p + before + 1)
  {
    RingFits(r);
    assert after < r.slots;
    hide Wrap, IsPow2, SlotsSafe, InSlots, Linked, SlotOf, Ring.Registers, Ring.Valid, Fits, Stands, Spared;
    hide Sent, SentAll;
    SendAllOn(r, before, q0, p, t, v, 0);
    slot := SendOn(r, q0, p + before, t, v);
    LaterSendsSpare(r, slot, p + before, after);
    SendAllOn(r, after, q0, p + before + 1, t, v, slot);
  }

  lemma LaterSendsSpare(r: Ring, slot: u32, n: nat, after: nat)
    requires r.Valid() && WORD <= n && n + 1 + after < 2 * WORD && after < r.slots && slot == SlotOf(r.slots, n)
    ensures Spared(r.slots, slot, n + 1, after)
  {
    hide SlotOf;
    forall p: nat | n + 1 <= p < n + 1 + after ensures SlotOf(r.slots, p) != slot {
      NextLapIsDistinct(r.slots, n, p);
    }
  }

  /** Both stretches: in the end the slot of position n + 1 + view + before has been taken, and
      its stamp with it. */
  method ComeToTheFork(r: Ring, n: nat, view: nat, before: nat, after: nat) returns (slot: u32)
    requires r.Valid() && Stands(r.q, r.q, 0, 0, 0) && view + before + 1 + after <= r.q.limit && 1 <= view
    requires WORD <= n + 1 + view + before && n + 2 + view + before + after < 2 * WORD
    modifies r, r.hdr, r.entries, r.stamps, r.data
    ensures r.Valid() && Stands(old(r.q), r.q, n + 2 + view + before + after, n + 1, n + 1 + view)
    ensures Fits(old(r.q), old(r.data[..]))
    ensures (r.q, r.data[..]) == Fork(old(r.q), old(r.data[..]), n, view, before, after)
    ensures r.slots >= 1 && slot == SlotOf(r.slots, n + 1 + view + before)
    ensures r.laps ==> slot < r.stamps.Length && r.stamps[slot] == Wrap(n + 2 + view + before)
  {
    RingFits(r);
    ghost var q, data, p := r.q, r.data[..], n + 1 + view;
    hide Wrap, IsPow2, SlotsSafe, InSlots, Linked, SlotOf, Ring.Registers, Ring.Valid, Fits, Stands;
    hide Approach, Overrun, Queue.Ok;
    ApproachOn(r, n, view, q);
    ghost var q1, data1 := r.q, r.data[..];
    assert (q1, data1) == Approach(q, data, n, view);
    slot := OverrunOn(r, before, after, q, p, n + 1, p);
  }

  /** The last two calls: the consume at which the view is refreshed or not, and the release. */
  method RunApart(r: Ring, mark: nat, apart: nat)
    requires r.Valid() && Stands(r.q, r.q, 0, 0, 0) && 1 <= mark == B.Mark(r.q)
    requires 1 <= apart && apart + 1 + Extra(mark, apart) <= r.q.limit
    requires r.slots >= 1 && SlotOf(r.slots, WORD - 1) == SlotOf(r.slots, WORD - 1 + apart)
    modifies r, r.hdr, r.entries, r.stamps, r.data
    ensures r.Valid() && Fits(old(r.q), old(r.data[..]))
    ensures var q := Prelude(old(r.q), old(r.data[..]), mark, apart).0;
            && q.Ok() && AtTheFork(q, mark, apart)
            && r.q == Fifo.Release(q.(seen := if r.laps then |q.log| else q.seen, holding := true), q.ReadSlot()).0
  {
    hide Wrap, IsPow2, SlotsSafe, InSlots, Linked, SlotOf, Ring.Registers, Fork, Fits, Fifo.Release, Threshold;
    var view := InView(mark, apart);
    var slot := ComeToTheFork(r, WORD - 2, view, apart - view, Extra(mark, apart));
    RingFits(r);
    if r.laps { Missed(r, slot, WORD + apart); }
    TakeNext(r, slot);
    var _ := r.Release(slot);
  }

  /** A release calls `on_low_d` exactly when the view has come down to the mark. */
  lemma LowDFires(q: Queue)
    requires q.Ok() && q.ready && q.holding
    ensures Times(Fifo.Release(q, q.ReadSlot()).0.events, OnLowD)
            == Times(q.events, OnLowD) + if q.seen - q.released == B.Mark(q) then 1 else 0
  {
    hide SlotOf, IsPow2, Threshold, Times;
    OneMoreEvent(q.events, OnLowD);
    OneMoreEvent(q.events, OnLowE);
    OneMoreEvent(q.events + [OnLowD], OnLowE);
  }

  /** One release from the fork, with the one view and with the other. */
  lemma ForkParts(q: Queue, mark: nat, apart: nat)
    requires q.Ok() && AtTheFork(q, mark, apart) && 1 <= mark && 1 <= apart
    ensures var q0, q1 := q.(holding := true), q.(seen := |q.log|, holding := true);
            Fifo.Release(q0, q.ReadSlot()).0.events != Fifo.Release(q1, q.ReadSlot()).0.events
  {
    var q0, q1 := q.(holding := true), q.(seen := |q.log|, holding := true);
    hide SlotOf, IsPow2, Threshold, Times, Fifo.Release;
    LowDFires(q0);
    LowDFires(q1);
  }

  /** The builds are not bisimilar: in every geometry that is not safe, with the low-water
      callbacks on, the same calls on two new rings, one of each build, are answered by
      different callbacks. */
  method BuildsDiverge(r0: Ring, r1: Ring)
    requires IsNew(r0) && IsNew(r1) && Apart(r0, r1) && !r0.laps && r1.laps
    requires r0.q == r1.q && r0.data[..] == r1.data[..]
    requires !r0.IsSafe() && r0.lowD >= 1
    modifies r0, r0.hdr, r0.entries, r0.stamps, r0.data
    modifies r1, r1.hdr, r1.entries, r1.stamps, r1.data
    ensures r0.Valid() && r1.Valid() && r0.q.events != r1.q.events
  {
    RingFits(r0);
    RingFits(r1);
    ghost var q, data := r0.q, r0.data[..];
    Numbers(q);
    var mark, apart := Threshold(r0.limit, r0.lowD), WORD % r0.slots;
    hide Wrap, IsPow2, SlotsSafe, InSlots, Linked, SlotOf, Ring.Registers, Prelude, Fits, Fifo.Release, Threshold;
    RunApart(r0, mark, apart);
    assert r1.q == q && r1.data[..] == data;
    RunApart(r1, mark, apart);
    ForkParts(Prelude(q, data, mark, apart).0, mark, apart);
  }
}
