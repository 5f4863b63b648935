/** The latched backpressure signals over runs of whole API calls.

    A producer that stops at `on_full` and resumes at `on_low_d` is stopped exactly while the
    full latch is set. The latch is cleared on the consumer's view of the queue, which may
    lag behind, so the guarantee needs room for two thresholds under the limit. */
module Backpressure {
  import opened Words
  import opened Slots
  import opened Fifo
  import opened Calls
  import opened Callbacks

  function Mark(q: Queue): nat {
    Threshold(q.limit, q.lowD)
  }

  /** The exact condition: `low_d` is enabled, and two thresholds fit under the limit plus
      one. */
  predicate RoomForTwo(limit: nat, mark: nat) {
    1 <= mark && 2 * mark <= limit + 1
  }

  /** While the latch is set, the messages in the consumer's view or those behind it number
      at least the threshold. */
  ghost predicate CanResume(q: Queue) {
    q.fullLatch ==> q.seen - q.released >= Mark(q) || |q.log| - q.seen >= Mark(q)
  }

  lemma CallKeepsResumable(q: Queue, data: seq<seq<Byte>>, c: Call)
    requires Fits(q, data) && RoomForTwo(q.limit, Mark(q)) && CanResume(q)
    requires c.SetLimit? ==> RoomForTwo(c.limit, Threshold(c.limit, q.lowD))
    ensures var q' := Answer(q, data, c).0;
            q'.lowD == q.lowD && RoomForTwo(q'.limit, Mark(q')) && CanResume(q')
  {
    hide SlotOf, IsPow2, Threshold, Visible, Meant, Fifo.Publish, Fifo.Release, Answer;
    MovingCalls(q, c);
    CallEffect(q, data, c);
  }

  ghost predicate KeepsRoom(lowD: nat, calls: seq<Call>) {
    forall c :: c in calls && c.SetLimit? ==> RoomForTwo(c.limit, Threshold(c.limit, lowD))
  }

  lemma {:induction false} RunKeepsResumable(q: Queue, data: seq<seq<Byte>>, calls: seq<Call>)
    requires Fits(q, data) && RoomForTwo(q.limit, Mark(q)) && CanResume(q) && KeepsRoom(q.lowD, calls)
    ensures var q' := After(q, data, calls).0;
            RoomForTwo(q'.limit, Mark(q')) && CanResume(q')
    decreases |calls|
  {
    hide Answer, Threshold;
    if calls != [] {
      AnswerFits(q, data, calls[0]);
      CallKeepsResumable(q, data, calls[0]);
      var a := Answer(q, data, calls[0]);
      RunKeepsResumable(a.0, a.1, calls[1..]);
    }
  }

  // The other direction: a run that gets stuck

  function Sends(slots: nat, n: nat, from: nat): seq<Call>
    requires 1 <= slots < WORD
  {
    if n == 0 then []
    else [Acquire(0), Publish(SlotOf(slots, from), 0, false)] + Sends(slots, n - 1, from + 1)
  }

  function Receives(slots: nat, n: nat, from: nat): seq<Call>
    requires 1 <= slots < WORD
  {
    if n == 0 then []
    else [Consume, Release(SlotOf(slots, from))] + Receives(slots, n - 1, from + 1)
  }

  /** The parts of a queue that the run below moves. */
  ghost predicate At(q: Queue, q0: Queue, sent: nat, released: nat, seen: nat, holding: bool, latch: bool) {
    && q.ready && q.pending.None?
    && q.slots == q0.slots && q.limit == q0.limit && q.lowD == q0.lowD
    && |q.log| == sent && q.released == released && q.seen == seen && q.holding == holding && q.fullLatch == latch
  }

  lemma TwoCalls(q: Queue, data: seq<seq<Byte>>, a: Call, b: Call)
    requires Fits(q, data)
    ensures Fits(Answer(q, data, a).0, Answer(q, data, a).1)
    ensures After(q, data, [a, b]) ==
            (Answer(Answer(q, data, a).0, Answer(q, data, a).1, b).0,
             Answer(Answer(q, data, a).0, Answer(q, data, a).1, b).1)
  {
    AnswerFits(q, data, a);
    hide Answer;
    var x := Answer(q, data, a);
    AnswerFits(x.0, x.1, b);
    assert [a, b][1..] == [b];
    assert [b][1..] == [];
    assert After(x.0, x.1, [b]) == (Answer(x.0, x.1, b).0, Answer(x.0, x.1, b).1);
  }

  lemma SendOne(q: Queue, data: seq<seq<Byte>>)
    requires Fits(q, data) && q.ready && q.pending.None? && q.Count() < q.limit
    ensures var q' := After(q, data, [Acquire(0), Publish(q.WriteSlot(), 0, false)]).0;
            At(q', q, |q.log| + 1, q.released, q.seen, q.holding, q.fullLatch || q.Count() + 1 == q.limit)
  {
    var slot := q.WriteSlot();
    hide SlotOf, IsPow2, Threshold, Visible, Meant, Fifo.Publish, Fifo.Release, After;
    TwoCalls(q, data, Acquire(0), Publish(slot, 0, false));
    var q1 := Answer(q, data, Acquire(0)).0;
    assert q1.WriteSlot() == slot;
    MovingCalls(q1, Publish(slot, 0, false));
  }

  lemma {:induction false} SendMany(q: Queue, data: seq<seq<Byte>>, n: nat)
    requires Fits(q, data) && q.ready && q.pending.None? && q.Count() + n <= q.limit && n >= 1
    ensures var q' := After(q, data, Sends(q.slots, n, |q.log|)).0;
            At(q', q, |q.log| + n, q.released, q.seen, q.holding, q.fullLatch || q.Count() + n == q.limit)
    decreases n
  {
    SendOne(q, data);
    hide Answer, SlotOf, IsPow2;
    var one := [Acquire(0), Publish(q.WriteSlot(), 0, false)];
    var (q1, data1) := After(q, data, one);
    var rest := Sends(q.slots, n - 1, |q.log| + 1);
    AfterBoth(q, data, one, rest);
    assert Sends(q.slots, n, |q.log|) == one + rest;
    if n == 1 {
      assert rest == [];
    } else {
      SendMany(q1, data1, n - 1);
    }
  }

  /** The consumer's view, and what is behind it, are both too short to cross the mark. */
  ghost predicate TooShort(q: Queue) {
    Mark(q) == 0 || (q.seen - q.released < Mark(q) && |q.log| - q.seen < Mark(q))
  }

  lemma ConsumeTakesOne(q: Queue, data: seq<seq<Byte>>)
    requires Fits(q, data) && q.ready && !q.holding && q.Count() > 0
    ensures Answer(q, data, Consume).0 == q.(seen := if q.seen == q.released then |q.log| else q.seen, holding := true)
    ensures Answer(q, data, Consume).1 == data
  {
  }

  lemma ReleaseGivesBack(q: Queue, data: seq<seq<Byte>>)
    requires Fits(q, data) && q.ready && q.holding
    ensures var q' := Answer(q, data, Release(q.ReadSlot())).0;
            q' == q.(released := q.released + 1, holding := false,
                     fullLatch := q.fullLatch && q.seen - q.released != Mark(q),
                     lowDLatch := q'.lowDLatch, lowELatch := q'.lowELatch, stats := q'.stats, events := q'.events)
  {
    hide SlotOf, IsPow2, Threshold, Fifo.Release;
    MovingCalls(q, Release(q.ReadSlot()));
  }

  lemma ReceiveOne(q: Queue, data: seq<seq<Byte>>)
    requires Fits(q, data) && q.ready && q.pending.None? && !q.holding && q.Count() > 0 && TooShort(q)
    ensures var q' := After(q, data, [Consume, Release(q.ReadSlot())]).0;
            && At(q', q, |q.log|, q.released + 1, q'.seen, false, q.fullLatch)
            && TooShort(q')
  {
    hide SlotOf, IsPow2, Threshold, Answer, After;
    TwoCalls(q, data, Consume, Release(q.ReadSlot()));
    ConsumeTakesOne(q, data);
    ReleaseGivesBack(Answer(q, data, Consume).0, data);
  }

  lemma {:induction false} ReceiveMany(q: Queue, data: seq<seq<Byte>>, n: nat)
    requires Fits(q, data) && q.ready && q.pending.None? && !q.holding && q.Count() >= n && TooShort(q)
    ensures var q' := After(q, data, Receives(q.slots, n, q.released)).0;
            At(q', q, |q.log|, q.released + n, q'.seen, false, q.fullLatch)
    decreases n
  {
    if n > 0 {
      ReceiveOne(q, data);
      hide Answer, SlotOf, IsPow2, Threshold;
      var one := [Consume, Release(q.ReadSlot())];
      var (q1, data1) := After(q, data, one);
      var rest := Receives(q.slots, n - 1, q.released + 1);
      AfterBoth(q, data, one, rest);
      assert Receives(q.slots, n, q.released) == one + rest;
      ReceiveMany(q1, data1, n - 1);
    }
  }

  ghost predicate NoLimitChange(calls: seq<Call>) {
    forall c :: c in calls ==> !c.SetLimit?
  }

  lemma {:induction false} TrafficKeepsLimit(slots: nat, n: nat, from: nat)
    requires 1 <= slots < WORD
    ensures NoLimitChange(Sends(slots, n, from)) && NoLimitChange(Receives(slots, n, from))
    decreases n
  {
    if n > 0 { TrafficKeepsLimit(slots, n - 1, from + 1); }
  }

  lemma OneCall(q: Queue, data: seq<seq<Byte>>, c: Call)
    requires Fits(q, data)
    ensures After(q, data, [c]).0 == Answer(q, data, c).0
  {
    AnswerFits(q, data, c);
    hide Answer;
    assert [c][1..] == [];
  }

  /** The first message is taken into view and held while the rest of the ring fills. */
  lemma FillBehindTheView(q: Queue, data: seq<seq<Byte>>) returns (calls: seq<Call>)
    requires Fresh(q, data) && 2 <= Mark(q) <= q.limit
    ensures NoLimitChange(calls)
    ensures At(After(q, data, calls).0, q, q.limit, 0, Mark(q) - 1, true, true)
  {
    hide SlotOf, IsPow2, Threshold, RaiseFull, RaiseLowD, RaiseLowE, PublishStats, After;
    var first, second := Sends(q.slots, Mark(q) - 1, 0), Sends(q.slots, q.limit - Mark(q) + 1, Mark(q) - 1);
    calls := first + [Consume] + second;
    TrafficKeepsLimit(q.slots, Mark(q) - 1, 0);
    TrafficKeepsLimit(q.slots, q.limit - Mark(q) + 1, Mark(q) - 1);
    SendMany(q, data, Mark(q) - 1);
    var (q1, data1) := After(q, data, first);
    OneCall(q1, data1, Consume);
    AfterBoth(q, data, first, [Consume]);
    var (q2, data2) := After(q1, data1, [Consume]);
    assert At(q2, q, Mark(q) - 1, 0, Mark(q) - 1, true, false);
    SendMany(q2, data2, q.limit - Mark(q) + 1);
    AfterBoth(q, data, first + [Consume], second);
  }

  /** From there the ring drains without ever crossing the mark. */
  lemma DrainBelowTheMark(q: Queue, data: seq<seq<Byte>>) returns (calls: seq<Call>)
    requires Fits(q, data) && q.ready && q.pending.None? && q.holding && q.fullLatch && TooShort(q)
    ensures NoLimitChange(calls)
    ensures var q' := After(q, data, calls).0;
            At(q', q, |q.log|, |q.log|, q'.seen, false, true)
  {
    var slot := q.ReadSlot();
    hide SlotOf, IsPow2, Threshold, RaiseFull, RaiseLowD, RaiseLowE, PublishStats, After;
    ReleaseEffect(q, slot);
    OneCall(q, data, Release(slot));
    var (q1, data1) := After(q, data, [Release(slot)]);
    var rest := Receives(q1.slots, q1.Count(), q1.released);
    TrafficKeepsLimit(q1.slots, q1.Count(), q1.released);
    ReceiveMany(q1, data1, q1.Count());
    AfterBoth(q, data, [Release(slot)], rest);
    calls := [Release(slot)] + rest;
  }

  /** Without room for two thresholds a new ring can be brought to a state in which the
      producer is stopped and nothing is left to consume. */
  lemma GetsStuck(q: Queue, data: seq<seq<Byte>>) returns (calls: seq<Call>)
    requires Fresh(q, data) && !RoomForTwo(q.limit, Mark(q))
    ensures NoLimitChange(calls)
    ensures var q' := After(q, data, calls).0;
            q'.fullLatch && q'.Count() == 0 && q'.pending.None? && !q'.holding
  {
    BelowLowIsThreshold(0, q.limit, q.lowD);
    hide SlotOf, IsPow2, Threshold, Answer, After;
    if Mark(q) == 0 {
      var first, second := Sends(q.slots, q.limit, 0), Receives(q.slots, q.limit, 0);
      TrafficKeepsLimit(q.slots, q.limit, 0);
      SendMany(q, data, q.limit);
      var (q1, data1) := After(q, data, first);
      ReceiveMany(q1, data1, q.limit);
      AfterBoth(q, data, first, second);
      calls := first + second;
    } else {
      var first := FillBehindTheView(q, data);
      var (q1, data1) := After(q, data, first);
      var second := DrainBelowTheMark(q1, data1);
      AfterBoth(q, data, first, second);
      calls := first + second;
    }
  }

  /** No-stall backpressure, exactly. On a new ring with fixed limit and `low_d`, these say
      the same: two thresholds fit under the limit plus one; and in every run, whenever the
      producer is stopped there are at least a threshold's worth of messages (and at least
      one) to consume, so that `on_low_d` fires before the true count drops below it. */
  lemma NoStallExactly(q: Queue, data: seq<seq<Byte>>)
    requires Fresh(q, data)
    ensures RoomForTwo(q.limit, Mark(q)) <==>
            forall calls :: NoLimitChange(calls) ==>
              var q' := After(q, data, calls).0;
              q'.fullLatch ==> q'.Count() >= Mark(q) && q'.Count() >= 1
  {
    if RoomForTwo(q.limit, Mark(q)) {
      forall calls | NoLimitChange(calls)
        ensures var q' := After(q, data, calls).0;
                q'.fullLatch ==> q'.Count() >= Mark(q) && q'.Count() >= 1
      {
        RunKeepsResumable(q, data, calls);
        SettingsStay(q, data, calls);
      }
    } else {
      var calls := GetsStuck(q, data);
    }
  }

  /** The same for the client, which knows only the callbacks: a producer that stops at
      `on_full` and resumes at `on_low_d` never faces an empty ring, or one already below the
      threshold, if and only if there is room for two thresholds. */
  lemma ClientNeverStallsExactly(q: Queue, data: seq<seq<Byte>>)
    requires Fresh(q, data)
    ensures RoomForTwo(q.limit, Mark(q)) <==>
            forall calls :: NoLimitChange(calls) ==>
              var q' := After(q, data, calls).0;
              Stopped(q'.events) ==> q'.Count() >= Mark(q) && q'.Count() >= 1
  {
    hide SlotOf, IsPow2, Threshold, Answer, After, Stopped, AllAnnounced, HitsCounted;
    NoStallExactly(q, data);
    forall calls ensures After(q, data, calls).0.fullLatch == Stopped(After(q, data, calls).0.events) {
      CallbacksTellTheState(q, data, calls);
    }
  }

  lemma {:induction false} SettingsStay(q: Queue, data: seq<seq<Byte>>, calls: seq<Call>)
    requires Fits(q, data) && NoLimitChange(calls)
    ensures After(q, data, calls).0.limit == q.limit && After(q, data, calls).0.lowD == q.lowD
    decreases |calls|
  {
    if calls != [] {
      AnswerFits(q, data, calls[0]);
      var a := Answer(q, data, calls[0]);
      SettingStays(q, data, calls[0]);
      hide Answer;
      SettingsStay(a.0, a.1, calls[1..]);
    }
  }

  lemma SettingStays(q: Queue, data: seq<seq<Byte>>, c: Call)
    requires Fits(q, data) && !c.SetLimit?
    ensures Answer(q, data, c).0.limit == q.limit && Answer(q, data, c).0.lowD == q.lowD
  {
    hide SlotOf, IsPow2, Threshold, Visible, Meant, Fifo.Publish, Fifo.Release, Answer;
    MovingCalls(q, c);
    CallEffect(q, data, c);
  }

  /** Stuck is stuck: once the ring is empty with the latch set, nothing the consumer calls
      clears it, however long it goes on. */
  lemma {:induction false} StaysStuck(q: Queue, data: seq<seq<Byte>>, calls: seq<Call>)
    requires Fits(q, data) && q.fullLatch && q.Count() == 0 && !q.holding
    requires forall c :: c in calls ==> c.Consume? || c.Release? || c.Count?
    ensures var q' := After(q, data, calls).0;
            q'.fullLatch && q'.Count() == 0 && !q'.holding
    decreases |calls|
  {
    if calls != [] {
      AnswerFits(q, data, calls[0]);
      var a := Answer(q, data, calls[0]);
      StuckCall(q, data, calls[0]);
      hide Answer;
      StaysStuck(a.0, a.1, calls[1..]);
    }
  }

  lemma StuckCall(q: Queue, data: seq<seq<Byte>>, c: Call)
    requires Fits(q, data) && q.fullLatch && q.Count() == 0 && !q.holding && (c.Consume? || c.Release? || c.Count?)
    ensures var q' := Answer(q, data, c).0;
            q'.fullLatch && q'.Count() == 0 && !q'.holding
  {
    hide SlotOf, IsPow2, Threshold, RaiseLowD, RaiseLowE;
  }
}
