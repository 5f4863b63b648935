/** The stamps are the only words that both threads store to. Their histories in `Spsc` grow at
    the end; here it is proved that no other order is possible, because every store to a stamp
    knows all earlier stores of the other thread to it. */
module SpscStamps {
  import opened Words
  import opened Slots
  import opened Spsc
  import opened SpscSafe
  import opened SpscTheorems

  /** A stamp stored by the consumer: made for a position of this slot, before the tail store
      that released it. */
  ghost predicate RecycleOk(c: Config, s: State, j: nat, st: Stamp)
    requires c.slots >= 1 && s.t.Ok()
  {
    && 0 <= st.position <= s.t.C() && SlotOf(c.slots, st.position) == j && st.at <= s.t.cNow
    && (st.position == s.t.C() ==> s.cons.CTail?)
    && (st.position < s.t.C() ==> st.at <= s.t.tailAt[st.position + 1])
  }

  ghost predicate Recycles(c: Config, s: State)
    requires c.slots >= 1 && s.t.Ok()
  {
    forall j, i :: 0 <= j < |s.stamps| && 0 <= i < |s.stamps[j]| && !s.stamps[j][i].byProducer ==>
      RecycleOk(c, s, j, s.stamps[j][i])
  }

  /** The producer's stores to one stamp, in the order of its clock. */
  ghost predicate Rising(hist: seq<Stamp>) {
    forall i, k :: 0 <= i <= k < |hist| && hist[i].byProducer && hist[k].byProducer ==> hist[i].at <= hist[k].at
  }

  ghost predicate Ordered(c: Config, s: State) {
    && c.slots >= 1 && s.t.Ok()
    && Recycles(c, s) && forall j :: 0 <= j < |s.stamps| ==> Rising(s.stamps[j])
  }

  lemma WriteLinkOrdered(c: Config, s: State)
    requires Inv(c, s) && Ordered(c, s) && Can(c, s, WriteLink) && c.mode.Laps?
    ensures Ordered(c, Do(c, s, WriteLink))
  {
    hide SlotOf, SlotsSafe, Wrap;
    var s' := Do(c, s, WriteLink);
    assert s'.t.Ok();
    assert forall i :: 0 <= i < |s.stamps[s.pSlot]| && s.stamps[s.pSlot][i].byProducer ==>
        s.stamps[s.pSlot][i].at <= s.t.pNow;
    assert Rising(s'.stamps[s.pSlot]);
    forall j, i | 0 <= j < |s'.stamps| && 0 <= i < |s'.stamps[j]| && !s'.stamps[j][i].byProducer
      ensures RecycleOk(c, s', j, s'.stamps[j][i])
    {
      assert RecycleOk(c, s, j, s.stamps[j][i]);
    }
  }

  lemma RecycleOrdered(c: Config, s: State)
    requires Inv(c, s) && Ordered(c, s) && Can(c, s, Recycle)
    ensures Ordered(c, Do(c, s, Recycle))
  {
    hide SlotOf, SlotsSafe, Wrap;
    var s' := Do(c, s, Recycle);
    assert s'.t.Ok();
    assert Rising(s'.stamps[s.cSlot]);
    forall j, i | 0 <= j < |s'.stamps| && 0 <= i < |s'.stamps[j]| && !s'.stamps[j][i].byProducer
      ensures RecycleOk(c, s', j, s'.stamps[j][i])
    {
      if j != s.cSlot || i < |s.stamps[j]| {
        assert s'.stamps[j][i] == s.stamps[j][i];
        assert RecycleOk(c, s, j, s.stamps[j][i]);
      }
    }
  }

  /** The other steps leave the stamps alone and only move the clocks on. */
  lemma OtherStepOrdered(c: Config, s: State, s': State)
    requires Ordered(c, s) && s'.t.Ok() && s'.stamps == s.stamps
    requires s'.t.cNow >= s.t.cNow && s.t.tailAt <= s'.t.tailAt
    requires s'.t.C() == s.t.C() ==> (s.cons.CTail? ==> s'.cons.CTail?)
    requires s'.t.C() != s.t.C() ==> s'.t.C() == s.t.C() + 1 && s'.t.tailAt[s'.t.C()] >= s.t.cNow
    ensures Ordered(c, s')
  {
    forall j, i | 0 <= j < |s'.stamps| && 0 <= i < |s'.stamps[j]| && !s'.stamps[j][i].byProducer
      ensures RecycleOk(c, s', j, s'.stamps[j][i])
    {
      assert RecycleOk(c, s, j, s.stamps[j][i]);
    }
  }

  lemma OtherStep(c: Config, s: State, a: Action)
    requires Inv(c, s) && Can(c, s, a) && !a.Recycle? && !(a.WriteLink? && c.mode.Laps?)
    ensures var s' := Do(c, s, a);
            && s'.stamps == s.stamps && s'.t.cNow >= s.t.cNow && s.t.tailAt <= s'.t.tailAt
            && (s'.t.C() == s.t.C() ==> (s.cons.CTail? ==> s'.cons.CTail?))
            && (s'.t.C() != s.t.C() ==> s'.t.C() == s.t.C() + 1 && s'.t.tailAt[s'.t.C()] >= s.t.cNow)
  {
    hide SlotOf, SlotsSafe, Wrap, Memory, Links, StampsOk, Delivered;
  }

  lemma StepOrdered(c: Config, s: State, a: Action)
    requires Inv(c, s) && Ordered(c, s) && Can(c, s, a)
    ensures Ordered(c, Do(c, s, a))
  {
    if a.Recycle? {
      RecycleOrdered(c, s);
    } else if a.WriteLink? && c.mode.Laps? {
      WriteLinkOrdered(c, s);
    } else {
      OtherStep(c, s, a);
      StepKeeps(c, s, a);
      hide Do, Ordered;
      OtherStepOrdered(c, s, Do(c, s, a));
    }
  }

  lemma InitOrdered(c: Config, s: State)
    requires ConfigOk(c) && Init(c, s)
    ensures Ordered(c, s)
  {
  }

  lemma {:induction false} RunIsOrdered(c: Config, run: seq<State>, i: nat)
    requires ConfigOk(c) && IsRun(c, run) && i < |run|
    ensures Ordered(c, run[i])
  {
    hide Inv, Ordered, Do, Init;
    if i == 0 {
      InitOrdered(c, run[0]);
    } else {
      RunKeeps(c, run, i - 1);
      RunIsOrdered(c, run, i - 1);
      assert Next(c, run[i - 1], run[i]);
      var a :| Can(c, run[i - 1], a) && run[i] == Do(c, run[i - 1], a);
      StepOrdered(c, run[i - 1], a);
    }
  }

  /** In every run, a store to a stamp happens after every earlier store of the other thread to
      the same stamp: the producer's because it has seen the tail that released the slot, the
      consumer's because it has seen the head that published the position. */
  lemma StampStoresAreOrdered(c: Config, run: seq<State>, k: nat)
    requires ConfigOk(c) && IsRun(c, run) && k < |run| && c.mode.Laps?
    ensures var s := run[k];
            s.prod.PLink? && s.pSlot < |s.stamps| ==>
              forall st :: st in s.stamps[s.pSlot] && !st.byProducer ==> st.at <= s.t.pKnows
    ensures var s := run[k];
            s.cons.CRestamp? && s.cSlot < |s.stamps| ==>
              forall st :: st in s.stamps[s.cSlot] && st.byProducer ==> st.at <= s.t.cKnows
  {
    RunKeeps(c, run, k);
    RunIsOrdered(c, run, k);
    var s := run[k];
    if s.prod.PLink? {
      forall st | st in s.stamps[s.pSlot] && !st.byProducer ensures st.at <= s.t.pKnows {
        ReleaseIsKnown(c, s, st);
      }
    }
    if s.cons.CRestamp? {
      PublishIsKnown(c, s);
    }
  }

  lemma ReleaseIsKnown(c: Config, s: State, st: Stamp)
    requires Inv(c, s) && Ordered(c, s) && s.prod.PLink? && st in s.stamps[s.pSlot] && !st.byProducer
    ensures st.at <= s.t.pKnows
  {
    assert RecycleOk(c, s, s.pSlot, st);
    if st.position >= s.tSeen {
      CloseIsDistinct(c.slots, c.limit, st.position, s.t.P());
      assert false;
    }
    assert s.t.tailAt[st.position + 1] <= s.t.tailAt[s.tSeen];
  }

  lemma PublishIsKnown(c: Config, s: State)
    requires Inv(c, s) && Ordered(c, s) && s.cons.CRestamp?
    ensures forall st :: st in s.stamps[s.cSlot] && st.byProducer ==> st.at <= s.t.cKnows
  {
    var hist := s.stamps[s.cSlot];
    assert Stamped(hist, s.t.C(), s.t.headAt[s.t.C() + 1]);
    assert s.t.headAt[s.t.C() + 1] <= s.t.headAt[s.hSeen];
    assert Rising(hist);
    forall i | 0 <= i < |hist| && hist[i].byProducer ensures hist[i].at <= Last(hist).at {
    }
  }

  // What the stamps say

  /** Every store to a stamp says what its position calls for: one past it when published, a whole
      set of slots on when released. The first is the slot's own index. */
  ghost predicate Named(c: Config, hist: seq<Stamp>) {
    forall i :: 0 <= i < |hist| ==>
      hist[i].val == Wrap(hist[i].position + if !hist[i].byProducer then c.slots else if i == 0 then 0 else 1)
  }

  ghost predicate AllNamed(c: Config, s: State) {
    forall j :: 0 <= j < |s.stamps| ==> Named(c, s.stamps[j])
  }

  lemma StepNames(c: Config, s: State, a: Action)
    requires Core(c, s) && AllNamed(c, s) && Can(c, s, a)
    ensures AllNamed(c, Do(c, s, a))
  {
    hide SlotOf, SlotsSafe, Wrap, Add32, Links, SlotIndex;
    if a.Recycle? {
      AddAdvances(s.t.C(), c.slots);
    } else if a.WriteLink? && c.mode.Laps? {
      AddAdvances(s.t.P(), 1);
    }
  }

  lemma InitNamed(c: Config, s: State)
    requires Accepted(c) && Init(c, s)
    ensures AllNamed(c, s)
  {
  }

  /** In every run of every accepted geometry the stamps say so. */
  lemma {:induction false} StampsNamePositions(c: Config, run: seq<State>, k: nat)
    requires Accepted(c) && IsRun(c, run) && k < |run|
    ensures AllNamed(c, run[k])
  {
    hide Do, Core, AllNamed, Init;
    if k == 0 {
      InitNamed(c, run[0]);
    } else {
      RunKeepsCore(c, run, k - 1);
      StampsNamePositions(c, run, k - 1);
      assert Next(c, run[k - 1], run[k]);
      var a :| Can(c, run[k - 1], a) && run[k] == Do(c, run[k - 1], a);
      StepNames(c, run[k - 1], a);
    }
  }

  /** Where the slots divide 2^32, a released slot is stamped with the next position that uses it. */
  lemma ReleasedForNextPosition(c: Config, run: seq<State>, k: nat, j: nat, i: nat)
    requires ConfigOk(c) && IsRun(c, run) && k < |run| && Divides(c.slots)
    requires j < |run[k].stamps| && i < |run[k].stamps[j]| && !run[k].stamps[j][i].byProducer
    ensures var st := run[k].stamps[j][i];
            && 0 <= st.position < run[k].t.P() && SlotOf(c.slots, st.position) == j
            && SlotOf(c.slots, st.position + c.slots) == j && st.val == Wrap(st.position + c.slots)
  {
    RunKeeps(c, run, k);
    RunIsOrdered(c, run, k);
    StampsNamePositions(c, run, k);
    hide Do, Init;
    var s := run[k];
    assert RecycleOk(c, s, j, s.stamps[j][i]);
    assert Named(c, s.stamps[j]);
    NextLapSameSlot(c.slots, s.stamps[j][i].position);
  }
}
