/** The protocol in a safe geometry: on top of the counters, the contents of slots, headers and
    stamps, the absence of races, and the delivery of messages. */
module SpscSafe {
  import opened Words
  import opened Slots
  import opened Lanes
  import opened Spsc
  import opened SpscCore

  ghost predicate Memory(c: Config, s: State)
    requires Accepted(c)
  {
    LaneOk(c.slots, s.body, s.t) && LaneOk(c.slots, s.hdr, s.t)
  }

  /** The newest stamp of a slot says that position `p` is published there. */
  ghost predicate Stamped(hist: seq<Stamp>, p: nat, time: nat) {
    hist != [] && Last(hist).byProducer && Last(hist).val == Wrap(p + 1) && Last(hist).at <= time
  }

  /** In the Laps build every live position is stamped, from the moment before its head
      store until its slot is recycled. */
  ghost predicate StampsOk(c: Config, s: State)
    requires Accepted(c)
  {
    && s.t.Ok() && |s.stamps| == c.slots
    && (c.mode.Laps? ==>
        && (forall p: nat :: s.t.C() <= p < s.t.P() && (s.cons.CTail? ==> p != s.t.C()) ==>
              Stamped(s.stamps[SlotOf(c.slots, p)], p, s.t.headAt[p + 1]))
        && (s.prod.PHead? ==> Stamped(s.stamps[SlotOf(c.slots, s.t.P())], s.t.P(), s.t.pNow)))
  }

  /** What the consumer holds is the message published at the tail; what it released is the
      published prefix. */
  ghost predicate Delivered(c: Config, s: State) {
    && |s.body.log| == |s.hdr.log| && |s.got| == s.t.C() <= |s.body.log|
    && (s.cons.CHeld? || s.cons.CRestamp? || s.cons.CTail? ==>
          s.t.C() < |s.hdr.log| && s.cHdr == s.hdr.log[s.t.C()])
    && (forall p :: 0 <= p < |s.got| ==> s.got[p] == Sent(s.body.log[p], s.hdr.log[p]))
  }

  ghost predicate Safe(c: Config, s: State)
    requires Accepted(c)
  {
    Memory(c, s) && StampsOk(c, s) && Delivered(c, s) && !s.fault && !s.strayed && !s.cons.CMiss?
  }

  ghost predicate Inv(c: Config, s: State) {
    ConfigOk(c) && Core(c, s) && Safe(c, s)
  }

  lemma InitKeeps(c: Config, s: State)
    requires ConfigOk(c) && Init(c, s)
    ensures Inv(c, s)
  {
  }

  // Each step keeps the invariant

  /** Steps that move only registers and knowledge. */
  lemma ProducerLoadSafe(c: Config, s: State, a: Action)
    requires Inv(c, s) && Can(c, s, a) && Core(c, Do(c, s, a)) && (a.AcquireTail? || a.ReloadTail?)
    ensures Safe(c, Do(c, s, a))
  {
    hide SlotOf, SlotsSafe, Wrap, SlotIndex, SlotsMask, Sub32, LaneOk, Links, Shapes;
    var s' := Do(c, s, a);
    TimePasses(c.slots, s.body, s.t, s'.t);
    TimePasses(c.slots, s.hdr, s.t, s'.t);
  }

  lemma ProducerRegisterSafe(c: Config, s: State, a: Action)
    requires Inv(c, s) && Can(c, s, a) && (a.Acquire? || a.Abort? || a.Publish?)
    ensures Safe(c, Do(c, s, a))
  {
    hide SlotOf, SlotsSafe, Wrap, SlotIndex, SlotsMask, Sub32, LaneOk, Links, Shapes;
  }

  lemma ConsumerRegisterSafe(c: Config, s: State, a: Action)
    requires Inv(c, s) && Can(c, s, a) && Core(c, Do(c, s, a)) && (a.Consume? || a.LoadHead? || a.Release?)
    ensures Safe(c, Do(c, s, a))
  {
    hide SlotOf, SlotsSafe, Wrap, SlotIndex, SlotsMask, Sub32, LaneOk, Links, Shapes;
    var s' := Do(c, s, a);
    TimePasses(c.slots, s.body, s.t, s'.t);
    TimePasses(c.slots, s.hdr, s.t, s'.t);
  }

  lemma WritePayloadSafe(c: Config, s: State, bytes: seq<Byte>)
    requires Inv(c, s) && Can(c, s, WritePayload(bytes))
    ensures Safe(c, DoWritePayload(s, bytes))
  {
    WriteKeeps(c.slots, c.limit, s.body, s.t, s.tSeen, bytes);
    TimePasses(c.slots, s.hdr, s.t, s.t.ProducerTick());
  }

  lemma WriteHeaderSafe(c: Config, s: State)
    requires Inv(c, s) && Can(c, s, WriteHeader)
    ensures Safe(c, DoWriteHeader(s))
  {
    WriteKeeps(c.slots, c.limit, s.hdr, s.t, s.tSeen, s.prod.h);
    TimePasses(c.slots, s.body, s.t, s.t.ProducerTick());
  }

  lemma WriteEntrySafe(c: Config, s: State, e: nat)
    requires Inv(c, s) && Can(c, s, WriteLink) && c.mode.Entries? && e == SlotOf(c.capacity, s.t.P())
    ensures Safe(c, DoWriteEntry(s, e))
  {
    WriteEntryCore(c, s, e);
    TimePasses(c.slots, s.body, s.t, s.t.ProducerTick());
    TimePasses(c.slots, s.hdr, s.t, s.t.ProducerTick());
  }

  lemma WriteStampSafe(c: Config, s: State)
    requires Inv(c, s) && Can(c, s, WriteLink) && c.mode.Laps?
    ensures Safe(c, DoWriteStamp(s))
  {
    TimePasses(c.slots, s.body, s.t, s.t.ProducerTick());
    TimePasses(c.slots, s.hdr, s.t, s.t.ProducerTick());
    WriteStampStamps(c, s);
  }

  lemma WriteStampStamps(c: Config, s: State)
    requires Inv(c, s) && Can(c, s, WriteLink) && c.mode.Laps?
    ensures StampsOk(c, DoWriteStamp(s))
  {
    AddAdvances(s.t.P(), 1);
    var s' := DoWriteStamp(s);
    forall p: nat | s.t.C() <= p < s.t.P() && (s.cons.CTail? ==> p != s.t.C())
      ensures Stamped(s'.stamps[SlotOf(c.slots, p)], p, s'.t.headAt[p + 1])
    {
      assert Stamped(s.stamps[SlotOf(c.slots, p)], p, s.t.headAt[p + 1]);
      CloseIsDistinct(c.slots, c.limit, p, s.t.P());
    }
  }

  lemma StoreHeadSafe(c: Config, s: State)
    requires Inv(c, s) && Can(c, s, StoreHead)
    ensures Safe(c, DoStoreHead(c, s))
  {
    hide SlotOf, SlotsSafe, Wrap;
    var s' := DoStoreHead(c, s);
    StoreHeadOk(s.t);
    PublishKeeps(c.slots, s.body, s.t);
    PublishKeeps(c.slots, s.hdr, s.t);
    assert Delivered(c, s');
    StoreHeadStamps(c, s);
  }

  lemma StoreHeadStamps(c: Config, s: State)
    requires Inv(c, s) && Can(c, s, StoreHead)
    ensures StampsOk(c, DoStoreHead(c, s))
  {
    var s' := DoStoreHead(c, s);
    StoreHeadOk(s.t);
    if c.mode.Laps? {
      forall p: nat | s'.t.C() <= p < s'.t.P() && (s'.cons.CTail? ==> p != s'.t.C())
        ensures Stamped(s'.stamps[SlotOf(c.slots, p)], p, s'.t.headAt[p + 1])
      {
        if p < s.t.P() {
          assert Stamped(s.stamps[SlotOf(c.slots, p)], p, s.t.headAt[p + 1]);
        }
      }
    }
  }

  /** The stamp load cannot be stale: the store it must see is already known. */
  lemma StampIsCurrent(c: Config, s: State, i: nat)
    requires Inv(c, s) && c.mode.Laps? && Can(c, s, ReadLink(i))
    ensures SlotReg(c, TailReg(s)) == SlotOf(c.slots, s.t.C())
    ensures var hist := s.stamps[SlotOf(c.slots, s.t.C())];
            hist != [] && i == |hist| - 1 && hist[i].byProducer && hist[i].val == Add32(TailReg(s), 1)
  {
    SlotIndexIsSlotOf(c.slots, s.t.C());
    AddAdvances(s.t.C(), 1);
    var hist := s.stamps[SlotOf(c.slots, s.t.C())];
    assert Stamped(hist, s.t.C(), s.t.headAt[s.t.C() + 1]);
    assert s.t.headAt[s.t.C() + 1] <= s.t.headAt[s.hSeen];
  }

  lemma ReadStampSafe(c: Config, s: State, i: nat)
    requires Inv(c, s) && Can(c, s, ReadLink(i)) && c.mode.Laps?
    ensures Safe(c, DoReadStamp(c, s, i))
  {
    var s' := DoReadStamp(c, s, i);
    StampIsCurrent(c, s, i);
    assert s'.t.Ok();
    TimePasses(c.slots, s.body, s.t, s'.t);
    TimePasses(c.slots, s.hdr, s.t, s'.t);
  }

  lemma ReadEntrySafe(c: Config, s: State, e: nat)
    requires Inv(c, s) && s.cons.CLink? && c.mode.Entries? && e == SlotOf(c.capacity, s.t.C())
    ensures Safe(c, DoReadEntry(c, s, e))
  {
    ReadEntryCore(c, s, e);
    TimePasses(c.slots, s.body, s.t, s.t.ConsumerTick());
    TimePasses(c.slots, s.hdr, s.t, s.t.ConsumerTick());
  }

  lemma ReadHeaderSafe(c: Config, s: State)
    requires Inv(c, s) && Can(c, s, ReadHeader)
    ensures Safe(c, DoReadHeader(s))
  {
    ReadKeeps(c.slots, s.hdr, s.t, s.hSeen);
    TimePasses(c.slots, s.body, s.t, s.t.ConsumerTick());
  }

  lemma ReadPayloadSafe(c: Config, s: State)
    requires Inv(c, s) && Can(c, s, ReadPayload)
    ensures Safe(c, DoReadPayload(s))
  {
    ReadKeeps(c.slots, s.body, s.t, s.hSeen);
    TimePasses(c.slots, s.hdr, s.t, s.t.ConsumerTick());
  }

  lemma RecycleSafe(c: Config, s: State)
    requires Inv(c, s) && Can(c, s, Recycle)
    ensures Safe(c, DoRecycle(c, s))
  {
    TimePasses(c.slots, s.body, s.t, s.t.ConsumerTick());
    TimePasses(c.slots, s.hdr, s.t, s.t.ConsumerTick());
    if c.mode.Laps? {
      forall p: nat | s.t.C() < p <= s.t.P() && (p == s.t.P() ==> s.prod.PHead?)
        ensures SlotOf(c.slots, p) != s.cSlot
      {
        CloseIsDistinct(c.slots, c.limit, s.t.C(), p);
      }
    }
  }

  lemma StoreTailSafe(c: Config, s: State)
    requires Inv(c, s) && Can(c, s, StoreTail)
    ensures Safe(c, DoStoreTail(s))
  {
    StoreTailOk(s.t);
    ReleaseKeeps(c.slots, s.body, s.t);
    ReleaseKeeps(c.slots, s.hdr, s.t);
    assert Live(c.slots, s.body, s.t, s.t.C());
  }

  lemma LinkStepSafe(c: Config, s: State, a: Action)
    requires Inv(c, s) && Can(c, s, a) && (a.WriteLink? || a.ReadLink?)
    ensures Safe(c, Do(c, s, a))
  {
    TailIsPosition(c, s);
    EntryIsSlot(c, s, s.t.P());
    EntryIsSlot(c, s, s.t.C());
    if a.WriteLink? {
      if c.mode.Laps? { WriteStampSafe(c, s); } else { WriteEntrySafe(c, s, EntryReg(c, HeadReg(s))); }
    } else {
      if c.mode.Laps? { ReadStampSafe(c, s, a.i); } else { ReadEntrySafe(c, s, EntryReg(c, TailReg(s))); }
    }
  }

  /** Every step of either thread keeps the invariant. */
  lemma StepKeeps(c: Config, s: State, a: Action)
    requires Inv(c, s) && Can(c, s, a)
    ensures Inv(c, Do(c, s, a))
  {
    hide Core, SlotsSafe;
    CoreStepKeeps(c, s, a);
    match a
    case WritePayload(bytes) => WritePayloadSafe(c, s, bytes);
    case WriteHeader => WriteHeaderSafe(c, s);
    case WriteLink => LinkStepSafe(c, s, a);
    case StoreHead => StoreHeadSafe(c, s);
    case ReadLink(_) => LinkStepSafe(c, s, a);
    case ReadHeader => ReadHeaderSafe(c, s);
    case ReadPayload => ReadPayloadSafe(c, s);
    case Recycle => RecycleSafe(c, s);
    case StoreTail => StoreTailSafe(c, s);
    case Consume => ConsumerRegisterSafe(c, s, a);
    case LoadHead(_) => ConsumerRegisterSafe(c, s, a);
    case Release => ConsumerRegisterSafe(c, s, a);
    case AcquireTail(_, _) => ProducerLoadSafe(c, s, a);
    case ReloadTail(_) => ProducerLoadSafe(c, s, a);
    case _ => ProducerRegisterSafe(c, s, a);
  }
}
