/** What the protocol keeps in every configuration that `rb_init` accepts, whatever the number of
    slots: the counters, the entries and the slot indices. Only the contents of slots and stamps
    need a safe geometry. */
module SpscCore {
  import opened Words
  import opened Slots
  import opened Lanes
  import opened Spsc

  lemma EntriesAreSafe(c: Config)
    requires Accepted(c)
    ensures SlotsSafe(c.capacity, c.limit)
  {
    Pow2SlotsAreSafe(c.capacity, c.limit);
  }

  lemma CountIsDistance(c: Config, s: State)
    requires Accepted(c) && Positions(c, s)
    ensures Sub32(HeadReg(s), s.cachedTail) == s.t.P() - s.tSeen
    ensures TailReg(s) == s.cachedHead <==> s.t.C() == s.hSeen
  {
    SubIsDistance(s.t.P(), s.tSeen);
    SubIsDistance(s.hSeen, s.t.C());
  }

  lemma InitCore(c: Config, s: State)
    requires Accepted(c) && Init(c, s)
    ensures Core(c, s)
  {
  }

  lemma GrantCore(c: Config, s: State, drop: bool)
    requires Core(c, s) && s.t.P() < s.tSeen + c.limit && !s.prod.PHead?
    ensures Core(c, Grant(c, s, drop))
  {
    SlotIndexIsSlotOf(c.slots, s.t.P());
  }

  lemma LoadTailCore(c: Config, s: State, i: nat)
    requires Core(c, s) && TailLoadable(s, i) && !Writing(s.prod)
    ensures Core(c, LoadTail(s, i))
  {
    var s' := LoadTail(s, i);
    assert s'.t.Ok();
    TimePasses(c.capacity, s.link, s.t, s'.t);
  }

  lemma AcquireCore(c: Config, s: State, a: Action)
    requires Core(c, s) && Can(c, s, a) && (a.Acquire? || a.AcquireTail?)
    ensures Core(c, Do(c, s, a))
  {
    CountIsDistance(c, s);
    if a.Acquire? {
      if Sub32(HeadReg(s), s.cachedTail) < c.limit { GrantCore(c, s, a.drop); }
    } else {
      LoadTailCore(c, s, a.i);
      var s' := LoadTail(s, a.i);
      CountIsDistance(c, s');
      if Sub32(HeadReg(s'), s'.cachedTail) < c.limit { GrantCore(c, s', a.drop); }
    }
  }

  lemma WriteCore(c: Config, s: State, a: Action)
    requires Core(c, s) && Can(c, s, a) && (a.WritePayload? || a.WriteHeader?)
    ensures Core(c, Do(c, s, a))
  {
    hide SlotOf, SlotsSafe, Wrap;
    TimePasses(c.capacity, s.link, s.t, s.t.ProducerTick());
  }

  lemma WriteStampCore(c: Config, s: State)
    requires Core(c, s) && Can(c, s, WriteLink) && c.mode.Laps?
    ensures Core(c, DoWriteStamp(s))
  {
    hide SlotOf, SlotsSafe, Wrap;
    TimePasses(c.capacity, s.link, s.t, s.t.ProducerTick());
  }

  lemma WriteEntryCore(c: Config, s: State, e: nat)
    requires Core(c, s) && Can(c, s, WriteLink) && c.mode.Entries? && e == SlotOf(c.capacity, s.t.P())
    ensures Core(c, DoWriteEntry(s, e)) && (!s.fault ==> !DoWriteEntry(s, e).fault)
  {
    EntriesAreSafe(c);
    WriteKeeps(c.capacity, c.limit, s.link, s.t, s.tSeen, s.pSlot);
  }

  lemma WriteLinkCore(c: Config, s: State)
    requires Core(c, s) && Can(c, s, WriteLink)
    ensures Core(c, Do(c, s, WriteLink))
  {
    hide Core, DoWriteStamp, DoWriteEntry;
    if c.mode.Laps? {
      WriteStampCore(c, s);
    } else {
      EntryIsSlot(c, s, s.t.P());
      WriteEntryCore(c, s, EntryReg(c, HeadReg(s)));
    }
  }

  lemma EntryIsSlot(c: Config, s: State, p: int)
    requires Core(c, s) && p >= 0
    ensures EntryReg(c, Wrap(p)) == SlotOf(c.capacity, p)
  {
    MaskIsSlotOf(c.capacity, p);
  }

  lemma StoreHeadCore(c: Config, s: State)
    requires Core(c, s) && Can(c, s, StoreHead)
    ensures Core(c, Do(c, s, StoreHead))
  {
    hide SlotsSafe, Wrap;
    StoreHeadOk(s.t);
    PublishKeeps(c.capacity, s.link, s.t);
  }

  lemma LoadHeadCore(c: Config, s: State, a: Action)
    requires Core(c, s) && Can(c, s, a) && (a.LoadHead? || a.ReloadHead?)
    ensures Core(c, Do(c, s, a))
  {
    hide SlotOf, SlotsSafe, LaneOk, Links;
    var s' := Do(c, s, a);
    SubIsDistance(a.i, s.t.C());
    assert s'.t.Ok();
    TimePasses(c.capacity, s.link, s.t, s'.t);
    LinksStay(c, s, s');
  }

  lemma LinksStay(c: Config, s: State, s': State)
    requires Accepted(c) && Links(c, s) && s'.link == s.link && s'.prod == s.prod && s'.pSlot == s.pSlot
    requires s'.t.P() == s.t.P()
    ensures Links(c, s')
  {
  }

  lemma ReadStampShapes(c: Config, s: State, i: nat)
    requires Core(c, s) && Can(c, s, ReadLink(i)) && c.mode.Laps? && SlotReg(c, TailReg(s)) < c.slots
    ensures var s' := DoReadStamp(c, s, i);
            && Shapes(c, s') && s'.t.Ok() && s'.t.cKnows >= s.t.cKnows
            && s'.t == s.t.(cKnows := s'.t.cKnows, cNow := s.t.cNow + 1)
            && s' == s.(cSlot := SlotReg(c, TailReg(s)), stampSeen := s'.stampSeen, t := s'.t,
                        cons := s'.cons, strayed := s'.strayed)
  {
    hide SlotOf, SlotsSafe, Wrap, SlotIndex, SlotsMask, LaneOk, Links;
  }

  lemma ReadStampCore(c: Config, s: State, i: nat)
    requires Core(c, s) && Can(c, s, ReadLink(i)) && c.mode.Laps?
    ensures var s' := DoReadStamp(c, s, i); Core(c, s') && (s'.cons.CHeader? || s'.cons.CMiss?)
  {
    SlotIndexIsSlotOf(c.slots, s.t.C());
    ReadStampShapes(c, s, i);
    hide SlotOf, SlotsSafe, Wrap, SlotIndex, SlotsMask, LaneOk, Links, Shapes;
    var s' := DoReadStamp(c, s, i);
    TimePasses(c.capacity, s.link, s.t, s'.t);
    LinksStay(c, s, s');
  }

  lemma ReadEntryCore(c: Config, s: State, e: nat)
    requires Core(c, s) && s.cons.CLink? && c.mode.Entries? && e == SlotOf(c.capacity, s.t.C())
    ensures var s' := DoReadEntry(c, s, e);
            Core(c, s') && s'.cons.CHeader? && s'.strayed == s.strayed && s'.fault == s.fault
  {
    hide SlotsSafe, Wrap;
    ReadKeeps(c.capacity, s.link, s.t, s.hSeen);
  }

  lemma ReadLinkCore(c: Config, s: State, i: nat)
    requires Core(c, s) && Can(c, s, ReadLink(i))
    ensures var s' := Do(c, s, ReadLink(i));
            Core(c, s') && (s'.cons.CHeader? || (c.mode.Laps? && s'.cons.CMiss?))
  {
    hide Core, DoReadStamp, DoReadEntry, Positions;
    if c.mode.Laps? {
      ReadStampCore(c, s, i);
    } else {
      TailIsPosition(c, s);
      EntryIsSlot(c, s, s.t.C());
      ReadEntryCore(c, s, EntryReg(c, TailReg(s)));
    }
  }

  lemma TailIsPosition(c: Config, s: State)
    requires Core(c, s)
    ensures 0 <= s.t.C() <= s.t.P() && s.t.Ok()
  {
  }

  lemma ReadCore(c: Config, s: State, a: Action)
    requires Core(c, s) && Can(c, s, a) && (a.ReadHeader? || a.ReadPayload? || a.Recycle?)
    ensures Core(c, Do(c, s, a))
  {
    hide SlotOf, SlotsSafe, Wrap;
    TimePasses(c.capacity, s.link, s.t, s.t.ConsumerTick());
  }

  lemma StoreTailCore(c: Config, s: State)
    requires Core(c, s) && Can(c, s, StoreTail)
    ensures Core(c, Do(c, s, StoreTail))
  {
    StoreTailOk(s.t);
    ReleaseKeeps(c.capacity, s.link, s.t);
  }

  lemma LocalCore(c: Config, s: State, a: Action)
    requires Core(c, s) && Can(c, s, a) && (a.Abort? || a.Publish? || a.ReloadTail? || a.Consume? || a.Release?)
    ensures Core(c, Do(c, s, a))
  {
    CountIsDistance(c, s);
    if a.ReloadTail? { LoadTailCore(c, s, a.i); }
  }

  /** Every step of either thread keeps the counters, the entries and the slot indices right. */
  lemma CoreStepKeeps(c: Config, s: State, a: Action)
    requires Core(c, s) && Can(c, s, a)
    ensures Core(c, Do(c, s, a))
  {
    hide Core, Do, Can;
    match a
    case Acquire(_) => AcquireCore(c, s, a);
    case AcquireTail(_, _) => AcquireCore(c, s, a);
    case WritePayload(_) => WriteCore(c, s, a);
    case WriteHeader => WriteCore(c, s, a);
    case WriteLink => WriteLinkCore(c, s);
    case StoreHead => StoreHeadCore(c, s);
    case LoadHead(_) => LoadHeadCore(c, s, a);
    case ReloadHead(_) => LoadHeadCore(c, s, a);
    case ReadLink(i) => ReadLinkCore(c, s, i);
    case ReadHeader => ReadCore(c, s, a);
    case ReadPayload => ReadCore(c, s, a);
    case Recycle => ReadCore(c, s, a);
    case StoreTail => StoreTailCore(c, s);
    case _ => LocalCore(c, s, a);
  }
}
