/** What holds in every run of the protocol, however the two threads interleave and however
    stale their acquire loads are. */
module SpscTheorems {
  import opened Words
  import opened Slots
  import opened Lanes
  import opened Spsc
  import opened SpscCore
  import opened SpscSafe

  ghost predicate Next(c: Config, s: State, s': State)
    requires c.slots >= 1 && c.capacity >= 1
  {
    exists a :: Can(c, s, a) && s' == Do(c, s, a)
  }

  ghost predicate IsRun(c: Config, run: seq<State>)
    requires c.slots >= 1 && c.capacity >= 1
  {
    && |run| >= 1 && Init(c, run[0])
    && forall i :: 0 <= i < |run| - 1 ==> Next(c, run[i], run[i + 1])
  }

  lemma {:induction false} RunKeeps(c: Config, run: seq<State>, i: nat)
    requires ConfigOk(c) && IsRun(c, run) && i < |run|
    ensures Inv(c, run[i])
  {
    if i == 0 {
      InitKeeps(c, run[0]);
    } else {
      RunKeeps(c, run, i - 1);
      assert Next(c, run[i - 1], run[i]);
      var a :| Can(c, run[i - 1], a) && run[i] == Do(c, run[i - 1], a);
      StepKeeps(c, run[i - 1], a);
    }
  }

  lemma {:induction false} RunKeepsCore(c: Config, run: seq<State>, i: nat)
    requires Accepted(c) && IsRun(c, run) && i < |run|
    ensures Core(c, run[i])
  {
    hide Core, Do, Init;
    if i == 0 {
      InitCore(c, run[0]);
    } else {
      RunKeepsCore(c, run, i - 1);
      assert Next(c, run[i - 1], run[i]);
      var a :| Can(c, run[i - 1], a) && run[i] == Do(c, run[i - 1], a);
      CoreStepKeeps(c, run[i - 1], a);
    }
  }

  /** The step writes a cell that the consumer read later than the producer knows. */
  ghost predicate WriteConflict(c: Config, s: State, a: Action)
    requires Core(c, s) && Can(c, s, a)
  {
    || (a.WritePayload? && s.body.cells[s.pSlot].rAt > s.t.pKnows)
    || (a.WriteHeader? && s.hdr.cells[s.pSlot].rAt > s.t.pKnows)
    || (a.WriteLink? && c.mode.Entries? && s.link.cells[SlotOf(c.capacity, s.t.P())].rAt > s.t.pKnows)
  }

  /** The step reads a cell that the producer wrote later than the consumer knows. */
  ghost predicate ReadConflict(c: Config, s: State, a: Action)
    requires Core(c, s) && Can(c, s, a)
  {
    || (a.ReadLink? && c.mode.Entries? && s.link.cells[SlotOf(c.capacity, s.t.C())].wAt > s.t.cKnows)
    || (a.ReadHeader? && s.hdr.cells[s.cSlot].wAt > s.t.cKnows)
    || (a.ReadPayload? && s.body.cells[s.cSlot].wAt > s.t.cKnows)
  }

  /** The producer's steps, but for the head store. */
  predicate ByProducer(a: Action) {
    || a.Acquire? || a.AcquireTail? || a.WritePayload? || a.Abort? || a.Publish?
    || a.WriteHeader? || a.WriteLink? || a.ReloadTail?
  }

  lemma WritesAreChecked(c: Config, s: State, a: Action)
    requires Core(c, s) && Can(c, s, a) && ByProducer(a)
    ensures Do(c, s, a).fault <==> s.fault || WriteConflict(c, s, a)
  {
    MaskIsSlotOf(c.capacity, s.t.P());
    hide SlotOf, Wrap, Links, BitAnd, IsPow2, SlotIndex, SlotsMask;
  }

  lemma ReadsAreChecked(c: Config, s: State, a: Action)
    requires Core(c, s) && Can(c, s, a) && !ByProducer(a)
    ensures Do(c, s, a).fault <==> s.fault || ReadConflict(c, s, a)
  {
    MaskIsSlotOf(c.capacity, s.t.C());
    SlotIndexIsSlotOf(c.slots, s.t.C());
    hide SlotOf, Wrap, Links, BitAnd, IsPow2, SlotIndex, SlotsMask;
  }

  /** No access escapes the race check: a step faults exactly when there is such a conflict. All
      accesses are inside the scratch area, in every accepted geometry. */
  lemma EveryAccessIsChecked(c: Config, s: State, a: Action)
    requires Core(c, s) && Can(c, s, a)
    ensures Do(c, s, a).fault <==> s.fault || WriteConflict(c, s, a) || ReadConflict(c, s, a)
  {
    hide Do;
    if ByProducer(a) {
      WritesAreChecked(c, s, a);
    } else {
      ReadsAreChecked(c, s, a);
    }
  }

  /** In a safe geometry no run has a data race or an access outside the scratch area, and no run takes the
      stamp-mismatch branch or the out-of-range-slot return. */
  lemma RunsAreRaceFree(c: Config, run: seq<State>, i: nat)
    requires ConfigOk(c) && IsRun(c, run) && i < |run|
    ensures !run[i].fault
    ensures !run[i].strayed && !run[i].cons.CMiss?
  {
    RunKeeps(c, run, i);
  }

  /** The consumer reads, for the position it holds, exactly what was published there. */
  lemma ReaderSeesWhatWasSent(c: Config, run: seq<State>, i: nat)
    requires ConfigOk(c) && IsRun(c, run) && i < |run| && run[i].cons.CHeld?
    ensures var s := run[i];
            && 0 <= s.t.C() < |s.body.log| == |s.hdr.log| && s.cSlot < |s.body.cells|
            && s.body.cells[s.cSlot].val == s.body.log[s.t.C()]
            && s.cHdr == s.hdr.log[s.t.C()]
  {
    RunKeeps(c, run, i);
    assert Live(c.slots, run[i].body, run[i].t, run[i].t.C());
  }

  /** The registers refine unbounded positions: every 32-bit difference the code takes is the
      true one, across any number of wraps, in every configuration. */
  lemma CountersRefinePositions(c: Config, run: seq<State>, i: nat)
    requires Accepted(c) && IsRun(c, run) && i < |run|
    ensures var s := run[i];
            && s.tSeen <= s.t.C() <= s.hSeen <= s.t.P() <= s.t.C() + c.limit
            && s.t.P() - s.tSeen <= c.limit
            && Sub32(HeadReg(s), s.cachedTail) == s.t.P() - s.tSeen
            && Sub32(HeadReg(s), TailReg(s)) == s.t.P() - s.t.C()
            && Sub32(s.cachedHead, TailReg(s)) == s.hSeen - s.t.C()
  {
    RunKeepsCore(c, run, i);
    var s := run[i];
    SubIsDistance(s.t.P(), s.tSeen);
    SubIsDistance(s.t.P(), s.t.C());
    SubIsDistance(s.hSeen, s.t.C());
  }

  // Linearization

  /** The abstract queue: what is published and not yet released. */
  ghost function Queue(s: State): seq<Sent>
    requires HasLogs(s)
  {
    seq(s.t.P() - s.t.C(), k requires 0 <= k < s.t.P() - s.t.C() =>
      Sent(s.body.log[s.t.C() + k], s.hdr.log[s.t.C() + k]))
  }

  ghost predicate HasLogs(s: State) {
    s.t.Ok() && |s.body.log| == |s.hdr.log| == s.t.P()
  }

  /** A step of the bounded FIFO: the head store appends what the granted slot holds, to a
      queue shorter than the limit; the tail store removes the first message and hands it
      over; every other step leaves the queue and the receipts alone. */
  ghost predicate FifoStep(c: Config, s: State, a: Action, s': State) {
    && HasLogs(s) && HasLogs(s')
    && if a.StoreHead? then
         && |Queue(s)| < c.limit && s'.got == s.got
         && s.pSlot < |s.body.cells| == |s.hdr.cells|
         && Queue(s') == Queue(s) + [Sent(s.body.cells[s.pSlot].val, s.hdr.cells[s.pSlot].val)]
       else if a.StoreTail? then
         && s'.got != [] && s'.got == s.got + [Last(s'.got)]
         && Queue(s) == [Last(s'.got)] + Queue(s')
       else Queue(s') == Queue(s) && s'.got == s.got
  }

  /** Every step of the protocol is a step of the bounded FIFO. */
  lemma StepsLinearize(c: Config, s: State, a: Action)
    requires Inv(c, s) && Can(c, s, a)
    ensures FifoStep(c, s, a, Do(c, s, a))
  {
    if a.StoreHead? {
      HeadStoreAppends(c, s);
    } else if a.StoreTail? {
      TailStoreRemoves(c, s);
    } else {
      QuietStep(c, s, a);
      StepKeeps(c, s, a);
    }
  }

  /** So every run, read step by step, is a run of the bounded FIFO that starts empty. */
  lemma RunsLinearize(c: Config, run: seq<State>, i: nat)
    requires ConfigOk(c) && IsRun(c, run) && i < |run| - 1
    ensures HasLogs(run[0]) && Queue(run[0]) == []
    ensures exists a :: Can(c, run[i], a) && run[i + 1] == Do(c, run[i], a) && FifoStep(c, run[i], a, run[i + 1])
  {
    RunKeeps(c, run, 0);
    RunKeeps(c, run, i);
    assert Next(c, run[i], run[i + 1]);
    var a :| Can(c, run[i], a) && run[i + 1] == Do(c, run[i], a);
    StepsLinearize(c, run[i], a);
  }

  lemma QueueAppends(s: State, s': State, m: Sent)
    requires HasLogs(s) && HasLogs(s') && s'.t.P() == s.t.P() + 1 && s'.t.C() == s.t.C()
    requires s'.body.log == s.body.log + [m.body] && s'.hdr.log == s.hdr.log + [m.hdr]
    ensures Queue(s') == Queue(s) + [m]
  {
  }

  lemma HeadStoreAppends(c: Config, s: State)
    requires Inv(c, s) && s.prod.PHead?
    ensures FifoStep(c, s, Action.StoreHead, DoStoreHead(c, s))
  {
    hide SlotOf, SlotsSafe, Wrap, Links, Queue;
    StoreHeadOk(s.t);
    QueueLength(s);
    QueueAppends(s, DoStoreHead(c, s), Sent(s.body.cells[s.pSlot].val, s.hdr.cells[s.pSlot].val));
  }

  lemma QueueLength(s: State)
    requires HasLogs(s)
    ensures |Queue(s)| == s.t.P() - s.t.C()
  {
  }

  lemma TailStoreRemoves(c: Config, s: State)
    requires Inv(c, s) && s.cons.CTail?
    ensures FifoStep(c, s, Action.StoreTail, DoStoreTail(s))
  {
    var s' := DoStoreTail(s);
    StoreTailOk(s.t);
    assert Live(c.slots, s.body, s.t, s.t.C());
    assert Queue(s) == [Last(s'.got)] + Queue(s');
  }

  ghost predicate LeavesQueue(s: State, s': State) {
    && s'.t.headAt == s.t.headAt && s'.t.tailAt == s.t.tailAt
    && s'.body.log == s.body.log && s'.hdr.log == s.hdr.log && s'.got == s.got
  }

  lemma QuietProducerStep(c: Config, s: State, a: Action)
    requires c.slots >= 1 && c.capacity >= 1 && Can(c, s, a) && ByProducer(a)
    ensures LeavesQueue(s, Do(c, s, a))
  {
    hide SlotIndex, SlotsMask, BitAnd, WriteRaces, Wrap, Sub32, Add32;
  }

  predicate Touches(a: Action) {
    a.ReadLink? || a.ReadHeader? || a.ReadPayload? || a.Recycle?
  }

  lemma QuietStampRead(c: Config, s: State, i: nat)
    requires c.slots >= 1 && StampLoadable(c, s, i)
    ensures LeavesQueue(s, DoReadStamp(c, s, i))
  {
    hide SlotIndex, SlotsMask, Wrap, Add32, Readable;
  }

  lemma QuietEntryRead(c: Config, s: State, e: nat)
    requires ClocksStarted(s.t)
    ensures LeavesQueue(s, DoReadEntry(c, s, e))
  {
    hide ReadRaces;
  }

  lemma QuietAccess(c: Config, s: State, a: Action)
    requires c.slots >= 1 && c.capacity >= 1 && Can(c, s, a) && Touches(a)
    ensures LeavesQueue(s, Do(c, s, a))
  {
    hide DoReadStamp, DoReadEntry, StampLoadable, ReadRaces, Wrap, Add32;
    if a.ReadLink? {
      if c.mode.Laps? { QuietStampRead(c, s, a.i); } else { QuietEntryRead(c, s, EntryReg(c, TailReg(s))); }
    }
  }

  lemma QuietConsumerStep(c: Config, s: State, a: Action)
    requires c.slots >= 1 && c.capacity >= 1 && Can(c, s, a)
    requires !ByProducer(a) && !Touches(a) && !a.StoreHead? && !a.StoreTail?
    ensures LeavesQueue(s, Do(c, s, a))
  {
    hide SlotIndex, SlotsMask, BitAnd, Wrap;
  }

  lemma QuietStep(c: Config, s: State, a: Action)
    requires c.slots >= 1 && c.capacity >= 1 && Can(c, s, a) && !a.StoreHead? && !a.StoreTail?
    ensures LeavesQueue(s, Do(c, s, a))
  {
    hide Do, Can;
    if ByProducer(a) {
      QuietProducerStep(c, s, a);
    } else if Touches(a) {
      QuietAccess(c, s, a);
    } else {
      QuietConsumerStep(c, s, a);
    }
  }

  /** Whole-run conservation: at any later time of a run the receipts so far are a prefix of
      what has been published, nothing published is ever rewritten, and published less
      received is what the queue holds. */
  lemma {:induction false} ReceiptsArePublishedPrefix(c: Config, run: seq<State>, i: nat, j: nat)
    requires ConfigOk(c) && IsRun(c, run) && i <= j < |run|
    ensures run[i].body.log <= run[j].body.log && run[i].hdr.log <= run[j].hdr.log
    ensures |run[i].got| <= |run[j].body.log| == |run[j].hdr.log|
    ensures forall p :: 0 <= p < |run[i].got| ==>
              run[i].got[p] == Sent(run[j].body.log[p], run[j].hdr.log[p])
    ensures |run[j].body.log| - |run[j].got| == run[j].t.P() - run[j].t.C() <= c.limit
    decreases j
  {
    hide IsRun, ConfigOk;
    Receipts(c, run, i);
    Receipts(c, run, j);
    if i < j {
      ReceiptsArePublishedPrefix(c, run, i, j - 1);
      LogsGrow(c, run, j - 1);
    }
  }

  lemma Receipts(c: Config, run: seq<State>, i: nat)
    requires ConfigOk(c) && IsRun(c, run) && i < |run|
    ensures var s := run[i];
            && |s.got| == s.t.C() <= s.t.P() <= s.t.C() + c.limit
            && |s.body.log| == |s.hdr.log| == s.t.P()
            && forall p :: 0 <= p < |s.got| ==> s.got[p] == Sent(s.body.log[p], s.hdr.log[p])
  {
    RunKeeps(c, run, i);
  }

  lemma StepGrows(c: Config, s: State, a: Action)
    requires Core(c, s) && Can(c, s, a)
    ensures var s' := Do(c, s, a); s.body.log <= s'.body.log && s.hdr.log <= s'.hdr.log
  {
    hide SlotOf, SlotsSafe, Wrap, LaneOk, Links;
    if !a.StoreHead? && !a.StoreTail? { QuietStep(c, s, a); }
  }

  lemma LogsGrow(c: Config, run: seq<State>, i: nat)
    requires ConfigOk(c) && IsRun(c, run) && i < |run| - 1
    ensures run[i].body.log <= run[i + 1].body.log && run[i].hdr.log <= run[i + 1].hdr.log
  {
    RunKeepsCore(c, run, i);
    assert Next(c, run[i], run[i + 1]);
    hide Core, Do;
    var a :| Can(c, run[i], a) && run[i + 1] == Do(c, run[i], a);
    StepGrows(c, run[i], a);
  }

  // The fast paths

  /** `rb_acquire` answers from the cache exactly when the cached tail shows room, and then makes no
      load; otherwise it answers FULL exactly when the tail it loads is a whole limit behind:
      with a fresh load, exactly when the ring is full. It never grants a slot of a full ring, and
      a request that the policy drops gets none. */
  lemma AcquireIsExact(c: Config, s: State, i: nat, drop: bool)
    requires Core(c, s)
    ensures s.prod.PIdle? ==>
              var s' := Do(c, s, Acquire(drop));
              && s' == s.(prod := s'.prod, pSlot := s'.pSlot)
              && (s'.prod.PAcquireTail? <==> s.t.P() - s.tSeen == c.limit)
              && (s'.prod.PGranted? <==> s.t.P() - s.tSeen < c.limit && !drop)
              && (s'.prod.PGranted? ==> s.t.P() - s.t.C() < c.limit)
    ensures s.prod.PAcquireTail? && TailLoadable(s, i) ==>
              var s' := Do(c, s, AcquireTail(i, drop));
              && (s'.prod.PIdle? || s'.prod.PGranted?)
              && (s'.prod.PGranted? <==> s.t.P() - i < c.limit && !drop) && s.t.P() - i <= c.limit
              && (i == s.t.C() ==> (s'.prod.PIdle? <==> s.t.P() - s.t.C() == c.limit || drop))
              && (s'.prod.PGranted? ==> s.t.P() - s.t.C() < c.limit)
  {
    CountIsDistance(c, s);
    if s.prod.PAcquireTail? && TailLoadable(s, i) {
      LoadTailCore(c, s, i);
      CountIsDistance(c, LoadTail(s, i));
    }
  }

  /** A grant given up and asked for again is the same grant: `rb_abort` undoes `rb_acquire`. */
  lemma AbortUndoesAcquire(c: Config, s: State)
    requires Core(c, s) && s.prod.PGranted?
    ensures Can(c, Do(c, s, Abort), Acquire(false)) && Do(c, Do(c, s, Abort), Acquire(false)) == s
  {
    CountIsDistance(c, s);
    SlotIndexIsSlotOf(c.slots, s.t.P());
  }

  /** `rb_consume` goes on from the cache exactly when the cached head is past the tail, and then
      makes no load; otherwise it answers EMPTY exactly when the head it loads equals the
      tail: with a fresh load, exactly when the ring is empty. */
  lemma ConsumeIsExact(c: Config, s: State, i: nat)
    requires Core(c, s)
    ensures s.cons.CIdle? ==>
              var s' := Do(c, s, Consume);
              && s' == s.(cons := s'.cons) && (s'.cons.CLink? || s'.cons.CLoadHead?)
              && (s'.cons.CLink? <==> s.t.C() < s.hSeen) && (s'.cons.CLink? ==> s.t.C() < s.t.P())
    ensures s.cons.CLoadHead? && HeadLoadable(s, i) ==>
              var s' := Do(c, s, LoadHead(i));
              && (s'.cons.CIdle? <==> i == s.t.C())
              && (i == s.t.P() ==> (s'.cons.CIdle? <==> s.t.P() == s.t.C()))
              && (s'.cons.CLink? ==> s.t.C() < s.t.P())
  {
    CountIsDistance(c, s);
    if s.cons.CLoadHead? && HeadLoadable(s, i) {
      SubIsDistance(i, s.t.C());
    }
  }

  /** An entry that names no slot is refused, whatever put it there. */
  lemma BadEntryIsRefused(c: Config, s: State, i: nat)
    requires Core(c, s) && c.mode.Entries? && Can(c, s, ReadLink(i))
    requires s.link.cells[SlotOf(c.capacity, s.t.C())].val >= c.slots
    ensures var s' := Do(c, s, ReadLink(i)); s'.cons.CIdle? && s'.t.C() == s.t.C() && s'.strayed
  {
    MaskIsSlotOf(c.capacity, s.t.C());
  }
}
