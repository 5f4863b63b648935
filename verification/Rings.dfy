/** The ring: free-running 32-bit counters, cached copies of the other side's counter, and
    messages in scratch slots. The default build finds the slot of a message through
    `entries[]`; the per-slot-lap build computes it and checks a stamp in the slot. Every
    call of either build is proved to be the corresponding call of the abstract FIFO. */
module Rings {
  import opened Words
  import opened Slots
  import opened Layout
  import opened Fifo
  import opened Meaning
  import opened Storage

  const NO_PENDING: u32 := 0xFFFF_FFFF

  /** `RB_SLOT_HDR_SIZE` of the default and of the per-slot-lap build. */
  function HeaderSize(laps: bool): u32 {
    if laps then 8 else 4
  }

  class Ring {
    const laps: bool // RB_PER_SLOT_LAP
    // geometry
    const capacity: u32
    const mask: u32
    const slots: u32
    const slotsMask: u32
    const slotSize: u32
    const lowD: u32
    const lowE: u32
    var limit: u32
    var policy: Policy
    var scratchSize: nat
    // producer
    var head: u32
    var cachedTail: u32
    var pendingSlot: u32
    var pendingWanted: u32
    var fullLatch: bool
    // consumer
    var tail: u32
    var cachedHead: u32
    var consumerActive: bool
    var consumerSlot: u32
    var lowDLatch: bool
    var lowELatch: bool
    // bookkeeping
    var stats: Stats
    var callbacks: seq<Event>
    // memory
    const entries: array<u32> // default build
    const stamps: array<u32>  // per-slot-lap build
    const hdr: array<u32>
    const data: array<seq<Byte>>
    // specification
    ghost var q: Queue
    ghost var acked: nat // the position of the cached tail

    /** The registers are images of positions in the abstract queue. */
    ghost predicate Registers()
      requires q.slots >= 1
      reads this
    {
      && q.capacity == capacity && q.slots == slots && q.lowD == lowD && q.lowE == lowE
      && HeaderSize(laps) < slotSize && q.cap == slotSize - HeaderSize(laps)
      && q.limit == limit && q.policy == policy && (q.ready <==> scratchSize != 0)
      && q.fullLatch == fullLatch && q.lowDLatch == lowDLatch && q.lowELatch == lowELatch
      && q.stats == stats && q.events == callbacks
      && head == Wrap(|q.log|) && tail == Wrap(q.released)
      && cachedHead == Wrap(q.seen) && cachedTail == Wrap(acked)
      && acked <= q.released && |q.log| - acked <= capacity
      && pendingSlot == (if q.pending.Some? then q.WriteSlot() else NO_PENDING)
      && (q.pending.Some? ==> pendingWanted == q.pending.value)
      && consumerActive == q.holding
      && (consumerActive ==> consumerSlot == q.ReadSlot())
      && mask == capacity - 1 && slotsMask == SlotsMask(slots)
    }

    ghost predicate Valid()
      reads this, entries, stamps, hdr, data
    {
      && q.Ok() && Registers()
      && InSlots(q, hdr[..], data[..]) && Linked(laps, q, entries[..], stamps[..])
      && entries.Length == capacity && hdr.Length == data.Length == stamps.Length == slots
      && entries != hdr && stamps != hdr && entries != stamps
    }

    /** The geometry is one in which live messages never share a slot. */
    predicate IsSafe()
      reads this
    {
      slots >= 1 && SlotsSafe(slots, limit)
    }

    /** The stamp check of the lap build fails for this slot. */
    predicate StampMissed(slot: nat)
      reads this, stamps
    {
      laps && slot < stamps.Length && stamps[slot] != Add32(tail, 1)
    }

    /** `rb_init` on an accepted configuration; the scratch area comes with whatever bytes
        it holds, except that the lap build stamps every slot with its own index. */
    constructor (laps: bool, cfg: Config, align: nat, scratch: nat, headers: seq<u32>, bytes: seq<seq<Byte>>)
      requires align >= 1 && Acceptable(Resolve(cfg), HeaderSize(laps), align, true, true, scratch)
      requires |headers| == |bytes| == Resolve(cfg).slots
      requires forall s :: 0 <= s < |bytes| ==> |bytes[s]| == Resolve(cfg).slotSize - HeaderSize(laps)
      ensures Valid() && fresh(entries) && fresh(stamps) && fresh(hdr) && fresh(data)
      ensures this.laps == laps
      ensures q == Initial(Resolve(cfg), HeaderSize(laps)).(ready := scratch > 0) && acked == 0
      ensures AsConfigured(q, cfg, HeaderSize(laps)) && slotSize == q.cap + HeaderSize(laps)
      ensures data[..] == bytes
    {
      var r := Resolve(cfg);
      this.laps := laps;
      capacity, mask, slots, slotSize := r.capacity, r.capacity - 1, r.slots, r.slotSize;
      slotsMask := SlotsMask(r.slots);
      lowD, lowE, limit, policy, scratchSize := r.lowD, r.lowE, r.limit, r.policy, scratch;
      head, tail, cachedTail, cachedHead := 0, 0, 0, 0;
      pendingSlot, pendingWanted := NO_PENDING, 0;
      consumerActive, consumerSlot := false, 0;
      fullLatch, lowDLatch, lowELatch := false, false, false;
      stats, callbacks := ZERO_STATS, [];
      entries := new u32[r.capacity];
      stamps := new u32[r.slots];
      hdr := new u32[r.slots](i requires 0 <= i < |headers| => headers[i]);
      data := new seq<Byte>[r.slots](i requires 0 <= i < |bytes| => bytes[i]);
      q, acked := Initial(r, HeaderSize(laps)).(ready := scratch > 0), 0;
      new;
      Preseed();
      InitialMeans(cfg, HeaderSize(laps));
      InitialOk(cfg, HeaderSize(laps), align, scratch);
      assert data[..] == bytes;
      InitialStorage(laps, q, entries[..], stamps[..], hdr[..], data[..]);
    }

    /** `rb_init`: the checks, and a new ring if they pass. A scratch size of zero gets past them
        when the stride has been cast to zero; every later call then finds no ring. */
    static method Init(laps: bool, cfg: Config, align: nat, ringAligned: bool, scratchAligned: bool, scratch: nat,
                       headers: seq<u32>, bytes: seq<seq<Byte>>) returns (e: Err, ring: Ring?)
      requires align >= 1
      requires |headers| == |bytes| == Resolve(cfg).slots
      requires HeaderSize(laps) < Resolve(cfg).slotSize ==>
                 forall s :: 0 <= s < |bytes| ==> |bytes[s]| == Resolve(cfg).slotSize - HeaderSize(laps)
      ensures e == Ok <==> Acceptable(Resolve(cfg), HeaderSize(laps), align, ringAligned, scratchAligned, scratch)
      ensures e == Ok <==> Sound(cfg, HeaderSize(laps), align, ringAligned, scratchAligned, scratch)
      ensures e != Ok ==> e == Inval && ring == null
      ensures e == Ok ==>
                && ring != null && fresh(ring) && ring.Valid() && ring.laps == laps && ring.data[..] == bytes
                && ring.q == Initial(Resolve(cfg), HeaderSize(laps)).(ready := scratch > 0)
                && AsConfigured(ring.q, cfg, HeaderSize(laps))
    {
      AcceptableExactly(cfg, HeaderSize(laps), align, ringAligned, scratchAligned, scratch);
      hide IsPow2, Stride, Sound;
      ring := null;
      if !ringAligned { return Inval, ring; }
      var capacity := OrDefault(cfg.capacity, DEFAULT_CAPACITY);
      if !IsPow2(capacity) || capacity < 2 { return Inval, ring; }
      var slots := OrDefault(cfg.slots, DEFAULT_SLOTS);
      var slotSize := OrDefault(cfg.slotSize, DEFAULT_SLOT_SIZE);
      if slotSize <= HeaderSize(laps) { return Inval, ring; }
      if cfg.lowD > 100 || cfg.lowE > 100 || cfg.lowE > cfg.lowD { return Inval, ring; }
      if !scratchAligned { return Inval, ring; }
      if scratch < slots * Stride(slotSize, align) { return Inval, ring; }
      ring := new Ring(laps, cfg, align, scratch, headers, bytes);
      e := Ok;
    }

    method Preseed()
      requires stamps.Length == slots
      modifies stamps
      ensures forall i :: 0 <= i < slots ==> stamps[i] == i
    {
      hide SlotOf, IsPow2, Wrap, Stored, SlotsSafe, Threshold;
      var si: u32 := 0;
      while si < slots
        invariant si <= slots
        invariant forall i :: 0 <= i < si ==> stamps[i] == i
      {
        stamps[si] := si;
        si := si + 1;
      }
    }

    /** Memory that held the queue `q0` holds `q` too, if `q` lost nothing but messages. */
    lemma Carries(q0: Queue)
      requires InSlots(q0, hdr[..], data[..]) && Linked(laps, q0, entries[..], stamps[..])
      requires q.Ok() && Shrinks(q0, q) && q.slots == slots == data.Length && (laps ==> q.released == q0.released)
      requires q.pending.Some? ==> q.buf == data[q.WriteSlot()]
      ensures InSlots(q, hdr[..], data[..]) && Linked(laps, q, entries[..], stamps[..])
    {
      ShrinkingStaysInSlots(q0, q, hdr[..], data[..]);
      if laps {
        ShrinkingStaysInStamps(q0, q, stamps[..]);
      } else {
        ShrinkingStaysInEntries(q0, q, entries[..]);
      }
    }

    lemma ReadyBit()
      requires Valid()
      ensures q.ready <==> scratchSize != 0
      ensures q.slots == slots && q.limit == limit && q.holding == consumerActive
    {
    }

    lemma PendingBytes()
      requires q.Ok() && q.slots == slots == data.Length && InSlots(q, hdr[..], data[..])
      ensures q.pending.Some? ==> q.buf == data[q.WriteSlot()]
      ensures forall s :: 0 <= s < slots ==> |data[s]| == q.cap
    {
    }

    lemma Distances()
      requires q.Ok() && Registers()
      ensures Sub32(head, cachedTail) == |q.log| - acked
      ensures Sub32(head, tail) == q.Count()
      ensures tail == cachedHead <==> q.released == q.seen
      ensures q.seen > q.released ==> Sub32(cachedHead, Add32(tail, 1)) == q.seen - q.released - 1
    {
      SubIsDistance(|q.log|, acked);
      SubIsDistance(|q.log|, q.released);
      SubIsDistance(q.seen, q.released);
      AddAdvances(q.released, 1);
      if q.seen > q.released { SubIsDistance(q.seen, q.released + 1); }
    }

    /** The count against the cached tail, reloaded if it shows a full ring. */
    method HasRoom() returns (room: bool)
      requires Valid()
      modifies this`cachedTail, this`acked
      ensures Valid() && (room <==> q.Count() < q.limit)
    {
      hide SlotOf, IsPow2, Wrap, Stored, SlotsSafe, Threshold;
      Distances();
      room := Sub32(head, cachedTail) < limit;
      if !room {
        cachedTail, acked := tail, q.released;
        room := Sub32(head, tail) < limit;
      }
    }

    method Acquire(wanted: u32) returns (e: Err, slot: u32, cap: u32)
      requires Valid()
      modifies this
      ensures Valid()
      ensures (q, e) == Fifo.Acquire(old(q), wanted, data[old(q.WriteSlot())])
      ensures e == Full <==> old(q.ready && q.pending.None? && q.Count() == q.limit)
      ensures old(q.ready && q.pending.None? && q.Count() < q.limit) ==>
                (e == Ok || e == Oversize) && (e == Ok <==> wanted <= old(q.cap) || old(q.policy) == Truncate)
      ensures e.Ok? ==> slot == q.WriteSlot() && cap == q.cap
    {
      hide SlotOf, IsPow2, Wrap, SlotsSafe, InSlots, Linked;
      AcquireAnswers(q, wanted, data[q.WriteSlot()]);
      PendingBytes();
      slot, cap := 0, 0;
      if scratchSize == 0 { return NotInit, slot, cap; }
      if pendingSlot != NO_PENDING { return Inval, slot, cap; }
      var room := HasRoom();
      if !room {
        CountRefusal();
        return Full, slot, cap;
      }
      cap := slotSize - HeaderSize(laps);
      if wanted != 0 && wanted > cap && policy.Drop? { return Oversize, slot, cap; }
      slot := Grant(wanted);
      e := Ok;
    }

    method CountRefusal()
      requires Valid() && q.pending.None?
      modifies this`stats, this`q
      ensures Valid() && q == old(q).(stats := old(q).stats.(fullAttempts := Inc64(old(q).stats.fullAttempts)))
    {
      hide SlotOf, IsPow2, Wrap, SlotsSafe, InSlots, Linked;
      stats := stats.(fullAttempts := Inc64(stats.fullAttempts));
      q := q.(stats := stats);
      Carries(old(q));
    }

    method Grant(wanted: u32) returns (slot: u32)
      requires Valid() && q.pending.None? && q.Count() < q.limit
      modifies this`pendingSlot, this`pendingWanted, this`q
      ensures Valid() && slot == q.WriteSlot()
      ensures q == old(q).(pending := Some(wanted), buf := data[slot])
    {
      hide SlotOf, IsPow2, Wrap, SlotsSafe, InSlots, Linked;
      PendingBytes();
      SlotIndexIsSlotOf(slots, |q.log|);
      slot := SlotIndex(slots, slotsMask, head);
      ghost var q' := q.(pending := Some(wanted), buf := data[slot]);
      pendingSlot, pendingWanted, q := slot, wanted, q';
      Carries(old(q));
    }

    /** The caller's own write through the granted pointer. */
    method WritePayload(bytes: seq<Byte>)
      requires Valid() && q.pending.Some? && |bytes| <= q.cap
      modifies this`q, data
      ensures Valid() && q == Fifo.WritePayload(old(q), bytes)
      ensures data[..] == old(data[..])[q.WriteSlot() := q.buf]
    {
      hide SlotOf, IsPow2, Wrap, Stored, SlotsSafe, Threshold;
      var s := pendingSlot;
      WritingStaysInSlots(q, hdr[..], data[..], bytes);
      data[s] := bytes + data[s][|bytes|..];
      q := Fifo.WritePayload(q, bytes);
    }

    method Publish(slot: u32, writtenLen: u32, truncatedFlag: bool) returns (e: Err)
      requires Valid()
      modifies this, hdr, entries, stamps
      ensures Valid()
      ensures (q, e) == Fifo.Publish(old(q), slot, writtenLen, truncatedFlag)
      ensures if e.Ok? then
                && slot < hdr.Length && hdr[..] == old(hdr[..])[slot := hdr[slot]]
                && old(q).pending.Some? && PublishedHeader(old(q), writtenLen, truncatedFlag, hdr[slot])
              else hdr[..] == old(hdr[..])
      ensures e.Ok? && laps ==>
                slot < stamps.Length && stamps[..] == old(stamps[..])[slot := Wrap(|q.log|)]
    {
      hide SlotOf, IsPow2, Wrap, Stored, SlotsSafe, Threshold;
      if scratchSize == 0 { return NotInit; }
      if pendingSlot == NO_PENDING || pendingSlot != slot { return Inval; }
      var cap := slotSize - HeaderSize(laps);
      var written, truncated := writtenLen, truncatedFlag;
      if written > cap {
        written, truncated := cap, true;
      }
      if pendingWanted > cap { truncated := true; }
      EncodeSays(written, truncated);
      StoreMessage(slot, Encode(written, truncated), writtenLen, truncatedFlag);
      AdvanceHead(slot, written, truncated, writtenLen, truncatedFlag);
      e := Ok;
    }

    method AdvanceHead(slot: u32, written: u32, truncated: bool, ghost writtenLen: u32, ghost truncatedFlag: bool)
      requires q.Ok() && Registers() && q.ready && q.pending.Some? && slot == q.WriteSlot()
      requires written == Min(writtenLen, q.cap)
      requires truncated == (truncatedFlag || writtenLen > q.cap || q.pending.value > q.cap)
      modifies this
      ensures q.slots >= 1 && Registers() && q == Fifo.Publish(old(q), slot, writtenLen, truncatedFlag).0
    {
      hide SlotOf, IsPow2, Wrap, Stored, SlotsSafe, Threshold;
      var count := StoreHead(Message(Visible(q.buf, written), truncated));
      Record(slot, written, truncated, count);
      CrossFull(count);
    }

    /** The head store, and the count against the tail reloaded after it. */
    method StoreHead(ghost m: Message) returns (count: u32)
      requires q.slots >= 1 && Registers() && q.pending.Some?
      requires q.released <= |q.log| < q.released + q.limit && q.limit <= q.capacity
      modifies this`head, this`pendingSlot, this`pendingWanted, this`cachedTail, this`acked, this`q
      ensures q.slots >= 1 && Registers()
      ensures q == old(q).(log := old(q).log + [m], pending := None) && count == q.Count()
    {
      var next, n := AfterPublish(|q.log|, q.released);
      count := n;
      hide SlotOf, IsPow2, Wrap;
      PutHead(next, m);
    }

    method PutHead(next: u32, ghost m: Message)
      requires q.slots >= 1 && Registers() && next == Wrap(|q.log| + 1)
      requires q.released <= |q.log| < q.released + q.limit && q.limit <= q.capacity
      modifies this`head, this`pendingSlot, this`pendingWanted, this`cachedTail, this`acked, this`q
      ensures q.slots >= 1 && Registers() && q == old(q).(log := old(q).log + [m], pending := None)
    {
      hide SlotOf, IsPow2, Wrap, SlotsMask, HeaderSize;
      ghost var q' := q.(log := q.log + [m], pending := None);
      assert |q'.log| == |q.log| + 1;
      head, cachedTail, pendingSlot, pendingWanted := next, tail, NO_PENDING, 0;
      q, acked := q', q'.released;
    }

    method AfterPublish(ghost h: nat, ghost t: nat) returns (next: u32, count: u32)
      requires head == Wrap(h) && tail == Wrap(t) && t <= h < t + WORD - 1
      ensures next == Wrap(h + 1) && count == h + 1 - t
    {
      hide SlotOf, IsPow2, Wrap, Stored, SlotsSafe, Threshold;
      AddAdvances(h, 1);
      SubIsDistance(h + 1, t);
      next := Add32(head, 1);
      count := Sub32(next, tail);
    }

    /** The stores to the slot header and to the entry or the stamp. */
    method StoreMessage(slot: u32, h: u32, ghost writtenLen: u32, ghost truncatedFlag: bool)
      requires Valid() && q.ready && q.pending.Some? && slot == q.WriteSlot()
      requires PublishedHeader(q, writtenLen, truncatedFlag, h)
      modifies hdr, entries, stamps
      ensures var q' := Fifo.Publish(q, slot, writtenLen, truncatedFlag).0;
              InSlots(q', hdr[..], data[..]) && Linked(laps, q', entries[..], stamps[..])
      ensures hdr[..] == old(hdr[..])[slot := h]
      ensures laps ==> stamps[..] == old(stamps[..])[slot := Wrap(|q.log| + 1)]
    {
      hide SlotOf, IsPow2, Wrap, Stored, SlotsSafe, Threshold, InSlots, Linked, Fifo.Publish;
      assert slot < slots;
      ghost var e0, s0 := entries[..], stamps[..];
      StoreHeader(slot, h, writtenLen, truncatedFlag);
      assert entries[..] == e0 && stamps[..] == s0;
      ghost var h0 := hdr[..];
      StoreLink(slot, writtenLen, truncatedFlag);
      assert hdr[..] == h0;
    }

    method StoreHeader(slot: u32, h: u32, ghost writtenLen: u32, ghost truncatedFlag: bool)
      requires InSlots(q, hdr[..], data[..]) && q.ready && q.pending.Some? && slot == q.WriteSlot()
      requires PublishedHeader(q, writtenLen, truncatedFlag, h)
      modifies hdr
      ensures InSlots(Fifo.Publish(q, slot, writtenLen, truncatedFlag).0, hdr[..], data[..])
      ensures slot < hdr.Length && hdr[..] == old(hdr[..])[slot := h]
    {
      ghost var h0 := hdr[..];
      PublishingStaysInSlots(q, h0, data[..], slot, writtenLen, truncatedFlag, h);
      assert slot < hdr.Length;
      hide SlotOf, IsPow2, Wrap, Stored, SlotsSafe, InSlots, Fifo.Publish;
      hdr[slot] := h;
      assert hdr[..] == h0[slot := h];
    }

    method StoreLink(slot: u32, ghost writtenLen: u32, ghost truncatedFlag: bool)
      requires q.Ok() && Registers() && q.ready && q.pending.Some? && slot == q.WriteSlot()
      requires Linked(laps, q, entries[..], stamps[..])
      requires entries.Length == capacity && stamps.Length == slots
      modifies entries, stamps
      ensures Linked(laps, Fifo.Publish(q, slot, writtenLen, truncatedFlag).0, entries[..], stamps[..])
      ensures laps ==> slot < stamps.Length && stamps[..] == old(stamps[..])[slot := Wrap(|q.log| + 1)]
    {
      hide SlotOf, IsPow2, Wrap, SlotsSafe, InStamps, InEntries, Fifo.Publish;
      ghost var e0, s0 := entries[..], stamps[..];
      if laps {
        PublishingStaysInStamps(q, s0, slot, writtenLen, truncatedFlag);
        StoreStamp(slot, head, 1, |q.log|);
      } else {
        PublishingStaysInEntries(q, e0, slot, writtenLen, truncatedFlag);
        StoreEntry(slot);
      }
    }

    method StoreStamp(slot: u32, position: u32, k: u32, ghost p: nat)
      requires slot < stamps.Length && position == Wrap(p)
      modifies stamps
      ensures stamps[..] == old(stamps[..])[slot := Wrap(p + k)]
    {
      hide SlotOf, IsPow2, Wrap, Stored, SlotsSafe, Threshold;
      AddAdvances(p, k);
      stamps[slot] := Add32(position, k);
    }

    method StoreEntry(slot: u32)
      requires IsPow2(capacity) && mask == capacity - 1 && entries.Length == capacity && head == Wrap(|q.log|)
      modifies entries
      ensures entries[..] == old(entries[..])[SlotOf(capacity, |q.log|) := slot]
    {
      hide SlotOf, IsPow2, Wrap, Stored, SlotsSafe, Threshold;
      MaskIsSlotOf(capacity, |q.log|);
      entries[BitAnd(head, mask)] := slot;
    }

    /** Statistics and `on_slot_added`. */
    method Record(slot: u32, written: u32, truncated: bool, count: u32)
      requires q.slots >= 1 && Registers() && count == q.Count()
      modifies this`stats, this`callbacks, this`q
      ensures q.slots >= 1 && Registers()
      ensures q == old(q).(stats := PublishStats(old(q), truncated),
                           events := old(q).events + [SlotAdded(slot, written, truncated)])
    {
      hide SlotOf, IsPow2, Wrap, Stored, SlotsSafe, Threshold;
      var st := stats.(published := Inc64(stats.published));
      if count > st.highWater { st := st.(highWater := count); }
      if truncated { st := st.(truncated := Inc64(st.truncated)); }
      assert st == PublishStats(q, truncated);
      stats := st;
      callbacks := callbacks + [SlotAdded(slot, written, truncated)];
      q := q.(stats := stats, events := callbacks);
    }

    /** The latched `on_full`. */
    method CrossFull(count: u32)
      requires q.slots >= 1 && Registers() && count == q.Count()
      modifies this`stats, this`callbacks, this`fullLatch, this`q
      ensures q.slots >= 1 && Registers() && q == RaiseFull(old(q))
    {
      hide SlotOf, IsPow2, Wrap, Stored, SlotsSafe, Threshold;
      q := RaiseFull(q);
      if count >= limit && !fullLatch {
        fullLatch := true;
        stats := stats.(fullHits := Add32(stats.fullHits, 1));
        callbacks := callbacks + [OnFull];
      }
    }

    method Abort() returns (e: Err)
      requires Valid()
      modifies this
      ensures Valid() && (q, e) == Fifo.Abort(old(q))
    {
      hide SlotOf, IsPow2, Wrap, SlotsSafe, InSlots, Linked;
      PendingBytes();
      if scratchSize == 0 { return NotInit; }
      if pendingSlot == NO_PENDING { return Inval; }
      pendingSlot, pendingWanted := NO_PENDING, 0;
      q := q.(pending := None);
      Carries(old(q));
      e := Ok;
    }

    method ReadEntry() returns (slot: u32)
      requires Valid() && !laps && q.released < |q.log|
      ensures slot == q.ReadSlot()
    {
      hide SlotOf, IsPow2, Wrap, Stored, SlotsSafe, Threshold;
      MaskIsSlotOf(capacity, q.released);
      assert entries[..][SlotOf(capacity, q.released)] == q.ReadSlot();
      slot := entries[BitAnd(tail, mask)];
    }

    /** The stamp check of the lap build. The mismatch branch does not retry: it reloads the
        head and, the ring being nonempty, goes on. With safe slots it is never taken. */
    method ReadStamp() returns (slot: u32, e: Err)
      requires Valid() && laps && q.released < q.seen
      modifies this`cachedHead, this`q
      ensures Valid() && slot == q.ReadSlot() && e.Ok? && q.released < q.seen
      ensures q == if StampMissed(slot) then old(q).(seen := |old(q).log|) else old(q)
      ensures SlotsSafe(slots, limit) ==> !StampMissed(slot)
    {
      hide SlotOf, IsPow2, Wrap, Stored, SlotsSafe, Threshold;
      SlotIndexIsSlotOf(slots, q.released);
      AddAdvances(q.released, 1);
      slot := SlotIndex(slots, slotsMask, tail);
      if slot >= slots { return slot, Inval; }
      assert SlotsSafe(slots, limit) ==> stamps[..][slot] == Wrap(q.released + 1);
      if stamps[slot] != Add32(tail, 1) {
        ReloadHead();
        Distances();
        if cachedHead == tail { return slot, Empty; }
      }
      e := Ok;
    }

    method ReloadHead()
      requires Valid()
      modifies this`cachedHead, this`q
      ensures Valid() && q == old(q).(seen := |old(q).log|)
    {
      ReadyBit();
      PendingBytes();
      hide SlotOf, IsPow2, Wrap, SlotsSafe, InSlots, Linked, Registers;
      LoadView();
      Carries(old(q));
    }

    method LoadView()
      requires q.Ok() && Registers()
      modifies this`cachedHead, this`q
      ensures q.slots >= 1 && Registers() && q == old(q).(seen := |old(q).log|)
    {
      hide SlotOf, IsPow2, Wrap, SlotsSafe, SlotsMask, HeaderSize;
      ghost var q' := q.(seen := |q.log|);
      cachedHead, q := head, q';
    }

    method ReadHeader(slot: u32) returns (len: u32, truncated: bool)
      requires Valid() && q.released < |q.log| && slot == q.ReadSlot()
      ensures len <= q.cap && HeaderSays(hdr[slot], len, truncated)
      ensures SlotsSafe(slots, limit) ==>
                && len == |q.log[q.released].bytes| && truncated == q.log[q.released].truncated
                && data[slot][..len] == q.log[q.released].bytes
    {
      hide SlotOf, IsPow2, Wrap, SlotsSafe;
      HeaderFields(hdr[slot]);
      len, truncated := HeaderLen(hdr[slot]), HeaderTruncated(hdr[slot]);
      assert hdr[..][SlotOf(slots, q.released)] % 0x8000_0000 <= q.cap;
      assert SlotsSafe(slots, limit) ==> Stored(q, hdr[..], data[..], q.released);
    }

    method Hold(slot: u32)
      requires Valid() && !q.holding && q.released < q.seen && slot == q.ReadSlot()
      modifies this`consumerActive, this`consumerSlot, this`q
      ensures Valid() && q == old(q).(holding := true)
    {
      hide SlotOf, IsPow2, Wrap, SlotsSafe, InSlots, Linked;
      PendingBytes();
      consumerActive, consumerSlot := true, slot;
      q := q.(holding := true);
      Carries(old(q));
    }

    method Consume() returns (e: Err, slot: u32, len: u32, truncated: bool)
      requires Valid()
      modifies this
      ensures Valid() && e == Fifo.Consume(old(q)).1
      ensures q == if e.Ok? && StampMissed(slot) then Fifo.Consume(old(q)).0.(seen := |q.log|)
                   else Fifo.Consume(old(q)).0
      ensures e.Ok? ==> slot == q.ReadSlot() && len <= q.cap && HeaderSays(hdr[slot], len, truncated)
      ensures e.Ok? && SlotsSafe(slots, limit) ==>
                && !StampMissed(slot)
                && len == |q.log[q.released].bytes| && truncated == q.log[q.released].truncated
                && data[slot][..len] == q.log[q.released].bytes
    {
      hide SlotOf, IsPow2, Wrap, SlotsSafe, InSlots, Linked;
      slot, len, truncated := 0, 0, false;
      if scratchSize == 0 { return NotInit, slot, len, truncated; }
      if consumerActive { return Inval, slot, len, truncated; }
      var empty := LookForMessage();
      if empty { return Empty, slot, len, truncated; }
      e, slot, len, truncated := Take();
    }

    method Take() returns (e: Err, slot: u32, len: u32, truncated: bool)
      requires Valid() && !q.holding && q.released < q.seen
      modifies this`cachedHead, this`consumerActive, this`consumerSlot, this`q
      ensures Valid() && e.Ok? && slot == q.ReadSlot() && len <= q.cap && HeaderSays(hdr[slot], len, truncated)
      ensures q == old(q).(seen := if StampMissed(slot) then |q.log| else old(q).seen, holding := true)
      ensures SlotsSafe(slots, limit) ==>
                && !StampMissed(slot)
                && len == |q.log[q.released].bytes| && truncated == q.log[q.released].truncated
                && data[slot][..len] == q.log[q.released].bytes
    {
      hide SlotOf, IsPow2, Wrap, SlotsSafe, InSlots, Linked;
      slot, e := Locate();
      len, truncated := 0, false;
      if !e.Ok? { return; }
      len, truncated := ReadHeader(slot);
      Hold(slot);
    }

    /** The emptiness test against the cached head, reloaded if it shows nothing. */
    method LookForMessage() returns (empty: bool)
      requires Valid() && !q.holding
      modifies this`cachedHead, this`q
      ensures Valid() && q == old(q).(seen := if old(q).released == old(q).seen then |old(q).log| else old(q).seen)
      ensures empty <==> q.released == q.seen
    {
      hide SlotOf, IsPow2, Wrap, SlotsSafe, InSlots, Linked;
      Distances();
      empty := tail == cachedHead;
      if empty {
        ReloadHead();
        Distances();
        empty := tail == cachedHead;
      }
    }

    method Locate() returns (slot: u32, e: Err)
      requires Valid() && q.released < q.seen
      modifies this`cachedHead, this`q
      ensures Valid() && slot == q.ReadSlot() && e.Ok? && q.released < q.seen
      ensures q == if StampMissed(slot) then old(q).(seen := |old(q).log|) else old(q)
      ensures SlotsSafe(slots, limit) ==> !StampMissed(slot)
    {
      hide SlotOf, IsPow2, Wrap, SlotsSafe, InSlots, Linked;
      if laps {
        slot, e := ReadStamp();
      } else {
        slot := ReadEntry();
        e := if slot >= slots then Inval else Ok;
      }
    }

    /** The `low_d` crossing of `rb_release`. */
    method CrossLowD(oldCount: u32, newCount: u32)
      requires q.slots >= 1 && Registers() && oldCount == newCount + 1
      modifies this`stats, this`callbacks, this`fullLatch, this`lowDLatch, this`q
      ensures q.slots >= 1 && Registers() && q == RaiseLowD(old(q), oldCount)
      ensures callbacks == old(callbacks) + (if Crosses(oldCount, old(q.limit), old(q.lowD)) then [OnLowD] else [])
      ensures fullLatch == (old(fullLatch) && !Crosses(oldCount, old(q.limit), old(q.lowD)))
    {
      hide SlotOf, IsPow2, Wrap, Stored, SlotsSafe, Threshold;
      CrossesAtThreshold(oldCount, limit, lowD);
      var oldD, newD := BelowLow(oldCount, limit, lowD), BelowLow(newCount, limit, lowD);
      if !oldD && newD {
        FireLowD();
      } else if oldD && !newD {
        assert false; // the source clears the latch here, which no release reaches
      }
    }

    method FireLowD()
      requires q.slots >= 1 && Registers()
      modifies this`stats, this`callbacks, this`fullLatch, this`lowDLatch, this`q
      ensures q.slots >= 1 && Registers() && q == RaiseLowD(old(q), Threshold(old(q).limit, old(q).lowD))
      ensures callbacks == old(callbacks) + [OnLowD] && !fullLatch
    {
      hide SlotOf, IsPow2, Wrap, Threshold, SlotsMask, HeaderSize;
      ghost var q' := RaiseLowD(q, Threshold(q.limit, q.lowD));
      lowDLatch, fullLatch := true, false;
      stats := stats.(lowDHits := Add32(stats.lowDHits, 1));
      callbacks := callbacks + [OnLowD];
      q := q';
    }

    /** The `low_e` crossing of `rb_release`. */
    method CrossLowE(oldCount: u32, newCount: u32)
      requires q.slots >= 1 && Registers() && oldCount == newCount + 1
      modifies this`stats, this`callbacks, this`lowELatch, this`q
      ensures q.slots >= 1 && Registers() && q == RaiseLowE(old(q), oldCount)
      ensures callbacks == old(callbacks) + (if Crosses(oldCount, old(q.limit), old(q.lowE)) then [OnLowE] else [])
      ensures lowELatch == (old(lowELatch) || Crosses(oldCount, old(q.limit), old(q.lowE)))
    {
      hide SlotOf, IsPow2, Wrap, Stored, SlotsSafe, Threshold;
      CrossesAtThreshold(oldCount, limit, lowE);
      var oldE, newE := BelowLow(oldCount, limit, lowE), BelowLow(newCount, limit, lowE);
      if !oldE && newE {
        FireLowE();
      } else if oldE && !newE {
        assert false; // the source clears the latch here, which no release reaches
      }
    }

    method FireLowE()
      requires q.slots >= 1 && Registers()
      modifies this`stats, this`callbacks, this`lowELatch, this`q
      ensures q.slots >= 1 && Registers() && q == RaiseLowE(old(q), Threshold(old(q).limit, old(q).lowE))
      ensures callbacks == old(callbacks) + [OnLowE] && lowELatch
    {
      hide SlotOf, IsPow2, Wrap, Threshold, SlotsMask, HeaderSize;
      ghost var q' := RaiseLowE(q, Threshold(q.limit, q.lowE));
      lowELatch := true;
      stats := stats.(lowEHits := Add32(stats.lowEHits, 1));
      callbacks := callbacks + [OnLowE];
      q := q';
    }

    method Release(slot: u32) returns (e: Err)
      requires Valid()
      modifies this, stamps
      ensures Valid() && (q, e) == Fifo.Release(old(q), slot)
      ensures e.Ok? ==>
                var left := old(q.seen - q.released);
                q.events == old(q.events) + (if Crosses(left, old(q.limit), old(q.lowD)) then [OnLowD] else [])
                            + (if Crosses(left, old(q.limit), old(q.lowE)) then [OnLowE] else [])
    {
      hide SlotOf, IsPow2, Wrap, Stored, SlotsSafe, Threshold, Crosses;
      if scratchSize == 0 { return NotInit; }
      if !consumerActive || slot != consumerSlot { return Inval; }
      ghost var q0 := q;
      ReleaseEffect(q0, slot);
      ReleaseCallbacks(q0, slot);
      RecycleSlot(slot);
      AdvanceTail(slot);
      ShrinkingStaysInSlots(q0, q, hdr[..], data[..]);
      e := Ok;
    }

    /** The recycling stamp of the lap build. */
    method RecycleSlot(slot: u32)
      requires Valid() && q.ready && q.holding && slot == q.ReadSlot()
      modifies stamps
      ensures Linked(laps, Fifo.Release(q, slot).0, entries[..], stamps[..])
      ensures hdr[..] == old(hdr[..])
    {
      hide SlotOf, IsPow2, Wrap, Stored, SlotsSafe, Threshold;
      ReleaseEffect(q, slot);
      if laps {
        ReleasingStaysInStamps(q, stamps[..], slot);
        StoreStamp(slot, tail, slots, q.released);
      } else {
        ShrinkingStaysInEntries(q, Fifo.Release(q, slot).0, entries[..]);
      }
    }

    method AdvanceTail(slot: u32)
      requires q.Ok() && Registers() && q.ready && q.holding && slot == q.ReadSlot()
      modifies this
      ensures q.slots >= 1 && Registers() && q == Fifo.Release(old(q), slot).0
    {
      hide SlotOf, IsPow2, Wrap, Stored, SlotsSafe, Threshold;
      var oldCount, newCount := StoreTail();
      CrossLowD(oldCount, newCount);
      CrossLowE(oldCount, newCount);
    }

    /** The tail store and the two counts taken from the cached head. */
    method StoreTail() returns (oldCount: u32, newCount: u32)
      requires q.Ok() && Registers() && q.holding
      modifies this`tail, this`consumerActive, this`stats, this`q
      ensures q.slots >= 1 && Registers()
      ensures q == old(q).(released := old(q).released + 1, holding := false,
                           stats := old(q).stats.(consumed := Inc64(old(q).stats.consumed)))
      ensures oldCount == q.seen - old(q).released && newCount == oldCount - 1
    {
      hide SlotOf, IsPow2, Wrap, Stored, SlotsSafe, Threshold;
      oldCount, newCount := AfterRelease(q.released, q.seen);
      AddAdvances(q.released, 1);
      tail := Add32(tail, 1);
      consumerActive := false;
      stats := stats.(consumed := Inc64(stats.consumed));
      q := q.(released := q.released + 1, holding := false, stats := stats);
    }

    method AfterRelease(ghost t: nat, ghost h: nat) returns (oldCount: u32, newCount: u32)
      requires tail == Wrap(t) && cachedHead == Wrap(h) && t < h < t + WORD
      ensures oldCount == h - t && newCount == oldCount - 1
    {
      hide SlotOf, IsPow2, Wrap, Stored, SlotsSafe, Threshold;
      AddAdvances(t, 1);
      SubIsDistance(h, t + 1);
      newCount := Sub32(cachedHead, Add32(tail, 1));
      oldCount := Add32(newCount, 1);
    }

    method Count() returns (n: u32)
      requires Valid()
      ensures n == if q.ready then q.Count() else 0
    {
      hide SlotOf, IsPow2, Wrap, Stored, SlotsSafe, Threshold;
      if scratchSize == 0 { return 0; }
      Distances();
      n := Sub32(head, tail);
    }

    method SetLimit(l: u32) returns (e: Err)
      requires Valid()
      modifies this
      ensures Valid() && (q, e) == Fifo.SetLimit(old(q), l)
    {
      hide SlotOf, IsPow2, Wrap, SlotsSafe, InSlots, Linked;
      PendingBytes();
      if scratchSize == 0 { return NotInit; }
      var n := Count();
      if l == 0 || l > capacity || l > slots || n != 0 { return Inval; }
      limit := l;
      q := q.(limit := l);
      Carries(old(q));
      e := Ok;
    }

    method SetPolicy(p: Policy) returns (e: Err)
      requires Valid()
      modifies this
      ensures Valid() && (q, e) == Fifo.SetPolicy(old(q), p)
    {
      hide SlotOf, IsPow2, Wrap, SlotsSafe, InSlots, Linked;
      PendingBytes();
      if scratchSize == 0 { return NotInit; }
      policy := p;
      q := q.(policy := p);
      Carries(old(q));
      e := Ok;
    }

    method Deinit()
      requires Valid()
      modifies this
      ensures Valid() && q == Fifo.Deinit(old(q))
    {
      hide SlotOf, IsPow2, Wrap, SlotsSafe, InSlots, Linked;
      PendingBytes();
      ghost var q' := Fifo.Deinit(q);
      scratchSize, pendingSlot, consumerActive, q := 0, NO_PENDING, false, q';
      Carries(old(q));
    }
  }
}
