/** How the memory of a ring represents the abstract queue, build by build, and that each
    call keeps it so. */
module Storage {
  import opened Words
  import opened Slots
  import opened Layout
  import opened Fifo

  /** A live position's header and payload are still in its slot. */
  ghost predicate Stored(q: Queue, hdr: seq<u32>, data: seq<seq<Byte>>, p: nat)
    requires q.slots >= 1 && |hdr| == |data| == q.slots && p < |q.log|
  {
    var s, m := SlotOf(q.slots, p), q.log[p];
    HeaderSays(hdr[s], |m.bytes|, m.truncated) && m.bytes <= data[s]
  }

  /** The slots hold the queue. At a slot count that can collide at the counter wrap all that
      is promised of their contents is that no header claims more than the payload area. */
  ghost predicate InSlots(q: Queue, hdr: seq<u32>, data: seq<seq<Byte>>) {
    && q.Ok()
    && |hdr| == |data| == q.slots
    && (forall s :: 0 <= s < q.slots ==> |data[s]| == q.cap)
    && (forall p: nat :: q.released <= p < |q.log| ==> hdr[SlotOf(q.slots, p)] % 0x8000_0000 <= q.cap)
    && (SlotsSafe(q.slots, q.limit) ==> forall p: nat :: q.released <= p < |q.log| ==> Stored(q, hdr, data, p))
    && (q.pending.Some? ==> q.buf == data[q.WriteSlot()])
  }

  /** Default build: the entry of a live position names its slot. */
  ghost predicate InEntries(q: Queue, entries: seq<u32>) {
    && q.Ok() && |entries| == q.capacity
    && forall p: nat :: q.released <= p < |q.log| ==> entries[SlotOf(q.capacity, p)] == SlotOf(q.slots, p)
  }

  /** Lap build: the stamp of a live position is its successor; when the slots divide the
      counter range, the stamp of a free slot is the next position to use it. */
  ghost predicate InStamps(q: Queue, stamps: seq<u32>) {
    && q.Ok() && |stamps| == q.slots
    && (SlotsSafe(q.slots, q.limit) ==>
          forall p: nat :: q.released <= p < |q.log| ==> stamps[SlotOf(q.slots, p)] == Wrap(p + 1))
    && (Divides(q.slots) ==>
          forall p: nat :: |q.log| <= p < q.released + q.slots ==> stamps[SlotOf(q.slots, p)] == Wrap(p))
  }

  /** The build's way from a live position to its slot is intact. */
  ghost predicate Linked(laps: bool, q: Queue, entries: seq<u32>, stamps: seq<u32>) {
    if laps then InStamps(q, stamps) else InEntries(q, entries)
  }

  /** A new ring: any headers and bytes, any entries, slots stamped with their own index. */
  lemma InitialStorage(laps: bool, q: Queue, entries: seq<u32>, stamps: seq<u32>, hdr: seq<u32>, data: seq<seq<Byte>>)
    requires q.Ok() && q.log == [] && q.released == 0 && q.pending.None?
    requires |entries| == q.capacity && |stamps| == |hdr| == |data| == q.slots
    requires forall s :: 0 <= s < q.slots ==> |data[s]| == q.cap && stamps[s] == s
    ensures InSlots(q, hdr, data) && Linked(laps, q, entries, stamps)
  {
    forall p: nat | p < q.slots ensures stamps[SlotOf(q.slots, p)] == Wrap(p) {
      ModUnique(p, q.slots, 0, p);
    }
  }

  // Calls that leave the queue's contents alone

  /** `q'` holds the same messages as `q`, or fewer. */
  ghost predicate Shrinks(q: Queue, q': Queue) {
    && q'.capacity == q.capacity && q'.slots == q.slots && q'.cap == q.cap
    && q'.log == q.log && q.released <= q'.released
    && (q'.limit == q.limit || q.released == |q.log|)
  }

  lemma ShrinkingStaysInSlots(q: Queue, q': Queue, hdr: seq<u32>, data: seq<seq<Byte>>)
    requires InSlots(q, hdr, data) && q'.Ok() && Shrinks(q, q')
    requires q'.pending.Some? ==> q'.buf == data[q'.WriteSlot()]
    ensures InSlots(q', hdr, data)
  {
    forall p: nat | q'.released <= p < |q'.log| && SlotsSafe(q'.slots, q'.limit)
      ensures Stored(q', hdr, data, p)
    {
      assert Stored(q, hdr, data, p);
    }
  }

  lemma ShrinkingStaysInEntries(q: Queue, q': Queue, entries: seq<u32>)
    requires InEntries(q, entries) && q'.Ok() && Shrinks(q, q')
    ensures InEntries(q', entries)
  {
  }

  // Writing and publishing

  lemma PendingSlotIsFree(q: Queue, p: nat)
    requires q.Ok() && q.Count() < q.limit && SlotsSafe(q.slots, q.limit) && q.released <= p < |q.log|
    ensures SlotOf(q.slots, p) != q.WriteSlot()
  {
    CloseIsDistinct(q.slots, q.limit, p, |q.log|);
  }

  lemma WritingStaysInSlots(q: Queue, hdr: seq<u32>, data: seq<seq<Byte>>, bytes: seq<Byte>)
    requires InSlots(q, hdr, data) && q.pending.Some? && |bytes| <= q.cap
    ensures InSlots(Fifo.WritePayload(q, bytes), hdr, data[q.WriteSlot() := bytes + q.buf[|bytes|..]])
  {
    var q' := Fifo.WritePayload(q, bytes);
    var data' := data[q.WriteSlot() := bytes + q.buf[|bytes|..]];
    forall p: nat | q.released <= p < |q.log| && SlotsSafe(q.slots, q.limit)
      ensures Stored(q', hdr, data', p)
    {
      assert Stored(q, hdr, data, p);
      PendingSlotIsFree(q, p);
    }
  }

  /** The header word of the message that a successful publish appends. */
  ghost predicate PublishedHeader(q: Queue, written: u32, truncated: bool, h: u32)
    requires q.pending.Some?
  {
    HeaderSays(h, Min(written, q.cap) % 0x8000_0000, truncated || written > q.cap || q.pending.value > q.cap)
  }

  lemma PublishedIsStored(q: Queue, hdr: seq<u32>, data: seq<seq<Byte>>,
                          slot: u32, written: u32, truncated: bool, h: u32)
    requires InSlots(q, hdr, data) && q.ready && q.pending.Some? && slot == q.WriteSlot()
    requires PublishedHeader(q, written, truncated, h)
    ensures Stored(Fifo.Publish(q, slot, written, truncated).0, hdr[slot := h], data, |q.log|)
  {
    PublishEffect(q, slot, written, truncated);
  }

  lemma OthersStayStored(q: Queue, q': Queue, hdr: seq<u32>, data: seq<seq<Byte>>, h: u32, p: nat)
    requires InSlots(q, hdr, data) && q.Count() < q.limit && SlotsSafe(q.slots, q.limit)
    requires q'.slots == q.slots && |q.log| <= |q'.log| && q'.log[..|q.log|] == q.log && q.released <= p < |q.log|
    ensures Stored(q', hdr[q.WriteSlot() := h], data, p)
  {
    assert Stored(q, hdr, data, p);
    PendingSlotIsFree(q, p);
    assert q'.log[p] == q'.log[..|q.log|][p];
  }

  lemma PublishingStaysInSlots(q: Queue, hdr: seq<u32>, data: seq<seq<Byte>>,
                               slot: u32, written: u32, truncated: bool, h: u32)
    requires InSlots(q, hdr, data) && q.ready && q.pending.Some? && slot == q.WriteSlot()
    requires PublishedHeader(q, written, truncated, h)
    ensures InSlots(Fifo.Publish(q, slot, written, truncated).0, hdr[slot := h], data)
  {
    PublishEffect(q, slot, written, truncated);
    var q', hdr' := Fifo.Publish(q, slot, written, truncated).0, hdr[slot := h];
    assert h % 0x8000_0000 <= q.cap;
    forall p: nat | q'.released <= p < |q'.log| && SlotsSafe(q'.slots, q'.limit)
      ensures Stored(q', hdr', data, p)
    {
      if p < |q.log| {
        OthersStayStored(q, q', hdr, data, h, p);
      } else {
        PublishedIsStored(q, hdr, data, slot, written, truncated, h);
      }
    }
  }

  lemma PublishingStaysInEntries(q: Queue, entries: seq<u32>, slot: u32, written: u32, truncated: bool)
    requires InEntries(q, entries) && q.ready && q.pending.Some? && slot == q.WriteSlot()
    ensures InEntries(Fifo.Publish(q, slot, written, truncated).0,
                      entries[SlotOf(q.capacity, |q.log|) := slot])
  {
    PublishEffect(q, slot, written, truncated);
    Pow2SlotsAreSafe(q.capacity, q.limit);
    forall p: nat | q.released <= p < |q.log|
      ensures SlotOf(q.capacity, p) != SlotOf(q.capacity, |q.log|)
    {
      CloseIsDistinct(q.capacity, q.limit, p, |q.log|);
    }
  }

  lemma PublishingStaysInStamps(q: Queue, stamps: seq<u32>, slot: u32, written: u32, truncated: bool)
    requires InStamps(q, stamps) && q.ready && q.pending.Some? && slot == q.WriteSlot()
    ensures InStamps(Fifo.Publish(q, slot, written, truncated).0, stamps[slot := Wrap(|q.log| + 1)])
  {
    PublishEffect(q, slot, written, truncated);
    hide SlotOf, Wrap, SlotsSafe, Divides, IsPow2, Fifo.Publish, Visible;
    if SlotsSafe(q.slots, q.limit) {
      forall p: nat | q.released <= p < |q.log| ensures SlotOf(q.slots, p) != slot {
        PendingSlotIsFree(q, p);
      }
    }
    if Divides(q.slots) {
      forall p: nat | |q.log| < p < q.released + q.slots ensures SlotOf(q.slots, p) != slot {
        LapIsDistinct(q.slots, |q.log|, p);
      }
    }
  }

  // Releasing

  lemma ReleasingStaysInStamps(q: Queue, stamps: seq<u32>, slot: u32)
    requires InStamps(q, stamps) && q.ready && q.holding && slot == q.ReadSlot()
    ensures InStamps(Fifo.Release(q, slot).0, stamps[slot := Wrap(q.released + q.slots)])
  {
    ReleaseEffect(q, slot);
    hide SlotOf, Wrap, SlotsSafe, Divides, IsPow2, Fifo.Release;
    var stamps' := stamps[slot := Wrap(q.released + q.slots)];
    if SlotsSafe(q.slots, q.limit) {
      forall p: nat | q.released < p < |q.log| ensures SlotOf(q.slots, p) != slot {
        CloseIsDistinct(q.slots, q.limit, q.released, p);
      }
    }
    if Divides(q.slots) {
      forall p: nat | |q.log| <= p < q.released + 1 + q.slots ensures stamps'[SlotOf(q.slots, p)] == Wrap(p) {
        if p < q.released + q.slots {
          LapIsDistinct(q.slots, q.released, p);
        } else {
          NextLapSameSlot(q.slots, q.released);
        }
      }
    }
  }

  lemma ShrinkingStaysInStamps(q: Queue, q': Queue, stamps: seq<u32>)
    requires InStamps(q, stamps) && q'.Ok() && Shrinks(q, q') && q'.released == q.released
    ensures InStamps(q', stamps)
  {
  }
}
