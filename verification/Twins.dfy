/** The two builds side by side: with the same payload capacity they answer every call the same
    in a safe geometry, and in any geometry if the low-water callbacks are off. In a geometry
    that is not safe neither can be trusted with the bytes. */
module Twins {
  import opened Words
  import opened Slots
  import opened Fifo
  import opened Storage
  import opened Calls
  import opened Rings
  import opened Batches
  import opened Views

  /** The ring and its memory, as the abstract queue knows them. */
  lemma RingFits(r: Ring)
    requires r.Valid()
    ensures Fits(r.q, r.data[..]) && |r.hdr[..]| == r.q.slots && r.q.lowD == r.lowD
    ensures r.q.slots == r.slots && r.q.limit == r.limit
  {
    r.PendingBytes();
  }

  /** The calls of the producer are those of the abstract queue in every geometry. */
  method ProducerCall(r: Ring, c: Call) returns (a: Reply)
    requires r.Valid() && (c.Acquire? || c.Write? || c.Publish? || c.Abort?)
    modifies r, r.hdr, r.entries, r.stamps, r.data
    ensures r.Valid() && (r.q, r.data[..], a) == Answer(old(r.q), old(r.data[..]), c)
    ensures |old(r.hdr[..])| == old(r.q).slots && Headers(old(r.q), old(r.hdr[..]), r.hdr[..], c)
  {
    hide SlotOf, Wrap, IsPow2, SlotsSafe, InStamps, InEntries, Stored;
    match c
    case Acquire(wanted) =>
      var e, slot, cap := r.Acquire(wanted);
      a := if e.Ok? then Reply(e, slot, cap, false, []) else Plain(e);
    case Write(bytes) =>
      a := Plain(Inval);
      if r.pendingSlot != NO_PENDING && |bytes| <= r.slotSize - HeaderSize(r.laps) {
        r.WritePayload(bytes);
        a := Plain(Ok);
      }
    case Publish(slot, written, truncated) =>
      var e := r.Publish(slot, written, truncated);
      a := Plain(e);
    case Abort =>
      var e := r.Abort();
      a := Plain(e);
  }

  /** The calls of the consumer are those of the abstract queue in every geometry, but for what
      the slot holds and, in the lap build, for the view. */
  method ConsumerCall(r: Ring, c: Call) returns (a: Reply)
    requires r.Valid() && !(c.Acquire? || c.Write? || c.Publish? || c.Abort?)
    modifies r, r.stamps
    ensures r.Valid() && r.data[..] == old(r.data[..]) && r.hdr[..] == old(r.hdr[..])
    ensures Observed(old(r.q), old(r.data[..]), old(r.hdr[..]), c, r.q, r.data[..], a, old(r.IsSafe()))
  {
    RingFits(r);
    hide SlotOf, Wrap, IsPow2, SlotsSafe, InStamps, InEntries, Stored;
    match c
    case Consume =>
      a := Take(r);
    case Release(slot) =>
      var e := r.Release(slot);
      a := Plain(e);
    case SetLimit(limit) =>
      var e := r.SetLimit(limit);
      a := Plain(e);
    case SetPolicy(policy) =>
      var e := r.SetPolicy(policy);
      a := Plain(e);
    case Count =>
      var n := r.Count();
      a := Reply(Ok, 0, n, false, []);
  }

  method Take(r: Ring) returns (a: Reply)
    requires r.Valid()
    modifies r
    ensures r.Valid()
    ensures Observed(old(r.q), old(r.data[..]), old(r.hdr[..]), Consume, r.q, r.data[..], a, old(r.IsSafe()))
  {
    RingFits(r);
    ghost var q := r.q;
    hide SlotOf, Wrap, IsPow2, SlotsSafe, InSlots, Linked, Observed, Answer, Ring.Registers, Fits, Fifo.Consume;
    var e, slot, len, truncated := r.Consume();
    ConsumeConcludes(q, r.data[..], r.hdr[..], e, slot, len, truncated, r.q, r.IsSafe());
    a := if e.Ok? then Reply(e, slot, len, truncated, r.data[slot][..len]) else Plain(e);
  }

  /** One call on a ring of either build. */
  method Perform(r: Ring, c: Call) returns (a: Reply)
    requires r.Valid()
    modifies r, r.hdr, r.entries, r.stamps, r.data
    ensures r.Valid()
    ensures Observed(old(r.q), old(r.data[..]), old(r.hdr[..]), c, r.q, r.data[..], a, old(r.IsSafe()))
    ensures Headers(old(r.q), old(r.hdr[..]), r.hdr[..], c)
  {
    RingFits(r);
    hide SlotOf, Wrap, IsPow2, SlotsSafe, InSlots, Linked, Answer, Ring.Registers;
    if c.Acquire? || c.Write? || c.Publish? || c.Abort? {
      a := ProducerCall(r, c);
    } else {
      a := ConsumerCall(r, c);
    }
  }

  // Bisimilarity

  /** Two rings, one of each build, that nobody can tell apart by calling them. */
  ghost predicate Alike(r0: Ring, r1: Ring)
    reads r0, r0.hdr, r0.entries, r0.stamps, r0.data, r1, r1.hdr, r1.entries, r1.stamps, r1.data
  {
    && r0.Valid() && r1.Valid() && SameButView(r0.q, r1.q) && r0.data[..] == r1.data[..]
    && r0.hdr.Length == r1.hdr.Length == r0.q.slots && SameHeaders(r0.q, r0.hdr[..], r1.hdr[..])
  }

  ghost predicate Apart(r0: Ring, r1: Ring) {
    {r0 as object, r0.hdr, r0.entries, r0.stamps, r0.data} !! {r1 as object, r1.hdr, r1.entries, r1.stamps, r1.data}
  }

  /** With the low-water callbacks off, in any geometry: the same call gives the same reply and
      leaves the rings alike. */
  method PerformBoth(r0: Ring, r1: Ring, c: Call) returns (a0: Reply, a1: Reply)
    requires Alike(r0, r1) && Apart(r0, r1) && r0.lowD == 0
    modifies r0, r0.hdr, r0.entries, r0.stamps, r0.data
    modifies r1, r1.hdr, r1.entries, r1.stamps, r1.data
    ensures Alike(r0, r1) && a0 == a1
  {
    RingFits(r0);
    RingFits(r1);
    ghost var q0, q1, data, h0, h1 := r0.q, r1.q, r0.data[..], r0.hdr[..], r1.hdr[..];
    hide SlotOf, Wrap, IsPow2, SlotsSafe, InSlots, Linked, Ring.Registers, Headers, SameHeaders, Observed, Fits;
    a0 := Perform(r0, c);
    assert r1.data[..] == data && r1.hdr[..] == h1;
    a1 := Perform(r1, c);
    StillAlike(r0, r1, q0, q1, h0, h1, data, c, a0, a1);
  }

  lemma StillAlike(r0: Ring, r1: Ring, q0: Queue, q1: Queue, h0: seq<u32>, h1: seq<u32>, data: seq<seq<Byte>>,
                   c: Call, a0: Reply, a1: Reply)
    requires r0.Valid() && r1.Valid() && q0.Ok() && q1.Ok() && SameButView(q0, q1) && q0.lowD == 0
    requires |h0| == |h1| == q0.slots && SameHeaders(q0, h0, h1)
    requires Headers(q0, h0, r0.hdr[..], c) && Headers(q1, h1, r1.hdr[..], c)
    requires exists safe :: Observed(q0, data, h0, c, r0.q, r0.data[..], a0, safe)
    requires exists safe :: Observed(q1, data, h1, c, r1.q, r1.data[..], a1, safe)
    ensures Alike(r0, r1) && a0 == a1
  {
    RingFits(r0);
    RingFits(r1);
    CallIgnoresView(q0, q1, data, h0, h1, c);
    hide SlotOf, Wrap, IsPow2, SlotsSafe, InSlots, Linked, Ring.Registers, Headers, SameHeaders, Answer;
    assert SameButView(r0.q, Answer(q0, data, c).0);
    HeadersStaySame(q0, q1, r0.q, h0, h1, r0.hdr[..], r1.hdr[..], data, c);
  }

  predicate SafeLimits(slots: u32, calls: seq<Call>)
    requires slots >= 1
  {
    forall c :: c in calls ==> SafeCall(slots, c)
  }

  predicate SafeCall(slots: u32, c: Call)
    requires slots >= 1
  {
    c.SetLimit? ==> SlotsSafe(slots, c.limit)
  }

  /** In a safe geometry, whatever the callbacks: both are the abstract queue. */
  method PerformSafely(r0: Ring, r1: Ring, c: Call) returns (a0: Reply, a1: Reply)
    requires r0.Valid() && r1.Valid() && Apart(r0, r1) && r0.q == r1.q && r0.data[..] == r1.data[..]
    requires r0.IsSafe() && SafeCall(r0.slots, c)
    modifies r0, r0.hdr, r0.entries, r0.stamps, r0.data
    modifies r1, r1.hdr, r1.entries, r1.stamps, r1.data
    ensures r0.Valid() && r1.Valid() && r0.q == r1.q && r0.data[..] == r1.data[..] && a0 == a1
    ensures r0.IsSafe()
  {
    RingFits(r0);
    RingFits(r1);
    ghost var q, data := r0.q, r0.data[..];
    LimitStaysSafe(q, data, c);
    hide SlotOf, Wrap, IsPow2, SlotsSafe, InSlots, Linked, Ring.Registers, Headers, Observe, Answer;
    a0 := Perform(r0, c);
    assert r1.data[..] == data;
    a1 := Perform(r1, c);
    RingFits(r0);
  }

  /** The builds are bisimilar for every caller: two rings that hold the same queue and payload
      memory, one of each build, give the same replies to any sequence of calls, make the same
      callbacks and end with the same payload memory. Either the geometry is safe, for the
      limits set on the way too, or the low-water callbacks are off. */
  method Lockstep(r0: Ring, r1: Ring, calls: seq<Call>) returns (a0: seq<Reply>, a1: seq<Reply>)
    requires r0.Valid() && r1.Valid() && Apart(r0, r1) && r0.laps != r1.laps
    requires r0.q == r1.q && r0.data[..] == r1.data[..]
    requires || (r0.IsSafe() && SafeLimits(r0.slots, calls))
             || (r0.lowD == 0 && Alike(r0, r1))
    modifies r0, r0.hdr, r0.entries, r0.stamps, r0.data
    modifies r1, r1.hdr, r1.entries, r1.stamps, r1.data
    ensures r0.Valid() && r1.Valid() && a0 == a1 && |a0| == |calls|
    ensures r0.q.events == r1.q.events && r0.data[..] == r1.data[..] && SameButView(r0.q, r1.q)
  {
    hide SlotOf, Wrap, IsPow2, SlotsSafe, InSlots, Linked, Ring.Registers, SameHeaders;
    RingFits(r0);
    a0, a1 := [], [];
    var safe := r0.IsSafe() && SafeLimits(r0.slots, calls);
    for i := 0 to |calls|
      invariant r0.Valid() && r1.Valid() && a0 == a1 && |a0| == i
      invariant SameButView(r0.q, r1.q) && r0.data[..] == r1.data[..]
      invariant if safe then r0.q == r1.q && r0.IsSafe() else Alike(r0, r1)
    {
      var x, y;
      if safe {
        x, y := PerformSafely(r0, r1, calls[i]);
      } else {
        x, y := PerformBoth(r0, r1, calls[i]);
      }
      a0, a1 := a0 + [x], a1 + [y];
    }
  }

  // The counter wrap

  /** Sends one byte: acquire, write, publish. */
  method SendByte(r: Ring, b: Byte) returns (slot: u32)
    requires r.Valid() && r.q.ready && r.q.pending.None? && r.q.Count() < r.q.limit
    modifies r, r.hdr, r.entries, r.stamps, r.data
    ensures r.Valid() && r.q.ready && r.q.pending.None? && r.q.limit == old(r.q.limit)
    ensures r.q.released == old(r.q.released) && r.q.holding == old(r.q.holding) && r.q.seen == old(r.q.seen)
    ensures r.q.log == old(r.q.log) + [Message([b], false)]
    ensures slot == old(r.q.WriteSlot()) && r.data.Length == r.slots && r.data[slot] != [] && r.data[slot][0] == b
    ensures forall s :: 0 <= s < r.slots && s != slot ==> r.data[s] == old(r.data[s])
    ensures r.laps ==> slot < r.stamps.Length && r.stamps[slot] == Wrap(|r.q.log|)
  {
    hide SlotOf, Wrap, IsPow2, SlotsSafe, InStamps, InEntries, Stored;
    var e, s, cap := r.Acquire(0);
    slot := s;
    r.WritePayload([b]);
    PublishEffect(r.q, slot, 1, false);
    var _ := r.Publish(slot, 1, false);
  }

  /** Receives one message: consume, release. Before the wrap, or with nothing in view, the
      consumer's view afterwards is the whole log. */
  method Receive(r: Ring)
    requires r.Valid() && r.q.ready && !r.q.holding && r.q.Count() > 0
    modifies r, r.stamps
    ensures r.Valid() && r.q.ready && !r.q.holding && r.q.limit == old(r.q.limit)
    ensures r.q.released == old(r.q.released) + 1 && r.q.log == old(r.q.log) && r.q.pending == old(r.q.pending)
    ensures old(r.q.seen) == old(r.q.released) ==> r.q.seen == |r.q.log|
  {
    hide SlotOf, Wrap, IsPow2, SlotsSafe, InSlots, Linked;
    var e, slot, len, truncated := r.Consume();
    GiveBack(r, slot);
  }

  /** A ring as `rb_init` leaves it. */
  ghost predicate IsNew(r: Ring)
    reads r, r.hdr, r.entries, r.stamps, r.data
  {
    && r.Valid() && r.q.ready && r.q.pending.None? && !r.q.holding
    && r.q.log == [] && r.q.released == 0 && r.q.seen == 0
  }

  method RoundTrips(r: Ring, n: nat)
    requires IsNew(r)
    modifies r, r.hdr, r.entries, r.stamps, r.data
    ensures r.Valid() && r.q.ready && r.q.pending.None? && !r.q.holding && r.q.limit == old(r.q.limit)
    ensures |r.q.log| == r.q.released == r.q.seen == n
  {
    hide SlotOf, Wrap, IsPow2, InSlots, Linked, Ring.Registers;
    for i := 0 to n
      invariant r.Valid() && r.q.ready && r.q.pending.None? && !r.q.holding && r.q.limit == old(r.q.limit)
      invariant |r.q.log| == r.q.released == r.q.seen == i
    {
      var _ := SendByte(r, 0);
      Receive(r);
    }
  }

  /** Sends `n` zero bytes. */
  method SendZeros(r: Ring, n: nat)
    requires r.Valid() && r.q.ready && r.q.pending.None? && r.q.Count() + n <= r.q.limit
    modifies r, r.hdr, r.entries, r.stamps, r.data
    ensures r.Valid() && r.q.ready && r.q.pending.None? && r.q.limit == old(r.q.limit)
    ensures r.q.released == old(r.q.released) && r.q.holding == old(r.q.holding) && r.q.seen == old(r.q.seen)
    ensures old(r.q.log) <= r.q.log && |r.q.log| == |old(r.q.log)| + n
  {
    hide SlotOf, Wrap, IsPow2, InSlots, Linked, Ring.Registers;
    for i := 0 to n
      invariant r.Valid() && r.q.ready && r.q.pending.None? && r.q.limit == old(r.q.limit)
      invariant r.q.released == old(r.q.released) && r.q.holding == old(r.q.holding) && r.q.seen == old(r.q.seen)
      invariant old(r.q.log) <= r.q.log && |r.q.log| == |old(r.q.log)| + i
    {
      var _ := SendByte(r, 0);
    }
  }

  lemma Geometry(r: Ring)
    requires r.Valid()
    ensures 1 <= r.limit == r.q.limit <= r.q.slots == r.slots
  {
  }

  /** A stamp of a later position in the slot at the tail is a mismatch. */
  lemma Missed(r: Ring, slot: u32, later: nat)
    requires r.Valid() && r.laps && slot < r.stamps.Length && r.stamps[slot] == Wrap(later)
    requires r.q.released + 1 < later < r.q.released + WORD
    ensures r.StampMissed(slot)
  {
    hide IsPow2, SlotOf, SlotsSafe, InSlots, Linked;
    AddAdvances(r.q.released, 1);
    SubIsDistance(later, r.q.released + 1);
  }

  /** In every geometry that is not safe, whichever the build, there is a run of ordinary
      calls on a new ring after which the consumer is handed a slot that a later message has
      overwritten: the message at the tail is the byte 1 and its slot holds the byte 2. In the
      lap build the stamp check does fail there, and the consumer goes on regardless. */
  method WrapCollision(r: Ring) returns (slot: u32)
    requires IsNew(r) && !SlotsSafe(r.slots, r.limit)
    modifies r, r.hdr, r.entries, r.stamps, r.data
    ensures r.Valid() && r.q.holding && slot == r.q.ReadSlot() && slot < r.data.Length
    ensures r.q.log[r.q.released] == Message([1], false)
    ensures r.data[slot] != [] && r.data[slot][0] == 2
    ensures r.laps ==> r.StampMissed(slot)
  {
    hide Wrap, IsPow2, SlotsSafe, InSlots, Linked, SlotOf, Ring.Registers, Ring.StampMissed;
    Geometry(r);
    Collision(r.slots, r.limit);
    var apart := WORD % r.slots;
    RoundTrips(r, WORD - 1);
    slot := SendByte(r, 1);
    SendZeros(r, apart - 1);
    Geometry(r);
    slot := SendByte(r, 2);
    Geometry(r);
    var e, s, _, _ := r.Consume();
    slot := s;
    if r.laps { Missed(r, slot, WORD + apart); }
  }
}
