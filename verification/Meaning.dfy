/** What each call of the abstract queue promises its caller, said without the call's own
    definition: which answer it gives when, which callbacks it makes, and what a configuration
    becomes. */
module Meaning {
  import opened Words
  import opened Slots
  import opened Layout
  import opened Fifo

  // Answers

  /** A request that finds the ring ready, without a grant and with room is refused for its size
      exactly under the dropping policy; FULL is answered exactly at the limit and counted. */
  lemma AcquireAnswers(q: Queue, wanted: u32, stale: seq<Byte>)
    requires q.Ok()
    ensures var (q', e) := Fifo.Acquire(q, wanted, stale);
            && (e == NotInit <==> !q.ready)
            && (e == Inval <==> q.ready && q.pending.Some?)
            && (e == Full <==> q.ready && q.pending.None? && q.Count() == q.limit)
            && (q.ready && q.pending.None? && q.Count() < q.limit ==>
                  (e == Ok || e == Oversize) && (e == Ok <==> wanted <= q.cap || q.policy == Truncate))
            && (e == Ok ==> q' == q.(pending := Some(wanted), buf := stale))
            && (e == Full ==> q' == q.(stats := q.stats.(fullAttempts := (q.stats.fullAttempts + 1) % WORD64)))
            && (e != Ok && e != Full ==> q' == q)
  {
    hide SlotOf, IsPow2;
  }

  /** EMPTY is answered exactly when nothing is held and nothing is left; otherwise the oldest
      message is held, and the view covers it. */
  lemma ConsumeAnswers(q: Queue)
    requires q.Ok()
    ensures var (q', e) := Fifo.Consume(q);
            && (e == NotInit <==> !q.ready)
            && (e == Inval <==> q.ready && q.holding)
            && (e == Empty <==> q.ready && !q.holding && q.Count() == 0)
            && (e == Ok <==> q.ready && !q.holding && q.Count() > 0)
            && q' == q.(holding := q.holding || e == Ok, seen := q'.seen)
            && (q.ready && !q.holding && q.seen == q.released ==> q'.seen == |q.log|)
            && (!q.ready || q.holding || q.seen != q.released ==> q'.seen == q.seen)
  {
    hide SlotOf, IsPow2;
  }

  lemma AbortAnswers(q: Queue)
    ensures var (q', e) := Fifo.Abort(q);
            && (e == NotInit <==> !q.ready) && (e == Inval <==> q.ready && q.pending.None?)
            && (e == NotInit || e == Inval || e == Ok)
            && q' == if e == Ok then q.(pending := None) else q
  {
  }

  /** The limit is set exactly on a ready, empty ring, to a value from one up to what the ring and
      the scratch area hold. */
  lemma SetLimitAnswers(q: Queue, limit: u32)
    ensures var (q', e) := Fifo.SetLimit(q, limit);
            && (e == NotInit <==> !q.ready)
            && (e == Ok <==> q.ready && 1 <= limit <= q.capacity && limit <= q.slots && q.Count() == 0)
            && (e == NotInit || e == Inval || e == Ok)
            && q' == if e == Ok then q.(limit := limit) else q
  {
  }

  lemma SetPolicyAnswers(q: Queue, policy: Policy)
    ensures var (q', e) := Fifo.SetPolicy(q, policy);
            e == (if q.ready then Ok else NotInit) && q' == if e == Ok then q.(policy := policy) else q
  {
  }

  /** Which publish and which release fail, and how. */
  lemma MovingAnswers(q: Queue, slot: u32, written: u32, truncated: bool)
    requires q.Ok()
    ensures var e := Fifo.Publish(q, slot, written, truncated).1;
            && (e == NotInit <==> !q.ready) && (e == Ok <==> q.ready && q.pending.Some? && slot == q.WriteSlot())
            && (e == NotInit || e == Inval || e == Ok)
    ensures var e := Fifo.Release(q, slot).1;
            && (e == NotInit <==> !q.ready) && (e == Ok <==> q.ready && q.holding && slot == q.ReadSlot())
            && (e == NotInit || e == Inval || e == Ok)
  {
    hide SlotOf, IsPow2;
  }

  // Callbacks

  /** The messages in view go below a share of the limit with the next release. */
  predicate Crosses(left: int, limit: nat, percent: nat) {
    left >= 1 && !BelowLow(left, limit, percent) && BelowLow(left - 1, limit, percent)
  }

  /** `below_low` compares with that share of the limit. */
  lemma BelowLowIsShare(count: nat, limit: nat, percent: nat)
    ensures BelowLow(count, limit, percent) <==> (count as real) < (limit as real) * (percent as real) / 100.0
  {
    var m := limit * percent;
    assert m as real == (limit as real) * (percent as real);
    if percent == 0 { assert m == 0; }
  }

  lemma CrossesAtThreshold(left: int, limit: nat, percent: nat)
    requires left >= 1
    ensures Crosses(left, limit, percent) <==> left == Threshold(limit, percent)
  {
    BelowLowIsThreshold(left, limit, percent);
    BelowLowIsThreshold(left - 1, limit, percent);
  }

  /** A successful publish announces the message and, if it fills the queue with the latch clear,
      calls `on_full`; nothing else. */
  lemma PublishCallbacks(q: Queue, slot: u32, written: u32, truncated: bool)
    requires q.Ok() && q.ready && q.pending.Some? && slot == q.WriteSlot()
    ensures var q' := Fifo.Publish(q, slot, written, truncated).0;
            var len := if written < q.cap then written else q.cap;
            var full := !q.fullLatch && |q.log| + 1 == q.released + q.limit;
            && q'.events == q.events
                            + [SlotAdded(slot, len, truncated || written > q.cap || q.pending.value > q.cap)]
                            + (if full then [OnFull] else [])
            && q'.stats.fullHits == (if full then Wrap(q.stats.fullHits + 1) else q.stats.fullHits)
            && q'.stats.lowDHits == q.stats.lowDHits && q'.stats.lowEHits == q.stats.lowEHits
            && q'.stats.fullAttempts == q.stats.fullAttempts
  {
    hide SlotOf, IsPow2;
  }

  /** A successful release calls `on_low_d` and then `on_low_e`, each exactly when the view goes
      below its own share of the limit. */
  lemma ReleaseCallbacks(q: Queue, slot: u32)
    requires q.Ok() && q.ready && q.holding && slot == q.ReadSlot()
    ensures var q', left := Fifo.Release(q, slot).0, q.seen - q.released;
            var d, e := Crosses(left, q.limit, q.lowD), Crosses(left, q.limit, q.lowE);
            && q'.events == q.events + (if d then [OnLowD] else []) + (if e then [OnLowE] else [])
            && q'.lowDLatch == (q.lowDLatch || d) && q'.lowELatch == (q.lowELatch || e)
            && q'.fullLatch == (q.fullLatch && !d)
            && q'.stats == q.stats.(consumed := (q.stats.consumed + 1) % WORD64,
                                    lowDHits := if d then Wrap(q.stats.lowDHits + 1) else q.stats.lowDHits,
                                    lowEHits := if e then Wrap(q.stats.lowEHits + 1) else q.stats.lowEHits)
  {
    CrossesAtThreshold(q.seen - q.released, q.limit, q.lowD);
    CrossesAtThreshold(q.seen - q.released, q.limit, q.lowE);
    hide SlotOf, IsPow2, Threshold, Crosses;
  }

  // Configurations

  /** The size given, or the default for none. */
  predicate Chosen(size: u32, given: u32, standard: u32) {
    (given != 0 ==> size == given) && (given == 0 ==> size == standard)
  }

  /** The limit is the least of the capacity, the slots and what is asked for, if anything is. */
  predicate Clamped(limit: u32, capacity: u32, slots: u32, given: u32) {
    && limit <= capacity && limit <= slots && (given != 0 ==> limit <= given)
    && (limit == capacity || limit == slots || (given != 0 && limit == given))
  }

  /** A new ring does what the configuration asks for. */
  predicate AsConfigured(q: Queue, cfg: Config, hdrSize: u32) {
    && Chosen(q.capacity, cfg.capacity, 64) && Chosen(q.slots, cfg.slots, 64)
    && q.cap + hdrSize < WORD && Chosen(q.cap + hdrSize, cfg.slotSize, 2048)
    && Clamped(q.limit, q.capacity, q.slots, cfg.limit)
    && q.lowD == cfg.lowD && q.lowE == cfg.lowE && q.policy == cfg.policy
    && q.log == [] && q.released == 0 && q.seen == 0 && q.pending.None? && !q.holding
    && !q.fullLatch && !q.lowDLatch && !q.lowELatch && q.events == [] && q.stats == ZERO_STATS
  }

  lemma InitialMeans(cfg: Config, hdrSize: u32)
    requires Resolve(cfg).slotSize > hdrSize
    ensures AsConfigured(Initial(Resolve(cfg), hdrSize), cfg, hdrSize)
  {
  }

  /** Every slot lies inside the scratch area. */
  ghost predicate SlotsFit(slots: nat, stride: nat, scratch: nat) {
    forall i: nat :: i < slots ==> SlotStart(stride, i) + stride <= scratch
  }

  /** A power of two from 2 on. */
  ghost predicate GoodCapacity(capacity: nat) {
    exists k: nat :: k >= 1 && capacity == Pow2(k)
  }

  /** What `rb_init` asks of a configuration and of the memory it is given. */
  ghost predicate Sound(cfg: Config, hdrSize: u32, align: nat, ringAligned: bool, scratchAligned: bool, scratch: nat)
    requires align >= 1
  {
    && ringAligned && scratchAligned
    && (cfg.capacity == 0 || GoodCapacity(cfg.capacity))
    && (cfg.slotSize == 0 || hdrSize < cfg.slotSize) && cfg.lowE <= cfg.lowD <= 100
    && SlotsFit(if cfg.slots == 0 then 64 else cfg.slots,
                Stride(if cfg.slotSize == 0 then 2048 else cfg.slotSize, align), scratch)
  }

  lemma CapacityExactly(capacity: u32)
    ensures IsPow2(capacity) && capacity >= 2 <==> GoodCapacity(capacity)
  {
    hide IsPow2;
    IsPow2Exactly(capacity);
    assert Pow2(0) == 1;
    if k: nat :| capacity == Pow2(k) && capacity >= 2 { assert k >= 1; }
    if k: nat :| k >= 1 && capacity == Pow2(k) { Pow2Grows(1, k); assert Pow2(1) == 2; }
  }

  /** The checks accept exactly those. */
  lemma AcceptableExactly(cfg: Config, hdrSize: u32, align: nat, ringAligned: bool, scratchAligned: bool, scratch: nat)
    requires align >= 1 && hdrSize < 2048
    ensures Acceptable(Resolve(cfg), hdrSize, align, ringAligned, scratchAligned, scratch) <==>
            Sound(cfg, hdrSize, align, ringAligned, scratchAligned, scratch)
  {
    var r := Resolve(cfg);
    if cfg.capacity == 0 { assert r.capacity == Pow2(6); }
    CapacityExactly(r.capacity);
    hide IsPow2, Stride, SlotsFit;
    FitsIfLastFits(r.slots, Stride(r.slotSize, align), scratch);
    assert Acceptable(r, hdrSize, align, ringAligned, scratchAligned, scratch) <==>
           && ringAligned && scratchAligned && IsPow2(r.capacity) && r.capacity >= 2 && r.slotSize > hdrSize
           && r.lowE <= r.lowD <= 100 && SlotsFit(r.slots, Stride(r.slotSize, align), scratch);
  }

  lemma FitsIfLastFits(slots: nat, stride: nat, scratch: nat)
    requires slots >= 1
    ensures SlotsFit(slots, stride, scratch) <==> scratch >= slots * stride
  {
    if scratch >= slots * stride {
      forall i: nat | i < slots ensures SlotStart(stride, i) + stride <= scratch {
        MulLe(i + 1, slots, stride);
      }
    }
    if SlotsFit(slots, stride, scratch) {
      assert SlotStart(stride, slots - 1) + stride <= scratch;
      assert (slots - 1) * stride + stride == slots * stride;
    }
  }
}
