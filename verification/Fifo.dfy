/** The bounded FIFO that both builds of the ring implement, as one pure transition per API
    call.

    The state keeps the whole history: `log` holds every message ever published, `released`
    counts those given back. `seen` is how much of the log the consumer's cached head shows;
    the low-water callbacks are driven by it and not by the true count. */
module Fifo {
  import opened Words
  import opened Slots
  import opened Layout

  datatype Err = Ok | Full | Empty | Oversize | Inval | NotInit

  datatype Option<T> = None | Some(value: T)

  datatype Policy = Truncate | Drop

  datatype Event = SlotAdded(slot: nat, len: u32, truncated: bool) | OnFull | OnLowD | OnLowE

  datatype Message = Message(bytes: seq<Byte>, truncated: bool)

  const WORD64 := 0x1_0000_0000_0000_0000
  type u64 = x: int | 0 <= x < WORD64

  datatype Stats = Stats(published: u64, consumed: u64, truncated: u64, fullAttempts: u64,
                         highWater: u32, fullHits: u32, lowDHits: u32, lowEHits: u32)

  function Inc64(x: u64): u64 {
    (x + 1) % WORD64
  }

  datatype Queue = Queue(
    capacity: u32, slots: u32, cap: u32, lowD: u32, lowE: u32,
    limit: u32, policy: Policy, ready: bool,
    log: seq<Message>, released: nat, seen: nat,
    pending: Option<u32>, buf: seq<Byte>, holding: bool,
    fullLatch: bool, lowDLatch: bool, lowELatch: bool,
    stats: Stats, events: seq<Event>)
  {
    /** Published and not yet released. */
    function Count(): int {
      |log| - released
    }

    function WriteSlot(): nat
      requires slots >= 1
    {
      SlotOf(slots, |log|)
    }

    function ReadSlot(): nat
      requires slots >= 1
    {
      SlotOf(slots, released)
    }

    /** What every call keeps. */
    ghost predicate Ok() {
      && IsPow2(capacity) && capacity >= 2
      && 1 <= limit <= capacity && limit <= slots
      && 1 <= cap && lowE <= lowD <= 100
      && released <= seen <= |log| <= released + limit
      && (pending.Some? ==> Count() < limit && |buf| == cap)
      && (holding ==> released < seen)
      && (forall p :: 0 <= p < |log| ==> |log[p].bytes| <= cap)
    }
  }

  /** The number of messages below which a percentage of the limit counts as low. */
  function Threshold(limit: nat, percent: nat): nat {
    (limit * percent + 99) / 100
  }

  /** `below_low`. */
  predicate BelowLow(count: nat, limit: nat, percent: nat) {
    percent != 0 && count * 100 < limit * percent
  }

  /** The scaled comparison is a comparison with the rounded-up threshold. */
  lemma BelowLowIsThreshold(count: nat, limit: nat, percent: nat)
    ensures BelowLow(count, limit, percent) <==> count < Threshold(limit, percent)
    ensures percent <= 100 ==> Threshold(limit, percent) <= limit
    ensures limit >= 1 && percent >= 1 ==> Threshold(limit, percent) >= 1
  {
    var m := limit * percent;
    assert percent == 0 ==> m == 0;
    if limit >= 1 && percent >= 1 {
      assert m >= 1;
    }
    if percent <= 100 {
      assert limit * 100 - m == limit * (100 - percent) >= 0;
    }
  }

  // The API calls

  function Acquire(q: Queue, wanted: u32, stale: seq<Byte>): (Queue, Err) {
    if !q.ready then (q, NotInit)
    else if q.pending.Some? then (q, Inval)
    else if q.Count() >= q.limit then
      (q.(stats := q.stats.(fullAttempts := Inc64(q.stats.fullAttempts))), Full)
    else if wanted > q.cap && q.policy.Drop? then (q, Oversize)
    else (q.(pending := Some(wanted), buf := stale), Ok)
  }

  /** The caller overwrites the front of the granted payload area. */
  function WritePayload(q: Queue, bytes: seq<Byte>): Queue
    requires |bytes| <= |q.buf|
  {
    q.(buf := bytes + q.buf[|bytes|..])
  }

  function Min(a: u32, b: u32): u32 {
    if a < b then a else b
  }

  /** What a consumer will see of a slot published with this length. */
  function Visible(buf: seq<Byte>, len: u32): seq<Byte>
    requires len <= |buf|
  {
    buf[..len % 0x8000_0000]
  }

  function Publish(q: Queue, slot: u32, written: u32, truncated: bool): (Queue, Err)
    requires q.slots >= 1
    requires q.pending.Some? ==> |q.buf| == q.cap
  {
    if !q.ready then (q, NotInit)
    else if q.pending.None? || slot != q.WriteSlot() then (q, Inval)
    else
      var len := Min(written, q.cap);
      var cut := truncated || written > q.cap || q.pending.value > q.cap;
      var q1 := q.(log := q.log + [Message(Visible(q.buf, len), cut)], pending := None,
                   events := q.events + [SlotAdded(slot, len, cut)]);
      (RaiseFull(q1.(stats := PublishStats(q1, cut))), Ok)
  }

  function PublishStats(q: Queue, cut: bool): Stats {
    q.stats.(
    published := Inc64(q.stats.published),
    highWater := if 0 <= q.Count() < WORD && q.Count() > q.stats.highWater then q.Count() else q.stats.highWater,
    truncated := if cut then Inc64(q.stats.truncated) else q.stats.truncated)
  }

  /** `on_full` fires once: when the count has reached the limit and the latch is clear. */
  function RaiseFull(q: Queue): Queue {
    if q.Count() >= q.limit && !q.fullLatch then
      q.(fullLatch := true, events := q.events + [OnFull],
         stats := q.stats.(fullHits := Add32(q.stats.fullHits, 1)))
    else q
  }

  function Abort(q: Queue): (Queue, Err) {
    if !q.ready then (q, NotInit)
    else if q.pending.None? then (q, Inval)
    else (q.(pending := None), Ok)
  }

  /** On success the message handed out is `log[released]`. */
  function Consume(q: Queue): (Queue, Err) {
    if !q.ready then (q, NotInit)
    else if q.holding then (q, Inval)
    else
      var q1 := if q.released == q.seen then q.(seen := |q.log|) else q;
      if q1.released == q1.seen then (q1, Empty) else (q1.(holding := true), Ok)
  }

  function Release(q: Queue, slot: u32): (Queue, Err)
    requires q.slots >= 1
  {
    if !q.ready then (q, NotInit)
    else if !q.holding || slot != q.ReadSlot() then (q, Inval)
    else
      var left := q.seen - q.released;
      var q1 := q.(released := q.released + 1, holding := false,
                   stats := q.stats.(consumed := Inc64(q.stats.consumed)));
      (RaiseLowE(RaiseLowD(q1, left), left), Ok)
  }

  /** `on_low_d` fires when the messages in view, `left` before this release, have come down
      to the threshold; it unlatches `on_full`. */
  function RaiseLowD(q: Queue, left: int): Queue {
    if left == Threshold(q.limit, q.lowD) then
      q.(lowDLatch := true, fullLatch := false, events := q.events + [OnLowD],
         stats := q.stats.(lowDHits := Add32(q.stats.lowDHits, 1)))
    else q
  }

  function RaiseLowE(q: Queue, left: int): Queue {
    if left == Threshold(q.limit, q.lowE) then
      q.(lowELatch := true, events := q.events + [OnLowE],
         stats := q.stats.(lowEHits := Add32(q.stats.lowEHits, 1)))
    else q
  }

  function SetLimit(q: Queue, limit: u32): (Queue, Err) {
    if !q.ready then (q, NotInit)
    else if limit == 0 || limit > q.capacity || limit > q.slots || q.Count() != 0 then (q, Inval)
    else (q.(limit := limit), Ok)
  }

  function SetPolicy(q: Queue, policy: Policy): (Queue, Err) {
    if !q.ready then (q, NotInit) else (q.(policy := policy), Ok)
  }

  function Deinit(q: Queue): Queue {
    q.(ready := false, pending := None, holding := false)
  }

  // What the two calls that move messages amount to

  function Meant(q: Queue, written: u32, truncated: bool): Message
    requires q.pending.Some? && |q.buf| == q.cap
  {
    Message(Visible(q.buf, Min(written, q.cap)), truncated || written > q.cap || q.pending.value > q.cap)
  }

  /** A successful publish appends one message, counts it, and raises the full latch if that
      fills the queue. It touches nothing else. */
  lemma PublishEffect(q: Queue, slot: u32, written: u32, truncated: bool)
    requires q.Ok() && q.ready && q.pending.Some? && slot == q.WriteSlot()
    ensures var q' := Publish(q, slot, written, truncated).0;
            && q'.Ok() && Publish(q, slot, written, truncated).1 == Ok
            && q' == q.(log := q.log + [Meant(q, written, truncated)], pending := None,
                        fullLatch := q.fullLatch || q.Count() + 1 == q.limit, stats := q'.stats, events := q'.events)
            && q'.stats.published == Inc64(q.stats.published) && q'.stats.consumed == q.stats.consumed
            && q'.stats.highWater == if q.Count() + 1 > q.stats.highWater then q.Count() + 1 else q.stats.highWater
  {
    hide SlotOf, IsPow2, Threshold;
  }

  /** A successful release advances the tail, counts it, and clears the full latch if the
      messages in view come down to the threshold. It touches nothing else of the queue. */
  lemma ReleaseEffect(q: Queue, slot: u32)
    requires q.Ok() && q.ready && q.holding && slot == q.ReadSlot()
    ensures var q' := Release(q, slot).0;
            && q'.Ok() && Release(q, slot).1 == Ok
            && q' == q.(released := q.released + 1, holding := false,
                        fullLatch := q.fullLatch && q.seen - q.released != Threshold(q.limit, q.lowD),
                        lowDLatch := q'.lowDLatch, lowELatch := q'.lowELatch, stats := q'.stats, events := q'.events)
            && q'.stats.consumed == Inc64(q.stats.consumed) && q'.stats.published == q.stats.published
            && q'.stats.highWater == q.stats.highWater
  {
    hide SlotOf, IsPow2, Threshold;
  }

  // Configuration

  datatype Config = Config(capacity: u32, limit: u32, slots: u32, slotSize: u32, lowD: u32, lowE: u32, policy: Policy)

  const DEFAULT_CAPACITY: u32 := 64
  const DEFAULT_SLOTS: u32 := 64
  const DEFAULT_SLOT_SIZE: u32 := 2048

  function OrDefault(v: u32, d: u32): u32 {
    if v != 0 then v else d
  }

  /** The configuration with the defaults filled in and the limit clamped to what the ring
      and the scratch area can hold. */
  function Resolve(cfg: Config): Config {
    var capacity := OrDefault(cfg.capacity, DEFAULT_CAPACITY);
    var slots := OrDefault(cfg.slots, DEFAULT_SLOTS);
    cfg.(capacity := capacity, slots := slots, slotSize := OrDefault(cfg.slotSize, DEFAULT_SLOT_SIZE),
    limit := Min(Min(OrDefault(cfg.limit, capacity), capacity), slots))
  }

  /** The checks `rb_init` makes on a resolved configuration and the memory it is given. */
  predicate Acceptable(cfg: Config, hdrSize: u32, align: nat, ringAligned: bool, scratchAligned: bool, scratch: nat)
    requires align >= 1
  {
    && ringAligned && scratchAligned
    && IsPow2(cfg.capacity) && cfg.capacity >= 2
    && cfg.slotSize > hdrSize
    && cfg.lowD <= 100 && cfg.lowE <= cfg.lowD
    && scratch >= cfg.slots * Stride(cfg.slotSize, align)
  }

  const ZERO_STATS := Stats(0, 0, 0, 0, 0, 0, 0, 0)

  function Initial(cfg: Config, hdrSize: u32): Queue
    requires cfg.slotSize > hdrSize
  {
    Queue(cfg.capacity, cfg.slots, cfg.slotSize - hdrSize, cfg.lowD, cfg.lowE,
          cfg.limit, cfg.policy, true, [], 0, 0, None, [], false, false, false, false, ZERO_STATS, [])
  }

  lemma InitialOk(cfg: Config, hdrSize: u32, align: nat, scratch: nat)
    requires align >= 1 && Acceptable(Resolve(cfg), hdrSize, align, true, true, scratch)
    ensures Initial(Resolve(cfg), hdrSize).Ok()
  {
  }
}
