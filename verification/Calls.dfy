/** Runs of whole API calls on the abstract queue and the payload memory. */
module Calls {
  import opened Words
  import opened Slots
  import opened Fifo

  datatype Call =
    | Acquire(wanted: u32)
    | Write(bytes: seq<Byte>)
    | Publish(slot: u32, written: u32, truncated: bool)
    | Abort
    | Consume
    | Release(slot: u32)
    | SetLimit(limit: u32)
    | SetPolicy(policy: Policy)
    | Count

  /** Everything a caller can observe of one call: the return code, the slot index, the
      length or count, the flag and the payload bytes. Callbacks are observed in the queue's
      event list. */
  datatype Reply = Reply(e: Err, slot: nat, n: nat, truncated: bool, bytes: seq<Byte>)

  function Plain(e: Err): Reply {
    Reply(e, 0, 0, false, [])
  }

  /** The new queue, the new payload memory and the reply, from the old ones alone: no trace
      of which build it is. */
  function Answer(q: Queue, data: seq<seq<Byte>>, c: Call): (Queue, seq<seq<Byte>>, Reply)
    requires q.slots >= 1 && |data| == q.slots
    requires q.pending.Some? ==> |q.buf| == q.cap
    requires q.holding || q.released <= q.seen <= |q.log|
  {
    match c
    case Acquire(wanted) =>
      var (q', e) := Fifo.Acquire(q, wanted, data[q.WriteSlot()]);
      (q', data, if e.Ok? then Reply(e, q'.WriteSlot(), q'.cap, false, []) else Plain(e))
    case Write(bytes) =>
      if q.pending.Some? && |bytes| <= q.cap then
        var q' := Fifo.WritePayload(q, bytes);
        (q', data[q.WriteSlot() := q'.buf], Plain(Ok))
      else (q, data, Plain(Inval))
    case Publish(slot, written, truncated) =>
      var (q', e) := Fifo.Publish(q, slot, written, truncated);
      (q', data, Plain(e))
    case Abort =>
      var (q', e) := Fifo.Abort(q);
      (q', data, Plain(e))
    case Consume =>
      var (q', e) := Fifo.Consume(q);
      (q', data, if e.Ok? then Handed(q') else Plain(e))
    case Release(slot) =>
      var (q', e) := Fifo.Release(q, slot);
      (q', data, Plain(e))
    case SetLimit(limit) =>
      var (q', e) := Fifo.SetLimit(q, limit);
      (q', data, Plain(e))
    case SetPolicy(policy) =>
      var (q', e) := Fifo.SetPolicy(q, policy);
      (q', data, Plain(e))
    case Count =>
      (q, data, Reply(Ok, 0, if q.ready && q.Count() >= 0 then q.Count() else 0, false, []))
  }

  function Handed(q: Queue): Reply
    requires q.slots >= 1 && q.released < |q.log|
  {
    var m := q.log[q.released];
    Reply(Ok, q.ReadSlot(), |m.bytes|, m.truncated, m.bytes)
  }

  // Runs

  /** The queue and the payload memory fit together. */
  ghost predicate Fits(q: Queue, data: seq<seq<Byte>>) {
    && q.Ok() && |data| == q.slots
    && (forall s :: 0 <= s < q.slots ==> |data[s]| == q.cap)
    && (q.pending.Some? ==> q.buf == data[q.WriteSlot()])
  }

  ghost predicate Publishes(q: Queue, c: Call)
    requires q.slots >= 1
  {
    c.Publish? && q.ready && q.pending.Some? && c.slot == q.WriteSlot()
  }

  ghost predicate Releases(q: Queue, c: Call)
    requires q.slots >= 1
  {
    c.Release? && q.ready && q.holding && c.slot == q.ReadSlot()
  }

  lemma MovingCalls(q: Queue, c: Call)
    requires q.Ok()
    ensures c.Publish? ==>
              var (q', e) := Fifo.Publish(q, c.slot, c.written, c.truncated);
              && (e == Ok <==> Publishes(q, c))
              && if e != Ok then q' == q else
                 && q'.Ok()
                 && q' == q.(log := q.log + [Meant(q, c.written, c.truncated)], pending := None,
                             fullLatch := q.fullLatch || q.Count() + 1 == q.limit,
                             stats := q'.stats, events := q'.events)
                 && q'.stats.published == Inc64(q.stats.published) && q'.stats.consumed == q.stats.consumed
                 && q'.stats.highWater == if q.Count() + 1 > q.stats.highWater then q.Count() + 1 else q.stats.highWater
    ensures c.Release? ==>
              var (q', e) := Fifo.Release(q, c.slot);
              && (e == Ok <==> Releases(q, c))
              && if e != Ok then q' == q else
                 && q'.Ok()
                 && q' == q.(released := q.released + 1, holding := false,
                             fullLatch := q.fullLatch && q.seen - q.released != Threshold(q.limit, q.lowD),
                             lowDLatch := q'.lowDLatch, lowELatch := q'.lowELatch,
                             stats := q'.stats, events := q'.events)
                 && q'.stats.consumed == Inc64(q.stats.consumed) && q'.stats.published == q.stats.published
                 && q'.stats.highWater == q.stats.highWater
  {
    hide SlotOf, IsPow2, Threshold, Visible, RaiseFull, RaiseLowD, RaiseLowE, PublishStats;
    if Publishes(q, c) {
      PublishEffect(q, c.slot, c.written, c.truncated);
    }
    if Releases(q, c) {
      ReleaseEffect(q, c.slot);
    }
  }

  /** What each call does, apart from the reply's details: publish, release and consume are those
      of the queue; the others leave the messages, the latches and the callbacks alone. */
  lemma CallEffect(q: Queue, data: seq<seq<Byte>>, c: Call)
    requires Fits(q, data)
    ensures var (q', data', a) := Answer(q, data, c);
            match c
            case Publish(slot, written, truncated) =>
              var (p, e) := Fifo.Publish(q, slot, written, truncated); (q', a) == (p, Plain(e))
            case Release(slot) => (q', a) == (Fifo.Release(q, slot).0, Plain(Fifo.Release(q, slot).1))
            case Consume =>
              && (q', a.e) == Fifo.Consume(q)
              && (a.e.Ok? ==> a.bytes == q'.log[q'.released].bytes && a.truncated == q'.log[q'.released].truncated)
            case _ =>
              && q' == q.(limit := q'.limit, policy := q'.policy, pending := q'.pending, buf := q'.buf,
                          stats := q.stats.(fullAttempts := q'.stats.fullAttempts))
              && (q'.limit != q.limit ==> c.SetLimit? && q'.limit == c.limit && q.Count() == 0)
  {
    hide SlotOf, IsPow2, Fifo.Publish, Fifo.Release;
  }

  lemma QuietCallOk(q: Queue, data: seq<seq<Byte>>, c: Call)
    requires Fits(q, data) && !c.Publish? && !c.Release?
    ensures var q' := Answer(q, data, c).0; q'.Ok() && q'.slots == q.slots && q'.cap == q.cap
  {
    hide SlotOf, IsPow2, Fifo.Publish, Fifo.Release;
  }

  lemma AnswerOk(q: Queue, data: seq<seq<Byte>>, c: Call)
    requires Fits(q, data)
    ensures var q' := Answer(q, data, c).0; q'.Ok() && q'.slots == q.slots && q'.cap == q.cap
  {
    hide SlotOf, IsPow2, Threshold, Visible, Meant, Fifo.Publish, Fifo.Release;
    if c.Publish? || c.Release? {
      MovingCalls(q, c);
    } else {
      hide Answer;
      QuietCallOk(q, data, c);
    }
  }

  lemma AnswerMemory(q: Queue, data: seq<seq<Byte>>, c: Call)
    requires Fits(q, data)
    ensures var (q', data', _) := Answer(q, data, c);
            && |data'| == q.slots && (forall s :: 0 <= s < q.slots ==> |data'[s]| == q.cap)
            && q'.slots == q.slots && (q'.pending.Some? ==> q'.buf == data'[q'.WriteSlot()])
  {
    hide SlotOf, IsPow2, Threshold, Visible, Meant, Fifo.Publish, Fifo.Release;
    if c.Publish? || c.Release? {
      MovingCalls(q, c);
    } else {
      QuietMemory(q, data, c);
    }
  }

  lemma QuietMemory(q: Queue, data: seq<seq<Byte>>, c: Call)
    requires Fits(q, data) && !c.Publish? && !c.Release?
    ensures var (q', data', _) := Answer(q, data, c);
            && |data'| == q.slots && (forall s :: 0 <= s < q.slots ==> |data'[s]| == q.cap)
            && q'.slots == q.slots && (q'.pending.Some? ==> q'.buf == data'[q'.WriteSlot()])
  {
    hide SlotOf, IsPow2, Fifo.Publish, Fifo.Release;
  }

  lemma AnswerFits(q: Queue, data: seq<seq<Byte>>, c: Call)
    requires Fits(q, data)
    ensures Fits(Answer(q, data, c).0, Answer(q, data, c).1)
  {
    hide Answer;
    AnswerOk(q, data, c);
    AnswerMemory(q, data, c);
  }

  /** The state after a sequence of calls. */
  ghost function After(q: Queue, data: seq<seq<Byte>>, calls: seq<Call>): (r: (Queue, seq<seq<Byte>>))
    requires Fits(q, data)
    ensures Fits(r.0, r.1)
    decreases |calls|
  {
    if calls == [] then (q, data)
    else
      AnswerFits(q, data, calls[0]);
      var a := Answer(q, data, calls[0]);
      After(a.0, a.1, calls[1..])
  }

  lemma {:induction false} AfterBoth(q: Queue, data: seq<seq<Byte>>, a: seq<Call>, b: seq<Call>)
    requires Fits(q, data)
    ensures After(q, data, a + b) == After(After(q, data, a).0, After(q, data, a).1, b)
    decreases |a|
  {
    if a == [] {
      assert a + b == b;
    } else {
      AnswerFits(q, data, a[0]);
      var x := Answer(q, data, a[0]);
      assert (a + b)[1..] == a[1..] + b;
      AfterBoth(x.0, x.1, a[1..], b);
    }
  }

  /** A ring as `rb_init` leaves it. */
  ghost predicate Fresh(q: Queue, data: seq<seq<Byte>>) {
    && Fits(q, data) && q.ready && q.log == [] && q.released == q.seen == 0
    && q.pending.None? && !q.holding && !q.fullLatch && q.stats == ZERO_STATS && q.events == []
  }

  lemma InitialIsFresh(cfg: Config, hdrSize: u32, align: nat, scratch: nat, data: seq<seq<Byte>>)
    requires align >= 1 && Acceptable(Resolve(cfg), hdrSize, align, true, true, scratch)
    requires |data| == Resolve(cfg).slots
    requires forall s :: 0 <= s < |data| ==> |data[s]| == Resolve(cfg).slotSize - hdrSize
    ensures Fresh(Initial(Resolve(cfg), hdrSize), data)
  {
    InitialOk(cfg, hdrSize, align, scratch);
  }

  // Conservation

  /** A call that fails changes nothing of the queue, the grant or the latches. */
  lemma FailuresAreInert(q: Queue, data: seq<seq<Byte>>, c: Call)
    requires Fits(q, data) && Answer(q, data, c).2.e != Ok
    ensures var q' := Answer(q, data, c).0;
            && Answer(q, data, c).1 == data
            && q' == q.(stats := q'.stats, seen := q'.seen)
            && q'.stats == q.stats.(fullAttempts := q'.stats.fullAttempts)
            && (q'.stats != q.stats ==> c.Acquire? && q.Count() == q.limit)
            && (q'.seen != q.seen ==> c.Consume? && q.released == q.seen == |q.log|)
  {
    hide SlotOf, IsPow2, Threshold, Visible, Fifo.Publish, Fifo.Release;
    MovingCalls(q, c);
  }

  /** What the consumer has been handed over a run: the replies of its successful consumes. */
  ghost function Received(q: Queue, data: seq<seq<Byte>>, calls: seq<Call>): seq<Message>
    requires Fits(q, data)
    decreases |calls|
  {
    if calls == [] then []
    else
      AnswerFits(q, data, calls[0]);
      var (q', data', a) := Answer(q, data, calls[0]);
      (if calls[0].Consume? && a.e.Ok? then [Message(a.bytes, a.truncated)] else [])
      + Received(q', data', calls[1..])
  }

  function HandedOut(q: Queue): int {
    q.released + if q.holding then 1 else 0
  }

  /** No call shortens the log, and only a successful consume hands out a message. */
  lemma CallMoves(q: Queue, data: seq<seq<Byte>>, c: Call)
    requires Fits(q, data)
    ensures var (q', data', a) := Answer(q, data, c);
            && q.log <= q'.log && 0 <= HandedOut(q) <= |q.log|
            && if c.Consume? && a.e.Ok? then
                 && q'.log == q.log && HandedOut(q) == q.released < |q.log|
                 && HandedOut(q') == q.released + 1 && Message(a.bytes, a.truncated) == q.log[q.released]
               else HandedOut(q') == HandedOut(q)
  {
    hide SlotOf, IsPow2, Threshold, Visible, Meant, Fifo.Publish, Fifo.Release, Answer;
    MovingCalls(q, c);
    CallEffect(q, data, c);
  }

  lemma OneCallConserves(q: Queue, data: seq<seq<Byte>>, c: Call)
    requires Fits(q, data)
    ensures var (q', data', a) := Answer(q, data, c);
            && q.log <= q'.log && 0 <= HandedOut(q) <= HandedOut(q') <= |q'.log|
            && HandedOut(q) <= |q.log|
            && q'.log[HandedOut(q)..HandedOut(q')]
               == if c.Consume? && a.e.Ok? then [Message(a.bytes, a.truncated)] else []
  {
    hide Answer, HandedOut;
    CallMoves(q, data, c);
  }

  /** Whole-run conservation: whatever the mix of calls, successful or not, what the consumer
      has been handed is the published sequence, in order, from where it started: nothing is
      lost, duplicated or reordered. */
  lemma {:induction false} ReceivedIsPublishedPrefix(q: Queue, data: seq<seq<Byte>>, calls: seq<Call>)
    requires Fits(q, data)
    ensures var q' := After(q, data, calls).0;
            && q.log <= q'.log && 0 <= HandedOut(q) <= HandedOut(q') <= |q'.log|
            && Received(q, data, calls) == q'.log[HandedOut(q)..HandedOut(q')]
    decreases |calls|
  {
    OneCallConserves(q, data, Count);
    hide Answer, SlotOf, IsPow2, HandedOut, Fits;
    if calls == [] {
      assert q.log[HandedOut(q)..HandedOut(q)] == [];
    } else {
      AnswerFits(q, data, calls[0]);
      var (q1, data1, a) := Answer(q, data, calls[0]);
      OneCallConserves(q, data, calls[0]);
      ReceivedIsPublishedPrefix(q1, data1, calls[1..]);
      SlicesJoin(q1.log, After(q1, data1, calls[1..]).0.log,
                 HandedOut(q), HandedOut(q1), HandedOut(After(q1, data1, calls[1..]).0));
    }
  }

  lemma SlicesJoin<T>(a: seq<T>, b: seq<T>, i: nat, j: nat, k: nat)
    requires a <= b && i <= j <= |a| && j <= k <= |b|
    ensures a[i..j] + b[j..k] == b[i..k]
  {
    assert a == b[..|a|];
  }

  // Statistics

  ghost predicate Counted(q: Queue) {
    q.stats.published == |q.log| % WORD64 && q.stats.consumed == q.released % WORD64
  }

  lemma CountsOn(n: nat)
    ensures Inc64(n % WORD64) == (n + 1) % WORD64
  {
  }

  lemma DifferenceMod(a: nat, b: nat)
    requires 0 <= a - b < WORD64
    ensures (a % WORD64 - b % WORD64) % WORD64 == a - b
  {
    assert a == WORD64 * (a / WORD64) + a % WORD64;
    assert b == WORD64 * (b / WORD64) + b % WORD64;
    var k := a / WORD64 - b / WORD64;
    assert a % WORD64 - b % WORD64 == (a - b) - WORD64 * k;
    assert (a % WORD64 - b % WORD64) == WORD64 * -k + (a - b);
    ModUnique(a % WORD64 - b % WORD64, WORD64, -k, a - b);
  }

  lemma CountedStays(q: Queue, data: seq<seq<Byte>>, c: Call)
    requires Fits(q, data) && Counted(q)
    ensures Counted(Answer(q, data, c).0)
  {
    hide SlotOf, IsPow2, Threshold, Visible, Meant, Fifo.Publish, Fifo.Release, Inc64, Answer;
    CountsOn(|q.log|);
    CountsOn(q.released);
    MovingCalls(q, c);
    CallEffect(q, data, c);
  }

  lemma HighWaterFollows(q: Queue, data: seq<seq<Byte>>, c: Call)
    requires Fits(q, data) && q.Count() <= q.stats.highWater
    ensures var q' := Answer(q, data, c).0;
            q'.stats.highWater == if q'.Count() > q.stats.highWater then q'.Count() else q.stats.highWater
  {
    hide SlotOf, IsPow2, Threshold, Visible, Meant, Fifo.Publish, Fifo.Release, Inc64, Answer;
    MovingCalls(q, c);
    CallEffect(q, data, c);
  }

  /** The largest count of any state of the run. */
  ghost function PeakCount(q: Queue, data: seq<seq<Byte>>, calls: seq<Call>): int
    requires Fits(q, data)
    decreases |calls|
  {
    if calls == [] then q.Count()
    else
      AnswerFits(q, data, calls[0]);
      var a := Answer(q, data, calls[0]);
      var rest := PeakCount(a.0, a.1, calls[1..]);
      if rest > q.Count() then rest else q.Count()
  }

  lemma {:induction false} StatisticsOfRun(q: Queue, data: seq<seq<Byte>>, calls: seq<Call>)
    requires Fits(q, data) && Counted(q) && q.Count() <= q.stats.highWater
    ensures var q' := After(q, data, calls).0;
            && Counted(q')
            && q'.stats.highWater == if PeakCount(q, data, calls) > q.stats.highWater
                                     then PeakCount(q, data, calls) else q.stats.highWater
    decreases |calls|
  {
    if calls != [] {
      AnswerFits(q, data, calls[0]);
      var a := Answer(q, data, calls[0]);
      CountedStays(q, data, calls[0]);
      HighWaterFollows(q, data, calls[0]);
      hide Answer;
      StatisticsOfRun(a.0, a.1, calls[1..]);
    }
  }

  /** Statistics tell the truth: on a new ring, after any calls, published less consumed is
      the count (modulo 2^64), and the high-water mark is the largest count the run reached. */
  lemma StatisticsAreExact(q: Queue, data: seq<seq<Byte>>, calls: seq<Call>)
    requires Fresh(q, data)
    ensures var q' := After(q, data, calls).0;
            && (q'.stats.published - q'.stats.consumed) % WORD64 == q'.Count()
            && q'.stats.highWater == PeakCount(q, data, calls)
  {
    StatisticsOfRun(q, data, calls);
    PeakIsNotNegative(q, data, calls);
    hide IsPow2, PeakCount;
    var q' := After(q, data, calls).0;
    DifferenceMod(|q'.log|, q'.released);
  }

  lemma {:induction false} PeakIsNotNegative(q: Queue, data: seq<seq<Byte>>, calls: seq<Call>)
    requires Fits(q, data)
    ensures PeakCount(q, data, calls) >= 0
  {
    if calls != [] { AnswerFits(q, data, calls[0]); }
  }

  // Truncation

  /** What a producer meant to send: the length announced to `rb_acquire`, the length and
      flag given to `rb_publish_ex`, and the payload area at that moment. */
  datatype Intent = Intent(wanted: u32, written: u32, flagged: bool, area: seq<Byte>)

  /** The intents of the successful publishes of a run, in order. */
  ghost function Intents(q: Queue, data: seq<seq<Byte>>, calls: seq<Call>): seq<Intent>
    requires Fits(q, data)
    decreases |calls|
  {
    if calls == [] then []
    else
      AnswerFits(q, data, calls[0]);
      var (q', data', a) := Answer(q, data, calls[0]);
      (if calls[0].Publish? && a.e.Ok? then
         [Intent(q.pending.value, calls[0].written, calls[0].truncated, q.buf)]
       else [])
      + Intents(q', data', calls[1..])
  }

  /** How many bytes of the payload area a publish means to send. */
  function Length(i: Intent, cap: u32): u32 {
    if i.written < cap then i.written else cap
  }

  /** The flag is as it should be, and the bytes are those meant exactly when their number fits
      in the 31 bits of the header. */
  ghost predicate Honest(m: Message, i: Intent, cap: u32) {
    && (m.truncated <==> i.flagged || i.wanted > cap || i.written > cap)
    && |i.area| == cap && |m.bytes| <= cap
    && (m.bytes == i.area[..Length(i, cap)] <==> Length(i, cap) < 0x8000_0000)
  }

  /** The message is not what was meant, and does not say so. */
  ghost predicate SilentlyCut(m: Message, i: Intent, cap: u32) {
    |i.area| == cap && !m.truncated && m.bytes != i.area[..Length(i, cap)]
  }

  lemma OneCallIsHonest(q: Queue, data: seq<seq<Byte>>, c: Call)
    requires Fits(q, data)
    ensures var (q', data', a) := Answer(q, data, c);
            && q'.cap == q.cap
            && if c.Publish? && a.e.Ok? then
                 && q.pending.Some? && |q'.log| == |q.log| + 1 && q'.log[..|q.log|] == q.log
                 && Honest(q'.log[|q.log|], Intent(q.pending.value, c.written, c.truncated, q.buf), q.cap)
               else q'.log == q.log
  {
    hide SlotOf, IsPow2, Threshold, Fifo.Publish, Fifo.Release;
    MovingCalls(q, c);
  }

  /** Over any run, policy changes included, message number p says truncated exactly when its
      producer flagged it, announced more than the capacity or wrote more than the capacity, and
      its bytes are all the bytes meant exactly when there are fewer than 2^31 of them. */
  lemma {:induction false} MessagesAreHonest(q: Queue, data: seq<seq<Byte>>, calls: seq<Call>)
    requires Fits(q, data)
    ensures var q', meant := After(q, data, calls).0, Intents(q, data, calls);
            && q'.cap == q.cap && q.log <= q'.log && |q'.log| == |q.log| + |meant|
            && forall p :: 0 <= p < |meant| ==> Honest(q'.log[|q.log| + p], meant[p], q.cap)
    decreases |calls|
  {
    hide Answer, Honest, SlotOf, IsPow2;
    if calls != [] {
      AnswerFits(q, data, calls[0]);
      var (q1, data1, a) := Answer(q, data, calls[0]);
      OneCallIsHonest(q, data, calls[0]);
      MessagesAreHonest(q1, data1, calls[1..]);
      var q' := After(q, data, calls).0;
      assert q' == After(q1, data1, calls[1..]).0;
      assert q1.log == q'.log[..|q1.log|];
    }
  }

  /** Some message of the run is cut silently. */
  ghost predicate CutsSilently(q: Queue, data: seq<seq<Byte>>, calls: seq<Call>)
    requires Fits(q, data)
  {
    var log, meant := After(q, data, calls).0.log, Intents(q, data, calls);
    exists p :: 0 <= p < |meant| && |q.log| + p < |log| && SilentlyCut(log[|q.log| + p], meant[p], q.cap)
  }

  /** Two calls that cut a message of 2^31 bytes down to nothing. */
  lemma LongMessageVanishes(q: Queue, data: seq<seq<Byte>>)
    requires Fresh(q, data) && q.cap >= 0x8000_0000
    ensures CutsSilently(q, data, [Acquire(0), Publish(q.WriteSlot(), 0x8000_0000, false)])
  {
    var a, b := Acquire(0), Publish(q.WriteSlot(), 0x8000_0000, false);
    var (q1, data1, _) := Answer(q, data, a);
    AnswerFits(q, data, a);
    assert q1.pending == Some(0) && q1.log == [] && q1.WriteSlot() == q.WriteSlot() && q1.ready && q1.cap == q.cap;
    OneCallIsHonest(q, data, a);
    OneCallIsHonest(q1, data1, b);
    MovingCalls(q1, b);
    MessagesAreHonest(q, data, [a, b]);
    hide Answer, SlotOf, IsPow2;
    assert [a, b][1..] == [b] && [b][1..] == [];
    AnswerFits(q1, data1, b);
    assert Intents(q1, data1, [b]) == [Intent(0, 0x8000_0000, false, q1.buf)];
    assert Intents(q, data, [a, b]) == [Intent(0, 0x8000_0000, false, q1.buf)];
    var log, meant := After(q, data, [a, b]).0.log, Intents(q, data, [a, b]);
    assert SilentlyCut(log[|q.log| + 0], meant[0], q.cap);
  }

  /** No silent partial message, exactly: on a new ring no run cuts a message silently if and
      only if the payload area is smaller than 2^31 bytes. */
  lemma NothingIsSilentlyCutExactly(q: Queue, data: seq<seq<Byte>>)
    requires Fresh(q, data)
    ensures (forall calls :: !CutsSilently(q, data, calls)) <==> q.cap < 0x8000_0000
  {
    if q.cap < 0x8000_0000 {
      forall calls ensures !CutsSilently(q, data, calls) {
        MessagesAreHonest(q, data, calls);
      }
    } else {
      LongMessageVanishes(q, data);
    }
  }
}
