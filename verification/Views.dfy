/** The two builds can differ in one thing only, the consumer's view of the head. Here is what
    depends on it, for callers who look at replies, callbacks and payload memory: nothing, if
    the low-water callbacks are off. */
module Views {
  import opened Words
  import opened Slots
  import opened Layout
  import opened Fifo
  import opened Storage
  import opened Calls

  /** The same queue, but for the view. */
  ghost predicate SameButView(q0: Queue, q1: Queue) {
    q0 == q1.(seen := q0.seen)
  }

  /** What a consumer gets from a slot, whatever it holds. */
  function FromSlot(hdr: seq<u32>, data: seq<seq<Byte>>, slot: nat): Reply
    requires slot < |hdr| == |data|
  {
    var len := hdr[slot] % 0x8000_0000;
    Reply(Ok, slot, len, hdr[slot] >= 0x8000_0000, if len <= |data[slot]| then data[slot][..len] else [])
  }

  /** The queue, the payload memory and the reply of a call in any geometry: a successful consume
      hands out what the slot holds. */
  ghost function Observe(q: Queue, data: seq<seq<Byte>>, hdr: seq<u32>, c: Call): (Queue, seq<seq<Byte>>, Reply)
    requires Fits(q, data) && |hdr| == q.slots
  {
    AnswerFits(q, data, c);
    var (q', data', a) := Answer(q, data, c);
    CallEffect(q, data, c);
    (q', data', if c.Consume? && a.e.Ok? then FromSlot(hdr, data, q.ReadSlot()) else a)
  }

  /** A call took a ring from `q` and `data` to `q'` and `data'` with reply `a`: as the slots say,
      and in a safe geometry as the abstract queue says. */
  ghost predicate Observed(q: Queue, data: seq<seq<Byte>>, hdr: seq<u32>, c: Call,
                           q': Queue, data': seq<seq<Byte>>, a: Reply, safe: bool)
  {
    && Fits(q, data) && |hdr| == q.slots
    && data' == Observe(q, data, hdr, c).1 && a == Observe(q, data, hdr, c).2
    && SameButView(q', Observe(q, data, hdr, c).0)
    && (safe ==> (q', data', a) == Answer(q, data, c))
  }

  /** The headers after a call. */
  ghost predicate Headers(q: Queue, hdr: seq<u32>, hdr': seq<u32>, c: Call)
    requires q.Ok() && |hdr| == q.slots
  {
    if Publishes(q, c) then
      && |hdr'| == |hdr| && hdr' == hdr[c.slot := hdr'[c.slot]]
      && PublishedHeader(q, c.written, c.truncated, hdr'[c.slot])
    else hdr' == hdr
  }

  /** The slots of the live messages have the same headers in both memories. */
  ghost predicate SameHeaders(q: Queue, h0: seq<u32>, h1: seq<u32>)
    requires q.Ok() && |h0| == |h1| == q.slots
  {
    forall p: nat :: q.released <= p < |q.log| ==> h0[SlotOf(q.slots, p)] == h1[SlotOf(q.slots, p)]
  }

  /** A consume that answers as the queue's does and reads the slot it names. */
  lemma ConsumeObserved(q: Queue, data: seq<seq<Byte>>, hdr: seq<u32>, e: Err, slot: u32, len: u32, truncated: bool)
    requires Fits(q, data) && |hdr| == q.slots && e == Fifo.Consume(q).1
    requires e.Ok? ==> slot == q.ReadSlot() && len <= q.cap && HeaderSays(hdr[slot], len, truncated)
    ensures var (q', data', a) := Observe(q, data, hdr, Consume);
            && q' == Fifo.Consume(q).0 && data' == data
            && a == if e.Ok? then Reply(e, slot, len, truncated, data[slot][..len]) else Plain(e)
    ensures Fifo.Consume(q).0.log == q.log && Fifo.Consume(q).0.released == q.released
    ensures e.Ok? ==> q.released < |q.log|
  {
    hide SlotOf, IsPow2;
  }

  /** In a safe geometry the slot holds the message. */
  lemma ConsumeAnswered(q: Queue, data: seq<seq<Byte>>, a: Reply)
    requires Fits(q, data) && Fifo.Consume(q).1.Ok? && a == Reply(Ok, q.ReadSlot(), |a.bytes|, a.truncated, a.bytes)
    requires q.released < |q.log| && q.log[q.released] == Message(a.bytes, a.truncated)
    ensures a == Answer(q, data, Consume).2
  {
    hide SlotOf, IsPow2;
  }

  lemma ConsumeConcludes(q: Queue, data: seq<seq<Byte>>, hdr: seq<u32>, e: Err, slot: u32, len: u32,
                         truncated: bool, q': Queue, safe: bool)
    requires Fits(q, data) && |hdr| == q.slots && e == Fifo.Consume(q).1 && SameButView(q', Fifo.Consume(q).0)
    requires e.Ok? ==> slot == q'.ReadSlot() && len <= q.cap && HeaderSays(hdr[slot], len, truncated)
    requires safe ==> q' == Fifo.Consume(q).0
    requires safe && e.Ok? && q'.released < |q'.log| ==> Message(data[slot][..len], truncated) == q'.log[q'.released]
    ensures e.Ok? ==> slot < |data| && len <= |data[slot]|
    ensures Observed(q, data, hdr, Consume, q', data,
                     if e.Ok? then Reply(e, slot, len, truncated, data[slot][..len]) else Plain(e), safe)
  {
    hide SlotOf, IsPow2, Answer, Observe, HeaderSays;
    assert q'.log == q.log && q'.released == q.released && q'.slots == q.slots;
    ConsumeObserved(q, data, hdr, e, slot, len, truncated);
    CallEffect(q, data, Consume);
    if safe {
      if e.Ok? {
        ConsumeAnswered(q, data, Reply(e, slot, len, truncated, data[slot][..len]));
      } else {
        ConsumeRefused(q, data);
      }
    }
    ConsumeKeepsMemory(q, data);
  }

  lemma ConsumeKeepsMemory(q: Queue, data: seq<seq<Byte>>)
    requires Fits(q, data)
    ensures Answer(q, data, Consume).1 == data
  {
  }

  lemma ConsumeRefused(q: Queue, data: seq<seq<Byte>>)
    requires Fits(q, data) && !Fifo.Consume(q).1.Ok?
    ensures Answer(q, data, Consume).2 == Plain(Fifo.Consume(q).1)
  {
  }

  lemma LimitStaysSafe(q: Queue, data: seq<seq<Byte>>, c: Call)
    requires Fits(q, data) && SlotsSafe(q.slots, q.limit) && (c.SetLimit? ==> SlotsSafe(q.slots, c.limit))
    ensures var q' := Answer(q, data, c).0; q'.slots == q.slots && SlotsSafe(q.slots, q'.limit)
  {
    hide SlotOf, IsPow2, SlotsSafe, Threshold, Visible, Meant, Fifo.Publish, Fifo.Release, Answer;
    MovingCalls(q, c);
    CallEffect(q, data, c);
  }

  // The view and the queue

  lemma PublishIgnoresView(q: Queue, v: nat, slot: u32, written: u32, truncated: bool)
    requires q.Ok()
    ensures var a := Fifo.Publish(q, slot, written, truncated);
            Fifo.Publish(q.(seen := v), slot, written, truncated) == (a.0.(seen := v), a.1)
  {
    hide SlotOf, IsPow2;
  }

  lemma ReleaseIgnoresView(q: Queue, v: nat, slot: u32)
    requires q.Ok() && q.(seen := v).Ok() && q.lowD == 0
    ensures var (a, b) := (Fifo.Release(q, slot), Fifo.Release(q.(seen := v), slot));
            b.1 == a.1 && b.0 == a.0.(seen := v)
  {
    hide SlotOf, IsPow2;
    assert Threshold(q.limit, 0) == 0;
    hide Threshold;
  }

  lemma ConsumeIgnoresView(q: Queue, v: nat)
    requires q.Ok() && q.(seen := v).Ok()
    ensures var (a, b) := (Fifo.Consume(q), Fifo.Consume(q.(seen := v)));
            b.1 == a.1 && b.0 == a.0.(seen := b.0.seen)
  {
    hide SlotOf, IsPow2;
  }

  lemma ProducerCallsIgnoreView(q: Queue, v: nat, data: seq<seq<Byte>>, c: Call)
    requires Fits(q, data) && Fits(q.(seen := v), data) && (c.Acquire? || c.Abort?)
    ensures var (a, b) := (Answer(q, data, c), Answer(q.(seen := v), data, c));
            b.0 == a.0.(seen := v) && b.1 == a.1 && b.2 == a.2
  {
    hide SlotOf, IsPow2, Fifo.Publish, Fifo.Release, Fifo.Consume, Handed;
    assert q.(seen := v).WriteSlot() == q.WriteSlot();
    hide Queue.Ok;
  }

  lemma WriteIgnoresView(q: Queue, v: nat, data: seq<seq<Byte>>, bytes: seq<Byte>)
    requires Fits(q, data) && Fits(q.(seen := v), data)
    ensures var (a, b) := (Answer(q, data, Write(bytes)), Answer(q.(seen := v), data, Write(bytes)));
            b.0 == a.0.(seen := v) && b.1 == a.1 && b.2 == a.2
  {
    hide SlotOf, IsPow2, Fifo.Acquire, Fifo.Publish, Fifo.Release, Fifo.Consume, Handed;
    assert q.(seen := v).WriteSlot() == q.WriteSlot();
  }

  lemma SettingsIgnoreView(q: Queue, v: nat, data: seq<seq<Byte>>, c: Call)
    requires Fits(q, data) && Fits(q.(seen := v), data) && (c.SetLimit? || c.SetPolicy? || c.Count?)
    ensures var (a, b) := (Answer(q, data, c), Answer(q.(seen := v), data, c));
            b.0 == a.0.(seen := v) && b.1 == a.1 && b.2 == a.2
  {
    hide SlotOf, IsPow2, Fifo.Publish, Fifo.Release, Fifo.Consume, Handed;
  }

  lemma MovingCallIgnoresView(q: Queue, v: nat, data: seq<seq<Byte>>, c: Call)
    requires Fits(q, data) && Fits(q.(seen := v), data) && (c.Publish? || c.Release?) && q.lowD == 0
    ensures var (a, b) := (Answer(q, data, c), Answer(q.(seen := v), data, c));
            b.0 == a.0.(seen := v) && b.1 == a.1 && b.2 == a.2
  {
    hide SlotOf, IsPow2, Fifo.Publish, Fifo.Release;
    if c.Publish? {
      PublishIgnoresView(q, v, c.slot, c.written, c.truncated);
    } else {
      ReleaseIgnoresView(q, v, c.slot);
    }
  }

  /** With the low-water callbacks off, no call of the abstract queue depends on the view. */
  lemma CallIgnoresView(q0: Queue, q1: Queue, data: seq<seq<Byte>>, h0: seq<u32>, h1: seq<u32>, c: Call)
    requires Fits(q0, data) && Fits(q1, data) && |h0| == |h1| == q0.slots && SameHeaders(q0, h0, h1)
    requires SameButView(q0, q1) && q0.lowD == 0
    ensures var (a, b) := (Observe(q0, data, h0, c), Observe(q1, data, h1, c));
            SameButView(a.0, b.0) && b.1 == a.1 && b.2 == a.2
  {
    hide SlotOf, IsPow2, Answer, SameHeaders, Fits;
    if c.Consume? {
      ConsumeObservedAlike(q0, q1, data, h0, h1);
    } else {
      OtherCallIgnoresView(q0, q1, data, c);
    }
  }

  lemma OtherCallIgnoresView(q0: Queue, q1: Queue, data: seq<seq<Byte>>, c: Call)
    requires Fits(q0, data) && Fits(q1, data) && SameButView(q0, q1) && q0.lowD == 0 && !c.Consume?
    ensures var (a, b) := (Answer(q0, data, c), Answer(q1, data, c));
            SameButView(a.0, b.0) && b.1 == a.1 && b.2 == a.2
  {
    hide SlotOf, IsPow2, Answer, Fits;
    assert q1 == q0.(seen := q1.seen);
    if c.Publish? || c.Release? {
      MovingCallIgnoresView(q0, q1.seen, data, c);
    } else if c.Acquire? || c.Abort? {
      ProducerCallsIgnoreView(q0, q1.seen, data, c);
    } else if c.Write? {
      WriteIgnoresView(q0, q1.seen, data, c.bytes);
    } else {
      SettingsIgnoreView(q0, q1.seen, data, c);
    }
  }

  lemma ConsumeObservedAlike(q0: Queue, q1: Queue, data: seq<seq<Byte>>, h0: seq<u32>, h1: seq<u32>)
    requires Fits(q0, data) && Fits(q1, data) && |h0| == |h1| == q0.slots && SameHeaders(q0, h0, h1)
    requires SameButView(q0, q1)
    ensures var (a, b) := (Observe(q0, data, h0, Consume), Observe(q1, data, h1, Consume));
            SameButView(a.0, b.0) && b.1 == a.1 && b.2 == a.2
  {
    ConsumeIgnoresView(q0, q1.seen);
    assert q1 == q0.(seen := q1.seen);
    hide SlotOf, IsPow2;
  }

  /** Both memories get the same header. */
  lemma HeadersStaySame(q0: Queue, q1: Queue, q': Queue, h0: seq<u32>, h1: seq<u32>, h0': seq<u32>, h1': seq<u32>,
                        data: seq<seq<Byte>>, c: Call)
    requires Fits(q0, data) && q1.Ok() && SameButView(q0, q1) && |h0| == |h1| == q0.slots && SameHeaders(q0, h0, h1)
    requires Headers(q0, h0, h0', c) && Headers(q1, h1, h1', c)
    requires q'.Ok() && SameButView(q', Answer(q0, data, c).0)
    ensures |h0'| == |h1'| == q'.slots && SameHeaders(q', h0', h1')
  {
    hide SlotOf, IsPow2, Threshold, Visible, Meant, Fifo.Publish, Fifo.Release, Answer, PublishedHeader;
    MovingCalls(q0, c);
    CallEffect(q0, data, c);
    if Publishes(q0, c) {
      SameWord(q0, q1, c, h0'[c.slot], h1'[c.slot]);
    } else {
      assert |q'.log| == |q0.log| && q0.released <= q'.released;
    }
  }

  lemma SameWord(q0: Queue, q1: Queue, c: Call, h0: u32, h1: u32)
    requires q0.Ok() && q1.Ok() && SameButView(q0, q1) && Publishes(q0, c) && Publishes(q1, c)
    requires PublishedHeader(q0, c.written, c.truncated, h0) && PublishedHeader(q1, c.written, c.truncated, h1)
    ensures h0 == h1
  {
    hide HeaderSays, SlotOf, IsPow2;
    WordIsUnique(h0, h1, Min(c.written, q0.cap) % 0x8000_0000,
                 c.truncated || c.written > q0.cap || q0.pending.value > q0.cap);
  }
}
