/** `rb_drain` and `rb_flush`: the loops over whole calls, and what they amount to. */
module Batches {
  import opened Words
  import opened Slots
  import opened Fifo
  import opened Storage
  import opened Rings

  // Drain

  /** The callback's verdict may depend on every message it has been given so far. */
  type Visitor = seq<Message> -> bool

  /** How many messages a visitor takes from a list, having been given `given` before: all
      up to and including the first it answers false to. */
  function Taken(messages: seq<Message>, fn: Visitor, given: seq<Message>): nat {
    if messages == [] then 0
    else if !fn(given + [messages[0]]) then 1
    else 1 + Taken(messages[1..], fn, given + [messages[0]])
  }

  /** The number taken is the longest prefix on which every verdict but the last is true. */
  lemma {:induction false} TakenIsLongestPrefix(messages: seq<Message>, fn: Visitor, given: seq<Message>)
    ensures var k := Taken(messages, fn, given);
            && k <= |messages|
            && (forall j :: 1 <= j < k ==> fn(given + messages[..j]))
            && (k < |messages| ==> k > 0 && !fn(given + messages[..k]))
  {
    if messages != [] {
      assert messages[..1] == [messages[0]];
      if fn(given + [messages[0]]) {
        var rest, given' := messages[1..], given + [messages[0]];
        TakenIsLongestPrefix(rest, fn, given');
        forall j | 1 <= j <= |messages| ensures given + messages[..j] == given' + rest[..j - 1] {
          assert messages[..j] == [messages[0]] + rest[..j - 1];
        }
      }
    }
  }

  lemma TakenOne(queue: seq<Message>, fn: Visitor, n: nat)
    requires n < |queue|
    ensures queue[..n] + [queue[n]] == queue[..n + 1]
    ensures Taken(queue[n..], fn, queue[..n]) ==
            if fn(queue[..n + 1]) then 1 + Taken(queue[n + 1..], fn, queue[..n + 1]) else 1
  {
    assert queue[n..][1..] == queue[n + 1..];
  }

  lemma TakenNone(queue: seq<Message>, fn: Visitor)
    ensures queue[..0] == [] && queue[0..] == queue
    ensures Taken(queue[|queue|..], fn, queue[..|queue|]) == 0
  {
  }

  /** Releases the message held. */
  method GiveBack(r: Ring, slot: u32)
    requires r.Valid() && r.q.ready && r.q.holding && slot == r.q.ReadSlot()
    modifies r, r.stamps
    ensures r.Valid() && r.q.ready && !r.q.holding && r.q.seen == old(r.q.seen)
    ensures r.q.limit == old(r.q.limit) && r.q.slots == old(r.q.slots)
    ensures r.q.released == old(r.q.released) + 1 && r.q.log == old(r.q.log) && r.q.pending == old(r.q.pending)
  {
    hide SlotOf, Wrap, IsPow2, SlotsSafe, InSlots, Linked, Ring.Registers;
    ReleaseEffect(r.q, slot);
    var _ := r.Release(slot);
  }

  /** One turn of the drain loop. */
  method DrainOne(r: Ring, fn: Visitor, given: seq<Message>) returns (took: bool, m: Message, cont: bool)
    requires r.Valid() && r.q.ready
    modifies r, r.stamps
    ensures r.Valid() && r.q.ready && r.q.holding == old(r.q.holding)
    ensures r.q.log == old(r.q.log) && r.q.pending == old(r.q.pending)
    ensures r.q.limit == old(r.q.limit) && r.q.slots == old(r.q.slots)
    ensures r.q.released == old(r.q.released) + if took then 1 else 0
    ensures old(r.q.holding) ==> !took && r.q == old(r.q)
    ensures !old(r.q.holding) ==> (took <==> old(r.q.released) < |old(r.q.log)|)
    ensures took ==> cont == fn(given + [m])
    ensures took && SlotsSafe(r.q.slots, r.q.limit) ==> m == r.q.log[old(r.q.released)]
  {
    hide SlotsSafe, InSlots, Linked, Wrap, SlotOf, IsPow2;
    var e, idx, len, truncated := r.Consume();
    took, m, cont := false, Message([], false), false;
    if e != Ok { return; }
    r.PendingBytes();
    m := Message(r.data[idx][..len], truncated);
    cont := fn(given + [m]);
    GiveBack(r, idx);
    took := true;
  }

  /** With no concurrent publisher `rb_drain` ends, having given the visitor exactly the
      messages it takes, in order, and released exactly those. The messages are what the
      slots held while the visitor looked at them. */
  method Drain(r: Ring, fn: Visitor) returns (n: u32, given: seq<Message>)
    requires r.Valid()
    modifies r, r.stamps
    ensures r.Valid() && |given| == n && r.q.log == old(r.q.log) && r.q.released == old(r.q.released) + n
    ensures r.q.pending == old(r.q.pending) && r.q.holding == old(r.q.holding)
    ensures !old(r.q.ready) || old(r.q.holding) ==> n == 0 && r.q == old(r.q)
    ensures old(r.q.ready) && !old(r.q.holding) && SlotsSafe(r.q.slots, r.q.limit) ==>
              && n == Taken(old(r.q.log[r.q.released..]), fn, [])
              && given == old(r.q.log[r.q.released..])[..n]
  {
    hide SlotsSafe, InSlots, Linked, Wrap, SlotOf, IsPow2, Ring.Registers, Taken;
    n, given := 0, [];
    r.ReadyBit();
    if r.scratchSize == 0 { return; }
    ghost var q0 := r.q;
    ghost var queue := q0.log[q0.released..];
    TakenNone(queue, fn);
    while true
      invariant r.Valid() && r.q.ready && r.q.log == q0.log && r.q.released == q0.released + n && |given| == n
      invariant r.q.pending == q0.pending && r.q.holding == q0.holding && r.q.limit == q0.limit && r.q.slots == q0.slots
      invariant q0.holding ==> n == 0 && r.q == q0
      invariant SlotsSafe(r.q.slots, r.q.limit) && !q0.holding ==>
                  given == queue[..n] && Taken(queue, fn, []) == n + Taken(queue[n..], fn, given)
      decreases |q0.log| - r.q.released
    {
      var took, m, cont := DrainOne(r, fn, given);
      if !took { break; }
      TakenOne(queue, fn, n);
      n, given := n + 1, given + [m];
      if !cont { break; }
    }
  }

  // Flush

  /** What the callback does with the slot it is offered: the payload bytes it leaves there,
      the length it claims, and whether to publish and to stop. */
  datatype Fill = Fill(ok: bool, bytes: seq<Byte>, len: u32, truncated: bool, stop: bool)

  type Filler = nat -> Fill

  /** A fill that is published: the callback succeeded, and did not merely ask to stop. */
  predicate Good(f: Fill) {
    f.ok && (f.len > 0 || !f.stop)
  }

  ghost predicate FillsSlots(fn: Filler, cap: nat) {
    forall i: nat :: |fn(i).bytes| == cap
  }

  /** The message an accepted fill becomes. */
  function Made(f: Fill, cap: u32): Message
    requires |f.bytes| == cap
  {
    Message(Visible(f.bytes, Min(f.len, cap)), f.truncated || f.len > cap)
  }

  /** A message is a fill's: its flag says that the callback flagged it or claimed more than the slot
      holds, and its bytes are the first of the payload, as many as were claimed and fit; in the
      header there is room for 31 bits of that number. */
  predicate IsFrom(m: Message, f: Fill, cap: u32) {
    && (m.truncated <==> f.truncated || f.len > cap)
    && m.bytes <= f.bytes && |m.bytes| == (if f.len < cap then f.len else cap) % 0x8000_0000
  }

  lemma MadeIsFrom(f: Fill, cap: u32)
    requires |f.bytes| == cap
    ensures IsFrom(Made(f, cap), f, cap)
  {
  }

  /** How many messages a filler makes, from call `i` on, when there is room for `room`. */
  function Accepted(fn: Filler, i: nat, room: nat): nat
    decreases room
  {
    if room == 0 || !Good(fn(i)) then 0
    else if fn(i).stop then 1
    else 1 + Accepted(fn, i + 1, room - 1)
  }

  /** From call `i` on, `k` is the longest run of successful fills within the room there is, in which
      only the last may ask to stop, and then only with a message. What ends it early is a failed
      callback, a bare request to stop, or a message that came with one. */
  ghost predicate LongestRun(fn: Filler, i: nat, k: nat, room: nat) {
    && k <= room
    && (forall j :: i <= j < i + k ==> fn(j).ok && (fn(j).len > 0 || !fn(j).stop))
    && (forall j :: i <= j < i + k - 1 ==> !fn(j).stop)
    && (k < room ==>
          !fn(i + k).ok || (fn(i + k).len == 0 && fn(i + k).stop) || (k > 0 && fn(i + k - 1).stop))
  }

  lemma {:induction false} AcceptedIsRun(fn: Filler, i: nat, room: nat)
    ensures LongestRun(fn, i, Accepted(fn, i, room), room)
    decreases room
  {
    if room > 0 && Good(fn(i)) && !fn(i).stop {
      AcceptedIsRun(fn, i + 1, room - 1);
    }
  }

  lemma OneLongestRun(fn: Filler, i: nat, k: nat, k': nat, room: nat)
    requires LongestRun(fn, i, k, room) && LongestRun(fn, i, k', room)
    ensures k == k'
  {
  }

  /** The number accepted is the length of the longest run. */
  lemma AcceptedIsLongestRun(fn: Filler, i: nat, room: nat)
    ensures forall k: nat :: LongestRun(fn, i, k, room) <==> k == Accepted(fn, i, room)
  {
    AcceptedIsRun(fn, i, room);
    forall k: nat | LongestRun(fn, i, k, room) ensures k == Accepted(fn, i, room) {
      OneLongestRun(fn, i, k, Accepted(fn, i, room), room);
    }
  }

  lemma AcceptedOne(fn: Filler, i: nat, room: nat)
    requires room > 0
    ensures Accepted(fn, i, room) ==
            if !Good(fn(i)) then 0 else if fn(i).stop then 1 else 1 + Accepted(fn, i + 1, room - 1)
    ensures Accepted(fn, i, 0) == 0
  {
  }

  /** The messages of the first `n` fills. */
  ghost function MadeBy(fn: Filler, n: nat, cap: u32): (ms: seq<Message>)
    requires FillsSlots(fn, cap)
    ensures |ms| == n
    ensures forall i :: 0 <= i < n ==> ms[i] == Made(fn(i), cap)
  {
    if n == 0 then [] else MadeBy(fn, n - 1, cap) + [Made(fn(n - 1), cap)]
  }

  /** The messages from `at` on are those of the first `n` fills, in order. */
  ghost predicate AllFrom(log: seq<Message>, at: nat, fn: Filler, n: nat, cap: u32) {
    |log| == at + n && forall i :: 0 <= i < n ==> IsFrom(log[at + i], fn(i), cap)
  }

  lemma MadeByIsFrom(fn: Filler, n: nat, cap: u32, log: seq<Message>)
    requires FillsSlots(fn, cap)
    ensures AllFrom(log + MadeBy(fn, n, cap), |log|, fn, n, cap)
  {
    hide Made, MadeBy, IsFrom;
    forall i | 0 <= i < n ensures IsFrom((log + MadeBy(fn, n, cap))[|log| + i], fn(i), cap) {
      MadeIsFrom(fn(i), cap);
    }
  }

  lemma MadeOne(fn: Filler, n: nat, cap: u32)
    requires FillsSlots(fn, cap)
    ensures MadeBy(fn, 0, cap) == []
    ensures MadeBy(fn, n + 1, cap) == MadeBy(fn, n, cap) + [Made(fn(n), cap)]
  {
  }

  /** One turn of the flush loop. */
  method FlushOne(r: Ring, f: Fill) returns (made: bool)
    requires r.Valid() && r.q.ready && |f.bytes| == r.q.cap
    modifies r, r.hdr, r.entries, r.stamps, r.data
    ensures r.Valid() && r.q.ready && r.q.pending == old(r.q.pending)
    ensures old(r.q.pending.Some?) ==> !made && r.q == old(r.q)
    ensures old(r.q.pending.None?) ==> (made <==> old(r.q.Count()) < r.q.limit && Good(f))
    ensures r.q.released == old(r.q.released) && r.q.limit == old(r.q.limit) && r.q.cap == old(r.q.cap)
    ensures r.q.holding == old(r.q.holding)
    ensures r.q.log == old(r.q.log) + if made then [Made(f, r.q.cap)] else []
    ensures made ==> IsFrom(r.q.log[|old(r.q.log)|], f, r.q.cap)
  {
    hide IsFrom, SlotsSafe, InSlots, Linked, Wrap, SlotOf, IsPow2, Ring.Registers, Made, Good;
    var e, idx, cap := r.Acquire(0);
    made := false;
    if e != Ok { return; }
    r.WritePayload(f.bytes);
    assert r.q.buf == f.bytes;
    made := Conclude(r, f, idx, cap);
  }

  /** What the callback's answer leads to: the grant is given up or published. */
  method Conclude(r: Ring, f: Fill, idx: u32, cap: u32) returns (made: bool)
    requires r.Valid() && r.q.ready && r.q.pending == Some(0) && r.q.buf == f.bytes && |f.bytes| == r.q.cap
    requires idx == r.q.WriteSlot() && cap == r.q.cap
    modifies r, r.hdr, r.entries, r.stamps
    ensures r.Valid() && r.q.ready && r.q.pending.None? && (made <==> Good(f))
    ensures r.q.released == old(r.q.released) && r.q.limit == old(r.q.limit) && r.q.cap == old(r.q.cap)
    ensures r.q.holding == old(r.q.holding)
    ensures r.q.log == old(r.q.log) + if made then [Made(f, r.q.cap)] else []
    ensures made ==> IsFrom(r.q.log[|old(r.q.log)|], f, r.q.cap)
  {
    MadeIsFrom(f, r.q.cap);
    hide IsFrom, SlotsSafe, InSlots, Linked, Wrap, SlotOf, IsPow2, Ring.Registers, Made;
    made := false;
    if !f.ok {
      var _ := r.Abort();
      return;
    }
    if f.len == 0 && f.stop {
      var _ := r.Abort();
      return;
    }
    Settle(r, f, idx, cap);
    made := true;
  }

  /** Publishing an accepted fill, its length clamped to the slot. */
  method Settle(r: Ring, f: Fill, idx: u32, cap: u32)
    requires r.Valid() && r.q.ready && r.q.pending == Some(0) && r.q.buf == f.bytes && |f.bytes| == r.q.cap
    requires idx == r.q.WriteSlot() && cap == r.q.cap
    modifies r, r.hdr, r.entries, r.stamps
    ensures r.Valid() && r.q.ready && r.q.pending.None?
    ensures r.q.released == old(r.q.released) && r.q.limit == old(r.q.limit) && r.q.cap == old(r.q.cap)
    ensures r.q.holding == old(r.q.holding)
    ensures r.q.log == old(r.q.log) + [Made(f, r.q.cap)]
  {
    var len, truncated := f.len, f.truncated;
    if len > cap { len, truncated := cap, true; }
    PublishEffect(r.q, idx, len, truncated);
    var _ := r.Publish(idx, len, truncated);
  }

  /** With no concurrent consumer `rb_flush` ends, having published the longest run of good fills,
      in order, each as the callback left it, and leaves no slot pending that it acquired. */
  method Flush(r: Ring, fn: Filler) returns (n: u32)
    requires r.Valid() && FillsSlots(fn, r.q.cap)
    modifies r, r.hdr, r.entries, r.stamps, r.data
    ensures r.Valid() && r.q.pending == old(r.q.pending) && r.q.cap == old(r.q.cap)
    ensures r.q.released == old(r.q.released) && r.q.holding == old(r.q.holding)
    ensures !old(r.q.ready) || old(r.q.pending).Some? ==> n == 0 && r.q == old(r.q)
    ensures old(r.q.ready) && old(r.q.pending).None? ==> n == Accepted(fn, 0, old(r.q.limit - r.q.Count()))
    ensures old(r.q.ready) && old(r.q.pending).None? ==> LongestRun(fn, 0, n, old(r.q.limit - r.q.Count()))
    ensures r.q.log == old(r.q.log) + MadeBy(fn, n, r.q.cap)
    ensures AllFrom(r.q.log, |old(r.q.log)|, fn, n, r.q.cap)
  {
    hide SlotsSafe, InSlots, Linked, Wrap, SlotOf, IsPow2, Ring.Registers, Made, MadeBy, Accepted;
    hide Good, IsFrom, AllFrom, LongestRun;
    n := 0;
    MadeOne(fn, 0, r.q.cap);
    MadeByIsFrom(fn, 0, r.q.cap, r.q.log);
    r.ReadyBit();
    if r.scratchSize == 0 { return; }
    ghost var q0 := r.q;
    ghost var room := q0.limit - q0.Count();
    while true
      invariant r.Valid() && r.q.ready && r.q.pending == q0.pending && r.q.released == q0.released
      invariant r.q.holding == q0.holding && r.q.limit == q0.limit && r.q.cap == q0.cap
      invariant q0.pending.Some? ==> n == 0 && r.q == q0
      invariant n <= room && (q0.pending.None? ==> Accepted(fn, 0, room) == n + Accepted(fn, n, room - n))
      invariant r.q.log == q0.log + MadeBy(fn, n, q0.cap)
      decreases room - n
    {
      var f := fn(n);
      AcceptedOne(fn, n, if room > n then room - n else 1);
      var made := FlushOne(r, f);
      if !made { break; }
      MadeOne(fn, n, q0.cap);
      n := n + 1;
      if f.stop { break; }
    }
    AcceptedIsLongestRun(fn, 0, room);
    MadeByIsFrom(fn, n, q0.cap, q0.log);
  }
}
