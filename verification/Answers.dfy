/** What callers may rely on over whole runs of calls: what a grant and a message are, what the
    oversize policies rule out, what FULL answers add up to, and what is left after `rb_deinit`. */
module Answers {
  import opened Words
  import opened Slots
  import opened Fifo
  import opened Meaning
  import opened Calls

  // Messages

  lemma GrantedTo(q: Queue, data: seq<seq<Byte>>, wanted: u32)
    requires Fits(q, data) && q.ready && q.pending.None? && q.Count() < q.limit && wanted <= q.cap
    ensures var (q', _, a) := Answer(q, data, Acquire(wanted));
            q' == q.(pending := Some(wanted), buf := q'.buf) && a == Reply(Ok, q.WriteSlot(), q.cap, false, [])
  {
    AcquireAnswers(q, wanted, data[q.WriteSlot()]);
    hide SlotOf, IsPow2;
  }

  lemma WrittenTo(q: Queue, data: seq<seq<Byte>>, bytes: seq<Byte>)
    requires Fits(q, data) && q.pending.Some? && |bytes| <= q.cap
    ensures var q' := Answer(q, data, Write(bytes)).0;
            q' == q.(buf := q'.buf) && |q'.buf| == q.cap && q'.buf[..|bytes|] == bytes
  {
    hide SlotOf, IsPow2;
  }

  lemma PublishedAs(q: Queue, data: seq<seq<Byte>>, bytes: seq<Byte>)
    requires Fits(q, data) && q.ready && q.pending == Some(|bytes|) && |bytes| <= q.cap && |bytes| < 0x8000_0000
    requires q.buf[..|bytes|] == bytes
    ensures var q' := Answer(q, data, Publish(q.WriteSlot(), |bytes|, false)).0;
            q'.log == q.log + [Message(bytes, false)] && q'.pending.None? && q'.released == q.released
  {
    hide SlotOf, IsPow2, Fifo.Publish;
    MovingCalls(q, Publish(q.WriteSlot(), |bytes|, false));
    assert Meant(q, |bytes|, false) == Message(bytes, false);
  }

  /** What goes in comes out: bytes that fit, acquired for, written and published, are the next
      message, whole and without the flag. */
  lemma WrittenBytesArePublished(q: Queue, data: seq<seq<Byte>>, bytes: seq<Byte>)
    requires Fits(q, data) && q.ready && q.pending.None? && q.Count() < q.limit
    requires |bytes| <= q.cap && |bytes| < 0x8000_0000
    ensures var q' := After(q, data, [Acquire(|bytes|), Write(bytes), Publish(q.WriteSlot(), |bytes|, false)]).0;
            q'.log == q.log + [Message(bytes, false)] && q'.pending.None? && q'.released == q.released
  {
    var a, b, c := Acquire(|bytes|), Write(bytes), Publish(q.WriteSlot(), |bytes|, false);
    var (q1, data1, _) := Answer(q, data, a);
    AnswerFits(q, data, a);
    GrantedTo(q, data, |bytes|);
    var (q2, data2, _) := Answer(q1, data1, b);
    AnswerFits(q1, data1, b);
    WrittenTo(q1, data1, bytes);
    AnswerFits(q2, data2, c);
    PublishedAs(q2, data2, bytes);
    hide Answer, SlotOf, IsPow2;
    assert [a, b, c][1..] == [b, c] && [b, c][1..] == [c] && [c][1..] == [];
    assert After(q2, data2, [c]).0 == Answer(q2, data2, c).0;
    assert After(q1, data1, [b, c]) == After(q2, data2, [c]);
  }

  /** A grant is what the last successful `rb_acquire` asked for, until it is published or given
      up; so is what a message was meant to be. */
  lemma GrantIsWhatWasAskedFor(q: Queue, data: seq<seq<Byte>>, c: Call)
    requires Fits(q, data)
    ensures var (q', _, a) := Answer(q, data, c);
            q'.pending == if a.e.Ok? && c.Acquire? then Some(c.wanted)
                          else if a.e.Ok? && (c.Publish? || c.Abort?) then None else q.pending
  {
    hide SlotOf, IsPow2, Threshold, Visible, Meant, Fifo.Publish, Fifo.Release;
    MovingCalls(q, c);
  }

  // Policies

  /** The policy is `p` all through the run. */
  ghost predicate PolicyIs(q: Queue, calls: seq<Call>, p: Policy) {
    q.policy == p && forall c :: c in calls && c.SetPolicy? ==> c.policy == p
  }

  lemma PolicyKept(q: Queue, data: seq<seq<Byte>>, c: Call)
    requires Fits(q, data) && (c.SetPolicy? ==> c.policy == q.policy)
    ensures var q' := Answer(q, data, c).0; q'.policy == q.policy && q'.cap == q.cap
  {
    hide SlotOf, IsPow2, Threshold, Visible, Meant, Fifo.Publish, Fifo.Release;
    MovingCalls(q, c);
  }

  /** Only a request can be refused for its size, and a long one is granted only under the
      truncating policy. */
  lemma OversizeIsForRequests(q: Queue, data: seq<seq<Byte>>, c: Call)
    requires Fits(q, data)
    ensures Answer(q, data, c).2.e == Oversize ==> c.Acquire? && q.policy.Drop?
    ensures Answer(q, data, c).2.e == Ok && c.Acquire? && q.policy.Drop? ==> c.wanted <= q.cap
  {
    hide SlotOf, IsPow2, Threshold, Visible, Meant, Fifo.Publish, Fifo.Release;
    if c.Publish? { MovingAnswers(q, c.slot, c.written, c.truncated); }
    if c.Release? { MovingAnswers(q, c.slot, 0, false); }
  }

  lemma PolicyStays(q: Queue, data: seq<seq<Byte>>, c: Call)
    requires Fits(q, data) && (c.SetPolicy? ==> c.policy == q.policy)
    ensures var q' := Answer(q, data, c).0; q'.policy == q.policy && q'.cap == q.cap
    ensures q.policy.Drop? && (q.pending.Some? ==> q.pending.value <= q.cap) ==>
              var q' := Answer(q, data, c).0; q'.pending.Some? ==> q'.pending.value <= q.cap
    ensures q.policy.Truncate? ==> Answer(q, data, c).2.e != Oversize
  {
    hide Answer, Fits;
    PolicyKept(q, data, c);
    OversizeIsForRequests(q, data, c);
    GrantIsWhatWasAskedFor(q, data, c);
  }

  /** With the dropping policy in force no grant, and so no message, was ever meant to be longer
      than the payload area. */
  lemma {:induction false} DropGrantsNothingTooLong(q: Queue, data: seq<seq<Byte>>, calls: seq<Call>)
    requires Fits(q, data) && PolicyIs(q, calls, Drop) && (q.pending.Some? ==> q.pending.value <= q.cap)
    ensures forall i :: i in Intents(q, data, calls) ==> i.wanted <= q.cap
    decreases |calls|
  {
    if calls != [] {
      AnswerFits(q, data, calls[0]);
      PolicyStays(q, data, calls[0]);
      OneCallIsHonest(q, data, calls[0]);
      var a := Answer(q, data, calls[0]);
      hide Answer, Fits;
      DropGrantsNothingTooLong(a.0, a.1, calls[1..]);
    }
  }

  /** The answers of a run. */
  ghost function Replies(q: Queue, data: seq<seq<Byte>>, calls: seq<Call>): seq<Reply>
    requires Fits(q, data)
    decreases |calls|
  {
    if calls == [] then []
    else
      AnswerFits(q, data, calls[0]);
      var a := Answer(q, data, calls[0]);
      [a.2] + Replies(a.0, a.1, calls[1..])
  }

  /** With the truncating policy in force no call is ever refused for its size. */
  lemma {:induction false} TruncateRefusesNothing(q: Queue, data: seq<seq<Byte>>, calls: seq<Call>)
    requires Fits(q, data) && PolicyIs(q, calls, Truncate)
    ensures forall a :: a in Replies(q, data, calls) ==> a.e != Oversize
    decreases |calls|
  {
    if calls != [] {
      AnswerFits(q, data, calls[0]);
      PolicyStays(q, data, calls[0]);
      var a := Answer(q, data, calls[0]);
      hide Answer, Fits;
      TruncateRefusesNothing(a.0, a.1, calls[1..]);
    }
  }

  function Fulls(replies: seq<Reply>): nat {
    if replies == [] then 0 else (if replies[0].e == Full then 1 else 0) + Fulls(replies[1..])
  }

  function Plus64(x: nat, k: nat): nat {
    (x + k) % WORD64
  }

  lemma Plus64Twice(x: nat, j: nat, k: nat)
    ensures Plus64(Plus64(x, j), k) == Plus64(x, j + k)
  {
  }

  lemma FirstOfRun(q: Queue, data: seq<seq<Byte>>, calls: seq<Call>)
    requires Fits(q, data) && calls != []
    ensures var a := Answer(q, data, calls[0]);
            && Fits(a.0, a.1) && After(q, data, calls) == After(a.0, a.1, calls[1..])
            && Fulls(Replies(q, data, calls)) ==
               (if a.2.e == Full then 1 else 0) + Fulls(Replies(a.0, a.1, calls[1..]))
  {
    AnswerFits(q, data, calls[0]);
    var a := Answer(q, data, calls[0]);
    hide Answer, Fits;
    assert Replies(q, data, calls)[1..] == Replies(a.0, a.1, calls[1..]);
  }

  /** The counter of refused attempts counts the FULL answers, modulo 2^64. */
  lemma {:induction false} RefusalsAreCounted(q: Queue, data: seq<seq<Byte>>, calls: seq<Call>)
    requires Fits(q, data)
    ensures After(q, data, calls).0.stats.fullAttempts == Plus64(q.stats.fullAttempts, Fulls(Replies(q, data, calls)))
    decreases |calls|
  {
    if calls != [] {
      FirstOfRun(q, data, calls);
      OneRefusal(q, data, calls[0]);
      var a := Answer(q, data, calls[0]);
      hide Answer, Fits, Plus64, After, Replies, Fulls;
      RefusalsAreCounted(a.0, a.1, calls[1..]);
      Plus64Twice(q.stats.fullAttempts, if a.2.e == Full then 1 else 0, Fulls(Replies(a.0, a.1, calls[1..])));
    }
  }

  lemma OneRefusal(q: Queue, data: seq<seq<Byte>>, c: Call)
    requires Fits(q, data)
    ensures var (q', _, a) := Answer(q, data, c);
            q'.stats.fullAttempts == Plus64(q.stats.fullAttempts, if a.e == Full then 1 else 0)
  {
    hide SlotOf, IsPow2, Threshold, Visible, Fifo.Publish, Fifo.Release;
    MovingCalls(q, c);
    if c.Publish? { MovingAnswers(q, c.slot, c.written, c.truncated); }
    if c.Release? { MovingAnswers(q, c.slot, 0, false); }
    if Publishes(q, c) { PublishCallbacks(q, c.slot, c.written, c.truncated); }
    if Releases(q, c) { ReleaseCallbacks(q, c.slot); }
  }

  // After rb_deinit

  /** A ring that has been taken down answers every call with NOT_INIT, counts nothing, and never
      changes again. */
  lemma DeinitEnds(q: Queue, data: seq<seq<Byte>>, c: Call)
    requires Fits(q, data)
    ensures var q' := Deinit(q);
            && Fits(q', data) && !q'.ready && q'.pending.None? && !q'.holding && q'.log == q.log
            && Answer(q', data, c).0 == q' && Answer(q', data, c).1 == data
            && (!c.Write? && !c.Count? ==> Answer(q', data, c).2.e == NotInit)
            && (c.Write? ==> Answer(q', data, c).2.e == Inval) && (c.Count? ==> Answer(q', data, c).2.n == 0)
  {
    hide SlotOf, IsPow2;
  }

  lemma {:induction false} DeinitIsFinal(q: Queue, data: seq<seq<Byte>>, calls: seq<Call>)
    requires Fits(q, data)
    ensures Fits(Deinit(q), data) && After(Deinit(q), data, calls) == (Deinit(q), data)
    decreases |calls|
  {
    DeinitEnds(q, data, Count);
    hide Answer, Deinit;
    if calls != [] {
      DeinitEnds(q, data, calls[0]);
      AnswerFits(Deinit(q), data, calls[0]);
      DeinitIsFinal(q, data, calls[1..]);
    }
  }
}
