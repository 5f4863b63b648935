/** When the two low-water callbacks are made, over whole runs: once in each of the consumer's
    views of the head, `on_low_d` first, and exactly in the views that cross the level. */
module LowWater {
  import opened Words
  import opened Slots
  import opened Fifo
  import opened Calls
  import opened Meaning

  /** The consumer's current view: how many callbacks had been made when it was taken, and how many
      messages it showed. */
  datatype View = View(from: nat, size: nat)

  /** A consume with nothing left in view takes a new one. A new limit needs an empty ring; what is
      in view then is nothing. */
  ghost function NextView(q: Queue, c: Call, v: View): View
    requires q.Ok()
  {
    if c.Consume? && q.ready && !q.holding && q.released == q.seen then View(|q.events|, |q.log| - q.released)
    else if c.SetLimit? && Fifo.SetLimit(q, c.limit).1.Ok? then View(|q.events|, 0)
    else v
  }

  /** The view at the end of a run. */
  ghost function LastView(q: Queue, data: seq<seq<Byte>>, calls: seq<Call>, v: View): View
    requires Fits(q, data)
    decreases |calls|
  {
    if calls == [] then v
    else
      AnswerFits(q, data, calls[0]);
      var a := Answer(q, data, calls[0]);
      LastView(a.0, a.1, calls[1..], NextView(q, calls[0], v))
  }

  /** The low-water callbacks among the events, in order. */
  function Lows(events: seq<Event>): seq<Event> {
    if events == [] then []
    else
      var last := events[|events| - 1];
      Lows(events[..|events| - 1]) + if last.OnLowD? || last.OnLowE? then [last] else []
  }

  /** A view that showed `size` messages started at or above the level, and is now below it. */
  predicate WentBelow(q: Queue, size: nat, percent: nat)
    requires q.released <= q.seen
  {
    !BelowLow(size, q.limit, percent) && BelowLow(q.seen - q.released, q.limit, percent)
  }

  function Warnings(d: bool, e: bool): seq<Event> {
    (if d then [OnLowD] else []) + (if e then [OnLowE] else [])
  }

  ghost predicate Warned(q: Queue, v: View)
    requires q.released <= q.seen
  {
    && v.from <= |q.events| && q.seen - q.released <= v.size
    && Lows(q.events[v.from..]) == Warnings(WentBelow(q, v.size, q.lowD), WentBelow(q, v.size, q.lowE))
  }

  lemma {:induction false} LowsAdded(events: seq<Event>, from: nat, more: seq<Event>)
    requires from <= |events|
    ensures Lows((events + more)[from..]) == Lows(events[from..]) + Lows(more)
    decreases |more|
  {
    if more == [] {
      assert events + more == events;
    } else {
      var rest, all := more[..|more| - 1], (events + more)[from..];
      LowsAdded(events, from, rest);
      assert all[..|all| - 1] == (events + rest)[from..];
    }
  }

  lemma OneMoreLow(events: seq<Event>, e: Event)
    ensures Lows(events + [e]) == Lows(events) + if e.OnLowD? || e.OnLowE? then [e] else []
  {
    assert (events + [e])[..|events|] == events;
  }

  lemma LowsOfWarnings(d: bool, e: bool)
    ensures Lows(Warnings(d, e)) == Warnings(d, e)
  {
    var first := if d then [OnLowD] else [];
    OneMoreLow([], OnLowD);
    OneMoreLow(first, OnLowE);
    assert [] + [OnLowD] == [OnLowD] && first + [] == first;
  }

  lemma MoreWarnings(d: bool, e: bool, d': bool, e': bool)
    requires d' ==> !d && !e
    requires e' ==> !e
    ensures Warnings(d, e) + Warnings(d', e') == Warnings(d || d', e || e')
  {
  }

  lemma LowsOfPublish(e: Event, full: bool)
    requires e.SlotAdded?
    ensures Lows([e] + if full then [OnFull] else []) == []
  {
    OneMoreLow([], e);
    OneMoreLow([e], OnFull);
    assert [] + [e] == [e] == [e] + [];
  }

  /** Fewer messages are below a level all the more, and a lower level is gone below later. */
  lemma BelowLowMonotone(count: nat, count': nat, limit: nat, percent: nat, percent': nat)
    requires count' <= count && percent' <= percent
    ensures BelowLow(count, limit, percent) ==> BelowLow(count', limit, percent)
    ensures BelowLow(count, limit, percent') ==> BelowLow(count, limit, percent)
  {
    assert limit * percent - limit * percent' == limit * (percent - percent') >= 0;
  }

  lemma PublishWarns(q: Queue, slot: u32, written: u32, truncated: bool, v: View)
    requires q.Ok() && q.ready && q.pending.Some? && slot == q.WriteSlot() && Warned(q, v)
    ensures var q' := Fifo.Publish(q, slot, written, truncated).0; q'.released <= q'.seen && Warned(q', v)
  {
    PublishCallbacks(q, slot, written, truncated);
    PublishEffect(q, slot, written, truncated);
    var q' := Fifo.Publish(q, slot, written, truncated).0;
    hide Fifo.Publish, Queue.Ok, BelowLow, Lows;
    var e := q'.events[|q.events|];
    var full := |q'.events| > |q.events| + 1;
    assert q'.events == q.events + ([e] + if full then [OnFull] else []);
    LowsOfPublish(e, full);
    LowsAdded(q.events, v.from, [e] + if full then [OnFull] else []);
  }

  /** A view is below a level after a release if it was before, or crosses it now. */
  lemma CrossingAdds(size: nat, left: nat, limit: nat, percent: nat)
    requires 1 <= left <= size
    ensures !BelowLow(size, limit, percent) && BelowLow(left - 1, limit, percent) <==>
            (!BelowLow(size, limit, percent) && BelowLow(left, limit, percent)) || Crosses(left, limit, percent)
    ensures Crosses(left, limit, percent) ==> !BelowLow(left, limit, percent)
  {
    BelowLowMonotone(size, left, limit, percent, percent);
    BelowLowMonotone(left, left - 1, limit, percent, percent);
  }

  lemma ReleaseConcludes(q: Queue, q': Queue, v: View, d: bool, e: bool)
    requires q.released < q.seen && Warned(q, v)
    requires q'.seen == q.seen && q'.released == q.released + 1 && q'.lowD == q.lowD && q'.lowE == q.lowE
    requires WentBelow(q', v.size, q.lowD) <==> WentBelow(q, v.size, q.lowD) || d
    requires WentBelow(q', v.size, q.lowE) <==> WentBelow(q, v.size, q.lowE) || e
    requires d ==> !WentBelow(q, v.size, q.lowD) && !WentBelow(q, v.size, q.lowE)
    requires e ==> !WentBelow(q, v.size, q.lowE)
    requires q'.events == q.events + Warnings(d, e)
    ensures Warned(q', v)
  {
    hide WentBelow, Warnings, Lows;
    LowsOfWarnings(d, e);
    LowsAdded(q.events, v.from, Warnings(d, e));
    MoreWarnings(WentBelow(q, v.size, q.lowD), WentBelow(q, v.size, q.lowE), d, e);
  }

  lemma ReleaseWarns(q: Queue, slot: u32, v: View)
    requires q.Ok() && q.ready && q.holding && slot == q.ReadSlot() && Warned(q, v)
    ensures var q' := Fifo.Release(q, slot).0; q'.released <= q'.seen && Warned(q', v)
  {
    ReleaseCallbacks(q, slot);
    ReleaseEffect(q, slot);
    var q', left := Fifo.Release(q, slot).0, q.seen - q.released;
    CrossingAdds(v.size, left, q.limit, q.lowD);
    CrossingAdds(v.size, left, q.limit, q.lowE);
    BelowLowMonotone(left, left, q.limit, q.lowD, q.lowE);
    hide Fifo.Release, Queue.Ok, BelowLow, Lows, Crosses, Threshold, SlotOf;
    var d, e := Crosses(left, q.limit, q.lowD), Crosses(left, q.limit, q.lowE);
    assert q'.events == q.events + Warnings(d, e);
    ReleaseConcludes(q, q', v, d, e);
  }

  /** The other calls make no callbacks; a consume may renew the view, and a new limit ends it. */
  lemma QuietCallWarns(q: Queue, data: seq<seq<Byte>>, c: Call, v: View)
    requires Fits(q, data) && Warned(q, v) && !Publishes(q, c) && !Releases(q, c)
    ensures var q' := Answer(q, data, c).0; q'.released <= q'.seen && Warned(q', NextView(q, c, v))
  {
    MovingCalls(q, c);
    CallEffect(q, data, c);
    ConsumeAnswers(q);
    if c.SetLimit? { SetLimitAnswers(q, c.limit); }
    hide Fifo.Publish, Fifo.Release, Fifo.Consume, BelowLow, IsPow2, SlotOf, Lows, Threshold;
  }

  lemma CallWarns(q: Queue, data: seq<seq<Byte>>, c: Call, v: View)
    requires Fits(q, data) && Warned(q, v)
    ensures var q' := Answer(q, data, c).0; q'.released <= q'.seen && Warned(q', NextView(q, c, v))
  {
    hide Warned, Fifo.Publish, Fifo.Release;
    if Publishes(q, c) {
      PublishWarns(q, c.slot, c.written, c.truncated, v);
    } else if Releases(q, c) {
      ReleaseWarns(q, c.slot, v);
    } else {
      QuietCallWarns(q, data, c, v);
    }
  }

  lemma {:induction false} RunWarns(q: Queue, data: seq<seq<Byte>>, calls: seq<Call>, v: View)
    requires Fits(q, data) && Warned(q, v)
    ensures var q' := After(q, data, calls).0; q'.Ok() && Warned(q', LastView(q, data, calls, v))
    decreases |calls|
  {
    if calls != [] {
      AnswerFits(q, data, calls[0]);
      CallWarns(q, data, calls[0], v);
      var a := Answer(q, data, calls[0]);
      hide Answer, Warned, NextView;
      RunWarns(a.0, a.1, calls[1..], NextView(q, calls[0], v));
    }
  }

  /** On a new ring, after any calls: the low-water callbacks made since the view was taken are
      `on_low_d` if the view went below `low_d` of the limit, then `on_low_e` if it went below
      `low_e`, each once. */
  lemma LowCallbacksOfEveryView(q: Queue, data: seq<seq<Byte>>, calls: seq<Call>)
    requires Fresh(q, data)
    ensures var q', v := After(q, data, calls).0, LastView(q, data, calls, View(0, 0));
            && q'.Ok() && v.from <= |q'.events| && q'.seen - q'.released <= v.size
            && Lows(q'.events[v.from..]) == Warnings(WentBelow(q', v.size, q'.lowD), WentBelow(q', v.size, q'.lowE))
  {
    RunWarns(q, data, calls, View(0, 0));
  }

  predicate InOrder(lows: seq<Event>) {
    lows == [] || lows == [OnLowD] || lows == [OnLowE] || lows == [OnLowD, OnLowE]
  }

  lemma WarnedInOrder(q: Queue, v: View)
    requires q.Ok() && Warned(q, v)
    ensures InOrder(Lows(q.events[v.from..]))
    ensures q.released == q.seen ==>
              && (OnLowD in Lows(q.events[v.from..]) <==> q.lowD > 0 && !BelowLow(v.size, q.limit, q.lowD))
              && (OnLowE in Lows(q.events[v.from..]) <==> q.lowE > 0 && !BelowLow(v.size, q.limit, q.lowE))
  {
    BelowLowIsThreshold(0, q.limit, q.lowD);
    BelowLowIsThreshold(0, q.limit, q.lowE);
    hide IsPow2, Lows, BelowLow, Threshold;
    assert [OnLowD] + [OnLowE] == [OnLowD, OnLowE];
  }

  /** No view makes a callback twice, or `on_low_e` before `on_low_d`; and a view that has been
      drained made each of them exactly if it had started at or above its level. */
  lemma DrainedViewWarned(q: Queue, data: seq<seq<Byte>>, calls: seq<Call>)
    requires Fresh(q, data)
    ensures var q', v := After(q, data, calls).0, LastView(q, data, calls, View(0, 0));
            && v.from <= |q'.events|
            && var lows := Lows(q'.events[v.from..]);
            && InOrder(lows)
            && (q'.released == q'.seen ==>
                  && (OnLowD in lows <==> q'.lowD > 0 && !BelowLow(v.size, q'.limit, q'.lowD))
                  && (OnLowE in lows <==> q'.lowE > 0 && !BelowLow(v.size, q'.limit, q'.lowE)))
  {
    RunWarns(q, data, calls, View(0, 0));
    WarnedInOrder(After(q, data, calls).0, LastView(q, data, calls, View(0, 0)));
    hide Queue.Ok, Lows, BelowLow, WentBelow, LastView;
  }
}
