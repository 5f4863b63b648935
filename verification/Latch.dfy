/** The full latch at load and store granularity, under every interleaving.

    One step is one access: the head store, the reload of the tail, the relaxed load and
    store of the latch, the tail store, the threshold test with its latch store. Loads may
    be stale. The latch is written by both threads with relaxed order, so it is kept as its
    modification order: a load returns any store not older than the last this thread saw, and
    a store may come anywhere after it, even before stores of the other thread. */
module Latch {
  import opened Fifo

  /** A store to the latch: `Raise` comes with `on_full`, `Lower` with `on_low_d`. In `State`,
      `order` lists the stores in the latch's modification order, behind the initial clear;
      `calls` lists the callbacks in the order in which they are made. */
  datatype Store = Raise | Lower

  datatype Producer =
    | PIdle  // between publishes
    | PTail  // head stored: about to reload the tail
    | PLoad  // the count reached the limit: about to load the latch
    | PRaise // the latch was clear: about to set it

  datatype Consumer =
    | CIdle
    | CTest(left: nat) // tail stored, `left` were in view before: about to test the mark

  datatype State = State(
    P: nat, tSeen: nat, prod: Producer, pLatch: nat,
    C: nat, seen: nat, cons: Consumer, cLatch: nat,
    order: seq<Store>, calls: seq<Store>,
    batch: nat, crossed: nat, upward: bool)

  datatype Action =
    | Publish
    | LoadTail(i: nat)
    | LoadLatch(i: nat)
    | RaiseLatch(i: nat)
    | Refresh(i: nat)
    | Release
    | Test(i: nat)

  /** The limit and the percentage. */
  datatype Config = Config(limit: nat, lowD: nat)

  function Mark(c: Config): nat {
    Threshold(c.limit, c.lowD)
  }

  const START := State(0, 0, PIdle, 0, 0, 0, CIdle, 0, [Lower], [], 0, 0, false)

  predicate Can(c: Config, s: State, a: Action) {
    match a
    case Publish => s.prod.PIdle? && s.P < s.C + c.limit
    case LoadTail(i) => s.prod.PTail? && s.tSeen <= i <= s.C
    case LoadLatch(i) => s.prod.PLoad? && s.pLatch <= i < |s.order|
    case RaiseLatch(i) => s.prod.PRaise? && s.pLatch < i <= |s.order|
    case Refresh(i) => s.cons.CIdle? && s.seen == s.C && s.seen <= i <= s.P
    case Release => s.cons.CIdle? && s.C < s.seen
    case Test(i) => s.cons.CTest? && s.cLatch < i <= |s.order|
  }

  function Insert(order: seq<Store>, i: nat, x: Store): seq<Store>
    requires i <= |order|
  {
    order[..i] + [x] + order[i..]
  }

  /** Where a store that was at `j` is after an insertion at `i`. */
  function Shift(j: nat, i: nat): nat {
    if j < i then j else j + 1
  }

  function Do(c: Config, s: State, a: Action): State
    requires Can(c, s, a)
  {
    match a
    case Publish => s.(P := s.P + 1, prod := PTail)
    case LoadTail(i) =>
      s.(tSeen := i, prod := if s.P - i >= c.limit then PLoad else PIdle)
    case LoadLatch(i) =>
      s.(pLatch := i, prod := if s.order[i].Lower? then PRaise else PIdle)
    case RaiseLatch(i) =>
      s.(order := Insert(s.order, i, Raise), pLatch := i, cLatch := Shift(s.cLatch, i), prod := PIdle,
         calls := s.calls + [Raise])
    case Refresh(i) => s.(seen := i, batch := i - s.C, crossed := 0)
    case Release => s.(C := s.C + 1, cons := CTest(s.seen - s.C))
    case Test(i) =>
      var left := s.cons.left;
      var oldD, newD := BelowLow(left, c.limit, c.lowD), left > 0 && BelowLow(left - 1, c.limit, c.lowD);
      if !oldD && newD then
        s.(order := Insert(s.order, i, Lower), cLatch := i, pLatch := Shift(s.pLatch, i), cons := CIdle,
           calls := s.calls + [Lower], crossed := s.crossed + 1)
      else s.(cons := CIdle, upward := s.upward || (oldD && !newD))
  }

  /** The state after a sequence of steps; a step that cannot be taken is skipped. */
  function Exec(c: Config, s: State, actions: seq<Action>): State
    decreases |actions|
  {
    if actions == [] then s
    else Exec(c, if Can(c, s, actions[0]) then Do(c, s, actions[0]) else s, actions[1..])
  }

  // The invariant

  /** In the modification order `on_full` stores are never adjacent, and the producer has
      seen all of them: they are its own. */
  ghost predicate OrderOk(order: seq<Store>, pLatch: nat) {
    && pLatch < |order| && order[0] == Lower
    && (forall i :: 0 <= i < |order| - 1 ==> order[i].Lower? || order[i + 1].Lower?)
    && (forall i :: pLatch < i < |order| ==> order[i].Lower?)
  }

  /** How many were in view at the last test. */
  function InView(s: State): int {
    if s.cons.CTest? then s.cons.left else s.seen - s.C
  }

  ghost predicate ViewOk(c: Config, s: State) {
    && s.C <= s.seen <= s.P <= s.C + c.limit
    && s.seen - s.C <= s.batch <= c.limit
    && (s.cons.CTest? ==> s.cons.left == s.seen - s.C + 1 && s.batch >= s.cons.left)
    && s.crossed == (if 1 <= Mark(c) <= s.batch && InView(s) < Mark(c) then 1 else 0)
    && !s.upward
  }

  ghost predicate Inv(c: Config, s: State) {
    && OrderOk(s.order, s.pLatch) && s.cLatch < |s.order|
    && (s.prod.PRaise? ==> s.order[s.pLatch].Lower?)
    && multiset(s.order) == multiset(s.calls) + multiset{Lower}
    && ViewOk(c, s)
  }

  lemma InsertCounts(order: seq<Store>, i: nat, x: Store)
    requires i <= |order|
    ensures multiset(Insert(order, i, x)) == multiset(order) + multiset{x}
  {
    assert order == order[..i] + order[i..];
  }

  lemma InsertKeepsOrder(order: seq<Store>, pLatch: nat, i: nat, x: Store)
    requires OrderOk(order, pLatch) && 1 <= i <= |order|
    requires x.Raise? ==> pLatch < i && order[pLatch].Lower?
    ensures OrderOk(Insert(order, i, x), if x.Raise? then i else Shift(pLatch, i))
    ensures Insert(order, i, x)[Shift(pLatch, i)] == order[pLatch]
  {
    var order' := Insert(order, i, x);
    forall j | 0 <= j < |order'| - 1 ensures order'[j].Lower? || order'[j + 1].Lower? {
      if j == i - 1 {
        assert order'[j] == order[j] && order'[j + 1] == x;
      } else if j == i {
        assert order'[j] == x && order'[j + 1] == order[j];
      } else {
        var k := if j < i then j else j - 1;
        assert order'[j] == order[k] && order'[j + 1] == order[k + 1];
      }
    }
  }

  lemma RaiseKeeps(c: Config, s: State, i: nat)
    requires Inv(c, s) && Can(c, s, RaiseLatch(i))
    ensures Inv(c, Do(c, s, RaiseLatch(i)))
  {
    hide OrderOk, ViewOk, BelowLow, Threshold;
    assert s.pLatch < |s.order| && s.order[s.pLatch].Lower?;
    InsertCounts(s.order, i, Raise);
    InsertKeepsOrder(s.order, s.pLatch, i, Raise);
    ViewUnchanged(c, s, Do(c, s, RaiseLatch(i)));
  }

  lemma ViewUnchanged(c: Config, s: State, s': State)
    requires ViewOk(c, s)
    requires s'.P == s.P && s'.C == s.C && s'.seen == s.seen && s'.cons == s.cons
    requires s'.batch == s.batch && s'.crossed == s.crossed && s'.upward == s.upward
    ensures ViewOk(c, s')
  {
  }

  lemma TestKeepsView(c: Config, s: State, i: nat)
    requires ViewOk(c, s) && Can(c, s, Test(i))
    ensures ViewOk(c, Do(c, s, Test(i)))
  {
    BelowLowIsThreshold(s.cons.left, c.limit, c.lowD);
    BelowLowIsThreshold(s.cons.left - 1, c.limit, c.lowD);
  }

  lemma TestKeeps(c: Config, s: State, i: nat)
    requires Inv(c, s) && Can(c, s, Test(i))
    ensures Inv(c, Do(c, s, Test(i)))
  {
    assert s.pLatch < |s.order|;
    TestKeepsView(c, s, i);
    hide OrderOk, ViewOk, BelowLow, Threshold;
    InsertCounts(s.order, i, Lower);
    InsertKeepsOrder(s.order, s.pLatch, i, Lower);
  }

  lemma StepKeeps(c: Config, s: State, a: Action)
    requires Inv(c, s) && Can(c, s, a)
    ensures Inv(c, Do(c, s, a))
  {
    match a
    case RaiseLatch(i) => RaiseKeeps(c, s, i);
    case Test(i) => TestKeeps(c, s, i);
    case _ =>
  }

  lemma {:induction false} ExecKeeps(c: Config, s: State, actions: seq<Action>)
    requires Inv(c, s)
    ensures Inv(c, Exec(c, s, actions))
    decreases |actions|
  {
    if actions != [] {
      if Can(c, s, actions[0]) { StepKeeps(c, s, actions[0]); }
      ExecKeeps(c, if Can(c, s, actions[0]) then Do(c, s, actions[0]) else s, actions[1..]);
    }
  }

  /** Between any two `on_full` there is an `on_low_d`. */
  ghost predicate Alternates(stores: seq<Store>) {
    forall i :: 0 <= i < |stores| - 1 ==> stores[i].Lower? || stores[i + 1].Lower?
  }

  /** In the latch's own order the stores of `on_full` alternate under every interleaving and
      every staleness, and they are the callbacks, each once. */
  lemma StoresAlternate(c: Config, actions: seq<Action>)
    ensures var s := Exec(c, START, actions);
            Alternates(s.order) && multiset(s.order) == multiset(s.calls) + multiset{Lower}
  {
    ExecKeeps(c, START, actions);
  }

  // The order in which the client is called

  /** No store of `on_full` is placed before a store already made. */
  ghost predicate Prompt(c: Config, s: State, actions: seq<Action>)
    decreases |actions|
  {
    actions == [] ||
    (if Can(c, s, actions[0]) then
       (actions[0].RaiseLatch? ==> actions[0].i == |s.order|) && Prompt(c, Do(c, s, actions[0]), actions[1..])
     else Prompt(c, s, actions[1..]))
  }

  /** If the last callback was `on_full`, its store is the newest and the producer knows it. */
  ghost predicate NewestKnown(s: State) {
    && Alternates(s.calls)
    && (s.calls != [] && s.calls[|s.calls| - 1].Raise? ==>
          s.pLatch == |s.order| - 1 && |s.order| >= 1 && s.order[s.pLatch].Raise?)
  }

  lemma PromptStepKeeps(c: Config, s: State, a: Action)
    requires Inv(c, s) && NewestKnown(s) && Can(c, s, a) && (a.RaiseLatch? ==> a.i == |s.order|)
    ensures NewestKnown(Do(c, s, a))
  {
    hide BelowLow, Threshold, ViewOk;
  }

  lemma {:induction false} PromptRunAlternates(c: Config, s: State, actions: seq<Action>)
    requires Inv(c, s) && NewestKnown(s) && Prompt(c, s, actions)
    ensures Alternates(Exec(c, s, actions).calls)
    decreases |actions|
  {
    if actions != [] {
      if Can(c, s, actions[0]) {
        StepKeeps(c, s, actions[0]);
        PromptStepKeeps(c, s, actions[0]);
        PromptRunAlternates(c, Do(c, s, actions[0]), actions[1..]);
      } else {
        PromptRunAlternates(c, s, actions[1..]);
      }
    }
  }

  /** Under every interleaving and every stale load, as long as no store of `on_full` is
      overtaken by one of `on_low_d`, there is an `on_low_d` between any two `on_full`. */
  lemma PromptCallbacksAlternate(c: Config, actions: seq<Action>)
    requires Prompt(c, START, actions)
    ensures Alternates(Exec(c, START, actions).calls)
  {
    PromptRunAlternates(c, START, actions);
  }

  /** `on_low_d` fires at most once for each refresh of the consumer's view, and exactly once
      for a view that has been drained completely if it was at least the mark; the branches
      for an upward crossing are never taken. */
  lemma LowFiresOncePerRefresh(c: Config, actions: seq<Action>)
    ensures var s := Exec(c, START, actions);
            && s.crossed <= 1 && !s.upward
            && (s.cons.CIdle? && s.C == s.seen ==> s.crossed == if 1 <= Mark(c) <= s.batch then 1 else 0)
  {
    ExecKeeps(c, START, actions);
  }

  // A late on_full

  lemma {:induction false} ExecBoth(c: Config, s: State, a: seq<Action>, b: seq<Action>)
    ensures Exec(c, s, a + b) == Exec(c, Exec(c, s, a), b)
    decreases |a|
  {
    if a == [] {
      assert a + b == b;
    } else {
      assert (a + b)[1..] == a[1..] + b;
      ExecBoth(c, if Can(c, s, a[0]) then Do(c, s, a[0]) else s, a[1..], b);
    }
  }

  /** n publishes, each with a reload that finds the tail at `t`. */
  function Fill(n: nat, t: nat): seq<Action> {
    if n == 0 then [] else Fill(n - 1, t) + [Publish, LoadTail(t)]
  }

  lemma {:induction false} FillFills(c: Config, s: State, n: nat, t: nat)
    requires s.prod.PIdle? && s.tSeen <= t <= s.C <= s.P && s.P + n < t + c.limit
    ensures Exec(c, s, Fill(n, t)) == s.(P := s.P + n, tSeen := if n > 0 then t else s.tSeen)
  {
    if n > 0 {
      FillFills(c, s, n - 1, t);
      ExecBoth(c, s, Fill(n - 1, t), [Publish, LoadTail(t)]);
      TwoSteps(c, s.(P := s.P + n - 1, tSeen := if n > 1 then t else s.tSeen), Publish, LoadTail(t));
    }
  }

  lemma TwoSteps(c: Config, s: State, a: Action, b: Action)
    requires Can(c, s, a) && Can(c, Do(c, s, a), b)
    ensures Exec(c, s, [a, b]) == Do(c, Do(c, s, a), b)
  {
    var s1 := Do(c, s, a);
    assert [a, b][1..] == [b] && [b][1..] == [];
    assert Exec(c, s1, [b]) == Do(c, s1, b);
  }

  /** The last publish of a full ring, up to the point where the producer has read a clear
      latch. */
  lemma AboutToRaise(c: Config, s: State, t: nat, i: nat) returns (actions: seq<Action>)
    requires s.prod.PIdle? && s.tSeen <= t <= s.C <= s.P && s.P + 1 == t + c.limit
    requires s.pLatch <= i < |s.order| && s.order[i].Lower?
    ensures Exec(c, s, actions) == s.(P := s.P + 1, tSeen := t, pLatch := i, prod := PRaise)
  {
    TwoSteps(c, s, Publish, LoadTail(t));
    var m := s.(P := s.P + 1, tSeen := t, prod := PLoad);
    assert [LoadLatch(i)][1..] == [];
    assert Exec(c, m, [LoadLatch(i)]) == Do(c, m, LoadLatch(i));
    ExecBoth(c, s, [Publish, LoadTail(t)], [LoadLatch(i)]);
    actions := [Publish, LoadTail(t)] + [LoadLatch(i)];
  }

  /** The store made by a drain that crosses the mark, or none. */
  function Lowers(crossings: int): seq<Store> {
    if crossings > 0 then [Lower] else []
  }

  /** The consumer went from `s` to `s'`, at most one latch store going to the end. */
  ghost predicate Drained(s: State, s': State) {
    && s.crossed <= s'.crossed <= 1
    && s' == s.(C := s'.C, order := s.order + Lowers(s'.crossed - s.crossed), cLatch := s'.cLatch,
                calls := s.calls + Lowers(s'.crossed - s.crossed), crossed := s'.crossed)
  }

  lemma DrainedTwice(s: State, s1: State, s2: State)
    requires Drained(s, s1) && Drained(s1, s2)
    ensures Drained(s, s2)
  {
    assert s1.order + [] == s1.order && s1.calls + [] == s1.calls;
    assert s.order + [] == s.order && s.calls + [] == s.calls;
  }

  /** One release with its test. */
  lemma ReleaseOne(c: Config, s: State) returns (actions: seq<Action>)
    requires Inv(c, s) && s.cons.CIdle? && s.C < s.seen == s.P
    ensures var s' := Exec(c, s, actions); Inv(c, s') && s'.C == s.C + 1 && Drained(s, s')
  {
    hide OrderOk, BelowLow, Threshold, Exec, ViewOk;
    StepKeeps(c, s, Release);
    var s1 := Do(c, s, Release);
    assert s1 == s.(C := s.C + 1, cons := CTest(s.seen - s.C));
    TestLast(c, s1);
    TwoSteps(c, s, Release, Test(|s1.order|));
    actions := [Release, Test(|s1.order|)];
  }

  lemma TestLast(c: Config, s: State)
    requires Inv(c, s) && s.cons.CTest?
    ensures Can(c, s, Test(|s.order|))
    ensures var s' := Do(c, s, Test(|s.order|));
            && Inv(c, s') && s.crossed <= s'.crossed <= 1
            && s' == s.(cons := CIdle, order := s.order + Lowers(s'.crossed - s.crossed), cLatch := s'.cLatch,
                        calls := s.calls + Lowers(s'.crossed - s.crossed), crossed := s'.crossed)
  {
    StepKeeps(c, s, Test(|s.order|));
    AtMostOnce(c, Do(c, s, Test(|s.order|)));
    hide OrderOk, BelowLow, Threshold;
    assert Insert(s.order, |s.order|, Lower) == s.order + [Lower];
  }

  lemma AtMostOnce(c: Config, s: State)
    requires Inv(c, s)
    ensures s.crossed <= 1 && !s.upward && s.pLatch < |s.order| && s.cLatch < |s.order|
  {
  }

  /** Releases all that is in view. */
  lemma {:induction false} DrainView(c: Config, s: State) returns (actions: seq<Action>)
    requires Inv(c, s) && s.cons.CIdle? && s.seen == s.P
    ensures var s' := Exec(c, s, actions); Inv(c, s') && s'.C == s.seen && Drained(s, s')
    decreases s.seen - s.C
  {
    AtMostOnce(c, s);
    if s.C == s.seen {
      actions := [];
      assert s.order + [] == s.order && s.calls + [] == s.calls;
    } else {
      var first := ReleaseOne(c, s);
      var s1 := Exec(c, s, first);
      assert s.C < s.seen == s1.seen && s1.cons.CIdle? && s1.P == s.P;
      hide Inv, Drained;
      var rest := DrainView(c, s1);
      ExecBoth(c, s, first, rest);
      actions := first + rest;
      DrainedTwice(s, s1, Exec(c, s1, rest));
    }
  }

  /** The ring is full, the producer has read a clear latch, and before it stores the consumer
      drains everything. */
  lemma DrainedBeforeTheStore(c: Config) returns (actions: seq<Action>)
    requires c.limit >= 1
    ensures var s, n := Exec(c, START, actions), if 1 <= Mark(c) <= c.limit then 1 else 0;
            && Inv(c, s) && s.prod.PRaise? && s.cons.CIdle? && s.P == s.C == s.seen == c.limit
            && s.tSeen == 0 && s.pLatch == 0 && s.order == [Lower] + Lowers(n) && s.calls == Lowers(n)
  {
    var fill := Fill(c.limit - 1, 0);
    FillFills(c, START, c.limit - 1, 0);
    var s0 := START.(P := c.limit - 1);
    var last := AboutToRaise(c, s0, 0, 0);
    var s1 := s0.(P := c.limit, prod := PRaise);
    var look := [Refresh(c.limit)];
    var s2 := s1.(seen := c.limit, batch := c.limit);
    assert look[1..] == [];
    assert Exec(c, s1, look) == s2;
    ExecBoth(c, START, fill, last);
    ExecBoth(c, START, fill + last, look);
    BelowLowIsThreshold(0, c.limit, c.lowD);
    ExecKeeps(c, START, fill + last + look);
    var drain := DrainView(c, s2);
    ExecBoth(c, START, fill + last + look, drain);
    actions := fill + last + look + drain;
  }

  /** Between the reload of the tail that finds the ring full and the store of the latch, the
      consumer can drain the ring completely. The latch is then set on an empty ring, for
      every limit and every percentage: at this granularity no configuration is free of it. */
  lemma LateFullGetsStuck(c: Config) returns (actions: seq<Action>)
    requires c.limit >= 1
    ensures var s := Exec(c, START, actions);
            && s.prod.PIdle? && s.cons.CIdle? && s.P == s.C == s.seen
            && |s.order| >= 1 && s.order[|s.order| - 1] == Raise
  {
    var before := DrainedBeforeTheStore(c);
    var s := Exec(c, START, before);
    var rise := RaiseLatch(|s.order|);
    assert [rise][1..] == [];
    assert Exec(c, s, [rise]) == Do(c, s, rise);
    ExecBoth(c, START, before, [rise]);
    actions := before + [rise];
  }

  /** The same run with the late store overtaken: it lands before the store of `on_low_d` that
      was made first. The latch reads clear, and the next full ring calls `on_full` again. */
  lemma OvertakenFullComesTwice(c: Config) returns (actions: seq<Action>)
    requires 1 <= Mark(c) <= c.limit
    ensures Exec(c, START, actions).calls == [Lower, Raise, Raise]
  {
    var before := DrainedBeforeTheStore(c);
    var s := Exec(c, START, before);
    var rise := [RaiseLatch(1)];
    assert rise[1..] == [];
    var s1 := Do(c, s, rise[0]);
    assert Exec(c, s, rise) == s1 && s1.order == [Lower, Raise, Lower] && s1.calls == [Lower, Raise];
    var fill := Fill(c.limit - 1, c.limit);
    FillFills(c, s1, c.limit - 1, c.limit);
    var s2 := Exec(c, s1, fill);
    var again := AboutToRaise(c, s2, c.limit, 2);
    var s3 := Exec(c, s2, again);
    var last := [RaiseLatch(3)];
    assert last[1..] == [];
    assert Exec(c, s3, last) == Do(c, s3, last[0]);
    ExecBoth(c, START, before, rise);
    ExecBoth(c, START, before + rise, fill);
    ExecBoth(c, START, before + rise + fill, again);
    ExecBoth(c, START, before + rise + fill + again, last);
    actions := before + rise + fill + again + last;
  }

  /** Where `on_low_d` can never fire, the latch stays up after the first `on_full`. */
  lemma {:induction false} NothingToAlternate(c: Config, s: State, actions: seq<Action>)
    requires Inv(c, s) && Lower !in s.calls && !(1 <= Mark(c) <= c.limit)
    ensures Alternates(Exec(c, s, actions).calls)
    decreases |actions|
  {
    if actions != [] {
      if Can(c, s, actions[0]) {
        StepKeeps(c, s, actions[0]);
        NoCrossing(c, s, actions[0]);
        NothingToAlternate(c, Do(c, s, actions[0]), actions[1..]);
      } else {
        NothingToAlternate(c, s, actions[1..]);
      }
    } else {
      OneStoreAtMost(c, s);
    }
  }

  lemma NoCrossing(c: Config, s: State, a: Action)
    requires Inv(c, s) && Lower !in s.calls && !(1 <= Mark(c) <= c.limit) && Can(c, s, a)
    ensures Lower !in Do(c, s, a).calls
  {
    if a.Test? {
      BelowLowIsThreshold(s.cons.left, c.limit, c.lowD);
      BelowLowIsThreshold(s.cons.left - 1, c.limit, c.lowD);
    }
  }

  lemma OneStoreAtMost(c: Config, s: State)
    requires Inv(c, s) && Lower !in s.calls
    ensures |s.calls| <= 1
  {
    assert |s.order| == |multiset(s.order)| == |s.calls| + 1;
    assert multiset(s.order)[Lower] == 1;
    if |s.order| >= 3 {
      TwoLowers(s.order, if s.order[1].Lower? then 1 else 2);
    }
  }

  lemma TwoLowers(order: seq<Store>, k: nat)
    requires 1 <= k < |order| && order[0].Lower? && order[k].Lower?
    ensures multiset(order)[Lower] >= 2
  {
    assert order == [Lower] + order[1..k] + [Lower] + order[k + 1..];
  }

  /** Alternation as the client sees it, exactly: the machine as the C memory model allows it
      alternates its callbacks in every run if and only if `on_low_d` can never fire. */
  lemma CallbacksAlternateExactly(c: Config)
    ensures (forall actions :: Alternates(Exec(c, START, actions).calls)) <==> !(1 <= Mark(c) <= c.limit)
  {
    if 1 <= Mark(c) <= c.limit {
      var actions := OvertakenFullComesTwice(c);
      var calls := Exec(c, START, actions).calls;
      assert calls[1].Raise? && calls[1 + 1].Raise?;
    } else {
      forall actions ensures Alternates(Exec(c, START, actions).calls) {
        NothingToAlternate(c, START, actions);
      }
    }
  }

  /** After that the consumer can do nothing about it: with nothing to release, no step of
      its own changes the latch. */
  lemma {:induction false} ConsumerCannotLower(c: Config, s: State, actions: seq<Action>)
    requires s.cons.CIdle? && s.P == s.C == s.seen
    requires forall a :: a in actions ==> a.Refresh? || a.Release? || a.Test?
    ensures var s' := Exec(c, s, actions);
            s'.order == s.order && s'.P == s'.C
    decreases |actions|
  {
    if actions != [] {
      assert actions[0] in actions;
      ConsumerCannotLower(c, if Can(c, s, actions[0]) then Do(c, s, actions[0]) else s, actions[1..]);
    }
  }
}
