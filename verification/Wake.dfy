/** Sleeping and waking on the futex word, which is the producer's counter itself.

    One step is one shared access or system call, interleaved freely. The futex call
    compares and queues atomically, as the kernel promises. The waiter's own loads of the head,
    for its snapshot and for its counts, may be stale: they return any value from the last it
    saw to the newest. It may have drained any amount before it waits; `snap` is the position
    its `expected` value was taken at, `seen` the newest head it has seen. */
module Wake {
  import opened Words

  datatype Producer =
    | PIdle    // between publishes
    | PWaiters // head stored: about to load notify_waiters
    | PWake    // there were waiters: about to call futex wake
    | PEarly(saw: bool) // notify_waiters loaded ahead of the head store (see Rules)

  datatype Consumer =
    | CRun   // outside rb_wait
    | CInc   // first count was zero: about to add itself to notify_waiters
    | CCheck // top of the loop: about to count
    | CFutex // counted zero: about to call futex wait
    | CSleep // asleep
    | CDec   // leaving: about to take itself off notify_waiters

  datatype State = State(P: nat, C: nat, prod: Producer, cons: Consumer, seen: nat, snap: nat, waiters: nat)

  datatype Action =
    | Publish | LoadWaiters | FutexWake
    | LoadFirst | StoreAfter // the same two accesses, the relaxed load taking effect first
    | Snapshot(v: nat) | Drain(n: nat) | EnterWait(v: nat) | AddWaiter | CheckCount(v: nat) | FutexWait
    | WakeUp(again: bool) // timeout or signal: back to the loop top, or out at the deadline
    | Leave

  const START := State(0, 0, PIdle, CRun, 0, 0, 0)

  predicate Can(limit: nat, s: State, a: Action) {
    match a
    case Publish => s.prod.PIdle? && s.P < s.C + limit
    case LoadWaiters => s.prod.PWaiters?
    case FutexWake => s.prod.PWake?
    case LoadFirst => s.prod.PIdle? && s.P < s.C + limit
    case StoreAfter => s.prod.PEarly? && s.P < s.C + limit
    case Snapshot(v) => s.cons.CRun? && s.seen <= v <= s.P
    case Drain(n) => s.cons.CRun? && s.C + n <= s.P
    case EnterWait(v) => s.cons.CRun? && s.seen <= v <= s.P
    case AddWaiter => s.cons.CInc?
    case CheckCount(v) => s.cons.CCheck? && s.seen <= v <= s.P
    case FutexWait => s.cons.CFutex?
    case WakeUp(_) => s.cons.CSleep? || s.cons.CFutex? || s.cons.CCheck?
    case Leave => s.cons.CDec?
  }

  function Do(s: State, a: Action): State {
    match a
    case Publish => s.(P := s.P + 1, prod := PWaiters)
    case LoadWaiters => s.(prod := if s.waiters != 0 then PWake else PIdle)
    case FutexWake => s.(prod := PIdle, cons := if s.cons.CSleep? then CDec else s.cons)
    case LoadFirst => s.(prod := PEarly(s.waiters != 0))
    case StoreAfter => s.(P := s.P + 1, prod := if s.prod == PEarly(true) then PWake else PIdle)
    case Snapshot(v) => s.(snap := v, seen := v)
    case Drain(n) => s.(C := s.C + n, seen := if s.seen < s.C + n then s.C + n else s.seen)
    case EnterWait(v) => s.(seen := v, cons := if Sub32(Wrap(v), Wrap(s.C)) != 0 then CRun else CInc)
    case AddWaiter => s.(waiters := s.waiters + 1, cons := CCheck)
    case CheckCount(v) => s.(seen := v, cons := if Sub32(Wrap(v), Wrap(s.C)) != 0 then CDec else CFutex)
    case FutexWait => s.(cons := if Wrap(s.P) == Wrap(s.snap) then CSleep else CDec)
    case WakeUp(again) => s.(cons := if again then CCheck else CDec)
    case Leave => s.(waiters := if s.waiters > 0 then s.waiters - 1 else 0, cons := CRun)
  }

  /** What the waiter and the processor may do. `age` bounds how many publishes old `expected`
      may be when the kernel compares it. `inOrder` says that the load of `notify_waiters` takes
      effect after the head store; the program orders them so, but a relaxed load after a
      release store to another object may be reordered. */
  datatype Rules = Rules(limit: nat, age: nat, inOrder: bool)

  predicate Allowed(r: Rules, s: State, a: Action) {
    && Can(r.limit, s, a)
    && (a.FutexWait? ==> s.P - s.snap < r.age)
    && (a.LoadFirst? || a.StoreAfter? ==> !r.inOrder)
  }

  /** The state after a sequence of steps; a step that is not allowed is skipped. */
  function Exec(r: Rules, s: State, actions: seq<Action>): State
    decreases |actions|
  {
    if actions == [] then s
    else Exec(r, if Allowed(r, s, actions[0]) then Do(s, actions[0]) else s, actions[1..])
  }

  /** The waiter sleeps, there is something to consume, and no wake is on its way. */
  predicate Lost(s: State) {
    s.cons.CSleep? && s.P != s.C && s.prod.PIdle?
  }

  /** The end of the slice brings the sleeper back to a count, and a fresh count lets it out. */
  predicate SliceLetsOut(r: Rules, s: State) {
    && Allowed(r, s, WakeUp(true)) && Allowed(r, Do(s, WakeUp(true)), CheckCount(s.P))
    && Do(Do(s, WakeUp(true)), CheckCount(s.P)).cons.CDec?
  }

  predicate InWait(k: Consumer) {
    k.CCheck? || k.CFutex? || k.CSleep? || k.CDec?
  }

  ghost predicate Inv(limit: nat, s: State) {
    && limit < WORD
    && s.C <= s.seen <= s.P <= s.C + limit && s.snap <= s.seen
    && s.waiters == (if InWait(s.cons) then 1 else 0)
    && (s.cons.CInc? || s.cons.CFutex? ==> s.seen == s.C)
    && (s.cons.CSleep? ==> s.P == s.C || s.prod.PWaiters? || s.prod.PWake?)
  }

  lemma StepKeeps(r: Rules, s: State, a: Action)
    requires r.inOrder && r.age <= WORD && Inv(r.limit, s) && Allowed(r, s, a)
    ensures Inv(r.limit, Do(s, a))
  {
    if a.EnterWait? || a.CheckCount? { SubIsDistance(a.v, s.C); }
    if s.P - s.snap < WORD { SubIsDistance(s.P, s.snap); }
  }

  lemma {:induction false} ExecKeeps(r: Rules, s: State, actions: seq<Action>)
    requires r.inOrder && r.age <= WORD && Inv(r.limit, s)
    ensures Inv(r.limit, Exec(r, s, actions))
    decreases |actions|
  {
    if actions != [] {
      if Allowed(r, s, actions[0]) { StepKeeps(r, s, actions[0]); }
      ExecKeeps(r, if Allowed(r, s, actions[0]) then Do(s, actions[0]) else s, actions[1..]);
    }
  }

  /** Whether the snapshot was taken before or after draining, and however stale the snapshot and
      the counts were: a sleeping waiter means an empty
      ring or a producer that is on its way to waking it, and that does wake it, two of its
      steps later. Outside `rb_wait` the waiter count is back at zero; and whoever is about to
      count itself as waiting, or to sleep, has seen no message that it has not taken. */
  lemma NoLostWakeup(r: Rules, actions: seq<Action>)
    requires r.limit < WORD && r.inOrder && r.age <= WORD
    ensures var s := Exec(r, START, actions);
            && !Lost(s)
            && (s.cons.CSleep? ==> s.waiters == 1) && (s.cons.CRun? ==> s.waiters == 0)
            && (s.cons.CInc? || s.cons.CFutex? ==> s.seen == s.C)
            && (s.cons.CSleep? && s.prod.PWaiters? ==> Do(Do(s, LoadWaiters), FutexWake).cons.CDec?)
            && (s.cons.CSleep? && s.prod.PWake? ==> Do(s, FutexWake).cons.CDec?)
  {
    ExecKeeps(r, START, actions);
  }

  // The two ways to lose one

  lemma {:induction false} ExecBoth(r: Rules, s: State, a: seq<Action>, b: seq<Action>)
    ensures Exec(r, s, a + b) == Exec(r, Exec(r, s, a), b)
    decreases |a|
  {
    if a == [] {
      assert a + b == b;
    } else {
      assert (a + b)[1..] == a[1..] + b;
      ExecBoth(r, if Allowed(r, s, a[0]) then Do(s, a[0]) else s, a[1..], b);
    }
  }

  /** n messages through the ring, one at a time. */
  function Traffic(n: nat): seq<Action> {
    if n == 0 then [] else Traffic(n - 1) + [Publish, LoadWaiters, Drain(1)]
  }

  lemma {:induction false} TrafficMoves(r: Rules, n: nat)
    requires r.limit >= 1
    ensures Exec(r, START, Traffic(n)) == START.(P := n, C := n, seen := n)
  {
    if n > 0 {
      TrafficMoves(r, n - 1);
      ExecBoth(r, START, Traffic(n - 1), [Publish, LoadWaiters, Drain(1)]);
      var s := START.(P := n - 1, C := n - 1, seen := n - 1);
      ThreeSteps(r, s, Publish, LoadWaiters, Drain(1));
    }
  }

  lemma OneStep(r: Rules, s: State, a: Action)
    requires Allowed(r, s, a)
    ensures Exec(r, s, [a]) == Do(s, a)
  {
    assert [a][1..] == [];
  }

  lemma ThreeSteps(r: Rules, s: State, a: Action, b: Action, d: Action)
    requires Allowed(r, s, a) && Allowed(r, Do(s, a), b) && Allowed(r, Do(Do(s, a), b), d)
    ensures Exec(r, s, [a, b, d]) == Do(Do(Do(s, a), b), d)
  {
    OneStep(r, s, a);
    OneStep(r, Do(s, a), b);
    OneStep(r, Do(Do(s, a), b), d);
    ExecBoth(r, s, [a], [b]);
    ExecBoth(r, s, [a] + [b], [d]);
    assert [a] + [b] + [d] == [a, b, d];
  }

  /** With a snapshot exactly 2^32 publishes old the comparison is fooled: the waiter sleeps
      on a nonempty ring and no wake is on its way. Only the slice gets it out. */
  lemma StaleSnapshotLosesWakeup(r: Rules) returns (actions: seq<Action>)
    requires r.limit >= 1 && r.age > WORD
    ensures var s := Exec(r, START, actions); Lost(s) && SliceLetsOut(r, s)
  {
    var n := WORD - 1;
    TrafficMoves(r, n);
    var rest := SleepOnStale(r, n);
    ExecBoth(r, START, Traffic(n), rest);
    actions := Traffic(n) + rest;
  }

  /** The last publish of a lap comes between the waiter's count and its sleep. */
  lemma SleepOnStale(r: Rules, n: nat) returns (actions: seq<Action>)
    requires r.limit >= 1 && r.age > WORD && n == WORD - 1
    ensures var s := Exec(r, START.(P := n, C := n, seen := n), actions); Lost(s) && SliceLetsOut(r, s)
  {
    assert Wrap(n + 1) == Wrap(0);
    SubIsDistance(n, n);
    SubIsDistance(n + 1, n);
    hide Wrap, Sub32, Exec;
    var s0, s1 := START.(P := n, C := n, seen := n), START.(P := n, C := n, seen := n, cons := CFutex, waiters := 1);
    var enter := [EnterWait(n), AddWaiter, CheckCount(n)];
    ThreeSteps(r, s0, EnterWait(n), AddWaiter, CheckCount(n));
    var rest := PublishAndSleep(r, s1);
    ExecBoth(r, s0, enter, rest);
    actions := enter + rest;
    var s := s1.(P := n + 1, cons := CSleep);
    assert Do(Do(s, WakeUp(true)), CheckCount(n + 1)).cons.CDec?;
  }

  lemma PublishAndSleep(r: Rules, s: State) returns (actions: seq<Action>)
    requires s.prod.PIdle? && s.cons.CFutex? && s.waiters == 1 && s.P < s.C + r.limit
    requires Wrap(s.P + 1) == Wrap(s.snap) && s.P + 1 - s.snap < r.age
    ensures Exec(r, s, actions) == s.(P := s.P + 1, cons := CSleep)
  {
    hide Wrap, Sub32, Exec;
    var s2 := s.(P := s.P + 1);
    ThreeSteps(r, s, Publish, LoadWaiters, FutexWake);
    OneStep(r, s2, FutexWait);
    ExecBoth(r, s, [Publish, LoadWaiters, FutexWake], [FutexWait]);
    actions := [Publish, LoadWaiters, FutexWake] + [FutexWait];
  }

  /** If the processor lets the waiter load overtake the head store, a fresh snapshot does not
      help either: the producer sees no waiter and the waiter sees no message. Here too the
      waiter sleeps on a nonempty ring until its slice ends. */
  lemma OvertakingLosesWakeup(r: Rules) returns (actions: seq<Action>)
    requires r.limit >= 1 && r.age >= 1 && !r.inOrder
    ensures var s := Exec(r, START, actions); Lost(s) && s.snap == s.C && SliceLetsOut(r, s)
  {
    hide Exec;
    var first, second := [LoadFirst, EnterWait(0), AddWaiter], [CheckCount(0), FutexWait, StoreAfter];
    ThreeSteps(r, START, LoadFirst, EnterWait(0), AddWaiter);
    ThreeSteps(r, START.(prod := PEarly(false), cons := CCheck, waiters := 1), CheckCount(0), FutexWait, StoreAfter);
    ExecBoth(r, START, first, second);
    actions := first + second;
  }

  /** No run loses a wakeup, exactly: if and only if `expected` is never 2^32 or more publishes
      old when it is compared, and the waiter load takes effect after the head store. (An age
      bound of zero never lets the waiter sleep.) */
  lemma NoLostWakeupExactly(r: Rules)
    requires 1 <= r.limit < WORD && r.age >= 1
    ensures (forall actions :: !Lost(Exec(r, START, actions))) <==> r.age <= WORD && r.inOrder
  {
    hide Exec, Lost;
    if !r.inOrder {
      var actions := OvertakingLosesWakeup(r);
      assert Lost(Exec(r, START, actions));
    } else if r.age > WORD {
      var actions := StaleSnapshotLosesWakeup(r);
      assert Lost(Exec(r, START, actions));
    } else {
      forall actions ensures !Lost(Exec(r, START, actions)) {
        NoLostWakeup(r, actions);
      }
    }
  }

  // rb_wait itself

  const SLICE_MS := 100
  const ETIMEDOUT := 110
  const EINVAL := 22

  datatype FutexReturn = Woken | Again | Interrupted | TimedOut | Failed(errno: int)

  /** One turn of the wait loop as the outside world answers it: the count, the clock before
      the call, the futex return, the clock after it. */
  datatype Turn = Turn(count: u32, now: nat, futex: FutexReturn, after: nat)

  datatype Outcome = Waiting | Done(code: int)

  /** What one turn decides, given the deadline (none when the timeout is negative). */
  function Decide(timeout: int, deadline: nat, t: Turn): Outcome {
    if t.count != 0 then Done(0)
    else if timeout >= 0 && t.now >= deadline then Done(-ETIMEDOUT)
    else match t.futex
      case Woken => Done(0)
      case Again => Done(0)
      case Interrupted => Waiting
      case TimedOut => if timeout >= 0 && t.after >= deadline then Done(-ETIMEDOUT) else Waiting
      case Failed(errno) => Done(-errno)
  }

  /** The outcome is that of the first turn that decides. */
  function FirstDecision(timeout: int, deadline: nat, turns: seq<Turn>): Outcome {
    if turns == [] then Waiting
    else if Decide(timeout, deadline, turns[0]).Done? then Decide(timeout, deadline, turns[0])
    else FirstDecision(timeout, deadline, turns[1..])
  }

  /** A turn after which the wait goes on: nothing counted, the deadline not reached, and the futex
      call interrupted, or timed out with the deadline still not reached. */
  predicate GoesOn(timeout: int, deadline: nat, t: Turn) {
    && t.count == 0 && (timeout < 0 || t.now < deadline)
    && (t.futex.Interrupted? || (t.futex.TimedOut? && (timeout < 0 || t.after < deadline)))
  }

  /** The code that a turn ends the wait with: zero for a message, a wake or a changed head, a
      timeout at the deadline, the error of any other failure. */
  predicate EndsWith(timeout: int, deadline: nat, t: Turn, code: int) {
    && (t.count != 0 ==> code == 0)
    && (t.count == 0 && timeout >= 0 && t.now >= deadline ==> code == -ETIMEDOUT)
    && (t.count == 0 && (timeout < 0 || t.now < deadline) ==>
          && (t.futex.Woken? || t.futex.Again? ==> code == 0)
          && (t.futex.TimedOut? ==> code == -ETIMEDOUT)
          && (t.futex.Failed? ==> code == -t.futex.errno))
  }

  /** The wait goes on through `k` turns and ends at the next with this code. */
  ghost predicate EndsAt(timeout: int, deadline: nat, turns: seq<Turn>, k: nat, code: int) {
    && k < |turns| && (forall j :: 0 <= j < k ==> GoesOn(timeout, deadline, turns[j]))
    && !GoesOn(timeout, deadline, turns[k]) && EndsWith(timeout, deadline, turns[k], code)
  }

  /** The wait is still on exactly if every turn went on; otherwise the first that did not gave the
      code. */
  lemma {:induction false} WaitExactly(timeout: int, deadline: nat, turns: seq<Turn>)
    ensures FirstDecision(timeout, deadline, turns).Waiting? <==>
            forall k :: 0 <= k < |turns| ==> GoesOn(timeout, deadline, turns[k])
    ensures forall code :: FirstDecision(timeout, deadline, turns) == Done(code) <==>
            exists k: nat :: EndsAt(timeout, deadline, turns, k, code)
    decreases |turns|
  {
    if turns != [] {
      var rest := turns[1..];
      WaitExactly(timeout, deadline, rest);
      forall code ensures FirstDecision(timeout, deadline, turns) == Done(code) <==>
                          exists k: nat :: EndsAt(timeout, deadline, turns, k, code)
      {
        EndsLater(timeout, deadline, turns, code);
      }
    }
  }

  lemma EndsLater(timeout: int, deadline: nat, turns: seq<Turn>, code: int)
    requires turns != []
    ensures (exists k: nat :: EndsAt(timeout, deadline, turns, k, code)) <==>
            if GoesOn(timeout, deadline, turns[0])
            then exists k: nat :: EndsAt(timeout, deadline, turns[1..], k, code)
            else EndsWith(timeout, deadline, turns[0], code)
  {
    if GoesOn(timeout, deadline, turns[0]) {
      if k: nat :| EndsAt(timeout, deadline, turns[1..], k, code) {
        assert EndsAt(timeout, deadline, turns, k + 1, code);
      }
      if k: nat :| EndsAt(timeout, deadline, turns, k, code) {
        assert EndsAt(timeout, deadline, turns[1..], k - 1, code);
      }
    } else if EndsWith(timeout, deadline, turns[0], code) {
      assert EndsAt(timeout, deadline, turns, 0, code);
    }
  }

  /** `rb_wait` against any script of answers, `counted` turns of which it goes through. However it
      ends the waiter count is restored; each sleep lasts a slice or up to the deadline,
      whichever is shorter, and the count is taken again before each one. */
  method Wait(ready: bool, firstCount: u32, start: nat, timeout: int, turns: seq<Turn>, waiters0: u32)
    returns (outcome: Outcome, waiters: u32, sleeps: seq<nat>, counted: nat)
    ensures outcome == if !ready then Done(-EINVAL) else if firstCount != 0 then Done(0)
                       else FirstDecision(timeout, start + if timeout >= 0 then timeout else 0, turns)
    ensures ready && firstCount == 0 ==>
              var deadline := start + if timeout >= 0 then timeout else 0;
              if outcome.Done? then counted >= 1 && EndsAt(timeout, deadline, turns, counted - 1, outcome.code)
              else counted == |turns| && forall k :: 0 <= k < |turns| ==> GoesOn(timeout, deadline, turns[k])
    ensures outcome.Done? ==> waiters == waiters0
    ensures outcome.Waiting? ==> waiters == Add32(waiters0, 1)
    ensures |sleeps| <= counted <= |turns| && counted <= |sleeps| + 1
    ensures forall k :: 0 <= k < |sleeps| ==> turns[k].count == 0 && 1 <= sleeps[k] <= SLICE_MS
    ensures timeout >= 0 ==> forall k :: 0 <= k < |sleeps| ==> turns[k].now + sleeps[k] <= start + timeout
    ensures forall k :: 0 <= k < |sleeps| && sleeps[k] < SLICE_MS ==>
              timeout >= 0 && turns[k].now + sleeps[k] == start + timeout
  {
    waiters, sleeps, counted := waiters0, [], 0;
    if !ready { return Done(-EINVAL), waiters, sleeps, counted; }
    if firstCount != 0 { return Done(0), waiters, sleeps, counted; }
    var deadline := start + if timeout >= 0 then timeout else 0;
    waiters := Add32(waiters, 1);
    outcome := Waiting;
    while counted < |turns| && outcome.Waiting?
      invariant |sleeps| <= counted <= |turns| && counted <= |sleeps| + 1
      invariant waiters == Add32(waiters0, 1)
      invariant outcome.Waiting? ==> |sleeps| == counted
      invariant outcome.Waiting? ==> forall k :: 0 <= k < counted ==> GoesOn(timeout, deadline, turns[k])
      invariant outcome.Done? ==> counted >= 1 && EndsAt(timeout, deadline, turns, counted - 1, outcome.code)
      invariant forall k :: 0 <= k < |sleeps| ==> turns[k].count == 0 && 1 <= sleeps[k] <= SLICE_MS
      invariant timeout >= 0 ==> forall k :: 0 <= k < |sleeps| ==> turns[k].now + sleeps[k] <= deadline
      invariant forall k :: 0 <= k < |sleeps| && sleeps[k] < SLICE_MS ==>
                  timeout >= 0 && turns[k].now + sleeps[k] == deadline
      decreases |turns| - counted
    {
      var t := turns[counted];
      counted := counted + 1;
      if t.count != 0 {
        outcome := Done(0);
      } else if timeout >= 0 && t.now >= deadline {
        outcome := Done(-ETIMEDOUT);
      } else {
        var remain := if timeout >= 0 then deadline - t.now else SLICE_MS;
        var slice := if remain < SLICE_MS then remain else SLICE_MS;
        if slice == 0 {
          outcome := Done(-ETIMEDOUT);
        } else {
          sleeps := sleeps + [slice];
          match t.futex {
            case Woken => outcome := Done(0);
            case Again => outcome := Done(0);
            case Interrupted =>
            case TimedOut => if timeout >= 0 && t.after >= deadline { outcome := Done(-ETIMEDOUT); }
            case Failed(errno) => outcome := Done(-errno);
          }
        }
      }
    }
    if outcome.Done? {
      waiters := Sub32(waiters, 1);
    }
    WaitExactly(timeout, deadline, turns);
  }

  /** The other error returns of the futex call; success and timeout have their own. */
  ghost predicate Plausible(turns: seq<Turn>) {
    forall k :: 0 <= k < |turns| && turns[k].futex.Failed? ==>
      turns[k].futex.errno != 0 && turns[k].futex.errno != ETIMEDOUT
  }

  predicate Due(t: Turn, deadline: nat) {
    t.now >= deadline || t.after >= deadline
  }

  predicate Wakes(t: Turn) {
    t.count != 0 || t.futex.Woken? || t.futex.Again?
  }

  /** A timeout is reported only for a finite timeout, and only after the deadline; success
      only after a message was counted, a wake, or a head that no longer matched; any other error
      only if the futex call failed with it. */
  lemma {:induction false} OutcomesAreHonest(timeout: int, deadline: nat, turns: seq<Turn>)
    requires Plausible(turns)
    ensures FirstDecision(timeout, deadline, turns) == Done(-ETIMEDOUT) ==>
              timeout >= 0 && exists t :: t in turns && Due(t, deadline)
    ensures FirstDecision(timeout, deadline, turns) == Done(0) ==> exists t :: t in turns && Wakes(t)
    ensures forall e :: e != 0 && e != ETIMEDOUT && FirstDecision(timeout, deadline, turns) == Done(-e) ==>
              exists t :: t in turns && t.futex == Failed(e)
    decreases |turns|
  {
    if turns != [] {
      var t, rest := turns[0], turns[1..];
      assert t in turns;
      if Decide(timeout, deadline, t).Waiting? {
        OutcomesAreHonest(timeout, deadline, rest);
        assert forall x :: x in rest ==> x in turns;
      } else {
        assert Decide(timeout, deadline, t) == Done(-ETIMEDOUT) ==> Due(t, deadline);
        assert Decide(timeout, deadline, t) == Done(0) ==> Wakes(t);
      }
    }
  }
}
