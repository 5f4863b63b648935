/** The two-ring offload pipeline: the host publishes payloads on ring A, the worker hashes
    each one and publishes the result on ring B while still holding the slot of A, the host
    consumes the results. Each ring call is one step; both sides spin when a ring is full.

    The answers FULL and EMPTY may be stale, as they may be of one ring: a call that loads the
    other side's counter gets any value from the last it saw to the newest. One thing the two
    rings together rule out. The worker stores the head of B before the tail of A, so a host
    that has seen the tail of A at t has seen everything up to result t: by the coherence
    rules of section 5.1.2.4 of ISO/IEC 9899:2011 its next load of the head of B returns at
    least t. */
module Pipeline {
  import opened Words
  import opened Hash

  // The machine

  type Payload = seq<Byte>

  datatype Result = Result(seq_: u32, hash: u32, inLen: nat)

  /** `Stream` drains B, then publishes one payload, and so on; `drop` gives up on a full ring
      A instead of spinning. `RoundTrip` waits for each result before the next payload. */
  datatype Mode = Stream(drop: bool) | RoundTrip

  datatype Config = Config(mode: Mode, limitA: nat, limitB: nat)

  datatype Host =
    | HDrain   // about to consume from B
    | HHeld    // holding a result of B
    | HAcquire // trying to acquire a slot of A
    | HGranted // slot of A granted, about to publish
    | HAwait   // waiting for the result (RoundTrip)

  datatype Worker =
    | WIdle    // about to consume from A
    | WHold    // holding a payload of A, trying to acquire a slot of B
    | WGranted // slot of B granted, about to publish
    | WRelease // published, about to release the slot of A

  /** `tailA` and `headB` are what the host last saw of the worker's counters, `headA` and
      `tailB` what the worker last saw of the host's. */
  datatype State = State(
    sent: seq<Payload>, releasedA: nat, results: seq<Result>, releasedB: nat,
    tailA: nat, headB: nat, headA: nat, tailB: nat,
    host: Host, worker: Worker, seqIn: u32, seqOut: u32,
    got: seq<Result>, dropped: nat, badReply: bool)
  {
    function CountA(): int { |sent| - releasedA }
    function CountB(): int { |results| - releasedB }
    /** One item is in both rings while the worker has published it and not yet released it. */
    function Forwarded(): int { if worker.WRelease? then 1 else 0 }
    /** The payload the host is about to publish already has a sequence number. */
    function Announced(): int { if host.HAcquire? || host.HGranted? then 1 else 0 }
  }

  function Start(c: Config): State {
    if c.mode.RoundTrip? then State([], 0, [], 0, 0, 0, 0, 0, HAcquire, WIdle, 1, 0, [], 0, false)
    else State([], 0, [], 0, 0, 0, 0, 0, HDrain, WIdle, 0, 0, [], 0, false)
  }

  /** The parameters `v` and `t` are the counter values that the call's load returns. */
  datatype Action =
    | HostConsume(v: nat) | HostRelease | HostAcquire(t: nat) | HostPublish(p: Payload, t: nat)
    | WorkerConsume(v: nat) | WorkerAcquire(t: nat) | WorkerPublish(t: nat) | WorkerRelease

  predicate Can(s: State, a: Action) {
    && s.releasedA <= |s.sent| && s.releasedB <= |s.results|
    && match a
       case HostConsume(v) =>
         (s.host.HDrain? || s.host.HAwait?) && s.headB <= v <= |s.results| && s.tailA <= v
       case HostRelease => s.host.HHeld? && s.CountB() > 0
       case HostAcquire(t) => s.host.HAcquire? && s.tailA <= t <= s.releasedA
       case HostPublish(_, t) => s.host.HGranted? && s.tailA <= t <= s.releasedA
       case WorkerConsume(v) => s.worker.WIdle? && s.headA <= v <= |s.sent|
       case WorkerAcquire(t) => s.worker.WHold? && s.tailB <= t <= s.releasedB
       case WorkerPublish(t) => s.worker.WGranted? && s.CountA() > 0 && s.tailB <= t <= s.releasedB
       case WorkerRelease => s.worker.WRelease?
  }

  function DoHostConsume(s: State, v: nat): State {
    if s.releasedB < s.headB then s.(host := HHeld)
    else
      var s' := s.(headB := v);
      if s.releasedB < v then s'.(host := HHeld)
      else if s.host.HAwait? then s'
      else s'.(host := HAcquire, seqIn := Add32(s.seqIn, 1))
  }

  function DoHostRelease(c: Config, s: State): State
    requires Can(s, HostRelease)
  {
    var r := s.results[s.releasedB];
    var s' := s.(got := s.got + [r], releasedB := s.releasedB + 1);
    if c.mode.RoundTrip? then
      s'.(host := HAcquire, seqIn := Add32(s.seqIn, 1), badReply := s.badReply || r.seq_ != s.seqIn)
    else s'.(host := HDrain)
  }

  function DoHostAcquire(c: Config, s: State, t: nat): State {
    if |s.sent| - s.tailA < c.limitA then s.(host := HGranted)
    else
      var s' := s.(tailA := t);
      if |s.sent| - t < c.limitA then s'.(host := HGranted)
      else if c.mode == Stream(true) then s'.(host := HDrain, dropped := s.dropped + 1)
      else s'
  }

  function DoWorkerConsume(s: State, v: nat): State {
    var s' := if s.releasedA < s.headA then s else s.(headA := v);
    if s.releasedA < s'.headA then s'.(worker := WHold, seqOut := Add32(s.seqOut, 1)) else s'
  }

  function DoWorkerAcquire(c: Config, s: State, t: nat): State {
    var s' := if |s.results| - s.tailB < c.limitB then s else s.(tailB := t);
    if |s.results| - s'.tailB < c.limitB then s'.(worker := WGranted) else s'
  }

  function DoWorkerPublish(s: State, t: nat): State
    requires Can(s, WorkerPublish(t))
  {
    var p := s.sent[s.releasedA];
    s.(results := s.results + [Result(s.seqOut, Fnv(p), |p|)], tailB := t, worker := WRelease)
  }

  function Do(c: Config, s: State, a: Action): State
    requires Can(s, a)
  {
    match a
    case HostConsume(v) => DoHostConsume(s, v)
    case HostRelease => DoHostRelease(c, s)
    case HostAcquire(t) => DoHostAcquire(c, s, t)
    case HostPublish(p, t) =>
      s.(sent := s.sent + [p], tailA := t, host := if c.mode.RoundTrip? then HAwait else HDrain)
    case WorkerConsume(v) => DoWorkerConsume(s, v)
    case WorkerAcquire(t) => DoWorkerAcquire(c, s, t)
    case WorkerPublish(t) => DoWorkerPublish(s, t)
    case WorkerRelease => s.(releasedA := s.releasedA + 1, worker := WIdle)
  }

  // The invariant

  /** The result of the i-th payload. */
  function Expected(sent: seq<Payload>, i: nat): Result
    requires i < |sent|
  {
    Result(Wrap(i + 1), Fnv(sent[i]), |sent[i]|)
  }

  ghost predicate Flow(c: Config, s: State) {
    && |s.results| == s.releasedA + s.Forwarded() <= |s.sent|
    && s.seqOut == Wrap(s.releasedA + if s.worker.WIdle? then 0 else 1)
    && s.seqIn == Wrap(|s.sent| + s.dropped + s.Announced())
    && (c.mode != Stream(true) ==> s.dropped == 0)
  }

  /** What each side has seen lies behind the other's counter, and the limits hold even against
      that. */
  ghost predicate Views(c: Config, s: State) {
    && s.tailA <= s.releasedA && |s.sent| <= s.tailA + c.limitA
    && s.tailB <= s.releasedB && |s.results| <= s.tailB + c.limitB
    && s.releasedA <= s.headA <= |s.sent| && s.releasedB <= s.headB <= |s.results|
    && (s.host.HHeld? ==> s.releasedB < s.headB) && (!s.worker.WIdle? ==> s.releasedA < s.headA)
    && (s.host.HGranted? ==> |s.sent| < s.tailA + c.limitA)
    && (s.worker.WGranted? ==> |s.results| < s.tailB + c.limitB)
  }

  ghost predicate Contents(s: State) {
    && 0 <= s.releasedB <= |s.results| <= |s.sent|
    && s.got == s.results[..s.releasedB]
    && forall i :: 0 <= i < |s.results| ==> s.results[i] == Expected(s.sent, i)
  }

  /** While the host tries to get a slot of A, it has received all but a limit's worth of what
      it has sent: it found B empty when it had seen everything up to the tail of A. In
      round-trip mode one payload at most is on its way. */
  ghost predicate Balance(c: Config, s: State) {
    && !s.badReply
    && (c.mode.Stream? && (s.host.HAcquire? || s.host.HGranted?) ==> |s.sent| <= s.releasedB + c.limitA)
    && (c.mode.Stream? ==> !s.host.HAwait?)
    && (c.mode.RoundTrip? ==> !s.host.HDrain? && |s.sent| == s.releasedB + 1 - s.Announced())
  }

  ghost predicate Inv(c: Config, s: State) {
    && c.limitA >= 1 && c.limitB >= 1
    && Flow(c, s) && Views(c, s) && Contents(s) && Balance(c, s)
  }

  predicate ByHost(a: Action) {
    a.HostConsume? || a.HostRelease? || a.HostAcquire? || a.HostPublish?
  }

  lemma HostKeeps(c: Config, s: State, a: Action)
    requires Inv(c, s) && Can(s, a) && ByHost(a)
    ensures Inv(c, Do(c, s, a))
  {
    hide Fnv, Wrap, Add32;
    AddAdvances(|s.sent| + s.dropped, 1);
  }

  lemma WorkerKeeps(c: Config, s: State, a: Action)
    requires Inv(c, s) && Can(s, a) && !ByHost(a)
    ensures Inv(c, Do(c, s, a))
  {
    hide Fnv, Wrap, Add32;
    AddAdvances(s.releasedA, 1);
  }

  ghost predicate Next(c: Config, s: State, s': State) {
    exists a :: Can(s, a) && s' == Do(c, s, a)
  }

  ghost predicate IsRun(c: Config, run: seq<State>) {
    && |run| >= 1 && run[0] == Start(c)
    && forall i :: 0 <= i < |run| - 1 ==> Next(c, run[i], run[i + 1])
  }

  lemma {:induction false} RunKeeps(c: Config, run: seq<State>, i: nat)
    requires c.limitA >= 1 && c.limitB >= 1 && IsRun(c, run) && i < |run|
    ensures Inv(c, run[i])
  {
    if i > 0 {
      RunKeeps(c, run, i - 1);
      assert Next(c, run[i - 1], run[i]);
      var a :| Can(run[i - 1], a) && run[i] == Do(c, run[i - 1], a);
      if ByHost(a) {
        HostKeeps(c, run[i - 1], a);
      } else {
        WorkerKeeps(c, run[i - 1], a);
      }
    }
  }

  /** A call loads the other side's counter exactly when its cached copy shows nothing to consume,
      or no room: otherwise it makes no difference what a load would return. */
  lemma LoadsOnlyIfNeeded(c: Config, s: State, v: nat, v': nat)
    ensures Can(s, HostConsume(v)) && Can(s, HostConsume(v')) ==>
              (Do(c, s, HostConsume(v)) == Do(c, s, HostConsume(v')) <==> v == v' || s.releasedB < s.headB)
    ensures Can(s, HostAcquire(v)) && Can(s, HostAcquire(v')) ==>
              (Do(c, s, HostAcquire(v)) == Do(c, s, HostAcquire(v')) <==> v == v' || |s.sent| < s.tailA + c.limitA)
    ensures Can(s, WorkerConsume(v)) && Can(s, WorkerConsume(v')) ==>
              (Do(c, s, WorkerConsume(v)) == Do(c, s, WorkerConsume(v')) <==> v == v' || s.releasedA < s.headA)
    ensures Can(s, WorkerAcquire(v)) && Can(s, WorkerAcquire(v')) ==>
              (Do(c, s, WorkerAcquire(v)) == Do(c, s, WorkerAcquire(v')) <==>
               v == v' || |s.results| < s.tailB + c.limitB)
  {
  }

  // What the pipeline promises

  /** In every run the results the host has received are exactly the results of the first
      payloads it published, in order, numbered from one. */
  lemma ResultsMatchPayloads(c: Config, run: seq<State>, i: nat)
    requires c.limitA >= 1 && c.limitB >= 1 && IsRun(c, run) && i < |run|
    ensures var s := run[i];
            |s.got| <= |s.sent| && forall k :: 0 <= k < |s.got| ==> s.got[k] == Expected(s.sent, k)
  {
    RunKeeps(c, run, i);
  }

  /** Nothing is lost: every payload published is received, in B, or in A, the one in both
      counted once. */
  lemma PayloadsAreConserved(c: Config, run: seq<State>, i: nat)
    requires c.limitA >= 1 && c.limitB >= 1 && IsRun(c, run) && i < |run|
    ensures var s := run[i];
            |s.sent| == |s.got| + s.CountB() + s.CountA() - s.Forwarded()
  {
    RunKeeps(c, run, i);
  }

  /** The round-trip check never fails: the reply the host holds is the one to the payload it has
      just sent, under the number it sent it with. */
  lemma RoundTripNeverFails(c: Config, run: seq<State>, i: nat)
    requires c.mode.RoundTrip? && c.limitA >= 1 && c.limitB >= 1 && IsRun(c, run) && i < |run|
    ensures !run[i].badReply
    ensures var s := run[i];
            s.host.HHeld? ==>
              && |s.sent| == s.releasedB + 1 <= |s.results|
              && s.results[s.releasedB] == Result(s.seqIn, Fnv(s.sent[s.releasedB]), |s.sent[s.releasedB]|)
  {
    RunKeeps(c, run, i);
  }

  /** And it would not miss a reply out of turn, if there were one. */
  lemma MismatchIsCaught(c: Config, s: State)
    requires c.mode.RoundTrip? && Can(s, HostRelease)
    ensures Do(c, s, HostRelease).badReply <==> s.badReply || s.results[s.releasedB].seq_ != s.seqIn
  {
  }

  /** The number of the payload being sent is its place among those published if and only if
      no payload has been dropped, up to whole laps of the counter. */
  lemma NumbersMatchIffNoneDropped(c: Config, run: seq<State>, i: nat)
    requires c.limitA >= 1 && c.limitB >= 1 && IsRun(c, run) && i < |run| && run[i].host.HGranted?
    ensures run[i].seqIn == Wrap(|run[i].sent| + 1) <==> run[i].dropped % WORD == 0
  {
    RunKeeps(c, run, i);
    SameLap(|run[i].sent| + 1, run[i].dropped);
  }

  lemma SameLap(a: nat, d: nat)
    ensures Wrap(a + d) == Wrap(a) <==> d % WORD == 0
  {
    assert a == WORD * (a / WORD) + Wrap(a);
    assert d == WORD * (d / WORD) + d % WORD;
    assert a + d == WORD * (a / WORD + d / WORD) + (Wrap(a) + d % WORD);
  }

  // No deadlock

  /** The host waits and no load, however fresh, would end it. */
  predicate HostSpins(c: Config, s: State) {
    (s.host.HAcquire? && c.mode != Stream(true) && s.CountA() >= c.limitA) || (s.host.HAwait? && s.CountB() <= 0)
  }

  /** The worker waits and no load, however fresh, would end it. */
  predicate WorkerSpins(c: Config, s: State) {
    (s.worker.WIdle? && s.CountA() <= 0) || (s.worker.WHold? && s.CountB() >= c.limitB)
  }

  /** A host that spins on a full ring A faces an empty ring B, or one result whose slot of A
      the worker is about to release, even if the EMPTY it last got from B was stale. */
  lemma FullAMeansEmptyB(c: Config, run: seq<State>, i: nat)
    requires c.mode.Stream? && c.limitA >= 1 && c.limitB >= 1 && IsRun(c, run) && i < |run|
    requires run[i].host.HAcquire? && run[i].CountA() == c.limitA
    ensures run[i].CountB() == 0 || (run[i].CountB() == 1 && run[i].worker.WRelease?)
  {
    RunKeeps(c, run, i);
  }

  /** The worker's next step, with a fresh load. */
  function WorkerStep(s: State): Action {
    match s.worker
    case WIdle => WorkerConsume(|s.sent|)
    case WHold => WorkerAcquire(s.releasedB)
    case WGranted => WorkerPublish(s.releasedB)
    case WRelease => WorkerRelease
  }

  /** The host's next step, with a fresh load. */
  function HostStep(s: State, p: Payload): Action {
    match s.host
    case HDrain => HostConsume(|s.results|)
    case HAwait => HostConsume(|s.results|)
    case HHeld => HostRelease
    case HAcquire => HostAcquire(s.releasedA)
    case HGranted => HostPublish(p, s.releasedA)
  }

  /** How many worker steps away the event is that the host waits for: the release of a slot
      of A, or the next result. */
  function WorkerDistance(s: State): nat {
    match s.worker
    case WIdle => if s.host.HAwait? then 3 else 4
    case WHold => if s.host.HAwait? then 2 else 3
    case WGranted => if s.host.HAwait? then 1 else 2
    case WRelease => if s.host.HAwait? then 4 else 1
  }

  /** How many host steps away the event is that the worker waits for: the release of a slot
      of B, or the next payload. */
  function HostDistance(s: State): int {
    if s.worker.WHold? then
      match s.host
      case HHeld => 1
      case HDrain => 2
      case HAwait => 2
      case HGranted => 3
      case HAcquire => 4
    else
      match s.host
      case HGranted => 1
      case HAcquire => 2
      case HHeld => 2 + 2 * s.CountB()
      case HDrain => 3 + 2 * s.CountB()
      case HAwait => 3 + 2 * s.CountB()
  }

  predicate HostWaits(s: State) {
    s.host.HAcquire? || s.host.HAwait?
  }

  predicate WorkerWaits(s: State) {
    s.worker.WIdle? || s.worker.WHold?
  }

  /** The two loops never wait for each other, for any limits from one up and however stale
      their answers were. A waiting host gets on with one fresh load, unless it spins. Then the
      worker does not spin: with fresh loads at most four of its steps end the wait, and none
      of its steps, however stale its loads, takes it further away. */
  lemma HostNeverWaitsForever(c: Config, run: seq<State>, i: nat, p: Payload, a: Action)
    requires c.limitA >= 1 && c.limitB >= 1 && IsRun(c, run) && i < |run| && HostWaits(run[i])
    requires Can(run[i], a) && !ByHost(a)
    ensures var s, h, w := run[i], HostStep(run[i], p), WorkerStep(run[i]);
            && Can(s, h) && Can(s, w)
            && (!HostSpins(c, s) ==> !HostWaits(Do(c, s, h)))
            && (HostSpins(c, s) ==>
                  && !WorkerSpins(c, s)
                  && (!HostSpins(c, Do(c, s, w)) || WorkerDistance(Do(c, s, w)) < WorkerDistance(s) <= 4)
                  && (!HostSpins(c, Do(c, s, a)) || WorkerDistance(Do(c, s, a)) <= WorkerDistance(s)))
  {
    hide Fnv;
    RunKeeps(c, run, i);
  }

  /** And the other way round: a waiting worker gets on with one fresh load, unless it spins.
      Then the host does not spin, and each of its steps with a fresh load ends the wait or
      brings its end closer. */
  lemma WorkerNeverWaitsForever(c: Config, run: seq<State>, i: nat, p: Payload)
    requires c.limitA >= 1 && c.limitB >= 1 && IsRun(c, run) && i < |run| && WorkerWaits(run[i])
    ensures var s, h, w := run[i], HostStep(run[i], p), WorkerStep(run[i]);
            && Can(s, h) && Can(s, w)
            && (!WorkerSpins(c, s) ==> Do(c, s, w).worker != s.worker)
            && (WorkerSpins(c, s) ==>
                  && !HostSpins(c, s)
                  && (!WorkerSpins(c, Do(c, s, h)) || 0 <= HostDistance(Do(c, s, h)) < HostDistance(s)))
  {
    hide Fnv;
    RunKeeps(c, run, i);
  }
}
