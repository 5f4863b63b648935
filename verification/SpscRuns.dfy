/** Building runs of the protocol, step by step and call by call, in any accepted
    configuration. */
module SpscRuns {
  import opened Words
  import opened Slots
  import opened Lanes
  import opened Spsc
  import opened SpscCore
  import opened SpscTheorems

  /** A run in which the queue is always shorter than `m`. */
  ghost predicate Lean(c: Config, run: seq<State>, m: nat)
    requires c.slots >= 1 && c.capacity >= 1
  {
    IsRun(c, run) && forall k :: 0 <= k < |run| ==> run[k].t.P() - run[k].t.C() < m
  }

  /** What a lemma below needs of a run, and gives back. */
  ghost predicate Good(c: Config, run: seq<State>, m: nat) {
    Accepted(c) && run != [] && Lean(c, run, m) && Core(c, Last(run))
  }

  /** The producer's and the consumer's state, without the memory. */
  ghost predicate At(s: State, p: nat, q: nat, tSeen: nat, prod: Producer, cons: Consumer) {
    s.t.P() == p && s.t.C() == q && s.tSeen == tSeen && s.prod == prod && s.cons == cons
  }

  lemma Start(c: Config, m: nat) returns (run: seq<State>)
    requires Accepted(c) && m >= 1
    ensures Good(c, run, m) && At(Last(run), 0, 0, 0, PIdle, CIdle) && Last(run).hSeen == 0
  {
    var s := State(Clocks([0], [0], 0, 0, 0, 0),
                   0, 0, PIdle, 0, 0, 0, CIdle, 0, 0,
                   Lane(seq(c.slots, _ => Cell([], 0, -1, 0)), []),
                   Lane(seq(c.slots, _ => Cell(0, 0, -1, 0)), []),
                   Lane(seq(c.capacity, _ => Cell(0, 0, -1, 0)), []),
                   seq(c.slots, j requires 0 <= j < c.slots => [Stamp(j, true, 0, j)]), seq(c.slots, _ => 0),
                   [], false, false);
    run := [s];
    InitCore(c, s);
  }

  lemma Extend(c: Config, run: seq<State>, m: nat, a: Action) returns (run': seq<State>)
    requires Good(c, run, m) && Can(c, Last(run), a)
    requires a.StoreHead? ==> Last(run).t.P() + 1 - Last(run).t.C() < m
    ensures Good(c, run', m) && Last(run') == Do(c, Last(run), a)
    ensures |run'| == |run| + 1 && run'[..|run|] == run
  {
    var s := Last(run);
    CoreStepKeeps(c, s, a);
    var s' := Do(c, s, a);
    run' := run + [s'];
    PositionsMove(c, s, a);
    assert Next(c, s, s');
  }

  /** The queue gets longer at a head store only. */
  lemma PositionsMove(c: Config, s: State, a: Action)
    requires Core(c, s) && Can(c, s, a)
    ensures Do(c, s, a).t.C() >= s.t.C()
    ensures Do(c, s, a).t.P() <= s.t.P() + if a.StoreHead? then 1 else 0
  {
    if !a.StoreHead? && !a.StoreTail? { QuietStep(c, s, a); }
  }

  // Publishing

  lemma AcquireStep(c: Config, run: seq<State>, m: nat) returns (run': seq<State>)
    requires Good(c, run, m) && Last(run).prod.PIdle? && Last(run).t.P() < Last(run).tSeen + c.limit
    ensures Good(c, run', m)
    ensures var s := Last(run); Last(run') == s.(prod := PGranted, pSlot := SlotOf(c.slots, s.t.P()))
  {
    CountIsDistance(c, Last(run));
    SlotIndexIsSlotOf(c.slots, Last(run).t.P());
    run' := Extend(c, run, m, Acquire(false));
  }

  /** Which step of a publish follows in which state, and where it leads: none of them fails. */
  predicate Follows(p: Producer, a: Action) {
    match p
    case PGranted => a == Publish(0)
    case PHeader(_) => a == WriteHeader
    case PLink => a == WriteLink
    case PHead => a == StoreHead
    case _ => false
  }

  function Then(p: Producer): Producer {
    match p
    case PGranted => PHeader(0)
    case PHeader(_) => PLink
    case PLink => PHead
    case _ => PTail
  }

  lemma ProducerStep(c: Config, run: seq<State>, m: nat, a: Action) returns (run': seq<State>)
    requires Good(c, run, m) && Follows(Last(run).prod, a)
    requires Last(run).t.P() + 1 - Last(run).t.C() < m
    ensures Good(c, run', m)
    ensures var s := Last(run);
            && At(Last(run'), s.t.P() + (if a.StoreHead? then 1 else 0), s.t.C(), s.tSeen, Then(s.prod), s.cons)
            && Last(run').hSeen == s.hSeen
  {
    var s := Last(run);
    TailIsPosition(c, s);
    EntryIsSlot(c, s, s.t.P());
    run' := Extend(c, run, m, a);
    if !a.StoreHead? { QuietStep(c, s, a); }
  }

  /** One message is published; the reload of the tail finds it at `i`. */
  lemma PublishOne(c: Config, run: seq<State>, m: nat, i: nat) returns (run': seq<State>)
    requires Good(c, run, m) && Last(run).prod.PIdle? && Last(run).tSeen <= i <= Last(run).t.C()
    requires Last(run).t.P() < Last(run).tSeen + c.limit && Last(run).t.P() + 1 - Last(run).t.C() < m
    ensures Good(c, run', m)
    ensures var s := Last(run);
            At(Last(run'), s.t.P() + 1, s.t.C(), i, PIdle, s.cons) && Last(run').hSeen == s.hSeen
  {
    run' := AcquireStep(c, run, m);
    run' := ProducerStep(c, run', m, Publish(0));
    run' := ProducerStep(c, run', m, WriteHeader);
    run' := ProducerStep(c, run', m, WriteLink);
    run' := ProducerStep(c, run', m, StoreHead);
    run' := LastReload(c, run', m, i);
  }

  lemma LastReload(c: Config, run: seq<State>, m: nat, i: nat) returns (run': seq<State>)
    requires Good(c, run, m) && Last(run).prod.PTail? && Last(run).tSeen <= i <= Last(run).t.C()
    ensures Good(c, run', m)
    ensures var s := Last(run);
            At(Last(run'), s.t.P(), s.t.C(), i, PIdle, s.cons) && Last(run').hSeen == s.hSeen
  {
    run' := Extend(c, run, m, ReloadTail(i));
  }

  lemma {:induction false} PublishMore(c: Config, run: seq<State>, m: nat, n: nat, i: nat) returns (run': seq<State>)
    requires Good(c, run, m) && Last(run).prod.PIdle? && Last(run).tSeen <= i <= Last(run).t.C()
    requires Last(run).t.P() < Last(run).tSeen + c.limit || n == 0
    requires Last(run).t.P() + n <= i + c.limit && Last(run).t.P() + n - Last(run).t.C() < m
    ensures Good(c, run', m)
    ensures var s := Last(run);
            && At(Last(run'), s.t.P() + n, s.t.C(), if n == 0 then s.tSeen else i, PIdle, s.cons)
            && Last(run').hSeen == s.hSeen
    decreases n
  {
    run' := run;
    if n > 0 {
      run' := PublishOne(c, run, m, i);
      run' := PublishMore(c, run', m, n - 1, i);
    }
  }

  // Receiving

  /** Which step of a consume and a release follows in which state. */
  predicate Takes(k: Consumer, a: Action) {
    match k
    case CIdle => a == Consume
    case CHeader => a == ReadHeader
    case CHeld => a == Release
    case CRestamp => a == Recycle
    case CTail => a == StoreTail
    case _ => false
  }

  function Thereupon(c: Config, k: Consumer): Consumer {
    match k
    case CIdle => CLoadHead
    case CHeader => CHeld
    case CHeld => if c.mode.Laps? then CRestamp else CTail
    case CRestamp => CTail
    case _ => CIdle
  }

  lemma ConsumerStep(c: Config, run: seq<State>, m: nat, a: Action) returns (run': seq<State>)
    requires Good(c, run, m) && Takes(Last(run).cons, a) && Last(run).t.C() < Last(run).t.P()
    requires Last(run).cons.CIdle? ==> Last(run).hSeen == Last(run).t.C()
    ensures Good(c, run', m)
    ensures |run'| == |run| + 1 && run'[..|run|] == run && Can(c, Last(run), a) && Last(run') == Do(c, Last(run), a)
    ensures var s := Last(run);
            At(Last(run'), s.t.P(), s.t.C() + (if a.StoreTail? then 1 else 0), s.tSeen, s.prod, Thereupon(c, s.cons))
    ensures Last(run').hSeen == Last(run).hSeen
  {
    var s := Last(run);
    run' := Extend(c, run, m, a);
    if !a.StoreTail? { QuietStep(c, s, a); }
    CountIsDistance(c, s);
  }

  lemma LoadHeadStep(c: Config, run: seq<State>, m: nat) returns (run': seq<State>)
    requires Good(c, run, m) && Last(run).cons.CLoadHead? && Last(run).t.C() < Last(run).t.P()
    ensures Good(c, run', m)
    ensures var s := Last(run); At(Last(run'), s.t.P(), s.t.C(), s.tSeen, s.prod, CLink) && Last(run').hSeen == s.t.P()
  {
    var s := Last(run);
    SubIsDistance(s.t.P(), s.t.C());
    run' := Extend(c, run, m, LoadHead(s.t.P()));
  }

  /** The slot of the message is found, if need be by the branch for a wrong stamp. */
  lemma ReadLinkStep(c: Config, run: seq<State>, m: nat) returns (run': seq<State>)
    requires Good(c, run, m) && Last(run).cons.CLink? && Last(run).t.C() < Last(run).t.P()
    ensures Good(c, run', m)
    ensures var s := Last(run);
            At(Last(run'), s.t.P(), s.t.C(), s.tSeen, s.prod, CHeader) && Last(run').hSeen == s.hSeen
  {
    var s := Last(run);
    SlotIndexIsSlotOf(c.slots, s.t.C());
    var i := if c.mode.Laps? then |s.stamps[SlotOf(c.slots, s.t.C())]| - 1 else 0;
    run' := Extend(c, run, m, ReadLink(i));
    ReadLinkCore(c, s, i);
    QuietStep(c, s, ReadLink(i));
    if Last(run').cons.CMiss? { run' := GoOn(c, run', m); }
  }

  lemma GoOn(c: Config, run: seq<State>, m: nat) returns (run': seq<State>)
    requires Good(c, run, m) && Last(run).cons.CMiss?
    ensures Good(c, run', m)
    ensures var s := Last(run);
            At(Last(run'), s.t.P(), s.t.C(), s.tSeen, s.prod, CHeader) && Last(run').hSeen == s.hSeen
  {
    var s := Last(run);
    SubIsDistance(s.hSeen, s.t.C());
    run' := Extend(c, run, m, ReloadHead(s.hSeen));
  }

  /** The oldest message is found and its header read. */
  lemma ConsumeOne(c: Config, run: seq<State>, m: nat) returns (run': seq<State>)
    requires Good(c, run, m) && Last(run).cons.CIdle?
    requires Last(run).t.C() == Last(run).hSeen < Last(run).t.P()
    ensures Good(c, run', m)
    ensures var s := Last(run);
            At(Last(run'), s.t.P(), s.t.C(), s.tSeen, s.prod, CHeld) && Last(run').hSeen == s.t.P()
  {
    run' := ConsumerStep(c, run, m, Consume);
    run' := LoadHeadStep(c, run', m);
    run' := ReadLinkStep(c, run', m);
    run' := ConsumerStep(c, run', m, ReadHeader);
  }

  lemma ReleaseOne(c: Config, run: seq<State>, m: nat) returns (run': seq<State>)
    requires Good(c, run, m) && (Last(run).cons.CHeld? || Last(run).cons.CRestamp? || Last(run).cons.CTail?)
    requires Last(run).t.C() < Last(run).t.P()
    ensures Good(c, run', m)
    ensures var s := Last(run);
            At(Last(run'), s.t.P(), s.t.C() + 1, s.tSeen, s.prod, CIdle) && Last(run').hSeen == s.hSeen
  {
    run' := run;
    if Last(run').cons.CHeld? { run' := ConsumerStep(c, run', m, Release); }
    if Last(run').cons.CRestamp? { run' := ConsumerStep(c, run', m, Recycle); }
    run' := ConsumerStep(c, run', m, StoreTail);
  }

  /** One message is consumed and released. */
  lemma ReceiveOne(c: Config, run: seq<State>, m: nat) returns (run': seq<State>)
    requires Good(c, run, m) && Last(run).cons.CIdle?
    requires Last(run).t.C() == Last(run).hSeen < Last(run).t.P()
    ensures Good(c, run', m)
    ensures var s := Last(run);
            At(Last(run'), s.t.P(), s.t.C() + 1, s.tSeen, s.prod, CIdle) && Last(run').hSeen == s.t.P()
  {
    run' := ConsumeOne(c, run, m);
    run' := ReleaseOne(c, run', m);
  }
}
