/** Where the protocol races: exactly in the geometries that are not safe. */
module SpscRaces {
  import opened Words
  import opened Slots
  import opened Spsc
  import opened SpscTheorems
  import opened SpscRuns

  /** n messages through the ring, one at a time, the producer seeing each one go but the last. */
  lemma {:induction false} RoundTrips(c: Config, m: nat, n: nat) returns (run: seq<State>)
    requires Accepted(c) && c.limit >= 2 && m >= 2
    ensures Good(c, run, m) && Last(run).hSeen == n
    ensures At(Last(run), n, n, if n == 0 then 0 else n - 1, PIdle, CIdle)
  {
    if n == 0 {
      run := Start(c, m);
    } else {
      run := RoundTrips(c, m, n - 1);
      run := PublishOne(c, run, m, n - 1);
      run := ReceiveOne(c, run, m);
    }
  }

  /** The consumer has read the slot it holds, and the producer does not know of it. */
  lemma ReadUnseen(c: Config, run: seq<State>, m: nat) returns (run': seq<State>)
    requires Good(c, run, m) && Last(run).cons.CHeld?
    ensures Good(c, run', m)
    ensures var s, s' := Last(run), Last(run');
            && At(s', s.t.P(), s.t.C(), s.tSeen, s.prod, CHeld)
            && s'.cSlot == SlotOf(c.slots, s.t.C()) && s'.cSlot < |s'.body.cells|
            && s'.body.cells[s'.cSlot].rAt > s'.t.pKnows
  {
    run' := Extend(c, run, m, ReadPayload);
  }

  /** A producer granted that slot meanwhile races with the read. */
  lemma OverwriteRaces(c: Config, run: seq<State>, m: nat) returns (run': seq<State>)
    requires Good(c, run, m) && Last(run).prod.PIdle? && Last(run).t.P() < Last(run).tSeen + c.limit
    requires var s := Last(run);
             && s.cSlot == SlotOf(c.slots, s.t.P()) && s.cSlot < |s.body.cells|
             && s.body.cells[s.cSlot].rAt > s.t.pKnows
    ensures Good(c, run', m) && Last(run').fault
  {
    run' := AcquireStep(c, run, m);
    run' := Extend(c, run', m, WritePayload([]));
  }

  /** In every geometry that is not safe some run has a data race: the consumer reads the last
      message before the counter wrap while the producer writes to the same slot for the
      position 2^32 mod slots later. */
  lemma UnsafeRaces(c: Config) returns (run: seq<State>)
    requires Accepted(c) && !SlotsSafe(c.slots, c.limit)
    ensures IsRun(c, run) && Last(run).fault
  {
    Collision(c.slots, c.limit);
    var apart, m := WORD % c.slots, c.limit + 1;
    run := RoundTrips(c, m, WORD - 1);
    run := PublishMore(c, run, m, apart, WORD - 1);
    run := ConsumeOne(c, run, m);
    run := ReadUnseen(c, run, m);
    run := OverwriteRaces(c, run, m);
  }

  ghost predicate RaceFree(c: Config)
    requires Accepted(c)
  {
    forall run: seq<State>, i :: IsRun(c, run) && 0 <= i < |run| ==> !run[i].fault
  }

  /** The protocol is free of data races and stray accesses if and only if its geometry is safe. */
  lemma RaceFreeExactly(c: Config)
    requires Accepted(c)
    ensures RaceFree(c) <==> SlotsSafe(c.slots, c.limit)
  {
    if SlotsSafe(c.slots, c.limit) {
      forall run: seq<State>, i | IsRun(c, run) && 0 <= i < |run| ensures !run[i].fault {
        RunsAreRaceFree(c, run, i);
      }
    } else {
      var run := UnsafeRaces(c);
      assert run[|run| - 1].fault;
    }
  }
}
