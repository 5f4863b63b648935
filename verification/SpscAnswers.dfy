/** The answers FULL and EMPTY under stale loads: when they are the answers of the bounded
    FIFO, and runs in which they are not. */
module SpscAnswers {
  import opened Words
  import opened Spsc
  import opened SpscCore
  import opened SpscTheorems
  import opened SpscRuns

  /** The load of the tail that returns `i` makes `rb_acquire` answer FULL. */
  ghost predicate AnswersFull(c: Config, s: State, i: nat)
    requires c.slots >= 1 && c.capacity >= 1
  {
    Can(c, s, AcquireTail(i, false)) && Do(c, s, AcquireTail(i, false)).prod.PIdle?
  }

  /** The load of the head that returns `i` makes `rb_consume` answer EMPTY. */
  ghost predicate AnswersEmpty(c: Config, s: State, i: nat)
    requires c.slots >= 1 && c.capacity >= 1
  {
    Can(c, s, LoadHead(i)) && Do(c, s, LoadHead(i)).cons.CIdle?
  }

  /** In every run a FULL is the answer of the FIFO, whose queue then holds a whole limit, if
      and only if the tail it rests on is the newest. */
  lemma FullIsTrueIffFresh(c: Config, run: seq<State>, k: nat, i: nat)
    requires Accepted(c) && IsRun(c, run) && k < |run| && AnswersFull(c, run[k], i)
    ensures HasLogs(run[k]) && (|Queue(run[k])| == c.limit <==> i == run[k].t.C())
  {
    RunKeepsCore(c, run, k);
    AcquireIsExact(c, run[k], i, false);
  }

  /** In every run an EMPTY is the answer of the FIFO if and only if the head it rests on is
      the newest. */
  lemma EmptyIsTrueIffFresh(c: Config, run: seq<State>, k: nat, i: nat)
    requires Accepted(c) && IsRun(c, run) && k < |run| && AnswersEmpty(c, run[k], i)
    ensures HasLogs(run[k]) && (Queue(run[k]) == [] <==> i == run[k].t.P())
  {
    RunKeepsCore(c, run, k);
    ConsumeIsExact(c, run[k], i);
  }

  // Stale answers

  /** A stale FULL, in every configuration of either build: a message has come and gone, the
      producer has not seen it go, and it is refused the last free slot. With a limit of two
      or more the queue has never in the whole run been full. */
  lemma FullCanBeStale(c: Config) returns (run: seq<State>)
    requires Accepted(c)
    ensures IsRun(c, run) && AnswersFull(c, Last(run), 0)
    ensures HasLogs(Last(run)) && |Queue(Last(run))| < c.limit
    ensures c.limit >= 2 ==> forall k :: 0 <= k < |run| ==> run[k].t.P() - run[k].t.C() < c.limit
  {
    var m := if c.limit >= 2 then c.limit else 2;
    run := Start(c, m);
    run := PublishOne(c, run, m, 0);
    run := ReceiveOne(c, run, m);
    run := PublishMore(c, run, m, c.limit - 1, 0);
    var s := Last(run);
    run := Extend(c, run, m, Acquire(false));
    RefusedByStaleTail(c, s);
  }

  lemma RefusedByStaleTail(c: Config, s: State)
    requires Core(c, s) && At(s, c.limit, 1, 0, PIdle, CIdle)
    ensures var s' := Do(c, s, Acquire(false));
            AnswersFull(c, s', 0) && HasLogs(s') && |Queue(s')| == c.limit - 1
  {
    CountIsDistance(c, s);
    var s' := Do(c, s, Acquire(false));
    CoreStepKeeps(c, s, Acquire(false));
    SubIsDistance(c.limit, 0);
    AcquireIsExact(c, s', 0, false);
  }

  /** A stale EMPTY, in every configuration of either build: the message was published before
      the call began, and is in the queue all the while. */
  lemma EmptyCanBeStale(c: Config) returns (run: seq<State>)
    requires Accepted(c)
    ensures IsRun(c, run) && |run| >= 2 && AnswersEmpty(c, Last(run), 0)
    ensures run[|run| - 2].cons.CIdle? && Last(run) == Do(c, run[|run| - 2], Consume)
    ensures HasLogs(run[|run| - 2]) && |Queue(run[|run| - 2])| == 1
    ensures HasLogs(Last(run)) && |Queue(Last(run))| == 1
  {
    run := Start(c, 2);
    run := PublishOne(c, run, 2, 0);
    var n := |run|;
    run := ConsumerStep(c, run, 2, Consume);
    assert run[n - 1] == run[..n][n - 1];
  }
}
