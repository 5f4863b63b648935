/** The event-loop client: the producer adds to an eventfd after each head store; the loop
    polls the descriptor and, when it is readable, empties it, drains the ring and counts. */
module EventLoop {
  const MAX_TOKENS := 0xFFFF_FFFF_FFFF_FFFE

  datatype Producer =
    | PIdle
    | PWrite // head stored: about to write the eventfd

  datatype Loop =
    | Poll      // blocked until the eventfd is readable
    | ReadFd    // about to read the eventfd, until it would block
    | DrainRing // about to consume the next message
    | Recount   // about to count, to leave the callback or go round again

  datatype State = State(P: nat, C: nat, tokens: nat, prod: Producer, cons: Loop)

  datatype Action = Publish | WriteFd | Ready | Read | ConsumeNext | CountAgain

  const START := State(0, 0, 0, PIdle, Poll)

  predicate Can(limit: nat, s: State, a: Action) {
    match a
    case Publish => s.prod.PIdle? && s.P < s.C + limit
    case WriteFd => s.prod.PWrite?
    case Ready => s.cons.Poll? && s.tokens > 0
    case Read => s.cons.ReadFd?
    case ConsumeNext => s.cons.DrainRing?
    case CountAgain => s.cons.Recount?
  }

  function Do(s: State, a: Action): State {
    match a
    case Publish => s.(P := s.P + 1, prod := PWrite)
    case WriteFd => s.(tokens := if s.tokens < MAX_TOKENS then s.tokens + 1 else s.tokens, prod := PIdle)
    case Ready => s.(cons := ReadFd)
    case Read => if s.tokens > 0 then s.(tokens := 0) else s.(cons := DrainRing)
    case ConsumeNext => if s.C < s.P then s.(C := s.C + 1) else s.(cons := Recount)
    case CountAgain => s.(cons := if s.P == s.C then Poll else ReadFd)
  }

  ghost predicate Inv(s: State) {
    && s.C <= s.P && s.tokens <= MAX_TOKENS
    && (s.cons.Poll? ==> s.P == s.C || s.tokens > 0 || s.prod.PWrite?)
  }

  ghost predicate IsRun(limit: nat, run: seq<State>) {
    && |run| >= 1 && run[0] == START
    && forall i :: 0 <= i < |run| - 1 ==> Next(limit, run[i], run[i + 1])
  }

  ghost predicate Next(limit: nat, s: State, s': State) {
    exists a :: Can(limit, s, a) && s' == Do(s, a)
  }

  /** The loop is blocked in poll exactly while the descriptor holds no token; and then the ring is
      empty or the producer is between its head store and its write, for every interleaving. */
  lemma {:induction false} PollNeverMissesMessages(limit: nat, run: seq<State>, i: nat)
    requires IsRun(limit, run) && i < |run|
    ensures Inv(run[i])
    ensures run[i].cons.Poll? ==> (Can(limit, run[i], Ready) <==> 0 < run[i].tokens <= MAX_TOKENS)
    ensures run[i].cons.Poll? && run[i].P != run[i].C && run[i].prod.PIdle? ==> Can(limit, run[i], Ready)
  {
    if i > 0 {
      PollNeverMissesMessages(limit, run, i - 1);
      assert Next(limit, run[i - 1], run[i]);
      var a :| Can(limit, run[i - 1], a) && run[i] == Do(run[i - 1], a);
    }
  }

  /** The callback run to its end while the producer pauses, and in how many steps: it ends, with
      the ring empty and no token left behind for messages already taken. */
  function RunCallback(s: State): (r: (State, nat))
    requires s.C <= s.P && s.prod.PIdle?
    ensures var (s', n) := r;
            && s'.cons.Poll? && s'.P == s.P && s'.prod.PIdle? && n == Work(s)
            && (!s.cons.Poll? ==> s'.C == s.P)
            && (s.cons.ReadFd? || (s.cons.Recount? && s.P != s.C) || (!s.cons.Poll? && s.tokens == 0) ==>
                  s'.tokens == 0)
    decreases Work(s)
  {
    match s.cons
    case Poll => (s, 0)
    case ReadFd => Later(RunCallback(Do(s, Read)))
    case DrainRing => Later(RunCallback(Do(s, ConsumeNext)))
    case Recount => Later(RunCallback(Do(s, CountAgain)))
  }

  function Later(r: (State, nat)): (State, nat) {
    (r.0, r.1 + 1)
  }

  /** How many steps the callback still has to take: empty the descriptor and find it empty, take
      each message and find none, count. */
  function Work(s: State): nat
    requires s.C <= s.P
  {
    match s.cons
    case ReadFd => s.P - s.C + 3 + if s.tokens > 0 then 1 else 0
    case DrainRing => s.P - s.C + 2
    case Recount => if s.P == s.C then 1 else s.P - s.C + 4 + if s.tokens > 0 then 1 else 0
    case Poll => 0
  }
}
