/** The clocked ring controller and the two blocks that connect to it, one function
    application per rising clock edge. */
module Hdl {
  import opened Words
  import Slots

  // The controller

  datatype Ctrl = Ctrl(head: u32, tail: u32,
                       prodGrant: bool, prodIndex: u32, consGrant: bool, consIndex: u32)
  {
    function Count(): u32 { Sub32(head, tail) }
    predicate Full(limit: u32) { Count() >= limit }
    predicate Empty() { head == tail }
  }

  const RESET := Ctrl(0, 0, false, 0, false, 0)

  datatype Inputs = Inputs(prodReq: bool, prodDone: bool, consReq: bool, consDone: bool)

  function CtrlEdge(limit: u32, s: Ctrl, i: Inputs): Ctrl {
    var pg := i.prodReq && !s.Full(limit);
    var cg := i.consReq && !s.Empty();
    Ctrl(if i.prodDone then Add32(s.head, 1) else s.head,
         if i.consDone then Add32(s.tail, 1) else s.tail,
         pg, if pg then s.head else s.prodIndex,
         cg, if cg then s.tail else s.consIndex)
  }

  /** The controller with a record of what it has handed out: how many slots were ever
      published and released, and whether each side holds a grant it has not used. */
  datatype Watched = Watched(ctrl: Ctrl, published: nat, released: nat, prodHolds: bool, consHolds: bool)

  function Edge(limit: u32, w: Watched, i: Inputs): Watched {
    var c := CtrlEdge(limit, w.ctrl, i);
    Watched(c, w.published + (if i.prodDone then 1 else 0), w.released + (if i.consDone then 1 else 0),
            (w.prodHolds && !i.prodDone) || c.prodGrant, (w.consHolds && !i.consDone) || c.consGrant)
  }

  /** The controller after the given inputs, from reset. */
  function After(limit: u32, ins: seq<Inputs>): Watched {
    if ins == [] then Watched(RESET, 0, 0, false, false)
    else Edge(limit, After(limit, ins[..|ins| - 1]), ins[|ins| - 1])
  }

  /** Every `done` uses up a grant. */
  predicate UsesGrants(w: Watched, i: Inputs) {
    (i.prodDone ==> w.prodHolds) && (i.consDone ==> w.consHolds)
  }

  /** No request comes in the cycle of a `done` of the same side. */
  predicate Apart(i: Inputs) {
    !(i.prodReq && i.prodDone) && !(i.consReq && i.consDone)
  }

  ghost predicate Obeys(limit: u32, ins: seq<Inputs>) {
    forall k :: 0 <= k < |ins| ==> UsesGrants(After(limit, ins[..k]), ins[k]) && Apart(ins[k])
  }

  ghost predicate Safe(limit: u32, w: Watched) {
    && w.ctrl.head == Wrap(w.published) && w.ctrl.tail == Wrap(w.released)
    && w.released <= w.published <= w.released + limit
    && (w.prodHolds ==> w.published < w.released + limit && w.ctrl.prodIndex == w.ctrl.head)
    && (w.consHolds ==> w.released < w.published && w.ctrl.consIndex == w.ctrl.tail)
    && (w.ctrl.prodGrant ==> w.prodHolds) && (w.ctrl.consGrant ==> w.consHolds)
  }

  /** The count, full and empty outputs are those of the unbounded positions. */
  lemma OutputsAreExact(limit: u32, w: Watched)
    requires Safe(limit, w)
    ensures w.ctrl.Count() == w.published - w.released
    ensures w.ctrl.Full(limit) <==> w.published == w.released + limit
    ensures w.ctrl.Empty() <==> w.published == w.released
  {
    SubIsDistance(w.published, w.released);
  }

  /** A request of one side is granted in the cycle in which that side's `done` moves on: the
      grant names the slot just given up. */
  predicate Clash(limit: u32, w: Watched, i: Inputs) {
    (i.prodReq && i.prodDone && !w.ctrl.Full(limit)) || (i.consReq && i.consDone && !w.ctrl.Empty())
  }

  /** One edge keeps the controller safe exactly when it does not clash. */
  lemma EdgeIsSafeExactly(limit: u32, w: Watched, i: Inputs)
    requires Safe(limit, w) && UsesGrants(w, i)
    ensures Safe(limit, Edge(limit, w, i)) <==> !Clash(limit, w, i)
  {
    hide Wrap, Add32;
    OutputsAreExact(limit, w);
    AddAdvances(w.published, 1);
    AddAdvances(w.released, 1);
    NextDiffers(w.published);
    NextDiffers(w.released);
  }

  lemma NextDiffers(p: nat)
    ensures Wrap(p + 1) != Wrap(p)
  {
    SubIsDistance(p + 1, p);
    SubIsDistance(p, p);
  }

  ghost predicate Granted(limit: u32, ins: seq<Inputs>) {
    forall k :: 0 <= k < |ins| ==> UsesGrants(After(limit, ins[..k]), ins[k])
  }

  ghost predicate AlwaysSafe(limit: u32, ins: seq<Inputs>) {
    forall k :: 0 <= k <= |ins| ==> Safe(limit, After(limit, ins[..k]))
  }

  ghost predicate NeverClashes(limit: u32, ins: seq<Inputs>) {
    forall k :: 0 <= k < |ins| ==> !Clash(limit, After(limit, ins[..k]), ins[k])
  }

  lemma AfterNext(limit: u32, ins: seq<Inputs>, k: nat)
    requires k < |ins|
    ensures After(limit, ins[..k + 1]) == Edge(limit, After(limit, ins[..k]), ins[k])
  {
    assert ins[..k + 1][..k] == ins[..k];
  }

  lemma {:induction false} SafeUpTo(limit: u32, ins: seq<Inputs>, k: nat)
    requires Granted(limit, ins) && NeverClashes(limit, ins) && k <= |ins|
    ensures Safe(limit, After(limit, ins[..k]))
  {
    if k > 0 {
      SafeUpTo(limit, ins, k - 1);
      AfterNext(limit, ins, k - 1);
      EdgeIsSafeExactly(limit, After(limit, ins[..k - 1]), ins[k - 1]);
    }
  }

  /** Over whole runs in which every `done` uses a grant: the controller is safe at every cycle
      if and only if no cycle clashes. */
  lemma RunIsSafeExactly(limit: u32, ins: seq<Inputs>)
    requires Granted(limit, ins)
    ensures AlwaysSafe(limit, ins) <==> NeverClashes(limit, ins)
  {
    hide After, Edge, Safe, Clash, UsesGrants;
    if NeverClashes(limit, ins) {
      forall k | 0 <= k <= |ins| ensures Safe(limit, After(limit, ins[..k])) {
        SafeUpTo(limit, ins, k);
      }
    }
    if AlwaysSafe(limit, ins) {
      forall k | 0 <= k < |ins| ensures !Clash(limit, After(limit, ins[..k]), ins[k]) {
        assert Safe(limit, After(limit, ins[..k])) && Safe(limit, After(limit, ins[..k + 1]));
        AfterNext(limit, ins, k);
        EdgeIsSafeExactly(limit, After(limit, ins[..k]), ins[k]);
      }
    }
  }

  /** In particular, if each `done` uses one grant and no request coincides with a `done`, then
      at every cycle the ring holds between none and `limit` slots, the outputs tell how many,
      and an unused grant names the slot the next `done` publishes or releases. */
  lemma ControllerIsSafe(limit: u32, ins: seq<Inputs>)
    requires Obeys(limit, ins)
    ensures var w := After(limit, ins);
            && Safe(limit, w)
            && w.ctrl.Count() == w.published - w.released <= limit
            && (w.ctrl.Full(limit) <==> w.published == w.released + limit)
            && (w.ctrl.Empty() <==> w.published == w.released)
  {
    SafeUpTo(limit, ins, |ins|);
    assert ins[..|ins|] == ins;
    OutputsAreExact(limit, After(limit, ins));
  }

  // Requests that coincide with a done

  const REQUEST := Inputs(true, false, false, false)
  const BOTH := Inputs(true, true, false, false)
  const DONE := Inputs(false, true, false, false)

  lemma OneMore(limit: u32, ins: seq<Inputs>, i: Inputs)
    requires Granted(limit, ins) && UsesGrants(After(limit, ins), i)
    ensures Granted(limit, ins + [i]) && After(limit, ins + [i]) == Edge(limit, After(limit, ins), i)
  {
    hide After, Edge, UsesGrants;
    var all := ins + [i];
    forall k | 0 <= k < |all|
      ensures UsesGrants(After(limit, all[..k]), all[k])
    {
      if k < |ins| { assert all[..k] == ins[..k]; } else { assert all[..k] == ins; }
    }
    Unfold(limit, ins, i);
  }

  lemma Unfold(limit: u32, ins: seq<Inputs>, i: Inputs)
    ensures After(limit, ins + [i]) == Edge(limit, After(limit, ins), i)
  {
    assert (ins + [i])[..|ins|] == ins;
  }

  function Hasty(n: nat): seq<Inputs> {
    if n == 0 then [REQUEST] else Hasty(n - 1) + [BOTH]
  }

  lemma {:induction false} HastyFills(limit: u32, n: nat)
    requires n <= limit < WORD - 1 && limit >= 1
    ensures Granted(limit, Hasty(n))
    ensures var w := After(limit, Hasty(n)); w.ctrl.head == n && w.ctrl.tail == 0 && w.prodHolds
  {
    hide Granted, After;
    if n == 0 {
      FirstRequest(limit);
    } else {
      HastyFills(limit, n - 1);
      OneMore(limit, Hasty(n - 1), BOTH);
    }
  }

  lemma FirstRequest(limit: u32)
    requires limit >= 1
    ensures Granted(limit, [REQUEST])
    ensures After(limit, [REQUEST]) == Watched(RESET.(prodGrant := true), 0, 0, true, false)
  {
    OneMore(limit, [], REQUEST);
    assert [] + [REQUEST] == [REQUEST];
  }

  /** Without that separation the ring overflows, whatever its limit: a producer that asks for
      its next slot in the cycle in which it publishes is granted one slot too many, though
      every `done` of the run uses a grant of its own. */
  lemma CoincidenceOverflows(limit: u32) returns (ins: seq<Inputs>)
    requires 1 <= limit < WORD - 1
    ensures Granted(limit, ins) && After(limit, ins).ctrl.Count() == limit + 1
  {
    hide Granted, After;
    HastyFills(limit, limit);
    ins := Hasty(limit) + [DONE];
    OneMore(limit, Hasty(limit), DONE);
  }

  const TAKE := Inputs(false, false, true, false)
  const TAKE_BOTH := Inputs(false, false, true, true)
  const TAKEN := Inputs(false, false, false, true)

  /** The consumer's side of it: one message, and a consumer that asks again in the cycle in
      which it releases. The tail passes the head, and the count reads 2^32 - 1. */
  lemma CoincidenceUnderflows(limit: u32) returns (ins: seq<Inputs>)
    requires limit >= 1
    ensures Granted(limit, ins)
    ensures var w := After(limit, ins);
            w.released == w.published + 1 && w.ctrl.Count() == WORD - 1
  {
    hide Granted, After;
    FirstRequest(limit);
    OneMore(limit, [REQUEST], DONE);
    OneMore(limit, [REQUEST] + [DONE], TAKE);
    OneMore(limit, [REQUEST] + [DONE] + [TAKE], TAKE_BOTH);
    OneMore(limit, [REQUEST] + [DONE] + [TAKE] + [TAKE_BOTH], TAKEN);
    ins := [REQUEST] + [DONE] + [TAKE] + [TAKE_BOTH] + [TAKEN];
  }

  // The producer and consumer blocks

  datatype Phase = Idle | Wait(cycles: nat) | Hold | Finish

  /** Both blocks are the same machine: `ack` is `space_done` or `data_ready`. */
  datatype Block = Block(phase: Phase, req: bool, done: bool, valid: bool, slotIndex: u32)

  const BLOCK_RESET := Block(Idle, false, false, false, 0)

  /** The number of cycles a block of the source stays in its waiting state before it retries. */
  const PATIENCE := 1

  function BlockEdge(patience: nat, b: Block, grant: bool, index: u32, ack: bool): Block {
    match b.phase
    case Idle => b.(req := true, done := false, phase := Wait(1))
    case Wait(n) =>
      if grant then Block(Hold, false, false, true, index)
      else b.(req := false, done := false, phase := if n < patience then Wait(n + 1) else Idle)
    case Hold =>
      if ack then b.(req := false, done := false, valid := false, phase := Finish)
      else b.(req := false, done := false)
    case Finish => b.(req := false, done := true, phase := Idle)
  }

  datatype System = System(ctrl: Ctrl, prod: Block, cons: Block)

  datatype Acks = Acks(spaceDone: bool, dataReady: bool)

  function Wires(s: System): Inputs {
    Inputs(s.prod.req, s.prod.done, s.cons.req, s.cons.done)
  }

  function SystemEdge(limit: u32, patience: nat, s: System, a: Acks): System {
    System(CtrlEdge(limit, s.ctrl, Wires(s)),
           BlockEdge(patience, s.prod, s.ctrl.prodGrant, s.ctrl.prodIndex, a.spaceDone),
           BlockEdge(patience, s.cons, s.ctrl.consGrant, s.ctrl.consIndex, a.dataReady))
  }

  function Run(limit: u32, patience: nat, acks: seq<Acks>): System {
    if acks == [] then System(RESET, BLOCK_RESET, BLOCK_RESET)
    else SystemEdge(limit, patience, Run(limit, patience, acks[..|acks| - 1]), acks[|acks| - 1])
  }

  /** Wired straight to the controller, a block never takes a grant: the grant register is set
      one cycle after the block has looked at it. For every input, at every cycle, nothing is
      valid and nothing has moved. */
  lemma {:induction false} GrantIsNeverTaken(limit: u32, acks: seq<Acks>)
    ensures var s := Run(limit, PATIENCE, acks);
            && !s.prod.valid && !s.cons.valid && !s.prod.done && !s.cons.done
            && s.ctrl.head == 0 && s.ctrl.tail == 0
            && (s.prod.phase.Idle? || s.prod.phase == Wait(1)) && (s.cons.phase.Idle? || s.cons.phase == Wait(1))
            && (s.ctrl.prodGrant ==> s.prod.phase.Idle?) && (s.ctrl.consGrant ==> s.cons.phase.Idle?)
            && (s.prod.req <==> s.prod.phase.Wait?) && (s.cons.req <==> s.cons.phase.Wait?)
  {
    if acks != [] { GrantIsNeverTaken(limit, acks[..|acks| - 1]); }
  }

  // A block that waits at least one cycle longer

  ghost predicate BlockOk(b: Block, grant: bool, grantIndex: u32, holds: bool, at: u32) {
    && (b.req ==> b.phase == Wait(1)) && (b.done ==> b.phase.Idle?) && (b.valid <==> b.phase.Hold?)
    && (grant ==> b.phase == Wait(2) && holds && grantIndex == at)
    && (b.phase.Hold? || b.phase.Finish? || b.done ==> holds && b.slotIndex == at)
  }

  ghost predicate Follows(w: Watched, s: System) {
    && w.ctrl == s.ctrl
    && BlockOk(s.prod, s.ctrl.prodGrant, s.ctrl.prodIndex, w.prodHolds, s.ctrl.head)
    && BlockOk(s.cons, s.ctrl.consGrant, s.ctrl.consIndex, w.consHolds, s.ctrl.tail)
  }

  /** The inputs the blocks give the controller in a run. */
  function Driven(limit: u32, patience: nat, acks: seq<Acks>): (ins: seq<Inputs>)
    ensures |ins| == |acks|
  {
    if acks == [] then []
    else Driven(limit, patience, acks[..|acks| - 1]) + [Wires(Run(limit, patience, acks[..|acks| - 1]))]
  }

  /** Two such blocks keep the controller's rules, in every run. */
  lemma {:induction false} BlocksObey(limit: u32, patience: nat, acks: seq<Acks>)
    requires patience >= 2
    ensures Obeys(limit, Driven(limit, patience, acks))
    ensures Follows(After(limit, Driven(limit, patience, acks)), Run(limit, patience, acks))
  {
    if acks != [] {
      var before := acks[..|acks| - 1];
      BlocksObey(limit, patience, before);
      var ins, ins' := Driven(limit, patience, before), Driven(limit, patience, acks);
      assert ins'[..|ins|] == ins;
      forall k | 0 <= k < |ins'|
        ensures UsesGrants(After(limit, ins'[..k]), ins'[k]) && Apart(ins'[k])
      {
        if k < |ins| { assert ins'[..k] == ins[..k] && ins'[k] == ins[k]; }
      }
      FollowsOn(limit, patience, After(limit, ins), Run(limit, patience, before), acks[|acks| - 1]);
    }
  }

  lemma FollowsOn(limit: u32, patience: nat, w: Watched, s: System, a: Acks)
    requires patience >= 2 && Follows(w, s)
    ensures Follows(Edge(limit, w, Wires(s)), SystemEdge(limit, patience, s, a))
  {
    hide Add32, Sub32;
  }

  /** So the ring never overflows or underflows, and while both sides hold a slot they hold
      different ones, at every value of the wrapping counters. */
  lemma PatientBlocksAreSafe(limit: u32, patience: nat, slots: u32, acks: seq<Acks>)
    requires patience >= 2
    requires 1 <= limit <= slots && Slots.SlotsSafe(slots, limit)
    ensures var s := Run(limit, patience, acks);
            && s.ctrl.Count() <= limit
            && (s.prod.valid && s.cons.valid ==> s.prod.slotIndex % slots != s.cons.slotIndex % slots)
  {
    BlocksObey(limit, patience, acks);
    ControllerIsSafe(limit, Driven(limit, patience, acks));
    var w, s := After(limit, Driven(limit, patience, acks)), Run(limit, patience, acks);
    if s.prod.valid && s.cons.valid {
      Slots.CloseIsDistinct(slots, limit, w.released, w.published);
    }
  }

  /** A request made while the ring has room, or has a message, is answered two edges later. */
  lemma RequestIsAnswered(limit: u32, patience: nat, acks: seq<Acks>, a: Acks, b: Acks)
    requires patience >= 2
    ensures var s := Run(limit, patience, acks);
            var t := SystemEdge(limit, patience, SystemEdge(limit, patience, s, a), b);
            && (s.prod.req && !s.ctrl.Full(limit) ==> t.prod.valid && t.prod.slotIndex == s.ctrl.head)
            && (s.cons.req && !s.ctrl.Empty() ==> t.cons.valid && t.cons.slotIndex == s.ctrl.tail)
  {
    BlocksObey(limit, patience, acks);
  }

  /** A slot is held until it is acknowledged, and the counter moves on three edges after that. */
  lemma AcknowledgedSlotMovesOn(limit: u32, patience: nat, acks: seq<Acks>, a: Acks, b: Acks, d: Acks)
    requires patience >= 2
    ensures var s := Run(limit, patience, acks);
            var s1 := SystemEdge(limit, patience, s, a);
            var s3 := SystemEdge(limit, patience, SystemEdge(limit, patience, s1, b), d);
            && (s.prod.valid && !a.spaceDone ==> s1.prod.valid && s1.prod.slotIndex == s.prod.slotIndex)
            && (s.cons.valid && !a.dataReady ==> s1.cons.valid && s1.cons.slotIndex == s.cons.slotIndex)
            && (s.prod.valid && a.spaceDone ==> !s1.prod.valid && s3.ctrl.head == Add32(s.prod.slotIndex, 1))
            && (s.cons.valid && a.dataReady ==> !s1.cons.valid && s3.ctrl.tail == Add32(s.cons.slotIndex, 1))
  {
    BlocksObey(limit, patience, acks);
    hide Add32, Sub32;
  }

  /** A block that has waited in vain asks again, at most two edges after its patience ends. */
  lemma RefusedBlockAsksAgain(patience: nat, b: Block, index: u32, index': u32, ack: bool, ack': bool)
    requires b.phase.Wait? && b.phase.cycles >= patience
    ensures BlockEdge(patience, BlockEdge(patience, b, false, index, ack), false, index', ack').req
  {
  }

  ghost predicate CanTakeSlots(limit: u32, patience: nat) {
    exists acks :: Run(limit, patience, acks).prod.valid
  }

  lemma FirstSlot(limit: u32, patience: nat)
    requires limit >= 1 && patience >= 2
    ensures CanTakeSlots(limit, patience)
  {
    var a := Acks(false, false);
    assert [a][..0] == [] && [a, a][..1] == [a] && [a, a, a][..2] == [a, a];
    var s := Run(limit, patience, [a]);
    assert s.ctrl == RESET && RESET.Count() == 0;
    RequestIsAnswered(limit, patience, [a], a, a);
    assert Run(limit, patience, [a, a, a]).prod.valid;
  }

  /** Exactly how long a block has to wait for the wiring to work. */
  lemma WorksIffPatient(limit: u32, patience: nat)
    requires limit >= 1 && patience >= 1
    ensures CanTakeSlots(limit, patience) <==> patience >= 2
  {
    if patience >= 2 {
      FirstSlot(limit, patience);
    } else {
      forall acks ensures !Run(limit, patience, acks).prod.valid {
        GrantIsNeverTaken(limit, acks);
      }
    }
  }

  // Slot addresses

  /** `$clog2`: the least exponent whose power of two reaches `n`. */
  function Clog2(n: nat, from: nat := 0): (k: nat)
    requires from > 0 ==> Pow2(from - 1) < n
    ensures n <= Pow2(k) && (k > 0 ==> Pow2(k - 1) < n)
    decreases if n > Pow2(from) then n - Pow2(from) else 0
  {
    if n <= Pow2(from) then from else Clog2(n, from + 1)
  }

  function SlotId(slots: u32, index: u32): nat
    requires slots >= 1
  {
    if IsPow2(slots) then index % Pow2(Clog2(slots)) else index % slots
  }

  function ByteOffset(slots: u32, slotBytes: u32, index: u32): u32
    requires slots >= 1
  {
    if IsPow2(slots) then Wrap(SlotId(slots, index) * Pow2(Clog2(slotBytes)))
    else Wrap(SlotId(slots, index) * slotBytes)
  }

  lemma Clog2OfPow2(n: nat)
    requires IsPow2(n)
    ensures Pow2(Clog2(n)) == n
  {
    var j := Log2(n);
    var k := Clog2(n);
    if k < j { Pow2Grows(k + 1, j); }
    if k > j { Pow2Grows(j, k - 1); }
  }

  /** The hardware and the C library put every index in the same slot. */
  lemma SlotIdAgreesWithLibrary(slots: u32, index: u32)
    requires slots >= 2
    ensures SlotId(slots, index) == Slots.SlotIndex(slots, Slots.SlotsMask(slots), index)
  {
    if IsPow2(slots) {
      hide IsPow2, BitAnd;
      Clog2OfPow2(slots);
      Slots.MaskIsSlotOf(slots, index);
      assert Wrap(index) == index;
      Slots.SlotIndexIsSlotOf(slots, index);
    }
  }

  ghost predicate OffsetsMatch(slots: u32, slotBytes: u32)
    requires slots >= 1
  {
    forall index: u32 :: ByteOffset(slots, slotBytes, index) == Wrap(SlotId(slots, index) * slotBytes)
  }

  /** The shift of the power-of-two path overshoots a slot size that is not a power of two. */
  lemma ShiftOvershoots(slotBytes: u32)
    requires 1 <= slotBytes <= 0x8000_0000 && !IsPow2(slotBytes)
    ensures slotBytes < Pow2(Clog2(slotBytes)) < WORD
  {
    hide IsPow2;
    var k := Clog2(slotBytes);
    Pow2Values();
    if k > 31 {
      Pow2Grows(31, k - 1);
    } else {
      Pow2Grows(k, 31);
    }
    if Pow2(k) == slotBytes { Pow2Passes(k); }
  }

  /** Then the offset of index one is already wrong. */
  lemma FirstOffsetIsOff(slots: u32, slotBytes: u32)
    requires slots >= 2 && 1 <= slotBytes <= 0x8000_0000 && IsPow2(slots) && !IsPow2(slotBytes)
    ensures ByteOffset(slots, slotBytes, 1) != Wrap(SlotId(slots, 1) * slotBytes)
  {
    hide IsPow2, Pow2;
    Clog2OfPow2(slots);
    assert SlotId(slots, 1) == 1;
    ShiftOvershoots(slotBytes);
  }

  /** The offset is slot times slot size, as documented, if and only if the shift of the
      power-of-two path is a multiplication by the slot size. */
  lemma OffsetsMatchExactly(slots: u32, slotBytes: u32)
    requires slots >= 2 && 1 <= slotBytes <= 0x8000_0000
    ensures OffsetsMatch(slots, slotBytes) <==> !IsPow2(slots) || IsPow2(slotBytes)
  {
    hide IsPow2, Pow2, SlotId, Wrap, Clog2;
    if IsPow2(slots) {
      if IsPow2(slotBytes) {
        Clog2OfPow2(slotBytes);
      } else {
        FirstOffsetIsOff(slots, slotBytes);
      }
    }
  }
}
