/** Plain (non-atomic) memory shared by one producer and one consumer, with the
    happens-before order of C11 (sections 5.1.2.4 and 7.17.3 of ISO/IEC 9899:2011) tracked
    by clocks.

    Every access by a thread is an event on that thread's clock. A release store to the
    head or tail counter records the storing thread's clock; an acquire load that reads the
    store makes everything up to that clock known to the loading thread. Two conflicting
    accesses race unless the later one knows the earlier one. */
module Lanes {
  import opened Words
  import opened Slots

  /** A plain cell: its value, when the producer last wrote it, and when and for which
      position the consumer last read it (`rPos` is -1 if it never did). */
  datatype Cell<V> = Cell(val: V, wAt: nat, rPos: int, rAt: nat)

  /** A row of cells indexed by position modulo its length, and the value each published
      position had there when it was published. */
  datatype Lane<V> = Lane(cells: seq<Cell<V>>, log: seq<V>)

  /** `headAt[k]` is the producer's clock at the store that made the head k, `tailAt[k]` the
      consumer's at the store that made the tail k: the modification orders of the two
      counters. `pKnows` and `cKnows` say how much of the other thread each one has seen. */
  datatype Clocks = Clocks(headAt: seq<nat>, tailAt: seq<nat>, pNow: nat, cNow: nat, pKnows: nat, cKnows: nat) {
    /** The newest head: how many messages have been published. */
    function P(): int {
      |headAt| - 1
    }

    /** The newest tail: how many messages have been released. */
    function C(): int {
      |tailAt| - 1
    }

    ghost predicate Ok() {
      && |headAt| >= 1 && |tailAt| >= 1
      && C() <= P()
      && (forall i, j :: 0 <= i <= j < |headAt| ==> headAt[i] <= headAt[j])
      && (forall i, j :: 0 <= i <= j < |tailAt| ==> tailAt[i] <= tailAt[j])
      && headAt[P()] <= pNow && tailAt[C()] <= cNow
      && pKnows <= cNow && cKnows <= pNow
    }

    function ProducerTick(): Clocks {
      this.(pNow := pNow + 1)
    }

    function ConsumerTick(): Clocks {
      this.(cNow := cNow + 1)
    }

    function StoreHead(): Clocks {
      this.(pNow := pNow + 1, headAt := headAt + [pNow + 1])
    }

    function StoreTail(): Clocks {
      this.(cNow := cNow + 1, tailAt := tailAt + [cNow + 1])
    }

    function ProducerLearns(at: nat): Clocks {
      this.(pKnows := if at > pKnows then at else pKnows, pNow := pNow + 1)
    }

    function ConsumerLearns(at: nat): Clocks {
      this.(cKnows := if at > cKnows then at else cKnows, cNow := cNow + 1)
    }
  }

  predicate WriteRaces<V>(cell: Cell<V>, t: Clocks) {
    cell.rAt > t.pKnows
  }

  predicate ReadRaces<V>(cell: Cell<V>, t: Clocks) {
    cell.wAt > t.cKnows
  }

  function Write<V>(lane: Lane<V>, j: nat, t: Clocks, v: V): Lane<V>
    requires j < |lane.cells|
  {
    lane.(cells := lane.cells[j := lane.cells[j].(val := v, wAt := t.pNow + 1)])
  }

  function Read<V>(lane: Lane<V>, j: nat, t: Clocks): Lane<V>
    requires j < |lane.cells|
  {
    lane.(cells := lane.cells[j := lane.cells[j].(rPos := t.C(), rAt := t.cNow + 1)])
  }

  function Publish<V>(lane: Lane<V>, j: nat): Lane<V>
    requires j < |lane.cells|
  {
    lane.(log := lane.log + [lane.cells[j].val])
  }

  ghost predicate CellOk<V>(n: nat, cell: Cell<V>, j: nat, t: Clocks)
    requires n >= 1 && t.Ok()
  {
    && cell.wAt <= t.pNow && cell.rAt <= t.cNow
    && -1 <= cell.rPos <= t.C() && cell.rPos < t.P()
    && (cell.rPos >= 0 ==> SlotOf(n, cell.rPos) == j)
    && (cell.rPos < t.C() ==> cell.rAt <= t.tailAt[cell.rPos + 1])
  }

  /** A published, unreleased position still has its published value in its cell, written
      before the head store that published it. */
  ghost predicate Live<V>(n: nat, lane: Lane<V>, t: Clocks, p: nat)
    requires n >= 1 && t.Ok() && |lane.cells| == n && |lane.log| == t.P() && p < t.P()
  {
    var cell := lane.cells[SlotOf(n, p)];
    cell.val == lane.log[p] && cell.wAt <= t.headAt[p + 1]
  }

  ghost predicate LaneOk<V>(n: nat, lane: Lane<V>, t: Clocks) {
    && n >= 1 && t.Ok()
    && |lane.cells| == n && |lane.log| == t.P()
    && (forall j :: 0 <= j < n ==> CellOk(n, lane.cells[j], j, t))
    && (forall p: nat :: t.C() <= p < t.P() ==> Live(n, lane, t, p))
  }

  /** The producer holds position P, having seen a tail less than `limit` behind it. */
  ghost predicate Granted(n: nat, limit: nat, t: Clocks, tSeen: nat) {
    && t.Ok()
    && 1 <= limit <= n < WORD && SlotsSafe(n, limit)
    && tSeen <= t.C() && t.P() < tSeen + limit
    && t.tailAt[tSeen] <= t.pKnows
  }

  /** Writing the cell of a granted position races with no read and disturbs no live
      position. */
  lemma WriteKeeps<V>(n: nat, limit: nat, lane: Lane<V>, t: Clocks, tSeen: nat, v: V)
    requires LaneOk(n, lane, t) && Granted(n, limit, t, tSeen)
    ensures !WriteRaces(lane.cells[SlotOf(n, t.P())], t)
    ensures LaneOk(n, Write(lane, SlotOf(n, t.P()), t, v), t.ProducerTick())
  {
    var j := SlotOf(n, t.P());
    var q := lane.cells[j].rPos;
    if q >= tSeen {
      CloseIsDistinct(n, limit, q, t.P());
    }
    assert t.tailAt[q + 1] <= t.tailAt[tSeen];
    var lane', t' := Write(lane, j, t, v), t.ProducerTick();
    forall p: nat | t.C() <= p < t.P() ensures Live(n, lane', t', p) {
      assert Live(n, lane, t, p);
      CloseIsDistinct(n, limit, p, t.P());
    }
    forall i | 0 <= i < n ensures CellOk(n, lane'.cells[i], i, t') {
      assert CellOk(n, lane.cells[i], i, t);
    }
  }

  /** Reading the cell of the tail position, once a later head has been seen, races with no
      write and returns what was published there. */
  lemma ReadKeeps<V>(n: nat, lane: Lane<V>, t: Clocks, hSeen: nat)
    requires LaneOk(n, lane, t)
    requires t.C() < hSeen <= t.P() && t.headAt[hSeen] <= t.cKnows
    ensures !ReadRaces(lane.cells[SlotOf(n, t.C())], t)
    ensures lane.cells[SlotOf(n, t.C())].val == lane.log[t.C()]
    ensures LaneOk(n, Read(lane, SlotOf(n, t.C()), t), t.ConsumerTick())
  {
    var j := SlotOf(n, t.C());
    assert Live(n, lane, t, t.C());
    assert t.headAt[t.C() + 1] <= t.headAt[hSeen];
    var lane', t' := Read(lane, j, t), t.ConsumerTick();
    forall p: nat | t.C() <= p < t.P() ensures Live(n, lane', t', p) {
      assert Live(n, lane, t, p);
    }
    forall i | 0 <= i < n ensures CellOk(n, lane'.cells[i], i, t') {
      assert CellOk(n, lane.cells[i], i, t);
    }
  }

  lemma StoreHeadOk(t: Clocks)
    requires t.Ok()
    ensures t.StoreHead().Ok()
  {
  }

  lemma StoreTailOk(t: Clocks)
    requires t.Ok() && t.C() < t.P()
    ensures t.StoreTail().Ok()
  {
  }

  lemma PublishKeeps<V>(n: nat, lane: Lane<V>, t: Clocks)
    requires LaneOk(n, lane, t)
    ensures LaneOk(n, Publish(lane, SlotOf(n, t.P())), t.StoreHead())
  {
    StoreHeadOk(t);
    var lane', t' := Publish(lane, SlotOf(n, t.P())), t.StoreHead();
    forall p: nat | t'.C() <= p < t'.P() ensures Live(n, lane', t', p) {
      if p < t.P() {
        assert Live(n, lane, t, p);
      } else {
        assert CellOk(n, lane.cells[SlotOf(n, p)], SlotOf(n, p), t);
      }
    }
    forall i | 0 <= i < n ensures CellOk(n, lane'.cells[i], i, t') {
      assert CellOk(n, lane.cells[i], i, t);
    }
  }

  lemma ReleaseKeeps<V>(n: nat, lane: Lane<V>, t: Clocks)
    requires LaneOk(n, lane, t) && t.C() < t.P()
    ensures LaneOk(n, lane, t.StoreTail())
  {
    StoreTailOk(t);
    var t' := t.StoreTail();
    forall p: nat | t'.C() <= p < t'.P() ensures Live(n, lane, t', p) {
      assert Live(n, lane, t, p);
    }
    forall i | 0 <= i < n ensures CellOk(n, lane.cells[i], i, t') {
      assert CellOk(n, lane.cells[i], i, t);
    }
  }

  /** Events elsewhere only move the clocks on. */
  lemma TimePasses<V>(n: nat, lane: Lane<V>, t: Clocks, t': Clocks)
    requires LaneOk(n, lane, t) && t'.Ok()
    requires t'.headAt == t.headAt && t'.tailAt == t.tailAt && t.pNow <= t'.pNow && t.cNow <= t'.cNow
    ensures LaneOk(n, lane, t')
  {
    forall p: nat | t'.C() <= p < t'.P() ensures Live(n, lane, t', p) {
      assert Live(n, lane, t, p);
    }
    forall i | 0 <= i < n ensures CellOk(n, lane.cells[i], i, t') {
      assert CellOk(n, lane.cells[i], i, t);
    }
  }
}
