/** The single-producer single-consumer protocol at load and store granularity, both builds.

    One step is one access to shared memory. Loads with acquire order may be stale: they
    return any value of the counter between the last one this thread saw and the newest.
    The threads compute with 32-bit registers; the clocks carry the unbounded positions.
    `fault` is raised by a data race or an access outside the scratch area, `strayed` by a
    branch that the design treats as unreachable. */
module Spsc {
  import opened Words
  import opened Slots
  import opened Lanes

  /** The two builds: a ring of references (`entries[]`) and per-slot lap stamps. */
  datatype Mode = Entries | Laps

  datatype Config = Config(mode: Mode, capacity: u32, slots: u32, limit: u32)

  /** What `rb_init` accepts. */
  ghost predicate Accepted(c: Config) {
    && IsPow2(c.capacity) && c.capacity >= 2
    && 1 <= c.limit <= c.capacity && c.limit <= c.slots
  }

  /** The same, together with the exact exclusivity condition on slots. */
  ghost predicate ConfigOk(c: Config) {
    Accepted(c) && SlotsSafe(c.slots, c.limit)
  }

  datatype Producer =
    | PIdle           // between calls, no slot granted
    | PAcquireTail    // the cached tail shows a full ring: about to load the tail
    | PGranted        // slot granted, the caller may write the payload
    | PHeader(h: u32) // publishing: about to write the slot header
    | PLink           // about to store the entry (Entries) or the stamp (Laps)
    | PHead           // about to store the head
    | PTail           // about to reload the tail

  datatype Consumer =
    | CIdle           // between calls, no slot held
    | CLoadHead       // the cached head shows an empty ring: about to load the head
    | CLink           // about to read the entry (Entries) or the stamp (Laps)
    | CMiss           // the stamp did not match: about to reload the head
    | CHeader         // about to read the slot header
    | CHeld           // slot held, the caller may read the payload
    | CRestamp        // releasing: about to recycle the stamp (Laps only)
    | CTail           // about to store the tail

  /** A store to a slot's stamp: its value, whether the producer made it, its clock, and the
      position it was made for. */
  datatype Stamp = Stamp(val: u32, byProducer: bool, at: nat, position: int)

  /** A message as it travels: payload bytes and header word. */
  datatype Sent = Sent(body: seq<Byte>, hdr: u32)

  datatype State = State(
    t: Clocks,
    tSeen: nat, cachedTail: u32, prod: Producer, pSlot: nat,
    hSeen: nat, cachedHead: u32, cons: Consumer, cSlot: nat, cHdr: u32,
    body: Lane<seq<Byte>>, hdr: Lane<u32>, link: Lane<nat>,
    stamps: seq<seq<Stamp>>, stampSeen: seq<nat>,
    got: seq<Sent>, fault: bool, strayed: bool)

  datatype Action =
    | Acquire(drop: bool)
    | AcquireTail(i: nat, drop: bool)
    | WritePayload(bytes: seq<Byte>)
    | Abort
    | Publish(h: u32)
    | WriteHeader
    | WriteLink
    | StoreHead
    | ReloadTail(i: nat)
    | Consume
    | LoadHead(i: nat)
    | ReadLink(i: nat)
    | ReloadHead(i: nat)
    | ReadHeader
    | ReadPayload
    | Release
    | Recycle
    | StoreTail

  function Last<T>(s: seq<T>): T
    requires s != []
  {
    s[|s| - 1]
  }

  ghost predicate Init(c: Config, s: State) {
    && s.t == Clocks([0], [0], 0, 0, 0, 0)
    && s.tSeen == s.hSeen == 0 && s.cachedTail == s.cachedHead == 0
    && s.prod == PIdle && s.cons == CIdle
    && FreshLane(c.slots, s.body) && FreshLane(c.slots, s.hdr) && FreshLane(c.capacity, s.link)
    && |s.stamps| == |s.stampSeen| == c.slots
    && (forall j :: 0 <= j < c.slots ==> s.stamps[j] == [Stamp(j, true, 0, j)] && s.stampSeen[j] == 0)
    && s.got == [] && !s.fault && !s.strayed
  }

  ghost predicate FreshLane<V>(n: nat, lane: Lane<V>) {
    && |lane.cells| == n && lane.log == []
    && forall j :: 0 <= j < n ==> lane.cells[j].wAt == 0 && lane.cells[j].rPos == -1 && lane.cells[j].rAt == 0
  }

  /** A stamp load may return any store not older than the last one this thread saw and not
      hidden by a later store that the thread made itself or already knows of. */
  predicate Readable(hist: seq<Stamp>, i: nat, seen: nat, knows: nat) {
    && seen <= i < |hist|
    && forall j :: i < j < |hist| ==> hist[j].byProducer && hist[j].at > knows
  }

  predicate ClocksStarted(t: Clocks) {
    |t.headAt| >= 1 && |t.tailAt| >= 1
  }

  predicate TailLoadable(s: State, i: nat) {
    s.tSeen <= i < |s.t.tailAt|
  }

  predicate HeadLoadable(s: State, i: nat) {
    s.hSeen <= i < |s.t.headAt|
  }

  /** Which accesses a thread can make next. */
  predicate Can(c: Config, s: State, a: Action) {
    && ClocksStarted(s.t)
    && match a
       case Acquire(_) => s.prod.PIdle?
       case AcquireTail(i, _) => s.prod.PAcquireTail? && TailLoadable(s, i)
       case WritePayload(_) => s.prod.PGranted?
       case Abort => s.prod.PGranted?
       case Publish(_) => s.prod.PGranted?
       case WriteHeader => s.prod.PHeader?
       case WriteLink => s.prod.PLink?
       case StoreHead => s.prod.PHead?
       case ReloadTail(i) => s.prod.PTail? && TailLoadable(s, i)
       case Consume => s.cons.CIdle?
       case LoadHead(i) => s.cons.CLoadHead? && HeadLoadable(s, i)
       case ReadLink(i) =>
         s.cons.CLink? && (c.mode.Laps? ==> StampLoadable(c, s, i))
       case ReloadHead(i) => s.cons.CMiss? && HeadLoadable(s, i)
       case ReadHeader => s.cons.CHeader?
       case ReadPayload => s.cons.CHeld?
       case Release => s.cons.CHeld?
       case Recycle => s.cons.CRestamp?
       case StoreTail => s.cons.CTail?
  }

  function HeadReg(s: State): u32 {
    Wrap(s.t.P())
  }

  function TailReg(s: State): u32 {
    Wrap(s.t.C())
  }

  function SlotReg(c: Config, r: u32): nat
    requires c.slots >= 1
  {
    SlotIndex(c.slots, SlotsMask(c.slots), r)
  }

  /** The entry of a counter value: `r & mask`. */
  function EntryReg(c: Config, r: u32): nat
    requires c.capacity >= 1
  {
    BitAnd(r, c.capacity - 1)
  }

  predicate StampLoadable(c: Config, s: State, i: nat) {
    c.slots >= 1 &&
    var j := SlotReg(c, TailReg(s));
    j < |s.stamps| && j < |s.stampSeen| ==> Readable(s.stamps[j], i, s.stampSeen[j], s.t.cKnows)
  }

  // Producer

  function Grant(c: Config, s: State, drop: bool): State
    requires c.slots >= 1
  {
    if drop then s.(prod := PIdle) else s.(prod := PGranted, pSlot := SlotReg(c, HeadReg(s)))
  }

  function DoAcquire(c: Config, s: State, drop: bool): State
    requires c.slots >= 1
  {
    if Sub32(HeadReg(s), s.cachedTail) >= c.limit then s.(prod := PAcquireTail) else Grant(c, s, drop)
  }

  function LoadTail(s: State, i: nat): State
    requires TailLoadable(s, i)
  {
    s.(t := s.t.ProducerLearns(s.t.tailAt[i]), tSeen := i, cachedTail := Wrap(i))
  }

  function DoAcquireTail(c: Config, s: State, i: nat, drop: bool): State
    requires c.slots >= 1 && TailLoadable(s, i)
  {
    var s' := LoadTail(s, i);
    if Sub32(HeadReg(s'), s'.cachedTail) >= c.limit then s'.(prod := PIdle) else Grant(c, s', drop)
  }

  function DoWritePayload(s: State, bytes: seq<Byte>): State {
    if s.pSlot >= |s.body.cells| then s.(fault := true)
    else s.(body := Write(s.body, s.pSlot, s.t, bytes), t := s.t.ProducerTick(),
            fault := s.fault || WriteRaces(s.body.cells[s.pSlot], s.t))
  }

  function DoWriteHeader(s: State): State
    requires s.prod.PHeader?
  {
    if s.pSlot >= |s.hdr.cells| then s.(fault := true)
    else s.(hdr := Write(s.hdr, s.pSlot, s.t, s.prod.h), t := s.t.ProducerTick(), prod := PLink,
            fault := s.fault || WriteRaces(s.hdr.cells[s.pSlot], s.t))
  }

  function DoWriteStamp(s: State): State {
    if s.pSlot >= |s.stamps| then s.(fault := true)
    else s.(stamps := s.stamps[s.pSlot := s.stamps[s.pSlot]
                                          + [Stamp(Add32(HeadReg(s), 1), true, s.t.pNow + 1, s.t.P())]],
            t := s.t.ProducerTick(), prod := PHead)
  }

  /** `entries[e]` receives the slot index. */
  function DoWriteEntry(s: State, e: nat): State {
    if e >= |s.link.cells| then s.(fault := true)
    else s.(link := Write(s.link, e, s.t, s.pSlot), t := s.t.ProducerTick(), prod := PHead,
            fault := s.fault || WriteRaces(s.link.cells[e], s.t))
  }

  /** The head store publishes: the lanes log what the slot and the entry hold. */
  function DoStoreHead(c: Config, s: State): State
    requires ClocksStarted(s.t) && c.capacity >= 1
  {
    var e := SlotOf(c.capacity, s.t.P());
    if s.pSlot >= |s.body.cells| || s.pSlot >= |s.hdr.cells| || e >= |s.link.cells| then s.(fault := true)
    else s.(t := s.t.StoreHead(), prod := PTail,
            body := Lanes.Publish(s.body, s.pSlot), hdr := Lanes.Publish(s.hdr, s.pSlot),
            link := Lanes.Publish(s.link, e))
  }

  // Consumer

  function DoConsume(s: State): State {
    if TailReg(s) == s.cachedHead then s.(cons := CLoadHead) else s.(cons := CLink)
  }

  function DoLoadHead(s: State, i: nat): State
    requires HeadLoadable(s, i)
  {
    var s' := s.(t := s.t.ConsumerLearns(s.t.headAt[i]), hSeen := i, cachedHead := Wrap(i));
    s'.(cons := if TailReg(s) == Wrap(i) then CIdle else CLink)
  }

  function DoReadStamp(c: Config, s: State, i: nat): State
    requires StampLoadable(c, s, i)
  {
    var j := SlotReg(c, TailReg(s));
    if j >= |s.stamps| || j >= |s.stampSeen| then s.(fault := true)
    else
      var st := s.stamps[j][i];
      var s' := s.(cSlot := j, stampSeen := s.stampSeen[j := i],
                   t := s.t.ConsumerLearns(if st.byProducer then st.at else 0));
      if st.val != Add32(TailReg(s), 1) then s'.(cons := CMiss, strayed := true) else s'.(cons := CHeader)
  }

  function DoReadEntry(c: Config, s: State, e: nat): State
    requires ClocksStarted(s.t)
  {
    if e >= |s.link.cells| then s.(fault := true)
    else
      var v := s.link.cells[e].val;
      var s' := s.(link := Read(s.link, e, s.t), t := s.t.ConsumerTick(), cSlot := v,
                   fault := s.fault || ReadRaces(s.link.cells[e], s.t));
      if v >= c.slots then s'.(cons := CIdle, strayed := true) else s'.(cons := CHeader)
  }

  function DoReloadHead(s: State, i: nat): State
    requires HeadLoadable(s, i)
  {
    var s' := DoLoadHead(s, i);
    if s'.cons.CIdle? then s' else s'.(cons := CHeader)
  }

  function DoReadHeader(s: State): State
    requires ClocksStarted(s.t)
  {
    if s.cSlot >= |s.hdr.cells| then s.(fault := true)
    else s.(hdr := Read(s.hdr, s.cSlot, s.t), t := s.t.ConsumerTick(), cons := CHeld,
            cHdr := s.hdr.cells[s.cSlot].val, fault := s.fault || ReadRaces(s.hdr.cells[s.cSlot], s.t))
  }

  function DoReadPayload(s: State): State
    requires ClocksStarted(s.t)
  {
    if s.cSlot >= |s.body.cells| then s.(fault := true)
    else s.(body := Read(s.body, s.cSlot, s.t), t := s.t.ConsumerTick(),
            fault := s.fault || ReadRaces(s.body.cells[s.cSlot], s.t))
  }

  function DoRecycle(c: Config, s: State): State {
    if s.cSlot >= |s.stamps| || s.cSlot >= |s.stampSeen| then s.(fault := true)
    else s.(stamps := s.stamps[s.cSlot := s.stamps[s.cSlot]
                                          + [Stamp(Add32(TailReg(s), c.slots), false, s.t.cNow + 1, s.t.C())]],
            stampSeen := s.stampSeen[s.cSlot := |s.stamps[s.cSlot]|],
            t := s.t.ConsumerTick(), cons := CTail)
  }

  /** The tail store releases: the message just held counts as received. */
  function DoStoreTail(s: State): State {
    if s.cSlot >= |s.body.cells| then s.(fault := true)
    else s.(t := s.t.StoreTail(), cons := CIdle,
            got := s.got + [Sent(s.body.cells[s.cSlot].val, s.cHdr)])
  }

  function Do(c: Config, s: State, a: Action): State
    requires c.slots >= 1 && c.capacity >= 1 && Can(c, s, a)
  {
    match a
    case Acquire(drop) => DoAcquire(c, s, drop)
    case AcquireTail(i, drop) => DoAcquireTail(c, s, i, drop)
    case WritePayload(bytes) => DoWritePayload(s, bytes)
    case Abort => s.(prod := PIdle)
    case Publish(h) => s.(prod := PHeader(h))
    case WriteHeader => DoWriteHeader(s)
    case WriteLink => if c.mode.Laps? then DoWriteStamp(s) else DoWriteEntry(s, EntryReg(c, HeadReg(s)))
    case StoreHead => DoStoreHead(c, s)
    case ReloadTail(i) => LoadTail(s, i).(prod := PIdle)
    case Consume => DoConsume(s)
    case LoadHead(i) => DoLoadHead(s, i)
    case ReadLink(i) => if c.mode.Laps? then DoReadStamp(c, s, i) else DoReadEntry(c, s, EntryReg(c, TailReg(s)))
    case ReloadHead(i) => DoReloadHead(s, i)
    case ReadHeader => DoReadHeader(s)
    case ReadPayload => DoReadPayload(s)
    case Release => s.(cons := if c.mode.Laps? then CRestamp else CTail)
    case Recycle => DoRecycle(c, s)
    case StoreTail => DoStoreTail(s)
  }

  // What holds in every accepted configuration

  predicate Writing(p: Producer) {
    p.PGranted? || p.PHeader? || p.PLink? || p.PHead?
  }

  predicate Reading(k: Consumer) {
    k.CHeader? || k.CHeld? || k.CRestamp? || k.CTail?
  }

  /** The registers are images of positions: tSeen <= C <= hSeen <= P <= tSeen + limit. */
  ghost predicate Positions(c: Config, s: State)
    requires Accepted(c)
  {
    && s.t.Ok()
    && s.tSeen <= s.t.C() <= s.hSeen <= s.t.P() <= s.tSeen + c.limit
    && s.cachedTail == Wrap(s.tSeen) && s.cachedHead == Wrap(s.hSeen)
    && s.t.tailAt[s.tSeen] <= s.t.pKnows && s.t.headAt[s.hSeen] <= s.t.cKnows
    && (Writing(s.prod) ==> s.t.P() < s.tSeen + c.limit && s.pSlot == SlotOf(c.slots, s.t.P()))
    && (s.cons.CLink? || s.cons.CMiss? || Reading(s.cons) ==> s.t.C() < s.hSeen)
    && (s.cons.CMiss? || Reading(s.cons) ==> s.cSlot == SlotOf(c.slots, s.t.C()))
    && (c.mode.Entries? ==> !s.cons.CRestamp? && !s.cons.CMiss?)
  }

  /** In the Entries build every published entry names the slot of its position. */
  ghost predicate Links(c: Config, s: State)
    requires Accepted(c)
  {
    c.mode.Entries? ==>
      && (forall p :: 0 <= p < |s.link.log| ==> s.link.log[p] == SlotOf(c.slots, p))
      && (s.prod.PHead? ==>
            && |s.link.cells| == c.capacity && s.t.P() >= 0
            && s.link.cells[SlotOf(c.capacity, s.t.P())].val == s.pSlot)
  }

  /** Everything has its size, and no store of the producer lies in the future. */
  ghost predicate Shapes(c: Config, s: State) {
    && |s.body.cells| == |s.hdr.cells| == |s.stamps| == |s.stampSeen| == c.slots
    && |s.body.log| == |s.hdr.log| == s.t.P() && |s.got| == s.t.C()
    && (forall j :: 0 <= j < c.slots ==> s.stampSeen[j] < |s.stamps[j]|)
    && (forall j, i :: 0 <= j < c.slots && 0 <= i < |s.stamps[j]| && s.stamps[j][i].byProducer ==>
          s.stamps[j][i].at <= s.t.pNow)
  }

  ghost predicate Core(c: Config, s: State) {
    && Accepted(c) && Positions(c, s) && Shapes(c, s)
    && LaneOk(c.capacity, s.link, s.t) && Links(c, s)
  }
}
