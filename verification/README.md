# rb in Dafny

A Dafny 4.11 model of `rb`, a single-producer single-consumer message ring in C, and proofs about
it. `dafny verify dfyconfig.toml` checks the whole project.

The ring keeps free-running 32-bit counters, a stale cached copy of each counter on the other side,
a ring of `capacity` references (or, in the per-slot-lap build, a stamp in every slot), and a
separately sized pool of scratch slots addressed by position modulo `slots`. Three moduli meet: 2^32,
`capacity` and `slots`.

## What is where

The ring is modelled at three levels, each in the form its question needs.

- **Abstract queue.** `Fifo` is a bounded FIFO with one pure transition per API call, and `Meaning` says
  what each call promises without naming its definition: every answer with its exact condition, every
  callback, what a configuration becomes. `Calls` proves what holds over any sequence of calls:
  conservation, inert failures, exact statistics, no silent truncation; `Answers` what a grant is, what
  the oversize policies rule out and what is left after `rb_deinit`. `Callbacks` proves that a client which
  sees only the callbacks knows the latch, the messages and the hit counters, `LowWater` exactly which
  low-water callbacks each view of the consumer brings, and `Backpressure` when the latched callbacks can
  stall a producer.
- **The C code.** `Rings.Ring` is a class with the fields of `struct rb_s`, arrays for `entries[]`,
  headers, stamps and payloads, and 32-bit arithmetic written out. Both builds are one class with a
  `laps` flag. Every method ensures that the new abstract queue and the return code are exactly what
  the pure transition gives for the old one; `Consume` adds what a failed stamp check does to the view.
  `Batches` does `rb_drain` and `rb_flush`. `Twins` puts the two builds side by side, `Views` says what
  depends on the consumer's view, and `Divergence` where the builds part. `Storage`, `Slots`, `Layout`
  and `Words` hold the facts about memory, slots, headers and machine words that this rests on.
- **Concurrent steps.** `Spsc` is the protocol one load or store at a time. An acquire load may return
  any value between the last one its thread saw and the newest; the happens-before order of sections
  5.1.2.4 and 7.17.3 of ISO/IEC 9899:2011 is tracked with clocks (`Lanes`), so a data race is a state
  one can prove unreachable. `SpscCore` proves what every accepted configuration keeps (counters, entries,
  slot indices), `SpscSafe` what a safe geometry adds (contents, stamps, no races). `SpscTheorems` states
  what holds in every run, `SpscRaces` where the protocol races, `SpscAnswers` when FULL and EMPTY are
  true, `SpscStamps` why the stamps have one order of stores; `SpscRuns` builds the runs they show.
  `Latch` does the same for the relaxed full latch, `Wake` for the futex protocol and `EventLoop` for the
  eventfd loop.

Beside the ring, `Pipeline` is the two-ring CPU/FPGA offload example, `Hash` the hash its worker computes
and `Hdl` the clocked controller.

## What turned out not to hold everywhere

Each comes with a proof of the failure and of the condition under which the property does hold, exact
wherever the table says "if and only if".

- Live positions share a slot at the counter wrap unless 2^32 mod `slots` is zero or at least `limit`, the
  safe geometries (`Slots.SlotExclusivity`). The protocol is free of data races if and only if the
  geometry is safe (`SpscRaces.RaceFreeExactly`). Elsewhere ordinary calls on either build hand the
  consumer a slot that a later message has overwritten, the lap build in spite of a failed stamp check
  (`Twins.WrapCollision`).
- The two builds cannot be told apart by replies, callbacks or payload memory if and only if the geometry
  is safe or `low_d` is zero (`Twins.Lockstep`, `Divergence.BuildsDiverge`).
- `slot_stride_for` yields zero for a slot size within one alignment unit of 2^32
  (`Layout.StrideIsExact`, `Layout.LayoutIsSound`).
- The fixed-size shared-memory region of the IPC examples is too small for `rb_init` unless the slot
  size is a multiple of the alignment; 100 bytes at an alignment of 16 is not
  (`Layout.IpcRegionFitsExactly`, `Layout.IpcRegionTooSmall`).
- The length field holds 31 bits (`Layout.HeaderRoundTrip`). No run cuts a message without saying so if
  and only if the payload area is smaller than 2^31 bytes (`Calls.NothingIsSilentlyCutExactly`).
- FULL and EMPTY are the answers of a bounded FIFO if and only if the counter loaded is the newest
  (`SpscAnswers.FullIsTrueIffFresh`, `SpscAnswers.EmptyIsTrueIffFresh`). In every configuration a stale
  load can refuse the last free slot, with a limit of two or more even on a ring that has never been full,
  or miss a message published before the call (`SpscAnswers.FullCanBeStale`,
  `SpscAnswers.EmptyCanBeStale`).
- With T the `low_d` threshold and L the limit, a producer that stops at `on_full` can be left stopped
  on an empty ring unless 1 <= T and 2T <= L + 1 (`Backpressure.NoStallExactly`). At load and store
  granularity a late `on_full` can do so in every configuration (`Latch.LateFullGetsStuck`).
- `on_full` and `on_low_d` alternate in the order of the latch's stores (`Latch.StoresAlternate`), and as
  the client is called whenever no store of `on_full` is overtaken (`Latch.PromptCallbacksAlternate`).
  The stores are relaxed and may be overtaken: then two `on_full` can come in a row, in every
  configuration in which `on_low_d` can fire at all (`Latch.CallbacksAlternateExactly`).
- A wakeup can be lost if and only if `expected` may be 2^32 or more publishes old when it is compared, or
  the relaxed load of the waiter count may overtake the head store (`Wake.NoLostWakeupExactly`, with a run
  for each case). The waiter then sleeps until the end of its slice.
- In drop mode the host's sequence numbers and the worker's drift apart
  (`Pipeline.NumbersMatchIffNoneDropped`).
- Wired straight to the hardware controller, the producer and consumer blocks never take a grant
  (`Hdl.GrantIsNeverTaken`, `Hdl.WorksIffPatient`). The controller is safe if and only if no request is
  granted in the cycle of the same side's `done` (`Hdl.RunIsSafeExactly`); such requests overflow it on
  one side and underflow it on the other. Byte offsets are wrong for power-of-two slot counts with a slot
  size that is not one (`Hdl.OffsetsMatchExactly`).

## Where code and documentation differ

The model follows the code.

- docs/README.md lines 110 to 114 say that `on_full` unlatches when the count falls below `low_d` and
  that the low latches unlatch on the upward crossing. The code compares the consumer's cached view
  (src/rb.c lines 463 and 468), and a release never crosses upward, so those branches are dead
  (`Latch.LowFiresOncePerRefresh`; in `Rings.Ring.CrossLowD` and `CrossLowE` they are `assert false`).
- docs/TECHNICAL.md lines 183 to 187 say that a stamp mismatch is retried. The code reloads the head
  and goes on (src/rb.c lines 399 to 404). With safe slots the branch is never taken
  (`SpscTheorems.RunsAreRaceFree`, `Rings.Ring.ReadStamp`).

## Model

| member | source | states |
|---|---|---|
| `Words.SubIsDistance` | src/rb.c:253-257 | a 32-bit difference of two wrapped positions less than 2^32 apart is their true distance |
| `Words.MaskIsMod` | src/rb.c:413 | masking with 2^k - 1 is the remainder by 2^k |
| `Words.IsPow2Exactly` | include/rb_port.h:67 | the bit trick accepts exactly the powers of two |
| `Slots.SlotIndexIsSlotOf` | src/rb.c:74-76 | the mask branch and the remainder branch of `slot_index_for` give the same slot for every counter value |
| `Slots.MaskIsSlotOf` | src/rb.c:317-319 | the entry index `head & mask` is the position modulo capacity, across counter wraps |
| `Slots.CloseIsDistinct` | src/rb.c:253-272 | two live positions never share a slot of a safe geometry |
| `Slots.SlotExclusivity` | src/rb.c:74-76 | every window of `limit` positions uses distinct slots at every counter value if and only if 2^32 mod slots is zero or at least `limit` |
| `Slots.Collision` | src/rb.c:157-161 | in every other geometry two named positions of one window share a slot |
| `Slots.Pow2SlotsAreSafe` | src/rb.c:182 | power-of-two slot counts are safe for every limit |
| `Layout.HeaderFields` | src/rb.c:431-432 | what the consumer's two masks extract from any header word |
| `Layout.EncodeSays` | src/rb.c:302-304 | the word the producer writes carries the flag and the low 31 bits of the length |
| `Layout.HeaderRoundTrip` | include/rb.h:24-25 | decoding an encoded header gives the flag always, and the length if and only if it is below 2^31 |
| `Layout.AlignUpIsCeiling` | include/rb_port.h:66 | `RB_ALIGN_UP` is the least multiple of a power-of-two alignment not below its argument |
| `Layout.StrideIsExact` | src/rb.c:61-70 | the cast of the stride loses nothing if and only if the slot size is at least one alignment unit below 2^32; otherwise the stride is zero |
| `Layout.LayoutIsSound` | src/rb.c:164-176 | for every scratch size that is accepted all slots are aligned, disjoint and inside it, if and only if the stride survives its cast |
| `Layout.PointerEntryRoundTrip` | src/rb.c:415-427 | the pointer-entry build recovers the slot index from a slot address and takes no error return |
| `Layout.RecoveredExactly` | src/rb.c:415-427 | and an index comes back exactly for the address of that slot; beyond the scratch area also for addresses whole laps of 2^32 slots on |
| `Layout.IpcAgreesWithInit` | examples/ipc_common.h:47-62 | the size for a given message size is exactly what `rb_init` demands if and only if the stride survives its cast; the scratch area starts aligned past the control block |
| `Layout.IpcRegionFitsExactly` | examples/ipc_common.h:38-45 | the fixed region leaves the bytes `rb_init` demands if and only if the slot size is a multiple of the alignment, or so large that its stride is cast to zero |
| `Layout.IpcRegionTooSmall` | examples/ipc_writer.c:49-75 | slots of 100 bytes at an alignment of 16 do not fit their region, whatever their number |
| `Fifo.BelowLowIsThreshold` | src/rb.c:71-73 | the scaled comparison is a comparison with the rounded-up percentage of the limit, which lies between one and the limit |
| `Fifo.PublishEffect` | src/rb.c:290-368 | a successful publish appends one message, counts it, raises the high-water mark and the full latch exactly when due, and beyond statistics and callbacks changes nothing else |
| `Fifo.ReleaseEffect` | src/rb.c:452-497 | a successful release drops one message, counts it, clears the full latch exactly when the view comes down to the threshold, and beyond the low latches, statistics and callbacks changes nothing else |
| `Fifo.InitialOk` | src/rb.c:148-163 | every configuration that passes the checks, with defaults and clamping applied, starts in a valid state |
| `Meaning.AcquireAnswers` | src/rb.c:239-289 | each answer with its exact condition: FULL if and only if a ready ring without a grant is at its limit, and counted; with room, OVERSIZE if and only if the request is too long and the policy drops; a grant is for what was asked |
| `Meaning.ConsumeAnswers` | src/rb.c:381-412 | EMPTY if and only if a ready ring has nothing held and nothing left; the view is renewed exactly when nothing is left in it |
| `Meaning.AbortAnswers` | src/rb.c:372-380 | a grant is given up if and only if there is one; nothing else changes |
| `Meaning.SetLimitAnswers` | src/rb.c:587-594 | the limit becomes the one given if and only if the ring is ready and empty and the limit is from one up to capacity and slots |
| `Meaning.SetPolicyAnswers` | src/rb.c:611-618 | the policy becomes the one given if and only if the ring is ready |
| `Meaning.MovingAnswers` | src/rb.c:290-295 | publish and release succeed if and only if the ring is ready and the slot is the one granted or held |
| `Meaning.BelowLowIsShare` | src/rb.c:71-73 | the integer comparison is the comparison with that percentage of the limit as a real number |
| `Meaning.PublishCallbacks` | src/rb.c:350-366 | a publish announces slot, length and flag, then calls `on_full` if and only if it fills the ring with the latch clear |
| `Meaning.ReleaseCallbacks` | src/rb.c:473-495 | a release calls `on_low_d` and then `on_low_e`, each if and only if the view was not below its own share of the limit before and is now; latches and hit counters follow |
| `Meaning.InitialMeans` | src/rb.c:148-163 | sizes given are kept, sizes of zero get the defaults, the limit is the least of capacity, slots and what is asked for, thresholds and policy are those given |
| `Meaning.AcceptableExactly` | src/rb.c:143-176 | the checks accept exactly aligned memory, a capacity that is a power of two from 2 on, a slot larger than its header, low_e <= low_d <= 100 and a scratch area that holds every slot |
| `Lanes.WriteKeeps` | src/rb.c:305-306 | a producer write to the granted slot races with nothing and keeps every live message |
| `Lanes.ReadKeeps` | src/rb.c:429-430 | a consumer read of the held slot races with nothing |
| `Lanes.PublishKeeps` | src/rb.c:321 | the head store makes the slot's content the published value of its position |
| `Lanes.ReleaseKeeps` | src/rb.c:465-466 | the tail store frees the slot and keeps the remaining live messages |
| `SpscSafe.StampIsCurrent` | src/rb.c:395-404 | for a consumer that has seen the head, no stale stamp load can return anything but position plus one |
| `SpscCore.CoreStepKeeps` | src/rb.c:239-497 | in every accepted configuration every load or store of either build, however stale the value loaded, keeps the counters, the entries and the slot indices right |
| `SpscSafe.StepKeeps` | src/rb.c:239-497 | in a safe geometry it also keeps the contents of slots, headers and stamps, and causes no race |
| `SpscTheorems.RunKeepsCore` | src/rb.c:239-497 | the first holds at every point of every run of every accepted configuration |
| `SpscTheorems.RunKeeps` | src/rb.c:239-497 | the second holds at every point of every run of a safe geometry |
| `SpscTheorems.EveryAccessIsChecked` | src/rb.c:302-319 | in every accepted configuration a step faults if and only if it writes a cell read later than the producer knows, or reads one written later than the consumer knows; none is outside the scratch area |
| `SpscTheorems.RunsAreRaceFree` | src/rb.c:305-321 | in a safe geometry no run has a data race or an access outside the scratch area, takes the stamp-mismatch branch or finds a slot index out of range |
| `SpscRaces.UnsafeRaces` | src/rb.c:279-306 | in every other geometry some run of either build has a data race between a payload read and a payload write |
| `SpscRaces.RaceFreeExactly` | src/rb.c:74-76 | no run of an accepted configuration races if and only if 2^32 mod slots is zero or at least `limit` |
| `SpscTheorems.ReaderSeesWhatWasSent` | src/rb.c:406-432 | in a safe geometry the header and bytes the consumer holds are those published for that position, in every run |
| `SpscTheorems.CountersRefinePositions` | src/rb.c:246-258 | in every run of every accepted configuration cached tail <= tail <= cached head <= head <= tail + limit, and each 32-bit difference the code takes is the true one |
| `SpscTheorems.StepsLinearize` | src/rb.c:321 | in a safe geometry every step is a step of the bounded FIFO: the head store appends, the tail store removes the first, all else changes nothing |
| `SpscTheorems.RunsLinearize` | src/rb.c:466 | so every run is step by step a run of the bounded FIFO from empty, as far as the queue and the receipts go |
| `SpscAnswers.FullIsTrueIffFresh` | src/rb.c:253-265 | in every run of every accepted configuration a FULL answer means a queue of exactly `limit` if and only if the tail it rests on is the newest |
| `SpscAnswers.EmptyIsTrueIffFresh` | src/rb.c:406-412 | in every run of every accepted configuration an EMPTY answer means an empty queue if and only if the head it rests on is the newest |
| `SpscAnswers.FullCanBeStale` | src/rb.c:346-347 | in every configuration of either build some run answers FULL on a queue below the limit; with a limit of two or more the queue was never full in that run |
| `SpscAnswers.EmptyCanBeStale` | src/rb.c:407-411 | in every configuration of either build some run answers EMPTY although a message was in the queue from before the call to its end |
| `SpscStamps.StampStoresAreOrdered` | src/rb.c:457-461 | in a safe geometry, in every run, a store to a stamp happens after every earlier store of the other thread to it, so its modification order is the order of the protocol |
| `SpscStamps.StampsNamePositions` | src/rb.c:209-215 | in every run of every accepted configuration each stamp stored is its slot's index, one past the position published, or `slots` past the position released |
| `SpscStamps.ReleasedForNextPosition` | src/rb.c:457-461 | where the slots divide 2^32 a released slot is stamped with the next position that uses it |
| `SpscTheorems.ReceiptsArePublishedPrefix` | src/rb.c:239-497 | in a safe geometry, at any two times of a run, the earlier receipts are a prefix of the later published sequence, which is never rewritten; published less received is the queue length, at most the limit |
| `SpscTheorems.AcquireIsExact` | src/rb.c:253-272 | the cached tail is relied on if and only if it shows room, and then nothing is loaded; otherwise FULL is answered if and only if the tail loaded is a whole limit behind; a request that the policy drops gets no slot |
| `SpscTheorems.AbortUndoesAcquire` | src/rb.c:372-380 | a grant given up and asked for again is the same grant in the same state |
| `SpscTheorems.ConsumeIsExact` | src/rb.c:406-412 | the cached head is relied on if and only if it is past the tail, and then nothing is loaded; otherwise EMPTY is answered if and only if the head loaded equals the tail |
| `SpscTheorems.BadEntryIsRefused` | src/rb.c:425-426 | an entry that names no slot ends the call with nothing held |
| `Storage.PublishingStaysInSlots` | src/rb.c:302-306 | the header store leaves every live message readable from its slot, the new one included |
| `Storage.PublishingStaysInEntries` | src/rb.c:315-321 | the entry store leaves every live entry naming its slot |
| `Storage.PublishingStaysInStamps` | src/rb.c:311-313 | the stamp store leaves every live stamp one past its position and every free stamp at the next position to use it |
| `Storage.ReleasingStaysInStamps` | src/rb.c:457-461 | recycling stamps the freed slot with the position that uses it one lap later, also across the counter wrap |
| `Rings.Ring.constructor` | src/rb.c:148-224 | a new ring is valid and empty, whatever the scratch memory held; sizes, limit, thresholds and policy are what the configuration asks for, with the defaults for sizes of zero and the limit clamped to capacity and slots |
| `Rings.Ring.Init` | src/rb.c:143-176 | a ring as configured comes back if and only if the memory is aligned, the capacity a power of two from 2 on, the slot larger than its header, low_e <= low_d <= 100 and the scratch area holds every slot; INVAL otherwise |
| `Rings.Ring.Preseed` | src/rb.c:209-215 | the lap build stamps every slot with its own index |
| `Rings.Ring.HasRoom` | src/rb.c:253-258 | the count against a stale cached tail, reloaded once, decides exactly whether there is room |
| `Rings.Ring.Acquire` | src/rb.c:239-289 | return code and state are those of the FIFO's acquire; FULL if and only if at the limit; with room, granted if and only if the length fits or the policy truncates, OVERSIZE otherwise; the slot handed out is the head's |
| `Rings.Ring.WritePayload` | src/rb.c:278-285 | writing through the granted pointer changes only the pending message |
| `Rings.Ring.Publish` | src/rb.c:290-368 | return code, state, latches, statistics and callbacks are those of the FIFO's publish, in both builds |
| `Rings.Ring.StoreMessage` | src/rb.c:302-319 | the header, entry and stamp stores leave memory holding the published queue |
| `Rings.Ring.StoreHead` | src/rb.c:339-349 | after the head store and the tail reload the 32-bit count is the true count |
| `Rings.Ring.CrossFull` | src/rb.c:359-366 | `on_full` fires exactly when the latch is clear and the count has reached the limit |
| `Rings.Ring.Abort` | src/rb.c:372-380 | the grant is dropped and the queue is unchanged |
| `Rings.Ring.LookForMessage` | src/rb.c:406-412 | the emptiness test against a stale cached head, reloaded once, is exact |
| `Rings.Ring.ReadEntry` | src/rb.c:413-424 | the entry of the tail names the slot of the oldest message |
| `Rings.Ring.ReadStamp` | src/rb.c:395-404 | the lap build finds the same slot; a mismatch refreshes the view and goes on, and cannot happen with safe slots |
| `Rings.Ring.ReadHeader` | src/rb.c:429-432 | length, flag and bytes read are those of the oldest message, and the length never exceeds the payload area |
| `Rings.Ring.Consume` | src/rb.c:381-451 | return code and state are those of the FIFO's consume, but for a view refreshed exactly on a stamp mismatch; length and flag are what the slot says, which in a safe geometry is the oldest message |
| `Rings.Ring.CrossLowD` | src/rb.c:473-484 | `on_low_d` is called if and only if the view was not below `low_d` of the limit before this release and is now; exactly then the full latch is cleared; the upward branch is unreachable |
| `Rings.Ring.CrossLowE` | src/rb.c:485-495 | `on_low_e` is called and latched if and only if the view was not below `low_e` of the limit before this release and is now; the upward branch is unreachable |
| `Rings.Ring.AfterRelease` | src/rb.c:463-468 | the old and new counts of a release never underflow |
| `Rings.Ring.Release` | src/rb.c:452-497 | return code, state, latches, statistics and callbacks are those of the FIFO's release, in both builds; `on_low_d` and then `on_low_e` are called exactly on the crossings of their own levels |
| `Rings.Ring.Count` | src/rb.c:547-555 | the difference of the counters is the number of live messages |
| `Rings.Ring.SetLimit` | src/rb.c:587-594 | the limit changes exactly as the FIFO's does: only on an empty ring and within capacity and slots |
| `Rings.Ring.SetPolicy` | src/rb.c:611-618 | only the policy changes |
| `Rings.Ring.Deinit` | src/rb.c:225-238 | afterwards no ring is ready and no slot is granted or held |
| `Batches.TakenIsLongestPrefix` | src/rb.c:502-513 | the number a visitor takes is the longest prefix whose verdicts are true but for the last |
| `Batches.DrainOne` | src/rb.c:503-510 | one turn of the drain loop shows the visitor the oldest message and releases it |
| `Batches.Drain` | src/rb.c:498-515 | with no concurrent publisher the loop ends, having given and released exactly that prefix |
| `Batches.AcceptedIsLongestRun` | src/rb.c:520-544 | the number accepted is the one length of a run of successful fills, none of them a bare request to stop, only the last asking to stop, that is ended by the room, a failed callback, a bare request to stop or a stop with a message |
| `Batches.FlushOne` | src/rb.c:521-541 | one turn of the flush loop publishes the fill if and only if there is room, the callback succeeded and it did more than ask to stop; the message has the bytes and the flag of the fill; otherwise the slot it acquired is given up |
| `Batches.Flush` | src/rb.c:516-546 | with no concurrent consumer the loop ends, having published exactly that run of fills, each message with the bytes and the flag its callback left, and no slot pending |
| `Calls.MovingCalls` | src/rb.c:290-497 | publish and release succeed exactly on a matching grant, move one message and otherwise change nothing |
| `Calls.CallEffect` | src/rb.c:239-618 | all other calls but consume leave messages, latches and callbacks alone, and the limit changes on an empty queue only |
| `Calls.AnswerFits` | src/rb.c:239-618 | every call keeps the queue and the payload memory fitting together |
| `Calls.InitialIsFresh` | src/rb.c:177-224 | an accepted configuration starts as a new ring in the sense of the run theorems |
| `Calls.FailuresAreInert` | src/rb.c:239-289 | a call that fails changes neither queue nor grant nor latches; only a refused acquire counts an attempt and only an empty consume refreshes the view |
| `Calls.ReceivedIsPublishedPrefix` | src/rb.c:239-497 | over any sequence of calls what the consumer was handed is the published sequence from where it started: no loss, duplicate or reorder |
| `Calls.StatisticsAreExact` | src/rb.c:350-356 | on a new ring published less consumed is the count modulo 2^64 and high-water is the largest count the run reached |
| `Calls.MessagesAreHonest` | src/rb.c:266-304 | over any run, policy changes included, a message is flagged exactly when its producer flagged it or announced or wrote more than fits, and holds the bytes meant exactly when there are fewer than 2^31 |
| `Calls.LongMessageVanishes` | src/rb.c:302 | with a payload area of 2^31 bytes or more two calls publish a message of 2^31 bytes that arrives empty with its flag clear |
| `Calls.NothingIsSilentlyCutExactly` | src/rb.c:295-304 | on a new ring no run cuts a message silently if and only if the payload area is smaller than 2^31 bytes |
| `Answers.WrittenBytesArePublished` | src/rb.c:239-304 | bytes that fit, acquired for, written and published, are the next message, whole and unflagged |
| `Answers.GrantIsWhatWasAskedFor` | src/rb.c:274-275 | the length a message was meant to have is that of the last successful acquire |
| `Answers.DropGrantsNothingTooLong` | src/rb.c:267-268 | in a run with the dropping policy in force throughout no message was meant to be longer than the payload area |
| `Answers.TruncateRefusesNothing` | src/rb.c:267-268 | in a run with the truncating policy in force throughout no call answers OVERSIZE |
| `Answers.RefusalsAreCounted` | src/rb.c:258-263 | over any run the counter of refused attempts grows by the number of FULL answers, modulo 2^64 |
| `Answers.DeinitEnds` | src/rb.c:225-238 | a ring taken down answers every call with NOT_INIT, counts nothing and keeps its messages untouched |
| `Answers.DeinitIsFinal` | src/rb.c:225-238 | and no sequence of calls changes it again |
| `Callbacks.CallbacksTellTheState` | src/rb.c:357-366 | over any run the flag set by `on_full` and cleared by `on_low_d` is the full latch, each message was announced once in order with its slot, length and flag, the hit counters count the callbacks and the truncation counter the messages cut short |
| `Callbacks.PublishTells` | src/rb.c:350-366 | a publish announces its message and latches, counts and reports a full ring together |
| `Callbacks.ReleaseTells` | src/rb.c:473-495 | a release latches, counts and reports each low crossing together |
| `LowWater.LowCallbacksOfEveryView` | src/rb.c:473-495 | on a new ring, after any calls, the low-water callbacks made since the consumer last renewed its view are `on_low_d` if the view started at or above `low_d` of the limit and is now below, then `on_low_e` if the same holds of `low_e`, and no others |
| `LowWater.DrainedViewWarned` | src/rb.c:485-495 | so no view brings a callback twice or `on_low_e` before `on_low_d`, and a drained view has brought each if and only if it started at or above its level |
| `Twins.Perform` | src/rb.c:239-618 | in any geometry a call on a ring of either build gives the reply and state of the abstract queue, but for what the slot holds and for the view; in a safe geometry without exception |
| `Views.CallIgnoresView` | src/rb.c:463-496 | with `low_d` zero no reply, callback or payload byte of any call depends on the consumer's view |
| `Twins.Lockstep` | src/rb.c:310-321 | if the geometry is safe or `low_d` is zero the two builds give the same replies, callbacks and payload memory for any sequence of calls |
| `Twins.WrapCollision` | src/rb.c:74-76 | in every unsafe geometry of either build ordinary calls lead to a held slot whose bytes are a later message's; in the lap build its stamp does not match |
| `Divergence.RunApart` | src/rb.c:399-404 | one run of calls after which the lap build has refreshed its view and the default build has not, and a release on top of it |
| `Divergence.BuildsDiverge` | src/rb.c:395-404 | in every geometry that is not safe, with `low_d` from one up, the same calls on new rings of the two builds make different callbacks |
| `Backpressure.CallKeepsResumable` | src/rb.c:359-366 | each call keeps a threshold's worth of messages in the consumer's view or behind it while the latch is set |
| `Backpressure.RunKeepsResumable` | src/rb.c:463-482 | and so does every run, limit changes that keep the condition included |
| `Backpressure.GetsStuck` | src/rb.c:406-412 | without room for two thresholds a new ring can be brought to a set latch with nothing left to consume |
| `Backpressure.StaysStuck` | src/rb.c:452-497 | and then nothing the consumer calls clears it |
| `Backpressure.NoStallExactly` | src/rb.c:71-73 | while the latch is set there is at least a threshold of messages, and at least one, in every run, if and only if 1 <= T and 2T <= L + 1 |
| `Backpressure.ClientNeverStallsExactly` | examples/backpressure_inproc.c:49-73 | the same for a producer that knows only the callbacks |
| `Latch.StepKeeps` | src/rb.c:346-366 | each load or store of the latch protocol keeps its invariant, whatever it reads and wherever its store lands in the order |
| `Latch.StoresAlternate` | src/rb.c:359-360 | under every interleaving and staleness no two `on_full` stores are adjacent in the latch's modification order, which holds each callback's store once |
| `Latch.PromptCallbacksAlternate` | src/rb.c:359-366 | under every interleaving and staleness, if no `on_full` store is overtaken, an `on_low_d` is called between any two `on_full` |
| `Latch.OvertakenFullComesTwice` | src/rb.c:346-360 | wherever `on_low_d` can fire, some run with an overtaken store calls `on_full` twice in a row |
| `Latch.CallbacksAlternateExactly` | src/rb.c:473-482 | callbacks alternate in every run the memory model allows if and only if `on_low_d` can never fire |
| `Latch.LowFiresOncePerRefresh` | src/rb.c:463-484 | `on_low_d` fires at most once per refresh of the view, exactly once for a drained view of at least the threshold, and no upward crossing happens |
| `Latch.LateFullGetsStuck` | src/rb.c:346-360 | for every limit and percentage some interleaving sets the latch on an empty ring |
| `Latch.ConsumerCannotLower` | src/rb.c:473-484 | after which no step of the consumer changes it |
| `Wake.StepKeeps` | src/rb.c:321-332 | each step of producer and waiter keeps the wake invariant while `expected` is recent and the two accesses are in order |
| `Wake.NoLostWakeup` | examples/backpressure_bench.c:110-119 | in every such run a sleeper faces an empty ring or a producer that gets it out in two steps, whether the snapshot came before or after draining and however stale snapshot and counts were; outside the wait the waiter count is zero |
| `Wake.NoLostWakeupExactly` | src/rb.c:650-699 | no run loses a wakeup if and only if `expected` is always less than 2^32 publishes old and the waiter load takes effect after the head store |
| `Wake.StaleSnapshotLosesWakeup` | src/rb.c:676-678 | a snapshot exactly 2^32 publishes old puts the waiter to sleep on a nonempty ring with no wake due, until the end of its slice |
| `Wake.OvertakingLosesWakeup` | src/rb.c:327 | if the relaxed waiter load overtakes the head store, a waiter with a fresh snapshot sleeps on a nonempty ring with no wake due, until the end of its slice |
| `Wake.Wait` | src/rb.c:650-699 | for any answers of clock, counters and kernel: still waiting if and only if every turn counted zero before the deadline and was interrupted, or timed out with the deadline not passed; otherwise the first other turn gives the code, zero for a message, a wake or a changed head, -ETIMEDOUT at the deadline, -e for an error e; the waiter count is restored and every sleep follows a zero count and lasts a slice or up to the deadline, whichever is shorter |
| `Wake.WaitExactly` | src/rb.c:660-695 | the first turn that decides is the first that does not go on, and the code is the one its count, clock and futex return call for |
| `Wake.OutcomesAreHonest` | src/rb.c:660-695 | a timeout is reported only after a finite deadline has passed, success only after a message, a wake or a changed head, any other error only if the futex call failed with it |
| `EventLoop.PollNeverMissesMessages` | examples/backpressure_bench.c:121-130 | the loop blocks in poll exactly while the descriptor is empty, and then the ring is empty or the producer about to write the descriptor, for every interleaving |
| `EventLoop.RunCallback` | src/rb.c:711-725 | with the producer paused the callback ends after exactly the steps its work calls for, with the ring empty and no token left behind |
| `Pipeline.HostKeeps` | examples/zynq_offload/cpu_host.c:608-676 | every host step keeps the pipeline invariant |
| `Pipeline.WorkerKeeps` | examples/zynq_offload/fpga_stub.c:44-92 | every worker step keeps it, though the worker holds a slot of A while it waits for B |
| `Pipeline.ResultsMatchPayloads` | examples/zynq_offload/fpga_stub.c:50-91 | in every run the results received are those of the first payloads sent, in order, numbered from one |
| `Pipeline.PayloadsAreConserved` | examples/zynq_offload/fpga_stub.c:64-90 | sent = received + in B + in A, less the one that is in both |
| `Pipeline.RoundTripNeverFails` | examples/zynq_offload/cpu_host.c:338-380 | the reply the host holds is the one to the payload it has just sent, under the number it sent it with; the round-trip check never fails |
| `Pipeline.MismatchIsCaught` | examples/zynq_offload/cpu_host.c:338-380 | the check fails exactly on a reply with another number |
| `Pipeline.LoadsOnlyIfNeeded` | src/rb.c:253-258 | a call's outcome depends on the counter loaded if and only if the cached copy shows nothing to consume, or no room |
| `Pipeline.NumbersMatchIffNoneDropped` | examples/zynq_offload/cpu_host.c:269-283 | the host's number of a payload is its place among those published if and only if the number dropped is a multiple of 2^32 |
| `Pipeline.FullAMeansEmptyB` | examples/zynq_offload/cpu_host.c:616-657 | a host that waits for a full A has B empty, or one result whose slot of A is about to be released, even if the EMPTY it got from B was stale |
| `Pipeline.HostNeverWaitsForever` | examples/zynq_offload/cpu_host.c:262-295 | for all limits from one up and any stale answers, a waiting host gets on with a fresh load, or the worker does not spin and ends the wait in at most four steps with fresh loads; no stale load of its takes it further away |
| `Pipeline.WorkerNeverWaitsForever` | examples/zynq_offload/fpga_stub.c:64-75 | a waiting worker gets on with a fresh load, or the host does not spin and each of its steps with a fresh load brings the end of the wait closer |
| `Hash.FastHash` | examples/zynq_offload/common.h:75-84 | the loop computes the hash of all the bytes, in order |
| `Hash.OneByteChangesTheHash` | examples/zynq_offload/common.h:79-82 | payloads that differ in one byte have different hashes |
| `Hash.FnvRemembers` | examples/zynq_offload/common.h:79-82 | the same bytes after two payloads make their hashes meet if and only if they were equal before |
| `Hash.KnownHashes` | examples/zynq_offload/common.h:78-81 | the hashes of the empty payload and of "a" are those published for 32-bit FNV-1a |
| `Hdl.OutputsAreExact` | examples/zynq_offload/hdl/rb_spsc.v:53-57 | count, full and empty are those of the unbounded positions |
| `Hdl.EdgeIsSafeExactly` | examples/zynq_offload/hdl/rb_spsc.v:59-89 | one clock edge keeps a safe controller safe if and only if no side is granted a request in the cycle of its own `done` |
| `Hdl.RunIsSafeExactly` | examples/zynq_offload/hdl/rb_spsc.v:51-89 | if every `done` uses a grant, the controller is safe at every cycle if and only if no cycle has such a clash |
| `Hdl.ControllerIsSafe` | examples/zynq_offload/hdl/rb_spsc.v:51-89 | if each `done` uses a grant and no request coincides with a `done`, every cycle has between none and LIMIT slots in use and an unused grant names the right one |
| `Hdl.CoincidenceOverflows` | examples/zynq_offload/hdl/rb_spsc.v:71-78 | for every limit, producer requests that coincide with a `done` reach LIMIT + 1 slots in use |
| `Hdl.CoincidenceUnderflows` | examples/zynq_offload/hdl/rb_spsc.v:80-87 | for every limit, a consumer request that coincides with a `done` takes the tail past the head |
| `Hdl.GrantIsNeverTaken` | examples/zynq_offload/hdl/rb_spsc.v:147-250 | wired straight to the controller neither block ever takes a grant, for any inputs, at any cycle |
| `Hdl.BlocksObey` | examples/zynq_offload/hdl/rb_spsc.v:215-250 | blocks that wait at least two cycles keep the controller's rules in every run |
| `Hdl.PatientBlocksAreSafe` | examples/zynq_offload/hdl/rb_spsc.v:124-184 | with them the ring never overflows and the two sides never hold the same slot |
| `Hdl.RequestIsAnswered` | examples/zynq_offload/hdl/rb_spsc.v:162-169 | and a request made while there is room, or a message, is answered two edges later with the right index |
| `Hdl.AcknowledgedSlotMovesOn` | examples/zynq_offload/hdl/rb_spsc.v:170-179 | a slot is held until it is acknowledged, and three edges after that the counter has passed it |
| `Hdl.RefusedBlockAsksAgain` | examples/zynq_offload/hdl/rb_spsc.v:235-236 | a block that has waited in vain asks again two edges later |
| `Hdl.WorksIffPatient` | examples/zynq_offload/hdl/rb_spsc.v:230-237 | some run obtains a slot if and only if the block waits at least two cycles |
| `Hdl.SlotIdAgreesWithLibrary` | examples/zynq_offload/hdl/rb_spsc.v:104-113 | for two or more slots hardware and C library put every index in the same slot |
| `Hdl.OffsetsMatchExactly` | examples/zynq_offload/hdl/rb_spsc.v:104-113 | the byte offset is slot times slot size for all indices if and only if the slot count is not a power of two or the slot size is |

## Left out

- Setters `rb_set_low_d`, `rb_set_low_e`, `rb_set_callbacks`, the stack sizes, `rb_stats_reset` and the
  plain getters: field copies. The percentages are fixed per ring, which the backpressure theorems need.
- src/rb_thread.c: thin wrappers around pthreads.
- System calls, the clock and the kernel: `Wake.Wait` takes their answers as a script; `Wake` and
  `EventLoop` model a futex and an eventfd as state.
- Null-pointer arguments, null output pointers, callbacks that are not set, and callbacks that call back
  into the ring.
- Prefetch, cache-flush and doorbell hooks: they do not touch the protocol state.
- Scratch memory byte by byte in the class: a slot is a header word, a stamp and a byte sequence in
  arrays indexed by slot. That slots are disjoint is `Layout.LayoutIsSound`, not part of `Rings`.
- The pointer-entry build as a class: only its address arithmetic (`Layout.RecoveredExactly`).
- `rb_count` from a third thread: its two loads are unordered and no useful bound holds.
- Rings.Ring.Init: takes the memory it is given as slot-sized pieces; overlapping slots of a zero stride
  are not represented.
- SpscSafe.StepKeeps: covers both builds' loads and stores of counters, entries, stamps, headers and
  payloads; statistics, callbacks and the wake path are in the other modules.
- Wake.NoLostWakeupExactly: the one reordering modelled is that of the waiter load and the head store;
  other weak-memory effects of the wake path are not.
- Pipeline.HostKeeps: each ring call is one step on values, a publish together with its reload of the
  tail; the loads of a call may be stale. In-place update of the rings is modelled in `Rings`. The
  waiting theorems say what fresh loads achieve, not when a load becomes fresh. The idle-spin exits of
  both programs, pacing, latency records and packet dumps are not modelled.
- Hdl.SlotIdAgreesWithLibrary: for one slot the source selects an empty bit range, which is not valid
  Verilog, so that case has no meaning to model.
- Hdl.EdgeIsSafeExactly: a clocked block is a next-state function, since all its assignments are simultaneous; a
  reset in the middle of a run is the start of another.
- examples/zynq_offload/hdl/rb_offload_pl.v: its registers are driven from two always blocks, so it has
  no single transition relation.
- The CUDA example, benchmarks, host monitor and command lines: input, output and reporting.
