# BenchPod firmware: models and proofs

Dafny models of the state, encoding and arithmetic logic of the STM32H563 bench-pod firmware, with proofs of what that
logic is for. Each module follows one source file or one part of one; what the hardware, the network, the clock and
the other tasks do is chosen freely at every step, so a contract holds for every schedule and every failure.

* **Capture read-back** (`command_handler_capture.c`). A finished capture leaves as JSON frames whose size depends on
  how much send buffer is free. `RunLength` and `ChangeStream` say what a capture *means* (run-length edges, and point
  samples of a delta-encoded event stream). `ReadbackFrames` says what a client holds after any number of frames.
  `RawFrames`, `ChangeDecoder` and `BulkReadback` are the pump; `ChangeScan` is the scan that finds END and places the
  trigger; `ChangeCapture` joins the two. `FrameText` and `DenseText` are the characters of a frame. `HeavyHold` is
  what a reply holds, the gate and the bus, and every exit of the pump gives it back. Main result:
  `ChangeCapture.Deliver`.
* **The multi-client capture machine** (`command_handler_capture.c`, `command_handler.c`, `bus_owner.c`):
  `CaptureControl` is a state machine over every request, poll pass, close and trigger, with the code's methods proved
  to take exactly those steps; `BusOwner` is the nested bus ownership under it.
* **Power-loss-safe blob slots** (`blob_store.c`): `NorFlash`, `BlobStore` and, over a pod's life, `BlobRuns`. A flash
  command that fails returns at once and the code then writes nothing more, so the flash that a power cut leaves
  behind at some point is one that a failing command may leave: every contract about a failing write is one about a
  cut write as well.
* **Texts and bytes** (`bp_json.c`, `b64url.c`, `conn_tx.c`, `cloud_client.c`, `cloud_rx.c`, `ws_frame.c`):
  `JsonText`, `JsonParser`, `JsonMatchers`, `JsonStrings`, `JsonEmitter`, `Base64Url`, `TunnelOut`, `WsFrame`,
  `CloudRx`.
* **CAN** (`can_bus.c`): `CanRing` with the interrupt between any two steps of the consumer, and `CanTiming`.
* **Safe mode, ADC mean, proxy reply** (`boot_guard.c`, `boot_policy.c`, `adc_scale.c`, `altcp_bp_proxy.c`):
  `BootGuard`, `AdcScale`, `ProxyReply`.

`Bits`, `Options`, `Pbuf` and `Rings` hold shared notions. Records that the firmware updates in place are classes;
their methods are proved against functions on values, and the lemmas are about those functions.

Some classes carry a constant that names the world they run in: a reply's `luck` (its reads and sends work, and the
first offer of each poll, or every offer, is ample), the scan's `smooth`, the flash's `world`. It restricts nothing:
what holds in every world is stated without it, and what a world where things work adds, such as that a reply
completes, is stated under it.

## Where the code does less than its documentation says

Each of these is a lemma with the exact condition or a concrete run.

* A triggered change capture's outcome can be lost, or ride on another client's reply: `capture_trigger_begin` clears
  the staged outcome before the gate refuses the request, and a close during the scan leaves it staged
  (`CaptureControl.OutcomeSurvivesScan`, `OutcomesStayOwn`, `StrandedOutcomeRidesAlong`).
* A capture request sets the fabric's trigger before the gate refuses it, and a refusal turns it off again. A
  triggered request that comes while another client's capture waits thus makes that capture start on the first low
  level of channel 0 and reply that its own trigger fired (`CaptureControl.RefusedRequestFires`); exactly such a
  request, or one whose SET_TRIGGER is reported as failed and took effect, leaves a wait with a condition that is not
  its own (`CaptureControl.TriggerStaysOwn`, `RunKeepsTriggerOwn`).
* Why a capture was cut short is told by the head of the first LA frame, and a unified capture's LA frames have none:
  its ADC frames came first and have no field for it (`BulkReadback.CutIsToldWhen`, and the terms in
  `ChangeCapture.Deliver`).
* A gateware reload hands the bus over to the iCE40 even while a scan or a reply holds it; exactly then the pairing of
  takes and gives is lost, while gate and activities stay right (`CaptureControl.StepKeepsInv`, `ReloadUnpairs`). The
  recovery of the EMI build reloads without asking the gate (`emi_test.c:730`); the other callers ask, or run at boot.
* `blob_store.h` says a failed write leaves the slot empty. It leaves something exactly when the erase failed without
  erasing anything and a blob was there, when the commit program failed with the whole word in, or when the final read
  failed (`BlobStore.Store.Write`); the worlds of the flash show each of the three.
* The first decimal frame of a dense reply may be longer than the free buffer it was paced for
  (`RawFrames.FirstDecimalFrameCanOverrun`); a frame of n samples is sure to fit exactly when its header, 6*n and its
  footer do (`RawFrames.AllDecimalsFit`).
* Bus takes beyond 65535 deep are no longer balanced by their gives (`BusOwner.DeepNesting`).
* `bp_json_get_fit` says "missing" for a scalar when the buffer has room for the NUL alone (`JsonParser.GetFit`).
* The two bracket matchers can differ on malformed text: they agree exactly when neither's count of open brackets ever
  comes to zero, or the square brackets balance where the braces match and something stays open before
  (`JsonMatchers.MatchersAgreeWhen`, `MatchersDiffer`).
* `ws_parse_frame` accepts payloads of up to 65535 bytes, but a frame longer than the 16384-byte accumulator never
  completes in it (`CloudRx.FrameMustFit`).
* `can_solve_timing` also accepts some rates above the kernel clock, whose product with the quanta count wraps
  (`CanTiming.ExactUpToTheClock`, `WrappedRateIsAccepted`).
* The failed-boot counter is not always "boots in a row that never reached healthy": a planned reset, or one taken
  back, undoes an earlier healthy mark, and in safe mode the count goes on though the boot was marked healthy or reset
  as planned (`BootGuard.CountAfterHealthy`, `HealthyBootForgotten`).
* The circular mean depends on the order of the samples exactly when they lie on no arc of less than half the circle
  (`AdcScale.OrderFreeIffNarrow`, `HalfTheCircleIsTooWide`).

## Model

| member | source | states |
|---|---|---|
| RunLength.ExtendEncodes | stm32h563/src/command_handler_capture.c:565-575 | Covering one more run of equal words, with an edge only when the word changes, keeps the edge list the run-length form of everything covered |
| RunLength.EncodingUnique | stm32h563/src/command_handler_capture.c:565-575 | The run-length form of a stretch of samples is unique, so frames carry no choice of their schedule |
| RunLength.JoinDecodes | stm32h563/src/command_handler_capture.c:367-382 | A prefix's edges followed by a resumed tail's edges decode to every sample of both |
| ChangeStream.FirstSampleExact | stm32h563/src/command_handler_capture.c:462-465 | The rounded-up sample index of an event is at most i exactly when its tick is at or before base + i*k |
| ChangeStream.HeldBetween | stm32h563/src/command_handler_capture.c:462-474 | Between the sample indices of two consecutive events, the point sample is the earlier event's word |
| ChangeStream.CutAfterEnd | stm32h563/src/command_handler_capture.c:706-731 | Cutting the region right behind END keeps every live event, its tick and its word |
| ChangeStream.PackedStream | stm32h563/src/command_handler_capture.c:454-459 | What the gateware packs, 10 bits of delta over 14 of word, least significant byte first, is decoded event for event: ticks, words, END and its cause |
| Bits.ByteOrder | stm32h563/src/command_handler_capture.c:454-456 | Words are read least significant byte first |
| ReadbackFrames.TakeKeepsFraming | stm32h563/src/command_handler_capture.c:482-486 | A frame that follows on keeps reported counts final (no later edge below an earlier `la_upto`), regions apart, and exactly the last frame says more:false |
| FrameText.TextLength | stm32h563/src/command_handler_capture.c:409-497 | A frame is charged exactly for the characters that are printed: head, rates, edges or samples, counts, trigger, more |
| FrameText.TriggerLength | stm32h563/src/command_handler_capture.c:229-234 | No trigger field is longer than what is reserved for it |
| RawFrames.RoomIs | stm32h563/src/command_handler_capture.c:596-606 | The most samples that seven characters each, or eight for three bytes behind the longest header, leave the footer its place |
| ChangeDecoder.EventStep | stm32h563/src/command_handler_capture.c:453-474 | One event settles the pending edge when the sample index moves on and takes its place; what is out stays the run-length form of the point samples |
| ChangeDecoder.UseEvent | stm32h563/src/command_handler_capture.c:453-474 | The loop body in all its branches (first event, END, index beyond the reply, edge or no edge) keeps the decoding invariant |
| ChangeDecoder.FinishFrame | stm32h563/src/command_handler_capture.c:475-496 | Final flush and footer: the frame fits the free buffer and the format buffer, costs what its text does, and when the stream is done the whole LA region is encoded |
| RawFrames.LaFrame | stm32h563/src/command_handler_capture.c:544-583 | A raw LA frame covers at least one sample, goes on to the first sample whose edge does not fit and no further, fits the buffer and continues the run-length form |
| RawFrames.DenseFits | stm32h563/src/command_handler_capture.c:596-684 | A base64 frame, and every decimal frame but the first of a reply, fits the free buffer; all fit the format buffer |
| RawFrames.DenseFrame | stm32h563/src/command_handler_capture.c:607-684 | A dense frame carries exactly the next samples of the reply |
| RawFrames.FirstDecimalFrameCanOverrun | stm32h563/src/command_handler_capture.c:602-654 | With 96 free characters a capture at 1 MS/s and 12 MS/s can have a first decimal frame of 115 |
| RawFrames.AllDecimalsFit | stm32h563/src/command_handler_capture.c:602-654 | Every decimal frame of n samples fits exactly when header, footer and six characters a sample do |
| DenseText.FrameDecodes | stm32h563/src/command_handler_capture.c:655-660 | The text of a base64 frame decodes to exactly its 16-bit samples and has the reserved length |
| BulkReadback.Bulk.Begin | stm32h563/src/command_handler_capture.c:324-338 | A reply from RAM starts at 0 and stands for the first `total` values |
| BulkReadback.Bulk.BeginCapture16 | stm32h563/src/command_handler_capture.c:346-361 | A raw capture's reply stands for the ADC words and then the LA words of the two regions |
| BulkReadback.Bulk.BeginResume | stm32h563/src/command_handler_capture.c:367-382 | A resumed reply stands for the same capture from the given offset on, with a fresh edge |
| BulkReadback.Bulk.BeginLaChanges | stm32h563/src/command_handler_capture.c:388-405 | A change reply stands for the ADC words and then the point samples of the event stream up to END |
| BulkReadback.Bulk.Send | stm32h563/src/command_handler_capture.c:675-683 | The client has a frame exactly when its send went through; a lost send gives back what the reply holds |
| BulkReadback.Bulk.SendLa | stm32h563/src/command_handler_capture.c:487-494 | The same in the two LA branches, and the count of change frames |
| BulkReadback.Bulk.PumpChanges | stm32h563/src/command_handler_capture.c:409-497 | A change frame is sent once, fits, starts at what was reported, uses up at least one event unless it carries the header, goes on until no edge is sure to fit or eight reads were made, and is the last exactly when the count is the total |
| BulkReadback.Bulk.PumpLa | stm32h563/src/command_handler_capture.c:532-594 | A raw LA frame is sent once, fits, and goes on to the end, to 256 samples or until no edge is sure to fit |
| BulkReadback.Bulk.PumpDense | stm32h563/src/command_handler_capture.c:596-684 | A dense frame is sent once, carries as many samples as fit, 256 or the region has, and never straddles the ADC/LA boundary |
| BulkReadback.Bulk.Pump | stm32h563/src/command_handler_capture.c:499-693 | Whatever the buffer, the reads, the sends and the stall clock do, a poll ends; what was sent only grows and stays right; the reply completes exactly with everything sent, always when every offer is ample and all works, and gets on when the first one is; every exit gives gate and bus back once; a change reply stays within its bound on frames |
| BulkReadback.Bulk.OneFrame | stm32h563/src/command_handler_capture.c:509-683 | One frame is sent and something is used up, or the pump waits for more room, or the reply is lost with gate and bus given back |
| BulkReadback.Bulk.Stall | stm32h563/src/command_handler_capture.c:515-531 | A reply whose client takes nothing is given up: idle, gate and bus back |
| BulkReadback.Bulk.Finish | stm32h563/src/command_handler_capture.c:686-693 | A reply that is all out: idle, gate and bus back |
| HeavyHold.LeavesNothing | stm32h563/src/command_handler.c:153-155 | Leaving a reply frees the gate and returns the bus take it holds, and nothing twice |
| BulkReadback.Bulk.ReadBack | stm32h563/src/command_handler_capture.c:776-957 | The same over any number of polls; when the first offer of each is ample and all works, as many polls as there are samples, events and a header complete the reply |
| BulkReadback.ChangeFramesBounded | stm32h563/src/command_handler_capture.c:409-497 | A change read-back under way has needed no more frames than the stream has events, plus two (`Pump` and `ReadBack` ensure it of finished ones) |
| BulkReadback.CompleteIsWhole | stm32h563/src/command_handler_capture.c:499-693 | A complete reply holds every dense sample, and its edges decode to every LA sample |
| BulkReadback.CompleteIsTold | stm32h563/src/command_handler_capture.c:409-497 | A complete reply opens with its head, closes with its trigger field, and says neither anywhere else |
| BulkReadback.CutIsToldWhen | stm32h563/src/command_handler_capture.c:388-405 | Why a capture was cut short is told exactly when no ADC samples come first |
| BulkReadback.ScheduleIndependent | stm32h563/src/command_handler_capture.c:499-693 | Two read-backs of the same reply that got equally far delivered the same samples and the same edges |
| BulkReadback.ResumeJoins | stm32h563/src/command_handler_capture.c:1167-1202 | A received prefix and a tail resumed where it stopped are together the whole capture |
| ChangeScan.ScanStep | stm32h563/src/command_handler_capture.c:716-724 | One event of the scan advances the tick, or is END with its cause |
| ChangeScan.Scan.Step | stm32h563/src/command_handler_capture.c:706-772 | A poll of the scan goes on, fails for the reason the stream gives, or hands the read-back exactly the bytes up to END with the samples placed |
| ChangeScan.Decide | stm32h563/src/command_handler_capture.c:732-764 | Every verdict exactly when its cause says so; a start places the trigger, or cuts the capture short as promised with the reason END gives |
| ChangeScan.Scan.Run | stm32h563/src/command_handler_capture.c:706-772 | For any chunking over polls the scan ends with the verdict the stream calls for; it starts the reply exactly when no read failed and the stream has something to return |
| ChangeScan.CutKeepsSamples | stm32h563/src/command_handler_capture.c:765-771 | The bytes handed to the decoder stand for the very samples the whole region stands for |
| ChangeScan.SamplesInside | stm32h563/src/command_handler_capture.c:739-751 | Sample `pre` of a whole capture is the state at the trigger, and all its samples lie in the captured time exactly when `post` is more than `(samples - 1) * k` ticks |
| ChangeCapture.Deliver | stm32h563/src/command_handler_capture.c:706-772 | End to end, for any polls, reads, sends, encoding and trigger field: a complete reply decodes at each i to the word of the last event at or before base + i*k, with base, count and trigger placed by END, and says rates, pre-trigger, truncation and trigger once, in the frames they belong to; when all works, enough polls complete it exactly when the stream has something to return |
| CaptureControl.Machine.HeavyBegin | stm32h563/src/command_handler.c:147-171 | The gate is claimed exactly when nothing runs and nobody else holds it |
| CaptureControl.TakenIsRefused | stm32h563/src/command_handler.c:147-171 | A request while anything runs, another heavy operation does or another connection owns the gate touches no activity, wait, owner or bus |
| CaptureControl.FreeIsGranted | stm32h563/src/command_handler_capture.c:1013-1302 | Any other request begins exactly the activity it asks for, or leaves the gate free when that fails |
| CaptureControl.OwnerStays | stm32h563/src/command_handler.c:147-171 | The owner of the gate changes exactly with its release, its close, its request that fails or the end of what it runs |
| CaptureControl.OwnerStaysOverRun | stm32h563/src/command_handler.c:147-171 | The same over runs |
| CaptureControl.Machine.HandleCapture | stm32h563/src/command_handler_capture.c:1013-1046 | A capture request takes exactly the specified step: SET_TRIGGER before the gate, off again when refused or not armed, and the fabric parked when armed with a trigger |
| CaptureControl.Machine.HandleStream | stm32h563/src/command_handler_capture.c:1204-1236 | `stream` and `measure` take exactly the specified step |
| CaptureControl.Machine.HandleRamReply | stm32h563/src/command_handler_capture.c:1250-1302 | A reply straight from RAM takes exactly the specified step |
| CaptureControl.Machine.HandleCaptureRead | stm32h563/src/command_handler_capture.c:1167-1202 | `capture_read` claims the gate, takes the bus and starts a reply, or frees the gate at the end of the data |
| CaptureControl.Machine.TriggerPass | stm32h563/src/command_handler_capture.c:776-797 | A trigger timeout ends the wait, its capture, the gate and the fabric's trigger |
| CaptureControl.Machine.V2Pass | stm32h563/src/command_handler_capture.c:799-819 | An ADC capture's completion stages its outcome, turns the trigger off and starts the reply, its failure aborts and frees the gate |
| CaptureControl.Machine.LaPass | stm32h563/src/command_handler_capture.c:822-873 | An LA capture's completion goes on holding exactly one bus take with the trigger off, its failure aborts and frees the gate |
| CaptureControl.Machine.DualPass | stm32h563/src/command_handler_capture.c:883-953 | The same for a unified capture, and a capture that never wrote its region gives the bus back |
| CaptureControl.FinishedGoesOn | stm32h563/src/command_handler_capture.c:799-953 | A finished capture of any kind goes on to its own connection's reply, or to its scan, with its outcome and, out of PSRAM, with the bus |
| CaptureControl.FailedLeavesNothing | stm32h563/src/command_handler_capture.c:799-953 | A failed one leaves no activity, gate, wait or outcome, and an idle fabric |
| CaptureControl.UnfinishedStays | stm32h563/src/command_handler_capture.c:799-953 | A capture that is not done, or waits for its trigger, changes nothing |
| CaptureControl.UnwrittenIsRefused | stm32h563/src/command_handler_capture.c:901-912 | A region that was never written costs the capture its reply and gives the bus back |
| CaptureControl.TimeoutEnds | stm32h563/src/command_handler_capture.c:776-797 | A wait that runs out without its trigger ends its capture; one that has seen it ends nothing |
| CaptureControl.Machine.ScanPass | stm32h563/src/command_handler_capture.c:695-772 | A failed scan gives gate and bus back, a finished one passes both to the reply |
| CaptureControl.ScanGoesOnOrEnds | stm32h563/src/command_handler_capture.c:695-772 | A scan passes bus, gate and outcome to its reply, or gives all back |
| CaptureControl.PausesStay | stm32h563/src/command_handler_capture.c:499-772 | Nor does a reply or a scan that pauses |
| CaptureControl.Machine.BulkPass | stm32h563/src/command_handler_capture.c:499-531 | The pump's step: pausing changes nothing, every other result ends the reply and gives gate and bus back once |
| CaptureControl.PumpExitIsStep | stm32h563/src/command_handler_capture.c:499-693 | What the pump's exits do to gate and bus is what this machine's step does |
| CaptureControl.Machine.ConnClosed | stm32h563/src/command_handler_capture.c:959-1005 | A close ends whatever its connection ran, in the fabric too, and gives back what that held |
| CaptureControl.Machine.GatewareReconfigured | stm32h563/src/console.c:136-145 | A gateware reload resets the fabric, hands the bus over, ends the wait and drops the staged outcome |
| CaptureControl.ReloadResets | stm32h563/src/command_handler_capture.c:1008-1011 | After a reload no wait, outcome or fabric trigger is left; gate and activities stay |
| CaptureControl.StepKeepsInv | stm32h563/src/command_handler_capture.c:776-1011 | A step keeps: at most one activity, its connection owns the gate, a waiting trigger belongs to a capture of its own connection, the bus is held once exactly while PSRAM is read, nothing unpaired; exactly when it does not reload the gateware under a scan or a PSRAM reply |
| CaptureControl.StepKeepsGate | stm32h563/src/command_handler_capture.c:776-1011 | Every step, the reload too, keeps gate, activities and trigger wait right |
| CaptureControl.RunKeepsInv | stm32h563/src/command_handler_capture.c:776-1011 | The same over every run of requests, polls, timeouts, failures, stalls, closes and reloads |
| CaptureControl.ReloadUnpairs | stm32h563/src/psram.c:147-160 | A reload under a PSRAM reply leaves it running without the bus and its release without a take |
| CaptureControl.EndFreesAll | stm32h563/src/command_handler_capture.c:499-531 | In the step that ends the last activity the gate is free and the bus is back |
| CaptureControl.CloseLeavesNothing | stm32h563/src/command_handler.c:383-399 | After a close the connection has no activity, wait or gate, and other connections' activities are untouched |
| CaptureControl.BusyIsUndisturbed | stm32h563/src/command_handler_capture.c:247-293 | While anything runs, a request changes no activity, gate or bus, but a capture request drops a staged outcome and a triggered one rewrites and clears the fabric's trigger |
| CaptureControl.TriggerStaysOwn | stm32h563/src/command_handler_capture.c:247-306 | The fabric waits for the waiting capture's own condition, and for none when nothing waits: a step keeps that exactly when it is no capture request that sets the trigger while a capture is parked, nor one whose failed SET_TRIGGER took effect |
| CaptureControl.OutcomesStayTrue | stm32h563/src/command_handler_capture.c:294-306 | An outcome that says "fired" is of a capture whose own condition the fabric saw |
| CaptureControl.RunKeepsTriggerOwn | stm32h563/src/command_handler_capture.c:776-1046 | Over a run the trigger is the waiting capture's own all along exactly when no such request comes, and then every outcome that a reply carries is true |
| CaptureControl.RefusedRequestFires | ice40/src/top_v2.v:418-431 | A run in which a refused request makes another client's capture fire on channel 0 low, and its reply says its own trigger fired |
| CaptureControl.OutcomesStayOwn | stm32h563/src/command_handler_capture.c:237-306 | A step keeps outcomes with their own capture exactly when it does not close the connection of a triggered change capture during its scan |
| CaptureControl.RunKeepsOutcomesOwn | stm32h563/src/command_handler_capture.c:237-306 | Over every run without such a close no reply carries another capture's outcome |
| CaptureControl.StrandedOutcomeRidesAlong | stm32h563/src/command_handler_capture.c:959-1005 | A run in which another client's reply carries the outcome |
| CaptureControl.OutcomeSurvivesScan | stm32h563/src/command_handler_capture.c:247-275 | The reply of a triggered change capture carries its outcome exactly when no capture request and no reload came during the scan |
| BusOwner.Owner.DoTake | stm32h563/src/bus_owner.c:6-16 | Take: outermost, nested, foreign and saturated |
| BusOwner.Owner.DoGive | stm32h563/src/bus_owner.c:18-30 | Give: unpaired, nested, foreign and outermost |
| BusOwner.Owner.DoHandover | stm32h563/src/bus_owner.c:32-39 | Handover drops every open take |
| BusOwner.MisuseIsCounted | stm32h563/src/bus_owner.c:6-39 | A take or give by anyone but the holder, a give without a take and a handover over open takes are each counted once |
| BusOwner.PinsFollowDepth | stm32h563/src/bus_owner.c:6-39 | Over every run the pins are the STM32's exactly while the depth is positive |
| BusOwner.NestedBalances | stm32h563/src/bus_owner.c:6-30 | Nested use within the counter's range balances and counts nothing against anyone |
| BusOwner.DeepNesting | stm32h563/src/bus_owner.c:6-30 | n takes and n gives are clean exactly when n is at most 65535 |
| NorFlash.ProgramBlank | stm32h563/src/blob_store.c:172-178 | Programming erased flash stores the data |
| NorFlash.CutEnds | stm32h563/src/blob_store.c:172-178 | A program cut short lies anywhere between nothing written and everything written |
| BlobStore.SlotsDisjoint | stm32h563/src/blob_store.c:13-25 | Slots share no byte with each other or the boot area and are whole sectors |
| BlobStore.ParseOfHeader | stm32h563/src/blob_store.c:60-74 | A written header reads back as the blob exactly when its commit word is the magic |
| BlobStore.PresentWhen | stm32h563/src/blob_store.c:60-74 | A slot reads as present exactly when it holds the header of a write to that very slot and the commit word |
| BlobStore.SlotBytes | stm32h563/src/blob_store.c:60-74 | In a present slot the magic words, the version and the slot number stand where the layout has them |
| BlobStore.DeliversData | stm32h563/src/blob_store.c:172-178 | A source that reads pages out of some data delivers that data |
| BlobStore.Store.EraseRange | stm32h563/src/blob_store.c:112-126 | Exactly the 4 KB-rounded range is erased; a failure leaves a prefix of it erased, cut at a sector's edge |
| BlobStore.Store.Fill | stm32h563/src/blob_store.c:172-178 | Success leaves, in order, the pages the source delivers; nothing outside the data range changes |
| BlobStore.Store.HashFlash | stm32h563/src/blob_store.c:129-144 | Page by page the digest of the whole range |
| BlobStore.Store.WriteData | stm32h563/src/blob_store.c:167-183 | Until the data hashes back, the slot is empty, or untouched after an erase that failed; success means the delivered data has the digest |
| BlobStore.Store.WriteHeader | stm32h563/src/blob_store.c:185-202 | Extra bytes and header leave the slot empty; only the commit word makes it the new blob, and a failed commit leaves it exactly when the whole word is in |
| BlobStore.Store.Write | stm32h563/src/blob_store.c:158-208 | Whatever fails, wherever it is cut: old slot, empty slot or the complete new blob whose data hashes to its header, nothing outside the slot changed, and the cache shows it exactly on success; the exact cases in which a failure leaves something; success when every command works and the data hashes |
| BlobStore.Store.Clear | stm32h563/src/blob_store.c:210-222 | A clear leaves the slot as it was or empty, touches its header sector alone, and succeeds when every command works |
| BlobStore.Store.Load | stm32h563/src/blob_store.c:76-93 | Every slot whose header can be read is cached as the flash holds it, the others as empty, and the count is that of the slots shown |
| BlobStore.Store.ReadBlob | stm32h563/src/blob_store.c:224-230 | Reads come from a present slot and never from past its data, and every such read succeeds when the flash works |
| BlobStore.OthersKept | stm32h563/src/blob_store.c:158-208 | After any write, complete or not, every other slot reads as before |
| BlobStore.FailedCommitMayHold | stm32h563/src/blob_store.c:198-202 | A commit program that reports failure may have stored the new blob |
| BlobRuns.HistoryStaysHonest | stm32h563/src/blob_store.c:158-222 | Over any history of writes and clears, complete or cut anywhere, a slot that reads as present holds data that hashes to its header |
| BlobRuns.Live | stm32h563/src/blob_store.c:76-222 | The same of any sequence of calls and boots, whatever fails in each, and what the cache shows is such a slot |
| BlobRuns.BlankIsHonest | stm32h563/src/blob_store.c:60-74 | A blank chip starts that way |
| JsonText.SkipsExactly | stm32h563/src/bp_json.c:38-62 | On well-formed text a value is skipped exactly; a scalar up to the next `,`, `}` or `]` |
| JsonText.MatchersAgree | stm32h563/src/bp_json.c:186-210 | The span copied by counting braces is the span skipped by counting braces and brackets |
| JsonMatchers.PendingEnds | stm32h563/src/bp_json.c:38-62 | The matcher with its depth and escape flags ends at n exactly when brackets outside strings, opening minus closing, come to zero there and not before |
| JsonMatchers.SpanEnds | stm32h563/src/bp_json.c:186-210 | The same for both matchers on any text that starts with a brace |
| JsonMatchers.MatchersAgreeWhen | stm32h563/src/bp_json.c:186-210 | On any such text the two agree exactly when neither count of open brackets ever comes to zero, or the square brackets balance where the braces match and something stays open before |
| JsonMatchers.MatchersDiffer | stm32h563/src/bp_json.c:186-210 | On `{]}` they differ |
| JsonText.TopLevelOnly | stm32h563/src/bp_json.c:79-100 | Lookup in any well-formed object returns the value of the first outermost member with that raw key, and nothing when there is none |
| JsonText.TopText | stm32h563/src/bp_json.c:135-164 | What the getter hands out is that member's decoded string or its scalar text |
| JsonText.DecodeOfEscaped | stm32h563/src/bp_json.c:278-299 | Unescaping what the emitter escaped gives the text back, control characters other than \n, \r, \t as '?' |
| JsonStrings.StrictOfEscaped | stm32h563/src/bp_json.c:278-299 | What the emitter writes is a JSON string (section 7 of RFC 8259) for the very text, with no control character left raw |
| JsonStrings.DecodesStrings | stm32h563/src/bp_json.c:104-125 | The parser reads every JSON string right, with a placeholder for \u escapes |
| JsonStrings.WhiteSpaceIs | stm32h563/src/bp_json.c:11-14 | White space is that of section 2 of RFC 8259 |
| JsonText.BareStopsAt | stm32h563/src/bp_json.c:156-159 | The bare text of a value is all up to a comma, a closing brace or white space |
| JsonText.ScalarStopsAt | stm32h563/src/bp_json.c:60-61 | A scalar is skipped up to a comma or a closing bracket |
| JsonText.FlatIsFirst | stm32h563/src/bp_json.c:20-34 | The flat scan finds the first place where the quoted key stands with a colon behind it |
| JsonText.FlatIsNone | stm32h563/src/bp_json.c:20-34 | and nothing when there is none |
| JsonText.KeyStands | stm32h563/src/bp_json.c:20-34 | A key stands where its quoted text does, with a colon behind it, white space aside |
| JsonText.EmittedIsReadBack | stm32h563/src/bp_json.c:176-178 | An emitted string placed as an outermost member is looked up and read back |
| JsonParser.Skip | stm32h563/src/bp_json.c:38-62 | The loops with their depth and escape flags skip what the specification skips |
| JsonParser.FindKeyTop | stm32h563/src/bp_json.c:79-100 | The member-by-member walk finds what the specification finds |
| JsonParser.FindKey | stm32h563/src/bp_json.c:20-34 | The flat scan finds the first quoted key that a colon follows, and no key too long for its needle |
| JsonParser.UnescapeAt | stm32h563/src/bp_json.c:104-125 | One escape: its character and its length |
| JsonParser.Get | stm32h563/src/bp_json.c:135-164 | The value's text cut to the buffer and NUL-terminated, and whether it was cut |
| JsonParser.GetFit | stm32h563/src/bp_json.c:166-170 | 1 exactly when a value is there and fits whole, -1 exactly when it was cut |
| JsonParser.GetObject | stm32h563/src/bp_json.c:186-210 | The object's whole text exactly when it fits, nothing otherwise |
| JsonEmitter.Emitter.EmitBytes | stm32h563/src/bp_json.c:240-249 | Appends whole or latches; always a NUL-terminated text inside the buffer |
| JsonEmitter.Emitter.EmitString | stm32h563/src/bp_json.c:278-299 | The latch stays open exactly when the whole quoted text fits, and then it is what was appended; otherwise a part of it from the start |
| Base64Url.RoundTrip | stm32h563/src/b64url.c:50-94 | Every byte string survives encoding and decoding, with any number of '=' behind it, when the buffer holds it |
| Base64Url.Alphabet | stm32h563/src/b64url.c:5-6 | The alphabet is that of table 2 of RFC 4648 |
| Base64Url.TestVectors | stm32h563/src/b64url.c:21-48 | The test vectors of section 10 of RFC 4648, without padding |
| Base64Url.EncodeOfBytes | stm32h563/src/b64url.c:50-94 | A legal text is the encoding of what it decodes to exactly when its spare bits are clear |
| Base64Url.OrTest | stm32h563/src/b64url.c:71 | The OR-equals-0xFF test finds a bad symbol and only a bad one |
| Base64Url.EncodeInto | stm32h563/src/b64url.c:21-48 | The encoding and a NUL, or 0 and nothing written exactly when the buffer is too small |
| Base64Url.Decoder.Init | stm32h563/src/b64url.c:13-19 | The table maps every symbol to its value and everything else to 0xFF |
| Base64Url.Decoder.DecodeInto | stm32h563/src/b64url.c:50-94 | Fails exactly on a symbol outside the alphabet, an impossible length or a buffer too small, else delivers the bytes |
| TunnelOut.WireOneMore | stm32h563/src/cloud_client.c:1011-1024 | One more chunk encoded and framed decodes to exactly that chunk behind the others |
| TunnelOut.Tunnel.Write | stm32h563/src/conn_tx.c:59-73 | All or nothing into the ring, in order, across the wrap of the 16-bit indices |
| TunnelOut.Tunnel.Peek | stm32h563/src/conn_tx.c:75-86 | The contiguous stretch is a prefix of what waits |
| TunnelOut.Tunnel.Advance | stm32h563/src/conn_tx.c:88-93 | Drops exactly the oldest n bytes |
| TunnelOut.Tunnel.Out | stm32h563/src/cloud_client.c:1003-1026 | With the worker writing between any two steps, the decoded frames carry exactly the prefix reported as taken, which is all of it unless a send failed |
| TunnelOut.Tunnel.SendChunk | stm32h563/src/cloud_client.c:1009-1023 | A chunk read from the live ring is the bytes that were queued there when the turn looked |
| TunnelOut.Tunnel.Send | stm32h563/src/cloud_client.c:1011-1023 | One frame with the whole chunk or nothing; the values that the early returns test for never come up |
| TunnelOut.FrameLenIs | stm32h563/src/cloud_client.c:1016-1018 | The length of a frame is that of its text |
| TunnelOut.Tunnel.Turn | stm32h563/src/net_server.c:551-568 | With the worker writing between any two steps, frames sent and bytes waiting are always everything the ring took, and a turn without a failed send takes what was waiting in one stretch, as far as there is room |
| WsFrame.ParseIsStable | stm32h563/src/ws_frame.c:32-66 | What the parser has decided, more bytes do not change |
| WsFrame.ParsesAnyHeader | stm32h563/src/ws_frame.c:32-66 | Any header at all, by the picture in section 5.2 of RFC 6455: masked, reserved bits, fragmented, too long, incomplete or a frame |
| WsFrame.ParsesServerStream | stm32h563/src/ws_frame.c:32-66 | The parser reads back any list of frames a server sends |
| WsFrame.WaitsInsideFrame | stm32h563/src/ws_frame.c:32-66 | Inside a frame it waits, at its end it has the frame |
| CloudRx.Link.Append | stm32h563/src/cloud_rx.c:5-10 | Appends whole or not at all |
| CloudRx.Link.Consume | stm32h563/src/cloud_rx.c:12-16 | Drops the first n bytes and keeps the rest in order |
| CloudRx.Link.Receive | stm32h563/src/cloud_client.c:445-462 | A segment is refused untouched or taken whole, whatever state the link is in; overflow exactly for one bigger than the buffer coming while that is empty |
| CloudRx.Link.ProcessFrames | stm32h563/src/cloud_client.c:1224-1257 | Each complete frame is handled once and consumed, the handlers' own log holding its text, or its answered ping, exactly once; a frame whose handler had no room stays first; the link goes down exactly when a handler gives it up or the frames reach a bad, fragmented or close frame |
| CloudRx.Link.Poll | stm32h563/src/cloud_client.c:1566-1575 | A poll drops a link whose peer is gone or whose buffer overflowed, drains the frames and asks for a refused segment exactly when less than half is in use; the link goes down for no other reason |
| CloudRx.InOrderOnce | stm32h563/src/cloud_client.c:1224-1257 | The frames of everything accepted are the handled ones followed by those still waiting, and what the handlers took and answered is theirs, each once |
| CloudRx.HandledAreFirst | stm32h563/src/cloud_client.c:1224-1257 | However the server's stream is cut, the consumed frames are the first it sent, in order |
| CloudRx.TakenAreFirst | stm32h563/src/cloud_client.c:1224-1257 | At any moment the handlers have taken the texts of the first frames the server sent, each once, and the rest is still to be read |
| CloudRx.NoStall | stm32h563/src/cloud_rx.c:18-20 | With frames and segments of at most half the buffer, a drained link never refuses |
| CloudRx.FrameMustFit | stm32h563/src/ws_frame.c:50-59 | A frame can complete in the buffer exactly when it is no longer than the buffer |
| CanRing.Ring.Push | stm32h563/src/can_bus.c:372-397 | A frame is queued last, or counted as overflow exactly when 31 are pending |
| CanRing.Ring.Pop | stm32h563/src/can_bus.c:410-420 | With the interrupt between any two steps: the next accepted frames, oldest first, unmodified, until `max` or empty |
| CanRing.Ring.Copy | stm32h563/src/can_bus.c:416 | An interrupt in the middle of the copy does not tear the frame |
| CanRing.Ring.Waiting | stm32h563/src/can_bus.c:432-434 | The reported pending count is the queue's length when its head was read |
| CanRing.KeptAndDropped | stm32h563/src/can_bus.c:383-388 | Accepted and dropped frames are everything received |
| CanTiming.Solve | stm32h563/src/can_bus.c:104-128 | Legal fields at the largest count of quanta that works, with the latest sample point up to 7/8 and the widest jump; failure exactly when none works; up to the kernel clock, success exactly when some count in 8..25 and prescaler in 1..512 hit the rate |
| CanTiming.WorksIsExact | stm32h563/src/can_bus.c:104-128 | Up to the kernel clock a count works exactly when an integer prescaler in 1..512 hits the rate |
| CanTiming.ReachableWhen | stm32h563/src/can_bus.c:104-128 | A rate is hit by some count and prescaler in range exactly when it is at most the clock and some count works |
| CanTiming.ExactUpToTheClock | stm32h563/src/can_bus.c:104-128 | A success is exact exactly for bit rates up to the kernel clock |
| CanTiming.WrappedRateIsAccepted | stm32h563/src/can_bus.c:109-113 | A rate far above the clock that the wrapped product lets through |
| BootGuard.Guard.Start | stm32h563/src/boot_guard.c:45-81 | What a boot starts as, from the record the RAM kept |
| BootGuard.Guard.PlannedReset | stm32h563/src/boot_guard.c:112-120 | A planned reset and its withdrawal |
| BootGuard.Guard.RunAll | stm32h563/src/boot_guard.c:45-120 | Any run of boots through the calls is the run the lemmas are about |
| BootGuard.EndingDecides | stm32h563/src/boot_guard.c:103-120 | The last thing said about a boot decides how it counts |
| BootGuard.CountIsKept | stm32h563/src/boot_guard.c:45-120 | Over any run the record holds the count of the boots' endings, and a boot is safe exactly when it starts with two |
| BootGuard.SafeModeIsSticky | stm32h563/src/boot_guard.c:56-58 | Until the next fresh start every boot stays safe, with a non-empty set turned off that never shrinks |
| BootGuard.FirstSafeOff | stm32h563/src/boot_policy.c:5-14 | The first safe boot turns off the subsystem whose task crashed, or what was begun and not done, or both when neither is known |
| BootGuard.SafeOffAdds | stm32h563/src/boot_policy.c:11-15 | A later culprit is added to it |
| BootGuard.LastStageIsKept | stm32h563/src/boot_guard.c:45-53 | The next boot knows how far the one before it came |
| BootGuard.ChangesAtMostOnce | stm32h563/src/boot_policy.c:11-15 | That set changes at most once |
| BootGuard.ThirdIsSafe | stm32h563/src/boot_guard.c:56-73 | Two failed boots from a fresh start make the third safe, and not sooner |
| BootGuard.TwoInARow | stm32h563/src/boot_guard.c:56-73 | Two failed boots in a row do so after any run |
| BootGuard.NeverWithoutFailure | stm32h563/src/boot_guard.c:103-120 | A run of boots that all end healthy or planned never gets there |
| BootGuard.CountAfterHealthy | stm32h563/src/boot_guard.c:112-120 | What the record holds is the documented count exactly when, in a normal boot, no planned reset or withdrawn one undoes a healthy mark, and, in a safe one, the boot was neither marked healthy nor reset as planned |
| BootGuard.HealthyBootForgotten | stm32h563/src/boot_guard.c:112-120 | Four boots, one of them healthy and rebooted on request, end in safe mode |
| AdcScale.Scale | stm32h563/src/adc_scale.c:8-39 | The loop with 16-bit deltas and the folding loops compute the reading; count in 0..65536, unwrapped count in 32768..98304, sum within 32 bits |
| AdcScale.ReadingIs | stm32h563/src/adc_scale.c:26-38 | The unwrapped count is the count, one turn on below half scale; the volts are its line; valid is a span of at most 1024 |
| AdcScale.MeanOfLift | stm32h563/src/adc_scale.c:16-32 | If the samples lift to a line spread over less than half a turn, the span is that spread and the count their mean on the circle |
| AdcScale.OrderDoesNotMatter | stm32h563/src/adc_scale.c:16-24 | On an arc of less than half the circle the reading does not depend on the order, so not on the reference |
| AdcScale.OrderFreeIffNarrow | stm32h563/src/adc_scale.c:16-32 | All orders of a burst read the same count exactly when it lies on an arc of less than half the circle |
| AdcScale.Equivariant | stm32h563/src/adc_scale.c:16-32 | Turning all samples turns the count and changes neither span nor validity |
| AdcScale.ValidIffOnArc | stm32h563/src/adc_scale.c:25-37 | Valid exactly when all samples lie on an arc of 1024 counts |
| AdcScale.HalfTheCircleIsTooWide | stm32h563/src/adc_scale.c:16-32 | Two opposite samples read differently in the other order |
| ProxyReply.HeadersEnd | stm32h563/src/cloud_client.c:661-668 | Just past the first terminator, 0 while there is none |
| ProxyReply.MatcherIsExact | stm32h563/src/altcp_bp_proxy.c:257-267 | The byte-fed matcher is at 4 exactly when a terminator has been seen, and below that knows the longest part of one |
| ProxyReply.MatchesAtFirstEnd | stm32h563/src/altcp_bp_proxy.c:257-267 | It gets to 4 with the last byte of the first terminator, where the search over the whole text ends |
| ProxyReply.StartDecides | stm32h563/src/altcp_bp_proxy.c:270-276 | The 15 stored characters decide what the whole stream says |
| ProxyReply.Texts | stm32h563/src/altcp_bp_proxy.c:257-276 | The terminator, the version and the code are the texts they stand for |
| ProxyReply.Proxy.Receive | stm32h563/src/altcp_bp_proxy.c:253-285 | For any segmentation the tunnel is up exactly when the stream starts "HTTP/1.", has " 200" at offset 8 and contains a terminator |

## Left out

- HAL, SPI, GPIO, lwIP, mbedTLS, FreeRTOS and USB calls: their results are chosen freely. SHA-256 is a parameter, a function on byte strings.
- The characters of a read-back frame: `FrameText` has them, but the pump builds values, edges and heads and not the text itself.
- ChangeScan.SamplesInside: the arming code, which makes `post` at least `samples * k`, is not part of this model.
- ChangeCapture.Deliver: fewer than 2^31 LA samples and 2^32 samples in all, the ranges of the firmware's signed sample index and unsigned counts.
- BulkReadback.Bulk.Pump: progress is promised for polls whose first offer is at least 217 characters, the most that any frame waits for (a base64 one of a triggered reply).
- BulkReadback.Bulk.Begin: the branch that would read bytes instead of words out of PSRAM is not modelled; no reply is ever set up to use it.
- BulkReadback.Bulk.BeginLaChanges: of the trigger field the pump knows that it is there and how long it is.
- CaptureControl.TriggerStaysOwn: what the pins do is free, so a parked capture may fire at any step; turning the trigger off always takes effect, as the code, which does not look at that transfer's result, takes for granted. Captures from the SCPI server are not modelled.
- CaptureControl.Machine.HandleCapture: sample counts and rates out of range are refused before anything happens and are not steps; uploads, speed tests and OTA appear as another user of the gate whose own bus takes are not modelled.
- NorFlash.CutEnds: a single erase command takes effect as a whole or not at all; what an erase interrupted halfway leaves is not modelled.
- BlobStore.Store.Load: chips of 8 and 16 MB, the sizes the board carries.
- JsonParser.Get: texts shorter than 2^31 characters, so the depth counter does not overflow. `bp_json_flag`, `bp_json_byte_array` and `bp_json_scan_str` would add only easy members.
- JsonText.WellFormed: admits more than section 2 of RFC 8259 does inside strings and scalars; the lemmas hold for that larger set.
- JsonEmitter.Emitter.EmitBytes: `bp_emit` is this on the text that `vsnprintf` formats; the bytes it may leave behind the NUL are not part of the text.
- TunnelOut.Tunnel.Turn: the turn that discards a previous session's late output, and a closed tunnel, are not modelled; a whole write of the worker falls between two steps of the net task.
- WsFrame.ServerBytes: the masked frames the device itself builds (`ws_build_frame`) are not modelled.
- CloudRx.Link.HandleText: what a handler does with a frame is whether it had room and whether it gave the link up; JSON routing, OTA staging and the HTTP phase before the upgrade are not modelled.
- CanRing.Ring.Push: the responder that answers from the interrupt, and the ring resets of `can_configure` and `can_disable`.
- CanTiming.ExactUpToTheClock: for kernel clocks whose 25-fold fits 32 bits; the board's is 25 MHz.
- BootGuard.Guard.Start: the report texts, the test loop and the wrap of the 32-bit counter after 2^32 boots.
- AdcScale.Scale: `float` is modelled as real numbers, so rounding is not part of it; bursts of up to 65535 samples, beyond which the 32-bit sum could overflow.
- ProxyReply.Proxy.Receive: the status code kept for the log, and how a refused set-up is torn down; bytes behind the terminator in the same segment are dropped, as the code does.
- `adc_cal.c`, `cloud_config.c`, `psram_plan`, the signal engine, DAC and upload modules, drivers, tools and gateware.
