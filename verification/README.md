# Verified model of the router agent

The agent runs on an OpenWrt router, receives chat messages and card clicks over a WebSocket, runs
commands and reports events. This project models its stateful and byte-level parts in Dafny and proves
what they promise, over every input and every run.

| part | files | main results |
|---|---|---|
| frame codec | `Words`, `Varint`, `Frames`, `FrameLaws`, `FrameFaults`, `WireFormat` | the bytes of every frame written out, and which frame field every tag sets; round trip, injectivity, what every truncated frame decodes to, streaming, last one wins, unknown fields skipped, and exactly which buffers make decoding fail at run time |
| confirmation tokens | `Confirm` | in every interleaving an action runs at most once, for its initiator, in time; the initiator's first confirm always runs it; every token has one fate, and it is what the steps of the run did to it |
| message admission | `Text`, `Dedup`, `Limiter`, `Admission`, `Intake` | the pruned structures answer as complete logs; over all interleavings of the locked sections commands are rate limited and exactly characterised: which command a message names, when one message can run twice, when an event enters the queue; every frame is acknowledged with its own ids and headers |
| live command output | `LiveStream` | no deadlock, bounded work, text in order, one final update, and that it shows the exit of the process |
| events | `Bus`, `Sustained`, `Changes`, `Interfaces`, `Collector` | the cooldown map answers as the complete delivery log; events replay to what was observed; when delivered interface events show the current states; the number of alerts per stretch of load |
| device database | `DevDB` | every record is the summary of its whole history |

Data structures that forget are compared with a ghost log that does not: the class keeps the log next to
its fields, `Valid` relates the two, and each method states its answer in terms of the log. Interleavings
(`Confirm`, `Admission`, `LiveStream`) are state machines whose steps are the locked sections and channel
operations; the classes `Confirm.Router`, `Admission.MessageRouter` and `Intake.WSClient` keep the run their
callers have made of them, so that the theorems about runs apply to every such object.
Times are integers in nanoseconds; every clock reading is a parameter, and readings never go backwards.

## Where code and comments differ

- `internal/feishu/ws.go:36` says event ids are evicted after one hour; the code at lines 276-281 evicts
  after 30 minutes, and the model does too.
- `internal/commands/live.go:24` says the card is updated every 800 ms; a tick that finds no text yet
  updates nothing.

## Promises that hold only under a condition

- A named message runs its command twice in some interleaving exactly when its creation time is more than
  29 minutes, less the longest wait between freshness test and duplicate memory, after its first pass
  (`Admission.RunsTwiceIff`; for the memory alone `Dedup.PassesTwiceIff`). Nothing bounds how far in the
  future a creation time may lie.
- Decoding a frame fails at run time, instead of returning an error, exactly when fields can be read and
  applied up to one whose own declared length, or a length inside whose header, leads to 2^63 or beyond
  (`FrameFaults.FrameFaultIff`, with such a buffer in `FrameFaults.FaultingBuffer`). It never does when no
  varint in the buffer is that large (`FrameFaults.SmallNeverFaults`), and never on what the encoder writes.
- A confirm by another user uses the token up (`Confirm.WrongUserUsesTokenUp`).
- An event that was let through by the duplicate memory and then found no room is refused by the memory when
  it is offered again in the next 30 minutes (`Intake.DroppedIsLost`).
- After every reading of the interfaces the delivered events show the stored state of every interface exactly
  when no state of an interface ever follows an empty one, and no two interface events of one type come within
  30 s of each other, on whatever interfaces (`Collector.Collector.IfacesShown`). Empty states are real: the
  fall-back reader (`internal/collector/network.go:151-170`) reports every interface without a state. In
  `Interfaces.ReturnIsMissed` an interface that is up goes on being shown as down.

## Model

| member | source | states |
|---|---|---|
| Words.Int32RoundTrip | internal/feishu/proto.go:37-39 | every int32, negative ones included, survives the sign-extending conversion to a 64-bit word and the truncation back |
| Words.TruncateMeans | internal/feishu/proto.go:162-164 | truncation gives the one int32 that is equal to the word modulo 2^32 |
| Varint.PbVarint | internal/feishu/proto.go:16-26 | the loop over the ten-byte buffer writes the base-128 encoding and never leaves the buffer |
| Varint.PbDecodeVarint | internal/feishu/proto.go:85-101 | the shift-and-OR loop computes the sum of the seven-bit groups modulo 2^64 over at most ten bytes, or reports failure |
| Varint.OrStep | internal/feishu/proto.go:91 | OR-ing in the shifted group adds it at its place, and for the tenth byte drops what exceeds 64 bits |
| Varint.VarintEndMeaning | internal/feishu/proto.go:88-100 | a varint ends at the first byte with a clear top bit among the next ten |
| Varint.DecodeVarintSucceeds | internal/feishu/proto.go:85-101 | decoding succeeds if and only if one of the next ten available bytes has its top bit clear, and then moves forward by one to ten bytes inside the buffer |
| Varint.VarintAt | internal/feishu/proto.go:16-101 | wherever the encoding of a word stands in a buffer, decoding there gives the word and stops behind it |
| Varint.VarintRoundTrip | internal/feishu/proto.go:16-101 | the same with arbitrary bytes before and after written out |
| Varint.VarintPrefixFree | internal/feishu/proto.go:16-26 | no encoding is a prefix of the encoding of another word |
| Varint.VarintShortest | internal/feishu/proto.go:16-26 | no byte string that decodes to a word is shorter than its encoding |
| Varint.EncodingAtMostTen | internal/feishu/proto.go:17 | every 64-bit word fits the ten-byte buffer |
| Varint.VarintCut | internal/feishu/proto.go:88-100 | a buffer that ends inside an encoding has no varint there |
| Varint.DecodeVarintExtends | internal/feishu/proto.go:85-101 | bytes behind a varint do not matter |
| Varint.DecodeVarintShift | internal/feishu/proto.go:85-101 | bytes before a varint only move the result |
| Frames.PbTag | internal/feishu/proto.go:28-30 | a tag is the varint of eight times the field number plus the wire type |
| Frames.PbUint64 | internal/feishu/proto.go:32-35 | appends one varint field |
| Frames.PbInt32 | internal/feishu/proto.go:37-39 | appends one varint field holding the sign-extended value |
| Frames.PbBytes | internal/feishu/proto.go:41-45 | appends one length-delimited field |
| Frames.MarshalHeader | internal/feishu/proto.go:51-56 | a header is 0x0a, length and key, then 0x12, length and value |
| Frames.MarshalFrame | internal/feishu/proto.go:58-81 | the buffer, byte by byte: 0x08, 0x10, 0x18 and 0x20 each with a varint, 0x2a with the length and bytes of each header, and 0x32, 0x3a, 0x42, 0x4a with length and bytes of what is not empty |
| Frames.EncodingIsWire | internal/feishu/proto.go:58-81 | the field list of a frame, encoded field by field, is that byte string |
| Frames.UnmarshalHeader | internal/feishu/proto.go:103-135 | the position-advancing loop is the field-by-field fold, with every error case, and hands back the header it has got to |
| Frames.UnmarshalFrame | internal/feishu/proto.go:137-201 | likewise for frames, with nested headers, errors, the frame handed back beside them, and the run-time failure of the slice expression |
| FrameLaws.SliceEndMeaning | internal/feishu/proto.go:121 | narrowing the length gives the true end below 2^63, and an end before the start otherwise |
| FrameLaws.ReadDataMeaning | internal/feishu/proto.go:168-178 | a length-delimited value is read whole, reported truncated, or fails at run time exactly when its end reaches 2^63 |
| FrameLaws.DeclaredLength | internal/feishu/proto.go:168-178 | a field written with an arbitrary declared length is read, truncated, or fails, by where its end lies |
| FrameFaults.HeaderFaultIff | internal/feishu/proto.go:103-135 | decoding a header fails at run time if and only if length-delimited fields can be read up to one whose length leads to 2^63 |
| FrameFaults.FrameFaultIff | internal/feishu/proto.go:137-201 | from any position and frame, decoding fails at run time if and only if fields can be read and applied up to one whose length overflows or whose complete header does |
| FrameFaults.FaultingBuffer | internal/feishu/proto.go:168-177 | an eleven-byte buffer on which decoding fails |
| FrameFaults.SmallNeverFaults | internal/feishu/proto.go:137-201 | when every varint readable in the buffer, plus its length, stays below 2^63, decoding never fails, nested headers included |
| FrameFaults.ReachedIsDecoded | internal/feishu/proto.go:137-201 | without an error the frame handed back is the decoded one |
| FrameFaults.TruncatedPartial | internal/feishu/proto.go:137-201 | beside the error for a frame cut inside a field comes exactly the frame with the fields before that one |
| FrameLaws.ReadFieldAt | internal/feishu/proto.go:141-178 | an encoded field, wherever it stands, is read back and reading stops behind it |
| FrameLaws.ReadFieldCut | internal/feishu/proto.go:141-178 | a field cut short anywhere is an error |
| FrameLaws.HeaderRoundTrip | internal/feishu/proto.go:51-135 | decoding an encoded header gives the header |
| FrameLaws.FrameRoundTrip | internal/feishu/proto.go:58-201 | decoding an encoded frame succeeds and gives the frame |
| FrameLaws.EncodingInjective | internal/feishu/proto.go:58-81 | different frames have different encodings |
| FrameLaws.FrameMerges | internal/feishu/proto.go:137-201 | a frame's encoding met anywhere during decoding overwrites the scalars it carries and appends its headers |
| FrameLaws.LastOneWins | internal/feishu/proto.go:137-201 | two encodings in a row decode to the second frame laid over the first |
| FrameLaws.TruncatedAtBoundary | internal/feishu/proto.go:137-201 | a cut on a field boundary decodes to the frame with the later fields at their defaults and a prefix of its headers |
| FrameLaws.TruncatedInside | internal/feishu/proto.go:137-201 | a cut anywhere else is an error |
| FrameLaws.DecodeContinues | internal/feishu/proto.go:137-201 | what decodes can be continued from the frame reached |
| FrameLaws.DecodeShift | internal/feishu/proto.go:137-201 | decoding behind a prefix gives the frame that decoding alone gives |
| FrameLaws.Streaming | internal/feishu/proto.go:137-201 | if one buffer decodes, decoding it followed by another is decoding the other from the frame the first left |
| FrameLaws.UnknownFieldSkipped | internal/feishu/proto.go:156-165 | a well-formed field with an unused number between two parts changes nothing |
| WireFormat.FieldByTag | internal/feishu/proto.go:141-198 | a tag t is field t / 8; t % 8 == 0 reads a varint, t % 8 == 2 a length and so many bytes, everything else is an unknown wire type; with every error case |
| WireFormat.HeaderFieldByTag | internal/feishu/proto.go:107-126 | in a header only t % 8 == 2 is known |
| WireFormat.ScalarLands | internal/feishu/proto.go:150-165 | 0x08, 0x10, 0x18 and 0x20 set the sequence id, log id, service and method, the last two by their low 32 bits, signed |
| WireFormat.BytesLand | internal/feishu/proto.go:186-193 | 0x32, 0x3a, 0x42 and 0x4a set payload encoding, payload type, payload and new log id |
| WireFormat.HeaderLands | internal/feishu/proto.go:180-185 | 0x2a appends the header whose key and value are written behind it |
| Confirm.RunKeepsInv | internal/commands/router.go:186-274 | every step of every interleaving keeps the pending map, the calls in flight, the runs and the fates of tokens in agreement |
| Confirm.RunsAreSafe | internal/commands/router.go:237-267 | over any interleaving each action runs at most once, only for the user of the step that created its token, and at most 60 s after that step |
| Confirm.ActionIff | internal/commands/router.go:188-219 | a token has exactly the action its creation made: the user and label of that step, expiring 60 s after its clock reading |
| Confirm.EnabledIff | internal/commands/router.go:186-234 | an initiating call can store its token exactly between creation and storing, arm the timer exactly between storing and arming, and the timer can fire exactly from 60 s after it was armed, once |
| Confirm.EveryTokenHasOneFate | internal/commands/router.go:186-274 | an initiated token is not yet stored, pending, taken, judged, cancelled or timed out - exactly one of these, visible in the data and in the run - and a time-out is never early |
| Confirm.FatesAreHistory | internal/commands/router.go:186-274 | over any run: cancelled if and only if a cancel found the token pending, timed out if and only if its timer did, taken if and only if a confirm took it and has not judged it, judged with a verdict if and only if that confirm's check came to it |
| Confirm.LastJudged | internal/commands/router.go:238-256 | a step judges a token if and only if it is the check of the call that took it, on the data it took |
| Confirm.GoneStaysGone | internal/commands/router.go:195-208 | a token that has left the pending map never returns |
| Confirm.StaysPending | internal/commands/router.go:204-208 | without a confirm or cancel a stored token stays pending until it expires, because no timer fires earlier |
| Confirm.StaysTaken | internal/commands/router.go:238-243 | a taken action belongs to its confirming call until that call judges it, whatever others do |
| Confirm.ConfirmRunsIff | internal/commands/router.go:237-267 | a confirm that takes the token runs the action if and only if the sender initiated it and the check is not past the expiry |
| Confirm.FirstConfirmRuns | internal/commands/router.go:186-267 | the initiator's first confirm before the expiry, with no earlier confirm or cancel, runs the action |
| Confirm.WrongUserUsesTokenUp | internal/commands/router.go:239-252 | after a confirm by another user the action never runs |
| Confirm.Router.NewAction | internal/commands/router.go:212-219 | a new token's action belongs to its user and expires 60,000,000,000 ns from now |
| Confirm.Router.StoreAction | internal/commands/router.go:221-223 | the locked insertion is the step of the same name, for an action its caller created |
| Confirm.Router.TakeAction | internal/commands/router.go:238-243 | the locked take returns and removes the pending action, or finds none, as the step of the same name |
| Confirm.Router.CheckAction | internal/commands/router.go:249-256 | user first, then the clock: executes if and only if both agree, and the run is logged exactly then |
| Confirm.Router.CancelAction | internal/commands/router.go:269-274 | the locked deletion by a cancel, as the step of the same name |
| Confirm.Router.TimerFires | internal/commands/router.go:230-234 | the locked deletion by the timer, as the step of the same name |
| Confirm.Router.Safe | internal/commands/router.go:186-274 | whatever calls an object has seen, what has run, ran once, for its initiator, in time |
| Dedup.DuplicateFilter.IsDuplicate | internal/commands/router.go:373-390 | says duplicate if and only if the complete log has an acceptance of this id at most 1,800,000,000,000 ns old, and logs exactly what it lets pass under an id; empty ids always pass |
| Dedup.DuplicateFilter.Evict | internal/commands/router.go:379-384 | whatever order the map is walked in, exactly the entries older than the cutoff go |
| Dedup.EvictedMeans | internal/commands/router.go:379-387 | after eviction the map holds exactly the ids the complete log remembers |
| Dedup.OncePerWindow | internal/commands/router.go:373-390 | two acceptances of one id are more than 30 minutes apart |
| Dedup.FreshMeans | internal/commands/router.go:98-110 | fresh means not created over 5 s before start-up nor over 60 s ago, by a creation time in milliseconds |
| Dedup.SecondPass | internal/commands/router.go:98-115 | a second pass under one id needs a creation time of its own that far after the first acceptance, whatever runs concurrently and whatever creation time the first had |
| Dedup.PassesTwiceIff | internal/commands/router.go:98-115 | over unbounded runs a named message with a parseable creation time can pass twice if and only if that time is more than 29 minutes, less the delay, after the first acceptance |
| Dedup.PassesAtMostOnce | internal/commands/router.go:98-115 | with one clock reading per delivery, a message created at most 29 minutes after the first pass of its id does not pass |
| Limiter.RateLimiter.Allow | internal/commands/ratelimit.go:25-50 | granted if and only if the complete log has fewer than the limit of grants to the user in (now - window, now]; the other buckets are untouched |
| Limiter.Prune | internal/commands/ratelimit.go:32-38 | the filtering loop keeps exactly the entries newer than the cutoff, in order |
| Limiter.AdmitsMeans | internal/commands/ratelimit.go:32-41 | a call is granted if and only if the places in the log with a grant to the user in (now - window, now] are fewer than the limit |
| Limiter.RateLimiter.BucketShape | internal/commands/ratelimit.go:32-49 | every bucket is sorted, has at most the limit of entries and none from the future |
| Limiter.Pruned | internal/commands/ratelimit.go:32-39 | pruning a pruned bucket loses nothing that still counts |
| Limiter.RateBound | internal/commands/ratelimit.go:25-50 | in any run a user gets at most k times the limit of grants in any half-open stretch of k windows, several at one instant included |
| Limiter.OthersIrrelevant | internal/commands/ratelimit.go:32-48 | calls of other users never change the answer |
| Limiter.OnlyJoins | internal/commands/ratelimit.go:25-50 | the calls of one user are picked part by part, so that they keep their order |
| Admission.MessageRouter.constructor | internal/commands/router.go:60-75 | a limit that is not positive becomes 20, and the window is 60,000,000,000 ns |
| Admission.MessageRouter.ScreenMessage | internal/commands/router.go:85-110 | refused as no admin exactly when neither id is one; then as sent before start-up exactly when created over 5 s before it; then as too old exactly when over 60 s old; else let through |
| Admission.MessageRouter.RememberMessage | internal/commands/router.go:112-123 | a duplicate exactly when the complete log has its id from the last 30 minutes; otherwise without text exactly when there are no words |
| Admission.MessageRouter.AskLimiter | internal/commands/router.go:126-144 | rate limited exactly when the last 60 s hold no fewer grants than the limit; otherwise dispatched, for the admitted id, to the registered command the first word names, with the other words, if there is one; otherwise unknown |
| Admission.MessageRouter.HandleMessage | internal/commands/router.go:78-145 | one undisturbed call: the first test that fails decides, and it dispatches a command for a user with arguments exactly when the conditions of DispatchedIff hold of the three; calls that overlap are the three methods above in any order |
| Admission.DispatchedIff | internal/commands/router.go:85-144 | an undisturbed call dispatches a command for a user with arguments if and only if the user is the admitted id of the sender, the message fresh and new, the limiter grants it, and the first word names that registered command and the others are the arguments; all in numerals and characters |
| Text.NamesIsLookup | internal/commands/router.go:131-136 | a word names a command - the same characters with ASCII capitals replaced by small letters, behind at most one slash - if and only if lower-casing it and dropping one leading slash gives that command |
| Text.SlashIsOptional | internal/commands/router.go:134-136 | a word that does not begin with a slash names the same command with one and without |
| Admission.RunKeepsInv | internal/commands/router.go:78-145 | every interleaving of the steps keeps passes proper, logged, one per call and apart, runs among the passes, and grants legal |
| Admission.RunsAreGranted | internal/commands/router.go:126-144 | over any interleaving every command that ran was paid for by a grant |
| Admission.CommandsAreSafe | internal/commands/router.go:78-145 | over any interleaving, whatever the order of the two locks: commands run only for admins who named them; two runs for one message id are over 30 minutes apart and bounded by the creation time of the second; a user gets at most k times the limit of commands in k minutes |
| Admission.RunsTwiceIff | internal/commands/router.go:98-144 | some interleaving runs one named message's command twice if and only if its creation time is more than 29 minutes, less the longest wait before the lock, after the first pass |
| Admission.RunsAtMostOnce | internal/commands/router.go:98-144 | with one clock reading for freshness and memory, a message created at most 29 minutes after its first pass runs at most once, over unbounded runs |
| Admission.MessageRouter.Safe | internal/commands/router.go:78-145 | the guarantees over runs hold of every router, however its callers interleaved |
| Admission.StrangersIrrelevant | internal/commands/router.go:85-94 | taking the steps of non-admins' messages out of any run leaves a valid run with the same history |
| Admission.FromAdminsJoins | internal/commands/router.go:85-94 | exactly the steps of non-admins are taken out, and the others keep their order |
| Intake.GetHeader | internal/feishu/types.go:54-61 | the value of the first header with the key, empty if there is none |
| Intake.WSClient.HandleDataFrame | internal/feishu/ws.go:226-268 | one acknowledgement is written, whatever happens, with the ids and service of the frame as method 1, its headers and "biz_rt" with "0", and {"code":0}; the event goes into the queue exactly when the frame is marked as one, it parses, its id was not let through in the last 30 minutes and fewer than 64 wait |
| Intake.WSClient.AllAcknowledged | internal/feishu/ws.go:230-247 | the k-th frame written acknowledges the k-th data frame handled |
| Intake.AckHeaders | internal/feishu/ws.go:241 | every header of a frame reads the same in its acknowledgement |
| Intake.WSClient.Offer | internal/feishu/ws.go:258-267 | the duplicate test and the non-blocking send into 64 slots |
| Intake.WSClient.TakenOnce | internal/feishu/ws.go:57-58 | the receiver gets the entered events in order; the same id twice only if entered twice more than 30 minutes apart |
| Intake.SoundStep | internal/feishu/ws.go:270-287 | one more attempt keeps entries of one id apart and remembered |
| Intake.LogIsPasses | internal/feishu/ws.go:270-287 | over any run the duplicate memory's log holds exactly the named offers that were let through |
| Intake.MemoryDecides | internal/feishu/ws.go:270-287 | the memory lets an offer through if and only if no earlier offer of its id was let through in the 30 minutes before |
| Intake.EntersIff | internal/feishu/ws.go:258-267 | over any run an operation puts an event into the queue if and only if it offers one, no earlier offer of its id was let through in the 30 minutes before, and fewer than 64 events wait at that moment |
| Intake.DroppedIsLost | internal/feishu/ws.go:258-267 | an event let through that then finds no room is entered by no operation of the next 30 minutes, whatever happens in between |
| Intake.RefusedMayEnter | internal/feishu/ws.go:277-287 | an offer refused as a duplicate does not extend the memory |
| LiveStream.RunKeepsInv | internal/executor/stream.go:17-54 | every step of producer, consumer, ticker and deadline keeps both channels, the text and the updates in agreement |
| LiveStream.TextIsSubsequence | internal/commands/live.go:51-66 | the card text is always an in-order selection of the scanned lines, and without a timeout nothing is missing |
| LiveStream.FinalUpdateOnce | internal/commands/live.go:53-58 | a stream that ended made exactly one final update, the last one, with the whole text; without a timeout the text is every scanned line |
| LiveStream.StatusIsExit | internal/executor/stream.go:18-53 | a stream that ended had exactly one of a failed pipe, a failed start and an exit of the process, and its last update shows success if and only if the process exited without an error |
| LiveStream.ReportIsExit | internal/executor/stream.go:18-53 | at every moment what the producer has to report is what the steps of the run have said of pipe, start and exit |
| LiveStream.RefusalIsShown | internal/commands/live.go:82-86 | a refused command shows its message, as a failure, and nothing else |
| LiveStream.EverythingCanBeShown | internal/commands/live.go:51-66 | for any lines and any exit there is a run that shows just those lines and that status |
| LiveStream.ChannelHolds | internal/executor/stream.go:39-46 | a line waits for room among 64, and is dropped only once the context is cancelled |
| LiveStream.ErrReadNeverBlocks | internal/executor/stream.go:49-53 | once the lines channel is closed, the error is there to be read |
| LiveStream.NoDeadlock | internal/executor/stream.go:17-54 | no reachable state before the end is stuck |
| LiveStream.StepDecreases | internal/executor/stream.go:41-46 | every step but ticks and the deadline uses up a measure |
| LiveStream.WorkIsBounded | internal/executor/stream.go:17-54 | finite output gives finitely many steps, with an explicit bound, however the sides interleave |
| LiveStream.RenderGrows | internal/commands/live.go:60 | the text only grows |
| LiveStream.RenderIsLines | internal/commands/live.go:60 | the text is as long as its lines with a newline each, and every line stands, with its newline, behind the lines before it |
| Bus.EventBus.constructor | internal/events/bus.go:26-41 | only the two alerts and the two interface events cool down: 30 s for the interfaces, 300 s or the configured number of seconds for the alerts |
| Bus.EventBus.Publish | internal/events/bus.go:49-66 | delivered if and only if the complete delivery log has no event of that type within its cooldown; then handler i gets call i of the new calls, with the event |
| Bus.EventBus.Subscribe | internal/events/bus.go:43-47 | adds one handler at the end |
| Bus.FitsMeans | internal/events/bus.go:51-59 | the last delivery per type answers for the whole log |
| Bus.DeliveriesSpaced | internal/events/bus.go:51-58 | deliveries of a type with a cooldown are at least that long apart |
| Bus.NothingDropped | internal/events/bus.go:51 | of types without a cooldown nothing is ever dropped, whatever else is published |
| Bus.DeliveredIsKept | internal/events/bus.go:51-58 | the times at which a cooled-down type is delivered are those its cooldown keeps of the times at which it is published |
| Sustained.AlertIff | internal/collector/collector.go:190-206 | an alert is raised at a sample if and only if an earlier one is at least 60 s old, everything since has been high and no alert has been raised since |
| Sustained.AlertDue | internal/collector/collector.go:190-206 | no 60 s of high samples go without an alert |
| Sustained.AlertsInStreak | internal/collector/collector.go:190-206 | a high stretch of length d, read at least every gap, raises between floor(d / (60 s + gap)) and floor(d / 60 s) alerts, whatever came before it |
| Sustained.KeptInStreak | internal/collector/collector.go:190-206 | of these a cooldown keeps at least floor(d / (cooldown + 60 s + gap)), whatever it kept before |
| Sustained.AlertedIs | internal/collector/collector.go:188-206 | the rule's alerts over high and low samples are those defined by the percentages alone: some reading 60 s before or more, everything from it on at the threshold or above, none alerted in between |
| Sustained.SinceIsStart | internal/collector/collector.go:191-206 | what the detector remembers is the time of the first high reading or of the last alert since, and nothing just after a low reading |
| Changes.Balance | internal/collector/collector.go:236-256 | joins minus leaves is 1 for a device that is present and 0 for one that is not |
| Changes.Alternate | internal/collector/collector.go:236-256 | joins and leaves of a device strictly alternate, starting with a join |
| Changes.MovesChain | internal/collector/collector.go:268-279 | each announced change starts from the address the one before ended at, and the last ends at the stored address |
| Changes.FollowIff | internal/collector/collector.go:268-279 | the rule by itself, for any strings: the announcements always lead to the current one if and only if none follows an empty one |
| Changes.FlipsAlternate | internal/collector/collector.go:312-327 | up and down events strictly alternate and the last one is the current state |
| Collector.Collector.DetectCPUAlert | internal/collector/collector.go:188-207 | one reading publishes a HighCPU event exactly when it is at least 85 %, everything for 60 s or more has been and nothing since was alerted, with its percentage and the time since the remembered start; and nothing else |
| Collector.Collector.DetectMemAlert | internal/collector/collector.go:209-228 | the same for memory at 90 %, with the percentage and the free memory in whole megabytes |
| Collector.Collector.DetectDeviceChanges | internal/collector/collector.go:230-257 | whatever the map order, the events of a scan are exactly the differences to the scan before, each once, with the device's own address, name and vendor, and replaying all events gives the scan; of two devices with one MAC the later counts |
| Collector.Collector.DetectWANIPChanges | internal/collector/collector.go:259-281 | per interface the published changes stay exactly the moves of its complete address history; interfaces that are not WAN or have no address are skipped |
| Collector.ObserveMeans | internal/collector/collector.go:259-281 | an entry of a WAN interface with addresses adds its first address to the history of that interface; all others add nothing |
| Collector.WANNames | internal/collector/collector.go:260-264 | WAN interfaces are eth0, eth1, pppoe-wan, wan, wan6 and all whose name begins with ppp |
| Collector.IsWANIface | internal/collector/collector.go:351-358 | the loop over the list of names |
| Collector.Collector.NoteAddress | internal/collector/collector.go:268-279 | one address publishes one change exactly when the stored one is known, not empty and different |
| Collector.Collector.AddressChain | internal/collector/collector.go:259-281 | on every interface with an address the published changes, and the delivered ones, form a chain from the first address seen to the stored one; addresses are never empty (internal/collector/network.go:226, 246) |
| Collector.Collector.DetectServiceChanges | internal/collector/collector.go:311-328 | per service the published events stay exactly the flips of its complete state history |
| Collector.CheckMeans | internal/collector/collector.go:311-327 | a round of checks adds to the history of each watched service its own outcome |
| Collector.Collector.NoteState | internal/collector/collector.go:313-326 | one check publishes one event exactly when the known state differs |
| Interfaces.SaidIsTurns | internal/collector/collector.go:283-300 | what the events say of one interface are the turns of the states read of it, whatever was read of others in between |
| Interfaces.UpSaysUp | internal/collector/collector.go:286-296 | over all events ever led to, an event is an up event if and only if it says "up" |
| Interfaces.EventsTell | internal/collector/collector.go:286-296 | every event tells, in small letters, a state that was read of the interface it names, and is an up event if and only if that is "UP" |
| Interfaces.TurnsShowIff | internal/collector/collector.go:285-298 | the announced states of one interface always lead to its current one if and only if none follows an empty one |
| Interfaces.NoneDroppedIff | internal/events/bus.go:51-58 | the bus drops none of a type if and only if its publications are at least the cooldown apart |
| Interfaces.AlwaysShownIff | internal/collector/collector.go:283-300 | after every reading the delivered events show the stored state of every interface if and only if no state follows an empty one and no two events of one type are closer than its cooldown |
| Interfaces.MomentAfter | internal/collector/collector.go:283-300 | every reading has a moment at which exactly the events up to it are published |
| Interfaces.ReturnIsMissed | internal/collector/collector.go:285-298 | up, no state, up: the one event says "no state", and handlers go on seeing the interface down |
| Collector.Collector.DetectIfaceChanges | internal/collector/collector.go:283-300 | the published interface events stay exactly those the complete history of readings leads to, in order, and every stored state is the last one read |
| Collector.Collector.NoteIface | internal/collector/collector.go:285-298 | one state publishes one event exactly when the stored one is known and different: up when it is UP, down otherwise |
| Collector.Collector.IfacesShown | internal/collector/collector.go:283-300 | with the default cooldowns the delivered events show the stored state of every interface after every reading if and only if no state ever followed an empty one and no two events of one type came within 30 s; an event is an up event exactly when it says "up" |
| Collector.Collector.NothingLost | internal/events/bus.go:19-42 | with the default cooldowns the bus drops no device, address or service event, so what handlers received replays to the latest observation |
| Collector.Collector.CpuAlerts | internal/collector/collector.go:188-207 | the published HighCPU times are those of the alerted readings; for any stretch of length d at 85 % or above, between floor(d / (60 s + gap)) and floor(d / 60 s) alerts are published in its time, at least floor(d / (cooldown + 60 s + gap)) delivered, at least the cooldown apart |
| Collector.Collector.MemAlerts | internal/collector/collector.go:209-228 | the same for memory in use, at 90 % |
| DevDB.Database.UpsertDevices | internal/collector/devdb.go:88-132 | after a scan every record is still the summary of its complete history; a save is asked for if and only if a record is new or renamed |
| DevDB.Database.Upsert | internal/collector/devdb.go:97-125 | the merge of one device, field by field; changed if and only if the record is new or a name is assigned |
| DevDB.SightMeans | internal/collector/devdb.go:97-106 | a scan adds to the history of a MAC the sighting of its device |
| DevDB.SavesIff | internal/collector/devdb.go:101-131 | some sighting of a scan adds a record or assigns a name if and only if a record is new or renamed afterwards; inferred types are never empty (internal/collector/devices_type.go:187) |
| DevDB.NextSighting | internal/collector/devdb.go:107-125 | one more sighting keeps a record the summary: last address, earliest longest hostname, first known vendor and type, sticky random flag, first and last time |
| DevDB.FirstSighting | internal/collector/devdb.go:101-125 | the first sighting creates the summary |
| DevDB.SummaryUnique | internal/collector/devdb.go:15-25 | the history determines the record |
| DevDB.Database.SetNote | internal/collector/devdb.go:136-157 | the note goes to the record with that MAC, else to some record with that last address, else nowhere; nothing else changes |
| DevDB.Database.EnrichDevices | internal/collector/devdb.go:195-221 | every device of the copy is completed from its record, in place and order |
| DevDB.Database.EnrichedKnowsHistory | internal/collector/devdb.go:200-219 | a completed device has the last note set on its MAC unless that is empty, the longest hostname its MAC was ever seen with if longer than its own, the first known type if its own is unknown, and is otherwise itself |
| DevDB.EnrichIdempotent | internal/collector/devdb.go:195-221 | completing twice is completing once |
| DevDB.Enriched | internal/collector/devdb.go:200-219 | completion never shortens a hostname and touches only note, hostname and type |

## Left out

- Varint.PbDecodeVarint: does not model 32-bit builds, where Go's `int` narrows lengths further.
- FrameLaws.FrameRoundTrip: for encodings below 2^63 bytes, the most a Go slice can hold; nil and empty slices are one value.
- Admission.MessageRouter.ScreenMessage: message text arrives as words; JSON, the mention prefix and Unicode white space and case are not part of the model.
- Confirm.RunsAreSafe: tokens are distinct; the random token generator is not modelled, and an executed action is one entry in the list of runs, whether it is one-shot or live.
- Intake.WSClient.HandleDataFrame: the payload arrives parsed or unparseable, and writing the acknowledgement does not fail.
- LiveStream.FinalUpdateOnce: a line is what the scanner returns; its 64 KB token limit, after which it stops early, and failing card updates are not modelled. The consumer of `runLive` and that of `runLiveShell` are one state machine, since they differ only in the whitelist refusal.
- Bus.EventBus.Publish: handlers are numbers and a call of one is an entry in a list; publishers do not overlap, as the collector is the only one. The time stamp in an event is not modelled.
- Collector.Collector.DetectCPUAlert: one clock reading per sample, where the code reads the clock up to four times; percentages are reals.
- Collector.Collector.DetectServiceChanges: the outcome of each service check is an input.
- DevDB.Database.UpsertDevices: records are values in a map, so that two references to one record (aliasing) are not captured; lengths count characters, where Go counts bytes. Loading and saving the file are I/O.
- Lower-casing acts on ASCII letters only.
- Reboot detection: one comparison of two uptimes.
- The reconnect back-off, the pinger, the HTTP client, token fetching, cards and their formatting, command implementations and text parsers: I/O, foreign behaviour or display.
