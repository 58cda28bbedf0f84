# LiveAISIP in Dafny

A model of the parts of LiveAISIP, a SIP and RTP call runtime, whose correctness rests on state that many steps
share, with proofs about every run, every input or every interleaving.

| file | what it models |
|---|---|
| `Mailbox.dfy` | the bounded command mailbox of a call thread, its wake pipe and the thread's loop, as atomic steps of any number of senders and one owner |
| `Deadlines.dfy` | the deadline scheduler: a heap with tombstones against a plain set of pending deadlines |
| `SignalingTimers.dfy` | the signaling engine's transaction timer table and its agreement with the scheduler |
| `Lifecycle.dfy`, `LifecyclePast.dfy` | the call lifecycle over forked dialogs, and the same said by the inputs it has taken |
| `Framing.dfy`, `FramingStream.dfy`, `FramingHeaders.dfy`, `FramingMessages.dfy`, `FramingErrors.dfy`, `FramingBrim.dfy`, `FramingScanner.dfy` | SIP message framing: the decision, what it says about longer inputs, which header sections and messages are accepted, why any other is refused, which refusals a further byte withdraws, and the scanning loops |
| `Dtmf.dfy` | telephone events of RFC 4733: payload codec, sender, receiver, and the two over a bad channel |
| `RtpClock.dfy`, `Periodic.dfy`, `Division.dfy` | the RTP media clock, the fixed-rate schedule and the division facts they share |
| `Ids.dfy`, `CallManager.dfy` | opaque identifiers and the generation-fenced registry of call threads |
| `Notifications.dfy`, `Runtime.dfy`, `RuntimeOffers.dfy`, `RuntimeWorker.dfy`, `RuntimeExhaustion.dfy`, `RuntimeObjects.dfy` | the process runtime: observer queue, shutdown coordinator, service over its engine, what it offers its observer, worker, runs that lose track of a call, and the objects in place |
| `Extension.dfy`, `ExtensionErrors.dfy` | RTP header extensions of RFC 3550 and RFC 8285, and why data is refused |
| `Source.dfy` | the remote RTP source tracker |
| `Wrappers.dfy` | shared wrappers and fixed-width limits |

Most components come in three layers. Functions on values say what an operation does, in the source's own branches.
Lemmas prove what holds over whole runs of those functions. Where the source updates state in place, a class repeats
the update field by field and loop by loop, and each method is proved to compute the function that specifies it.

Integers are unbounded in Dafny, so 16-, 32-, 64- and 128-bit limits, wrap-around and saturation are written out.
`usize` is taken as 64 bits wide. Durations are nanoseconds up to the largest `std::time::Duration`.

## What the code does and what is said about it

Some natural claims are false of the code. Each has a concrete counterexample and an exact condition.

- A header line of exactly 8192 bytes is legal, but the limit on unfinished lines also counts a trailing CR
  (src/sip/framing.rs:535-539). A stream cut between the CR and the LF of such a line is refused although one more byte
  would make it acceptable. `FramingStream.OneByteEarly` is the input; `FramingBrim.RefusalsAreFinalExactly` and
  `FramingStream.PrefixesWaitExactly` give the exact conditions.
- `TelephoneEventCode::Other` can be built with a value that names a digit or the flash, and then does not survive
  encoding. `TelephoneEvents.ParseEncoded` says exactly when it does.
- A DTMF event whose first packet seen is an end packet that interrupts another event is reported as replaced, not as
  ended, although it is counted as completed (src/rtp/dtmf/receiver.rs:323-350). `DtmfReceiving.InterruptingEndIsReplaced`
  is such a pair of packets; `DtmfReceiving.CompletionIsCounted` says exactly when it happens.
- No start timestamp completes twice as long as all of them lie within half the 32-bit circle.
  `DtmfReceiving.JustBeyondHalfAnEventRepeats` completes one twice a single step further;
  `DtmfReceiving.WidthIsExact` says that half the circle is exactly the limit.
- A wake-up can be lost if writing the wake byte fails. `Mailbox.OneFailedWakeLosesAMessage` reaches that state;
  `Mailbox.NoLostWakeUp` holds on every run without such a failure.
- A pump that fails because one call has used up its 64-bit sequence numbers leaves the calls that it ended before
  uncounted. `RuntimeExhaustion.AMiscountIsReachable` is a run that loses one. `RuntimeWorker.EveryRunIsSound` says
  exactly how far the counters are off on any run; nothing else is affected.
- A shutdown poll of the service that fails, because the shutdown has not begun or time has moved back, has already
  joined the finished calls (src/runtime/engine.rs:274-286): the registry forgets them while the service keeps them as
  active. `RuntimeExhaustion.ACallIsForgotten` is such a poll; `RuntimeService.FailedPollForgets` and
  `RuntimeService.ForgottenCallsAreStuck` say exactly when it happens and what follows. The worker never makes one, so
  `RuntimeWorker.EveryRunIsSound` is not affected.
- Polling a schedule twice is the same as polling once, but one poll may overflow where two do not, as in
  `Periodic.OnePollOverflows`. `Periodic.SplittingIsSafe` and `Periodic.JoiningIsSafeExactly` are the two directions.
- Cancelling an arbitrary deadline identifier through the call's own interface can break the agreement of timer table
  and scheduler. Every call's scheduler counts from 1, so an identifier that one call was handed names a transaction's
  timer in another: `SignalingTimers.FirstOwnDeadline` and `SignalingTimers.ForeignCancelBreaksAgreement` are the two
  runs. `SignalingTimers.EveryRunStaysInStepExactly` is the exact condition, and
  `SignalingTimers.OwnCancelsAreHarmless` says how a call meets it.

## Model

| member | source | states |
|---|---|---|
| Mailbox.StepKeepsSound | src/call/execution/handle.rs:102-212 | every atomic step of a sender or the owner keeps slots counted, delivery in order and queued messages noticed |
| Mailbox.EveryRunIsSound | src/call/execution/thread.rs:310-402 | the invariant holds after every interleaving of any number of senders with the owner |
| Mailbox.ReachableIsSound | src/call/execution/thread.rs:203-207 | every state reachable from an empty mailbox of any accepted capacity is sound |
| Mailbox.NoLostWakeUp | src/call/execution/thread.rs:319-400 | an owner blocked without a timeout while a message is queued has a readable wake byte, or a sender is between its send and its notify |
| Mailbox.SleepMeansDelivered | src/call/execution/reactor.rs:198-262 | an owner that sleeps with no byte to read and no sender about to notify has delivered every accepted message |
| Mailbox.WakeStreamRunsDry | src/call/execution/reactor.rs:264-274 | the owner alone can drain any number of wake bytes and start a turn that looks at the mailbox |
| Mailbox.WokenOwnerDelivers | src/call/execution/thread.rs:319-400 | a readable wake byte is enough for the owner alone to deliver the oldest queued message |
| Mailbox.DepthIsExact | src/call/execution/handle.rs:102-120 | depth equals reserved, queued, in-hand and abandoned messages, never exceeds capacity, and the channel is never full for a sender that holds a slot |
| Mailbox.AdmissionIsExact | src/call/execution/handle.rs:159-170 | in every reachable state a message is turned away if and only if all slots are occupied, an ordinary one also when only one is free |
| Mailbox.SendArrives | src/call/execution/handle.rs:159-190 | with a slot to spare and the call alive, one send puts the message at the end of the queue, writes one wake byte and changes nothing else |
| Mailbox.MailboxFills | src/call/execution/handle.rs:159-170 | for every capacity a new mailbox accepts one ordinary message less than that, in order, with none received |
| Mailbox.RefusedSendLeavesNoTrace | src/call/execution/handle.rs:171-190 | a send that the channel refuses is reported closed after the call has ended and full before, and gives its slot back |
| Mailbox.TurnTakes | src/call/execution/thread.rs:362-374 | a turn that looks at the mailbox delivers what is queued, in order, up to 64 messages |
| Mailbox.BatchesAreBounded | src/call/execution/thread.rs:362-374 | in no run does a turn take more than 64 messages |
| Mailbox.AfterTheBatch | src/call/execution/thread.rs:385-400 | after a full batch the owner does not wait; after an emptied mailbox it waits, without end if it has no deadline |
| Mailbox.OtherTurns | src/call/execution/thread.rs:319-365 | a deadline or a socket starts a turn that leaves the mailbox alone unless a batch was cut short |
| Mailbox.LastHandleClosesMailbox | src/call/execution/thread.rs:375-383 | when the last handle goes, the sleeping owner wakes up and closes the mailbox |
| Mailbox.ShutdownRefusedOnlyByShutdown | src/call/execution/handle.rs:159-190 | a Shutdown is refused as full only while another Shutdown holds a slot |
| Mailbox.DeliveryIsFifo | src/call/execution/handle.rs:203-212 | accepted messages are delivered in the order accepted, and only an ended thread loses any |
| Mailbox.OneFailedWakeLosesAMessage | src/call/execution/reactor.rs:139-146 | a single failed wake write leaves a reachable sleeping owner with a queued message |
| Deadlines.ScheduleKeepsWellFormed | src/call/execution/deadline.rs:153-191 | scheduling keeps identifiers fresh and the plan within its maximum |
| Deadlines.CancelKeepsWellFormed | src/call/execution/deadline.rs:194-196 | cancelling keeps the plan well formed |
| Deadlines.EarliestIsUnique | src/call/execution/deadline.rs:102-110 | the order by time and identifier leaves one earliest deadline, so a poll has no freedom |
| Deadlines.FirstScheduledFirst | src/call/execution/deadline.rs:102-110 | a deadline scheduled later for the same or a later instant is never ahead of an earlier one |
| Deadlines.DeadlineScheduler.PlanIsWellFormed | src/call/execution/deadline.rs:132-223 | in every valid state the pending deadlines, like the heap that holds them and the tombstones, stay within the maximum |
| Deadlines.DeadlineScheduler.New | src/call/execution/deadline.rs:132-145 | accepts exactly the capacities from 1 to the maximum and starts empty |
| Deadlines.DeadlineScheduler.Schedule | src/call/execution/deadline.rs:153-191 | refuses exactly as specified and otherwise adds one pending deadline; the heap with its tombstones stays within the maximum |
| Deadlines.DeadlineScheduler.Cancel | src/call/execution/deadline.rs:194-196 | removes exactly that pending deadline and says whether it was pending |
| Deadlines.DeadlineScheduler.Poll | src/call/execution/deadline.rs:199-210 | returns the least pending deadline by time and identifier at or before now and removes only it; None exactly when nothing is due |
| Deadlines.DeadlineScheduler.NextDeadline | src/call/execution/deadline.rs:215-223 | returns the true minimum of the pending times, discarding only tombstones |
| SignalingTimers.ExecuteKeepsInStep | src/call/signaling/engine.rs:647-745 | every action list, failing midway or not, keeps table and scheduler in agreement |
| SignalingTimers.FireKeepsInStep | src/call/signaling/engine.rs:611-645 | so does a fired deadline with whatever actions the transaction answers |
| SignalingTimers.TimeoutIsReported | src/call/signaling/engine.rs:611-645 | a fired timer is reported as a timeout if and only if the scheduler recorded a request timeout |
| SignalingTimers.FiringFailsExactly | src/call/signaling/engine.rs:611-645 | firing fails exactly when the transaction refuses the timer or an action of its answer fails |
| SignalingTimers.KindsDiffer | src/call/signaling/timer.rs:26-41 | the scheduler's kinds tell the seven timers of a transaction apart |
| SignalingTimers.DeadlineHasTimer | src/call/signaling/engine.rs:611-645 | a pending transaction deadline always belongs to an armed timer, so the lookup cannot miss |
| SignalingTimers.LastActionDecides | src/call/signaling/engine.rs:647-745 | after a successful list each timer is as the last action that mentions it says, and untouched otherwise |
| SignalingTimers.ListFailsExactly | src/call/signaling/engine.rs:647-745 | an action list fails if and only if some action cannot be carried out after all before it succeeded, and with that action's error: failed send, table full, time overflow, scheduler refusal, failed completion |
| SignalingTimers.ListFailsAtFirst | src/call/signaling/engine.rs:647-745 | a failing list leaves what the actions up to and including the first failing one did |
| SignalingTimers.ExecuteSparesOtherOwners | src/call/signaling/engine.rs:647-745 | deadlines of other owners are never disturbed |
| SignalingTimers.TerminateLeavesNothing | src/call/signaling/engine.rs:1078-1088 | a terminated transaction leaves no timer in table or scheduler, and all others stay |
| SignalingTimers.CallCancelKeepsInStep | src/call/execution/runtime.rs:687-690 | cancelling an identifier from outside keeps agreement if and only if it is no transaction deadline |
| SignalingTimers.CallScheduleKeepsInStep | src/call/execution/deadline.rs:153-191 | scheduling a deadline of the call itself keeps agreement |
| SignalingTimers.StepKeepsInStepExactly | src/call/execution/runtime.rs:687-765 | an event of the call's loop, any cancel from outside included, keeps agreement if and only if it does not cancel a transaction deadline from outside |
| SignalingTimers.EveryRunStaysInStepExactly | src/call/execution/runtime.rs:687-765 | in every state of a run from a new call the table's identifiers are exactly the pending transaction deadlines, one per token and timer, at most 384, if and only if the run never cancels one of them from outside |
| SignalingTimers.OwnCancelsAreHarmless | src/call/execution/runtime.rs:670-690 | a call that cancels only identifiers its own scheduling handed out never breaks the agreement, however late it cancels |
| SignalingTimers.FirstOwnDeadline | src/call/execution/deadline.rs:153-191 | the first deadline any call schedules for itself gets identifier 1 |
| SignalingTimers.ForeignCancelBreaksAgreement | src/call/execution/runtime.rs:687-690 | a run that cancels identifier 1, as another call was handed it, after arming its first timer, and no longer agrees |
| SignalingTimers.SwapRemoveLists | src/call/signaling/engine.rs:1045-1088 | removal by swapping the last element in keeps the table a listing of the remaining timers |
| SignalingTimers.TimerTable.CancelTimer | src/call/signaling/engine.rs:1045-1076 | drops exactly that timer from table and scheduler |
| SignalingTimers.TimerTable.CancelToken | src/call/signaling/engine.rs:1078-1088 | drops exactly the token's timers although elements move while the loop runs |
| SignalingTimers.TimerTable.ArmTimer | src/call/signaling/engine.rs:693-745 | replaces a running timer, schedules the new one, or reports table or scheduler exhaustion |
| SignalingTimers.TimerTable.ExecuteActions | src/call/signaling/engine.rs:647-745 | runs an action list in place as specified and reports delivery or the first error |
| SignalingTimers.TimerTable.OnDeadline | src/call/signaling/engine.rs:611-645 | fires the timer that has this identifier, applies the transaction's answer and reports a request timeout; without such a timer nothing happens |
| SignalingTimers.TimerTable.PollDeadline | src/call/execution/runtime.rs:714-765 | hands out the earliest due deadline exactly when one is due, is one poll step of a run, and reports a timeout exactly for a recorded request timeout |
| SignalingTimers.TimerTable.ProcessDueDeadlines | src/call/execution/runtime.rs:714-765 | the loop is a run of polls of at most 64 deadlines, each the earliest of its time, going on after every one but the last and ending drained, full, on a finished call or on the first error |
| SignalingTimers.CycleEndsExactly | src/call/execution/runtime.rs:714-765 | which deadlines end the loop: owners it does not serve, unknown kinds, failures and a finished call, each if and only if |
| SignalingTimers.PollRunStaysInStep | src/call/execution/runtime.rs:714-765 | such a cycle keeps agreement, however it ends |
| Forks.ForkSet.Find | src/call/model/branch.rs:155-166 | finds the branch if and only if it is known |
| Forks.ForkSet.Upsert | src/call/model/branch.rs:155-166 | records the newest state of a known branch, adds a new one, or refuses exactly the seventeenth |
| Forks.ForkSet.HasLiveBranches | src/call/model/branch.rs:137-141 | true exactly when some known branch is not terminated |
| Lifecycle.EmissionsAccount | src/call/model/lifecycle.rs:105-228 | what one input emits of ACK and BYE: an ACK exactly for a 2xx taken, and for that branch a BYE unless it is selected |
| Lifecycle.EveryRunIsSound | src/call/model/lifecycle.rs:54-79 | on every run invite, cancel, selection and end occur at most once, the end is last, every 2xx taken is acknowledged, every answered branch but the carried one is sent BYE, and no BYE precedes its ACK |
| Lifecycle.CleanUpIsComplete | src/call/model/lifecycle.rs:192-228 | a run that ends on a rejection or a completed BYE has sent ACK and BYE to every branch that answered and leaves none live |
| Lifecycle.RefusalChangesNothing | src/call/model/lifecycle.rs:192-213 | a refused event changes nothing but the remembered final status, and that only when the branch limit refuses a rejection |
| Lifecycle.SelectedBranchIsNeverMissing | src/call/model/lifecycle.rs:105-141 | the internal error for an established call without a branch is unreachable |
| Lifecycle.DecisionsStand | src/call/model/lifecycle.rs:161-190 | a selection never changes, a cancel request rules out later selection, and an ended call is frozen |
| LifecyclePast.CallIsItsPast | src/call/model/lifecycle.rs:54-244 | on every run state, branches, selection, cancellation, final status and everything emitted are what the inputs taken so far say: which of hang-up and answer came first, the newest word on each branch, and whether something ended the call |
| LifecyclePast.RefusedAlike | src/call/model/lifecycle.rs:54-228 | an event is refused, and with which error, exactly as its past says |
| LifecyclePast.FirstAnswerCarries | src/call/model/lifecycle.rs:182-185 | unless a hang-up came first, the first branch to answer is the selected one, on every run |
| LifecyclePast.CarrierIsByedOnHangup | src/call/model/lifecycle.rs:124-132 | the selected branch is sent BYE only if the established call was hung up |
| Lifecycle.CallLifecycle.Handle | src/call/model/lifecycle.rs:54-79 | dispatches every event in place as specified |
| Lifecycle.CallLifecycle.OnCommand | src/call/model/lifecycle.rs:105-141 | start, cancel and hang up in place |
| Lifecycle.CallLifecycle.OnProvisional | src/call/model/lifecycle.rs:143-159 | provisional responses in place |
| Lifecycle.CallLifecycle.OnAccepted | src/call/model/lifecycle.rs:161-190 | final success in place, late and competing branches included |
| Lifecycle.CallLifecycle.OnRejected | src/call/model/lifecycle.rs:192-213 | final failure in place, ending the call only when no branch is live |
| Lifecycle.CallLifecycle.OnByeCompleted | src/call/model/lifecycle.rs:215-228 | completed BYE in place |
| Lifecycle.CallLifecycle.End | src/call/model/lifecycle.rs:230-233 | ends the call once |
| Lifecycle.CallLifecycle.ForceEnd | src/call/model/lifecycle.rs:238-244 | ends a call from outside, once |
| Framing.DatagramAgreesWithStream | src/sip/framing.rs:317-353 | whenever the stream reading completes at offset 0 the datagram reading yields the same message and body |
| FramingStream.CompleteIsStable | src/sip/framing.rs:283-315 | a complete message stays complete with the same boundary whatever follows |
| FramingStream.RequiredTotalIsExact | src/sip/framing.rs:283-315 | a required total is exact: fewer bytes still ask for it, that many or more complete the message |
| FramingStream.ErrorIsFinal | src/sip/framing.rs:371-458 | a refusal is withdrawn only at the brim of a full line and only by its LF |
| FramingStream.OneByteEarly | src/sip/framing.rs:530-548 | the concrete start line of 8192 bytes that is refused one byte before it is accepted |
| FramingStream.PrefixesWaitExactly | src/sip/framing.rs:371-458 | every strict prefix of a message asks for more if and only if none of its header lines has the full 8192 bytes |
| FramingStream.FramingComposes | src/sip/framing.rs:251-275 | framing a prefix early takes out exactly what framing the whole input takes out first |
| FramingStream.PiecesDoNotShow | src/sip/framing.rs:251-275 | while nothing is refused, the result does not depend on how the stream was cut |
| FramingStream.RunFrames | src/sip/framing.rs:251-315 | messages back to back frame as exactly those messages with nothing left |
| FramingStream.MessagesSurviveAnyCut | src/sip/framing.rs:251-315 | under every cutting of the stream the receiver gets exactly the messages, in order |
| FramingBrim.RefusalsAreFinalExactly | src/sip/framing.rs:371-548 | a refused prefix stays refused under every continuation if and only if it is not one LF short of a non-blank start line and admissible header lines within the header limit, the last of full length |
| FramingBrim.RefusalEndsTheStream | src/sip/framing.rs:251-275 | after such a final refusal no continuation changes the messages taken before it |
| FramingBrim.CutsDoNotShow | src/sip/framing.rs:251-275 | refused or not, the messages taken do not depend on how the stream was cut, unless a cut falls right before the LF of a full line |
| FramingHeaders.PushConcatenates | src/sip/framing.rs:596-647 | feeding a folded value piece by piece is feeding the unfolded value |
| FramingHeaders.LengthIsDecimal | src/sip/framing.rs:596-647 | the parser yields n if and only if the value is one decimal number n between blanks that fits the machine word |
| FramingHeaders.FoldIsFields | src/sip/framing.rs:371-458 | header lines pass the scan if and only if they form fields of which none is refused |
| FramingHeaders.FinalizeCloses | src/sip/framing.rs:460-474 | closing the open value gives exactly what the fields so far declare |
| FramingHeaders.SplitIsExact | src/sip/framing.rs:476-492 | a line splits into name and value if and only if it is a token, blanks, a colon and that value; the errors tell a missing colon from a bad name |
| FramingHeaders.LengthNames | src/sip/framing.rs:584-586 | the names of the length field: content-length or l, in any case |
| FramingHeaders.ScanIsExact | src/sip/framing.rs:371-492 | the scan accepts a header section if and only if it is a start line, folded header fields within the limits with at most one Content-Length or l, and the first empty line, and reports its size and declared length |
| FramingMessages.StreamCompletesExactly | src/sip/framing.rs:283-315 | a stream is complete with a boundary if and only if after the keep-alive CRLFs it holds a header section declaring that body, the body is within its limit and all of it is there |
| FramingMessages.StreamAsksExactly | src/sip/framing.rs:283-315 | a stream asks for a total if and only if its header section declares a body within the limit that ends there and is not all there |
| FramingMessages.AMessage | src/sip/framing.rs:251-315 | one message written out in bytes, with its boundary, whatever follows |
| FramingMessages.DatagramCompletesExactly | src/sip/framing.rs:317-353 | a datagram is complete if and only if it holds a header section and its declared body, or no declared length and then all that is left, within the limits |
| FramingMessages.SkipsPairs | src/sip/framing.rs:566-574 | only CRLF pairs are skipped, and every one of them |
| FramingErrors.PushFailsExactly | src/sip/framing.rs:612-638 | a Content-Length value fails with overflow or as invalid exactly at the first byte that does not fit |
| FramingErrors.LineFaultIsExact | src/sip/framing.rs:401-456 | a header line is refused, and with which error, exactly for the first thing wrong with it after the fields before |
| FramingErrors.ScanFailsExactly | src/sip/framing.rs:371-458 | the scan fails with an error if and only if after whole admissible lines that is the first fault: a stray CR or LF, a line or section too long, or a faulty line |
| FramingErrors.StreamRefusedExactly | src/sip/framing.rs:251-353 | a stream is refused with an error if and only if that is its first fault, or its body is undeclared or too large |
| FramingErrors.StreamWaitsExactly | src/sip/framing.rs:251-275 | a stream waits without a total if and only if it has neither a fault nor a whole header section |
| FramingErrors.DatagramRefusedExactly | src/sip/framing.rs:317-353 | a datagram is refused with an error if and only if that is its first fault, its header section is unended, or its body is missing or too large |
| FramingScanner.SkipStreamPrefix | src/sip/framing.rs:566-574 | the loop skips exactly the leading CRLF pairs |
| FramingScanner.FindEnd | src/sip/framing.rs:502-528 | the loop finds the first line end or the stray CR or LF before it |
| FramingScanner.TrimEnd | src/sip/framing.rs:576-582 | the loop removes exactly the trailing blanks |
| FramingScanner.Split | src/sip/framing.rs:476-492 | splits a line in place as FramingHeaders.SplitIsExact describes, or reports which part is wrong |
| FramingScanner.ContentLengthParser.PushAll | src/sip/framing.rs:612-638 | the parser loop computes the specified fold or its first error |
| FramingScanner.HeaderScanner.FinalizeContentLength | src/sip/framing.rs:460-474 | closes the open parser in place |
| FramingScanner.HeaderScanner.HeaderLine | src/sip/framing.rs:435-456 | takes one header line in place, in the source's order of checks |
| FramingScanner.HeaderScanner.ContinuationLine | src/sip/framing.rs:422-433 | takes one folded line in place |
| FramingScanner.ScanHeaders | src/sip/framing.rs:371-458 | the scanning loop computes the specified scan, or reports truncation of a datagram |
| FramingScanner.InspectBytes | src/sip/framing.rs:251-275 | the whole inspection over the loops is the specified decision |
| TelephoneEvents.ParseEncoded | src/rtp/dtmf/event.rs:184-242 | encoding then parsing returns the event if and only if its code is not an Other that names a known code |
| TelephoneEvents.EncodeParsed | src/rtp/dtmf/event.rs:304-312 | every accepted payload is reproduced byte for byte |
| TelephoneEvents.ParsesExactly | src/rtp/dtmf/event.rs:184-242 | a payload parses as an event if and only if its four bytes are the code, end bit, clear reserved bit, volume and duration; each error if and only if |
| DtmfSending.RunOf | src/rtp/dtmf/sender.rs:228-295 | every run of one event is a train: marker only on the first packet, durations that grow until the first end packet and then repeat, exactly the configured number of end packets unless aborted |
| DtmfSending.RunIsExact | src/rtp/dtmf/sender.rs:228-295 | every packet of every unaborted run written out: durations are whole packets up to the ceiling, the first end packet is the one after the first request to end or the one at the ceiling, and it is sent the configured number of times |
| DtmfSending.AbortIsFinal | src/rtp/dtmf/sender.rs:298-305 | an aborted event sends nothing more |
| DtmfSending.PacketExtendsTrain | src/rtp/dtmf/sender.rs:244-295 | the next packet of any reachable sender state extends the train |
| DtmfSending.PacketReaches | src/rtp/dtmf/sender.rs:244-295 | the state after a packet is again reachable, or the event is over after exactly the configured end packets |
| DtmfSending.DtmfSender.Start | src/rtp/dtmf/sender.rs:204-221 | starts an event unless one is active |
| DtmfSending.DtmfSender.RequestEnd | src/rtp/dtmf/sender.rs:228-237 | freezes the duration in place or reports that nothing is active |
| DtmfSending.DtmfSender.NextPacket | src/rtp/dtmf/sender.rs:244-295 | emits the specified packet and moves to the specified state, counting a completion |
| DtmfSending.DtmfSender.Cancel | src/rtp/dtmf/sender.rs:298-305 | drops the active event and says whether there was one |
| DtmfReceiving.DeliveryTracks | src/rtp/dtmf/receiver.rs:253-321 | over any arrivals of one sender's event the receiver opens and completes it at most once, exactly when it is completable, with the sender's duration |
| DtmfReceiving.ReceptionIsExact | src/rtp/dtmf/receiver.rs:253-321 | over any packets of one event in any order the receiver holds the first of the longest packets since the opening, or the one that ended it, and answers each arrival as started, continued with its own duration, duplicate, regressed or ended by how it compares with those before it |
| DtmfReceiving.NewerEventsReplace | src/rtp/dtmf/receiver.rs:164-201 | between events: older packets are stale, another code is refused, and a newer packet that may open an event starts afresh, replacing an unfinished one; each if and only if |
| DtmfReceiving.ExactlyOnce | src/rtp/dtmf/receiver.rs:164-321 | for every sender run and every loss, duplication and reordering of its packets the event completes exactly once if it is completable and never otherwise, with the sender's final duration; without a marker requirement one end packet is enough |
| DtmfReceiving.CompletionIsCounted | src/rtp/dtmf/receiver.rs:297-350 | a completion is counted exactly when it happens and reported as ended unless its first packet seen interrupts another event |
| DtmfReceiving.InterruptingEndIsReplaced | src/rtp/dtmf/receiver.rs:323-350 | two delivered packets whose second completes an event, is counted, and is answered as a replacement |
| DtmfReceiving.CompletionsClimb | src/rtp/dtmf/receiver.rs:164-357 | within half the circle the completed start timestamps climb |
| DtmfReceiving.HighWaterNeverFalls | src/rtp/dtmf/receiver.rs:164-357 | the high-water start timestamp never moves back |
| DtmfReceiving.NoStartCompletesTwice | src/rtp/dtmf/receiver.rs:164-357 | within half the circle, its far end included, no start timestamp completes twice, whatever arrives in whatever order |
| DtmfReceiving.JustBeyondHalfAnEventRepeats | src/rtp/clock.rs:197-199 | one step past half the circle, end packets at 0, 2, 2^31 + 1 and 0 complete timestamp 0 twice |
| DtmfReceiving.WidthIsExact | src/rtp/dtmf/receiver.rs:164-357 | for every width: no arrivals whose timestamps spread that far from any base complete a start timestamp twice if and only if the width is at most half the circle |
| DtmfReceiving.DtmfReceiver.Observe | src/rtp/dtmf/receiver.rs:164-201 | observes in place as specified and counts packets, duplicates, stale ones and interruptions |
| DtmfReceiving.DtmfReceiver.ObserveActive | src/rtp/dtmf/receiver.rs:253-295 | continues, ends or refuses the active event in place |
| DtmfReceiving.DtmfReceiver.StartOrRecover | src/rtp/dtmf/receiver.rs:297-321 | starts an event or completes it from its end packet alone |
| DtmfReceiving.DtmfReceiver.ReplaceActive | src/rtp/dtmf/receiver.rs:323-350 | interrupts the active event for a newer one |
| RtpTimestamps.SignedDistanceIsOffset | src/rtp/clock.rs:188-199 | within half the circle the wrapping signed distance is a true difference |
| RtpClock.TicksRoundTrip | src/rtp/clock.rs:79-101 | ticks to a duration and back succeeds and loses one tick exactly when the duration is not a whole number of nanoseconds |
| RtpClock.ConversionFailsExactly | src/rtp/clock.rs:79-101 | a duration converts to ticks if and only if they fit 64 bits |
| RtpClock.ProductFits | src/rtp/clock.rs:149-172 | the 128-bit product never overflows for an accepted rate |
| RtpClock.AdvanceFailsExactly | src/rtp/clock.rs:149-172 | an advance fails if and only if it would emit more ticks than 64 bits count; the arithmetic overflow error cannot be returned |
| RtpClock.DriftFree | src/rtp/clock.rs:149-183 | after any mix of advances, direct ticks and resets, emitted ticks and remainder account exactly for rate times the time elapsed since the last reset, and the timestamp is that reset's plus emitted plus added ticks modulo 2^32 |
| RtpClock.SplitDoesNotMatter | src/rtp/clock.rs:149-183 | two ways of splitting the same elapsed time and added ticks emit the same ticks and leave the same clock |
| RtpClock.OnlyTotalsMatter | src/rtp/clock.rs:149-183 | the clock is determined by its last reset and the totals since |
| RtpClock.ResetForgets | src/rtp/clock.rs:180-183 | clocks of one rate that are reset alike stay alike, whatever they did before |
| RtpClock.MediaClock.Advance | src/rtp/clock.rs:149-172 | advances in place as specified or changes nothing |
| Periodic.AdvanceIsExact | src/util/time.rs:115-146 | an advance succeeds if and only if due count and deadline are representable; it then counts exactly the grid instants that came and puts the deadline on the grid in (now, now + interval] |
| Periodic.OtherAnswers | src/util/time.rs:115-146 | a zero interval, a zero limit and an early poll are answered as such, each if and only if |
| Periodic.MulFits | src/util/time.rs:171-182 | the checked product succeeds exactly when it is a representable duration |
| Periodic.SplittingIsSafe | src/util/time.rs:115-146 | if one poll at the later time succeeds, polling at both gives the same deadline and total |
| Periodic.JoiningIsSafeExactly | src/util/time.rs:115-146 | if both polls succeed, one does exactly when the total due fits 64 bits, with the same result |
| Periodic.OnePollOverflows | src/util/time.rs:115-146 | two polls a nanosecond apart succeed where the one poll at the later time overflows |
| Periodic.ProcessKeepsGrid | src/call/execution/runtime.rs:1063-1083 | one poll of the media clock passes exactly the grid instants that came, plays at most eight of them and skips the rest, or fails exactly on overflow and changes nothing |
| Periodic.GridIsKept | src/call/execution/runtime.rs:1063-1083 | over any run of polls the deadline stays on its grid, and ticks played and skipped are the sums, poll by poll, of the instants that came |
| OpaqueIds.ValueIsAffine | src/util/id.rs:104-110 | wrapping at 64 bits on the way does not change the low 63 bits |
| OpaqueIds.ValuesAreDistinct | src/util/id.rs:88-127 | an odd multiplier is injective modulo 2^63, so different counters give different identifiers |
| OpaqueIds.EveryRunIsCounted | src/util/id.rs:88-119 | in every interleaving of threads with spurious failures the i-th identifier issued belongs to counter i and the counter counts them |
| OpaqueIds.IdentifiersAreUnique | src/util/id.rs:88-119 | no identifier is issued twice and none is zero |
| OpaqueIds.UndisturbedCallReturns | src/util/id.rs:88-119 | an allocation that nobody disturbs returns exactly the next identifier, or exhaustion if there is none |
| OpaqueIds.TwoRoundsAreEnough | src/util/id.rs:88-119 | wherever an allocation stands, two rounds without interference are enough for it to return |
| OpaqueIds.ExhaustionIsPermanent | src/util/id.rs:88-119 | exhaustion is reported only after all 2^63 - 1 counters were issued and nothing is issued afterwards |
| OpaqueIds.FreshIdentifier | src/util/id.rs:88-119 | the next identifier was never issued before |
| OpaqueIds.IdGenerator.constructor | src/util/id.rs:121-127 | any two random words make a generator with an odd multiplier and a masked offset |
| OpaqueIds.IdGenerator.Allocate | src/util/id.rs:88-119 | the compare-and-exchange loop issues the next identifier after any number of spurious failures |
| CallRegistry.SpawnKeepsSound | src/call/execution/manager.rs:111-139 | a spawned token has a generation never issued before, verifies, and keeps the registry sound; a failed thread still spends one |
| CallRegistry.SpawnSucceedsExactly | src/call/execution/manager.rs:111-139 | a spawn succeeds if and only if admission is open, the call is new, and room, a generation and a thread are there; each refusal if and only if |
| CallRegistry.RegistryFills | src/call/execution/manager.rs:111-139 | a registry takes as many new calls as there is room for |
| CallRegistry.OperationKeepsSound | src/call/execution/manager.rs:111-307 | every operation keeps the registry within capacity with distinct issued generations, and dead tokens dead |
| CallRegistry.StaleTokensStayDead | src/call/execution/manager.rs:346-355 | a token that no longer names its call never verifies again in any run, reuse of its call id included |
| CallRegistry.RemovedTokenNeverVerifies | src/call/execution/manager.rs:218-226 | removing a call kills its token for good |
| CallRegistry.SpawnedTokensDiffer | src/call/execution/manager.rs:111-139 | no generation is handed out twice in any run |
| CallRegistry.ShutdownIsFinal | src/call/execution/manager.rs:275-307 | once admission stops, no run admits another call |
| CallRegistry.ReapConserves | src/call/execution/manager.rs:243-267 | with successful joins a reap reports each finished call once, in order, and removes exactly those |
| CallRegistry.ReapStopsAtFirst | src/call/execution/manager.rs:243-267 | a reap stops at the first call that cannot be joined, which is gone too, or that is not there, and leaves the later ones |
| CallRegistry.TokensAreTold | src/call/execution/manager.rs:218-226 | a token is current, of an unknown call, or stale, each if and only if; only a current one removes its call, whether or not the join succeeds |
| CallRegistry.AdmissionStops | src/call/execution/manager.rs:305-307 | once a shutdown has begun no run admits another call |
| CallRegistry.CallManager.New | src/call/execution/manager.rs:80-98 | accepts exactly the capacities from 1 to 1000000 and starts empty and accepting |
| CallRegistry.CallManager.Spawn | src/call/execution/manager.rs:111-139 | refuses in the source's order or registers the new token |
| CallRegistry.CallManager.VerifyToken | src/call/execution/manager.rs:346-355 | tells unknown calls from stale tokens |
| CallRegistry.CallManager.Remove | src/call/execution/manager.rs:218-226 | removes exactly a verified call, whether or not its join succeeds |
| CallRegistry.CallManager.ReapFinishedReports | src/call/execution/manager.rs:243-267 | the loop joins in collection order and stops at the first failing join |
| CallRegistry.CallManager.JoinAll | src/call/execution/manager.rs:288-301 | joins every drained handle and returns all reports or the failure |
| CallRegistry.CallManager.ShutdownEverything | src/call/execution/manager.rs:275-302 | empties the registry before joining and closes admission |
| CallRegistry.CallManager.BeginShutdown | src/call/execution/manager.rs:305-307 | closes admission and changes nothing else |
| Notifications.EnqueueKeepsSound | src/runtime/service.rs:422-439 | every attempt is popped, queued or counted as dropped, and what is delivered keeps the order offered |
| Notifications.PopKeepsSound | src/runtime/service.rs:284-286 | popping only moves the oldest notification to the observer |
| Notifications.RoomIsMadeExactly | src/runtime/service.rs:422-439 | with room everything is queued; without, a terminal notification takes the place of the oldest ordinary one and anything else is dropped; exactly the losses are counted |
| Notifications.TerminalLostExactly | src/runtime/service.rs:422-439 | a terminal notification is lost if and only if the queue is full of terminal ones |
| Notifications.TerminalsLostExactly | src/runtime/service.rs:422-439 | over every run the terminal notifications offered are those popped, those queued and those refused by a queue full of terminal ones |
| Notifications.OrdinarySparesTerminals | src/runtime/service.rs:422-439 | an ordinary notification never pushes out a terminal one |
| Notifications.SubsequenceOrdered | src/runtime/service.rs:422-439 | sequence numbers that increase per call as offered increase as delivered |
| Notifications.NotificationQueue.Enqueue | src/runtime/service.rs:422-439 | enqueues in place, searching for the first ordinary notification when full |
| Notifications.NotificationQueue.Next | src/runtime/service.rs:284-286 | pops the oldest in place |
| Shutdown.ShutdownCoordinator.Begin | src/runtime/shutdown.rs:81-98 | begins once in place or reports why not |
| Shutdown.ShutdownCoordinator.Poll | src/runtime/shutdown.rs:105-131 | polls in place as specified |
| Shutdown.GraceIsKept | src/runtime/shutdown.rs:81-131 | over any polls within the grace period active calls are left alone; the first poll after it forces them, and the first that finds none completes |
| Shutdown.BeginsOnce | src/runtime/shutdown.rs:81-98 | a shutdown begins if and only if it has not begun and its grace period is positive and ends at a time |
| RuntimeService.DialKeepsSound | src/runtime/service.rs:145-174 | a dial adds one call known to service and registry alike and offers its first notification with number 1 |
| RuntimeService.DialSucceedsExactly | src/runtime/service.rs:145-174 | a dial succeeds if and only if the call is neither active nor retained, there is room for its outcome, and admission, preparation, generation, thread and first command are there |
| RuntimeService.DialSpends | src/runtime/engine.rs:130-164 | a dial spends a generation if and only if it gets as far as the thread, whether or not it succeeds |
| RuntimeService.FailedDialKeepsSound | src/runtime/engine.rs:130-164 | a failed dial, a failed first command included, leaves nothing but a spent generation |
| RuntimeService.PublishAllKeepsSound | src/runtime/service.rs:371-420 | publishing numbers actions upward as far as 64 bits go, leaves every other call alone, and fails exactly when the numbers run out |
| RuntimeOffers.PublishAllOffers | src/runtime/service.rs:371-383 | every action is offered under the next number, in order, until the numbers run out |
| RuntimeOffers.PumpOffers | src/runtime/service.rs:209-251 | a pump offers exactly, call by call, the queued actions numbered onwards and each exit after its call's actions, up to the first call without numbers |
| RuntimeService.FinishKeepsSound | src/runtime/service.rs:385-408 | finishing a joined call never fails and moves it from active to retained |
| RuntimeService.PumpKeepsSound | src/runtime/service.rs:209-251 | a pump fails if and only if what waits at some call would use up its sequence numbers; failing or not it moves to retained exactly the calls with an exit before the first such call and keeps everything sound |
| RuntimeService.PollShutdownKeepsSound | src/runtime/service.rs:314-338 | a shutdown poll in a begun shutdown at a time not before the last never fails, and every joined call is finished and retained |
| RuntimeService.FailedPollForgets | src/runtime/engine.rs:274-298 | a shutdown poll fails if and only if the shutdown has not begun or time has moved back, and by then the registry has forgotten the finished calls that the service still holds |
| RuntimeService.ForgottenCallsAreStuck | src/runtime/service.rs:209-251 | after that service and registry agree if and only if nothing had finished, and a pump reports each forgotten call as unknown |
| RuntimeExhaustion.ACallIsForgotten | src/runtime/service.rs:314-338 | one dial, one finished call and one poll before the shutdown begins reach that state |
| RuntimeService.EnginePollIs | src/runtime/engine.rs:274-298 | the engine's poll joins the finished calls, and all others exactly when it forces |
| RuntimeService.PumpRetains | src/runtime/service.rs:209-251 | every call a pump ends, failing later or not, leaves its report, and no earlier outcome is lost or overwritten |
| RuntimeService.PollShutdownRetains | src/runtime/service.rs:314-338 | every call a shutdown poll joins leaves its report, and no earlier outcome is lost or overwritten |
| RuntimeService.DeliveryIsOrdered | src/runtime/service.rs:410-439 | per call, popped then queued notifications carry strictly increasing numbers, and attempts are popped plus queued plus dropped |
| RuntimeService.TakeKeepsSound | src/runtime/service.rs:279-281 | acknowledging an outcome frees its place and nothing else |
| RuntimeWorker.DialConserves | src/runtime/worker.rs:103-121 | a dial through the worker keeps calls conserved |
| RuntimeWorker.BeginShutdownConserves | src/runtime/worker.rs:209-224 | beginning a shutdown keeps worker, coordinator and registry phases in step |
| RuntimeWorker.BeginShutdownOpensGrace | src/runtime/worker.rs:209-224 | a shutdown begins if and only if the worker is ready, time has not moved back and the grace period ends at a time, which is then the deadline |
| RuntimeWorker.PollConserves | src/runtime/worker.rs:226-274 | a poll fails exactly for time moving back, a full poll counter or an exhausted sequence; the first two change nothing, and the third loses from the count exactly the calls that ended before the exhausted one, with everything else sound |
| RuntimeWorker.DrainedConserves | src/runtime/worker.rs:248-270 | a draining poll stops the worker if and only if no call is left, forces out the rest exactly once the grace period is over, and counts finished and forced calls |
| RuntimeExhaustion.AMiscountIsReachable | src/runtime/worker.rs:243-247 | from any new worker for at least two calls, a run that ends with two calls started, one active, none completed and one lost |
| RuntimeWorker.EveryRunIsSound | src/runtime/worker.rs:103-274 | on every run from a new worker, exhausted polls included, service and registry hold the same tokens, active plus retained stays within capacity, notifications stay ordered and phases agree; started equals completed plus active plus the calls lost to exhausted polls, so the counters are right if and only if none was lost |
| RuntimeWorker.DeadlinePoll | src/runtime/worker.rs:226-274 | a poll at or past the deadline forces every call out if and only if it meets no exhausted sequence |
| RuntimeWorker.TwoPollsStop | src/runtime/worker.rs:226-274 | a poll at or past the deadline that meets no exhausted sequence, and one more, reach Stopped |
| RuntimeWorker.OutcomesStay | src/runtime/worker.rs:182-184 | a retained outcome stays as it is through every operation, failing ones included, until it is taken |
| RuntimeObjects.ProcessService.Dial | src/runtime/service.rs:145-174 | dials in place through the engine's admission, preparation, spawn and first command |
| RuntimeObjects.ProcessService.PublishAction | src/runtime/service.rs:371-383 | numbers and enqueues one action in place |
| RuntimeObjects.ProcessService.FinishCall | src/runtime/service.rs:385-408 | finishes one call in place |
| RuntimeObjects.ProcessService.PublishBatches | src/runtime/service.rs:218-231 | the nested loops publish at most 64 batches in order |
| RuntimeObjects.ProcessService.PumpOne | src/runtime/service.rs:215-244 | one call of a pump in place |
| RuntimeObjects.ProcessService.Pump | src/runtime/service.rs:209-251 | the pump loop in place with its count of completed calls |
| RuntimeObjects.ProcessService.TakeTerminalOutcome | src/runtime/service.rs:279-281 | returns and forgets the outcome |
| RuntimeObjects.ProcessService.NextNotification | src/runtime/service.rs:284-286 | pops the oldest notification through the queue |
| RuntimeObjects.ProcessService.BeginShutdown | src/runtime/engine.rs:255-262 | begins the shutdown and closes admission, or changes nothing |
| RuntimeObjects.ProcessService.JoinCalls | src/runtime/engine.rs:274-298 | the engine's poll in place |
| RuntimeObjects.ProcessService.PollShutdown | src/runtime/service.rs:314-338 | the service's poll in place, finishing completed then forced calls |
| RuntimeObjects.ProcessWorker.Dial | src/runtime/worker.rs:103-121 | dials in place and counts the call |
| RuntimeObjects.ProcessWorker.BeginShutdownAt | src/runtime/worker.rs:209-224 | begins the shutdown in place |
| RuntimeObjects.ProcessWorker.PollAt | src/runtime/worker.rs:226-274 | polls in place: pump, shutdown poll, counters, phase and clock |
| HeaderExtension.ValidatorIsExact | src/rtp/packet/extension.rs:329-407 | the validators accept exactly the layouts of padding and at most 256 elements with an optional reserved trailer, and count the elements |
| HeaderExtension.LaidOutIsRendered | src/rtp/packet/extension.rs:329-407 | such a layout is the concatenation of its rendered items and trailer |
| HeaderExtension.LayoutIterates | src/rtp/packet/extension.rs:253-302 | the iterator yields exactly the elements of the layout |
| HeaderExtension.IteratorAgrees | src/rtp/packet/extension.rs:253-302 | on accepted data the iterator never splits out of range and yields exactly the validated count |
| HeaderExtension.ParseEncoded | src/rtp/packet/extension.rs:107-145 | parsing an encoded extension, whatever follows, returns it and its length |
| HeaderExtension.EncodeParsed | src/rtp/packet/extension.rs:223-230 | encoding a parsed extension returns the consumed bytes |
| HeaderExtension.OpaqueIsValid | src/rtp/packet/extension.rs:154-165 | the opaque constructor makes extensions that parsing would accept, with no elements |
| ExtensionErrors.ValidatorFailsExactly | src/rtp/packet/extension.rs:329-407 | the validators fail with an error if and only if after well-formed items that is the first fault: data after the reserved identifier, half a header, an element longer than the rest, or the 257th |
| ExtensionErrors.IteratesExactly | src/rtp/packet/extension.rs:253-302 | on any data the iterator yields exactly the elements of its leading items, and splits out of range if and only if an element then overruns what is left |
| ExtensionErrors.ParsesExactly | src/rtp/packet/extension.rs:107-145 | a block is accepted if and only if it is a preamble in network byte order and as much data as that says, within the bound and well formed for the profile |
| ExtensionErrors.ParseFailsExactly | src/rtp/packet/extension.rs:107-145 | and refused, with which error, if and only if preamble or data are missing, too large or broken |
| ExtensionErrors.ProfilesAre | src/rtp/packet/extension.rs:304-314 | the profile for one-byte headers and the sixteen for two-byte headers |
| HeaderExtension.ValidateOneByte | src/rtp/packet/extension.rs:337-366 | the one-byte loop computes the specified validation |
| HeaderExtension.ValidateTwoByte | src/rtp/packet/extension.rs:368-394 | the two-byte loop computes the specified validation |
| HeaderExtension.ExtensionElementIter.Next | src/rtp/packet/extension.rs:253-302 | the iterator loop yields the next element, in range, or ends |
| RemoteSource.EveryRunIsBacked | src/rtp/source.rs:159-228 | in every run a candidate's count is backed by that many consecutive packets at the end of the log |
| RemoteSource.SourceChangesOnlyAfterProbation | src/rtp/source.rs:159-204 | a packet changes the active source only as the last of the required consecutive packets, and never where switching is not allowed |
| RemoteSource.ProbationIsEnough | src/rtp/source.rs:159-204 | that many consecutive packets are always enough where switching is possible |
| RemoteSource.TrackerIsItsLog | src/rtp/source.rs:159-228 | after any log the source listened to, the candidate and the answer to every packet are what the log says: the last authorization or clearing, and the length of the run of consecutive packets it ends with |
| RemoteSource.RemoteSourceTracker.Observe | src/rtp/source.rs:159-204 | observes in place and counts each outcome |
| RemoteSource.RemoteSourceTracker.AuthorizeSource | src/rtp/source.rs:210-222 | takes the signaled source, says whether it changed and counts it as a binding or a switch |
| RemoteSource.RemoteSourceTracker.ClearSource | src/rtp/source.rs:225-228 | forgets active source and candidate |

## Left out

- Mailbox: modelled on values, as atomic steps of a shared state; relaxed memory order, the high-water and rejection counters, the action queue towards the observer and the conversion of timeouts to milliseconds are not part of it.
- OpaqueIds: the concurrent allocator is modelled on values as atomic loads and exchanges; how random words are drawn is a parameter.
- Allocation failure of any reserve call is excluded throughout; no model operation has that error.
- Overflow arms on byte positions in framing and extensions cannot be reached for slices in memory and are not modelled.
- RuntimeService: native joins succeed and every hash map iteration order is allowed; failing joins are modelled in the registry only. Admission leases and dial preparation are outcomes chosen by the environment, and commands to a call and status snapshots are not modelled.
- RuntimeService: a retained exit is a number; its diagnostics are not modelled.
- Lifecycle: validation of branch identifiers is not modelled.
- TelephoneEvents: conversion of digits to and from ASCII is not modelled.
- SignalingTimers: what a transaction answers to a fired timer and what the call answers to a due deadline are any functions; message sending is an action without effect on timers. The signaling engine is taken as present, so its absence is no outcome of the loop over due deadlines.
- FramingScanner.HeaderScanner.TakeLine: after an error the scanner's fields are unspecified, because the source abandons them.
- FramingScanner.ContentLengthParser.PushAll: after an error the parser's fields are unspecified, because the source abandons them.
- Deadlines.DeadlineScheduler.Poll: the standard library's binary heap is modelled as a collection whose peek shows the least entry; its array is not modelled.
- Periodic: choosing the earliest of several optional deadlines is not modelled.
- HeaderExtension.ExtensionElementIter.Next: asked only while the remaining data is in range, which holds on accepted data; the source would abort otherwise.
- SIP message construction, digest retry, dialog routing and SDP negotiation.
- RTP sessions, media controllers, the port pool, sockets, polling system calls and thread creation.
- The PCMU codec, bounded queues, redirect and transfer trackers, whose properties are easy.
- Debug and display text, error classes and configuration getters.
