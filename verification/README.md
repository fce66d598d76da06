# A verified model of go-RCP's protocol core

go-RCP implements the OPEN Alliance TC18 Remote Control Protocol (v0.5.1_RC) over IEEE 1722.
This project models the parts of it that carry protocol state or protocol meaning, and proves
what they promise over every input, every run and every reachable state. `dafny verify dfyconfig.toml`
checks all of it.

| file | what it models |
|---|---|
| `Lifecycle.dfy`, `LifecycleProofs.dfy`, `Scheduling.dfy`, `DispatcherRuns.dfy`, `DispatcherLaws.dfy`, `Dispatcher.dfy` | the request dispatcher: ticket life cycle, readiness, priority order, cancellation, purge; the specification as functions, theorems over runs, and the object with its loops |
| `Request.dfy` | request kinds, sequencer registers, conditional, chained, timed, triggered and cancellation envelopes |
| `Fragment.dfy`, `FragmentRuns.dfy`, `Gateway.dfy` | splitting, keyed reassembly, whole runs of it, and reassembly in front of the dispatcher |
| `E2E.dfy`, `Watchdog.dfy` | the end-to-end safe point for any 32-bit checksum, and the request watchdog |
| `Wire.dfy`, `Acf.dfy`, `Bytes.dfy` | message descriptors, AVTPDU headers and multi-message frames |
| `Formats.dfy` | the octets of every format, written out |
| `Regmap.dfy` | the register map and its pointer-linked image |
| `Iseled.dfy`, `IseledPolynomial.dfy` | the bit-by-bit CRC-8, the frames it closes, and the CRC as polynomial division |
| `Ratelimit.dfy`, `Gpio.dfy`, `Words.dfy`, `Mdns.dfy`, `MdnsLaws.dfy` | token bucket, pin word with its trigger queue, DNS names and service announcements |

Code that changes state in place is a class or a method with a loop, and its `ensures` ties the new
state to a function of the old one. Those functions are what the theorems are about: a run is a
sequence of events folded over them, so a statement about runs is a statement about every
interleaving of calls.

How the outside world enters:

- The endpoint behind a dispatcher is any function from the log of effects so far, the requester and
  the message to a reply. A Pump takes the clock, the trigger counts and the safe-state verdicts of
  that moment as parameters.
- Each exported method of the source holds one lock from start to end, so it is one atomic step here.
  A dispatcher owns its sequencer registers.
- CRC32 is a parameter: every statement about the safe point holds for any function of the covered
  octets, and where a collision matters the statement says so.
- Time is an integer (a real in the rate limiter), and whether a requester is admitted or a
  configuration block is persisted is a parameter.

Where the code and its documentation part, the model follows the code and the difference is proved:

- `SequenceOverflowWraps` has no effect, because `lastSeq+1` already wraps in 32 bits, and a skipped
  number counts as a violation although "strictly increasing" would allow it
  (`Watchdog.RuleAgreesExactlyWhen`).
- The safe point covers the low octet of the bus id only, and not evt, hs, cs or the
  timestamp-valid bit (`E2E.CoverageIsExact`).
- Reassembly drops evt, hs, cs, the timestamp-valid bit and pad. So through the gateway a long
  message with a valid timestamp is read as an envelope, and a handler gets every request with evt
  zero: an OR write arrives as a set, a configuration write as data
  (`Gateways.GatewayKeepsMeaningExactlyWhen`, `Gateways.OrWriteBecomesSet`).
- `FinishProtected` refuses a message whose padding and checksum do not lie inside the last segment,
  although `Finish` followed by `Verify` accepts it (`FragmentRuns.ProtectedDelivery`).
- A segment arriving for a complete sequence is an error that keeps the sequence, while the comment
  on `Add` says that any error abandons it (`Fragment.RejectionKeepsExactlyWhen`).
- A sequencer cancellation is documented to clear every conditional ticket gated on its sequencer; it
  skips the safety ones, because it compares the full kind and not its base
  (`LifecycleProofs.GatedAgreesExactlyWhen`, `LifecycleProofs.SafetyCompoundSurvives`).
- A transaction cancellation is documented to clear the single ticket with its number; it clears all
  of them, other requesters' included (`LifecycleProofs.CancelTransactionClearsAll`).
- Register-map pointers and lengths are computed in sixteen bits, so large maps wrap
  (`Regmap.RoundTripExactlyWhenRepresentable`).

## Model

| member | source | states |
|---|---|---|
| DispatcherRuns.PumpIsPriorityRun | request/dispatcher.go:263-337 | One Pump equals the reference semantics "while any ready ticket is pending, run the one first by rank and arrival": same tickets, responses, handler log, registers and reported ids |
| Scheduling.SortedRunIsPriorityRun | request/dispatcher.go:319-336 | Running a batch once in sorted order, skipping what was cancelled on the way, equals re-choosing the least live ticket after every execution |
| Scheduling.ScheduleSorted | request/dispatcher.go:319-321 | The stable sort puts the ready tickets in (rank, arrival) order |
| Scheduling.SortedUnique | request/dispatcher.go:319-321 | There is only one list of the same tickets in that order |
| DispatcherLaws.BatchIsInOrder | request/kind.go:180-222 | In every Pump the batch has cancellations first, then triggered, timed, compound, compound-wait, chained and plain tickets, the older first within a kind |
| DispatcherLaws.EffectsAreInOrder | request/dispatcher.go:319-336 | In every Pump each effect of a ticket due earlier in that order precedes each effect of one due later |
| DispatcherLaws.BatchExactly | request/dispatcher.go:295-318 | The batch is exactly the pending tickets with an open gate, due if timed, and with fewer allowed older rivals than events if triggered |
| DispatcherLaws.AdmitExactly | request/dispatcher.go:130-158 | Access denied exactly without access; a bad envelope exactly for an admitted long message without valid timestamp whose body encodes no request; no safe-state check exactly for an encoded safety request without one; otherwise a queued ticket for the request as sent |
| DispatcherLaws.TicketsAreSubmitted | request/dispatcher.go:130-158 | In every run each ticket was issued by an admitted submission of that run, for its requester and message |
| DispatcherLaws.CallsAreSubmitted | request/dispatcher.go:433-464 | In every run each handler call stems from an admitted submission and carries its requester, bus, transaction, evt, read size and timestamp |
| DispatcherRuns.RunKeepsInv | request/dispatcher.go:130-158 | In every reachable state `order` is the strictly increasing list of exactly the live tickets, all below nextID, none is left executing, and no effect belongs to a pending, cancelled or purged ticket |
| DispatcherRuns.RunMovesForward | request/ticket.go:10-89 | Over any continuation of any run, states only move forward, a finalized response or error never changes, and the log only grows |
| DispatcherRuns.PumpReportsExactly | request/dispatcher.go:251-337 | The ids Pump returns are duplicate-free and exactly those that Pump finalized |
| DispatcherRuns.PumpTicket | request/dispatcher.go:263-337 | Across one Pump a ticket stays as it was or becomes Started, is finalized by its own execution, or is cancelled by a cancellation that ran in that Pump |
| DispatcherRuns.PumpEffects | request/dispatcher.go:492-560 | A Pump only extends the log, and each new effect belongs to a ticket of its batch that ends up executed |
| DispatcherRuns.ClearedNeverActs | request/dispatcher.go:566-593 | A ticket finalized by cancellation or purge has never called the handler or advanced a register, and never does later, even once forgotten |
| DispatcherRuns.EffectsPassTheGate | request/dispatcher.go:295-318 | Every effect of a Pump comes from a ticket pending before it, not before its target time, and for a safety ticket with the check configured and true for its requester |
| DispatcherRuns.RunEffectsPassTheGate | request/dispatcher.go:263-337 | In every run, each entry of the log was appended by one Pump of it, for a ticket then pending, due and, if a safety one, allowed by the gate of that Pump |
| DispatcherRuns.SafetyTicketsLeaveOnlySafely | request/dispatcher.go:535-614 | Any step that takes a safety ticket out of the pending set is a Pump in which it executed with its gate open, or was cleared by a CancelAll or a CancelTransaction with its number that executed there |
| DispatcherRuns.SafetyTicketsLeaveInAPump | request/dispatcher.go:263-337 | Over any continuation of any run, a safety ticket no longer pending left in one of its Pumps in one of those two ways |
| DispatcherRuns.PurgeIsExact | request/dispatcher.go:608-614 | The purge finalizes exactly the pending non-safety tickets and changes nothing else |
| DispatcherRuns.PumpFinalizesTheUnconditional | request/dispatcher.go:295-336 | Every pending non-safety ticket that is neither triggered nor timed is finalized by the next Pump |
| DispatcherRuns.UnreadyStaysPending | request/dispatcher.go:295-336 | A ticket outside the batch is finalized by that Pump only through cancellation |
| DispatcherRuns.CancelAllIsTotal | request/dispatcher.go:535-541 | If a CancelAll executes in a Pump, that Pump calls no handler, changes no register and leaves nothing pending |
| Scheduling.ReadyMember | request/dispatcher.go:295-318 | A ticket is ready exactly when it is started, its gate is open, its time has come, and fewer older competitors than its source's count are ahead of it |
| Scheduling.TriggerReleasesExactly | request/dispatcher.go:276-313 | Per source exactly min(count, waiting) tickets are released |
| Scheduling.OldestReleasedFirst | request/dispatcher.go:276-313 | If a younger competitor for a source is released, so is every older one |
| LifecycleProofs.RunOneStep | request/dispatcher.go:492-560 | One execution finalizes its ticket, moves the others only forward, and reports exactly the tickets it finalized; a ticket already finalized is skipped |
| LifecycleProofs.RunAllOk | request/dispatcher.go:322-336 | Over a whole batch every finalization is accounted for by an execution or by a cancelling ticket of the batch, and every effect by an executed ticket |
| LifecycleProofs.ChainRunsAPrefix | request/dispatcher.go:521-533 | A chain's handler calls are exactly segments 0..n-1 in order, n being the first failure or the end; each answer is the handler's own and only the last can be a failure |
| LifecycleProofs.ChainResponseDecodes | request/chained.go:115-164 | The response of a chained ticket decodes to one entry per attempted segment and the total, exactly when every answer fits its length field |
| LifecycleProofs.ConditionalOutcome | request/sequencer.go:113-124 | A conditional ticket acts exactly when its comparison, one of six on integers, holds of the register as found: the register then moves by the saturated step before the one handler call; otherwise nothing happens; the decoded response says which and the value left |
| LifecycleProofs.DirectOutcome | request/dispatcher.go:493-519 | A plain, triggered or timed ticket makes one call with its own control and body, and its outcome is the handler's message and error |
| LifecycleProofs.PerformCarriesRequest | request/dispatcher.go:453-464 | Every handler call carries the request's requester, kind, bus, transaction, evt, read size and timestamp |
| LifecycleProofs.OwnResponsesAnswer | request/dispatcher.go:466-482 | Every response that is not the handler's has the request's kind, bus and transaction, the response flag and the wrapped read and write bits, nothing else |
| LifecycleProofs.CancellationCounts | request/dispatcher.go:535-560 | A cancellation's response decodes to the number of other tickets it cleared, exactly when that fits sixteen bits |
| LifecycleProofs.ClearedIdsMembers | request/dispatcher.go:581-593 | A sweep finalizes exactly the pending tickets its selector picks, itself excepted |
| LifecycleProofs.GatedAgreesExactlyWhen | request/kind.go:64-69 | The sequencer cancellation picks what its documentation says if and only if the ticket is not a safety one gated on that sequencer |
| LifecycleProofs.CancelSequencerClearsExactly | request/dispatcher.go:548-554 | It finalizes exactly the pending non-safety tickets gated on its sequencer and leaves every other ticket as it was |
| LifecycleProofs.SafetyCompoundSurvives | request/dispatcher.go:548-554 | A concrete family: a pending safety Compound on the very sequencer is left alone |
| LifecycleProofs.CancelTransactionClearsAll | request/dispatcher.go:540-546 | It clears every other pending ticket with its number; the documented single ticket is right if and only if no two of them share it |
| LifecycleProofs.CancelTransactionReachesOthers | request/kind.go:59-62 | A concrete family: two requesters' tickets with one number are both cleared |
| Dispatching.Dispatcher.constructor | request/dispatcher.go:94-103 | A new dispatcher is the empty system every run starts from |
| Dispatching.Dispatcher.Submit | request/dispatcher.go:130-158 | Each refusal exactly in its case, in the order access, envelope, safe-state check, and then nothing changes; otherwise one queued ticket for that requester and message under the next id, with the request its body encodes |
| Dispatching.Dispatcher.FinalizeWhere | request/dispatcher.go:581-593 | The sweep loop finalizes under the given error exactly what the selector picks, and returns it in arrival order |
| Dispatching.Dispatcher.PurgeNonSafety | request/dispatcher.go:608-614 | The loop form of the purge; returns exactly the pending non-safety tickets |
| Dispatching.Dispatcher.RunSegments | request/dispatcher.go:521-533 | The chain loop equals the chain's specification: responses, failure and log |
| Dispatching.Dispatcher.Execute | request/dispatcher.go:492-534 | Executing any non-cancelling kind gives the specified response, error, registers and log |
| Dispatching.Dispatcher.RunTicket | request/dispatcher.go:322-336 | One turn of the batch equals the specified step, cancellations included |
| Dispatching.Dispatcher.StartQueued | request/dispatcher.go:267-274 | Every queued ticket is started and nothing else changes |
| Dispatching.Dispatcher.PollSources | request/dispatcher.go:276-293 | The sources asked are exactly the registered ones some started ticket waits on, each once, and the counts are theirs |
| Dispatching.Dispatcher.CollectReady | request/dispatcher.go:295-318 | The loop with its decreasing counts yields the specified ready list |
| Dispatching.Dispatcher.SortByRank | request/dispatcher.go:319-321 | An insertion loop yields the specified schedule |
| Dispatching.Dispatcher.Pump | request/dispatcher.go:263-337 | The whole Pump, loops and all, leaves the dispatcher the specification describes, returns its ids, and asks each source waited on exactly once |
| Dispatching.Dispatcher.RunBatch | request/dispatcher.go:322-336 | The execution loop equals the specified batch, and returns its ids |
| Dispatching.Dispatcher.Response | request/dispatcher.go:374-385 | Unknown and pending tickets are told apart; a finalized one gives its response and its error together |
| Dispatching.Dispatcher.Forget | request/dispatcher.go:403-417 | Only a finalized ticket is dropped, from the table and the order alike |
| Dispatching.Dispatcher.CountPending | request/dispatcher.go:421-431 | The count is the number of tickets not finalized |
| Request.SaturatingAdd | request/sequencer.go:66-79 | The exact sum when it fits 32 bits, otherwise the nearer end of the range |
| Request.ConditionalCodec | request/envelope.go:36-58 | Eleven octets decode to a condition exactly when they are its encoding |
| Request.SegmentsCodec | request/chained.go:26-81 | A segment list is accepted exactly when it is the encoding of that many segments with bodies up to 65535 octets |
| Request.DecodeSegmentLoop | request/chained.go:49-81 | The offset loop computes the recursive decoder, errors included |
| Request.EnvelopeCodec | request/envelope.go:22-283 | For all eight kinds and their safety variants, a body decodes to a request exactly when it is the encoding of that encodable request |
| Formats.EnvelopeOctets | request/envelope.go:36-283 | The octets of every envelope: kind octet, safety tag, and the fields of each kind with their operator codes |
| Request.ConditionalResponseRoundTrip | request/envelope.go:301-327 | Match flag, register value and inner body come back from a conditional response |
| Request.ChainedResponseRoundTrip | request/chained.go:115-164 | A chained result survives its encoding exactly when counts and bodies fit their fields |
| Fragment.Split | fragment/segment.go:40-77 | The loop yields the specified segments, or the error for a bad maximum or a body that needs too many |
| Fragment.SplitGivesTrain | fragment/segment.go:40-77 | Split output is a train for the message: bodies concatenate to it, each within the maximum, headers copied, non-final ones numbered from zero with more-segments set |
| Fragment.SplitsExactlyWhen | fragment/segment.go:40-55 | Split refuses exactly a non-positive maximum, a message already marked as segment, and a body that needs more than 65536 segments |
| Fragment.SegmentShape | fragment/segment.go:57-75 | Each segment is the message with its slice of the body, pad zero, and the more bit and number set on all but the last |
| Fragment.SegmentCountIsCeiling | fragment/segment.go:51-54 | The number of segments is the ceiling of length over maximum |
| Fragment.LastSegmentLength | fragment/segment.go:57-75 | The last segment holds what the maximum leaves over: one more than the remainder of the length less one |
| Fragment.Reassembler.constructor | fragment/reassembler.go:148-160 | Non-positive bounds are replaced by the defaults |
| Fragment.Reassembler.Add | fragment/reassembler.go:175-253 | One arrival changes its own key only, as the acceptance rules say, and returns their verdict |
| Fragment.KeysAreExact | fragment/types.go:11-27 | Two messages share a key exactly when stream, bus and transaction agree |
| Fragment.RefusalsAreExact | fragment/reassembler.go:183-253 | Which refusal it is, each exactly in its case: another head, something new after completion, the latest number with another body, a number that is not next, one segment too many |
| Fragment.RejectionKeepsExactlyWhen | fragment/reassembler.go:162-253 | A refused message abandons the sequence under its key, unless that sequence is complete and the header matches: then it is kept |
| Fragment.SecondMessageIsRefused | fragment/reassembler.go:217-222 | A concrete family: a second, different message on a key is refused and the first stays |
| Fragment.Reassembler.Finish | fragment/reassembler.go:261-276 | A complete message is handed out once and its key freed; otherwise nothing changes |
| Fragment.Reassembler.FinishProtected | fragment/reassembler.go:293-312 | A complete sequence is consumed whether or not its safe point verifies |
| Fragment.Reassembler.Sweep | fragment/reassembler.go:321-337 | Removes and reports once exactly the sequences that are not complete and were last updated longer ago than the timeout; every other one stays as it is |
| FragmentRuns.RunIsLocal | fragment/reassembler.go:175-337 | A key's state after any run is a fold over that run seen from that key |
| FragmentRuns.OtherKeysDoNotInterfere | fragment/reassembler.go:175-337 | Two runs with the same events for a key leave that key in the same state, whatever else is interleaved |
| FragmentRuns.NextSegmentAccepted | fragment/reassembler.go:185-253 | The next segment of a train is accepted and completes the message exactly when it is the last |
| FragmentRuns.RepeatTolerated | fragment/reassembler.go:217-240 | An immediate repeat of the latest segment changes nothing and is answered as the original was |
| FragmentRuns.DeliveryHolds | fragment/reassembler.go:175-253 | After any run that delivers the first i segments of a train, the key holds exactly those |
| FragmentRuns.SplitDelivery | fragment/segment.go:40-77 | Split then deliver, with any interleaving and immediate repeats: complete only at the last segment, and what is reassembled is the message up to the fields a sequence does not keep |
| FragmentRuns.TooLongIsRejected | fragment/reassembler.go:240-243 | After as many segments as allowed, the next one of a longer message drops the sequence |
| FragmentRuns.Provenance | fragment/reassembler.go:39-56 | Under arbitrary arrivals, takes and sweeps, a key holds real arrivals numbered 0, 1, ... in order, closed by one terminal if complete, sharing kind, timestamp and base control, never more than the bound |
| FragmentRuns.FinishedMessageProvenance | fragment/reassembler.go:261-276 | The body of a finished message is the concatenation of the bodies of those arrivals |
| FragmentRuns.DatedByLatestSegment | fragment/reassembler.go:244-252 | In every run a sequence is dated by the arrival that last brought a new segment |
| FragmentRuns.SweepLeavesOnlyTheFresh | fragment/reassembler.go:321-337 | After a sweep in any run, what is still incomplete got a new segment no longer ago than the timeout |
| FragmentRuns.CompleteStaysUntilTaken | fragment/reassembler.go:212-222 | In any continuation a complete sequence leaves only by a take or by an arrival with another head under its key |
| FragmentRuns.FinishProtectedRefinesFinish | fragment/reassembler.go:293-312 | FinishProtected succeeds exactly when Finish then Verify does and padding and checksum lie in the last segment; then the messages are equal; with seven octets there the two agree |
| FragmentRuns.ProtectedDelivery | fragment/reassembler.go:278-312 | Protect, split at a maximum, deliver in any run with interleaving and repeats, FinishProtected: the payload comes back if and only if no shorter padding collides and the remainder of the protected length modulo the maximum leaves padding and checksum whole in the last segment |
| FragmentRuns.StraddlingSafePointIsRejected | fragment/reassembler.go:293-312 | A one-octet payload, protected and cut at three octets, is refused |
| Gateways.Gateway.Submit | fragment/gateway.go:64-79 | Nothing reaches the dispatcher before a message is complete; then exactly the reassembled message does, once, and its key is free again |
| Gateways.GatewayKeepsMeaningExactlyWhen | fragment/gateway.go:64-79 | For every handler, registers and log, a request does through the gateway what it does directly (refusal, sweep, handler calls, registers, response, error) if and only if it is not a long message with a valid timestamp and its evt is zero or no handler call shows it |
| Gateways.DecodedAgreesExactlyWhen | request/dispatcher.go:179-181 | It decodes to the same request if and only if it is not a long message with a valid timestamp |
| Gateways.UnfragmentedIsStripped | fragment/reassembler.go:183-197 | An ordinary message on a free key completes at once, as itself without evt, hs, cs, the valid bit and pad |
| Gateways.OrWriteBecomesSet | request/dispatcher.go:433-464 | A concrete family: a short write with evt 1 reaches the handler with evt 1 directly and with evt 0 through the gateway |
| Gateways.TimestampedWriteBecomesCancelAll | fragment/reassembler.go:47-56 | A concrete family: a timestamped one-octet write turns into a CancelAll |
| E2E.CoverageIsExact | e2e/crc.go:98-117 | Two messages have the same covered octets if and only if they agree on stream, kind, low bus octet, transaction, control, read size, timestamp and body |
| E2E.HeaderFields | e2e/crc.go:98-117 | The covered header is stream, kind, low bus octet, transaction, control, read size and timestamp at their offsets |
| E2E.ProtectedParts | e2e/crc.go:177-186 | A protected body is the payload, the padding zeros and the checksum of the unpadded message |
| E2E.VerifyAcceptsExactly | e2e/crc.go:203-259 | Verify accepts exactly a body with a four-octet trailer that is the checksum of what precedes at most three zeros; a shorter body is refused as short |
| E2E.ShortestIsLeast | e2e/crc.go:188-228 | The search returns the least padding length whose octets are zero and whose checksum matches, and fails only if there is none |
| E2E.RecoverProtected | e2e/crc.go:203-228 | The search loop strips exactly that padding |
| E2E.VerifyAcceptsProtected | e2e/crc.go:158-259 | Verify accepts every protected message and returns the payload plus at most the padding; it returns exactly the payload if and only if no shorter padding collides |
| E2E.ProtectOfVerify | e2e/crc.go:177-259 | On every accepted message, protecting again restores it octet for octet if and only if its body was a whole number of quadlets |
| E2E.UncoveredFieldsDoNotMatter | e2e/crc.go:98-117 | Messages with the same coverage verify alike, each keeping its own uncovered fields |
| E2E.CandidateIsFragmented | e2e/crc.go:137-149 | What the fragmented search compares with the trailer is the checksum of all bodies together, the last one trimmed |
| E2E.FragmentedRefinesWhole | e2e/crc.go:272-309 | Verifying fragments accepts exactly the whole messages whose stripped part lies in the last fragment, with equal results; with seven octets there the two are the same |
| Watchdog.Supervisor.Observe | e2e/watchdog.go:116-140 | An arrival updates its own stream's entry of the maps and nothing else, and reports a violation exactly when the rule is broken |
| Watchdog.Supervisor.InSafeState | e2e/watchdog.go:147-160 | The verdict is that of the stream's own record and configuration |
| Watchdog.Supervisor.Reset | e2e/watchdog.go:178-182 | A reset clears the trip and the last number and counts as having been heard from |
| Watchdog.RunIsLocal | e2e/watchdog.go:91-182 | After any run over the two maps, what they hold for a stream is the fold of that stream's own events |
| Watchdog.RecordIsHistory | e2e/watchdog.go:91-140 | After any run the maps hold for a stream its latest configuration, when and with what number it was last heard from, and tripped exactly when some fault is unreset |
| Watchdog.VerdictIsHistory | e2e/watchdog.go:147-160 | Safe state is due if and only if the stream was never heard from, has an unreset fault, or is later than its timeout |
| Watchdog.SafetyActsOnlyOnWatchdogTrip | e2e/watchdog.go:162-169 | With the supervisor wired in, a safety ticket acts only for a stream that is silent, faulted or late |
| Watchdog.OverflowSettingIsIrrelevant | e2e/watchdog.go:128-134 | The overflow setting never changes the verdict on an arrival |
| Watchdog.RuleAgreesExactlyWhen | e2e/watchdog.go:128-134 | The code agrees with the documented rule if and only if no number is skipped and no forbidden overflow occurs |
| Wire.DecodeOfEncode | acf/message.go:289-514 | Whatever follows it, an encoded message decodes to its canonical form and its own length |
| Wire.EncodeOfDecode | acf/message.go:403-514 | An accepted message is canonical, takes at least eight octets and a whole number of quadlets, and re-encodes to its octets with the pad zeroed |
| Wire.EncodesExactlyWhen | acf/message.go:289-322 | Each refusal to encode exactly in its case and order, and success exactly within all field bounds |
| Wire.DecodeAcceptsExactly | acf/message.go:403-514 | Octets decode to a message exactly when they start with its encoding up to the pad, whatever the pad octets hold |
| Wire.WholeMessageCodec | acf/message.go:383-392 | A buffer of exactly one message decodes to its canonical form, and an accepted one is an encoding up to its pad |
| Wire.HeaderDecodesCanonically | avtp/avtpdu.go:213-357 | An encodable header decodes to its canonical form from its own length of octets |
| Wire.HeaderReencodes | avtp/avtpdu.go:302-357 | An accepted header re-encodes to its octets if and only if it is untimed, or has no ignored bit set and a length within the common bound |
| Wire.HeaderAcceptsExactly | avtp/avtpdu.go:302-357 | Each refusal of a header exactly in its case and order, and acceptance exactly otherwise |
| Wire.DecodeFrame | acf/frame.go:76-95 | The receiver's loop terminates on every input and computes the recursive decoder |
| Wire.EncodeFrame | acf/frame.go:39-62 | The sender's loop computes the specified frame or the first error |
| Wire.FrameRoundTrip | acf/frame.go:39-95 | Whatever can be encoded decodes to the same messages in order, in canonical form, under the canonical header with the true length |
| Formats.MessageOctets | acf/message.go:318-372 | Every octet of an encoded message, by offset and weight |
| Formats.FlagBits | acf/message.go:44-75 | Write, response, error and more-segments are bits 6, 5, 4 and 3 of control |
| Formats.TimedHeaderOctets | avtp/avtpdu.go:213-247 | The octets of the timed header |
| Formats.UntimedHeaderOctets | avtp/avtpdu.go:249-259 | The octets of the untimed header |
| Formats.MostSignificantFirst | acf/message.go:345-348 | Numbers are written most significant octet first |
| Regmap.GeneralRoundTrip | regmap/registermap.go:179-253 | All general-block fields come back from the forty-eight octets |
| Regmap.PinMap.Set | regmap/pinmap.go:33-41 | Replaces the pin's row where it stands, or appends |
| Regmap.PinSetKeepsDistinct | regmap/pinmap.go:33-41 | Setting a pin binds it once, to the new assignment, and keeps exactly the rows of the other pins |
| Regmap.DecodePinMap | regmap/registermap.go:477-497 | The row loop computes the recursive decoder |
| Regmap.DecodeEndpointTable | regmap/registermap.go:553-576 | The entry loop computes the recursive decoder, errors included |
| Regmap.AddressesAscend | regmap/registermap.go:391-398 | The address list has every address once, in ascending order |
| Regmap.EndpointsRoundTrip | regmap/registermap.go:539-576 | A table with one-octet addresses, known types and data within the length field comes back |
| Regmap.RoundTrip | regmap/registermap.go:595-665 | A representable map comes back with its pins in order, limits, queues, endpoints and the recomputed general block |
| Regmap.ReencodeIsIdentity | regmap/registermap.go:595-665 | Re-encoding what was decoded gives the identical image |
| Regmap.DecodedFits | regmap/registermap.go:626-665 | Every decoded map has ordered pointers, a pin count that matches its section, and entries within the image's bounds |
| Regmap.RoundTripExactlyWhenRepresentable | regmap/registermap.go:595-665 | A map's content survives its image if and only if addresses, types, lengths and pointers fit |
| Regmap.RepresentableMeans | regmap/registermap.go:595-619 | In numbers: at most 16368 pins, one-octet addresses, thirteen types, 65535 octets of data |
| Formats.GeneralOctets | regmap/registermap.go:179-209 | The general block, field by field |
| Formats.ImageStarts | regmap/registermap.go:595-619 | The image starts with RCP0 and version zero, and its sections follow in order |
| Formats.RowOctets | regmap/registermap.go:276-317 | A pin row and an endpoint entry, octet by octet |
| Iseled.ComputeCRC | iseled/crc.go:16-29 | The nested loops compute the register fold |
| IseledPolynomial.CrcIsRemainder | iseled/crc.go:3-29 | The checksum, complemented back, is the remainder of eight ones and the message, shifted up by eight, on division by x^8 + x^4 + x^3 + x^2 + 1 |
| Iseled.BurstNotMultiple | iseled/crc.go:8-29 | No non-zero difference within eight consecutive bits is a multiple of the polynomial |
| Iseled.BurstIsDetected | iseled/request.go:61-86 | Any corruption confined to eight consecutive bits of an encoded command, up to 65535 data octets, is rejected |
| Iseled.OctetErrorIsDetected | iseled/request.go:61-86 | Changing any one octet to any other value is rejected, wherever it is |
| Iseled.DecodeAcceptsExactlyEncodings | iseled/request.go:19-86 | Octets decode to a command if and only if they are its encoding and its data fits the length field |
| Iseled.CommandRoundTrip | iseled/request.go:19-40 | A command survives the wire if and only if its data fits the length field |
| Formats.CommandOctets | iseled/request.go:19-26 | A frame is address, length, data and the checksum of address and data |
| Iseled.EncodeAggregatedResponse | iseled/request.go:92-98 | The loop appends the entries after the count octet |
| Iseled.DecodeAggregatedResponse | iseled/request.go:105-133 | The loop over the rest computes the recursive decoder |
| Iseled.EntriesAcceptExactly | iseled/request.go:105-133 | Entries are accepted if and only if they are the concatenated encodings of that many commands that fit |
| Iseled.AggregatedRoundTrip | iseled/request.go:92-133 | An aggregated response survives if and only if it has at most 255 entries and each fits |
| Ratelimit.Controller.Take | ratelimit/ratelimit.go:145-165 | One attempt refills, caps and spends its endpoint's bucket alone |
| Ratelimit.Controller.Admit | ratelimit/ratelimit.go:120-131 | Exempt requests pass without touching a bucket; all others go through one attempt |
| Ratelimit.WindowBound | ratelimit/ratelimit.go:145-165 | In any window of a non-decreasing clock an endpoint admits at most Burst + Rate times the window's length, exempt requests aside |
| Ratelimit.AdmittedExactlyWhen | ratelimit/ratelimit.go:145-165 | For a rate not negative and a clock that does not go back, a request is admitted if and only if with it every window from an earlier request of its endpoint holds at most Burst + Rate times its length |
| Ratelimit.PauseSuffices | ratelimit/ratelimit.go:145-165 | After a pause worth one token a request is always admitted |
| Ratelimit.AttemptSpelled | ratelimit/ratelimit.go:153-165 | One attempt in plain arithmetic: gained tokens, cap, threshold of one, spending |
| Ratelimit.LevelStaysInRange | ratelimit/ratelimit.go:145-165 | With non-negative settings the level stays between zero and Burst |
| Ratelimit.OtherEndpointsDoNotMatter | ratelimit/ratelimit.go:145-165 | A bucket after any run is what its own endpoint's requests alone would leave |
| Gpio.Endpoint.Configure | gpio/endpoint.go:48-61 | An invalid or unpersisted configuration changes nothing; a good one is adopted and the word masked |
| Gpio.Endpoint.SetInputs | gpio/endpoint.go:70-79 | Input pins take the mask, the change is queued, the word is returned |
| Gpio.Endpoint.ApplyWrite | gpio/endpoint.go:168-181 | Output pins take the combined word; a reserved rule is refused and changes nothing |
| Gpio.Endpoint.DrainTriggers | gpio/endpoint.go:83-92 | The queue is handed out whole and emptied |
| Gpio.RunConfined | gpio/endpoint.go:48-206 | In every run the pin word stays inside the active mask |
| Gpio.DirectionsAreRespected | gpio/endpoint.go:63-79 | Writes move no input pin and SetInputs moves no output pin |
| Gpio.TriggersConserved | gpio/endpoint.go:83-103 | Between queueing and draining nothing is lost, duplicated or reordered |
| Gpio.ChangedMasksTelescope | gpio/endpoint.go:97-103 | Between reconfigurations the XOR of all queued masks is (start XOR current) AND TriggerEnable |
| Gpio.WritePins | acf/evt.go:392-420 | Pin by pin, for every rule: an output pin takes the operand's bit, its OR, AND or XOR with the pin, or the bit of the exact sum or difference clamped to 0 and the active mask; reserved rules and other pins change nothing |
| Gpio.WholeWordArithmetic | gpio/semantics.go:20-26 | With every active pin an output the arithmetic rules leave the clamped sum or difference in the word |
| Gpio.ToggleTwice | acf/evt.go:400-401 | The same XOR write twice restores the word |
| Gpio.InputPins | gpio/endpoint.go:70-79 | Pin by pin: an input pin takes the mask's bit, any other pin stays |
| Gpio.ConfigurePins | gpio/config.go:31-50 | A configuration is adopted exactly when persisted, with 1 to 32 pins and no mask bit beyond them; the word then keeps its remaining pins |
| Gpio.EventPins | gpio/endpoint.go:97-103 | A change queues one event exactly when an enabled pin moved; it marks those pins and carries the new word |
| Mdns.EncodeNameLoop | mdns/dns.go:72-84 | The label loop computes the encoder |
| Mdns.DecodeNameLoop | mdns/dns.go:88-129 | The loop terminates on every input, by pointer budget then octets left, and computes the recursive reader |
| Mdns.NextOffsetInside | mdns/dns.go:88-129 | The next offset of an accepted name is past its start and inside the message |
| Mdns.NameReadsBackExactlyWhen | mdns/dns.go:72-129 | Wherever a written name stands in any message, it reads back as itself if and only if it is the root or ends in a dot with labels of 1 to 191 octets |
| MdnsLaws.CompressedNameReads | mdns/dns.go:104-119 | Labels and a pointer to an earlier name read as both together, and reading goes on after the pointer |
| MdnsLaws.PointersAreBounded | mdns/dns.go:104-119 | A pointer is followed exactly when it points backwards and fewer than sixty-four came before it |
| Mdns.UnhexOfHex | mdns/dns.go:308-344 | A stream identifier comes back from its hex form |
| Mdns.HexOfUnhex | mdns/dns.go:319-344 | An accepted hex text is the one its identifier encodes to |
| Formats.HexDigits | mdns/dns.go:308-315 | The digits are lower-case hexadecimal |
| Mdns.RecordsRoundTrip | mdns/dns.go:219-283 | Any list of well named records, wherever it stands, parses back to those records |
| MdnsLaws.PacketReads | mdns/dns.go:236-262 | A packet with any questions before its records parses to those records |
| Mdns.ParseRecordsLoop | mdns/dns.go:236-262 | The question and record loops compute the parser, which keeps what it has at the first malformed record |
| Mdns.ExtractServices | mdns/dns.go:347-420 | The table loops return exactly the complete services, each once, in any order, with the address rendered as text |
| MdnsLaws.TxtNamesLatest | mdns/dns.go:372-387 | A TXT record names a stream exactly when one of its strings is stream= and its digits and no later one names another |
| MdnsLaws.TargetsOfTheService | mdns/dns.go:355-362 | A PTR record yields an instance exactly when its name ends in _rcp._udp.local. and its payload reads as a name |
| Mdns.BuildAnnouncement | mdns/dns.go:192-217 | The packet built record by record is the specified announcement |
| Formats.AnnouncementOctets | mdns/dns.go:192-233 | The header octets of an announcement, its PTR record up to the payload, and the types of the others |
| Mdns.AnnouncementIsFound | mdns/announcer.go:42-47 | Parsing and extracting an announcement yields exactly one service: the announced stream and the text of the announced address and port |
| Mdns.AddrTextInjective | mdns/dns.go:388-416 | That text names one address and one port only |
| Mdns.ServicesAreBacked | mdns/dns.go:347-420 | Whatever the packet, a service comes only from a PTR, an SRV, a TXT and an A record that agree on its instance and host, and its text from the last two |

## Left out

- Transports, bridges and the server itself (sockets, gRPC, REST, MQTT, DDS, DoIP, lifecycle control): input and output or thin wrappers around the core.
- CRC32P4's own tables and bit reflection: the checksum is a parameter, so no detection power is claimed for it.
- Locking and goroutines: each method is one atomic step; a Sequencer shared by several dispatchers, whose Get and Advance lock separately, is not part of this model.
- Ticket ids are unbounded; the wrap of the 64-bit id counter is not part of this model.
- Dispatch, StateOf and the reassembler's Pending count: easy members over modelled state.
- Wire: octets written into preallocated buffers by the message, header, condition and register-map encoders are concatenations of values here; aliasing of buffers is not part of this model.
- Gateway.Response and the choice of a segment size for replies: one call of Split.
- Ratelimit: float rounding; levels and times are reals.
- Gpio: the configuration codec, evt classification and the request handler around writes.
- Regmap.PinMap: Validate and Equal, and the in-place declaration of endpoints; endpoint lookups are map lookups.
- Mdns: sending and receiving packets, the PTR query, and compression on the writing side, which the source does not do either.
- Raw pass-through endpoints, fixed-length configuration codecs other than the ones above, JSON and YAML persistence, string forms and error texts.
