# A model of the diagnostic stack

The repository implements a hardened automotive diagnostic server in C: an ISO-TP transport
(ISO 15765-2:2016), a UDS server (a subset of ISO 14229-1:2013), an admission gateway that runs that
server as a shadow of a more permissive ECU, and adversarial harnesses that search for violations of
its invariants. This project models these parts in Dafny and proves what the repository samples by
tests, fuzzing and benchmarks.

## How it is built

Every stateful C object is a class whose methods update its fields and buffers in place
(`RxContext`, `TxContext`, `UdsContext`, `DiagLink`, `Gateway`, `BenchEcu`, `EcuModel`,
`CoverageTable`). Each method is proved equal to a step function on values: `View()` after the call
is the step applied to `View()` before it. Runs are folds of those step functions, and the theorems
are about runs of any length, over arbitrary bytes, clock readings, callback answers and buffer
capacities.

A machine with timers takes a `Clock`: `Wrapped` is the 32-bit millisecond clock of the code,
`Unbounded` is ideal time. `ClockRefinement` compares the two; where a theorem speaks of real time
the events carry unbounded instants and the machine sees them modulo 2^32.

| file | contents |
|---|---|
| `Words`, `Sequences` | machine words, big-endian encoding, xor and rotation, the clock; subsequences |
| `IsoTp` | Single Frame and Flow Control codecs, STmin |
| `IsoTpRx`, `Reassembly`, `RxRuns` | the receiver; what it delivers and answers, read off the frame trace alone; its reasons and statistics |
| `IsoTpTx`, `Pacing`, `TxRuns` | the transmitter; block size, separation time and payload order over runs; when it waits, sends and gives up, read off the events alone |
| `Transport` | both joined by a bus: conservation and completion of messages |
| `DiagLink`, `LinkRuns` | the bounded send loop and the routing of frames; a message crossing between two of them |
| `Uds`, `UdsContext` | the server as step functions; the context that implements them |
| `UdsRuns`, `UdsReplies` | invariants, provenance, counting and guessing bounds over whole runs; on literal bytes, when each reply comes, and the exchange that unlocks and resets |
| `ClockRefinement` | 32-bit clocks against ideal time, for all three machines |
| `Gateway`, `Bench` | the gateway; gateway and permissive ECU as one system, the stateless firewall, replays |
| `GatewayRuns` | what the gateway passes on, what of the policy the ECU inherits, and what it does not |
| `Invariants`, `Explorer`, `ExplorerRuns`, `Coverage` | the harness checks, the explorer with its minimiser, what its actions do, the coverage table |
| `EcuData`, `Pipeline`, `EcuRuns` | the ECU's data; frames in, UDS out, and the golden probe; which frames change the data, and what reports hold |

## Where the code and its comments part

- `src/isotp/isotp.h:272-274` promises an abort when no Consecutive Frame came for N_Cr. The code
  restarts the delay at every non-empty frame, rejected ones included. In ideal time it breaks the
  promise exactly when a frame without data arrived less than N_Cr ago, and never aborts early:
  `Reassembly.PromiseKeptIffUndistracted`, and the same on the 32-bit clock under the sampling bound,
  `ClockRefinement.WrappedPromiseKeptIffUndistracted`. `Reassembly.NoiseExtendsDeadline` is a counterexample.
- `src/uds/uds.c:1095-1099` says a refused request does not hold a session open. That holds of
  requests refused by the access table only: `UdsRuns.DeadlineMovesIffAdmitted` is the exact rule.
  `UdsRuns.MalformedRequestsHoldSession` keeps a session open for any length of time with nothing but
  malformed requests.
- `src/gateway/gateway.h:12-17` says that a request is passed on only if the hardened server would accept
  it, and that a permissive ECU behind the gateway inherits the policy. The exact rule is
  `GatewayRuns.ForwardsIffNotBlocked`: a request is passed on unless the server refuses *access*, so
  other refusals are passed on too. What the ECU inherits is the protection of resets, on tame requests
  (`Bench.Tame`: no overlong return to the default session, no malformed reset):
  `Bench.NoUnauthorizedReset` and `GatewayRuns.ResetsNeedKeys`. For every request that is not tame,
  `GatewayRuns.UntamedRequestBreaksSafety` gives a run with an unauthorized reset; `Bench.CoupledStep`
  says from which states. What it does not inherit is one key per seed and three keys per lockout: a key
  is passed on whenever no seed is pending (`GatewayRuns.ForwardsKeyIff`), and from power-on three tame
  requests lead to a state where the ECU judges any number of keys against one seed and a right one
  unlocks it behind a locked shadow (`GatewayRuns.OneSeedManyKeys`). Only the keys that the shadow
  judges are bounded in real time (`GatewayRuns.JudgedKeysAreBounded`).
- `bench/bench_core.h:243` says the gateway never blocks a legitimate flow. It does if and only if a
  lockout of the shadow outlasts the first two requests: `Bench.LegitimateFlowRecovers`.
  `GatewayRuns.LockoutBlocksFlow` gives a run from power-on after which it does. The benchmark asks this of a
  fresh gateway only, for which the comment is true.

## Model

| member | source | states |
|---|---|---|
| Transport.MessagesAreConserved | src/isotp/isotp_tx.c:133-386 | over any schedule of starts, flow controls, polls, foreign frames without data and clock readings, from any receiver state, the receiver hands over a subsequence of the completed messages, all of them while it never timed out, and it then holds exactly the bytes sent so far |
| Transport.WholeMessageArrives | src/isotp/isotp_rx.c:197-414 | a payload of 1 to 4095 bytes under any flow-control schedule and any foreign frames without data, without abort or timeout, is delivered exactly once, not before the transmitter is done, and both ends are at rest afterwards |
| Transport.ServedTransferCompletes | src/isotp/isotp_tx.c:225-386 | liveness under any flow control: whatever block sizes and separation times the grants carry, a payload is delivered once 2 * (length / 7) - 1 events have served its transfer and nothing aborted or timed out |
| Transport.PromptServiceDelivers | src/isotp/isotp_tx.c:225-386 | when every wait is answered by a grant and no poll comes before its separation time, nothing aborts and that many events after the start deliver the payload |
| Transport.HarmlessEventsDeliver | src/isotp/isotp_tx.c:225-386 | the same among any number of harmless events: polls within N_Bs, polls before the separation time, Wait frames, stray Flow Controls, foreign noise and prompt receiver polls abort nothing, and the payload is delivered once enough events have served it |
| Transport.ReceiverReplyCompletes | src/isotp/isotp_rx.c:272-307 | liveness: answering a First Frame with the receiver's own Flow Control completes the transfer after (length - 7) / 7 more polls |
| Transport.SingleArrives | src/isotp/isotp_tx.c:165-183 | a transmitted Single Frame is a complete message at the receiver, whatever it was doing |
| Transport.FirstArrives | src/isotp/isotp_tx.c:185-218 | a transmitted First Frame opens a transfer of the announced length with the first six bytes, and is answered by an unlimited ContinueToSend |
| Transport.ChunkArrives | src/isotp/isotp_tx.c:64-100 | a transmitted Consecutive Frame advances a receiver that holds what was sent by exactly its chunk, padding cut off, across the wrap of the sequence number, and completes it on the last byte |
| Pacing.PacingIsHonoured | src/isotp/isotp_tx.c:349-383 | under monotone real time and arbitrary flow controls, at most BlockSize frames leave per ContinueToSend and any two of a block are STmin apart in real time, across clock wraps |
| Pacing.EmittedIsPrefix | src/isotp/isotp_tx.c:64-100 | the bytes put on the bus after any run are a prefix of what the message owes, then padding; while the transfer lives they are exactly the bytes counted as sent |
| Pacing.RunOf | src/isotp/isotp_tx.c:225-386 | every sequence of events has such a run, from every transmitter state |
| Pacing.BlockBegins | src/isotp/isotp_tx.c:265-278 | a ContinueToSend releases the first frame of its block at once, whatever STmin says, and opens a block of one |
| Pacing.BlockContinues | src/isotp/isotp_tx.c:349-371 | without a new grant a frame leaves only inside the block and only STmin after the one before |
| TxRuns.TimesOutIffUnanswered | src/isotp/isotp_tx.c:320-337 | over every run from initialisation, read off the events alone: a poll aborts with a timeout if and only if a transfer waits and N_Bs has passed since it began to wait; every other poll of a waiting transfer answers WAIT and changes nothing |
| TxRuns.WaitingBegan | src/isotp/isotp_tx.c:283-347 | it waits since the last of its First Frame, a Wait frame, or the poll that found its block full |
| TxRuns.OutputFollowsPhase | src/isotp/isotp_tx.c:133-386 | at every event of every run, a frame, an abort with its reason, a wait or nothing comes out exactly as an abstract transmitter without buffer or machine state says |
| TxRuns.RefusedTransferStops | src/isotp/isotp_tx.c:288-295 | a receiver's overflow reply makes a waiting transmitter abort by its peer, and no frame leaves before the next start |
| TxRuns.StatisticsCount | src/isotp/isotp_tx.c:64-386 | the statistics count the frames sent, messages finished and timeouts of the run, modulo 2^32 |
| TxRuns.StartResult | src/isotp/isotp_tx.c:133-163 | a start is taken exactly when idle with 1 to 4095 bytes; each refusal has its code and changes nothing |
| IsoTpTx.TxContext.Start | src/isotp/isotp_tx.c:133-219 | buffer, fields and result after a start, for every state and payload, busy, empty and oversized included |
| IsoTpTx.TxContext.OnFlowControl | src/isotp/isotp_tx.c:225-297 | the reaction to arbitrary flow-control bytes: grant and immediate poll, wait, peer overflow, malformed frame, nobody waiting |
| IsoTpTx.TxContext.Poll | src/isotp/isotp_tx.c:303-386 | N_Bs timeout, end of block, separation time, or the next frame, with the whole new state; while waiting, a timeout exactly from 1000 ms on and no change before |
| IsoTpTx.TxContext.BuildConsecutiveFrame | src/isotp/isotp_tx.c:64-100 | the frame is header, next chunk and padding; length, mod-16 number and the 8-bit block counter advance |
| IsoTpTx.TxContext.GoIdle | src/isotp/isotp_tx.c:49-58 | everything of the transfer is forgotten, statistics and clocks are kept |
| IsoTpTx.TxStartKeepsInv | src/isotp/isotp_tx.c:133-219 | a start keeps the transmitter invariant: between six bytes sent and all but one while busy, cleared while idle |
| IsoTpTx.TxPollKeepsInv | src/isotp/isotp_tx.c:303-386 | a poll keeps it, the block counter included, which only wraps when the block is unlimited |
| IsoTpTx.TxFlowControlKeepsInv | src/isotp/isotp_tx.c:225-297 | any flow-control bytes keep it |
| IsoTpRx.RxContext.Process | src/isotp/isotp_rx.c:420-482 | one frame of arbitrary bytes: buffer, fields, statistics and event afterwards |
| IsoTpRx.RxContext.HandleSingle | src/isotp/isotp_rx.c:142-191 | a Single Frame is delivered and replaces a running transfer; both lengths are the payload's afterwards; a malformed one changes only the rejection count |
| IsoTpRx.RxContext.HandleFirst | src/isotp/isotp_rx.c:197-308 | 12-bit and escape lengths, too short, too long with the overflow reply 32, truncated, or the opened transfer and the reply 30, on literal bytes |
| IsoTpRx.RxContext.HandleConsecutive | src/isotp/isotp_rx.c:314-414 | orphan, truncated, out of sequence, over capacity, middle and last chunk |
| IsoTpRx.RxContext.PollTimeout | src/isotp/isotp_rx.c:484-513 | N_Cr expiry by 32-bit modular subtraction, only while waiting |
| IsoTpRx.RxInvKept | src/isotp/isotp_rx.c:382-399 | from frames of at most eight bytes a waiting receiver always has fewer bytes than announced, an idle one as many as announced, and the capacity branch is never taken |
| Reassembly.DeliversIffCompletes | src/isotp/isotp_rx.c:142-414 | a message is delivered at an event if and only if it is one valid Single Frame there, or the announced length of bytes of one First Frame and the correctly numbered chunks since, with nothing in between that closes or replaces the transfer; no message mixes two First Frames |
| Reassembly.AnswersIff | src/isotp/isotp_rx.c:262-307 | at any event of any trace the answer is 30 00 00 if and only if the frame is a First Frame, 32 00 00 if and only if it announces more than 4095 bytes, and no other Flow Control is ever sent |
| Reassembly.WaitsIffInTransfer | src/isotp/isotp_rx.c:287-405 | the receiver waits for chunks if and only if the trace holds an open transfer, and then holds exactly its bytes and next number |
| Reassembly.TimesOutIffSilent | src/isotp/isotp_rx.c:500-510 | a poll aborts if and only if a transfer is open and no non-empty frame came for N_Cr |
| Reassembly.PromiseKeptIffUndistracted | src/isotp/isotp_rx.c:442-510 | in ideal time a poll ends an open transfer if and only if its last data frame is N_Cr old and no frame without data came within N_Cr |
| ClockRefinement.WrappedPromiseKeptIffUndistracted | src/isotp/isotp_rx.c:500-510 | the same on the 32-bit clock, if it is looked at every 2^31 ms during a transfer |
| Reassembly.DistractionsAreIgnored | src/isotp/isotp_rx.c:442-478 | the frames that stretch the deadline are frames the receiver turned away, and change nothing else of the transfer |
| Reassembly.NoiseExtendsDeadline | src/isotp/isotp_rx.c:442-443 | any frame of reserved type keeps a transfer alive past N_Cr without data, against the header's promise |
| Reassembly.NoiseChangesNothing | src/isotp/isotp_rx.c:154-166 | without polls, deleting any choice of ignored frames leaves the sequence of delivered messages, flow controls and aborts unchanged |
| Reassembly.FrameEffect | src/isotp/isotp_rx.c:445-478 | what a frame does depends on its kind alone, and noise changes nothing but the clock reading and the statistics |
| RxRuns.TurnedAwayOnGrounds | src/isotp/isotp_rx.c:142-482 | in every state a frame of which nothing comes was stored or turned away for the reason that its literal bytes determine |
| RxRuns.StatisticsCount | src/isotp/isotp_rx.c:142-510 | the six statistics count the frames, messages, rejections, sequence errors, overflow replies and timeouts of the run, modulo 2^32 |
| IsoTp.EncodeSingleFrame | src/isotp/isotp.c:106-148 | the padded frame, or the error with the buffer untouched; bytes past the frame are never written |
| IsoTp.EncodeFlowControl | src/isotp/isotp.c:200-236 | the padded frame, or the error with the buffer untouched |
| IsoTp.SingleFrameRoundTrip | src/isotp/isotp.c:150-194 | decoding an encoded Single Frame, whatever follows the payload, returns the payload |
| IsoTp.FlowControlRoundTrip | src/isotp/isotp.c:238-281 | status, block size and raw STmin survive encoding and decoding |
| IsoTp.StminIsCeiling | src/isotp/isotp.c:283-306 | the delay is the fewest whole milliseconds that are not shorter than the field asks for |
| DiagLink.DiagLink.DriveTx | src/platform/diag_link.c:77-119 | the guarded loop does what draining without any guard does: same final state, frames in order, code and recorded error, a write the bus refuses included; the 700-round guard never ends it |
| DiagLink.DrainIsBounded | src/platform/diag_link.c:87-118 | from every reachable transmitter state, at one instant, at most 585 frames leave, and the ending is a frame only if the bus refused it |
| DiagLink.UnlimitedDrainEmpties | src/platform/diag_link.c:92-118 | with BlockSize 0 and STmin 0 one drain into a bus that takes the frames sends exactly the frames that carry the rest of the message, in order, and leaves the transmitter idle |
| DiagLink.DiagLink.HandleFrame | src/platform/diag_link.c:128-212 | a frame of type 3 during a transmission touches the transmitter only, anything else the receiver only; frames sent, code and error in each case, failed writes included; an unlimited grant to a waiting transmitter sends exactly the frames it owes, leaves it idle, and returns 0 |
| DiagLink.GrantSendsOwed | src/platform/diag_link.c:145-164 | 30 00 00 makes a waiting transmitter send exactly the owed frames, numbered and padded, and ends without error |
| LinkRuns.MessageCrosses | src/platform/diag_link.c:128-212 | a payload of 8 to 4095 bytes crosses from an idle link to any other in one exchange: First Frame, the receiver's answer routed back, and the frames that this releases; the receiving caller hears of nothing until the last frame, and then of exactly the payload |
| DiagLink.RefusalIsReported | src/platform/diag_link.c:166-176 | an overflow reply or a malformed Flow Control ends a waiting transfer with code -1 and its reason, and nothing is sent |
| DiagLink.SilenceIsReported | src/platform/diag_link.c:77-119 | a drive of a waiting transmitter ends it with code -1 and the timeout recorded if and only if N_Bs is over, and otherwise changes nothing |
| DiagLink.LostFrameIsReported | src/platform/diag_link.c:98-106 | a bus that takes too few frames gets exactly those, and the code is -1 without a recorded reason |
| Uds.KeyDeterminesSeed | src/uds/uds.c:611-620 | two seeds with the same key are the same seed |
| Uds.KeyIsDemoKey | src/uds/uds.c:611-620 | the key the protocol works with is mask, three-bit rotation and offset of the seed |
| UdsContexts.FindRule | src/uds/uds.c:432-462 | the table search finds exactly 10, 11, 14, 19, 22, 27 and 3E; only 11, 14 and 27 need the extended session, only 11 an unlocked server |
| UdsContexts.UdsContext.Poll | src/uds/uds.c:997-1030 | lockout lifted by the half-range test first, then S3 expiry back to default, locked, without seed |
| UdsContexts.UdsContext.HandleRequest | src/uds/uds.c:1032-1144 | state, status, response bytes and effect of one request of arbitrary bytes, for any capacity and callback answers |
| UdsContexts.UdsContext.HandleSessionControl | src/uds/uds.c:203-308 | session change with its consequences, length and sub-function errors, suppressed replies |
| UdsContexts.UdsContext.HandleReadDid | src/uds/uds.c:314-414 | the provider is asked for the identifier of the request and the room behind the header; its bytes behind the echoed identifier, and each error |
| UdsContexts.UdsContext.HandleTesterPresent | src/uds/uds.c:474-522 | presence, suppression, and each error |
| UdsContexts.UdsContext.HandleEcuReset | src/uds/uds.c:528-590 | the handler is called with the reset type; reset and relock take effect before a reply that may not fit; refused without a handler |
| UdsContexts.UdsContext.HandleSecurityAccess | src/uds/uds.c:622-784 | lockout first, then seed and key requests, then the sub-function error |
| UdsContexts.UdsContext.HandleRequestSeed | src/uds/uds.c:655-699 | a fresh pending seed whose four bytes stand behind 67 01 in the response, or a zero seed and no pending one when already unlocked |
| UdsContexts.UdsContext.HandleSendKey | src/uds/uds.c:701-778 | a key is evaluated only against a pending seed, which it consumes either way |
| UdsContexts.UdsContext.RefuseKey | src/uds/uds.c:734-760 | a wrong key counts an attempt, and the third locks out for ten seconds |
| UdsContexts.UdsContext.HandleReadDtc | src/uds/uds.c:790-873 | the provider is asked with the request's mask; its records behind the availability mask, and each error in the code's order |
| UdsContexts.UdsContext.HandleClearDtc | src/uds/uds.c:879-928 | the handler is called with the three-byte group; cleared, or the error of a missing handler or a refusal |
| UdsContexts.WriteNegative | src/uds/uds.c:179-197 | the three-byte refusal, or nothing when it does not fit |
| UdsRuns.InvOverRun | src/uds/uds.c:997-1144 | every state reachable by arbitrary bytes, clocks and callbacks: unlocked implies extended; a pending seed implies extended and locked; locked out if and only if three failed attempts, and then locked without a seed |
| UdsRuns.AcceptedIffProvenance | src/uds/uds.c:701-778 | a key is accepted if and only if it is the key of a seed drawn earlier that no draw replaced, no key consumed, and no return to the default session voided |
| UdsRuns.ResetIffAuthorised | src/uds/uds.c:528-590 | a reset is performed if and only if it is well-formed, the application agrees, and an accepted key still stands |
| UdsRuns.AuthorityIsConserved | src/uds/uds.c:622-784 | over every run, resets performed are at most keys accepted, and keys evaluated at most seeds drawn |
| UdsRuns.WrongKeysAreBounded | src/uds/uds.c:734-765 | over T ms of real time with U unlocks at most 3 * (T / 10000 + 1) + 2 * U wrong keys are evaluated, across clock wraps and without any polling assumption |
| UdsRuns.LiftTakesTime | src/uds/uds.c:1008-1013 | a lockout is never lifted before its ten seconds of real time, however far the 32-bit clock has wrapped |
| UdsRuns.PendingKeyIsEvaluated | src/uds/uds.c:719-765 | a six-byte key request meeting a pending seed is accepted exactly on the right key and refused otherwise, unless the session expires first |
| UdsRuns.RefusalsCannotHoldSession | src/uds/uds.c:1020-1029 | after any number of requests refused by the access table, the evaluation 5000 ms or more after the last admitted one finds the default session, locked, no seed |
| UdsRuns.DeadlineMovesIffAdmitted | src/uds/uds.c:1054-1100 | a request moves the S3 deadline if and only if the access table admits it |
| UdsRuns.ServiceRefusalsHoldSession | src/uds/uds.c:1095-1100 | any number of requests refused by their service, less than S3 apart, keep the extended session and the security level |
| UdsRuns.MalformedRequestsHoldSession | src/uds/uds.c:1095-1100 | so do malformed tester-present requests alone, when without them the first poll after 5000 ms finds the default session, locked |
| UdsReplies.DrawnSeedIsTold | src/uds/uds.c:671-694 | in every run an event that draws a seed is a seed request with room for six bytes, and its reply is 67 01 and the big-endian bytes of that very seed |
| UdsReplies.UnlockedSeedIsZero | src/uds/uds.c:671-680 | an unlocked server answers 67 01 00 00 00 00, draws nothing and stays unlocked |
| UdsReplies.KeyOfToldSeedUnlocks | src/uds/uds.c:655-778 | a seed request to an extended, locked server without lockout, and less than S3 later a key request: the key is judged, and unlocks if and only if it is the key of the seed read from the reply |
| UdsReplies.ExchangeResets | src/uds/uds.c:528-784 | from every reachable state without a lockout, 10 01, 10 03, 27 01, the key of the seed in the reply and 11 01, each less than S3 after the one before, get the positive replies 50, 50, 67 02 and 51 01, and reset |
| UdsReplies.RefusedIff | src/uds/uds.c:1054-1093 | a request is answered 7F sid nrc if and only if the stated reason holds: for every code of every service, access before service, lockout before sub-function, length and sequence |
| UdsReplies.AcceptedIff | src/uds/uds.c:203-928 | a reply is positive if and only if the request is one of the stated ones, and then has exactly the stated bytes and effect; silence answers exactly the served requests that ask for it |
| UdsReplies.DefaultSessionRefuses | src/uds/uds.c:432-445 | in the default session 11, 14 and 27 are answered 7F sid 7F with nothing changed, and the other four services are admitted |
| UdsReplies.FaultsAreClearedIff | src/uds/uds.c:879-928 | over every run 54 is answered if and only if the session is extended and the handler agreed to the three-byte group of a four-byte clear request |
| UdsReplies.ExtendedIff | src/uds/uds.c:230-290 | after an event the session is extended if and only if it was asked for, or was open and neither a return to default nor a reset closed it |
| UdsReplies.ExpiresIffIdle | src/uds/uds.c:1020-1029 | an open session is default again at an evaluation if and only if the last admitted request is 5000 ms old, in real time, and is otherwise untouched |
| UdsReplies.LockoutIsExact | src/uds/uds.c:734-1013 | over every monotone run on the 32-bit clock, whatever happens meanwhile, the server is locked out at exactly the events less than ten seconds after the key that locked it out, and the attempt counter is clear at the first after |
| UdsReplies.PowerOnIsDefault | src/uds/uds.c:934-957 | every run starts in the default session, locked, without seed, attempts or lockout |
| UdsReplies.SeedIsGenerated | src/uds/uds.c:605-609 | every seed drawn is the masked next state of the generator |
| UdsReplies.GeneratorVectors | src/uds/uds.c:605-609 | the generator's values at 0, 1 and the initial state |
| UdsReplies.KeyVectors | src/uds/uds.c:611-620 | the keys of two seeds, which fix mask, rotation and offset |
| ClockRefinement.UdsClockIsIdeal | src/uds/uds.c:1008-1023 | every run of the server on the 32-bit clock gives the replies, effects and states of the same run on unbounded time, if it is looked at every 2^31 ms while a timer runs |
| ClockRefinement.RxClockIsIdeal | src/isotp/isotp_rx.c:500-510 | the same for the receiver's outputs |
| ClockRefinement.TxClockIsIdeal | src/isotp/isotp_tx.c:276-365 | the same for the transmitter's outputs, antedated grants included |
| ClockRefinement.ReachedAgrees | src/uds/uds.c:1008-1013 | the half-range test is right for deadlines within 2^31 ms on either side |
| Gateways.Gateway.constructor | src/gateway/gateway.c:52-66 | a fresh shadow, zero counters, no refusal remembered |
| Gateways.Gateway.AdmitEx | src/gateway/gateway.c:68-124 | the shadow's reply decides: dropped if and only if it denies access; verdict, counters, remembered reason and reply bytes |
| Gateways.Gateway.ObserveResponse | src/gateway/gateway.c:135-165 | exactly a non-zero seed in the ECU's response becomes the shadow's pending seed, in any session |
| GatewayRuns.ObservedIff | src/gateway/gateway.c:135-165 | exactly a 67 01 response whose four bytes are not all zero changes the shadow, and then only its pending seed |
| GatewayRuns.DropIsRemembered | src/gateway/gateway.c:106-119 | a dropped request was answered 7F with one of five access codes, which is remembered with its invariant; one passed on leaves the memory alone |
| GatewayRuns.CountersCount | src/gateway/gateway.c:90-124 | over every run the counters are the requests seen, passed on and dropped, modulo 2^32 |
| Bench.NoUnauthorizedReset | bench/bench_core.h:204-241 | over tame request sequences of any length and any clock readings, no reset reaches the ECU unauthorized; the shadow never knows more than is true of the ECU |
| Bench.CoupledStep | src/gateway/gateway.c:68-165 | one step from a coupled state performs no unauthorized reset, and keeps the coupling if and only if shadow and ECU do not part on the request |
| GatewayRuns.UntamedRequestBreaksSafety | bench/bench_core.h:64-118 | for every request that is not tame there is a run from power-on of tame requests and this one, all at one clock reading, in which the ECU resets unauthorized |
| Bench.CorpusIsTame | bench/bench_core.h:156-180 | every request the corpus can build is tame, whatever seed was seen last |
| Bench.ReplayIsSafe | bench/bench_core.h:204-241 | on every scenario, from every coupled state, replay behind the gateway adds no unauthorized reset |
| Bench.FirewallIsTransparent | bench/bench_core.h:135-144 | for every ECU state and every sequence of requests, each of which may depend on the seed seen last, the ECU ends in the same state behind the firewall as without it and hands out the same seeds |
| Bench.FirewallIsTransparentOnBytes | bench/bench_core.h:135-144 | the same for every sequence of byte strings |
| Bench.ReplayIsRun | bench/bench_core.h:204-241 | a replay without gateway is such a run, with or without firewall |
| Bench.FirewallChangesNothing | bench/bench_core.h:204-241 | S1 equals S0 on every scenario |
| Bench.CorpusIsAnswered | bench/bench_core.h:55-180 | the bytes the ECU answers to each request of the corpus, and what each does to it |
| Bench.FirewallHidesRefusals | bench/bench_core.h:135-144 | the filter hides a response if and only if the request starts with none of the seven services, and what it hides is the ECU's 7F sid 11 |
| Bench.UnprotectedEcuResets | bench/bench_core.h:107-118 | without the gateway, with or without the filter, 10 03 and 11 01 reset a locked ECU unauthorized |
| Bench.LegitimateFlowRecovers | bench/bench_core.h:244-254 | from every gateway and ECU state the legitimate flow is forwarded entirely if and only if a lockout is over in time, and then adds exactly one reset, an authorized one |
| GatewayRuns.LockoutBlocksFlow | bench/bench_core.h:243-254 | after seven tame requests from power-on at one clock reading, which leave three failed attempts and a lockout, a legitimate flow started then or later, whose second request comes within ten seconds, is not forwarded |
| GatewayRuns.ForwardsIffNotBlocked | src/gateway/gateway.c:68-124 | for every state, request and clock: passed on if and only if session, lock, lockout and pending key do not refuse access |
| GatewayRuns.ForwardsKeyIff | src/gateway/gateway.c:106-119 | a key request is passed on if and only if the session is not the default one, no lockout holds, and the key is right or no seed is pending |
| GatewayRuns.GuessStep | bench/bench_core.h:89-105 | without a pending seed every key reaches the ECU, which judges it, and the shadow does not move |
| GatewayRuns.OneSeedManyKeys | src/gateway/gateway.c:106-119 | for every sequence of keys: three tame requests after power-on the ECU judges them all against one seed and ends unlocked if and only if one is right, while the shadow is locked, not locked out, and has counted one attempt |
| GatewayRuns.ResetsNeedKeys | bench/bench_core.h:107-118 | over every tame run the ECU performs at most as many resets as the shadow accepted keys |
| GatewayRuns.JudgedKeysAreBounded | src/gateway/gateway.c:68-165 | over every run in real time, seeds observed from the ECU included, the wrong keys the shadow judges are at most 3 * (T / 10000 + 1) + 2 * U, across clock wraps |
| Bench.BenchReplay | bench/bench_core.h:204-241 | the replay loop, skipped actions and seed feedback included, ends where the recursive replay does |
| Bench.BenchEcu.Recv | bench/bench_core.h:55-133 | the permissive ECU's new state and response for arbitrary bytes |
| Invariants.StepPassesChecks | fuzz/ahdg_explore_core.h:225-247 | from every state satisfying the server invariant, every event passes every check of the harnesses |
| Invariants.PositiveReplies | src/uds/uds.c:763-778 | a 51 reply means a performed reset, a 67 02 reply an accepted key, and an accepted key answers 67 02 when two bytes fit |
| Invariants.ViolationsAreReported | fuzz/ahdg_explore_core.h:225-247 | the checks report exactly the five violations they exist for, so that passing them says something |
| Explorer.AttemptDropsAreReported | fuzz/ahdg_explore_core.h:225-247 | a drop of the attempt counter that neither a key nor the end of a lockout explains is reported |
| ExplorerRuns.HonestPathResets | fuzz/ahdg_explore_core.h:165-222 | from every reachable state without a lockout five actions of the alphabet unlock and reset the server |
| ExplorerRuns.CorrectKeyUnlocks | fuzz/ahdg_explore_core.h:165-222 | with a seed pending the correct-key action unlocks the server |
| ExplorerRuns.ReplayedKeyIsRefused | fuzz/ahdg_explore_core.h:165-222 | a key of an earlier seed, replayed, is accepted if and only if the generator repeated that seed |
| ExplorerRuns.ClockEndsSession | fuzz/ahdg_explore_core.h:165-222 | the clock action past S3 closes the session |
| ExplorerRuns.ClockLiftsLockout | fuzz/ahdg_explore_core.h:165-222 | the clock action past the lockout lifts it and clears the attempts |
| Explorer.NothingIsViolated | fuzz/ahdg_explore_core.h:249-266 | no action sequence of any length makes the replay report a violation |
| Explorer.Replay | fuzz/ahdg_explore_core.h:249-266 | the replay loop reports the first violation from a fresh server and attacker |
| Explorer.Apply | fuzz/ahdg_explore_core.h:165-222 | one action: what the server sees, what it answers, what the attacker remembers |
| Explorer.Minimise | fuzz/ahdg_explore_core.h:268-288 | terminates; the in-place result is a subsequence of the input, is 1-minimal, and replays to the target if the input did |
| Explorer.LeaveOut | fuzz/ahdg_explore_core.h:277-279 | the candidate is the sequence without one action |
| Sequences.SubsequenceDrop | fuzz/ahdg_explore_core.h:277-284 | leaving an element out of a subsequence leaves a subsequence |
| Coverage.CoverageTable.Record | fuzz/ahdg_hunt.c:258-267 | reports new if and only if the fingerprint was never recorded, which of the last 32-bit value, stored as a free slot, is always; the table agrees with the map of visit counts, its counter of distinct keys and saturating counts included |
| Coverage.CoverageTable.Find | fuzz/ahdg_hunt.c:262-266 | the probe loop ends at the fingerprint's slot, or at the free slot where it belongs |
| Coverage.ProbingStops | fuzz/ahdg_hunt.c:262-266 | while fewer fingerprints than slots are recorded, probing meets the key or a free slot |
| Coverage.ProbeDecides | fuzz/ahdg_hunt.c:262-266 | the first key or free slot met decides membership |
| Coverage.InsertKeepsInv | fuzz/ahdg_hunt.c:263-263 | storing a new key in the free slot found breaks no other key's probe path |
| Coverage.CoverageTable.CountRare | fuzz/ahdg_hunt.c:288-294 | the number of fingerprints visited at most three times |
| Coverage.CoverageTable.Reset | fuzz/ahdg_hunt.c:249-256 | the table is empty again |
| Pipeline.PipelineRefines | fuzz/ahdg_frames.c:123-152 | after any trace of frames and waits the server is in the state it reaches on just its polls and the messages the trace-only reassembly completes |
| Pipeline.NoFrameForgesAuthority | fuzz/ahdg_frames.c:123-152 | over every trace of CAN frames and waits no check of the harness fails, the transport ones included |
| Pipeline.GoldenProbeIsAnswered | fuzz/ahdg_frames.c:155-184 | from every state, both probe requests are answered positively |
| Pipeline.HarnessFindsNothing | fuzz/ahdg_frames.c:290-301 | no sequence of frames and waits of any length makes the replay report anything |
| Pipeline.DishonestLengthIsReported | fuzz/ahdg_frames.c:123-152 | the transport checks report a receiver that holds more than announced, and an oversized message, from any state whatsoever |
| Pipeline.ReplayFrames | fuzz/ahdg_frames.c:290-301 | the replay loop reports the first violation, or a wedged context |
| Pipeline.EcuModel.FeedFrame | fuzz/ahdg_frames.c:123-152 | one frame through receiver, checks and server: verdict, reply and whole new state |
| Pipeline.EcuModel.ProbeGolden | fuzz/ahdg_frames.c:155-184 | the probe's verdict |
| Pipeline.FingerprintSeparates | fuzz/ahdg_hunt.c:200-232 | a fingerprint fits 19 bits and tells apart models that differ in session, level, pending seed, lockout, attempts up to three, receiver mode, an announced length, next number, active faults modulo 8, length bucket or a reset |
| EcuRuns.DataNeedsExtendedSession | fuzz/ahdg_frames.c:123-152 | over every trace of frames and waits the ECU's data changes only at a frame answered 54 or 51, both only in the extended session, the second only unlocked; 54 silences exactly the faults of one group, and 51 restarts everything but the count of resets |
| EcuRuns.ReportHoldsListed | src/ecu/ecu_data.c:114-158 | a fault report is the four-byte records of the active faults whose status meets the mask, in order, and nothing else |
| EcuRuns.IntersectsIff | src/ecu/ecu_data.c:114-158 | a status meets a mask if and only if they share a bit |
| EcuRuns.IdentifiersAnswer | src/ecu/ecu_data.c:272-322 | vehicle number, version and serial number by their text, and exactly seven known identifiers |
| EcuRuns.MeasurementsAnswer | src/ecu/ecu_data.c:258-322 | speed, voltage and temperature big-endian, negative temperatures in two's complement |
| EcuData.EmitBytes | src/ecu/ecu_data.c:236-256 | the value is copied if it fits, else nothing is written; bytes around it are kept |
| Words.Be32RoundTrip | src/uds/uds.c:691-730 | a word survives its big-endian encoding |
| Words.Xor32Injective | src/uds/uds.c:611-620 | masking by exclusive or loses nothing |
| Words.RotateLeftInjective | src/uds/uds.c:611-620 | rotation loses nothing |
| Words.WrapDifference | src/uds/uds.c:1008-1023 | a difference of wrapped clock readings is the wrapped difference of the instants |

## Left out

- SocketCAN, the real clock, process loops and signals, the service loops `diag_link_poll`, `diag_link_send` and `diag_link_recv`: frames and times are inputs, emitted frames an output sequence, and the number of frames the bus still takes an input.
- Clients, consoles, the web and Python tools, every text conversion, NULL-pointer branches and trace output.
- N_As, N_Ar, N_Br, N_Cs, N_WFTmax, CAN FD and extended addressing: the code has none of them.
- Random generators, campaign drivers, novelty scores, the transition and outcome tables of the hunter: a run is universally quantified instead.
- Secrecy: the key is a fixed function of the seed; nothing is claimed about guessing seeds.
- Frames longer than eight bytes: the run theorems of the receiver take classic CAN frames, as `src/platform/socketcan/can_socket.c:197` guarantees; the methods are proved for up to 255.
- The response length starts at zero in every call, as all callers of the server initialise it.
- Application callbacks are arbitrary functions from what they are called with to what they answer; a provider keeps to the room it is given. Their effects are not part of the server; in the pipeline the effect on the ECU's data is computed from the request and the reply.
- The benchmark's 64-bit reset counters are unbounded.
- Unreachable defaults: an unknown transmitter state and the second capacity test of the identifier read.
- A bisimulation of the shadow with the ECU: dropped keys make them differ by design, so the coupling goes one way.
- EcuData: sensor evolution over ticks is not modelled, and reading and clearing faults and the identifier table are functions on values, so their writes in place into buffer and fault array are not captured.
- Coverage.CoverageTable.Record: asks for a free slot if the fingerprint is new, since the probe loop of the code does not end otherwise.
- Coverage.CoverageTable.Reset: the transition and outcome tables, which the same call clears, are not modelled.
- Explorer.Minimise: the replay is any deterministic function of the sequence; the candidate is built as a value, not in the fixed-size scratch array of the code.
