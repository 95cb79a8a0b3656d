# lintel, modelled and proved in Dafny

lintel opens physical gates. This project models the parts of it that decide
whether a gate moves, and the parts that must not lose or invent anything on
the way, and proves properties of them over every input, every interleaving
or every run. `dafny verify dfyconfig.toml` checks everything.

How the models are built:

* What the program updates in place is a class whose methods are proved
  against a function or a relation on the abstract state. The protocol
  theorems are about that function.
* Concurrency, crashes and restarts are sequences of events folded by a total
  step function: an event that is not enabled changes nothing, so a theorem
  about `Exec(es)` for every `es` is one about every interleaving.
* An ordered chain of checks is a list, and the first one that fails is the
  reported reason (`Checklist`); each such chain also has an order-free
  condition, and the two are proved equivalent.
* What an operation means is also written down apart from its model, in plain
  terms and with the numbers spelled out (OpenPolicy, the predicates named
  ...AsDue and ...AsTold, JcsForm), and the operation is proved to do that.
* Signatures, random values, clocks, decoded messages and whether a disk write
  succeeds are parameters.

| modules | part of the system |
|---|---|
| WindowMath, OpenLimiter, OpenPolicy, OpenRuns, OpenDecision, OpenRaces, AccessLog, VisitorGrants | the backend's open limiter, its audit log, and visitor grants |
| EventLog, EventQueue, EventStore, GrantTrail, Agent | the controller's durable event queue and its audit trail of offline opens |
| Framing, BleSession, Windows, Grants, GrantRaces, OfflineGrants | the Bluetooth session, offline grants at the controller, and their issuing at the gateway |
| NonceStore, Commands, CommandClock, PairedState, HoldTimer, Controller | signed commands, replay protection and the clock, pinned key, held gates and lockdown |
| RefreshTokens | refresh-token families of the backend |
| Unicode, Jcs, JcsForm, JcsParse, Wire | canonical JSON and what a signature covers |
| NetworkOrder, WebSocketFrames, WebSocketConn, Mdns | WebSocket frames and DNS names |
| Common, Checklist | shared types and ordered checks |

Where a promise fails, the code is modelled as it is, and the exact condition
is a theorem:

* Counters are exact for the windows of the last two days; an insertion can
  make the table forget another counter of its scope exactly when that window
  is older (`OnlyStaleWindowsAreForgotten`, `StaleWindowUndercounts`).
* The limiter's fast path turns an admissible open into a denial exactly when
  the cooldown is over by the database's clock and not by the caller's
  (`FastPathChangesTheVerdictIff`).
* Compacting a fully delivered partition and reopening it restarts the
  numbering below the cursor, and the events up to the cursor are then lost
  (`CompactionKeepsNumberingIff`, `EventsAfterFullCompactionAreLost`).
* The traces of grant events are always as many as the events, and are the
  events themselves exactly when no overflow record was completed behind the
  fragment of an interrupted one (`GrantEventsAreConserved`).
* An ack out of drain order does not survive a restart
  (`AckSurvivesRestartIffOldest`).
* An oversize BLE header discards the messages completed in its own chunk, and
  chunking matters exactly then (`ChunkingMattersIffSwallowed`).
* Two calls with the same proof can both open, exactly when one passes its
  checks before the other has consumed the cnonce (`OpensTwiceIffOverlapped`,
  `OneChallengeOpensTwice`).
* A held gate loses its release timer exactly when a release has failed since
  the hold; no time that passes then ends the hold (`UntimedIffReleaseFailed`,
  `FailedReleaseHoldsForever`).
* An offline grant for access points of several controllers opens each of them
  at any of these controllers (`IssuedGrantOpensExactly`).
* A failed state write is not rolled back for a repair of the pinned key
  (`RollbackIsExact`, `FailedRepairSplitsThePin`).
* An accepted envelope is accepted again exactly when the store has dropped its
  nonce from memory, which takes a clock that goes beyond the envelope's horizon
  and comes back (`ReplayedExactlyWhenDropped`, `ReplayNeedsAClockStepBack`).
  An accepted ping delayed as long as it may be sets the clock back that far
  (`DelayedPingReplays`).
* The command window's length check wraps when issue and expiry are 2^63 s or
  more apart (`WindowCheckIsExact`).
* A native integer above 2^53 signs but reads back differently, and the
  literal 2^53 + 1 is accepted as 2^53 (`TripKeepsMeaningIff`,
  `IntegerLiteralsAreExactUpTo2To53`).

`proto/grants.md` lists the cnonce checks as step 10; the code reports an
unknown or replayed cnonce before it looks at the grant, and the model follows
the code.

## Model

| member | source | states |
|---|---|---|
| WindowMath.WindowStartUnique | backend/src/lib/rate-limit.ts:193-196 | windows tile time: the computed start is that of the only window holding the instant |
| WindowMath.WindowHintIsLeast | backend/src/lib/rate-limit.ts:199-203 | the window hint is the least number of whole seconds after which the window has rolled over, between 1 and the window length |
| WindowMath.CooldownHintIsLeast | backend/src/lib/rate-limit.ts:206-210 | the cooldown hint is the least number of whole seconds after which the cooldown has elapsed |
| OpenLimiter.TryBump | backend/migrations/20260505030000_rate_limit_hardening.sql:142-190 | refuses exactly when the increment would pass the cap; otherwise adds one, stays within it, and prunes as any insertion does |
| OpenLimiter.Bump | backend/migrations/20260505030000_rate_limit_hardening.sql:42-81 | adds the amount to that counter; of the others only stale windows of its scope can go |
| OpenLimiter.OnlyStaleWindowsAreForgotten | backend/migrations/20260505030000_rate_limit_hardening.sql:68-77 | an insertion can make the table forget another counter of its scope exactly when that window is more than two days old |
| OpenLimiter.Claim | backend/migrations/20260505030000_rate_limit_hardening.sql:207-246 | wins exactly when the cooldown has elapsed; other sentinels stay unless stale and pruned by an insert |
| OpenLimiter.OnlyStaleSentinelsAreForgotten | backend/migrations/20260505030000_rate_limit_hardening.sql:207-246 | a claim can prune another sentinel exactly when that is older than a day and than the cooldown |
| OpenLimiter.AdvanceConserves | backend/src/lib/rate-limit.ts:356-470 | every statement moves every counter of the last two days by exactly the change in what the attempt still holds |
| OpenLimiter.FailConserves | backend/src/lib/rate-limit.ts:481-491 | rolling back the savepoint gives back exactly what was held |
| OpenLimiter.AdmittedHoldsPlan | backend/src/lib/rate-limit.ts:380-440 | an admitted attempt accounts for exactly the counters that apply to it |
| OpenRuns.CountersCountOpens | backend/src/lib/rate-limit.ts:299-470 | in every interleaving a counter the table still keeps is the admitted attempts that used it plus those in flight that hold it |
| OpenRuns.QuiescentCountersAreOpens | backend/src/lib/rate-limit.ts:299-311 | with nothing in flight the counters the table still keeps equal successful opens |
| OpenRuns.StaleWindowUndercounts | backend/migrations/20260505030000_rate_limit_hardening.sql:68-77 | a run after which a stale window reads 0 although an open was admitted in it |
| OpenRuns.HandBackStaysNonNegative | backend/src/lib/rate-limit.ts:356-361 | for those counters what is handed back is always there; none is ever negative |
| OpenRuns.CapsAreExact | backend/src/lib/rate-limit.ts:299-311 | racing opens never take a capped counter past its cap, pruned or not |
| OpenRuns.OpensAreSpaced | backend/src/lib/rate-limit.ts:443-467 | two opens of one member and access point are at least the cooldown apart in every interleaving, pruning included |
| OpenDecision.AdmitsExactly | backend/src/lib/rate-limit.ts:358-470 | admission is the order-free conjunction of all limits; every denial carries a positive hint |
| OpenDecision.DenialNamesAnExhaustedLimit | backend/src/lib/rate-limit.ts:358-470 | the limit a denial names is exhausted: a charge of it is at its cap, or the cooldown still runs |
| OpenDecision.FastPathAgreesWithClaim | backend/src/lib/rate-limit.ts:364-378 | with agreeing clocks the read-only fast path never changes allow or deny |
| OpenDecision.FastPathChangesTheVerdictIff | backend/src/lib/rate-limit.ts:364-378 | with any two clocks the fast path turns allow into deny exactly when the counters allow and the cooldown is over by the database's clock only; never deny into allow |
| OpenDecision.SlowCallerClockOverdenies | backend/src/lib/rate-limit.ts:364-378 | a request for which it does |
| OpenDecision.SoloRunRefinesDecision | backend/src/lib/rate-limit.ts:316-470 | run alone, the limiter reaches that decision, adds one to exactly the applicable counters on admit, and changes nothing on denial, pruning apart |
| OpenDecision.CounterTable.CheckAndConsumeOpenLimits | backend/src/lib/rate-limit.ts:316-470 | allowed exactly when the opener's hourly count, the account's, and for anyone but an administrator the opener's and the location's daily counts are below their own limits and the cooldown is over by both clocks; else the first of these is named with the time until it may be over; the counters that apply go up by one exactly when allowed |
| OpenDecision.DecisionIsThePolicy | backend/src/lib/rate-limit.ts:316-470 | the same of the decision the step machine is proved to reach, for every table, request and pair of clocks |
| OpenDecision.ChargesThePolicy | backend/src/lib/rate-limit.ts:380-440 | the counters a request is charged on are its opener's and account's of the hour, and its opener's and location's of the day |
| OpenRaces.RacingOpensRespectLimits | backend/src/lib/rate-limit.ts:299-311 | in every interleaving of requests, when all that count towards a member's, account's or location's counter are bounded by c there, at most c of them are admitted |
| OpenRaces.RacingOpensAreSpaced | backend/src/lib/rate-limit.ts:443-467 | in every interleaving two opens admitted for the same opener and access point are a cooldown apart |
| OpenDecision.CounterTable.ConsumeAndClaim | backend/src/lib/rate-limit.ts:362-470 | the same for the sequence of charges and the final claim |
| OpenDecision.CounterTable.HandBack | backend/src/lib/rate-limit.ts:359-361 | the loop takes back one unit of each consumed counter and of no other |
| OpenDecision.CounterTable.Refuse | backend/src/lib/rate-limit.ts:359-361 | after it the table reads as the attempt found it |
| AccessLog.ExactlyOneAuditRow | backend/src/routes/access.ts:95-198 | a finished call left exactly one audit row agreeing with its verdict, any other call none |
| AccessLog.CloseIsAlwaysAllowed | backend/src/routes/access.ts:95-198 | close is never refused |
| AccessLog.AuditMatchesDailyCounter | backend/src/routes/access.ts:95-198 | successful open rows of a location and UTC day are its daily counter, while that is kept, plus the rows tagged degraded |
| AccessLog.ChokePoint.LogAccess | backend/src/routes/access.ts:95-198 | a close is allowed; an open is refused for a suspended account, then for a named user who is not active, then as the limits say, each with its reason and hint; with the counter store down it is allowed and tagged; one row says so, and the counters go up exactly for an open the limits admit |
| AccessLog.ArrivalIsGated | backend/src/routes/access.ts:95-198 | in the interleaved machine a call is answered on arrival for the same reasons, or put to the limiter with the request it stands for |
| AccessLog.LimitedCallsAreAnswered | backend/src/routes/access.ts:95-198 | and on leaving the limiter: allowed when admitted, allowed and tagged when the counter store failed, else refused with reason and hint, each with its row |
| VisitorGrants.UsesAreAllowedPlusInFlight | backend/src/routes/access.ts:785-813 | a grant's uses are its allowed commands plus those in flight plus those that died half-way, never above its maximum |
| VisitorGrants.RefundClampNeverFires | backend/src/routes/whatsapp.ts:225-275 | a pending refund always finds a use to give back, so the clamp at zero never fires |
| VisitorGrants.ConsumesWhatCovers | backend/src/routes/access.ts:785-813 | a command takes one use of a grant of its phone and access point that is active, in its time and not used up, the one ending earliest; it finds none exactly when there is none |
| VisitorGrants.SomeGrantIsTaken | backend/src/routes/access.ts:785-813 | where a grant covers a command there is one it can take |
| EventLog.DecodeEncode | controller/internal/events/queue.go:53-57 | a written line decodes to its entry |
| EventLog.LineForm | controller/internal/events/queue.go:53-57 | the bytes of a line: number and envelope under their names in one JSON object, the number without leading zeros |
| EventLog.ScanIgnoresTornTail | controller/internal/events/queue.go:109-141 | replay finds exactly the complete lines before whatever fragment a crash left |
| EventQueue.RecoveryIsExact | controller/internal/events/queue.go:109-172 | wherever the process dies, reopening yields the written, undelivered entries in order and numbers above all used and the cursor |
| EventQueue.TornAppendIsUndone | controller/internal/events/queue.go:155-172 | dying at any byte of an append is the same as never having started it |
| EventQueue.CompactionIsInvisible | controller/internal/events/queue.go:328-363 | compacting while something is pending never changes what recovery yields |
| EventQueue.CompactionKeepsNumberingIff | controller/internal/events/queue.go:328-363 | numbering survives compaction and restart exactly when something was pending or nothing was ever delivered |
| EventQueue.EventsAfterFullCompactionAreLost | controller/internal/events/queue.go:109-152 | in the other case, of any number of further events the following restart keeps exactly those numbered above the cursor: the first deliv + 1 are lost |
| EventQueue.FullyDeliveredIsReachable | controller/internal/events/queue.go:281-298 | that case is reachable |
| EventQueue.AckSurvivesRestartIffOldest | controller/internal/events/queue.go:281-306 | an ack agrees with what a restart brings back exactly when it named the oldest pending entry |
| EventStore.Partition.ReplayLog | controller/internal/events/queue.go:109-141 | the scanning loop computes the replay of the log |
| EventStore.Partition.Open | controller/internal/events/queue.go:109-152 | opening yields the reopened partition |
| EventStore.Partition.Append | controller/internal/events/queue.go:155-172 | memory and file after an append |
| EventStore.Partition.Ack | controller/internal/events/queue.go:281-306 | memory and cursor after an ack |
| EventStore.Partition.Compact | controller/internal/events/queue.go:328-363 | file after rewriting the pending entries |
| EventStore.Queue.Enqueue | controller/internal/events/queue.go:178-203 | a grant event is refused exactly when 1000 are pending; what is accepted becomes the newest entry under the next number, and only a normal event that meets 9000 pending ones drops anything, the oldest |
| EventStore.Queue.EnqueueGrantRedeemed | controller/internal/events/queue.go:209-230 | into the reserve, or the overflow log when it is full |
| EventStore.Queue.Drain | controller/internal/events/queue.go:261-278 | a prefix of all grants followed by all normal events |
| EventStore.Queue.DrainEvents | controller/internal/transport/runner.go:190-201 | exactly the events sent are acked, in drain order |
| EventStore.DrainAcksAreHeads | controller/internal/transport/runner.go:190-201 | after a drain exactly the unsent entries remain, in memory and after any restart |
| GrantTrail.GrantEventsAreConserved | controller/internal/events/queue.go:205-230 | in every run, wherever it dies, recorded grant events are as many as those acked, pending and in the overflow log, and are the same ones exactly when no overflow record was completed behind a fragment |
| GrantTrail.RecordedBeforeActuated | controller/internal/agent/agent.go:183-206 | in every run actuations never outnumber what is acked, in the reserve's file or in the overflow log, and at most 1000 are pending |
| GrantTrail.RecordSurvivesIffIntact | controller/internal/events/queue.go:220-230 | an overflow record stands on its own exactly when the log did not end in a fragment |
| GrantTrail.RecordAfterTornWriteIsFused | controller/internal/events/queue.go:220-230 | after a torn write the next record is fused to the fragment |
| GrantTrail.FusionIsReachable | controller/internal/events/queue.go:209-230 | runs in which that happens exist |
| Agent.Controller.OnRedeemed | controller/internal/agent/agent.go:183-206 | when the relay moves, once, the files already hold the grant event and do not yet hold the follow-up event |
| Agent.RedemptionIsRecordThenPulse | controller/internal/agent/agent.go:183-206 | one redemption is a whole record and then a pulse of the audit trail's machine |
| Agent.EveryMoveIsBacked | controller/internal/agent/agent.go:183-206 | in every run a restart at the moment the relay moves finds the trace of that very redemption |
| Framing.Chunk | controller/internal/framing/framing.go:35-57 | a frame is four bytes of length, the lowest first, and the message; chunks concatenate to it, all full but the last; refused exactly for messages over 8192 bytes and an MTU of four or less |
| Framing.Reassembler.Push | controller/internal/framing/framing.go:83-119 | one push agrees with a byte-at-a-time decoder, and keeps the header under four bytes and the buffer under the wanted length |
| Framing.CuttingIsIrrelevant | controller/internal/framing/framing.go:83-119 | how a stream is cut into pushes does not matter |
| Framing.AnyResplitDecodes | controller/internal/framing/framing.go:35-119 | any re-splitting of the frames of any messages yields those messages with nothing partial left |
| Framing.Reassembler.Abort | controller/internal/framing/framing.go:71-78 | aborting leaves nothing partial |
| BleSession.AnyChunkingIsDirect | controller/internal/blesession/session.go:63-118 | without an oversize header any chunking is the same as handling the messages directly |
| BleSession.OpenThenProofIsDirect | controller/internal/blesession/session.go:81-118 | an open then a proof, however cut, does exactly what the direct calls do, and answers with that challenge and result |
| BleSession.MessagesAreAnswered | controller/internal/blesession/session.go:81-118 | one message: an open is answered with a challenge of 30 s, a proof ends the session with its result, a proof before any open and anything else ends it with a denial |
| BleSession.OneResultThenSilence | controller/internal/blesession/session.go:63-134 | at most one redemption and one result, the result last, success exactly with a redemption |
| BleSession.OversizeHeaderEndsTheStream | controller/internal/blesession/session.go:63-79 | any stream with an oversize header comes to handling the messages of the earlier chunks and then the frame error |
| BleSession.ChunkingMattersIffSwallowed | controller/internal/blesession/session.go:63-79 | the central gets the answers it would get without chunking exactly when no message shares the header's chunk or the session was over before |
| BleSession.OversizeHeaderSwallowsItsChunk | controller/internal/blesession/session.go:67-72 | the smallest case of either kind |
| BleSession.Session.OnChunk | controller/internal/blesession/session.go:63-79 | the in-place session takes the modelled step |
| Windows.TimesAreABijection | controller/internal/grants/grants.go:338-354 | valid times and 0..1440 correspond one to one |
| Windows.DaysParseExactly | controller/internal/grants/grants.go:319-335 | a day string is accepted as a range exactly when it names it |
| Windows.InAnyWindow | controller/internal/grants/grants.go:288-311 | true exactly when the minute of the week lies in the union of the windows |
| Windows.WindowsAreWeekly | controller/internal/grants/grants.go:288-311 | windows repeat every 604800 seconds |
| Windows.WindowIsOpen | controller/internal/grants/grants.go:288-311 | a window is open on its days, counted from Monday 5 January 1970, from its first second until the second it ends, that one excluded |
| Windows.DaysAreNamed | controller/internal/grants/grants.go:319-335 | the seven names, from mon on |
| Windows.TimesRead | controller/internal/grants/grants.go:338-354 | hours and minutes in two digits each, and 24:00 as the end of the day |
| Windows.EveryDayIsAlwaysOpen | gateway/internal/httpapi/offline_grants.go:160-160 | the issued window covers every instant |
| Grants.OpensIffConforms | controller/internal/grants/grants.go:161-262 | a proof opens exactly when the conjunction of all checks holds, the clock being synced, not behind its last sync and at most 14 days past it (controller/internal/clock/clock.go:89-95) |
| Grants.DeniesForTheObjection | controller/internal/grants/grants.go:161-262 | the decision with its reason: the clock, the lockdown, the cnonce, then signature, times, device, access point, window, grant, proof and challenge |
| Grants.Exchange.HandleProof | controller/internal/grants/grants.go:161-262 | the first objection is reported and changes nothing; a proof that opens moves its cnonce to the used ones until 90 s past its challenge's end |
| Grants.Exchange.CheckGrant | controller/internal/grants/grants.go:209-254 | the reason is the first objection to the grant or the proof, with the limits spelled out |
| Grants.Exchange.HandleOpen | controller/internal/grants/grants.go:131-147 | registers a challenge of 30 s with the grant and access point asked for, and keeps, unchanged, exactly the pending entries up to 90 s past their end and the used ones within their time |
| Grants.Exchange.Gc | controller/internal/grants/grants.go:264-275 | keeps, unchanged, exactly the pending entries up to 90 s past their end and the used ones within their time |
| Grants.EachCnonceOpensOnce | controller/internal/grants/grants.go:131-275 | in every run each cnonce opens at most once, whatever is collected and whatever the clock does |
| Grants.ChallengeSurvivesOthers | controller/internal/grants/grants.go:131-275 | after any other opens within its time and any proofs for other cnonces, a challenge opens with exactly the proofs it would open with if it were the only one |
| Grants.ProofTouchesOnlyItsCnonce | controller/internal/grants/grants.go:255-261 | a denial leaves both tables; an opening moves exactly its cnonce to the used table |
| GrantRaces.OpensTwiceIffOverlapped | controller/internal/grants/grants.go:169-260 | with lookup and consumption as two steps, a cnonce has opened more than once exactly when two proofs for it overlapped |
| GrantRaces.TwoCallsCanBothOpen | controller/internal/grants/grants.go:169-260 | wherever a proof conforms, two overlapping calls with it both open |
| GrantRaces.OneChallengeOpensTwice | controller/internal/grants/grants.go:169-260 | a run from empty tables in which one challenge opens twice |
| GrantRaces.UnsplitCallIsSerialised | controller/internal/grants/grants.go:161-262 | a call not interleaved leaves the tables of the serialised one |
| OfflineGrants.IssueOfflineGrant | gateway/internal/httpapi/offline_grants.go:69-165 | issued exactly when every requested access point is open to the user now, else the first refusal; covers exactly the requested access points and their controllers, sorted, for seven days |
| OfflineGrants.Resolve | gateway/internal/httpapi/offline_grants.go:101-149 | the collecting loop stops at the first barred access point, and otherwise lists each controller once |
| OfflineGrants.IssuedGrantOpensExactly | gateway/internal/httpapi/offline_grants.go:101-161 | an issued grant opens exactly when the proof names a requested access point, the controller serves some requested one, the grant is alive and the remaining checks hold; the two need not belong together |
| NonceStore.MarkKeepsCover | controller/internal/noncestore/noncestore.go:70-87 | the file covers memory and both stay within 1024, also after a full store or a failed write |
| NonceStore.MarkEvictsNothingLive | controller/internal/noncestore/noncestore.go:66-87 | pruning removes exactly the expired; a store full of live nonces refuses |
| NonceStore.Store.Mark | controller/internal/noncestore/noncestore.go:70-87 | the in-place code takes that step |
| Commands.AcceptsIffConforms | controller/internal/command/command.go:64-112 | an envelope is accepted exactly when the conjunction of all checks holds and its nonce is recorded |
| Commands.Verify | controller/internal/command/command.go:64-112 | the reason is the first ground of refusal; past all of them the nonce is held in memory and file until 90 s after expiry and only expired ones are forgotten, unless 1024 are alive or the write fails |
| Commands.GroundsAreFirst | controller/internal/command/command.go:66-106 | signature, device, access point of open, hold and close, window, times, nonce, and under lockdown anything but lift, ping, config and repair, in this order |
| Commands.Objection | controller/internal/command/command.go:66-106 | the reason is the first ground of refusal, with the limits spelled out |
| Commands.WindowCheckIsExact | controller/internal/command/command.go:89-98 | with 64-bit arithmetic the computed window is the designed one exactly while issue and expiry are less than 2^63 apart |
| Commands.FarApartIsTimely | controller/internal/command/command.go:89-98 | an input beyond that which the design refuses and the check passes |
| Commands.NoEnvelopeAcceptedTwice | controller/internal/command/command.go:89-112 | under a clock that never steps back no envelope is accepted twice, across restarts and failed writes; a nonce only after its window closed |
| Commands.FileCoversMemory | controller/internal/noncestore/noncestore.go:40-87 | in every run, whatever the clock does, memory is part of the file and both are bounded |
| Commands.ReplayedExactlyWhenDropped | controller/internal/noncestore/noncestore.go:40-87 | over any deliveries, failed writes and restarts an admitted envelope passes again exactly when it conforms and the store has dropped its nonce from memory |
| Commands.KeptExactly | controller/internal/noncestore/noncestore.go:70-87 | until its nonce is admitted again, an admission is in memory and file exactly as the deliveries that reached the store, their clocks and the restarts say |
| Commands.DroppedOnlyBeyond | controller/internal/noncestore/noncestore.go:70-77 | a nonce is dropped only by a delivery, accepted or not, that reached the store beyond its horizon; without restarts by every such one |
| Commands.ReplayNeedsAClockStepBack | controller/internal/noncestore/noncestore.go:70-77 | so a replay takes a clock beyond the horizon and then inside it again |
| Commands.SteppedBackClockReplays | controller/internal/noncestore/noncestore.go:70-87 | a run in which an envelope is admitted twice, the delivery in between being refused |
| CommandClock.DelayedPingReplays | controller/internal/command/command.go:220-224 | for any acceptable command: with every write succeeding and the clock set by an accepted ping alone, a ping delayed past the command's horizon lets it be admitted twice |
| CommandClock.PingStepIsBounded | controller/internal/clock/clock.go:63-75 | an accepted ping sets the clock back by at most 150 s and ahead by at most 90 s; the run above attains the first |
| CommandClock.SteadyClockNeverReplays | controller/internal/clock/clock.go:41-50 | in a run in which no ping, connection or restart sets the clock back, no envelope is admitted twice |
| PairedState.RollbackIsExact | controller/internal/state/state.go:89-104 | a failed write leaves memory and file exactly unless it was a repair changing a paired key |
| PairedState.MutationsAreWritten | controller/internal/state/state.go:89-198 | a mutation that is written changes its own part of memory and file as given and nothing else |
| PairedState.FailedRepairSplitsThePin | controller/internal/state/state.go:153-165 | then memory and file trust different keys and agree on everything else |
| PairedState.Store.Mutate | controller/internal/state/state.go:89-104 | shallow copy, mutation and restore on a heap pairing yield that state |
| PairedState.Store.SavePairing | controller/internal/state/state.go:136-151 | refused for a bad key, a missing device or a changed key, in this order, changing nothing; else the pairing is replaced in memory and file, or the failed write leaves both |
| PairedState.Store.MergeInto | controller/internal/state/state.go:192-198 | config keys are overridden or added, none removed |
| Controller.Processor.Process | controller/internal/command/command.go:133-173 | an unpaired controller does nothing; else the verdict is that on its own device, access points, lockdown and pinned key; refused, it is acknowledged and recorded with its reason and nothing else changes; accepted, relay, timer, state, acknowledgement and events are as the command says |
| Controller.Processor.Obey | controller/internal/command/command.go:159-252 | open pulses for the configured time or 700 ms; hold latches for the seconds asked for if these are within hold_max or 1800, else for that; close releases and disarms the timer; the others write their own part of the state; each has its answer and record |
| Controller.Processor.Execute | controller/internal/command/command.go:175-252 | each command's outcome, its at most one actuation, at most one state write, its event and the release timer it leaves |
| HoldTimer.UntimedIffReleaseFailed | controller/internal/command/command.go:190-209 | in every run of commands, timer firings, passing time and exits a held gate has no armed release timer exactly when a release has failed since its last hold, and no timer runs on a gate that is not held |
| HoldTimer.HeldNoLongerThanAsked | controller/internal/command/command.go:254-268 | until a release fails, a gate is held no longer than its last hold asked for |
| HoldTimer.HeldIffHoldStands | controller/internal/relay/relay.go:17-26 | a gate is held exactly when no release or exit has followed its last hold |
| HoldTimer.FailedReleaseHoldsForever | controller/internal/command/command.go:203-261 | a close whose release fails, and a timer whose own release fails, leave the gate held through any time and any failing command |
| HoldTimer.DurationIsExactIff | controller/internal/command/command.go:200-200 | the conversion of seconds to a duration is exact exactly to 9223372036 s; the next value gives a negative time |
| Controller.Processor.TimerFires | controller/internal/command/command.go:254-261 | the code of the callback takes the firing step of that run machine, and records the release if it worked |
| Controller.Processor.ReadConfig | controller/internal/command/command.go:226-237 | a config payload is taken whole or refused whole |
| Controller.NothingMovesUnderLockdown | controller/internal/command/command.go:104-106 | in every run no command or grant actuates while the trace's last obeyed lockdown or lift is a lockdown |
| Controller.PinMovesOnlyByRepair | controller/internal/state/state.go:136-165 | the trusted key moves only by first pairing, by a repair verified under the key it replaces, or by a restart back to the file |
| Controller.WrittenPinsAgree | controller/internal/state/state.go:156-165 | while repairs are written memory and file trust the same key, so no restart moves it |
| RefreshTokens.LiveTokenIsTheLastIssued | backend/src/routes/auth.ts:384-462 | in every interleaving a family has at most one live token, the last one issued |
| RefreshTokens.LinksFormOneChain | backend/src/routes/auth.ts:441-451 | replaced_by leads from each token to exactly the next one issued in its family |
| RefreshTokens.DeadStaysDead | backend/src/routes/auth.ts:390-451 | a family without a live token never regains one |
| RefreshTokens.ReuseKillsTheFamily | backend/src/routes/auth.ts:390-409 | presenting a dead token ends its family for good, refreshes half done included |
| RefreshTokens.RevocationIsFinal | backend/src/routes/auth.ts:464-481 | logout ends its family and revoke-all every family of the user, for good |
| RefreshTokens.OneRotationPerToken | backend/src/routes/auth.ts:420-451 | of all refreshes that passed the check with one token at most one rotates it |
| RefreshTokens.RotationConservesLife | backend/src/routes/auth.ts:441-451 | rotation neither ends nor revives any family |
| RefreshTokens.TokenTable.Check | backend/src/routes/auth.ts:393-414 | a live token passes and changes nothing exactly before its expiry; after it, it alone is revoked; a dead one takes exactly its family with it |
| RefreshTokens.TokenTable.Rotate | backend/src/routes/auth.ts:420-455 | a live token of an active user is replaced by a new one of its family and user with the asked expiry; any other changes nothing |
| RefreshTokens.TransactionsAreDue | backend/src/routes/auth.ts:393-455 | the same of the two steps of the interleaved machine |
| RefreshTokens.PassedWereLive | backend/src/routes/auth.ts:384-420 | in every run each request between its transactions presented a token that was live and unexpired when checked |
| RefreshTokens.UnsplitRefreshRotates | backend/src/routes/auth.ts:384-462 | a refresh not interleaved replaces a live, unexpired token of an active user |
| RefreshTokens.LoginStartsOneFamily | backend/src/routes/auth.ts:133-173 | a login brings exactly its new family to life, with one token |
| RefreshTokens.RevokeUserEndsExactlyTheirFamilies | backend/src/routes/auth.ts:558-561 | revoking a user's tokens ends exactly the families the user owns and leaves every other as it was |
| Unicode.LessIsStrictTotalOrder | controller/internal/jcs/jcs.go:156-170 | ordering by UTF-16 code units is a strict total order on strings |
| Unicode.LessUtf16 | controller/internal/jcs/jcs.go:159-179 | the comparison with its ASCII shortcut is that order |
| Unicode.Utf16Injective | controller/internal/jcs/jcs.go:163-169 | distinct strings have distinct UTF-16 forms |
| Unicode.Utf16Form | controller/internal/jcs/jcs.go:163-169 | one unit in the basic plane, a surrogate pair beyond it (RFC 2781 section 2.1) |
| Unicode.LexIsFirstDifference | controller/internal/jcs/jcs.go:159-179 | a key comes before another as a proper prefix or by the smaller unit at the first difference |
| Unicode.KeysAreOrderedByUnits | controller/internal/jcs/jcs.go:156-170 | the order of the keys in the example of RFC 8785 section 3.2.3, a surrogate pair before U+FB33 |
| Unicode.Utf8Form | controller/internal/jcs/jcs.go:37-43 | the bytes of each character as in RFC 3629 section 3 |
| Unicode.Utf8Injective | controller/internal/jcs/jcs.go:37-43 | distinct texts have distinct bytes |
| Jcs.WriteJcs | controller/internal/jcs/jcs.go:57-116 | the text is determined by the value, whatever order maps are walked in; refused exactly when the value has no meaning |
| Jcs.WriteObject | controller/internal/jcs/jcs.go:94-111 | members once each, in key order |
| Jcs.SortKeys | controller/internal/jcs/jcs.go:95-99 | any walk order sorts to the one sequence in order |
| Jcs.OneOrder | controller/internal/jcs/jcs.go:99-99 | two ordered sequences of the same keys are equal |
| Jcs.WriteString | controller/internal/jcs/jcs.go:127-154 | quoted, with each character's shortest escape |
| JcsForm.LiteralsPrint | controller/internal/jcs/jcs.go:57-69 | the bytes of null, true and false |
| JcsForm.NumbersPrint | controller/internal/jcs/jcs.go:70-82 | a number is its sign and the digits of its places, with no leading zero |
| JcsForm.CharactersPrint | controller/internal/jcs/jcs.go:127-154 | each character as itself, as its short escape, or as u00 and two lower-case hexadecimal digits |
| JcsForm.StringsPrint | controller/internal/jcs/jcs.go:127-154 | a string is what its characters are, between quotes |
| JcsForm.ArraysPrint | controller/internal/jcs/jcs.go:83-93 | an array is its items in order with commas between them, in brackets |
| JcsForm.ObjectsPrint | controller/internal/jcs/jcs.go:94-111 | an object is its members in key order, each a string, a colon and a value, with commas between them, in braces |
| JcsForm.ValuesMean | controller/internal/jcs/jcs.go:57-82 | which values are refused, and that a double is printed exactly when it is an integer of at most 2^53 in magnitude |
| Jcs.IntegerLiteralsAreExactUpTo2To53 | controller/internal/jcs/jcs.go:77-82 | integer literals are accepted exactly to 2^53 + 1 and printed as themselves exactly to 2^53 |
| JcsParse.ReadsBack | controller/internal/jcs/jcs.go:57-154 | a parser recovers the value from its text followed by anything not starting with a digit |
| JcsParse.SameBytesIffSameMeaning | controller/internal/jcs/jcs.go:37-43 | two values have the same canonical bytes exactly when they say the same |
| JcsParse.SignatureCoversAllButItself | controller/internal/wire/wire.go:95-111 | the signed bytes fix every member but the signature, unknown ones included |
| Wire.CanonicalMinusSig | controller/internal/wire/wire.go:100-111 | the signature member and the canonical text of the rest |
| Wire.VerifyRaw | controller/internal/wire/wire.go:115-121 | accepted exactly when there is a signature and it verifies over those bytes |
| Wire.TripKeepsMeaningIff | controller/internal/wire/wire.go:125-133 | a value says the same after being sent exactly when its native integers are within 2^53 |
| Wire.SignedEnvelopeVerifies | controller/internal/wire/wire.go:115-133 | what one side signs verifies at the other, under that condition |
| WebSocketFrames.ReadAfterWrite | controller/internal/transport/ws.go:164-242 | whatever the mask and length form, reading recovers the frame and stops behind it (RFC 6455 sections 5.2 and 5.3) |
| WebSocketFrames.WriteAfterRead | controller/internal/transport/ws.go:164-209 | conversely all that is accepted is the encoding of the frame returned |
| WebSocketFrames.OversizeIsRefused | controller/internal/transport/ws.go:190-192 | frames above 2^20 bytes are refused |
| WebSocketFrames.MaskedTwice | controller/internal/transport/ws.go:203-207 | masking twice changes nothing |
| WebSocketFrames.FrameOnTheWire | controller/internal/transport/ws.go:216-242 | a written frame byte by byte: header bits, length in its shortest form with the high byte first, key, and each payload byte combined with the key byte of its position (RFC 6455 section 5.2) |
| WebSocketFrames.XorIsBitwise | controller/internal/transport/ws.go:203-207 | combined bit by bit |
| WebSocketFrames.StandardExample | controller/internal/transport/ws.go:216-242 | the unmasked example of RFC 6455 section 5.7 |
| WebSocketConn.MessageArrives | controller/internal/transport/ws.go:133-162 | any fragmentation with pings and pongs in between arrives whole, one pong per ping in order, exactly when every pong can be written; else the call fails (RFC 6455 section 5.4) |
| WebSocketConn.PeerReadsWhatIsWritten | controller/internal/transport/ws.go:216-242 | opcode and payload come back for every payload within the limit and every mask |
| WebSocketConn.CloseIsAnswered | controller/internal/transport/ws.go:145-147 | a close ends the stream and is answered with a close if that can be written |
| WebSocketConn.Conn.ReadMessage | controller/internal/transport/ws.go:133-162 | the loop returns, leaves unread and writes what the frame machine says |
| WebSocketConn.Conn.ReadFrame | controller/internal/transport/ws.go:164-209 | one frame off the stream, or the error |
| WebSocketConn.Conn.WriteFrame | controller/internal/transport/ws.go:216-242 | one final, masked frame in the shortest form |
| WebSocketConn.ApplyMask | controller/internal/transport/ws.go:204-206 | the loop XORs each byte with its key byte |
| Mdns.DecodeName | controller/internal/mdns/mdns.go:128-164 | terminates on every packet, reads only inside it, and returns the walked name and the bytes consumed |
| Mdns.ConsumedIsInside | controller/internal/mdns/mdns.go:128-164 | consumed is positive and inside the packet |
| Mdns.NameRoundTrip | controller/internal/mdns/mdns.go:128-222 | an appended name reads back from any offset, consuming exactly what was written |
| Mdns.CompressedNamesUpToTheBudget | controller/internal/mdns/mdns.go:128-164 | labels and pointers in any alternation read as all the labels in order exactly when there are at most eight pointers, consuming the bytes up to the first (RFC 1035 section 4.1.4) |
| Mdns.LoopIsRefused | controller/internal/mdns/mdns.go:134-163 | a name that leads back to itself through any labels and pointers is refused |
| Mdns.RunningIntoALoopIsRefused | controller/internal/mdns/mdns.go:134-163 | and so is every name that runs into such a loop |
| Mdns.AppendName | controller/internal/mdns/mdns.go:215-221 | appends the encoding of the labels between the dots |
| Mdns.LabelsOfName | controller/internal/mdns/mdns.go:216-216 | the labels are the same with or without the final dot |
| Mdns.NamesAre | controller/internal/mdns/mdns.go:128-222 | on the wire each label stands behind its length and a 0 ends the name; as text a dot stands behind each label |
| Mdns.PointersAre | controller/internal/mdns/mdns.go:145-155 | a pointer's two bytes and the offset in their lower fourteen bits |
| Mdns.IsQueryFor | controller/internal/mdns/mdns.go:98-124 | the loop finds a matching question unless a malformed one comes first |
| Mdns.QueryRecognised | controller/internal/mdns/mdns.go:98-124 | a well-formed query is recognised exactly when one of its questions asks for the name; the response bit is read where the header has it |

## Left out

- AccessLog.AuditMatchesDailyCounter: the audit row's day is the day of the request's clock, not the database's.
- OpenRuns.CountersCountOpens: Postgres row locks, isolation and an abort of the outer transaction after the limiter are not modelled; each SQL statement is one atomic step.
- Grants.OpensIffConforms: times are unbounded integers, so overflow of issue and expiry within 90 s of the 64-bit range is not modelled.
- Grants.EachCnonceOpensOnce: HandleProof is one serialised step; GrantRaces has the two steps the code takes.
- Commands.NoEnvelopeAcceptedTwice: the Seen and Mark calls of one verification are one step, and the clock is assumed not to step back (the other case is ReplayedExactlyWhenDropped).
- EventLog.DecodeEncode: a log line is accepted only in the form the program writes, and the raw envelope in it holds no newline; the JSON decoder's other spellings are not modelled.
- EventQueue.RecoveryIsExact: a write completes or the process dies inside it; disks that report errors and carry on are not modelled.
- Jcs.WriteJcs: strings are valid Unicode; Go's replacement of invalid UTF-8 is not modelled.
- Mdns.IsQueryFor: case folding is a parameter.
- Controller.Processor.Execute: races of the release timer with a running command are not modelled; numbers in payloads are already converted to integers.
- HoldTimer.HeldIffHoldStands: that a relay lets go of the gate when the process ends is what controller/internal/relay/gpio.go:10 asks of a driver, and assumed.
- OpenLimiter.FailConserves: rolling back a savepoint takes back the counts it added; stale windows its insertions had pruned are not put back.
- Agent.Controller.OnRedeemed: a redemption whose record fails in both files, which opens all the same, is not modelled.
- WebSocketConn.Conn.WriteFrame: a failed write puts nothing on the wire; a partial one is not modelled.
- BleSession.OpenThenProofIsDirect: which message a byte string decodes to is a parameter.
- OfflineGrants.IssueOfflineGrant: the store is one snapshot for the whole request, and its internal errors and the audit write are not modelled.
- VisitorGrants.UsesAreAllowedPlusInFlight: commands whose request dies between its transactions are counted on their own; the code never refunds them.
- InjectChallenge, time zones other than UTC, the websocket handshake and its authentication, the long-poll fallback: not modelled.
- Limits on one-time codes and chat messages, and the parsing and merging of limiter settings: only easy facts.
- Ed25519, HMAC, password hashing and token minting: uninterpreted.
- The gateway's copy of canonical JSON is the same algorithm and not modelled twice; its store, hub and keys packages are not part of this model beyond the issued grant.
- Web portal, admin console, message senders and formatting: nothing to prove beyond one branch each.
