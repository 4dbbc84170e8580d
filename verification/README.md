# Verified models of the liquidity-position runtime

Dafny models of the parts of the repository whose guarantees are global although the code is local: the repair of the
position ledger, the admission of RPC calls to endpoints, the reservation of spending, the mirror of runtime events (buffer,
flush loop, journal catch-up), the route scheduler, the matching of fills and orders to closed positions, the reduction of
lifecycle events, the pairing and deduplication of history, and the candidate pool with its fee-yield store.

`dafny verify dfyconfig.toml` checks the whole project.

## How the model is built

Each core source file has a module of the same shape. What the source computes with expressions is a function; what it
changes step by step is a class with methods or a method with loops, proved equal to a function of its inputs and old state;
the promises are lemmas about those functions, over every input and every run. Where calls interleave at `await` points
(endpoint admission, the flush loop) the run is a state machine whose actions are the stretches between two awaits.

What an operation leaves is stated a second time, apart from these functions: as predicates on the inputs, the history and
the result, with the texts, limits and times written out, and proved to hold exactly. The modules `LifecycleOutcome`,
`RpcHistory`, `SpendingOutcome`, `MirrorCircuit`, `JournalLines`, `RouteTick`, `LifecycleEventOutcome`, `OrderSeedOutcome`,
`CandidateOutcome` and `FeeYieldRetirement` hold nothing else.

Amounts are `real`, times are `int` milliseconds and stand for the ISO texts of the source, SQL tables are maps or lists of
rows, and each SQL transaction is one update. A timestamp that may be empty or unreadable is a `Stamp`. `localeCompare` on
free text is any total preorder.

Some expected properties turned out to hold under a condition only. For each of these an input breaks the property, and
except where "Left out" says otherwise the condition is proved exact, for all inputs:

- Repair needs four passes, not three, when an open intent is shared across targets
  (`LifecycleRepair.ThreePassesAreNotEnough`), and what is then left are position ids shared across targets. Rewriting one can
  bring about the next, so no fixed number of passes clears them all (`PositionIdCascade.CascadeTakesEveryPass`). As many
  more passes as there are records clear them exactly when no two records of different targets end at one id
  (`PositionIdCascade.RepairEndsExactly`). Where no chain address belongs to another target one more pass is enough, exactly
  when no two chainless records of different targets share an id (`LifecycleRepair.RepairClearsExactly`).
- The branch of the repair for chain-open-missing records is never reached (`LifecycleRepair.RepairAt`).
- A success on an endpoint wipes the cooldown that a concurrent 429 has just set. Cooldowns are kept exactly on endpoints
  registered for one request at a time (`RpcCooldown.CooldownsAreKeptIffSerial`).
- `recordSpend` takes negative amounts, after which a release or a settlement can clamp at 0 and the totals no longer match
  the history (`SpendingLedger.NegativeSpendBreaksAgreement`, `SpendingLedger.NegativeSpendBreaksSettling`). The totals are
  right throughout a run exactly when nothing clamps (`SpendingLedger.LedgerAgreesExactly`), which is always so without
  negative amounts (`SpendingLedger.NonnegativeSpendsNeverClamp`).
- Two `flushOnce` calls can pass the `flushing` check together, write one event twice and lose the next
  (`MirrorFlush.OverlappingFlushesLoseAnEvent`); beginning a call leaves every continuation with a right account exactly
  when no other stands between its check and its peek, or the circuit refuses it (`MirrorFlush.BeginIsSafeExactly`). With
  events that differ from one another, an enqueue during a write spoils the account exactly when it evicts from the batch
  (`MirrorFlush.EvictionSpoilsExactly`).
- Line 1,000,001 of a day file can have the offset of the next file's first line. Offsets increase exactly when no file with
  lines reaches the next one's first offset (`MirrorCatchup.OffsetsIncreaseExactly`); a catch-up can be resumed exactly when
  the offsets of readable lines increase and no line's is larger than the last line's (`MirrorCatchup.ResumableExactly`,
  `MirrorCatchup.CrowdedDaySkipsALine`).
- Observing a second chain position of the same pool and mint takes over the first one's record
  (`LifecycleEventReducer.SecondPositionReplacesTheFirst`, exact in `LifecycleEventReducer.StepLosesOnlyTheRekeyed`).
- A batch that names one source twice can hide an openable row (`CandidatePool.ListingIsExact`).
- Retention lists only openable rows exactly when it falls short of a source's life by at most a millisecond
  (`CandidatePool.ListingNeedsRetention`), and spaces fee-yield samples exactly when it falls short of their interval by at
  most a millisecond (`PoolFeeYield.SpacingNeedsRetention`).

## Model

| member | source | states |
|---|---|---|
| LifecycleAudit.FindCrossTargetIdentityIssues | src/cli/lifecycle-audit-main.ts:122-148 | the grouping loops report, for each identity field in order of first appearance, each value recorded under more than one target |
| LifecycleRepair.CrossTargetExact | src/cli/lifecycle-audit-main.ts:122-148 | a value is reported exactly when two records with different targets carry it |
| LifecycleRepair.IssuesExact | src/cli/lifecycle-audit-main.ts:362-377 | each kind of issue is reported exactly when some record warrants it |
| LifecycleRepair.PlanExact | src/cli/lifecycle-audit-main.ts:385-426 | with distinct keys, the key sets built from the issues decide about exactly the record that owns the key |
| LifecycleRepair.RepairAt | src/cli/lifecycle-audit-main.ts:428-548 | each record is rewritten by its own fields alone; the chain-open-missing branch is dead (what the rewrites leave is stated by the LifecycleOutcome members) |
| LifecycleOutcome.IssuesExactly | src/cli/lifecycle-audit-main.ts:165-377 | each issue other than a shared identity is reported exactly when its text holds of some record of its key, reasons, limits and the superseding record included |
| LifecycleOutcome.StalePendingOpenEnds | src/cli/lifecycle-audit-main.ts:434-453 | a stale pending open ends failed_terminal exactly when its reason is one of the four never-submitted ones or chain-missing, or it was missed on chain before; otherwise reconcile_required; and every other field |
| LifecycleOutcome.SupersededOpenEnds | src/cli/lifecycle-audit-main.ts:455-467 | an open that a closed chain record of the ledger supersedes ends closed and names that record |
| LifecycleOutcome.UnbackedOpenEnds | src/cli/lifecycle-audit-main.ts:469-491 | any other open without chain evidence ends failed_terminal exactly when entrySol is absent or 0 or the reason is a never-submitted one; otherwise reconcile_required |
| LifecycleOutcome.PaperEnds | src/cli/lifecycle-audit-main.ts:513-525 | a reconciled paper position ends closed, with its evidence kept |
| LifecycleOutcome.ClosedEnds | src/cli/lifecycle-audit-main.ts:502-511 | a closed record loses exactly its four pending fields |
| LifecycleOutcome.OtherRecordEnds | src/cli/lifecycle-audit-main.ts:527-545 | a record without an issue of its own loses exactly the identities it shares with another target |
| LifecycleOutcome.CleanExactly | src/cli/lifecycle-audit-main.ts:362-377 | the audit finds nothing exactly when no record has an issue of its own or an identity of another target |
| LifecycleOutcome.FailedAttemptStaysFailed | src/cli/lifecycle-audit-main.ts:379-548 | over any number of passes a failed attempt is failed_terminal and never sent to reconciliation |
| LifecycleOutcome.SupersededStaysClosed | src/cli/lifecycle-audit-main.ts:379-548 | over any number of passes a superseded open stays closed and names its record |
| LifecycleOutcome.ReconciledAttemptEnds | src/cli/lifecycle-audit-main.ts:379-548 | any other repaired open stays in reconciliation, except that the second pass closes a paper position |
| LifecycleRepair.RankFalls | src/cli/lifecycle-audit-main.ts:428-548 | a lifecycle rank strictly falls on every record that still has an issue of its own |
| LifecycleRepair.RepairSettles | src/cli/lifecycle-audit-main.ts:379-548 | no record is added, dropped, reordered or reopened, and keys and targets stay |
| LifecycleRepair.PassFalls | src/cli/lifecycle-audit-main.ts:379-548 | every pass lowers the number of passes that any record may still need |
| LifecycleRepair.RepairConverges | src/cli/lifecycle-audit-main.ts:362-548 | for any ledger with distinct keys, three passes (four with a shared open intent) leave no issue except position ids shared across targets |
| LifecycleRepair.RepairReachesFixpoint | src/cli/lifecycle-audit-main.ts:379-383 | without shared position ids nothing is left, and another pass is the identity |
| LifecycleRepair.PinnedConflictStays | src/cli/lifecycle-audit-main.ts:532-545 | a position id shared by two records of different targets, each chainless or at that very address, is reported after any number of passes |
| LifecycleRepair.RepairClearsExactly | src/cli/lifecycle-audit-main.ts:362-548 | where no chain address is another target's address or position id, four passes (five with a shared open intent) or more leave no issue at all exactly when no two chainless records of different targets share a position id |
| PositionIdCascade.PassesDisplace | src/cli/lifecycle-audit-main.ts:532-534 | once nothing else is left to repair, each pass is one step of a cascade: a record takes its chain address as position id once its own is shared with another target's record, as that one stands by then |
| PositionIdCascade.StillAfterAll | src/cli/lifecycle-audit-main.ts:532-534 | the cascade is at rest after as many steps as there are records |
| PositionIdCascade.QuietLedgerEndsExactly | src/cli/lifecycle-audit-main.ts:379-548 | from a ledger with nothing but position ids to repair, as many passes as records leave no issue exactly when no two records of different targets end at one position id, each chainless or displaced to that address |
| PositionIdCascade.RepairEndsExactly | src/cli/lifecycle-audit-main.ts:362-548 | from any ledger with distinct keys the same holds of the ledger that three passes (four with a shared open intent) leave, and for that many passes more |
| PositionIdCascade.OwnAddressesDoNotCascade | src/cli/lifecycle-audit-main.ts:532-534 | where no chain address is another target's address or position id, two such records are two chainless ones that share a position id |
| PositionIdCascade.CascadeTakesEveryPass | src/cli/lifecycle-audit-main.ts:379-548 | for every n a ledger of n + 1 records still has an issue after n - 1 passes and none after n |
| LifecycleRepair.TwoPassesAreNotEnough | src/cli/lifecycle-audit-main.ts:434-530 | an open, chainless, paper-valued record with pending fields still has an issue after two passes and none after three |
| LifecycleRepair.ThreePassesAreNotEnough | src/cli/lifecycle-audit-main.ts:434-545 | with a shared intent an issue can be left after three passes and none after four |
| LifecycleRepair.ProtectedOpenWitness | src/cli/lifecycle-audit-main.ts:122-148 | there is a ledger with such a shared intent and no shared position id |
| LifecycleRepair.DuplicateKeysReopen | src/cli/lifecycle-audit-main.ts:398-440 | without distinct keys a closed record is turned into a reconcile-required one |
| RpcEndpointRegistry.Registry.Register | src/execution/rpc-endpoint-registry.ts:190-211 | what registering leaves: a new endpoint, or the old one with one more kind and the smaller concurrency |
| RpcEndpointRegistry.Registry.TryStart | src/execution/rpc-endpoint-registry.ts:272-298 | one candidate of a pass: cooling down, spaced out, full, or started with its slot and next request time |
| RpcEndpointRegistry.Registry.CompleteOk | src/execution/rpc-endpoint-registry.ts:300-312 | what a success leaves, including the strike reset after the decay window |
| RpcEndpointRegistry.Registry.CompleteError | src/execution/rpc-endpoint-registry.ts:321-349 | what a failure leaves: released, and for a retryable one cooled down and struck (the cooldown of each class is stated by RpcHistory.EndpointsAreTheirHistory) |
| RpcAdmission.CountsKept | src/execution/rpc-endpoint-registry.ts:298-349 | in-flight is the number of executing calls after every action of every interleaving, so the clamp at 0 never fires |
| RpcAdmission.StrikeRunIsLongest | src/execution/rpc-endpoint-registry.ts:307-338 | the reference count is the length of the longest suffix of 429 times with gaps inside the decay window |
| RpcAdmission.LogSoundKept | src/execution/rpc-endpoint-registry.ts:259-364 | spacing, cooldowns and strikes agree with the history after every action |
| RpcAdmission.AdmissionIsSafe | src/execution/rpc-endpoint-registry.ts:239-364 | over every schedule: counts, spacing of starts, a start inside a cooldown only after a success in between, strikes equal to the run of 429s and scaling the cooldown, and the concurrency limit when registration comes first |
| RpcAdmission.StaleClockIsHarmless | src/execution/rpc-endpoint-registry.ts:269-298 | a start never comes before the endpoint's present cooldown or next request time nor without a free slot, although a pass works with an old clock reading |
| RpcHistory.EndpointsAreTheirHistory | src/execution/rpc-endpoint-registry.ts:239-350 | over every schedule each endpoint field is read off the log of starts and ends, and each failure asks for exactly the greatest of the cooldown of its class (timeouts, server errors, 429s scaled by their run), its own cooldown and, for a 429, its retry-after |
| RpcHistory.FailedEndpointIsLeftAlone | src/execution/rpc-endpoint-registry.ts:239-349 | over every schedule an endpoint that failed is not started again for any of these times unless a request succeeds in between |
| RpcHistory.RegistrationsAreKept | src/execution/rpc-endpoint-registry.ts:190-211 | over every schedule the endpoints are those registered, each with all its kinds and its least concurrency |
| RpcHistory.VisitExactly | src/execution/rpc-endpoint-registry.ts:272-298 | a visit starts a request exactly when its endpoint is registered, cooled down, spaced and has a free slot at the time of the pass; else it notes the time the endpoint opens |
| RpcHistory.PassEndsExactly | src/execution/rpc-endpoint-registry.ts:350-364 | a pass that started nothing gives up exactly when the deadline or a noted time has come, and else sleeps until the earliest of them |
| RpcHistory.InvokedExactly | src/execution/rpc-endpoint-registry.ts:259-268 | an invocation waits for its first pass exactly when it names an endpoint |
| RpcHistory.CallsKeepTheirTerms | src/execution/rpc-endpoint-registry.ts:259-364 | over every schedule a call works with the candidates, kind and deadline it was invoked with |
| RpcCooldown.SerialThroughout | src/execution/rpc-endpoint-registry.ts:259-350 | on an endpoint with room for one request, no start of any schedule comes before the end of an earlier cooldown, and while a request runs all of them have run out |
| RpcCooldown.SuccessCutsCooldownShort | src/execution/rpc-endpoint-registry.ts:300-305 | with two requests in flight, a failure and then a success let the next request start inside the cooldown |
| RpcCooldown.TwoInFlightArises | src/execution/rpc-endpoint-registry.ts:259-298 | every endpoint with room for two requests gets there, whatever the interval between requests |
| RpcCooldown.CooldownsAreKeptIffSerial | src/execution/rpc-endpoint-registry.ts:190-350 | over every schedule after the registrations, an endpoint's cooldowns are kept outright exactly when it is registered for one request at a time |
| SpendingLimits.SpendingLimitsStore.Record | src/risk/spending-limits.ts:173-187 | the new state, or a throw that stores nothing |
| SpendingLimits.SpendingLimitsStore.Reserve | src/risk/spending-limits.ts:189-226 | the new state; a repeated key is a no-op and a changed amount a throw |
| SpendingLimits.SpendingLimitsStore.Release | src/risk/spending-limits.ts:233-279 | the new state; settled, missing or unexpected reservations are no-ops |
| SpendingLimits.SpendingLimitsStore.Settle | src/risk/spending-limits.ts:281-326 | the new state, booked with the difference to what was booked |
| SpendingLedger.ReadAgrees | src/risk/spending-limits.ts:63-100 | resetting the buckets on a read keeps the totals what is due in the new day and hour |
| SpendingLedger.RecordKeeps | src/risk/spending-limits.ts:173-187 | recording a spend of either sign throws exactly when a total would fall below zero, and otherwise keeps totals and history in agreement |
| SpendingLedger.ReserveKeeps | src/risk/spending-limits.ts:189-226 | reserving keeps agreement |
| SpendingLedger.ReleaseKeeps | src/risk/spending-limits.ts:233-279 | a release without a clamp is stored and keeps everything coherent |
| SpendingLedger.SettleKeeps | src/risk/spending-limits.ts:281-326 | a settlement without a clamp is stored and keeps everything coherent |
| SpendingLedger.LedgerAgrees | src/risk/spending-limits.ts:63-326 | after any run without a clamp, whoever reads later finds daily and hourly totals and counts equal to recorded spends plus booked reservations of the then current buckets |
| SpendingLedger.ReleaseAgreesExactly | src/risk/spending-limits.ts:255-275 | a release keeps agreeing totals right exactly when neither total it lowers is below the released amount |
| SpendingLedger.SettleAgreesExactly | src/risk/spending-limits.ts:290-322 | a settlement keeps agreeing totals right exactly when no total it moves would fall below zero |
| SpendingLedger.PerformAgreesExactly | src/risk/spending-limits.ts:173-326 | one operation of any kind, spends of either sign, leaves agreeing totals exactly when it does not clamp |
| SpendingLedger.LedgerAgreesExactly | src/risk/spending-limits.ts:63-326 | over any run from an empty store the totals agree with the history after every operation exactly when no release and no settlement clamps |
| SpendingLedger.NonnegativeSpendsNeverClamp | src/risk/spending-limits.ts:173-326 | in a run without negative spends no release and no settlement ever clamps |
| SpendingLedger.NegativeSpendBreaksAgreement | src/risk/spending-limits.ts:173-279 | reserve 5, record -3, release: the stored total is 0 where -3 is due |
| SpendingLedger.NegativeSpendBreaksSettling | src/risk/spending-limits.ts:173-326 | reserve 5, record -3, settle at 1: the settlement clamps and the totals disagree |
| SpendingLedger.ReserveIsIdempotent | src/risk/spending-limits.ts:194-202 | repeating a reservation changes nothing exactly within its reset day, and another amount throws |
| SpendingLedger.ReleaseUndoesReserve | src/risk/spending-limits.ts:189-279 | reserve then release of a fresh key in one hour restores the state that was read |
| SpendingLedger.GuardedKeepsCaps | src/risk/spending-limits.ts:114-326 | one guarded operation keeps the stored totals within the limits |
| SpendingLedger.CapsHold | src/risk/spending-limits.ts:114-326 | over any guarded run the totals that are read never exceed the daily and hourly limits |
| SpendingOutcome.ReadExactly | src/risk/spending-limits.ts:54-112 | on another reset day a read forgets everything, in another hour only the hour's totals |
| SpendingOutcome.AdmittedExactly | src/risk/spending-limits.ts:114-151 | a request is admitted exactly within the single-order, hourly and daily limits, and a refusal names the first of them it exceeds |
| SpendingOutcome.SingleOrdersHold | src/risk/spending-limits.ts:114-326 | over any guarded run no direct spend and no reservation, as requested or as settled, exceeds the single-order limit |
| SpendingOutcome.StoredExactly | src/risk/spending-limits.ts:14-29 | a state is stored exactly when no total, count or amount in it is negative and every reservation has a key |
| SpendingOutcome.ReleaseExactly | src/risk/spending-limits.ts:233-279 | a release is a no-op exactly for a settled or unexpected reservation; otherwise it takes the first of its key away and lowers the totals and counts of the day and hour it was made in, down to 0 at most |
| SpendingOutcome.SettlementExactly | src/risk/spending-limits.ts:281-326 | a settlement writes its amount into the reservation of its key, keeps when that was reserved, leaves the others, and moves the totals by the difference to what was booked |
| SpendingOutcome.SettlementRepeatsExactly | src/risk/spending-limits.ts:285-292 | a settlement stores nothing exactly when its amount is not positive or already settled |
| MirrorBuffer.MirrorBuffer.Enqueue | src/observability/mirror-buffer.ts:30-47 | the new queue, the answer and the drop counters of an enqueue |
| MirrorBuffer.MirrorBuffer.FindRemovableIndex | src/observability/mirror-buffer.ts:72-88 | the first of the lowest-ranked events, if that rank is below the incoming one, and -1 otherwise |
| MirrorBuffer.EnqueueKeepsBest | src/observability/mirror-buffer.ts:30-47 | one enqueue keeps as many events of at least each rank as the capacity allows |
| MirrorBuffer.EvictionKeepsBest | src/observability/mirror-buffer.ts:30-96 | after any run of enqueues the same holds for the whole run, the queue is the arrivals with some left out in order, and the counters say how many |
| MirrorRuntime.MirrorRuntime.MaybePrune | src/observability/mirror-runtime.ts:65-98 | a prune runs exactly when it is configured and forced or due, dates itself only when it succeeds, and never closes an open circuit |
| MirrorRuntime.MirrorRuntime.FlushOnce | src/observability/mirror-runtime.ts:100-164 | an uninterrupted flush: refused exactly while a flush is on or before the time an open circuit holds it off until; it writes and acknowledges the front batch exactly when some attempt succeeds; failure number failureThreshold in a row opens the circuit until cooldownMs after the call began |
| MirrorFlush.CircuitKept | src/observability/mirror-runtime.ts:87-158 | the circuit is open exactly while the consecutive failures reach the threshold, under every interleaving |
| MirrorCircuit.CircuitIsItsHistory | src/observability/mirror-runtime.ts:87-158 | under every interleaving the circuit is open exactly when the threshold of batches was given up since the last write, and then until cooldownMs after the beginning of the last such call |
| MirrorCircuit.EntersExactly | src/observability/mirror-runtime.ts:100-110 | a call that begins at t enters exactly when no flush holds the flag and the threshold has not been reached, or t is at least that time |
| MirrorCircuit.AttemptsAreFailedWrites | src/observability/mirror-runtime.ts:123-147 | a call's attempts are its failed writes, at most maxRetries while it still writes |
| MirrorCircuit.GivesUpExactly | src/observability/mirror-runtime.ts:128-158 | a batch is given up exactly by failed write number maxRetries + 1, at the time its call began; it stays queued |
| MirrorCircuit.TakesExactly | src/observability/mirror-runtime.ts:114-121 | a call past the check takes the first batchSize events of the queue, or all there are, and raises the flag; with nothing to take it ends |
| MirrorCircuit.WritesExactly | src/observability/mirror-runtime.ts:131-142 | a successful write stores its batch, takes as many events off the queue and ends its call |
| MirrorFlush.FlushConserves | src/observability/mirror-runtime.ts:100-164 | over every run in which no flush begins between another one's check and peek and no eviction takes from a batch in hand, calls during a write included: the flag is set exactly while a batch is in hand, each offered event is exactly one of written, queued, dropped, in arrival order, and no call writes inside an open circuit's cooldown |
| MirrorFlush.FlagRefuses | src/observability/mirror-runtime.ts:101-103 | a call that comes while another one is writing changes nothing |
| MirrorFlush.BeginIsSafeExactly | src/observability/mirror-runtime.ts:101-132 | with positive capacity and batch size, beginning a call leaves the account right over every disciplined continuation exactly when the circuit refuses it or no other call stands between its check and its peek |
| MirrorFlush.StrayBatchSpoils | src/observability/mirror-runtime.ts:114-132 | a call that still holds a batch while the flag is down leads to a wrong count of events, however long the queue |
| MirrorFlush.WriteConservesExactly | src/observability/mirror-runtime.ts:131-132 | a write keeps the account exactly when what it acknowledges is what it wrote |
| MirrorFlush.EvictionSpoilsExactly | src/observability/mirror-runtime.ts:114-132 | with distinct events, an enqueue during a write spoils the account after it exactly when it evicts from the batch in hand |
| MirrorFlush.OverlappingFlushesLoseAnEvent | src/observability/mirror-runtime.ts:101-121 | two overlapping flushes write one event twice and lose the next |
| MirrorCatchup.ReadRotatedSince | src/observability/mirror-catchup.ts:155-187 | the lines past a cursor over all rotated files, in order |
| MirrorCatchup.EnqueueLines | src/observability/mirror-catchup.ts:534-557 | the line loop of one journal: what it enqueues and where its cursor stops, dropping nothing |
| MirrorCatchup.EnqueueCatchup | src/observability/mirror-catchup.ts:495-571 | what a run enqueues and stores; it never evicts or drops |
| JournalLines.BudgetExactly | src/observability/mirror-catchup.ts:495-515 | catch-up runs exactly while the circuit is healthy and less than half the queue is in use, and then for as many events as there is room for and the caller allows |
| JournalLines.AllLinesExactly | src/observability/mirror-catchup.ts:42-50 | the lines that are not empty, file by file: line i has its number after a million for each day number, and a value unless it is malformed |
| JournalLines.SinceExactly | src/observability/mirror-catchup.ts:155-187 | the unseen lines are exactly those with a number past the cursor, in order |
| JournalLines.EventsExactly | src/observability/mirror-catchup.ts:539-556 | each line gives what its journal makes of its value and number, malformed ones nothing |
| MirrorCatchup.OffsetsIncreaseExactly | src/observability/mirror-catchup.ts:42-50 | offsets strictly increase over all lines of the files exactly when, for each two successive files with lines, the last line number of the earlier is less than the day gap times 1,000,000 plus the first of the later |
| MirrorCatchup.MillionLinesAreEnough | src/observability/mirror-catchup.ts:42-50 | day files in order whose last line is at most number 1,000,000 meet that condition |
| MirrorCatchup.CrowdedDaySkipsALine | src/observability/mirror-catchup.ts:503-571 | where it fails between two files of any journal, a run that stops at the end of the earlier one makes every later run skip the later one's first line |
| MirrorCatchup.CursorsOnlyAdvance | src/observability/mirror-catchup.ts:525-562 | no cursor goes back, whatever the files |
| MirrorCatchup.CatchUpTakesAPrefix | src/observability/mirror-catchup.ts:503-571 | a run with budget b enqueues the first b pending events and leaves exactly the rest pending |
| MirrorCatchup.CatchUpIsResumable | src/observability/mirror-catchup.ts:503-571 | budget b1 and then b2 give the same events and cursors as b1 + b2 |
| MirrorCatchup.ResumableExactly | src/observability/mirror-catchup.ts:503-571 | a journal resumes under all budgets and conversions exactly when the offsets of its readable lines increase and none is larger than its last line's; without malformed lines, exactly when its files follow one another |
| RouteScheduler.SelectRouteCandidates | src/candidate-pool/worker.ts:109-160 | the candidates returned and the rotation left are those of one tick over the sorted priority list and the discovery list |
| RouteScheduler.ListsSplitTheCandidates | src/candidate-pool/worker.ts:118-122 | the two lists split the candidates by the priority addresses, and the first follows their order |
| RouteTick.ListsExactly | src/candidate-pool/worker.ts:118-122 | the candidates with a priority address, as often as given, by the last place of their address and then as given; and the others as given |
| RouteTick.LimitsExactly | src/candidate-pool/worker.ts:116-117 | both limits are rounded down, at least 1, and discovery at most the maximum |
| RouteTick.TickExactly | src/candidate-pool/worker.ts:95-160 | a single slot goes to discovery at every fourth turn; otherwise reserve, priority share and discovery share are each the least of what is there and what is left; both lists go on from their cursors and around |
| RouteScheduler.TickIsBounded | src/candidate-pool/worker.ts:124-159 | a tick takes no position twice, at most maximumPools in all, and something whenever there is something |
| RouteScheduler.DiscoveryKeepsItsReserve | src/candidate-pool/worker.ts:139-159 | discovery gets its reserve and no more, and the priorities all the rest they can use |
| RouteScheduler.SharesArePositive | src/candidate-pool/worker.ts:142-157 | outside single-slot mode a non-empty list always has a share, so its cursor is never reset |
| RouteScheduler.TakeApproaches | src/candidate-pool/worker.ts:95-107 | a circular take reaches exactly the positions nearer than its share and brings the others nearer by that much |
| RouteScheduler.PriorityIsServed | src/candidate-pool/worker.ts:95-160 | from any cursors every priority position is taken within ceil(P / p) ticks, or 4 ceil(P / 3) in single-slot mode |
| RouteScheduler.DiscoveryIsServed | src/candidate-pool/worker.ts:95-160 | from any cursors every discovery position is taken within ceil(D / d) ticks, or 4 D in single-slot mode |
| RouteScheduler.NoCandidateStarves | src/candidate-pool/worker.ts:109-160 | with fixed lists every candidate is returned within its list's bound |
| LifecycleEventReducer.ReduceLifecycleEventsToLedger | src/runtime/lifecycle-event-reducer.ts:118-250 | the event loop computes the fold of the steps over the sorted events |
| LifecycleEventReducer.RecordList.Apply | src/runtime/lifecycle-event-reducer.ts:125-243 | the new record list after one event |
| LifecycleEventReducer.RecordList.SupersedeSyntheticRecords | src/runtime/lifecycle-event-reducer.ts:62-116 | each record after the superseding loop |
| LifecycleEventReducer.SupersedeTouchesSyntheticOnly | src/runtime/lifecycle-event-reducer.ts:85-115 | superseding changes no key, no chain address and no closed or chain-addressed record |
| LifecycleEventOutcome.SubmissionExactly | src/runtime/lifecycle-event-reducer.ts:134-163 | a submitted open turns the first record it is about, or a blank one under a new key, into its pending open, field by field, and touches no other key |
| LifecycleEventOutcome.ObservationExactly | src/runtime/lifecycle-event-reducer.ts:165-202 | an observed address moves the first record it is about, or a blank one, under its key as the open position, and closes in its favour exactly the live chainless records that are the same |
| LifecycleEventOutcome.CloseExactly | src/runtime/lifecycle-event-reducer.ts:204-226 | a close closes the first record it is about, field by field, and the live chainless records that are the same |
| LifecycleEventOutcome.CleanupExactly | src/runtime/lifecycle-event-reducer.ts:228-242 | a residual cleanup marks the first record it is about complete, or pending unless the event says otherwise, and changes no other |
| LifecycleEventOutcome.OthersChangeNothing | src/runtime/lifecycle-event-reducer.ts:125-243 | every other event, and a close or cleanup about no record, changes nothing |
| LifecycleEventOutcome.LedgerExactly | src/runtime/lifecycle-event-reducer.ts:118-250 | events are reduced by time and then key, and the ledger carries the time of the latest |
| LifecycleEventReducer.StepKeepsSound | src/runtime/lifecycle-event-reducer.ts:42-242 | every event keeps keys unique and each chain-addressed record under its address's key |
| LifecycleEventReducer.ReduceKeepsSound | src/runtime/lifecycle-event-reducer.ts:118-250 | so does every run |
| LifecycleEventReducer.SoundLedgerHasNoAddressTwice | src/runtime/lifecycle-event-reducer.ts:165-202 | in such a ledger no chain address has two records |
| LifecycleEventReducer.ObservationSettlesIdentity | src/runtime/lifecycle-event-reducer.ts:165-202 | after an observation no other live chainless record shares an intent, idempotency key or entry submission with the chain record |
| LifecycleEventReducer.CloseSettlesIdentity | src/runtime/lifecycle-event-reducer.ts:204-226 | after a close the record is closed and no live chainless record shares its identity or was missing in its pool and mint before |
| LifecycleEventReducer.SubmissionOpensPending | src/runtime/lifecycle-event-reducer.ts:134-163 | after a submission its record is a pending open of that submission and no record of another key changed |
| LifecycleEventReducer.StepLosesOnlyTheRekeyed | src/runtime/lifecycle-event-reducer.ts:188-194 | a step loses a key exactly when it is an observation whose first match carries that key and not the observed address's |
| LifecycleEventReducer.SecondPositionReplacesTheFirst | src/runtime/lifecycle-event-reducer.ts:34-39 | two positions of one pool and mint end as one record, the second's |
| LifecycleEventReducer.ReduceIgnoresOrder | src/runtime/lifecycle-event-reducer.ts:9-13 | when no two different events compare equal, any permutation gives the same ledger |
| ClosedFillMatching.SelectOpenFillsForClose | src/history/closed-position-snapshot-sync.ts:133-177 | the latest unused open of the close's own position and that one only; where there is none, the shortest run of loose opens |
| ClosedFillMatching.FindOwnOpen | src/history/closed-position-snapshot-sync.ts:138-153 | the first loop finds the last unused open of the close's own position |
| ClosedFillMatching.TakeLooseOpens | src/history/closed-position-snapshot-sync.ts:155-176 | the second loop collects the fallback run |
| ClosedFillMatching.FallbackIsShortestRun | src/history/closed-position-snapshot-sync.ts:155-176 | the fallback is the shortest most-recent-first run of eligible opens that reaches the close within 1e-9, or all of them |
| ClosedFillMatching.BuildClosedPositionSnapshots | src/history/closed-position-snapshot-sync.ts:179-232 | the loop over closes builds the snapshots of the matches |
| ClosedFillMatching.MatchesAreSound | src/history/closed-position-snapshot-sync.ts:113-207 | matched opens agree with their close on mint and known pool, come no later, bound opens go to their own close, and no open or close is used twice |
| ClosedFillMatching.CloseIsDecided | src/history/closed-position-snapshot-sync.ts:133-201 | each close, in time order, takes its own position's latest open that no earlier close took, and that one only; loose opens only when there is none, and then as the shortest run; without either it has no match |
| ClosedFillMatching.LooseOnlyWithoutOwn | src/history/closed-position-snapshot-sync.ts:133-177 | a matched loose open means that every own open of its close was taken before |
| ClosedFillMatching.SidesExactly | src/history/closed-position-snapshot-sync.ts:183-188 | opens and closes are the fills of their side with a positive amount, as often as given, in time order |
| ClosedFillMatching.SnapshotTellsTheMatch | src/history/closed-position-snapshot-sync.ts:207-228 | a snapshot opens with its earliest open, closes with its close, names the first known symbol, pool and position, and its profit is proceeds less deposit |
| ClosedFillMatching.SnapshotsConserve | src/history/closed-position-snapshot-sync.ts:179-232 | deposits add up to the used opens and profits to the matched closes less the used opens, each counted once |
| ClosedFillMatching.NothingLeftToMatch | src/history/closed-position-snapshot-sync.ts:192-201 | a close without a snapshot could take none of the opens left unused at the end |
| ClosedOrderSeeds.DedupeLifecycleRows | src/history/closed-position-snapshot-sync.ts:66-91 | the dedup loop over the keyed map, then the sort |
| ClosedOrderSeeds.DedupeRepresents | src/history/closed-position-snapshot-sync.ts:58-91 | one row a key, the latest withdraw or the earliest of another action, standing for all rows of its key |
| ClosedOrderSeeds.BuildClosedPositionOrderSeeds | src/history/closed-position-snapshot-sync.ts:234-286 | the seeds of the pairs; the used-seed-key check never skips one |
| ClosedOrderSeeds.IdentityIsInjective | src/history/closed-position-snapshot-sync.ts:48-56 | deduped rows never share a row identity |
| ClosedOrderSeeds.OrderSeedsAreAMatching | src/history/closed-position-snapshot-sync.ts:234-286 | each deduped open and close is in at most one seed, seeds open no later than they close, and no pair that could share a lifecycle is left out |
| OrderSeedOutcome.KeptExactly | src/history/closed-position-snapshot-sync.ts:58-91 | a row is kept exactly when it is the latest withdraw, or the earliest of another action, of its position (else of its pool and mint) and the first of those; in time order, ties in the order their groups were seen |
| OrderSeedOutcome.PairsTakeLatest | src/history/closed-position-snapshot-sync.ts:246-270 | each close in time order takes the latest open that fits it and that no earlier close took, and has no seed exactly when there is none |
| OrderSeedOutcome.SeedsExactly | src/history/closed-position-snapshot-sync.ts:262-285 | what each seed says of its open and close; the latest close first, ties in order |
| SnapshotDedupe.DedupeClosedPositionSnapshots | src/dashboard/dashboard-metrics.ts:856-878 | the greedy loop between the two sorts |
| SnapshotDedupe.OverlapIsNotTransitive | src/dashboard/dashboard-metrics.ts:824-854 | representing the same close is not transitive |
| SnapshotDedupe.DedupeSelectsTheBest | src/dashboard/dashboard-metrics.ts:856-878 | no two results overlap, they are in closing order, and every input is in the result or overlaps one preferred to it |
| SnapshotDedupe.KeptExactly | src/dashboard/dashboard-metrics.ts:816-878 | each input snapshot is kept, or dropped for a kept one within 180 s of the same mint and known position or pool that is better (wallet-delta, then exact, then the later close), or no worse and first in the input |
| SnapshotDedupe.DedupeIsASelection | src/dashboard/dashboard-metrics.ts:847-878 | the result is a selection of the inputs in order of preference and invents none; a snapshot without a readable closing time keeps all its copies, any other at most one |
| SnapshotDedupe.AnsweredByPriority | src/dashboard/dashboard-metrics.ts:816-866 | a dropped snapshot overlaps a kept one of at least its priority |
| SnapshotDedupe.DedupeIsIdempotent | src/dashboard/dashboard-metrics.ts:856-878 | deduplicating twice is deduplicating once, order included |
| HistoryPairing.PairActions | src/dashboard/dashboard-metrics.ts:1145-1183 | the pairing loop and the flush of the waiting opens compute the fold |
| HistoryPairing.EveryActionInOneLifecycle | src/dashboard/dashboard-metrics.ts:1147-1183 | every supported action is in exactly one lifecycle, once |
| HistoryPairing.PairedOpenPrecedesItsClose | src/dashboard/dashboard-metrics.ts:1145-1183 | a paired open has the close's key and is no later |
| HistoryPairing.KeysDoNotInterfere | src/dashboard/dashboard-metrics.ts:1150-1179 | the lifecycles of a key are what its own actions alone give |
| HistoryPairing.CloseTakesTheLastOpen | src/dashboard/dashboard-metrics.ts:1150-1179 | an open waits exactly while it is the last action of its key |
| HistoryPairing.LifecyclesExactly | src/dashboard/dashboard-metrics.ts:344-354 | the lifecycles of a key, in order: each withdraw-lp with the add-lp or deploy right before it or alone, and every other add-lp or deploy alone |
| CandidatePool.OpenableMeansAllPassed | src/candidate-pool/aggregator.ts:38-149 | a candidate is openable exactly when the three required sources passed and are unexpired and no fee-yield block is in force |
| CandidateOutcome.VerdictExactly | src/candidate-pool/aggregator.ts:38-149 | the first of meteora, fee yield, route and gmgn that stops a candidate decides status and reason: missing, stale, blocked or unavailable |
| CandidateOutcome.LastExactly | src/candidate-pool/aggregator.ts:44-44 | of several observations of a source the last one counts |
| CandidateOutcome.EntryExactly | src/candidate-pool/aggregator.ts:151-178 | an entry is openable by its status, fresh until the earliest expiry of a required source and dated by the latest observation |
| CandidateOutcome.ScoreAddsUp | src/candidate-pool/aggregator.ts:165-165 | scores of observations add up |
| CandidateOutcome.ScoreOfOne | src/candidate-pool/aggregator.ts:165-165 | a single one counts its score, or 0 if that is negative |
| CandidateOutcome.ScoreIgnoresOrder | src/candidate-pool/aggregator.ts:165-165 | the order of observations does not matter to the score |
| CandidatePool.DeriveCandidatePoolEntry | src/candidate-pool/aggregator.ts:151-188 | status, openable bit, score, freshness and update time of an entry |
| CandidatePool.MinIso | src/candidate-pool/aggregator.ts:27-36 | the least positive time, or the fallback |
| CandidatePool.MaxIso | src/candidate-pool/aggregator.ts:19-25 | the greatest positive time, or the fallback |
| CandidatePool.CandidatePool.UpsertCandidate | src/candidate-pool/sqlite-candidate-pool.ts:269-350 | both tables after an upsert |
| CandidatePool.CandidatePool.MarkMissingOpenableStale | src/candidate-pool/sqlite-candidate-pool.ts:352-387 | the table after marking |
| CandidatePool.StatusAfterUpsert | src/candidate-pool/sqlite-candidate-pool.ts:273-315 | the status the entry is derived with is the status of what the table then holds, at any time |
| CandidateOutcome.MergedExactly | src/candidate-pool/sqlite-candidate-pool.ts:273-275 | the entry is derived from the whole batch and the stored rows of other sources, each counted once |
| CandidateOutcome.UpsertExactly | src/candidate-pool/sqlite-candidate-pool.ts:269-350 | an upsert stores the last row of each source of the batch and keeps the rows of other sources and candidates |
| CandidateOutcome.MarkExactly | src/candidate-pool/sqlite-candidate-pool.ts:352-387 | marking turns stale exactly the strategy's rows that were not stale and whose joined key was not seen, and keeps their score and freshness |
| CandidateOutcome.RetainExactly | src/candidate-pool/sqlite-candidate-pool.ts:488-501 | retention keeps exactly the rows, and of those the observations, not older than the cutoff, unchanged |
| CandidatePool.ListedIsOpenable | src/candidate-pool/sqlite-candidate-pool.ts:544-549 | a listed row is openable when recomputed, at any later time |
| CandidatePool.ListingIsExact | src/candidate-pool/aggregator.ts:162-178 | a row stored openable is listed exactly while it recomputes as openable, if and only if the batch has no overwritten row that expires before the required ones |
| CandidatePool.DistinctBatchHasNoEarlyDuplicate | src/candidate-pool/aggregator.ts:162-178 | a batch that names every source at most once never has such a row, so it is listed exactly |
| CandidatePool.UnlistedOnlyByALapsedBlock | src/candidate-pool/aggregator.ts:75-83 | a row stored not openable recomputes as openable exactly when only a fee-yield block stood against it and has lapsed |
| CandidatePool.DuplicateSourceHidesARow | src/candidate-pool/aggregator.ts:162-178 | a batch with one source twice hides an openable row |
| CandidatePool.MarkLeavesOnlySeen | src/candidate-pool/sqlite-candidate-pool.ts:352-387 | after marking, every row of the strategy that is not stale was seen, and all other rows are untouched |
| CandidatePool.ListedRowsStayOpenable | src/candidate-pool/sqlite-candidate-pool.ts:269-519 | over any run of upserts, markings and retention deletes, with retention within a millisecond of a source's life, a listed row recomputes as openable |
| CandidatePool.ShortRetentionListsAnUnopenableRow | src/candidate-pool/sqlite-candidate-pool.ts:488-501 | a retention cutoff past any required observation but not past its row leaves a listed row that is not openable |
| CandidatePool.ListingNeedsRetention | src/candidate-pool/sqlite-candidate-pool.ts:269-519 | every run from empty tables lists only openable rows exactly when retention plus one millisecond reaches a source's life |
| PoolFeeYield.OnlyReadyPoolsScore | src/candidate-pool/pool-fee-yield.ts:256-336 | a profile scores only when ready, which needs the minimum liquidity and no 35% drop, and within the cap of its fee |
| PoolFeeYield.FeeYieldStore.RecordPoolFeeYieldSamples | src/candidate-pool/sqlite-candidate-pool.ts:425-519 | the three tables and the reported profiles after a batch, as the batch loop of the specification leaves them (their contents are stated by the FeeYieldRetirement members) |
| FeeYieldRetirement.BatchRetiresExactly | src/candidate-pool/sqlite-candidate-pool.ts:449-487 | a batch that finds a pool out of retirement retires it exactly when its first sample is inserted and shows less than the minimum or at most half of the pool's reference liquidity, and then at every t before now + retirementMs and at no other |
| FeeYieldRetirement.ReferenceExactly | src/candidate-pool/sqlite-candidate-pool.ts:653-663 | the reference is the pool's latest sample 30 to 75 minutes old |
| FeeYieldRetirement.DroppedExactly | src/candidate-pool/pool-fee-yield.ts:256-300 | a drop by a share means at most the rest of the reference |
| FeeYieldRetirement.BatchReportsExactly | src/candidate-pool/pool-fee-yield.ts:256-336 | where a pool is neither retired nor just sampled, the batch stores and reports the profile its first sample tells |
| FeeYieldRetirement.ProfileTellsTheSample | src/candidate-pool/pool-fee-yield.ts:256-336 | the profile of a sample says what its liquidity and its fees say |
| FeeYieldRetirement.RetirementHolds | src/candidate-pool/sqlite-candidate-pool.ts:452-519 | over any run no batch inserts a sample of a pool before its retirement ends |
| FeeYieldRetirement.DrainedPoolRests | src/candidate-pool/sqlite-candidate-pool.ts:425-519 | over any run, under any later settings, no sample of a pool is inserted within retirementMs of the batch that found it drained |
| FeeYieldRetirement.RowsAreKeyed | src/candidate-pool/sqlite-candidate-pool.ts:464-487 | over any run from empty tables a pool has at most one sample a time, none later than the clock |
| FeeYieldRetirement.RetiredPoolReports | src/candidate-pool/sqlite-candidate-pool.ts:452-459 | a batch reports a retired pool by its stored profile, or without one by a makeshift profile that tells the retirement's reason and end |
| FeeYieldRetirement.BatchForgetsExactly | src/candidate-pool/sqlite-candidate-pool.ts:488-510 | a batch forgets exactly the samples older than retention, the retirements that have ended, and the profiles older than retention of pools without a retirement that stays |
| FeeYieldRetirement.ScoreExactly | src/candidate-pool/pool-fee-yield.ts:154-199 | the score is the sum of five parts, each given piece by piece, held down by little fee |
| FeeYieldRetirement.FullScoreExactly | src/candidate-pool/pool-fee-yield.ts:174-199 | what the full score of 105 needs, exactly |
| FeeYieldRetirement.NoScoreExactly | src/candidate-pool/pool-fee-yield.ts:174-199 | when the score is 0, exactly |
| FeeYieldRetirement.LowFeesHoldScoreDown | src/candidate-pool/pool-fee-yield.ts:161-199 | hourly fees below 10, 25 and 50 hold the score at 10, 20 and 35 |
| PoolFeeYield.RetiredPoolIsLeftAlone | src/candidate-pool/sqlite-candidate-pool.ts:452-459 | while a pool is retired a batch inserts no sample of it and reports and keeps its stored profile |
| PoolFeeYield.RetiredProfilesAreNeverLost | src/candidate-pool/sqlite-candidate-pool.ts:488-510 | over any run from a store in which every retirement in force has its retired profile, it goes on having it |
| PoolFeeYield.MakeshiftProfileIsNeverReported | src/candidate-pool/sqlite-candidate-pool.ts:452-459 | after any run from the empty store a retired pool reports its stored profile, so the makeshift one is never needed |
| PoolFeeYield.RetirementIsSticky | src/candidate-pool/sqlite-candidate-pool.ts:425-519 | until it ends, a retirement and its profile stay as they are and no sample is inserted, over any run and settings |
| PoolFeeYield.SamplesAreSpaced | src/candidate-pool/sqlite-candidate-pool.ts:461-489 | with retention spanning the interval, inserted samples of a pool are at least the interval apart |
| PoolFeeYield.SpacingNeedsRetention | src/candidate-pool/sqlite-candidate-pool.ts:461-489 | the spacing holds for every run exactly when retention spans the interval |

## Left out

- Ledger audit: the copies of pool, mint and reason inside the issues, the order of targets inside a cross-target issue, file
  copying, arguments and printing.
- LifecycleRepair.RepairClearsExactly: asks that no chain address is the chain address or position id of another target's
  record; RepairEndsExactly covers all other ledgers, with its condition read off the ledger once it has settled.
- RPC registry: logging, snapshots, the request itself and error classification, which are inputs of an action; `sleep` wakes
  a call at any later time.
- RpcAdmission.AdmissionIsSafe: keeps cooldowns up to a success on any endpoint; where they hold outright is in
  CooldownsAreKeptIffSerial.
- Spending limits: `reserveSpend` reads the clock twice; the model gives each operation one instant.
- SpendingLedger.LedgerAgrees: asks for a clock that does not go back.
- Mirror runtime: `enabled: false`, opening and closing the writer, the timer, latency and error texts; a batch write stores
  all or nothing.
- MirrorRuntime.MirrorRuntime.FlushOnce: states an uninterrupted flush; what other calls do in between is in MirrorFlush.
- Journal catch-up: JSON parsing, the conversion of each journal's values to events, and the cursor file. A journal is a list
  of files of lines; a malformed line is a line without a value, and setting it aside in another file is not modelled.
- Route scheduler: the rest of the worker tick. Limits are finite numbers; PriorityIsServed and DiscoveryIsServed start from a
  single-slot turn that is not negative, as the code keeps it.
- Event reducer: `createdAt` is an instant rather than any text, and fields the reducer never reads.
- LifecycleEventOutcome.CloseExactly: asks, like the other members of its module, for distinct keys, which every run keeps
  (LifecycleEventReducer.ReduceKeepsSound).
- Closed positions: wallet address, constant zero fields, and the reconstruction from chain transactions. Keys that the
  source joins with a bar are tuples.
- History: the reconciliation that builds the actions, the entries shown for lifecycles, and cash-flow and equity metrics. A
  snapshot's closing time is its place among texts and the instant it parses to, with nothing assumed between the two.
- Candidate pool: the reader's exclusions, age limit, ordering and row limit, the worker lease, raw JSON, and observations
  whose own key differs from the candidate's. Rows without an order are read in one fixed order.
- CandidatePool.MarkLeavesOnlySeen: asks for pool addresses without a colon, because the source joins pool and mint with one.
- CandidatePool.ShortRetentionListsAnUnopenableRow: gives one direction; the exact condition is in ListingNeedsRetention.
- MirrorFlush.FlushConserves: gives one direction over runs; the two steps it excludes are shown to spoil the account in
  BeginIsSafeExactly and EvictionSpoilsExactly.
- FeeYieldRetirement.BatchRetiresExactly: asks for a positive sample interval, without which a batch can insert a pool twice,
  and for at most one stored sample a time, as RowsAreKeyed has it over every run.
- Fee yield: parsing of rows into samples, rounding of the score, and the profile columns that repeat a sample.
- Floating-point rounding, SQL text, files, locks, HTTP, signing and the dashboard.
