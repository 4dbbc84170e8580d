/**
 * Where a repair sends a record: the outcome of one pass and of whole runs, read off the record's own fields. Texts and
 * limits are written out here, so that what the audit looks for is said twice and independently.
 */
module LifecycleOutcome {
  import opened Wrappers
  import opened LedgerTypes
  import opened LifecycleAudit
  import opened LifecycleRepair

  /** Reasons of an attempt that never reached the chain. */
  const NEVER_SUBMITTED := {"http-400", "sign-failed", "not-submitted", "broadcast-not-submitted"}

  const CHAIN_MISSING := "chain-position-missing-without-exit-evidence"

  predicate HasReason(record: LedgerRecord, reasons: set<string>) {
    record.lastReason.Some? && record.lastReason.value in reasons
  }

  /** A position that is not, or no longer, on the chain. */
  predicate LooksGone(record: LedgerRecord) {
    Given(record.missingOnChainSince) || record.importStatus == Some(ArchivedMissing)
    || HasReason(record, {CHAIN_MISSING})
  }

  // ---------------------------------------------------------------- pending opens

  /** There is evidence that the open has failed. */
  predicate OpenFailed(record: LedgerRecord) {
    Given(record.missingOnChainSince) || HasReason(record, NEVER_SUBMITTED + {CHAIN_MISSING})
  }

  /** An open that has waited five minutes for evidence from the chain. */
  predicate OpenOverdue(record: LedgerRecord, now: Stamp) {
    var since := if record.openedAt.Some? then record.openedAt.value else record.updatedAt;
    && record.lastAction == "add-lp"
    && (HasReason(record, {"awaiting-chain-position-evidence"}) || Truthy(record.pendingSubmissionId)
        || record.pendingOrderAction.Some? || record.pendingConfirmationStatus.Some?)
    && since.At? && now.At? && since.ms + 300_000 <= now.ms
  }

  /** The submission in flight is the one that opens this record. */
  predicate IsBeingOpened(record: LedgerRecord, pending: Option<Pending>) {
    match pending
    case None => false
    case Some(submission) =>
      submission.orderAction == Some("add-lp")
      && ((submission.openIntentId == record.openIntentId && Truthy(record.openIntentId))
          || (submission.tokenMint == record.activeMint && submission.poolAddress == record.activePoolAddress))
  }

  predicate IsStale(record: LedgerRecord, pending: Option<Pending>, now: Stamp) {
    record.lifecycleState == OpenPending && !Truthy(record.chainPositionAddress) && !IsBeingOpened(record, pending)
    && (OpenFailed(record) || OpenOverdue(record, now))
  }

  /** A stamp that is set once: a given value stays. */
  predicate KeptOrNow(before: Option<Stamp>, after: Option<Stamp>, now: Stamp) {
    after == if before.Some? then before else Some(now)
  }

  /** The record is archived as missing from the chain since its first sighting as such. */
  predicate IsArchived(before: LedgerRecord, after: LedgerRecord, now: Stamp) {
    after.importStatus == Some(ArchivedMissing) && after.updatedAt == now
    && KeptOrNow(before.missingOnChainSince, after.missingOnChainSince, now)
  }

  /** Nothing else than the fields of an archived record has changed. */
  predicate SameButArchived(before: LedgerRecord, after: LedgerRecord) {
    after == before.(lifecycleState := after.lifecycleState, importStatus := after.importStatus,
                     lastReason := after.lastReason, evidenceMissingReason := after.evidenceMissingReason,
                     missingOnChainSince := after.missingOnChainSince, lastClosedAt := after.lastClosedAt,
                     updatedAt := after.updatedAt)
  }

  /** A failed attempt is over for good and keeps its reason; any other goes to reconciliation under a new one. */
  predicate EndsAttempt(before: LedgerRecord, after: LedgerRecord, failed: bool, reason: string, now: Stamp) {
    if failed then after.lifecycleState == FailedTerminal && KeptOrNow(before.lastClosedAt, after.lastClosedAt, now)
    else after.lifecycleState == ReconcileRequired && after.lastClosedAt == before.lastClosedAt
         && after.lastReason == Some(reason)
  }

  lemma PassRuns(ledger: Ledger, pending: Option<Pending>, now: Stamp, i: nat, issue: Issue)
    requires DistinctKeys(ledger.records) && i < |ledger.records|
    requires Warranted(ledger.records, pending, now, issue)
    ensures var after := RepairLedger(ledger, pending, now).records;
            |after| == |ledger.records| && after[i] == Repaired(ledger.records[i], ledger.records, pending, now)
  {
    hide FindLifecycleIssues, Warranted, Repaired, RepairRecord, PlanOf;
    IssuesExact(ledger.records, pending, now, issue);
    RepairAt(ledger, pending, now, i);
  }

  lemma ReasonsAgree(record: LedgerRecord)
    ensures NeverSubmittedReason(record.lastReason) <==> HasReason(record, NEVER_SUBMITTED)
    ensures ChainMissingReason(record.lastReason) <==> HasReason(record, {CHAIN_MISSING})
    ensures HasReason(record, NEVER_SUBMITTED + {CHAIN_MISSING}) <==>
              HasReason(record, NEVER_SUBMITTED) || HasReason(record, {CHAIN_MISSING})
  {}

  lemma StaleIsAudited(record: LedgerRecord, pending: Option<Pending>, now: Stamp)
    ensures IsStale(record, pending, now) <==> IsStaleOpenPending(record, pending, now)
  {
    hide NeverSubmittedReason, ChainMissingReason;
    ReasonsAgree(record);
  }

  predicate EndsPendingOpen(before: LedgerRecord, after: LedgerRecord, now: Stamp) {
    && EndsAttempt(before, after, OpenFailed(before), "open-pending-without-chain-evidence-repaired", now)
    && (OpenFailed(before) ==> after.lastReason == before.lastReason)
    && IsArchived(before, after, now) && SameButArchived(before, after)
    && after.evidenceMissingReason == before.evidenceMissingReason
  }

  lemma StaleRepaired(record: LedgerRecord, records: seq<LedgerRecord>, pending: Option<Pending>, now: Stamp)
    requires IsStaleOpenPending(record, pending, now)
    ensures EndsPendingOpen(record, Repaired(record, records, pending, now), now)
  {
    hide IsStaleOpenPending, SupersederOf, NeverSubmittedReason, ChainMissingReason, HasReason;
    ReasonsAgree(record);
  }

  /**
   * A stale pending open ends as a failed attempt exactly when there is evidence that it failed, and goes to
   * reconciliation otherwise.
   */
  lemma StalePendingOpenEnds(ledger: Ledger, pending: Option<Pending>, now: Stamp, i: nat)
    requires DistinctKeys(ledger.records) && i < |ledger.records| && IsStale(ledger.records[i], pending, now)
    ensures var after := RepairLedger(ledger, pending, now).records;
            |after| == |ledger.records| && EndsPendingOpen(ledger.records[i], after[i], now)
  {
    hide IsStale, EndsPendingOpen, Repaired, RepairLedger;
    var record := ledger.records[i];
    StaleIsAudited(record, pending, now);
    PassRuns(ledger, pending, now, i, StaleOpenPending(record.positionKey)) by {
      WarrantsStale(ledger.records, pending, now, i);
    }
    StaleRepaired(record, ledger.records, pending, now);
  }

  lemma WarrantsStale(records: seq<LedgerRecord>, pending: Option<Pending>, now: Stamp, i: nat)
    requires i < |records| && IsStaleOpenPending(records[i], pending, now)
    ensures Warranted(records, pending, now, StaleOpenPending(records[i].positionKey))
  {}

  // ---------------------------------------------------------------- open records

  predicate SameText(a: Option<string>, b: Option<string>) { Truthy(a) && a == b }

  /** The closed chain record is the end of the life that the record began. */
  predicate EndsLifeOf(closed: LedgerRecord, record: LedgerRecord) {
    closed.lifecycleState == Closed && Truthy(closed.chainPositionAddress)
    && (SameText(record.openIntentId, closed.openIntentId) || SameText(record.idempotencyKey, closed.idempotencyKey)
        || SameText(record.entryFillSubmissionId, closed.entryFillSubmissionId)
        || (SameText(record.activePoolAddress, closed.activePoolAddress)
            && SameText(record.activeMint, closed.activeMint)
            && Given(record.missingOnChainSince)
            && record.openedAt.Some? && record.openedAt.value.At?
            && closed.lastClosedAt.Some? && closed.lastClosedAt.value.At?
            && record.openedAt.value.ms <= closed.lastClosedAt.value.ms))
  }

  /** A chainless open that is missing, and the first closed chain record of the ledger that ends its life. */
  ghost predicate IsSuperseded(record: LedgerRecord, records: seq<LedgerRecord>, k: nat) {
    && record.lifecycleState == Open && !Truthy(record.chainPositionAddress) && Given(record.missingOnChainSince)
    && record.importStatus != Some(SupersededClosed)
    && k < |records| && EndsLifeOf(records[k], record)
    && forall j :: 0 <= j < k ==> !EndsLifeOf(records[j], record)
  }

  /** An open without a chain position, or one that looks gone and is no paper overlay. */
  predicate IsUnbacked(record: LedgerRecord) {
    record.lifecycleState == Open
    && ((!Truthy(record.chainPositionAddress) && record.importStatus != Some(SupersededClosed))
        || (record.valuationSource != Some("paper-dry-run-overlay") && LooksGone(record)))
  }

  /** Nothing was ever put in. */
  predicate NothingPutIn(record: LedgerRecord) {
    record.entrySol == None || record.entrySol == Some(0.0) || HasReason(record, NEVER_SUBMITTED)
  }

  predicate FirstGiven(result: Option<string>, first: Option<string>, second: Option<string>, text: string) {
    result == if first.Some? then first else if second.Some? then second else Some(text)
  }

  predicate EndsUnbackedOpen(before: LedgerRecord, after: LedgerRecord, now: Stamp) {
    && EndsAttempt(before, after, NothingPutIn(before), "synthetic-open-missing-chain-evidence", now)
    && (NothingPutIn(before) ==>
          FirstGiven(after.lastReason, before.lastReason, None, "synthetic-open-without-chain-evidence"))
    && FirstGiven(after.evidenceMissingReason, before.evidenceMissingReason, before.lastReason,
                  "synthetic-open-without-chain-identity")
    && IsArchived(before, after, now) && SameButArchived(before, after)
  }

  predicate EndsSuperseded(before: LedgerRecord, after: LedgerRecord, supersedingKey: string, now: Stamp) {
    && after.lifecycleState == Closed && after.importStatus == Some(SupersededClosed) && after.updatedAt == now
    && after.supersededByPositionKey == Some(supersedingKey)
    && after.lastReason == Some("superseded-by-chain-closed-position")
    && FirstGiven(after.evidenceMissingReason, before.lastReason, None, "synthetic-open-without-chain-identity")
    && KeptOrNow(before.lastClosedAt, after.lastClosedAt, now)
    && after.missingOnChainSince == before.missingOnChainSince
    && SameButArchived(before.(supersededByPositionKey := Some(supersedingKey)), after)
  }

  lemma EndsLifeIsShared(closed: LedgerRecord, record: LedgerRecord)
    requires record.missingOnChainSince.Some?
    ensures EndsLifeOf(closed, record) <==> IsClosedChain(closed) && SharesLifecycleIdentity(record, closed)
  {}

  lemma FindSupersedingHead(record: LedgerRecord, records: seq<LedgerRecord>)
    requires records != [] && record.missingOnChainSince.Some?
    ensures FindSuperseding(record, ClosedChainRecords(records))
         == if EndsLifeOf(records[0], record) then Some(records[0])
            else FindSuperseding(record, ClosedChainRecords(records[1..]))
  {
    hide EndsLifeOf, SharesLifecycleIdentity;
    EndsLifeIsShared(records[0], record);
    var rest := ClosedChainRecords(records[1..]);
    assert ClosedChainRecords(records) == if IsClosedChain(records[0]) then [records[0]] + rest else rest;
    assert ([records[0]] + rest)[1..] == rest;
  }

  /** The superseding record that the audit finds is the first one. */
  lemma {:induction false} FirstSuperseding(record: LedgerRecord, records: seq<LedgerRecord>, k: nat)
    requires record.missingOnChainSince.Some? && k < |records| && EndsLifeOf(records[k], record)
    requires forall j :: 0 <= j < k ==> !EndsLifeOf(records[j], record)
    ensures FindSuperseding(record, ClosedChainRecords(records)) == Some(records[k])
  {
    hide EndsLifeOf, FindSuperseding, ClosedChainRecords;
    FindSupersedingHead(record, records);
    if k > 0 {
      assert records[1..][k - 1] == records[k];
      FirstSuperseding(record, records[1..], k - 1);
    }
  }

  lemma {:induction false} NoneSuperseding(record: LedgerRecord, records: seq<LedgerRecord>)
    requires record.missingOnChainSince.Some?
    requires forall j :: 0 <= j < |records| ==> !EndsLifeOf(records[j], record)
    ensures FindSuperseding(record, ClosedChainRecords(records)) == None
  {
    hide EndsLifeOf;
    if records != [] {
      FindSupersedingHead(record, records);
      NoneSuperseding(record, records[1..]);
    }
  }

  lemma SupersededIsAudited(record: LedgerRecord, records: seq<LedgerRecord>, k: nat)
    requires IsSuperseded(record, records, k)
    ensures SupersederOf(record, records) == Some(records[k])
  {
    hide EndsLifeOf, ClosedChainRecords, FindSuperseding;
    FirstSuperseding(record, records, k);
  }

  lemma NotSupersededIsAudited(record: LedgerRecord, records: seq<LedgerRecord>)
    requires forall k: nat :: !IsSuperseded(record, records, k)
    ensures SupersederOf(record, records) == None
  {
    hide EndsLifeOf, ClosedChainRecords, FindSuperseding;
    if IsMissingSyntheticOpen(record) {
      var k := 0;
      while k < |records|
        invariant k <= |records| && forall j :: 0 <= j < k ==> !EndsLifeOf(records[j], record)
      {
        assert !IsSuperseded(record, records, k);
        k := k + 1;
      }
      NoneSuperseding(record, records);
    }
  }

  lemma UnbackedIsAudited(record: LedgerRecord)
    ensures IsUnbacked(record) <==> IsSyntheticLive(record) || IsOpenButMissing(record)
  {
    ReasonsAgree(record);
  }

  /** A superseded open is closed and names the record that superseded it. */
  lemma SupersededOpenEnds(ledger: Ledger, pending: Option<Pending>, now: Stamp, i: nat, k: nat)
    requires DistinctKeys(ledger.records) && i < |ledger.records|
    requires IsSuperseded(ledger.records[i], ledger.records, k)
    ensures var after := RepairLedger(ledger, pending, now).records;
            |after| == |ledger.records|
            && EndsSuperseded(ledger.records[i], after[i], ledger.records[k].positionKey, now)
  {
    hide Repaired, RepairLedger, EndsSuperseded, EndsLifeOf, SupersederOf, Warranted;
    var record, records := ledger.records[i], ledger.records;
    SupersededIsAudited(record, records, k);
    WarrantsSuperseded(records, pending, now, i, records[k]);
    PassRuns(ledger, pending, now, i, SupersededSyntheticOpen(record.positionKey, records[k].positionKey));
    SupersededRepaired(record, records, records[k], pending, now);
  }

  lemma WarrantsSuperseded(records: seq<LedgerRecord>, pending: Option<Pending>, now: Stamp, i: nat,
                           superseding: LedgerRecord)
    requires i < |records| && SupersederOf(records[i], records) == Some(superseding)
    ensures Warranted(records, pending, now,
                      SupersededSyntheticOpen(records[i].positionKey, superseding.positionKey))
  {
    hide SupersederOf;
  }

  lemma SupersededRepaired(record: LedgerRecord, records: seq<LedgerRecord>, superseding: LedgerRecord,
                           pending: Option<Pending>, now: Stamp)
    requires record.lifecycleState == Open && SupersederOf(record, records) == Some(superseding)
    ensures EndsSuperseded(record, Repaired(record, records, pending, now), superseding.positionKey, now)
  {
    hide SupersederOf;
  }

  /**
   * Any other unbacked open ends as a failed attempt exactly when nothing was ever put in, and goes to reconciliation
   * otherwise.
   */
  lemma UnbackedOpenEnds(ledger: Ledger, pending: Option<Pending>, now: Stamp, i: nat)
    requires DistinctKeys(ledger.records) && i < |ledger.records| && IsUnbacked(ledger.records[i])
    requires forall k: nat :: !IsSuperseded(ledger.records[i], ledger.records, k)
    ensures var after := RepairLedger(ledger, pending, now).records;
            |after| == |ledger.records| && EndsUnbackedOpen(ledger.records[i], after[i], now)
  {
    hide Repaired, RepairLedger, EndsUnbackedOpen, IsSuperseded, SupersederOf, Warranted, IsSyntheticLive,
      IsOpenButMissing;
    var record, records := ledger.records[i], ledger.records;
    UnbackedIsAudited(record);
    NotSupersededIsAudited(record, records);
    WarrantsUnbacked(records, pending, now, i);
    if IsSyntheticLive(record) {
      PassRuns(ledger, pending, now, i, SyntheticLiveWithoutChain(record.positionKey));
    } else {
      PassRuns(ledger, pending, now, i, OpenButArchivedOrMissing(record.positionKey));
    }
    UnbackedRepaired(record, records, pending, now);
  }

  lemma WarrantsUnbacked(records: seq<LedgerRecord>, pending: Option<Pending>, now: Stamp, i: nat)
    requires i < |records|
    ensures IsSyntheticLive(records[i]) ==>
              Warranted(records, pending, now, SyntheticLiveWithoutChain(records[i].positionKey))
    ensures IsOpenButMissing(records[i]) ==>
              Warranted(records, pending, now, OpenButArchivedOrMissing(records[i].positionKey))
  {}

  lemma UnbackedRepaired(record: LedgerRecord, records: seq<LedgerRecord>, pending: Option<Pending>, now: Stamp)
    requires record.lifecycleState == Open && SupersederOf(record, records) == None
    requires IsSyntheticLive(record) || IsOpenButMissing(record)
    ensures EndsUnbackedOpen(record, Repaired(record, records, pending, now), now)
  {
    hide SupersederOf, IsSyntheticLive, IsOpenButMissing, NeverSubmittedReason, ChainMissingReason, HasReason;
    ReasonsAgree(record);
  }

  // ---------------------------------------------------------------- the other states

  predicate IsPaper(record: LedgerRecord) {
    record.valuationSource.Some? && |record.valuationSource.value| >= 6
    && record.valuationSource.value[..6] == "paper-"
  }

  predicate IsPaperGone(record: LedgerRecord) {
    record.lifecycleState == ReconcileRequired && LooksGone(record) && IsPaper(record)
  }

  /** A paper position that is gone is closed, and no longer missing. */
  predicate EndsPaper(before: LedgerRecord, after: LedgerRecord, now: Stamp) {
    && after.lifecycleState == Closed && after.importStatus == Some(SupersededClosed) && after.updatedAt == now
    && after.lastReason == Some("paper-overlay-position-closed") && after.missingOnChainSince == None
    && after.evidenceMissingReason == (if before.evidenceMissingReason.Some? then before.evidenceMissingReason
                                       else before.lastReason)
    && KeptOrNow(before.lastClosedAt, after.lastClosedAt, now)
    && SameButArchived(before, after)
  }

  predicate StillPends(record: LedgerRecord) {
    Truthy(record.pendingSubmissionId) || record.pendingOrderAction.Some? || record.pendingConfirmationStatus.Some?
  }

  /** A closed record loses everything pending and nothing else. */
  predicate EndsPending(before: LedgerRecord, after: LedgerRecord, now: Stamp) {
    && after.pendingSubmissionId == None && after.pendingOrderAction == None
    && after.pendingConfirmationStatus == None && after.pendingFinality == None && after.updatedAt == now
    && after == before.(pendingSubmissionId := None, pendingOrderAction := None, pendingConfirmationStatus := None,
                        pendingFinality := None, updatedAt := after.updatedAt)
  }

  /** Another target's record carries the same value. */
  ghost predicate SharedElsewhere(records: seq<LedgerRecord>, i: nat, field: IdentityField)
    requires i < |records|
  {
    Truthy(IdentityOf(records[i], field))
    && exists j :: 0 <= j < |records| && IdentityOf(records[j], field) == IdentityOf(records[i], field)
                   && TargetKey(records[j]) != TargetKey(records[i])
  }

  /** A record without an issue of its own loses a shared open intent and takes its own address as position id. */
  predicate OnlyIdentityMoves(before: LedgerRecord, after: LedgerRecord, sharesIntent: bool, sharesPosition: bool,
                              now: Stamp) {
    && after.openIntentId == (if sharesIntent then None else before.openIntentId)
    && after.positionId == (if sharesPosition && Truthy(before.chainPositionAddress) then before.chainPositionAddress
                            else before.positionId)
    && after.importStatus == (if (sharesIntent || sharesPosition) && before.importStatus == Some(Imported)
                              then Some(EntryUnknown) else before.importStatus)
    && after.valuationStatus == (if sharesIntent then Some("unavailable") else before.valuationStatus)
    && after.valuationReason == (if sharesIntent then Some("lifecycle-identity-cross-target-repaired")
                                 else before.valuationReason)
    && after.updatedAt == now
    && after == before.(openIntentId := after.openIntentId, positionId := after.positionId,
                        importStatus := after.importStatus, valuationStatus := after.valuationStatus,
                        valuationReason := after.valuationReason, updatedAt := after.updatedAt)
  }

  /** The record has an issue of its own. */
  predicate HasOwnIssue(record: LedgerRecord, pending: Option<Pending>, now: Stamp) {
    IsStale(record, pending, now) || IsUnbacked(record) || IsPaperGone(record)
    || (record.lifecycleState == Closed && StillPends(record))
  }

  lemma PaperPrefix(text: string)
    ensures "paper-" <= text <==> |text| >= 6 && text[..6] == "paper-"
  {
    assert |"paper-"| == 6;
  }

  lemma PaperIsAudited(record: LedgerRecord)
    ensures IsPaperGone(record) <==> IsPaperReconcile(record)
  {
    ReasonsAgree(record);
    if record.valuationSource.Some? { PaperPrefix(record.valuationSource.value); }
  }

  lemma PaperEnds(ledger: Ledger, pending: Option<Pending>, now: Stamp, i: nat)
    requires DistinctKeys(ledger.records) && i < |ledger.records| && IsPaperGone(ledger.records[i])
    ensures var after := RepairLedger(ledger, pending, now).records;
            |after| == |ledger.records| && EndsPaper(ledger.records[i], after[i], now)
  {
    hide Repaired, RepairLedger, EndsPaper, Warranted, IsPaperGone, IsPaperReconcile;
    var record, records := ledger.records[i], ledger.records;
    PaperIsAudited(record);
    WarrantsOthers(records, pending, now, i);
    PassRuns(ledger, pending, now, i, PaperReconcileClosed(record.positionKey));
    PaperRepaired(record, records, pending, now);
  }

  lemma ClosedEnds(ledger: Ledger, pending: Option<Pending>, now: Stamp, i: nat)
    requires DistinctKeys(ledger.records) && i < |ledger.records|
    requires ledger.records[i].lifecycleState == Closed && StillPends(ledger.records[i])
    ensures var after := RepairLedger(ledger, pending, now).records;
            |after| == |ledger.records| && EndsPending(ledger.records[i], after[i], now)
  {
    hide Repaired, RepairLedger, EndsPending, Warranted;
    var record, records := ledger.records[i], ledger.records;
    WarrantsOthers(records, pending, now, i);
    PassRuns(ledger, pending, now, i, ClosedWithPendingSubmission(record.positionKey));
    ClosedRepaired(record, records, pending, now);
  }

  lemma WarrantsOthers(records: seq<LedgerRecord>, pending: Option<Pending>, now: Stamp, i: nat)
    requires i < |records|
    ensures IsPaperReconcile(records[i]) ==>
              Warranted(records, pending, now, PaperReconcileClosed(records[i].positionKey))
    ensures IsClosedWithPending(records[i]) ==>
              Warranted(records, pending, now, ClosedWithPendingSubmission(records[i].positionKey))
  {}

  lemma PaperRepaired(record: LedgerRecord, records: seq<LedgerRecord>, pending: Option<Pending>, now: Stamp)
    requires IsPaperReconcile(record)
    ensures EndsPaper(record, Repaired(record, records, pending, now), now)
  {
    hide IsPaperDryRun, LooksMissing;
    IssueStates(record, records, pending, now);
  }

  lemma ClosedRepaired(record: LedgerRecord, records: seq<LedgerRecord>, pending: Option<Pending>, now: Stamp)
    requires IsClosedWithPending(record)
    ensures EndsPending(record, Repaired(record, records, pending, now), now)
  {
    hide HasPendingFields;
    IssueStates(record, records, pending, now);
  }

  /** Where some record has an issue, the records without one of their own change in their identity only. */
  lemma OtherRecordEnds(ledger: Ledger, pending: Option<Pending>, now: Stamp, i: nat)
    requires DistinctKeys(ledger.records) && i < |ledger.records| && !HasOwnIssue(ledger.records[i], pending, now)
    requires FindLifecycleIssues(ledger.records, pending, now) != []
    ensures var after := RepairLedger(ledger, pending, now).records;
            |after| == |ledger.records|
            && OnlyIdentityMoves(ledger.records[i], after[i], SharedElsewhere(ledger.records, i, OpenIntentId),
                                 SharedElsewhere(ledger.records, i, PositionId), now)
  {
    hide Repaired, RepairLedger, OnlyIdentityMoves, FindLifecycleIssues, SharedElsewhere, HasOwnIssue;
    RepairAt(ledger, pending, now, i);
    RepairSettles(ledger, pending, now);
    WithoutOwnIssue(ledger.records[i], ledger.records, pending, now);
    SharedIsDuplicated(ledger.records, pending, now, i, OpenIntentId);
    SharedIsDuplicated(ledger.records, pending, now, i, PositionId);
    IdentityRepaired(ledger.records, pending, now, i);
  }

  lemma SharedIsDuplicated(records: seq<LedgerRecord>, pending: Option<Pending>, now: Stamp, i: nat,
                           field: IdentityField)
    requires i < |records|
    ensures var value, plan := IdentityOf(records[i], field), PlanOf(FindLifecycleIssues(records, pending, now));
            SharedElsewhere(records, i, field) <==>
              Truthy(value) && value.value in (if field == OpenIntentId then plan.duplicatedOpenIntentIds
                                               else plan.duplicatedPositionIds)
  {
    hide FindLifecycleIssues, PlanOf, TargetKey;
    var value := IdentityOf(records[i], field);
    if Truthy(value) {
      PlanDuplicates(records, pending, now, value.value);
      if Duplicated(records, field, value.value) {
        var a, b :| 0 <= a < |records| && 0 <= b < |records| && Carries(records[a], field, value.value)
                    && Carries(records[b], field, value.value) && TargetKey(records[a]) != TargetKey(records[b]);
        assert TargetKey(records[a]) != TargetKey(records[i]) || TargetKey(records[b]) != TargetKey(records[i]);
      }
      if SharedElsewhere(records, i, field) {
        var j :| 0 <= j < |records| && IdentityOf(records[j], field) == IdentityOf(records[i], field)
                 && TargetKey(records[j]) != TargetKey(records[i]);
        assert Carries(records[i], field, value.value) && Carries(records[j], field, value.value);
      }
    }
  }

  lemma WithoutOwnIssue(record: LedgerRecord, records: seq<LedgerRecord>, pending: Option<Pending>, now: Stamp)
    requires !HasOwnIssue(record, pending, now)
    ensures !IsStaleOpenPending(record, pending, now) && !IsSyntheticLive(record) && !IsOpenButMissing(record)
    ensures !IsPaperReconcile(record) && !IsClosedWithPending(record) && SupersederOf(record, records) == None
  {
    hide IsStaleOpenPending, IsStale, IsOpenButMissing, IsPaperReconcile, IsPaperGone, FindSuperseding,
      ClosedChainRecords;
    StaleIsAudited(record, pending, now);
    UnbackedIsAudited(record);
    PaperIsAudited(record);
  }

  lemma IdentityRepaired(records: seq<LedgerRecord>, pending: Option<Pending>, now: Stamp, i: nat)
    requires i < |records|
    requires var record := records[i];
             !IsStaleOpenPending(record, pending, now) && !IsSyntheticLive(record) && !IsOpenButMissing(record)
             && !IsPaperReconcile(record) && !IsClosedWithPending(record) && SupersederOf(record, records) == None
    ensures var record, plan := records[i], PlanOf(FindLifecycleIssues(records, pending, now));
            OnlyIdentityMoves(
              record, Repaired(record, records, pending, now),
              Truthy(record.openIntentId) && record.openIntentId.value in plan.duplicatedOpenIntentIds,
              Truthy(record.positionId) && record.positionId.value in plan.duplicatedPositionIds, now)
  {
    hide IsStaleOpenPending, IsSyntheticLive, IsOpenButMissing, IsPaperReconcile, IsClosedWithPending, SupersederOf;
    hide FindLifecycleIssues, PlanOf;
  }

  // ---------------------------------------------------------------- whole runs

  /** The audit finds nothing exactly when no record has an issue of its own or an identity of another target. */
  lemma CleanExactly(records: seq<LedgerRecord>, pending: Option<Pending>, now: Stamp)
    ensures FindLifecycleIssues(records, pending, now) == [] <==>
              forall i :: 0 <= i < |records| ==>
                && !HasOwnIssue(records[i], pending, now)
                && !SharedElsewhere(records, i, OpenIntentId) && !SharedElsewhere(records, i, PositionId)
  {
    hide FindLifecycleIssues, HasOwnIssue, SharedElsewhere, Warranted;
    var issues := FindLifecycleIssues(records, pending, now);
    if issues != [] {
      IssuesExact(records, pending, now, issues[0]);
      WarrantedIsOwn(records, pending, now, issues[0]);
    } else {
      forall i | 0 <= i < |records|
        ensures !HasOwnIssue(records[i], pending, now)
                && !SharedElsewhere(records, i, OpenIntentId) && !SharedElsewhere(records, i, PositionId)
      {
        OwnIsWarranted(records, pending, now, i);
      }
    }
  }

  lemma WarrantedIsOwn(records: seq<LedgerRecord>, pending: Option<Pending>, now: Stamp, issue: Issue)
    requires Warranted(records, pending, now, issue)
    ensures exists i :: 0 <= i < |records|
                        && (HasOwnIssue(records[i], pending, now) || SharedElsewhere(records, i, OpenIntentId)
                            || SharedElsewhere(records, i, PositionId))
  {
    hide IsStaleOpenPending, IsOpenButMissing, IsPaperReconcile, TargetKey, FindSuperseding;
    if issue.CrossTargetIdentity? {
      var i, j :| 0 <= i < |records| && 0 <= j < |records| && Carries(records[i], issue.field, issue.value)
                  && Carries(records[j], issue.field, issue.value) && TargetKey(records[i]) != TargetKey(records[j]);
      assert SharedElsewhere(records, i, issue.field);
    } else {
      var i :| 0 <= i < |records| && records[i].positionKey == issue.positionKey
               && (IsStaleOpenPending(records[i], pending, now) || IsSyntheticLive(records[i])
                   || IsOpenButMissing(records[i]) || IsChainOpenMissing(records[i])
                   || IsClosedWithPending(records[i]) || SupersederOf(records[i], records).Some?
                   || IsPaperReconcile(records[i]));
      if !HasOwnIssue(records[i], pending, now) {
        WithoutOwnIssue(records[i], records, pending, now);
        ChainOpenMissingIsOpen(records[i]);
      }
    }
  }

  lemma ChainOpenMissingIsOpen(record: LedgerRecord)
    ensures IsChainOpenMissing(record) ==> IsOpenButMissing(record)
  {}

  lemma OwnIsWarranted(records: seq<LedgerRecord>, pending: Option<Pending>, now: Stamp, i: nat)
    requires i < |records| && FindLifecycleIssues(records, pending, now) == []
    ensures !HasOwnIssue(records[i], pending, now)
    ensures !SharedElsewhere(records, i, OpenIntentId) && !SharedElsewhere(records, i, PositionId)
  {
    hide FindLifecycleIssues, HasOwnIssue, IsStaleOpenPending, IsStale, IsPaperReconcile, IsPaperGone, IsUnbacked;
    hide SharedElsewhere, IsSyntheticLive, IsOpenButMissing, IsClosedWithPending, PlanOf;
    var record, key := records[i], records[i].positionKey;
    IssuesExact(records, pending, now, StaleOpenPending(key));
    IssuesExact(records, pending, now, SyntheticLiveWithoutChain(key));
    IssuesExact(records, pending, now, OpenButArchivedOrMissing(key));
    IssuesExact(records, pending, now, ClosedWithPendingSubmission(key));
    IssuesExact(records, pending, now, PaperReconcileClosed(key));
    OwnIssueIsAudited(record, pending, now);
    SharedIsDuplicated(records, pending, now, i, OpenIntentId);
    SharedIsDuplicated(records, pending, now, i, PositionId);
    NothingPlanned(FindLifecycleIssues(records, pending, now));
  }

  lemma NothingPlanned(issues: seq<Issue>)
    requires issues == []
    ensures PlanOf(issues).duplicatedOpenIntentIds == {} && PlanOf(issues).duplicatedPositionIds == {}
  {}

  lemma OwnIssueIsAudited(record: LedgerRecord, pending: Option<Pending>, now: Stamp)
    ensures HasOwnIssue(record, pending, now) ==>
              IsStaleOpenPending(record, pending, now) || IsSyntheticLive(record) || IsOpenButMissing(record)
              || IsPaperReconcile(record) || IsClosedWithPending(record)
  {
    hide IsStaleOpenPending, IsStale, IsOpenButMissing, IsPaperReconcile, IsPaperGone, IsUnbacked, IsSyntheticLive;
    StaleIsAudited(record, pending, now);
    UnbackedIsAudited(record);
    PaperIsAudited(record);
  }

  // ---------------------------------------------------------------- the issues themselves

  /** What each kind of issue but a shared identity says of the record it names. */
  ghost predicate IsTold(issue: Issue, record: LedgerRecord, records: seq<LedgerRecord>, pending: Option<Pending>,
                         now: Stamp)
  {
    match issue
    case CrossTargetIdentity(_, _, _) => false
    case StaleOpenPending(key) => key == record.positionKey && IsStale(record, pending, now)
    case SyntheticLiveWithoutChain(key) =>
      key == record.positionKey && record.lifecycleState == Open && !Truthy(record.chainPositionAddress)
      && record.importStatus != Some(SupersededClosed)
    case OpenButArchivedOrMissing(key) =>
      key == record.positionKey && record.lifecycleState == Open && LooksGone(record)
      && record.valuationSource != Some("paper-dry-run-overlay")
    case ChainOpenMissing(key) =>
      key == record.positionKey && record.lifecycleState == Open && Truthy(record.chainPositionAddress)
      && Given(record.missingOnChainSince) && record.valuationSource != Some("paper-dry-run-overlay")
    case ClosedWithPendingSubmission(key) =>
      key == record.positionKey && record.lifecycleState == Closed && StillPends(record)
    case SupersededSyntheticOpen(key, superseding) =>
      key == record.positionKey
      && exists k: nat :: k < |records| && IsSuperseded(record, records, k) && records[k].positionKey == superseding
    case PaperReconcileClosed(key) => key == record.positionKey && IsPaperGone(record)
  }

  /** The model's own reading of one record. */
  ghost predicate IsFound(issue: Issue, record: LedgerRecord, records: seq<LedgerRecord>, pending: Option<Pending>,
                          now: Stamp)
  {
    match issue
    case CrossTargetIdentity(_, _, _) => false
    case StaleOpenPending(key) => key == record.positionKey && IsStaleOpenPending(record, pending, now)
    case SyntheticLiveWithoutChain(key) => key == record.positionKey && IsSyntheticLive(record)
    case OpenButArchivedOrMissing(key) => key == record.positionKey && IsOpenButMissing(record)
    case ChainOpenMissing(key) => key == record.positionKey && IsChainOpenMissing(record)
    case ClosedWithPendingSubmission(key) => key == record.positionKey && IsClosedWithPending(record)
    case SupersededSyntheticOpen(key, superseding) =>
      key == record.positionKey && SupersederOf(record, records).Some?
      && SupersederOf(record, records).value.positionKey == superseding
    case PaperReconcileClosed(key) => key == record.positionKey && IsPaperReconcile(record)
  }

  lemma ToldIsFound(issue: Issue, record: LedgerRecord, records: seq<LedgerRecord>, pending: Option<Pending>,
                    now: Stamp)
    ensures IsTold(issue, record, records, pending, now) <==> IsFound(issue, record, records, pending, now)
  {
    hide IsStaleOpenPending, IsStale, IsPaperReconcile, IsPaperGone, SupersederOf, IsSuperseded, ChainMissingReason,
      HasReason;
    StaleIsAudited(record, pending, now);
    PaperIsAudited(record);
    ReasonsAgree(record);
    if issue.SupersededSyntheticOpen? {
      if k: nat :| k < |records| && IsSuperseded(record, records, k) {
        SupersededIsAudited(record, records, k);
        forall j: nat | j < |records| && IsSuperseded(record, records, j)
          ensures SupersederOf(record, records) == Some(records[j])
        {
          SupersededIsAudited(record, records, j);
        }
      } else {
        forall k: nat ensures IsSuperseded(record, records, k) ==> k < |records| {
          if IsSuperseded(record, records, k) { SupersedersAreRecords(record, records, k); }
        }
        NotSupersededIsAudited(record, records);
      }
    }
  }

  lemma SupersedersAreRecords(record: LedgerRecord, records: seq<LedgerRecord>, k: nat)
    requires IsSuperseded(record, records, k)
    ensures k < |records|
  {}

  /** An issue other than a shared identity is reported exactly when it tells the truth of some record of its key. */
  lemma IssuesExactly(records: seq<LedgerRecord>, pending: Option<Pending>, now: Stamp, issue: Issue)
    requires !issue.CrossTargetIdentity?
    ensures issue in FindLifecycleIssues(records, pending, now) <==>
              exists i :: 0 <= i < |records| && IsTold(issue, records[i], records, pending, now)
  {
    hide FindLifecycleIssues, Warranted, IsTold, IsFound;
    IssuesExact(records, pending, now, issue);
    WarrantedIsFound(records, pending, now, issue);
    forall i | 0 <= i < |records|
      ensures IsTold(issue, records[i], records, pending, now) <==> IsFound(issue, records[i], records, pending, now)
    {
      ToldIsFound(issue, records[i], records, pending, now);
    }
  }

  lemma WarrantedIsFound(records: seq<LedgerRecord>, pending: Option<Pending>, now: Stamp, issue: Issue)
    requires !issue.CrossTargetIdentity?
    ensures Warranted(records, pending, now, issue) <==>
              exists i :: 0 <= i < |records| && IsFound(issue, records[i], records, pending, now)
  {
    hide IsStaleOpenPending, IsSyntheticLive, IsOpenButMissing, IsChainOpenMissing, IsClosedWithPending,
      IsPaperReconcile, SupersederOf;
  }

  /** An attempt that is over for good. */
  ghost predicate HasFailed(records: seq<LedgerRecord>, i: nat, pending: Option<Pending>, now: Stamp)
    requires i < |records|
  {
    || (IsStale(records[i], pending, now) && OpenFailed(records[i]))
    || (IsUnbacked(records[i]) && NothingPutIn(records[i]) && forall k: nat :: !IsSuperseded(records[i], records, k))
  }

  /** An attempt that may have put something in. */
  ghost predicate NeedsReconciling(records: seq<LedgerRecord>, i: nat, pending: Option<Pending>, now: Stamp)
    requires i < |records|
  {
    || (IsStale(records[i], pending, now) && !OpenFailed(records[i]))
    || (IsUnbacked(records[i]) && !NothingPutIn(records[i]) && forall k: nat :: !IsSuperseded(records[i], records, k))
  }

  /** States that no repair leaves. */
  predicate IsAtRest(record: LedgerRecord) {
    record.lifecycleState == FailedTerminal || record.lifecycleState == Closed
    || (record.lifecycleState == ReconcileRequired && !IsPaper(record))
  }

  lemma RestIsKept(ledger: Ledger, pending: Option<Pending>, now: Stamp, i: nat)
    requires DistinctKeys(ledger.records) && i < |ledger.records| && IsAtRest(ledger.records[i])
    ensures var before, after := ledger.records[i], RepairLedger(ledger, pending, now).records;
            && |after| == |ledger.records|
            && after[i].lifecycleState == before.lifecycleState && after[i].valuationSource == before.valuationSource
            && after[i].supersededByPositionKey == before.supersededByPositionKey
  {
    hide RepairLedger, FindLifecycleIssues, StillPends, SharedElsewhere;
    var record := ledger.records[i];
    if FindLifecycleIssues(ledger.records, pending, now) == [] {
      NothingToRepair(ledger, pending, now);
    } else if record.lifecycleState == Closed && StillPends(record) {
      ClosedEnds(ledger, pending, now, i);
    } else {
      OtherRecordEnds(ledger, pending, now, i);
    }
  }

  lemma NothingToRepair(ledger: Ledger, pending: Option<Pending>, now: Stamp)
    requires FindLifecycleIssues(ledger.records, pending, now) == []
    ensures RepairLedger(ledger, pending, now) == ledger
  {}

  lemma {:induction false} RestLasts(ledger: Ledger, pending: Option<Pending>, now: Stamp, passes: nat, more: nat,
                                     i: nat)
    requires DistinctKeys(RepairTimes(ledger, pending, now, passes).records)
    requires i < |RepairTimes(ledger, pending, now, passes).records|
    requires IsAtRest(RepairTimes(ledger, pending, now, passes).records[i])
    ensures var before := RepairTimes(ledger, pending, now, passes).records;
            var after := RepairTimes(ledger, pending, now, passes + more).records;
            && DistinctKeys(after) && |after| == |before|
            && after[i].lifecycleState == before[i].lifecycleState
            && after[i].valuationSource == before[i].valuationSource
            && after[i].supersededByPositionKey == before[i].supersededByPositionKey
    decreases more
  {
    hide RepairLedger;
    if more > 0 {
      RestLasts(ledger, pending, now, passes, more - 1, i);
      var between := RepairTimes(ledger, pending, now, passes + more - 1);
      RestIsKept(between, pending, now, i);
      RepairSettles(between, pending, now);
    }
  }

  lemma FirstPass(ledger: Ledger, pending: Option<Pending>, now: Stamp)
    ensures RepairTimes(ledger, pending, now, 1) == RepairLedger(ledger, pending, now)
  {
    assert RepairTimes(ledger, pending, now, 0) == ledger;
  }

  /** Where the first pass sends an attempt. */
  lemma AttemptEnds(ledger: Ledger, pending: Option<Pending>, now: Stamp, i: nat)
    requires DistinctKeys(ledger.records) && i < |ledger.records|
    ensures var before, after := ledger.records[i], RepairLedger(ledger, pending, now).records;
            && |after| == |ledger.records|
            && (HasFailed(ledger.records, i, pending, now) ==> after[i].lifecycleState == FailedTerminal)
            && (NeedsReconciling(ledger.records, i, pending, now) ==>
                  after[i].lifecycleState == ReconcileRequired && after[i].importStatus == Some(ArchivedMissing)
                  && after[i].valuationSource == before.valuationSource)
  {
    hide RepairLedger, IsStale, IsUnbacked, IsSuperseded, OpenFailed, NothingPutIn, KeptOrNow, FirstGiven;
    var record := ledger.records[i];
    RepairSettles(ledger, pending, now);
    if IsStale(record, pending, now) {
      StalePendingOpenEnds(ledger, pending, now, i);
      StaleIsPending(record, pending, now);
    } else if IsUnbacked(record) && forall k: nat :: !IsSuperseded(record, ledger.records, k) {
      UnbackedOpenEnds(ledger, pending, now, i);
    }
  }

  lemma StaleIsPending(record: LedgerRecord, pending: Option<Pending>, now: Stamp)
    requires IsStale(record, pending, now)
    ensures !IsUnbacked(record)
  {}

  /** Over any number of passes a failed attempt stays one: it is never sent to reconciliation. */
  lemma FailedAttemptStaysFailed(ledger: Ledger, pending: Option<Pending>, now: Stamp, passes: nat, i: nat)
    requires DistinctKeys(ledger.records) && i < |ledger.records| && passes > 0
    requires HasFailed(ledger.records, i, pending, now)
    ensures var after := RepairTimes(ledger, pending, now, passes).records;
            |after| == |ledger.records| && after[i].lifecycleState == FailedTerminal
  {
    hide RepairLedger, HasFailed, NeedsReconciling;
    FirstPass(ledger, pending, now);
    RepairSettles(ledger, pending, now);
    AttemptEnds(ledger, pending, now, i);
    RestLasts(ledger, pending, now, 1, passes - 1, i);
  }

  /** A superseded open is closed by the first pass, and its closing names the superseding record from then on. */
  lemma SupersededStaysClosed(ledger: Ledger, pending: Option<Pending>, now: Stamp, passes: nat, i: nat, k: nat)
    requires DistinctKeys(ledger.records) && i < |ledger.records| && passes > 0
    requires IsSuperseded(ledger.records[i], ledger.records, k)
    ensures var after := RepairTimes(ledger, pending, now, passes).records;
            |after| == |ledger.records| && after[i].lifecycleState == Closed
            && after[i].supersededByPositionKey == Some(ledger.records[k].positionKey)
  {
    hide RepairLedger, EndsLifeOf;
    FirstPass(ledger, pending, now);
    RepairSettles(ledger, pending, now);
    SupersededOpenEnds(ledger, pending, now, i, k);
    RestLasts(ledger, pending, now, 1, passes - 1, i);
  }

  /** The first pass sends it to reconciliation; there it stays, unless the next pass closes it as a paper position. */
  lemma ReconciledAttemptEnds(ledger: Ledger, pending: Option<Pending>, now: Stamp, passes: nat, i: nat)
    requires DistinctKeys(ledger.records) && i < |ledger.records| && passes > 0
    requires NeedsReconciling(ledger.records, i, pending, now)
    ensures var after := RepairTimes(ledger, pending, now, passes).records;
            |after| == |ledger.records|
            && after[i].lifecycleState == if passes > 1 && IsPaper(ledger.records[i]) then Closed else ReconcileRequired
  {
    hide RepairLedger, HasFailed, NeedsReconciling;
    FirstPass(ledger, pending, now);
    RepairSettles(ledger, pending, now);
    AttemptEnds(ledger, pending, now, i);
    var once := RepairTimes(ledger, pending, now, 1);
    if !IsPaper(ledger.records[i]) {
      RestLasts(ledger, pending, now, 1, passes - 1, i);
    } else if passes > 1 {
      PaperEnds(once, pending, now, i);
      RepairSettles(once, pending, now);
      RestLasts(ledger, pending, now, 2, passes - 2, i);
    }
  }
}
