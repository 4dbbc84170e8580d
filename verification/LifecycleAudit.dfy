/** Ledger audit and repair: the finders and the rewrite of src/cli/lifecycle-audit-main.ts. */
module LifecycleAudit {
  import opened Wrappers
  import opened LedgerTypes
  import opened Sequences

  const CHAIN_POSITION_EVIDENCE_GRACE_MS := 5 * 60_000

  datatype Ledger = Ledger(records: seq<LedgerRecord>, updatedAt: Stamp)

  /** The fields of the in-flight submission that the audit reads. */
  datatype Pending = Pending(
    orderAction: Option<string>,
    openIntentId: Option<string>,
    poolAddress: Option<string>,
    tokenMint: Option<string>)

  datatype IdentityField = OpenIntentId | PositionId

  datatype Issue =
    | CrossTargetIdentity(field: IdentityField, value: string, targets: set<string>)
    | StaleOpenPending(positionKey: string)
    | SyntheticLiveWithoutChain(positionKey: string)
    | OpenButArchivedOrMissing(positionKey: string)
    | ChainOpenMissing(positionKey: string)
    | ClosedWithPendingSubmission(positionKey: string)
    | SupersededSyntheticOpen(positionKey: string, supersededByPositionKey: string)
    | PaperReconcileClosed(positionKey: string)

  // ---------------------------------------------------------------- predicates of one record

  function TargetKey(record: LedgerRecord): string {
    record.chainPositionAddress.GetOr("") + "|" + record.activePoolAddress.GetOr("") + "|" + record.activeMint.GetOr("")
  }

  predicate IsPaperDryRunOverlay(record: LedgerRecord) {
    record.valuationSource == Some("paper-dry-run-overlay")
  }

  predicate IsPaperDryRun(record: LedgerRecord) {
    record.valuationSource.Some? && "paper-" <= record.valuationSource.value
  }

  predicate PendingMatches(pending: Option<Pending>, record: LedgerRecord) {
    pending.Some?
    && pending.value.orderAction == Some("add-lp")
    && ((Truthy(pending.value.openIntentId) && pending.value.openIntentId == record.openIntentId)
        || (pending.value.poolAddress == record.activePoolAddress && pending.value.tokenMint == record.activeMint))
  }

  predicate OlderThanChainEvidenceGrace(record: LedgerRecord, now: Stamp) {
    var reference := record.openedAt.GetOr(record.updatedAt);
    reference.At? && now.At? && now.ms - reference.ms >= CHAIN_POSITION_EVIDENCE_GRACE_MS
  }

  predicate NeverSubmittedReason(reason: Option<string>) {
    reason == Some("http-400")
    || reason == Some("sign-failed")
    || reason == Some("not-submitted")
    || reason == Some("broadcast-not-submitted")
  }

  predicate ChainMissingReason(reason: Option<string>) {
    reason == Some("chain-position-missing-without-exit-evidence")
  }

  predicate HasPendingFields(record: LedgerRecord) {
    Truthy(record.pendingSubmissionId) || record.pendingOrderAction.Some? || record.pendingConfirmationStatus.Some?
  }

  predicate IsStaleOpenPending(record: LedgerRecord, pending: Option<Pending>, now: Stamp) {
    record.lifecycleState == OpenPending
    && !Truthy(record.chainPositionAddress)
    && !PendingMatches(pending, record)
    && (Given(record.missingOnChainSince)
        || NeverSubmittedReason(record.lastReason)
        || ChainMissingReason(record.lastReason)
        || (record.lastAction == "add-lp"
            && (record.lastReason == Some("awaiting-chain-position-evidence") || HasPendingFields(record))
            && OlderThanChainEvidenceGrace(record, now)))
  }

  /** Lines 208-241. Object identity never matters: a closed chain record is not the open chainless one. */
  predicate SharesLifecycleIdentity(record: LedgerRecord, chainRecord: LedgerRecord) {
    Truthy(chainRecord.chainPositionAddress)
    && ((Truthy(record.openIntentId) && record.openIntentId == chainRecord.openIntentId)
        || (Truthy(record.idempotencyKey) && record.idempotencyKey == chainRecord.idempotencyKey)
        || (Truthy(record.entryFillSubmissionId) && record.entryFillSubmissionId == chainRecord.entryFillSubmissionId)
        || (Given(record.missingOnChainSince)
            && Given(chainRecord.lastClosedAt)
            && Truthy(record.activePoolAddress)
            && Truthy(record.activeMint)
            && record.activePoolAddress == chainRecord.activePoolAddress
            && record.activeMint == chainRecord.activeMint
            && record.openedAt.Some? && record.openedAt.value.At?
            && chainRecord.lastClosedAt.value.At?
            && record.openedAt.value.ms <= chainRecord.lastClosedAt.value.ms))
  }

  predicate IsClosedChain(record: LedgerRecord) {
    record.lifecycleState == Closed && Truthy(record.chainPositionAddress)
  }

  predicate IsMissingSyntheticOpen(record: LedgerRecord) {
    record.lifecycleState == Open
    && !Truthy(record.chainPositionAddress)
    && Given(record.missingOnChainSince)
    && record.importStatus != Some(SupersededClosed)
  }

  /** The first closed chain record that shares an identity with `record`. */
  function FindSuperseding(record: LedgerRecord, closedChain: seq<LedgerRecord>): Option<LedgerRecord> {
    if closedChain == [] then None
    else if SharesLifecycleIdentity(record, closedChain[0]) then Some(closedChain[0])
    else FindSuperseding(record, closedChain[1..])
  }

  predicate IsSyntheticLive(record: LedgerRecord) {
    !Truthy(record.chainPositionAddress)
    && record.importStatus != Some(SupersededClosed)
    && record.lifecycleState == Open
  }

  predicate LooksMissing(record: LedgerRecord) {
    Given(record.missingOnChainSince)
    || record.importStatus == Some(ArchivedMissing)
    || ChainMissingReason(record.lastReason)
  }

  predicate IsOpenButMissing(record: LedgerRecord) {
    record.lifecycleState == Open && !IsPaperDryRunOverlay(record) && LooksMissing(record)
  }

  predicate IsChainOpenMissing(record: LedgerRecord) {
    record.lifecycleState == Open
    && !IsPaperDryRunOverlay(record)
    && Truthy(record.chainPositionAddress)
    && Given(record.missingOnChainSince)
  }

  predicate IsClosedWithPending(record: LedgerRecord) {
    record.lifecycleState == Closed && HasPendingFields(record)
  }

  predicate IsPaperReconcile(record: LedgerRecord) {
    record.lifecycleState == ReconcileRequired && IsPaperDryRun(record) && LooksMissing(record)
  }

  // ---------------------------------------------------------------- cross-target identities

  function IdentityOf(record: LedgerRecord, field: IdentityField): Option<string> {
    match field
    case OpenIntentId => record.openIntentId
    case PositionId => record.positionId
  }

  predicate Carries(record: LedgerRecord, field: IdentityField, value: string) {
    value != "" && IdentityOf(record, field) == Some(value)
  }

  /** All targets under which `value` is recorded. */
  function TargetsOf(records: seq<LedgerRecord>, field: IdentityField, value: string): set<string> {
    set i | 0 <= i < |records| && Carries(records[i], field, value) :: TargetKey(records[i])
  }

  /** The identity values in order of first appearance, as a JavaScript Map keeps its keys. */
  function ValuesOf(records: seq<LedgerRecord>, field: IdentityField): (values: seq<string>)
    ensures forall v :: v in values <==> exists i :: 0 <= i < |records| && Carries(records[i], field, v)
    ensures forall i, j :: 0 <= i < j < |values| ==> values[i] != values[j]
  {
    if records == [] then []
    else
      var before := ValuesOf(records[..|records| - 1], field);
      var last := records[|records| - 1];
      assert forall i :: 0 <= i < |records| - 1 ==> records[..|records| - 1][i] == records[i];
      if Truthy(IdentityOf(last, field)) && IdentityOf(last, field).value !in before
      then before + [IdentityOf(last, field).value]
      else before
  }

  function CrossTargetIssues(records: seq<LedgerRecord>, field: IdentityField, values: seq<string>): seq<Issue> {
    if values == [] then []
    else
      CrossTargetIssues(records, field, values[..|values| - 1])
      + (var v := values[|values| - 1];
         var targets := TargetsOf(records, field, v);
         if |targets| > 1 then [CrossTargetIdentity(field, v, targets)] else [])
  }

  function FindCrossTarget(records: seq<LedgerRecord>): seq<Issue> {
    CrossTargetIssues(records, OpenIntentId, ValuesOf(records, OpenIntentId))
    + CrossTargetIssues(records, PositionId, ValuesOf(records, PositionId))
  }

  /** The loops of lines 122-148: one grouping pass and one reporting pass for each identity field. */
  method FindCrossTargetIdentityIssues(records: seq<LedgerRecord>) returns (issues: seq<Issue>)
    ensures issues == FindCrossTarget(records)
  {
    var intents := FindIssuesForField(records, OpenIntentId);
    var positions := FindIssuesForField(records, PositionId);
    issues := intents + positions;
  }

  method FindIssuesForField(records: seq<LedgerRecord>, field: IdentityField) returns (issues: seq<Issue>)
    ensures issues == CrossTargetIssues(records, field, ValuesOf(records, field))
  {
    hide ValuesOf, TargetsOf;
    var order, grouped := GroupTargets(records, field);
    issues := [];
    for n := 0 to |order|
      invariant issues == CrossTargetIssues(records, field, order[..n])
    {
      assert order[..n + 1][..n] == order[..n];
      var targets := grouped[order[n]];
      if |targets| > 1 {
        issues := issues + [CrossTargetIdentity(field, order[n], targets)];
      }
    }
    assert order[..|order|] == order;
  }

  /** The Map that the grouping loop fills, with its keys in insertion order. */
  ghost predicate Groups(records: seq<LedgerRecord>, field: IdentityField, order: seq<string>,
                         grouped: map<string, set<string>>) {
    order == ValuesOf(records, field)
    && (forall v :: v in order <==> v in grouped)
    && (forall v :: v in grouped ==> grouped[v] == TargetsOf(records, field, v))
  }

  method GroupTargets(records: seq<LedgerRecord>, field: IdentityField)
    returns (order: seq<string>, grouped: map<string, set<string>>)
    ensures Groups(records, field, order, grouped)
  {
    order, grouped := [], map[];
    for n := 0 to |records|
      invariant Groups(records[..n], field, order, grouped)
    {
      GroupOne(records, field, order, grouped, n);
      var value := IdentityOf(records[n], field);
      if Truthy(value) {
        if value.value !in grouped {
          order, grouped := order + [value.value], grouped[value.value := {}];
        }
        grouped := grouped[value.value := grouped[value.value] + {TargetKey(records[n])}];
      }
    }
    assert records[..|records|] == records;
  }

  lemma GroupOne(records: seq<LedgerRecord>, field: IdentityField, order: seq<string>,
                 grouped: map<string, set<string>>, n: nat)
    requires n < |records| && Groups(records[..n], field, order, grouped)
    ensures var value := IdentityOf(records[n], field);
            if !Truthy(value) then Groups(records[..n + 1], field, order, grouped)
            else
              var v := value.value;
              Groups(records[..n + 1], field,
                     if v in grouped then order else order + [v],
                     grouped[v := (if v in grouped then grouped[v] else {}) + {TargetKey(records[n])}])
  {
    hide TargetKey, TargetsOf, ValuesOf, Carries;
    ValuesGrow(records, field, n);
    forall v ensures TargetsOf(records[..n + 1], field, v)
                     == TargetsOf(records[..n], field, v)
                       + (if Carries(records[n], field, v) then {TargetKey(records[n])} else {}) {
      TargetsGrow(records, field, v, n);
    }
    CarriesOwnValue(records[n], field);
    var value := IdentityOf(records[n], field);
    if Truthy(value) && value.value !in grouped {
      NoTargets(records[..n], field, value.value);
    }
  }

  lemma CarriesOwnValue(record: LedgerRecord, field: IdentityField)
    ensures forall v :: Carries(record, field, v) <==>
              Truthy(IdentityOf(record, field)) && IdentityOf(record, field).value == v
  {}

  lemma ValuesGrow(records: seq<LedgerRecord>, field: IdentityField, n: nat)
    requires n < |records|
    ensures var value, before := IdentityOf(records[n], field), ValuesOf(records[..n], field);
            ValuesOf(records[..n + 1], field) == if Truthy(value) && value.value !in before then before + [value.value]
              else before
  {
    hide Carries;
    assert records[..n + 1][..n] == records[..n];
  }

  lemma TargetsGrow(records: seq<LedgerRecord>, field: IdentityField, value: string, n: nat)
    requires n < |records|
    ensures TargetsOf(records[..n + 1], field, value)
            == TargetsOf(records[..n], field, value)
              + (if Carries(records[n], field, value) then {TargetKey(records[n])} else {})
  {
    hide TargetKey, Carries;
    assert records[..n + 1] == records[..n] + [records[n]];
  }

  lemma NoTargets(records: seq<LedgerRecord>, field: IdentityField, value: string)
    requires value !in ValuesOf(records, field)
    ensures TargetsOf(records, field, value) == {}
  {}

  // ---------------------------------------------------------------- the full list of issues

  /**
   * The finders are all a filter over the records followed by a map to issues; `Reports` says which issues that gives.
   */
  ghost predicate Reports(issues: seq<Issue>, records: seq<LedgerRecord>, p: LedgerRecord -> bool,
                          mk: string -> Issue) {
    forall issue :: issue in issues <==>
      exists i :: 0 <= i < |records| && p(records[i]) && issue == mk(records[i].positionKey)
  }

  function ReportWhere(records: seq<LedgerRecord>, p: LedgerRecord -> bool, mk: string -> Issue): (issues: seq<Issue>)
    ensures Reports(issues, records, p, mk)
  {
    if records == [] then []
    else
      var rest := ReportWhere(records[1..], p, mk);
      assert records == [records[0]] + records[1..];
      (if p(records[0]) then [mk(records[0].positionKey)] else []) + rest
  }

  function FindStaleOpenPending(records: seq<LedgerRecord>, pending: Option<Pending>, now: Stamp): seq<Issue> {
    ReportWhere(records, r => IsStaleOpenPending(r, pending, now), key => StaleOpenPending(key))
  }

  function FindSyntheticLive(records: seq<LedgerRecord>): seq<Issue> {
    ReportWhere(records, r => IsSyntheticLive(r), key => SyntheticLiveWithoutChain(key))
  }

  function FindOpenButMissing(records: seq<LedgerRecord>): seq<Issue> {
    ReportWhere(records, r => IsOpenButMissing(r), key => OpenButArchivedOrMissing(key))
  }

  function FindChainOpenMissing(records: seq<LedgerRecord>): seq<Issue> {
    ReportWhere(records, r => IsChainOpenMissing(r), key => ChainOpenMissing(key))
  }

  function FindClosedWithPending(records: seq<LedgerRecord>): seq<Issue> {
    ReportWhere(records, r => IsClosedWithPending(r), key => ClosedWithPendingSubmission(key))
  }

  function FindPaperReconcile(records: seq<LedgerRecord>): seq<Issue> {
    ReportWhere(records, r => IsPaperReconcile(r), key => PaperReconcileClosed(key))
  }

  /** The closed chain records, in ledger order (line 245). */
  function ClosedChainRecords(records: seq<LedgerRecord>): seq<LedgerRecord> {
    Filter(r => IsClosedChain(r), records)
  }

  function FindLifecycleIssues(records: seq<LedgerRecord>, pending: Option<Pending>, now: Stamp): seq<Issue> {
    FindCrossTarget(records)
    + FindStaleOpenPending(records, pending, now)
    + FindSyntheticLive(records)
    + FindOpenButMissing(records)
    + FindChainOpenMissing(records)
    + FindClosedWithPending(records)
    + FindSuperseded(records, ClosedChainRecords(records))
    + FindPaperReconcile(records)
  }

  /** The filter and flatMap of lines 247-268 in one traversal. */
  function FindSuperseded(records: seq<LedgerRecord>, closedChain: seq<LedgerRecord>): seq<Issue> {
    if records == [] then []
    else
      var superseding := SupersederAmong(records[0], closedChain);
      (if superseding.Some?
       then [SupersededSyntheticOpen(records[0].positionKey, superseding.value.positionKey)]
       else [])
      + FindSuperseded(records[1..], closedChain)
  }

  function SupersederAmong(record: LedgerRecord, closedChain: seq<LedgerRecord>): Option<LedgerRecord> {
    if IsMissingSyntheticOpen(record) then FindSuperseding(record, closedChain) else None
  }

  // ---------------------------------------------------------------- the rewrite

  /** The key sets that repairLedger builds from the issue list (lines 385-426). */
  datatype Plan = Plan(
    duplicatedOpenIntentIds: set<string>,
    duplicatedPositionIds: set<string>,
    stale: set<string>,
    superseded: map<string, string>,
    syntheticOrMissing: set<string>,
    chainOpenMissing: set<string>,
    closedWithPending: set<string>,
    paperReconcile: set<string>)

  /** new Map(entries): a later entry with the same key wins. */
  function SupersededByKey(issues: seq<Issue>): map<string, string> {
    if issues == [] then map[]
    else
      var before := SupersededByKey(issues[..|issues| - 1]);
      var last := issues[|issues| - 1];
      if last.SupersededSyntheticOpen? then before[last.positionKey := last.supersededByPositionKey] else before
  }

  function PlanOf(issues: seq<Issue>): Plan {
    Plan(
      set i | i in issues && i.CrossTargetIdentity? && i.field == OpenIntentId :: i.value,
      set i | i in issues && i.CrossTargetIdentity? && i.field == PositionId :: i.value,
      set i | i in issues && i.StaleOpenPending? :: i.positionKey,
      SupersededByKey(issues),
      set i | i in issues && (i.SyntheticLiveWithoutChain? || i.OpenButArchivedOrMissing?) :: i.positionKey,
      set i | i in issues && i.ChainOpenMissing? :: i.positionKey,
      set i | i in issues && i.ClosedWithPendingSubmission? :: i.positionKey,
      set i | i in issues && i.PaperReconcileClosed? :: i.positionKey)
  }

  function RepairStale(record: LedgerRecord, now: Stamp): LedgerRecord {
    var terminal := NeverSubmittedReason(record.lastReason) || ChainMissingReason(record.lastReason)
                    || Given(record.missingOnChainSince);
    record.(
      lifecycleState := if terminal then FailedTerminal else ReconcileRequired,
      importStatus := Some(ArchivedMissing),
      lastReason := if terminal then record.lastReason else Some("open-pending-without-chain-evidence-repaired"),
      missingOnChainSince := record.missingOnChainSince.OrElse(Some(now)),
      lastClosedAt := if terminal then record.lastClosedAt.OrElse(Some(now)) else record.lastClosedAt,
      updatedAt := now)
  }

  function RepairSuperseded(record: LedgerRecord, supersedingKey: string, now: Stamp): LedgerRecord {
    record.(
      lifecycleState := Closed,
      importStatus := Some(SupersededClosed),
      supersededByPositionKey := Some(supersedingKey),
      lastReason := Some("superseded-by-chain-closed-position"),
      evidenceMissingReason := record.lastReason.OrElse(Some("synthetic-open-without-chain-identity")),
      lastClosedAt := record.lastClosedAt.OrElse(Some(now)),
      updatedAt := now)
  }

  function RepairSynthetic(record: LedgerRecord, now: Stamp): LedgerRecord {
    var terminal := record.entrySol.None? || record.entrySol.value == 0.0 || NeverSubmittedReason(record.lastReason);
    record.(
      lifecycleState := if terminal then FailedTerminal else ReconcileRequired,
      importStatus := Some(ArchivedMissing),
      lastReason := if terminal
                    then record.lastReason.OrElse(Some("synthetic-open-without-chain-evidence"))
                    else Some("synthetic-open-missing-chain-evidence"),
      evidenceMissingReason := record.evidenceMissingReason.OrElse(record.lastReason)
                                 .OrElse(Some("synthetic-open-without-chain-identity")),
      missingOnChainSince := record.missingOnChainSince.OrElse(Some(now)),
      lastClosedAt := if terminal then record.lastClosedAt.OrElse(Some(now)) else record.lastClosedAt,
      updatedAt := now)
  }

  function RepairChainOpenMissing(record: LedgerRecord, now: Stamp): LedgerRecord {
    record.(
      lifecycleState := ReconcileRequired,
      evidenceMissingReason := record.evidenceMissingReason.OrElse(record.lastReason)
                                 .OrElse(Some("chain-position-missing-from-account-state")),
      updatedAt := now)
  }

  function RepairClosedWithPending(record: LedgerRecord, now: Stamp): LedgerRecord {
    record.(
      pendingSubmissionId := None,
      pendingOrderAction := None,
      pendingConfirmationStatus := None,
      pendingFinality := None,
      updatedAt := now)
  }

  function RepairPaperReconcile(record: LedgerRecord, now: Stamp): LedgerRecord {
    record.(
      lifecycleState := Closed,
      importStatus := Some(SupersededClosed),
      lastReason := Some("paper-overlay-position-closed"),
      evidenceMissingReason := record.evidenceMissingReason.OrElse(record.lastReason),
      missingOnChainSince := None,
      lastClosedAt := record.lastClosedAt.OrElse(Some(now)),
      updatedAt := now)
  }

  function RepairIdentity(record: LedgerRecord, plan: Plan, now: Stamp): LedgerRecord {
    var duplicatedIntent := Truthy(record.openIntentId) && record.openIntentId.value in plan.duplicatedOpenIntentIds;
    var duplicatedPosition := Truthy(record.positionId) && record.positionId.value in plan.duplicatedPositionIds;
    record.(
      openIntentId := if duplicatedIntent then None else record.openIntentId,
      positionId := if duplicatedPosition && Truthy(record.chainPositionAddress) then record.chainPositionAddress
        else record.positionId,
      importStatus := if record.importStatus == Some(Imported) && (duplicatedIntent || duplicatedPosition)
        then Some(EntryUnknown) else record.importStatus,
      valuationStatus := if duplicatedIntent then Some("unavailable") else record.valuationStatus,
      valuationReason := if duplicatedIntent then Some("lifecycle-identity-cross-target-repaired")
        else record.valuationReason,
      updatedAt := now)
  }

  /** The priority order of lines 434-545. */
  function RepairRecord(record: LedgerRecord, plan: Plan, now: Stamp): LedgerRecord {
    if record.positionKey in plan.stale then RepairStale(record, now)
    else if record.positionKey in plan.superseded
      then RepairSuperseded(record, plan.superseded[record.positionKey], now)
    else if record.positionKey in plan.syntheticOrMissing then RepairSynthetic(record, now)
    else if record.positionKey in plan.chainOpenMissing then RepairChainOpenMissing(record, now)
    else if record.positionKey in plan.closedWithPending then RepairClosedWithPending(record, now)
    else if record.positionKey in plan.paperReconcile then RepairPaperReconcile(record, now)
    else RepairIdentity(record, plan, now)
  }

  function RepairLedger(ledger: Ledger, pending: Option<Pending>, now: Stamp): Ledger {
    var issues := FindLifecycleIssues(ledger.records, pending, now);
    if issues == [] then ledger
    else
      var plan := PlanOf(issues);
      Ledger(Map(r => RepairRecord(r, plan, now), ledger.records), now)
  }

  /** `passes` runs of the repair against the same pending submission and clock reading. */
  function RepairTimes(ledger: Ledger, pending: Option<Pending>, now: Stamp, passes: nat): Ledger
    decreases passes
  {
    if passes == 0 then ledger else RepairLedger(RepairTimes(ledger, pending, now, passes - 1), pending, now)
  }
}
