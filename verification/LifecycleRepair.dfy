/** Convergence of the ledger repair: what repeated runs of repairLedger do to any ledger. */
module LifecycleRepair {
  import opened Wrappers
  import opened LedgerTypes
  import opened LifecycleAudit

  /** An identity value recorded under two different targets. */
  ghost predicate Duplicated(records: seq<LedgerRecord>, field: IdentityField, value: string) {
    exists i, j :: 0 <= i < |records| && 0 <= j < |records|
                   && Carries(records[i], field, value) && Carries(records[j], field, value)
                   && TargetKey(records[i]) != TargetKey(records[j])
  }

  ghost predicate NoConflict(records: seq<LedgerRecord>, field: IdentityField) {
    forall value :: !Duplicated(records, field, value)
  }

  // ---------------------------------------------------------------- reading the plan back

  lemma ManyTargets(records: seq<LedgerRecord>, field: IdentityField, value: string)
    ensures |TargetsOf(records, field, value)| > 1 <==> Duplicated(records, field, value)
  {
    hide TargetKey, Carries;
    var targets := TargetsOf(records, field, value);
    if Duplicated(records, field, value) {
      var i, j :| 0 <= i < |records| && 0 <= j < |records|
                  && Carries(records[i], field, value) && Carries(records[j], field, value)
                  && TargetKey(records[i]) != TargetKey(records[j]);
      var a, b := TargetKey(records[i]), TargetKey(records[j]);
      assert b in targets - {a};
      assert |targets| == |targets - {a}| + 1;
    }
    if |targets| > 1 {
      var a :| a in targets;
      assert |targets - {a}| > 0;
      var b :| b in targets - {a};
      var i :| 0 <= i < |records| && Carries(records[i], field, value) && TargetKey(records[i]) == a;
      var j :| 0 <= j < |records| && Carries(records[j], field, value) && TargetKey(records[j]) == b;
    }
  }

  lemma {:induction false} CrossTargetIssuesIn(records: seq<LedgerRecord>, field: IdentityField, values: seq<string>,
                                               issue: Issue)
    ensures issue in CrossTargetIssues(records, field, values)
            <==> issue.CrossTargetIdentity? && issue.field == field && issue.value in values
                 && issue.targets == TargetsOf(records, field, issue.value) && |issue.targets| > 1
  {
    if values != [] {
      var init, v := values[..|values| - 1], values[|values| - 1];
      CrossTargetIssuesIn(records, field, init, issue);
      assert values == init + [v];
    }
  }

  predicate IsConflictOn(issue: Issue, field: IdentityField, value: string) {
    issue.CrossTargetIdentity? && issue.field == field && issue.value == value
  }

  /** Which cross-target issues the audit reports. */
  lemma CrossTargetExact(records: seq<LedgerRecord>, field: IdentityField, value: string)
    ensures Duplicated(records, field, value) <==>
              exists issue :: issue in FindCrossTarget(records) && IsConflictOn(issue, field, value)
  {
    var intents := CrossTargetIssues(records, OpenIntentId, ValuesOf(records, OpenIntentId));
    var positions := CrossTargetIssues(records, PositionId, ValuesOf(records, PositionId));
    ManyTargets(records, field, value);
    var wanted := CrossTargetIdentity(field, value, TargetsOf(records, field, value));
    CrossTargetIssuesIn(records, field, ValuesOf(records, field), wanted);
    if Duplicated(records, field, value) {
      assert value in ValuesOf(records, field);
      assert wanted in FindCrossTarget(records);
    }
    forall issue | issue in FindCrossTarget(records) && issue.CrossTargetIdentity? && issue.field == field
      && issue.value == value
      ensures Duplicated(records, field, value)
    {
      CrossTargetIssuesIn(records, OpenIntentId, ValuesOf(records, OpenIntentId), issue);
      CrossTargetIssuesIn(records, PositionId, ValuesOf(records, PositionId), issue);
    }
  }

  lemma OnlyCrossTarget(records: seq<LedgerRecord>, issue: Issue)
    requires issue in FindCrossTarget(records)
    ensures issue.CrossTargetIdentity?
  {
    CrossTargetIssuesIn(records, OpenIntentId, ValuesOf(records, OpenIntentId), issue);
    CrossTargetIssuesIn(records, PositionId, ValuesOf(records, PositionId), issue);
  }

  /** The record that supersedes `record`, if the audit finds one. */
  ghost function SupersederOf(record: LedgerRecord, records: seq<LedgerRecord>): Option<LedgerRecord> {
    SupersederAmong(record, ClosedChainRecords(records))
  }

  predicate ReportsSuperseded(issue: Issue, record: LedgerRecord, closedChain: seq<LedgerRecord>) {
    var superseding := SupersederAmong(record, closedChain);
    superseding.Some? && issue == SupersededSyntheticOpen(record.positionKey, superseding.value.positionKey)
  }

  lemma {:induction false} SupersededIn(records: seq<LedgerRecord>, closedChain: seq<LedgerRecord>, issue: Issue)
    ensures issue in FindSuperseded(records, closedChain)
            <==> exists i :: 0 <= i < |records| && ReportsSuperseded(issue, records[i], closedChain)
  {
    if records != [] {
      SupersededIn(records[1..], closedChain, issue);
      assert records == [records[0]] + records[1..];
    }
  }

  lemma {:induction false} SupersededByKeyIn(issues: seq<Issue>, key: string)
    ensures key in SupersededByKey(issues)
            <==> exists i :: 0 <= i < |issues| && issues[i].SupersededSyntheticOpen? && issues[i].positionKey == key
    ensures key in SupersededByKey(issues) ==> SupersededSyntheticOpen(key, SupersededByKey(issues)[key]) in issues
  {
    if issues != [] {
      var init, last := issues[..|issues| - 1], issues[|issues| - 1];
      SupersededByKeyIn(init, key);
      assert issues == init + [last];
    }
  }

  /** What each kind of issue says about the ledger, independently of how the finders run. */
  ghost predicate Warranted(records: seq<LedgerRecord>, pending: Option<Pending>, now: Stamp, issue: Issue) {
    match issue
    case CrossTargetIdentity(field, value, targets) =>
      Duplicated(records, field, value) && targets == TargetsOf(records, field, value)
    case StaleOpenPending(key) =>
      exists i :: 0 <= i < |records| && records[i].positionKey == key && IsStaleOpenPending(records[i], pending, now)
    case SyntheticLiveWithoutChain(key) =>
      exists i :: 0 <= i < |records| && records[i].positionKey == key && IsSyntheticLive(records[i])
    case OpenButArchivedOrMissing(key) =>
      exists i :: 0 <= i < |records| && records[i].positionKey == key && IsOpenButMissing(records[i])
    case ChainOpenMissing(key) =>
      exists i :: 0 <= i < |records| && records[i].positionKey == key && IsChainOpenMissing(records[i])
    case ClosedWithPendingSubmission(key) =>
      exists i :: 0 <= i < |records| && records[i].positionKey == key && IsClosedWithPending(records[i])
    case SupersededSyntheticOpen(key, superseding) =>
      exists i :: 0 <= i < |records| && records[i].positionKey == key
                  && SupersederOf(records[i], records).Some?
                    && SupersederOf(records[i], records).value.positionKey == superseding
    case PaperReconcileClosed(key) =>
      exists i :: 0 <= i < |records| && records[i].positionKey == key && IsPaperReconcile(records[i])
  }

  /** The audit reports an issue exactly when the ledger warrants it. */
  lemma IssuesExact(records: seq<LedgerRecord>, pending: Option<Pending>, now: Stamp, issue: Issue)
    ensures issue in FindLifecycleIssues(records, pending, now) <==> Warranted(records, pending, now, issue)
  {
    hide IsStaleOpenPending, IsSyntheticLive, IsOpenButMissing, IsChainOpenMissing, IsClosedWithPending,
      IsPaperReconcile;
    hide SupersederAmong, ClosedChainRecords, Duplicated, TargetsOf, FindCrossTarget, FindSuperseded;
    CrossTargetWarranted(records, pending, now, issue);
    SupersededIn(records, ClosedChainRecords(records), issue);
  }

  lemma CrossTargetWarranted(records: seq<LedgerRecord>, pending: Option<Pending>, now: Stamp, issue: Issue)
    ensures issue in FindCrossTarget(records) <==> issue.CrossTargetIdentity? && Warranted(records, pending, now, issue)
  {
    if issue.CrossTargetIdentity? {
      CrossTargetIssuesIn(records, OpenIntentId, ValuesOf(records, OpenIntentId), issue);
      CrossTargetIssuesIn(records, PositionId, ValuesOf(records, PositionId), issue);
      ManyTargets(records, issue.field, issue.value);
      if Duplicated(records, issue.field, issue.value) {
        assert issue.value in ValuesOf(records, issue.field);
      }
    } else if issue in FindCrossTarget(records) {
      OnlyCrossTarget(records, issue);
    }
  }

  /** With distinct keys, the key sets of the plan decide about exactly the record that owns the key. */
  lemma PlanExact(records: seq<LedgerRecord>, pending: Option<Pending>, now: Stamp, i: nat)
    requires DistinctKeys(records) && i < |records|
    ensures var plan := PlanOf(FindLifecycleIssues(records, pending, now));
            var record := records[i];
            var key := record.positionKey;
            && (key in plan.stale <==> IsStaleOpenPending(record, pending, now))
            && (key in plan.superseded <==> SupersederOf(record, records).Some?)
            && (key in plan.syntheticOrMissing <==> IsSyntheticLive(record) || IsOpenButMissing(record))
            && (key in plan.chainOpenMissing <==> IsChainOpenMissing(record))
            && (key in plan.closedWithPending <==> IsClosedWithPending(record))
            && (key in plan.paperReconcile <==> IsPaperReconcile(record))
  {
    hide IsStaleOpenPending, IsSyntheticLive, IsOpenButMissing, IsChainOpenMissing, IsClosedWithPending,
      IsPaperReconcile;
    hide FindLifecycleIssues, SupersederOf;
    var key := records[i].positionKey;
    PlanExactForSuperseded(records, pending, now, i);
    IssuesExact(records, pending, now, StaleOpenPending(key));
    IssuesExact(records, pending, now, SyntheticLiveWithoutChain(key));
    IssuesExact(records, pending, now, OpenButArchivedOrMissing(key));
    IssuesExact(records, pending, now, ChainOpenMissing(key));
    IssuesExact(records, pending, now, ClosedWithPendingSubmission(key));
    IssuesExact(records, pending, now, PaperReconcileClosed(key));
  }

  lemma PlanExactForSuperseded(records: seq<LedgerRecord>, pending: Option<Pending>, now: Stamp, i: nat)
    requires DistinctKeys(records) && i < |records|
    ensures records[i].positionKey in PlanOf(FindLifecycleIssues(records, pending, now)).superseded
       <==> SupersederOf(records[i], records).Some?
  {
    hide FindLifecycleIssues, SupersederOf;
    var issues, key := FindLifecycleIssues(records, pending, now), records[i].positionKey;
    SupersededByKeyIn(issues, key);
    if key in SupersededByKey(issues) {
      IssuesExact(records, pending, now, SupersededSyntheticOpen(key, SupersededByKey(issues)[key]));
    }
    if SupersederOf(records[i], records).Some? {
      IssuesExact(records, pending, now,
                  SupersededSyntheticOpen(key, SupersederOf(records[i], records).value.positionKey));
    }
  }

  lemma PlanDuplicates(records: seq<LedgerRecord>, pending: Option<Pending>, now: Stamp, value: string)
    ensures var plan := PlanOf(FindLifecycleIssues(records, pending, now));
            && (value in plan.duplicatedOpenIntentIds <==> Duplicated(records, OpenIntentId, value))
            && (value in plan.duplicatedPositionIds <==> Duplicated(records, PositionId, value))
  {
    var issues := FindLifecycleIssues(records, pending, now);
    CrossTargetExact(records, OpenIntentId, value);
    CrossTargetExact(records, PositionId, value);
    forall issue | issue in issues && issue.CrossTargetIdentity? ensures Duplicated(records, issue.field, issue.value) {
      IssuesExact(records, pending, now, issue);
    }
  }

  // ---------------------------------------------------------------- one pass over one record

  /** What a pass does to one record, read off the record and the ledger instead of off the plan. */
  ghost function Repaired(record: LedgerRecord, records: seq<LedgerRecord>, pending: Option<Pending>,
                          now: Stamp): LedgerRecord {
    if IsStaleOpenPending(record, pending, now) then RepairStale(record, now)
    else if SupersederOf(record, records).Some?
      then RepairSuperseded(record, SupersederOf(record, records).value.positionKey, now)
    else if IsSyntheticLive(record) || IsOpenButMissing(record) then RepairSynthetic(record, now)
    else if IsClosedWithPending(record) then RepairClosedWithPending(record, now)
    else if IsPaperReconcile(record) then RepairPaperReconcile(record, now)
    else RepairIdentity(record, PlanOf(FindLifecycleIssues(records, pending, now)), now)
  }

  /** The chain-open-missing branch of the rewrite (lines 489-496) is never reached. */
  lemma RepairAt(ledger: Ledger, pending: Option<Pending>, now: Stamp, i: nat)
    requires DistinctKeys(ledger.records) && i < |ledger.records|
    requires FindLifecycleIssues(ledger.records, pending, now) != []
    ensures RepairLedger(ledger, pending, now).records[i] == Repaired(ledger.records[i], ledger.records, pending, now)
  {
    hide FindLifecycleIssues, IsStaleOpenPending, IsClosedWithPending, IsPaperReconcile, ChainMissingReason,
      IsPaperDryRunOverlay, IsMissingSyntheticOpen;
    hide RepairStale, RepairSuperseded, RepairSynthetic, RepairClosedWithPending, RepairPaperReconcile,
      RepairIdentity, ClosedChainRecords;
    PlanExact(ledger.records, pending, now, i);
    var issues := FindLifecycleIssues(ledger.records, pending, now);
    var key := ledger.records[i].positionKey;
    if key in SupersededByKey(issues) {
      SupersededByKeyIn(issues, key);
      IssuesExact(ledger.records, pending, now, SupersededSyntheticOpen(key, SupersededByKey(issues)[key]));
    }
  }

  /** How many repairs a record still needs for its own sake. */
  ghost function Rank(record: LedgerRecord, pending: Option<Pending>, now: Stamp): nat {
    if IsStaleOpenPending(record, pending, now) || IsSyntheticLive(record) || IsOpenButMissing(record) then 3
    else if IsPaperReconcile(record) then 2
    else if IsClosedWithPending(record) then 1
    else 0
  }

  ghost predicate SharedIntent(record: LedgerRecord, records: seq<LedgerRecord>) {
    Truthy(record.openIntentId) && Duplicated(records, OpenIntentId, record.openIntentId.value)
  }

  lemma RankByState(record: LedgerRecord, pending: Option<Pending>, now: Stamp)
    ensures Rank(record, pending, now)
            <= match record.lifecycleState
               case OpenPending | Open => 3
               case ReconcileRequired => 2
               case Closed => 1
               case _ => 0
  {
    hide LooksMissing, OlderThanChainEvidenceGrace, PendingMatches, IsPaperDryRun, IsPaperDryRunOverlay,
      NeverSubmittedReason;
  }

  lemma IdentityRepairKeepsRankZero(record: LedgerRecord, plan: Plan, pending: Option<Pending>, now: Stamp)
    requires Rank(record, pending, now) == 0
    ensures var repaired := RepairIdentity(record, plan, now);
            repaired.openIntentId == record.openIntentId || record.lifecycleState != OpenPending
            ==> Rank(repaired, pending, now) == 0
  {
    hide NeverSubmittedReason, ChainMissingReason;
    var repaired := RepairIdentity(record, plan, now);
    assert NeverSubmittedReason(repaired.lastReason) == NeverSubmittedReason(record.lastReason);
    assert ChainMissingReason(repaired.lastReason) == ChainMissingReason(record.lastReason);
    assert IsPaperDryRun(repaired) == IsPaperDryRun(record)
           && IsPaperDryRunOverlay(repaired) == IsPaperDryRunOverlay(record);
  }

  /**
   * The rank strictly falls on every record that has an issue of its own, and stays 0 once it is 0 unless an intent is
   * cleared.
   */
  lemma RankFalls(record: LedgerRecord, records: seq<LedgerRecord>, pending: Option<Pending>, now: Stamp)
    ensures var rank := Rank(record, pending, now);
            var repaired := Repaired(record, records, pending, now);
            && (rank > 0 ==> Rank(repaired, pending, now) < rank)
            && (rank > 0 ==> repaired.lifecycleState != OpenPending && repaired.openIntentId == record.openIntentId)
            && (rank == 0 && (record.lifecycleState != OpenPending || !SharedIntent(record, records)) ==>
                Rank(repaired, pending, now) == 0)
            && (rank == 0 ==> repaired.lifecycleState == record.lifecycleState)
            && (rank == 0 ==> repaired.openIntentId == if SharedIntent(record, records) then None
                else record.openIntentId)
  {
    hide FindLifecycleIssues, PlanOf, Duplicated, LooksMissing, OlderThanChainEvidenceGrace, PendingMatches;
    hide IsPaperDryRun, IsPaperDryRunOverlay, NeverSubmittedReason, ChainMissingReason;
    var plan := PlanOf(FindLifecycleIssues(records, pending, now));
    if Truthy(record.openIntentId) {
      PlanDuplicates(records, pending, now, record.openIntentId.value);
    }
    RankByState(record, pending, now);
    RankByState(Repaired(record, records, pending, now), pending, now);
    if Rank(record, pending, now) == 0 {
      IdentityRepairKeepsRankZero(record, plan, pending, now);
    }
  }

  /** What no repair ever changes, and the only ways a lifecycle state moves: nothing closed or failed is reopened. */
  ghost predicate Settles(before: LedgerRecord, after: LedgerRecord) {
    && after.positionKey == before.positionKey
    && TargetKey(after) == TargetKey(before)
    && after.chainPositionAddress == before.chainPositionAddress
    && (after.lifecycleState == before.lifecycleState
        || ((before.lifecycleState == OpenPending || before.lifecycleState == Open)
            && (after.lifecycleState == FailedTerminal || after.lifecycleState == ReconcileRequired
                || after.lifecycleState == Closed))
        || (before.lifecycleState == ReconcileRequired && after.lifecycleState == Closed))
    && (after.openIntentId == before.openIntentId || after.openIntentId == None)
  }

  lemma RepairedSettles(record: LedgerRecord, records: seq<LedgerRecord>, pending: Option<Pending>, now: Stamp)
    ensures Settles(record, Repaired(record, records, pending, now))
  {
    hide FindLifecycleIssues, PlanOf, NeverSubmittedReason, ChainMissingReason, TargetKey;
    hide IsStaleOpenPending, SupersederOf, IsSyntheticLive, IsOpenButMissing, IsClosedWithPending, IsPaperReconcile;
    IssueStates(record, records, pending, now);
    SameTarget(record, Repaired(record, records, pending, now));
  }

  /** Each repair applies to one lifecycle state. */
  lemma IssueStates(record: LedgerRecord, records: seq<LedgerRecord>, pending: Option<Pending>, now: Stamp)
    ensures IsStaleOpenPending(record, pending, now) ==> record.lifecycleState == OpenPending
    ensures SupersederOf(record, records).Some? || IsSyntheticLive(record) || IsOpenButMissing(record) ==>
              record.lifecycleState == Open
    ensures IsPaperReconcile(record) ==> record.lifecycleState == ReconcileRequired
    ensures IsClosedWithPending(record) ==> record.lifecycleState == Closed
  {
    hide LooksMissing, OlderThanChainEvidenceGrace, PendingMatches, NeverSubmittedReason, ChainMissingReason,
      HasPendingFields;
    hide IsPaperDryRun, IsPaperDryRunOverlay, ClosedChainRecords, FindSuperseding;
  }

  lemma SameTarget(record: LedgerRecord, other: LedgerRecord)
    requires record.chainPositionAddress == other.chainPositionAddress
    requires record.activePoolAddress == other.activePoolAddress && record.activeMint == other.activeMint
    ensures TargetKey(record) == TargetKey(other)
  {}

  // ---------------------------------------------------------------- one pass over the ledger

  /** The passes a record can still take part in. Clearing a shared intent of a pending open may turn it stale. */
  ghost function PassesLeft(record: LedgerRecord, records: seq<LedgerRecord>, pending: Option<Pending>,
                            now: Stamp): nat {
    var rank := Rank(record, pending, now);
    if !SharedIntent(record, records) then rank
    else if record.lifecycleState == OpenPending then 4
    else rank + 1
  }

  ghost predicate WithinPasses(records: seq<LedgerRecord>, pending: Option<Pending>, now: Stamp, bound: nat) {
    forall i :: 0 <= i < |records| ==> PassesLeft(records[i], records, pending, now) <= bound
  }

  /** Two ledgers, record by record. */
  ghost predicate AllSettle(before: seq<LedgerRecord>, after: seq<LedgerRecord>) {
    |before| == |after| && forall i :: 0 <= i < |before| ==> Settles(before[i], after[i])
  }

  lemma DuplicatesShrink(before: seq<LedgerRecord>, after: seq<LedgerRecord>, value: string)
    requires AllSettle(before, after)
    ensures Duplicated(after, OpenIntentId, value) ==> Duplicated(before, OpenIntentId, value)
  {
    if Duplicated(after, OpenIntentId, value) {
      var i, j :| 0 <= i < |after| && 0 <= j < |after|
                  && Carries(after[i], OpenIntentId, value) && Carries(after[j], OpenIntentId, value)
                  && TargetKey(after[i]) != TargetKey(after[j]);
      assert Settles(before[i], after[i]) && Settles(before[j], after[j]);
      assert Carries(before[i], OpenIntentId, value) && Carries(before[j], OpenIntentId, value);
    }
  }

  /** No record is added, dropped, reordered, retargeted or reopened by one repair. */
  lemma RepairSettles(ledger: Ledger, pending: Option<Pending>, now: Stamp)
    requires DistinctKeys(ledger.records)
    ensures AllSettle(ledger.records, RepairLedger(ledger, pending, now).records)
    ensures DistinctKeys(RepairLedger(ledger, pending, now).records)
  {
    hide FindLifecycleIssues, Repaired, PlanOf, RepairRecord, TargetKey;
    if FindLifecycleIssues(ledger.records, pending, now) != [] {
      forall i | 0 <= i < |ledger.records|
        ensures Settles(ledger.records[i], RepairLedger(ledger, pending, now).records[i])
      {
        RepairAt(ledger, pending, now, i);
        RepairedSettles(ledger.records[i], ledger.records, pending, now);
      }
    }
  }

  /** The potential of one record falls with every pass. */
  lemma PassAt(ledger: Ledger, pending: Option<Pending>, now: Stamp, i: nat)
    requires DistinctKeys(ledger.records) && i < |ledger.records|
    requires FindLifecycleIssues(ledger.records, pending, now) != []
    ensures var after := RepairLedger(ledger, pending, now).records;
            |after| == |ledger.records|
            && var left := PassesLeft(ledger.records[i], ledger.records, pending, now);
            PassesLeft(after[i], after, pending, now) <= if left > 0 then left - 1 else 0
  {
    hide FindLifecycleIssues, Repaired, PlanOf, RepairRecord, Duplicated, Rank, TargetKey;
    var records := ledger.records;
    var after := RepairLedger(ledger, pending, now).records;
    RepairSettles(ledger, pending, now);
    RepairAt(ledger, pending, now, i);
    RankFalls(records[i], records, pending, now);
    RankByState(records[i], pending, now);
    RankByState(after[i], pending, now);
    if Truthy(after[i].openIntentId) {
      DuplicatesShrink(records, after, after[i].openIntentId.value);
    }
  }

  lemma PassFalls(ledger: Ledger, pending: Option<Pending>, now: Stamp, bound: nat)
    requires DistinctKeys(ledger.records) && WithinPasses(ledger.records, pending, now, bound)
    ensures WithinPasses(RepairLedger(ledger, pending, now).records, pending, now, if bound > 0 then bound - 1 else 0)
  {
    hide FindLifecycleIssues, Repaired, PlanOf, RepairRecord, PassesLeft;
    if FindLifecycleIssues(ledger.records, pending, now) == [] {
      NoIssueNoPasses(ledger.records, pending, now);
    } else {
      forall i | 0 <= i < |ledger.records|
        ensures PassesLeft(RepairLedger(ledger, pending, now).records[i], RepairLedger(ledger, pending, now).records,
                           pending, now)
                <= if bound > 0 then bound - 1 else 0
      {
        PassAt(ledger, pending, now, i);
      }
    }
  }

  lemma NoIssueNoPasses(records: seq<LedgerRecord>, pending: Option<Pending>, now: Stamp)
    requires FindLifecycleIssues(records, pending, now) == []
    ensures WithinPasses(records, pending, now, 0)
  {
    hide FindLifecycleIssues, IsStaleOpenPending, IsSyntheticLive, IsOpenButMissing, IsClosedWithPending,
      IsPaperReconcile, Duplicated;
    forall i | 0 <= i < |records| ensures PassesLeft(records[i], records, pending, now) == 0 {
      var key := records[i].positionKey;
      IssuesExact(records, pending, now, StaleOpenPending(key));
      IssuesExact(records, pending, now, SyntheticLiveWithoutChain(key));
      IssuesExact(records, pending, now, OpenButArchivedOrMissing(key));
      IssuesExact(records, pending, now, ClosedWithPendingSubmission(key));
      IssuesExact(records, pending, now, PaperReconcileClosed(key));
      if SharedIntent(records[i], records) {
        var value := records[i].openIntentId.value;
        IssuesExact(records, pending, now,
                    CrossTargetIdentity(OpenIntentId, value, TargetsOf(records, OpenIntentId, value)));
      }
    }
  }

  lemma NoPassesLeftMeansQuiet(record: LedgerRecord, records: seq<LedgerRecord>, pending: Option<Pending>, now: Stamp)
    requires PassesLeft(record, records, pending, now) == 0
    ensures !IsStaleOpenPending(record, pending, now) && !IsSyntheticLive(record) && !IsOpenButMissing(record)
    ensures !IsChainOpenMissing(record) && !IsMissingSyntheticOpen(record)
    ensures !IsPaperReconcile(record) && !IsClosedWithPending(record) && !SharedIntent(record, records)
  {
    hide IsStaleOpenPending, IsPaperReconcile, IsClosedWithPending, IsPaperDryRunOverlay, ChainMissingReason,
      Duplicated;
  }

  lemma NoPassesOnlyPositionConflicts(records: seq<LedgerRecord>, pending: Option<Pending>, now: Stamp, issue: Issue)
    requires WithinPasses(records, pending, now, 0) && issue in FindLifecycleIssues(records, pending, now)
    ensures issue.CrossTargetIdentity? && issue.field == PositionId && Duplicated(records, PositionId, issue.value)
  {
    hide FindLifecycleIssues, IsStaleOpenPending, IsSyntheticLive, IsOpenButMissing, IsChainOpenMissing,
      IsMissingSyntheticOpen;
    hide IsPaperReconcile, IsClosedWithPending, PassesLeft, ClosedChainRecords, TargetsOf;
    IssuesExact(records, pending, now, issue);
    forall i | 0 <= i < |records|
      ensures !IsStaleOpenPending(records[i], pending, now) && !IsSyntheticLive(records[i])
              && !IsOpenButMissing(records[i])
      ensures !IsChainOpenMissing(records[i]) && !IsMissingSyntheticOpen(records[i])
      ensures !IsPaperReconcile(records[i]) && !IsClosedWithPending(records[i]) && !SharedIntent(records[i], records)
    {
      NoPassesLeftMeansQuiet(records[i], records, pending, now);
    }
  }

  // ---------------------------------------------------------------- whole runs

  lemma {:induction false} PassesBound(ledger: Ledger, pending: Option<Pending>, now: Stamp, passes: nat, bound: nat)
    requires DistinctKeys(ledger.records) && WithinPasses(ledger.records, pending, now, bound)
    ensures var after := RepairTimes(ledger, pending, now, passes).records;
            && AllSettle(ledger.records, after)
            && DistinctKeys(after)
            && WithinPasses(after, pending, now, if bound > passes then bound - passes else 0)
    decreases passes
  {
    hide RepairLedger, PassesLeft, TargetKey;
    if passes > 0 {
      PassesBound(ledger, pending, now, passes - 1, bound);
      var before := RepairTimes(ledger, pending, now, passes - 1);
      RepairSettles(before, pending, now);
      PassFalls(before, pending, now, if bound > passes - 1 then bound - (passes - 1) else 0);
      var after := RepairTimes(ledger, pending, now, passes).records;
      forall i | 0 <= i < |after| ensures Settles(ledger.records[i], after[i]) {
        assert Settles(ledger.records[i], before.records[i]) && Settles(before.records[i], after[i]);
      }
    }
  }

  lemma InitialBound(records: seq<LedgerRecord>, pending: Option<Pending>, now: Stamp)
    ensures WithinPasses(records, pending, now, if NoConflict(records, OpenIntentId) then 3 else 4)
  {
    hide Rank, Duplicated;
    forall i | 0 <= i < |records|
      ensures PassesLeft(records[i], records, pending, now) <= if NoConflict(records, OpenIntentId) then 3 else 4
    {
      RankByState(records[i], pending, now);
    }
  }

  /**
   * Any ledger with distinct keys, whatever its identities: after four repairs (three when no intent is shared across
   * targets) the only issues left are position ids shared across targets. Record by record the ledger kept its keys,
   * its order and its targets, and nothing closed was reopened.
   */
  lemma RepairConverges(ledger: Ledger, pending: Option<Pending>, now: Stamp, passes: nat, issue: Issue)
    requires DistinctKeys(ledger.records)
    requires passes >= if NoConflict(ledger.records, OpenIntentId) then 3 else 4
    ensures AllSettle(ledger.records, RepairTimes(ledger, pending, now, passes).records)
    ensures issue in FindLifecycleIssues(RepairTimes(ledger, pending, now, passes).records, pending, now)
            ==> issue.CrossTargetIdentity? && issue.field == PositionId
                && Duplicated(RepairTimes(ledger, pending, now, passes).records, PositionId, issue.value)
  {
    hide FindLifecycleIssues, RepairTimes, WithinPasses, Duplicated, AllSettle;
    InitialBound(ledger.records, pending, now);
    PassesBound(ledger, pending, now, passes, if NoConflict(ledger.records, OpenIntentId) then 3 else 4);
    var after := RepairTimes(ledger, pending, now, passes).records;
    if issue in FindLifecycleIssues(after, pending, now) {
      NoPassesOnlyPositionConflicts(after, pending, now, issue);
    }
  }

  // ---------------------------------------------------------------- position ids

  lemma PositionIdAt(ledger: Ledger, pending: Option<Pending>, now: Stamp, i: nat)
    requires DistinctKeys(ledger.records) && i < |ledger.records|
    ensures var record, after := ledger.records[i], RepairLedger(ledger, pending, now).records;
            |after| == |ledger.records|
            && (!Truthy(record.chainPositionAddress)
                || (Truthy(record.positionId) ==> !Duplicated(ledger.records, PositionId, record.positionId.value))
                ==> after[i].positionId == record.positionId)
  {
    hide FindLifecycleIssues, PlanOf, Duplicated, LooksMissing, OlderThanChainEvidenceGrace, PendingMatches,
      RepairRecord;
    if FindLifecycleIssues(ledger.records, pending, now) != [] {
      RepairAt(ledger, pending, now, i);
      if Truthy(ledger.records[i].positionId) {
        PlanDuplicates(ledger.records, pending, now, ledger.records[i].positionId.value);
      }
    }
  }

  lemma PositionConflictsStayAway(ledger: Ledger, pending: Option<Pending>, now: Stamp)
    requires DistinctKeys(ledger.records) && NoConflict(ledger.records, PositionId)
    ensures NoConflict(RepairLedger(ledger, pending, now).records, PositionId)
  {
    hide RepairLedger, TargetKey;
    var before, after := ledger.records, RepairLedger(ledger, pending, now).records;
    RepairSettles(ledger, pending, now);
    forall value ensures !Duplicated(after, PositionId, value) {
      assert !Duplicated(before, PositionId, value);
      forall i | 0 <= i < |before| ensures after[i].positionId == before[i].positionId
        && TargetKey(after[i]) == TargetKey(before[i]) {
        PositionIdAt(ledger, pending, now, i);
        assert Settles(before[i], after[i]);
      }
    }
  }

  /**
   * With no position id shared across targets either, the repair reaches a ledger without issues and stops changing it.
   */
  lemma {:induction false} RepairReachesFixpoint(ledger: Ledger, pending: Option<Pending>, now: Stamp, passes: nat)
    requires DistinctKeys(ledger.records) && NoConflict(ledger.records, PositionId)
    requires passes >= if NoConflict(ledger.records, OpenIntentId) then 3 else 4
    ensures FindLifecycleIssues(RepairTimes(ledger, pending, now, passes).records, pending, now) == []
    ensures RepairTimes(ledger, pending, now, passes + 1) == RepairTimes(ledger, pending, now, passes)
  {
    var issues := FindLifecycleIssues(RepairTimes(ledger, pending, now, passes).records, pending, now);
    NoConflictThroughout(ledger, pending, now, passes);
    if issues != [] {
      RepairConverges(ledger, pending, now, passes, issues[0]);
      assert false;
    }
  }

  lemma {:induction false} NoConflictThroughout(ledger: Ledger, pending: Option<Pending>, now: Stamp, passes: nat)
    requires DistinctKeys(ledger.records) && NoConflict(ledger.records, PositionId)
    ensures NoConflict(RepairTimes(ledger, pending, now, passes).records, PositionId)
    ensures DistinctKeys(RepairTimes(ledger, pending, now, passes).records)
    decreases passes
  {
    hide RepairLedger;
    if passes > 0 {
      NoConflictThroughout(ledger, pending, now, passes - 1);
      PositionConflictsStayAway(RepairTimes(ledger, pending, now, passes - 1), pending, now);
      RepairSettles(RepairTimes(ledger, pending, now, passes - 1), pending, now);
    }
  }

  /** The record carries the value as its position id, and no repair gives it another one. */
  predicate Pinned(record: LedgerRecord, value: string) {
    Carries(record, PositionId, value)
      && (!Truthy(record.chainPositionAddress) || record.chainPositionAddress == Some(value))
  }

  lemma PinnedStays(ledger: Ledger, pending: Option<Pending>, now: Stamp, i: nat, value: string)
    requires DistinctKeys(ledger.records) && i < |ledger.records| && Pinned(ledger.records[i], value)
    ensures var after := RepairLedger(ledger, pending, now).records;
            |after| == |ledger.records| && Pinned(after[i], value)
  {
    hide RepairLedger, FindLifecycleIssues, PlanOf;
    RepairSettles(ledger, pending, now);
    assert Settles(ledger.records[i], RepairLedger(ledger, pending, now).records[i]);
    PositionIdMoves(ledger, pending, now, i);
    PositionIdAt(ledger, pending, now, i);
  }

  /** A pass leaves a position id or replaces it by the record's own chain address. */
  lemma PositionIdMoves(ledger: Ledger, pending: Option<Pending>, now: Stamp, i: nat)
    requires DistinctKeys(ledger.records) && i < |ledger.records|
    ensures var record, after := ledger.records[i], RepairLedger(ledger, pending, now).records;
            && |after| == |ledger.records|
            && (after[i].positionId == record.positionId
                || (Truthy(record.chainPositionAddress) && after[i].positionId == record.chainPositionAddress))
  {
    hide FindLifecycleIssues, PlanOf, RepairRecord, IsStaleOpenPending, IsSyntheticLive, IsOpenButMissing, SupersederOf;
    hide NeverSubmittedReason, ChainMissingReason;
    if FindLifecycleIssues(ledger.records, pending, now) != [] { RepairAt(ledger, pending, now, i); }
  }

  /**
   * Two records of different targets that are pinned to one position id: that issue survives every number of repairs.
   */
  lemma {:induction false} PinnedConflictStays(ledger: Ledger, pending: Option<Pending>, now: Stamp, passes: nat,
                                               i: nat, j: nat, value: string)
    requires DistinctKeys(ledger.records) && i < |ledger.records| && j < |ledger.records|
    requires Pinned(ledger.records[i], value) && Pinned(ledger.records[j], value)
    requires TargetKey(ledger.records[i]) != TargetKey(ledger.records[j])
    ensures var after := RepairTimes(ledger, pending, now, passes).records;
            && AllSettle(ledger.records, after)
            && DistinctKeys(after)
            && Pinned(after[i], value) && Pinned(after[j], value)
            && CrossTargetIdentity(PositionId, value,
                                   TargetsOf(after, PositionId, value)) in FindLifecycleIssues(after, pending, now)
    decreases passes
  {
    hide RepairLedger, TargetKey, FindLifecycleIssues;
    var after := RepairTimes(ledger, pending, now, passes).records;
    if passes > 0 {
      PinnedConflictStays(ledger, pending, now, passes - 1, i, j, value);
      var before := RepairTimes(ledger, pending, now, passes - 1);
      RepairSettles(before, pending, now);
      PinnedStays(before, pending, now, i, value);
      PinnedStays(before, pending, now, j, value);
      forall k | 0 <= k < |after| ensures Settles(ledger.records[k], after[k]) {
        assert Settles(ledger.records[k], before.records[k]) && Settles(before.records[k], after[k]);
      }
    }
    assert Settles(ledger.records[i], after[i]) && Settles(ledger.records[j], after[j]);
    assert Duplicated(after, PositionId, value);
    IssuesExact(after, pending, now, CrossTargetIdentity(PositionId, value, TargetsOf(after, PositionId, value)));
  }

  // ---------------------------------------------------------------- when position ids are cleared

  /** No chain address is the chain address or the position id of a record of another target. */
  ghost predicate AddressesAreOwn(records: seq<LedgerRecord>) {
    forall i, j :: 0 <= i < |records| && 0 <= j < |records| && UsesAddressOf(records[j], records[i]) ==>
      TargetKey(records[i]) == TargetKey(records[j])
  }

  predicate UsesAddressOf(record: LedgerRecord, owner: LedgerRecord) {
    && Truthy(owner.chainPositionAddress)
    && (record.chainPositionAddress == owner.chainPositionAddress || record.positionId == owner.chainPositionAddress)
  }

  /** Two chainless records of different targets share a position id. */
  ghost predicate ChainlessConflict(records: seq<LedgerRecord>) {
    exists i, j :: 0 <= i < |records| && 0 <= j < |records| && AreInChainlessConflict(records[i], records[j])
  }

  predicate AreInChainlessConflict(a: LedgerRecord, b: LedgerRecord) {
    && Truthy(a.positionId) && a.positionId == b.positionId && TargetKey(a) != TargetKey(b)
    && !Truthy(a.chainPositionAddress) && !Truthy(b.chainPositionAddress)
  }

  /** What a pass does to identities: targets and chain addresses stay, position ids stay or become the own address. */
  ghost predicate IdentityMoves(before: LedgerRecord, after: LedgerRecord) {
    && TargetKey(after) == TargetKey(before)
    && after.chainPositionAddress == before.chainPositionAddress
    && (after.positionId == before.positionId
        || (Truthy(before.chainPositionAddress) && after.positionId == before.chainPositionAddress))
  }

  lemma IdentityMovesKeep(before: seq<LedgerRecord>, after: seq<LedgerRecord>)
    requires |before| == |after| && forall i :: 0 <= i < |before| ==> IdentityMoves(before[i], after[i])
    ensures AddressesAreOwn(before) ==> AddressesAreOwn(after)
    ensures ChainlessConflict(after) ==> ChainlessConflict(before)
  {
    hide TargetKey;
    if AddressesAreOwn(before) {
      forall i, j | 0 <= i < |after| && 0 <= j < |after| && UsesAddressOf(after[j], after[i])
        ensures TargetKey(after[i]) == TargetKey(after[j])
      {
        assert IdentityMoves(before[i], after[i]) && IdentityMoves(before[j], after[j]);
        assert UsesAddressOf(before[j], before[i]);
      }
    }
    if ChainlessConflict(after) {
      var i, j :| 0 <= i < |after| && 0 <= j < |after| && AreInChainlessConflict(after[i], after[j]);
      assert IdentityMoves(before[i], after[i]) && IdentityMoves(before[j], after[j]);
      assert AreInChainlessConflict(before[i], before[j]);
    }
  }

  lemma PassMovesIdentities(ledger: Ledger, pending: Option<Pending>, now: Stamp)
    requires DistinctKeys(ledger.records)
    ensures var after := RepairLedger(ledger, pending, now).records;
            |after| == |ledger.records| && forall i :: 0 <= i < |after| ==> IdentityMoves(ledger.records[i], after[i])
  {
    hide RepairLedger, TargetKey;
    RepairSettles(ledger, pending, now);
    var after := RepairLedger(ledger, pending, now).records;
    forall i | 0 <= i < |after| ensures IdentityMoves(ledger.records[i], after[i]) {
      assert Settles(ledger.records[i], after[i]);
      PositionIdMoves(ledger, pending, now, i);
    }
  }

  /** On a quiet record a pass rewrites a shared position id to the record's chain address, if it has one. */
  lemma QuietPositionId(ledger: Ledger, pending: Option<Pending>, now: Stamp, i: nat)
    requires DistinctKeys(ledger.records) && i < |ledger.records| && WithinPasses(ledger.records, pending, now, 0)
    ensures var record, after := ledger.records[i], RepairLedger(ledger, pending, now).records;
            && |after| == |ledger.records|
            && after[i].positionId ==
                 if Truthy(record.positionId) && Duplicated(ledger.records, PositionId, record.positionId.value)
                    && Truthy(record.chainPositionAddress)
                 then record.chainPositionAddress else record.positionId
  {
    hide FindLifecycleIssues, PlanOf, Duplicated, RepairRecord, PassesLeft;
    hide IsStaleOpenPending, IsSyntheticLive, IsOpenButMissing, IsPaperReconcile, IsClosedWithPending,
      IsMissingSyntheticOpen;
    var record := ledger.records[i];
    if FindLifecycleIssues(ledger.records, pending, now) != [] {
      RepairAt(ledger, pending, now, i);
      NoPassesLeftMeansQuiet(record, ledger.records, pending, now);
      QuietIsNotSuperseded(record, ledger.records);
      if Truthy(record.positionId) { PlanDuplicates(ledger.records, pending, now, record.positionId.value); }
    } else if Truthy(record.positionId) {
      var value := record.positionId.value;
      var targets := TargetsOf(ledger.records, PositionId, value);
      IssuesExact(ledger.records, pending, now, CrossTargetIdentity(PositionId, value, targets));
    }
  }

  lemma QuietIsNotSuperseded(record: LedgerRecord, records: seq<LedgerRecord>)
    requires !IsMissingSyntheticOpen(record)
    ensures SupersederOf(record, records).None?
  {}

  /**
   * One pass over a quiet ledger clears every position id that two targets share, when no two of them are chainless.
   */
  lemma QuietPassClearsPositionIds(ledger: Ledger, pending: Option<Pending>, now: Stamp)
    requires DistinctKeys(ledger.records) && WithinPasses(ledger.records, pending, now, 0)
    requires AddressesAreOwn(ledger.records) && !ChainlessConflict(ledger.records)
    ensures NoConflict(RepairLedger(ledger, pending, now).records, PositionId)
  {
    hide RepairLedger, TargetKey, WithinPasses, Truthy;
    var before, after := ledger.records, RepairLedger(ledger, pending, now).records;
    PassMovesIdentities(ledger, pending, now);
    forall value ensures !Duplicated(after, PositionId, value) {
      forall i, j | 0 <= i < |after| && 0 <= j < |after|
        && Carries(after[i], PositionId, value) && Carries(after[j], PositionId, value)
        ensures TargetKey(after[i]) == TargetKey(after[j])
      {
        QuietPositionId(ledger, pending, now, i);
        QuietPositionId(ledger, pending, now, j);
        assert IdentityMoves(before[i], after[i]) && IdentityMoves(before[j], after[j]);
        SharedAfterAQuietPass(before, after, i, j, value);
      }
    }
  }

  /** Two records that carry one position id after a quiet pass are of one target. */
  lemma SharedAfterAQuietPass(before: seq<LedgerRecord>, after: seq<LedgerRecord>, i: nat, j: nat, value: string)
    requires |before| == |after| && i < |after| && j < |after|
    requires AddressesAreOwn(before) && !ChainlessConflict(before)
    requires IdentityMoves(before[i], after[i]) && IdentityMoves(before[j], after[j])
    requires forall k :: k == i || k == j ==>
               after[k].positionId ==
                 if Truthy(before[k].positionId) && Duplicated(before, PositionId, before[k].positionId.value)
                    && Truthy(before[k].chainPositionAddress)
                 then before[k].chainPositionAddress else before[k].positionId
    requires Carries(after[i], PositionId, value) && Carries(after[j], PositionId, value)
    ensures TargetKey(after[i]) == TargetKey(after[j])
  {
    hide TargetKey, Duplicated;
    if TargetKey(before[i]) != TargetKey(before[j]) {
      assert !UsesAddressOf(before[j], before[i]) && !UsesAddressOf(before[i], before[j]);
      assert !AreInChainlessConflict(before[i], before[j]);
      if Carries(before[i], PositionId, value) && Carries(before[j], PositionId, value) {
        DuplicatedBy(before, i, j, value);
      }
    }
  }

  lemma DuplicatedBy(records: seq<LedgerRecord>, i: nat, j: nat, value: string)
    requires i < |records| && j < |records| && TargetKey(records[i]) != TargetKey(records[j])
    requires Carries(records[i], PositionId, value) && Carries(records[j], PositionId, value)
    ensures Duplicated(records, PositionId, value)
  {}

  lemma {:induction false} IdentitiesKept(ledger: Ledger, pending: Option<Pending>, now: Stamp, passes: nat)
    requires DistinctKeys(ledger.records) && AddressesAreOwn(ledger.records) && !ChainlessConflict(ledger.records)
    ensures var after := RepairTimes(ledger, pending, now, passes).records;
            DistinctKeys(after) && AddressesAreOwn(after) && !ChainlessConflict(after)
    decreases passes
  {
    hide RepairLedger, AddressesAreOwn, ChainlessConflict;
    if passes > 0 {
      var before := RepairTimes(ledger, pending, now, passes - 1);
      IdentitiesKept(ledger, pending, now, passes - 1);
      PassMovesIdentities(before, pending, now);
      IdentityMovesKeep(before.records, RepairLedger(before, pending, now).records);
      RepairSettles(before, pending, now);
    }
  }

  lemma {:induction false} ClearedStaysCleared(ledger: Ledger, pending: Option<Pending>, now: Stamp, passes: nat,
                                               more: nat)
    requires DistinctKeys(RepairTimes(ledger, pending, now, passes).records)
    requires NoConflict(RepairTimes(ledger, pending, now, passes).records, PositionId)
    ensures NoConflict(RepairTimes(ledger, pending, now, passes + more).records, PositionId)
    ensures DistinctKeys(RepairTimes(ledger, pending, now, passes + more).records)
    decreases more
  {
    hide RepairLedger, NoConflict;
    if more > 0 {
      ClearedStaysCleared(ledger, pending, now, passes, more - 1);
      PositionConflictsStayAway(RepairTimes(ledger, pending, now, passes + more - 1), pending, now);
      RepairSettles(RepairTimes(ledger, pending, now, passes + more - 1), pending, now);
    }
  }

  /** The number of passes after which only position ids can still be shared across targets. */
  ghost function SettlingPasses(records: seq<LedgerRecord>): nat {
    if NoConflict(records, OpenIntentId) then 3 else 4
  }

  lemma PositionIdsAreCleared(ledger: Ledger, pending: Option<Pending>, now: Stamp, passes: nat)
    requires DistinctKeys(ledger.records) && AddressesAreOwn(ledger.records) && !ChainlessConflict(ledger.records)
    requires passes > SettlingPasses(ledger.records)
    ensures FindLifecycleIssues(RepairTimes(ledger, pending, now, passes).records, pending, now) == []
  {
    hide FindLifecycleIssues, AddressesAreOwn, ChainlessConflict, WithinPasses, RepairLedger;
    var settling := SettlingPasses(ledger.records);
    InitialBound(ledger.records, pending, now);
    PassesBound(ledger, pending, now, settling, settling);
    IdentitiesKept(ledger, pending, now, settling);
    QuietPassClearsPositionIds(RepairTimes(ledger, pending, now, settling), pending, now);
    RepairSettles(RepairTimes(ledger, pending, now, settling), pending, now);
    ClearedStaysCleared(ledger, pending, now, settling + 1, passes - settling - 1);
    var issues := FindLifecycleIssues(RepairTimes(ledger, pending, now, passes).records, pending, now);
    if issues != [] {
      RepairConverges(ledger, pending, now, passes, issues[0]);
      assert false;
    }
  }

  /**
   * Where no chain address belongs to another target, four passes (five with a shared open intent) and any more leave
   * no issue at all exactly when no two chainless records of different targets share a position id.
   */
  lemma RepairClearsExactly(ledger: Ledger, pending: Option<Pending>, now: Stamp, passes: nat)
    requires DistinctKeys(ledger.records) && AddressesAreOwn(ledger.records)
    requires passes > SettlingPasses(ledger.records)
    ensures FindLifecycleIssues(RepairTimes(ledger, pending, now, passes).records, pending, now) == []
       <==> !ChainlessConflict(ledger.records)
  {
    hide FindLifecycleIssues, AddressesAreOwn, RepairTimes, SettlingPasses, TargetKey;
    if ChainlessConflict(ledger.records) {
      var records := ledger.records;
      var i, j :| 0 <= i < |records| && 0 <= j < |records| && AreInChainlessConflict(records[i], records[j]);
      PinnedConflictStays(ledger, pending, now, passes, i, j, records[i].positionId.value);
    } else {
      PositionIdsAreCleared(ledger, pending, now, passes);
    }
  }

  // ---------------------------------------------------------------- the bounds are tight

  /** An open chainless paper position that still carries pending fields. */
  ghost function PaperOpen(): LedgerRecord {
    BLANK_RECORD.(
      positionKey := "k", lifecycleState := Open, entrySol := Some(1.0), valuationSource := Some("paper-shadow"),
      pendingSubmissionId := Some("s"))
  }

  lemma PassOverFirst(ledger: Ledger, pending: Option<Pending>, now: Stamp)
    requires DistinctKeys(ledger.records) && |ledger.records| > 0 && Rank(ledger.records[0], pending, now) > 0
    ensures var after := RepairLedger(ledger, pending, now).records;
            && FindLifecycleIssues(ledger.records, pending, now) != []
            && |after| == |ledger.records| && after[0] == Repaired(ledger.records[0], ledger.records, pending, now)
            && DistinctKeys(after)
  {
    hide FindLifecycleIssues, Repaired, IsStaleOpenPending, IsSyntheticLive, IsOpenButMissing, IsPaperReconcile,
      IsClosedWithPending;
    var key := ledger.records[0].positionKey;
    IssuesExact(ledger.records, pending, now, StaleOpenPending(key));
    IssuesExact(ledger.records, pending, now, SyntheticLiveWithoutChain(key));
    IssuesExact(ledger.records, pending, now, OpenButArchivedOrMissing(key));
    IssuesExact(ledger.records, pending, now, ClosedWithPendingSubmission(key));
    IssuesExact(ledger.records, pending, now, PaperReconcileClosed(key));
    RepairAt(ledger, pending, now, 0);
    RepairSettles(ledger, pending, now);
  }

  lemma PaperOpenPath(now: Stamp, records: seq<LedgerRecord>, later: seq<LedgerRecord>)
    requires now.At? && SupersederOf(PaperOpen(), records).None?
    ensures IsSyntheticLive(PaperOpen())
    ensures var once := Repaired(PaperOpen(), records, None, now);
            IsPaperReconcile(once) && IsClosedWithPending(Repaired(once, later, None, now))
  {
    hide FindLifecycleIssues, PlanOf, SupersederOf;
  }

  /** Open, then reconcile-required, then closed with its pending fields: two passes leave an issue, three do not. */
  lemma TwoPassesAreNotEnough()
    ensures var ledger := Ledger([PaperOpen()], Blank);
            && DistinctKeys(ledger.records) && NoConflict(ledger.records, OpenIntentId)
              && NoConflict(ledger.records, PositionId)
            && FindLifecycleIssues(RepairTimes(ledger, None, At(0), 2).records, None, At(0)) != []
            && FindLifecycleIssues(RepairTimes(ledger, None, At(0), 3).records, None, At(0)) == []
  {
    hide FindLifecycleIssues, PlanOf, RepairRecord, RepairLedger, Repaired, SupersederOf;
    hide IsSyntheticLive, IsPaperReconcile, IsClosedWithPending, IsStaleOpenPending, IsOpenButMissing;
    var now := At(0);
    var ledger := Ledger([PaperOpen()], Blank);
    assert SupersederOf(ledger.records[0], ledger.records).None? by { NotMissing(ledger.records); }
    var once := RepairLedger(ledger, None, now);
    PaperOpenPath(now, ledger.records, once.records);
    PassOverFirst(ledger, None, now);
    PassOverFirst(once, None, now);
    var twice := RepairLedger(once, None, now);
    PassOverFirst(twice, None, now);
    assert RepairTimes(ledger, None, now, 1) == once by { assert RepairTimes(ledger, None, now, 0) == ledger; }
    assert RepairTimes(ledger, None, now, 2) == twice;
    RepairReachesFixpoint(ledger, None, now, 3);
  }

  lemma NotMissing(records: seq<LedgerRecord>)
    ensures SupersederOf(PaperOpen(), records).None?
  {}

  /** A pending open that the in-flight submission protects only through an intent it shares with another target. */
  ghost function ProtectedOpen(): LedgerRecord {
    BLANK_RECORD.(
      positionKey := "k", openIntentId := Some("i"), lifecycleState := OpenPending, lastAction := "add-lp",
      lastReason := Some("awaiting-chain-position-evidence"), openedAt := Some(At(0)),
      valuationSource := Some("paper-shadow"), pendingSubmissionId := Some("s"))
  }

  ghost predicate SharesIntentI(records: seq<LedgerRecord>) {
    |records| > 0 && records[0] == ProtectedOpen() && DistinctKeys(records)
    && Duplicated(records, OpenIntentId, "i") && NoConflict(records, PositionId)
  }

  const PROTECTING := Pending(Some("add-lp"), Some("i"), Some("p"), None)

  lemma ProtectedOpenIsCleared(records: seq<LedgerRecord>, now: Stamp)
    requires now == At(300_000) && Duplicated(records, OpenIntentId, "i")
    ensures var once := Repaired(ProtectedOpen(), records, Some(PROTECTING), now);
            && IsStaleOpenPending(once, Some(PROTECTING), now)
            && once.valuationSource == Some("paper-shadow") && once.pendingSubmissionId == Some("s")
            && once.missingOnChainSince == None && once.lastReason == Some("awaiting-chain-position-evidence")
  {
    hide FindLifecycleIssues, PlanOf, Duplicated, Repaired, IsStaleOpenPending;
    PlanDuplicates(records, Some(PROTECTING), now, "i");
    ProtectedOpenIsNoOtherIssue(records, now);
    UnprotectedOpenIsStale(Repaired(ProtectedOpen(), records, Some(PROTECTING), now));
  }

  lemma ProtectedOpenIsNoOtherIssue(records: seq<LedgerRecord>, now: Stamp)
    requires now == At(300_000)
    ensures Repaired(ProtectedOpen(), records, Some(PROTECTING), now)
         == RepairIdentity(ProtectedOpen(), PlanOf(FindLifecycleIssues(records, Some(PROTECTING), now)), now)
  {
    hide FindLifecycleIssues, PlanOf, RepairIdentity, RepairStale, RepairSuperseded, RepairSynthetic,
      ClosedChainRecords;
  }

  lemma UnprotectedOpenIsStale(record: LedgerRecord)
    requires record == ProtectedOpen().(openIntentId := None, valuationStatus := record.valuationStatus,
                                          valuationReason := record.valuationReason, updatedAt := record.updatedAt)
    ensures IsStaleOpenPending(record, Some(PROTECTING), At(300_000))
  {}

  lemma ClearedOpenTakesTwoMore(once: LedgerRecord, pending: Option<Pending>, now: Stamp, records: seq<LedgerRecord>,
                                later: seq<LedgerRecord>)
    requires IsStaleOpenPending(once, pending, now)
    requires once.valuationSource == Some("paper-shadow") && once.pendingSubmissionId == Some("s")
    requires once.missingOnChainSince == None && once.lastReason == Some("awaiting-chain-position-evidence")
    ensures var twice := Repaired(once, records, pending, now);
            IsPaperReconcile(twice) && IsClosedWithPending(Repaired(twice, later, pending, now))
  {
    hide FindLifecycleIssues, PlanOf, Duplicated, ClosedChainRecords;
  }

  /**
   * Clearing the shared intent makes the record stale, so it then takes three more passes: the bound of four is met.
   */
  lemma ThreePassesAreNotEnough(ledger: Ledger)
    requires SharesIntentI(ledger.records)
    ensures var pending, now := Some(PROTECTING), At(300_000);
            && FindLifecycleIssues(RepairTimes(ledger, pending, now, 3).records, pending, now) != []
            && FindLifecycleIssues(RepairTimes(ledger, pending, now, 4).records, pending, now) == []
  {
    hide FindLifecycleIssues, PlanOf, RepairRecord, RepairLedger, Repaired, Duplicated, ProtectedOpen;
    hide IsStaleOpenPending, IsPaperReconcile, IsClosedWithPending, IsSyntheticLive, IsOpenButMissing;
    var pending, now := Some(PROTECTING), At(300_000);
    IssuesExact(ledger.records, pending, now,
                CrossTargetIdentity(OpenIntentId, "i", TargetsOf(ledger.records, OpenIntentId, "i")));
    var once := RepairTimes(ledger, pending, now, 1);
    assert once == RepairLedger(ledger, pending, now) by { assert RepairTimes(ledger, pending, now, 0) == ledger; }
    RepairAt(ledger, pending, now, 0);
    RepairSettles(ledger, pending, now);
    ProtectedOpenIsCleared(ledger.records, now);
    PassOverFirst(once, pending, now);
    var twice := RepairLedger(once, pending, now);
    assert twice == RepairTimes(ledger, pending, now, 2);
    ClearedOpenTakesTwoMore(once.records[0], pending, now, once.records, twice.records);
    PassOverFirst(twice, pending, now);
    var thrice := RepairLedger(twice, pending, now);
    assert thrice == RepairTimes(ledger, pending, now, 3);
    PassOverFirst(thrice, pending, now);
    RepairReachesFixpoint(ledger, pending, now, 4);
  }

  /** There is such a ledger. */
  lemma ProtectedOpenWitness()
    ensures SharesIntentI([ProtectedOpen(),
                           BLANK_RECORD.(positionKey := "l", openIntentId := Some("i"), lifecycleState := Closed,
                                         activeMint := Some("m"))])
  {
    var other := BLANK_RECORD.(positionKey := "l", openIntentId := Some("i"), lifecycleState := Closed,
                               activeMint := Some("m"));
    var records := [ProtectedOpen(), other];
    assert Carries(records[0], OpenIntentId, "i") && Carries(records[1], OpenIntentId, "i");
    assert |TargetKey(records[0])| == 2 && |TargetKey(records[1])| == 3;
  }

  /** Without distinct keys the key sets hit the wrong record: a closed record is turned into one to reconcile. */
  lemma DuplicateKeysReopen()
    ensures var closed := BLANK_RECORD.(positionKey := "k", lifecycleState := Closed);
            var stale := BLANK_RECORD.(positionKey := "k", lifecycleState := OpenPending,
                                       lastReason := Some("http-400"));
            RepairLedger(Ledger([closed, stale], Blank), None, At(0)).records[0].lifecycleState == ReconcileRequired
  {
    hide FindLifecycleIssues, NeverSubmittedReason, IsSyntheticLive, IsOpenButMissing, IsPaperReconcile;
    var closed := BLANK_RECORD.(positionKey := "k", lifecycleState := Closed);
    var stale := BLANK_RECORD.(positionKey := "k", lifecycleState := OpenPending, lastReason := Some("http-400"));
    var records := [closed, stale];
    assert IsStaleOpenPending(records[1], None, At(0)) by { StaleByReason(records[1], At(0)); }
    IssuesExact(records, None, At(0), StaleOpenPending("k"));
    NotTerminal(closed);
  }

  lemma StaleByReason(record: LedgerRecord, now: Stamp)
    requires record.lifecycleState == OpenPending && record.chainPositionAddress == None
             && record.lastReason == Some("http-400")
    ensures IsStaleOpenPending(record, None, now)
  {}

  lemma NotTerminal(record: LedgerRecord)
    requires record.lastReason == None
    ensures !NeverSubmittedReason(record.lastReason) && !ChainMissingReason(record.lastReason)
  {}
}
