/** Reducing lifecycle events to the position ledger: src/runtime/lifecycle-event-reducer.ts. */
module LifecycleEventReducer {
  import opened LedgerTypes
  import opened Sequences
  import opened Wrappers

  datatype EventType =
    | BroadcastNotSubmitted
    | SignFailed
    | OrderSignFailed
    | BroadcastSubmitted
    | ChainPositionObserved
    | PositionClosed
    | ReconciledClosed
    | ResidualCleanupRequired
    | ResidualCleanupResolved
    | OtherEvent

  /** `createdAt` is the instant of the ISO text. */
  datatype LifecycleEvent = LifecycleEvent(
    eventKey: string,
    eventType: EventType,
    openIntentId: Option<string>,
    positionId: Option<string>,
    chainPositionAddress: Option<string>,
    idempotencyKey: Option<string>,
    submissionId: Option<string>,
    action: Option<string>,
    poolAddress: Option<string>,
    tokenMint: Option<string>,
    reason: Option<string>,
    residualCleanupStatus: Option<string>,
    residualCleanupValueSol: Option<real>,
    createdAt: int)

  // ---------------------------------------------------------------- keys and matching

  function ChainKey(address: string): string { "chain-position:" + address }

  /** positionLedgerKey, for callers that pass no positionAddress. */
  function PositionLedgerKey(chainPositionAddress: Option<string>, positionId: Option<string>,
                             openIntentId: Option<string>,
                             idempotencyKey: Option<string>, poolAddress: Option<string>,
                               mint: Option<string>): string {
    if Truthy(chainPositionAddress) then ChainKey(chainPositionAddress.value)
    else if Truthy(positionId) then "position:" + positionId.value
    else if Truthy(openIntentId) then "open-intent:" + openIntentId.value
    else if Truthy(idempotencyKey) then "idempotency:" + idempotencyKey.value
    else "pool-mint:" + poolAddress.GetOr("") + ":" + mint.GetOr("")
  }

  function EventTargetKey(event: LifecycleEvent): string {
    PositionLedgerKey(event.chainPositionAddress,
                      if Truthy(event.chainPositionAddress) || !Truthy(event.openIntentId) then event.positionId
                        else None,
                      event.openIntentId, event.idempotencyKey, event.poolAddress, event.tokenMint)
  }

  predicate MatchesChain(record: LedgerRecord, event: LifecycleEvent) {
    Truthy(event.chainPositionAddress)
    && (record.chainPositionAddress == event.chainPositionAddress
        || record.positionId == event.chainPositionAddress
        || record.positionKey == ChainKey(event.chainPositionAddress.value))
  }

  predicate Matches(record: LedgerRecord, event: LifecycleEvent) {
    || MatchesChain(record, event)
    || (Truthy(event.openIntentId) && record.openIntentId == event.openIntentId)
    || (Truthy(event.idempotencyKey) && record.idempotencyKey == event.idempotencyKey)
    || (Truthy(event.poolAddress) && Truthy(event.tokenMint)
        && record.activePoolAddress == event.poolAddress && record.activeMint == event.tokenMint)
  }

  /** records.find: the first record that matches, as an index. */
  function FirstMatch(records: seq<LedgerRecord>, event: LifecycleEvent): (index: int)
    ensures -1 <= index < |records|
    ensures index != -1 ==> Matches(records[index], event)
    ensures forall i :: 0 <= i < (if index == -1 then |records| else index) ==> !Matches(records[i], event)
  {
    if records == [] then -1
    else if Matches(records[0], event) then 0
    else
      var rest := FirstMatch(records[1..], event);
      assert forall i :: 1 <= i < |records| ==> records[1..][i - 1] == records[i];
      if rest == -1 then -1 else rest + 1
  }

  /** records.findIndex by position key. */
  function KeyIndex(records: seq<LedgerRecord>, key: string): (index: int)
    ensures -1 <= index < |records|
    ensures index != -1 ==> records[index].positionKey == key
    ensures forall i :: 0 <= i < (if index == -1 then |records| else index) ==> records[i].positionKey != key
  {
    if records == [] then -1
    else if records[0].positionKey == key then 0
    else
      var rest := KeyIndex(records[1..], key);
      assert forall i :: 1 <= i < |records| ==> records[1..][i - 1] == records[i];
      if rest == -1 then -1 else rest + 1
  }

  function Upserted(records: seq<LedgerRecord>, next: LedgerRecord): seq<LedgerRecord> {
    var index := KeyIndex(records, next.positionKey);
    if index >= 0 then records[index := next] else records + [next]
  }

  // ---------------------------------------------------------------- superseding

  predicate PoolMintFallback(candidate: LedgerRecord, chainRecord: LedgerRecord) {
    && Given(candidate.missingOnChainSince)
    && Given(chainRecord.lastClosedAt)
    && candidate.activePoolAddress == chainRecord.activePoolAddress
    && candidate.activeMint == chainRecord.activeMint
    && (match (candidate.openedAt, chainRecord.lastClosedAt)
        case (Some(At(openedMs)), Some(At(closedMs))) => openedMs <= closedMs
        case _ => false)
  }

  /** The candidate shares a non-empty identity with the chain record. */
  predicate SharesIdentity(candidate: LedgerRecord, chainRecord: LedgerRecord) {
    || (Truthy(candidate.openIntentId) && candidate.openIntentId == chainRecord.openIntentId)
    || (Truthy(candidate.idempotencyKey) && candidate.idempotencyKey == chainRecord.idempotencyKey)
    || (Truthy(candidate.entryFillSubmissionId) && candidate.entryFillSubmissionId == chainRecord.entryFillSubmissionId)
  }

  predicate IsSuperseded(candidate: LedgerRecord, chainRecord: LedgerRecord) {
    && candidate.positionKey != chainRecord.positionKey
    && !Truthy(candidate.chainPositionAddress)
    && !candidate.lifecycleState.Closed?
    && (SharesIdentity(candidate, chainRecord) || PoolMintFallback(candidate, chainRecord))
  }

  function SupersedeOne(candidate: LedgerRecord, chainRecord: LedgerRecord, now: int, reason: string): LedgerRecord {
    if IsSuperseded(candidate, chainRecord) then
      candidate.(lifecycleState := Closed, importStatus := Some(SupersededClosed),
                 supersededByPositionKey := Some(chainRecord.positionKey), lastReason := Some(reason),
                 lastClosedAt := Some(At(now)), updatedAt := At(now))
    else candidate
  }

  function Superseded(records: seq<LedgerRecord>, chainRecord: LedgerRecord, now: int,
                      reason: string): seq<LedgerRecord> {
    Map((candidate: LedgerRecord) => SupersedeOne(candidate, chainRecord, now, reason), records)
  }

  // ---------------------------------------------------------------- one event

  function ExistingOr(records: seq<LedgerRecord>, event: LifecycleEvent, fallback: LedgerRecord): LedgerRecord {
    var index := FirstMatch(records, event);
    if index == -1 then fallback else records[index]
  }

  predicate IsSubmission(event: LifecycleEvent) {
    event.eventType.BroadcastSubmitted? && (event.action == Some("add-lp") || event.action == Some("deploy"))
  }

  function SubmittedRecord(records: seq<LedgerRecord>, event: LifecycleEvent): LedgerRecord
    requires event.action.Some?
  {
    var existing := ExistingOr(records, event, BLANK_RECORD.(positionKey := EventTargetKey(event)));
    existing.(openIntentId := event.openIntentId.OrElse(existing.openIntentId),
              idempotencyKey := event.idempotencyKey.OrElse(existing.idempotencyKey),
              positionId := event.positionId.OrElse(existing.positionId),
              activePoolAddress := event.poolAddress.OrElse(existing.activePoolAddress),
              activeMint := event.tokenMint.OrElse(existing.activeMint),
              lifecycleState := OpenPending,
              pendingSubmissionId := event.submissionId.OrElse(existing.pendingSubmissionId),
              pendingOrderAction := event.action,
              pendingConfirmationStatus := Some(Submitted),
              lastAction := event.action.value,
              lastReason := Some(event.reason.GetOr("broadcast-submitted")),
              updatedAt := At(event.createdAt))
  }

  function ChainRecord(records: seq<LedgerRecord>, event: LifecycleEvent): LedgerRecord
    requires Truthy(event.chainPositionAddress)
  {
    var existing := ExistingOr(records, event, BLANK_RECORD.(lastAction := "hold"));
    existing.(positionKey := PositionLedgerKey(event.chainPositionAddress, None, None, None, event.poolAddress,
                                               event.tokenMint),
              openIntentId := event.openIntentId.OrElse(existing.openIntentId),
              idempotencyKey := event.idempotencyKey.OrElse(existing.idempotencyKey),
              positionId := event.chainPositionAddress,
              chainPositionAddress := event.chainPositionAddress,
              activePoolAddress := event.poolAddress.OrElse(existing.activePoolAddress),
              activeMint := event.tokenMint.OrElse(existing.activeMint),
              lifecycleState := Open,
              lastReason := event.reason.OrElse(existing.lastReason),
              missingOnChainSince := None,
              updatedAt := At(event.createdAt))
  }

  /** The records without the matched one, when the chain record takes over under another key. */
  function WithoutRekeyed(records: seq<LedgerRecord>, event: LifecycleEvent,
                          chainRecord: LedgerRecord): seq<LedgerRecord> {
    var index := FirstMatch(records, event);
    if index != -1 && records[index].positionKey != chainRecord.positionKey
    then RemoveAt(records, KeyIndex(records, records[index].positionKey))
    else records
  }

  function ObserveStep(records: seq<LedgerRecord>, event: LifecycleEvent): seq<LedgerRecord>
    requires Truthy(event.chainPositionAddress)
  {
    var chainRecord := ChainRecord(records, event);
    Superseded(Upserted(WithoutRekeyed(records, event, chainRecord), chainRecord), chainRecord, event.createdAt,
               "superseded-by-chain-position")
  }

  function ClosedRecord(existing: LedgerRecord, event: LifecycleEvent): LedgerRecord {
    existing.(lifecycleState := Closed,
              lastAction := event.action.GetOr("withdraw-lp"),
              lastReason := Some(event.reason.GetOr("position-closed")),
              lastClosedAt := Some(At(event.createdAt)),
              updatedAt := At(event.createdAt))
  }

  function CleanupRecord(existing: LedgerRecord, event: LifecycleEvent): LedgerRecord {
    existing.(residualCleanupStatus := Some(if event.eventType.ResidualCleanupResolved? then "residual_cleanup_complete"
                                            else event.residualCleanupStatus.GetOr("residual_cleanup_pending")),
              residualCleanupValueSol := event.residualCleanupValueSol.OrElse(existing.residualCleanupValueSol),
              updatedAt := At(event.createdAt))
  }

  function Step(records: seq<LedgerRecord>, event: LifecycleEvent): seq<LedgerRecord> {
    var index := FirstMatch(records, event);
    if IsSubmission(event) then Upserted(records, SubmittedRecord(records, event))
    else if event.eventType.ChainPositionObserved? && Truthy(event.chainPositionAddress)
      then ObserveStep(records, event)
    else if index == -1 then records
    else if event.eventType.PositionClosed? || event.eventType.ReconciledClosed? then
      var closedRecord := ClosedRecord(records[index], event);
      Superseded(Upserted(records, closedRecord), closedRecord, event.createdAt, "superseded-by-chain-closed-position")
    else if event.eventType.ResidualCleanupRequired? || event.eventType.ResidualCleanupResolved? then
      Upserted(records, CleanupRecord(records[index], event))
    else records
  }

  function Reduce(records: seq<LedgerRecord>, events: seq<LifecycleEvent>): seq<LedgerRecord> {
    if events == [] then records
    else Step(Reduce(records, events[..|events| - 1]), events[|events| - 1])
  }

  // ---------------------------------------------------------------- order of events

  /** localeCompare as "not after": any total preorder on texts. */
  type Collation = (string, string) -> bool

  function NotAfter(collate: Collation): (LifecycleEvent, LifecycleEvent) -> bool {
    (left: LifecycleEvent, right: LifecycleEvent) =>
      left.createdAt < right.createdAt || (left.createdAt == right.createdAt && collate(left.eventKey, right.eventKey))
  }

  function SortEvents(events: seq<LifecycleEvent>, collate: Collation): seq<LifecycleEvent> {
    StableSort(NotAfter(collate), events)
  }

  datatype Ledger = Ledger(records: seq<LedgerRecord>, updatedAt: Stamp)

  function ReduceToLedger(events: seq<LifecycleEvent>, previous: Option<Ledger>, now: Stamp,
                          collate: Collation): Ledger {
    var sorted := SortEvents(events, collate);
    Ledger(Reduce(if previous.Some? then previous.value.records else [], sorted),
           if sorted != [] then At(sorted[|sorted| - 1].createdAt) else if previous.Some? then previous.value.updatedAt
             else now)
  }

  // ---------------------------------------------------------------- the reducer

  /** The record list the reducer changes in place. */
  class RecordList {
    var records: seq<LedgerRecord>

    constructor (records: seq<LedgerRecord>)
      ensures this.records == records
    {
      this.records := records;
    }

    method Upsert(next: LedgerRecord)
      modifies this
      ensures records == Upserted(old(records), next)
    {
      var index := KeyIndex(records, next.positionKey);
      if index >= 0 {
        records := records[index := next];
        return;
      }
      records := records + [next];
    }

    method SupersedeSyntheticRecords(chainRecord: LedgerRecord, now: int, reason: string)
      modifies this
      ensures records == Superseded(old(records), chainRecord, now, reason)
    {
      for index := 0 to |records|
        invariant |records| == |old(records)|
        invariant forall i :: 0 <= i < index ==> records[i] == SupersedeOne(old(records)[i], chainRecord, now, reason)
        invariant forall i :: index <= i < |records| ==> records[i] == old(records)[i]
      {
        var candidate := records[index];
        if candidate.positionKey == chainRecord.positionKey || Truthy(candidate.chainPositionAddress)
          || candidate.lifecycleState.Closed? {
          continue;
        }
        if !SharesIdentity(candidate, chainRecord) && !PoolMintFallback(candidate, chainRecord) { continue; }
        records := records[index := candidate.(lifecycleState := Closed, importStatus := Some(SupersededClosed),
                                               supersededByPositionKey := Some(chainRecord.positionKey),
                                               lastReason := Some(reason), lastClosedAt := Some(At(now)),
                                                 updatedAt := At(now))];
      }
    }

    method Observe(event: LifecycleEvent)
      requires Truthy(event.chainPositionAddress)
      modifies this
      ensures records == ObserveStep(old(records), event)
    {
      hide Superseded, Upserted, ChainRecord, RemoveAt, Matches;
      var found := FirstMatch(records, event);
      var chainRecord := ChainRecord(records, event);
      if found != -1 && records[found].positionKey != chainRecord.positionKey {
        var index := KeyIndex(records, records[found].positionKey);
        if index >= 0 {
          records := RemoveAt(records, index);
        }
      }
      Upsert(chainRecord);
      SupersedeSyntheticRecords(chainRecord, event.createdAt, "superseded-by-chain-position");
    }

    method Close(event: LifecycleEvent, found: nat)
      requires found < |records|
      modifies this
      ensures var closedRecord := ClosedRecord(old(records)[found], event);
              records == Superseded(Upserted(old(records), closedRecord), closedRecord, event.createdAt,
                                    "superseded-by-chain-closed-position")
    {
      var closedRecord := ClosedRecord(records[found], event);
      Upsert(closedRecord);
      SupersedeSyntheticRecords(closedRecord, event.createdAt, "superseded-by-chain-closed-position");
    }

    /** The body of the event loop. */
    method Apply(event: LifecycleEvent)
      modifies this
      ensures records == Step(old(records), event)
    {
      if event.eventType.BroadcastNotSubmitted? || event.eventType.SignFailed?
         || event.eventType.OrderSignFailed? {
        return;
      }
      if IsSubmission(event) {
        Upsert(SubmittedRecord(records, event));
        return;
      }
      if event.eventType.ChainPositionObserved? && Truthy(event.chainPositionAddress) {
        Observe(event);
        return;
      }
      if event.eventType.PositionClosed? || event.eventType.ReconciledClosed? {
        var found := FirstMatch(records, event);
        if found == -1 { return; }
        Close(event, found);
        return;
      }
      if event.eventType.ResidualCleanupRequired? || event.eventType.ResidualCleanupResolved? {
        var found := FirstMatch(records, event);
        if found == -1 { return; }
        Upsert(CleanupRecord(records[found], event));
      }
    }
  }

  method ReduceLifecycleEventsToLedger(events: seq<LifecycleEvent>, previous: Option<Ledger>, now: Stamp,
                                       collate: Collation)
    returns (ledger: Ledger)
    ensures ledger == ReduceToLedger(events, previous, now, collate)
  {
    hide StableSort, Step;
    var start := if previous.Some? then previous.value.records else [];
    var list := new RecordList(start);
    var sorted := SortEvents(events, collate);
    for i := 0 to |sorted|
      invariant list.records == Reduce(start, sorted[..i])
    {
      assert sorted[..i + 1][..i] == sorted[..i];
      list.Apply(sorted[i]);
    }
    assert sorted[..|sorted|] == sorted;
    var updatedAt := if |sorted| > 0 then At(sorted[|sorted| - 1].createdAt)
                     else if previous.Some? then previous.value.updatedAt
                     else now;
    ledger := Ledger(list.records, updatedAt);
  }

  // ---------------------------------------------------------------- one record a chain address

  /** A record with a chain address carries that address's key. */
  ghost predicate AddressesKeyed(records: seq<LedgerRecord>) {
    forall record :: record in records && Truthy(record.chainPositionAddress) ==>
      record.positionKey == ChainKey(record.chainPositionAddress.value)
  }

  ghost predicate SoundLedger(records: seq<LedgerRecord>) {
    DistinctKeys(records) && AddressesKeyed(records)
  }

  /** No chain address has two records. */
  lemma SoundLedgerHasNoAddressTwice(records: seq<LedgerRecord>, i: nat, j: nat)
    requires SoundLedger(records) && i < j < |records|
    ensures Truthy(records[i].chainPositionAddress) ==>
              records[i].chainPositionAddress != records[j].chainPositionAddress
  {
    assert records[i] in records && records[j] in records;
  }

  lemma UpsertKeepsSound(records: seq<LedgerRecord>, next: LedgerRecord)
    requires SoundLedger(records)
    requires Truthy(next.chainPositionAddress) ==> next.positionKey == ChainKey(next.chainPositionAddress.value)
    ensures SoundLedger(Upserted(records, next))
    ensures next in Upserted(records, next)
  {
    var after := Upserted(records, next);
    var index := KeyIndex(records, next.positionKey);
    forall record | record in after && Truthy(record.chainPositionAddress)
      ensures record.positionKey == ChainKey(record.chainPositionAddress.value)
    {
      if record != next { assert record in records; }
    }
    if index >= 0 { assert after[index] == next; } else { assert after[|records|] == next; }
  }

  lemma RemoveKeepsSound(records: seq<LedgerRecord>, index: nat)
    requires SoundLedger(records) && index < |records|
    ensures SoundLedger(RemoveAt(records, index))
  {
    var after := RemoveAt(records, index);
    forall record | record in after ensures record in records {}
  }

  /** Superseding changes no key, no chain address, and no closed or chain-addressed record. */
  lemma SupersedeTouchesSyntheticOnly(records: seq<LedgerRecord>, chainRecord: LedgerRecord, now: int, reason: string)
    ensures var after := Superseded(records, chainRecord, now, reason);
            && |after| == |records|
            && (forall i :: 0 <= i < |records| ==>
                  after[i].positionKey == records[i].positionKey
                    && after[i].chainPositionAddress == records[i].chainPositionAddress)
            && (forall i :: 0 <= i < |records| ==>
                  records[i].lifecycleState.Closed? || Truthy(records[i].chainPositionAddress) ==>
                      after[i] == records[i])
            && (forall i :: 0 <= i < |records| ==> records[i].positionKey == chainRecord.positionKey ==>
                after[i] == records[i])
            && (forall i :: 0 <= i < |records| && after[i] != records[i] ==>
                  after[i].lifecycleState.Closed? && after[i].supersededByPositionKey == Some(chainRecord.positionKey))
  {}

  lemma SupersedeKeepsSound(records: seq<LedgerRecord>, chainRecord: LedgerRecord, now: int, reason: string)
    requires SoundLedger(records)
    ensures SoundLedger(Superseded(records, chainRecord, now, reason))
  {
    SupersedeTouchesSyntheticOnly(records, chainRecord, now, reason);
    var after := Superseded(records, chainRecord, now, reason);
    forall record | record in after && Truthy(record.chainPositionAddress)
      ensures record.positionKey == ChainKey(record.chainPositionAddress.value)
    {
      var i :| 0 <= i < |after| && after[i] == record;
      assert records[i] in records;
    }
  }

  lemma ChainRecordIsKeyed(records: seq<LedgerRecord>, event: LifecycleEvent)
    requires Truthy(event.chainPositionAddress)
    ensures var chainRecord := ChainRecord(records, event);
            && chainRecord.positionKey == ChainKey(event.chainPositionAddress.value)
            && chainRecord.chainPositionAddress == event.chainPositionAddress
            && chainRecord.lifecycleState.Open?
  {}

  lemma ObserveKeepsSound(records: seq<LedgerRecord>, event: LifecycleEvent)
    requires SoundLedger(records) && Truthy(event.chainPositionAddress)
    ensures SoundLedger(ObserveStep(records, event))
  {
    hide SoundLedger, ChainRecord, Superseded, Upserted, RemoveAt, ChainKey;
    var chainRecord := ChainRecord(records, event);
    ChainRecordIsKeyed(records, event);
    var index := FirstMatch(records, event);
    if index != -1 { RemoveKeepsSound(records, KeyIndex(records, records[index].positionKey)); }
    var kept := WithoutRekeyed(records, event, chainRecord);
    UpsertKeepsSound(kept, chainRecord);
    SupersedeKeepsSound(Upserted(kept, chainRecord), chainRecord, event.createdAt, "superseded-by-chain-position");
  }

  lemma StepKeepsSound(records: seq<LedgerRecord>, event: LifecycleEvent)
    requires SoundLedger(records)
    ensures SoundLedger(Step(records, event))
  {
    hide DistinctKeys, Superseded, Upserted, ObserveStep, PositionLedgerKey, ChainKey;
    var index := FirstMatch(records, event);
    if index != -1 { assert records[index] in records; }
    if IsSubmission(event) {
      UpsertKeepsSound(records, SubmittedRecord(records, event));
    } else if event.eventType.ChainPositionObserved? && Truthy(event.chainPositionAddress) {
      ObserveKeepsSound(records, event);
    } else if index != -1 {
      var closedRecord := ClosedRecord(records[index], event);
      UpsertKeepsSound(records, closedRecord);
      SupersedeKeepsSound(Upserted(records, closedRecord), closedRecord, event.createdAt,
                          "superseded-by-chain-closed-position");
      UpsertKeepsSound(records, CleanupRecord(records[index], event));
    }
  }

  /** Over any run of events the ledger stays sound, so no chain address ever gets two records. */
  lemma {:induction false} ReduceKeepsSound(records: seq<LedgerRecord>, events: seq<LifecycleEvent>)
    requires SoundLedger(records)
    ensures SoundLedger(Reduce(records, events))
  {
    hide SoundLedger, Step;
    if events != [] {
      ReduceKeepsSound(records, events[..|events| - 1]);
      StepKeepsSound(Reduce(records, events[..|events| - 1]), events[|events| - 1]);
    }
  }

  // ---------------------------------------------------------------- what an observation settles

  /** The record at a key, after an upsert and after superseding, is the one that was put there. */
  lemma UpsertedIsThere(records: seq<LedgerRecord>, chainRecord: LedgerRecord, now: int, reason: string)
    ensures chainRecord in Superseded(Upserted(records, chainRecord), chainRecord, now, reason)
  {
    var before := Upserted(records, chainRecord);
    var index := KeyIndex(records, chainRecord.positionKey);
    var at := if index >= 0 then index else |records|;
    assert before[at] == chainRecord;
    assert Superseded(before, chainRecord, now, reason)[at] == chainRecord;
  }

  /** Another record that has no chain address and is not closed. */
  predicate IsRival(other: LedgerRecord, chainRecord: LedgerRecord) {
    other.positionKey != chainRecord.positionKey && !Truthy(other.chainPositionAddress) && !other.lifecycleState.Closed?
  }

  /**
   * After an observation the ledger holds the chain record, open and under its address's key, and no other record that
   * is chainless and not closed shares a non-empty intent, idempotency key or entry submission with it.
   */
  lemma ObservationSettlesIdentity(records: seq<LedgerRecord>, event: LifecycleEvent)
    requires event.eventType.ChainPositionObserved? && Truthy(event.chainPositionAddress)
    ensures var chainRecord := ChainRecord(records, event);
            && chainRecord in Step(records, event)
            && chainRecord.positionKey == ChainKey(event.chainPositionAddress.value)
            && chainRecord.chainPositionAddress == event.chainPositionAddress
            && chainRecord.lifecycleState.Open?
            && (forall other :: other in Step(records, event) && IsRival(other, chainRecord) ==>
                !SharesIdentity(other, chainRecord))
  {
    hide Upserted, WithoutRekeyed, SharesIdentity, PoolMintFallback, ChainRecord, ChainKey;
    var chainRecord := ChainRecord(records, event);
    ChainRecordIsKeyed(records, event);
    var kept := WithoutRekeyed(records, event, chainRecord);
    var before := Upserted(kept, chainRecord);
    UpsertedIsThere(kept, chainRecord, event.createdAt, "superseded-by-chain-position");
    forall other | other in Step(records, event) && IsRival(other, chainRecord)
      ensures !SharesIdentity(other, chainRecord)
    {
      var i :| 0 <= i < |before|
        && SupersedeOne(before[i], chainRecord, event.createdAt, "superseded-by-chain-position") == other;
    }
  }

  /**
   * After a close that finds a record, that record is closed at the event's time, and no rival shares an identity with
   * it or is missing on chain in its pool and mint since before.
   */
  lemma CloseSettlesIdentity(records: seq<LedgerRecord>, event: LifecycleEvent)
    requires event.eventType.PositionClosed? || event.eventType.ReconciledClosed?
    requires FirstMatch(records, event) != -1
    ensures var existing := records[FirstMatch(records, event)];
            var closedRecord := ClosedRecord(existing, event);
            && closedRecord in Step(records, event)
            && closedRecord.positionKey == existing.positionKey
            && closedRecord.lifecycleState.Closed? && closedRecord.lastClosedAt == Some(At(event.createdAt))
            && (forall other :: other in Step(records, event) && IsRival(other, closedRecord) ==>
                  !SharesIdentity(other, closedRecord) && !PoolMintFallback(other, closedRecord))
  {
    hide Upserted, SharesIdentity, PoolMintFallback, Matches;
    var closedRecord := ClosedRecord(records[FirstMatch(records, event)], event);
    var before := Upserted(records, closedRecord);
    UpsertedIsThere(records, closedRecord, event.createdAt, "superseded-by-chain-closed-position");
    forall other | other in Step(records, event) && IsRival(other, closedRecord)
      ensures !SharesIdentity(other, closedRecord) && !PoolMintFallback(other, closedRecord)
    {
      var i :| 0 <= i < |before|
        && SupersedeOne(before[i], closedRecord, event.createdAt, "superseded-by-chain-closed-position") == other;
    }
  }

  /**
   * After a submission its record is a pending open of that submission, and every record of another key is as it was.
   */
  lemma SubmissionOpensPending(records: seq<LedgerRecord>, event: LifecycleEvent)
    requires IsSubmission(event)
    ensures var pending := SubmittedRecord(records, event);
            && pending in Step(records, event)
            && pending.lifecycleState.OpenPending?
            && pending.pendingConfirmationStatus == Some(Submitted)
            && pending.pendingOrderAction == event.action
            && (event.submissionId.Some? ==> pending.pendingSubmissionId == event.submissionId)
            && (event.openIntentId.Some? ==> pending.openIntentId == event.openIntentId)
            && (FirstMatch(records, event) != -1 ==>
                pending.positionKey == records[FirstMatch(records, event)].positionKey)
            && (forall i :: 0 <= i < |records| && records[i].positionKey != pending.positionKey ==>
                  i < |Step(records, event)| && Step(records, event)[i] == records[i])
  {
    hide Matches, EventTargetKey;
    var pending := SubmittedRecord(records, event);
    var index := KeyIndex(records, pending.positionKey);
    assert Upserted(records, pending)[if index >= 0 then index else |records|] == pending;
  }

  // ---------------------------------------------------------------- which records can be lost

  ghost predicate HasKey(records: seq<LedgerRecord>, key: string) {
    exists record :: record in records && record.positionKey == key
  }

  lemma UpsertKeys(records: seq<LedgerRecord>, next: LedgerRecord, key: string)
    ensures HasKey(Upserted(records, next), key) <==> HasKey(records, key) || key == next.positionKey
  {
    var after := Upserted(records, next);
    var index := KeyIndex(records, next.positionKey);
    if index >= 0 { assert after[index] == next; } else { assert after[|records|] == next; }
    if record :| record in records && record.positionKey == key && key != next.positionKey {
      var i :| 0 <= i < |records| && records[i] == record;
      assert after[i] == record;
    }
    if record :| record in after && record.positionKey == key {
      if record != next { assert record in records; }
    }
  }

  lemma SupersedeKeys(records: seq<LedgerRecord>, chainRecord: LedgerRecord, now: int, reason: string, key: string)
    ensures HasKey(Superseded(records, chainRecord, now, reason), key) <==> HasKey(records, key)
  {
    SupersedeTouchesSyntheticOnly(records, chainRecord, now, reason);
    var after := Superseded(records, chainRecord, now, reason);
    if record :| record in records && record.positionKey == key {
      var i :| 0 <= i < |records| && records[i] == record;
      assert after[i] in after;
    }
    if record :| record in after && record.positionKey == key {
      var i :| 0 <= i < |after| && after[i] == record;
      assert records[i] in records;
    }
  }

  lemma RemoveKeys(records: seq<LedgerRecord>, index: nat, key: string)
    requires DistinctKeys(records) && index < |records|
    ensures HasKey(RemoveAt(records, index), key) <==> HasKey(records, key) && key != records[index].positionKey
  {
    var after := RemoveAt(records, index);
    assert forall i :: 0 <= i < |after| ==> after[i] == records[if i < index then i else i + 1];
    if record :| record in records && record.positionKey == key && key != records[index].positionKey {
      var i :| 0 <= i < |records| && records[i] == record;
      assert after[if i < index then i else i - 1] == record;
    }
    if record :| record in after && record.positionKey == key {
      var i :| 0 <= i < |after| && after[i] == record;
      assert records[if i < index then i else i + 1] == record;
    }
  }

  /** The record an observation re-keys: the first match, unless it already carries the chain key. */
  ghost predicate Rekeys(records: seq<LedgerRecord>, event: LifecycleEvent, key: string) {
    && event.eventType.ChainPositionObserved? && Truthy(event.chainPositionAddress)
    && FirstMatch(records, event) != -1
    && records[FirstMatch(records, event)].positionKey == key
    && key != ChainKey(event.chainPositionAddress.value)
  }

  /**
   * A step loses a key exactly when it is an observation whose first match carries that key and not the observed
   * address's.
   */
  lemma StepLosesOnlyTheRekeyed(records: seq<LedgerRecord>, event: LifecycleEvent, key: string)
    requires SoundLedger(records) && HasKey(records, key)
    ensures !HasKey(Step(records, event), key) <==> Rekeys(records, event, key)
  {
    hide HasKey, Superseded, Upserted, RemoveAt, ChainKey, AddressesKeyed, DistinctKeys, SubmittedRecord,
      ClosedRecord, CleanupRecord;
    var index := FirstMatch(records, event);
    if IsSubmission(event) {
      UpsertKeys(records, SubmittedRecord(records, event), key);
    } else if event.eventType.ChainPositionObserved? && Truthy(event.chainPositionAddress) {
      var chainRecord := ChainRecord(records, event);
      ChainRecordIsKeyed(records, event);
      if index != -1 {
        RemoveKeys(records, KeyIndex(records, records[index].positionKey), key);
      }
      var kept := WithoutRekeyed(records, event, chainRecord);
      UpsertKeys(kept, chainRecord, key);
      SupersedeKeys(Upserted(kept, chainRecord), chainRecord, event.createdAt, "superseded-by-chain-position", key);
    } else if index != -1 {
      var closedRecord := ClosedRecord(records[index], event);
      UpsertKeys(records, closedRecord, key);
      SupersedeKeys(Upserted(records, closedRecord), closedRecord, event.createdAt,
                    "superseded-by-chain-closed-position", key);
      UpsertKeys(records, CleanupRecord(records[index], event), key);
    }
  }

  const QUIET_EVENT := LifecycleEvent("e", OtherEvent, None, None, None, None, None, None, None, None, None, None,
                                      None, 0)

  function Observation(address: string, createdAt: int): LifecycleEvent {
    QUIET_EVENT.(eventType := ChainPositionObserved, chainPositionAddress := Some(address), poolAddress := Some("p"),
                 tokenMint := Some("m"), createdAt := createdAt)
  }

  /** So a second position in the same pool and mint takes the first one's record over: the first address is gone. */
  lemma SecondPositionReplacesTheFirst(first: string, second: string)
    requires first != second && first != "" && second != ""
    ensures var after := Reduce([], [Observation(first, 0), Observation(second, 1)]);
            |after| == 1 && after[0].chainPositionAddress == Some(second)
  {
    hide Superseded, Upserted, RemoveAt;
    var e1, e2 := Observation(first, 0), Observation(second, 1);
    FirstObservation(e1);
    ChainKeysDiffer(first, second);
    ChainRecordIsKeyed([], e1);
    ChainRecordIsKeyed(Step([], e1), e2);
    OneObservation(Step([], e1), e2);
    assert [e1, e2][..1] == [e1] && [e1][..0] == [];
    assert Reduce([], []) == [];
    assert Reduce([], [e1]) == Step([], e1);
  }

  lemma FirstObservation(event: LifecycleEvent)
    requires event.eventType.ChainPositionObserved? && Truthy(event.chainPositionAddress)
    ensures Step([], event) == [ChainRecord([], event)]
  {
    hide ChainRecord;
    SingleStays(ChainRecord([], event), event.createdAt);
  }

  lemma SingleStays(chainRecord: LedgerRecord, now: int)
    ensures Superseded(Upserted([], chainRecord), chainRecord, now, "superseded-by-chain-position") == [chainRecord]
  {
    assert Upserted([], chainRecord) == [chainRecord];
  }

  lemma OneObservation(records: seq<LedgerRecord>, event: LifecycleEvent)
    requires event.eventType.ChainPositionObserved? && Truthy(event.chainPositionAddress)
    requires |records| == 1 && Matches(records[0], event)
             && records[0].positionKey != ChainRecord(records, event).positionKey
    ensures Step(records, event) == [ChainRecord(records, event)]
  {
    hide ChainRecord, Matches;
    var chainRecord := ChainRecord(records, event);
    assert FirstMatch(records, event) == 0 && KeyIndex(records, records[0].positionKey) == 0;
    assert RemoveAt(records, 0) == [];
    SingleStays(chainRecord, event.createdAt);
  }

  lemma ChainKeysDiffer(first: string, second: string)
    requires first != second
    ensures ChainKey(first) != ChainKey(second)
  {
    var prefix := "chain-position:";
    assert (prefix + first)[|prefix|..] == first && (prefix + second)[|prefix|..] == second;
  }

  // ---------------------------------------------------------------- order independence

  lemma EventOrderIsTotal(collate: Collation)
    requires TotalPreorder(collate)
    ensures TotalPreorder(NotAfter(collate))
  {
    var le := NotAfter(collate);
    forall x, y ensures le(x, y) || le(y, x) {
      assert collate(x.eventKey, y.eventKey) || collate(y.eventKey, x.eventKey);
    }
    forall x, y, z | le(x, y) && le(y, z) ensures le(x, z) {
      assert collate(x.eventKey, y.eventKey) && collate(y.eventKey, z.eventKey) ==> collate(x.eventKey, z.eventKey);
    }
  }

  /**
   * The ledger depends only on the set of events: when no two different events compare equal, any permutation of them
   * gives the same ledger.
   */
  lemma ReduceIgnoresOrder(events: seq<LifecycleEvent>, permuted: seq<LifecycleEvent>, previous: Option<Ledger>,
                           now: Stamp,
                           collate: Collation)
    requires TotalPreorder(collate) && multiset(events) == multiset(permuted)
    requires forall a, b :: a in events && b in events && NotAfter(collate)(a, b) && NotAfter(collate)(b, a) ==> a == b
    ensures ReduceToLedger(events, previous, now, collate) == ReduceToLedger(permuted, previous, now, collate)
  {
    hide Reduce, TotalPreorder;
    var le := NotAfter(collate);
    EventOrderIsTotal(collate);
    StableSortSorts(le, events);
    StableSortSorts(le, permuted);
    SameMembers(events, SortEvents(events, collate));
    SortedIsUnique(le, SortEvents(events, collate), SortEvents(permuted, collate));
  }
}
