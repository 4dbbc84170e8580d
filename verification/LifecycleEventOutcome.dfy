/**
 * What one lifecycle event leaves of the position ledger (src/runtime/lifecycle-event-reducer.ts): the record it is
 * about, every field of the record it puts there, and the records that give way to it.
 */
module LifecycleEventOutcome {
  import opened LedgerTypes
  import opened LifecycleEventReducer
  import opened Sequences
  import opened Wrappers

  // ---------------------------------------------------------------- the record an event is about

  /** Both name the same thing, and it is not empty. */
  predicate Agree(a: Option<string>, b: Option<string>) {
    a.Some? && b.Some? && a.value == b.value && a.value != ""
  }

  predicate IsAbout(record: LedgerRecord, event: LifecycleEvent) {
    || Agree(event.chainPositionAddress, record.chainPositionAddress)
    || Agree(event.chainPositionAddress, record.positionId)
    || (event.chainPositionAddress.Some? && event.chainPositionAddress.value != ""
        && record.positionKey == "chain-position:" + event.chainPositionAddress.value)
    || Agree(event.openIntentId, record.openIntentId)
    || Agree(event.idempotencyKey, record.idempotencyKey)
    || (Agree(event.poolAddress, record.activePoolAddress) && Agree(event.tokenMint, record.activeMint))
  }

  ghost predicate IsFirstAbout(records: seq<LedgerRecord>, event: LifecycleEvent, i: int) {
    0 <= i < |records| && IsAbout(records[i], event) && forall j :: 0 <= j < i ==> !IsAbout(records[j], event)
  }

  ghost predicate NoneIsAbout(records: seq<LedgerRecord>, event: LifecycleEvent) {
    forall j :: 0 <= j < |records| ==> !IsAbout(records[j], event)
  }

  /** The key under which an event that is about no record yet gets one. */
  predicate IsNewKey(key: string, event: LifecycleEvent) {
    if event.chainPositionAddress.GetOr("") != "" then key == "chain-position:" + event.chainPositionAddress.value
    else if event.openIntentId.GetOr("") != "" then key == "open-intent:" + event.openIntentId.value
    else if event.positionId.GetOr("") != "" then key == "position:" + event.positionId.value
    else if event.idempotencyKey.GetOr("") != "" then key == "idempotency:" + event.idempotencyKey.value
    else key == "pool-mint:" + event.poolAddress.GetOr("") + ":" + event.tokenMint.GetOr("")
  }

  lemma AboutExactly(record: LedgerRecord, event: LifecycleEvent)
    ensures Matches(record, event) <==> IsAbout(record, event)
  {}

  lemma FirstAboutExactly(records: seq<LedgerRecord>, event: LifecycleEvent)
    ensures var i := FirstMatch(records, event);
            if i == -1 then NoneIsAbout(records, event) else IsFirstAbout(records, event, i)
  {
    hide Matches, IsAbout;
    forall j | 0 <= j < |records| ensures Matches(records[j], event) <==> IsAbout(records[j], event) {
      AboutExactly(records[j], event);
    }
  }

  /** The first record an event is about is the one the reducer finds, if any. */
  lemma FoundExactly(records: seq<LedgerRecord>, event: LifecycleEvent)
    ensures forall i :: IsFirstAbout(records, event, i) ==> 0 <= i == FirstMatch(records, event)
    ensures NoneIsAbout(records, event) <==> FirstMatch(records, event) == -1
  {
    hide Matches, IsAbout;
    FirstAboutExactly(records, event);
  }

  // ---------------------------------------------------------------- the record it puts there

  /** The event's value where it has one, the old value otherwise. */
  predicate Takes<T(==)>(after: Option<T>, given: Option<T>, before: Option<T>) {
    after == if given.Some? then given else before
  }

  predicate TakesIdentity(after: LedgerRecord, event: LifecycleEvent, before: LedgerRecord) {
    && Takes(after.openIntentId, event.openIntentId, before.openIntentId)
    && Takes(after.idempotencyKey, event.idempotencyKey, before.idempotencyKey)
    && Takes(after.activePoolAddress, event.poolAddress, before.activePoolAddress)
    && Takes(after.activeMint, event.tokenMint, before.activeMint)
    && after.updatedAt == At(event.createdAt)
  }

  /** The pending open that a submission leaves; every other field is as before. */
  predicate IsPending(after: LedgerRecord, event: LifecycleEvent, before: LedgerRecord) {
    && TakesIdentity(after, event, before)
    && Takes(after.positionId, event.positionId, before.positionId)
    && Takes(after.pendingSubmissionId, event.submissionId, before.pendingSubmissionId)
    && after.lifecycleState == OpenPending && after.pendingConfirmationStatus == Some(Submitted)
    && after.pendingOrderAction == event.action == Some(after.lastAction)
    && after.lastReason == (if event.reason.Some? then event.reason else Some("broadcast-submitted"))
    && after == before.(openIntentId := after.openIntentId, idempotencyKey := after.idempotencyKey,
                        positionId := after.positionId, activePoolAddress := after.activePoolAddress,
                        activeMint := after.activeMint, lifecycleState := OpenPending,
                        pendingSubmissionId := after.pendingSubmissionId, pendingOrderAction := event.action,
                        pendingConfirmationStatus := Some(Submitted), lastAction := after.lastAction,
                        lastReason := after.lastReason, updatedAt := after.updatedAt)
  }

  /** The open position that an observation leaves. */
  predicate IsObserved(after: LedgerRecord, event: LifecycleEvent, before: LedgerRecord) {
    && TakesIdentity(after, event, before)
    && event.chainPositionAddress.Some? && after.positionKey == "chain-position:" + event.chainPositionAddress.value
    && after.chainPositionAddress == after.positionId == event.chainPositionAddress
    && after.lifecycleState == Open && after.missingOnChainSince == None
    && Takes(after.lastReason, event.reason, before.lastReason)
    && after == before.(positionKey := after.positionKey, openIntentId := after.openIntentId,
                        idempotencyKey := after.idempotencyKey, positionId := after.positionId,
                        chainPositionAddress := after.chainPositionAddress,
                        activePoolAddress := after.activePoolAddress, activeMint := after.activeMint,
                        lifecycleState := Open, lastReason := after.lastReason, missingOnChainSince := None,
                        updatedAt := after.updatedAt)
  }

  /** The closed position that a close leaves. */
  predicate IsClosed(after: LedgerRecord, event: LifecycleEvent, before: LedgerRecord) {
    && after.lifecycleState == Closed && after.lastClosedAt == Some(At(event.createdAt))
    && after.updatedAt == At(event.createdAt)
    && after.lastAction == (if event.action.Some? then event.action.value else "withdraw-lp")
    && after.lastReason == (if event.reason.Some? then event.reason else Some("position-closed"))
    && after == before.(lifecycleState := Closed, lastAction := after.lastAction, lastReason := after.lastReason,
                        lastClosedAt := after.lastClosedAt, updatedAt := after.updatedAt)
  }

  /** The record that a residual cleanup leaves: resolved is complete, required is pending unless it says otherwise. */
  predicate IsCleaned(after: LedgerRecord, event: LifecycleEvent, before: LedgerRecord) {
    && after.residualCleanupStatus == (
         if event.eventType.ResidualCleanupResolved? then Some("residual_cleanup_complete")
         else if event.residualCleanupStatus.Some? then event.residualCleanupStatus
         else Some("residual_cleanup_pending"))
    && Takes(after.residualCleanupValueSol, event.residualCleanupValueSol, before.residualCleanupValueSol)
    && after.updatedAt == At(event.createdAt)
    && after == before.(residualCleanupStatus := after.residualCleanupStatus,
                        residualCleanupValueSol := after.residualCleanupValueSol, updatedAt := after.updatedAt)
  }

  /** The record replaces the one of its key, or comes last. */
  ghost predicate PutIn(records: seq<LedgerRecord>, record: LedgerRecord, after: seq<LedgerRecord>) {
    if exists i :: 0 <= i < |records| && records[i].positionKey == record.positionKey
    then |after| == |records|
         && forall i :: 0 <= i < |records| ==>
              after[i] == if records[i].positionKey == record.positionKey then record else records[i]
    else after == records + [record]
  }

  lemma UpsertedExactly(records: seq<LedgerRecord>, record: LedgerRecord)
    requires DistinctKeys(records)
    ensures PutIn(records, record, Upserted(records, record))
  {}

  // ---------------------------------------------------------------- the records that give way

  /** They name the same intent, key or entry fill, or the one missed on chain was opened before the other's close. */
  predicate IsTheSame(candidate: LedgerRecord, chain: LedgerRecord) {
    || Agree(candidate.openIntentId, chain.openIntentId)
    || Agree(candidate.idempotencyKey, chain.idempotencyKey)
    || Agree(candidate.entryFillSubmissionId, chain.entryFillSubmissionId)
    || (&& candidate.missingOnChainSince.Some? && candidate.missingOnChainSince.value != Blank
        && candidate.activePoolAddress == chain.activePoolAddress && candidate.activeMint == chain.activeMint
        && candidate.openedAt.Some? && candidate.openedAt.value.At?
        && chain.lastClosedAt.Some? && chain.lastClosedAt.value.At?
        && candidate.openedAt.value.ms <= chain.lastClosedAt.value.ms)
  }

  predicate GivesWay(candidate: LedgerRecord, chain: LedgerRecord) {
    && candidate.positionKey != chain.positionKey && candidate.chainPositionAddress.GetOr("") == ""
    && candidate.lifecycleState != Closed && IsTheSame(candidate, chain)
  }

  /** The candidate, closed for the chain record. */
  predicate IsClosedFor(after: LedgerRecord, candidate: LedgerRecord, chain: LedgerRecord, now: int, reason: string) {
    && after.lifecycleState == Closed && after.importStatus == Some(SupersededClosed)
    && after.supersededByPositionKey == Some(chain.positionKey) && after.lastReason == Some(reason)
    && after.lastClosedAt == Some(At(now)) && after.updatedAt == At(now)
    && after == candidate.(lifecycleState := Closed, importStatus := after.importStatus,
                           supersededByPositionKey := after.supersededByPositionKey, lastReason := after.lastReason,
                           lastClosedAt := after.lastClosedAt, updatedAt := after.updatedAt)
  }

  ghost predicate GiveWay(before: seq<LedgerRecord>, chain: LedgerRecord, now: int, reason: string,
                          after: seq<LedgerRecord>) {
    && |after| == |before|
    && forall i :: 0 <= i < |before| ==>
         if GivesWay(before[i], chain) then IsClosedFor(after[i], before[i], chain, now, reason)
         else after[i] == before[i]
  }

  lemma SupersededExactly(records: seq<LedgerRecord>, chain: LedgerRecord, now: int, reason: string)
    ensures GiveWay(records, chain, now, reason, Superseded(records, chain, now, reason))
  {
    hide IsSuperseded, GivesWay;
    forall i | 0 <= i < |records| ensures IsSuperseded(records[i], chain) <==> GivesWay(records[i], chain) {
      GivesWayExactly(records[i], chain);
    }
  }

  lemma GivesWayExactly(candidate: LedgerRecord, chain: LedgerRecord)
    ensures IsSuperseded(candidate, chain) <==> GivesWay(candidate, chain)
  {}

  lemma UpsertedInPlace(records: seq<LedgerRecord>, i: nat, next: LedgerRecord)
    requires DistinctKeys(records) && i < |records| && next.positionKey == records[i].positionKey
    ensures Upserted(records, next) == records[i := next]
  {}

  // ---------------------------------------------------------------- one event

  lemma NewKeyExactly(event: LifecycleEvent)
    ensures IsNewKey(EventTargetKey(event), event)
  {}

  lemma PendingExactly(records: seq<LedgerRecord>, event: LifecycleEvent)
    requires event.eventType.BroadcastSubmitted? && event.action in [Some("add-lp"), Some("deploy")]
    ensures var before := ExistingOr(records, event, BLANK_RECORD.(positionKey := EventTargetKey(event)));
            IsPending(SubmittedRecord(records, event), event, before)
    ensures Step(records, event) == Upserted(records, SubmittedRecord(records, event))
  {
    hide ExistingOr, EventTargetKey, FirstMatch, Upserted;
  }

  /** A submitted open: the record it is about, or a blank one under a new key, becomes its pending open. */
  lemma SubmissionExactly(records: seq<LedgerRecord>, event: LifecycleEvent)
    returns (before: LedgerRecord, pending: LedgerRecord)
    requires DistinctKeys(records)
    requires event.eventType.BroadcastSubmitted? && event.action in [Some("add-lp"), Some("deploy")]
    ensures forall i :: IsFirstAbout(records, event, i) ==> before == records[i]
    ensures NoneIsAbout(records, event) ==>
              IsNewKey(before.positionKey, event) && before == BLANK_RECORD.(positionKey := before.positionKey)
    ensures IsPending(pending, event, before) && PutIn(records, pending, Step(records, event))
  {
    hide IsFirstAbout, NoneIsAbout, FirstMatch, Upserted, PutIn, EventTargetKey, IsNewKey, IsPending, SubmittedRecord,
      Step;
    FoundExactly(records, event);
    NewKeyExactly(event);
    PendingExactly(records, event);
    before := ExistingOr(records, event, BLANK_RECORD.(positionKey := EventTargetKey(event)));
    pending := SubmittedRecord(records, event);
    UpsertedExactly(records, pending);
  }

  /**
   * An observed chain position: the record it is about is dropped or becomes the open position under the address's key,
   * and every record that is the same gives way.
   */
  lemma ObservationExactly(records: seq<LedgerRecord>, event: LifecycleEvent)
    returns (before: LedgerRecord, chain: LedgerRecord, kept: seq<LedgerRecord>, put: seq<LedgerRecord>)
    requires DistinctKeys(records)
    requires event.eventType.ChainPositionObserved? && event.chainPositionAddress.GetOr("") != ""
    ensures forall i :: IsFirstAbout(records, event, i) ==>
              before == records[i]
              && kept == if before.positionKey == chain.positionKey then records else records[..i] + records[i + 1..]
    ensures NoneIsAbout(records, event) ==> before == BLANK_RECORD.(lastAction := "hold") && kept == records
    ensures IsObserved(chain, event, before) && PutIn(kept, chain, put)
    ensures GiveWay(put, chain, event.createdAt, "superseded-by-chain-position", Step(records, event))
  {
    hide IsFirstAbout, NoneIsAbout, FirstMatch, Upserted, PutIn, Superseded, GiveWay, ChainRecord, IsObserved,
      WithoutRekeyed, DistinctKeys, Step;
    FoundExactly(records, event);
    before := ExistingOr(records, event, BLANK_RECORD.(lastAction := "hold"));
    chain := ChainRecord(records, event);
    kept := WithoutRekeyed(records, event, chain);
    put := Upserted(kept, chain);
    ObservedExactly(records, event);
    KeptIsWithoutFound(records, event, chain);
    UpsertedExactly(kept, chain);
    SupersededExactly(put, chain, event.createdAt, "superseded-by-chain-position");
  }

  lemma ObservedExactly(records: seq<LedgerRecord>, event: LifecycleEvent)
    requires event.eventType.ChainPositionObserved? && event.chainPositionAddress.GetOr("") != ""
    ensures var before := ExistingOr(records, event, BLANK_RECORD.(lastAction := "hold"));
            IsObserved(ChainRecord(records, event), event, before)
    ensures Step(records, event) == ObserveStep(records, event)
  {
    hide ExistingOr, FirstMatch, ObserveStep;
  }

  lemma KeptIsWithoutFound(records: seq<LedgerRecord>, event: LifecycleEvent, chain: LedgerRecord)
    requires DistinctKeys(records)
    ensures DistinctKeys(WithoutRekeyed(records, event, chain))
    ensures var i := FirstMatch(records, event);
            WithoutRekeyed(records, event, chain)
            == if i == -1 || records[i].positionKey == chain.positionKey then records
               else records[..i] + records[i + 1..]
  {
    hide Matches, DistinctKeys;
    var i := FirstMatch(records, event);
    if i != -1 {
      KeyIsAt(records, i);
      RemoveKeepsDistinct(records, i);
    }
  }

  lemma KeyIsAt(records: seq<LedgerRecord>, i: nat)
    requires DistinctKeys(records) && i < |records|
    ensures KeyIndex(records, records[i].positionKey) == i
  {}

  lemma RemoveKeepsDistinct(records: seq<LedgerRecord>, i: nat)
    requires DistinctKeys(records) && i < |records|
    ensures DistinctKeys(RemoveAt(records, i))
  {
    var after := RemoveAt(records, i);
    assert forall j :: 0 <= j < |after| ==> after[j] == records[if j < i then j else j + 1];
  }

  lemma ClosedExactly(existing: LedgerRecord, event: LifecycleEvent)
    ensures IsClosed(ClosedRecord(existing, event), event, existing)
    ensures ClosedRecord(existing, event).positionKey == existing.positionKey
  {}

  lemma StepCloses(records: seq<LedgerRecord>, event: LifecycleEvent)
    requires event.eventType.PositionClosed? || event.eventType.ReconciledClosed?
    requires FirstMatch(records, event) != -1
    ensures var closed := ClosedRecord(records[FirstMatch(records, event)], event);
            Step(records, event) == Superseded(Upserted(records, closed), closed, event.createdAt,
                                               "superseded-by-chain-closed-position")
  {
    hide FirstMatch, Upserted, ClosedRecord, Superseded;
  }

  /** A close: the record it is about is closed, and every record that is the same gives way. */
  lemma CloseExactly(records: seq<LedgerRecord>, event: LifecycleEvent, i: nat)
    returns (closed: LedgerRecord, put: seq<LedgerRecord>)
    requires DistinctKeys(records) && IsFirstAbout(records, event, i)
    requires event.eventType.PositionClosed? || event.eventType.ReconciledClosed?
    ensures IsClosed(closed, event, records[i]) && put == records[i := closed]
    ensures GiveWay(put, closed, event.createdAt, "superseded-by-chain-closed-position", Step(records, event))
  {
    hide IsFirstAbout, FirstMatch, Superseded, GiveWay, Upserted, DistinctKeys, ClosedRecord, IsClosed, Step;
    FoundExactly(records, event);
    closed := ClosedRecord(records[i], event);
    ClosedExactly(records[i], event);
    StepCloses(records, event);
    put := Upserted(records, closed);
    UpsertedInPlace(records, i, closed);
    SupersededExactly(put, closed, event.createdAt, "superseded-by-chain-closed-position");
  }

  lemma CleanedExactly(existing: LedgerRecord, event: LifecycleEvent)
    ensures IsCleaned(CleanupRecord(existing, event), event, existing)
    ensures CleanupRecord(existing, event).positionKey == existing.positionKey
  {}

  lemma StepCleans(records: seq<LedgerRecord>, event: LifecycleEvent)
    requires event.eventType.ResidualCleanupRequired? || event.eventType.ResidualCleanupResolved?
    ensures var index := FirstMatch(records, event);
            Step(records, event) == if index == -1 then records
              else Upserted(records, CleanupRecord(records[index], event))
  {
    hide FirstMatch, Upserted, CleanupRecord;
  }

  /** A residual cleanup changes the record it is about and no other. */
  lemma CleanupExactly(records: seq<LedgerRecord>, event: LifecycleEvent, i: nat) returns (cleaned: LedgerRecord)
    requires DistinctKeys(records) && IsFirstAbout(records, event, i)
    requires event.eventType.ResidualCleanupRequired? || event.eventType.ResidualCleanupResolved?
    ensures IsCleaned(cleaned, event, records[i]) && Step(records, event) == records[i := cleaned]
  {
    hide IsFirstAbout, FirstMatch, Upserted, DistinctKeys, CleanupRecord, IsCleaned, Step;
    FoundExactly(records, event);
    cleaned := CleanupRecord(records[i], event);
    CleanedExactly(records[i], event);
    StepCleans(records, event);
    UpsertedInPlace(records, i, cleaned);
  }

  /** Every other event changes nothing, and so does a close or a cleanup that is about no record. */
  lemma OthersChangeNothing(records: seq<LedgerRecord>, event: LifecycleEvent)
    requires match event.eventType {
      case BroadcastSubmitted => event.action !in [Some("add-lp"), Some("deploy")]
      case ChainPositionObserved => event.chainPositionAddress.GetOr("") == ""
      case PositionClosed => NoneIsAbout(records, event)
      case ReconciledClosed => NoneIsAbout(records, event)
      case ResidualCleanupRequired => NoneIsAbout(records, event)
      case ResidualCleanupResolved => NoneIsAbout(records, event)
      case _ => true
    }
    ensures Step(records, event) == records
  {
    hide NoneIsAbout, FirstMatch, Upserted, ObserveStep, SubmittedRecord, ClosedRecord, CleanupRecord;
    FoundExactly(records, event);
  }

  // ---------------------------------------------------------------- the ledger of a list of events

  /** The events are reduced by time and then by key, and the ledger carries the time of the latest one. */
  lemma LedgerExactly(events: seq<LifecycleEvent>, previous: Option<Ledger>, now: Stamp, collate: Collation)
    requires TotalPreorder(collate)
    ensures var sorted := SortEvents(events, collate);
            var ledger := ReduceToLedger(events, previous, now, collate);
            && multiset(sorted) == multiset(events)
            && (forall i, j :: 0 <= i < j < |sorted| ==>
                  || sorted[i].createdAt < sorted[j].createdAt
                  || (sorted[i].createdAt == sorted[j].createdAt && collate(sorted[i].eventKey, sorted[j].eventKey)))
            && ledger.records == Reduce(if previous.Some? then previous.value.records else [], sorted)
            && (if events == [] then ledger.updatedAt == (if previous.Some? then previous.value.updatedAt else now)
                else exists last :: last in events && ledger.updatedAt == At(last.createdAt)
                                    && forall event :: event in events ==> event.createdAt <= last.createdAt)
  {
    hide StableSort, Reduce, TotalPreorder;
    EventOrderIsTotal(collate);
    StableSortSorts(NotAfter(collate), events);
    var sorted := SortEvents(events, collate);
    SameMembers(events, sorted);
    assert |sorted| == |multiset(sorted)| == |events|;
    forall i, j | 0 <= i < j < |sorted|
      ensures sorted[i].createdAt < sorted[j].createdAt
              || (sorted[i].createdAt == sorted[j].createdAt && collate(sorted[i].eventKey, sorted[j].eventKey))
    {
      assert NotAfter(collate)(sorted[i], sorted[j]);
    }
    if events != [] {
      var last := sorted[|sorted| - 1];
      assert last in events;
      forall event | event in events ensures event.createdAt <= last.createdAt {
        var i :| 0 <= i < |sorted| && sorted[i] == event;
      }
    }
  }
}
