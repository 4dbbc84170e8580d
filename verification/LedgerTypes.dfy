/** The position ledger shared by the audit tool and the event reducer (src/runtime/state-types.ts). */
module LedgerTypes {
  import opened Wrappers

  datatype LifecycleState =
    | OpenPending
    | Open
    | LpExitPending
    | InventoryExitPending
    | InventoryExitReady
    | ReconcileRequired
    | FailedTerminal
    | Closed

  datatype ImportStatus = Imported | EntryUnknown | ImportFailed | ArchivedMissing | SupersededClosed

  datatype ConfirmationStatus = Submitted | Confirmed | ConfirmationFailed | ConfirmationUnknown

  datatype LedgerRecord = LedgerRecord(
    positionKey: string,
    openIntentId: Option<string>,
    idempotencyKey: Option<string>,
    positionId: Option<string>,
    chainPositionAddress: Option<string>,
    activeMint: Option<string>,
    activePoolAddress: Option<string>,
    lifecycleState: LifecycleState,
    entrySol: Option<real>,
    entryFillSubmissionId: Option<string>,
    openedAt: Option<Stamp>,
    importStatus: Option<ImportStatus>,
    lastAction: string,
    lastReason: Option<string>,
    pendingSubmissionId: Option<string>,
    pendingOrderAction: Option<string>,
    pendingConfirmationStatus: Option<ConfirmationStatus>,
    pendingFinality: Option<string>,
    residualCleanupStatus: Option<string>,
    residualCleanupValueSol: Option<real>,
    supersededByPositionKey: Option<string>,
    evidenceMissingReason: Option<string>,
    missingOnChainSince: Option<Stamp>,
    valuationStatus: Option<string>,
    valuationReason: Option<string>,
    valuationSource: Option<string>,
    lastClosedAt: Option<Stamp>,
    updatedAt: Stamp)

  /** A record with only the fields the schema insists on. */
  const BLANK_RECORD := LedgerRecord("", None, None, None, None, None, None, OpenPending, None, None, None, None, "",
                                     None, None, None, None, None, None, None, None, None, None, None, None, None,
                                     None, Blank)

  /** No two records carry the same position key. */
  ghost predicate DistinctKeys(records: seq<LedgerRecord>) {
    forall i, j :: 0 <= i < j < |records| ==> records[i].positionKey != records[j].positionKey
  }
}
