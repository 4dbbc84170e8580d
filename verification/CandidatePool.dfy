/**
 * The candidate pool: the status of a candidate (src/candidate-pool/aggregator.ts) and the table that stores it as one
 * openable bit and one freshness time (src/candidate-pool/sqlite-candidate-pool.ts).
 */
module CandidatePool {
  import opened Sequences
  import opened Wrappers

  datatype SourceName = Meteora | JupiterRoute | Gmgn | ChainFastSafety | PoolFeeYield

  datatype SourceStatus = Passed | BlockedSource | Failed | Deferred | StaleSource

  /** `observedAt` is the instant of the ISO text; `expiresAt` may be unreadable. */
  datatype Observation = Observation(
    source: SourceName,
    status: SourceStatus,
    observedAt: int,
    expiresAt: Stamp,
    score: real,
    hardRejectReason: string)

  datatype PoolStatus = Observed | Eligible | Openable | Blocked | Stale | SourceUnavailable

  datatype Verdict = Verdict(status: PoolStatus, blockReason: string)

  datatype Entry = Entry(status: PoolStatus, openable: bool, score: real, blockReason: string,
                         freshnessExpiresAt: int, updatedAt: int)

  function ParseTime(stamp: Stamp): int {
    match stamp
    case At(ms) => ms
    case _ => 0
  }

  predicate IsHard(observation: Observation) {
    observation.source.Meteora? || observation.source.JupiterRoute? || observation.source.Gmgn?
  }

  // ---------------------------------------------------------------- status

  /** The observation a Map built from [source, observation] pairs keeps: the last one. */
  function LastOf(observations: seq<Observation>, source: SourceName): (last: Option<Observation>)
    ensures last.Some? ==> last.value in observations && last.value.source == source
    ensures last.None? ==> forall o :: o in observations ==> o.source != source
  {
    if observations == [] then None
    else if observations[|observations| - 1].source == source then Some(observations[|observations| - 1])
    else LastOf(observations[..|observations| - 1], source)
  }

  function StatusName(status: SourceStatus): string {
    match status
    case Passed => "passed"
    case BlockedSource => "blocked"
    case Failed => "failed"
    case Deferred => "deferred"
    case StaleSource => "stale"
  }

  function ReasonOr(reason: string, other: string): string { if reason != "" then reason else other }

  /** The checks on one required source, or None when it passes. */
  function SourceVerdict(observation: Observation, name: string, blockedReason: string, now: int): Option<Verdict> {
    if ParseTime(observation.expiresAt) <= now || observation.status.StaleSource?
      then Some(Verdict(Stale, "stale-" + name))
    else if observation.status.BlockedSource? then Some(Verdict(Blocked, blockedReason))
    else if !observation.status.Passed?
      then Some(Verdict(SourceUnavailable, name + "-" + StatusName(observation.status)))
    else None
  }

  predicate IsFeeBlock(feeYield: Option<Observation>, now: int) {
    feeYield.Some? && feeYield.value.status.BlockedSource? && ParseTime(feeYield.value.expiresAt) > now
  }

  function Prefixed(prefix: string, reason: string, other: string): string {
    if reason != "" then prefix + reason else other
  }

  /** resolveStatus, given the observation each source is left with. */
  function ResolveBy(meteora: Option<Observation>, feeYield: Option<Observation>, route: Option<Observation>,
                     gmgn: Option<Observation>, now: int): Verdict {
    if meteora.None? then Verdict(Observed, "missing-meteora")
    else
      var meteoraVerdict := SourceVerdict(meteora.value, "meteora",
                                          ReasonOr(meteora.value.hardRejectReason, "meteora-blocked"), now);
      if meteoraVerdict.Some? then meteoraVerdict.value
      else if IsFeeBlock(feeYield, now) then
        Verdict(Blocked, Prefixed("pool_fee_yield:", feeYield.value.hardRejectReason, "pool_fee_yield-blocked"))
      else if route.None? then Verdict(Eligible, "missing-jupiter_route")
      else
        var routeVerdict := SourceVerdict(route.value, "jupiter_route",
                                          ReasonOr(route.value.hardRejectReason, "jupiter_route-blocked"), now);
        if routeVerdict.Some? then routeVerdict.value
        else if gmgn.None? then Verdict(Eligible, "missing-gmgn")
        else
          SourceVerdict(gmgn.value, "gmgn", Prefixed("gmgn:", gmgn.value.hardRejectReason, "gmgn-blocked"),
                        now).GetOr(Verdict(Openable, ""))
  }

  function ResolveStatus(observations: seq<Observation>, now: int): Verdict {
    ResolveBy(LastOf(observations, Meteora), LastOf(observations, PoolFeeYield), LastOf(observations, JupiterRoute),
              LastOf(observations, Gmgn), now)
  }

  predicate IsGood(observation: Option<Observation>, now: int) {
    observation.Some? && observation.value.status.Passed? && ParseTime(observation.value.expiresAt) > now
  }

  /**
   * A candidate is openable exactly when all required sources passed and have not expired, and no fee-yield block is in
   * force.
   */
  lemma OpenableMeansAllPassed(meteora: Option<Observation>, feeYield: Option<Observation>, route: Option<Observation>,
                               gmgn: Option<Observation>, now: int)
    ensures ResolveBy(meteora, feeYield, route, gmgn, now).status == Openable
       <==> IsGood(meteora, now) && IsGood(route, now) && IsGood(gmgn, now) && !IsFeeBlock(feeYield, now)
  {}

  // ---------------------------------------------------------------- entry

  /** The least positive time, or None. */
  function MinPositive(times: seq<int>): (least: Option<int>)
    ensures least.Some? ==> least.value > 0 && least.value in times && forall t :: t in times && t > 0 ==>
              least.value <= t
    ensures least.None? ==> forall t :: t in times ==> t <= 0
  {
    if times == [] then None
    else
      var before, last := MinPositive(times[..|times| - 1]), times[|times| - 1];
      assert times == times[..|times| - 1] + [last];
      if last > 0 && (before.None? || last < before.value) then Some(last) else before
  }

  function MaxPositive(times: seq<int>): (greatest: Option<int>)
    ensures greatest.Some? ==> greatest.value > 0 && greatest.value in times && forall t :: t in times ==>
              t <= greatest.value
    ensures greatest.None? ==> forall t :: t in times ==> t <= 0
  {
    if times == [] then None
    else
      var before, last := MaxPositive(times[..|times| - 1]), times[|times| - 1];
      assert times == times[..|times| - 1] + [last];
      if last > 0 && (before.None? || last > before.value) then Some(last) else before
  }

  method MinIso(values: seq<Stamp>, fallback: int) returns (result: int)
    ensures result == MinPositive(Map(ParseTime, values)).GetOr(fallback)
  {
    var minMs: Option<int> := None; // None stands for the source's Infinity
    for i := 0 to |values|
      invariant minMs == MinPositive(Map(ParseTime, values[..i]))
    {
      assert Map(ParseTime, values[..i + 1]) == Map(ParseTime, values[..i]) + [ParseTime(values[i])];
      assert Map(ParseTime, values[..i + 1])[..i] == Map(ParseTime, values[..i]);
      var parsed := ParseTime(values[i]);
      if parsed > 0 {
        if minMs.None? || parsed < minMs.value { minMs := Some(parsed); }
      }
    }
    assert values[..|values|] == values;
    result := minMs.GetOr(fallback);
  }

  method MaxIso(values: seq<int>, fallback: int) returns (result: int)
    ensures result == MaxPositive(values).GetOr(fallback)
  {
    var maxMs := 0;
    for i := 0 to |values|
      invariant maxMs == MaxPositive(values[..i]).GetOr(0)
    {
      assert values[..i + 1][..i] == values[..i];
      if values[i] > maxMs { maxMs := values[i]; }
    }
    assert values[..|values|] == values;
    result := if maxMs > 0 then maxMs else fallback;
  }

  function HardOnly(): Observation -> bool { (o: Observation) => IsHard(o) }

  function ExpiryOf(): Observation -> Stamp { (o: Observation) => o.expiresAt }

  function ObservedOf(): Observation -> int { (o: Observation) => o.observedAt }

  function TotalScore(observations: seq<Observation>): real {
    if observations == [] then 0.0
    else
      var last := observations[|observations| - 1].score;
      TotalScore(observations[..|observations| - 1]) + (if last > 0.0 then last else 0.0)
  }

  function Freshness(observations: seq<Observation>, now: int): int {
    MinPositive(Map(ParseTime, Map(ExpiryOf(), Filter(HardOnly(), observations)))).GetOr(now)
  }

  function Derive(observations: seq<Observation>, now: int): Entry {
    var verdict := ResolveStatus(observations, now);
    Entry(verdict.status, verdict.status == Openable, TotalScore(observations), verdict.blockReason,
          Freshness(observations, now), MaxPositive(Map(ObservedOf(), observations)).GetOr(now))
  }

  method DeriveCandidatePoolEntry(observations: seq<Observation>, now: int) returns (entry: Entry)
    ensures entry == Derive(observations, now)
  {
    var verdict := ResolveStatus(observations, now);
    var hard := Filter(HardOnly(), observations);
    var score := 0.0;
    for i := 0 to |observations|
      invariant score == TotalScore(observations[..i])
    {
      assert observations[..i + 1][..i] == observations[..i];
      score := score + (if observations[i].score > 0.0 then observations[i].score else 0.0);
    }
    assert observations[..|observations|] == observations;
    var freshness := now;
    if |hard| > 0 {
      freshness := MinIso(Map(ExpiryOf(), hard), now);
    }
    var updatedAt := MaxIso(Map(ObservedOf(), observations), now);
    entry := Entry(verdict.status, verdict.status == Openable, score, verdict.blockReason, freshness, updatedAt);
  }

  // ---------------------------------------------------------------- tables

  datatype PoolKey = PoolKey(strategyId: string, poolAddress: string, tokenMint: string)

  type SourceTable = map<SourceName, Observation>

  datatype Tables = Tables(observations: map<PoolKey, SourceTable>, pool: map<PoolKey, Entry>)

  const ALL_SOURCES := [Meteora, JupiterRoute, Gmgn, ChainFastSafety, PoolFeeYield]

  function SourcesOf(tables: Tables, key: PoolKey): SourceTable {
    if key in tables.observations then tables.observations[key] else map[]
  }

  /** The rows of a source table, in one fixed order. */
  function RowsIn(table: SourceTable, sources: seq<SourceName>): seq<Observation> {
    if sources == [] then []
    else
      var last := sources[|sources| - 1];
      RowsIn(table, sources[..|sources| - 1]) + (if last in table then [table[last]] else [])
  }

  /** The stored rows the batch does not replace, then the batch. */
  function Merged(table: SourceTable, batch: seq<Observation>): seq<Observation> {
    Filter((o: Observation) => LastOf(batch, o.source).None?, RowsIn(table, ALL_SOURCES)) + batch
  }

  /** The rows of the batch written one by one, each replacing the row of its source. */
  function Written(table: SourceTable, batch: seq<Observation>): SourceTable {
    if batch == [] then table
    else Written(table, batch[..|batch| - 1])[batch[|batch| - 1].source := batch[|batch| - 1]]
  }

  function Upserted(tables: Tables, key: PoolKey, batch: seq<Observation>, observedAt: int): Tables {
    Tables(tables.observations[key := Written(SourcesOf(tables, key), batch)],
           tables.pool[key := Derive(Merged(SourcesOf(tables, key), batch), observedAt)])
  }

  /** The text the source joins from pool and mint. */
  function Joined(poolAddress: string, tokenMint: string): string { poolAddress + ":" + tokenMint }

  function SeenTexts(seen: seq<(string, string)>): set<string> {
    set pair | pair in seen :: Joined(pair.0, pair.1)
  }

  predicate IsMissing(key: PoolKey, entry: Entry, strategyId: string, keep: set<string>) {
    key.strategyId == strategyId && !entry.status.Stale? && Joined(key.poolAddress, key.tokenMint) !in keep
  }

  function MarkedStale(entry: Entry, observedAt: int): Entry {
    entry.(status := Stale, openable := false, blockReason := "not-seen-this-cycle", updatedAt := observedAt)
  }

  function Marked(tables: Tables, strategyId: string, observedAt: int, keep: set<string>): Tables {
    tables.(pool := map key | key in tables.pool ::
      if IsMissing(key, tables.pool[key], strategyId, keep) then MarkedStale(tables.pool[key], observedAt)
        else tables.pool[key])
  }

  function KeptSources(table: SourceTable, cutoff: int): SourceTable {
    map source | source in table && table[source].observedAt >= cutoff :: table[source]
  }

  /** The retention deletes: old rows, old observations, and the observations of rows that are gone. */
  function Retained(tables: Tables, cutoff: int): Tables {
    var pool := map key | key in tables.pool && tables.pool[key].updatedAt >= cutoff :: tables.pool[key];
    Tables(map key | key in tables.observations && key in pool :: KeptSources(tables.observations[key], cutoff), pool)
  }

  class CandidatePool {
    var tables: Tables

    constructor ()
      ensures tables == Tables(map[], map[])
    {
      tables := Tables(map[], map[]);
    }

    method UpsertCandidate(key: PoolKey, sourceObservations: seq<Observation>, observedAt: int) returns (entry: Entry)
      modifies this
      ensures tables == Upserted(old(tables), key, sourceObservations, observedAt)
      ensures key in tables.pool && entry == tables.pool[key]
    {
      hide Merged, Derive;
      var table := SourcesOf(tables, key);
      entry := DeriveCandidatePoolEntry(Merged(table, sourceObservations), observedAt);
      for i := 0 to |sourceObservations|
        invariant table == Written(SourcesOf(tables, key), sourceObservations[..i])
        invariant tables == old(tables)
      {
        assert sourceObservations[..i + 1][..i] == sourceObservations[..i];
        table := table[sourceObservations[i].source := sourceObservations[i]];
      }
      assert sourceObservations[..|sourceObservations|] == sourceObservations;
      tables := Tables(tables.observations[key := table], tables.pool[key := entry]);
    }

    method MarkMissingOpenableStale(strategyId: string, observedAt: int, seenKeys: seq<(string, string)>)
      modifies this
      ensures tables == Marked(old(tables), strategyId, observedAt, SeenTexts(seenKeys))
    {
      var keep := SeenTexts(seenKeys);
      var start := tables.pool;
      var stale := set key | key in start && IsMissing(key, start[key], strategyId, keep);
      var pool := start;
      var left := stale;
      while left != {}
        invariant left <= stale
        invariant pool == map key | key in start :: if key in stale - left then MarkedStale(start[key], observedAt)
                  else start[key]
        decreases |left|
      {
        var key :| key in left;
        pool := pool[key := MarkedStale(pool[key], observedAt)];
        left := left - {key};
      }
      assert pool == Marked(tables, strategyId, observedAt, keep).pool;
      tables := tables.(pool := pool);
    }
  }

  // ---------------------------------------------------------------- the stored row against recomputation

  predicate IsOpenableAt(table: SourceTable, now: int) {
    ResolveStatus(RowsIn(table, ALL_SOURCES), now).status == Openable
  }

  /** What the reader's query asks of a row. */
  predicate IsListed(entry: Entry, now: int) { entry.openable && entry.freshnessExpiresAt > now }

  function Lookup(table: SourceTable, source: SourceName): Option<Observation> {
    if source in table then Some(table[source]) else None
  }

  /** Each row of the table stands under its own source. */
  ghost predicate WellKeyed(table: SourceTable) {
    forall source :: source in table ==> table[source].source == source
  }

  lemma LastOfConcat(a: seq<Observation>, b: seq<Observation>, source: SourceName)
    ensures LastOf(a + b, source) == LastOf(b, source).OrElse(LastOf(a, source))
  {
    if b == [] {
      assert a + b == a;
    } else {
      LastOfConcat(a, b[..|b| - 1], source);
      assert (a + b)[..|a + b| - 1] == a + b[..|b| - 1];
    }
  }

  lemma {:induction false} LastOfRows(table: SourceTable, sources: seq<SourceName>, source: SourceName)
    requires WellKeyed(table)
    ensures LastOf(RowsIn(table, sources), source) == if source in sources then Lookup(table, source) else None
  {
    if sources != [] {
      var init, last := sources[..|sources| - 1], sources[|sources| - 1];
      LastOfRows(table, init, source);
      LastOfConcat(RowsIn(table, init), if last in table then [table[last]] else [], source);
      LastOfNone(source);
      if last in table { LastOfOne(table[last], source); }
      assert sources == init + [last];
    }
  }

  lemma LastOfOne(observation: Observation, source: SourceName)
    ensures LastOf([observation], source) == if observation.source == source then Some(observation) else None
  {
    assert [observation][..0] == [];
  }

  lemma LastOfNone(source: SourceName)
    ensures LastOf([], source) == None
  {}

  lemma StoredStatus(table: SourceTable, now: int)
    requires WellKeyed(table)
    ensures ResolveStatus(RowsIn(table, ALL_SOURCES), now)
         == ResolveBy(Lookup(table, Meteora), Lookup(table, PoolFeeYield), Lookup(table, JupiterRoute),
                      Lookup(table, Gmgn), now)
  {
    hide ResolveBy, RowsIn, LastOf;
    LastOfRows(table, ALL_SOURCES, Meteora);
    LastOfRows(table, ALL_SOURCES, PoolFeeYield);
    LastOfRows(table, ALL_SOURCES, JupiterRoute);
    LastOfRows(table, ALL_SOURCES, Gmgn);
    AllSourcesListed();
  }

  /** The three required sources passed and have not expired. */
  predicate AllGood(table: SourceTable, now: int) {
    IsGood(Lookup(table, Meteora), now) && IsGood(Lookup(table, JupiterRoute), now) && IsGood(Lookup(table, Gmgn), now)
  }

  /** OpenableMeansAllPassed, for a stored table. */
  lemma StoredOpenable(table: SourceTable, now: int)
    requires WellKeyed(table)
    ensures IsOpenableAt(table, now)
       <==> AllGood(table, now) && !IsFeeBlock(Lookup(table, PoolFeeYield), now)
  {
    hide ResolveBy, RowsIn, LastOf, ResolveStatus;
    StoredStatus(table, now);
    OpenableMeansAllPassed(Lookup(table, Meteora), Lookup(table, PoolFeeYield), Lookup(table, JupiterRoute),
                           Lookup(table, Gmgn), now);
  }

  lemma AllSourcesListed()
    ensures forall source :: source in ALL_SOURCES
  {
    forall source ensures source in ALL_SOURCES {
      match source
      case Meteora => assert ALL_SOURCES[0] == source;
      case JupiterRoute => assert ALL_SOURCES[1] == source;
      case Gmgn => assert ALL_SOURCES[2] == source;
      case ChainFastSafety => assert ALL_SOURCES[3] == source;
      case PoolFeeYield => assert ALL_SOURCES[4] == source;
    }
  }

  lemma {:induction false} WrittenHolds(table: SourceTable, batch: seq<Observation>, source: SourceName)
    requires WellKeyed(table)
    ensures WellKeyed(Written(table, batch))
    ensures Lookup(Written(table, batch), source) == LastOf(batch, source).OrElse(Lookup(table, source))
  {
    if batch != [] {
      var init := batch[..|batch| - 1];
      WrittenHolds(table, init, source);
      assert Written(table, batch) == Written(table, init)[batch[|batch| - 1].source := batch[|batch| - 1]];
    }
  }

  lemma {:induction false} LastOfFiltered(p: Observation -> bool, rows: seq<Observation>, source: SourceName,
                                          keep: bool)
    requires forall o: Observation :: o.source == source ==> p(o) == keep
    ensures LastOf(Filter(p, rows), source) == if keep then LastOf(rows, source) else None
  {
    hide Filter;
    FilterNone(p);
    LastOfNone(source);
    if rows != [] {
      var init, last := rows[..|rows| - 1], rows[|rows| - 1];
      assert init + [last] == rows;
      LastOfFiltered(p, init, source, keep);
      FilterSnoc(p, init, last);
      LastOfConcat(init, [last], source);
      LastOfConcat(Filter(p, init), [last], source);
      LastOfOne(last, source);
    }
  }

  /** What the upsert derives the entry from is what the table holds afterwards. */
  lemma MergedIsStored(table: SourceTable, batch: seq<Observation>, source: SourceName)
    requires WellKeyed(table)
    ensures LastOf(Merged(table, batch), source) == Lookup(Written(table, batch), source)
  {
    hide LastOf, RowsIn, Written;
    var rows := RowsIn(table, ALL_SOURCES);
    var p := (o: Observation) => LastOf(batch, o.source).None?;
    LastOfFiltered(p, rows, source, LastOf(batch, source).None?);
    LastOfConcat(Filter(p, rows), batch, source);
    LastOfRows(table, ALL_SOURCES, source);
    AllSourcesListed();
    WrittenHolds(table, batch, source);
  }

  lemma StatusAfterUpsert(table: SourceTable, batch: seq<Observation>, now: int)
    requires WellKeyed(table)
    ensures ResolveStatus(Merged(table, batch), now) == ResolveStatus(RowsIn(Written(table, batch), ALL_SOURCES), now)
  {
    hide ResolveBy, LastOf, Merged, Written, RowsIn, Lookup, WellKeyed;
    MergedIsStored(table, batch, Meteora);
    MergedIsStored(table, batch, PoolFeeYield);
    MergedIsStored(table, batch, JupiterRoute);
    MergedIsStored(table, batch, Gmgn);
    WrittenHolds(table, batch, Meteora);
    StoredStatus(Written(table, batch), now);
  }

  /** The required observations a status is decided by. */
  ghost predicate Decides(table: SourceTable, observation: Observation) {
    (observation.source.Meteora? || observation.source.JupiterRoute? || observation.source.Gmgn?)
    && Lookup(table, observation.source) == Some(observation)
  }

  lemma FreshnessBounds(observations: seq<Observation>, now: int)
    ensures forall o :: o in observations && IsHard(o) && ParseTime(o.expiresAt) > 0 ==>
              Freshness(observations, now) <= ParseTime(o.expiresAt)
    ensures (exists o :: o in observations && IsHard(o) && ParseTime(o.expiresAt) > 0) ==>
              exists o :: o in observations && IsHard(o) && ParseTime(o.expiresAt) == Freshness(observations, now) > 0
  {
    var hard := Filter(HardOnly(), observations);
    var times := Map(ParseTime, Map(ExpiryOf(), hard));
    assert |times| == |hard| && forall i :: 0 <= i < |hard| ==> times[i] == ParseTime(hard[i].expiresAt);
    forall o | o in observations && IsHard(o) && ParseTime(o.expiresAt) > 0
      ensures Freshness(observations, now) <= ParseTime(o.expiresAt) && MinPositive(times).Some?
    {
      assert o in hard;
      var i :| 0 <= i < |hard| && hard[i] == o;
      assert times[i] in times;
    }
    if MinPositive(times).Some? {
      var i :| 0 <= i < |times| && times[i] == MinPositive(times).value;
      assert hard[i] in hard;
    }
  }

  /** No batch row that a later row of its source replaces expires before every required observation that stays. */
  ghost predicate NoEarlyDuplicate(table: SourceTable, batch: seq<Observation>) {
    forall o :: o in batch && IsHard(o) && ParseTime(o.expiresAt) > 0 ==>
      exists kept :: Decides(Written(table, batch), kept) && ParseTime(kept.expiresAt) <= ParseTime(o.expiresAt)
  }

  lemma MergedComesFrom(table: SourceTable, batch: seq<Observation>, o: Observation)
    requires WellKeyed(table)
    ensures o in Merged(table, batch) ==> o in batch || Lookup(Written(table, batch), o.source) == Some(o)
    ensures Lookup(Written(table, batch), o.source) == Some(o) ==> o in Merged(table, batch)
  {
    hide LastOf, Written;
    RowsInTable(table, ALL_SOURCES, o);
    WrittenHolds(table, batch, o.source);
    MergedIsStored(table, batch, o.source);
  }

  lemma {:induction false} RowsInTable(table: SourceTable, sources: seq<SourceName>, o: Observation)
    requires WellKeyed(table)
    ensures o in RowsIn(table, sources) ==> Lookup(table, o.source) == Some(o)
  {
    if sources != [] { RowsInTable(table, sources[..|sources| - 1], o); }
  }

  /** A row stored openable and still fresh is openable when recomputed, at any later time and for any batch. */
  lemma ListedIsOpenable(table: SourceTable, batch: seq<Observation>, t0: nat, t: int)
    requires WellKeyed(table) && t0 <= t
    ensures IsListed(Derive(Merged(table, batch), t0), t) ==> IsOpenableAt(Written(table, batch), t)
  {
    hide LastOf, Merged, Written, RowsIn, Freshness, ResolveStatus;
    var merged, after := Merged(table, batch), Written(table, batch);
    StatusAfterUpsert(table, batch, t0);
    WrittenHolds(table, batch, Meteora);
    StoredOpenable(after, t0);
    StoredOpenable(after, t);
    FreshnessBounds(merged, t0);
    forall source | source in after ensures after[source] in merged {
      MergedComesFrom(table, batch, after[source]);
    }
  }

  /** An observation of the table that a batch with one row a source wrote stays decisive. */
  lemma DistinctBatchHasNoEarlyDuplicate(table: SourceTable, batch: seq<Observation>)
    requires WellKeyed(table)
    requires forall i, j :: 0 <= i < j < |batch| ==> batch[i].source != batch[j].source
    ensures NoEarlyDuplicate(table, batch)
  {
    hide Written;
    forall o | o in batch && IsHard(o) && ParseTime(o.expiresAt) > 0
      ensures exists kept :: Decides(Written(table, batch), kept) && ParseTime(kept.expiresAt) <= ParseTime(o.expiresAt)
    {
      WrittenHolds(table, batch, o.source);
      var last := LastOf(batch, o.source).value;
      assert last == o;
      assert Decides(Written(table, batch), o);
    }
  }

  /**
   * For a row stored openable, listing it agrees with recomputing its status at every later time exactly when the batch
   * has no early duplicate; a batch with one row a source never has one.
   */
  lemma ListingIsExact(table: SourceTable, batch: seq<Observation>, t0: nat)
    requires WellKeyed(table) && Derive(Merged(table, batch), t0).openable
    ensures (forall t :: t >= t0 ==>
             (IsListed(Derive(Merged(table, batch), t0), t) <==> IsOpenableAt(Written(table, batch), t)))
       <==> NoEarlyDuplicate(table, batch)
  {
    hide LastOf, Merged, Written, RowsIn, Freshness, ResolveStatus;
    var merged, after := Merged(table, batch), Written(table, batch);
    var entry := Derive(merged, t0);
    FreshnessBounds(merged, t0);
    if NoEarlyDuplicate(table, batch) {
      forall t | t >= t0 ensures IsListed(entry, t) <==> IsOpenableAt(after, t) {
        ListedIsOpenable(table, batch, t0, t);
        if IsOpenableAt(after, t) { OpenableIsListed(table, batch, t0, t); }
      }
    } else {
      var o :| o in batch && IsHard(o) && ParseTime(o.expiresAt) > 0
               && forall kept :: Decides(after, kept) ==> ParseTime(kept.expiresAt) > ParseTime(o.expiresAt);
      var t := if ParseTime(o.expiresAt) > t0 then ParseTime(o.expiresAt) else t0;
      EarlyDuplicateHides(table, batch, t0, o, t);
      assert !(IsListed(entry, t) <==> IsOpenableAt(after, t));
    }
  }

  lemma OpenableIsListed(table: SourceTable, batch: seq<Observation>, t0: nat, t: int)
    requires WellKeyed(table) && t0 <= t && NoEarlyDuplicate(table, batch)
    requires Derive(Merged(table, batch), t0).openable && IsOpenableAt(Written(table, batch), t)
    ensures IsListed(Derive(Merged(table, batch), t0), t)
  {
    hide LastOf, Merged, Written, RowsIn, Freshness, ResolveStatus;
    var merged, after := Merged(table, batch), Written(table, batch);
    WrittenHolds(table, batch, Meteora);
    StoredOpenable(after, t);
    FreshnessBounds(merged, t0);
    MergedComesFrom(table, batch, after[Meteora]);
    assert IsHard(after[Meteora]) && ParseTime(after[Meteora].expiresAt) > 0;
    var o :| o in merged && IsHard(o) && ParseTime(o.expiresAt) == Freshness(merged, t0) > 0;
    MergedComesFrom(table, batch, o);
    if Lookup(after, o.source) == Some(o) { assert Decides(after, o); }
    assert exists kept :: Decides(after, kept) && ParseTime(kept.expiresAt) <= ParseTime(o.expiresAt);
  }

  lemma EarlyDuplicateHides(table: SourceTable, batch: seq<Observation>, t0: nat, o: Observation, t: int)
    requires WellKeyed(table) && Derive(Merged(table, batch), t0).openable
    requires o in batch && IsHard(o) && ParseTime(o.expiresAt) > 0
    requires forall kept :: Decides(Written(table, batch), kept) ==> ParseTime(kept.expiresAt) > ParseTime(o.expiresAt)
    requires t == if ParseTime(o.expiresAt) > t0 then ParseTime(o.expiresAt) else t0
    ensures !IsListed(Derive(Merged(table, batch), t0), t) && IsOpenableAt(Written(table, batch), t)
  {
    hide LastOf, Written, RowsIn, Freshness, ResolveStatus;
    var merged, after := Merged(table, batch), Written(table, batch);
    assert o in merged;
    FreshnessBounds(merged, t0);
    StatusAfterUpsert(table, batch, t0);
    WrittenHolds(table, batch, Meteora);
    StoredOpenable(after, t0);
    StoredOpenable(after, t);
    assert Decides(after, after[Meteora]) && Decides(after, after[JupiterRoute]) && Decides(after, after[Gmgn]);
  }

  /** The required sources are good at t, and a fee-yield block in force at t0 is not in force at t. */
  predicate OnlyFeeBlockLapsed(table: SourceTable, t0: int, t: int) {
    AllGood(table, t) && IsFeeBlock(Lookup(table, PoolFeeYield), t0) && !IsFeeBlock(Lookup(table, PoolFeeYield), t)
  }

  /**
   * A row stored as not openable is never listed; recomputing it finds it openable at a later time exactly when all
   * that stood against it was a fee-yield block that has run out since.
   */
  lemma UnlistedOnlyByALapsedBlock(table: SourceTable, batch: seq<Observation>, t0: nat, t: int)
    requires WellKeyed(table) && t0 <= t && !Derive(Merged(table, batch), t0).openable
    ensures !IsListed(Derive(Merged(table, batch), t0), t)
    ensures IsOpenableAt(Written(table, batch), t) <==> OnlyFeeBlockLapsed(Written(table, batch), t0, t)
  {
    hide LastOf, Merged, Written, RowsIn, Freshness, ResolveStatus;
    var after := Written(table, batch);
    StatusAfterUpsert(table, batch, t0);
    WrittenHolds(table, batch, Meteora);
    StoredOpenable(after, t0);
    StoredOpenable(after, t);
  }

  const OK_ROW := Observation(Meteora, Passed, 1, At(10), 0.0, "")

  /**
   * A batch that names one source twice: the overwritten row's earlier expiry hides a row that is openable at time 5.
   */
  lemma DuplicateSourceHidesARow()
    ensures var batch := [OK_ROW, OK_ROW.(source := JupiterRoute), OK_ROW.(source := Gmgn, expiresAt := At(3)),
                          OK_ROW.(source := Gmgn)];
            var entry := Derive(Merged(map[], batch), 1);
            entry.openable && !IsListed(entry, 5) && IsOpenableAt(Written(map[], batch), 5)
  {
    var m, r, g0, g := OK_ROW, OK_ROW.(source := JupiterRoute), OK_ROW.(source := Gmgn, expiresAt := At(3)),
      OK_ROW.(source := Gmgn);
    var batch := [m, r, g0, g];
    hide LastOf, Merged, Written, RowsIn, Freshness, ResolveStatus;
    WrittenFour(m, r, g0, g);
    var after := Written(map[], batch);
    StoredOpenable(after, 1);
    StoredOpenable(after, 5);
    StatusAfterUpsert(map[], batch, 1);
    assert batch[2] in Merged(map[], batch) by { BatchIsMerged(map[], batch, 2); }
    FreshnessBounds(Merged(map[], batch), 1);
  }

  lemma BatchIsMerged(table: SourceTable, batch: seq<Observation>, i: nat)
    requires i < |batch|
    ensures batch[i] in Merged(table, batch)
  {
    assert batch[i] in batch;
  }

  lemma WrittenFour(a: Observation, b: Observation, c: Observation, d: Observation)
    ensures Written(map[], [a, b, c, d]) == map[][a.source := a][b.source := b][c.source := c][d.source := d]
    ensures WellKeyed(Written(map[], [a, b, c, d]))
  {
    assert [a, b, c, d][..3] == [a, b, c] && [a, b, c][..2] == [a, b] && [a, b][..1] == [a] && [a][..0] == [];
    assert Written(map[], [a]) == map[][a.source := a];
    assert Written(map[], [a, b]) == map[][a.source := a][b.source := b];
    assert Written(map[], [a, b, c]) == map[][a.source := a][b.source := b][c.source := c];
  }

  // ---------------------------------------------------------------- marking missing rows

  /** A pool address has no separator in it. */
  predicate NoColon(text: string) { forall i :: 0 <= i < |text| ==> text[i] != ':' }

  function FirstColon(text: string): nat {
    if text == [] || text[0] == ':' then 0 else 1 + FirstColon(text[1..])
  }

  lemma {:induction false} FirstColonOfJoined(a: string, b: string)
    requires NoColon(a)
    ensures FirstColon(Joined(a, b)) == |a|
  {
    if a != [] {
      FirstColonOfJoined(a[1..], b);
      assert Joined(a, b)[1..] == Joined(a[1..], b);
    }
  }

  lemma JoinedIsInjective(a: string, b: string, c: string, d: string)
    requires NoColon(a) && NoColon(c) && Joined(a, b) == Joined(c, d)
    ensures a == c && b == d
  {
    FirstColonOfJoined(a, b);
    FirstColonOfJoined(c, d);
    assert Joined(a, b)[..|a|] == a && Joined(c, d)[..|c|] == c;
    assert Joined(a, b)[|a| + 1..] == b && Joined(c, d)[|c| + 1..] == d;
  }

  /**
   * After marking, a row of the strategy that is not stale was seen, given pool addresses without a colon; a row that
   * was seen, or is another strategy's, or was stale already, is as it was; and no row comes or goes.
   */
  lemma MarkLeavesOnlySeen(tables: Tables, strategyId: string, observedAt: int, seen: seq<(string, string)>,
                           key: PoolKey)
    requires key in tables.pool
    requires NoColon(key.poolAddress) && forall pair :: pair in seen ==> NoColon(pair.0)
    ensures var after := Marked(tables, strategyId, observedAt, SeenTexts(seen));
            && after.pool.Keys == tables.pool.Keys
            && after.observations == tables.observations
            && (key.strategyId == strategyId && !after.pool[key].status.Stale? ==>
                (key.poolAddress, key.tokenMint) in seen)
            && (after.pool[key] == tables.pool[key] <==>
                  key.strategyId != strategyId || tables.pool[key].status.Stale?
                    || (key.poolAddress, key.tokenMint) in seen)
  {
    var pool, mint := key.poolAddress, key.tokenMint;
    if (pool, mint) in seen {
      assert Joined(pool, mint) in SeenTexts(seen);
    } else if Joined(pool, mint) in SeenTexts(seen) {
      var pair :| pair in seen && Joined(pair.0, pair.1) == Joined(pool, mint);
      JoinedIsInjective(pair.0, pair.1, pool, mint);
    }
  }

  // ---------------------------------------------------------------- runs

  datatype Op =
    | Upsert(key: PoolKey, batch: seq<Observation>, at: nat)
    | Mark(strategyId: string, seen: seq<(string, string)>, at: nat)
    | Retain(retentionMs: int, at: nat)

  function Apply(tables: Tables, op: Op): Tables {
    match op
    case Upsert(key, batch, at) => Upserted(tables, key, batch, at)
    case Mark(strategyId, seen, at) => Marked(tables, strategyId, at, SeenTexts(seen))
    case Retain(retentionMs, at) => Retained(tables, at - retentionMs)
  }

  /** Required observations that passed live at most `ttl`, and retention keeps rows that long but for a millisecond. */
  ghost predicate Admissible(op: Op, ttl: int) {
    match op
    case Upsert(_, batch, _) => forall o :: o in batch ==> LivesAtMost(o, ttl)
    case Mark(_, _, _) => true
    case Retain(retentionMs, _) => retentionMs + 1 >= ttl
  }

  predicate LivesAtMost(o: Observation, ttl: int) {
    IsHard(o) && o.status.Passed? ==> ParseTime(o.expiresAt) <= o.observedAt + ttl
  }

  function Run(tables: Tables, ops: seq<Op>): Tables {
    if ops == [] then tables else Apply(Run(tables, ops[..|ops| - 1]), ops[|ops| - 1])
  }

  ghost predicate SoundSources(table: SourceTable, ttl: int) {
    WellKeyed(table) && forall source :: source in table ==> LivesAtMost(table[source], ttl)
  }

  ghost predicate SoundRow(entry: Entry, table: SourceTable, clock: int) {
    forall t :: t >= clock && IsListed(entry, t) ==> IsOpenableAt(table, t)
  }

  /** From `clock` on, every row the reader would list is openable when recomputed from the stored observations. */
  ghost predicate Sound(tables: Tables, clock: int, ttl: int) {
    && (forall key :: key in tables.observations ==> SoundSources(tables.observations[key], ttl))
    && (forall key :: key in tables.pool ==> SoundRow(tables.pool[key], SourcesOf(tables, key), clock))
  }

  lemma SourcesAreSound(tables: Tables, clock: int, ttl: int, key: PoolKey)
    requires Sound(tables, clock, ttl)
    ensures SoundSources(SourcesOf(tables, key), ttl)
  {}

  lemma {:induction false} WrittenIsSound(table: SourceTable, batch: seq<Observation>, ttl: int)
    requires SoundSources(table, ttl) && forall o :: o in batch ==> LivesAtMost(o, ttl)
    ensures SoundSources(Written(table, batch), ttl)
  {
    if batch != [] {
      WrittenIsSound(table, batch[..|batch| - 1], ttl);
      assert batch[|batch| - 1] in batch;
    }
  }

  lemma UpsertKeepsSound(tables: Tables, clock: int, ttl: int, key: PoolKey, batch: seq<Observation>, at: nat)
    requires Sound(tables, clock, ttl) && clock <= at && forall o :: o in batch ==> LivesAtMost(o, ttl)
    ensures Sound(Upserted(tables, key, batch, at), at, ttl)
  {
    hide Derive, Merged, Written, IsOpenableAt, IsListed, LivesAtMost, WellKeyed;
    SourcesAreSound(tables, clock, ttl, key);
    WrittenIsSound(SourcesOf(tables, key), batch, ttl);
    var after := Upserted(tables, key, batch, at);
    forall k | k in after.pool ensures SoundRow(after.pool[k], SourcesOf(after, k), at) {
      if k == key {
        forall t | t >= at && IsListed(after.pool[k], t) ensures IsOpenableAt(SourcesOf(after, k), t) {
          ListedIsOpenable(SourcesOf(tables, key), batch, at, t);
        }
      } else {
        assert SoundRow(tables.pool[k], SourcesOf(tables, k), clock);
        assert SourcesOf(after, k) == SourcesOf(tables, k);
      }
    }
  }

  lemma MarkKeepsSound(tables: Tables, clock: int, ttl: int, strategyId: string, at: nat, keep: set<string>)
    requires Sound(tables, clock, ttl) && clock <= at
    ensures Sound(Marked(tables, strategyId, at, keep), at, ttl)
  {
    hide IsOpenableAt, SoundSources;
    var after := Marked(tables, strategyId, at, keep);
    forall k | k in after.pool ensures SoundRow(after.pool[k], SourcesOf(after, k), at) {
      assert SoundRow(tables.pool[k], SourcesOf(tables, k), clock);
      assert SourcesOf(after, k) == SourcesOf(tables, k);
    }
  }

  /** Retention only drops observations that have run out, so an openable table stays openable. */
  lemma RetentionKeepsOpenable(table: SourceTable, ttl: int, cutoff: int, t: int)
    requires SoundSources(table, ttl) && cutoff + ttl <= t + 1 && IsOpenableAt(table, t)
    ensures IsOpenableAt(KeptSources(table, cutoff), t)
  {
    hide ResolveStatus, RowsIn;
    var after := KeptSources(table, cutoff);
    StoredOpenable(table, t);
    StoredOpenable(after, t);
  }

  lemma RetainKeepsSound(tables: Tables, clock: int, ttl: int, retentionMs: int, at: nat)
    requires Sound(tables, clock, ttl) && clock <= at && retentionMs + 1 >= ttl
    ensures Sound(Retained(tables, at - retentionMs), at, ttl)
  {
    hide IsOpenableAt, IsListed, LivesAtMost;
    var cutoff := at - retentionMs;
    var after := Retained(tables, cutoff);
    forall k | k in after.pool ensures SoundRow(after.pool[k], SourcesOf(after, k), at) {
      assert SoundRow(tables.pool[k], SourcesOf(tables, k), clock);
      forall t | t >= at && IsListed(after.pool[k], t) ensures IsOpenableAt(SourcesOf(after, k), t) {
        assert IsOpenableAt(SourcesOf(tables, k), t);
        SourcesAreSound(tables, clock, ttl, k);
        RetentionKeepsOpenable(SourcesOf(tables, k), ttl, cutoff, t);
        if k !in tables.observations { assert KeptSources(map[], cutoff) == map[]; }
      }
    }
  }

  ghost predicate TimesFrom(ops: seq<Op>, clock: int) {
    && (forall i :: 0 <= i < |ops| ==> clock <= ops[i].at)
    && forall i, j :: 0 <= i < j < |ops| ==> ops[i].at <= ops[j].at
  }

  /**
   * Over any run of upserts, markings and retention deletes with a clock that does not go back, a listed row is
   * openable when its status is recomputed from what is stored.
   */
  lemma {:induction false} ListedRowsStayOpenable(tables: Tables, ops: seq<Op>, clock: int, ttl: int)
    requires Sound(tables, clock, ttl) && TimesFrom(ops, clock) && forall op :: op in ops ==> Admissible(op, ttl)
    ensures Sound(Run(tables, ops), if ops == [] then clock else ops[|ops| - 1].at, ttl)
  {
    hide Sound, Upserted, Marked, Retained;
    if ops != [] {
      var init, last := ops[..|ops| - 1], ops[|ops| - 1];
      assert last in ops;
      ListedRowsStayOpenable(tables, init, clock, ttl);
      var before, now := Run(tables, init), if init == [] then clock else init[|init| - 1].at;
      match last
      case Upsert(key, batch, at) => UpsertKeepsSound(before, now, ttl, key, batch, at);
      case Mark(strategyId, seen, at) => MarkKeepsSound(before, now, ttl, strategyId, at, SeenTexts(seen));
      case Retain(retentionMs, at) => RetainKeepsSound(before, now, ttl, retentionMs, at);
    }
  }

  /**
   * A row outlives a required source: the retention cutoff takes the source and leaves the row, which is listed still.
   */
  lemma ShortRetentionListsAnUnopenableRow(tables: Tables, key: PoolKey, source: SourceName, cutoff: int, t: int)
    requires key in tables.pool && key in tables.observations && WellKeyed(tables.observations[key])
    requires IsListed(tables.pool[key], t) && tables.pool[key].updatedAt >= cutoff
    requires source in tables.observations[key] && IsHard(tables.observations[key][source])
    requires tables.observations[key][source].observedAt < cutoff
    ensures var after := Retained(tables, cutoff);
            key in after.pool && IsListed(after.pool[key], t) && !IsOpenableAt(SourcesOf(after, key), t)
  {
    hide ResolveStatus, RowsIn;
    StoredOpenable(SourcesOf(Retained(tables, cutoff), key), t);
  }

  // ---------------------------------------------------------------- how long retention must be

  const EMPTY_TABLES := Tables(map[], map[])

  lemma EmptyIsSound(ttl: int)
    ensures Sound(EMPTY_TABLES, 0, ttl)
  {}

  /** Sources that live at most `ttl`, and every retention delete with the same retention. */
  ghost predicate RunsUnder(ops: seq<Op>, ttl: int, retentionMs: int) {
    && TimesFrom(ops, 0)
    && forall i :: 0 <= i < |ops| ==>
         && (ops[i].Upsert? ==> forall o :: o in ops[i].batch ==> LivesAtMost(o, ttl))
         && (ops[i].Retain? ==> ops[i].retentionMs == retentionMs)
  }

  /** Every row that is listed at `clock` or later is openable then. */
  ghost predicate ListsOnlyOpenable(tables: Tables, clock: int) {
    forall key :: key in tables.pool ==> SoundRow(tables.pool[key], SourcesOf(tables, key), clock)
  }

  function LastTime(ops: seq<Op>): int { if ops == [] then 0 else ops[|ops| - 1].at }

  ghost predicate AlwaysListsOnlyOpenable(ttl: int, retentionMs: int) {
    forall ops :: RunsUnder(ops, ttl, retentionMs) ==> ListsOnlyOpenable(Run(EMPTY_TABLES, ops), LastTime(ops))
  }

  function PassedRow(source: SourceName, observedAt: int, ttl: int): Observation {
    Observation(source, Passed, observedAt, At(observedAt + ttl), 0.0, "")
  }

  lemma RunSnoc(tables: Tables, ops: seq<Op>, last: Op)
    ensures Run(tables, ops + [last]) == Apply(Run(tables, ops), last)
  {
    hide Apply;
    assert (ops + [last])[..|ops|] == ops;
  }

  lemma RunNothing(tables: Tables)
    ensures Run(tables, []) == tables
  {}

  lemma UpdatedAtCovers(observations: seq<Observation>, now: int, o: Observation)
    requires o in observations && o.observedAt > 0
    ensures Derive(observations, now).updatedAt >= o.observedAt
  {
    hide ResolveStatus, Freshness, TotalScore;
    var times := Map(ObservedOf(), observations);
    var i :| 0 <= i < |observations| && observations[i] == o;
    assert times[i] == o.observedAt && times[i] in times;
  }

  /**
   * One source refreshed later than the other two: listed with the older one's expiry, updated at the newer one's time.
   */
  lemma RefreshedRow(table: SourceTable, g: Observation, m: Observation, r: Observation, at: nat)
    requires table == map[Gmgn := g] && g.source == Gmgn && m.source == Meteora && r.source == JupiterRoute
    requires g.status.Passed? && m.status.Passed? && r.status.Passed? && m.observedAt > 0
    requires ParseTime(g.expiresAt) > at && ParseTime(m.expiresAt) > at && ParseTime(r.expiresAt) > at
    ensures var entry := Derive(Merged(table, [m, r]), at);
            IsListed(entry, at) && entry.updatedAt >= m.observedAt
    ensures Written(table, [m, r]) == map[Gmgn := g, Meteora := m, JupiterRoute := r]
  {
    hide LastOf, Merged, RowsIn, Freshness, ResolveStatus;
    var batch, merged := [m, r], Merged(table, [m, r]);
    assert batch[..1] == [m] && [m][..0] == [];
    assert Written(table, [m]) == table[Meteora := m];
    var after := Written(table, batch);
    assert after == table[Meteora := m][JupiterRoute := r];
    StatusAfterUpsert(table, batch, at);
    StoredOpenable(after, at);
    FreshnessBounds(merged, at);
    BatchIsMerged(table, batch, 0);
    MergedExpireLate(table, batch, after, at);
    UpdatedAtCovers(merged, at, m);
  }

  lemma MergedExpireLate(table: SourceTable, batch: seq<Observation>, after: SourceTable, at: int)
    requires WellKeyed(table) && after == Written(table, batch)
    requires forall o :: o in batch ==> ParseTime(o.expiresAt) > at
    requires forall source :: source in after ==> ParseTime(after[source].expiresAt) > at
    ensures forall o :: o in Merged(table, batch) ==> ParseTime(o.expiresAt) > at
  {
    hide Merged, Written, RowsIn;
    forall o | o in Merged(table, batch) ensures ParseTime(o.expiresAt) > at {
      MergedComesFrom(table, batch, o);
    }
  }

  function Larger(a: int, b: int): int { if a > b then a else b }

  /** A run that lists a row without one of its sources, for any retention that is too short. */
  lemma ShortRetentionFails(ttl: int, retentionMs: int) returns (ops: seq<Op>)
    requires retentionMs + 1 < ttl
    ensures RunsUnder(ops, ttl, retentionMs) && !ListsOnlyOpenable(Run(EMPTY_TABLES, ops), LastTime(ops))
  {
    hide Upserted, Run, IsOpenableAt, IsListed, Retained;
    var seenAt := Larger(Larger(0, -retentionMs - 1), 1 - ttl);
    var at := seenAt + retentionMs + 1;
    var key := PoolKey("s", "p", "t");
    var g, m := PassedRow(Gmgn, seenAt, ttl), PassedRow(Meteora, seenAt + 1, ttl);
    var r := m.(source := JupiterRoute);
    var first, second, third := Upsert(key, [g], 0), Upsert(key, [m, r], at), Retain(retentionMs, at);
    ops := [] + [first] + [second] + [third];
    RunNothing(EMPTY_TABLES);
    RunSnoc(EMPTY_TABLES, [], first);
    RunSnoc(EMPTY_TABLES, [] + [first], second);
    RunSnoc(EMPTY_TABLES, [] + [first] + [second], third);
    TwoUpserts(key, g, m, r, at);
    var before, after := Run(EMPTY_TABLES, [] + [first] + [second]), Run(EMPTY_TABLES, ops);
    ShortRetentionListsAnUnopenableRow(before, key, Gmgn, at - retentionMs, at);
    assert key in after.pool && !SoundRow(after.pool[key], SourcesOf(after, key), at);
  }

  lemma TwoUpserts(key: PoolKey, g: Observation, m: Observation, r: Observation, at: nat)
    requires g.source == Gmgn && m.source == Meteora && r.source == JupiterRoute
    requires g.status.Passed? && m.status.Passed? && r.status.Passed? && m.observedAt > 0
    requires ParseTime(g.expiresAt) > at && ParseTime(m.expiresAt) > at && ParseTime(r.expiresAt) > at
    ensures var after := Upserted(Upserted(EMPTY_TABLES, key, [g], 0), key, [m, r], at);
            && key in after.pool && IsListed(after.pool[key], at) && after.pool[key].updatedAt >= m.observedAt
            && key in after.observations
            && after.observations[key] == map[Gmgn := g, Meteora := m, JupiterRoute := r]
  {
    hide Derive, Merged, Written, IsListed;
    WrittenOne(g);
    RefreshedRow(map[Gmgn := g], g, m, r, at);
  }

  lemma WrittenOne(o: Observation)
    ensures Written(map[], [o]) == map[o.source := o]
  {
    assert [o][..0] == [];
    assert Written(map[], []) == map[];
  }

  /**
   * Sources that live at most `ttl` keep every run from listing a row that is not openable exactly when retention is
   * within a millisecond of `ttl`.
   */
  lemma ListingNeedsRetention(ttl: int, retentionMs: int)
    ensures AlwaysListsOnlyOpenable(ttl, retentionMs) <==> retentionMs + 1 >= ttl
  {
    hide Run, ListsOnlyOpenable;
    if retentionMs + 1 >= ttl {
      forall ops | RunsUnder(ops, ttl, retentionMs) ensures ListsOnlyOpenable(Run(EMPTY_TABLES, ops), LastTime(ops))
      {
        EmptyIsSound(ttl);
        ListedRowsStayOpenable(EMPTY_TABLES, ops, 0, ttl);
        SoundListsOnlyOpenable(Run(EMPTY_TABLES, ops), LastTime(ops), ttl);
      }
    } else {
      var ops := ShortRetentionFails(ttl, retentionMs);
    }
  }

  lemma SoundListsOnlyOpenable(tables: Tables, clock: int, ttl: int)
    requires Sound(tables, clock, ttl)
    ensures ListsOnlyOpenable(tables, clock)
  {}
}
