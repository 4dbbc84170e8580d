/**
 * What the candidate pool says of a candidate (src/candidate-pool/aggregator.ts) and what each write leaves in its
 * tables (src/candidate-pool/sqlite-candidate-pool.ts), field by field.
 */
module CandidateOutcome {
  import opened CandidatePool
  import opened Sequences
  import opened Wrappers

  // ---------------------------------------------------------------- the verdict

  /** An unreadable expiry counts as 0. */
  predicate HasExpired(o: Observation, now: int) {
    if o.expiresAt.At? then o.expiresAt.ms <= now else 0 <= now
  }

  predicate IsUsable(o: Option<Observation>, now: int) {
    o.Some? && o.value.status == Passed && !HasExpired(o.value, now)
  }

  /** Why a required source that is missing or not usable stops the candidate. */
  ghost predicate IsWhy(verdict: Verdict, o: Option<Observation>, name: string, prefix: string, missing: PoolStatus,
                        now: int) {
    if o.None? then verdict == Verdict(missing, "missing-" + name)
    else if HasExpired(o.value, now) then verdict == Verdict(Stale, "stale-" + name)
    else match o.value.status {
      case StaleSource => verdict == Verdict(Stale, "stale-" + name)
      case BlockedSource =>
        verdict == Verdict(Blocked, if o.value.hardRejectReason == "" then name + "-blocked"
                                    else prefix + o.value.hardRejectReason)
      case Failed => verdict == Verdict(SourceUnavailable, name + "-failed")
      case Deferred => verdict == Verdict(SourceUnavailable, name + "-deferred")
      case Passed => false
    }
  }

  predicate BlocksByFeeYield(o: Option<Observation>, now: int) {
    o.Some? && o.value.status == BlockedSource && !HasExpired(o.value, now)
  }

  lemma SourceExactly(o: Observation, name: string, prefix: string, blockedReason: string, missing: PoolStatus,
                      now: int)
    requires blockedReason == if o.hardRejectReason == "" then name + "-blocked" else prefix + o.hardRejectReason
    ensures var verdict := SourceVerdict(o, name, blockedReason, now);
            if IsUsable(Some(o), now) then verdict == None
            else verdict.Some? && IsWhy(verdict.value, Some(o), name, prefix, missing, now)
  {}

  /** The verdict on one required source, missing or not. */
  function Stage(o: Option<Observation>, name: string, blockedReason: string, missing: Verdict, now: int): Verdict {
    if o.None? then missing else SourceVerdict(o.value, name, blockedReason, now).GetOr(Verdict(Openable, ""))
  }

  predicate Goes(o: Option<Observation>, name: string, blockedReason: string, now: int) {
    o.Some? && SourceVerdict(o.value, name, blockedReason, now).None?
  }

  lemma MeteoraExactly(o: Option<Observation>, now: int)
    ensures var reason := if o.Some? then ReasonOr(o.value.hardRejectReason, "meteora-blocked") else "";
            if IsUsable(o, now) then Goes(o, "meteora", reason, now)
            else !Goes(o, "meteora", reason, now)
                 && IsWhy(Stage(o, "meteora", reason, Verdict(Observed, "missing-meteora"), now), o, "meteora", "",
                          Observed, now)
  {
    if o.None? {
      assert "missing-" + "meteora" == "missing-meteora";
    } else {
      var reason := ReasonOr(o.value.hardRejectReason, "meteora-blocked");
      SourceExactly(o.value, "meteora", "", reason, Observed, now);
    }
  }

  lemma RouteExactly(o: Option<Observation>, now: int)
    ensures var reason := if o.Some? then ReasonOr(o.value.hardRejectReason, "jupiter_route-blocked") else "";
            if IsUsable(o, now) then Goes(o, "jupiter_route", reason, now)
            else !Goes(o, "jupiter_route", reason, now)
                 && IsWhy(Stage(o, "jupiter_route", reason, Verdict(Eligible, "missing-jupiter_route"), now), o,
                          "jupiter_route", "", Eligible, now)
  {
    if o.None? {
      assert "missing-" + "jupiter_route" == "missing-jupiter_route";
    } else {
      var reason := ReasonOr(o.value.hardRejectReason, "jupiter_route-blocked");
      SourceExactly(o.value, "jupiter_route", "", reason, Eligible, now);
    }
  }

  lemma GmgnExactly(o: Option<Observation>, now: int)
    ensures var reason := if o.Some? then Prefixed("gmgn:", o.value.hardRejectReason, "gmgn-blocked") else "";
            if IsUsable(o, now) then Goes(o, "gmgn", reason, now)
            else !Goes(o, "gmgn", reason, now)
                 && IsWhy(Stage(o, "gmgn", reason, Verdict(Eligible, "missing-gmgn"), now), o, "gmgn", "gmgn:",
                          Eligible, now)
  {
    if o.None? {
      assert "missing-" + "gmgn" == "missing-gmgn";
    } else {
      var reason := Prefixed("gmgn:", o.value.hardRejectReason, "gmgn-blocked");
      SourceExactly(o.value, "gmgn", "gmgn:", reason, Eligible, now);
    }
  }

  lemma FeeBlockExactly(feeYield: Option<Observation>, now: int)
    ensures IsFeeBlock(feeYield, now) <==> BlocksByFeeYield(feeYield, now)
  {}

  /**
   * The first of meteora, fee yield, route and gmgn that stops a candidate says why; what none of them stops is
   * openable.
   */
  lemma VerdictExactly(meteora: Option<Observation>, feeYield: Option<Observation>, route: Option<Observation>,
                       gmgn: Option<Observation>, now: int)
    ensures var verdict := ResolveBy(meteora, feeYield, route, gmgn, now);
            if !IsUsable(meteora, now) then IsWhy(verdict, meteora, "meteora", "", Observed, now)
            else if BlocksByFeeYield(feeYield, now)
            then verdict == Verdict(Blocked, if feeYield.value.hardRejectReason == "" then "pool_fee_yield-blocked"
                                             else "pool_fee_yield:" + feeYield.value.hardRejectReason)
            else if !IsUsable(route, now) then IsWhy(verdict, route, "jupiter_route", "", Eligible, now)
            else if !IsUsable(gmgn, now) then IsWhy(verdict, gmgn, "gmgn", "gmgn:", Eligible, now)
            else verdict == Verdict(Openable, "")
  {
    hide IsWhy, IsUsable, SourceVerdict, IsFeeBlock, BlocksByFeeYield, ReasonOr;
    FeeBlockExactly(feeYield, now);
    MeteoraExactly(meteora, now);
    RouteExactly(route, now);
    GmgnExactly(gmgn, now);
  }

  /** Of several observations of one source the last one counts. */
  ghost predicate IsLastOf(observations: seq<Observation>, source: SourceName, last: Option<Observation>) {
    if last.None? then forall i :: 0 <= i < |observations| ==> observations[i].source != source
    else exists i :: 0 <= i < |observations| && observations[i] == last.value && last.value.source == source
                     && forall j :: i < j < |observations| ==> observations[j].source != source
  }

  lemma LastAfter(init: seq<Observation>, o: Observation, source: SourceName, last: Option<Observation>)
    requires IsLastOf(init, source, last)
    ensures IsLastOf(init + [o], source, if o.source == source then Some(o) else last)
  {
    var observations := init + [o];
    if o.source == source {
      assert observations[|init|] == o;
    } else if last.Some? {
      var i :| 0 <= i < |init| && init[i] == last.value && last.value.source == source
        && forall j :: i < j < |init| ==> init[j].source != source;
      assert observations[i] == last.value;
    }
  }

  lemma {:induction false} LastExactly(observations: seq<Observation>, source: SourceName)
    ensures IsLastOf(observations, source, LastOf(observations, source))
  {
    hide IsLastOf;
    if observations == [] {
      NoneIsLast(source);
    } else {
      var init, o := observations[..|observations| - 1], observations[|observations| - 1];
      LastExactly(init, source);
      LastAfter(init, o, source, LastOf(init, source));
      assert init + [o] == observations;
    }
  }

  lemma NoneIsLast(source: SourceName)
    ensures IsLastOf([], source, None)
  {}

  // ---------------------------------------------------------------- the entry

  predicate IsRequired(o: Observation) { o.source in {Meteora, JupiterRoute, Gmgn} }

  predicate ExpiresReadably(o: Observation) { o.expiresAt.At? && o.expiresAt.ms > 0 }

  /** The earliest expiry of a required observation, or `now` when there is none to read. */
  ghost predicate IsFreshness(observations: seq<Observation>, freshness: int, now: int) {
    if exists o :: o in observations && IsRequired(o) && ExpiresReadably(o)
    then (exists o :: o in observations && IsRequired(o) && ExpiresReadably(o) && o.expiresAt.ms == freshness)
         && forall o :: o in observations && IsRequired(o) && ExpiresReadably(o) ==> freshness <= o.expiresAt.ms
    else freshness == now
  }

  /** The latest observation, or `now` when there is none. */
  ghost predicate IsUpdate(observations: seq<Observation>, updatedAt: int, now: int) {
    if exists o :: o in observations && o.observedAt > 0
    then (exists o :: o in observations && o.observedAt == updatedAt)
         && forall o :: o in observations ==> o.observedAt <= updatedAt
    else updatedAt == now
  }

  lemma EntryTimesExactly(observations: seq<Observation>, now: int)
    ensures IsFreshness(observations, Freshness(observations, now), now)
    ensures IsUpdate(observations, MaxPositive(Map(ObservedOf(), observations)).GetOr(now), now)
  {
    FreshnessExactly(observations, now);
    var times := Map(ObservedOf(), observations);
    forall o | o in observations ensures o.observedAt in times {
      var i :| 0 <= i < |observations| && observations[i] == o;
      assert times[i] == o.observedAt;
    }
    forall t | t in times ensures exists o :: o in observations && o.observedAt == t {
      var i :| 0 <= i < |times| && times[i] == t;
      assert observations[i] in observations;
    }
  }

  lemma FreshnessExactly(observations: seq<Observation>, now: int)
    ensures IsFreshness(observations, Freshness(observations, now), now)
  {
    var required := Filter(HardOnly(), observations);
    var times := Map(ParseTime, Map(ExpiryOf(), required));
    forall o | o in observations && IsRequired(o) && ExpiresReadably(o) ensures o.expiresAt.ms in times {
      assert HardOnly()(o);
      var i :| 0 <= i < |required| && required[i] == o;
      assert times[i] == o.expiresAt.ms;
    }
    forall t | t in times && t > 0
      ensures exists o :: o in observations && IsRequired(o) && ExpiresReadably(o) && o.expiresAt.ms == t
    {
      var i :| 0 <= i < |times| && times[i] == t;
      assert required[i] in observations && HardOnly()(required[i]);
      assert t == ParseTime(required[i].expiresAt);
    }
  }

  /** The scores add up, those below 0 as 0. */
  lemma {:induction false} ScoreAddsUp(a: seq<Observation>, b: seq<Observation>)
    ensures TotalScore(a + b) == TotalScore(a) + TotalScore(b)
  {
    if b == [] {
      assert a + b == a;
    } else {
      ScoreAddsUp(a, b[..|b| - 1]);
      assert (a + b)[..|a + b| - 1] == a + b[..|b| - 1];
    }
  }

  lemma ScoreOfOne(o: Observation)
    ensures TotalScore([o]) == (if o.score >= 0.0 then o.score else 0.0) && TotalScore([]) == 0.0
  {
    assert [o][..0] == [];
  }

  lemma ScoreWithout(observations: seq<Observation>, i: nat)
    requires i < |observations|
    ensures TotalScore(observations) == TotalScore([observations[i]]) + TotalScore(RemoveAt(observations, i))
  {
    hide TotalScore;
    var o, before, after := observations[i], observations[..i], observations[i + 1..];
    assert observations == before + ([o] + after);
    ScoreAddsUp(before, [o] + after);
    ScoreAddsUp([o], after);
    ScoreAddsUp(before, after);
  }

  /** So the order of the observations does not matter to the score. */
  lemma {:induction false} ScoreIgnoresOrder(a: seq<Observation>, b: seq<Observation>)
    requires multiset(a) == multiset(b)
    ensures TotalScore(a) == TotalScore(b)
  {
    hide TotalScore;
    SameMembers(a, b);
    assert |a| == |multiset(a)| == |multiset(b)| == |b|;
    if a != [] {
      assert a[0] in a;
      var i :| 0 <= i < |b| && b[i] == a[0];
      RemoveAtMultiset(a, 0);
      RemoveAtMultiset(b, i);
      ScoreWithout(a, 0);
      ScoreWithout(b, i);
      assert multiset(RemoveAt(a, 0)) == multiset(a) - multiset{a[0]} == multiset(RemoveAt(b, i));
      ScoreIgnoresOrder(RemoveAt(a, 0), RemoveAt(b, i));
    }
  }

  /** The entry derived from a list of observations. */
  lemma EntryExactly(observations: seq<Observation>, now: int)
    ensures var entry := Derive(observations, now);
            && Verdict(entry.status, entry.blockReason)
               == ResolveBy(LastOf(observations, Meteora), LastOf(observations, PoolFeeYield),
                            LastOf(observations, JupiterRoute), LastOf(observations, Gmgn), now)
            && entry.openable == (entry.status == Openable) && entry.score == TotalScore(observations)
            && IsFreshness(observations, entry.freshnessExpiresAt, now) && IsUpdate(observations, entry.updatedAt, now)
  {
    hide ResolveBy, LastOf, IsFreshness, IsUpdate, Freshness;
    EntryTimesExactly(observations, now);
  }

  // ---------------------------------------------------------------- the writes

  lemma {:induction false} RowsCount(table: SourceTable, sources: seq<SourceName>, o: Observation)
    requires WellKeyed(table) && forall i, j :: 0 <= i < j < |sources| ==> sources[i] != sources[j]
    ensures multiset(RowsIn(table, sources))[o]
         == if o.source in sources && Lookup(table, o.source) == Some(o) then 1 else 0
  {
    if sources != [] {
      var init, last := sources[..|sources| - 1], sources[|sources| - 1];
      RowsCount(table, init, o);
      assert sources == init + [last];
    }
  }

  /** An upsert scores and dates what the table keeps of other sources together with the whole batch. */
  lemma MergedExactly(table: SourceTable, batch: seq<Observation>, o: Observation)
    requires WellKeyed(table)
    ensures var others := forall i :: 0 <= i < |batch| ==> batch[i].source != o.source;
            multiset(Merged(table, batch))[o]
            == multiset(batch)[o]
               + if o.source in table && table[o.source] == o && others then 1 else 0
  {
    hide LastOf, RowsIn, Filter;
    var rows := RowsIn(table, ALL_SOURCES);
    var stays := (o: Observation) => LastOf(batch, o.source).None?;
    AllSourcesListed();
    RowsCount(table, ALL_SOURCES, o);
    FilterCounts(stays, rows, o);
    LastExactly(batch, o.source);
    assert Merged(table, batch) == Filter(stays, rows) + batch;
  }

  /** An upsert stores the last row of each source of the batch, and keeps the rows of other sources and candidates. */
  lemma UpsertExactly(tables: Tables, key: PoolKey, batch: seq<Observation>, observedAt: int, source: SourceName,
                      last: Option<Observation>)
    requires WellKeyed(SourcesOf(tables, key)) && IsLastOf(batch, source, last)
    ensures var after := Upserted(tables, key, batch, observedAt);
            && after.observations.Keys == tables.observations.Keys + {key}
            && after.pool.Keys == tables.pool.Keys + {key}
            && (forall other :: other in tables.observations && other != key ==>
                  after.observations[other] == tables.observations[other])
            && (forall other :: other in tables.pool && other != key ==> after.pool[other] == tables.pool[other])
            && Lookup(after.observations[key], source)
               == (if last.Some? then last else Lookup(SourcesOf(tables, key), source))
            && after.pool[key] == Derive(Merged(SourcesOf(tables, key), batch), observedAt)
  {
    hide LastOf, Written, Merged, Derive;
    WrittenHolds(SourcesOf(tables, key), batch, source);
    LastExactly(batch, source);
    LastIsUnique(batch, source, last, LastOf(batch, source));
  }

  lemma LastIsUnique(observations: seq<Observation>, source: SourceName, a: Option<Observation>, b: Option<Observation>)
    requires IsLastOf(observations, source, a) && IsLastOf(observations, source, b)
    ensures a == b
  {}

  /**
   * Marking turns stale exactly the strategy's rows that were not stale and whose joined key was not seen, keeps what
   * it knows of them, and changes no other row.
   */
  lemma MarkExactly(tables: Tables, strategyId: string, observedAt: int, seen: seq<(string, string)>, key: PoolKey)
    requires key in tables.pool
    ensures var before, after := tables.pool[key], Marked(tables, strategyId, observedAt, SeenTexts(seen)).pool;
            var wasSeen := exists pair :: pair in seen
                             && pair.0 + ":" + pair.1 == key.poolAddress + ":" + key.tokenMint;
            && after.Keys == tables.pool.Keys
            && after[key] == if key.strategyId == strategyId && before.status != Stale && !wasSeen
                             then Entry(Stale, false, before.score, "not-seen-this-cycle", before.freshnessExpiresAt,
                                        observedAt)
                             else before
  {
    var text := Joined(key.poolAddress, key.tokenMint);
    assert text in SeenTexts(seen) <==> exists pair :: pair in seen && Joined(pair.0, pair.1) == text;
  }

  /**
   * Retention keeps exactly the rows not older than the cutoff, and of those rows the observations not older than it,
   * all unchanged.
   */
  lemma RetainExactly(tables: Tables, cutoff: int, key: PoolKey, source: SourceName)
    ensures var after := Retained(tables, cutoff);
            var keeps := key in tables.pool && tables.pool[key].updatedAt >= cutoff;
            var observation := if keeps then Lookup(SourcesOf(tables, key), source) else None;
            && (key in after.pool <==> keeps)
            && (keeps ==> after.pool[key] == tables.pool[key])
            && Lookup(SourcesOf(after, key), source)
               == if observation.Some? && observation.value.observedAt >= cutoff then observation else None
  {}
}
