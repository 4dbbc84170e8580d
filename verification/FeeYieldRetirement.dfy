/** When a pool is retired, for how long, and what its profile says, told by its liquidity and its fees. */
module FeeYieldRetirement {
  import opened Sequences
  import opened Wrappers
  import opened PoolFeeYield

  // ---------------------------------------------------------------- the reference liquidity

  /** A sample of the pool between 75 and 30 minutes old. */
  predicate IsInWindow(row: SampleRow, pool: string, now: int) {
    row.pool == pool && 30 * 60_000 <= now - row.observedAt <= 75 * 60_000
  }

  /** The newest such sample. */
  ghost predicate IsReference(samples: seq<SampleRow>, pool: string, now: int, row: SampleRow) {
    row in samples && IsInWindow(row, pool, now)
    && forall other :: other in samples && IsInWindow(other, pool, now) ==> other.observedAt <= row.observedAt
  }

  /** The primary key of the sample table. */
  ghost predicate OneRowATime(samples: seq<SampleRow>) {
    forall a, b :: a in samples && b in samples && a.pool == b.pool && a.observedAt == b.observedAt ==> a == b
  }

  lemma {:induction false} NewestIsARow(rows: seq<SampleRow>)
    ensures rows == [] <==> NewestTvl(rows).1 == None
    ensures rows != [] ==> exists row :: row in rows && NewestTvl(rows) == (row.observedAt, Some(row.tvlUsd))
    ensures forall row :: row in rows ==> row.observedAt <= NewestTvl(rows).0
  {
    if rows != [] {
      var init, last := rows[..|rows| - 1], rows[|rows| - 1];
      NewestIsARow(init);
      assert rows == init + [last] && last in rows;
    }
  }

  lemma ReferenceExactly(samples: seq<SampleRow>, pool: string, now: int, row: SampleRow)
    requires OneRowATime(samples)
    ensures IsReference(samples, pool, now, row) ==> ReferenceTvl(samples, pool, now) == Some(row.tvlUsd)
    ensures (forall other :: other in samples ==> !IsInWindow(other, pool, now)) <==>
              ReferenceTvl(samples, pool, now) == None
  {
    var inWindow := Filter((row: SampleRow) => row.pool == pool
                           && now - REFERENCE_FROM_MS <= row.observedAt <= now - REFERENCE_TO_MS,
                           samples);
    NewestIsARow(inWindow);
    assert forall other :: other in inWindow <==> other in samples && IsInWindow(other, pool, now);
    if inWindow != [] { assert inWindow[0] in inWindow; }
  }

  lemma ReferenceExists(samples: seq<SampleRow>, pool: string, now: int) returns (row: SampleRow)
    requires OneRowATime(samples) && ReferenceTvl(samples, pool, now).Some?
    ensures IsReference(samples, pool, now, row) && ReferenceTvl(samples, pool, now) == Some(row.tvlUsd)
  {
    var inWindow := Filter((row: SampleRow) => row.pool == pool
                           && now - REFERENCE_FROM_MS <= row.observedAt <= now - REFERENCE_TO_MS,
                           samples);
    NewestIsARow(inWindow);
    row :| row in inWindow && NewestTvl(inWindow) == (row.observedAt, Some(row.tvlUsd));
    assert forall other :: other in inWindow <==> other in samples && IsInWindow(other, pool, now);
  }

  /** Liquidity is below the minimum, or at most `share` of a positive reference. */
  ghost predicate HasDropped(samples: seq<SampleRow>, sample: Sample, now: int, share: real) {
    exists row :: IsReference(samples, sample.poolAddress, now, row) && row.tvlUsd > 0.0
                  && sample.tvlUsd <= share * row.tvlUsd
  }

  ghost predicate IsDrainedPool(samples: seq<SampleRow>, sample: Sample, now: int, config: Config) {
    sample.tvlUsd < config.minTvlUsd || HasDropped(samples, sample, now, 0.5)
  }

  lemma DroppedExactly(samples: seq<SampleRow>, sample: Sample, now: int, drop: real)
    requires OneRowATime(samples)
    ensures DroppedBy(TvlChange(sample.tvlUsd, ReferenceTvl(samples, sample.poolAddress, now)), drop)
       <==> HasDropped(samples, sample, now, 1.0 - drop)
  {
    hide ReferenceTvl, TvlChange, DroppedBy, IsReference;
    var pool := sample.poolAddress;
    var reference := ReferenceTvl(samples, pool, now);
    DroppedMeansShare(sample.tvlUsd, reference, drop);
    if reference.Some? {
      var row := ReferenceExists(samples, pool, now);
    }
    forall row | IsReference(samples, pool, now, row) ensures reference == Some(row.tvlUsd) {
      ReferenceExactly(samples, pool, now, row);
    }
  }

  // ---------------------------------------------------------------- one batch, one pool

  /** The pool's rows, retirement and profile are the same in both stores. */
  ghost predicate SameFor(before: Store, after: Store, pool: string) {
    && (forall row: SampleRow :: row.pool == pool ==> (row in before.samples <==> row in after.samples))
    && (pool in before.retirements <==> pool in after.retirements)
    && (pool in before.retirements ==> after.retirements[pool] == before.retirements[pool])
    && (pool in before.profiles <==> pool in after.profiles)
    && (pool in before.profiles ==> after.profiles[pool] == before.profiles[pool])
  }

  lemma OthersUntouched(store: Store, sample: Sample, now: int, config: Config, pool: string)
    requires sample.poolAddress != pool
    ensures SameFor(store, RecordOne(store, sample, now, config), pool)
  {
    hide NewProfile, Inserts;
  }

  lemma SameLatest(before: Store, after: Store, pool: string)
    requires SameFor(before, after, pool)
    ensures LatestAt(before.samples, pool) == LatestAt(after.samples, pool)
  {
    hide LatestAt;
    var latest := LatestAt(before.samples, pool);
    if latest.Some? {
      var row :| row in before.samples && row.pool == pool && row.observedAt == latest.value;
      assert row in after.samples;
      LatestIs(after.samples, pool, row);
    }
  }

  lemma {:induction false} Untouched(store: Store, samples: seq<Sample>, now: int, config: Config, pool: string)
    requires forall j :: 0 <= j < |samples| ==> samples[j].poolAddress != pool
    ensures SameFor(store, RecordAll(store, samples, now, config), pool)
    ensures pool !in ReportAll(store, samples, now, config)
  {
    hide RecordOne, Reported, SameFor;
    if samples == [] {
      assert SameFor(store, store, pool) by { SameAsItself(store, pool); }
    } else {
      var init, last := samples[..|samples| - 1], samples[|samples| - 1];
      Untouched(store, init, now, config, pool);
      OthersUntouched(RecordAll(store, init, now, config), last, now, config, pool);
      SameSame(store, RecordAll(store, init, now, config), RecordAll(store, samples, now, config), pool);
    }
  }

  lemma SameAsItself(store: Store, pool: string)
    ensures SameFor(store, store, pool)
  {}

  lemma SameSame(a: Store, b: Store, c: Store, pool: string)
    requires SameFor(a, b, pool) && SameFor(b, c, pool)
    ensures SameFor(a, c, pool)
  {}

  /** The first sample of the pool in a batch. */
  ghost predicate IsFirst(samples: seq<Sample>, i: nat, pool: string) {
    i < |samples| && samples[i].poolAddress == pool && forall j :: 0 <= j < i ==> samples[j].poolAddress != pool
  }

  ghost predicate SampledWithin(store: Store, pool: string, now: int, interval: int) {
    exists row :: row in store.samples && row.pool == pool && now - interval < row.observedAt <= now
  }

  ghost predicate InRetirement(store: Store, pool: string, t: int) {
    pool in store.retirements && t < store.retirements[pool].expiresAt
  }

  /** What the store holds of a pool from its first insertion in a batch on. */
  ghost predicate JustSampled(before: Store, after: Store, sample: Sample, now: int, config: Config, profile: Profile) {
    var pool := sample.poolAddress;
    && LatestAt(after.samples, pool) == Some(now)
    && pool in after.profiles && after.profiles[pool] == profile
    && if IsDrainedPool(before.samples, sample, now, config)
       then pool in after.retirements && after.retirements[pool].expiresAt == now + config.retirementMs
       else (pool in before.retirements <==> pool in after.retirements)
            && (pool in before.retirements ==> after.retirements[pool] == before.retirements[pool])
  }

  lemma RecentExactly(store: Store, pool: string, now: int, config: Config)
    requires SamplesUpTo(store, now)
    ensures IsRecent(store, pool, now, config) <==> SampledWithin(store, pool, now, config.sampleIntervalMs)
  {
    hide LatestAt;
    var last := LatestAt(store.samples, pool);
    if last.Some? {
      var row :| row in store.samples && row.pool == pool && row.observedAt == last.value;
    }
  }

  /** The profile that the pool's sample gives against the store that the batch found. */
  ghost function ProfileOf(store: Store, sample: Sample, now: int, config: Config): Profile {
    BuildProfile(sample, now, ReferenceTvl(store.samples, sample.poolAddress, now), config)
  }

  lemma FirstIsRecorded(store: Store, current: Store, sample: Sample, now: int, config: Config)
    requires SameFor(store, current, sample.poolAddress) && OneRowATime(store.samples) && SamplesUpTo(current, now)
    requires !InRetirement(store, sample.poolAddress, now)
    requires !SampledWithin(store, sample.poolAddress, now, config.sampleIntervalMs)
    requires ReferenceTvl(current.samples, sample.poolAddress, now)
             == ReferenceTvl(store.samples, sample.poolAddress, now)
    ensures JustSampled(store, RecordOne(current, sample, now, config), sample, now, config,
                        ProfileOf(store, sample, now, config))
    ensures Reported(current, sample, now, config) == Some(ProfileOf(store, sample, now, config))
  {
    hide LatestAt, ReferenceTvl, WithSample, Score, IsFakeYield, TvlChange, DroppedBy, IsReference;
    var pool := sample.poolAddress;
    RecentExactly(current, pool, now, config);
    assert !SampledWithin(current, pool, now, config.sampleIntervalMs);
    DroppedExactly(store.samples, sample, now, 0.5);
    LatestOfInsert(current.samples, SampleRow(pool, now, sample.tvlUsd), pool);
  }

  lemma {:induction false} RowsStay(store: Store, samples: seq<Sample>, now: int, config: Config)
    requires SamplesUpTo(store, now)
    ensures SamplesUpTo(RecordAll(store, samples, now, config), now)
    ensures forall row: SampleRow :: row.observedAt != now ==>
              (row in RecordAll(store, samples, now, config).samples <==> row in store.samples)
  {
    hide RecordOne;
    if samples != [] {
      var init, last := samples[..|samples| - 1], samples[|samples| - 1];
      RowsStay(store, init, now, config);
      RowsStayOne(RecordAll(store, init, now, config), last, now, config);
    }
  }

  lemma RowsStayOne(store: Store, sample: Sample, now: int, config: Config)
    requires SamplesUpTo(store, now)
    ensures SamplesUpTo(RecordOne(store, sample, now, config), now)
    ensures forall row: SampleRow :: row.observedAt != now ==>
              (row in RecordOne(store, sample, now, config).samples <==> row in store.samples)
    ensures OneRowATime(store.samples) ==> OneRowATime(RecordOne(store, sample, now, config).samples)
  {
    hide NewProfile, Inserts;
  }

  lemma {:induction false} StaysKeyed(store: Store, samples: seq<Sample>, now: int, config: Config)
    requires SamplesUpTo(store, now) && OneRowATime(store.samples)
    ensures OneRowATime(RecordAll(store, samples, now, config).samples)
  {
    hide RecordOne, OneRowATime, SamplesUpTo;
    if samples != [] {
      var init, last := samples[..|samples| - 1], samples[|samples| - 1];
      StaysKeyed(store, init, now, config);
      RowsStay(store, init, now, config);
      RowsStayOne(RecordAll(store, init, now, config), last, now, config);
    }
  }

  /** A batch does not change the reference of its own time. */
  lemma SameReference(store: Store, samples: seq<Sample>, now: int, config: Config, pool: string)
    requires SamplesUpTo(store, now) && OneRowATime(store.samples)
    ensures ReferenceTvl(RecordAll(store, samples, now, config).samples, pool, now)
         == ReferenceTvl(store.samples, pool, now)
  {
    hide RecordAll, ReferenceTvl;
    var after := RecordAll(store, samples, now, config).samples;
    RowsStay(store, samples, now, config);
    StaysKeyed(store, samples, now, config);
    if ReferenceTvl(store.samples, pool, now).Some? {
      var row := ReferenceExists(store.samples, pool, now);
      assert IsReference(after, pool, now, row);
      ReferenceExactly(after, pool, now, row);
    } else {
      ReferenceExactly(store.samples, pool, now, SampleRow(pool, now, 0.0));
      ReferenceExactly(after, pool, now, SampleRow(pool, now, 0.0));
    }
  }

  /** Further samples of the pool in the batch change nothing, and report the same profile. */
  lemma RepeatIsIgnored(before: Store, current: Store, first: Sample, sample: Sample, now: int, config: Config,
                        profile: Profile)
    requires JustSampled(before, current, first, now, config, profile) && config.sampleIntervalMs > 0
    ensures JustSampled(before, RecordOne(current, sample, now, config), first, now, config, profile)
    ensures sample.poolAddress == first.poolAddress ==> Reported(current, sample, now, config) == Some(profile)
  {
    hide LatestAt, IsDrainedPool, NewProfile, WithSample, FallbackProfile;
    if sample.poolAddress != first.poolAddress {
      OthersUntouched(current, sample, now, config, first.poolAddress);
      SameLatest(current, RecordOne(current, sample, now, config), first.poolAddress);
    }
  }

  lemma {:induction false} BatchSamplesFirst(store: Store, samples: seq<Sample>, now: int, config: Config, i: nat)
    requires i < |samples| && IsFirst(samples, i, samples[i].poolAddress) && config.sampleIntervalMs > 0
    requires OneRowATime(store.samples) && SamplesUpTo(store, now)
    requires !InRetirement(store, samples[i].poolAddress, now)
    requires !SampledWithin(store, samples[i].poolAddress, now, config.sampleIntervalMs)
    ensures var profile := ProfileOf(store, samples[i], now, config);
            var report := ReportAll(store, samples, now, config);
            && JustSampled(store, RecordAll(store, samples, now, config), samples[i], now, config, profile)
            && samples[i].poolAddress in report && report[samples[i].poolAddress] == profile
    decreases |samples|
  {
    hide RecordOne, Reported, JustSampled, ReferenceTvl, SameFor, OneRowATime, SamplesUpTo, InRetirement;
    var init, last := samples[..|samples| - 1], samples[|samples| - 1];
    var current := RecordAll(store, init, now, config);
    if i == |samples| - 1 {
      Untouched(store, init, now, config, last.poolAddress);
      RowsStay(store, init, now, config);
      SameReference(store, init, now, config, last.poolAddress);
      FirstIsRecorded(store, current, last, now, config);
    } else {
      assert init[i] == samples[i];
      BatchSamplesFirst(store, init, now, config, i);
      RepeatIsIgnored(store, current, samples[i], last, now, config, ProfileOf(store, samples[i], now, config));
    }
  }

  lemma {:induction false} BatchSkips(store: Store, samples: seq<Sample>, now: int, config: Config, pool: string)
    requires SamplesUpTo(store, now) && !InRetirement(store, pool, now)
    requires SampledWithin(store, pool, now, config.sampleIntervalMs)
    ensures SameFor(store, RecordAll(store, samples, now, config), pool)
  {
    hide RecordOne, SameFor, SamplesUpTo, InRetirement, SampledWithin;
    if samples == [] {
      SameAsItself(store, pool);
    } else {
      var init, last := samples[..|samples| - 1], samples[|samples| - 1];
      var current := RecordAll(store, init, now, config);
      BatchSkips(store, init, now, config, pool);
      RowsStay(store, init, now, config);
      if last.poolAddress == pool {
        SkipsOne(store, current, last, now, config);
      } else {
        OthersUntouched(current, last, now, config, pool);
        SameSame(store, current, RecordOne(current, last, now, config), pool);
      }
    }
  }

  lemma SkipsOne(store: Store, current: Store, sample: Sample, now: int, config: Config)
    requires SameFor(store, current, sample.poolAddress) && SamplesUpTo(current, now)
    requires SampledWithin(store, sample.poolAddress, now, config.sampleIntervalMs)
    ensures RecordOne(current, sample, now, config) == current
  {
    hide LatestAt, IsRetired;
    RecentExactly(current, sample.poolAddress, now, config);
  }

  /**
   * Where a batch finds a pool out of retirement, it retires the pool exactly when the pool's first sample is inserted
   * and shows it drained: below the minimum, or at most half of the reference; and then exactly for retirementMs.
   */
  lemma BatchRetiresExactly(store: Store, samples: seq<Sample>, now: int, config: Config, pool: string, i: nat, t: int)
    requires IsFirst(samples, i, pool) && config.sampleIntervalMs > 0 && t >= now
    requires OneRowATime(store.samples) && SamplesUpTo(store, now) && !InRetirement(store, pool, now)
    ensures InRetirement(Record(store, samples, now, config), pool, t) <==>
              && !SampledWithin(store, pool, now, config.sampleIntervalMs)
              && IsDrainedPool(store.samples, samples[i], now, config)
              && t < now + config.retirementMs
    ensures InRetirement(Record(store, samples, now, config), pool, t)
       <==> IsRetired(Record(store, samples, now, config), pool, t)
  {
    hide RecordAll, OneRowATime, SamplesUpTo, SampledWithin, IsDrainedPool, LatestAt;
    if SampledWithin(store, pool, now, config.sampleIntervalMs) {
      BatchSkips(store, samples, now, config, pool);
    } else {
      BatchSamplesFirst(store, samples, now, config, i);
    }
  }

  // ---------------------------------------------------------------- runs

  lemma {:induction false} RowsAreKeyed(batches: seq<Batch>, clock: int)
    requires TimesFrom(batches, clock)
    ensures OneRowATime(Run(EMPTY_STORE, batches).samples)
    ensures SamplesUpTo(Run(EMPTY_STORE, batches), ClockAfter(batches, clock))
  {
    hide RecordAll;
    if batches != [] {
      var init, last := batches[..|batches| - 1], batches[|batches| - 1];
      RowsAreKeyed(init, clock);
      StaysKeyed(Run(EMPTY_STORE, init), last.samples, last.at, last.config);
      RowsStay(Run(EMPTY_STORE, init), last.samples, last.at, last.config);
    }
  }

  /** While a retirement lasts no batch inserts a sample of the pool. */
  lemma {:induction false} RetirementHolds(store: Store, batches: seq<Batch>, clock: int, pool: string, end: int)
    requires TimesFrom(batches, clock) && RetiredProfileKept(store, clock, pool)
    requires clock < end ==> pool in store.retirements && store.retirements[pool].expiresAt == end
    ensures forall k :: 0 <= k < |Insertions(store, batches)| && Insertions(store, batches)[k].pool == pool ==>
              Insertions(store, batches)[k].at >= end
    ensures var after, later := Run(store, batches), ClockAfter(batches, clock);
            && RetiredProfileKept(after, later, pool)
            && (later < end ==> pool in after.retirements && after.retirements[pool].expiresAt == end)
  {
    hide Record, InsertionsOf;
    if batches != [] {
      var init, last := batches[..|batches| - 1], batches[|batches| - 1];
      RetirementHolds(store, init, clock, pool, end);
      RetiredProfilesAreNeverLost(store, init, clock, pool);
      RecordKeeps(Run(store, init), last.samples, last.at, last.config, pool);
      InsertionsAreNow(Run(store, init), last.samples, last.at, last.config);
      if last.at < end {
        RetiredPoolIsLeftAlone(Run(store, init), last.samples, last.at, last.config, pool);
      }
    }
  }

  /**
   * Over any run, under any later settings: no sample of a pool is inserted within retirementMs of the batch that found
   * it drained.
   */
  lemma DrainedPoolRests(before: seq<Batch>, batch: Batch, later: seq<Batch>, clock: int, i: nat)
    requires TimesFrom(before, clock) && ClockAfter(before, clock) <= batch.at && TimesFrom(later, batch.at)
    requires i < |batch.samples| && IsFirst(batch.samples, i, batch.samples[i].poolAddress)
    requires batch.config.sampleIntervalMs > 0
    requires var store, pool := Run(EMPTY_STORE, before), batch.samples[i].poolAddress;
             && !InRetirement(store, pool, batch.at)
             && !SampledWithin(store, pool, batch.at, batch.config.sampleIntervalMs)
             && IsDrainedPool(store.samples, batch.samples[i], batch.at, batch.config)
    ensures var log := Insertions(Run(EMPTY_STORE, before + [batch]), later);
            forall k :: 0 <= k < |log| && log[k].pool == batch.samples[i].poolAddress ==>
              log[k].at >= batch.at + batch.config.retirementMs
  {
    hide Run, Record, Insertions, IsDrainedPool, SampledWithin;
    var store, pool := Run(EMPTY_STORE, before), batch.samples[i].poolAddress;
    var after := Record(store, batch.samples, batch.at, batch.config);
    RunSnoc(EMPTY_STORE, before, batch);
    RowsAreKeyed(before, clock);
    RetiredProfilesAreNeverLost(EMPTY_STORE, before, clock, pool);
    RecordKeeps(store, batch.samples, batch.at, batch.config, pool);
    var end := batch.at + batch.config.retirementMs;
    if batch.at < end {
      BatchRetiresExactly(store, batch.samples, batch.at, batch.config, pool, i, batch.at);
      BatchRetiresExactly(store, batch.samples, batch.at, batch.config, pool, i, end);
      BatchRetiresExactly(store, batch.samples, batch.at, batch.config, pool, i, end - 1);
    }
    RetirementHolds(after, later, batch.at, pool, end);
  }

  // ---------------------------------------------------------------- what the profile says

  function Least0(x: real): real { if x < 0.0 then 0.0 else x }

  /** Liquidity fell while fees over it rose: more than a quarter on the hour before, without fees to speak of. */
  predicate LooksFake(sample: Sample) {
    var before := Least0(sample.netFee2h - sample.netFee1h);
    && sample.netFee1h > 1.25 * before && sample.netFee1h > 0.0005 * sample.tvlUsd
    && (sample.netFee1h <= 1.5 * before || sample.netFee1h <= 5.0)
  }

  /** Status, reason and end of retirement, read off liquidity and fees. */
  ghost predicate ProfileTells(profile: Profile, samples: seq<SampleRow>, sample: Sample, now: int, config: Config) {
    && profile.observedAt == now
    && (if IsDrainedPool(samples, sample, now, config) then
          && profile.status == RetiredLiquidityDrain && profile.retiredUntil == Some(now + config.retirementMs)
          && profile.reason == (if sample.tvlUsd < config.minTvlUsd then "tvl-below-minimum"
                                else "tvl-dropped-more-than-50pct")
        else if HasDropped(samples, sample, now, 0.65) then
          && profile.status == (if LooksFake(sample) then DenominatorFakeYield else LiquidityDrainWatch)
          && profile.reason == (if LooksFake(sample) then "fee-yield-ratio-increased-from-liquidity-drain"
                                else "tvl-dropped-more-than-35pct")
        else
          && profile.status == Ready
          && profile.reason == (if sample.netFee1h < 10.0 then "low-absolute-net-fee" else "fee-yield-ready"))
    && (profile.retiredUntil.Some? ==> profile.status == RetiredLiquidityDrain)
    && (profile.status != Ready ==> profile.score == 0.0)
    && (forall row :: IsReference(samples, sample.poolAddress, now, row) && row.tvlUsd > 0.0 ==>
          profile.tvlChange1hPct.Some? && profile.tvlChange1hPct.value * row.tvlUsd == sample.tvlUsd - row.tvlUsd)
  }

  /** A comparison of two shares of one positive amount. */
  lemma SharesCompare(a: real, b: real, tvl: real)
    requires tvl > 0.0
    ensures a / tvl > b / tvl <==> a > b
    ensures a / tvl > b <==> a > b * tvl
  {
    var x, y := a / tvl, b / tvl;
    assert x * tvl == a && y * tvl == b;
    if x > y { MulStrict(y, x, tvl); } else { MulOrder(x, y, tvl); }
    if x > b { MulStrict(b, x, tvl); } else { MulOrder(x, b, tvl); }
  }

  lemma FakeExactly(sample: Sample, previous: Option<real>)
    requires sample.tvlUsd > 0.0 && DroppedBy(TvlChange(sample.tvlUsd, previous), 0.35)
    ensures IsFakeYield(sample, previous) <==> LooksFake(sample)
  {
    hide TvlChange, DroppedBy;
    var tvl, before := sample.tvlUsd, PrevHourFee(sample);
    SharesCompare(sample.netFee1h, 1.25 * before, tvl);
    SharesCompare(sample.netFee1h, 0.0005, tvl);
    assert before / tvl * 1.25 == 1.25 * before / tvl;
  }

  lemma ChangeExactly(tvl: real, previous: real)
    requires previous > 0.0
    ensures TvlChange(tvl, Some(previous)).Some?
            && TvlChange(tvl, Some(previous)).value * previous == tvl - previous
  {}

  /** The profile that a batch stores and reports for a pool says what its liquidity and its fees say. */
  lemma ProfileTellsTheSample(store: Store, sample: Sample, now: int, config: Config)
    requires OneRowATime(store.samples) && sample.tvlUsd > 0.0
    ensures ProfileTells(ProfileOf(store, sample, now, config), store.samples, sample, now, config)
  {
    hide ReferenceTvl, IsReference, Score, TvlChange, DroppedBy, IsFakeYield, LooksFake;
    var previous := ReferenceTvl(store.samples, sample.poolAddress, now);
    DroppedExactly(store.samples, sample, now, 0.5);
    DroppedExactly(store.samples, sample, now, 0.35);
    FakeYieldDropped(sample, previous);
    if DroppedBy(TvlChange(sample.tvlUsd, previous), 0.35) { FakeExactly(sample, previous); }
    forall row | IsReference(store.samples, sample.poolAddress, now, row) && row.tvlUsd > 0.0
      ensures TvlChange(sample.tvlUsd, previous).Some?
              && TvlChange(sample.tvlUsd, previous).value * row.tvlUsd == sample.tvlUsd - row.tvlUsd
    {
      ReferenceExactly(store.samples, sample.poolAddress, now, row);
      ChangeExactly(sample.tvlUsd, row.tvlUsd);
    }
  }

  /** Where a batch finds a pool neither retired nor just sampled, it stores and reports its first sample's profile. */
  lemma BatchReportsExactly(store: Store, samples: seq<Sample>, now: int, config: Config, pool: string, i: nat)
    requires IsFirst(samples, i, pool) && samples[i].tvlUsd > 0.0
    requires config.sampleIntervalMs > 0 && config.retentionMs >= 0
    requires OneRowATime(store.samples) && SamplesUpTo(store, now) && !InRetirement(store, pool, now)
    requires !SampledWithin(store, pool, now, config.sampleIntervalMs)
    ensures var after, report := Record(store, samples, now, config), ReportAll(store, samples, now, config);
            && pool in report && ProfileTells(report[pool], store.samples, samples[i], now, config)
            && pool in after.profiles && after.profiles[pool] == report[pool]
  {
    hide RecordAll, OneRowATime, SamplesUpTo, SampledWithin, IsDrainedPool, LatestAt, ProfileTells, BuildProfile;
    BatchSamplesFirst(store, samples, now, config, i);
    ProfileTellsTheSample(store, samples[i], now, config);
    ProfileIsOfNow(store, samples[i], now, config);
  }

  lemma ProfileIsOfNow(store: Store, sample: Sample, now: int, config: Config)
    ensures ProfileOf(store, sample, now, config).observedAt == now
  {}

  lemma {:induction false} RetiredPoolStays(store: Store, samples: seq<Sample>, now: int, config: Config, pool: string)
    requires InRetirement(store, pool, now)
    ensures var after := RecordAll(store, samples, now, config);
            && pool in after.retirements && after.retirements[pool] == store.retirements[pool]
            && (pool in after.profiles <==> pool in store.profiles)
            && (pool in store.profiles ==> after.profiles[pool] == store.profiles[pool])
  {
    hide WithSample, IsRecent, NewProfile;
    if samples != [] { RetiredPoolStays(store, samples[..|samples| - 1], now, config, pool); }
  }

  /** A batch reports a retired pool by its stored profile, or by a makeshift one that tells the retirement. */
  lemma {:induction false} RetiredPoolReports(store: Store, samples: seq<Sample>, now: int, config: Config,
                                              pool: string)
    requires InRetirement(store, pool, now)
    ensures var report, retirement := ReportAll(store, samples, now, config), store.retirements[pool];
            && (pool in report <==> exists i :: 0 <= i < |samples| && samples[i].poolAddress == pool)
            && (pool in report ==>
                  report[pool] == if pool in store.profiles then store.profiles[pool]
                    else Profile(now, RetiredLiquidityDrain, 0.0,
                                 if retirement.reason == "" then "pool-fee-yield-retired" else retirement.reason,
                                 None, Some(retirement.expiresAt)))
  {
    hide RecordAll, IsRecent, NewProfile;
    if samples != [] {
      var init, last := samples[..|samples| - 1], samples[|samples| - 1];
      RetiredPoolReports(store, init, now, config, pool);
      RetiredPoolStays(store, init, now, config, pool);
      assert forall i :: 0 <= i < |init| ==> init[i] == samples[i];
      assert last == samples[|init|];
    }
  }

  /**
   * After its samples a batch forgets exactly the samples older than retention, the retirements that have ended, and
   * the profiles that are older than retention and not of a retirement that stays.
   */
  lemma BatchForgetsExactly(store: Store, samples: seq<Sample>, now: int, config: Config, pool: string, row: SampleRow)
    ensures var before, after := RecordAll(store, samples, now, config), Record(store, samples, now, config);
            var retired := pool in before.retirements && before.retirements[pool].expiresAt >= now;
            && (row in after.samples <==> row in before.samples && row.observedAt >= now - config.retentionMs)
            && (pool in after.retirements <==> retired)
            && (retired ==> after.retirements[pool] == before.retirements[pool])
            && (pool in after.profiles <==>
                  pool in before.profiles
                  && (before.profiles[pool].observedAt >= now - config.retentionMs || retired))
            && (pool in after.profiles ==> after.profiles[pool] == before.profiles[pool])
  {
    hide RecordAll;
  }

  // ---------------------------------------------------------------- the score

  lemma MomentumExactly(now: real, before: real, factor: real, cap: real)
    requires factor > 0.0 && cap > 0.0
    ensures 0.0 <= Momentum(now, before, factor, cap) <= cap
    ensures Momentum(now, before, factor, cap) == cap <==> before > 0.0 && factor * now >= (factor + cap) * before
    ensures Momentum(now, before, factor, cap) > 0.0 <==> now > before > 0.0
  {
    hide *;
    MomentumDefinition(now, before, factor, cap);
    if now > before && before > 0.0 {
      RatioAboveOne(now, before, factor);
      GrowthExactly(now / before, before, factor, cap);
    } else if before > 0.0 {
      NoGrowth(now, before, factor, cap);
    }
  }

  lemma MomentumDefinition(now: real, before: real, factor: real, cap: real)
    requires cap > 0.0
    ensures Momentum(now, before, factor, cap)
            == if now > before && before > 0.0 then
                 var growth := (now / before - 1.0) * factor;
                 if growth > cap then cap else if growth < 0.0 then 0.0 else growth
               else 0.0
  {}

  lemma RatioAboveOne(now: real, before: real, factor: real)
    requires now > before > 0.0 && factor > 0.0
    ensures (now / before) * before == now && (now / before - 1.0) * factor > 0.0
  {
    var ratio := now / before;
    assert ratio * before == now;
    if ratio <= 1.0 { MulOrder(ratio, 1.0, before); }
    MulStrict(1.0, ratio, factor);
  }

  lemma NoGrowth(now: real, before: real, factor: real, cap: real)
    requires now <= before && before > 0.0 && factor > 0.0 && cap > 0.0
    ensures factor * now < (factor + cap) * before
  {
    MulOrder(now, before, factor);
    MulStrict(0.0, cap, before);
    assert (factor + cap) * before == factor * before + cap * before;
  }

  lemma GrowthExactly(ratio: real, before: real, factor: real, cap: real)
    requires before > 0.0
    ensures (ratio - 1.0) * factor >= cap <==> factor * (ratio * before) >= (factor + cap) * before
  {
    var left, right := ratio * factor, factor + cap;
    assert (ratio - 1.0) * factor == left - factor;
    assert factor * (ratio * before) == left * before;
    if left >= right { MulOrder(right, left, before); } else { MulStrict(left, right, before); }
  }

  lemma ContinuityExactly(current: real, continuity: real)
    requires continuity > 0.0
    ensures current / continuity * 18.0 >= 15.0 <==> 6.0 * current >= 5.0 * continuity
  {
    var x := current / continuity;
    assert x * continuity == current;
    if 6.0 * x >= 5.0 { MulOrder(5.0, 6.0 * x, continuity); } else { MulStrict(6.0 * x, 5.0, continuity); }
    assert (6.0 * x) * continuity == 6.0 * current;
  }

  /**
   * The full score of 105 needs a yield of 1% an hour, 400 in fees, three times the yield of the half hour before,
   * 37/12 of that of the hour before, and five sixths of the four-hour average; nothing else reaches it.
   */
  lemma FullScoreExactly(current: real, recent30m: real, prev30m: real, prevHour: real, continuity: real,
                         netFee1h: real)
    requires current >= 0.0 && netFee1h >= 0.0
    ensures Score(current, recent30m, prev30m, prevHour, continuity, netFee1h) == 105.0 <==>
              && 100.0 * current >= 1.0 && netFee1h >= 400.0
              && prev30m > 0.0 && recent30m >= 3.0 * prev30m
              && prevHour > 0.0 && 12.0 * current >= 37.0 * prevHour
              && continuity > 0.0 && 6.0 * current >= 5.0 * continuity
  {
    hide Momentum;
    MomentumExactly(recent30m, prev30m, 7.5, 15.0);
    MomentumExactly(current, prevHour, 12.0, 25.0);
    if continuity > 0.0 { ContinuityExactly(current, continuity); }
  }

  /** Without fees and growth there is no score, and with any there is. */
  lemma NoScoreExactly(current: real, recent30m: real, prev30m: real, prevHour: real, continuity: real,
                       netFee1h: real)
    requires current >= 0.0 && netFee1h >= 0.0 && prevHour >= 0.0
    ensures Score(current, recent30m, prev30m, prevHour, continuity, netFee1h) == 0.0 <==>
              current == 0.0 && netFee1h == 0.0 && !(recent30m > prev30m > 0.0)
  {
    hide Momentum;
    MomentumExactly(recent30m, prev30m, 7.5, 15.0);
    MomentumExactly(current, prevHour, 12.0, 25.0);
    if continuity > 0.0 && current >= continuity * 0.75 {
      assert current > 0.0;
      assert current / continuity > 0.0;
    }
  }

  /** Little fee in absolute terms holds down even a good yield that has tripled within the hour. */
  lemma LowFeesHoldScoreDown(current: real, recent30m: real, prev30m: real, prevHour: real, continuity: real,
                             netFee1h: real)
    requires 100.0 * current >= 1.0 && recent30m >= 3.0 * prev30m > 0.0 && netFee1h >= 0.0
    ensures var score := Score(current, recent30m, prev30m, prevHour, continuity, netFee1h);
            if netFee1h < 10.0 then score == 10.0
            else if netFee1h < 25.0 then score == 20.0
            else if netFee1h < 50.0 then score == 35.0
            else score > 35.0
  {
    hide Momentum;
    MomentumExactly(recent30m, prev30m, 7.5, 15.0);
    MomentumExactly(current, prevHour, 12.0, 25.0);
    if continuity > 0.0 { assert current / continuity > 0.0; }
  }

  /** The amount, from 0 up to the most that counts. */
  predicate IsCapped(points: real, amount: real, most: real) {
    points == if amount <= 0.0 then 0.0 else if amount >= most then most else amount
  }

  /** Points for the growth over what was before, up to the most. */
  predicate IsRise(points: real, now: real, before: real, factor: real, most: real) {
    if before <= 0.0 || now <= before then points == 0.0
    else if factor * (now - before) >= most * before then points == most
    else points * before == factor * (now - before)
  }

  /** Points for holding the mean of four hours: none below three quarters of it, all from five sixths on. */
  predicate IsSteady(points: real, now: real, mean: real) {
    if mean <= 0.0 || 4.0 * now < 3.0 * mean then points == 0.0
    else if 6.0 * now >= 5.0 * mean then points == 15.0
    else points * mean == 18.0 * now
  }

  lemma RiseExactly(now: real, before: real, factor: real, most: real)
    requires factor > 0.0 && most > 0.0
    ensures IsRise(Momentum(now, before, factor, most), now, before, factor, most)
  {
    hide Momentum;
    MomentumDefinition(now, before, factor, most);
    MomentumExactly(now, before, factor, most);
    if now > before && before > 0.0 {
      var ratio := now / before;
      RatioAboveOne(now, before, factor);
      assert ((ratio - 1.0) * factor) * before == factor * (ratio * before - before);
      assert (factor + most) * before == factor * before + most * before;
      assert factor * (now - before) == factor * now - factor * before;
    }
  }

  lemma SteadyExactly(now: real, mean: real)
    ensures IsSteady(if mean > 0.0 && now >= mean * 0.75 then Clamp(now / mean * 18.0, 0.0, 15.0) else 0.0, now, mean)
  {
    if mean > 0.0 && now >= mean * 0.75 {
      ContinuityExactly(now, mean);
      var x := now / mean;
      assert x * mean == now;
      assert x > 0.0;
      assert (x * 18.0) * mean == 18.0 * now;
    }
  }

  /** The score is the sum of five parts, held down by little fee. */
  lemma ScoreExactly(current: real, recent30m: real, prev30m: real, prevHour: real, continuity: real, netFee1h: real)
    returns (own: real, fee: real, recent: real, hour: real, steady: real)
    ensures IsCapped(own, 3000.0 * current, 30.0) && IsCapped(fee, 0.05 * netFee1h, 20.0)
    ensures IsRise(recent, recent30m, prev30m, 7.5, 15.0) && IsRise(hour, current, prevHour, 12.0, 25.0)
    ensures IsSteady(steady, current, continuity)
    ensures var score := Score(current, recent30m, prev30m, prevHour, continuity, netFee1h);
            var sum := own + fee + recent + hour + steady;
            score == if netFee1h < 10.0 && sum > 10.0 then 10.0
                     else if netFee1h < 25.0 && sum > 20.0 then 20.0
                     else if netFee1h < 50.0 && sum > 35.0 then 35.0
                     else sum
  {
    own, fee := Clamp(current * 3000.0, 0.0, 30.0), Clamp(netFee1h / 20.0, 0.0, 20.0);
    recent, hour := Momentum(recent30m, prev30m, 7.5, 15.0), Momentum(current, prevHour, 12.0, 25.0);
    steady := if continuity > 0.0 && current >= continuity * 0.75 then Clamp(current / continuity * 18.0, 0.0, 15.0)
              else 0.0;
    RiseExactly(recent30m, prev30m, 7.5, 15.0);
    RiseExactly(current, prevHour, 12.0, 25.0);
    SteadyExactly(current, continuity);
    hide Momentum;
    MomentumExactly(recent30m, prev30m, 7.5, 15.0);
    MomentumExactly(current, prevHour, 12.0, 25.0);
  }
}
