/**
 * Pool fee-yield profiles (src/candidate-pool/pool-fee-yield.ts) and the store that samples pools and retires drained
 * ones (recordPoolFeeYieldSamples of src/candidate-pool/sqlite-candidate-pool.ts).
 */
module PoolFeeYield {
  import opened Sequences
  import opened Wrappers

  datatype ProfileStatus = Ready | LiquidityDrainWatch | RetiredLiquidityDrain | DenominatorFakeYield

  /** One sample of a pool: its liquidity and its net fees over four windows. */
  datatype Sample = Sample(
    poolAddress: string,
    tvlUsd: real,
    netFee30m: real,
    netFee1h: real,
    netFee2h: real,
    netFee4h: real)

  datatype Profile = Profile(
    observedAt: int,
    status: ProfileStatus,
    score: real,
    reason: string,
    tvlChange1hPct: Option<real>,
    retiredUntil: Option<int>)

  datatype Config = Config(sampleIntervalMs: int, minTvlUsd: real, retirementMs: int, retentionMs: int)

  // ---------------------------------------------------------------- profile

  function Greater(a: real, b: real): real { if a > b then a else b }
  function Lesser(a: real, b: real): real { if a < b then a else b }

  function Clamp(value: real, min: real, max: real): (r: real)
    ensures min <= max ==> min <= r <= max
  {
    Greater(min, Lesser(max, value))
  }

  function LowFeeCap(netFee1h: real): real {
    if netFee1h < 10.0 then 10.0 else if netFee1h < 25.0 then 20.0 else if netFee1h < 50.0 then 35.0 else 105.0
  }

  /** Fee over liquidity, and no yield without liquidity. */
  function Yield(fee: real, tvl: real): real { if tvl > 0.0 then fee / tvl else 0.0 }

  function Momentum(now: real, before: real, factor: real, cap: real): real {
    if now > before && before > 0.0 then Clamp((now / before - 1.0) * factor, 0.0, cap) else 0.0
  }

  function Score(current: real, recent30m: real, prev30m: real, prevHour: real, continuity: real,
                 netFee1h: real): real {
    var parts :=
      Clamp(current * 3000.0, 0.0, 30.0) + Clamp(netFee1h / 20.0, 0.0, 20.0)
      + Momentum(recent30m, prev30m, 7.5, 15.0) + Momentum(current, prevHour, 12.0, 25.0)
      + (if continuity > 0.0 && current >= continuity * 0.75 then Clamp(current / continuity * 18.0, 0.0, 15.0)
         else 0.0);
    Lesser(Lesser(105.0, parts), LowFeeCap(netFee1h))
  }

  function TvlChange(tvl: real, previous: Option<real>): Option<real> {
    if previous.Some? && previous.value > 0.0 then Some((tvl - previous.value) / previous.value) else None
  }

  predicate DroppedBy(change: Option<real>, share: real) { change.Some? && change.value <= -share }

  predicate IsDrained(sample: Sample, previous: Option<real>, minTvlUsd: real) {
    sample.tvlUsd < minTvlUsd || DroppedBy(TvlChange(sample.tvlUsd, previous), 0.5)
  }

  function PrevHourFee(sample: Sample): real { Greater(0.0, sample.netFee2h - sample.netFee1h) }

  predicate IsFakeYield(sample: Sample, previous: Option<real>) {
    && DroppedBy(TvlChange(sample.tvlUsd, previous), 0.35)
    && Yield(sample.netFee1h, sample.tvlUsd) > Greater(Yield(PrevHourFee(sample), sample.tvlUsd) * 1.25, 0.0005)
    && sample.netFee1h <= Greater(PrevHourFee(sample) * 1.5, 5.0)
  }

  function BuildProfile(sample: Sample, observedAt: int, previous: Option<real>, config: Config): Profile {
    var change := TvlChange(sample.tvlUsd, previous);
    var tvl := sample.tvlUsd;
    var score := Score(Yield(sample.netFee1h, tvl), Yield(sample.netFee30m, tvl),
                       Yield(Greater(0.0, sample.netFee1h - sample.netFee30m), tvl), Yield(PrevHourFee(sample), tvl),
                       Yield(sample.netFee4h, tvl) / 4.0, sample.netFee1h);
    if IsDrained(sample, previous, config.minTvlUsd) then
      Profile(observedAt, RetiredLiquidityDrain, 0.0,
              if tvl < config.minTvlUsd then "tvl-below-minimum" else "tvl-dropped-more-than-50pct",
              change, Some(observedAt + config.retirementMs))
    else if IsFakeYield(sample, previous) then
      Profile(observedAt, DenominatorFakeYield, 0.0, "fee-yield-ratio-increased-from-liquidity-drain", change, None)
    else if DroppedBy(change, 0.35) then
      Profile(observedAt, LiquidityDrainWatch, 0.0, "tvl-dropped-more-than-35pct", change, None)
    else
      Profile(observedAt, Ready, score, if sample.netFee1h < 10.0 then "low-absolute-net-fee" else "fee-yield-ready",
              change, None)
  }

  /**
   * A profile scores only when it is ready, which needs liquidity at the minimum and no drop of 35% or more in the last
   * hour; its score is then between 0 and the cap of its absolute fee.
   */
  lemma OnlyReadyPoolsScore(sample: Sample, observedAt: int, previous: Option<real>, config: Config)
    requires sample.tvlUsd > 0.0 && sample.netFee1h >= 0.0
    ensures var profile := BuildProfile(sample, observedAt, previous, config);
            && 0.0 <= profile.score <= LowFeeCap(sample.netFee1h) <= 105.0
            && (!profile.status.Ready? ==> profile.score == 0.0)
            && (profile.status.Ready? <==>
                  sample.tvlUsd >= config.minTvlUsd
                  && (previous.Some? && previous.value > 0.0 ==> sample.tvlUsd > 0.65 * previous.value))
            && (profile.retiredUntil.Some? <==> profile.status.RetiredLiquidityDrain?)
  {
    hide Score, Yield, TvlChange, IsFakeYield;
    var tvl := sample.tvlUsd;
    ScoreIsBounded(Yield(sample.netFee1h, tvl), Yield(sample.netFee30m, tvl),
                   Yield(Greater(0.0, sample.netFee1h - sample.netFee30m), tvl), Yield(PrevHourFee(sample), tvl),
                   Yield(sample.netFee4h, tvl) / 4.0, sample.netFee1h);
    FakeYieldDropped(sample, previous);
    DroppedMeansShare(tvl, previous, 0.35);
    DroppedMeansShare(tvl, previous, 0.5);
  }

  lemma ScoreIsBounded(current: real, recent30m: real, prev30m: real, prevHour: real, continuity: real, netFee1h: real)
    requires netFee1h >= 0.0
    ensures 0.0 <= Score(current, recent30m, prev30m, prevHour, continuity, netFee1h) <= LowFeeCap(netFee1h) <= 105.0
  {
    hide Clamp;
  }

  lemma FakeYieldDropped(sample: Sample, previous: Option<real>)
    ensures IsFakeYield(sample, previous) ==> DroppedBy(TvlChange(sample.tvlUsd, previous), 0.35)
  {
    hide Yield, TvlChange;
  }

  /** A drop by a share, without the division. */
  lemma DroppedMeansShare(tvl: real, previous: Option<real>, share: real)
    ensures DroppedBy(TvlChange(tvl, previous), share) <==>
              previous.Some? && previous.value > 0.0 && tvl <= (1.0 - share) * previous.value
  {
    if previous.Some? && previous.value > 0.0 { DropMeansShare(tvl, previous.value, share); }
  }

  lemma DropMeansShare(tvl: real, previous: real, share: real)
    requires previous > 0.0
    ensures (tvl - previous) / previous <= -share <==> tvl <= (1.0 - share) * previous
  {
    var change := (tvl - previous) / previous;
    assert change * previous == tvl - previous;
    if change <= -share {
      assert change * previous <= (-share) * previous by { MulOrder(change, -share, previous); }
    } else {
      assert change * previous > (-share) * previous by { MulStrict(-share, change, previous); }
    }
  }

  lemma MulOrder(a: real, b: real, c: real)
    requires a <= b && c > 0.0
    ensures a * c <= b * c
  {}

  lemma MulStrict(a: real, b: real, c: real)
    requires a < b && c > 0.0
    ensures a * c < b * c
  {}

  // ---------------------------------------------------------------- store

  datatype SampleRow = SampleRow(pool: string, observedAt: int, tvlUsd: real)

  datatype Retirement = Retirement(reason: string, expiresAt: int)

  /** The three fee-yield tables. */
  datatype Store = Store(samples: seq<SampleRow>, retirements: map<string, Retirement>, profiles: map<string, Profile>)

  /** The newest sample time of a pool. */
  function LatestAt(samples: seq<SampleRow>, pool: string): (latest: Option<int>)
    ensures latest.Some? ==> exists row :: row in samples && row.pool == pool && row.observedAt == latest.value
    ensures forall row :: row in samples && row.pool == pool ==> latest.Some? && row.observedAt <= latest.value
  {
    if samples == [] then None
    else
      var before, last := LatestAt(samples[..|samples| - 1], pool), samples[|samples| - 1];
      assert samples == samples[..|samples| - 1] + [last];
      if last.pool == pool && (before.None? || last.observedAt > before.value) then Some(last.observedAt) else before
  }

  const REFERENCE_FROM_MS := 75 * 60 * 1000
  const REFERENCE_TO_MS := 30 * 60 * 1000

  /** The liquidity of the newest sample between 75 and 30 minutes old. */
  function ReferenceTvl(samples: seq<SampleRow>, pool: string, observedAt: int): Option<real> {
    var inWindow := Filter((row: SampleRow) => row.pool == pool
                           && observedAt - REFERENCE_FROM_MS <= row.observedAt <= observedAt - REFERENCE_TO_MS,
                           samples);
    NewestTvl(inWindow).1
  }

  function NewestTvl(rows: seq<SampleRow>): (int, Option<real>) {
    if rows == [] then (0, None)
    else
      var before, last := NewestTvl(rows[..|rows| - 1]), rows[|rows| - 1];
      if before.1.None? || last.observedAt > before.0 then (last.observedAt, Some(last.tvlUsd)) else before
  }

  predicate IsRetired(store: Store, pool: string, now: int) {
    pool in store.retirements && store.retirements[pool].expiresAt > now
  }

  /** The pool has a sample younger than the interval. */
  predicate IsRecent(store: Store, pool: string, now: int, config: Config) {
    var last := LatestAt(store.samples, pool);
    last.Some? && 0 <= now - last.value < config.sampleIntervalMs
  }

  predicate Inserts(store: Store, sample: Sample, now: int, config: Config) {
    !IsRetired(store, sample.poolAddress, now) && !IsRecent(store, sample.poolAddress, now, config)
  }

  function NewProfile(store: Store, sample: Sample, now: int, config: Config): Profile {
    BuildProfile(sample, now, ReferenceTvl(store.samples, sample.poolAddress, now), config)
  }

  /** INSERT OR REPLACE by pool and time. */
  function WithSample(samples: seq<SampleRow>, row: SampleRow): seq<SampleRow> {
    Filter((other: SampleRow) => !(other.pool == row.pool && other.observedAt == row.observedAt), samples) + [row]
  }

  function RecordOne(store: Store, sample: Sample, now: int, config: Config): Store {
    if !Inserts(store, sample, now, config) then store
    else
      var pool := sample.poolAddress;
      var profile := NewProfile(store, sample, now, config);
      Store(WithSample(store.samples, SampleRow(pool, now, sample.tvlUsd)),
            if profile.retiredUntil.Some?
              then store.retirements[pool := Retirement(profile.reason, profile.retiredUntil.value)]
            else store.retirements,
            store.profiles[pool := profile])
  }

  function FallbackProfile(retirement: Retirement, now: int): Profile {
    Profile(now, RetiredLiquidityDrain, 0.0, if retirement.reason != "" then retirement.reason
            else "pool-fee-yield-retired",
            None, Some(retirement.expiresAt))
  }

  /** The profile a sample reports, if any. */
  function Reported(store: Store, sample: Sample, now: int, config: Config): Option<Profile> {
    var pool := sample.poolAddress;
    if IsRetired(store, pool, now) then
      Some(if pool in store.profiles then store.profiles[pool] else FallbackProfile(store.retirements[pool], now))
    else if IsRecent(store, pool, now, config) then if pool in store.profiles then Some(store.profiles[pool]) else None
    else Some(NewProfile(store, sample, now, config))
  }

  function RecordAll(store: Store, samples: seq<Sample>, now: int, config: Config): Store {
    if samples == [] then store
    else RecordOne(RecordAll(store, samples[..|samples| - 1], now, config), samples[|samples| - 1], now, config)
  }

  /** The profiles a batch reports, a later sample of a pool over an earlier one. */
  function ReportAll(store: Store, samples: seq<Sample>, now: int, config: Config): map<string, Profile> {
    if samples == [] then map[]
    else
      var init, last := samples[..|samples| - 1], samples[|samples| - 1];
      var before := ReportAll(store, init, now, config);
      var profile := Reported(RecordAll(store, init, now, config), last, now, config);
      if profile.Some? then before[last.poolAddress := profile.value] else before
  }

  /** The retention deletes on the three tables. */
  function Retain(store: Store, now: int, config: Config): Store {
    var cutoff := now - config.retentionMs;
    var retirements := map pool | pool in store.retirements
      && store.retirements[pool].expiresAt >= now :: store.retirements[pool];
    Store(Filter((row: SampleRow) => row.observedAt >= cutoff, store.samples), retirements,
          map pool | pool in store.profiles
            && (store.profiles[pool].observedAt >= cutoff || pool in retirements) :: store.profiles[pool])
  }

  function Record(store: Store, samples: seq<Sample>, now: int, config: Config): Store {
    Retain(RecordAll(store, samples, now, config), now, config)
  }

  class FeeYieldStore {
    var store: Store

    constructor ()
      ensures store == EMPTY_STORE
    {
      store := EMPTY_STORE;
    }

    method RecordPoolFeeYieldSamples(samples: seq<Sample>, observedAt: int, config: Config)
      returns (profiles: map<string, Profile>)
      modifies this
      ensures store == Record(old(store), samples, observedAt, config)
      ensures profiles == ReportAll(old(store), samples, observedAt, config)
    {
      hide NewProfile, WithSample, LatestAt;
      profiles := map[];
      var current := store;
      for i := 0 to |samples|
        invariant store == old(store)
        invariant current == RecordAll(store, samples[..i], observedAt, config)
        invariant profiles == ReportAll(store, samples[..i], observedAt, config)
      {
        assert samples[..i + 1][..i] == samples[..i];
        var sample := samples[i];
        var pool := sample.poolAddress;
        if pool in current.retirements && current.retirements[pool].expiresAt > observedAt {
          var profile := if pool in current.profiles then current.profiles[pool]
            else FallbackProfile(current.retirements[pool], observedAt);
          profiles := profiles[pool := profile];
          continue;
        }
        var lastObservedAt := LatestAt(current.samples, pool);
        if lastObservedAt.Some? {
          var ageMs := observedAt - lastObservedAt.value;
          if ageMs >= 0 && ageMs < config.sampleIntervalMs {
            if pool in current.profiles { profiles := profiles[pool := current.profiles[pool]]; }
            continue;
          }
        }
        var profile := NewProfile(current, sample, observedAt, config);
        var retirements := current.retirements;
        if profile.retiredUntil.Some? {
          retirements := retirements[pool := Retirement(profile.reason, profile.retiredUntil.value)];
        }
        current := Store(WithSample(current.samples, SampleRow(pool, observedAt, sample.tvlUsd)), retirements,
                         current.profiles[pool := profile]);
        profiles := profiles[pool := profile];
      }
      assert samples[..|samples|] == samples;
      store := Retain(current, observedAt, config);
    }
  }

  // ---------------------------------------------------------------- retirement is sticky

  /** A pool in retirement has a profile, and it says retired until the very end of the retirement. */
  ghost predicate HasRetiredProfile(store: Store, pool: string) {
    && pool in store.retirements
    && pool in store.profiles
    && store.profiles[pool].status.RetiredLiquidityDrain?
    && store.profiles[pool].retiredUntil == Some(store.retirements[pool].expiresAt)
  }

  ghost predicate RetiredProfileKept(store: Store, clock: int, pool: string) {
    IsRetired(store, pool, clock) ==> HasRetiredProfile(store, pool)
  }

  /** The pool's retirement and profile are the same in both stores. */
  ghost predicate SameRetirement(before: Store, after: Store, pool: string) {
    && pool in before.retirements && pool in after.retirements && after.retirements[pool] == before.retirements[pool]
    && pool in before.profiles && pool in after.profiles && after.profiles[pool] == before.profiles[pool]
  }

  lemma RecordOneKeeps(store: Store, sample: Sample, now: int, config: Config, pool: string)
    requires RetiredProfileKept(store, now, pool)
    ensures RetiredProfileKept(RecordOne(store, sample, now, config), now, pool)
    ensures IsRetired(store, pool, now) ==> SameRetirement(store, RecordOne(store, sample, now, config), pool)
  {
    hide WithSample, IsRecent, ReferenceTvl, Score, IsDrained, IsFakeYield;
  }

  lemma {:induction false} RecordAllKeeps(store: Store, samples: seq<Sample>, now: int, config: Config, pool: string)
    requires RetiredProfileKept(store, now, pool)
    ensures RetiredProfileKept(RecordAll(store, samples, now, config), now, pool)
    ensures IsRetired(store, pool, now) ==> SameRetirement(store, RecordAll(store, samples, now, config), pool)
  {
    hide RecordOne;
    if samples != [] {
      RecordAllKeeps(store, samples[..|samples| - 1], now, config, pool);
      RecordOneKeeps(RecordAll(store, samples[..|samples| - 1], now, config), samples[|samples| - 1], now, config,
                     pool);
    }
  }

  lemma RetainKeeps(store: Store, now: int, config: Config, pool: string)
    requires RetiredProfileKept(store, now, pool)
    ensures RetiredProfileKept(Retain(store, now, config), now, pool)
    ensures IsRetired(store, pool, now) ==> SameRetirement(store, Retain(store, now, config), pool)
  {}

  lemma RecordKeeps(store: Store, samples: seq<Sample>, now: int, config: Config, pool: string)
    requires RetiredProfileKept(store, now, pool)
    ensures RetiredProfileKept(Record(store, samples, now, config), now, pool)
    ensures IsRetired(store, pool, now) ==> SameRetirement(store, Record(store, samples, now, config), pool)
  {
    hide RecordAll, Retain;
    RecordAllKeeps(store, samples, now, config, pool);
    RetainKeeps(RecordAll(store, samples, now, config), now, config, pool);
  }

  /**
   * What a batch does while a pool is retired: it inserts no sample of it, reports the stored retired profile for it,
   * and leaves its retirement and its profile as they are.
   */
  lemma {:induction false} RetiredPoolIsLeftAlone(store: Store, samples: seq<Sample>, now: int, config: Config,
                                                  pool: string)
    requires IsRetired(store, pool, now) && RetiredProfileKept(store, now, pool)
    ensures SameRetirement(store, Record(store, samples, now, config), pool)
    ensures Insertion(pool, now) !in InsertionsOf(store, samples, now, config)
    ensures var report := ReportAll(store, samples, now, config);
            && (pool in report ==> report[pool] == store.profiles[pool])
            && ((exists i :: 0 <= i < |samples| && samples[i].poolAddress == pool) ==> pool in report)
  {
    hide RecordOne, RecordAll, Record, IsRecent, NewProfile;
    RecordKeeps(store, samples, now, config, pool);
    if samples != [] {
      var init := samples[..|samples| - 1];
      RetiredPoolIsLeftAlone(store, init, now, config, pool);
      RecordAllKeeps(store, init, now, config, pool);
      assert forall i :: 0 <= i < |init| ==> init[i] == samples[i];
    }
  }

  // ---------------------------------------------------------------- runs

  datatype Batch = Batch(samples: seq<Sample>, at: int, config: Config)

  const EMPTY_STORE := Store([], map[], map[])

  function Run(store: Store, batches: seq<Batch>): Store {
    if batches == [] then store
    else
      var last := batches[|batches| - 1];
      Record(Run(store, batches[..|batches| - 1]), last.samples, last.at, last.config)
  }

  ghost predicate TimesFrom(batches: seq<Batch>, clock: int) {
    && (forall i :: 0 <= i < |batches| ==> clock <= batches[i].at)
    && forall i, j :: 0 <= i < j < |batches| ==> batches[i].at <= batches[j].at
  }

  function ClockAfter(batches: seq<Batch>, clock: int): int {
    if batches == [] then clock else batches[|batches| - 1].at
  }

  /**
   * Over any run of batches with a clock that does not go back, under any settings, a pool's retirement in force goes
   * on having its retired profile in store.
   */
  lemma {:induction false} RetiredProfilesAreNeverLost(store: Store, batches: seq<Batch>, clock: int, pool: string)
    requires RetiredProfileKept(store, clock, pool) && TimesFrom(batches, clock)
    ensures RetiredProfileKept(Run(store, batches), ClockAfter(batches, clock), pool)
  {
    hide Record;
    if batches != [] {
      var init, last := batches[..|batches| - 1], batches[|batches| - 1];
      RetiredProfilesAreNeverLost(store, init, clock, pool);
      RecordKeeps(Run(store, init), last.samples, last.at, last.config, pool);
    }
  }

  /**
   * So after any run from the empty store a retired pool reports its stored retired profile, never the makeshift one.
   */
  lemma MakeshiftProfileIsNeverReported(batches: seq<Batch>, clock: int, sample: Sample, now: int, config: Config)
    requires TimesFrom(batches, clock) && ClockAfter(batches, clock) <= now
    requires IsRetired(Run(EMPTY_STORE, batches), sample.poolAddress, now)
    ensures var store, pool := Run(EMPTY_STORE, batches), sample.poolAddress;
            && HasRetiredProfile(store, pool)
            && Reported(store, sample, now, config) == Some(store.profiles[pool])
  {
    hide Run;
    RetiredProfilesAreNeverLost(EMPTY_STORE, batches, clock, sample.poolAddress);
  }

  /**
   * Retirement is sticky: until it ends, a pool's retirement and its retired profile stay as they are and no sample of
   * the pool is inserted, whatever batches come and under any settings.
   */
  lemma {:induction false} RetirementIsSticky(store: Store, batches: seq<Batch>, clock: int, pool: string)
    requires RetiredProfileKept(store, clock, pool) && TimesFrom(batches, clock)
    requires IsRetired(store, pool, ClockAfter(batches, clock))
    ensures SameRetirement(store, Run(store, batches), pool) && HasRetiredProfile(Run(store, batches), pool)
    ensures forall i :: 0 <= i < |Insertions(store, batches)| ==> Insertions(store, batches)[i].pool != pool
  {
    hide Record;
    if batches != [] {
      var init, last := batches[..|batches| - 1], batches[|batches| - 1];
      RetirementIsSticky(store, init, clock, pool);
      RetiredPoolIsLeftAlone(Run(store, init), last.samples, last.at, last.config, pool);
      InsertionsAreNow(Run(store, init), last.samples, last.at, last.config);
    }
  }

  // ---------------------------------------------------------------- spacing

  datatype Insertion = Insertion(pool: string, at: int)

  /** The samples a batch inserts, in order. */
  function InsertionsOf(store: Store, samples: seq<Sample>, now: int, config: Config): seq<Insertion> {
    if samples == [] then []
    else
      var init, last := samples[..|samples| - 1], samples[|samples| - 1];
      InsertionsOf(store, init, now, config)
      + if Inserts(RecordAll(store, init, now, config), last, now, config) then [Insertion(last.poolAddress, now)]
        else []
  }

  lemma {:induction false} InsertionsAreNow(store: Store, samples: seq<Sample>, now: int, config: Config)
    ensures forall i :: 0 <= i < |InsertionsOf(store, samples, now, config)| ==>
              InsertionsOf(store, samples, now, config)[i].at == now
              && InsertionsOf(store, samples, now, config)[i] in InsertionsOf(store, samples, now, config)
  {
    hide Inserts;
    if samples != [] { InsertionsAreNow(store, samples[..|samples| - 1], now, config); }
  }

  function Insertions(store: Store, batches: seq<Batch>): seq<Insertion> {
    if batches == [] then []
    else
      var init, last := batches[..|batches| - 1], batches[|batches| - 1];
      Insertions(store, init) + InsertionsOf(Run(store, init), last.samples, last.at, last.config)
  }

  /** Insertions of one pool lie at least the interval apart, in order. */
  ghost predicate Spaced(log: seq<Insertion>, interval: int) {
    forall i, j :: 0 <= i < j < |log| && log[i].pool == log[j].pool ==> log[i].at + interval <= log[j].at
  }

  /**
   * Every insertion is in the table still, or under a sample at least as new, or older than anything retention deletes.
   */
  ghost predicate Remembered(store: Store, log: seq<Insertion>, clock: int, interval: int) {
    forall i :: 0 <= i < |log| ==>
      && log[i].at <= clock
      && (log[i].at + interval <= clock || LatestAt(store.samples, log[i].pool).GetOr(log[i].at - 1) >= log[i].at)
  }

  ghost predicate SamplesUpTo(store: Store, clock: int) {
    forall row :: row in store.samples ==> row.observedAt <= clock
  }

  /** LatestAt is decided by which rows of the pool there are. */
  lemma LatestIs(samples: seq<SampleRow>, pool: string, row: SampleRow)
    requires row in samples && row.pool == pool
    requires forall other :: other in samples && other.pool == pool ==> other.observedAt <= row.observedAt
    ensures LatestAt(samples, pool) == Some(row.observedAt)
  {
    hide LatestAt;
  }

  lemma LatestOfInsert(samples: seq<SampleRow>, row: SampleRow, pool: string)
    requires forall other :: other in samples ==> other.observedAt <= row.observedAt
    ensures LatestAt(WithSample(samples, row), pool) == if pool == row.pool then Some(row.observedAt)
            else LatestAt(samples, pool)
  {
    hide LatestAt;
    var after := WithSample(samples, row);
    assert row in after;
    InsertedRows(samples, row);
    if pool == row.pool {
      LatestIs(after, pool, row);
    } else if LatestAt(samples, pool).Some? {
      var top :| top in samples && top.pool == pool && top.observedAt == LatestAt(samples, pool).value;
      assert top in after;
      LatestIs(after, pool, top);
    }
  }

  lemma InsertOneKeepsSpacing(store: Store, log: seq<Insertion>, sample: Sample, now: int, config: Config)
    requires Spaced(log, config.sampleIntervalMs) && Remembered(store, log, now, config.sampleIntervalMs)
             && SamplesUpTo(store, now)
    ensures var after := RecordOne(store, sample, now, config);
            var more := log + (if Inserts(store, sample, now, config) then [Insertion(sample.poolAddress, now)]
                               else []);
            Spaced(more, config.sampleIntervalMs) && Remembered(after, more, now, config.sampleIntervalMs)
              && SamplesUpTo(after, now)
  {
    hide NewProfile, WithSample, LatestAt, IsRetired;
    if Inserts(store, sample, now, config) {
      var row := SampleRow(sample.poolAddress, now, sample.tvlUsd);
      forall pool ensures LatestAt(WithSample(store.samples, row), pool) == if pool == row.pool then Some(now)
        else LatestAt(store.samples, pool) {
        LatestOfInsert(store.samples, row, pool);
      }
      LatestWithin(store, now, sample.poolAddress);
      InsertedRows(store.samples, row);
    } else {
      assert log + [] == log;
    }
  }

  lemma LatestWithin(store: Store, clock: int, pool: string)
    requires SamplesUpTo(store, clock)
    ensures LatestAt(store.samples, pool).Some? ==> LatestAt(store.samples, pool).value <= clock
  {}

  lemma InsertedRows(samples: seq<SampleRow>, row: SampleRow)
    ensures forall other :: other in WithSample(samples, row) ==> other == row || other in samples
    ensures forall other :: other in samples && other.pool != row.pool ==> other in WithSample(samples, row)
  {}

  lemma {:induction false} BatchKeepsSpacing(store: Store, log: seq<Insertion>, samples: seq<Sample>, now: int,
                                             config: Config)
    requires Spaced(log, config.sampleIntervalMs) && Remembered(store, log, now, config.sampleIntervalMs)
             && SamplesUpTo(store, now)
    ensures var after, more := RecordAll(store, samples, now, config), log + InsertionsOf(store, samples, now, config);
            Spaced(more, config.sampleIntervalMs) && Remembered(after, more, now, config.sampleIntervalMs)
              && SamplesUpTo(after, now)
  {
    hide RecordOne, Spaced, Remembered, SamplesUpTo, Inserts;
    if samples == [] {
      assert log + [] == log;
    } else {
      var init, last := samples[..|samples| - 1], samples[|samples| - 1];
      BatchKeepsSpacing(store, log, init, now, config);
      var before := log + InsertionsOf(store, init, now, config);
      InsertOneKeepsSpacing(RecordAll(store, init, now, config), before, last, now, config);
      var added := if Inserts(RecordAll(store, init, now, config), last, now, config)
        then [Insertion(last.poolAddress, now)] else [];
      assert before + added == log + (InsertionsOf(store, init, now, config) + added);
    }
  }

  lemma RetainRemembers(store: Store, log: seq<Insertion>, now: int, config: Config)
    requires Remembered(store, log, now, config.sampleIntervalMs) && SamplesUpTo(store, now)
    requires config.retentionMs + 1 >= config.sampleIntervalMs
    ensures Remembered(Retain(store, now, config), log, now, config.sampleIntervalMs)
            && SamplesUpTo(Retain(store, now, config), now)
  {
    var after := Retain(store, now, config);
    forall i | 0 <= i < |log|
      ensures log[i].at + config.sampleIntervalMs <= now
              || LatestAt(after.samples, log[i].pool).GetOr(log[i].at - 1) >= log[i].at
    {
      var latest := LatestAt(store.samples, log[i].pool);
      if log[i].at + config.sampleIntervalMs > now {
        var row :| row in store.samples && row.pool == log[i].pool && row.observedAt == latest.value;
        assert row in after.samples;
      }
    }
  }

  ghost predicate Under(batches: seq<Batch>, config: Config) {
    forall i :: 0 <= i < |batches| ==> batches[i].config == config
  }

  /**
   * Over any run under one configuration and a clock that does not go back, retention that long keeps samples spaced.
   */
  lemma {:induction false} SamplesAreSpaced(batches: seq<Batch>, clock: int, config: Config)
    requires TimesFrom(batches, clock) && Under(batches, config) && config.retentionMs + 1 >= config.sampleIntervalMs
    ensures var store, log := Run(EMPTY_STORE, batches), Insertions(EMPTY_STORE, batches);
            && Spaced(log, config.sampleIntervalMs)
            && Remembered(store, log, ClockAfter(batches, clock), config.sampleIntervalMs)
            && SamplesUpTo(store, ClockAfter(batches, clock))
  {
    hide RecordAll, InsertionsOf, Spaced, Retain;
    if batches == [] {
      assert Spaced([], config.sampleIntervalMs) by { NothingSpaced(config.sampleIntervalMs); }
    } else {
      var init, last := batches[..|batches| - 1], batches[|batches| - 1];
      SamplesAreSpaced(init, clock, config);
      var before, log := Run(EMPTY_STORE, init), Insertions(EMPTY_STORE, init);
      assert ClockAfter(init, clock) <= last.at;
      BatchKeepsSpacing(before, log, last.samples, last.at, config);
      RetainRemembers(RecordAll(before, last.samples, last.at, config),
                      log + InsertionsOf(before, last.samples, last.at, config), last.at, config);
    }
  }

  lemma NothingSpaced(interval: int)
    ensures Spaced([], interval)
  {}

  /**
   * Retention that lets a sample go within the interval: a pool is sampled, its sample is deleted, it is sampled again.
   */
  lemma ShortRetentionBreaksSpacing(config: Config) returns (batches: seq<Batch>)
    requires config.retentionMs + 1 < config.sampleIntervalMs && config.sampleIntervalMs > 0
    ensures TimesFrom(batches, 0) && Under(batches, config)
    ensures !Spaced(Insertions(EMPTY_STORE, batches), config.sampleIntervalMs)
  {
    hide Record, InsertionsOf, Run, Insertions;
    var sample := Sample("p", Greater(1.0, config.minTvlUsd), 0.0, 0.0, 0.0, 0.0);
    var later := if config.retentionMs + 1 > 0 then config.retentionMs + 1 else 0;
    var b1, b2, b3 := Batch([sample], 0, config), Batch([], later, config), Batch([sample], later, config);
    batches := [b1, b2, b3];
    assert [b1, b2, b3] == [b1, b2] + [b3] && [b1, b2] == [b1] + [b2] && [b1] == [] + [b1];
    NoRun(EMPTY_STORE);
    RunSnoc(EMPTY_STORE, [], b1);
    RunSnoc(EMPTY_STORE, [b1], b2);
    RunSnoc(EMPTY_STORE, [b1, b2], b3);
    var s1, s2 := Run(EMPTY_STORE, [b1]), Run(EMPTY_STORE, [b1, b2]);
    FirstInsert(EMPTY_STORE, sample, 0, config);
    NothingInserted(s1, later, config);
    OldSamplesGo(s1, SampleRow("p", 0, sample.tvlUsd), later, config);
    FirstInsert(s2, sample, later, config);
    var log := Insertions(EMPTY_STORE, batches);
    assert log[0] == Insertion("p", 0) && log[1] == Insertion("p", later);
  }

  ghost predicate AlwaysSpaced(config: Config) {
    forall batches :: TimesFrom(batches, 0) && Under(batches, config) ==>
        Spaced(Insertions(EMPTY_STORE, batches), config.sampleIntervalMs)
  }

  /**
   * The inserted samples of a pool are always at least the interval apart exactly when retention spans the interval.
   */
  lemma SpacingNeedsRetention(config: Config)
    requires config.sampleIntervalMs > 0
    ensures AlwaysSpaced(config) <==> config.retentionMs + 1 >= config.sampleIntervalMs
  {
    hide Spaced, Insertions, Run;
    if config.retentionMs + 1 >= config.sampleIntervalMs {
      forall batches | TimesFrom(batches, 0) && Under(batches, config)
        ensures Spaced(Insertions(EMPTY_STORE, batches), config.sampleIntervalMs)
      {
        SamplesAreSpaced(batches, 0, config);
      }
    } else {
      var batches := ShortRetentionBreaksSpacing(config);
    }
  }

  lemma RunSnoc(store: Store, batches: seq<Batch>, last: Batch)
    ensures Run(store, batches + [last]) == Record(Run(store, batches), last.samples, last.at, last.config)
    ensures Insertions(store, batches + [last])
         == Insertions(store, batches) + InsertionsOf(Run(store, batches), last.samples, last.at, last.config)
  {
    hide Record, InsertionsOf;
    assert (batches + [last])[..|batches|] == batches;
  }

  lemma NoRun(store: Store)
    ensures Run(store, []) == store && Insertions(store, []) == []
  {}

  lemma NothingInserted(store: Store, now: int, config: Config)
    ensures InsertionsOf(store, [], now, config) == []
  {}

  lemma FirstInsert(store: Store, sample: Sample, now: int, config: Config)
    requires store.samples == [] && store.retirements == map[] && sample.tvlUsd >= config.minTvlUsd
    ensures InsertionsOf(store, [sample], now, config) == [Insertion(sample.poolAddress, now)]
    ensures var after := Record(store, [sample], now, config);
            && after.retirements == map[]
            && after.samples == if config.retentionMs >= 0 then [SampleRow(sample.poolAddress, now, sample.tvlUsd)]
              else []
  {
    hide Score, IsFakeYield;
    assert [sample][..0] == [];
    assert RecordAll(store, [], now, config) == store;
    assert ReferenceTvl([], sample.poolAddress, now) == None;
    var after := RecordAll(store, [sample], now, config);
    assert after == RecordOne(store, sample, now, config);
    assert after.retirements == map[];
    assert after.samples == [SampleRow(sample.poolAddress, now, sample.tvlUsd)];
  }

  lemma OldSamplesGo(store: Store, row: SampleRow, now: int, config: Config)
    requires store.retirements == map[] && (store.samples == [row] || store.samples == [])
             && row.observedAt < now - config.retentionMs
    ensures Record(store, [], now, config).samples == [] && Record(store, [], now, config).retirements == map[]
  {
    assert RecordAll(store, [], now, config) == store;
    assert [row][1..] == [];
  }
}
