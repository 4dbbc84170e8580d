/**
 * What a reader of the spending store finds, whom evaluateSpendingLimits admits, and what a settlement stores
 * (src/risk/spending-limits.ts), each stated field by field.
 */
module SpendingOutcome {
  import opened Wrappers
  import opened SpendingLimits
  import opened SpendingLedger

  /** On another reset day everything is forgotten; in another hour only the hour's totals are. */
  lemma ReadExactly(state: State, resetHour: int, now: int)
    ensures var read := Read(Some(state), resetHour, now);
            var today := (now - resetHour * 3_600_000) / 86_400_000;
            var sameHour := state.lastHourlyResetAt.None? || state.lastHourlyResetAt.value == now / 3_600_000;
            && read.lastResetDate == today && read.lastHourlyResetAt == Some(now / 3_600_000)
            && (state.lastResetDate != today ==>
                  && read.dailySpendSol == 0.0 && read.orderCount == 0 && read.reservations == []
                  && read.hourlySpendSol == 0.0 && read.hourlyOrderCount == 0)
            && (state.lastResetDate == today ==>
                  && read.dailySpendSol == state.dailySpendSol && read.orderCount == state.orderCount
                  && read.reservations == state.reservations
                  && read.hourlySpendSol == (if sameHour then state.hourlySpendSol else 0.0)
                  && read.hourlyOrderCount == (if sameHour then state.hourlyOrderCount else 0))
  {}

  /** The spending a state counts at `now`, today and in this hour. */
  function TodaysSol(state: State, resetHour: int, now: int): real {
    if state.lastResetDate == (now - resetHour * 3_600_000) / 86_400_000 then state.dailySpendSol else 0.0
  }

  function ThisHoursSol(state: State, resetHour: int, now: int): real {
    if state.lastResetDate != (now - resetHour * 3_600_000) / 86_400_000 then 0.0
    else if state.lastHourlyResetAt.Some? && state.lastHourlyResetAt.value != now / 3_600_000 then 0.0
    else state.hourlySpendSol
  }

  /** A request is admitted exactly within all three limits, each limit itself included; the order of the refusals. */
  lemma AdmittedExactly(config: Config, state: State, sol: real, now: int)
    ensures var verdict := Evaluate(config, state, sol, now);
            var reset := config.dailySpendResetHour;
            var single := sol <= config.maxSingleOrderSol;
            var hourly := config.maxHourlySpendSol.Some? ==>
                            ThisHoursSol(state, reset, now) + sol <= config.maxHourlySpendSol.value;
            var daily := TodaysSol(state, reset, now) + sol <= config.maxDailySpendSol;
            && (verdict == Allowed <==> single && hourly && daily)
            && (verdict == SingleOrderExceeded <==> !single)
            && (verdict == HourlyExceeded <==> single && !hourly)
            && (verdict == DailyExceeded <==> single && hourly && !daily)
  {
    ReadExactly(state, config.dailySpendResetHour, now);
  }

  // ---------------------------------------------------------------- single orders

  predicate OrderWithin(reservation: Reservation, limit: real) {
    reservation.requestedSol <= limit && (reservation.settledSol.Some? ==> reservation.settledSol.value <= limit)
  }

  /** No spend on the books, direct, reserved or settled, is above the limit. */
  ghost predicate OrdersWithin(ledger: Ledger, limit: real) {
    && (forall i :: 0 <= i < |ledger.spends| ==> ledger.spends[i].sol <= limit)
    && (ledger.stored.Some? ==>
          forall i :: 0 <= i < |ledger.stored.value.reservations| ==>
            OrderWithin(ledger.stored.value.reservations[i], limit))
  }

  lemma ReadKeepsOrders(ledger: Ledger, resetHour: int, limit: real, now: int)
    requires OrdersWithin(ledger, limit)
    ensures forall i :: 0 <= i < |Read(ledger.stored, resetHour, now).reservations| ==>
              OrderWithin(Read(ledger.stored, resetHour, now).reservations[i], limit)
  {
    hide DayOf, HourOf;
  }

  lemma GuardedKeepsOrders(ledger: Ledger, config: Config, a: Action)
    requires OrdersWithin(ledger, config.maxSingleOrderSol) && Guarded(ledger, config, a)
    ensures OrdersWithin(Perform(ledger, config.dailySpendResetHour, a), config.maxSingleOrderSol)
  {
    hide DayOf, HourOf, Read, SchemaValid, CountsTowardDay, CountsTowardHour, NormalizeAndReset;
    ReadKeepsOrders(ledger, config.dailySpendResetHour, config.maxSingleOrderSol, a.t);
  }

  /**
   * Over any guarded run from an empty store no order on the books exceeds the single-order limit: no direct spend, no
   * reservation as requested, none as settled.
   */
  lemma {:induction false} SingleOrdersHold(config: Config, start: int, actions: seq<Action>)
    requires GuardedRun(NewLedger(start), config, actions)
    ensures OrdersWithin(Run(NewLedger(start), config.dailySpendResetHour, actions), config.maxSingleOrderSol)
    decreases |actions|
  {
    hide Perform, Guarded, OrdersWithin;
    if actions == [] {
      NewKeepsOrders(config, start);
    } else {
      var init := actions[..|actions| - 1];
      SingleOrdersHold(config, start, init);
      GuardedKeepsOrders(Run(NewLedger(start), config.dailySpendResetHour, init), config, actions[|actions| - 1]);
    }
  }

  lemma NewKeepsOrders(config: Config, start: int)
    ensures OrdersWithin(NewLedger(start), config.maxSingleOrderSol)
  {}

  // ---------------------------------------------------------------- what is stored

  /** A state is stored exactly when no total, count or amount in it is negative and every reservation has a key. */
  lemma StoredExactly(updated: State)
    ensures Write(updated) == Written(updated) || Write(updated) == Thrown
    ensures Write(updated) == Thrown <==>
              || updated.dailySpendSol < 0.0 || updated.hourlySpendSol < 0.0
              || updated.orderCount < 0 || updated.hourlyOrderCount < 0
              || exists reservation :: reservation in updated.reservations
                   && (reservation.idempotencyKey == "" || reservation.requestedSol < 0.0
                       || (reservation.settledSol.Some? && reservation.settledSol.value < 0.0))
  {
    forall i | 0 <= i < |updated.reservations| && !ReservationValid(updated.reservations[i])
      ensures updated.reservations[i] in updated.reservations
    {}
  }

  /** The first reservation of a key. */
  predicate IsFirstOf(reservations: seq<Reservation>, key: string, k: nat) {
    k < |reservations| && reservations[k].idempotencyKey == key
    && forall i :: 0 <= i < k ==> reservations[i].idempotencyKey != key
  }

  /** When the reservation was made, in the reset day and the hour of `now`. */
  predicate CountsToday(reservation: Reservation, resetHour: int, now: int) {
    var made := if reservation.reservedAt.Some? then reservation.reservedAt.value else reservation.updatedAt;
    (made - resetHour * 3_600_000) / 86_400_000 == (now - resetHour * 3_600_000) / 86_400_000
  }

  predicate CountsThisHour(reservation: Reservation, now: int) {
    var made := if reservation.reservedAt.Some? then reservation.reservedAt.value else reservation.updatedAt;
    made / 3_600_000 == now / 3_600_000
  }

  /** A total moves by the amount where it counts, and stops at 0. */
  predicate Moves(after: real, before: real, amount: real, counts: bool) {
    after == if !counts then before else if before + amount >= 0.0 then before + amount else 0.0
  }

  predicate CountsDown(after: int, before: int, counts: bool) {
    after == if !counts then before else if before >= 1 then before - 1 else 0
  }

  lemma BucketsExactly(reservation: Reservation, stored: Option<State>, resetHour: int, now: int)
    ensures var read := Read(stored, resetHour, now);
            && (CountsTowardDay(reservation, read, resetHour) <==> CountsToday(reservation, resetHour, now))
            && (CountsTowardHour(reservation, read) <==> CountsThisHour(reservation, now))
  {
    ReadIsCurrent(stored, resetHour, now);
    hide Read;
  }

  /**
   * A release is a no-op exactly for a settled or an unexpected reservation; otherwise it takes the first one of its
   * key away and lowers the totals and counts of the buckets it was made in, each down to 0 at most.
   */
  lemma ReleaseExactly(stored: Option<State>, resetHour: int, key: string, expected: Option<real>, now: int, k: nat)
    requires IsFirstOf(Read(stored, resetHour, now).reservations, key, k)
    ensures var outcome := ReleaseSpend(stored, resetHour, key, expected, now);
            var before := Read(stored, resetHour, now);
            var found := before.reservations[k];
            && (outcome.Unwritten? <==>
                  found.status == Settled || (expected.Some? && expected.value != found.requestedSol))
            && (outcome.Written? ==>
                  var day, hour := CountsToday(found, resetHour, now), CountsThisHour(found, now);
                  && outcome.updated.reservations == before.reservations[..k] + before.reservations[k + 1..]
                  && Moves(outcome.updated.dailySpendSol, before.dailySpendSol, -found.requestedSol, day)
                  && Moves(outcome.updated.hourlySpendSol, before.hourlySpendSol, -found.requestedSol, hour)
                  && CountsDown(outcome.updated.orderCount, before.orderCount, day)
                  && CountsDown(outcome.updated.hourlyOrderCount, before.hourlyOrderCount, hour))
  {
    BucketsExactly(Read(stored, resetHour, now).reservations[k], stored, resetHour, now);
    hide DayOf, HourOf, Read, SchemaValid, CountsTowardDay, CountsTowardHour, CountsToday, CountsThisHour;
  }

  /**
   * A settlement that stores anything puts its amount into the reservation of its key, keeps when that was reserved,
   * leaves every other reservation as it is, and moves the totals by the difference to what was booked.
   */
  lemma SettlementExactly(stored: Option<State>, resetHour: int, key: string, actual: Amount, now: int, k: nat)
    requires IsFirstOf(Read(stored, resetHour, now).reservations, key, k)
    requires SettleSpend(stored, resetHour, key, actual, now).Written?
    ensures var before := Read(stored, resetHour, now).reservations;
            var after := SettleSpend(stored, resetHour, key, actual, now).updated.reservations;
            && actual.Finite? && actual.sol > 0.0 && |after| == |before|
            && (forall i :: 0 <= i < |before| && i != k ==> after[i] == before[i])
            && after[k] == Reservation(key, before[k].requestedSol, Some(actual.sol), Settled,
                 Some(if before[k].reservedAt.Some? then before[k].reservedAt.value else before[k].updatedAt), now)
    ensures var before, after := Read(stored, resetHour, now), SettleSpend(stored, resetHour, key, actual, now).updated;
            var found := before.reservations[k];
            var booked := if found.status == Settled && found.settledSol.Some? then found.settledSol.value
                          else found.requestedSol;
            && Moves(after.dailySpendSol, before.dailySpendSol, actual.sol - booked,
                     CountsToday(found, resetHour, now))
            && Moves(after.hourlySpendSol, before.hourlySpendSol, actual.sol - booked, CountsThisHour(found, now))
            && after.orderCount == before.orderCount && after.hourlyOrderCount == before.hourlyOrderCount
  {
    BucketsExactly(Read(stored, resetHour, now).reservations[k], stored, resetHour, now);
    hide DayOf, HourOf, Read, SchemaValid, CountsTowardDay, CountsTowardHour, CountsToday, CountsThisHour;
  }

  /** It stores nothing exactly when it is not positive, or already the settled amount (or breaks the schema). */
  lemma SettlementRepeatsExactly(stored: Option<State>, resetHour: int, key: string, actual: Amount, now: int, k: nat)
    requires IsFirstOf(Read(stored, resetHour, now).reservations, key, k)
    ensures var found := Read(stored, resetHour, now).reservations[k];
            SettleSpend(stored, resetHour, key, actual, now).Unwritten? <==>
              || actual.NotFinite? || actual.sol <= 0.0
              || (found.status == Settled && found.settledSol == Some(actual.sol))
  {
    hide DayOf, HourOf, Read, SchemaValid, CountsTowardDay, CountsTowardHour;
  }
}
