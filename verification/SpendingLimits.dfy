/**
 * Spending reservations: src/risk/spending-limits.ts, one clock reading (`now`, in milliseconds) for each operation.
 */
module SpendingLimits {
  import opened Wrappers

  const HOUR_MS := 60 * 60 * 1000
  const DAY_MS := 24 * HOUR_MS

  /** The hour of an ISO timestamp (slice(0, 13)) and the reset day (resetDateStringAt), as bucket numbers. */
  function HourOf(t: int): int { t / HOUR_MS }

  function DayOf(t: int, resetHour: int): int { (t - resetHour * HOUR_MS) / DAY_MS }

  /** A JavaScript number as far as Number.isFinite tells. */
  datatype Amount = Finite(sol: real) | NotFinite

  datatype ReservationStatus = Reserved | Settled

  datatype Reservation = Reservation(
    idempotencyKey: string,
    requestedSol: real,
    settledSol: Option<real>,
    status: ReservationStatus,
    reservedAt: Option<int>,
    updatedAt: int)

  datatype State = State(
    dailySpendSol: real,
    hourlySpendSol: real,
    orderCount: int,
    hourlyOrderCount: int,
    lastHourlyResetAt: Option<int>,
    lastResetDate: int,
    reservations: seq<Reservation>)

  datatype Config = Config(maxSingleOrderSol: real, maxDailySpendSol: real, maxHourlySpendSol: Option<real>,
                           dailySpendResetHour: int)

  datatype Verdict = Allowed | SingleOrderExceeded | HourlyExceeded | DailyExceeded

  function EmptyState(resetHour: int, now: int): State {
    State(0.0, 0.0, 0, 0, Some(HourOf(now)), DayOf(now, resetHour), [])
  }

  function NormalizeState(state: State, now: int): State {
    state.(lastHourlyResetAt := state.lastHourlyResetAt.OrElse(Some(HourOf(now))))
  }

  function EnsureResetIfNewDay(state: State, resetHour: int, now: int): State {
    if state.lastResetDate != DayOf(now, resetHour) then EmptyState(resetHour, now) else NormalizeState(state, now)
  }

  function EnsureResetIfNewHour(state: State, now: int): State {
    var normalized := NormalizeState(state, now);
    if normalized.lastHourlyResetAt != Some(HourOf(now))
    then normalized.(hourlySpendSol := 0.0, hourlyOrderCount := 0, lastHourlyResetAt := Some(HourOf(now)))
    else normalized
  }

  function NormalizeAndReset(state: State, resetHour: int, now: int): State {
    EnsureResetIfNewHour(EnsureResetIfNewDay(state, resetHour, now), now)
  }

  /** store.read(): a missing file reads as the empty state. */
  function Read(stored: Option<State>, resetHour: int, now: int): State {
    match stored
    case None => EmptyState(resetHour, now)
    case Some(state) => NormalizeAndReset(state, resetHour, now)
  }

  function Evaluate(config: Config, state: State, requestedSol: real, now: int): Verdict {
    var current := NormalizeAndReset(state, config.dailySpendResetHour, now);
    if requestedSol > config.maxSingleOrderSol then SingleOrderExceeded
    else if config.maxHourlySpendSol.Some? && current.hourlySpendSol + requestedSol > config.maxHourlySpendSol.value
      then HourlyExceeded
    else if current.dailySpendSol + requestedSol > config.maxDailySpendSol then DailyExceeded
    else Allowed
  }

  /**
   * The constraints of SpendingLimitsStateSchema that a write can violate; a violation throws before anything is
   * stored.
   */
  predicate SchemaValid(state: State) {
    state.dailySpendSol >= 0.0 && state.hourlySpendSol >= 0.0
    && state.orderCount >= 0 && state.hourlyOrderCount >= 0
    && forall i :: 0 <= i < |state.reservations| ==> ReservationValid(state.reservations[i])
  }

  predicate ReservationValid(reservation: Reservation) {
    reservation.idempotencyKey != "" && reservation.requestedSol >= 0.0
    && (reservation.settledSol.Some? ==> reservation.settledSol.value >= 0.0)
  }

  /** An operation throws, returns the state it read without writing, or stores a new state and returns that. */
  datatype Outcome = Thrown | Unwritten(current: State) | Written(updated: State)

  function Write(updated: State): Outcome {
    if SchemaValid(updated) then Written(updated) else Thrown
  }

  function StoredAfter(stored: Option<State>, outcome: Outcome): Option<State> {
    if outcome.Written? then Some(outcome.updated) else stored
  }

  function FloorZero(x: real): real { if x < 0.0 then 0.0 else x }

  function FloorZeroInt(n: int): int { if n < 0 then 0 else n }

  function RecordSpend(stored: Option<State>, resetHour: int, spent: Amount, now: int): Outcome {
    var current := Read(stored, resetHour, now);
    if spent.NotFinite? then Thrown
    else Write(current.(
      dailySpendSol := current.dailySpendSol + spent.sol,
      hourlySpendSol := current.hourlySpendSol + spent.sol,
      orderCount := current.orderCount + 1,
      hourlyOrderCount := current.hourlyOrderCount + 1))
  }

  /** reservations.findIndex(key). */
  function FindKey(reservations: seq<Reservation>, key: string): (index: int)
    ensures -1 <= index < |reservations|
    ensures index >= 0 ==> reservations[index].idempotencyKey == key
    ensures forall i :: 0 <= i < (if index >= 0 then index else |reservations|) ==>
              reservations[i].idempotencyKey != key
  {
    if reservations == [] then -1
    else if reservations[0].idempotencyKey == key then 0
    else
      var rest := FindKey(reservations[1..], key);
      if rest < 0 then -1 else rest + 1
  }

  function Fresh(key: string, requestedSol: real, now: int): Reservation {
    Reservation(key, requestedSol, None, Reserved, Some(now), now)
  }

  function ReserveSpend(stored: Option<State>, resetHour: int, key: string, requested: Amount, now: int): Outcome {
    if requested.NotFinite? || requested.sol < 0.0 then Thrown
    else
      var current := Read(stored, resetHour, now);
      var index := FindKey(current.reservations, key);
      if index >= 0 then
        if current.reservations[index].requestedSol != requested.sol then Thrown else Unwritten(current)
      else Write(current.(
        dailySpendSol := current.dailySpendSol + requested.sol,
        hourlySpendSol := current.hourlySpendSol + requested.sol,
        orderCount := current.orderCount + 1,
        hourlyOrderCount := current.hourlyOrderCount + 1,
        reservations := current.reservations + [Fresh(key, requested.sol, now)]))
  }

  function ReservedInstant(reservation: Reservation): int {
    reservation.reservedAt.GetOr(reservation.updatedAt)
  }

  predicate CountsTowardDay(reservation: Reservation, state: State, resetHour: int) {
    DayOf(ReservedInstant(reservation), resetHour) == state.lastResetDate
  }

  predicate CountsTowardHour(reservation: Reservation, state: State) {
    Some(HourOf(ReservedInstant(reservation))) == state.lastHourlyResetAt
  }

  function ReleaseSpend(stored: Option<State>, resetHour: int, key: string, expected: Option<real>, now: int): Outcome {
    var current := Read(stored, resetHour, now);
    var index := FindKey(current.reservations, key);
    if index < 0 || current.reservations[index].status == Settled
       || (expected.Some? && current.reservations[index].requestedSol != expected.value)
    then Unwritten(current)
    else
      var existing := current.reservations[index];
      var day, hour := CountsTowardDay(existing, current, resetHour), CountsTowardHour(existing, current);
      Write(current.(
        dailySpendSol := if day then FloorZero(current.dailySpendSol - existing.requestedSol)
          else current.dailySpendSol,
        hourlySpendSol := if hour then FloorZero(current.hourlySpendSol - existing.requestedSol)
          else current.hourlySpendSol,
        orderCount := if day then FloorZeroInt(current.orderCount - 1) else current.orderCount,
        hourlyOrderCount := if hour then FloorZeroInt(current.hourlyOrderCount - 1) else current.hourlyOrderCount,
        reservations := current.reservations[..index] + current.reservations[index + 1..]))
  }

  /** The amount a reservation stands for in the totals. */
  function BookedSol(reservation: Reservation): real {
    if reservation.status == Settled && reservation.settledSol.Some? then reservation.settledSol.value
      else reservation.requestedSol
  }

  function SettledWith(existing: Reservation, actualSol: real, now: int): Reservation {
    existing.(reservedAt := Some(ReservedInstant(existing)), settledSol := Some(actualSol), status := Settled,
              updatedAt := now)
  }

  function SettleSpend(stored: Option<State>, resetHour: int, key: string, actual: Amount, now: int): Outcome {
    var current := Read(stored, resetHour, now);
    var index := FindKey(current.reservations, key);
    if index < 0 || actual.NotFinite? || actual.sol <= 0.0 then Unwritten(current)
    else
      var existing := current.reservations[index];
      if existing.status == Settled && existing.settledSol == Some(actual.sol) then Unwritten(current)
      else
        var deltaSol := actual.sol - BookedSol(existing);
        var day, hour := CountsTowardDay(existing, current, resetHour), CountsTowardHour(existing, current);
        Write(current.(
          dailySpendSol := if day then FloorZero(current.dailySpendSol + deltaSol) else current.dailySpendSol,
          hourlySpendSol := if hour then FloorZero(current.hourlySpendSol + deltaSol) else current.hourlySpendSol,
          reservations := current.reservations[index := SettledWith(existing, actual.sol, now)]))
  }

  /** The store over its file; each method reads, changes and rewrites the stored state. */
  class SpendingLimitsStore {
    const resetHour: int
    var stored: Option<State>

    constructor (resetHour: int)
      ensures this.resetHour == resetHour && stored == None
    {
      this.resetHour := resetHour;
      stored := None;
    }

    method Record(spent: Amount, now: int) returns (outcome: Outcome)
      modifies this
      ensures outcome == RecordSpend(old(stored), resetHour, spent, now)
      ensures stored == StoredAfter(old(stored), outcome)
    {
      if spent.NotFinite? { return Thrown; }
      var current := Read(stored, resetHour, now);
      var updated := current.(dailySpendSol := current.dailySpendSol + spent.sol,
                              hourlySpendSol := current.hourlySpendSol + spent.sol);
      updated := updated.(orderCount := current.orderCount + 1, hourlyOrderCount := current.hourlyOrderCount + 1);
      outcome := Store(updated);
    }

    method Reserve(key: string, requested: Amount, now: int) returns (outcome: Outcome)
      modifies this
      ensures outcome == ReserveSpend(old(stored), resetHour, key, requested, now)
      ensures stored == StoredAfter(old(stored), outcome)
    {
      if requested.NotFinite? || requested.sol < 0.0 { return Thrown; }
      var current := Read(stored, resetHour, now);
      var index := IndexOf(current.reservations, key);
      if index >= 0 {
        if current.reservations[index].requestedSol != requested.sol { return Thrown; }
        return Unwritten(current);
      }
      var updated := current.(dailySpendSol := current.dailySpendSol + requested.sol,
                              hourlySpendSol := current.hourlySpendSol + requested.sol);
      updated := updated.(orderCount := current.orderCount + 1, hourlyOrderCount := current.hourlyOrderCount + 1);
      updated := updated.(reservations := current.reservations + [Fresh(key, requested.sol, now)]);
      outcome := Store(updated);
    }

    method Release(key: string, expected: Option<real>, now: int) returns (outcome: Outcome)
      modifies this
      ensures outcome == ReleaseSpend(old(stored), resetHour, key, expected, now)
      ensures stored == StoredAfter(old(stored), outcome)
    {
      var current := Read(stored, resetHour, now);
      var index := IndexOf(current.reservations, key);
      if index < 0 || current.reservations[index].status == Settled
         || (expected.Some? && current.reservations[index].requestedSol != expected.value) {
        return Unwritten(current);
      }
      var existing := current.reservations[index];
      var updated := current.(reservations := current.reservations[..index] + current.reservations[index + 1..]);
      if CountsTowardDay(existing, current, resetHour) {
        updated := updated.(dailySpendSol := FloorZero(current.dailySpendSol - existing.requestedSol),
                            orderCount := FloorZeroInt(current.orderCount - 1));
      }
      if CountsTowardHour(existing, current) {
        updated := updated.(hourlySpendSol := FloorZero(current.hourlySpendSol - existing.requestedSol),
                            hourlyOrderCount := FloorZeroInt(current.hourlyOrderCount - 1));
      }
      outcome := Store(updated);
    }

    method Settle(key: string, actual: Amount, now: int) returns (outcome: Outcome)
      modifies this
      ensures outcome == SettleSpend(old(stored), resetHour, key, actual, now)
      ensures stored == StoredAfter(old(stored), outcome)
    {
      var current := Read(stored, resetHour, now);
      var index := IndexOf(current.reservations, key);
      if index < 0 || actual.NotFinite? || actual.sol <= 0.0 { return Unwritten(current); }
      var existing := current.reservations[index];
      if existing.status == Settled && existing.settledSol == Some(actual.sol) { return Unwritten(current); }
      var deltaSol := actual.sol - BookedSol(existing);
      var updated := current.(reservations := current.reservations[index := SettledWith(existing, actual.sol, now)]);
      if CountsTowardDay(existing, current, resetHour) {
        updated := updated.(dailySpendSol := FloorZero(current.dailySpendSol + deltaSol));
      }
      if CountsTowardHour(existing, current) {
        updated := updated.(hourlySpendSol := FloorZero(current.hourlySpendSol + deltaSol));
      }
      outcome := Store(updated);
    }

    method Reset(now: int) returns (outcome: Outcome)
      modifies this
      ensures outcome == Written(EmptyState(resetHour, now)) && stored == Some(EmptyState(resetHour, now))
    {
      outcome := Store(EmptyState(resetHour, now));
    }

    /** writeJsonAtomically(path, schema.parse(updated)). */
    method Store(updated: State) returns (outcome: Outcome)
      modifies this
      ensures outcome == Write(updated) && stored == StoredAfter(old(stored), outcome)
    {
      if !SchemaValid(updated) { return Thrown; }
      stored := Some(updated);
      outcome := Written(updated);
    }

    static method IndexOf(reservations: seq<Reservation>, key: string) returns (index: int)
      ensures index == FindKey(reservations, key)
    {
      index := 0;
      while index < |reservations|
        invariant 0 <= index <= |reservations|
        invariant forall i :: 0 <= i < index ==> reservations[i].idempotencyKey != key
      {
        if reservations[index].idempotencyKey == key { return; }
        index := index + 1;
      }
      index := -1;
    }
  }
}
