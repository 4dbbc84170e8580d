/** The running totals of the spending store against the history of spends and the list of reservations. */
module SpendingLedger {
  import opened Wrappers
  import opened SpendingLimits

  /** A direct spend that was stored. */
  datatype Spend = Spend(at: int, sol: real)

  /** The reset day or the clock hour that a total covers. */
  datatype Window = Day(day: int, resetHour: int) | Hour(hour: int)

  predicate Covers(window: Window, t: int) {
    match window
    case Day(day, resetHour) => DayOf(t, resetHour) == day
    case Hour(hour) => HourOf(t) == hour
  }

  /** Amount and number of things that count toward a window. */
  datatype Tally = Tally(sol: real, count: int)

  function Plus(a: Tally, b: Tally): Tally { Tally(a.sol + b.sol, a.count + b.count) }

  function SpendShare(spend: Spend, window: Window): Tally {
    if Covers(window, spend.at) then Tally(spend.sol, 1) else Tally(0.0, 0)
  }

  function BookedShare(reservation: Reservation, window: Window): Tally {
    if Covers(window, ReservedInstant(reservation)) then Tally(BookedSol(reservation), 1) else Tally(0.0, 0)
  }

  function Spent(spends: seq<Spend>, window: Window): Tally {
    if spends == [] then Tally(0.0, 0)
    else Plus(Spent(spends[..|spends| - 1], window), SpendShare(spends[|spends| - 1], window))
  }

  function Booked(reservations: seq<Reservation>, window: Window): Tally {
    if reservations == [] then Tally(0.0, 0)
    else Plus(Booked(reservations[..|reservations| - 1], window), BookedShare(reservations[|reservations| - 1], window))
  }

  /** What a total should be: recorded spends plus booked reservations of the window. */
  function Due(spends: seq<Spend>, reservations: seq<Reservation>, window: Window): Tally {
    var spent, booked := Spent(spends, window), Booked(reservations, window);
    Tally(spent.sol + booked.sol, spent.count + booked.count)
  }

  /** The state's four totals are what the history and the reservation list make due at time `now`. */
  ghost predicate TotalsAgree(state: State, spends: seq<Spend>, resetHour: int, now: int) {
    && state.lastResetDate == DayOf(now, resetHour)
    && state.lastHourlyResetAt == Some(HourOf(now))
    && Tally(state.dailySpendSol, state.orderCount)
      == Due(spends, state.reservations, Day(DayOf(now, resetHour), resetHour))
    && Tally(state.hourlySpendSol, state.hourlyOrderCount) == Due(spends, state.reservations, Hour(HourOf(now)))
  }

  /** `written` is the time of the last write: everything in the state is from that hour's day, and not later. */
  ghost predicate Coherent(state: State, spends: seq<Spend>, resetHour: int, written: int) {
    && TotalsAgree(state, spends, resetHour, written)
    && (forall i :: 0 <= i < |state.reservations| ==>
        ReservationCoherent(state.reservations[i], state, resetHour, written))
    && SpendsCoherent(spends, written)
    && state.dailySpendSol >= 0.0 && state.hourlySpendSol >= 0.0
  }

  ghost predicate SpendsCoherent(spends: seq<Spend>, written: int) {
    forall spend :: spend in spends ==> HourOf(spend.at) <= HourOf(written)
  }

  ghost predicate ReservationCoherent(reservation: Reservation, state: State, resetHour: int, written: int) {
    && ReservationValid(reservation)
    && reservation.reservedAt.Some?
    && DayOf(ReservedInstant(reservation), resetHour) == state.lastResetDate
    && HourOf(ReservedInstant(reservation)) <= HourOf(written)
  }

  // ---------------------------------------------------------------- buckets

  /** Reset hours are whole hours, so a clock hour lies in one reset day. */
  lemma DayOfHour(t: int, resetHour: int)
    ensures DayOf(t, resetHour) == (HourOf(t) - resetHour) / 24
  {
    var h := t / HOUR_MS;
    assert t == h * HOUR_MS + t % HOUR_MS;
    var shifted := t - resetHour * HOUR_MS;
    assert shifted == (h - resetHour) * HOUR_MS + t % HOUR_MS;
  }

  lemma LaterHour(t: int, u: int)
    requires t <= u
    ensures HourOf(t) <= HourOf(u)
  {}

  lemma LaterDay(t: int, u: int, resetHour: int)
    requires HourOf(t) <= HourOf(u)
    ensures DayOf(t, resetHour) <= DayOf(u, resetHour)
  {
    DayOfHour(t, resetHour);
    DayOfHour(u, resetHour);
  }

  lemma LaterDayLaterHour(t: int, u: int, resetHour: int)
    requires DayOf(t, resetHour) < DayOf(u, resetHour)
    ensures HourOf(t) < HourOf(u)
  {
    if HourOf(u) <= HourOf(t) {
      LaterDay(u, t, resetHour);
    }
  }

  // ---------------------------------------------------------------- sums

  lemma {:induction false} NothingSpent(spends: seq<Spend>, window: Window)
    requires forall spend :: spend in spends ==> !Covers(window, spend.at)
    ensures Spent(spends, window) == Tally(0.0, 0)
  {
    if spends != [] { NothingSpent(spends[..|spends| - 1], window); }
  }

  lemma {:induction false} NothingBooked(reservations: seq<Reservation>, window: Window)
    requires forall i :: 0 <= i < |reservations| ==> !Covers(window, ReservedInstant(reservations[i]))
    ensures Booked(reservations, window) == Tally(0.0, 0)
  {
    if reservations != [] { NothingBooked(reservations[..|reservations| - 1], window); }
  }

  lemma {:induction false} SpentNonnegative(spends: seq<Spend>, window: Window)
    requires forall spend :: spend in spends ==> spend.sol >= 0.0
    ensures Spent(spends, window).sol >= 0.0 && Spent(spends, window).count >= 0
  {
    if spends != [] { SpentNonnegative(spends[..|spends| - 1], window); }
  }

  lemma {:induction false} BookedNonnegative(reservations: seq<Reservation>, window: Window)
    requires forall i :: 0 <= i < |reservations| ==> ReservationValid(reservations[i])
    ensures Booked(reservations, window).sol >= 0.0 && Booked(reservations, window).count >= 0
  {
    if reservations != [] { BookedNonnegative(reservations[..|reservations| - 1], window); }
  }

  lemma {:induction false} CountsNonnegative(spends: seq<Spend>, reservations: seq<Reservation>, window: Window)
    ensures Spent(spends, window).count >= 0 && Booked(reservations, window).count >= 0
    decreases |spends| + |reservations|
  {
    if spends != [] { CountsNonnegative(spends[..|spends| - 1], [], window); }
    if reservations != [] { CountsNonnegative([], reservations[..|reservations| - 1], window); }
  }

  lemma {:induction false} BookedConcat(a: seq<Reservation>, b: seq<Reservation>, window: Window)
    ensures Booked(a + b, window) == Plus(Booked(a, window), Booked(b, window))
  {
    hide BookedShare;
    if b == [] {
      assert a + b == a;
    } else {
      var init, last := b[..|b| - 1], b[|b| - 1];
      BookedConcat(a, init, window);
      var whole := a + b;
      assert whole[..|whole| - 1] == a + init && whole[|whole| - 1] == last;
    }
  }

  lemma BookedSingle(reservation: Reservation, window: Window)
    ensures Booked([reservation], window) == BookedShare(reservation, window)
  {
    assert [reservation][..0] == [];
  }

  /** One reservation's share can be taken out or replaced. */
  lemma BookedSplit(reservations: seq<Reservation>, index: nat, replacement: Reservation, window: Window)
    requires index < |reservations|
    ensures var others := reservations[..index] + reservations[index + 1..];
            && Booked(reservations, window) == Plus(Booked(others, window), BookedShare(reservations[index], window))
            && Booked(reservations[index := replacement], window)
              == Plus(Booked(others, window), BookedShare(replacement, window))
  {
    hide Booked, BookedShare;
    var before, after := reservations[..index], reservations[index + 1..];
    BookedConcat(before, after, window);
    BookedConcat(before, [reservations[index]], window);
    BookedConcat(before + [reservations[index]], after, window);
    assert reservations == before + [reservations[index]] + after;
    BookedConcat(before, [replacement], window);
    BookedConcat(before + [replacement], after, window);
    assert reservations[index := replacement] == before + [replacement] + after;
    BookedSingle(reservations[index], window);
    BookedSingle(replacement, window);
  }

  // ---------------------------------------------------------------- reading

  lemma OldSpendsDoNotCount(spends: seq<Spend>, resetHour: int, written: int, now: int)
    requires SpendsCoherent(spends, written)
    requires DayOf(written, resetHour) < DayOf(now, resetHour)
    ensures Spent(spends, Day(DayOf(now, resetHour), resetHour)) == Tally(0.0, 0)
    ensures Spent(spends, Hour(HourOf(now))) == Tally(0.0, 0)
    ensures HourOf(written) < HourOf(now)
  {
    hide DayOf, HourOf, Spent;
    var day, hour := Day(DayOf(now, resetHour), resetHour), Hour(HourOf(now));
    LaterDayLaterHour(written, now, resetHour);
    forall spend | spend in spends ensures !Covers(day, spend.at) && !Covers(hour, spend.at) {
      LaterDay(spend.at, written, resetHour);
    }
    NothingSpent(spends, day);
    NothingSpent(spends, hour);
  }

  lemma EmptyIsCoherent(spends: seq<Spend>, resetHour: int, now: int)
    requires Spent(spends, Day(DayOf(now, resetHour), resetHour)) == Tally(0.0, 0)
             && Spent(spends, Hour(HourOf(now))) == Tally(0.0, 0)
    requires SpendsCoherent(spends, now)
    ensures Coherent(EmptyState(resetHour, now), spends, resetHour, now)
  {
    hide SpendsCoherent, Spent, Booked, DayOf, HourOf;
    NothingBooked([], Day(DayOf(now, resetHour), resetHour));
    NothingBooked([], Hour(HourOf(now)));
  }

  lemma NewDayAgrees(state: State, spends: seq<Spend>, resetHour: int, written: int, now: int)
    requires Coherent(state, spends, resetHour, written) && DayOf(written, resetHour) < DayOf(now, resetHour)
    ensures Coherent(EmptyState(resetHour, now), spends, resetHour, now)
  {
    hide DayOf, HourOf, Spent, TotalsAgree, ReservationCoherent;
    OldSpendsDoNotCount(spends, resetHour, written, now);
    assert SpendsCoherent(spends, now);
    EmptyIsCoherent(spends, resetHour, now);
  }

  lemma NewHourAgrees(state: State, spends: seq<Spend>, resetHour: int, written: int, now: int)
    requires Coherent(state, spends, resetHour, written) && written <= now
    requires DayOf(written, resetHour) == DayOf(now, resetHour) && HourOf(written) < HourOf(now)
    ensures Coherent(state.(hourlySpendSol := 0.0, hourlyOrderCount := 0, lastHourlyResetAt := Some(HourOf(now))),
                     spends, resetHour, now)
  {
    hide DayOf, HourOf, Booked, Spent, BookedShare, SpendShare, ReservationValid;
    var hour := Hour(HourOf(now));
    forall i | 0 <= i < |state.reservations| ensures !Covers(hour, ReservedInstant(state.reservations[i])) {
      assert ReservationCoherent(state.reservations[i], state, resetHour, written);
    }
    var current := state.(hourlySpendSol := 0.0, hourlyOrderCount := 0, lastHourlyResetAt := Some(HourOf(now)));
    forall i | 0 <= i < |current.reservations|
      ensures ReservationCoherent(current.reservations[i], current, resetHour, now) {
      assert ReservationCoherent(state.reservations[i], state, resetHour, written);
    }
    NothingSpent(spends, hour);
    NothingBooked(state.reservations, hour);
  }

  /** Lazy resets give the totals due at the time of reading, however many hours or days have passed. */
  lemma ReadAgrees(state: State, spends: seq<Spend>, resetHour: int, written: int, now: int)
    requires Coherent(state, spends, resetHour, written) && written <= now
    ensures Coherent(NormalizeAndReset(state, resetHour, now), spends, resetHour, now)
  {
    hide DayOf, HourOf, Due, ReservationValid;
    LaterHour(written, now);
    LaterDay(written, now, resetHour);
    if DayOf(written, resetHour) < DayOf(now, resetHour) {
      NewDayAgrees(state, spends, resetHour, written, now);
    } else if HourOf(written) < HourOf(now) {
      NewHourAgrees(state, spends, resetHour, written, now);
    } else {
      assert NormalizeAndReset(state, resetHour, now) == state;
      forall i | 0 <= i < |state.reservations|
        ensures ReservationCoherent(state.reservations[i], state, resetHour, now) {
        assert ReservationCoherent(state.reservations[i], state, resetHour, written);
      }
    }
  }

  lemma CoherentIsValid(state: State, spends: seq<Spend>, resetHour: int, now: int)
    requires Coherent(state, spends, resetHour, now)
    ensures SchemaValid(state)
  {
    forall i | 0 <= i < |state.reservations| ensures ReservationValid(state.reservations[i]) {
      assert ReservationCoherent(state.reservations[i], state, resetHour, now);
    }
    CountsNonnegative(spends, state.reservations, Day(DayOf(now, resetHour), resetHour));
    CountsNonnegative(spends, state.reservations, Hour(HourOf(now)));
  }

  // ---------------------------------------------------------------- one operation on a coherent state

  ghost predicate KeepsCoherence(outcome: Outcome, spends: seq<Spend>, resetHour: int, now: int) {
    outcome.Written? && Coherent(outcome.updated, spends, resetHour, now)
  }

  lemma NowCounts(now: int, resetHour: int)
    ensures Covers(Day(DayOf(now, resetHour), resetHour), now) && Covers(Hour(HourOf(now)), now)
  {}

  lemma SpendAppended(spends: seq<Spend>, spend: Spend, window: Window)
    ensures Spent(spends + [spend], window) == Plus(Spent(spends, window), SpendShare(spend, window))
  {
    assert (spends + [spend])[..|spends|] == spends;
  }

  /** Recording a spend of either sign keeps the totals right, or throws because a total would fall below zero. */
  lemma RecordKeeps(current: State, spends: seq<Spend>, resetHour: int, sol: real, now: int)
    requires Coherent(current, spends, resetHour, now)
    ensures var outcome := Write(current.(
                dailySpendSol := current.dailySpendSol + sol, hourlySpendSol := current.hourlySpendSol + sol,
                orderCount := current.orderCount + 1, hourlyOrderCount := current.hourlyOrderCount + 1));
            && (outcome.Written? <==> current.dailySpendSol + sol >= 0.0 && current.hourlySpendSol + sol >= 0.0)
            && (outcome.Written? ==> KeepsCoherence(outcome, spends + [Spend(now, sol)], resetHour, now))
  {
    hide DayOf, HourOf, Booked, Spent, BookedShare;
    var updated := current.(dailySpendSol := current.dailySpendSol + sol,
                            hourlySpendSol := current.hourlySpendSol + sol,
                            orderCount := current.orderCount + 1, hourlyOrderCount := current.hourlyOrderCount + 1);
    NowCounts(now, resetHour);
    CoherentIsValid(current, spends, resetHour, now);
    SpendAppended(spends, Spend(now, sol), Day(DayOf(now, resetHour), resetHour));
    SpendAppended(spends, Spend(now, sol), Hour(HourOf(now)));
    forall i | 0 <= i < |updated.reservations|
      ensures ReservationCoherent(updated.reservations[i], updated, resetHour, now) {
      assert ReservationCoherent(current.reservations[i], current, resetHour, now);
    }
  }

  lemma ReserveKeeps(current: State, spends: seq<Spend>, resetHour: int, key: string, sol: real, now: int)
    requires Coherent(current, spends, resetHour, now) && sol >= 0.0 && key != ""
    ensures KeepsCoherence(
              Write(current.(dailySpendSol := current.dailySpendSol + sol,
                             hourlySpendSol := current.hourlySpendSol + sol,
                             orderCount := current.orderCount + 1, hourlyOrderCount := current.hourlyOrderCount + 1,
                             reservations := current.reservations + [Fresh(key, sol, now)])),
              spends, resetHour, now)
  {
    hide DayOf, HourOf, Booked, Spent, SpendShare, SchemaValid;
    var updated := current.(dailySpendSol := current.dailySpendSol + sol,
                            hourlySpendSol := current.hourlySpendSol + sol,
                            orderCount := current.orderCount + 1, hourlyOrderCount := current.hourlyOrderCount + 1,
                            reservations := current.reservations + [Fresh(key, sol, now)]);
    var day, hour := Day(DayOf(now, resetHour), resetHour), Hour(HourOf(now));
    NowCounts(now, resetHour);
    BookedConcat(current.reservations, [Fresh(key, sol, now)], day);
    BookedConcat(current.reservations, [Fresh(key, sol, now)], hour);
    BookedSingle(Fresh(key, sol, now), day);
    BookedSingle(Fresh(key, sol, now), hour);
    forall i | 0 <= i < |updated.reservations|
      ensures ReservationCoherent(updated.reservations[i], updated, resetHour, now) {
      if i < |current.reservations| { assert ReservationCoherent(current.reservations[i], current, resetHour, now); }
    }
    CoherentIsValid(updated, spends, resetHour, now);
  }

  ghost function ReleasedState(current: State, resetHour: int, index: nat): State
    requires index < |current.reservations|
  {
    var existing := current.reservations[index];
    var day, hour := CountsTowardDay(existing, current, resetHour), CountsTowardHour(existing, current);
    current.(
      dailySpendSol := if day then FloorZero(current.dailySpendSol - existing.requestedSol) else current.dailySpendSol,
      hourlySpendSol := if hour then FloorZero(current.hourlySpendSol - existing.requestedSol)
        else current.hourlySpendSol,
      orderCount := if day then FloorZeroInt(current.orderCount - 1) else current.orderCount,
      hourlyOrderCount := if hour then FloorZeroInt(current.hourlyOrderCount - 1) else current.hourlyOrderCount,
      reservations := current.reservations[..index] + current.reservations[index + 1..])
  }

  /** A total that the release lowers is smaller than the released amount. */
  predicate ReleaseClamps(current: State, resetHour: int, index: nat)
    requires index < |current.reservations|
  {
    var existing := current.reservations[index];
    || (CountsTowardDay(existing, current, resetHour) && current.dailySpendSol < existing.requestedSol)
    || (CountsTowardHour(existing, current) && current.hourlySpendSol < existing.requestedSol)
  }

  /**
   * From any totals that agree, a release keeps them right exactly when neither Math.max(0, ...) on an amount takes
   * effect.
   */
  lemma ReleaseAgreesExactly(current: State, spends: seq<Spend>, resetHour: int, index: nat, now: int)
    requires TotalsAgree(current, spends, resetHour, now) && index < |current.reservations|
    requires current.reservations[index].status == Reserved
    ensures TotalsAgree(ReleasedState(current, resetHour, index), spends, resetHour, now)
       <==> !ReleaseClamps(current, resetHour, index)
  {
    hide DayOf, HourOf, Booked, Spent, SpendShare;
    var day, hour := Day(DayOf(now, resetHour), resetHour), Hour(HourOf(now));
    var existing := current.reservations[index];
    var others := current.reservations[..index] + current.reservations[index + 1..];
    BookedSplit(current.reservations, index, existing, day);
    BookedSplit(current.reservations, index, existing, hour);
    CountsNonnegative(spends, others, day);
    CountsNonnegative(spends, others, hour);
  }

  /** Without a clamp the release is stored and everything stays coherent. */
  lemma ReleaseKeeps(current: State, spends: seq<Spend>, resetHour: int, index: nat, now: int)
    requires Coherent(current, spends, resetHour, now) && index < |current.reservations|
    requires current.reservations[index].status == Reserved
    ensures Write(ReleasedState(current, resetHour, index)).Written?
    ensures !ReleaseClamps(current, resetHour, index) ==>
              KeepsCoherence(Write(ReleasedState(current, resetHour, index)), spends, resetHour, now)
  {
    hide TotalsAgree, DayOf, HourOf;
    var updated := ReleasedState(current, resetHour, index);
    CoherentIsValid(current, spends, resetHour, now);
    ReleaseAgreesExactly(current, spends, resetHour, index, now);
    forall i | 0 <= i < |updated.reservations|
      ensures ReservationCoherent(updated.reservations[i], updated, resetHour, now) {
      assert ReservationCoherent(current.reservations[if i < index then i else i + 1], current, resetHour, now);
    }
  }

  ghost function SettledState(current: State, resetHour: int, index: nat, actualSol: real, now: int): State
    requires index < |current.reservations|
  {
    var existing := current.reservations[index];
    var deltaSol := actualSol - BookedSol(existing);
    var day, hour := CountsTowardDay(existing, current, resetHour), CountsTowardHour(existing, current);
    current.(
      dailySpendSol := if day then FloorZero(current.dailySpendSol + deltaSol) else current.dailySpendSol,
      hourlySpendSol := if hour then FloorZero(current.hourlySpendSol + deltaSol) else current.hourlySpendSol,
      reservations := current.reservations[index := SettledWith(existing, actualSol, now)])
  }

  /** A total that the settlement moves would fall below zero. */
  predicate SettleClamps(current: State, resetHour: int, index: nat, actualSol: real)
    requires index < |current.reservations|
  {
    var existing := current.reservations[index];
    var deltaSol := actualSol - BookedSol(existing);
    || (CountsTowardDay(existing, current, resetHour) && current.dailySpendSol + deltaSol < 0.0)
    || (CountsTowardHour(existing, current) && current.hourlySpendSol + deltaSol < 0.0)
  }

  /** From any totals that agree, a settlement keeps them right exactly when neither Math.max(0, ...) takes effect. */
  lemma SettleAgreesExactly(current: State, spends: seq<Spend>, resetHour: int, index: nat, actualSol: real, now: int)
    requires TotalsAgree(current, spends, resetHour, now) && index < |current.reservations|
    ensures TotalsAgree(SettledState(current, resetHour, index, actualSol, now), spends, resetHour, now)
       <==> !SettleClamps(current, resetHour, index, actualSol)
  {
    hide DayOf, HourOf, Booked, Spent, SpendShare;
    var existing := current.reservations[index];
    var settled := SettledWith(existing, actualSol, now);
    BookedSplit(current.reservations, index, settled, Day(DayOf(now, resetHour), resetHour));
    BookedSplit(current.reservations, index, settled, Hour(HourOf(now)));
  }

  /** Without a clamp the settlement is stored and everything stays coherent. */
  lemma SettleKeeps(current: State, spends: seq<Spend>, resetHour: int, index: nat, actualSol: real, now: int)
    requires Coherent(current, spends, resetHour, now) && index < |current.reservations| && actualSol > 0.0
    ensures Write(SettledState(current, resetHour, index, actualSol, now)).Written?
    ensures !SettleClamps(current, resetHour, index, actualSol) ==>
              KeepsCoherence(Write(SettledState(current, resetHour, index, actualSol, now)), spends, resetHour, now)
  {
    hide TotalsAgree, DayOf, HourOf;
    var updated := SettledState(current, resetHour, index, actualSol, now);
    CoherentIsValid(current, spends, resetHour, now);
    SettleAgreesExactly(current, spends, resetHour, index, actualSol, now);
    forall i | 0 <= i < |updated.reservations|
      ensures ReservationCoherent(updated.reservations[i], updated, resetHour, now) {
      assert ReservationCoherent(current.reservations[i], current, resetHour, now);
    }
  }

  // ---------------------------------------------------------------- whole runs

  datatype Action =
    | Record(spent: Amount, t: int)
    | Reserve(key: string, requested: Amount, t: int)
    | Release(key: string, expected: Option<real>, t: int)
    | Settle(key: string, actual: Amount, t: int)
    | Reset(t: int)

  /** The stored file, the direct spends stored since the last reset(), the time of the last write, and the clock. */
  datatype Ledger = Ledger(stored: Option<State>, spends: seq<Spend>, written: int, clock: int)

  function OutcomeOf(ledger: Ledger, resetHour: int, a: Action): Outcome {
    match a
    case Record(spent, t) => RecordSpend(ledger.stored, resetHour, spent, t)
    case Reserve(key, requested, t) => ReserveSpend(ledger.stored, resetHour, key, requested, t)
    case Release(key, expected, t) => ReleaseSpend(ledger.stored, resetHour, key, expected, t)
    case Settle(key, actual, t) => SettleSpend(ledger.stored, resetHour, key, actual, t)
    case Reset(t) => Written(EmptyState(resetHour, t))
  }

  function Perform(ledger: Ledger, resetHour: int, a: Action): Ledger {
    var outcome := OutcomeOf(ledger, resetHour, a);
    Ledger(
      StoredAfter(ledger.stored, outcome),
      if a.Reset? then []
      else if a.Record? && a.spent.Finite? && outcome.Written? then ledger.spends + [Spend(a.t, a.spent.sol)]
      else ledger.spends,
      if outcome.Written? then a.t else ledger.written,
      a.t)
  }

  function Run(ledger: Ledger, resetHour: int, actions: seq<Action>): Ledger
    decreases |actions|
  {
    if actions == [] then ledger
    else Perform(Run(ledger, resetHour, actions[..|actions| - 1]), resetHour, actions[|actions| - 1])
  }

  ghost predicate ClockMonotone(actions: seq<Action>, start: int) {
    (forall i :: 0 <= i < |actions| ==> start <= actions[i].t)
    && (forall i, j :: 0 <= i < j < |actions| ==> actions[i].t <= actions[j].t)
  }

  ghost predicate LedgerCoherent(ledger: Ledger, resetHour: int) {
    match ledger.stored
    case None => ledger.spends == []
    case Some(state) => ledger.written <= ledger.clock && Coherent(state, ledger.spends, resetHour, ledger.written)
  }

  lemma ReadIsCoherent(ledger: Ledger, resetHour: int, now: int)
    requires LedgerCoherent(ledger, resetHour) && ledger.clock <= now
    ensures Coherent(Read(ledger.stored, resetHour, now), ledger.spends, resetHour, now)
  {
    hide DayOf, HourOf;
    if ledger.stored.Some? {
      ReadAgrees(ledger.stored.value, ledger.spends, resetHour, ledger.written, now);
    } else {
      EmptyIsCoherent([], resetHour, now);
    }
  }

  /** The operation applies to a reservation and one of its Math.max(0, ...) takes effect. */
  predicate Clamps(ledger: Ledger, resetHour: int, a: Action) {
    var current := Read(ledger.stored, resetHour, a.t);
    match a
    case Release(key, expected, _) =>
      var index := FindKey(current.reservations, key);
      && index >= 0 && current.reservations[index].status == Reserved
      && (expected.Some? ==> current.reservations[index].requestedSol == expected.value)
      && ReleaseClamps(current, resetHour, index)
    case Settle(key, actual, _) =>
      var index := FindKey(current.reservations, key);
      index >= 0 && actual.Finite? && actual.sol > 0.0 && SettleClamps(current, resetHour, index, actual.sol)
    case _ => false
  }

  /** Whoever reads at `now` finds what the recorded spends and the booked reservations make due. */
  ghost predicate AgreesAt(ledger: Ledger, resetHour: int, now: int) {
    TotalsAgree(Read(ledger.stored, resetHour, now), ledger.spends, resetHour, now)
  }

  lemma CoherentAgrees(ledger: Ledger, resetHour: int, now: int)
    requires LedgerCoherent(ledger, resetHour) && ledger.clock <= now
    ensures AgreesAt(ledger, resetHour, now)
  {
    hide TotalsAgree, Read;
    ReadIsCoherent(ledger, resetHour, now);
  }

  lemma RecordPerformed(ledger: Ledger, resetHour: int, a: Action)
    requires LedgerCoherent(ledger, resetHour) && ledger.clock <= a.t && a.Record?
    ensures LedgerCoherent(Perform(ledger, resetHour, a), resetHour)
  {
    hide Coherent, SchemaValid, DayOf, HourOf, Read;
    var current := Read(ledger.stored, resetHour, a.t);
    ReadIsCoherent(ledger, resetHour, a.t);
    if a.spent.Finite? { RecordKeeps(current, ledger.spends, resetHour, a.spent.sol, a.t); }
  }

  lemma ReservePerformed(ledger: Ledger, resetHour: int, a: Action)
    requires LedgerCoherent(ledger, resetHour) && ledger.clock <= a.t && a.Reserve?
    ensures LedgerCoherent(Perform(ledger, resetHour, a), resetHour)
  {
    hide Coherent, SchemaValid, DayOf, HourOf, Read;
    var current := Read(ledger.stored, resetHour, a.t);
    ReadIsCoherent(ledger, resetHour, a.t);
    if a.requested.Finite? && a.requested.sol >= 0.0 && FindKey(current.reservations, a.key) < 0 {
      if a.key != "" {
        ReserveKeeps(current, ledger.spends, resetHour, a.key, a.requested.sol, a.t);
      } else {
        EmptyKeyThrows(ledger.stored, resetHour, a.requested, a.t);
      }
    }
  }

  lemma ReleasePerformed(ledger: Ledger, resetHour: int, a: Action)
    requires LedgerCoherent(ledger, resetHour) && ledger.clock <= a.t && a.Release?
    ensures var after := Perform(ledger, resetHour, a);
            if Clamps(ledger, resetHour, a) then !AgreesAt(after, resetHour, a.t) else LedgerCoherent(after, resetHour)
  {
    hide Coherent, SchemaValid, DayOf, HourOf, Read, TotalsAgree, ReleaseClamps, CountsTowardDay, CountsTowardHour;
    var current := Read(ledger.stored, resetHour, a.t);
    ReadIsCoherent(ledger, resetHour, a.t);
    var index := FindKey(current.reservations, a.key);
    if index >= 0 && current.reservations[index].status == Reserved {
      ReleaseKeeps(current, ledger.spends, resetHour, index, a.t);
      CoherentMeansAgrees(current, ledger.spends, resetHour, a.t);
      ReleaseAgreesExactly(current, ledger.spends, resetHour, index, a.t);
      if Clamps(ledger, resetHour, a) {
        WrittenReadsBack(current, ReleasedState(current, resetHour, index), resetHour, a.t);
      }
    }
  }

  lemma CoherentMeansAgrees(state: State, spends: seq<Spend>, resetHour: int, now: int)
    requires Coherent(state, spends, resetHour, now)
    ensures TotalsAgree(state, spends, resetHour, now)
    ensures state.lastResetDate == DayOf(now, resetHour) && state.lastHourlyResetAt == Some(HourOf(now))
  {}

  /** A state with the buckets of `now` reads back at `now` as it is. */
  lemma WrittenReadsBack(current: State, updated: State, resetHour: int, now: int)
    requires current.lastResetDate == DayOf(now, resetHour) && current.lastHourlyResetAt == Some(HourOf(now))
    requires updated.lastResetDate == current.lastResetDate && updated.lastHourlyResetAt == current.lastHourlyResetAt
    ensures Read(Some(updated), resetHour, now) == updated
  {
    hide DayOf, HourOf;
  }

  lemma SettlePerformed(ledger: Ledger, resetHour: int, a: Action)
    requires LedgerCoherent(ledger, resetHour) && ledger.clock <= a.t && a.Settle?
    ensures var after := Perform(ledger, resetHour, a);
            if Clamps(ledger, resetHour, a) then !AgreesAt(after, resetHour, a.t) else LedgerCoherent(after, resetHour)
  {
    hide Coherent, SchemaValid, DayOf, HourOf, Read, TotalsAgree, CountsTowardDay, CountsTowardHour;
    var current := Read(ledger.stored, resetHour, a.t);
    ReadIsCoherent(ledger, resetHour, a.t);
    var index := FindKey(current.reservations, a.key);
    if index >= 0 && a.actual.Finite? && a.actual.sol > 0.0 {
      SettleKeeps(current, ledger.spends, resetHour, index, a.actual.sol, a.t);
      CoherentMeansAgrees(current, ledger.spends, resetHour, a.t);
      CoherentTotals(current, ledger.spends, resetHour, a.t);
      SettleAgreesExactly(current, ledger.spends, resetHour, index, a.actual.sol, a.t);
      if Clamps(ledger, resetHour, a) {
        WrittenReadsBack(current, SettledState(current, resetHour, index, a.actual.sol, a.t), resetHour, a.t);
      }
    }
  }

  lemma CoherentTotals(state: State, spends: seq<Spend>, resetHour: int, now: int)
    requires Coherent(state, spends, resetHour, now)
    ensures state.dailySpendSol >= 0.0 && state.hourlySpendSol >= 0.0
  {}

  /**
   * One operation on a coherent ledger, spends of either sign: the totals agree afterwards exactly when nothing clamps.
   */
  lemma PerformAgreesExactly(ledger: Ledger, resetHour: int, a: Action)
    requires LedgerCoherent(ledger, resetHour) && ledger.clock <= a.t
    ensures var after := Perform(ledger, resetHour, a);
            && (AgreesAt(after, resetHour, a.t) <==> !Clamps(ledger, resetHour, a))
            && (!Clamps(ledger, resetHour, a) ==> LedgerCoherent(after, resetHour))
  {
    hide LedgerCoherent, AgreesAt;
    match a {
      case Record(_, _) => RecordPerformed(ledger, resetHour, a);
      case Reserve(_, _, _) => ReservePerformed(ledger, resetHour, a);
      case Release(_, _, _) => ReleasePerformed(ledger, resetHour, a);
      case Settle(_, _, _) => SettlePerformed(ledger, resetHour, a);
      case Reset(t) => ResetPerformed(ledger, resetHour, t);
    }
    if !Clamps(ledger, resetHour, a) { CoherentAgrees(Perform(ledger, resetHour, a), resetHour, a.t); }
  }

  lemma ResetPerformed(ledger: Ledger, resetHour: int, t: int)
    ensures LedgerCoherent(Perform(ledger, resetHour, Reset(t)), resetHour)
  {
    hide Coherent;
    EmptyIsCoherent([], resetHour, t);
  }

  lemma EmptyKeyThrows(stored: Option<State>, resetHour: int, requested: Amount, now: int)
    ensures !ReserveSpend(stored, resetHour, "", requested, now).Written?
  {
    var current := Read(stored, resetHour, now);
    if requested.Finite? {
      var reservations := current.reservations + [Fresh("", requested.sol, now)];
      assert !ReservationValid(reservations[|current.reservations|]);
    }
  }

  /** The store of a process that has not stored anything yet. */
  function NewLedger(start: int): Ledger { Ledger(None, [], start, start) }

  /** No release and no settlement of the run clamps. */
  ghost predicate NeverClamps(ledger: Ledger, resetHour: int, actions: seq<Action>)
    decreases |actions|
  {
    actions != [] ==>
      && NeverClamps(ledger, resetHour, actions[..|actions| - 1])
      && !Clamps(Run(ledger, resetHour, actions[..|actions| - 1]), resetHour, actions[|actions| - 1])
  }

  /** The totals are right after every operation of the run. */
  ghost predicate AgreesThroughout(ledger: Ledger, resetHour: int, actions: seq<Action>)
    decreases |actions|
  {
    actions != [] ==>
      && AgreesThroughout(ledger, resetHour, actions[..|actions| - 1])
      && AgreesAt(Run(ledger, resetHour, actions), resetHour, actions[|actions| - 1].t)
  }

  /**
   * From an empty store, over any mix of reserve, release, settle, record (of either sign) and reset across any number
   * of hours and days: the totals are right after every operation exactly when no release and no settlement clamps.
   */
  lemma {:induction false} LedgerAgreesExactly(start: int, resetHour: int, actions: seq<Action>)
    requires ClockMonotone(actions, start)
    ensures AgreesThroughout(NewLedger(start), resetHour, actions) <==>
              NeverClamps(NewLedger(start), resetHour, actions)
    ensures var ledger := Run(NewLedger(start), resetHour, actions);
            NeverClamps(NewLedger(start), resetHour, actions) ==>
              LedgerCoherent(ledger, resetHour) && ledger.clock == if actions == [] then start
                else actions[|actions| - 1].t
    decreases |actions|
  {
    hide Perform, LedgerCoherent, AgreesAt, Clamps;
    if actions == [] {
      NewStoreIsCoherent(start, resetHour);
    } else {
      var init, last := actions[..|actions| - 1], actions[|actions| - 1];
      var before := Run(NewLedger(start), resetHour, init);
      LedgerAgreesExactly(start, resetHour, init);
      ClockAfter(before, resetHour, last);
      if NeverClamps(NewLedger(start), resetHour, init) { PerformAgreesExactly(before, resetHour, last); }
    }
  }

  /** And then whoever reads later, in whatever hour or day, finds the totals right too. */
  lemma LedgerAgrees(start: int, resetHour: int, actions: seq<Action>, now: int)
    requires ClockMonotone(actions, start) && NeverClamps(NewLedger(start), resetHour, actions)
    requires start <= now && forall i :: 0 <= i < |actions| ==> actions[i].t <= now
    ensures AgreesAt(Run(NewLedger(start), resetHour, actions), resetHour, now)
  {
    hide LedgerCoherent, AgreesAt, Run, NeverClamps;
    LedgerAgreesExactly(start, resetHour, actions);
    CoherentAgrees(Run(NewLedger(start), resetHour, actions), resetHour, now);
  }

  // ---------------------------------------------------------------- spends that are not negative

  ghost predicate AllNonnegative(spends: seq<Spend>) {
    forall spend :: spend in spends ==> spend.sol >= 0.0
  }

  ghost predicate RecordsNonnegative(actions: seq<Action>) {
    forall i :: 0 <= i < |actions| && actions[i].Record? && actions[i].spent.Finite? ==> actions[i].spent.sol >= 0.0
  }

  /** With spends that are not negative each total covers every reservation that counts toward it. */
  lemma TotalCoversOne(current: State, spends: seq<Spend>, resetHour: int, index: nat, window: Window, now: int)
    requires Coherent(current, spends, resetHour, now) && index < |current.reservations| && AllNonnegative(spends)
    ensures Covers(window, ReservedInstant(current.reservations[index])) ==>
              Due(spends, current.reservations, window).sol >= BookedSol(current.reservations[index])
  {
    hide DayOf, HourOf, Booked, Spent, TotalsAgree;
    var others := current.reservations[..index] + current.reservations[index + 1..];
    BookedSplit(current.reservations, index, current.reservations[index], window);
    forall i | 0 <= i < |others| ensures ReservationValid(others[i]) {
      assert ReservationCoherent(current.reservations[if i < index then i else i + 1], current, resetHour, now);
    }
    SpentNonnegative(spends, window);
    BookedNonnegative(others, window);
  }

  lemma NonnegativeDoesNotClamp(ledger: Ledger, resetHour: int, a: Action)
    requires LedgerCoherent(ledger, resetHour) && ledger.clock <= a.t && AllNonnegative(ledger.spends)
    ensures !Clamps(ledger, resetHour, a)
  {
    hide DayOf, HourOf, Booked, Spent, Read, LedgerCoherent, AllNonnegative, BookedShare, SpendShare;
    var current := Read(ledger.stored, resetHour, a.t);
    ReadIsCoherent(ledger, resetHour, a.t);
    if a.Release? || a.Settle? {
      var index := FindKey(current.reservations, a.key);
      if index >= 0 {
        TotalCoversOne(current, ledger.spends, resetHour, index, Day(DayOf(a.t, resetHour), resetHour), a.t);
        TotalCoversOne(current, ledger.spends, resetHour, index, Hour(HourOf(a.t)), a.t);
      }
    }
  }

  /** So without negative spends no Math.max(0, ...) ever takes effect, and the totals are always right. */
  lemma {:induction false} NonnegativeSpendsNeverClamp(start: int, resetHour: int, actions: seq<Action>)
    requires ClockMonotone(actions, start) && RecordsNonnegative(actions)
    ensures NeverClamps(NewLedger(start), resetHour, actions)
    ensures AllNonnegative(Run(NewLedger(start), resetHour, actions).spends)
    decreases |actions|
  {
    hide LedgerCoherent, Clamps, Perform, AllNonnegative;
    if actions == [] {
      assert AllNonnegative([]) by { NothingIsNegative(); }
    } else {
      var init, last := actions[..|actions| - 1], actions[|actions| - 1];
      NonnegativeSpendsNeverClamp(start, resetHour, init);
      LedgerAgreesExactly(start, resetHour, init);
      NonnegativeDoesNotClamp(Run(NewLedger(start), resetHour, init), resetHour, last);
      SpendsStayNonnegative(Run(NewLedger(start), resetHour, init), resetHour, last);
    }
  }

  lemma NothingIsNegative()
    ensures AllNonnegative([])
  {}

  lemma SpendsStayNonnegative(ledger: Ledger, resetHour: int, a: Action)
    requires AllNonnegative(ledger.spends) && (a.Record? && a.spent.Finite? ==> a.spent.sol >= 0.0)
    ensures AllNonnegative(Perform(ledger, resetHour, a).spends)
  {
    hide OutcomeOf, StoredAfter;
  }

  lemma NewStoreIsCoherent(start: int, resetHour: int)
    ensures LedgerCoherent(NewLedger(start), resetHour)
  {}

  lemma ClockAfter(ledger: Ledger, resetHour: int, a: Action)
    ensures Perform(ledger, resetHour, a).clock == a.t
  {}

  // ---------------------------------------------------------------- where agreement ends

  lemma RunExtended(ledger: Ledger, resetHour: int, actions: seq<Action>, a: Action)
    ensures Run(ledger, resetHour, actions + [a]) == Perform(Run(ledger, resetHour, actions), resetHour, a)
  {
    assert (actions + [a])[..|actions|] == actions;
  }

  lemma RunNothing(ledger: Ledger, resetHour: int)
    ensures Run(ledger, resetHour, []) == ledger
  {}

  const FIVE := Fresh("k", 5.0, 0)

  lemma ReserveFive()
    ensures Perform(Ledger(None, [], 0, 0), 0, Reserve("k", Finite(5.0), 0))
            == Ledger(Some(State(5.0, 5.0, 1, 1, Some(0), 0, [FIVE])), [], 0, 0)
  {
    hide ReserveSpend, SchemaValid, FindKey;
    EmptyStart();
    ReserveFresh(None, 0, "k", 5.0, 0);
    assert [] + [FIVE] == [FIVE];
  }

  lemma EmptyStart()
    ensures Read(None, 0, 0) == State(0.0, 0.0, 0, 0, Some(0), 0, [])
    ensures FindKey(Read(None, 0, 0).reservations, "k") < 0
  {}

  lemma RecordMinusThree(ledger: Ledger)
    requires ledger == Ledger(Some(State(5.0, 5.0, 1, 1, Some(0), 0, [FIVE])), [], 0, 0)
    ensures Perform(ledger, 0, Record(Finite(-3.0), 0))
            == Ledger(Some(State(2.0, 2.0, 2, 2, Some(0), 0, [FIVE])), [Spend(0, -3.0)], 0, 0)
  {}

  lemma ReleaseFive(ledger: Ledger)
    requires ledger == Ledger(Some(State(2.0, 2.0, 2, 2, Some(0), 0, [FIVE])), [Spend(0, -3.0)], 0, 0)
    ensures Perform(ledger, 0, Release("k", None, 0))
            == Ledger(Some(State(0.0, 0.0, 1, 1, Some(0), 0, [])), [Spend(0, -3.0)], 0, 0)
  {
    FindAppended([], FIVE);
    assert [] + [FIVE] == [FIVE] && [FIVE][..0] + [FIVE][1..] == [];
  }

  /** Reserve 5, record -3, release: the history makes -3 due, the store shows 0. */
  lemma NegativeSpendBreaksAgreement()
    ensures var actions := [] + [Reserve("k", Finite(5.0), 0)] + [Record(Finite(-3.0), 0)] + [Release("k", None, 0)];
            var ledger := Run(NewLedger(0), 0, actions);
            !TotalsAgree(Read(ledger.stored, 0, 0), ledger.spends, 0, 0)
  {
    hide Perform, Run, TotalsAgree, Read;
    var start := Ledger(None, [], 0, 0);
    var first := [] + [Reserve("k", Finite(5.0), 0)];
    RunExtended(start, 0, [], Reserve("k", Finite(5.0), 0));
    RunExtended(start, 0, first, Record(Finite(-3.0), 0));
    RunExtended(start, 0, first + [Record(Finite(-3.0), 0)], Release("k", None, 0));
    RunNothing(start, 0);
    ReserveFive();
    RecordMinusThree(Run(start, 0, first));
    ReleaseFive(Run(start, 0, first + [Record(Finite(-3.0), 0)]));
    HistoryDisagrees(Run(start, 0, first + [Record(Finite(-3.0), 0)] + [Release("k", None, 0)]));
  }

  /** Reserve 5, record -3, settle at 1: the settlement clamps, the store shows 0 where -2 is due. */
  lemma NegativeSpendBreaksSettling()
    ensures var actions := [] + [Reserve("k", Finite(5.0), 0)] + [Record(Finite(-3.0), 0)]
            + [Settle("k", Finite(1.0), 0)];
            !NeverClamps(NewLedger(0), 0, actions) && !AgreesThroughout(NewLedger(0), 0, actions)
  {
    hide Perform, Run, Read;
    var start := NewLedger(0);
    var first := [] + [Reserve("k", Finite(5.0), 0)];
    var second := first + [Record(Finite(-3.0), 0)];
    var last := Settle("k", Finite(1.0), 0);
    RunExtended(start, 0, [], Reserve("k", Finite(5.0), 0));
    RunExtended(start, 0, first, Record(Finite(-3.0), 0));
    RunNothing(start, 0);
    ReserveFive();
    RecordMinusThree(Run(start, 0, first));
    SettlingClamps(Run(start, 0, second));
    assert (second + [last])[..|second|] == second;
    LedgerAgreesExactly(0, 0, second + [last]);
  }

  lemma SettlingClamps(ledger: Ledger)
    requires ledger == Ledger(Some(State(2.0, 2.0, 2, 2, Some(0), 0, [FIVE])), [Spend(0, -3.0)], 0, 0)
    ensures Clamps(ledger, 0, Settle("k", Finite(1.0), 0))
  {
    FindAppended([], FIVE);
    assert [] + [FIVE] == [FIVE];
  }

  lemma HistoryDisagrees(ledger: Ledger)
    requires ledger == Ledger(Some(State(0.0, 0.0, 1, 1, Some(0), 0, [])), [Spend(0, -3.0)], 0, 0)
    ensures !TotalsAgree(Read(ledger.stored, 0, 0), ledger.spends, 0, 0)
  {
    hide Spent, Booked, Read;
    var state := ledger.stored.value;
    SameHourReadsBack(state, 0, 0, 0);
    NothingSpent([], Day(0, 0));
    NothingBooked([], Day(0, 0));
    SpendAppended([], Spend(0, -3.0), Day(0, 0));
    assert [] + [Spend(0, -3.0)] == ledger.spends;
    assert Due(ledger.spends, [], Day(0, 0)).sol == -3.0;
  }

  // ---------------------------------------------------------------- retries

  /**
   * A stored reservation makes the same request a no-op for the rest of its reset day, and a different amount an error.
   */
  lemma ReserveIsIdempotent(stored: Option<State>, resetHour: int, key: string, sol: real, again: Amount, t: int,
                            u: int)
    requires FindKey(Read(stored, resetHour, t).reservations, key) < 0 && t <= u
    requires ReserveSpend(stored, resetHour, key, Finite(sol), t).Written?
    ensures var after := StoredAfter(stored, ReserveSpend(stored, resetHour, key, Finite(sol), t));
            && (ReserveSpend(after, resetHour, key, Finite(sol), u) == Unwritten(Read(after, resetHour, u))
                <==> DayOf(u, resetHour) == DayOf(t, resetHour))
            && (DayOf(u, resetHour) == DayOf(t, resetHour) && again != Finite(sol) ==>
                ReserveSpend(after, resetHour, key, again, u) == Thrown)
  {
    hide DayOf, HourOf;
    var after := StoredAfter(stored, ReserveSpend(stored, resetHour, key, Finite(sol), t));
    var reservations := after.value.reservations;
    FindAppended(Read(stored, resetHour, t).reservations, Fresh(key, sol, t));
    assert Read(after, resetHour, u).reservations == if DayOf(u, resetHour) == DayOf(t, resetHour) then reservations
           else [];
  }

  lemma {:induction false} FindAppended(reservations: seq<Reservation>, added: Reservation)
    requires FindKey(reservations, added.idempotencyKey) < 0
    ensures FindKey(reservations + [added], added.idempotencyKey) == |reservations|
  {
    var longer := reservations + [added];
    assert longer[|reservations|] == added;
    assert forall i :: 0 <= i < |reservations| ==> longer[i] == reservations[i];
  }

  lemma ReserveFresh(stored: Option<State>, resetHour: int, key: string, sol: real, t: int)
    requires stored.Some? ==> SchemaValid(stored.value)
    requires key != "" && sol >= 0.0 && FindKey(Read(stored, resetHour, t).reservations, key) < 0
    ensures var current := Read(stored, resetHour, t);
            && SchemaValid(current)
            && ReserveSpend(stored, resetHour, key, Finite(sol), t)
               == Written(current.(
                    dailySpendSol := current.dailySpendSol + sol,
                    hourlySpendSol := current.hourlySpendSol + sol,
                    orderCount := current.orderCount + 1,
                    hourlyOrderCount := current.hourlyOrderCount + 1,
                    reservations := current.reservations + [Fresh(key, sol, t)]))
  {
    hide HourOf, DayOf;
  }

  lemma SameHourReadsBack(state: State, resetHour: int, t: int, u: int)
    requires state.lastResetDate == DayOf(t, resetHour) && state.lastHourlyResetAt == Some(HourOf(t))
             && HourOf(t) == HourOf(u)
    ensures DayOf(t, resetHour) == DayOf(u, resetHour) && Read(Some(state), resetHour, u) == state
  {
    hide HourOf, DayOf;
    DayOfHour(t, resetHour);
    DayOfHour(u, resetHour);
  }

  /** Reserving a fresh key and releasing it in the same clock hour puts back the state that was read before. */
  lemma ReleaseUndoesReserve(stored: Option<State>, resetHour: int, key: string, sol: real, t: int, u: int)
    requires stored.Some? ==> SchemaValid(stored.value)
    requires key != "" && sol >= 0.0 && FindKey(Read(stored, resetHour, t).reservations, key) < 0
    requires HourOf(t) == HourOf(u)
    ensures var after := StoredAfter(stored, ReserveSpend(stored, resetHour, key, Finite(sol), t));
            ReleaseSpend(after, resetHour, key, Some(sol), u) == Written(Read(stored, resetHour, t))
  {
    hide HourOf, DayOf, ReserveSpend, Read, SchemaValid;
    var current := Read(stored, resetHour, t);
    ReserveFresh(stored, resetHour, key, sol, t);
    assert current.lastResetDate == DayOf(t, resetHour) && current.lastHourlyResetAt == Some(HourOf(t)) by {
      ReadIsCurrent(stored, resetHour, t);
    }
    var updated := ReserveSpend(stored, resetHour, key, Finite(sol), t).updated;
    SameHourReadsBack(updated, resetHour, t, u);
    FindAppended(current.reservations, Fresh(key, sol, t));
    assert updated.reservations[..|current.reservations|] + updated.reservations[|current.reservations| + 1..]
           == current.reservations;
    ValidTotals(current);
  }

  lemma ReadIsCurrent(stored: Option<State>, resetHour: int, now: int)
    ensures var current := Read(stored, resetHour, now);
            current.lastResetDate == DayOf(now, resetHour) && current.lastHourlyResetAt == Some(HourOf(now))
  {
    hide HourOf, DayOf;
  }

  lemma ValidTotals(state: State)
    requires SchemaValid(state)
    ensures state.dailySpendSol >= 0.0 && state.hourlySpendSol >= 0.0 && state.orderCount >= 0
            && state.hourlyOrderCount >= 0
  {}

  // ---------------------------------------------------------------- caps

  predicate WithinCaps(state: State, config: Config) {
    state.dailySpendSol <= config.maxDailySpendSol
    && (config.maxHourlySpendSol.Some? ==> state.hourlySpendSol <= config.maxHourlySpendSol.value)
  }

  /**
   * Fresh reservations and direct spends pass evaluateSpendingLimits first; a settlement books no more than is booked.
   */
  predicate Guarded(ledger: Ledger, config: Config, a: Action) {
    var current := Read(ledger.stored, config.dailySpendResetHour, a.t);
    match a
    case Record(spent, t) => spent.Finite? ==> Evaluate(config, current, spent.sol, t) == Allowed
    case Reserve(key, requested, t) =>
      requested.Finite? && FindKey(current.reservations, key) < 0 ==>
          Evaluate(config, current, requested.sol, t) == Allowed
    case Settle(key, actual, t) =>
      var index := FindKey(current.reservations, key);
      actual.Finite? && index >= 0 ==> actual.sol <= BookedSol(current.reservations[index])
    case _ => true
  }

  predicate CapsNonnegative(config: Config) {
    config.maxDailySpendSol >= 0.0 && (config.maxHourlySpendSol.Some? ==> config.maxHourlySpendSol.value >= 0.0)
  }

  predicate StoredWithinCaps(stored: Option<State>, config: Config) {
    stored.Some? ==> SchemaValid(stored.value) && WithinCaps(stored.value, config)
  }

  lemma ReadWithinCaps(stored: Option<State>, config: Config, now: int)
    requires StoredWithinCaps(stored, config) && CapsNonnegative(config)
    ensures WithinCaps(Read(stored, config.dailySpendResetHour, now), config)
    ensures SchemaValid(Read(stored, config.dailySpendResetHour, now))
  {
    hide DayOf, HourOf;
  }

  lemma ReadIsNormal(stored: Option<State>, resetHour: int, now: int)
    ensures NormalizeAndReset(Read(stored, resetHour, now), resetHour, now) == Read(stored, resetHour, now)
  {
    hide DayOf, HourOf;
  }

  predicate OutcomeWithinCaps(outcome: Outcome, config: Config) {
    outcome.Written? ==> SchemaValid(outcome.updated) && WithinCaps(outcome.updated, config)
  }

  lemma SpendingWithinCaps(ledger: Ledger, config: Config, a: Action)
    requires StoredWithinCaps(ledger.stored, config) && CapsNonnegative(config) && Guarded(ledger, config, a)
    requires a.Record? || a.Reserve?
    ensures OutcomeWithinCaps(OutcomeOf(ledger, config.dailySpendResetHour, a), config)
  {
    hide DayOf, HourOf, Read, NormalizeAndReset, SchemaValid;
    ReadWithinCaps(ledger.stored, config, a.t);
    ReadIsNormal(ledger.stored, config.dailySpendResetHour, a.t);
  }

  lemma ReleasingWithinCaps(ledger: Ledger, config: Config, a: Action)
    requires StoredWithinCaps(ledger.stored, config) && CapsNonnegative(config) && a.Release?
    ensures OutcomeWithinCaps(OutcomeOf(ledger, config.dailySpendResetHour, a), config)
  {
    hide DayOf, HourOf, Read, CountsTowardDay, CountsTowardHour;
    var current := Read(ledger.stored, config.dailySpendResetHour, a.t);
    ReadWithinCaps(ledger.stored, config, a.t);
    assert forall i :: 0 <= i < |current.reservations| ==> current.reservations[i].requestedSol >= 0.0;
  }

  lemma SettlingWithinCaps(ledger: Ledger, config: Config, a: Action)
    requires StoredWithinCaps(ledger.stored, config) && CapsNonnegative(config) && Guarded(ledger, config, a)
    requires a.Settle?
    ensures OutcomeWithinCaps(OutcomeOf(ledger, config.dailySpendResetHour, a), config)
  {
    hide DayOf, HourOf, Read, CountsTowardDay, CountsTowardHour, BookedSol, SchemaValid;
    ReadWithinCaps(ledger.stored, config, a.t);
  }

  lemma GuardedKeepsCaps(ledger: Ledger, config: Config, a: Action)
    requires StoredWithinCaps(ledger.stored, config) && CapsNonnegative(config) && Guarded(ledger, config, a)
    ensures StoredWithinCaps(Perform(ledger, config.dailySpendResetHour, a).stored, config)
  {
    hide SchemaValid, WithinCaps, Guarded, CapsNonnegative, RecordSpend, ReserveSpend, ReleaseSpend, SettleSpend;
    match a
    case Record(_, _) => SpendingWithinCaps(ledger, config, a);
    case Reserve(_, _, _) => SpendingWithinCaps(ledger, config, a);
    case Release(_, _, _) => ReleasingWithinCaps(ledger, config, a);
    case Settle(_, _, _) => SettlingWithinCaps(ledger, config, a);
    case Reset(t) => EmptyWithinCaps(config, t);
  }

  lemma EmptyWithinCaps(config: Config, now: int)
    requires CapsNonnegative(config)
    ensures SchemaValid(EmptyState(config.dailySpendResetHour, now))
    ensures WithinCaps(EmptyState(config.dailySpendResetHour, now), config)
  {
    hide DayOf, HourOf;
  }

  ghost predicate GuardedRun(ledger: Ledger, config: Config, actions: seq<Action>)
    decreases |actions|
  {
    actions != [] ==>
      && GuardedRun(ledger, config, actions[..|actions| - 1])
      && Guarded(Run(ledger, config.dailySpendResetHour, actions[..|actions| - 1]), config, actions[|actions| - 1])
  }

  /**
   * Over any guarded run from an empty store, whenever the totals are read they respect the daily and hourly limits.
   */
  lemma {:induction false} CapsHold(config: Config, start: int, actions: seq<Action>, now: int)
    requires CapsNonnegative(config) && GuardedRun(NewLedger(start), config, actions)
    ensures var ledger := Run(NewLedger(start), config.dailySpendResetHour, actions);
            && StoredWithinCaps(ledger.stored, config)
            && WithinCaps(Read(ledger.stored, config.dailySpendResetHour, now), config)
    decreases |actions|
  {
    hide Perform, Guarded, Read, WithinCaps;
    var ledger := Run(NewLedger(start), config.dailySpendResetHour, actions);
    if actions != [] {
      var init := actions[..|actions| - 1];
      CapsHold(config, start, init, now);
      GuardedKeepsCaps(Run(NewLedger(start), config.dailySpendResetHour, init), config, actions[|actions| - 1]);
    }
    ReadWithinCaps(ledger.stored, config, now);
  }
}
