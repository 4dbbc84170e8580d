/**
 * What one tick of the route scheduler of src/candidate-pool/worker.ts takes, from the inputs of the tick: the limits
 * it rounds, the shares of the two lists, the places they come from, and the order of the lists.
 */
module RouteTick {
  import opened Sequences
  import opened Wrappers
  import opened RouteScheduler

  // ---------------------------------------------------------------- the limits

  /** The amount rounded down, and at least 1. */
  predicate IsWholePart(n: int, amount: real) {
    if amount < 1.0 then n == 1 else n as real <= amount < n as real + 1.0
  }

  lemma LimitsExactly(maximumPools: real, discoveryPools: real)
    ensures var limits := LimitsOf(maximumPools, discoveryPools);
            && IsWholePart(limits.maximumPools, maximumPools)
            && (if discoveryPools >= limits.maximumPools as real + 1.0
                then limits.discoveryPools == limits.maximumPools
                else IsWholePart(limits.discoveryPools, discoveryPools))
            && ValidLimits(limits)
  {}

  // ---------------------------------------------------------------- the shares and the places

  ghost predicate IsLeast(n: int, amounts: seq<int>) {
    n in amounts && forall i :: 0 <= i < |amounts| ==> n <= amounts[i]
  }

  /** The places follow one another around the list from the cursor on, and the next cursor is the place after them. */
  ghost predicate GoesOnFrom(places: seq<nat>, cursor: int, next: int, length: nat) {
    if length == 0 then places == [] && next == 0
    else next == (cursor + |places|) % length
         && forall o :: 0 <= o < |places| ==> places[o] == (cursor + o) % length
  }

  /** A single slot goes to discovery at every fourth turn and to a priority otherwise. */
  ghost predicate SharesOneSlot(tick: Tick, rotation: Rotation, priorities: nat, discoveries: nat) {
    var turn := rotation.singleSlotTurn.GetOr(0);
    var next := tick.rotation;
    && next.singleSlotTurn == Some(turn + 1)
    && if turn >= 0 && turn % 4 == 3
       then |tick.priority| == 0 && |tick.discovery| == 1 && next.priorityCursor == rotation.priorityCursor
            && GoesOnFrom(tick.discovery, rotation.discoveryCursor, next.discoveryCursor, discoveries)
       else |tick.priority| == 1 && |tick.discovery| == 0 && next.discoveryCursor == rotation.discoveryCursor
            && GoesOnFrom(tick.priority, rotation.priorityCursor, next.priorityCursor, priorities)
  }

  /** Discovery keeps its reserve, the priorities use what that leaves, and discovery what they leave. */
  ghost predicate SharesSlots(tick: Tick, limits: Limits, rotation: Rotation, priorities: nat, discoveries: nat,
                              reserve: int) {
    && IsLeast(reserve, [limits.discoveryPools, discoveries,
                         if priorities > 0 then limits.maximumPools - 1 else limits.maximumPools])
    && IsLeast(|tick.priority|, [priorities, limits.maximumPools - reserve])
    && IsLeast(|tick.discovery|, [discoveries, limits.discoveryPools, limits.maximumPools - |tick.priority|])
    && tick.rotation.singleSlotTurn == rotation.singleSlotTurn
    && GoesOnFrom(tick.priority, rotation.priorityCursor, tick.rotation.priorityCursor, priorities)
    && GoesOnFrom(tick.discovery, rotation.discoveryCursor, tick.rotation.discoveryCursor, discoveries)
  }

  lemma MultipleIsFar(d: int, n: nat)
    requires n > 0
    ensures (d >= 1 ==> d * n >= n) && (d <= -1 ==> d * n + n <= 0)
  {}

  lemma UniqueRemainder(x: int, q: int, r: nat, n: nat)
    requires n > 0 && r < n && x == q * n + r
    ensures x % n == r
  {
    assert x == x / n * n + x % n;
    MultipleIsFar(x / n - q, n);
    assert (x / n - q) * n == x / n * n - q * n;
  }

  /** A remainder only depends on the remainder of its first part. */
  lemma RemainderOfSum(x: int, o: nat, n: nat)
    requires n > 0
    ensures (x % n + o) % n == (x + o) % n
  {
    var y := x % n + o;
    assert x == x / n * n + x % n && y == y / n * n + y % n;
    assert x + o == (x / n + y / n) * n + y % n;
    UniqueRemainder(x + o, x / n + y / n, y % n, n);
  }

  /** The double remainder of takeCircular is the remainder that is never negative. */
  lemma StartIsRemainder(length: nat, cursor: int)
    requires length > 0
    ensures StartOf(length, cursor) == cursor % length
  {
    if cursor >= 0 {
      WrapOnce(cursor % length + length, length);
    } else {
      var times, back := (-cursor) / length, (-cursor) % length;
      WrapOnce(length - back, length);
      NegativeRemainder(cursor, length, times, back);
    }
  }

  lemma NegativeRemainder(cursor: int, length: nat, times: int, back: nat)
    requires length > 0 && back < length && -cursor == times * length + back
    ensures cursor % length == if back == 0 then 0 else length - back
  {
    if back == 0 {
      UniqueRemainder(cursor, -times, 0, length);
    } else {
      assert (-times - 1) * length == -(times * length) - length;
      UniqueRemainder(cursor, -times - 1, length - back, length);
    }
  }

  lemma TakeGoesOn(length: nat, maximum: int, cursor: int)
    requires maximum >= 1 || length == 0
    ensures var take := TakeCircular(length, maximum, cursor);
            && GoesOnFrom(take.positions, cursor, take.nextCursor, length)
  {
    hide StartOf, JsRemainder;
    if length > 0 {
      var take := TakeCircular(length, maximum, cursor);
      StartIsRemainder(length, cursor);
      forall o: nat | o <= |take.positions| ensures Around(length, cursor % length, o) == (cursor + o) % length {
        WrapOnce(cursor % length + o, length);
        RemainderOfSum(cursor, o, length);
      }
    }
  }

  lemma OneSlotExactly(limits: Limits, priorities: nat, discoveries: nat, rotation: Rotation)
    requires limits.maximumPools == 1 && priorities > 0 && discoveries > 0
    ensures SharesOneSlot(TickOf(limits, priorities, discoveries, rotation), rotation, priorities, discoveries)
  {
    hide TakeCircular, GoesOnFrom;
    TakeGoesOn(priorities, 1, rotation.priorityCursor);
    TakeGoesOn(discoveries, 1, rotation.discoveryCursor);
    TakeLength(priorities, 1, rotation.priorityCursor);
    TakeLength(discoveries, 1, rotation.discoveryCursor);
  }

  /** The least of what is asked for, what is there and what is allowed. */
  function ReserveOf(limits: Limits, priorities: nat, discoveries: nat): int {
    Smaller(Smaller(limits.discoveryPools, discoveries),
            if priorities > 0 then limits.maximumPools - 1 else limits.maximumPools)
  }

  lemma SharesAreLeast(limits: Limits, priorities: nat, discoveries: nat)
    requires ValidLimits(limits) && !(limits.maximumPools == 1 && priorities > 0 && discoveries > 0)
    ensures var reserve := ReserveOf(limits, priorities, discoveries);
            var first, second := PriorityShare(limits, priorities, discoveries),
                                 DiscoveryShare(limits, priorities, discoveries);
            && IsLeast(reserve, [limits.discoveryPools, discoveries,
                                 if priorities > 0 then limits.maximumPools - 1 else limits.maximumPools])
            && IsLeast(first, [priorities, limits.maximumPools - reserve])
            && IsLeast(second, [discoveries, limits.discoveryPools, limits.maximumPools - first])
  {
    hide TakeCircular;
    TakeLength(priorities, PriorityBudget(limits, priorities, discoveries), 0);
  }

  lemma SlotsExactly(limits: Limits, priorities: nat, discoveries: nat, rotation: Rotation) returns (reserve: int)
    requires ValidLimits(limits) && !(limits.maximumPools == 1 && priorities > 0 && discoveries > 0)
    ensures SharesSlots(TickOf(limits, priorities, discoveries, rotation), limits, rotation, priorities, discoveries,
                        reserve)
  {
    hide TakeCircular, GoesOnFrom, IsLeast, PriorityBudget, DiscoveryBudget, ReserveOf;
    reserve := ReserveOf(limits, priorities, discoveries);
    SharesAreLeast(limits, priorities, discoveries);
    SharesArePositive(limits, priorities, discoveries);
    TakeGoesOn(priorities, PriorityBudget(limits, priorities, discoveries), rotation.priorityCursor);
    TakeGoesOn(discoveries, DiscoveryBudget(limits, priorities, discoveries), rotation.discoveryCursor);
    TakeLength(priorities, PriorityBudget(limits, priorities, discoveries), rotation.priorityCursor);
    TakeLength(discoveries, DiscoveryBudget(limits, priorities, discoveries), rotation.discoveryCursor);
  }

  /**
   * One tick, whatever its inputs: with one slot and both lists filled the slot alternates, otherwise the shares are
   * the least of what is there and what is allowed. Both lists are taken in turn from their cursors on.
   */
  lemma TickExactly(maximumPools: real, discoveryPools: real, priorities: nat, discoveries: nat, rotation: Rotation)
    ensures var limits := LimitsOf(maximumPools, discoveryPools);
            var tick := TickOf(limits, priorities, discoveries, rotation);
            if maximumPools < 2.0 && priorities > 0 && discoveries > 0
            then SharesOneSlot(tick, rotation, priorities, discoveries)
            else exists reserve :: SharesSlots(tick, limits, rotation, priorities, discoveries, reserve)
  {
    hide TickOf, SharesOneSlot, SharesSlots, LimitsOf;
    LimitsExactly(maximumPools, discoveryPools);
    var limits := LimitsOf(maximumPools, discoveryPools);
    if maximumPools < 2.0 && priorities > 0 && discoveries > 0 {
      OneSlotExactly(limits, priorities, discoveries, rotation);
    } else {
      var reserve := SlotsExactly(limits, priorities, discoveries, rotation);
    }
  }

  // ---------------------------------------------------------------- the lists

  function CameFirst(candidates: seq<Candidate>): (Candidate, Candidate) -> bool {
    (left: Candidate, right: Candidate) =>
      exists i, j :: 0 <= i < j < |candidates| && candidates[i] == left && candidates[j] == right
  }

  /**
   * The priority list holds the candidates with a priority address, as often as they are given, by the last place of
   * their address and then as given; the discovery list holds the others as given.
   */
  lemma ListsExactly(candidates: seq<Candidate>, addresses: seq<string>, c: Candidate)
    ensures var priority, discovery := PriorityList(candidates, addresses), DiscoveryList(candidates, addresses);
            && multiset(priority)[c] == (if c.address in addresses then multiset(candidates)[c] else 0)
            && multiset(discovery)[c] == (if c.address in addresses then 0 else multiset(candidates)[c])
            && (forall i: nat, j: nat :: i < j < |priority| ==>
                  var left, right := OrderOf(addresses, priority[i].address), OrderOf(addresses, priority[j].address);
                  left < right || (left == right && CameFirst(candidates)(priority[i], priority[j])))
            && (forall i: nat, j: nat :: i < j < |discovery| ==> CameFirst(candidates)(discovery[i], discovery[j]))
  {
    hide StableSort, Filter, CameFirst;
    var has, lacks := (c: Candidate) => c.address in addresses, (c: Candidate) => c.address !in addresses;
    var priority, discovery := PriorityList(candidates, addresses), DiscoveryList(candidates, addresses);
    FilterCounts(has, candidates, c);
    FilterCounts(lacks, candidates, c);
    AsGiven(candidates);
    FilterKeepsPairwise(has, CameFirst(candidates), candidates);
    FilterKeepsPairwise(lacks, CameFirst(candidates), candidates);
    StableSortSorts(NotAfter(addresses), Filter(has, candidates));
    forall i: nat, j: nat | i < j < |priority|
      ensures var left, right := OrderOf(addresses, priority[i].address), OrderOf(addresses, priority[j].address);
              left < right || (left == right && CameFirst(candidates)(priority[i], priority[j]))
    {
      assert NotAfter(addresses)(priority[i], priority[j]);
      if NotAfter(addresses)(priority[j], priority[i]) {
        TiesStayInOrder(NotAfter(addresses), CameFirst(candidates), Filter(has, candidates), i, j);
      }
    }
  }

  lemma AsGiven(candidates: seq<Candidate>)
    ensures Pairwise(CameFirst(candidates), candidates)
  {}
}
