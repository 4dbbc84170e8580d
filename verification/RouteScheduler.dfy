/** The route scheduler of src/candidate-pool/worker.ts: two rotating cursors share a bounded budget. */
module RouteScheduler {
  import opened Sequences
  import opened Wrappers

  /** Everything but the address is payload. */
  datatype Candidate = Candidate(address: string, mint: string)

  /** The remainder of JavaScript takes the sign of the dividend. */
  function JsRemainder(a: int, n: int): int
    requires n > 0
  {
    if a >= 0 then a % n else -((-a) % n)
  }

  function Smaller(a: int, b: int): int { if a < b then a else b }
  function Larger(a: int, b: int): int { if a > b then a else b }

  // ---------------------------------------------------------------- circular take

  function StartOf(length: nat, cursor: int): (start: nat)
    requires length > 0
    ensures start < length
  {
    JsRemainder(JsRemainder(cursor, length) + length, length)
  }

  lemma StartOfPosition(length: nat, position: nat)
    requires position < length
    ensures StartOf(length, position) == position
  {
    WrapOnce(position + length, length);
    WrapOnce(position, length);
  }

  lemma WrapOnce(x: nat, n: nat)
    requires x < 2 * n
    ensures x % n == if x < n then x else x - n
  {
    if x >= n { assert x == n * 1 + (x - n); }
  }

  /** Going `offset` positions on from `start`, around the end at most once. */
  function Around(length: nat, start: nat, offset: nat): (position: nat)
    requires start < length && offset <= length
    ensures position == if start + offset < length then start + offset else start + offset - length
  {
    WrapOnce(start + offset, length);
    (start + offset) % length
  }

  /** The positions a circular take visits. */
  datatype Take = Take(positions: seq<nat>, nextCursor: int)

  function TakeCircular(length: nat, maximum: int, cursor: int): (t: Take)
    ensures forall position :: position in t.positions ==> position < length
  {
    if length == 0 || maximum <= 0 then Take([], 0)
    else
      var count := Smaller(length, maximum);
      var start := StartOf(length, cursor);
      Take(seq(count, o requires 0 <= o < count => Around(length, start, o)), Around(length, start, count))
  }

  /** The items at the given positions. */
  function At<T>(items: seq<T>, positions: seq<nat>): (r: seq<T>)
    requires forall position :: position in positions ==> position < |items|
    ensures |r| == |positions|
    ensures forall o :: 0 <= o < |positions| ==> positions[o] in positions && r[o] == items[positions[o]]
  {
    seq(|positions|, o requires 0 <= o < |positions| => (assert positions[o] in positions; items[positions[o]]))
  }

  ghost predicate NoRepeats<T>(xs: seq<T>) {
    forall i, j :: 0 <= i < j < |xs| ==> xs[i] != xs[j]
  }

  lemma TakeIsDistinct(length: nat, maximum: int, cursor: int)
    ensures NoRepeats(TakeCircular(length, maximum, cursor).positions)
    ensures |TakeCircular(length, maximum, cursor).positions| <= Larger(0, maximum)
  {
    hide StartOf;
  }

  // ---------------------------------------------------------------- one tick

  datatype Rotation = Rotation(priorityCursor: int, discoveryCursor: int, singleSlotTurn: Option<int>)

  /** The two limits after the rounding at the top of selectRouteCandidates. */
  datatype Limits = Limits(maximumPools: int, discoveryPools: int)

  function LimitsOf(maximumPools: real, discoveryPools: real): Limits {
    var m := Larger(1, maximumPools.Floor);
    Limits(m, Smaller(m, Larger(1, discoveryPools.Floor)))
  }

  ghost predicate ValidLimits(limits: Limits) {
    1 <= limits.discoveryPools <= limits.maximumPools
  }

  predicate IsSingleSlot(limits: Limits, priorities: nat, discoveries: nat) {
    limits.maximumPools == 1 && priorities > 0 && discoveries > 0
  }

  function PriorityBudget(limits: Limits, priorities: nat, discoveries: nat): int {
    var reserve := if priorities > 0 then limits.maximumPools - 1 else limits.maximumPools;
    Larger(0, limits.maximumPools - Smaller(Smaller(limits.discoveryPools, discoveries), reserve))
  }

  function DiscoveryBudget(limits: Limits, priorities: nat, discoveries: nat): int {
    Smaller(limits.discoveryPools,
            limits.maximumPools - |TakeCircular(priorities, PriorityBudget(limits, priorities, discoveries),
                                                0).positions|)
  }

  /** The positions one tick takes from the priority and the discovery list, and the rotation it leaves. */
  datatype Tick = Tick(priority: seq<nat>, discovery: seq<nat>, rotation: Rotation)

  function TickOf(limits: Limits, priorities: nat, discoveries: nat, rotation: Rotation): (t: Tick)
    ensures forall position :: position in t.priority ==> position < priorities
    ensures forall position :: position in t.discovery ==> position < discoveries
  {
    if IsSingleSlot(limits, priorities, discoveries) then
      var turn := rotation.singleSlotTurn.GetOr(0);
      if JsRemainder(turn, 4) == 3 then
        var take := TakeCircular(discoveries, 1, rotation.discoveryCursor);
        Tick([], take.positions, rotation.(discoveryCursor := take.nextCursor, singleSlotTurn := Some(turn + 1)))
      else
        var take := TakeCircular(priorities, 1, rotation.priorityCursor);
        Tick(take.positions, [], rotation.(priorityCursor := take.nextCursor, singleSlotTurn := Some(turn + 1)))
    else
      var priority := TakeCircular(priorities, PriorityBudget(limits, priorities, discoveries),
                                   rotation.priorityCursor);
      var discovery := TakeCircular(discoveries, DiscoveryBudget(limits, priorities, discoveries),
                                    rotation.discoveryCursor);
      Tick(priority.positions, discovery.positions,
           rotation.(priorityCursor := priority.nextCursor, discoveryCursor := discovery.nextCursor))
  }

  // ---------------------------------------------------------------- candidates

  /** The index a Map built from [address, index] pairs keeps: the last one. */
  function OrderOf(addresses: seq<string>, address: string): (order: int)
    ensures order == -1 <==> address !in addresses
    ensures order != -1 ==>
              0 <= order < |addresses| && addresses[order] == address && forall i :: order < i < |addresses| ==>
                  addresses[i] != address
  {
    if addresses == [] then -1
    else if addresses[|addresses| - 1] == address then |addresses| - 1
    else OrderOf(addresses[..|addresses| - 1], address)
  }

  function NotAfter(addresses: seq<string>): (Candidate, Candidate) -> bool {
    (left: Candidate, right: Candidate) => OrderOf(addresses, left.address) <= OrderOf(addresses, right.address)
  }

  function PriorityList(candidates: seq<Candidate>, addresses: seq<string>): seq<Candidate> {
    StableSort(NotAfter(addresses), Filter((c: Candidate) => c.address in addresses, candidates))
  }

  function DiscoveryList(candidates: seq<Candidate>, addresses: seq<string>): seq<Candidate> {
    Filter((c: Candidate) => c.address !in addresses, candidates)
  }

  function Picked(candidates: seq<Candidate>, addresses: seq<string>, tick: Tick): seq<Candidate>
    requires forall position :: position in tick.priority ==> position < |PriorityList(candidates, addresses)|
    requires forall position :: position in tick.discovery ==> position < |DiscoveryList(candidates, addresses)|
  {
    At(PriorityList(candidates, addresses), tick.priority) + At(DiscoveryList(candidates, addresses), tick.discovery)
  }

  /** The two lists split the candidates, and the priority list follows the order of the addresses. */
  lemma ListsSplitTheCandidates(candidates: seq<Candidate>, addresses: seq<string>)
    ensures forall c :: c in candidates <==>
              c in PriorityList(candidates, addresses) || c in DiscoveryList(candidates, addresses)
    ensures forall c :: c in PriorityList(candidates, addresses) ==> c.address in addresses
    ensures forall c :: c in DiscoveryList(candidates, addresses) ==> c.address !in addresses
    ensures SortedBy(NotAfter(addresses), PriorityList(candidates, addresses))
  {
    SameMembers(PriorityList(candidates, addresses), Filter((c: Candidate) => c.address in addresses, candidates));
    StableSortSorts(NotAfter(addresses), Filter((c: Candidate) => c.address in addresses, candidates));
  }

  /** The mutable rotation state a worker keeps between ticks. */
  class RotationState {
    var priorityCursor: int
    var discoveryCursor: int
    var singleSlotTurn: Option<int>

    constructor ()
      ensures Value() == Rotation(0, 0, None)
    {
      priorityCursor, discoveryCursor, singleSlotTurn := 0, 0, None;
    }

    function Value(): Rotation
      reads this
    {
      Rotation(priorityCursor, discoveryCursor, singleSlotTurn)
    }
  }

  method TakeItems(items: seq<Candidate>, maximum: int, cursor: int) returns (selected: seq<Candidate>, nextCursor: int)
    ensures var take := TakeCircular(|items|, maximum, cursor);
            selected == At(items, take.positions) && nextCursor == take.nextCursor
  {
    if |items| == 0 || maximum <= 0 { return [], 0; }
    var count := if |items| < maximum then |items| else maximum;
    var start := JsRemainder(JsRemainder(cursor, |items|) + |items|, |items|);
    selected := seq(count, offset requires 0 <= offset < count => items[(start + offset) % |items|]);
    nextCursor := (start + count) % |items|;
  }

  /** selectRouteCandidates: the candidates it returns and the rotation it leaves are those of one tick. */
  method SelectRouteCandidates(candidates: seq<Candidate>, priorityAddresses: seq<string>,
                               maximumPoolsInput: real, discoveryPoolsInput: real, state: RotationState)
    returns (selected: seq<Candidate>)
    modifies state
    ensures var limits := LimitsOf(maximumPoolsInput, discoveryPoolsInput);
            var tick := TickOf(limits, |PriorityList(candidates, priorityAddresses)|,
                               |DiscoveryList(candidates, priorityAddresses)|,
                               old(state.Value()));
            selected == Picked(candidates, priorityAddresses, tick) && state.Value() == tick.rotation
  {
    hide PriorityList, DiscoveryList, TakeCircular;
    var maximumPools := Larger(1, maximumPoolsInput.Floor);
    var discoveryPools := Smaller(maximumPools, Larger(1, discoveryPoolsInput.Floor));
    var priority := PriorityList(candidates, priorityAddresses);
    var discovery := DiscoveryList(candidates, priorityAddresses);
    if maximumPools == 1 && |priority| > 0 && |discovery| > 0 {
      var turn := state.singleSlotTurn.GetOr(0);
      state.singleSlotTurn := Some(turn + 1);
      if JsRemainder(turn, 4) == 3 {
        selected, state.discoveryCursor := TakeItems(discovery, 1, state.discoveryCursor);
      } else {
        selected, state.priorityCursor := TakeItems(priority, 1, state.priorityCursor);
      }
      return;
    }
    var reserve := if |priority| > 0 then maximumPools - 1 else maximumPools;
    var prioritySelection, priorityNext :=
      TakeItems(priority, Larger(0, maximumPools - Smaller(Smaller(discoveryPools, |discovery|), reserve)),
                state.priorityCursor);
    TakeLength(|priority|, PriorityBudget(Limits(maximumPools, discoveryPools), |priority|, |discovery|),
               state.priorityCursor);
    var discoverySelection, discoveryNext :=
      TakeItems(discovery, Smaller(discoveryPools, maximumPools - |prioritySelection|), state.discoveryCursor);
    state.priorityCursor := priorityNext;
    state.discoveryCursor := discoveryNext;
    selected := prioritySelection + discoverySelection;
  }

  /** How many positions a take visits does not depend on its cursor. */
  lemma TakeLength(length: nat, maximum: int, cursor: int)
    ensures |TakeCircular(length, maximum, cursor).positions| == Smaller(length, Larger(0, maximum))
    ensures |TakeCircular(length, maximum, cursor).positions| == |TakeCircular(length, maximum, 0).positions|
  {}

  // ---------------------------------------------------------------- what one tick keeps

  /**
   * A tick takes no position twice and at most maximumPools in all, and in every mode it takes something if there is
   * something.
   */
  lemma TickIsBounded(limits: Limits, priorities: nat, discoveries: nat, rotation: Rotation)
    requires ValidLimits(limits)
    ensures var tick := TickOf(limits, priorities, discoveries, rotation);
            && NoRepeats(tick.priority) && NoRepeats(tick.discovery)
            && |tick.priority| + |tick.discovery| <= limits.maximumPools
            && (priorities + discoveries > 0 ==> |tick.priority| + |tick.discovery| > 0)
  {
    if IsSingleSlot(limits, priorities, discoveries) {
      TakeIsDistinct(discoveries, 1, rotation.discoveryCursor);
      TakeIsDistinct(priorities, 1, rotation.priorityCursor);
    } else {
      TakeIsDistinct(priorities, PriorityBudget(limits, priorities, discoveries), rotation.priorityCursor);
      TakeIsDistinct(discoveries, DiscoveryBudget(limits, priorities, discoveries), rotation.discoveryCursor);
    }
  }

  /** What a tick takes from each list when it is not in single-slot mode. */
  function PriorityShare(limits: Limits, priorities: nat, discoveries: nat): nat {
    Smaller(priorities, PriorityBudget(limits, priorities, discoveries))
  }

  function DiscoveryShare(limits: Limits, priorities: nat, discoveries: nat): nat
    requires ValidLimits(limits)
  {
    Smaller(discoveries, DiscoveryBudget(limits, priorities, discoveries))
  }

  /**
   * Outside single-slot mode a non-empty list always gets a share, so the zero-budget branch, which would reset its
   * cursor to 0, is reached for empty lists only.
   */
  lemma SharesArePositive(limits: Limits, priorities: nat, discoveries: nat)
    requires ValidLimits(limits) && !IsSingleSlot(limits, priorities, discoveries)
    ensures priorities > 0 ==>
              PriorityBudget(limits, priorities, discoveries) >= 1
                && PriorityShare(limits, priorities, discoveries) >= 1
    ensures discoveries > 0 ==>
              DiscoveryBudget(limits, priorities, discoveries) >= 1
                && DiscoveryShare(limits, priorities, discoveries) >= 1
  {}

  /**
   * Outside single-slot mode discovery gets its reserve, but for one slot when there are priorities, and never more
   * than the reserve; the priorities get all the rest they can use.
   */
  lemma DiscoveryKeepsItsReserve(limits: Limits, priorities: nat, discoveries: nat, rotation: Rotation)
    requires ValidLimits(limits) && !IsSingleSlot(limits, priorities, discoveries)
    ensures var tick := TickOf(limits, priorities, discoveries, rotation);
            var most := if priorities > 0 then limits.maximumPools - 1 else limits.maximumPools;
            && Smaller(Smaller(limits.discoveryPools, discoveries), most) <= |tick.discovery| <= limits.discoveryPools
            && Smaller(priorities, limits.maximumPools - limits.discoveryPools) <= |tick.priority|
            && (discoveries == 0 ==> |tick.priority| == Smaller(priorities, limits.maximumPools))
  {
    hide TakeCircular;
    TakeLength(priorities, PriorityBudget(limits, priorities, discoveries), rotation.priorityCursor);
    TakeLength(discoveries, DiscoveryBudget(limits, priorities, discoveries), rotation.discoveryCursor);
  }

  // ---------------------------------------------------------------- bounded waiting

  /** How many positions a circular take passes before it reaches position i. */
  function Distance(length: nat, cursor: int, i: nat): (d: nat)
    requires i < length
    ensures d < length
  {
    var start := StartOf(length, cursor);
    if start <= i then i - start else i - start + length
  }

  /** A take reaches the positions nearer than its share and moves the others nearer by exactly that much. */
  lemma TakeApproaches(length: nat, maximum: int, cursor: int, i: nat)
    requires i < length && maximum >= 1
    ensures var take := TakeCircular(length, maximum, cursor);
            var share := Smaller(length, maximum);
            && (i in take.positions <==> Distance(length, cursor, i) < share)
            && (Distance(length, cursor, i) >= share ==>
                  Distance(length, take.nextCursor, i) == Distance(length, cursor, i) - share)
  {
    hide StartOf;
    var start, share, d := StartOf(length, cursor), Smaller(length, maximum), Distance(length, cursor, i);
    var take := TakeCircular(length, maximum, cursor);
    StartOfPosition(length, take.nextCursor);
    if d < share { assert take.positions[d] == i; }
  }

  function RotationAfter(limits: Limits, priorities: nat, discoveries: nat, rotation: Rotation, ticks: nat): Rotation
    decreases ticks
  {
    if ticks == 0 then rotation
    else RotationAfter(limits, priorities, discoveries, TickOf(limits, priorities, discoveries, rotation).rotation,
                       ticks - 1)
  }

  function TickAfter(limits: Limits, priorities: nat, discoveries: nat, rotation: Rotation, ticks: nat): Tick {
    TickOf(limits, priorities, discoveries, RotationAfter(limits, priorities, discoveries, rotation, ticks))
  }

  function CeilDiv(a: nat, b: nat): nat
    requires b > 0
  {
    (a + b - 1) / b
  }

  lemma CeilCovers(a: nat, b: nat)
    requires b > 0
    ensures CeilDiv(a, b) * b >= a
  {
    assert a + b - 1 == (a + b - 1) / b * b + (a + b - 1) % b;
  }

  lemma BelowCeil(k: nat, a: nat, b: nat)
    requires b > 0 && k * b < a
    ensures k < CeilDiv(a, b)
  {
    CeilCovers(a, b);
    if CeilDiv(a, b) <= k { MulGrows(CeilDiv(a, b), k, b); }
  }

  lemma MulGrows(x: nat, y: nat, b: nat)
    requires x <= y
    ensures x * b <= y * b
  {}

  lemma {:induction false} PriorityTurnComes(limits: Limits, priorities: nat, discoveries: nat, rotation: Rotation,
                                             i: nat) returns (ticks: nat)
    requires ValidLimits(limits) && !IsSingleSlot(limits, priorities, discoveries) && i < priorities
    ensures i in TickAfter(limits, priorities, discoveries, rotation, ticks).priority
    ensures ticks * PriorityShare(limits, priorities, discoveries) <= Distance(priorities, rotation.priorityCursor, i)
    decreases Distance(priorities, rotation.priorityCursor, i)
  {
    hide TakeCircular, Distance;
    SharesArePositive(limits, priorities, discoveries);
    TakeApproaches(priorities, PriorityBudget(limits, priorities, discoveries), rotation.priorityCursor, i);
    var tick := TickOf(limits, priorities, discoveries, rotation);
    ticks := 0;
    if i !in tick.priority {
      var rest := PriorityTurnComes(limits, priorities, discoveries, tick.rotation, i);
      ticks := rest + 1;
      assert ticks * PriorityShare(limits, priorities, discoveries)
          == rest * PriorityShare(limits, priorities, discoveries) + PriorityShare(limits, priorities, discoveries);
    }
  }

  lemma {:induction false} DiscoveryTurnComes(limits: Limits, priorities: nat, discoveries: nat, rotation: Rotation,
                                              i: nat) returns (ticks: nat)
    requires ValidLimits(limits) && !IsSingleSlot(limits, priorities, discoveries) && i < discoveries
    ensures i in TickAfter(limits, priorities, discoveries, rotation, ticks).discovery
    ensures ticks * DiscoveryShare(limits, priorities, discoveries) <= Distance(discoveries, rotation.discoveryCursor,
            i)
    decreases Distance(discoveries, rotation.discoveryCursor, i)
  {
    hide TakeCircular, Distance;
    SharesArePositive(limits, priorities, discoveries);
    TakeApproaches(discoveries, DiscoveryBudget(limits, priorities, discoveries), rotation.discoveryCursor, i);
    var tick := TickOf(limits, priorities, discoveries, rotation);
    ticks := 0;
    if i !in tick.discovery {
      var rest := DiscoveryTurnComes(limits, priorities, discoveries, tick.rotation, i);
      ticks := rest + 1;
      assert ticks * DiscoveryShare(limits, priorities, discoveries)
          == rest * DiscoveryShare(limits, priorities, discoveries) + DiscoveryShare(limits, priorities, discoveries);
    }
  }

  // ---------------------------------------------------------------- single-slot mode

  /** Single-slot ticks until a priority list that still has `distance` positions to pass reaches the wanted one. */
  function PriorityWait(turn: nat, distance: nat): nat
    decreases distance, turn % 4 == 3
  {
    if turn % 4 == 3 then 1 + PriorityWait(turn + 1, distance)
    else if distance == 0 then 0
    else 1 + PriorityWait(turn + 1, distance - 1)
  }

  function DiscoveryWait(turn: nat, distance: nat): nat
    decreases distance, 4 - turn % 4
  {
    if turn % 4 != 3 then 1 + DiscoveryWait(turn + 1, distance)
    else if distance == 0 then 0
    else 1 + DiscoveryWait(turn + 1, distance - 1)
  }

  /** Three turns in four are for priority. */
  lemma {:induction false} PriorityWaitBound(turn: nat, distance: nat)
    ensures PriorityWait(turn, distance) * 3 <= 4 * distance + 3
    ensures turn % 4 == 0 ==> PriorityWait(turn, distance) * 3 <= 4 * distance
    ensures turn % 4 == 1 ==> PriorityWait(turn, distance) * 3 <= 4 * distance + 1
    ensures turn % 4 == 2 ==> PriorityWait(turn, distance) * 3 <= 4 * distance + 2
    decreases distance, turn % 4 == 3
  {
    if turn % 4 == 3 {
      PriorityWaitBound(turn + 1, distance);
    } else if distance > 0 {
      PriorityWaitBound(turn + 1, distance - 1);
    }
  }

  /** One turn in four is for discovery. */
  lemma {:induction false} DiscoveryWaitBound(turn: nat, distance: nat)
    ensures DiscoveryWait(turn, distance) == 4 * distance + (3 - turn % 4)
    decreases distance, 4 - turn % 4
  {
    if turn % 4 != 3 {
      DiscoveryWaitBound(turn + 1, distance);
    } else if distance > 0 {
      DiscoveryWaitBound(turn + 1, distance - 1);
    }
  }

  lemma {:induction false} SingleSlotPriorityTurnComes(limits: Limits, priorities: nat, discoveries: nat,
                                                       rotation: Rotation, turn: nat, i: nat)
    requires IsSingleSlot(limits, priorities, discoveries) && i < priorities && rotation.singleSlotTurn.GetOr(0) == turn
    ensures i in TickAfter(limits, priorities, discoveries, rotation,
                           PriorityWait(turn, Distance(priorities, rotation.priorityCursor, i))).priority
    decreases Distance(priorities, rotation.priorityCursor, i), turn % 4 == 3
  {
    hide TakeCircular, Distance;
    TakeApproaches(priorities, 1, rotation.priorityCursor, i);
    var next := TickOf(limits, priorities, discoveries, rotation).rotation;
    if turn % 4 == 3 || Distance(priorities, rotation.priorityCursor, i) > 0 {
      SingleSlotPriorityTurnComes(limits, priorities, discoveries, next, turn + 1, i);
    }
  }

  lemma {:induction false} SingleSlotDiscoveryTurnComes(limits: Limits, priorities: nat, discoveries: nat,
                                                        rotation: Rotation, turn: nat, i: nat)
    requires IsSingleSlot(limits, priorities, discoveries) && i < discoveries
             && rotation.singleSlotTurn.GetOr(0) == turn
    ensures i in TickAfter(limits, priorities, discoveries, rotation,
                           DiscoveryWait(turn, Distance(discoveries, rotation.discoveryCursor, i))).discovery
    decreases Distance(discoveries, rotation.discoveryCursor, i), 4 - turn % 4
  {
    hide TakeCircular, Distance;
    TakeApproaches(discoveries, 1, rotation.discoveryCursor, i);
    var next := TickOf(limits, priorities, discoveries, rotation).rotation;
    if turn % 4 != 3 || Distance(discoveries, rotation.discoveryCursor, i) > 0 {
      SingleSlotDiscoveryTurnComes(limits, priorities, discoveries, next, turn + 1, i);
    }
  }

  // ---------------------------------------------------------------- the guarantee

  /** Ticks within which every position of the priority list is taken. */
  function PriorityBound(limits: Limits, priorities: nat, discoveries: nat): nat
    requires ValidLimits(limits) && priorities > 0
  {
    if IsSingleSlot(limits, priorities, discoveries) then 4 * CeilDiv(priorities, 3)
    else
      SharesArePositive(limits, priorities, discoveries);
      CeilDiv(priorities, PriorityShare(limits, priorities, discoveries))
  }

  function DiscoveryBound(limits: Limits, priorities: nat, discoveries: nat): nat
    requires ValidLimits(limits) && discoveries > 0
  {
    if IsSingleSlot(limits, priorities, discoveries) then 4 * discoveries
    else
      SharesArePositive(limits, priorities, discoveries);
      CeilDiv(discoveries, DiscoveryShare(limits, priorities, discoveries))
  }

  /** From any cursors, every position of the priority list is taken within the bound. */
  lemma PriorityIsServed(limits: Limits, priorities: nat, discoveries: nat, rotation: Rotation, i: nat)
    returns (ticks: nat)
    requires ValidLimits(limits) && i < priorities && rotation.singleSlotTurn.GetOr(0) >= 0
    ensures ticks < PriorityBound(limits, priorities, discoveries)
    ensures i in TickAfter(limits, priorities, discoveries, rotation, ticks).priority
  {
    hide TickOf, Distance, RotationAfter;
    if IsSingleSlot(limits, priorities, discoveries) {
      var turn := rotation.singleSlotTurn.GetOr(0);
      var distance := Distance(priorities, rotation.priorityCursor, i);
      SingleSlotPriorityTurnComes(limits, priorities, discoveries, rotation, turn, i);
      PriorityWaitBound(turn, distance);
      ticks := PriorityWait(turn, distance);
    } else {
      ticks := PriorityTurnComes(limits, priorities, discoveries, rotation, i);
      SharesArePositive(limits, priorities, discoveries);
      BelowCeil(ticks, priorities, PriorityShare(limits, priorities, discoveries));
    }
  }

  lemma DiscoveryIsServed(limits: Limits, priorities: nat, discoveries: nat, rotation: Rotation, i: nat)
    returns (ticks: nat)
    requires ValidLimits(limits) && i < discoveries && rotation.singleSlotTurn.GetOr(0) >= 0
    ensures ticks < DiscoveryBound(limits, priorities, discoveries)
    ensures i in TickAfter(limits, priorities, discoveries, rotation, ticks).discovery
  {
    hide TickOf, Distance, RotationAfter;
    if IsSingleSlot(limits, priorities, discoveries) {
      var turn := rotation.singleSlotTurn.GetOr(0);
      var distance := Distance(discoveries, rotation.discoveryCursor, i);
      SingleSlotDiscoveryTurnComes(limits, priorities, discoveries, rotation, turn, i);
      DiscoveryWaitBound(turn, distance);
      ticks := DiscoveryWait(turn, distance);
    } else {
      ticks := DiscoveryTurnComes(limits, priorities, discoveries, rotation, i);
      SharesArePositive(limits, priorities, discoveries);
      BelowCeil(ticks, discoveries, DiscoveryShare(limits, priorities, discoveries));
    }
  }

  /** With fixed lists no candidate starves: each one is among those returned within its list's bound. */
  lemma NoCandidateStarves(candidates: seq<Candidate>, addresses: seq<string>, maximumPools: real, discoveryPools: real,
                           rotation: Rotation, candidate: Candidate)
    returns (ticks: nat)
    requires candidate in candidates && rotation.singleSlotTurn.GetOr(0) >= 0
    ensures var priorities, discoveries := |PriorityList(candidates, addresses)|,
            |DiscoveryList(candidates, addresses)|;
            var limits := LimitsOf(maximumPools, discoveryPools);
            && candidate in Picked(candidates, addresses, TickAfter(limits, priorities, discoveries, rotation, ticks))
            && (if candidate.address in addresses
                then priorities > 0 && ticks < PriorityBound(limits, priorities, discoveries)
                else discoveries > 0 && ticks < DiscoveryBound(limits, priorities, discoveries))
  {
    hide PriorityList, DiscoveryList, TickOf, RotationAfter, PriorityBound, DiscoveryBound;
    ListsSplitTheCandidates(candidates, addresses);
    var priority, discovery := PriorityList(candidates, addresses), DiscoveryList(candidates, addresses);
    var limits := LimitsOf(maximumPools, discoveryPools);
    if candidate.address in addresses {
      var i :| 0 <= i < |priority| && priority[i] == candidate;
      ticks := PriorityIsServed(limits, |priority|, |discovery|, rotation, i);
    } else {
      var i :| 0 <= i < |discovery| && discovery[i] == candidate;
      ticks := DiscoveryIsServed(limits, |priority|, |discovery|, rotation, i);
    }
  }
}
