/**
 * Position ids shared across targets, for any ledger: a rewritten id can meet a third target's id, whose record is then
 * rewritten too, and so on. How long that goes on, and when a conflict is left in the end.
 */
module PositionIdCascade {
  import opened Wrappers
  import opened LedgerTypes
  import opened LifecycleAudit
  import opened LifecycleRepair

  predicate IsChained(record: LedgerRecord) { Truthy(record.chainPositionAddress) }

  /** The other record's position id, as it stands or once displaced to its address, meets this record's. */
  predicate Meets(record: LedgerRecord, other: LedgerRecord, displaced: bool) {
    && Truthy(record.positionId) && TargetKey(other) != TargetKey(record)
    && (other.positionId == record.positionId || (displaced && other.chainPositionAddress == record.positionId))
  }

  /**
   * A chained record is displaced within one step when another target shares its position id, and within one step more
   * than another target's record whose chain address is its position id.
   */
  ghost predicate Displaced(records: seq<LedgerRecord>, i: nat, steps: nat)
    requires i < |records|
    decreases steps
  {
    && steps > 0 && IsChained(records[i])
    && exists j :: 0 <= j < |records| && Meets(records[i], records[j], Displaced(records, j, steps - 1))
  }

  ghost function PositionIdAfter(records: seq<LedgerRecord>, i: nat, steps: nat): Option<string>
    requires i < |records|
  {
    if Displaced(records, i, steps) then records[i].chainPositionAddress else records[i].positionId
  }

  // ---------------------------------------------------------------- steps

  lemma {:induction false} DisplacedStays(records: seq<LedgerRecord>, i: nat, steps: nat)
    requires i < |records| && Displaced(records, i, steps)
    ensures Displaced(records, i, steps + 1)
    decreases steps
  {
    var j :| 0 <= j < |records| && Meets(records[i], records[j], Displaced(records, j, steps - 1));
    if Displaced(records, j, steps - 1) { DisplacedStays(records, j, steps - 1); }
    assert Meets(records[i], records[j], Displaced(records, j, steps));
  }

  ghost function Indices(n: nat): (r: set<nat>)
    ensures |r| == n && forall i: nat :: i in r <==> i < n
  {
    if n == 0 then {} else Indices(n - 1) + {n - 1}
  }

  ghost function DisplacedSet(records: seq<LedgerRecord>, steps: nat): set<nat> {
    set i | i in Indices(|records|) && Displaced(records, i, steps)
  }

  ghost predicate StillAt(records: seq<LedgerRecord>, steps: nat) {
    DisplacedSet(records, steps) == DisplacedSet(records, steps + 1)
  }

  lemma StillStays(records: seq<LedgerRecord>, steps: nat)
    requires StillAt(records, steps)
    ensures StillAt(records, steps + 1)
  {
    var next, later := steps + 1, steps + 2;
    forall i | i in Indices(|records|) ensures Displaced(records, i, next) <==> Displaced(records, i, later) {
      if Displaced(records, i, steps + 1) { DisplacedStays(records, i, steps + 1); }
      if Displaced(records, i, steps + 2) {
        var j :| 0 <= j < |records| && Meets(records[i], records[j], Displaced(records, j, steps + 1));
        assert j in DisplacedSet(records, steps) <==> j in DisplacedSet(records, steps + 1);
        assert Meets(records[i], records[j], Displaced(records, j, steps));
      }
    }
  }

  /** Until it comes to rest the cascade displaces one more record with each step. */
  lemma {:induction false} StillOrGrowing(records: seq<LedgerRecord>, steps: nat)
    ensures StillAt(records, steps) || |DisplacedSet(records, steps)| >= steps
  {
    hide Displaced;
    if steps > 0 {
      var before, after := DisplacedSet(records, steps - 1), DisplacedSet(records, steps);
      StillOrGrowing(records, steps - 1);
      if StillAt(records, steps - 1) {
        StillStays(records, steps - 1);
      } else {
        forall i | i in before ensures i in after { DisplacedStays(records, i, steps - 1); }
        assert before <= after && before != after;
        SmallerSet(before, after);
      }
    }
  }

  lemma SmallerSet(a: set<nat>, b: set<nat>)
    requires a <= b
    ensures |a| <= |b| && (|a| == |b| ==> a == b)
  {
    assert b == a + (b - a);
  }

  /** It comes to rest within as many steps as there are records. */
  lemma {:induction false} StillAfterAll(records: seq<LedgerRecord>, i: nat, steps: nat)
    requires i < |records| && steps >= |records|
    ensures StillAt(records, steps)
    ensures Displaced(records, i, steps) <==> Displaced(records, i, |records|)
    decreases steps
  {
    hide Displaced;
    if steps == |records| {
      StillOrGrowing(records, steps);
      var all := Indices(|records|);
      SmallerSet(DisplacedSet(records, steps), all);
      SmallerSet(DisplacedSet(records, steps + 1), all);
      if !StillAt(records, steps) {
        forall k | k in all ensures k in DisplacedSet(records, steps + 1) { DisplacedStays(records, k, steps); }
      }
    } else {
      StillAfterAll(records, i, steps - 1);
      StillStays(records, steps - 1);
      assert i in DisplacedSet(records, steps - 1) <==> i in DisplacedSet(records, steps);
    }
  }

  // ---------------------------------------------------------------- passes are steps

  lemma QuietStays(ledger: Ledger, pending: Option<Pending>, now: Stamp, passes: nat)
    requires DistinctKeys(ledger.records) && WithinPasses(ledger.records, pending, now, 0)
    ensures var after := RepairTimes(ledger, pending, now, passes).records;
            && AllSettle(ledger.records, after) && DistinctKeys(after) && WithinPasses(after, pending, now, 0)
  {
    PassesBound(ledger, pending, now, passes, 0);
  }

  /** A position id is shared after some passes exactly when the cascade is about to displace its record. */
  lemma SharedMeansDisplacedNext(before: seq<LedgerRecord>, later: seq<LedgerRecord>, i: nat, steps: nat)
    requires AllSettle(before, later) && i < |before| && IsChained(before[i]) && !Displaced(before, i, steps)
    requires forall k: nat :: k < |before| ==> later[k].positionId == PositionIdAfter(before, k, steps)
    ensures Truthy(later[i].positionId) && Duplicated(later, PositionId, later[i].positionId.value)
       <==> Displaced(before, i, steps + 1)
  {
    hide TargetKey;
    assert later[i].positionId == before[i].positionId;
    if Truthy(later[i].positionId) && Duplicated(later, PositionId, later[i].positionId.value) {
      var value := later[i].positionId.value;
      var x, y :| 0 <= x < |later| && 0 <= y < |later| && Carries(later[x], PositionId, value)
                  && Carries(later[y], PositionId, value) && TargetKey(later[x]) != TargetKey(later[y]);
      var j := if TargetKey(later[x]) != TargetKey(later[i]) then x else y;
      assert Settles(before[i], later[i]) && Settles(before[j], later[j]);
      assert Meets(before[i], before[j], Displaced(before, j, steps));
    }
    if Displaced(before, i, steps + 1) {
      var j :| 0 <= j < |before| && Meets(before[i], before[j], Displaced(before, j, steps));
      assert Settles(before[i], later[i]) && Settles(before[j], later[j]);
      assert steps > 0 ==> !Meets(before[i], before[j], Displaced(before, j, steps - 1));
      var value := later[i].positionId.value;
      assert Carries(later[i], PositionId, value) && Carries(later[j], PositionId, value);
    }
  }

  /** What repeated passes over a quiet ledger do to its position ids: one pass is one step of the cascade. */
  lemma {:induction false} PassesDisplace(ledger: Ledger, pending: Option<Pending>, now: Stamp, passes: nat, i: nat)
    requires DistinctKeys(ledger.records) && WithinPasses(ledger.records, pending, now, 0) && i < |ledger.records|
    ensures var after := RepairTimes(ledger, pending, now, passes).records;
            |after| == |ledger.records| && after[i].positionId == PositionIdAfter(ledger.records, i, passes)
    decreases passes
  {
    hide RepairLedger, WithinPasses, Displaced, TargetKey;
    QuietStays(ledger, pending, now, passes);
    if passes == 0 {
      NoStepYet(ledger.records, i);
    } else {
      var between := RepairTimes(ledger, pending, now, passes - 1);
      QuietStays(ledger, pending, now, passes - 1);
      forall k: nat | k < |ledger.records|
        ensures between.records[k].positionId == PositionIdAfter(ledger.records, k, passes - 1)
      {
        PassesDisplace(ledger, pending, now, passes - 1, k);
      }
      QuietPositionId(between, pending, now, i);
      assert Settles(ledger.records[i], between.records[i]);
      if Displaced(ledger.records, i, passes - 1) {
        DisplacedStays(ledger.records, i, passes - 1);
      } else if IsChained(ledger.records[i]) {
        SharedMeansDisplacedNext(ledger.records, between.records, i, passes - 1);
      } else {
        OnlyChainedAreDisplaced(ledger.records, i, passes);
      }
    }
  }

  lemma NoStepYet(records: seq<LedgerRecord>, i: nat)
    requires i < |records|
    ensures !Displaced(records, i, 0)
  {}

  lemma OnlyChainedAreDisplaced(records: seq<LedgerRecord>, i: nat, steps: nat)
    requires i < |records|
    ensures Displaced(records, i, steps) ==> IsChained(records[i])
  {}

  // ---------------------------------------------------------------- what is left in the end

  /** The record ends with this position id and keeps it: it has no chain address, or was displaced to it. */
  ghost predicate EndsAt(records: seq<LedgerRecord>, i: nat, value: string)
    requires i < |records|
  {
    || (!IsChained(records[i]) && Carries(records[i], PositionId, value))
    || (Displaced(records, i, |records|) && records[i].chainPositionAddress == Some(value))
  }

  /** Two records of different targets end at one position id. */
  ghost predicate EndsInConflict(records: seq<LedgerRecord>) {
    exists i: nat, j: nat, value ::
      i < |records| && j < |records| && TargetKey(records[i]) != TargetKey(records[j])
      && EndsAt(records, i, value) && EndsAt(records, j, value)
  }

  lemma EndIsReached(records: seq<LedgerRecord>, i: nat, steps: nat, value: string)
    requires i < |records| && steps >= |records| && EndsAt(records, i, value)
    ensures PositionIdAfter(records, i, steps) == Some(value) && value != ""
  {
    hide Displaced;
    StillAfterAll(records, i, steps);
    OnlyChainedAreDisplaced(records, i, steps);
  }

  /** Where two targets still share a position id at rest, both records ended there. */
  lemma SharedAtTheEnd(records: seq<LedgerRecord>, i: nat, j: nat, steps: nat, value: string)
    requires i < |records| && j < |records| && steps >= |records| && value != ""
    requires TargetKey(records[i]) != TargetKey(records[j])
    requires PositionIdAfter(records, i, steps) == PositionIdAfter(records, j, steps) == Some(value)
    ensures EndsAt(records, i, value)
  {
    hide TargetKey;
    StillAfterAll(records, i, steps);
    StillAfterAll(records, j, steps);
    assert i in DisplacedSet(records, steps + 1) <==> i in DisplacedSet(records, steps);
    assert IsChained(records[i]) && Meets(records[i], records[j], Displaced(records, j, steps))
           ==> Displaced(records, i, steps + 1);
  }

  lemma OnlyPositionIdsLeft(ledger: Ledger, pending: Option<Pending>, now: Stamp)
    requires WithinPasses(ledger.records, pending, now, 0)
    ensures FindLifecycleIssues(ledger.records, pending, now) == [] <==> NoConflict(ledger.records, PositionId)
  {
    hide FindLifecycleIssues, WithinPasses, Duplicated;
    var records := ledger.records;
    var issues := FindLifecycleIssues(records, pending, now);
    if issues != [] { NoPassesOnlyPositionConflicts(records, pending, now, issues[0]); }
    if !NoConflict(records, PositionId) {
      var value :| Duplicated(records, PositionId, value);
      IssuesExact(records, pending, now,
                  CrossTargetIdentity(PositionId, value, TargetsOf(records, PositionId, value)));
    }
  }

  /**
   * A ledger that has only position ids left to repair: as many passes as it has records leave no issue exactly when no
   * two records of different targets end at one position id.
   */
  lemma QuietLedgerEndsExactly(ledger: Ledger, pending: Option<Pending>, now: Stamp, passes: nat)
    requires DistinctKeys(ledger.records) && WithinPasses(ledger.records, pending, now, 0)
    requires passes >= |ledger.records|
    ensures FindLifecycleIssues(RepairTimes(ledger, pending, now, passes).records, pending, now) == []
       <==> !EndsInConflict(ledger.records)
  {
    hide FindLifecycleIssues, WithinPasses, RepairTimes, EndsAt, Displaced, TargetKey;
    var before, after := ledger.records, RepairTimes(ledger, pending, now, passes).records;
    QuietStays(ledger, pending, now, passes);
    OnlyPositionIdsLeft(RepairTimes(ledger, pending, now, passes), pending, now);
    forall i: nat | i < |before|
      ensures after[i].positionId == PositionIdAfter(before, i, passes) && TargetKey(after[i]) == TargetKey(before[i])
    {
      PassesDisplace(ledger, pending, now, passes, i);
      assert Settles(before[i], after[i]);
    }
    if EndsInConflict(before) {
      var i: nat, j: nat, value :| i < |before| && j < |before| && TargetKey(before[i]) != TargetKey(before[j])
                                   && EndsAt(before, i, value) && EndsAt(before, j, value);
      EndIsReached(before, i, passes, value);
      EndIsReached(before, j, passes, value);
      assert Carries(after[i], PositionId, value) && Carries(after[j], PositionId, value);
      assert Duplicated(after, PositionId, value);
    } else {
      forall value ensures !Duplicated(after, PositionId, value) {
        if Duplicated(after, PositionId, value) {
          var i, j :| 0 <= i < |after| && 0 <= j < |after| && Carries(after[i], PositionId, value)
                      && Carries(after[j], PositionId, value) && TargetKey(after[i]) != TargetKey(after[j]);
          SharedAtTheEnd(before, i, j, passes, value);
          SharedAtTheEnd(before, j, i, passes, value);
          assert false;
        }
      }
    }
  }

  lemma {:induction false} PassesCompose(ledger: Ledger, pending: Option<Pending>, now: Stamp, a: nat, b: nat)
    ensures RepairTimes(ledger, pending, now, a + b)
         == RepairTimes(RepairTimes(ledger, pending, now, a), pending, now, b)
  {
    hide RepairLedger;
    if b > 0 { PassesCompose(ledger, pending, now, a, b - 1); }
  }

  /**
   * Any ledger with distinct keys: after the three passes (four with a shared open intent) that settle everything else,
   * as many passes as there are records leave no issue exactly when the settled ledger does not end in conflict.
   */
  lemma RepairEndsExactly(ledger: Ledger, pending: Option<Pending>, now: Stamp, passes: nat)
    requires DistinctKeys(ledger.records) && passes >= SettlingPasses(ledger.records) + |ledger.records|
    ensures var settled := RepairTimes(ledger, pending, now, SettlingPasses(ledger.records)).records;
            FindLifecycleIssues(RepairTimes(ledger, pending, now, passes).records, pending, now) == []
            <==> !EndsInConflict(settled)
  {
    hide FindLifecycleIssues, WithinPasses, RepairTimes, EndsInConflict, Rank;
    var settling := SettlingPasses(ledger.records);
    InitialBound(ledger.records, pending, now);
    PassesBound(ledger, pending, now, settling, settling);
    PassesCompose(ledger, pending, now, settling, passes - settling);
    QuietLedgerEndsExactly(RepairTimes(ledger, pending, now, settling), pending, now, passes - settling);
  }

  /** Where no chain address belongs to another target nothing cascades: only chainless records end in conflict. */
  lemma OwnAddressesDoNotCascade(records: seq<LedgerRecord>)
    requires AddressesAreOwn(records)
    ensures EndsInConflict(records) <==> ChainlessConflict(records)
  {
    hide TargetKey, Displaced;
    if EndsInConflict(records) {
      var i: nat, j: nat, value :| i < |records| && j < |records| && TargetKey(records[i]) != TargetKey(records[j])
                                   && EndsAt(records, i, value) && EndsAt(records, j, value);
      OnlyChainedAreDisplaced(records, i, |records|);
      OnlyChainedAreDisplaced(records, j, |records|);
      assert !UsesAddressOf(records[j], records[i]) && !UsesAddressOf(records[i], records[j]);
      assert AreInChainlessConflict(records[i], records[j]);
    }
    if ChainlessConflict(records) {
      var i, j :| 0 <= i < |records| && 0 <= j < |records| && AreInChainlessConflict(records[i], records[j]);
      var value := records[i].positionId.value;
      assert EndsAt(records, i, value) && EndsAt(records, j, value);
    }
  }

  // ---------------------------------------------------------------- a cascade of any length

  function Mark(n: nat): string { seq(n + 1, _ => 'x') }

  function Link(positionId: string, address: string): LedgerRecord {
    BLANK_RECORD.(positionKey := address, positionId := Some(positionId), chainPositionAddress := Some(address),
                  lifecycleState := Closed)
  }

  /** Record k has the address of the position id of record k + 1; the last record starts it off. */
  function Links(n: nat): seq<LedgerRecord> {
    seq(n, k requires 0 <= k < n => Link(Mark(k), Mark(k + 1))) + [Link(Mark(0), "c")]
  }

  lemma MarksDiffer(a: nat, b: nat)
    ensures Mark(a) == Mark(b) <==> a == b
    ensures Mark(a) != "c" && Mark(a) != ""
  {
    assert |Mark(a)| == a + 1 && |Mark(b)| == b + 1 && Mark(a)[0] == 'x';
  }

  lemma LinkTargets(a: LedgerRecord, b: LedgerRecord, p: string, q: string, x: string, y: string)
    requires a == Link(p, x) && b == Link(q, y)
    ensures TargetKey(a) == TargetKey(b) <==> x == y
  {
    assert TargetKey(a)[..|x|] == x && TargetKey(b)[..|y|] == y;
    assert |TargetKey(a)| == |x| + 2 && |TargetKey(b)| == |y| + 2;
  }

  lemma LinkAt(n: nat, i: nat)
    requires i <= n
    ensures |Links(n)| == n + 1 && Links(n)[i] == if i < n then Link(Mark(i), Mark(i + 1)) else Link(Mark(0), "c")
  {}

  lemma LinksMeet(n: nat, i: nat, j: nat, displaced: bool)
    requires i <= n && j <= n
    ensures Meets(Links(n)[i], Links(n)[j], displaced) <==>
              || (i == n && j == 0 && 0 < n) || (i == 0 && j == n && 0 < n)
              || (displaced && i < n && j + 1 == i)
  {
    hide TargetKey, Links, Mark;
    LinkAt(n, i);
    LinkAt(n, j);
    var p, q := if i < n then i else 0, if j < n then j else 0;
    var x, y := if i < n then Mark(i + 1) else "c", if j < n then Mark(j + 1) else "c";
    MarksDiffer(p, q);
    MarksDiffer(p, j + 1);
    MarksDiffer(i + 1, j + 1);
    MarksDiffer(j + 1, i + 1);
    LinkTargets(Links(n)[i], Links(n)[j], Mark(p), Mark(q), x, y);
  }

  lemma {:induction false} LinksDisplaced(n: nat, i: nat, steps: nat)
    requires 0 < n && i <= n
    ensures Displaced(Links(n), i, steps) <==> steps > 0 && (i == n || i < steps)
    decreases steps
  {
    hide Meets;
    var records := Links(n);
    if steps > 0 {
      var last := steps - 1;
      forall j: nat | j < |records|
        ensures Displaced(records, j, last) <==> last > 0 && (j == n || j < last)
        ensures Meets(records[i], records[j], Displaced(records, j, last)) <==>
                  || (i == n && j == 0) || (i == 0 && j == n)
                  || (Displaced(records, j, last) && i < n && j + 1 == i)
      {
        LinksDisplaced(n, j, last);
        LinksMeet(n, i, j, Displaced(records, j, last));
      }
      var partner := if i == n then 0 else if i == 0 then n else i - 1;
      assert Meets(records[i], records[partner], Displaced(records, partner, last)) <==> i == n || i < steps;
    }
  }

  lemma LinksAreQuiet(n: nat, pending: Option<Pending>, now: Stamp)
    ensures DistinctKeys(Links(n)) && WithinPasses(Links(n), pending, now, 0)
  {
    var records := Links(n);
    forall i, j | 0 <= i < j < |records| ensures records[i].positionKey != records[j].positionKey {
      MarksDiffer(i + 1, j + 1);
    }
  }

  /** No fixed number of passes is enough: this ledger of n + 1 records needs n. */
  lemma CascadeTakesEveryPass(n: nat, pending: Option<Pending>, now: Stamp)
    requires 0 < n
    ensures var ledger := Ledger(Links(n), Blank);
            && DistinctKeys(ledger.records)
            && FindLifecycleIssues(RepairTimes(ledger, pending, now, n - 1).records, pending, now) != []
            && FindLifecycleIssues(RepairTimes(ledger, pending, now, n).records, pending, now) == []
  {
    hide FindLifecycleIssues, RepairTimes, Displaced, TargetKey, WithinPasses, Links;
    var ledger := Ledger(Links(n), Blank);
    LinksAreQuiet(n, pending, now);
    LastLinksShare(ledger, pending, now, n);
    LinksEndApart(ledger, pending, now, n);
  }

  lemma LastLinksShare(ledger: Ledger, pending: Option<Pending>, now: Stamp, n: nat)
    requires 0 < n && ledger.records == Links(n)
    requires DistinctKeys(ledger.records) && WithinPasses(ledger.records, pending, now, 0)
    ensures FindLifecycleIssues(RepairTimes(ledger, pending, now, n - 1).records, pending, now) != []
  {
    hide FindLifecycleIssues, RepairTimes, Displaced, TargetKey, WithinPasses, Links, Mark;
    var after := RepairTimes(ledger, pending, now, n - 1).records;
    var other := if n > 1 then n - 2 else n;
    QuietStays(ledger, pending, now, n - 1);
    OnlyPositionIdsLeft(RepairTimes(ledger, pending, now, n - 1), pending, now);
    LinkAt(n, n - 1);
    LinkAt(n, other);
    LinksDisplaced(n, n - 1, n - 1);
    LinksDisplaced(n, other, n - 1);
    PassesDisplace(ledger, pending, now, n - 1, n - 1);
    PassesDisplace(ledger, pending, now, n - 1, other);
    assert Settles(ledger.records[n - 1], after[n - 1]) && Settles(ledger.records[other], after[other]);
    MarksDiffer(n, n - 1);
    MarksDiffer(n - 1, n);
    LinkTargets(Links(n)[n - 1], Links(n)[other], Mark(n - 1), Mark(if n > 1 then n - 2 else 0), Mark(n),
                if n > 1 then Mark(n - 1) else "c");
    assert Duplicated(after, PositionId, Mark(n - 1));
  }

  lemma LinksEndApart(ledger: Ledger, pending: Option<Pending>, now: Stamp, n: nat)
    requires 0 < n && ledger.records == Links(n)
    requires DistinctKeys(ledger.records) && WithinPasses(ledger.records, pending, now, 0)
    ensures FindLifecycleIssues(RepairTimes(ledger, pending, now, n).records, pending, now) == []
  {
    hide FindLifecycleIssues, RepairTimes, Displaced, TargetKey, WithinPasses, Links, Mark;
    var after := RepairTimes(ledger, pending, now, n).records;
    QuietStays(ledger, pending, now, n);
    OnlyPositionIdsLeft(RepairTimes(ledger, pending, now, n), pending, now);
    forall i: nat | i <= n ensures i < |after| && after[i].positionId == Some(if i < n then Mark(i + 1) else "c") {
      LinkAt(n, i);
      LinksDisplaced(n, i, n);
      PassesDisplace(ledger, pending, now, n, i);
    }
    forall value ensures !Duplicated(after, PositionId, value) {
      forall i: nat, j: nat | i < |after| && j < |after|
        && Carries(after[i], PositionId, value) && Carries(after[j], PositionId, value)
        ensures i == j
      {
        LinkAt(n, 0);
        MarksDiffer(i + 1, j + 1);
        MarksDiffer(j + 1, i + 1);
      }
    }
  }
}
