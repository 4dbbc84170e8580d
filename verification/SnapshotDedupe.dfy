/** Deduplicating closed-position snapshots: dedupeClosedPositionSnapshots of src/dashboard/dashboard-metrics.ts. */
module SnapshotDedupe {
  import opened Sequences
  import opened Wrappers

  datatype Source = WalletDelta | OtherSource

  /**
   * The closing time is a text: `closedOrder` is its place in the order of texts and `closedMs` the instant it parses
   * to, if it does. Nothing ties the two. The rest is payload.
   */
  datatype Snapshot = Snapshot(
    tokenMint: string,
    poolAddress: string,
    positionAddress: string,
    source: Source,
    isExact: bool,
    closedOrder: int,
    closedMs: Option<int>,
    payload: string)

  const CLOSE_TOLERANCE_MS := 180_000

  function Priority(snapshot: Snapshot): int {
    if snapshot.source.WalletDelta? then 3 else if snapshot.isExact then 2 else 1
  }

  predicate Overlap(left: Snapshot, right: Snapshot) {
    && left.tokenMint == right.tokenMint
    && !(left.positionAddress != "" && right.positionAddress != "" && left.positionAddress != right.positionAddress)
    && !(left.positionAddress == "" && right.positionAddress == "" && left.poolAddress != "" && right.poolAddress != ""
         && left.poolAddress != right.poolAddress)
    && left.closedMs.Some? && right.closedMs.Some?
    && -CLOSE_TOLERANCE_MS <= left.closedMs.value - right.closedMs.value <= CLOSE_TOLERANCE_MS
  }

  /** Higher priority first, and the later close first among equals. */
  function Preferred(): (Snapshot, Snapshot) -> bool {
    (left: Snapshot, right: Snapshot) =>
      Priority(left) > Priority(right) || (Priority(left) == Priority(right) && left.closedOrder >= right.closedOrder)
  }

  function ByClose(): (Snapshot, Snapshot) -> bool {
    (left: Snapshot, right: Snapshot) => left.closedOrder <= right.closedOrder
  }

  function Apart(): (Snapshot, Snapshot) -> bool { (left: Snapshot, right: Snapshot) => !Overlap(left, right) }

  predicate Covered(selected: seq<Snapshot>, snapshot: Snapshot) {
    exists i :: 0 <= i < |selected| && Overlap(selected[i], snapshot)
  }

  /** The greedy selection: a snapshot is kept unless it overlaps one kept before. */
  function SelectAll(ordered: seq<Snapshot>): seq<Snapshot> {
    if ordered == [] then []
    else
      var before := SelectAll(ordered[..|ordered| - 1]);
      if Covered(before, ordered[|ordered| - 1]) then before else before + [ordered[|ordered| - 1]]
  }

  function Dedupe(snapshots: seq<Snapshot>): seq<Snapshot> {
    StableSort(ByClose(), SelectAll(StableSort(Preferred(), snapshots)))
  }

  method DedupeClosedPositionSnapshots(snapshots: seq<Snapshot>) returns (result: seq<Snapshot>)
    ensures result == Dedupe(snapshots)
  {
    hide StableSort;
    var ordered := StableSort(Preferred(), snapshots);
    var selected: seq<Snapshot> := [];
    for i := 0 to |ordered|
      invariant selected == SelectAll(ordered[..i])
    {
      assert ordered[..i + 1][..i] == ordered[..i];
      if Covered(selected, ordered[i]) { continue; }
      selected := selected + [ordered[i]];
    }
    assert ordered[..|ordered|] == ordered;
    result := StableSort(ByClose(), selected);
  }

  lemma OverlapIsSymmetric(left: Snapshot, right: Snapshot)
    ensures Overlap(left, right) == Overlap(right, left)
  {}

  /** The relation is not transitive, so the order of the selection matters. */
  lemma OverlapIsNotTransitive()
    ensures exists a, b, c :: Overlap(a, b) && Overlap(b, c) && !Overlap(a, c)
  {
    var a := Snapshot("m", "", "x", WalletDelta, true, 0, Some(0), "");
    assert Overlap(a, a.(positionAddress := "")) && Overlap(a.(positionAddress := ""), a.(positionAddress := "y"))
           && !Overlap(a, a.(positionAddress := "y"));
  }

  lemma OrdersAreTotal()
    ensures TotalPreorder(Preferred()) && TotalPreorder(ByClose()) && Symmetric(Apart())
  {
    forall x, y | Apart()(x, y) ensures Apart()(y, x) { OverlapIsSymmetric(x, y); }
  }

  lemma {:induction false} SelectionIsApart(ordered: seq<Snapshot>)
    ensures Pairwise(Apart(), SelectAll(ordered))
  {
    hide Overlap;
    if ordered != [] { SelectionIsApart(ordered[..|ordered| - 1]); }
  }

  lemma {:induction false} SelectionIsSubsequence(ordered: seq<Snapshot>)
    ensures IsSubsequence(SelectAll(ordered), ordered)
  {
    hide Covered;
    if ordered != [] {
      var init, last := ordered[..|ordered| - 1], ordered[|ordered| - 1];
      SelectionIsSubsequence(init);
      SubsequenceSnoc(SelectAll(init), init, last);
      assert init + [last] == ordered;
    }
  }

  lemma {:induction false} SelectionKeepsPairwise(r: (Snapshot, Snapshot) -> bool, ordered: seq<Snapshot>)
    requires Pairwise(r, ordered)
    ensures Pairwise(r, SelectAll(ordered)) && forall x :: x in SelectAll(ordered) ==> x in ordered
  {
    hide Covered;
    if ordered != [] {
      var init, last := ordered[..|ordered| - 1], ordered[|ordered| - 1];
      SelectionKeepsPairwise(r, init);
      var before := SelectAll(init);
      forall j | 0 <= j < |before| ensures r(before[j], last) {
        assert before[j] in init;
        var k :| 0 <= k < |init| && init[k] == before[j];
        assert r(ordered[k], ordered[|init|]);
      }
    }
  }

  /** A snapshot that was kept, or that overlaps a kept one which the order does not put behind it. */
  ghost predicate Answered(selected: seq<Snapshot>, snapshot: Snapshot) {
    snapshot in selected || exists kept :: kept in selected && Overlap(kept, snapshot) && Preferred()(kept, snapshot)
  }

  lemma {:induction false} SelectionAnswersAll(ordered: seq<Snapshot>)
    requires SortedBy(Preferred(), ordered)
    ensures forall snapshot :: snapshot in ordered ==> Answered(SelectAll(ordered), snapshot)
  {
    hide Overlap, Preferred;
    if ordered != [] {
      var init, last := ordered[..|ordered| - 1], ordered[|ordered| - 1];
      SelectionAnswersAll(init);
      SelectionKeepsPairwise(Preferred(), init);
      var before, after := SelectAll(init), SelectAll(ordered);
      assert forall kept :: kept in before ==> kept in after;
      forall snapshot | snapshot in ordered ensures Answered(after, snapshot) {
        if snapshot in init {
          assert Answered(before, snapshot);
        } else if Covered(before, last) {
          var i :| 0 <= i < |before| && Overlap(before[i], last);
          assert before[i] in init;
          var k :| 0 <= k < |init| && init[k] == before[i];
          assert Preferred()(ordered[k], ordered[|init|]);
          assert before[i] in after;
        }
      }
    }
  }

  lemma {:induction false} ApartSelectsAll(ordered: seq<Snapshot>)
    requires Pairwise(Apart(), ordered)
    ensures SelectAll(ordered) == ordered
  {
    hide Overlap;
    if ordered != [] {
      ApartSelectsAll(ordered[..|ordered| - 1]);
      assert forall i :: 0 <= i < |ordered| - 1 ==> Apart()(ordered[i], ordered[|ordered| - 1]);
    }
  }

  /**
   * The result has no two overlapping snapshots, it is a selection from the input in closing order, and every input
   * snapshot is in it or overlaps one in it of at least its priority.
   */
  lemma DedupeSelectsTheBest(snapshots: seq<Snapshot>)
    ensures var result := Dedupe(snapshots);
            && Pairwise(Apart(), result)
            && SortedBy(ByClose(), result)
            && (forall snapshot :: snapshot in result ==> snapshot in snapshots)
            && (forall snapshot :: snapshot in snapshots ==> Answered(result, snapshot))
  {
    hide Overlap, Preferred, ByClose, Apart, StableSort, SelectAll;
    OrdersAreTotal();
    var ordered := StableSort(Preferred(), snapshots);
    StableSortSorts(Preferred(), snapshots);
    SameMembers(ordered, snapshots);
    var selected := SelectAll(ordered);
    SelectionIsApart(ordered);
    SelectionKeepsPairwise(Preferred(), ordered);
    SelectionAnswersAll(ordered);
    SortKeepsPairwise(Apart(), ByClose(), selected);
    StableSortSorts(ByClose(), selected);
    SameMembers(Dedupe(snapshots), selected);
    forall snapshot | snapshot in snapshots ensures Answered(Dedupe(snapshots), snapshot) {
      assert Answered(selected, snapshot);
    }
  }

  /** A snapshot overlaps its own copies exactly when its closing time is readable. */
  lemma {:induction false} SelectionCopies(ordered: seq<Snapshot>, snapshot: Snapshot)
    ensures var kept, given := multiset(SelectAll(ordered))[snapshot], multiset(ordered)[snapshot];
            if snapshot.closedMs.Some? then kept <= 1 else kept == given
  {
    if ordered != [] {
      var init, last := ordered[..|ordered| - 1], ordered[|ordered| - 1];
      SelectionCopies(init, snapshot);
      assert ordered == init + [last];
      var before := SelectAll(init);
      if last == snapshot && snapshot in before {
        var i :| 0 <= i < |before| && before[i] == snapshot;
        assert snapshot.closedMs.Some? ==> Covered(before, last);
      }
    }
  }

  /**
   * The result takes its snapshots from the input in order of preference and invents none. A snapshot without a
   * readable closing time is kept in all its copies, any other in at most one.
   */
  lemma DedupeIsASelection(snapshots: seq<Snapshot>, snapshot: Snapshot)
    ensures var ordered, result := StableSort(Preferred(), snapshots), Dedupe(snapshots);
            && IsSubsequence(SelectAll(ordered), ordered)
            && multiset(result) == multiset(SelectAll(ordered)) <= multiset(snapshots)
            && if snapshot.closedMs.Some? then multiset(result)[snapshot] <= 1
               else multiset(result)[snapshot] == multiset(snapshots)[snapshot]
  {
    hide *;
    var ordered := StableSort(Preferred(), snapshots);
    DedupeDefinition(snapshots);
    SelectionIsSubsequence(ordered);
    SubsequenceCounts(SelectAll(ordered), ordered);
    SelectionCopies(ordered, snapshot);
  }

  /** A kept snapshot that answers for a dropped one has at least its priority. */
  lemma AnsweredByPriority(selected: seq<Snapshot>, snapshot: Snapshot)
    requires Answered(selected, snapshot) && snapshot !in selected
    ensures exists kept :: kept in selected && Overlap(kept, snapshot) && Priority(kept) >= Priority(snapshot)
  {
    var kept :| kept in selected && Overlap(kept, snapshot) && Preferred()(kept, snapshot);
    assert Priority(kept) >= Priority(snapshot);
  }

  /** Deduplicating twice is deduplicating once, down to the order of snapshots that close at the same time. */
  lemma DedupeIsIdempotent(snapshots: seq<Snapshot>)
    ensures Dedupe(Dedupe(snapshots)) == Dedupe(snapshots)
  {
    hide *;
    OrdersAreTotal();
    var ordered := StableSort(Preferred(), snapshots);
    var selected := SelectAll(ordered);
    var result := StableSort(ByClose(), selected);
    var again := StableSort(Preferred(), result);
    var final := StableSort(ByClose(), again);
    DedupeDefinition(snapshots);
    DedupeDefinition(result);
    SelectionIsApart(ordered);
    SortKeepsPairwise(Apart(), ByClose(), selected);
    SortKeepsPairwise(Apart(), Preferred(), result);
    ApartSelectsAll(again);
    StableSortSorts(ByClose(), selected);
    StableSortSorts(ByClose(), again);
    forall pivot ensures Filter(TiedWith(ByClose(), pivot), final) == Filter(TiedWith(ByClose(), pivot), result) {
      TiesKeepTheirOrder(ordered, pivot, snapshots);
    }
    SortedByTiesIsUnique(ByClose(), final, result);
  }

  lemma DedupeDefinition(snapshots: seq<Snapshot>)
    ensures Dedupe(snapshots) == StableSort(ByClose(), SelectAll(StableSort(Preferred(), snapshots)))
  {}

  lemma TiesKeepTheirOrder(ordered: seq<Snapshot>, pivot: Snapshot, snapshots: seq<Snapshot>)
    requires ordered == StableSort(Preferred(), snapshots)
    ensures var result := StableSort(ByClose(), SelectAll(ordered));
            Filter(TiedWith(ByClose(), pivot), StableSort(ByClose(), StableSort(Preferred(), result)))
            == Filter(TiedWith(ByClose(), pivot), result)
  {
    hide *;
    OrdersAreTotal();
    var tied := TiedWith(ByClose(), pivot);
    var selected := SelectAll(ordered);
    var result := StableSort(ByClose(), selected);
    StableSortSorts(Preferred(), snapshots);
    SortedMeansPairwise(Preferred(), ordered);
    SelectionKeepsPairwise(Preferred(), ordered);
    StableSortIsStable(ByClose(), pivot, StableSort(Preferred(), result));
    FilterSort(tied, Preferred(), result);
    StableSortIsStable(ByClose(), pivot, selected);
    FilterKeepsPairwise(tied, Preferred(), selected);
    SortedMeansPairwise(Preferred(), Filter(tied, selected));
    SortedIsFixed(Preferred(), Filter(tied, selected));
  }

  lemma SortedMeansPairwise(le: (Snapshot, Snapshot) -> bool, xs: seq<Snapshot>)
    ensures SortedBy(le, xs) <==> Pairwise(le, xs)
  {}

  // ---------------------------------------------------------------- the result, read off the input

  /** The two snapshots may tell of one close. */
  predicate Collide(left: Snapshot, right: Snapshot) {
    && left.tokenMint == right.tokenMint
    && left.closedMs.Some? && right.closedMs.Some?
    && left.closedMs.value <= right.closedMs.value + 180_000 && right.closedMs.value <= left.closedMs.value + 180_000
    && (if left.positionAddress == "" && right.positionAddress == ""
        then left.poolAddress == right.poolAddress || "" in [left.poolAddress, right.poolAddress]
        else left.positionAddress == right.positionAddress || "" in [left.positionAddress, right.positionAddress])
  }

  /** What the wallet shows beats everything else, exact values beat others, and a later close beats an earlier one. */
  predicate Better(left: Snapshot, right: Snapshot) {
    if left.source.WalletDelta? != right.source.WalletDelta? then left.source.WalletDelta?
    else if !left.source.WalletDelta? && left.isExact != right.isExact then left.isExact
    else left.closedOrder > right.closedOrder
  }

  lemma CollideExactly(left: Snapshot, right: Snapshot)
    ensures Overlap(left, right) <==> Collide(left, right)
  {}

  lemma BetterExactly(left: Snapshot, right: Snapshot)
    ensures Preferred()(left, right) <==> !Better(right, left)
  {}

  function ComesFirst(snapshots: seq<Snapshot>): (Snapshot, Snapshot) -> bool {
    (left: Snapshot, right: Snapshot) =>
      exists i, j :: 0 <= i < j < |snapshots| && snapshots[i] == left && snapshots[j] == right
  }

  /** Dropped for a kept snapshot that collides with it and is better, or no worse and first in the input. */
  ghost predicate DroppedFor(snapshots: seq<Snapshot>, kept: Snapshot, snapshot: Snapshot) {
    && Collide(kept, snapshot)
    && (Better(kept, snapshot) || (!Better(snapshot, kept) && ComesFirst(snapshots)(kept, snapshot)))
  }

  /** A place of the ordered list whose snapshot is kept, or overlapped by one kept from an earlier place. */
  ghost predicate AnsweredAt(ordered: seq<Snapshot>, selected: seq<Snapshot>, b: nat)
    requires b < |ordered|
  {
    ordered[b] in selected || exists a: nat :: a < b && ordered[a] in selected && Overlap(ordered[a], ordered[b])
  }

  lemma {:induction false} SelectionAnswersFromBefore(ordered: seq<Snapshot>, b: nat)
    requires b < |ordered|
    ensures AnsweredAt(ordered, SelectAll(ordered), b)
  {
    hide Overlap;
    var init, last := ordered[..|ordered| - 1], ordered[|ordered| - 1];
    var before, after := SelectAll(init), SelectAll(ordered);
    assert forall kept :: kept in before ==> kept in after;
    if b < |init| {
      SelectionAnswersFromBefore(init, b);
      if ordered[b] !in before {
        var a: nat :| a < b && init[a] in before && Overlap(init[a], init[b]);
        assert ordered[a] in after;
      }
    } else if Covered(before, last) {
      var i :| 0 <= i < |before| && Overlap(before[i], last);
      SelectionIsFrom(init, before[i]);
      var a: nat :| a < |init| && init[a] == before[i];
      assert ordered[a] in after && Overlap(ordered[a], ordered[b]);
    }
  }

  lemma {:induction false} SelectionIsFrom(ordered: seq<Snapshot>, snapshot: Snapshot)
    requires snapshot in SelectAll(ordered)
    ensures snapshot in ordered
  {
    hide Covered;
    if snapshot != ordered[|ordered| - 1] {
      SelectionIsFrom(ordered[..|ordered| - 1], snapshot);
    }
  }

  lemma OrderedByPreference(snapshots: seq<Snapshot>, a: nat, b: nat)
    requires a < b < |StableSort(Preferred(), snapshots)|
    ensures var ordered := StableSort(Preferred(), snapshots);
            Better(ordered[a], ordered[b])
            || (!Better(ordered[b], ordered[a]) && ComesFirst(snapshots)(ordered[a], ordered[b]))
  {
    hide StableSort, Better, Priority;
    OrdersAreTotal();
    var ordered := StableSort(Preferred(), snapshots);
    StableSortSorts(Preferred(), snapshots);
    BetterExactly(ordered[a], ordered[b]);
    BetterExactly(ordered[b], ordered[a]);
    assert Preferred()(ordered[a], ordered[b]);
    if !Better(ordered[a], ordered[b]) {
      TiesStayInOrder(Preferred(), ComesFirst(snapshots), snapshots, a, b);
    }
  }

  /**
   * The result: snapshots of the input of which no two collide, in closing order, and each input snapshot is one of
   * them or dropped for one of them.
   */
  lemma KeptExactly(snapshots: seq<Snapshot>)
    ensures var result := Dedupe(snapshots);
            && (forall i, j :: 0 <= i < j < |result| ==>
                  !Collide(result[i], result[j]) && result[i].closedOrder <= result[j].closedOrder)
            && (forall snapshot :: snapshot in result ==> snapshot in snapshots)
            && (forall snapshot :: snapshot in snapshots ==>
                  snapshot in result || exists kept :: kept in result && DroppedFor(snapshots, kept, snapshot))
  {
    hide Overlap, Collide, StableSort, SelectAll, DroppedFor;
    var ordered, result := StableSort(Preferred(), snapshots), Dedupe(snapshots);
    DedupeSelectsTheBest(snapshots);
    forall i, j | 0 <= i < j < |result|
      ensures !Collide(result[i], result[j]) && result[i].closedOrder <= result[j].closedOrder
    {
      assert Apart()(result[i], result[j]) && ByClose()(result[i], result[j]);
      CollideExactly(result[i], result[j]);
    }
    SortedMembers(snapshots);
    forall snapshot | snapshot in snapshots && snapshot !in result
      ensures exists kept :: kept in result && DroppedFor(snapshots, kept, snapshot)
    {
      var b: nat :| b < |ordered| && ordered[b] == snapshot;
      SelectionAnswersFromBefore(ordered, b);
      var a: nat :| a < b && ordered[a] in SelectAll(ordered) && Overlap(ordered[a], ordered[b]);
      assert DroppedFor(snapshots, ordered[a], snapshot) by {
        CollideExactly(ordered[a], snapshot);
        OrderedByPreference(snapshots, a, b);
        DroppedExactly(snapshots, ordered[a], snapshot);
      }
    }
  }

  lemma DroppedExactly(snapshots: seq<Snapshot>, kept: Snapshot, snapshot: Snapshot)
    ensures DroppedFor(snapshots, kept, snapshot) <==>
              && Collide(kept, snapshot)
              && (Better(kept, snapshot) || (!Better(snapshot, kept) && ComesFirst(snapshots)(kept, snapshot)))
  {
    hide Collide, Better, ComesFirst;
  }

  lemma SortedMembers(snapshots: seq<Snapshot>)
    ensures var ordered := StableSort(Preferred(), snapshots);
            && (forall snapshot :: snapshot in ordered <==> snapshot in snapshots)
            && (forall snapshot :: snapshot in Dedupe(snapshots) <==> snapshot in SelectAll(ordered))
  {
    hide StableSort, SelectAll;
    var ordered := StableSort(Preferred(), snapshots);
    SameMembers(ordered, snapshots);
    SameMembers(Dedupe(snapshots), SelectAll(ordered));
  }
}
