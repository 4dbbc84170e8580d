/**
 * Which order rows dedupeLifecycleRows keeps, which of them become seeds, and what a seed says
 * (src/history/closed-position-snapshot-sync.ts), each stated on the rows themselves.
 */
module OrderSeedOutcome {
  import opened Sequences
  import opened ClosedFillMatching
  import opened ClosedOrderSeeds

  // ---------------------------------------------------------------- the kept rows

  /** Rows of one action that count as one: same chain position, or same pool and mint where neither names one. */
  ghost predicate SameGroup(a: OrderRow, b: OrderRow) {
    && a.action == b.action && (IsAddress(a.positionAddress) <==> IsAddress(b.positionAddress))
    && (if IsAddress(a.positionAddress) then a.positionAddress == b.positionAddress
        else a.poolAddress == b.poolAddress && a.tokenMint == b.tokenMint)
  }

  /** A later withdraw is better, and an earlier row of any other action. */
  predicate Beats(a: OrderRow, b: OrderRow) {
    if a.action == "withdraw-lp" then a.createdAt > b.createdAt else a.createdAt < b.createdAt
  }

  /** The best row of its group, and the first of those. */
  ghost predicate IsBest(rows: seq<OrderRow>, k: nat) {
    k < |rows| && forall j :: 0 <= j < |rows| && SameGroup(rows[j], rows[k]) ==>
                    !Beats(rows[j], rows[k]) && (j < k ==> Beats(rows[k], rows[j]))
  }

  lemma GroupExactly(a: OrderRow, b: OrderRow)
    ensures KeyOf(a) == KeyOf(b) <==> SameGroup(a, b)
  {
    hide LooksLikeAddress, IsAddress;
    AddressExactly(a.positionAddress);
    AddressExactly(b.positionAddress);
  }

  lemma BeatsExactly(a: OrderRow, b: OrderRow)
    ensures Replaces(a, b) <==> Beats(a, b)
  {}

  /** The row is the best of its group. */
  ghost predicate IsBestRow(rows: seq<OrderRow>, row: OrderRow) {
    exists k: nat :: IsBest(rows, k) && rows[k] == row
  }

  ghost predicate HasOfGroup(kept: seq<OrderRow>, row: OrderRow) {
    exists i :: 0 <= i < |kept| && SameGroup(kept[i], row)
  }

  /** The kept rows are the best of their groups, one of each group. */
  ghost predicate KeepsTheBest(kept: seq<OrderRow>, rows: seq<OrderRow>) {
    && (forall i :: 0 <= i < |kept| ==> IsBestRow(rows, kept[i]))
    && (forall j :: 0 <= j < |rows| ==> HasOfGroup(kept, rows[j]))
    && (forall i, j :: 0 <= i < j < |kept| ==> !SameGroup(kept[i], kept[j]))
  }

  lemma GroupsAreClasses(a: OrderRow, b: OrderRow, c: OrderRow)
    ensures SameGroup(a, a) && (SameGroup(a, b) ==> SameGroup(b, a))
    ensures SameGroup(a, b) && SameGroup(b, c) ==> SameGroup(a, c)
  {}

  /** The best row of a group stays it unless the newcomer is of its group and beats it. */
  lemma BestAfter(rows: seq<OrderRow>, row: OrderRow, best: OrderRow)
    requires IsBestRow(rows, best) && (SameGroup(row, best) ==> !Beats(row, best))
    ensures IsBestRow(rows + [row], best)
  {
    hide SameGroup, Beats;
    var k: nat :| IsBest(rows, k) && rows[k] == best;
    assert IsBest(rows + [row], k);
  }

  /** A newcomer is the best of its group when it is the first or beats the one that was. */
  lemma NewcomerIsBest(rows: seq<OrderRow>, row: OrderRow)
    requires forall j :: 0 <= j < |rows| && SameGroup(rows[j], row) ==> Beats(row, rows[j])
    ensures IsBestRow(rows + [row], row)
  {
    hide IsAddress;
    assert IsBest(rows + [row], |rows|);
  }

  lemma BestBeatsAll(rows: seq<OrderRow>, best: OrderRow, row: OrderRow)
    requires IsBestRow(rows, best) && SameGroup(best, row) && Beats(row, best)
    ensures forall j :: 0 <= j < |rows| && SameGroup(rows[j], row) ==> Beats(row, rows[j])
  {
    hide IsAddress;
    var k: nat :| IsBest(rows, k) && rows[k] == best;
    forall j | 0 <= j < |rows| && SameGroup(rows[j], row) ensures Beats(row, rows[j]) {
      assert SameGroup(rows[j], rows[k]);
    }
  }

  /** The place of a row's group among the kept rows. */
  lemma PlaceExactly(kept: seq<OrderRow>, row: OrderRow)
    ensures var index := PlaceOf(kept, KeyOf(row));
            if index == -1 then !HasOfGroup(kept, row) else SameGroup(kept[index], row)
  {
    hide KeyOf, SameGroup;
    forall i | 0 <= i < |kept| ensures SameGroup(kept[i], row) <==> KeyOf(kept[i]) == KeyOf(row) {
      GroupExactly(kept[i], row);
    }
  }

  lemma KeepsOfGroup(kept: seq<OrderRow>, rows: seq<OrderRow>, row: OrderRow)
    requires KeepsTheBest(kept, rows) && HasOfGroup(rows, row)
    ensures HasOfGroup(kept, row)
  {
    hide IsAddress, IsBestRow;
    var j :| 0 <= j < |rows| && SameGroup(rows[j], row);
    var i :| 0 <= i < |kept| && SameGroup(kept[i], rows[j]);
    assert SameGroup(kept[i], row);
  }

  lemma KeepKeepsTheBest(kept: seq<OrderRow>, rows: seq<OrderRow>, row: OrderRow)
    requires KeepsTheBest(kept, rows)
    ensures KeepsTheBest(Keep(kept, row), rows + [row])
  {
    hide SameGroup, KeyOf, Beats, Replaces, IsBestRow;
    var after, index := Keep(kept, row), PlaceOf(kept, KeyOf(row));
    PlaceExactly(kept, row);
    if index == -1 {
      if HasOfGroup(rows, row) { KeepsOfGroup(kept, rows, row); }
      NewcomerIsBest(rows, row);
    } else {
      BeatsExactly(row, kept[index]);
      if Beats(row, kept[index]) {
        BestBeatsAll(rows, kept[index], row);
        NewcomerIsBest(rows, row);
      }
    }
    forall i | 0 <= i < |kept| ensures after[i] == kept[i] ==> IsBestRow(rows + [row], after[i]) {
      if i != index { OthersAreOfOtherGroups(kept, rows, row, index, i); }
      if after[i] == kept[i] && (i != index || !Beats(row, kept[i])) { BestAfter(rows, row, kept[i]); }
    }
    forall a: OrderRow, b: OrderRow, c: OrderRow
      ensures SameGroup(a, a) && (SameGroup(a, b) ==> SameGroup(b, a))
      ensures SameGroup(a, b) && SameGroup(b, c) ==> SameGroup(a, c)
    {
      GroupsAreClasses(a, b, c);
    }
    forall j | 0 <= j < |rows + [row]| ensures HasOfGroup(after, (rows + [row])[j]) {
      if j < |rows| {
        var i :| 0 <= i < |kept| && SameGroup(kept[i], rows[j]);
        assert SameGroup(after[i], kept[i]);
      } else {
        assert SameGroup(after[if index == -1 then |kept| else index], row);
      }
    }
  }

  lemma OthersAreOfOtherGroups(kept: seq<OrderRow>, rows: seq<OrderRow>, row: OrderRow, index: int, i: nat)
    requires KeepsTheBest(kept, rows) && i < |kept| && i != index && -1 <= index < |kept|
    requires if index == -1 then !HasOfGroup(kept, row) else SameGroup(kept[index], row)
    ensures !SameGroup(row, kept[i])
  {
    hide IsAddress, IsBestRow;
    if SameGroup(row, kept[i]) {
      GroupsAreClasses(row, kept[i], row);
      if index != -1 {
        GroupsAreClasses(kept[index], row, kept[i]);
        GroupsAreClasses(kept[index], kept[i], row);
      }
    }
  }

  lemma {:induction false} KeepAllKeepsTheBest(rows: seq<OrderRow>)
    ensures KeepsTheBest(KeepAll(rows), rows)
  {
    hide KeepsTheBest, Keep;
    if rows == [] {
      NothingIsKept();
    } else {
      var init, last := rows[..|rows| - 1], rows[|rows| - 1];
      KeepAllKeepsTheBest(init);
      KeepKeepsTheBest(KeepAll(init), init, last);
      assert init + [last] == rows;
    }
  }

  lemma NothingIsKept()
    ensures KeepsTheBest([], [])
  {}

  lemma BestIsKept(rows: seq<OrderRow>, row: OrderRow)
    ensures row in KeepAll(rows) <==> IsBestRow(rows, row)
  {
    hide IsAddress, KeepAll;
    KeepAllKeepsTheBest(rows);
    var kept := KeepAll(rows);
    if IsBestRow(rows, row) {
      var k: nat :| IsBest(rows, k) && rows[k] == row;
      assert HasOfGroup(kept, rows[k]);
      var i :| 0 <= i < |kept| && SameGroup(kept[i], row);
      assert IsBestRow(rows, kept[i]);
      var j: nat :| IsBest(rows, j) && rows[j] == kept[i];
      GroupsAreClasses(rows[j], rows[k], rows[j]);
    }
  }

  /** A row of the group of x comes before every row of the group of y. */
  ghost predicate SeenFirst(rows: seq<OrderRow>, x: OrderRow, y: OrderRow) {
    exists a :: 0 <= a < |rows| && SameGroup(rows[a], x) && forall b :: 0 <= b <= a ==> !SameGroup(rows[b], y)
  }

  ghost predicate InOrderSeen(kept: seq<OrderRow>, rows: seq<OrderRow>) {
    forall i, j :: 0 <= i < j < |kept| ==> SeenFirst(rows, kept[i], kept[j])
  }

  lemma SeenFirstStays(rows: seq<OrderRow>, row: OrderRow, x: OrderRow, y: OrderRow, u: OrderRow, v: OrderRow)
    requires SeenFirst(rows, x, y) && SameGroup(x, u) && SameGroup(y, v)
    ensures SeenFirst(rows + [row], u, v)
  {
    hide IsAddress;
    var a :| 0 <= a < |rows| && SameGroup(rows[a], x) && forall b :: 0 <= b <= a ==> !SameGroup(rows[b], y);
    assert SameGroup((rows + [row])[a], u);
  }

  lemma NewGroupIsSeenLast(rows: seq<OrderRow>, row: OrderRow, x: OrderRow)
    requires IsBestRow(rows, x) && !HasOfGroup(rows, row)
    ensures SeenFirst(rows + [row], x, row)
  {
    hide IsAddress;
    var k: nat :| IsBest(rows, k) && rows[k] == x;
    assert SameGroup((rows + [row])[k], x);
  }

  lemma KeepKeepsOrder(kept: seq<OrderRow>, rows: seq<OrderRow>, row: OrderRow)
    requires KeepsTheBest(kept, rows) && InOrderSeen(kept, rows)
    ensures InOrderSeen(Keep(kept, row), rows + [row])
  {
    hide SameGroup, KeyOf, Replaces, IsBestRow, SeenFirst;
    var after, index := Keep(kept, row), PlaceOf(kept, KeyOf(row));
    PlaceExactly(kept, row);
    if index == -1 && HasOfGroup(rows, row) { KeepsOfGroup(kept, rows, row); }
    forall i, j | 0 <= i < j < |after| ensures SeenFirst(rows + [row], after[i], after[j]) {
      if j == |kept| {
        NewGroupIsSeenLast(rows, row, kept[i]);
      } else {
        GroupsAreClasses(kept[i], kept[i], kept[i]);
        GroupsAreClasses(kept[j], kept[j], kept[j]);
        SeenFirstStays(rows, row, kept[i], kept[j], after[i], after[j]);
      }
    }
  }

  lemma {:induction false} KeepAllKeepsOrder(rows: seq<OrderRow>)
    ensures InOrderSeen(KeepAll(rows), rows)
  {
    hide Keep, KeepsTheBest;
    if rows != [] {
      var init, last := rows[..|rows| - 1], rows[|rows| - 1];
      KeepAllKeepsOrder(init);
      KeepAllKeepsTheBest(init);
      KeepKeepsOrder(KeepAll(init), init, last);
      assert init + [last] == rows;
    }
  }

  /** Rows of one time stay in the order in which their groups were seen. */
  ghost function TiesAsSeen(rows: seq<OrderRow>): (OrderRow, OrderRow) -> bool {
    (x: OrderRow, y: OrderRow) => x.createdAt == y.createdAt ==> SeenFirst(rows, x, y)
  }

  lemma RowsKeepTies(rows: seq<OrderRow>, action: string)
    ensures Pairwise(TiesAsSeen(rows), RowsOf(Dedupe(rows), action))
  {
    hide SeenFirst, StableSort, Filter;
    KeepAllKeepsOrder(rows);
    SortKeepsTiesAsSeen(rows, KeepAll(rows));
    FilterKeepsPairwise((row: OrderRow) => row.action == action, TiesAsSeen(rows), Dedupe(rows));
    SortKeepsTiesAsSeen(rows, Filter((row: OrderRow) => row.action == action, Dedupe(rows)));
  }

  lemma SortKeepsTiesAsSeen(rows: seq<OrderRow>, xs: seq<OrderRow>)
    requires Pairwise(TiesAsSeen(rows), xs)
    ensures Pairwise(TiesAsSeen(rows), StableSort(ByTime(), xs))
  {
    hide SeenFirst, StableSort;
    var sorted := StableSort(ByTime(), xs);
    forall i: nat, j: nat | i < j < |sorted| ensures TiesAsSeen(rows)(sorted[i], sorted[j]) {
      if sorted[i].createdAt == sorted[j].createdAt { TiesStayInOrder(ByTime(), TiesAsSeen(rows), xs, i, j); }
    }
  }

  /**
   * The opens (or closes) among the kept rows: a row is one exactly when it is an "add-lp" ("withdraw-lp") row and the
   * best of its group; none twice, in time order, those of one time in the order in which their groups were seen.
   */
  lemma KeptExactly(rows: seq<OrderRow>, action: string, row: OrderRow)
    ensures var kept := RowsOf(Dedupe(rows), action);
            && (row in kept <==> row.action == action && IsBestRow(rows, row))
            && (forall i, j :: 0 <= i < j < |kept| ==> kept[i].createdAt <= kept[j].createdAt)
            && (forall i, j :: 0 <= i < j < |kept| ==> !SameGroup(kept[i], kept[j]))
            && (forall i, j :: 0 <= i < j < |kept| && kept[i].createdAt == kept[j].createdAt ==>
                  SeenFirst(rows, kept[i], kept[j]))
  {
    hide KeyOf, SameGroup, IsBestRow, KeepAll, StableSort, Filter, Represents, SeenFirst;
    var mine := Filter((row: OrderRow) => row.action == action, Dedupe(rows));
    BestIsKept(rows, row);
    DedupeRepresents(rows);
    RowsOfAreDistinct(Dedupe(rows), action);
    RowsKeepTies(rows, action);
    SameMembers(Dedupe(rows), KeepAll(rows));
    var kept := RowsOf(Dedupe(rows), action);
    StableSortSorts(ByTime(), mine);
    SameMembers(kept, mine);
    forall i, j | 0 <= i < j < |kept|
      ensures kept[i].createdAt <= kept[j].createdAt && !SameGroup(kept[i], kept[j])
      ensures TiesAsSeen(rows)(kept[i], kept[j])
    {
      assert ByTime()(kept[i], kept[j]);
      GroupExactly(kept[i], kept[j]);
    }
  }

  // ---------------------------------------------------------------- the pairs

  /** The two rows can belong to one life of a position. */
  predicate CanBePaired(open: OrderRow, close: OrderRow) {
    && open.createdAt <= close.createdAt && open.tokenMint == close.tokenMint
    && (open.poolAddress == close.poolAddress || "" in [open.poolAddress, close.poolAddress])
    && (open.positionAddress == close.positionAddress || "" in [open.positionAddress, close.positionAddress])
  }

  /** An open that fits the close and is in no pair of an earlier close. */
  ghost predicate IsFree(opens: seq<OrderRow>, closes: seq<OrderRow>, pairs: seq<Pair>, i: nat, c: nat) {
    && i < |opens| && c < |closes| && CanBePaired(opens[i], closes[c])
    && forall p :: p in pairs && p.close < c ==> p.open != i
  }

  /** The close is in one pair, with its latest free open, or in none and has no free open. */
  ghost predicate IsDecidedAt(opens: seq<OrderRow>, closes: seq<OrderRow>, pairs: seq<Pair>, c: nat) {
    && (forall p :: p in pairs && p.close == c ==>
          && IsFree(opens, closes, pairs, p.open, c)
          && forall i: nat :: IsFree(opens, closes, pairs, i, c) ==> i <= p.open)
    && (forall i: nat :: IsFree(opens, closes, pairs, i, c) ==> exists p :: p in pairs && p.close == c)
  }

  ghost predicate TakesLatest(opens: seq<OrderRow>, closes: seq<OrderRow>, pairs: seq<Pair>) {
    && (forall a, b :: 0 <= a < b < |pairs| ==> pairs[a].close < pairs[b].close)
    && (forall p :: p in pairs ==> p.close < |closes|)
    && (forall c: nat :: c < |closes| ==> IsDecidedAt(opens, closes, pairs, c))
  }

  lemma PairedExactly(open: OrderRow, close: OrderRow)
    ensures RowsCanShare(open, close) <==> CanBePaired(open, close)
  {}

  /** Later pairs and closes do not matter to an earlier close. */
  lemma DecidedBefore(opens: seq<OrderRow>, init: seq<OrderRow>, last: OrderRow, before: seq<Pair>, more: seq<Pair>,
                      c: nat)
    requires c < |init| && IsDecidedAt(opens, init, before, c) && forall p :: p in more ==> p.close == |init|
    ensures IsDecidedAt(opens, init + [last], before + more, c)
  {
    hide CanBePaired, IsDecidedAt;
    assert forall p :: p in before + more && p.close <= c ==> p in before;
    assert forall p :: p in before ==> p in before + more;
    forall i: nat
      ensures IsFree(opens, init + [last], before + more, i, c) <==> IsFree(opens, init, before, i, c)
    {}
    SameDecision(opens, init, init + [last], before, before + more, c);
  }

  lemma SameDecision(opens: seq<OrderRow>, init: seq<OrderRow>, closes: seq<OrderRow>, before: seq<Pair>,
                     pairs: seq<Pair>, c: nat)
    requires IsDecidedAt(opens, init, before, c)
    requires forall p: Pair :: p.close == c ==> (p in pairs <==> p in before)
    requires forall i: nat :: IsFree(opens, closes, pairs, i, c) <==> IsFree(opens, init, before, i, c)
    ensures IsDecidedAt(opens, closes, pairs, c)
  {
    hide IsFree;
  }

  lemma DecidedNow(opens: seq<OrderRow>, init: seq<OrderRow>, last: OrderRow, before: seq<Pair>, more: seq<Pair>)
    requires (forall p :: p in before ==> p.close < |init|)
    requires var index := LastOpen(opens, last, UsedOpens(before), |opens|);
             more == if index == -1 then [] else [Pair(index, |init|)]
    ensures IsDecidedAt(opens, init + [last], before + more, |init|)
  {
    hide CanBePaired, RowsCanShare, IsDecidedAt;
    var pairs := before + more;
    assert forall p: Pair :: p in pairs && p.close < |init| <==> p in before;
    forall i: nat
      ensures IsFree(opens, init + [last], pairs, i, |init|)
              <==> i < |opens| && i !in UsedOpens(before) && RowsCanShare(opens[i], last)
    {
      if i < |opens| { PairedExactly(opens[i], last); }
    }
    DecidedByLast(opens, init, last, before, more);
  }

  lemma DecidedByLast(opens: seq<OrderRow>, init: seq<OrderRow>, last: OrderRow, before: seq<Pair>, more: seq<Pair>)
    requires (forall p :: p in before ==> p.close < |init|)
    requires var index := LastOpen(opens, last, UsedOpens(before), |opens|);
             more == if index == -1 then [] else [Pair(index, |init|)]
    requires forall i: nat :: IsFree(opens, init + [last], before + more, i, |init|)
                              <==> i < |opens| && i !in UsedOpens(before) && RowsCanShare(opens[i], last)
    ensures IsDecidedAt(opens, init + [last], before + more, |init|)
  {
    hide IsFree, RowsCanShare, UsedOpens;
    if more != [] { assert more[0] in before + more; }
  }

  lemma TakesLatestSnoc(opens: seq<OrderRow>, init: seq<OrderRow>, last: OrderRow, before: seq<Pair>, more: seq<Pair>)
    requires TakesLatest(opens, init, before)
    requires var index := LastOpen(opens, last, UsedOpens(before), |opens|);
             more == if index == -1 then [] else [Pair(index, |init|)]
    ensures TakesLatest(opens, init + [last], before + more)
  {
    hide IsDecidedAt, UsedOpens, LastOpen;
    DecidedNow(opens, init, last, before, more);
    forall c: nat | c < |init| ensures IsDecidedAt(opens, init + [last], before + more, c) {
      DecidedBefore(opens, init, last, before, more, c);
    }
    var pairs := before + more;
    forall a, b | 0 <= a < b < |pairs| ensures pairs[a].close < pairs[b].close {
      assert before != [] ==> before[|before| - 1] in before;
    }
  }

  /** In time order each close takes the latest open that fits it and no earlier close took; exactly those are pairs. */
  lemma {:induction false} PairsTakeLatest(opens: seq<OrderRow>, closes: seq<OrderRow>)
    ensures TakesLatest(opens, closes, PairAll(opens, closes))
  {
    hide TakesLatest, UsedOpens, LastOpen;
    if closes == [] {
      NothingTaken(opens);
    } else {
      var init, last := closes[..|closes| - 1], closes[|closes| - 1];
      PairsTakeLatest(opens, init);
      var before := PairAll(opens, init);
      var index := LastOpen(opens, last, UsedOpens(before), |opens|);
      var more := if index == -1 then [] else [Pair(index, |init|)];
      TakesLatestSnoc(opens, init, last, before, more);
      assert PairAll(opens, closes) == before + more;
      assert init + [last] == closes;
    }
  }

  lemma NothingTaken(opens: seq<OrderRow>)
    ensures TakesLatest(opens, [], [])
  {}

  // ---------------------------------------------------------------- the seeds

  /** What the seed of an open and a close says. */
  predicate SaysPair(seed: Seed, open: OrderRow, close: OrderRow) {
    && seed.tokenMint == open.tokenMint && seed.openedAt == open.createdAt && seed.closedAt == close.createdAt
    && seed.openSignature == open.signature && seed.closeSignature == close.signature
    && seed.tokenSymbol == (if open.tokenSymbol == "" then close.tokenSymbol else open.tokenSymbol)
    && seed.poolAddress == (if open.poolAddress == "" then close.poolAddress else open.poolAddress)
  }

  ghost predicate NamesPosition(seed: Seed, open: OrderRow, close: OrderRow) {
    seed.positionAddress == if IsAddress(open.positionAddress) then open.positionAddress else close.positionAddress
  }

  /**
   * The seeds of opens and closes: one a pair, saying what the pair says, the latest close first and those of one time
   * in the order of their closes.
   */
  lemma SeedsExactly(opens: seq<OrderRow>, closes: seq<OrderRow>, t: int)
    ensures var pairs := PairAll(opens, closes);
            var told := SeedsOf(opens, closes, pairs);
            var seeds := StableSort(LatestFirst(), told);
            var at := (seed: Seed) => seed.closedAt == t;
            && |told| == |pairs| && multiset(seeds) == multiset(told)
            && (forall k :: 0 <= k < |pairs| ==>
                  && SaysPair(told[k], opens[pairs[k].open], closes[pairs[k].close])
                  && NamesPosition(told[k], opens[pairs[k].open], closes[pairs[k].close]))
            && (forall i, j :: 0 <= i < j < |seeds| ==> seeds[i].closedAt >= seeds[j].closedAt)
            && Filter(at, seeds) == Filter(at, told)
  {
    hide StableSort, Filter, LooksLikeAddress, IsAddress, PairAll;
    var pairs := PairAll(opens, closes);
    var told := SeedsOf(opens, closes, pairs);
    var seeds := StableSort(LatestFirst(), told);
    StableSortSorts(LatestFirst(), told);
    forall k | 0 <= k < |pairs| ensures NamesPosition(told[k], opens[pairs[k].open], closes[pairs[k].close]) {
      AddressExactly(opens[pairs[k].open].positionAddress);
    }
    forall i, j | 0 <= i < j < |seeds| ensures seeds[i].closedAt >= seeds[j].closedAt {
      assert LatestFirst()(seeds[i], seeds[j]);
    }
    var at := (seed: Seed) => seed.closedAt == t;
    SortKeepsTies(at, t, told);
  }

  lemma SortKeepsTies(at: Seed -> bool, t: int, told: seq<Seed>)
    requires forall seed :: at(seed) <==> seed.closedAt == t
    ensures Filter(at, StableSort(LatestFirst(), told)) == Filter(at, told)
  {
    hide StableSort, Filter;
    FilterSort(at, LatestFirst(), told);
    var ties := Filter(at, told);
    forall i, j | 0 <= i < j < |ties| ensures LatestFirst()(ties[i], ties[j]) {
      assert ties[i] in ties && ties[j] in ties;
    }
    SortedIsFixed(LatestFirst(), ties);
  }
}
