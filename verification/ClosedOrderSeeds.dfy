/**
 * Order seeds for closed positions: dedupeLifecycleRows and buildClosedPositionOrderSeeds of
 * src/history/closed-position-snapshot-sync.ts.
 */
module ClosedOrderSeeds {
  import opened Sequences
  import opened ClosedFillMatching

  /** `createdAt` is the instant of the ISO text. */
  datatype OrderRow = OrderRow(
    tokenMint: string,
    tokenSymbol: string,
    poolAddress: string,
    positionAddress: string,
    action: string,
    createdAt: int,
    signature: string)

  datatype Seed = Seed(
    tokenMint: string,
    tokenSymbol: string,
    poolAddress: string,
    positionAddress: string,
    openedAt: int,
    closedAt: int,
    openSignature: string,
    closeSignature: string)

  /** The fields a row identity joins, as a tuple. */
  datatype RowIdentity = RowIdentity(action: string, tokenMint: string, poolAddress: string, positionAddress: string,
                                     createdAt: int)

  datatype DedupKey =
    | ByPosition(action: string, positionAddress: string)
    | ByPoolToken(action: string, pool: string, mint: string)

  function IdentityOf(row: OrderRow): RowIdentity {
    RowIdentity(row.action, row.tokenMint, row.poolAddress, row.positionAddress, row.createdAt)
  }

  function KeyOf(row: OrderRow): DedupKey {
    if LooksLikeAddress(row.positionAddress) then ByPosition(row.action, row.positionAddress)
    else ByPoolToken(row.action, row.poolAddress, row.tokenMint)
  }

  // ---------------------------------------------------------------- dedup

  /** The place of a key among the kept rows, which stand in the order a Map keeps its keys. */
  function PlaceOf(kept: seq<OrderRow>, key: DedupKey): (index: int)
    ensures -1 <= index < |kept|
    ensures index != -1 ==> KeyOf(kept[index]) == key
    ensures forall i :: 0 <= i < |kept| && KeyOf(kept[i]) == key ==> index != -1
  {
    if kept == [] then -1
    else if KeyOf(kept[|kept| - 1]) == key then |kept| - 1
    else PlaceOf(kept[..|kept| - 1], key)
  }

  /** A later withdraw or an earlier row of another action replaces the kept one. */
  predicate Replaces(row: OrderRow, existing: OrderRow) {
    if row.action == "withdraw-lp" then existing.createdAt < row.createdAt else existing.createdAt > row.createdAt
  }

  function Keep(kept: seq<OrderRow>, row: OrderRow): seq<OrderRow> {
    var index := PlaceOf(kept, KeyOf(row));
    if index == -1 then kept + [row]
    else if Replaces(row, kept[index]) then kept[index := row]
    else kept
  }

  function KeepAll(rows: seq<OrderRow>): seq<OrderRow> {
    if rows == [] then [] else Keep(KeepAll(rows[..|rows| - 1]), rows[|rows| - 1])
  }

  function ByTime(): (OrderRow, OrderRow) -> bool {
    (left: OrderRow, right: OrderRow) => left.createdAt <= right.createdAt
  }

  function Dedupe(rows: seq<OrderRow>): seq<OrderRow> { StableSort(ByTime(), KeepAll(rows)) }

  method DedupeLifecycleRows(rows: seq<OrderRow>) returns (deduped: seq<OrderRow>)
    ensures deduped == Dedupe(rows)
  {
    var kept: seq<OrderRow> := [];
    for i := 0 to |rows|
      invariant kept == KeepAll(rows[..i])
    {
      assert rows[..i + 1][..i] == rows[..i];
      var row := rows[i];
      var index := PlaceOf(kept, KeyOf(row));
      if index == -1 {
        kept := kept + [row];
        continue;
      }
      if row.action == "withdraw-lp" {
        if kept[index].createdAt < row.createdAt { kept := kept[index := row]; }
        continue;
      }
      if kept[index].createdAt > row.createdAt { kept := kept[index := row]; }
    }
    assert rows[..|rows|] == rows;
    deduped := StableSort(ByTime(), kept);
  }

  ghost predicate DistinctRowKeys(rows: seq<OrderRow>) {
    forall i, j :: 0 <= i < j < |rows| ==> KeyOf(rows[i]) != KeyOf(rows[j])
  }

  /** The row stands for the other one: same key, and the latest withdraw or the earliest of another action. */
  predicate StandsFor(kept: OrderRow, row: OrderRow) {
    && KeyOf(kept) == KeyOf(row)
    && (if row.action == "withdraw-lp" then kept.createdAt >= row.createdAt else kept.createdAt <= row.createdAt)
  }

  ghost predicate Represents(kept: seq<OrderRow>, rows: seq<OrderRow>) {
    && (forall row :: row in kept ==> row in rows)
    && (forall row :: row in rows ==> exists i :: 0 <= i < |kept| && StandsFor(kept[i], row))
  }

  lemma KeyNamesTheAction(a: OrderRow, b: OrderRow)
    requires KeyOf(a) == KeyOf(b)
    ensures a.action == b.action
  {}

  lemma KeepRepresents(kept: seq<OrderRow>, rows: seq<OrderRow>, row: OrderRow)
    requires DistinctRowKeys(kept) && Represents(kept, rows)
    ensures DistinctRowKeys(Keep(kept, row)) && Represents(Keep(kept, row), rows + [row])
  {
    hide KeyOf;
    var after := Keep(kept, row);
    var index := PlaceOf(kept, KeyOf(row));
    forall r | r in after ensures r in rows + [row] {
      if r != row { assert r in kept; }
    }
    forall r | r in rows + [row] ensures exists i :: 0 <= i < |after| && StandsFor(after[i], r) {
      if r in rows {
        var i :| 0 <= i < |kept| && StandsFor(kept[i], r);
        if i == index { KeyNamesTheAction(row, r); }
        assert StandsFor(after[i], r);
      } else {
        assert StandsFor(after[if index == -1 then |kept| else index], r);
      }
    }
  }

  /** Dedup keeps one row a key, taken from the rows: the latest withdraw, or the earliest of any other action. */
  lemma {:induction false} KeepAllRepresents(rows: seq<OrderRow>)
    ensures DistinctRowKeys(KeepAll(rows)) && Represents(KeepAll(rows), rows)
  {
    if rows != [] {
      var init := rows[..|rows| - 1];
      KeepAllRepresents(init);
      KeepRepresents(KeepAll(init), init, rows[|rows| - 1]);
      assert init + [rows[|rows| - 1]] == rows;
    }
  }

  function KeysDiffer(): (OrderRow, OrderRow) -> bool { (a: OrderRow, b: OrderRow) => KeyOf(a) != KeyOf(b) }

  lemma SortKeepsDistinct(rows: seq<OrderRow>)
    requires DistinctRowKeys(rows)
    ensures DistinctRowKeys(StableSort(ByTime(), rows))
  {
    hide KeyOf;
    assert Pairwise(KeysDiffer(), rows);
    SortKeepsPairwise(KeysDiffer(), ByTime(), rows);
    var sorted := StableSort(ByTime(), rows);
    assert forall i, j :: 0 <= i < j < |sorted| ==> KeysDiffer()(sorted[i], sorted[j]);
  }

  lemma FilterKeepsDistinct(p: OrderRow -> bool, rows: seq<OrderRow>)
    requires DistinctRowKeys(rows)
    ensures DistinctRowKeys(Filter(p, rows))
  {
    hide KeyOf;
    assert Pairwise(KeysDiffer(), rows);
    FilterKeepsPairwise(p, KeysDiffer(), rows);
    var kept := Filter(p, rows);
    assert forall i, j :: 0 <= i < j < |kept| ==> KeysDiffer()(kept[i], kept[j]);
  }

  lemma RepresentsAnyOrder(kept: seq<OrderRow>, sorted: seq<OrderRow>, rows: seq<OrderRow>)
    requires Represents(kept, rows) && forall row :: row in kept <==> row in sorted
    ensures Represents(sorted, rows)
  {
    hide KeyOf, StandsFor;
    forall row | row in rows ensures exists i :: 0 <= i < |sorted| && StandsFor(sorted[i], row) {
      var i :| 0 <= i < |kept| && StandsFor(kept[i], row);
      assert kept[i] in sorted;
    }
  }

  /** dedupeLifecycleRows: one row a key, each standing for all rows of its key, in time order. */
  lemma DedupeRepresents(rows: seq<OrderRow>)
    ensures DistinctRowKeys(Dedupe(rows)) && Represents(Dedupe(rows), rows) && SortedBy(ByTime(), Dedupe(rows))
  {
    hide KeepAll, StableSort, DistinctRowKeys, Represents;
    KeepAllRepresents(rows);
    SortKeepsDistinct(KeepAll(rows));
    StableSortSorts(ByTime(), KeepAll(rows));
    SameMembers(Dedupe(rows), KeepAll(rows));
    RepresentsAnyOrder(KeepAll(rows), Dedupe(rows), rows);
  }

  // ---------------------------------------------------------------- matching

  predicate RowsCanShare(open: OrderRow, close: OrderRow) {
    && open.tokenMint == close.tokenMint
    && (open.poolAddress == "" || close.poolAddress == "" || open.poolAddress == close.poolAddress)
    && (open.positionAddress == "" || close.positionAddress == "" || open.positionAddress == close.positionAddress)
    && open.createdAt <= close.createdAt
  }

  /** The last unused open among the first n that can share the close's lifecycle. */
  function LastOpen(opens: seq<OrderRow>, close: OrderRow, used: set<nat>, n: nat): (index: int)
    requires n <= |opens|
    ensures -1 <= index < n
    ensures index != -1 ==> index !in used && RowsCanShare(opens[index], close)
    ensures forall i :: index < i < n ==> i in used || !RowsCanShare(opens[i], close)
  {
    if n == 0 then -1
    else if n - 1 !in used && RowsCanShare(opens[n - 1], close) then n - 1
    else LastOpen(opens, close, used, n - 1)
  }

  datatype Pair = Pair(open: nat, close: nat)

  function UsedOpens(pairs: seq<Pair>): set<nat> {
    set p | p in pairs :: p.open
  }

  function PairAll(opens: seq<OrderRow>, closes: seq<OrderRow>): (pairs: seq<Pair>)
    ensures forall k :: 0 <= k < |pairs| ==> pairs[k].open < |opens| && pairs[k].close < |closes|
  {
    if closes == [] then []
    else
      var before := PairAll(opens, closes[..|closes| - 1]);
      var index := LastOpen(opens, closes[|closes| - 1], UsedOpens(before), |opens|);
      if index == -1 then before else before + [Pair(index, |closes| - 1)]
  }

  /** One more close: it takes the last unused open that fits, if there is one. */
  lemma PairOne(opens: seq<OrderRow>, closes: seq<OrderRow>, n: nat)
    requires n < |closes|
    ensures var before := PairAll(opens, closes[..n]);
            var index := LastOpen(opens, closes[n], UsedOpens(before), |opens|);
            PairAll(opens, closes[..n + 1]) == if index == -1 then before else before + [Pair(index, n)]
  {
    assert closes[..n + 1][..n] == closes[..n];
  }

  lemma UsedOpensSnoc(pairs: seq<Pair>, p: Pair)
    ensures UsedOpens(pairs + [p]) == UsedOpens(pairs) + {p.open}
  {
    forall i | i in UsedOpens(pairs) + {p.open} ensures i in UsedOpens(pairs + [p]) {
      if i == p.open {
        assert p in pairs + [p];
      } else {
        var q :| q in pairs && q.open == i;
        assert q in pairs + [p];
      }
    }
  }

  function SeedOf(open: OrderRow, close: OrderRow): Seed {
    Seed(open.tokenMint,
         FirstOf(open.tokenSymbol, close.tokenSymbol),
         FirstOf(open.poolAddress, close.poolAddress),
         if LooksLikeAddress(open.positionAddress) then open.positionAddress else close.positionAddress,
         open.createdAt, close.createdAt, open.signature, close.signature)
  }

  function SeedsOf(opens: seq<OrderRow>, closes: seq<OrderRow>, pairs: seq<Pair>): seq<Seed>
    requires forall k :: 0 <= k < |pairs| ==> pairs[k].open < |opens| && pairs[k].close < |closes|
  {
    seq(|pairs|, k requires 0 <= k < |pairs| => SeedOf(opens[pairs[k].open], closes[pairs[k].close]))
  }

  function RowsOf(deduped: seq<OrderRow>, action: string): seq<OrderRow> {
    StableSort(ByTime(), Filter((row: OrderRow) => row.action == action, deduped))
  }

  function LatestFirst(): (Seed, Seed) -> bool { (left: Seed, right: Seed) => left.closedAt >= right.closedAt }

  method FindOpen(opens: seq<OrderRow>, close: OrderRow, usedOpenIndexes: set<nat>) returns (matchedOpenIndex: int)
    ensures matchedOpenIndex == LastOpen(opens, close, usedOpenIndexes, |opens|)
  {
    var index := |opens| - 1;
    while index >= 0
      invariant -1 <= index < |opens|
      invariant LastOpen(opens, close, usedOpenIndexes, |opens|) == LastOpen(opens, close, usedOpenIndexes, index + 1)
    {
      if !(index in usedOpenIndexes || !RowsCanShare(opens[index], close)) { return index; }
      index := index - 1;
    }
    return -1;
  }

  lemma IdentityNamesTheKey(a: OrderRow, b: OrderRow)
    requires IdentityOf(a) == IdentityOf(b)
    ensures KeyOf(a) == KeyOf(b)
  {}

  /** Deduped rows never share an identity, so no two pairs share a seed key. */
  lemma IdentityIsInjective(rows: seq<OrderRow>, i: nat, j: nat)
    requires DistinctRowKeys(rows) && i < |rows| && j < |rows| && IdentityOf(rows[i]) == IdentityOf(rows[j])
    ensures i == j
  {
    IdentityNamesTheKey(rows[i], rows[j]);
  }

  /** The close identities among the used seed keys are those of earlier closes. */
  ghost predicate KeysFromEarlier(keys: set<(RowIdentity, RowIdentity)>, closes: seq<OrderRow>, n: nat)
    requires n <= |closes|
  {
    forall key :: key in keys ==> exists i :: 0 <= i < n && key.1 == IdentityOf(closes[i])
  }

  lemma FreshSeedKey(keys: set<(RowIdentity, RowIdentity)>, opens: seq<OrderRow>, closes: seq<OrderRow>, n: nat,
                     key: (RowIdentity, RowIdentity))
    requires n < |closes| && DistinctRowKeys(closes) && KeysFromEarlier(keys, closes, n)
             && key.1 == IdentityOf(closes[n])
    ensures key !in keys && KeysFromEarlier(keys + {key}, closes, n + 1)
  {
    hide IdentityOf, KeyOf;
    if key in keys {
      var i :| 0 <= i < n && key.1 == IdentityOf(closes[i]);
      IdentityIsInjective(closes, i, n);
      assert false;
    }
    assert KeysFromEarlier(keys + {key}, closes, n + 1) by {
      forall k | k in keys + {key} ensures exists i :: 0 <= i < n + 1 && k.1 == IdentityOf(closes[i]) {
        if k == key {
          assert k.1 == IdentityOf(closes[n]);
        } else {
          var i :| 0 <= i < n && k.1 == IdentityOf(closes[i]);
        }
      }
    }
  }

  lemma RowsOfAreDistinct(deduped: seq<OrderRow>, action: string)
    requires DistinctRowKeys(deduped)
    ensures DistinctRowKeys(RowsOf(deduped, action))
  {
    hide KeyOf;
    FilterKeepsDistinct((row: OrderRow) => row.action == action, deduped);
    SortKeepsDistinct(Filter((row: OrderRow) => row.action == action, deduped));
  }

  /** buildClosedPositionOrderSeeds; the used-seed-key check is there and never skips a pair. */
  method BuildClosedPositionOrderSeeds(rows: seq<OrderRow>) returns (seeds: seq<Seed>)
    ensures var opens, closes := RowsOf(Dedupe(rows), "add-lp"), RowsOf(Dedupe(rows), "withdraw-lp");
            seeds == StableSort(LatestFirst(), SeedsOf(opens, closes, PairAll(opens, closes)))
  {
    hide RowsOf, Dedupe, KeyOf, IdentityOf, SeedOf, DistinctRowKeys, KeysFromEarlier, RowsCanShare, UsedOpens,
      PairAll, SeedsOf;
    var dedupedRows := DedupeLifecycleRows(rows);
    DedupeRepresents(rows);
    RowsOfAreDistinct(dedupedRows, "withdraw-lp");
    var opens := RowsOf(dedupedRows, "add-lp");
    var closes := RowsOf(dedupedRows, "withdraw-lp");
    var usedSeedKeys: set<(RowIdentity, RowIdentity)> := {};
    var usedOpenIndexes: set<nat> := {};
    seeds := [];
    NoKeys(closes);
    NothingPaired(opens, closes);
    for c := 0 to |closes|
      invariant usedOpenIndexes == UsedOpens(PairAll(opens, closes[..c]))
      invariant seeds == SeedsOf(opens, closes, PairAll(opens, closes[..c]))
      invariant KeysFromEarlier(usedSeedKeys, closes, c)
    {
      var close := closes[c];
      PairOne(opens, closes, c);
      ghost var before := PairAll(opens, closes[..c]);
      var matchedOpenIndex := FindOpen(opens, close, usedOpenIndexes);
      EarlierStays(usedSeedKeys, closes, c);
      if matchedOpenIndex < 0 { continue; }
      var open := opens[matchedOpenIndex];
      var seedKey := (IdentityOf(open), IdentityOf(close));
      FreshSeedKey(usedSeedKeys, opens, closes, c, seedKey);
      if seedKey !in usedSeedKeys {
        UsedOpensSnoc(before, Pair(matchedOpenIndex, c));
        SeedsSnoc(opens, closes, before, Pair(matchedOpenIndex, c));
        usedOpenIndexes := usedOpenIndexes + {matchedOpenIndex};
        usedSeedKeys := usedSeedKeys + {seedKey};
        seeds := seeds + [SeedOf(open, close)];
      }
    }
    assert closes[..|closes|] == closes;
    seeds := StableSort(LatestFirst(), seeds);
  }

  lemma SeedsSnoc(opens: seq<OrderRow>, closes: seq<OrderRow>, pairs: seq<Pair>, p: Pair)
    requires p.open < |opens| && p.close < |closes|
    requires forall k :: 0 <= k < |pairs| ==> pairs[k].open < |opens| && pairs[k].close < |closes|
    ensures SeedsOf(opens, closes, pairs + [p]) == SeedsOf(opens, closes, pairs)
            + [SeedOf(opens[p.open], closes[p.close])]
  {
    hide SeedOf;
  }

  lemma NothingPaired(opens: seq<OrderRow>, closes: seq<OrderRow>)
    ensures PairAll(opens, []) == [] && UsedOpens([]) == {} && SeedsOf(opens, closes, []) == []
  {}

  lemma NoKeys(closes: seq<OrderRow>)
    ensures KeysFromEarlier({}, closes, 0)
  {}

  lemma EarlierStays(keys: set<(RowIdentity, RowIdentity)>, closes: seq<OrderRow>, n: nat)
    requires n < |closes| && KeysFromEarlier(keys, closes, n)
    ensures KeysFromEarlier(keys, closes, n + 1)
  {
    forall key | key in keys ensures exists i :: 0 <= i < n + 1 && key.1 == IdentityOf(closes[i]) {
      var i :| 0 <= i < n && key.1 == IdentityOf(closes[i]);
    }
  }

  // ---------------------------------------------------------------- the seeds are a maximal matching

  ghost predicate IsSeedMatching(opens: seq<OrderRow>, closes: seq<OrderRow>, pairs: seq<Pair>) {
    && (forall k :: 0 <= k < |pairs| ==> pairs[k].open < |opens| && pairs[k].close < |closes|
                                         && RowsCanShare(opens[pairs[k].open], closes[pairs[k].close]))
    && forall a, b :: 0 <= a < b < |pairs| ==> pairs[a].close < pairs[b].close && pairs[a].open != pairs[b].open
  }

  ghost predicate IsMaximal(opens: seq<OrderRow>, closes: seq<OrderRow>, pairs: seq<Pair>) {
    forall i, c :: 0 <= i < |opens| && 0 <= c < |closes| && RowsCanShare(opens[i], closes[c]) ==>
      exists p :: p in pairs && (p.open == i || p.close == c)
  }

  lemma UsedOpensHas(pairs: seq<Pair>)
    ensures forall k :: 0 <= k < |pairs| ==> pairs[k].open in UsedOpens(pairs)
  {
    forall k | 0 <= k < |pairs| ensures pairs[k].open in UsedOpens(pairs) { assert pairs[k] in pairs; }
  }

  lemma {:induction false} SeedsAreAMatching(opens: seq<OrderRow>, closes: seq<OrderRow>)
    ensures IsSeedMatching(opens, closes, PairAll(opens, closes))
  {
    hide RowsCanShare, UsedOpens;
    if closes != [] {
      SeedsAreAMatching(opens, closes[..|closes| - 1]);
      UsedOpensHas(PairAll(opens, closes[..|closes| - 1]));
    }
  }

  /** No open and close that could share a lifecycle are both left out. */
  lemma {:induction false} SeedsAreMaximal(opens: seq<OrderRow>, closes: seq<OrderRow>)
    ensures IsMaximal(opens, closes, PairAll(opens, closes))
  {
    hide RowsCanShare;
    if closes != [] {
      var init, last := closes[..|closes| - 1], |closes| - 1;
      SeedsAreMaximal(opens, init);
      var before, pairs := PairAll(opens, init), PairAll(opens, closes);
      forall i, c | 0 <= i < |opens| && 0 <= c < |closes| && RowsCanShare(opens[i], closes[c])
        ensures exists p :: p in pairs && (p.open == i || p.close == c)
      {
        if c < last {
          assert init[c] == closes[c];
          var p :| p in before && (p.open == i || p.close == c);
          assert p in pairs;
        } else {
          var index := LastOpen(opens, closes[last], UsedOpens(before), |opens|);
          if index == -1 {
            assert i in UsedOpens(before);
          } else {
            assert pairs[|before|] in pairs;
          }
        }
      }
    }
  }

  /**
   * Seeds are a matching of the deduped rows: each open and each close is in at most one seed, every seed opens no
   * later than it closes, and no open and close that could share a lifecycle are both left out.
   */
  lemma OrderSeedsAreAMatching(rows: seq<OrderRow>)
    ensures var opens, closes := RowsOf(Dedupe(rows), "add-lp"), RowsOf(Dedupe(rows), "withdraw-lp");
            var pairs := PairAll(opens, closes);
            && DistinctRowKeys(opens) && DistinctRowKeys(closes)
            && IsSeedMatching(opens, closes, pairs)
            && IsMaximal(opens, closes, pairs)
            && forall seed :: seed in StableSort(LatestFirst(), SeedsOf(opens, closes, pairs)) ==>
                seed.openedAt <= seed.closedAt
  {
    hide RowsOf, Dedupe, DistinctRowKeys, IsMaximal, IsSeedMatching, PairAll, SeedsOf;
    var opens, closes := RowsOf(Dedupe(rows), "add-lp"), RowsOf(Dedupe(rows), "withdraw-lp");
    DedupeRepresents(rows);
    RowsOfAreDistinct(Dedupe(rows), "add-lp");
    RowsOfAreDistinct(Dedupe(rows), "withdraw-lp");
    SeedsAreAMatching(opens, closes);
    SeedsAreMaximal(opens, closes);
    SeedsOpenFirst(opens, closes, PairAll(opens, closes));
  }

  lemma SeedsOpenFirst(opens: seq<OrderRow>, closes: seq<OrderRow>, pairs: seq<Pair>)
    requires IsSeedMatching(opens, closes, pairs)
    ensures forall seed :: seed in StableSort(LatestFirst(), SeedsOf(opens, closes, pairs)) ==>
              seed.openedAt <= seed.closedAt
  {
    hide StableSort;
    SameMembers(StableSort(LatestFirst(), SeedsOf(opens, closes, pairs)), SeedsOf(opens, closes, pairs));
  }
}
