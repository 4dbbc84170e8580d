/**
 * Matching trusted fills to closed positions: buildClosedPositionSnapshotsFromTrustedFills of
 * src/history/closed-position-snapshot-sync.ts.
 */
module ClosedFillMatching {
  import opened Sequences

  datatype Side = AddLp | WithdrawLp

  /** `recordedAt` is the instant of the ISO text. */
  datatype Fill = Fill(
    tokenMint: string,
    tokenSymbol: string,
    poolAddress: string,
    positionAddress: string,
    side: Side,
    recordedAt: int,
    filledSol: real)

  /** The fields of a snapshot that depend on the fills; the others are constants. */
  datatype Snapshot = Snapshot(
    tokenMint: string,
    tokenSymbol: string,
    poolAddress: string,
    positionAddress: string,
    openedAt: int,
    closedAt: int,
    depositSol: real,
    withdrawSol: real,
    pnlSol: real)

  const TOLERANCE := 0.000000001

  predicate IsBase58(c: char) {
    '1' <= c <= '9' || 'A' <= c <= 'H' || 'J' <= c <= 'N' || 'P' <= c <= 'Z' || 'a' <= c <= 'k' || 'm' <= c <= 'z'
  }

  predicate LooksLikeAddress(value: string) {
    32 <= |value| <= 44 && forall i :: 0 <= i < |value| ==> IsBase58(value[i])
  }

  predicate CanShare(open: Fill, close: Fill) {
    && open.tokenMint == close.tokenMint
    && (open.poolAddress == "" || close.poolAddress == "" || open.poolAddress == close.poolAddress)
    && (LooksLikeAddress(open.positionAddress) && LooksLikeAddress(close.positionAddress) ==>
          open.positionAddress == close.positionAddress)
    && open.recordedAt <= close.recordedAt
  }

  /** An open of the very chain position the close names. */
  predicate IsOwn(open: Fill, close: Fill) {
    LooksLikeAddress(open.positionAddress) && open.positionAddress == close.positionAddress && CanShare(open, close)
  }

  /** An open that names no chain position. */
  predicate IsLoose(open: Fill, close: Fill) {
    !LooksLikeAddress(open.positionAddress) && CanShare(open, close)
  }

  predicate Fits(indexes: seq<nat>, n: nat) {
    forall k :: 0 <= k < |indexes| ==> indexes[k] < n
  }

  // ---------------------------------------------------------------- choosing the opens of one close

  /** The last unused own open among the first n. */
  function LastOwn(opens: seq<Fill>, close: Fill, used: set<nat>, n: nat): (index: int)
    requires n <= |opens|
    ensures -1 <= index < n
    ensures index != -1 ==> index !in used && IsOwn(opens[index], close)
    ensures forall i :: index < i < n ==> i in used || !IsOwn(opens[i], close)
  {
    if n == 0 then -1
    else if n - 1 !in used && IsOwn(opens[n - 1], close) then n - 1
    else LastOwn(opens, close, used, n - 1)
  }

  /** The unused loose opens among the first n, most recent first, until together with `sol` they reach the close. */
  function Fallback(opens: seq<Fill>, close: Fill, used: set<nat>, n: nat, sol: real): (indexes: seq<nat>)
    requires n <= |opens|
    ensures Fits(indexes, n)
  {
    if n == 0 then []
    else if n - 1 in used || !IsLoose(opens[n - 1], close) then Fallback(opens, close, used, n - 1, sol)
    else
      var total := sol + opens[n - 1].filledSol;
      (if total + TOLERANCE >= close.filledSol then [] else Fallback(opens, close, used, n - 1, total)) + [n - 1]
  }

  lemma FallbackStep(opens: seq<Fill>, close: Fill, used: set<nat>, n: nat, sol: real)
    requires n <= |opens|
    ensures n == 0 ==> Fallback(opens, close, used, n, sol) == []
    ensures n > 0 ==>
              var total := sol + opens[n - 1].filledSol;
              Fallback(opens, close, used, n, sol)
              == if n - 1 in used || !IsLoose(opens[n - 1], close) then Fallback(opens, close, used, n - 1, sol)
                 else if total + TOLERANCE >= close.filledSol then [n - 1]
                 else Fallback(opens, close, used, n - 1, total) + [n - 1]
  {
    hide IsLoose;
  }

  function Select(opens: seq<Fill>, close: Fill, used: set<nat>): (indexes: seq<nat>)
    ensures Fits(indexes, |opens|)
  {
    var own := if LooksLikeAddress(close.positionAddress) then LastOwn(opens, close, used, |opens|) else -1;
    if own != -1 then [own] else Fallback(opens, close, used, |opens|, 0.0)
  }

  function Sum(opens: seq<Fill>, indexes: seq<nat>): real
    requires Fits(indexes, |opens|)
  {
    if indexes == [] then 0.0
    else Sum(opens, indexes[..|indexes| - 1]) + opens[indexes[|indexes| - 1]].filledSol
  }

  lemma SumSnoc(opens: seq<Fill>, indexes: seq<nat>, last: nat)
    requires last < |opens| && Fits(indexes, |opens|)
    ensures Sum(opens, indexes + [last]) == Sum(opens, indexes) + opens[last].filledSol
  {
    assert (indexes + [last])[..|indexes|] == indexes;
  }

  ghost predicate Ascending(indexes: seq<nat>) {
    forall a, b :: 0 <= a < b < |indexes| ==> indexes[a] < indexes[b]
  }

  ghost predicate AreFreeLoose(opens: seq<Fill>, close: Fill, used: set<nat>, indexes: seq<nat>) {
    && Fits(indexes, |opens|)
    && forall k :: 0 <= k < |indexes| ==> indexes[k] !in used && IsLoose(opens[indexes[k]], close)
  }

  /** Every eligible open among the first n, from `from` on, was taken. */
  ghost predicate TakesAllFrom(opens: seq<Fill>, close: Fill, used: set<nat>, n: nat, from: nat, indexes: seq<nat>)
    requires n <= |opens|
  {
    forall i :: from <= i < n && i !in used && IsLoose(opens[i], close) ==> i in indexes
  }

  /** No proper run of the most recent opens taken reaches the close. */
  ghost predicate NoShorterRun(opens: seq<Fill>, close: Fill, sol: real, indexes: seq<nat>)
    requires Fits(indexes, |opens|)
  {
    forall k :: 0 < k < |indexes| ==> sol + Sum(opens, indexes[k..]) + TOLERANCE < close.filledSol
  }

  /** One more place behind a run of earlier ones. */
  lemma FreeLooseSnoc(opens: seq<Fill>, close: Fill, used: set<nat>, init: seq<nat>, last: nat)
    requires last < |opens| && Fits(init, last) && last !in used && IsLoose(opens[last], close)
    requires Ascending(init) && AreFreeLoose(opens, close, used, init)
    ensures Ascending(init + [last]) && AreFreeLoose(opens, close, used, init + [last])
  {
    hide IsLoose;
  }

  lemma NothingIsFreeLoose(opens: seq<Fill>, close: Fill, used: set<nat>)
    ensures Ascending([]) && AreFreeLoose(opens, close, used, [])
  {}

  lemma {:induction false} FallbackIsAscending(opens: seq<Fill>, close: Fill, used: set<nat>, n: nat, sol: real)
    requires n <= |opens|
    ensures Ascending(Fallback(opens, close, used, n, sol))
            && AreFreeLoose(opens, close, used, Fallback(opens, close, used, n, sol))
  {
    hide IsLoose, Ascending, AreFreeLoose, Fits;
    NothingIsFreeLoose(opens, close, used);
    if n > 0 {
      var total := sol + opens[n - 1].filledSol;
      if n - 1 in used || !IsLoose(opens[n - 1], close) {
        FallbackIsAscending(opens, close, used, n - 1, sol);
      } else {
        var rest := if total + TOLERANCE >= close.filledSol then [] else Fallback(opens, close, used, n - 1, total);
        FallbackIsAscending(opens, close, used, n - 1, total);
        NoneFits(n - 1);
        FreeLooseSnoc(opens, close, used, rest, n - 1);
      }
    }
  }

  lemma NoneFits(n: nat)
    ensures Fits([], n)
  {}

  lemma NoShorterSnoc(opens: seq<Fill>, close: Fill, sol: real, init: seq<nat>, last: nat)
    requires last < |opens| && Fits(init, |opens|)
    requires NoShorterRun(opens, close, sol + opens[last].filledSol, init)
    requires init != [] ==> sol + opens[last].filledSol + TOLERANCE < close.filledSol
    ensures NoShorterRun(opens, close, sol, init + [last])
  {
    var all := init + [last];
    forall k | 0 < k < |all| ensures sol + Sum(opens, all[k..]) + TOLERANCE < close.filledSol {
      assert all[k..] == init[k..] + [last];
      SumSnoc(opens, init[k..], last);
      if k == |init| { assert init[k..] == []; }
    }
  }

  /**
   * The fallback takes the shortest run of the most recent eligible opens that reaches the close within the tolerance,
   * or all of them when none does.
   */
  lemma {:induction false} FallbackIsShortestRun(opens: seq<Fill>, close: Fill, used: set<nat>, n: nat, sol: real)
    requires n <= |opens|
    ensures var taken := Fallback(opens, close, used, n, sol);
            && TakesAllFrom(opens, close, used, n, if taken == [] then 0 else taken[0], taken)
            && NoShorterRun(opens, close, sol, taken)
            && ((taken != [] && sol + Sum(opens, taken) + TOLERANCE >= close.filledSol)
                || TakesAllFrom(opens, close, used, n, 0, taken))
  {
    hide IsLoose, Sum, NoShorterRun;
    if n == 0 {
      NoShorterOfNone(opens, close, sol);
    } else if n - 1 in used || !IsLoose(opens[n - 1], close) {
      FallbackIsShortestRun(opens, close, used, n - 1, sol);
    } else {
      var total := sol + opens[n - 1].filledSol;
      var rest := if total + TOLERANCE >= close.filledSol then [] else Fallback(opens, close, used, n - 1, total);
      if total + TOLERANCE >= close.filledSol {
        NoShorterOfNone(opens, close, total);
      } else {
        FallbackIsShortestRun(opens, close, used, n - 1, total);
      }
      NoShorterSnoc(opens, close, sol, rest, n - 1);
      SumSnoc(opens, rest, n - 1);
      SumOfNone(opens);
    }
  }

  lemma NoShorterOfNone(opens: seq<Fill>, close: Fill, sol: real)
    ensures NoShorterRun(opens, close, sol, [])
  {}

  lemma SumOfNone(opens: seq<Fill>)
    ensures Sum(opens, []) == 0.0
  {}

  // ---------------------------------------------------------------- which opens a close takes

  /** A letter or digit that cannot be taken for another one. */
  predicate IsPlainLetter(c: char) {
    ('0' <= c <= '9' || 'A' <= c <= 'Z' || 'a' <= c <= 'z') && c !in {'0', 'O', 'I', 'l'}
  }

  ghost predicate IsAddress(value: string) {
    32 <= |value| <= 44 && forall c :: c in value ==> IsPlainLetter(c)
  }

  /** The two fills can belong to one life of a position. */
  predicate CanBeOneLife(open: Fill, close: Fill) {
    open.tokenMint == close.tokenMint && open.recordedAt <= close.recordedAt
    && (open.poolAddress == close.poolAddress || open.poolAddress == "" || close.poolAddress == "")
  }

  /** An unused open of the very position that the close names. */
  ghost predicate IsFreeOwn(opens: seq<Fill>, close: Fill, used: set<nat>, i: nat) {
    && i < |opens| && i !in used && CanBeOneLife(opens[i], close)
    && IsAddress(close.positionAddress) && opens[i].positionAddress == close.positionAddress
  }

  /** An unused open that names no position. */
  ghost predicate IsFreeLoose(opens: seq<Fill>, close: Fill, used: set<nat>, i: nat) {
    i < |opens| && i !in used && CanBeOneLife(opens[i], close) && !IsAddress(opens[i].positionAddress)
  }

  /** The shortest run of the latest free loose opens that reaches the close, or all of them. */
  ghost predicate IsShortestRun(opens: seq<Fill>, close: Fill, used: set<nat>, taken: seq<nat>) {
    && Ascending(taken) && Fits(taken, |opens|)
    && (forall i :: i in taken ==> IsFreeLoose(opens, close, used, i))
    && (forall i: nat :: IsFreeLoose(opens, close, used, i) && (taken != [] ==> i >= taken[0]) ==> i in taken)
    && NoShorterRun(opens, close, 0.0, taken)
    && (Sum(opens, taken) + TOLERANCE < close.filledSol ==>
          forall i: nat :: IsFreeLoose(opens, close, used, i) ==> i in taken)
  }

  /**
   * A close takes its own position's latest unused open, and that one only; loose opens just when it has none, then as
   * the shortest run.
   */
  ghost predicate IsDecided(opens: seq<Fill>, close: Fill, used: set<nat>, taken: seq<nat>) {
    if exists i: nat :: IsFreeOwn(opens, close, used, i)
    then |taken| == 1 && IsFreeOwn(opens, close, used, taken[0])
         && forall i: nat :: IsFreeOwn(opens, close, used, i) ==> i <= taken[0]
    else IsShortestRun(opens, close, used, taken)
  }

  lemma AddressExactly(value: string)
    ensures LooksLikeAddress(value) <==> IsAddress(value)
  {
    assert forall c :: IsBase58(c) <==> IsPlainLetter(c);
    assert forall i :: 0 <= i < |value| ==> value[i] in value;
  }

  lemma FreeExactly(opens: seq<Fill>, close: Fill, used: set<nat>, i: nat)
    requires i < |opens|
    ensures IsFreeOwn(opens, close, used, i) <==>
              i !in used && LooksLikeAddress(close.positionAddress) && IsOwn(opens[i], close)
    ensures IsFreeLoose(opens, close, used, i) <==> i !in used && IsLoose(opens[i], close)
  {
    hide LooksLikeAddress, IsAddress;
    AddressExactly(close.positionAddress);
    AddressExactly(opens[i].positionAddress);
  }

  lemma SelectDecides(opens: seq<Fill>, close: Fill, used: set<nat>)
    ensures IsDecided(opens, close, used, Select(opens, close, used))
  {
    hide IsFreeOwn, IsFreeLoose, LooksLikeAddress, IsOwn, IsLoose, Sum, LastOwn, Fallback;
    forall i: nat | i < |opens|
      ensures IsFreeOwn(opens, close, used, i) <==>
                i !in used && LooksLikeAddress(close.positionAddress) && IsOwn(opens[i], close)
      ensures IsFreeLoose(opens, close, used, i) <==> i !in used && IsLoose(opens[i], close)
    {
      FreeExactly(opens, close, used, i);
    }
    FreeAreIndexes(opens, close, used);
    FallbackIsShortestRun(opens, close, used, |opens|, 0.0);
    FallbackIsAscending(opens, close, used, |opens|, 0.0);
  }

  lemma FreeAreIndexes(opens: seq<Fill>, close: Fill, used: set<nat>)
    ensures forall i: nat :: IsFreeOwn(opens, close, used, i) || IsFreeLoose(opens, close, used, i) ==> i < |opens|
  {}

  /** The first loop of selectOpenFillsForClose. */
  method FindOwnOpen(opens: seq<Fill>, close: Fill, usedOpenIndexes: set<nat>) returns (index: int)
    ensures index == LastOwn(opens, close, usedOpenIndexes, |opens|)
  {
    hide LooksLikeAddress, CanShare;
    index := |opens| - 1;
    while index >= 0
      invariant -1 <= index < |opens|
      invariant LastOwn(opens, close, usedOpenIndexes, |opens|) == LastOwn(opens, close, usedOpenIndexes, index + 1)
    {
      var open := opens[index];
      if !(index in usedOpenIndexes || !LooksLikeAddress(open.positionAddress)
           || open.positionAddress != close.positionAddress || !CanShare(open, close)) {
        return;
      }
      index := index - 1;
    }
  }

  /** Its second loop. */
  method TakeLooseOpens(opens: seq<Fill>, close: Fill, usedOpenIndexes: set<nat>) returns (selected: seq<nat>)
    ensures selected == Fallback(opens, close, usedOpenIndexes, |opens|, 0.0)
  {
    hide LooksLikeAddress, CanShare, Fallback;
    selected := [];
    var selectedSol := 0.0;
    var index := |opens| - 1;
    while index >= 0
      invariant -1 <= index < |opens|
      invariant Fallback(opens, close, usedOpenIndexes, |opens|, 0.0)
             == Fallback(opens, close, usedOpenIndexes, index + 1, selectedSol) + selected
    {
      var open := opens[index];
      FallbackStep(opens, close, usedOpenIndexes, index + 1, selectedSol);
      if !(index in usedOpenIndexes || LooksLikeAddress(open.positionAddress) || !CanShare(open, close)) {
        ghost var before := selected;
        selected := [index] + selected;
        selectedSol := selectedSol + open.filledSol;
        if selectedSol + TOLERANCE >= close.filledSol { return; }
        ghost var rest := Fallback(opens, close, usedOpenIndexes, index, selectedSol);
        assert (rest + [index]) + before == rest + selected;
      }
      index := index - 1;
    }
    FallbackStep(opens, close, usedOpenIndexes, 0, selectedSol);
  }

  method SelectOpenFillsForClose(opens: seq<Fill>, close: Fill, usedOpenIndexes: set<nat>) returns (selected: seq<nat>)
    ensures selected == Select(opens, close, usedOpenIndexes)
    ensures IsDecided(opens, close, usedOpenIndexes, selected)
  {
    hide LooksLikeAddress, IsDecided, LastOwn, Fallback;
    SelectDecides(opens, close, usedOpenIndexes);
    if LooksLikeAddress(close.positionAddress) {
      var index := FindOwnOpen(opens, close, usedOpenIndexes);
      if index >= 0 { return [index]; }
    }
    selected := TakeLooseOpens(opens, close, usedOpenIndexes);
  }

  // ---------------------------------------------------------------- matching all closes

  /** A matched close and the opens it takes. */
  datatype Match = Match(close: nat, opens: seq<nat>)

  function ToSet(indexes: seq<nat>): (s: set<nat>)
    ensures forall i :: i in s <==> i in indexes
  {
    set i | i in indexes
  }

  function Used(matches: seq<Match>): set<nat> {
    if matches == [] then {} else Used(matches[..|matches| - 1]) + ToSet(matches[|matches| - 1].opens)
  }

  function MatchAll(opens: seq<Fill>, closes: seq<Fill>): seq<Match> {
    if closes == [] then []
    else
      var before := MatchAll(opens, closes[..|closes| - 1]);
      var selected := Select(opens, closes[|closes| - 1], Used(before));
      if selected == [] then before else before + [Match(|closes| - 1, selected)]
  }

  ghost predicate InRange(opens: seq<Fill>, closes: seq<Fill>, m: Match) {
    m.close < |closes| && m.opens != [] && Fits(m.opens, |opens|)
  }

  function FirstOf(text: string, other: string): string { if text != "" then text else other }

  function SnapshotOf(opens: seq<Fill>, close: Fill, matched: seq<nat>): Snapshot
    requires matched != [] && Fits(matched, |opens|)
  {
    var open := opens[matched[0]];
    Snapshot(open.tokenMint,
             FirstOf(open.tokenSymbol, close.tokenSymbol),
             FirstOf(close.poolAddress, open.poolAddress),
             FirstOf(close.positionAddress, FirstOf(open.positionAddress, open.poolAddress + ":" + open.tokenMint)),
             open.recordedAt, close.recordedAt,
             Sum(opens, matched), close.filledSol, close.filledSol - Sum(opens, matched))
  }

  ghost predicate AllInRange(opens: seq<Fill>, closes: seq<Fill>, matches: seq<Match>) {
    forall m :: m in matches ==> InRange(opens, closes, m)
  }

  lemma {:induction false} MatchesInRange(opens: seq<Fill>, closes: seq<Fill>)
    ensures AllInRange(opens, closes, MatchAll(opens, closes))
  {
    if closes != [] { MatchesInRange(opens, closes[..|closes| - 1]); }
  }

  function Snapshots(opens: seq<Fill>, closes: seq<Fill>, matches: seq<Match>): seq<Snapshot>
    requires AllInRange(opens, closes, matches)
  {
    if matches == [] then []
    else
      var last := matches[|matches| - 1];
      assert last in matches;
      Snapshots(opens, closes, matches[..|matches| - 1]) + [SnapshotOf(opens, closes[last.close], last.opens)]
  }

  function Earlier(): (Fill, Fill) -> bool { (left: Fill, right: Fill) => left.recordedAt <= right.recordedAt }

  /** The fills of one side with a positive amount, in time order. */
  function SideOf(fills: seq<Fill>, side: Side): seq<Fill> {
    StableSort(Earlier(), Filter((row: Fill) => row.side == side && row.filledSol > 0.0, fills))
  }

  method MarkUsed(used: set<nat>, indexes: seq<nat>) returns (marked: set<nat>)
    ensures marked == used + ToSet(indexes)
  {
    marked := used;
    for i := 0 to |indexes|
      invariant marked == used + ToSet(indexes[..i])
    {
      marked := marked + {indexes[i]};
    }
    assert indexes[..|indexes|] == indexes;
  }

  method TotalOf(opens: seq<Fill>, indexes: seq<nat>) returns (total: real)
    requires Fits(indexes, |opens|)
    ensures total == Sum(opens, indexes)
  {
    total := 0.0;
    for i := 0 to |indexes|
      invariant total == Sum(opens, indexes[..i])
    {
      assert indexes[..i + 1][..i] == indexes[..i];
      total := total + opens[indexes[i]].filledSol;
    }
    assert indexes[..|indexes|] == indexes;
  }

  method TakeSnapshot(opens: seq<Fill>, close: Fill, matched: seq<nat>) returns (snapshot: Snapshot)
    requires matched != [] && Fits(matched, |opens|)
    ensures snapshot == SnapshotOf(opens, close, matched)
  {
    var open := opens[matched[0]];
    var depositSol := TotalOf(opens, matched);
    snapshot := Snapshot(
      open.tokenMint,
      FirstOf(open.tokenSymbol, close.tokenSymbol),
      FirstOf(close.poolAddress, open.poolAddress),
      FirstOf(close.positionAddress, FirstOf(open.positionAddress, open.poolAddress + ":" + open.tokenMint)),
      open.recordedAt, close.recordedAt, depositSol, close.filledSol, close.filledSol - depositSol);
  }

  /** One more close. */
  lemma MatchOne(opens: seq<Fill>, closes: seq<Fill>, n: nat)
    requires n < |closes|
    ensures var before := MatchAll(opens, closes[..n]);
            var selected := Select(opens, closes[n], Used(before));
            MatchAll(opens, closes[..n + 1]) == if selected == [] then before else before + [Match(n, selected)]
  {
    hide Select, Used;
    assert closes[..n + 1][..n] == closes[..n];
  }

  lemma MatchesOfPrefix(opens: seq<Fill>, closes: seq<Fill>, n: nat)
    requires n <= |closes|
    ensures AllInRange(opens, closes, MatchAll(opens, closes[..n]))
  {
    hide MatchAll, InRange;
    MatchesInRange(opens, closes[..n]);
    forall m | m in MatchAll(opens, closes[..n]) ensures InRange(opens, closes, m) {
      RangeGrows(opens, closes, n, m);
    }
  }

  lemma RangeGrows(opens: seq<Fill>, closes: seq<Fill>, n: nat, m: Match)
    requires n <= |closes| && InRange(opens, closes[..n], m)
    ensures InRange(opens, closes, m)
  {}

  /** What one more match adds to the used opens and to the snapshots. */
  lemma MatchAdded(opens: seq<Fill>, closes: seq<Fill>, before: seq<Match>, m: Match)
    requires AllInRange(opens, closes, before + [m]) && AllInRange(opens, closes, before) && InRange(opens, closes, m)
    ensures Used(before + [m]) == Used(before) + ToSet(m.opens)
    ensures Snapshots(opens, closes, before + [m])
         == Snapshots(opens, closes, before) + [SnapshotOf(opens, closes[m.close], m.opens)]
  {
    hide SnapshotOf;
    assert (before + [m])[..|before|] == before;
  }

  method BuildClosedPositionSnapshots(fills: seq<Fill>) returns (snapshots: seq<Snapshot>)
    ensures var opens, closes := SideOf(fills, AddLp), SideOf(fills, WithdrawLp);
            var matches := MatchAll(opens, closes);
            AllInRange(opens, closes, matches) && snapshots == Snapshots(opens, closes, matches)
  {
    hide SideOf, Select, SnapshotOf, IsDecided, MatchAll, Used, Snapshots, AllInRange, InRange;
    var opens := SideOf(fills, AddLp);
    var closes := SideOf(fills, WithdrawLp);
    var usedOpenIndexes: set<nat> := {};
    snapshots := [];
    NothingMatched(opens, closes);
    for c := 0 to |closes|
      invariant AllInRange(opens, closes, MatchAll(opens, closes[..c]))
      invariant usedOpenIndexes == Used(MatchAll(opens, closes[..c]))
      invariant snapshots == Snapshots(opens, closes, MatchAll(opens, closes[..c]))
    {
      var close := closes[c];
      MatchOne(opens, closes, c);
      MatchesOfPrefix(opens, closes, c + 1);
      var matched := SelectOpenFillsForClose(opens, close, usedOpenIndexes);
      if |matched| == 0 { continue; }
      MatchInRange(opens, closes, c, matched);
      MatchAdded(opens, closes, MatchAll(opens, closes[..c]), Match(c, matched));
      usedOpenIndexes := MarkUsed(usedOpenIndexes, matched);
      var snapshot := TakeSnapshot(opens, close, matched);
      snapshots := snapshots + [snapshot];
    }
    assert closes[..|closes|] == closes;
  }

  lemma NothingMatched(opens: seq<Fill>, closes: seq<Fill>)
    ensures AllInRange(opens, closes, MatchAll(opens, closes[..0])) && Used(MatchAll(opens, closes[..0])) == {}
    ensures Snapshots(opens, closes, MatchAll(opens, closes[..0])) == []
  {}

  lemma MatchInRange(opens: seq<Fill>, closes: seq<Fill>, c: nat, matched: seq<nat>)
    requires c < |closes| && matched != [] && Fits(matched, |opens|)
    ensures InRange(opens, closes, Match(c, matched))
  {}

  // ---------------------------------------------------------------- what a match may contain

  /**
   * They agree on mint and known pool, the open comes no later, and an open bound to a chain position is the close's
   * own.
   */
  predicate MayTake(open: Fill, close: Fill) {
    CanShare(open, close) && (LooksLikeAddress(open.positionAddress) ==> open.positionAddress == close.positionAddress)
  }

  /** The rules of one match, whatever its close saw as used before. */
  ghost predicate SoundMatch(opens: seq<Fill>, closes: seq<Fill>, m: Match) {
    && InRange(opens, closes, m)
    && Ascending(m.opens)
    && forall k :: 0 <= k < |m.opens| ==> MayTake(opens[m.opens[k]], closes[m.close])
  }

  ghost predicate Disjoint(a: seq<nat>, b: seq<nat>) { forall i :: i in a ==> i !in b }

  lemma SelectIsSound(opens: seq<Fill>, close: Fill, used: set<nat>)
    ensures var selected := Select(opens, close, used);
            && Ascending(selected)
            && forall k :: 0 <= k < |selected| ==> selected[k] !in used && MayTake(opens[selected[k]], close)
  {
    FallbackIsAscending(opens, close, used, |opens|, 0.0);
  }

  lemma UsedHasAll(matches: seq<Match>)
    ensures forall k, i :: 0 <= k < |matches| && i in matches[k].opens ==> i in Used(matches)
  {
    if matches != [] {
      UsedHasAll(matches[..|matches| - 1]);
      forall k, i | 0 <= k < |matches| && i in matches[k].opens ensures i in Used(matches) {
        if k < |matches| - 1 { assert matches[..|matches| - 1][k] == matches[k]; }
      }
    }
  }

  /** No close is matched twice and no open is used twice. */
  ghost predicate IsMatching(matches: seq<Match>) {
    forall a, b :: 0 <= a < b < |matches| ==>
      matches[a].close < matches[b].close && Disjoint(matches[a].opens, matches[b].opens)
  }

  lemma {:induction false} MatchesAreDisjoint(opens: seq<Fill>, closes: seq<Fill>)
    ensures IsMatching(MatchAll(opens, closes)) && forall m :: m in MatchAll(opens, closes) ==> m.close < |closes|
  {
    hide Select, MayTake, Used;
    if closes != [] {
      var init := closes[..|closes| - 1];
      MatchesAreDisjoint(opens, init);
      SelectIsSound(opens, closes[|closes| - 1], Used(MatchAll(opens, init)));
      UsedHasAll(MatchAll(opens, init));
    }
  }

  /**
   * Every match is sound: its opens agree with its close on mint and known pool and come no later, and an open bound to
   * a chain position goes to that position's close only. No close is matched twice and no open is used twice.
   */
  lemma {:induction false} MatchesAreSound(opens: seq<Fill>, closes: seq<Fill>)
    ensures IsMatching(MatchAll(opens, closes))
    ensures forall m :: m in MatchAll(opens, closes) ==> SoundMatch(opens, closes, m)
  {
    hide Select, MayTake, Ascending, IsMatching, Used;
    MatchesAreDisjoint(opens, closes);
    if closes != [] {
      var init := closes[..|closes| - 1];
      MatchesAreSound(opens, init);
      SelectIsSound(opens, closes[|closes| - 1], Used(MatchAll(opens, init)));
      forall m | m in MatchAll(opens, init) ensures SoundMatch(opens, closes, m) {
        assert SoundMatch(opens, init, m);
        assert init[m.close] == closes[m.close];
      }
    }
  }

  /** The two texts agree, or one of them is unknown. */
  predicate Compatible(text: string, other: string) { text == "" || other == "" || text == other }

  /**
   * Pool and position are the close's when it names them and the open's otherwise, the symbol the other way round; a
   * position that neither names is named after pool and mint.
   */
  predicate NamesTheFirstKnown(snapshot: Snapshot, open: Fill, close: Fill) {
    && (close.poolAddress != "" ==> snapshot.poolAddress == close.poolAddress)
    && (close.poolAddress == "" ==> snapshot.poolAddress == open.poolAddress)
    && (open.tokenSymbol != "" ==> snapshot.tokenSymbol == open.tokenSymbol)
    && (open.tokenSymbol == "" ==> snapshot.tokenSymbol == close.tokenSymbol)
    && (close.positionAddress != "" ==> snapshot.positionAddress == close.positionAddress)
    && (close.positionAddress == "" && open.positionAddress != "" ==>
          snapshot.positionAddress == open.positionAddress)
    && (close.positionAddress == "" && open.positionAddress == "" ==>
          snapshot.positionAddress == open.poolAddress + ":" + open.tokenMint)
  }

  /**
   * A snapshot of a sound match over opens in time order: it opens with the earliest of its opens and closes with its
   * close, names the mint of both and a pool compatible with both, and its profit is what the close brought less the
   * deposit.
   */
  lemma SnapshotTellsTheMatch(opens: seq<Fill>, closes: seq<Fill>, m: Match)
    requires SortedBy(Earlier(), opens) && SoundMatch(opens, closes, m)
    ensures var snapshot, close := SnapshotOf(opens, closes[m.close], m.opens), closes[m.close];
            && snapshot.closedAt == close.recordedAt && snapshot.withdrawSol == close.filledSol
              && snapshot.tokenMint == close.tokenMint
            && snapshot.pnlSol + snapshot.depositSol == snapshot.withdrawSol
            && (forall k :: 0 <= k < |m.opens| ==>
                  && snapshot.openedAt <= opens[m.opens[k]].recordedAt <= snapshot.closedAt
                  && snapshot.tokenMint == opens[m.opens[k]].tokenMint)
            && Compatible(snapshot.poolAddress, close.poolAddress)
              && Compatible(snapshot.poolAddress, opens[m.opens[0]].poolAddress)
            && NamesTheFirstKnown(snapshot, opens[m.opens[0]], close)
  {
    hide Sum, LooksLikeAddress;
    forall k | 0 <= k < |m.opens|
      ensures opens[m.opens[0]].recordedAt <= opens[m.opens[k]].recordedAt <= closes[m.close].recordedAt
                                          && opens[m.opens[k]].tokenMint == closes[m.close].tokenMint {
      assert MayTake(opens[m.opens[k]], closes[m.close]);
      if k > 0 { assert Earlier()(opens[m.opens[0]], opens[m.opens[k]]); }
    }
  }

  // ---------------------------------------------------------------- every match is decided

  /** What a close takes from what the closes before it left; it is matched exactly when that is anything. */
  lemma {:induction false} CloseIsDecided(opens: seq<Fill>, closes: seq<Fill>, c: nat) returns (taken: seq<nat>)
    requires c < |closes|
    ensures IsDecided(opens, closes[c], Used(MatchAll(opens, closes[..c])), taken)
    ensures taken != [] ==> Match(c, taken) in MatchAll(opens, closes)
    ensures taken == [] ==> forall m :: m in MatchAll(opens, closes) ==> m.close != c
    decreases |closes|
  {
    hide Select, IsDecided, Used;
    var init := closes[..|closes| - 1];
    if c < |init| {
      assert init[c] == closes[c] && init[..c] == closes[..c];
      taken := CloseIsDecided(opens, init, c);
    } else {
      assert init == closes[..c];
      taken := Select(opens, closes[c], Used(MatchAll(opens, init)));
      SelectDecides(opens, closes[c], Used(MatchAll(opens, init)));
      MatchesAreDisjoint(opens, init);
    }
  }

  /** Where a close took a loose open, every open of its own position was used before. */
  lemma LooseOnlyWithoutOwn(opens: seq<Fill>, closes: seq<Fill>, m: Match, k: nat, i: nat)
    requires m in MatchAll(opens, closes) && k < |m.opens| && m.opens[k] < |opens| && m.close < |closes|
    requires !IsAddress(opens[m.opens[k]].positionAddress) && i < |opens|
    requires CanBeOneLife(opens[i], closes[m.close]) && IsAddress(closes[m.close].positionAddress)
             && opens[i].positionAddress == closes[m.close].positionAddress
    ensures i in Used(MatchAll(opens, closes[..m.close]))
  {
    hide MatchAll, Used, IsShortestRun, IsAddress;
    var taken := CloseIsDecided(opens, closes, m.close);
    MatchesAreDisjoint(opens, closes);
    assert taken != [];
    OneMatchAClose(MatchAll(opens, closes), m, Match(m.close, taken));
    var used, close := Used(MatchAll(opens, closes[..m.close])), closes[m.close];
    assert i !in used ==> IsFreeOwn(opens, close, used, i);
  }

  lemma OneMatchAClose(matches: seq<Match>, a: Match, b: Match)
    requires IsMatching(matches) && a in matches && b in matches && a.close == b.close
    ensures a == b
  {}

  /** The sides: every fill of the side with a positive amount once, in time order, and in file order at one time. */
  lemma SidesExactly(fills: seq<Fill>, side: Side, fill: Fill)
    ensures var rows := SideOf(fills, side);
            && (forall i, j :: 0 <= i < j < |rows| ==> rows[i].recordedAt <= rows[j].recordedAt)
            && multiset(rows)[fill] == (if fill.side == side && fill.filledSol > 0.0 then multiset(fills)[fill] else 0)
            && Filter(TiedWith(Earlier(), fill), rows)
               == Filter((row: Fill) => row.side == side && row.filledSol > 0.0 && row.recordedAt == fill.recordedAt,
                         fills)
  {
    var counts := (row: Fill) => row.side == side && row.filledSol > 0.0;
    var countsThen := (row: Fill) => row.side == side && row.filledSol > 0.0 && row.recordedAt == fill.recordedAt;
    var kept := Filter(counts, fills);
    EarlierIsTotal();
    StableSortSorts(Earlier(), kept);
    StableSortIsStable(Earlier(), fill, kept);
    FilterCounts(counts, fills, fill);
    FilterTwice(counts, TiedWith(Earlier(), fill), countsThen, fills);
  }

  lemma EarlierIsTotal()
    ensures TotalPreorder(Earlier())
  {}

  // ---------------------------------------------------------------- conservation

  function TotalDeposit(snapshots: seq<Snapshot>): real {
    if snapshots == [] then 0.0 else TotalDeposit(snapshots[..|snapshots| - 1]) + snapshots[|snapshots| - 1].depositSol
  }

  function TotalPnl(snapshots: seq<Snapshot>): real {
    if snapshots == [] then 0.0 else TotalPnl(snapshots[..|snapshots| - 1]) + snapshots[|snapshots| - 1].pnlSol
  }

  /** The amounts of those of the first n fills whose index is in the set, each once. */
  function SumIn(fills: seq<Fill>, chosen: set<nat>, n: nat): real
    requires n <= |fills|
  {
    if n == 0 then 0.0 else SumIn(fills, chosen, n - 1) + (if n - 1 in chosen then fills[n - 1].filledSol else 0.0)
  }

  lemma {:induction false} SumInAdds(fills: seq<Fill>, chosen: set<nat>, n: nat, i: nat)
    requires n <= |fills| && i < |fills| && i !in chosen
    ensures SumIn(fills, chosen + {i}, n) == SumIn(fills, chosen, n) + (if i < n then fills[i].filledSol else 0.0)
  {
    if n > 0 { SumInAdds(fills, chosen, n - 1, i); }
  }

  lemma {:induction false} SumInAddsAll(fills: seq<Fill>, chosen: set<nat>, indexes: seq<nat>)
    requires Ascending(indexes) && Fits(indexes, |fills|) && forall k :: 0 <= k < |indexes| ==> indexes[k] !in chosen
    ensures SumIn(fills, chosen + ToSet(indexes), |fills|) == SumIn(fills, chosen, |fills|) + Sum(fills, indexes)
  {
    if indexes == [] {
      assert chosen + ToSet(indexes) == chosen;
    } else {
      var init, last := indexes[..|indexes| - 1], indexes[|indexes| - 1];
      SumInAddsAll(fills, chosen, init);
      assert last !in init;
      SumInAdds(fills, chosen + ToSet(init), |fills|, last);
      assert indexes == init + [last];
      assert chosen + ToSet(indexes) == chosen + ToSet(init) + {last};
    }
  }

  function MatchedCloses(matches: seq<Match>): set<nat> {
    if matches == [] then {} else MatchedCloses(matches[..|matches| - 1]) + {matches[|matches| - 1].close}
  }

  ghost predicate ClosesBelow(matches: seq<Match>, n: nat) {
    forall m :: m in matches ==> m.close < n
  }

  lemma {:induction false} MatchedClosesBelow(matches: seq<Match>, n: nat)
    requires ClosesBelow(matches, n)
    ensures forall c :: c in MatchedCloses(matches) ==> c < n
  {
    if matches != [] { MatchedClosesBelow(matches[..|matches| - 1], n); }
  }

  /**
   * The snapshots conserve: the deposits add up to the used opens, each counted once, and the profits to the matched
   * closes, each counted once, minus the used opens.
   */
  lemma {:induction false} FillMatchingConserves(opens: seq<Fill>, closes: seq<Fill>, matches: seq<Match>)
    requires forall m :: m in matches ==> SoundMatch(opens, closes, m)
    requires IsMatching(matches)
    ensures AllInRange(opens, closes, matches)
    ensures var snapshots := Snapshots(opens, closes, matches);
            && TotalDeposit(snapshots) == SumIn(opens, Used(matches), |opens|)
            && TotalPnl(snapshots)
               == SumIn(closes, MatchedCloses(matches), |closes|) - SumIn(opens, Used(matches), |opens|)
  {
    hide MayTake, Ascending;
    if matches == [] {
      SumInNone(opens, |opens|);
      SumInNone(closes, |closes|);
    } else {
      var init, last := matches[..|matches| - 1], matches[|matches| - 1];
      assert matches == init + [last];
      FillMatchingConserves(opens, closes, init);
      UsedComesFromMatches(init);
      forall k | 0 <= k < |last.opens| ensures last.opens[k] !in Used(init) { assert last.opens[k] in last.opens; }
      assert SoundMatch(opens, closes, last);
      SumInAddsAll(opens, Used(init), last.opens);
      assert forall m :: m in init ==> m.close < last.close;
      MatchedClosesBelow(init, last.close);
      SumInAdds(closes, MatchedCloses(init), |closes|, last.close);
      var snapshots := Snapshots(opens, closes, matches);
      assert snapshots[..|snapshots| - 1] == Snapshots(opens, closes, init);
    }
  }

  /**
   * What BuildClosedPositionSnapshots returns: a sound matching of the fills, and nothing gained or lost in the sums.
   */
  lemma SnapshotsConserve(fills: seq<Fill>)
    ensures var opens, closes := SideOf(fills, AddLp), SideOf(fills, WithdrawLp);
            var matches := MatchAll(opens, closes);
            && IsMatching(matches)
            && (forall m :: m in matches ==> SoundMatch(opens, closes, m))
            && AllInRange(opens, closes, matches)
            && TotalDeposit(Snapshots(opens, closes, matches)) == SumIn(opens, Used(matches), |opens|)
            && TotalPnl(Snapshots(opens, closes, matches))
               == SumIn(closes, MatchedCloses(matches), |closes|) - SumIn(opens, Used(matches), |opens|)
  {
    hide SideOf, SoundMatch, IsMatching;
    var opens, closes := SideOf(fills, AddLp), SideOf(fills, WithdrawLp);
    MatchesAreSound(opens, closes);
    FillMatchingConserves(opens, closes, MatchAll(opens, closes));
  }

  lemma {:induction false} UsedComesFromMatches(matches: seq<Match>)
    ensures forall i :: i in Used(matches) ==> exists k :: 0 <= k < |matches| && i in matches[k].opens
  {
    if matches != [] {
      UsedComesFromMatches(matches[..|matches| - 1]);
      forall i | i in Used(matches) ensures exists k :: 0 <= k < |matches| && i in matches[k].opens {
        if i in Used(matches[..|matches| - 1]) {
          var k :| 0 <= k < |matches| - 1 && i in matches[..|matches| - 1][k].opens;
          assert i in matches[k].opens;
        } else {
          assert i in matches[|matches| - 1].opens;
        }
      }
    }
  }

  lemma {:induction false} SumInNone(fills: seq<Fill>, n: nat)
    requires n <= |fills|
    ensures SumIn(fills, {}, n) == 0.0
  {
    if n > 0 { SumInNone(fills, n - 1); }
  }

  // ---------------------------------------------------------------- maximality

  /** An open the close could take. */
  predicate Eligible(open: Fill, close: Fill) {
    IsLoose(open, close) || IsOwn(open, close)
  }

  lemma {:induction false} UsedGrows(opens: seq<Fill>, closes: seq<Fill>, n: nat)
    requires n <= |closes|
    ensures Used(MatchAll(opens, closes[..n])) <= Used(MatchAll(opens, closes))
    decreases |closes|
  {
    if n == |closes| {
      assert closes[..n] == closes;
    } else {
      var init := closes[..|closes| - 1];
      UsedGrows(opens, init, n);
      assert init[..n] == closes[..n];
      var before := MatchAll(opens, init);
      var selected := Select(opens, closes[|closes| - 1], Used(before));
      assert (before + [Match(|closes| - 1, selected)])[..|before|] == before;
    }
  }

  /** Nothing is left to match: a close that got no snapshot could take none of the opens left unused at the end. */
  lemma NothingLeftToMatch(opens: seq<Fill>, closes: seq<Fill>, c: nat, i: nat)
    requires c < |closes| && i < |opens|
    requires Select(opens, closes[c], Used(MatchAll(opens, closes[..c]))) == []
    requires i !in Used(MatchAll(opens, closes))
    ensures !Eligible(opens[i], closes[c])
  {
    hide Used, MatchAll, CanShare;
    var used := Used(MatchAll(opens, closes[..c]));
    UsedGrows(opens, closes, c);
    FallbackIsShortestRun(opens, closes[c], used, |opens|, 0.0);
  }
}
