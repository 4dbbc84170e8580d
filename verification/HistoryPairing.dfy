/**
 * Pairing opens and closes into lifecycles: the fold inside buildHistoricalActivity of
 * src/dashboard/dashboard-metrics.ts.
 */
module HistoryPairing {
  import opened Sequences
  import opened Wrappers

  /** A reconciled action; `recordedAt` is the instant of the ISO text and the rest is payload. */
  datatype Action = Action(lifecycleKey: string, tokenMint: string, tokenSymbol: string, action: string,
                           recordedAt: int, payload: string)

  datatype Lifecycle = Lifecycle(tokenMint: string, tokenSymbol: string, openAction: Option<Action>,
                                 closeAction: Option<Action>)

  predicate IsOpen(action: Action) { action.action == "add-lp" || action.action == "deploy" }

  predicate IsClose(action: Action) { action.action == "withdraw-lp" }

  function IsSupported(): Action -> bool { (action: Action) => IsOpen(action) || IsClose(action) }

  // ---------------------------------------------------------------- the map, in the order it keeps its keys

  datatype Entry = Entry(key: string, lifecycle: Lifecycle)

  function PlaceOf(table: seq<Entry>, key: string): (index: int)
    ensures -1 <= index < |table|
    ensures index != -1 ==> table[index].key == key
    ensures forall i :: 0 <= i < (if index == -1 then |table| else index) ==> table[i].key != key
  {
    if table == [] then -1
    else if table[0].key == key then 0
    else
      var rest := PlaceOf(table[1..], key);
      assert forall i :: 1 <= i < |table| ==> table[1..][i - 1] == table[i];
      if rest == -1 then -1 else rest + 1
  }

  function Get(table: seq<Entry>, key: string): Option<Lifecycle> {
    var index := PlaceOf(table, key);
    if index == -1 then None else Some(table[index].lifecycle)
  }

  /** Map.set: an existing key keeps its place. */
  function Put(table: seq<Entry>, key: string, lifecycle: Lifecycle): seq<Entry> {
    var index := PlaceOf(table, key);
    if index == -1 then table + [Entry(key, lifecycle)] else table[index := Entry(key, lifecycle)]
  }

  /** Map.delete. */
  function Delete(table: seq<Entry>, key: string): seq<Entry> {
    var index := PlaceOf(table, key);
    if index == -1 then table else RemoveAt(table, index)
  }

  // ---------------------------------------------------------------- the fold

  datatype State = State(lifecycles: seq<Lifecycle>, table: seq<Entry>)

  function Opened(action: Action): Lifecycle { Lifecycle(action.tokenMint, action.tokenSymbol, Some(action), None) }

  function ClosedAlone(action: Action): Lifecycle {
    Lifecycle(action.tokenMint, action.tokenSymbol, None, Some(action))
  }

  function Step(state: State, action: Action): State {
    var current := Get(state.table, action.lifecycleKey);
    if IsOpen(action) then
      State(if current.Some? then state.lifecycles + [current.value] else state.lifecycles,
            Put(state.table, action.lifecycleKey, Opened(action)))
    else if IsClose(action) then
      if current.Some? then
        State(state.lifecycles + [current.value.(closeAction := Some(action))],
              Delete(state.table, action.lifecycleKey))
      else State(state.lifecycles + [ClosedAlone(action)], state.table)
    else state
  }

  function Fold(actions: seq<Action>): State {
    if actions == [] then State([], []) else Step(Fold(actions[..|actions| - 1]), actions[|actions| - 1])
  }

  function ValueOf(): Entry -> Lifecycle { (entry: Entry) => entry.lifecycle }

  function Lifecycles(actions: seq<Action>): seq<Lifecycle> {
    Fold(actions).lifecycles + Map(ValueOf(), Fold(actions).table)
  }

  function ByTime(): (Action, Action) -> bool { (left: Action, right: Action) => left.recordedAt <= right.recordedAt }

  method PairActions(reconciled: seq<Action>) returns (lifecycles: seq<Lifecycle>)
    ensures lifecycles == Lifecycles(StableSort(ByTime(), reconciled))
  {
    hide StableSort, Put, Delete, Get;
    var actions := StableSort(ByTime(), reconciled);
    lifecycles := [];
    var currentLifecycleByKey: seq<Entry> := [];
    for i := 0 to |actions|
      invariant State(lifecycles, currentLifecycleByKey) == Fold(actions[..i])
    {
      assert actions[..i + 1][..i] == actions[..i];
      var action := actions[i];
      var current := Get(currentLifecycleByKey, action.lifecycleKey);
      if IsOpen(action) {
        if current.Some? {
          lifecycles := lifecycles + [current.value];
        }
        currentLifecycleByKey := Put(currentLifecycleByKey, action.lifecycleKey, Opened(action));
        continue;
      }
      if IsClose(action) {
        if current.Some? {
          lifecycles := lifecycles + [current.value.(closeAction := Some(action))];
          currentLifecycleByKey := Delete(currentLifecycleByKey, action.lifecycleKey);
        } else {
          lifecycles := lifecycles + [ClosedAlone(action)];
        }
      }
    }
    assert actions[..|actions|] == actions;
    ghost var collected := lifecycles;
    for j := 0 to |currentLifecycleByKey|
      invariant lifecycles == collected + Map(ValueOf(), currentLifecycleByKey[..j])
    {
      lifecycles := lifecycles + [currentLifecycleByKey[j].lifecycle];
    }
    assert currentLifecycleByKey[..|currentLifecycleByKey|] == currentLifecycleByKey;
  }

  // ---------------------------------------------------------------- every action is in exactly one lifecycle

  function Parts(lifecycle: Lifecycle): multiset<Action> {
    (if lifecycle.openAction.Some? then multiset{lifecycle.openAction.value} else multiset{})
    + (if lifecycle.closeAction.Some? then multiset{lifecycle.closeAction.value} else multiset{})
  }

  function AllParts(lifecycles: seq<Lifecycle>): multiset<Action> {
    if lifecycles == [] then multiset{}
    else AllParts(lifecycles[..|lifecycles| - 1]) + Parts(lifecycles[|lifecycles| - 1])
  }

  lemma AllPartsSnoc(lifecycles: seq<Lifecycle>, last: Lifecycle)
    ensures AllParts(lifecycles + [last]) == AllParts(lifecycles) + Parts(last)
  {
    hide Parts;
    assert (lifecycles + [last])[..|lifecycles|] == lifecycles;
  }

  lemma {:induction false} AllPartsConcat(a: seq<Lifecycle>, b: seq<Lifecycle>)
    ensures AllParts(a + b) == AllParts(a) + AllParts(b)
  {
    hide Parts, AllParts;
    AllPartsNone();
    if b == [] {
      assert a + b == a;
    } else {
      var init, last := b[..|b| - 1], b[|b| - 1];
      AllPartsConcat(a, init);
      AllPartsSnoc(a + init, last);
      AllPartsSnoc(init, last);
      assert (a + init) + [last] == a + b;
      assert init + [last] == b;
    }
  }

  lemma AllPartsNone()
    ensures AllParts([]) == multiset{}
  {}

  lemma AllPartsRemove(lifecycles: seq<Lifecycle>, index: nat)
    requires index < |lifecycles|
    ensures AllParts(lifecycles) == AllParts(RemoveAt(lifecycles, index)) + Parts(lifecycles[index])
  {
    hide Parts, AllParts;
    AllPartsConcat(lifecycles[..index] + [lifecycles[index]], lifecycles[index + 1..]);
    AllPartsSnoc(lifecycles[..index], lifecycles[index]);
    AllPartsConcat(lifecycles[..index], lifecycles[index + 1..]);
    assert lifecycles == lifecycles[..index] + [lifecycles[index]] + lifecycles[index + 1..];
  }

  function Held(table: seq<Entry>): multiset<Action> { AllParts(Map(ValueOf(), table)) }

  lemma HeldSplit(table: seq<Entry>, index: nat)
    requires index < |table|
    ensures Held(table) == Held(RemoveAt(table, index)) + Parts(table[index].lifecycle)
  {
    hide Parts, AllParts;
    AllPartsRemove(Map(ValueOf(), table), index);
    assert Map(ValueOf(), RemoveAt(table, index)) == RemoveAt(Map(ValueOf(), table), index);
  }

  /** Every entry of the map is an open of its own key that waits for its close. */
  ghost predicate Waiting(table: seq<Entry>) {
    && (forall i :: 0 <= i < |table| ==>
          && table[i].lifecycle.openAction.Some?
          && table[i].lifecycle.closeAction.None?
          && table[i].lifecycle.openAction.value.lifecycleKey == table[i].key)
    && forall i, j :: 0 <= i < j < |table| ==> table[i].key != table[j].key
  }

  lemma PutHolds(table: seq<Entry>, key: string, lifecycle: Lifecycle)
    ensures Held(Put(table, key, lifecycle)) == Held(Delete(table, key)) + Parts(lifecycle)
    ensures Held(table) == Held(Delete(table, key)) + (if Get(table, key).Some? then Parts(Get(table, key).value)
                                                       else multiset{})
  {
    hide AllParts, Parts;
    var index := PlaceOf(table, key);
    if index == -1 {
      AllPartsSnoc(Map(ValueOf(), table), lifecycle);
      assert Map(ValueOf(), table + [Entry(key, lifecycle)]) == Map(ValueOf(), table) + [lifecycle];
    } else {
      HeldSplit(table, index);
      HeldSplit(table[index := Entry(key, lifecycle)], index);
      assert RemoveAt(table[index := Entry(key, lifecycle)], index) == RemoveAt(table, index);
    }
  }

  function Content(state: State): multiset<Action> { AllParts(state.lifecycles) + Held(state.table) }

  function Counted(action: Action): multiset<Action> { if IsSupported()(action) then multiset{action} else multiset{} }

  lemma OpenConserves(state: State, action: Action)
    requires IsOpen(action)
    ensures Content(Step(state, action)) == Content(state) + multiset{action}
  {
    hide Put, Delete, Get, Held, AllParts;
    var key := action.lifecycleKey;
    var current := Get(state.table, key);
    PutHolds(state.table, key, Opened(action));
    assert Parts(Opened(action)) == multiset{action};
    if current.Some? {
      AllPartsSnoc(state.lifecycles, current.value);
    }
  }

  lemma CloseConserves(state: State, action: Action)
    requires Waiting(state.table) && IsClose(action)
    ensures Content(Step(state, action)) == Content(state) + multiset{action}
  {
    hide Put, Delete, Held, AllParts;
    var key := action.lifecycleKey;
    var current := Get(state.table, key);
    PutHolds(state.table, key, Opened(action));
    if current.Some? {
      var done := current.value.(closeAction := Some(action));
      assert Parts(done) == Parts(current.value) + multiset{action};
      AllPartsSnoc(state.lifecycles, done);
    } else {
      AllPartsSnoc(state.lifecycles, ClosedAlone(action));
    }
  }

  lemma StepConserves(state: State, action: Action)
    requires Waiting(state.table)
    ensures Content(Step(state, action)) == Content(state) + Counted(action)
  {
    if IsOpen(action) {
      OpenConserves(state, action);
    } else if IsClose(action) {
      CloseConserves(state, action);
    }
  }

  lemma StepKeepsWaiting(state: State, action: Action)
    requires Waiting(state.table)
    ensures Waiting(Step(state, action).table)
  {
    hide Put, Delete, Get, Waiting;
    PutWaits(state.table, action);
    DeleteWaits(state.table, action.lifecycleKey);
  }

  lemma PutWaits(table: seq<Entry>, action: Action)
    requires Waiting(table)
    ensures Waiting(Put(table, action.lifecycleKey, Opened(action)))
  {}

  lemma DeleteWaits(table: seq<Entry>, key: string)
    requires Waiting(table)
    ensures Waiting(Delete(table, key))
  {}

  /** Every supported action is in exactly one lifecycle, once, and nothing else is. */
  lemma {:induction false} FoldConserves(actions: seq<Action>)
    ensures Waiting(Fold(actions).table) && Content(Fold(actions)) == multiset(Filter(IsSupported(), actions))
  {
    hide Step, Content, Waiting, Filter, IsSupported;
    if actions == [] {
      NothingHeld();
      FilterNone(IsSupported());
    } else {
      var init, last := actions[..|actions| - 1], actions[|actions| - 1];
      FoldConserves(init);
      StepConserves(Fold(init), last);
      StepKeepsWaiting(Fold(init), last);
      FilterSnoc(IsSupported(), init, last);
      assert init + [last] == actions;
    }
  }

  lemma NothingHeld()
    ensures Waiting([]) && Content(State([], [])) == multiset{}
  {}

  lemma EveryActionInOneLifecycle(actions: seq<Action>)
    ensures AllParts(Lifecycles(actions)) == multiset(Filter(IsSupported(), actions))
  {
    FoldConserves(actions);
    AllPartsConcat(Fold(actions).lifecycles, Map(ValueOf(), Fold(actions).table));
  }

  // ---------------------------------------------------------------- a paired open precedes its close

  /** A lifecycle has an action; when it has both they share the key and the open is no later. */
  predicate WellPaired(lifecycle: Lifecycle) {
    && (lifecycle.openAction.Some? || lifecycle.closeAction.Some?)
    && (lifecycle.openAction.Some? && lifecycle.closeAction.Some? ==>
          && lifecycle.openAction.value.lifecycleKey == lifecycle.closeAction.value.lifecycleKey
          && lifecycle.openAction.value.recordedAt <= lifecycle.closeAction.value.recordedAt)
  }

  ghost predicate OpensFrom(table: seq<Entry>, actions: seq<Action>) {
    forall i :: 0 <= i < |table| && table[i].lifecycle.openAction.Some? ==>
        table[i].lifecycle.openAction.value in actions
  }

  ghost predicate AllWellPaired(lifecycles: seq<Lifecycle>) {
    forall lifecycle :: lifecycle in lifecycles ==> WellPaired(lifecycle)
  }

  lemma StepKeepsOpens(state: State, action: Action, actions: seq<Action>)
    requires OpensFrom(state.table, actions)
    ensures OpensFrom(Step(state, action).table, actions + [action])
  {}

  lemma StepKeepsPairs(state: State, action: Action, actions: seq<Action>)
    requires Waiting(state.table) && OpensFrom(state.table, actions) && AllWellPaired(state.lifecycles)
    requires forall earlier :: earlier in actions ==> earlier.recordedAt <= action.recordedAt
    ensures AllWellPaired(Step(state, action).lifecycles)
  {
    hide Put, Delete;
  }

  lemma {:induction false} FoldPairs(actions: seq<Action>)
    requires SortedBy(ByTime(), actions)
    ensures OpensFrom(Fold(actions).table, actions) && AllWellPaired(Fold(actions).lifecycles)
  {
    hide Step, AllWellPaired, OpensFrom, Waiting, Content, Filter;
    if actions == [] {
      NothingPaired();
    } else {
      var init, last := actions[..|actions| - 1], actions[|actions| - 1];
      FoldPairs(init);
      FoldConserves(init);
      forall earlier | earlier in init ensures earlier.recordedAt <= last.recordedAt {
        var i :| 0 <= i < |init| && init[i] == earlier;
        assert ByTime()(actions[i], actions[|init|]);
      }
      StepKeepsPairs(Fold(init), last, init);
      StepKeepsOpens(Fold(init), last, init);
      assert init + [last] == actions;
    }
  }

  lemma NothingPaired()
    ensures AllWellPaired([]) && OpensFrom([], [])
  {}

  /** For any list of actions: a close is paired with an earlier open of its own key, or with none. */
  lemma PairedOpenPrecedesItsClose(reconciled: seq<Action>)
    ensures AllWellPaired(Lifecycles(StableSort(ByTime(), reconciled)))
  {
    hide StableSort, Fold;
    var actions := StableSort(ByTime(), reconciled);
    StableSortSorts(ByTime(), reconciled);
    FoldPairs(actions);
    FoldConserves(actions);
    var table := Fold(actions).table;
    forall lifecycle | lifecycle in Map(ValueOf(), table) ensures WellPaired(lifecycle) {
      var i :| 0 <= i < |table| && Map(ValueOf(), table)[i] == lifecycle;
      assert table[i].lifecycle == lifecycle;
    }
  }

  // ---------------------------------------------------------------- keys do not interfere

  /** What one key's actions alone amount to: finished lifecycles and the open that waits, if any. */
  datatype Track = Track(done: seq<Lifecycle>, waiting: Option<Action>)

  function TrackStep(track: Track, action: Action): Track {
    if IsOpen(action) then
      Track(if track.waiting.Some? then track.done + [Opened(track.waiting.value)] else track.done, Some(action))
    else if IsClose(action) then
      Track(track.done + [if track.waiting.Some? then Opened(track.waiting.value).(closeAction := Some(action))
                          else ClosedAlone(action)], None)
    else track
  }

  function TrackAll(actions: seq<Action>): Track {
    if actions == [] then Track([], None) else TrackStep(TrackAll(actions[..|actions| - 1]), actions[|actions| - 1])
  }

  function HasKey(key: string): Action -> bool { (action: Action) => action.lifecycleKey == key }

  function Concerns(key: string): Lifecycle -> bool {
    (lifecycle: Lifecycle) =>
      if lifecycle.openAction.Some? then lifecycle.openAction.value.lifecycleKey == key
      else lifecycle.closeAction.Some? && lifecycle.closeAction.value.lifecycleKey == key
  }

  /** The map's entries are the plain opened lifecycles of their keys. */
  ghost predicate PlainEntries(table: seq<Entry>) {
    Waiting(table) && forall i :: 0 <= i < |table| ==> table[i].lifecycle == Opened(table[i].lifecycle.openAction.value)
  }

  /** The fold agrees with one key's track. */
  ghost predicate Agrees(state: State, key: string, track: Track) {
    && Filter(Concerns(key), state.lifecycles) == track.done
    && Get(state.table, key) == (if track.waiting.Some? then Some(Opened(track.waiting.value)) else None)
  }

  lemma StepKeepsPlain(state: State, action: Action)
    requires PlainEntries(state.table)
    ensures PlainEntries(Step(state, action).table)
  {
    hide Get, Waiting;
    StepKeepsWaiting(state, action);
  }

  lemma TableAfter(table: seq<Entry>, key: string, lifecycle: Lifecycle, other: string)
    requires Waiting(table)
    ensures Get(Put(table, key, lifecycle), other) == if other == key then Some(lifecycle) else Get(table, other)
    ensures Get(Delete(table, key), other) == if other == key then None else Get(table, other)
  {
    PutGet(table, key, lifecycle, other);
    DeleteGet(table, key, other);
  }

  lemma GetIs(table: seq<Entry>, key: string, index: nat)
    requires index < |table| && table[index].key == key && forall i :: 0 <= i < |table| && i != index ==>
               table[i].key != key
    ensures Get(table, key) == Some(table[index].lifecycle)
  {}

  lemma GetNone(table: seq<Entry>, key: string)
    requires forall i :: 0 <= i < |table| ==> table[i].key != key
    ensures Get(table, key) == None
  {}

  lemma PutGet(table: seq<Entry>, key: string, lifecycle: Lifecycle, other: string)
    requires Waiting(table)
    ensures Get(Put(table, key, lifecycle), other) == if other == key then Some(lifecycle) else Get(table, other)
  {
    hide Get;
    var after, index, place := Put(table, key, lifecycle), PlaceOf(table, key), PlaceOf(table, other);
    if other == key {
      GetIs(after, key, if index == -1 then |table| else index);
    } else if place == -1 {
      GetNone(after, other);
      GetNone(table, other);
    } else {
      GetIs(after, other, place);
      GetIs(table, other, place);
    }
  }

  lemma DeleteGet(table: seq<Entry>, key: string, other: string)
    requires Waiting(table)
    ensures Get(Delete(table, key), other) == if other == key then None else Get(table, other)
  {
    hide Get;
    var after, index, place := Delete(table, key), PlaceOf(table, key), PlaceOf(table, other);
    if other == key || place == -1 {
      GetNone(after, other);
      if other != key { GetNone(table, other); }
    } else {
      GetIs(after, other, if index != -1 && index < place then place - 1 else place);
      GetIs(table, other, place);
    }
  }

  lemma StepAgrees(state: State, action: Action, key: string, track: Track)
    requires PlainEntries(state.table) && Agrees(state, key, track)
    ensures Agrees(Step(state, action), key, if action.lifecycleKey == key then TrackStep(track, action) else track)
  {
    hide Put, Delete, Filter, Get;
    var own := action.lifecycleKey;
    var current := Get(state.table, own);
    TableAfter(state.table, own, Opened(action), key);
    WaitingIsPlain(state.table, own);
    if current.Some? {
      FilterSnoc(Concerns(key), state.lifecycles, current.value);
      FilterSnoc(Concerns(key), state.lifecycles, current.value.(closeAction := Some(action)));
    }
    FilterSnoc(Concerns(key), state.lifecycles, ClosedAlone(action));
  }

  lemma WaitingIsPlain(table: seq<Entry>, key: string)
    requires PlainEntries(table)
    ensures Get(table, key).Some? ==>
              var lifecycle := Get(table, key).value;
              && lifecycle.openAction.Some? && lifecycle == Opened(lifecycle.openAction.value)
              && lifecycle.openAction.value.lifecycleKey == key
  {}

  /** For every key, the lifecycles of that key are what its own actions alone give: keys do not interfere. */
  lemma {:induction false} KeysDoNotInterfere(actions: seq<Action>, key: string)
    ensures PlainEntries(Fold(actions).table) && Agrees(Fold(actions), key, TrackAll(Filter(HasKey(key), actions)))
  {
    hide Step, PlainEntries, TrackStep, Agrees, TrackAll, Filter;
    NoTrack(key);
    if actions == [] {
      EmptyAgrees(key);
    } else {
      var init, last := actions[..|actions| - 1], actions[|actions| - 1];
      KeysDoNotInterfere(init, key);
      StepKeepsPlain(Fold(init), last);
      StepAgrees(Fold(init), last, key, TrackAll(Filter(HasKey(key), init)));
      TrackSnoc(init, last, key);
      assert init + [last] == actions;
    }
  }

  lemma TrackSnoc(actions: seq<Action>, last: Action, key: string)
    ensures var track := TrackAll(Filter(HasKey(key), actions));
            TrackAll(Filter(HasKey(key), actions + [last])) == if last.lifecycleKey == key then TrackStep(track, last)
              else track
  {
    hide TrackStep;
    FilterSnoc(HasKey(key), actions, last);
    var own := Filter(HasKey(key), actions);
    assert (own + [last])[..|own|] == own;
  }

  lemma NoTrack(key: string)
    ensures TrackAll(Filter(HasKey(key), [])) == Track([], None)
  {}

  lemma EmptyAgrees(key: string)
    ensures PlainEntries([]) && Agrees(State([], []), key, Track([], None))
  {}

  /**
   * So a close is paired with the action right before it under its key when that one is an open, and with nothing
   * otherwise.
   */
  lemma CloseTakesTheLastOpen(own: seq<Action>)
    requires forall action :: action in own ==> IsSupported()(action)
    ensures TrackAll(own).waiting == if own != [] && IsOpen(own[|own| - 1]) then Some(own[|own| - 1]) else None
  {
    if own != [] { assert own[|own| - 1] in own; }
  }

  // ---------------------------------------------------------------- the lifecycles of a key, read off its actions

  function IsOf(key: string): Action -> bool {
    (action: Action) => action.lifecycleKey == key && action.action in ["add-lp", "deploy", "withdraw-lp"]
  }

  predicate Ends(action: Action) { action.action == "withdraw-lp" }

  /**
   * The lifecycle that place i of a key's actions completes: a close ends the open right before it, or stands alone; an
   * open that no close follows right away stands alone.
   */
  function Completes(own: seq<Action>, i: nat): seq<Lifecycle>
    requires i < |own|
  {
    var action := own[i];
    if Ends(action) then
      if i > 0 && !Ends(own[i - 1])
      then [Lifecycle(own[i - 1].tokenMint, own[i - 1].tokenSymbol, Some(own[i - 1]), Some(action))]
      else [Lifecycle(action.tokenMint, action.tokenSymbol, None, Some(action))]
    else if i + 1 < |own| && Ends(own[i + 1]) then []
    else [Lifecycle(action.tokenMint, action.tokenSymbol, Some(action), None)]
  }

  function Completed(own: seq<Action>, n: nat): seq<Lifecycle>
    requires n <= |own|
  {
    if n == 0 then [] else Completed(own, n - 1) + Completes(own, n - 1)
  }

  ghost predicate TrackTells(own: seq<Action>, n: nat)
    requires n <= |own|
  {
    var track := TrackAll(own[..n]);
    if n == 0 then track == Track([], None)
    else if Ends(own[n - 1]) then track == Track(Completed(own, n), None)
    else track == Track(Completed(own, n - 1), Some(own[n - 1]))
  }

  lemma {:induction false} TrackIsTold(own: seq<Action>, n: nat)
    requires n <= |own| && forall action :: action in own ==> IsOpen(action) || IsClose(action)
    ensures TrackTells(own, n)
  {
    if n > 0 {
      TrackIsTold(own, n - 1);
      assert own[..n][..n - 1] == own[..n - 1];
      assert own[n - 1] in own;
    }
  }

  lemma {:induction false} OwnEntry(table: seq<Entry>, key: string)
    requires Waiting(table)
    ensures Filter(Concerns(key), Map(ValueOf(), table))
            == if Get(table, key).Some? then [Get(table, key).value] else []
  {
    hide Filter, Get;
    if table == [] {
      FilterNone(Concerns(key));
      GetNone(table, key);
    } else {
      var init, last := table[..|table| - 1], table[|table| - 1];
      OwnEntry(init, key);
      FilterSnoc(Concerns(key), Map(ValueOf(), init), last.lifecycle);
      assert Map(ValueOf(), table) == Map(ValueOf(), init) + [last.lifecycle];
      assert forall i :: 0 <= i < |init| ==> init[i] == table[i];
      if last.key == key {
        GetIs(table, key, |init|);
        GetNone(init, key);
      } else if exists i :: 0 <= i < |init| && init[i].key == key {
        var i :| 0 <= i < |init| && init[i].key == key;
        GetIs(table, key, i);
        GetIs(init, key, i);
      } else {
        GetNone(table, key);
        GetNone(init, key);
      }
    }
  }

  lemma {:induction false} TrackIgnoresOthers(actions: seq<Action>, key: string)
    ensures TrackAll(Filter(HasKey(key), actions)) == TrackAll(Filter(IsOf(key), actions))
  {
    hide Filter, TrackAll;
    if actions == [] {
      FilterNone(HasKey(key));
      FilterNone(IsOf(key));
    } else {
      var init, last := actions[..|actions| - 1], actions[|actions| - 1];
      TrackIgnoresOthers(init, key);
      TrackSnoc(init, last, key);
      FilterSnoc(IsOf(key), init, last);
      TrackAppended(Filter(IsOf(key), init), last);
      assert init + [last] == actions;
    }
  }

  lemma TrackAppended(own: seq<Action>, last: Action)
    ensures TrackAll(own + [last]) == TrackStep(TrackAll(own), last)
  {
    hide TrackStep;
    assert (own + [last])[..|own|] == own;
  }

  /**
   * For any actions in time order, the lifecycles of a key are those its own opens and closes complete, in order: each
   * close takes the open right before it, and every open without such a close is a lifecycle without one.
   */
  lemma LifecyclesExactly(actions: seq<Action>, key: string)
    ensures var own := Filter(IsOf(key), actions);
            Filter(Concerns(key), Lifecycles(actions)) == Completed(own, |own|)
  {
    hide Filter, Fold, TrackAll, Get, Waiting;
    var own := Filter(IsOf(key), actions);
    var state := Fold(actions);
    KeysDoNotInterfere(actions, key);
    TrackIgnoresOthers(actions, key);
    OwnEntry(state.table, key);
    FilterConcat(Concerns(key), state.lifecycles, Map(ValueOf(), state.table));
    assert forall action :: action in own ==> IsOf(key)(action);
    TrackIsTold(own, |own|);
    assert own[..|own|] == own;
  }
}
