/**
 * Everything that can run between the awaits of flushOnce: enqueues, pruning, and other flushOnce calls. A write either
 * stores its whole batch or nothing.
 */
module MirrorFlush {
  import opened Sequences
  import opened MirrorBuffer
  import opened MirrorRuntime

  /** A call after its circuit check, waiting for the prune, or in its retry loop with a batch in hand. */
  datatype Flush = Checked(now: int) | Writing(now: int, batch: seq<Event>, attempt: nat)

  /** What came of a batch (`now` is when its call began), and of a prune. */
  datatype Outcome = Wrote(hasDropped: bool) | GaveUp(now: int) | Pruned(succeeded: bool)

  /**
   * `offered`, `written` and `dropped` are the histories of the arriving, stored and evicted or refused events, and
   * `outcomes` that of the writes and prunes.
   */
  datatype System = System(
    config: Config,
    queue: seq<Event>,
    metrics: Metrics,
    flushing: bool,
    calls: map<nat, Flush>,
    offered: seq<Event>,
    written: seq<Event>,
    dropped: seq<Event>,
    outcomes: seq<Outcome>)

  datatype Action =
    | Offer(event: Event)
    | Prune(succeeded: bool)
    | BeginFlush(id: nat, now: int)
    | TakeBatch(id: nat)
    | WriteOk(id: nat)
    | WriteFails(id: nat)
    | OpenFails(id: nat)

  ghost predicate Initial(s: System) {
    && s.queue == [] && s.metrics == NEW_METRICS && !s.flushing && s.calls == map[]
    && s.offered == [] && s.written == [] && s.dropped == [] && s.outcomes == []
    && s.config.failureThreshold > 0
  }

  ghost predicate Enabled(s: System, a: Action) {
    match a
    case BeginFlush(id, _) => id !in s.calls
    case TakeBatch(id) => id in s.calls && s.calls[id].Checked?
    case WriteOk(id) => id in s.calls && s.calls[id].Writing?
    case WriteFails(id) => id in s.calls && s.calls[id].Writing?
    case OpenFails(id) => id in s.calls && s.calls[id].Writing?
    case _ => true
  }

  function Apply(s: System, a: Action): System {
    match a
    case Offer(event) =>
      var result := EnqueueResult(s.queue, s.config.queueCapacity, event);
      s.(queue := result.queue, offered := s.offered + [event],
         dropped := s.dropped + if result.dropped.Some? then [result.dropped.value] else [])
    case Prune(succeeded) =>
      s.(metrics := AfterPrune(s.metrics, succeeded), outcomes := s.outcomes + [Pruned(succeeded)])
    case BeginFlush(id, now) =>
      if s.flushing || Blocked(s.metrics, now) then s else s.(calls := s.calls[id := Checked(now)])
    case TakeBatch(id) =>
      if id !in s.calls then s
      else
        var batch := SliceFront(s.queue, s.config.batchSize);
        if batch == [] then s.(calls := s.calls - {id})
        else s.(flushing := true, calls := s.calls[id := Writing(s.calls[id].now, batch, 0)])
    case WriteOk(id) =>
      if id !in s.calls || !s.calls[id].Writing? then s
      else
        var batch := s.calls[id].batch;
        s.(written := s.written + batch, queue := DropFront(s.queue, |batch|),
           metrics := AfterWrite(s.metrics, |s.dropped|), flushing := false, calls := s.calls - {id},
           outcomes := s.outcomes + [Wrote(s.dropped != [])])
    case WriteFails(id) =>
      if id !in s.calls || !s.calls[id].Writing? then s
      else
        var call := s.calls[id];
        if call.attempt + 1 <= s.config.maxRetries then s.(calls := s.calls[id := call.(attempt := call.attempt + 1)])
        else s.(metrics := AfterFailure(s.metrics, s.config, call.now), flushing := false, calls := s.calls - {id},
                outcomes := s.outcomes + [GaveUp(call.now)])
    case OpenFails(id) => s.(flushing := false, calls := s.calls - {id})
  }

  // ---------------------------------------------------------------- the circuit, under every interleaving

  /** The circuit is open exactly from the failure that reaches the threshold until the next successful write. */
  ghost predicate CircuitAgrees(s: System) {
    && s.config.failureThreshold > 0
    && (s.metrics.circuit == CircuitOpen <==> s.metrics.consecutiveFailures >= s.config.failureThreshold)
    && (s.metrics.circuit == CircuitOpen ==> s.metrics.cooldownUntil.Some?)
  }

  lemma CircuitKept(s: System, a: Action)
    requires CircuitAgrees(s)
    ensures CircuitAgrees(Apply(s, a))
  {}

  // ---------------------------------------------------------------- conservation

  /** Every offered event is written once, still queued, or dropped; the order of arrival is kept throughout. */
  ghost predicate Conserved(s: System) {
    && multiset(s.offered) == multiset(s.written) + multiset(s.queue) + multiset(s.dropped)
    && IsSubsequence(s.written + s.queue, s.offered)
  }

  ghost predicate SingleCall(s: System) {
    forall id, other :: id in s.calls && other in s.calls ==> id == other
  }

  ghost predicate CallsSound(s: System) {
    forall id :: id in s.calls ==>
      && !Blocked(s.metrics, s.calls[id].now)
      && (s.calls[id].Writing? ==> s.calls[id].batch != [] && s.calls[id].batch <= s.queue)
  }

  ghost predicate IsWriting(s: System, id: nat) {
    id in s.calls && s.calls[id].Writing?
  }

  /** The flag is set exactly while a call has a batch in hand. */
  ghost predicate FlagAgrees(s: System) {
    s.flushing <==> exists id :: IsWriting(s, id)
  }

  ghost predicate FlushSound(s: System) {
    CircuitAgrees(s) && Conserved(s) && SingleCall(s) && CallsSound(s) && FlagAgrees(s)
  }

  /** An enqueue that leaves a batch in hand alone: there is room, or the victim sits behind the batch. */
  ghost predicate SparesBatches(s: System, event: Event) {
    |s.queue| < s.config.queueCapacity
    || var victim := RemovableIndex(s.queue, Rank(event));
       victim == -1 || forall id :: id in s.calls && s.calls[id].Writing? ==> victim >= |s.calls[id].batch|
  }

  /** No other call stands between its check of the flag and its peek, or the circuit refuses this one. */
  ghost predicate MayBegin(s: System, now: int) {
    Blocked(s.metrics, now) || forall id :: id in s.calls ==> !s.calls[id].Checked?
  }

  /**
   * The discipline under which nothing is lost: no flush begins between another one's check and its peek, and no
   * eviction takes from a batch in hand. Calls that come while a batch is being written are left to the flag.
   */
  ghost predicate Disciplined(s: System, a: Action) {
    && Enabled(s, a)
    && (a.BeginFlush? ==> MayBegin(s, a.now))
    && (a.Offer? ==> SparesBatches(s, a.event))
  }

  lemma OfferConserves(s: System, event: Event)
    requires Conserved(s)
    ensures Conserved(Apply(s, Offer(event)))
  {
    hide RemovableIndex, IsSubsequence;
    var t := Apply(s, Offer(event));
    var whole := s.written + s.queue;
    SubsequenceSnoc(whole, s.offered, event);
    if |s.queue| < s.config.queueCapacity {
      assert whole + [event] == t.written + t.queue;
    } else {
      var victim := RemovableIndex(s.queue, Rank(event));
      if victim != -1 {
        VictimVanishes(s.written, s.queue, victim, s.offered, event);
      }
    }
  }

  lemma VictimVanishes(written: seq<Event>, queue: seq<Event>, victim: nat, offered: seq<Event>, event: Event)
    requires IsSubsequence(written + queue, offered) && victim < |queue|
    ensures IsSubsequence(written + (RemoveAt(queue, victim) + [event]), offered + [event])
    ensures multiset(queue) == multiset(RemoveAt(queue, victim)) + multiset{queue[victim]}
  {
    hide IsSubsequence;
    var whole := written + queue;
    SubsequenceRemove(whole, offered, |written| + victim);
    assert RemoveAt(whole, |written| + victim) == written + RemoveAt(queue, victim);
    SubsequenceSnoc(written + RemoveAt(queue, victim), offered, event);
    assert written + RemoveAt(queue, victim) + [event] == written + (RemoveAt(queue, victim) + [event]);
    RemoveAtMultiset(queue, victim);
  }

  lemma OfferKeeps(s: System, event: Event)
    requires FlushSound(s) && SparesBatches(s, event)
    ensures FlushSound(Apply(s, Offer(event)))
  {
    hide RemovableIndex, Conserved, CircuitAgrees;
    var t := Apply(s, Offer(event));
    CircuitKept(s, Offer(event));
    OfferConserves(s, event);
    assert forall id :: IsWriting(t, id) <==> IsWriting(s, id);
    forall id | id in t.calls && t.calls[id].Writing? ensures t.calls[id].batch <= t.queue {
      assert t.calls[id].batch <= s.queue;
    }
  }

  lemma WriteOkKeeps(s: System, id: nat)
    requires FlushSound(s) && id in s.calls && s.calls[id].Writing?
    ensures FlushSound(Apply(s, WriteOk(id)))
  {
    hide IsSubsequence, CircuitAgrees;
    var t := Apply(s, WriteOk(id));
    assert CircuitAgrees(t) by { CircuitKept(s, WriteOk(id)); }
    var batch := s.calls[id].batch;
    assert s.queue == batch + s.queue[|batch|..];
    assert t.written + t.queue == s.written + s.queue;
    assert forall other :: !IsWriting(t, other);
  }

  /** A call that comes while a batch is being written is refused by the flag: the step changes nothing. */
  lemma FlagRefuses(s: System, id: nat, other: nat, now: int)
    requires FlushSound(s) && IsWriting(s, other)
    ensures Apply(s, BeginFlush(id, now)) == s
  {}

  lemma BeginKeeps(s: System, id: nat, now: int)
    requires FlushSound(s) && id !in s.calls && MayBegin(s, now)
    ensures FlushSound(Apply(s, BeginFlush(id, now)))
  {
    hide Conserved, CircuitAgrees;
    var t := Apply(s, BeginFlush(id, now));
    CircuitKept(s, BeginFlush(id, now));
    assert Conserved(t) by { SameAccount(s, t); }
    if t != s {
      assert forall other :: other in s.calls ==> IsWriting(s, other);
      assert forall other :: IsWriting(t, other) ==> IsWriting(s, other);
    }
  }

  lemma SameAccount(s: System, t: System)
    requires Conserved(s)
    requires t.offered == s.offered && t.written == s.written && t.queue == s.queue && t.dropped == s.dropped
    ensures Conserved(t)
  {}

  lemma QuietKeeps(s: System, a: Action)
    requires FlushSound(s) && Enabled(s, a) && !a.Offer? && !a.WriteOk? && !a.BeginFlush?
    ensures FlushSound(Apply(s, a))
  {
    hide Conserved;
    var t := Apply(s, a);
    CircuitKept(s, a);
    SameAccount(s, t);
    match a
    case Prune(_) => assert forall id :: IsWriting(t, id) <==> IsWriting(s, id);
    case TakeBatch(id) =>
      assert !s.flushing by { assert forall writer :: IsWriting(s, writer) ==> writer == id; }
      if t.flushing { assert IsWriting(t, id); }
    case WriteFails(id) =>
      assert IsWriting(s, id);
      if t.flushing { assert IsWriting(t, id); }
    case OpenFails(id) =>
      assert IsWriting(s, id);
      assert forall writer :: !IsWriting(t, writer);
    assert forall id :: id in t.calls ==> id in s.calls;
  }

  lemma FlushKept(s: System, a: Action)
    requires FlushSound(s) && Disciplined(s, a)
    ensures FlushSound(Apply(s, a))
  {
    hide FlushSound, Apply, MayBegin, SparesBatches;
    match a
    case Offer(event) => OfferKeeps(s, event);
    case WriteOk(id) => WriteOkKeeps(s, id);
    case BeginFlush(id, now) => BeginKeeps(s, id, now);
    case _ => QuietKeeps(s, a);
  }

  ghost predicate Schedule(s: System, actions: seq<Action>)
    decreases |actions|
  {
    actions != [] ==>
      && Schedule(s, actions[..|actions| - 1])
      && Disciplined(After(s, actions[..|actions| - 1]), actions[|actions| - 1])
  }

  function After(s: System, actions: seq<Action>): System
    decreases |actions|
  {
    if actions == [] then s else Apply(After(s, actions[..|actions| - 1]), actions[|actions| - 1])
  }

  lemma {:induction false} SoundThroughout(s: System, actions: seq<Action>)
    requires FlushSound(s) && Schedule(s, actions)
    ensures FlushSound(After(s, actions))
    decreases |actions|
  {
    hide FlushSound, Apply, Disciplined;
    if actions != [] {
      SoundThroughout(s, actions[..|actions| - 1]);
      FlushKept(After(s, actions[..|actions| - 1]), actions[|actions| - 1]);
    }
  }

  /**
   * Over every disciplined run: each offered event is exactly one of written, queued and dropped; written events
   * followed by the queue are in arrival order; the circuit tells the failure count; and a call that is about to write
   * is not inside an open circuit's cooldown.
   */
  lemma FlushConserves(s: System, actions: seq<Action>)
    requires Initial(s) && Schedule(s, actions)
    ensures FlushSound(After(s, actions))
  {
    InitialIsSound(s);
    SoundThroughout(s, actions);
  }

  lemma InitialIsSound(s: System)
    requires Initial(s)
    ensures FlushSound(s)
  {}

  // ---------------------------------------------------------------- which calls may begin

  lemma Step(s: System, a: Action)
    requires Disciplined(s, a)
    ensures Schedule(s, [a]) && After(s, [a]) == Apply(s, a)
  {
    assert [a][..0] == [];
    assert After(s, []) == s && Schedule(s, []);
  }

  lemma {:induction false} Joined(s: System, first: seq<Action>, more: seq<Action>)
    requires Schedule(s, first) && Schedule(After(s, first), more)
    ensures Schedule(s, first + more) && After(s, first + more) == After(After(s, first), more)
    decreases |more|
  {
    hide Disciplined, Apply;
    if more == [] {
      assert first + more == first;
    } else {
      Joined(s, first, more[..|more| - 1]);
      assert (first + more)[..|first + more| - 1] == first + more[..|more| - 1];
    }
  }

  lemma {:induction false} FreshId(ids: set<nat>) returns (id: nat)
    ensures forall other :: other in ids ==> other < id
  {
    if ids == {} {
      id := 0;
    } else {
      var some :| some in ids;
      var above := FreshId(ids - {some});
      id := if some < above then above else some + 1;
      assert ids == (ids - {some}) + {some};
    }
  }

  /** The number of events is right. */
  predicate Counted(s: System) { |s.offered| == |s.written| + |s.queue| + |s.dropped| }

  lemma ConservedIsCounted(s: System)
    requires Conserved(s)
    ensures Counted(s)
  {
    hide IsSubsequence;
    assert |multiset(s.offered)| == |multiset(s.written) + multiset(s.queue) + multiset(s.dropped)|;
  }

  /** A call still holds a batch although the flag is down and the circuit lets every call pass. */
  ghost predicate StrayBatch(s: System, id: nat) {
    && IsWriting(s, id) && s.calls[id].batch != []
    && !s.flushing && s.metrics.circuit != CircuitOpen && s.config.batchSize > 0
    && (forall other :: other in s.calls ==> !s.calls[other].Checked?)
    && Counted(s)
  }

  /** Another flush in full: the queue gets shorter and the stray batch stays. */
  lemma StrayBatchOutlivesAFlush(s: System, id: nat, other: nat)
    requires StrayBatch(s, id) && other !in s.calls && s.queue != []
    ensures var s1 := Apply(s, BeginFlush(other, 0));
            var s2 := Apply(s1, TakeBatch(other));
            var s3 := Apply(s2, WriteOk(other));
            && Disciplined(s, BeginFlush(other, 0)) && Disciplined(s1, TakeBatch(other))
            && Disciplined(s2, WriteOk(other))
            && StrayBatch(s3, id) && |s3.queue| < |s.queue|
  {}

  /** A stray batch ends in a miscount: once the queue is shorter than the batch, its write drops too few events. */
  lemma {:induction false} StrayBatchSpoils(s: System, id: nat) returns (actions: seq<Action>)
    requires StrayBatch(s, id)
    ensures Schedule(s, actions) && !Counted(After(s, actions))
    decreases |s.queue|
  {
    hide Schedule, After, Disciplined, Apply;
    if |s.queue| < |s.calls[id].batch| {
      actions := [WriteOk(id)];
      ShortQueueSpoils(s, id);
      Step(s, WriteOk(id));
    } else {
      var other := FreshId(s.calls.Keys);
      StrayBatchOutlivesAFlush(s, id, other);
      var s1 := Apply(s, BeginFlush(other, 0));
      var s2 := Apply(s1, TakeBatch(other));
      Step(s, BeginFlush(other, 0));
      Step(s1, TakeBatch(other));
      Step(s2, WriteOk(other));
      Joined(s, [BeginFlush(other, 0)], [TakeBatch(other)]);
      Joined(s, [BeginFlush(other, 0)] + [TakeBatch(other)], [WriteOk(other)]);
      var more := StrayBatchSpoils(Apply(s2, WriteOk(other)), id);
      actions := [BeginFlush(other, 0)] + [TakeBatch(other)] + [WriteOk(other)] + more;
      Joined(s, [BeginFlush(other, 0)] + [TakeBatch(other)] + [WriteOk(other)], more);
    }
  }

  lemma ShortQueueSpoils(s: System, id: nat)
    requires StrayBatch(s, id) && |s.queue| < |s.calls[id].batch|
    ensures Disciplined(s, WriteOk(id)) && !Counted(Apply(s, WriteOk(id)))
  {}

  /** Two calls have passed the check of the flag, and no others are under way. */
  ghost predicate BothChecked(s: System, id: nat, other: nat) {
    && id != other && id in s.calls && other in s.calls && s.calls[id].Checked? && s.calls[other].Checked?
    && (forall call :: call in s.calls ==> call == id || call == other)
    && s.config.batchSize > 0 && s.config.queueCapacity > 0 && Counted(s)
  }

  /** Both take the same batch; the write of one leaves the other's astray. */
  lemma BothTakeOneBatch(s: System, id: nat, other: nat)
    requires BothChecked(s, id, other) && s.queue != []
    ensures var s1 := Apply(s, TakeBatch(other));
            var s2 := Apply(s1, TakeBatch(id));
            && Disciplined(s, TakeBatch(other)) && Disciplined(s1, TakeBatch(id)) && Disciplined(s2, WriteOk(other))
            && StrayBatch(Apply(s2, WriteOk(other)), id)
  {}

  lemma QueuedOverlapSpoils(s: System, id: nat, other: nat) returns (actions: seq<Action>)
    requires BothChecked(s, id, other) && s.queue != []
    ensures Schedule(s, actions) && !Counted(After(s, actions))
  {
    hide Schedule, After, Disciplined, Apply;
    BothTakeOneBatch(s, id, other);
    var s1 := Apply(s, TakeBatch(other));
    var s2 := Apply(s1, TakeBatch(id));
    Step(s, TakeBatch(other));
    Step(s1, TakeBatch(id));
    Step(s2, WriteOk(other));
    Joined(s, [TakeBatch(other)], [TakeBatch(id)]);
    Joined(s, [TakeBatch(other)] + [TakeBatch(id)], [WriteOk(other)]);
    var more := StrayBatchSpoils(Apply(s2, WriteOk(other)), id);
    actions := [TakeBatch(other)] + [TakeBatch(id)] + [WriteOk(other)] + more;
    Joined(s, [TakeBatch(other)] + [TakeBatch(id)] + [WriteOk(other)], more);
  }

  lemma OverlapSpoils(s: System, id: nat, other: nat) returns (actions: seq<Action>)
    requires BothChecked(s, id, other)
    ensures Schedule(s, actions) && !Counted(After(s, actions))
  {
    hide Schedule, After;
    if s.queue == [] {
      var event := Event(Low, "");
      Step(s, Offer(event));
      var more := QueuedOverlapSpoils(Apply(s, Offer(event)), id, other);
      actions := [Offer(event)] + more;
      Joined(s, [Offer(event)], more);
    } else {
      actions := QueuedOverlapSpoils(s, id, other);
    }
  }

  lemma BeginOverlaps(s: System, id: nat, now: int) returns (other: nat)
    requires FlushSound(s) && id !in s.calls && !MayBegin(s, now)
    requires s.config.batchSize > 0 && s.config.queueCapacity > 0
    ensures BothChecked(Apply(s, BeginFlush(id, now)), id, other)
  {
    ConservedIsCounted(s);
    other :| other in s.calls && s.calls[other].Checked?;
    assert !s.flushing by {
      assert forall writer :: IsWriting(s, writer) ==> writer == other;
    }
  }

  ghost predicate AlwaysConserves(s: System) {
    forall actions :: Schedule(s, actions) ==> Conserved(After(s, actions))
  }

  /**
   * A call that begins leaves every disciplined continuation with a right account exactly when the circuit refuses it
   * or no other call stands between its check of the flag and its peek. Events need not differ from one another.
   */
  lemma BeginIsSafeExactly(s: System, id: nat, now: int)
    requires FlushSound(s) && id !in s.calls
    requires s.config.batchSize > 0 && s.config.queueCapacity > 0
    ensures AlwaysConserves(Apply(s, BeginFlush(id, now))) <==> MayBegin(s, now)
    ensures SingleCall(Apply(s, BeginFlush(id, now))) <==> MayBegin(s, now)
  {
    hide Apply, Schedule, After, MayBegin;
    var t := Apply(s, BeginFlush(id, now));
    if MayBegin(s, now) {
      BeginKeeps(s, id, now);
      forall actions | Schedule(t, actions) ensures Conserved(After(t, actions)) {
        SoundThroughout(t, actions);
      }
    } else {
      var other := BeginOverlaps(s, id, now);
      var actions := OverlapSpoils(t, id, other);
      if Conserved(After(t, actions)) { ConservedIsCounted(After(t, actions)); }
    }
  }

  // ---------------------------------------------------------------- where conservation ends

  /**
   * With events that differ from one another, an enqueue during a write spoils the account of that write exactly when
   * its eviction takes from the batch in hand.
   */
  lemma EvictionSpoilsExactly(s: System, id: nat, event: Event)
    requires FlushSound(s) && IsWriting(s, id)
    requires event !in s.offered && forall other :: multiset(s.offered)[other] <= 1
    ensures var t := Apply(Apply(s, Offer(event)), WriteOk(id));
            Conserved(t) <==> SparesBatches(s, event)
  {
    hide IsSubsequence, RemovableIndex;
    var between := Apply(s, Offer(event));
    var batch := s.calls[id].batch;
    OfferConserves(s, event);
    if SparesBatches(s, event) {
      OfferKeeps(s, event);
      WriteOkKeeps(between, id);
    } else {
      var victim := RemovableIndex(s.queue, Rank(event));
      EvictedIsGone(s.queue, victim, event, s.offered);
      assert batch[victim] == s.queue[victim];
      WriteConservesExactly(between, id);
      assert batch[victim] in multiset(batch);
      assert batch[victim] !in SliceFront(between.queue, |batch|);
    }
  }

  lemma EvictedIsGone(queue: seq<Event>, victim: nat, event: Event, offered: seq<Event>)
    requires victim < |queue| && multiset(queue) <= multiset(offered)
    requires event !in offered && forall other :: multiset(offered)[other] <= 1
    ensures queue[victim] !in RemoveAt(queue, victim) + [event]
  {
    RemoveAtMultiset(queue, victim);
    assert queue[victim] in queue;
    assert multiset(queue)[queue[victim]] <= 1;
    assert queue[victim] in multiset(offered);
    assert queue[victim] in offered;
    assert multiset(RemoveAt(queue, victim))[queue[victim]] == 0;
  }

  /**
   * A successful write keeps the account exactly when what it acknowledges is what it wrote, that is when no eviction
   * took an event of its batch out of the queue in the meantime.
   */
  lemma WriteConservesExactly(s: System, id: nat)
    requires id in s.calls && s.calls[id].Writing?
    requires multiset(s.offered) == multiset(s.written) + multiset(s.queue) + multiset(s.dropped)
    ensures var t := Apply(s, WriteOk(id));
            var batch := s.calls[id].batch;
            multiset(t.offered) == multiset(t.written) + multiset(t.queue) + multiset(t.dropped)
            <==> multiset(batch) == multiset(SliceFront(s.queue, |batch|))
  {
    var batch := s.calls[id].batch;
    var t := Apply(s, WriteOk(id));
    var front, rest := SliceFront(s.queue, |batch|), DropFront(s.queue, |batch|);
    assert s.queue == front + rest;
    var others := multiset(s.written) + multiset(rest) + multiset(s.dropped);
    assert multiset(s.offered) == others + multiset(front);
    assert multiset(t.written) + multiset(t.queue) + multiset(t.dropped) == others + multiset(batch);
    if others + multiset(front) == others + multiset(batch) {
      forall event ensures multiset(front)[event] == multiset(batch)[event] {
        assert (others + multiset(front))[event] == (others + multiset(batch))[event];
      }
    }
  }

  lemma TwoChecked(s: System, a: Event, b: Event)
    requires Initial(s) && s.config.queueCapacity >= 2
    ensures var t := Apply(Apply(Apply(Apply(s, Offer(a)), Offer(b)), BeginFlush(1, 0)), BeginFlush(2, 0));
            t == s.(queue := [a, b], offered := [a, b], calls := map[1 := Checked(0), 2 := Checked(0)])
            && Enabled(Apply(Apply(s, Offer(a)), Offer(b)), BeginFlush(1, 0))
            && Enabled(Apply(Apply(Apply(s, Offer(a)), Offer(b)), BeginFlush(1, 0)), BeginFlush(2, 0))
  {
    assert Apply(s, Offer(a)) == s.(queue := [a], offered := [a]);
    assert Apply(Apply(s, Offer(a)), Offer(b)) == s.(queue := [a, b], offered := [a, b]);
  }

  /**
   * The flushing flag is set only after the prune: two calls can pass the check, write the same event twice and lose
   * the next.
   */
  lemma OverlappingFlushesLoseAnEvent(s: System, a: Event, b: Event)
    requires Initial(s) && s.config.queueCapacity >= 2 && s.config.batchSize == 1
    ensures var two := Apply(Apply(Apply(Apply(s, Offer(a)), Offer(b)), BeginFlush(1, 0)), BeginFlush(2, 0));
            var t := Apply(Apply(Apply(Apply(two, TakeBatch(1)), TakeBatch(2)), WriteOk(1)), WriteOk(2));
            t.offered == [a, b] && t.written == [a, a] && t.queue == [] && t.dropped == []
  {
    TwoChecked(s, a, b);
    var two := s.(queue := [a, b], offered := [a, b], calls := map[1 := Checked(0), 2 := Checked(0)]);
    var s1 := Apply(two, TakeBatch(1));
    assert SliceFront(two.queue, 1) == [a];
    var s2 := Apply(s1, TakeBatch(2));
    assert s2.calls[1] == Writing(0, [a], 0) && s2.calls[2] == Writing(0, [a], 0);
    var s3 := Apply(s2, WriteOk(1));
    assert s3.queue == [b];
    var s4 := Apply(s3, WriteOk(2));
    assert s4.written == [a, a];
  }
}
