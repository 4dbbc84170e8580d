/** The circuit breaker of the flush loop, told by the history of writes and prunes under every interleaving. */
module MirrorCircuit {
  import opened Wrappers
  import opened MirrorBuffer
  import opened MirrorRuntime
  import opened MirrorFlush

  /** When the calls began that gave up since the last successful write. */
  ghost function GaveUpSinceWrite(outcomes: seq<Outcome>): seq<int> {
    if outcomes == [] then []
    else
      var before, last := GaveUpSinceWrite(outcomes[..|outcomes| - 1]), outcomes[|outcomes| - 1];
      if last.Wrote? then [] else if last.GaveUp? then before + [last.now] else before
  }

  /** It succeeded, and no event had been dropped when a batch was written. */
  predicate WentWell(outcome: Outcome) {
    (outcome.Wrote? && !outcome.hasDropped) || (outcome.Pruned? && outcome.succeeded)
  }

  ghost predicate LastWentWell(outcomes: seq<Outcome>) {
    outcomes != [] ==> WentWell(outcomes[|outcomes| - 1])
  }

  /** As many batches were given up in a row as the threshold allows. */
  ghost predicate IsTripped(s: System) { |GaveUpSinceWrite(s.outcomes)| >= s.config.failureThreshold }

  ghost predicate CircuitTells(s: System) {
    var failures := GaveUpSinceWrite(s.outcomes);
    && s.config.failureThreshold > 0
    && s.metrics.consecutiveFailures == |failures|
    && (if IsTripped(s) then
          s.metrics.circuit == CircuitOpen
          && s.metrics.cooldownUntil == Some(failures[|failures| - 1] + s.config.cooldownMs)
        else
          s.metrics.circuit == (if LastWentWell(s.outcomes) then Healthy else Degraded)
          && s.metrics.cooldownUntil == None)
  }

  lemma OutcomeCounts(outcomes: seq<Outcome>, last: Outcome)
    ensures var before, longer := GaveUpSinceWrite(outcomes), outcomes + [last];
            && GaveUpSinceWrite(longer)
               == (if last.Wrote? then [] else if last.GaveUp? then before + [last.now] else before)
            && LastWentWell(longer) == WentWell(last)
  {
    assert (outcomes + [last])[..|outcomes|] == outcomes;
  }

  lemma CircuitTellsOn(s: System, a: Action)
    requires CircuitTells(s)
    ensures CircuitTells(Apply(s, a))
  {
    hide GaveUpSinceWrite, LastWentWell;
    var t := Apply(s, a);
    if t.outcomes != s.outcomes {
      OutcomeCounts(s.outcomes, t.outcomes[|s.outcomes|]);
    }
  }

  /**
   * Under every interleaving: the circuit is open exactly when the threshold of batches was given up in a row, then
   * until the cooldown after the beginning of the last such call; otherwise it is healthy exactly when the latest write
   * or prune went well.
   */
  lemma {:induction false} CircuitIsItsHistory(s: System, actions: seq<Action>)
    requires Initial(s)
    ensures CircuitTells(After(s, actions)) && After(s, actions).config == s.config
    decreases |actions|
  {
    hide Apply, CircuitTells;
    if actions == [] {
      assert CircuitTells(s) by { NewCircuit(s); }
    } else {
      var before := After(s, actions[..|actions| - 1]);
      CircuitIsItsHistory(s, actions[..|actions| - 1]);
      CircuitTellsOn(before, actions[|actions| - 1]);
      ConfigStays(before, actions[|actions| - 1]);
    }
  }

  lemma NewCircuit(s: System)
    requires Initial(s)
    ensures CircuitTells(s)
  {}

  lemma ConfigStays(s: System, a: Action)
    ensures Apply(s, a).config == s.config
  {}

  /**
   * A call that begins at `t` gets past the check exactly when no flush holds the flag and the threshold has not been
   * reached since the last successful write, or the cooldown after the last batch given up is over.
   */
  lemma EntersExactly(s: System, actions: seq<Action>, id: nat, t: int)
    requires Initial(s) && id !in After(s, actions).calls
    ensures var before := After(s, actions);
            var failures := GaveUpSinceWrite(before.outcomes);
            id in Apply(before, BeginFlush(id, t)).calls <==>
              !before.flushing
              && (|failures| < s.config.failureThreshold
                  || t >= failures[|failures| - 1] + s.config.cooldownMs)
  {
    hide After;
    CircuitIsItsHistory(s, actions);
  }

  // ---------------------------------------------------------------- giving up

  /** The failed writes of a call since it took its batch. */
  ghost function FailedWrites(actions: seq<Action>, id: nat): nat
    decreases |actions|
  {
    if actions == [] then 0
    else
      var before, last := FailedWrites(actions[..|actions| - 1], id), actions[|actions| - 1];
      if last == TakeBatch(id) then 0 else if last == WriteFails(id) then before + 1 else before
  }

  ghost predicate AllEnabled(s: System, actions: seq<Action>)
    decreases |actions|
  {
    actions != [] ==>
      && AllEnabled(s, actions[..|actions| - 1])
      && Enabled(After(s, actions[..|actions| - 1]), actions[|actions| - 1])
  }

  lemma {:induction false} AttemptsAreFailedWrites(s: System, actions: seq<Action>, id: nat)
    requires Initial(s) && AllEnabled(s, actions) && IsWriting(After(s, actions), id)
    ensures After(s, actions).calls[id].attempt == FailedWrites(actions, id) <= s.config.maxRetries
    ensures After(s, actions).config == s.config
    decreases |actions|
  {
    var init, a := actions[..|actions| - 1], actions[|actions| - 1];
    CircuitIsItsHistory(s, init);
    if a != TakeBatch(id) { AttemptsAreFailedWrites(s, init, id); }
  }

  /** A batch is given up exactly by its call's failed write number maxRetries + 1; the call's own time is recorded. */
  lemma GivesUpExactly(s: System, actions: seq<Action>, id: nat)
    requires Initial(s) && AllEnabled(s, actions) && IsWriting(After(s, actions), id)
    ensures var before, after := After(s, actions), Apply(After(s, actions), WriteFails(id));
            if FailedWrites(actions, id) < s.config.maxRetries
            then IsWriting(after, id) && after.calls[id].batch == before.calls[id].batch
                 && after.outcomes == before.outcomes && after.queue == before.queue
            else id !in after.calls && after.outcomes == before.outcomes + [GaveUp(before.calls[id].now)]
                 && !after.flushing && after.queue == before.queue
  {
    AttemptsAreFailedWrites(s, actions, id);
  }

  /**
   * A call that passed the check takes the front of the queue, batchSize events or all there are, and raises the flag;
   * with nothing to take it ends.
   */
  lemma TakesExactly(s: System, id: nat)
    requires id in s.calls
    ensures var after, all := Apply(s, TakeBatch(id)), |s.queue| <= s.config.batchSize;
            var batch := if all then s.queue else s.queue[..s.config.batchSize];
            && after.queue == s.queue && after.written == s.written && after.dropped == s.dropped
            && after.metrics == s.metrics && after.outcomes == s.outcomes
            && if batch == [] then after.calls == s.calls - {id} && after.flushing == s.flushing
               else after.flushing && after.calls == s.calls[id := Writing(s.calls[id].now, batch, 0)]
  {
    assert s.queue[..|s.queue|] == s.queue;
  }

  /** A successful write stores its batch, takes as many events off the queue, lowers the flag and ends the call. */
  lemma WritesExactly(s: System, id: nat)
    requires IsWriting(s, id)
    ensures var after, batch := Apply(s, WriteOk(id)), s.calls[id].batch;
            && after.written == s.written + batch && !after.flushing && after.calls == s.calls - {id}
            && after.queue == (if |batch| <= |s.queue| then s.queue[|batch|..] else [])
            && after.outcomes == s.outcomes + [Wrote(s.dropped != [])] && after.dropped == s.dropped
  {}
}
