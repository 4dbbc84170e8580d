/** Flushing the mirror buffer: src/observability/mirror-runtime.ts with the mirror enabled. */
module MirrorRuntime {
  import opened Wrappers
  import opened MirrorBuffer

  datatype Config = Config(
    queueCapacity: int,
    batchSize: nat,
    maxRetries: nat,
    cooldownMs: int,
    failureThreshold: int,
    retentionDays: int,
    pruneIntervalMs: int)

  datatype Circuit = Healthy | Degraded | CircuitOpen

  /** The part of the metrics that the flush loop reads back; no cooldown is the empty string. */
  datatype Metrics = Metrics(circuit: Circuit, consecutiveFailures: nat, cooldownUntil: Option<int>)

  const NEW_METRICS := Metrics(Healthy, 0, None)

  predicate Blocked(metrics: Metrics, now: int) {
    metrics.circuit == CircuitOpen && metrics.cooldownUntil.Some? && metrics.cooldownUntil.value > now
  }

  function AfterPrune(metrics: Metrics, succeeded: bool): Metrics {
    metrics.(circuit := if metrics.circuit == CircuitOpen then CircuitOpen else if succeeded then Healthy else Degraded)
  }

  function AfterWrite(metrics: Metrics, droppedEvents: nat): Metrics {
    Metrics(if droppedEvents > 0 then Degraded else Healthy, 0, None)
  }

  function AfterFailure(metrics: Metrics, config: Config, now: int): Metrics {
    var failures := metrics.consecutiveFailures + 1;
    if failures >= config.failureThreshold then Metrics(CircuitOpen, failures, Some(now + config.cooldownMs))
    else Metrics(Degraded, failures, metrics.cooldownUntil)
  }

  predicate PruneDue(config: Config, lastPruneAtMs: int, now: int, force: bool) {
    config.retentionDays > 0 && config.pruneIntervalMs > 0
    && (force || lastPruneAtMs <= 0 || now - lastPruneAtMs >= config.pruneIntervalMs)
  }

  /** Another flush holds the flag, or the circuit is open and its cooldown not over. */
  predicate HeldOff(flushing: bool, metrics: Metrics, now: int) {
    flushing || (metrics.circuit == CircuitOpen && metrics.cooldownUntil.Some? && now < metrics.cooldownUntil.value)
  }

  /** One more batch given up: at the threshold the circuit opens until the cooldown after `now` is over. */
  predicate GivenUp(config: Config, before: Metrics, after: Metrics, now: int) {
    && after.consecutiveFailures == before.consecutiveFailures + 1
    && if after.consecutiveFailures >= config.failureThreshold
       then after.circuit == CircuitOpen && after.cooldownUntil == Some(now + config.cooldownMs)
       else after.circuit == Degraded && after.cooldownUntil == before.cooldownUntil
  }

  class MirrorRuntime {
    const config: Config
    const buffer: MirrorBuffer
    var metrics: Metrics
    var flushing: bool
    var lastPruneAtMs: int
    var written: seq<Event>

    constructor (config: Config)
      ensures this.config == config && metrics == NEW_METRICS && !flushing && written == [] && lastPruneAtMs == 0
      ensures fresh(buffer) && buffer.capacity == config.queueCapacity && buffer.queue == []
              && buffer.droppedEvents == 0
    {
      this.config := config;
      buffer := new MirrorBuffer(config.queueCapacity);
      metrics := NEW_METRICS;
      flushing, lastPruneAtMs, written := false, 0, [];
    }

    method MaybePrune(now: int, force: bool, succeeds: bool)
      modifies this`metrics, this`lastPruneAtMs
      ensures var due := config.retentionDays > 0 && config.pruneIntervalMs > 0
                         && (force || old(lastPruneAtMs) <= 0 || now >= old(lastPruneAtMs) + config.pruneIntervalMs);
              && metrics.consecutiveFailures == old(metrics).consecutiveFailures
              && metrics.cooldownUntil == old(metrics).cooldownUntil
              && metrics.circuit == (if !due || old(metrics).circuit == CircuitOpen then old(metrics).circuit
                                     else if succeeds then Healthy else Degraded)
              && lastPruneAtMs == (if due && succeeds then now else old(lastPruneAtMs))
    {
      if config.retentionDays <= 0 || config.pruneIntervalMs <= 0 { return; }
      if !force && lastPruneAtMs > 0 && now - lastPruneAtMs < config.pruneIntervalMs { return; }
      if succeeds {
        lastPruneAtMs := now;
        metrics := metrics.(circuit := if metrics.circuit == CircuitOpen then CircuitOpen else Healthy);
      } else {
        metrics := metrics.(circuit := if metrics.circuit == CircuitOpen then CircuitOpen else Degraded);
      }
    }

    /** flushOnce with nothing else running in between. */
    method FlushOnce(now: int, pruneSucceeds: bool, writes: seq<bool>) returns (flushed: bool)
      requires |writes| > config.maxRetries
      modifies this, buffer`queue
      ensures flushing == old(flushing)
      ensures HeldOff(old(flushing), old(metrics), now)
              ==> !flushed && metrics == old(metrics) && written == old(written) && buffer.queue == old(buffer.queue)
                  && lastPruneAtMs == old(lastPruneAtMs)
      ensures !HeldOff(old(flushing), old(metrics), now) ==>
                var batch := SliceFront(old(buffer.queue), config.batchSize);
                var due := PruneDue(config, old(lastPruneAtMs), now, false);
                && flushed == (batch != [] && exists k :: 0 <= k <= config.maxRetries && writes[k])
                && lastPruneAtMs == (if due && pruneSucceeds then now else old(lastPruneAtMs))
                && written == old(written) + (if flushed then batch else [])
                && buffer.queue == (if flushed then DropFront(old(buffer.queue), |batch|) else old(buffer.queue))
                && (batch == [] ==> metrics == if due then AfterPrune(old(metrics), pruneSucceeds) else old(metrics))
                && (flushed ==> metrics == Metrics(if buffer.droppedEvents > 0 then Degraded else Healthy, 0, None))
                && (batch != [] && !flushed ==> GivenUp(config, old(metrics), metrics, now))
    {
      if flushing || Blocked(metrics, now) { return false; }
      MaybePrune(now, false, pruneSucceeds);
      var batch := buffer.Peek(config.batchSize);
      if batch == [] { return false; }
      flushing := true;
      var attempt := 0;
      while attempt <= config.maxRetries
        invariant 0 <= attempt <= config.maxRetries + 1
        invariant forall k :: 0 <= k < attempt ==> !writes[k]
      {
        if writes[attempt] {
          written := written + batch;
          var acked := buffer.Ack(|batch|);
          metrics := AfterWrite(metrics, buffer.droppedEvents);
          flushing := false;
          return true;
        }
        attempt := attempt + 1;
      }
      metrics := AfterFailure(metrics, config, now);
      flushing := false;
      return false;
    }
  }
}
