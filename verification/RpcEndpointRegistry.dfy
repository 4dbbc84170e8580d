/** The endpoint registry of src/execution/rpc-endpoint-registry.ts: what each uninterrupted stretch of code does. */
module RpcEndpointRegistry {
  import opened Wrappers

  const MAX_RATE_LIMIT_COOLDOWN_MULTIPLIER := 8

  datatype Options = Options(
    rateLimitedCooldownMs: int,
    rateLimitFailureDecayMs: int,
    timeoutCooldownMs: int,
    serverErrorCooldownMs: int,
    maxWaitMs: int,
    minRequestIntervalMs: int)

  datatype Disposition = Disposition(retryable: bool, reason: string, cooldownMs: Option<int>,
                                     retryAfterMs: Option<int>)

  datatype Endpoint = Endpoint(
    kinds: set<string>,
    maxConcurrency: int,
    inFlight: int,
    cooldownUntil: int,
    nextRequestAt: int,
    consecutiveFailures: int,
    rateLimitStrikes: int,
    lastFailureReason: string,
    lastRateLimitedAt: int,
    lastSuccessAt: int)

  function Max(a: int, b: int): int { if a < b then b else a }

  function Min(a: int, b: int): int { if a < b then a else b }

  function ScaleRateLimitCooldown(baseCooldownMs: int, strikes: int): int {
    baseCooldownMs * Min(MAX_RATE_LIMIT_COOLDOWN_MULTIPLIER, Max(1, strikes))
  }

  predicate IsServerErrorReason(reason: string) {
    |reason| == 8 && "http-5" <= reason && '0' <= reason[6] <= '9' && '0' <= reason[7] <= '9'
  }

  function ResolveCooldownMs(options: Options, disposition: Disposition, strikes: int): int {
    if disposition.reason == "rate-limited" then
      Max(Max(ScaleRateLimitCooldown(options.rateLimitedCooldownMs, strikes), disposition.cooldownMs.GetOr(0)),
          disposition.retryAfterMs.GetOr(0))
    else if disposition.reason == "timeout" then
      Max(options.timeoutCooldownMs, disposition.cooldownMs.GetOr(0))
    else if IsServerErrorReason(disposition.reason) then
      Max(options.serverErrorCooldownMs, disposition.cooldownMs.GetOr(0))
    else
      disposition.cooldownMs.GetOr(0)
  }

  /** Lines 190-211, for one url. */
  function Registered(states: map<string, Endpoint>, url: string, kind: string,
                      maxConcurrency: int): map<string, Endpoint> {
    if url in states then
      states[url := states[url].(kinds := states[url].kinds + {kind},
                                 maxConcurrency := Min(states[url].maxConcurrency, maxConcurrency))]
    else
      states[url := Endpoint({kind}, maxConcurrency, 0, 0, 0, 0, 0, "", 0, 0)]
  }

  /** What one candidate offers a scanning call. */
  datatype Visit = Unregistered | Wait(readyAt: int) | Admit

  /** The checks of lines 273-291, against the reading of the clock taken at the start of the pass. */
  function Inspect(states: map<string, Endpoint>, url: string, passNow: int): Visit {
    if url !in states then Unregistered
    else if states[url].cooldownUntil > passNow then Wait(states[url].cooldownUntil)
    else if states[url].nextRequestAt > passNow then Wait(states[url].nextRequestAt)
    else if states[url].inFlight >= states[url].maxConcurrency then Wait(passNow + 25)
    else Admit
  }

  function Started(endpoint: Endpoint, options: Options, startedAt: int): Endpoint {
    endpoint.(nextRequestAt := Max(endpoint.nextRequestAt, startedAt + options.minRequestIntervalMs),
              inFlight := endpoint.inFlight + 1)
  }

  function Released(endpoint: Endpoint): Endpoint {
    endpoint.(inFlight := Max(0, endpoint.inFlight - 1))
  }

  function Succeeded(endpoint: Endpoint, options: Options, at: int): Endpoint {
    var decayed := endpoint.lastRateLimitedAt > 0 && at - endpoint.lastRateLimitedAt > options.rateLimitFailureDecayMs;
    Released(endpoint.(
      consecutiveFailures := 0,
      lastFailureReason := "",
      cooldownUntil := 0,
      lastSuccessAt := at,
      rateLimitStrikes := if decayed then 0 else endpoint.rateLimitStrikes,
      lastRateLimitedAt := if decayed then 0 else endpoint.lastRateLimitedAt))
  }

  function StrikesAfter(endpoint: Endpoint, options: Options, disposition: Disposition, at: int): int {
    if disposition.reason != "rate-limited" then endpoint.rateLimitStrikes
    else if endpoint.lastRateLimitedAt > 0 && at - endpoint.lastRateLimitedAt > options.rateLimitFailureDecayMs then 1
    else endpoint.rateLimitStrikes + 1
  }

  function CooldownAfter(endpoint: Endpoint, options: Options, disposition: Disposition, at: int): int {
    ResolveCooldownMs(options, disposition, StrikesAfter(endpoint, options, disposition, at))
  }

  function FailedRetryably(endpoint: Endpoint, options: Options, disposition: Disposition, at: int): Endpoint {
    Released(endpoint.(
      consecutiveFailures := endpoint.consecutiveFailures + 1,
      rateLimitStrikes := StrikesAfter(endpoint, options, disposition, at),
      lastRateLimitedAt := if disposition.reason == "rate-limited" then at else endpoint.lastRateLimitedAt,
      lastFailureReason := disposition.reason,
      cooldownUntil := Max(endpoint.cooldownUntil, at + CooldownAfter(endpoint, options, disposition, at))))
  }

  /** The shared object. Each method is one stretch of runWithEndpoint between two awaits, for one endpoint. */
  class Registry {
    const options: Options
    var states: map<string, Endpoint>

    constructor (options: Options)
      ensures this.options == options.(minRequestIntervalMs := Max(0, options.minRequestIntervalMs))
      ensures states == map[]
    {
      this.options := options.(minRequestIntervalMs := Max(0, options.minRequestIntervalMs));
      states := map[];
    }

    method Register(url: string, kind: string, maxConcurrency: int)
      modifies this
      ensures states == Registered(old(states), url, kind, maxConcurrency)
    {
      if url in states {
        var existing := states[url];
        existing := existing.(kinds := existing.kinds + {kind});
        if maxConcurrency < existing.maxConcurrency {
          existing := existing.(maxConcurrency := maxConcurrency);
        }
        states := states[url := existing];
        return;
      }
      states := states[url := Endpoint({kind}, maxConcurrency, 0, 0, 0, 0, 0, "", 0, 0)];
    }

    /** Lines 272-298: check one candidate and, when it is free, take it. */
    method TryStart(url: string, passNow: int, startedAt: int) returns (visit: Visit)
      modifies this
      ensures visit == Inspect(old(states), url, passNow)
      ensures states == if visit.Admit? then old(states)[url := Started(old(states)[url], options, startedAt)]
              else old(states)
    {
      if url !in states { return Unregistered; }
      var state := states[url];
      if state.cooldownUntil > passNow { return Wait(state.cooldownUntil); }
      if state.nextRequestAt > passNow { return Wait(state.nextRequestAt); }
      if state.inFlight >= state.maxConcurrency { return Wait(passNow + 25); }
      state := state.(nextRequestAt := Max(state.nextRequestAt, startedAt + options.minRequestIntervalMs));
      state := state.(inFlight := state.inFlight + 1);
      states := states[url := state];
      return Admit;
    }

    /** Lines 301-320 and 347-349. */
    method CompleteOk(url: string, at: int)
      requires url in states
      modifies this
      ensures states == old(states)[url := Succeeded(old(states)[url], options, at)]
    {
      var state := states[url];
      state := state.(consecutiveFailures := 0, lastFailureReason := "", cooldownUntil := 0, lastSuccessAt := at);
      if state.lastRateLimitedAt > 0
        && state.lastSuccessAt - state.lastRateLimitedAt > options.rateLimitFailureDecayMs {
        state := state.(rateLimitStrikes := 0, lastRateLimitedAt := 0);
      }
      states := states[url := Released(state)];
    }

    /** Lines 322-349; `rethrown` is the error that leaves runWithEndpoint. */
    method CompleteError(url: string, disposition: Option<Disposition>, at: int) returns (rethrown: bool)
      requires url in states
      modifies this
      ensures rethrown == (disposition.None? || !disposition.value.retryable)
      ensures states == old(states)[url := if rethrown then Released(old(states)[url])
                                           else FailedRetryably(old(states)[url], options, disposition.value, at)]
    {
      var state := states[url];
      if disposition.None? || !disposition.value.retryable {
        states := states[url := Released(state)];
        return true;
      }
      var d := disposition.value;
      state := state.(consecutiveFailures := state.consecutiveFailures + 1);
      if d.reason == "rate-limited" {
        if state.lastRateLimitedAt > 0 && at - state.lastRateLimitedAt > options.rateLimitFailureDecayMs {
          state := state.(rateLimitStrikes := 0);
        }
        state := state.(rateLimitStrikes := state.rateLimitStrikes + 1, lastRateLimitedAt := at);
      }
      var cooldownMs := ResolveCooldownMs(options, d, state.rateLimitStrikes);
      state := state.(lastFailureReason := d.reason, cooldownUntil := Max(state.cooldownUntil, at + cooldownMs));
      states := states[url := Released(state)];
      return false;
    }
  }
}
