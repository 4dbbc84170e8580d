/**
 * Every interleaving of runWithEndpoint calls. A call is interrupted only where the source awaits; here a step is even
 * smaller (one candidate at a time), so each real schedule is one of these runs.
 */
module RpcAdmission {
  import opened Wrappers
  import opened RpcEndpointRegistry
  import opened Sequences

  /** `earliest` is the source's earliestReadyAt, None standing for Infinity. */
  datatype Phase =
    | Ready
    | Scanning(passNow: int, index: nat, earliest: Option<int>)
    | Executing(passNow: int, index: nat, earliest: Option<int>)
    | Sleeping(until: int)
    | Returned
    | Threw
    | NoEndpoint

  datatype Call = Call(candidates: seq<string>, deadline: int, phase: Phase)

  /** What happened, in order; `until` is the cooldown end that a retryable failure asks for. */
  datatype Event =
    | Start(url: string, at: int)
    | Success(url: string, at: int)
    | Failure(url: string, at: int, until: int, disposition: Disposition, strikes: int)

  predicate IsLimited(event: Event) { event.Failure? && event.disposition.reason == "rate-limited" }

  datatype System = System(options: Options, states: map<string, Endpoint>, calls: map<nat, Call>, clock: int,
                           log: seq<Event>)

  /** `t` is the clock reading of the step. */
  datatype Action =
    | Register(url: string, kind: string, maxConcurrency: int)
    | Invoke(id: nat, candidates: seq<string>, maxWaitMs: int, t: int)
    | BeginPass(id: nat, t: int)
    | VisitNext(id: nat, t: int)
    | FinishOk(id: nat, t: int)
    | FinishError(id: nat, disposition: Option<Disposition>, t: int)
    | EndPass(id: nat, t: int)
    | Wake(id: nat, t: int)

  function Later(earliest: Option<int>, readyAt: int): Option<int> {
    if earliest.Some? then Some(Min(earliest.value, readyAt)) else Some(readyAt)
  }

  ghost predicate Enabled(s: System, a: Action) {
    match a
    case Register(_, _, _) => true
    case Invoke(id, _, _, t) => id !in s.calls && s.clock <= t
    case BeginPass(id, t) => id in s.calls && s.clock <= t && s.calls[id].phase.Ready?
    case VisitNext(id, t) => id in s.calls && s.clock <= t && s.calls[id].phase.Scanning?
      && s.calls[id].phase.index < |s.calls[id].candidates|
    case FinishOk(id, t) => id in s.calls && s.clock <= t && s.calls[id].phase.Executing?
    case FinishError(id, _, t) => id in s.calls && s.clock <= t && s.calls[id].phase.Executing?
    case EndPass(id, t) => id in s.calls && s.clock <= t && s.calls[id].phase.Scanning?
      && s.calls[id].phase.index == |s.calls[id].candidates|
    case Wake(id, t) => id in s.calls && s.clock <= t && s.calls[id].phase.Sleeping?
  }

  function WithPhase(s: System, id: nat, phase: Phase, t: int): System
    requires id in s.calls
  {
    s.(calls := s.calls[id := s.calls[id].(phase := phase)], clock := t)
  }

  /** The url a call is executing on. */
  function UrlOf(call: Call): string
    requires call.phase.Executing?
  {
    if call.phase.index < |call.candidates| then call.candidates[call.phase.index] else ""
  }

  function Visited(s: System, id: nat, t: int): System
    requires id in s.calls && s.calls[id].phase.Scanning? && s.calls[id].phase.index < |s.calls[id].candidates|
  {
    var phase := s.calls[id].phase;
    var url := s.calls[id].candidates[phase.index];
    match Inspect(s.states, url, phase.passNow)
    case Unregistered => WithPhase(s, id, Scanning(phase.passNow, phase.index + 1, phase.earliest), t)
    case Wait(readyAt) => WithPhase(s, id, Scanning(phase.passNow, phase.index + 1, Later(phase.earliest, readyAt)), t)
    case Admit =>
      WithPhase(s, id, Executing(phase.passNow, phase.index, phase.earliest), t).(
        states := s.states[url := Started(s.states[url], s.options, t)],
        log := s.log + [Start(url, t)])
  }

  function FailureOf(endpoint: Endpoint, url: string, options: Options, disposition: Disposition, at: int): Event {
    Failure(url, at, at + CooldownAfter(endpoint, options, disposition, at), disposition,
            StrikesAfter(endpoint, options, disposition, at))
  }

  function FailedWith(s: System, id: nat, disposition: Disposition, t: int): System
    requires id in s.calls && s.calls[id].phase.Executing? && UrlOf(s.calls[id]) in s.states
  {
    var url := UrlOf(s.calls[id]);
    var phase := s.calls[id].phase;
    var endpoint := s.states[url];
    WithPhase(s, id, Scanning(phase.passNow, phase.index + 1, phase.earliest), t).(
      states := s.states[url := FailedRetryably(endpoint, s.options, disposition, t)],
      log := s.log + [FailureOf(endpoint, url, s.options, disposition, t)])
  }

  /** Lines 352-361. */
  function PassEnded(s: System, id: nat, t: int): System
    requires id in s.calls && s.calls[id].phase.Scanning?
  {
    var earliest := s.calls[id].phase.earliest;
    var waitUntil := if earliest.Some? then Min(earliest.value, s.calls[id].deadline) else s.calls[id].deadline;
    WithPhase(s, id, if waitUntil <= t then NoEndpoint else Sleeping(t + Max(1, waitUntil - t)), t)
  }

  /**
   * The effect of an enabled action; the state is unchanged when a finishing call has no endpoint, which never happens.
   */
  function Apply(s: System, a: Action): System {
    match a
    case Register(url, kind, maxConcurrency) => s.(states := Registered(s.states, url, kind, maxConcurrency))
    case Invoke(id, candidates, maxWaitMs, t) =>
      var named := Filter(url => url != "", candidates);
      s.(calls := s.calls[id := Call(named, t + maxWaitMs, if named == [] then NoEndpoint else Ready)], clock := t)
    case BeginPass(id, t) => if id in s.calls then WithPhase(s, id, Scanning(t, 0, None), t) else s
    case VisitNext(id, t) =>
      if id in s.calls && s.calls[id].phase.Scanning? && s.calls[id].phase.index < |s.calls[id].candidates|
      then Visited(s, id, t) else s
    case FinishOk(id, t) =>
      if id in s.calls && s.calls[id].phase.Executing? && UrlOf(s.calls[id]) in s.states then
        var url := UrlOf(s.calls[id]);
        WithPhase(s, id, Returned, t).(states := s.states[url := Succeeded(s.states[url], s.options, t)],
                                       log := s.log + [Success(url, t)])
      else s
    case FinishError(id, disposition, t) =>
      if id in s.calls && s.calls[id].phase.Executing? && UrlOf(s.calls[id]) in s.states then
        if disposition.None? || !disposition.value.retryable then
          WithPhase(s, id, Threw, t).(states := s.states[UrlOf(s.calls[id]) := Released(s.states[UrlOf(s.calls[id])])])
        else FailedWith(s, id, disposition.value, t)
      else s
    case EndPass(id, t) => if id in s.calls && s.calls[id].phase.Scanning? then PassEnded(s, id, t) else s
    case Wake(id, t) => if id in s.calls then WithPhase(s, id, Ready, t) else s
  }

  ghost predicate Schedule(s: System, actions: seq<Action>)
    decreases |actions|
  {
    actions != [] ==>
      && Schedule(s, actions[..|actions| - 1])
      && Enabled(After(s, actions[..|actions| - 1]), actions[|actions| - 1])
  }

  function After(s: System, actions: seq<Action>): System
    decreases |actions|
  {
    if actions == [] then s else Apply(After(s, actions[..|actions| - 1]), actions[|actions| - 1])
  }

  /** A registry with its constructor's options, before any call; the clock is the source's Date.now(), never 0. */
  ghost predicate Initial(s: System) {
    s.states == map[] && s.calls == map[] && s.log == [] && s.clock > 0 && s.options.minRequestIntervalMs >= 0
  }

  // ---------------------------------------------------------------- in-flight counts

  predicate ExecutesOn(call: Call, url: string) {
    call.phase.Executing? && UrlOf(call) == url
  }

  ghost function Executors(calls: map<nat, Call>, url: string): set<nat> {
    set id | id in calls && ExecutesOn(calls[id], url)
  }

  ghost predicate CountsAgree(s: System) {
    && (forall id :: id in s.calls && s.calls[id].phase.Executing? ==> UrlOf(s.calls[id]) in s.states)
    && (forall url :: url in s.states ==> s.states[url].inFlight == |Executors(s.calls, url)|)
  }

  lemma ExecutorsUpdate(calls: map<nat, Call>, id: nat, call: Call, url: string)
    ensures |Executors(calls[id := call], url)|
            == |Executors(calls, url)|
               + (if ExecutesOn(call, url) then 1 else 0)
               - (if id in calls && ExecutesOn(calls[id], url) then 1 else 0)
    ensures id in calls && ExecutesOn(calls[id], url) ==> |Executors(calls, url)| >= 1
  {
    hide ExecutesOn;
    var before, after := Executors(calls, url), Executors(calls[id := call], url);
    assert before - {id} == after - {id};
    WithoutOne(before, id);
    WithoutOne(after, id);
  }

  lemma WithoutOne(ids: set<nat>, id: nat)
    ensures |ids| == |ids - {id}| + (if id in ids then 1 else 0)
  {
    if id in ids { assert ids == (ids - {id}) + {id}; } else { assert ids == ids - {id}; }
  }

  /** One call and one endpoint change together: the count stays right when it moves by as much as the call does. */
  lemma CountsAfterUpdate(s: System, id: nat, call: Call, states: map<string, Endpoint>, t: System)
    requires CountsAgree(s) && t.calls == s.calls[id := call] && t.states == states
    requires call.phase.Executing? ==> UrlOf(call) in states
    requires states.Keys == s.states.Keys
    requires forall url :: url in states ==>
               states[url].inFlight == s.states[url].inFlight
                                       + (if ExecutesOn(call, url) then 1 else 0)
                                       - (if id in s.calls && ExecutesOn(s.calls[id], url) then 1 else 0)
    ensures CountsAgree(t)
  {
    forall url | url in t.states ensures t.states[url].inFlight == |Executors(t.calls, url)| {
      ExecutorsUpdate(s.calls, id, call, url);
    }
  }

  /** The in-flight count is the number of executing calls after every step, so releasing never clamps at 0. */
  lemma CountsKept(s: System, a: Action)
    requires CountsAgree(s) && Enabled(s, a)
    ensures CountsAgree(Apply(s, a))
    ensures (a.FinishOk? || a.FinishError?) ==> s.states[UrlOf(s.calls[a.id])].inFlight >= 1
  {
    var t := Apply(s, a);
    if a.Register? {
      if a.url !in s.states {
        assert Executors(s.calls, a.url) == {};
      }
    } else {
      if a.FinishOk? || a.FinishError? {
        ExecutorsUpdate(s.calls, a.id, t.calls[a.id], UrlOf(s.calls[a.id]));
      }
      CountsAfterUpdate(s, a.id, t.calls[a.id], t.states, t);
    }
  }

  // ---------------------------------------------------------------- strikes, read off the history

  /** The times of one endpoint's 429 answers. */
  ghost function LimitTimes(log: seq<Event>, url: string): seq<int> {
    if log == [] then []
    else
      var last := log[|log| - 1];
      LimitTimes(log[..|log| - 1], url) + if IsLimited(last) && last.url == url then [last.at] else []
  }

  /** The length of the longest run of 429s, ending with the latest, in which neighbours are at most `window` apart. */
  ghost function StrikeRun(times: seq<int>, window: int): nat {
    var n := |times|;
    if n == 0 then 0
    else if n > 1 && times[n - 1] - times[n - 2] <= window then StrikeRun(times[..n - 1], window) + 1
    else 1
  }

  lemma {:induction false} StrikeRunIsLongest(times: seq<int>, window: int)
    ensures var n, run := |times|, StrikeRun(times, window);
            && run <= n && (n > 0 ==> run > 0)
            && (forall k :: n - run < k < n ==> times[k] - times[k - 1] <= window)
            && (0 < n - run ==> times[n - run] - times[n - run - 1] > window)
  {
    var n := |times|;
    if n > 1 && times[n - 1] - times[n - 2] <= window {
      var init := times[..n - 1];
      StrikeRunIsLongest(init, window);
      assert forall k :: 0 <= k < n - 1 ==> init[k] == times[k];
    }
  }

  /** The counter is the run of the history, or both the counter and the run have lapsed. */
  ghost predicate StrikesAgree(endpoint: Endpoint, times: seq<int>, window: int, clock: int) {
    || (times != [] && endpoint.lastRateLimitedAt == times[|times| - 1]
        && endpoint.rateLimitStrikes == StrikeRun(times, window))
    || (endpoint.lastRateLimitedAt == 0 && endpoint.rateLimitStrikes == 0
        && (times == [] || clock - times[|times| - 1] > window))
  }

  // ---------------------------------------------------------------- what the log promises

  /** Two starts on one endpoint keep the minimum interval. */
  ghost predicate Spaced(log: seq<Event>, intervalMs: int) {
    forall i, j :: 0 <= i < j < |log| && log[i].Start? && log[j].Start? && log[i].url == log[j].url
                   ==> log[j].at - log[i].at >= intervalMs
  }

  predicate StartsInside(failure: Event, start: Event) {
    failure.Failure? && start.Start? && failure.url == start.url && start.at < failure.until
  }

  /** A start before the end of a cooldown means that a request of that endpoint succeeded in between. */
  ghost predicate CooldownsHold(log: seq<Event>) {
    forall i, j :: 0 <= i < j < |log| && StartsInside(log[i], log[j]) ==> SucceededBetween(log, log[i].url, i, j)
  }

  ghost predicate SucceededBetween(log: seq<Event>, url: string, i: int, j: int) {
    exists k :: i < k < j && 0 <= k < |log| && log[k].Success? && log[k].url == url
  }

  /** The base cooldown once for each 429 of the run, up to eight times. */
  function LeastCooldown(options: Options, strikes: int): int {
    options.rateLimitedCooldownMs * Min(MAX_RATE_LIMIT_COOLDOWN_MULTIPLIER, strikes)
  }

  /** Every 429 carries the length of its run, and asks for at least that multiple of the base cooldown, up to eight. */
  ghost predicate StrikesRefine(log: seq<Event>, options: Options) {
    forall j :: 0 <= j < |log| && IsLimited(log[j]) ==>
      && log[j].strikes == StrikeRun(LimitTimes(log[..j + 1], log[j].url), options.rateLimitFailureDecayMs)
      && log[j].until - log[j].at >= LeastCooldown(options, log[j].strikes)
  }

  ghost predicate EndpointAgrees(endpoint: Endpoint, url: string, log: seq<Event>, options: Options, clock: int) {
    && (forall i :: 0 <= i < |log| && log[i].Start? && log[i].url == url ==>
        log[i].at + options.minRequestIntervalMs <= endpoint.nextRequestAt)
    && (forall i :: 0 <= i < |log| && log[i].Failure? && log[i].url == url
                    ==> endpoint.cooldownUntil >= log[i].until || SucceededBetween(log, url, i, |log|))
    && StrikesAgree(endpoint, LimitTimes(log, url), options.rateLimitFailureDecayMs, clock)
  }

  ghost predicate LogSound(s: System) {
    && s.clock > 0
    && (forall i :: 0 <= i < |s.log| ==> s.log[i].url in s.states && 0 < s.log[i].at <= s.clock)
    && (forall id :: id in s.calls && s.calls[id].phase.Scanning? ==> s.calls[id].phase.passNow <= s.clock)
    && (forall id :: id in s.calls && s.calls[id].phase.Executing? ==> s.calls[id].phase.passNow <= s.clock)
    && (forall url :: url in s.states ==> EndpointAgrees(s.states[url], url, s.log, s.options, s.clock))
    && Spaced(s.log, s.options.minRequestIntervalMs)
    && CooldownsHold(s.log)
    && StrikesRefine(s.log, s.options)
  }

  lemma {:induction false} NoTimesWithoutEvents(log: seq<Event>, url: string)
    requires forall i :: 0 <= i < |log| ==> log[i].url != url
    ensures LimitTimes(log, url) == []
  {
    if log != [] { NoTimesWithoutEvents(log[..|log| - 1], url); }
  }

  lemma {:induction false} TimesBelow(log: seq<Event>, url: string, clock: int)
    requires forall i :: 0 <= i < |log| ==> 0 < log[i].at <= clock
    ensures forall k :: 0 <= k < |LimitTimes(log, url)| ==> 0 < LimitTimes(log, url)[k] <= clock
  {
    if log != [] { TimesBelow(log[..|log| - 1], url, clock); }
  }

  /** Steps that log nothing and leave the admission fields of every endpoint alone. */
  lemma QuietStep(s: System, t: System)
    requires LogSound(s) && t.log == s.log && t.options == s.options && s.clock <= t.clock
    requires forall url :: url in s.states ==>
               url in t.states
               && t.states[url].nextRequestAt == s.states[url].nextRequestAt
               && t.states[url].cooldownUntil == s.states[url].cooldownUntil
               && t.states[url].rateLimitStrikes == s.states[url].rateLimitStrikes
               && t.states[url].lastRateLimitedAt == s.states[url].lastRateLimitedAt
    requires forall url :: url in t.states && url !in s.states ==>
               t.states[url].rateLimitStrikes == 0 && t.states[url].lastRateLimitedAt == 0
    requires forall id :: id in t.calls && t.calls[id].phase.Scanning? ==> t.calls[id].phase.passNow <= t.clock
    requires forall id :: id in t.calls && t.calls[id].phase.Executing? ==> t.calls[id].phase.passNow <= t.clock
    ensures LogSound(t)
  {
    forall url | url in t.states ensures EndpointAgrees(t.states[url], url, t.log, t.options, t.clock) {
      if url !in s.states {
        NoTimesWithoutEvents(s.log, url);
      } else {
        assert EndpointAgrees(s.states[url], url, s.log, s.options, s.clock);
      }
    }
  }

  lemma BetweenGrows(log: seq<Event>, event: Event, url: string, i: int)
    requires 0 <= i < |log| && (SucceededBetween(log, url, i, |log|) || (event.Success? && event.url == url))
    ensures SucceededBetween(log + [event], url, i, |log| + 1)
  {
    var longer := log + [event];
    if SucceededBetween(log, url, i, |log|) {
      var k :| i < k < |log| && log[k].Success? && log[k].url == url;
      assert longer[k] == log[k];
    } else {
      assert longer[|log|] == event;
    }
  }

  /** The other endpoints do not notice an event. */
  lemma OthersAgree(endpoint: Endpoint, url: string, log: seq<Event>, event: Event, options: Options, clock: int,
                    later: int)
    requires EndpointAgrees(endpoint, url, log, options, clock) && event.url != url && clock <= later
    ensures EndpointAgrees(endpoint, url, log + [event], options, later)
  {
    var longer := log + [event];
    assert longer[..|log|] == log;
    assert LimitTimes(longer, url) == LimitTimes(log, url);
    forall i | 0 <= i < |longer| && longer[i].Failure? && longer[i].url == url
      ensures endpoint.cooldownUntil >= longer[i].until || SucceededBetween(longer, url, i, |longer|)
    {
      if endpoint.cooldownUntil < log[i].until { BetweenGrows(log, event, url, i); }
    }
  }

  lemma SpacingExtends(log: seq<Event>, event: Event, intervalMs: int)
    requires Spaced(log, intervalMs)
    requires event.Start? ==> forall i :: 0 <= i < |log| && log[i].Start? && log[i].url == event.url ==>
               event.at - log[i].at >= intervalMs
    ensures Spaced(log + [event], intervalMs)
  {}

  lemma CooldownsExtend(log: seq<Event>, event: Event)
    requires CooldownsHold(log)
    requires event.Start? ==>
               forall i :: 0 <= i < |log| && log[i].Failure? && log[i].url == event.url && event.at < log[i].until
                           ==> SucceededBetween(log, event.url, i, |log|)
    ensures CooldownsHold(log + [event])
  {
    var longer := log + [event];
    forall i, j | 0 <= i < j < |longer| && longer[i].Failure? && longer[j].Start? && longer[i].url == longer[j].url
      && longer[j].at < longer[i].until
      ensures SucceededBetween(longer, longer[i].url, i, j)
    {
      assert longer[i] == log[i];
      assert SucceededBetween(log, longer[i].url, i, j);
      var k :| i < k < j && 0 <= k < |log| && log[k].Success? && log[k].url == longer[i].url;
      assert longer[k] == log[k];
    }
  }

  lemma StrikesExtend(log: seq<Event>, event: Event, options: Options)
    requires StrikesRefine(log, options)
    requires IsLimited(event) ==>
               && event.strikes == StrikeRun(LimitTimes(log + [event], event.url), options.rateLimitFailureDecayMs)
               && event.until - event.at >= LeastCooldown(options, event.strikes)
    ensures StrikesRefine(log + [event], options)
  {
    hide LimitTimes, StrikeRun;
    var longer := log + [event];
    forall j | 0 <= j < |longer| && IsLimited(longer[j])
      ensures longer[j].strikes == StrikeRun(LimitTimes(longer[..j + 1], longer[j].url),
                                             options.rateLimitFailureDecayMs)
      ensures longer[j].until - longer[j].at
              >= LeastCooldown(options, longer[j].strikes)
    {
      if j < |log| {
        assert longer[..j + 1] == log[..j + 1] && longer[j] == log[j];
      } else {
        assert longer[..j + 1] == longer;
      }
    }
  }

  lemma LogExtends(log: seq<Event>, event: Event, options: Options)
    requires Spaced(log, options.minRequestIntervalMs) && CooldownsHold(log) && StrikesRefine(log, options)
    requires event.Start? ==>
               && (forall i :: 0 <= i < |log| && log[i].Start? && log[i].url == event.url ==>
                   event.at - log[i].at >= options.minRequestIntervalMs)
               && (forall i :: 0 <= i < |log| && log[i].Failure? && log[i].url == event.url && event.at < log[i].until
                               ==> SucceededBetween(log, event.url, i, |log|))
    requires IsLimited(event) ==>
               && event.strikes == StrikeRun(LimitTimes(log + [event], event.url), options.rateLimitFailureDecayMs)
               && event.until - event.at >= LeastCooldown(options, event.strikes)
    ensures var longer := log + [event];
            Spaced(longer, options.minRequestIntervalMs) && CooldownsHold(longer) && StrikesRefine(longer, options)
  {
    hide Spaced, CooldownsHold, StrikesRefine, SucceededBetween, LimitTimes, StrikeRun;
    SpacingExtends(log, event, options.minRequestIntervalMs);
    CooldownsExtend(log, event);
    StrikesExtend(log, event, options);
  }

  /** A step that logs `event` and replaces that event's endpoint by `endpoint`. */
  lemma LoggedStep(s: System, t: System, event: Event, endpoint: Endpoint)
    requires LogSound(s) && s.clock <= t.clock == event.at && event.url in s.states
    requires t.log == s.log + [event] && t.options == s.options && t.states == s.states[event.url := endpoint]
    requires EndpointAgrees(endpoint, event.url, t.log, s.options, t.clock)
    requires Spaced(t.log, s.options.minRequestIntervalMs) && CooldownsHold(t.log) && StrikesRefine(t.log, s.options)
    requires forall id :: id in t.calls && t.calls[id].phase.Scanning? ==> t.calls[id].phase.passNow <= t.clock
    requires forall id :: id in t.calls && t.calls[id].phase.Executing? ==> t.calls[id].phase.passNow <= t.clock
    ensures LogSound(t)
  {
    forall url | url in t.states && url != event.url
      ensures EndpointAgrees(t.states[url], url, t.log, t.options, t.clock) {
      OthersAgree(s.states[url], url, s.log, event, s.options, s.clock, t.clock);
    }
  }

  lemma StartAgrees(endpoint: Endpoint, url: string, log: seq<Event>, options: Options, clock: int, at: int)
    requires EndpointAgrees(endpoint, url, log, options, clock) && clock <= at
    requires endpoint.nextRequestAt <= at && endpoint.cooldownUntil <= at
    ensures EndpointAgrees(Started(endpoint, options, at), url, log + [Start(url, at)], options, at)
    ensures forall i :: 0 <= i < |log| && log[i].Start? && log[i].url == url ==>
              at - log[i].at >= options.minRequestIntervalMs
    ensures forall i :: 0 <= i < |log| && log[i].Failure? && log[i].url == url && at < log[i].until ==>
              SucceededBetween(log, url, i, |log|)
  {
    var event := Start(url, at);
    var longer := log + [event];
    assert longer[..|log|] == log;
    assert LimitTimes(longer, url) == LimitTimes(log, url);
    forall i | 0 <= i < |longer| && longer[i].Failure? && longer[i].url == url
      ensures endpoint.cooldownUntil >= longer[i].until || SucceededBetween(longer, url, i, |longer|)
    {
      if endpoint.cooldownUntil < log[i].until { BetweenGrows(log, event, url, i); }
    }
  }

  lemma SuccessAgrees(endpoint: Endpoint, url: string, log: seq<Event>, options: Options, clock: int, at: int)
    requires EndpointAgrees(endpoint, url, log, options, clock) && clock <= at
    requires forall k :: 0 <= k < |LimitTimes(log, url)| ==> 0 < LimitTimes(log, url)[k] <= clock
    ensures EndpointAgrees(Succeeded(endpoint, options, at), url, log + [Success(url, at)], options, at)
  {
    var event := Success(url, at);
    var longer := log + [event];
    assert longer[..|log|] == log;
    assert LimitTimes(longer, url) == LimitTimes(log, url);
    forall i | 0 <= i < |longer| && longer[i].Failure? && longer[i].url == url
      ensures SucceededBetween(longer, url, i, |longer|)
    {
      BetweenGrows(log, event, url, i);
    }
  }

  lemma FailureStrikes(endpoint: Endpoint, times: seq<int>, options: Options, clock: int, disposition: Disposition,
                       at: int)
    requires StrikesAgree(endpoint, times, options.rateLimitFailureDecayMs, clock) && clock <= at
    requires forall k :: 0 <= k < |times| ==> 0 < times[k] <= clock
    requires disposition.reason == "rate-limited"
    ensures StrikesAfter(endpoint, options, disposition, at)
            == StrikeRun(times + [at], options.rateLimitFailureDecayMs) >= 1
  {
    assert (times + [at])[..|times|] == times;
  }

  /** A 429 carries the length of the run that it ends, and a failure leaves a counter that agrees with the history. */
  lemma FailureCounts(endpoint: Endpoint, url: string, log: seq<Event>, options: Options, clock: int,
                      disposition: Disposition, at: int)
    requires StrikesAgree(endpoint, LimitTimes(log, url), options.rateLimitFailureDecayMs, clock) && clock <= at
    requires forall k :: 0 <= k < |LimitTimes(log, url)| ==> 0 < LimitTimes(log, url)[k] <= clock
    ensures var event := FailureOf(endpoint, url, options, disposition, at);
            var times := LimitTimes(log + [event], url);
            && StrikesAgree(FailedRetryably(endpoint, options, disposition, at), times, options.rateLimitFailureDecayMs,
                            at)
            && (IsLimited(event) ==>
                  && event.strikes == StrikeRun(times, options.rateLimitFailureDecayMs)
                  && event.until - at >= LeastCooldown(options, event.strikes))
  {
    hide StrikesAfter, ResolveCooldownMs, StrikeRun, LeastCooldown;
    var event := FailureOf(endpoint, url, options, disposition, at);
    var times := LimitTimes(log, url);
    assert (log + [event])[..|log|] == log;
    if IsLimited(event) {
      FailureStrikes(endpoint, times, options, clock, disposition, at);
      CooldownScales(options, disposition, event.strikes);
    } else {
      assert LimitTimes(log + [event], url) == times;
      NoStrike(endpoint, options, disposition, at);
    }
  }

  lemma FailureAgrees(endpoint: Endpoint, url: string, log: seq<Event>, options: Options, clock: int,
                      disposition: Disposition, at: int)
    requires EndpointAgrees(endpoint, url, log, options, clock) && clock <= at
    requires forall k :: 0 <= k < |LimitTimes(log, url)| ==> 0 < LimitTimes(log, url)[k] <= clock
    ensures var event := FailureOf(endpoint, url, options, disposition, at);
            EndpointAgrees(FailedRetryably(endpoint, options, disposition, at), url, log + [event], options, at)
  {
    hide StrikesAfter, ResolveCooldownMs, StrikeRun, StrikesAgree, LimitTimes;
    var event := FailureOf(endpoint, url, options, disposition, at);
    var after := FailedRetryably(endpoint, options, disposition, at);
    var longer := log + [event];
    FailureCounts(endpoint, url, log, options, clock, disposition, at);
    forall i | 0 <= i < |longer| && longer[i].Failure? && longer[i].url == url
      ensures after.cooldownUntil >= longer[i].until || SucceededBetween(longer, url, i, |longer|)
    {
      if i < |log| && endpoint.cooldownUntil < log[i].until { BetweenGrows(log, event, url, i); }
    }
  }

  lemma NoStrike(endpoint: Endpoint, options: Options, disposition: Disposition, at: int)
    requires disposition.reason != "rate-limited"
    ensures StrikesAfter(endpoint, options, disposition, at) == endpoint.rateLimitStrikes
  {}

  lemma CooldownScales(options: Options, disposition: Disposition, strikes: int)
    requires disposition.reason == "rate-limited" && strikes >= 1
    ensures ResolveCooldownMs(options, disposition, strikes)
            >= LeastCooldown(options, strikes)
  {}

  lemma VisitKeepsLog(s: System, a: Action)
    requires LogSound(s) && CountsAgree(s) && Enabled(s, a) && a.VisitNext?
    ensures LogSound(Apply(s, a))
  {
    hide Spaced, CooldownsHold, StrikesRefine, StrikesAgree, LimitTimes;
    var t := Apply(s, a);
    var url := s.calls[a.id].candidates[s.calls[a.id].phase.index];
    if Inspect(s.states, url, s.calls[a.id].phase.passNow).Admit? {
      StartAgrees(s.states[url], url, s.log, s.options, s.clock, a.t);
      LogExtends(s.log, Start(url, a.t), s.options);
      LoggedStep(s, t, Start(url, a.t), t.states[url]);
    } else {
      QuietStep(s, t);
    }
  }

  lemma FinishOkKeepsLog(s: System, a: Action)
    requires LogSound(s) && CountsAgree(s) && Enabled(s, a) && a.FinishOk?
    ensures LogSound(Apply(s, a))
  {
    hide Spaced, CooldownsHold, StrikesRefine, StrikesAgree, LimitTimes;
    var t := Apply(s, a);
    var url := UrlOf(s.calls[a.id]);
    TimesBelow(s.log, url, s.clock);
    SuccessAgrees(s.states[url], url, s.log, s.options, s.clock, a.t);
    LogExtends(s.log, Success(url, a.t), s.options);
    LoggedStep(s, t, Success(url, a.t), t.states[url]);
  }

  lemma FinishErrorKeepsLog(s: System, a: Action)
    requires LogSound(s) && CountsAgree(s) && Enabled(s, a) && a.FinishError?
    ensures LogSound(Apply(s, a))
  {
    hide Spaced, CooldownsHold, StrikesRefine, StrikesAgree, LimitTimes, StrikesAfter, CooldownAfter;
    var t := Apply(s, a);
    var url := UrlOf(s.calls[a.id]);
    if a.disposition.Some? && a.disposition.value.retryable {
      var event := FailureOf(s.states[url], url, s.options, a.disposition.value, a.t);
      TimesBelow(s.log, url, s.clock);
      FailureCounts(s.states[url], url, s.log, s.options, s.clock, a.disposition.value, a.t);
      FailureAgrees(s.states[url], url, s.log, s.options, s.clock, a.disposition.value, a.t);
      LogExtends(s.log, event, s.options);
      LoggedStep(s, t, event, t.states[url]);
    } else {
      QuietStep(s, t);
    }
  }

  /** Every step keeps what the log promises. */
  lemma LogSoundKept(s: System, a: Action)
    requires LogSound(s) && CountsAgree(s) && Enabled(s, a)
    ensures LogSound(Apply(s, a))
  {
    hide Spaced, CooldownsHold, StrikesRefine, EndpointAgrees, Visited, FailedWith, Succeeded, Released;
    match a
    case VisitNext(_, _) => VisitKeepsLog(s, a);
    case FinishOk(_, _) => FinishOkKeepsLog(s, a);
    case FinishError(_, _, _) => FinishErrorKeepsLog(s, a);
    case _ => QuietStep(s, Apply(s, a));
  }

  // ---------------------------------------------------------------- whole runs

  ghost predicate WithinLimits(s: System) {
    forall url :: url in s.states ==> s.states[url].inFlight <= Max(0, s.states[url].maxConcurrency)
  }

  lemma LimitsKept(s: System, a: Action)
    requires WithinLimits(s) && CountsAgree(s) && Enabled(s, a) && !a.Register?
    ensures WithinLimits(Apply(s, a))
  {
    hide Succeeded, FailedRetryably;
    CountsKept(s, a);
    if a.FinishOk? || a.FinishError? {
      ReleaseOnly(s, a);
    }
  }

  lemma ReleaseOnly(s: System, a: Action)
    requires CountsAgree(s) && Enabled(s, a) && (a.FinishOk? || a.FinishError?)
    ensures forall url :: url in Apply(s, a).states ==>
              && url in s.states
              && Apply(s, a).states[url].inFlight <= Max(0, s.states[url].inFlight)
              && Apply(s, a).states[url].maxConcurrency == s.states[url].maxConcurrency
  {
    hide CountsAgree, Filter;
  }

  ghost predicate RegistersFirst(actions: seq<Action>) {
    forall i, j :: 0 <= i < j < |actions| && actions[j].Register? ==> actions[i].Register?
  }

  lemma {:induction false} OnlyRegistrations(s: System, actions: seq<Action>)
    requires Initial(s) && forall i :: 0 <= i < |actions| ==> actions[i].Register?
    ensures forall url :: url in After(s, actions).states ==> After(s, actions).states[url].inFlight == 0
    decreases |actions|
  {
    if actions != [] {
      OnlyRegistrations(s, actions[..|actions| - 1]);
      assert actions[|actions| - 1].Register?;
    }
  }

  /**
   * From the empty registry, under every schedule: the in-flight counts are the executing calls; starts keep their
   * interval; a start inside a cooldown is always preceded by a success; the strike counter is the run of 429s in the
   * history and scales the cooldown. When all registration comes first, no endpoint exceeds its concurrency limit.
   */
  lemma {:induction false} AdmissionIsSafe(s: System, actions: seq<Action>)
    requires Initial(s) && Schedule(s, actions)
    ensures var t := After(s, actions);
            && CountsAgree(t)
            && LogSound(t)
            && Spaced(t.log, s.options.minRequestIntervalMs)
            && CooldownsHold(t.log)
            && StrikesRefine(t.log, s.options)
            && t.options == s.options
            && (RegistersFirst(actions) ==> WithinLimits(t))
    decreases |actions|
  {
    hide Apply, CountsAgree, LogSound, Enabled;
    if actions == [] {
      assert CountsAgree(s) && LogSound(s) by { InitialIsSound(s); }
    } else {
      var init, a := actions[..|actions| - 1], actions[|actions| - 1];
      AdmissionIsSafe(s, init);
      var before := After(s, init);
      CountsKept(before, a);
      LogSoundKept(before, a);
      LogSoundMeans(Apply(before, a));
      OptionsKept(before, a);
      if RegistersFirst(actions) {
        assert RegistersFirst(init);
        if a.Register? {
          OnlyRegistrations(s, actions);
        } else {
          LimitsKept(before, a);
        }
      }
    }
  }

  lemma InitialIsSound(s: System)
    requires Initial(s)
    ensures CountsAgree(s) && LogSound(s)
  {}

  lemma LogSoundMeans(s: System)
    requires LogSound(s)
    ensures Spaced(s.log, s.options.minRequestIntervalMs) && CooldownsHold(s.log) && StrikesRefine(s.log, s.options)
  {}

  lemma OptionsKept(s: System, a: Action)
    ensures Apply(s, a).options == s.options
  {}

  /**
   * The reading of the clock that a pass works with may be old, yet a start never happens before the endpoint's present
   * cooldown or its next permitted request, nor without a free slot.
   */
  lemma StaleClockIsHarmless(s: System, actions: seq<Action>, a: Action)
    requires Initial(s) && Schedule(s, actions) && a.VisitNext? && Enabled(After(s, actions), a)
    ensures var t := After(s, actions);
            Apply(t, a).log != t.log ==>
              var start := Apply(t, a).log[|t.log|];
              && Apply(t, a).log == t.log + [start] && start.Start?
              && start.url in t.states
              && t.states[start.url].cooldownUntil <= start.at
              && t.states[start.url].nextRequestAt <= start.at
              && t.states[start.url].inFlight < t.states[start.url].maxConcurrency
  {
    AdmissionIsSafe(s, actions);
  }
}
