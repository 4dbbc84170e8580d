/** Every endpoint and every call, read off the history of the registry instead of off its fields. */
module RpcHistory {
  import opened Wrappers
  import opened Sequences
  import opened RpcEndpointRegistry
  import opened RpcAdmission

  // ---------------------------------------------------------------- what a failure asks for

  ghost predicate IsGreatest(m: int, values: set<int>) {
    m in values && forall v :: v in values ==> v <= m
  }

  function OrZero(amount: Option<int>): int { if amount.None? then 0 else amount.value }

  predicate IsDigit(c: char) { c in {'0', '1', '2', '3', '4', '5', '6', '7', '8', '9'} }

  ghost predicate IsServerError(reason: string) {
    exists tens, ones :: IsDigit(tens) && IsDigit(ones) && reason == "http-5" + [tens, ones]
  }

  /**
   * A failure keeps its endpoint off for the greatest of the time set for its class, the time that came with it and,
   * for a 429, the server's retry-after; a 429 counts its base once for each of its run, up to eight.
   */
  ghost predicate AsksFor(event: Event, options: Options)
    requires event.Failure?
  {
    var d, asked := event.disposition, event.until - event.at;
    if d.reason == "rate-limited" then
      IsGreatest(asked, {options.rateLimitedCooldownMs * (if event.strikes > 8 then 8 else event.strikes),
                         OrZero(d.cooldownMs), OrZero(d.retryAfterMs)})
    else if d.reason == "timeout" then IsGreatest(asked, {options.timeoutCooldownMs, OrZero(d.cooldownMs)})
    else if IsServerError(d.reason) then IsGreatest(asked, {options.serverErrorCooldownMs, OrZero(d.cooldownMs)})
    else asked == OrZero(d.cooldownMs)
  }

  ghost predicate AllAskFor(log: seq<Event>, options: Options) {
    forall i :: 0 <= i < |log| && log[i].Failure? ==> log[i].disposition.retryable && AsksFor(log[i], options)
  }

  lemma ServerErrorsAgree(reason: string)
    ensures IsServerError(reason) <==> IsServerErrorReason(reason)
  {
    if IsServerErrorReason(reason) {
      assert |"http-5"| == 6;
      assert reason == "http-5" + [reason[6], reason[7]];
      assert IsDigit(reason[6]) && IsDigit(reason[7]);
    }
    if IsServerError(reason) {
      var tens, ones :| IsDigit(tens) && IsDigit(ones) && reason == "http-5" + [tens, ones];
      assert reason[6] == tens && reason[7] == ones;
    }
  }

  lemma FailureAsks(endpoint: Endpoint, url: string, options: Options, disposition: Disposition, at: int)
    requires IsLimited(FailureOf(endpoint, url, options, disposition, at)) ==>
               StrikesAfter(endpoint, options, disposition, at) >= 1
    ensures AsksFor(FailureOf(endpoint, url, options, disposition, at), options)
  {
    hide StrikesAfter, IsServerError, IsServerErrorReason;
    ServerErrorsAgree(disposition.reason);
  }

  // ---------------------------------------------------------------- an endpoint is its history

  /** The latest end asked for by the failures since the last success. */
  ghost function CooldownDue(log: seq<Event>, url: string): int {
    if log == [] then 0
    else
      var last, before := log[|log| - 1], CooldownDue(log[..|log| - 1], url);
      if last.url != url || last.Start? then before
      else if last.Success? then 0
      else if last.until > before then last.until
      else before
  }

  /** The latest end of an interval that a start opened. */
  ghost function NextDue(log: seq<Event>, url: string, intervalMs: int): int {
    if log == [] then 0
    else
      var last, before := log[|log| - 1], NextDue(log[..|log| - 1], url, intervalMs);
      if last.url == url && last.Start? && last.at + intervalMs > before then last.at + intervalMs else before
  }

  ghost function FailuresSinceSuccess(log: seq<Event>, url: string): seq<string> {
    if log == [] then []
    else
      var last, before := log[|log| - 1], FailuresSinceSuccess(log[..|log| - 1], url);
      if last.url != url || last.Start? then before
      else if last.Success? then []
      else before + [last.disposition.reason]
  }

  ghost function LastSuccess(log: seq<Event>, url: string): int {
    if log == [] then 0
    else if log[|log| - 1].url == url && log[|log| - 1].Success? then log[|log| - 1].at
    else LastSuccess(log[..|log| - 1], url)
  }

  /** A request succeeded more than the decay window after the latest 429. */
  ghost predicate Lapsed(log: seq<Event>, url: string, window: int) {
    log != []
    && var last, init := log[|log| - 1], log[..|log| - 1];
       var times := LimitTimes(init, url);
       if last.url == url && IsLimited(last) then false
       else Lapsed(init, url, window)
            || (last.url == url && last.Success? && times != [] && last.at - times[|times| - 1] > window)
  }

  ghost predicate IsItsHistory(endpoint: Endpoint, url: string, log: seq<Event>, options: Options) {
    && endpoint.cooldownUntil == CooldownDue(log, url)
    && endpoint.nextRequestAt == NextDue(log, url, options.minRequestIntervalMs)
    && endpoint.lastSuccessAt == LastSuccess(log, url)
    && FailuresTell(endpoint, FailuresSinceSuccess(log, url))
    && StrikesTell(endpoint, LimitTimes(log, url), Lapsed(log, url, options.rateLimitFailureDecayMs), options)
  }

  predicate FailuresTell(endpoint: Endpoint, reasons: seq<string>) {
    endpoint.consecutiveFailures == |reasons|
    && endpoint.lastFailureReason == if reasons == [] then "" else reasons[|reasons| - 1]
  }

  ghost predicate StrikesTell(endpoint: Endpoint, times: seq<int>, lapsed: bool, options: Options) {
    if times == [] || lapsed then endpoint.rateLimitStrikes == 0 && endpoint.lastRateLimitedAt == 0
    else endpoint.rateLimitStrikes == StrikeRun(times, options.rateLimitFailureDecayMs)
         && endpoint.lastRateLimitedAt == times[|times| - 1]
  }

  ghost predicate HistoryTells(s: System) {
    && (forall url :: url in s.states ==> IsItsHistory(s.states[url], url, s.log, s.options))
    && AllAskFor(s.log, s.options)
  }

  /** What an event does to the history of its own endpoint, and of the others. */
  lemma HistoryGrows(log: seq<Event>, event: Event, url: string, options: Options)
    ensures var longer, times := log + [event], LimitTimes(log, url);
            var interval, window := options.minRequestIntervalMs, options.rateLimitFailureDecayMs;
            && CooldownDue(longer, url)
               == (if event.url != url || event.Start? then CooldownDue(log, url)
                   else if event.Success? then 0
                   else Max(CooldownDue(log, url), event.until))
            && NextDue(longer, url, interval)
               == (if event.url == url && event.Start? then Max(NextDue(log, url, interval), event.at + interval)
                   else NextDue(log, url, interval))
            && LastSuccess(longer, url)
               == (if event.url == url && event.Success? then event.at else LastSuccess(log, url))
            && FailuresSinceSuccess(longer, url)
               == (if event.url != url || event.Start? then FailuresSinceSuccess(log, url)
                   else if event.Success? then []
                   else FailuresSinceSuccess(log, url) + [event.disposition.reason])
            && LimitTimes(longer, url) == (if event.url == url && IsLimited(event) then times + [event.at] else times)
            && Lapsed(longer, url, window)
               == (if event.url == url && IsLimited(event) then false
                   else Lapsed(log, url, window)
                        || (event.url == url && event.Success? && times != []
                            && event.at - times[|times| - 1] > window))
  {
    assert (log + [event])[..|log|] == log;
    assert LimitTimes(log, url) + [] == LimitTimes(log, url);
  }

  lemma StartTells(endpoint: Endpoint, url: string, log: seq<Event>, options: Options, at: int)
    requires IsItsHistory(endpoint, url, log, options)
    ensures IsItsHistory(Started(endpoint, options, at), url, log + [Start(url, at)], options)
  {
    hide CooldownDue, NextDue, LastSuccess, FailuresSinceSuccess, Lapsed, LimitTimes;
    HistoryGrows(log, Start(url, at), url, options);
  }

  lemma SuccessTells(endpoint: Endpoint, url: string, log: seq<Event>, options: Options, at: int)
    requires IsItsHistory(endpoint, url, log, options)
    requires forall k :: 0 <= k < |LimitTimes(log, url)| ==> LimitTimes(log, url)[k] > 0
    ensures IsItsHistory(Succeeded(endpoint, options, at), url, log + [Success(url, at)], options)
  {
    hide CooldownDue, NextDue, LastSuccess, FailuresSinceSuccess, Lapsed, LimitTimes, StrikeRun;
    HistoryGrows(log, Success(url, at), url, options);
  }

  lemma FailureTells(endpoint: Endpoint, url: string, log: seq<Event>, options: Options, disposition: Disposition,
                     at: int)
    requires IsItsHistory(endpoint, url, log, options)
    requires forall k :: 0 <= k < |LimitTimes(log, url)| ==> LimitTimes(log, url)[k] > 0
    requires IsLimited(FailureOf(endpoint, url, options, disposition, at)) ==>
               StrikesAfter(endpoint, options, disposition, at)
               == StrikeRun(LimitTimes(log, url) + [at], options.rateLimitFailureDecayMs)
    ensures IsItsHistory(FailedRetryably(endpoint, options, disposition, at), url,
                         log + [FailureOf(endpoint, url, options, disposition, at)], options)
  {
    hide CooldownDue, NextDue, LastSuccess, FailuresSinceSuccess, Lapsed, LimitTimes, StrikeRun, CooldownAfter;
    HistoryGrows(log, FailureOf(endpoint, url, options, disposition, at), url, options);
  }

  lemma OthersTell(endpoint: Endpoint, url: string, log: seq<Event>, event: Event, options: Options)
    requires IsItsHistory(endpoint, url, log, options) && event.url != url
    ensures IsItsHistory(endpoint, url, log + [event], options)
  {
    hide CooldownDue, NextDue, LastSuccess, FailuresSinceSuccess, Lapsed, LimitTimes;
    HistoryGrows(log, event, url, options);
  }

  lemma {:induction false} NoHistory(log: seq<Event>, url: string, options: Options)
    requires forall i :: 0 <= i < |log| ==> log[i].url != url
    ensures CooldownDue(log, url) == 0 && NextDue(log, url, options.minRequestIntervalMs) == 0
    ensures LastSuccess(log, url) == 0 && FailuresSinceSuccess(log, url) == [] && LimitTimes(log, url) == []
  {
    if log != [] { NoHistory(log[..|log| - 1], url, options); }
  }

  /** A step that logs `event`. */
  lemma EventTells(s: System, t: System, event: Event)
    requires HistoryTells(s) && event.url in s.states
    requires t.log == s.log + [event] && t.options == s.options && t.states.Keys == s.states.Keys
    requires forall url :: url in s.states && url != event.url ==> t.states[url] == s.states[url]
    requires IsItsHistory(t.states[event.url], event.url, t.log, t.options)
    requires event.Failure? ==> event.disposition.retryable && AsksFor(event, t.options)
    ensures HistoryTells(t)
  {
    hide IsItsHistory, AsksFor;
    forall url | url in t.states ensures IsItsHistory(t.states[url], url, t.log, t.options) {
      if url != event.url { OthersTell(s.states[url], url, s.log, event, s.options); }
    }
  }

  /** A step that logs nothing. */
  lemma NoEventTells(s: System, t: System)
    requires HistoryTells(s) && t.log == s.log && t.options == s.options
    requires forall url :: url in t.states ==>
               if url in s.states
               then t.states[url] == s.states[url].(inFlight := t.states[url].inFlight, kinds := t.states[url].kinds,
                                                    maxConcurrency := t.states[url].maxConcurrency)
               else
                 var endpoint := t.states[url];
                 && endpoint == Endpoint(endpoint.kinds, endpoint.maxConcurrency, 0, 0, 0, 0, 0, "", 0, 0)
                 && forall i :: 0 <= i < |s.log| ==> s.log[i].url != url
    ensures HistoryTells(t)
  {
    hide CooldownDue, NextDue, LastSuccess, FailuresSinceSuccess, Lapsed, LimitTimes, AsksFor;
    forall url | url in t.states ensures IsItsHistory(t.states[url], url, t.log, t.options) {
      if url !in s.states { NoHistory(s.log, url, s.options); }
    }
  }

  lemma VisitTells(s: System, a: Action)
    requires HistoryTells(s) && LogSound(s) && CountsAgree(s) && Enabled(s, a) && a.VisitNext?
    ensures HistoryTells(Apply(s, a))
  {
    hide IsItsHistory, AsksFor, LogSound, CountsAgree, HistoryTells;
    var t := Apply(s, a);
    var url := s.calls[a.id].candidates[s.calls[a.id].phase.index];
    if Inspect(s.states, url, s.calls[a.id].phase.passNow).Admit? {
      AtEndpoint(s, url);
      StartTells(s.states[url], url, s.log, s.options, a.t);
      EventTells(s, t, Start(url, a.t));
    } else {
      SameEndpoints(s, t);
    }
  }

  lemma AtEndpoint(s: System, url: string)
    requires HistoryTells(s) && url in s.states
    ensures IsItsHistory(s.states[url], url, s.log, s.options)
  {}

  lemma SameEndpoints(s: System, t: System)
    requires HistoryTells(s) && t.log == s.log && t.options == s.options && t.states == s.states
    ensures HistoryTells(t)
  {}

  lemma FinishOkTells(s: System, a: Action)
    requires HistoryTells(s) && LogSound(s) && CountsAgree(s) && Enabled(s, a) && a.FinishOk?
    ensures HistoryTells(Apply(s, a))
  {
    hide IsItsHistory, AsksFor, HistoryTells, EndpointAgrees, Succeeded;
    var t := Apply(s, a);
    var url := UrlOf(s.calls[a.id]);
    AtEndpoint(s, url);
    TimesBelow(s.log, url, s.clock);
    SuccessTells(s.states[url], url, s.log, s.options, a.t);
    EventTells(s, t, Success(url, a.t));
  }

  lemma LimitedStrikes(s: System, a: Action)
    requires LogSound(s) && CountsAgree(s) && Enabled(s, a) && a.FinishError?
    requires a.disposition.Some? && a.disposition.value.retryable
    ensures var url := UrlOf(s.calls[a.id]);
            var event := FailureOf(s.states[url], url, s.options, a.disposition.value, a.t);
            IsLimited(event) ==>
              event.strikes == StrikeRun(LimitTimes(s.log, url) + [a.t], s.options.rateLimitFailureDecayMs) >= 1
  {
    hide StrikesAfter, CooldownAfter, Spaced, CooldownsHold, StrikesRefine, StrikeRun;
    var url := UrlOf(s.calls[a.id]);
    var times := LimitTimes(s.log, url);
    TimesBelow(s.log, url, s.clock);
    assert EndpointAgrees(s.states[url], url, s.log, s.options, s.clock);
    if a.disposition.value.reason == "rate-limited" {
      FailureStrikes(s.states[url], times, s.options, s.clock, a.disposition.value, a.t);
    }
  }

  lemma FinishErrorTells(s: System, a: Action)
    requires HistoryTells(s) && LogSound(s) && CountsAgree(s) && Enabled(s, a) && a.FinishError?
    ensures HistoryTells(Apply(s, a))
  {
    hide IsItsHistory, AsksFor, HistoryTells, EndpointAgrees, FailedRetryably, CooldownAfter, StrikesAfter;
    var t := Apply(s, a);
    var url := UrlOf(s.calls[a.id]);
    AtEndpoint(s, url);
    if a.disposition.Some? && a.disposition.value.retryable {
      var event := FailureOf(s.states[url], url, s.options, a.disposition.value, a.t);
      TimesBelow(s.log, url, s.clock);
      LimitedStrikes(s, a);
      FailureAsks(s.states[url], url, s.options, a.disposition.value, a.t);
      FailureTells(s.states[url], url, s.log, s.options, a.disposition.value, a.t);
      EventTells(s, t, event);
    } else {
      NoEventTells(s, t);
    }
  }

  lemma HistoryTellsOn(s: System, a: Action)
    requires HistoryTells(s) && LogSound(s) && CountsAgree(s) && Enabled(s, a)
    ensures HistoryTells(Apply(s, a))
  {
    hide IsItsHistory, AsksFor, EndpointAgrees, Visited, FailedWith, Succeeded, Released, HistoryTells, CountsAgree;
    match a
    case VisitNext(_, _) => VisitTells(s, a);
    case FinishOk(_, _) => FinishOkTells(s, a);
    case FinishError(_, _, _) => FinishErrorTells(s, a);
    case _ => NoEventTells(s, Apply(s, a));
  }

  /**
   * Over every schedule each endpoint's fields are what its history says, and every failure in it asked for exactly the
   * cooldown of its class.
   */
  lemma {:induction false} EndpointsAreTheirHistory(s: System, actions: seq<Action>)
    requires Initial(s) && Schedule(s, actions)
    ensures HistoryTells(After(s, actions)) && After(s, actions).options == s.options
    decreases |actions|
  {
    hide Apply, Enabled, HistoryTells, LogSound, CountsAgree;
    if actions == [] {
      assert HistoryTells(s) by { InitialTells(s); }
    } else {
      var init, a := actions[..|actions| - 1], actions[|actions| - 1];
      EndpointsAreTheirHistory(s, init);
      AdmissionIsSafe(s, init);
      HistoryTellsOn(After(s, init), a);
      OptionsKept(After(s, init), a);
    }
  }

  lemma InitialTells(s: System)
    requires Initial(s)
    ensures HistoryTells(s)
  {}

  /**
   * Unless a request succeeds in between, an endpoint that failed is left alone for the time of its failure's class and
   * for every time that came with the failure.
   */
  lemma FailedEndpointIsLeftAlone(s: System, actions: seq<Action>, i: nat, j: nat)
    requires Initial(s) && Schedule(s, actions)
    requires var log := After(s, actions).log;
             i < j < |log| && log[i].Failure? && log[j].Start? && log[j].url == log[i].url
             && !SucceededBetween(log, log[i].url, i, j)
    ensures var log := After(s, actions).log;
            var d, pause := log[i].disposition, log[j].at - log[i].at;
            && pause >= OrZero(d.cooldownMs)
            && (d.reason == "timeout" ==> pause >= s.options.timeoutCooldownMs)
            && (IsServerError(d.reason) ==> pause >= s.options.serverErrorCooldownMs)
            && (d.reason == "rate-limited" ==>
                  var run := StrikeRun(LimitTimes(log[..i + 1], log[i].url), s.options.rateLimitFailureDecayMs);
                  pause >= OrZero(d.retryAfterMs)
                  && pause >= s.options.rateLimitedCooldownMs * if run > 8 then 8 else run)
  {
    hide IsServerError, StrikeRun, LimitTimes, SucceededBetween, Schedule, After, LogSound, CountsAgree;
    EndpointsAreTheirHistory(s, actions);
    AdmissionIsSafe(s, actions);
    var log := After(s, actions).log;
    assert !StartsInside(log[i], log[j]);
    assert AsksFor(log[i], s.options);
    ServerErrorIsNoOther(log[i].disposition.reason);
  }

  lemma ServerErrorIsNoOther(reason: string)
    ensures IsServerError(reason) ==> reason != "timeout" && reason != "rate-limited"
  {}

  // ---------------------------------------------------------------- registrations

  predicate Registers(a: Action, url: string) { a.Register? && a.url == url }

  ghost predicate IsRegistered(actions: seq<Action>, url: string) {
    exists k :: 0 <= k < |actions| && Registers(actions[k], url)
  }

  /** The kinds and the least concurrency that the registrations of an endpoint name. */
  ghost predicate MeetsRegistrations(endpoint: Endpoint, actions: seq<Action>, url: string) {
    && (forall k :: 0 <= k < |actions| && Registers(actions[k], url) ==>
          endpoint.maxConcurrency <= actions[k].maxConcurrency && actions[k].kind in endpoint.kinds)
    && (exists k :: 0 <= k < |actions| && Registers(actions[k], url)
                    && endpoint.maxConcurrency == actions[k].maxConcurrency)
    && (forall kind :: kind in endpoint.kinds ==>
          exists k :: 0 <= k < |actions| && Registers(actions[k], url) && actions[k].kind == kind)
  }

  /** Only registrations add an endpoint or change its kinds and its limit. */
  lemma TermsStay(s: System, a: Action, url: string)
    requires CountsAgree(s) && Enabled(s, a) && !Registers(a, url)
    ensures url in Apply(s, a).states <==> url in s.states
    ensures url in s.states ==>
              Apply(s, a).states[url].kinds == s.states[url].kinds
              && Apply(s, a).states[url].maxConcurrency == s.states[url].maxConcurrency
  {
    hide CooldownAfter, StrikesAfter, CountsAgree;
    CountsKept(s, a);
  }

  lemma TermsLast(endpoint: Endpoint, other: Endpoint, actions: seq<Action>, a: Action, url: string)
    requires MeetsRegistrations(endpoint, actions, url) && !Registers(a, url)
    requires other.kinds == endpoint.kinds && other.maxConcurrency == endpoint.maxConcurrency
    ensures MeetsRegistrations(other, actions + [a], url)
  {
    var longer := actions + [a];
    assert forall k :: 0 <= k < |actions| ==> longer[k] == actions[k];
    var k :| 0 <= k < |actions| && Registers(actions[k], url) && endpoint.maxConcurrency == actions[k].maxConcurrency;
    assert Registers(longer[k], url);
    forall kind | kind in other.kinds
      ensures exists k :: 0 <= k < |longer| && Registers(longer[k], url) && longer[k].kind == kind
    {
      var k :| 0 <= k < |actions| && Registers(actions[k], url) && actions[k].kind == kind;
      assert Registers(longer[k], url);
    }
  }

  lemma TermsGrow(states: map<string, Endpoint>, actions: seq<Action>, a: Action)
    requires a.Register?
    requires a.url in states ==> MeetsRegistrations(states[a.url], actions, a.url)
    requires a.url !in states ==> !IsRegistered(actions, a.url)
    ensures var after := Registered(states, a.url, a.kind, a.maxConcurrency);
            a.url in after && MeetsRegistrations(after[a.url], actions + [a], a.url)
  {
    var longer, url := actions + [a], a.url;
    var endpoint := Registered(states, url, a.kind, a.maxConcurrency)[url];
    assert forall k :: 0 <= k < |actions| ==> longer[k] == actions[k];
    assert longer[|actions|] == a;
    if url in states && states[url].maxConcurrency <= a.maxConcurrency {
      var k :| 0 <= k < |actions| && Registers(actions[k], url)
               && states[url].maxConcurrency == actions[k].maxConcurrency;
      assert Registers(longer[k], url) && endpoint.maxConcurrency == longer[k].maxConcurrency;
    }
    forall kind | kind in endpoint.kinds
      ensures exists k :: 0 <= k < |longer| && Registers(longer[k], url) && longer[k].kind == kind
    {
      if kind != a.kind {
        var k :| 0 <= k < |actions| && Registers(actions[k], url) && actions[k].kind == kind;
        assert Registers(longer[k], url);
      } else {
        assert Registers(longer[|actions|], url);
      }
    }
  }

  /** Over every schedule the endpoints are those registered, each with all its kinds and its least concurrency. */
  lemma {:induction false} RegistrationsAreKept(s: System, actions: seq<Action>, url: string)
    requires Initial(s) && Schedule(s, actions)
    ensures var t := After(s, actions);
            && (url in t.states <==> IsRegistered(actions, url))
            && (url in t.states ==> MeetsRegistrations(t.states[url], actions, url))
    decreases |actions|
  {
    hide Apply, Enabled, MeetsRegistrations, CountsAgree, LogSound;
    if actions != [] {
      var init, a := actions[..|actions| - 1], actions[|actions| - 1];
      RegistrationsAreKept(s, init, url);
      AdmissionIsSafe(s, init);
      assert actions == init + [a];
      var before := After(s, init);
      RegisteredGrows(init, a, url);
      if Registers(a, url) {
        TermsGrow(before.states, init, a);
        RegisterApplied(before, a);
      } else {
        TermsStay(before, a, url);
        if url in before.states { TermsLast(before.states[url], Apply(before, a).states[url], init, a, url); }
      }
    }
  }

  lemma RegisteredGrows(actions: seq<Action>, a: Action, url: string)
    ensures IsRegistered(actions + [a], url) <==> IsRegistered(actions, url) || Registers(a, url)
  {
    var longer := actions + [a];
    assert longer[|actions|] == a;
    assert forall k :: 0 <= k < |actions| ==> longer[k] == actions[k];
    if IsRegistered(actions, url) {
      var k :| 0 <= k < |actions| && Registers(actions[k], url);
      assert Registers(longer[k], url);
    }
    if Registers(a, url) { assert Registers(longer[|actions|], url); }
  }

  lemma RegisterApplied(s: System, a: Action)
    requires a.Register?
    ensures Apply(s, a).states == Registered(s.states, a.url, a.kind, a.maxConcurrency)
  {}

  // ---------------------------------------------------------------- calls

  /** When the endpoint lets a request in again, as a pass with this reading of the clock sees it; None when it does. */
  ghost function ClosedUntil(s: System, url: string, passNow: int): Option<int>
    requires url in s.states
  {
    var cooledDownAt, nextAt := CooldownDue(s.log, url), NextDue(s.log, url, s.options.minRequestIntervalMs);
    if cooledDownAt > passNow then Some(cooledDownAt)
    else if nextAt > passNow then Some(nextAt)
    else if |Executors(s.calls, url)| >= s.states[url].maxConcurrency then Some(passNow + 25)
    else None
  }

  /** The candidate that a scanning call looks at next. */
  function NextCandidate(call: Call): Option<string> {
    if call.phase.Scanning? && call.phase.index < |call.candidates| then Some(call.candidates[call.phase.index])
    else None
  }

  ghost function ReadingOf(s: System, id: nat): seq<int> {
    if id in s.calls && NextCandidate(s.calls[id]).Some? && NextCandidate(s.calls[id]).value in s.states then
      var closed := ClosedUntil(s, NextCandidate(s.calls[id]).value, s.calls[id].phase.passNow);
      if closed.Some? then [closed.value] else []
    else []
  }

  /** The times at which the candidates of its present pass that the call found closed let requests in again. */
  ghost function Readings(s: System, actions: seq<Action>, id: nat): seq<int>
    decreases |actions|
  {
    if actions == [] then []
    else
      var init, a := actions[..|actions| - 1], actions[|actions| - 1];
      if a.BeginPass? && a.id == id then []
      else Readings(s, init, id) + if a.VisitNext? && a.id == id then ReadingOf(After(s, init), id) else []
  }

  ghost predicate IsLeast(m: Option<int>, values: seq<int>) {
    if values == [] then m == None
    else m.Some? && m.value in values && forall v :: v in values ==> m.value <= v
  }

  ghost predicate InPass(call: Call) { call.phase.Scanning? || call.phase.Executing? }

  function EarliestOf(call: Call): Option<int>
    requires call.phase.Scanning? || call.phase.Executing?
  {
    call.phase.earliest
  }

  lemma LeastGrows(m: Option<int>, values: seq<int>, v: int)
    requires IsLeast(m, values)
    ensures IsLeast(Later(m, v), values + [v])
  {
    assert v in values + [v];
    forall w | w in values + [v] ensures Later(m, v).value <= w { assert w in values || w == v; }
    if m.Some? { assert m.value in values + [v]; }
  }

  /** A visit starts a request exactly when the endpoint is registered and open; else the pass goes on. */
  lemma VisitExactly(s: System, a: Action)
    requires HistoryTells(s) && CountsAgree(s) && Enabled(s, a) && a.VisitNext?
    ensures var t, url := Apply(s, a), NextCandidate(s.calls[a.id]).value;
            var call, after := s.calls[a.id], Apply(s, a).calls[a.id];
            && InPass(after) && after.candidates == call.candidates && after.deadline == call.deadline
            && after.phase.passNow == call.phase.passNow
            && if url in s.states && ClosedUntil(s, url, call.phase.passNow) == None
               then t.log == s.log + [Start(url, a.t)] && after.phase.Executing?
                    && after.phase.index == call.phase.index && EarliestOf(after) == EarliestOf(call)
               else t.log == s.log && after.phase.Scanning? && after.phase.index == call.phase.index + 1
                    && EarliestOf(after) == if url in s.states
                         then Later(EarliestOf(call), ClosedUntil(s, url, call.phase.passNow).value)
                         else EarliestOf(call)
  {
    hide CooldownDue, NextDue, LastSuccess, FailuresSinceSuccess, Lapsed, LimitTimes, AsksFor, Started;
    var url := NextCandidate(s.calls[a.id]).value;
    if url in s.states { AtEndpoint(s, url); }
  }

  /** While a pass goes on, the call remembers the earliest of the times it has read. */
  ghost predicate PassTells(s: System, readings: seq<int>, id: nat) {
    id in s.calls && InPass(s.calls[id]) ==> IsLeast(EarliestOf(s.calls[id]), readings)
  }

  lemma PassTellsOn(s: System, a: Action, readings: seq<int>, id: nat)
    requires HistoryTells(s) && CountsAgree(s) && Enabled(s, a) && PassTells(s, readings, id)
    ensures PassTells(Apply(s, a),
                      if a.BeginPass? && a.id == id then []
                      else readings + (if a.VisitNext? && a.id == id then ReadingOf(s, id) else []), id)
  {
    hide HistoryTells, ClosedUntil, IsLeast, Succeeded, Started, FailedRetryably, Registered;
    assert readings + [] == readings;
    if a.BeginPass? && a.id == id {
      assert IsLeast(None, []) by { NothingIsLeast(); }
    } else if a.VisitNext? && a.id == id {
      VisitExactly(s, a);
      var url := NextCandidate(s.calls[id]).value;
      if url in s.states && ClosedUntil(s, url, s.calls[id].phase.passNow).Some? {
        LeastGrows(EarliestOf(s.calls[id]), readings, ClosedUntil(s, url, s.calls[id].phase.passNow).value);
      }
    } else {
      OtherActionsKeepThePass(s, a, id);
    }
  }

  lemma NothingIsLeast()
    ensures IsLeast(None, [])
  {}

  lemma OtherActionsKeepThePass(s: System, a: Action, id: nat)
    requires Enabled(s, a) && CountsAgree(s) && !((a.BeginPass? || a.VisitNext?) && a.id == id)
    ensures id in Apply(s, a).calls && InPass(Apply(s, a).calls[id]) ==>
              id in s.calls && InPass(s.calls[id]) && EarliestOf(Apply(s, a).calls[id]) == EarliestOf(s.calls[id])
  {
    hide Succeeded, Started, FailedRetryably, Registered;
  }

  lemma {:induction false} PassesTell(s: System, actions: seq<Action>, id: nat)
    requires Initial(s) && Schedule(s, actions)
    ensures PassTells(After(s, actions), Readings(s, actions, id), id)
    decreases |actions|
  {
    hide Apply, Enabled, HistoryTells, CountsAgree, LogSound, PassTells, ReadingOf;
    if actions == [] {
      assert PassTells(s, [], id) by { NoPassYet(s, id); }
    } else {
      var init, a := actions[..|actions| - 1], actions[|actions| - 1];
      PassesTell(s, init, id);
      AdmissionIsSafe(s, init);
      EndpointsAreTheirHistory(s, init);
      PassTellsOn(After(s, init), a, Readings(s, init, id), id);
    }
  }

  lemma NoPassYet(s: System, id: nat)
    requires Initial(s)
    ensures PassTells(s, [], id)
  {}

  /**
   * A pass that found no endpoint gives up exactly when the deadline or one of the times it read has come; otherwise
   * the call sleeps until the earliest of them.
   */
  lemma PassEndsExactly(s: System, actions: seq<Action>, id: nat, t: int)
    requires Initial(s) && Schedule(s, actions) && Enabled(After(s, actions), EndPass(id, t))
    ensures var before := After(s, actions);
            var times := Readings(s, actions, id) + [before.calls[id].deadline];
            var phase := Apply(before, EndPass(id, t)).calls[id].phase;
            && (phase.NoEndpoint? <==> exists time :: time in times && time <= t)
            && (!phase.NoEndpoint? ==> phase.Sleeping? && IsLeast(Some(phase.until), times))
  {
    hide Schedule, After, Readings;
    PassesTell(s, actions, id);
    var before := After(s, actions);
    var readings, deadline := Readings(s, actions, id), before.calls[id].deadline;
    var times := readings + [deadline];
    var earliest := EarliestOf(before.calls[id]);
    LeastGrows(earliest, readings, deadline);
    assert IsLeast(Later(earliest, deadline), times);
  }

  /** The call has the named candidates of its invocation, in order, and the deadline set then. */
  ghost predicate KeepsTerms(call: Call, a: Action) {
    && a.Invoke? && call.deadline == a.t + a.maxWaitMs
    && IsSubsequence(call.candidates, a.candidates)
    && multiset(call.candidates) == multiset(a.candidates)["" := 0]
  }

  function IsNamed(): string -> bool { (url: string) => url != "" }

  lemma NamedGrows(named: seq<string>, candidates: seq<string>, url: string)
    requires multiset(named) == multiset(candidates)["" := 0]
    ensures var longer := if url == "" then named else named + [url];
            multiset(longer) == multiset(candidates + [url])["" := 0]
  {}

  lemma {:induction false} NamedCandidates(candidates: seq<string>)
    ensures var named := Filter(IsNamed(), candidates);
            IsSubsequence(named, candidates) && multiset(named) == multiset(candidates)["" := 0]
  {
    if candidates != [] {
      hide Filter, IsSubsequence;
      var init, last := candidates[..|candidates| - 1], candidates[|candidates| - 1];
      NamedCandidates(init);
      assert candidates == init + [last];
      FilterSnoc(IsNamed(), init, last);
      SubsequenceSnoc(Filter(IsNamed(), init), init, last);
      NamedGrows(Filter(IsNamed(), init), init, last);
    }
  }

  lemma TermsOfCallsStay(s: System, a: Action, id: nat)
    requires Enabled(s, a) && CountsAgree(s) && id in Apply(s, a).calls && !(a.Invoke? && a.id == id)
    ensures id in s.calls && Apply(s, a).calls[id].candidates == s.calls[id].candidates
            && Apply(s, a).calls[id].deadline == s.calls[id].deadline
  {
    hide Succeeded, Started, FailedRetryably, Registered;
  }

  /** An invocation waits for its first pass, or finds no endpoint when it names none. */
  lemma InvokedExactly(s: System, a: Action)
    requires a.Invoke?
    ensures var after := Apply(s, a);
            && a.id in after.calls && KeepsTerms(after.calls[a.id], a)
            && after.calls[a.id].phase == (if exists url :: url in a.candidates && url != "" then Ready else NoEndpoint)
  {
    NamedCandidates(a.candidates);
    var named := Filter(IsNamed(), a.candidates);
    assert named != [] ==> named[0] in named;
  }

  /** Over every schedule each call works with what its invocation named. */
  lemma {:induction false} CallsKeepTheirTerms(s: System, actions: seq<Action>, id: nat)
    requires Initial(s) && Schedule(s, actions) && id in After(s, actions).calls
    ensures exists k :: 0 <= k < |actions| && actions[k].Invoke? && actions[k].id == id
                        && KeepsTerms(After(s, actions).calls[id], actions[k])
    decreases |actions|
  {
    hide Apply, Enabled, CountsAgree, LogSound, IsSubsequence;
    var init, a := actions[..|actions| - 1], actions[|actions| - 1];
    if a.Invoke? && a.id == id {
      InvokedExactly(After(s, init), a);
    } else {
      AdmissionIsSafe(s, init);
      TermsOfCallsStay(After(s, init), a, id);
      CallsKeepTheirTerms(s, init, id);
      var k :| 0 <= k < |init| && init[k].Invoke? && init[k].id == id && KeepsTerms(After(s, init).calls[id], init[k]);
      assert actions[k] == init[k];
    }
  }
}
