/** When a cooldown is kept whatever the schedule: exactly on endpoints that serve one request at a time. */
module RpcCooldown {
  import opened Wrappers
  import opened RpcEndpointRegistry
  import opened RpcAdmission
  import opened Sequences

  /** No start on the endpoint comes before the end that an earlier failure of it asked for. */
  ghost predicate KeepsCooldowns(log: seq<Event>, url: string) {
    forall i, j :: 0 <= i < j < |log| && log[i].Failure? && log[i].url == url && log[j].Start? && log[j].url == url ==>
      log[i].until <= log[j].at
  }

  predicate IsUnused(endpoint: Endpoint) {
    && endpoint.inFlight == 0 && endpoint.cooldownUntil == 0 && endpoint.nextRequestAt == 0
    && endpoint.rateLimitStrikes == 0 && endpoint.lastRateLimitedAt == 0
  }

  /** A registry after its registrations and before any call. */
  ghost predicate Unused(s: System) {
    && s.calls == map[] && s.log == [] && s.clock > 0 && s.options.minRequestIntervalMs >= 0
    && forall url :: url in s.states ==> IsUnused(s.states[url])
  }

  ghost predicate AllRegister(actions: seq<Action>) {
    forall i :: 0 <= i < |actions| ==> actions[i].Register?
  }

  lemma {:induction false} RegistrationsLeaveUnused(s: System, actions: seq<Action>)
    requires Initial(s) && AllRegister(actions)
    ensures Unused(After(s, actions))
    decreases |actions|
  {
    if actions != [] {
      RegistrationsLeaveUnused(s, actions[..|actions| - 1]);
      assert actions[|actions| - 1].Register?;
    }
  }

  lemma UnusedIsSound(s: System)
    requires Unused(s)
    ensures CountsAgree(s) && LogSound(s)
  {
    assert forall url :: url in s.states ==> Executors(s.calls, url) == {};
  }

  // ---------------------------------------------------------------- one request at a time

  /** The endpoint serves one request at a time, and while it serves one every earlier cooldown has run out. */
  ghost predicate Serial(s: System, url: string) {
    && url in s.states && s.states[url].maxConcurrency <= 1 && s.states[url].inFlight <= 1
    && KeepsCooldowns(s.log, url)
    && forall i :: 0 <= i < |s.log| && s.log[i].Failure? && s.log[i].url == url ==>
         || s.log[i].until <= s.clock
         || (s.states[url].inFlight <= 0 && s.log[i].until <= s.states[url].cooldownUntil)
  }

  lemma StartKeepsSerial(s: System, a: Action, url: string)
    requires Serial(s, url) && LogSound(s) && Enabled(s, a) && a.VisitNext?
    ensures Serial(Apply(s, a), url)
  {
    hide EndpointAgrees, Spaced, CooldownsHold, StrikesRefine;
  }

  lemma FinishKeepsSerial(s: System, a: Action, url: string)
    requires Serial(s, url) && CountsAgree(s) && Enabled(s, a) && (a.FinishOk? || a.FinishError?)
    ensures Serial(Apply(s, a), url)
  {
    hide CooldownAfter, StrikesAfter, CountsAgree;
    CountsKept(s, a);
  }

  lemma QuietKeepsSerial(s: System, a: Action, url: string)
    requires Serial(s, url) && Enabled(s, a) && !a.VisitNext? && !a.FinishOk? && !a.FinishError?
    ensures Serial(Apply(s, a), url)
  {
    hide Visited, FailedWith, Succeeded;
    assert Apply(s, a).log == s.log;
  }

  lemma SerialKept(s: System, a: Action, url: string)
    requires Serial(s, url) && CountsAgree(s) && LogSound(s) && Enabled(s, a)
    ensures Serial(Apply(s, a), url)
  {
    hide Apply, Enabled, Serial, CountsAgree, LogSound;
    match a
    case VisitNext(_, _) => StartKeepsSerial(s, a, url);
    case FinishOk(_, _) => FinishKeepsSerial(s, a, url);
    case FinishError(_, _, _) => FinishKeepsSerial(s, a, url);
    case _ => QuietKeepsSerial(s, a, url);
  }

  lemma {:induction false} SerialThroughout(s: System, actions: seq<Action>, url: string)
    requires Unused(s) && url in s.states && s.states[url].maxConcurrency <= 1 && Schedule(s, actions)
    ensures var t := After(s, actions);
            CountsAgree(t) && LogSound(t) && Serial(t, url)
    decreases |actions|
  {
    hide CountsAgree, LogSound, Enabled, Apply;
    if actions == [] {
      UnusedIsSound(s);
    } else {
      var init, a := actions[..|actions| - 1], actions[|actions| - 1];
      SerialThroughout(s, init, url);
      CountsKept(After(s, init), a);
      LogSoundKept(After(s, init), a);
      SerialKept(After(s, init), a, url);
    }
  }

  // ---------------------------------------------------------------- two requests at a time

  lemma Extend(s: System, actions: seq<Action>, a: Action)
    requires Schedule(s, actions) && Enabled(After(s, actions), a)
    ensures Schedule(s, actions + [a]) && After(s, actions + [a]) == Apply(After(s, actions), a)
  {
    assert (actions + [a])[..|actions|] == actions;
  }

  lemma NothingYet(s: System)
    ensures Schedule(s, []) && After(s, []) == s
  {}

  /** Two requests in flight on an endpoint, and a third call that has just come for it. */
  ghost predicate TwoInFlight(s: System, url: string) {
    && s.clock > 0
    && 1 in s.calls && 2 in s.calls && 3 in s.calls
    && s.calls[1].phase.Executing? && s.calls[1].candidates == [url] && s.calls[1].phase.index == 0
    && s.calls[2].phase.Executing? && UrlOf(s.calls[2]) == url
    && s.calls[3] == Call([url], s.clock, Ready)
    && url in s.states && s.states[url].inFlight == 2 && s.states[url].nextRequestAt <= s.clock
    && s.states[url].maxConcurrency > 1
  }

  /** The first request fails, its call ends its pass, and the second request succeeds. */
  lemma FailThenSucceed(s: System, url: string, limited: Disposition)
    requires TwoInFlight(s, url) && limited.retryable
    ensures var s1 := Apply(s, FinishError(1, Some(limited), s.clock));
            var s2 := Apply(s1, EndPass(1, s.clock));
            var s3 := Apply(s2, FinishOk(2, s.clock));
            && Enabled(s, FinishError(1, Some(limited), s.clock)) && Enabled(s1, EndPass(1, s.clock))
            && Enabled(s2, FinishOk(2, s.clock))
            && s3.log == s.log + [FailureOf(s.states[url], url, s.options, limited, s.clock)] + [Success(url, s.clock)]
            && 3 in s3.calls && s3.calls[3] == s.calls[3] && s3.clock == s.clock
            && url in s3.states && s3.states[url].cooldownUntil == 0 && s3.states[url].inFlight == 0
            && s3.states[url].nextRequestAt == s.states[url].nextRequestAt
            && s3.states[url].maxConcurrency == s.states[url].maxConcurrency
  {
    hide CooldownAfter, StrikesAfter;
  }

  lemma ThenStart(s: System, url: string)
    requires 3 in s.calls && s.calls[3].candidates == [url] && s.calls[3].phase.Ready? && url in s.states
             && s.clock >= 0
    requires s.states[url].cooldownUntil == 0 && s.states[url].inFlight == 0
    requires s.states[url].nextRequestAt <= s.clock && s.states[url].maxConcurrency > 0
    ensures var s1 := Apply(s, BeginPass(3, s.clock));
            && Enabled(s, BeginPass(3, s.clock)) && Enabled(s1, VisitNext(3, s.clock))
            && Apply(s1, VisitNext(3, s.clock)).log == s.log + [Start(url, s.clock)]
  {}

  /** One of two concurrent requests fails, the other succeeds: the next request starts inside the cooldown. */
  lemma SuccessCutsCooldownShort(s: System, actions: seq<Action>, url: string, limited: Disposition)
    returns (later: seq<Action>)
    requires Schedule(s, actions) && TwoInFlight(After(s, actions), url) && limited.retryable
    requires var t := After(s, actions); CooldownAfter(t.states[url], t.options, limited, t.clock) > 0
    ensures Schedule(s, later) && !KeepsCooldowns(After(s, later).log, url)
  {
    hide Apply, Enabled, CooldownAfter, StrikesAfter;
    var s0 := After(s, actions);
    var clock := s0.clock;
    FailThenSucceed(s0, url, limited);
    var some1 := actions + [FinishError(1, Some(limited), clock)];
    Extend(s, actions, FinishError(1, Some(limited), clock));
    var some2 := some1 + [EndPass(1, clock)];
    Extend(s, some1, EndPass(1, clock));
    var some3 := some2 + [FinishOk(2, clock)];
    Extend(s, some2, FinishOk(2, clock));
    ThenStart(After(s, some3), url);
    var some4 := some3 + [BeginPass(3, clock)];
    Extend(s, some3, BeginPass(3, clock));
    later := some4 + [VisitNext(3, clock)];
    Extend(s, some4, VisitNext(3, clock));
    var log := After(s, later).log;
    assert log[|s0.log|] == FailureOf(s0.states[url], url, s0.options, limited, clock);
    assert log[|s0.log| + 2] == Start(url, clock);
  }

  function Arrival(id: nat, url: string, t: int): Action { Invoke(id, [url], 0, t) }

  lemma ArrivalEffect(s: System, id: nat, url: string, t: int)
    requires url != "" && id !in s.calls && s.clock <= t
    ensures Enabled(s, Arrival(id, url, t))
    ensures Apply(s, Arrival(id, url, t)) == s.(calls := s.calls[id := Call([url], t, Ready)], clock := t)
  {
    assert [url][1..] == [];
    assert Apply(s, Arrival(id, url, t)).calls[id].candidates == [url];
  }

  /** What a call by `id` leaves that comes at `t` and finds a free slot at once. */
  lemma CallAndStart(s: System, actions: seq<Action>, url: string, id: nat, t: int) returns (more: seq<Action>)
    requires Schedule(s, actions) && url != ""
    requires var u := After(s, actions);
             && id !in u.calls && u.clock <= t && url in u.states
             && u.states[url].cooldownUntil <= t && u.states[url].nextRequestAt <= t
             && u.states[url].inFlight < u.states[url].maxConcurrency
    ensures var u, v := After(s, actions), After(s, more);
            && Schedule(s, more)
            && v.clock == t && v.options == u.options
            && v.calls == u.calls[id := Call([url], t, Executing(t, 0, None))]
            && v.states == u.states[url := Started(u.states[url], u.options, t)]
  {
    hide Filter;
    var u := After(s, actions);
    ArrivalEffect(u, id, url, t);
    var some1 := actions + [Arrival(id, url, t)];
    Extend(s, actions, Arrival(id, url, t));
    var some2 := some1 + [BeginPass(id, t)];
    Extend(s, some1, BeginPass(id, t));
    more := some2 + [VisitNext(id, t)];
    Extend(s, some2, VisitNext(id, t));
  }

  /** Any endpoint that may serve two requests gets there, one request interval after the other. */
  lemma TwoInFlightArises(s: System, url: string) returns (actions: seq<Action>)
    requires Unused(s) && url != "" && url in s.states && s.states[url].maxConcurrency > 1
    ensures Schedule(s, actions) && TwoInFlight(After(s, actions), url) && After(s, actions).options == s.options
  {
    hide Apply, Enabled, After, Schedule;
    var interval := s.options.minRequestIntervalMs;
    NothingYet(s);
    var one := CallAndStart(s, [], url, 1, s.clock);
    var two := CallAndStart(s, one, url, 2, s.clock + interval);
    var t := s.clock + 2 * interval;
    ArrivalEffect(After(s, two), 3, url, t);
    actions := two + [Arrival(3, url, t)];
    Extend(s, two, Arrival(3, url, t));
  }

  const BUSY := Disposition(true, "busy", Some(1), None)

  /** With room for two requests some schedule starts a request inside a cooldown. */
  lemma TwoSlotsCutACooldown(s: System, url: string) returns (later: seq<Action>)
    requires Unused(s) && url != "" && url in s.states && s.states[url].maxConcurrency > 1
    ensures Schedule(s, later) && !KeepsCooldowns(After(s, later).log, url)
  {
    hide After, Schedule;
    var actions := TwoInFlightArises(s, url);
    later := SuccessCutsCooldownShort(s, actions, url, BUSY);
  }

  /**
   * Cooldowns of an endpoint are kept outright, over every schedule of calls after the registrations, exactly when the
   * endpoint is registered for one request at a time.
   */
  lemma CooldownsAreKeptIffSerial(s: System, registrations: seq<Action>, url: string)
    requires Initial(s) && AllRegister(registrations) && url != "" && url in After(s, registrations).states
    ensures var registry := After(s, registrations);
            (forall calls :: Schedule(registry, calls) ==> KeepsCooldowns(After(registry, calls).log, url))
            <==> registry.states[url].maxConcurrency <= 1
  {
    hide After, Schedule, KeepsCooldowns;
    var registry := After(s, registrations);
    RegistrationsLeaveUnused(s, registrations);
    if registry.states[url].maxConcurrency <= 1 {
      forall calls | Schedule(registry, calls) ensures KeepsCooldowns(After(registry, calls).log, url) {
        SerialThroughout(registry, calls, url);
      }
    } else {
      var later := TwoSlotsCutACooldown(registry, url);
    }
  }
}
