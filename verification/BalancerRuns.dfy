/** What holds over runs of the balancer: consistency, a good launch, and a bound on switching. */
module BalancerRuns {
  import opened Wrappers
  import opened Accounts
  import opened UsageSamples
  import opened Balancer
  import opened BalancerChoice
  import opened AccountCommands
  import opened Sets

  predicate IsSoundAuth(m: Auth) {
    IsWellFormed(m.registry) && IsConsistent(m.registry, m.state)
  }

  // ---- Consistency -----------------------------------------------------------------

  /** Merging samples touches nothing but what is known about the accounts. */
  lemma {:induction false} WithSamplesKeeps(m: Auth, samples: seq<Sample>, active: Name, now: Time)
    ensures var m' := WithSamples(m, samples, active, now);
      m' == m.(state := m.state.(accounts := m'.state.accounts))
  {
    if samples == [] {
    } else {
      WithSamplesKeeps(m, samples[..|samples| - 1], active, now);
    }
  }

  lemma QueueKeeps(m: Auth, name: Name, now: Time, reason: PendingReason)
    requires IsSoundAuth(m)
    ensures var s := ClearDegraded(QueuePending(m, name, now, reason));
      IsConsistent(m.registry, s) && s.active == m.state.active && s.accounts == m.state.accounts
  {
  }

  lemma RefreshedKeeps(m: Auth, now: Time)
    requires IsSoundAuth(m)
    ensures IsConsistent(m.registry, Refreshed(m, now))
    ensures Refreshed(m, now).active == m.state.active && Refreshed(m, now).accounts == m.state.accounts
  {
    if ShouldQueueFallback(m, m.state.active, now) {
      QueueKeeps(m, FallbackTarget(m, Fresh, m.state.active, now), now, NearLimit);
    } else {
      QueueKeeps(m, m.registry.preferred, now, PreferredRestored);
    }
  }

  lemma EvaluatedKeeps(m: Auth, samples: seq<Sample>, now: Time)
    requires IsSoundAuth(m)
    ensures var m' := EvaluatedUsage(m, samples, now);
      && IsSoundAuth(m') && m'.registry == m.registry && m'.settings == m.settings
      && m'.state.active == m.state.active
      && m'.state.accounts == WithSamples(m, samples, m.state.active, now).state.accounts
  {
    WithSamplesKeeps(m, samples, m.state.active, now);
    RefreshedKeeps(WithSamples(m, samples, m.state.active, now), now);
  }

  /** Activation is asked only for enabled accounts, and leaves a consistent state. */
  lemma ActivateKeeps(m: Auth, name: Name, now: Time, copies: bool)
    requires IsWellFormed(m.registry) && IsEnabled(m.registry, name)
    ensures Activate(m, name, now, copies).Ok? <==> copies
    ensures copies ==> IsConsistent(m.registry, Activate(m, name, now, copies).value)
  {
    ActivatedIsConsistent(m.registry, m.state, name, now);
  }

  lemma LaunchKeeps(m: Auth, samples: seq<Sample>, now: Time, copies: bool)
    requires IsSoundAuth(m)
    ensures Launch(m, samples, now, copies).Ok? ==> IsConsistent(m.registry, Launch(m, samples, now, copies).value)
  {
    EvaluatedKeeps(m, samples, now);
    var e := EvaluatedUsage(m, samples, now);
    LaunchChoiceIs(e, now);
    if e.state.pendingActive != "" { ActivateKeeps(e, e.state.pendingActive, now, copies); }
    var name := LaunchChoice(e, now);
    if name != "" && name != e.state.active { ActivateKeeps(e, name, now, copies); }
  }

  lemma LimitedKeeps(m: Auth, now: Time, copies: bool)
    requires IsSoundAuth(m)
    ensures IsSoundAuth(Limited(m, now, copies).0)
    ensures Limited(m, now, copies).0.registry == m.registry && Limited(m, now, copies).0.settings == m.settings
  {
    if m.state.active != "" {
      var d := MarkedDepleted(m, now);
      FallbackTargetIs(d, Executable, d.state.active, now);
      var target := FallbackTarget(d, Executable, d.state.active, now);
      if target != "" { ActivateKeeps(d, target, now, copies); }
    }
  }

  lemma RateLimitedKeeps(m: Auth, samples: seq<Sample>, now: Time, copies: bool)
    requires IsSoundAuth(m)
    ensures var m' := RateLimited(m, samples, now, copies).0;
      IsSoundAuth(m') && m'.registry == m.registry && m'.settings == m.settings
  {
    EvaluatedKeeps(m, samples, now);
    LimitedKeeps(EvaluatedUsage(m, samples, now), now, copies);
  }

  // ---- Launch ----------------------------------------------------------------------------

  /** Activating an account does not make it any less eligible. */
  lemma ActivatedStaysFresh(m: Auth, name: Name, now: Time)
    requires FreshEligible(m, name, now)
    ensures FreshEligible(m.(state := ClearDegraded(Activated(m.state, name, now))), name, now)
  {
  }

  /**
   After a successful launch, if some account is fresh-eligible once the
   samples are merged, then the active account is, no switch is pending and
   the balancer is not degraded, under both policies.
   */
  lemma LaunchPicksFresh(m: Auth, samples: seq<Sample>, now: Time, copies: bool)
    requires IsSoundAuth(m) && Launch(m, samples, now, copies).Ok?
    requires exists name :: FreshEligible(WithSamples(m, samples, m.state.active, now), name, now)
    ensures var s := Launch(m, samples, now, copies).value;
      && FreshEligible(m.(state := s), s.active, now)
      && s.pendingActive == "" && !s.restartRequired && !s.degraded
  {
    EvaluatedKeeps(m, samples, now);
    WithSamplesKeeps(m, samples, m.state.active, now);
    var merged, e := WithSamples(m, samples, m.state.active, now), EvaluatedUsage(m, samples, now);
    forall name ensures FreshEligible(e, name, now) == FreshEligible(merged, name, now) { }
    var some :| FreshEligible(merged, some, now);
    assert FreshEligible(e, some, now);
    LaunchChoiceIs(e, now);
    var pending, name := e.state.pendingActive, LaunchChoice(e, now);
    if pending != "" && pending != e.state.active && FreshEligible(e, pending, now) {
      ActivatedStaysFresh(e, pending, now);
    } else if name != e.state.active {
      ActivatedStaysFresh(e, name, now);
    }
  }

  // ---- Rate limits ------------------------------------------------------------------------

  /** Something that happens to a running balancer: a tick, or a rate limit. */
  datatype Beat = Beat(now: Time, samples: seq<Sample>, limited: bool, copies: bool)

  function Next(m: Auth, b: Beat): Auth {
    if b.limited then RateLimited(m, b.samples, b.now, b.copies).0 else EvaluatedUsage(m, b.samples, b.now)
  }

  predicate Switches(m: Auth, b: Beat) {
    b.limited && RateLimited(m, b.samples, b.now, b.copies).1.SwitchedTo?
  }

  /** How many of the beats switch the active account. */
  function CountSwitches(m: Auth, beats: seq<Beat>): nat
    decreases |beats|
  {
    if beats == [] then 0
    else (if Switches(m, beats[0]) then 1 else 0) + CountSwitches(Next(m, beats[0]), beats[1..])
  }

  function EnabledNames(r: Registry): set<Name> {
    set a | a in r.accounts && a.enabled :: a.name
  }

  /** The account rests at least until the deadline. */
  predicate Rests(m: Auth, name: Name, deadline: Time) {
    var a := StateOf(m.state, name);
    a.retryAfter.Some? && a.retryAfter.value >= deadline
  }

  /** The accounts that could still be switched to: enabled, not active, not resting. */
  function Choices(m: Auth, deadline: Time): set<Name> {
    set name | name in EnabledNames(m.registry) && name != m.state.active && !Rests(m, name, deadline)
  }

  /** The active account's retry time is blank, or it rests: a rate limit will leave it resting. */
  predicate IsSettled(m: Auth, deadline: Time) {
    StateOf(m.state, m.state.active).retryAfter.None? || Rests(m, m.state.active, deadline)
  }

  predicate NoSuccess(samples: seq<Sample>) {
    forall i :: 0 <= i < |samples| ==> !samples[i].check.Sampled?
  }

  /** Without a successful sample no retry time changes. */
  lemma {:induction false} FailedSamplesKeepRetry(m: Auth, samples: seq<Sample>, active: Name, now: Time)
    requires NoSuccess(samples)
    ensures forall name ::
      StateOf(WithSamples(m, samples, active, now).state, name).retryAfter == StateOf(m.state, name).retryAfter
  {
    if samples == [] {
    } else {
      FailedSamplesKeepRetry(m, samples[..|samples| - 1], active, now);
    }
  }

  lemma EvaluationKeepsChoices(m: Auth, samples: seq<Sample>, now: Time, deadline: Time)
    requires IsSoundAuth(m) && NoSuccess(samples)
    ensures var e := EvaluatedUsage(m, samples, now);
      Choices(e, deadline) == Choices(m, deadline) && (IsSettled(e, deadline) <==> IsSettled(m, deadline))
  {
    EvaluatedKeeps(m, samples, now);
    FailedSamplesKeepRetry(m, samples, m.state.active, now);
    forall name
      ensures StateOf(EvaluatedUsage(m, samples, now).state, name).retryAfter == StateOf(m.state, name).retryAfter
    {
    }
  }

  /** Marking the active account depleted leaves the others as they are, and a settled one resting. */
  lemma DepletedChoices(m: Auth, now: Time, deadline: Time)
    requires now < deadline <= now + m.settings.pollInterval
    ensures var d := MarkedDepleted(m, now);
      && Choices(d, deadline) == Choices(m, deadline)
      && (forall name :: name != m.state.active ==> StateOf(d.state, name) == StateOf(m.state, name))
      && (IsSettled(m, deadline) ==> Rests(d, m.state.active, deadline) && IsSettled(d, deadline))
  {
    var d := MarkedDepleted(m, now);
    assert forall name :: name != m.state.active ==> StateOf(d.state, name) == StateOf(m.state, name);
  }

  /** A switch uses up its target, and gives back the account it leaves unless that rests. */
  lemma ActivatedChoices(d: Auth, target: Name, now: Time, deadline: Time)
    requires target in Choices(d, deadline)
    ensures var m' := d.(state := ClearDegraded(Activated(d.state, target, now)));
      && IsSettled(m', deadline)
      && Choices(m', deadline)
         <= Choices(d, deadline) - {target} + if Rests(d, d.state.active, deadline) then {} else {d.state.active}
  {
  }

  /** A switch in the window goes to a choice, and that choice is used up. */
  lemma LimitUsesChoice(m: Auth, now: Time, copies: bool, deadline: Time)
    requires IsSoundAuth(m) && now < deadline <= now + m.settings.pollInterval
    ensures var (m', decision) := Limited(m, now, copies);
      && (!decision.SwitchedTo? ==> Choices(m', deadline) <= Choices(m, deadline))
      && (IsSettled(m, deadline) ==> IsSettled(m', deadline))
      && (decision.SwitchedTo? ==>
            && decision.name in Choices(m, deadline) && IsSettled(m', deadline)
            && Choices(m', deadline)
               <= Choices(m, deadline) - {decision.name} + if IsSettled(m, deadline) then {} else {m.state.active})
  {
    if m.state.active != "" {
      var d := MarkedDepleted(m, now);
      DepletedChoices(m, now, deadline);
      var target := FallbackTarget(d, Executable, d.state.active, now);
      FallbackTargetIs(d, Executable, d.state.active, now);
      if target != "" {
        EnabledIs(m.registry, target);
        assert target in Choices(d, deadline);
        ActivatedChoices(d, target, now, deadline);
      }
    }
  }

  lemma BeatUsesChoice(m: Auth, b: Beat, deadline: Time)
    requires IsSoundAuth(m) && NoSuccess(b.samples) && b.now < deadline <= b.now + m.settings.pollInterval
    ensures var m' := Next(m, b);
      && IsSoundAuth(m') && m'.settings == m.settings
      && (IsSettled(m, deadline) ==> IsSettled(m', deadline))
      && (!Switches(m, b) ==> |Choices(m', deadline)| <= |Choices(m, deadline)|)
      && (Switches(m, b) ==>
            && IsSettled(m', deadline)
            && |Choices(m', deadline)| <= |Choices(m, deadline)| - if IsSettled(m, deadline) then 1 else 0)
  {
    EvaluatedKeeps(m, b.samples, b.now);
    EvaluationKeepsChoices(m, b.samples, b.now, deadline);
    if b.limited {
      var e := EvaluatedUsage(m, b.samples, b.now);
      RateLimitedKeeps(m, b.samples, b.now, b.copies);
      LimitUsesChoice(e, b.now, b.copies, deadline);
      var (m', decision) := Limited(e, b.now, b.copies);
      if decision.SwitchedTo? {
        var rest := Choices(m, deadline) - {decision.name};
        assert |rest| == |Choices(m, deadline)| - 1;
        if IsSettled(m, deadline) {
          SubsetSize(Choices(m', deadline), rest);
        } else {
          SubsetSize(Choices(m', deadline), rest + {e.state.active});
        }
      } else {
        SubsetSize(Choices(m', deadline), Choices(m, deadline));
      }
    }
  }

  predicate InWindow(beats: seq<Beat>, m: Auth, deadline: Time) {
    forall i :: 0 <= i < |beats| ==>
      NoSuccess(beats[i].samples) && beats[i].now < deadline <= beats[i].now + m.settings.pollInterval
  }

  lemma {:induction false} SwitchesUseChoices(m: Auth, beats: seq<Beat>, deadline: Time)
    requires IsSoundAuth(m) && InWindow(beats, m, deadline)
    ensures CountSwitches(m, beats) <= |Choices(m, deadline)| + if IsSettled(m, deadline) then 0 else 1
    decreases |beats|
  {
    if beats == [] {
    } else {
      BeatUsesChoice(m, beats[0], deadline);
      assert InWindow(beats[1..], m, deadline) by {
        assert forall i :: 0 <= i < |beats| - 1 ==> beats[1..][i] == beats[i + 1];
      }
      SwitchesUseChoices(Next(m, beats[0]), beats[1..], deadline);
    }
  }

  /**
   While no usage sample succeeds, the beats of one poll interval switch fewer
   times than there are enabled accounts; only if the active account carries
   an old retry time from before may there be one switch more.
   */
  lemma SwitchesAreBounded(m: Auth, beats: seq<Beat>, deadline: Time)
    requires IsSoundAuth(m) && m.state.active != "" && InWindow(beats, m, deadline)
    ensures IsSettled(m, deadline) ==> CountSwitches(m, beats) <= |EnabledNames(m.registry)| - 1
    ensures CountSwitches(m, beats) <= |EnabledNames(m.registry)|
  {
    SwitchesUseChoices(m, beats, deadline);
    EnabledIs(m.registry, m.state.active);
    assert m.state.active in EnabledNames(m.registry);
    SubsetSize(Choices(m, deadline), EnabledNames(m.registry) - {m.state.active});
  }

  /** A pause ends after now, and within a poll interval when the active account had no retry time. */
  lemma PausesEnd(m: Auth, samples: seq<Sample>, now: Time, copies: bool)
    requires IsSoundAuth(m) && m.settings.pollInterval > 0
    requires RateLimited(m, samples, now, copies).1.PausedUntil?
    ensures RateLimited(m, samples, now, copies).1.retryAt > now
    ensures StateOf(EvaluatedUsage(m, samples, now).state, m.state.active).retryAfter.None? ==>
      RateLimited(m, samples, now, copies).1.retryAt <= now + m.settings.pollInterval
  {
    EvaluatedKeeps(m, samples, now);
    var e := EvaluatedUsage(m, samples, now);
    var d := MarkedDepleted(e, now);
    EarliestRetryIs(d, Ordered(d.registry), now);
    EnabledIs(d.registry, d.state.active);
    OrderedMembers(d.registry);
  }
}
