/**
 How often a balancer switches accounts within one poll interval while every
 usage check fails: exactly the accounts that can serve in the rest of the
 interval, and the active one once more when its retry time is an old one.
 */
module BalancerSwitches {
  import opened Wrappers
  import opened AccountNames
  import opened Accounts
  import opened UsageSamples
  import opened Balancer
  import opened BalancerChoice
  import opened BalancerRuns
  import opened Sets

  // ---- Runs --------------------------------------------------------------------------

  /** The samples of one evaluation: one for each account, in order, and none succeeds. */
  predicate IsComplete(r: Registry, samples: seq<Sample>) {
    && |samples| == |Ordered(r)|
    && forall i :: 0 <= i < |samples| ==> samples[i].name == Ordered(r)[i].name && !samples[i].check.Sampled?
  }

  /** Beats that follow each other from a time on and before the deadline. */
  predicate InOrder(beats: seq<Beat>, r: Registry, from: Time, deadline: Time)
    decreases |beats|
  {
    beats == [] || (from <= beats[0].now < deadline && IsComplete(r, beats[0].samples)
                    && InOrder(beats[1..], r, beats[0].now, deadline))
  }

  /** Such beats are among those that `BalancerRuns.SwitchesAreBounded` speaks of. */
  lemma {:induction false} InOrderIsInWindow(beats: seq<Beat>, m: Auth, from: Time, deadline: Time)
    requires InOrder(beats, m.registry, from, deadline) && deadline <= from + m.settings.pollInterval
    ensures InWindow(beats, m, deadline)
    decreases |beats|
  {
    if beats != [] {
      InOrderIsInWindow(beats[1..], m, beats[0].now, deadline);
      assert forall i :: 0 < i < |beats| ==> beats[i] == beats[1..][i - 1];
    }
  }

  // ---- The bound ------------------------------------------------------------------------

  /** The first time from which the account's retry time does not stand in the way. */
  function First(m: Auth, name: Name, from: Time): Time {
    var a := StateOf(m.state, name);
    if RetryPending(a, from) then a.retryAfter.value else from
  }

  /** The account can be used before the deadline: its retry time is over while its last sample is fresh. */
  predicate CanServe(m: Auth, name: Name, from: Time, deadline: Time) {
    && First(m, name, from) < deadline
    && StateOf(m.state, name).lastSuccessfulUsageCheckAt.Some?
    && !FreshExpired(StateOf(m.state, name), First(m, name, from))
  }

  /** The accounts other than the active one that can be used. */
  function Servers(m: Auth, from: Time, deadline: Time): set<Name> {
    set name | name in EnabledNames(m.registry) && name != m.state.active && CanServe(m, name, from, deadline)
  }

  /** The active account has an old retry time, and can be used again after another one was. */
  predicate ComesBack(m: Auth, from: Time, deadline: Time) {
    && !IsSettled(m, deadline)
    && exists name :: name in Servers(m, from, deadline) && CanServe(m, m.state.active, First(m, name, from), deadline)
  }

  function MostSwitches(m: Auth, from: Time, deadline: Time): nat {
    if m.state.active == "" then 0
    else |Servers(m, from, deadline)| + if ComesBack(m, from, deadline) then 1 else 0
  }

  lemma LaterServesLess(m: Auth, name: Name, from: Time, later: Time, deadline: Time)
    requires from <= later && CanServe(m, name, later, deadline)
    ensures CanServe(m, name, from, deadline) && First(m, name, from) <= First(m, name, later)
  {
  }

  // ---- Failed checks ------------------------------------------------------------------------

  /** What decides when an account can serve: failed checks do not change it. */
  predicate SameTimes(a: AccountState, b: AccountState) {
    && a.retryAfter == b.retryAfter && a.lastSuccessfulUsageCheckAt == b.lastSuccessfulUsageCheckAt
    && a.lastUsageFreshUntil == b.lastUsageFreshUntil
  }

  lemma {:induction false} FailedSamplesKeepTimes(m: Auth, samples: seq<Sample>, active: Name, now: Time, name: Name)
    requires NoSuccess(samples)
    ensures SameTimes(StateOf(WithSamples(m, samples, active, now).state, name), StateOf(m.state, name))
  {
    if samples == [] {
    } else {
      FailedSamplesKeepTimes(m, samples[..|samples| - 1], active, now, name);
    }
  }

  lemma FailedTwice(a: AccountState, check: Check, now: Time, settings: Settings)
    requires !check.Sampled?
    ensures Merged(Merged(a, check, now, settings), check, now, settings) == Merged(a, check, now, settings)
  {
  }

  lemma OneMoreSample(m: Auth, samples: seq<Sample>, active: Name, now: Time, name: Name)
    requires samples != []
    requires samples[|samples| - 1].name == name ==> !samples[|samples| - 1].check.Sampled?
    ensures var last := samples[|samples| - 1];
      var before := StateOf(WithSamples(m, samples[..|samples| - 1], active, now).state, name);
      StateOf(WithSamples(m, samples, active, now).state, name)
        == if last.name == name then Merged(before, last.check, now, m.settings) else before
  {
    WithSamplesKeeps(m, samples[..|samples| - 1], active, now);
  }

  /** An account that is sampled, always with the same failure, is as that failure leaves it. */
  lemma {:induction false} LastCheckShows(m: Auth, samples: seq<Sample>, active: Name, now: Time, name: Name,
      check: Check)
    requires !check.Sampled? && exists i :: 0 <= i < |samples| && samples[i].name == name
    requires forall i :: 0 <= i < |samples| && samples[i].name == name ==> samples[i].check == check
    ensures StateOf(WithSamples(m, samples, active, now).state, name)
         == Merged(StateOf(m.state, name), check, now, m.settings)
  {
    var front := samples[..|samples| - 1];
    OneMoreSample(m, samples, active, now, name);
    FailedTwice(StateOf(m.state, name), check, now, m.settings);
    if i :| 0 <= i < |front| && front[i].name == name {
      LastCheckShows(m, front, active, now, name, check);
    } else {
      NotSampledStays(m, front, active, now, name);
    }
  }

  lemma {:induction false} NotSampledStays(m: Auth, samples: seq<Sample>, active: Name, now: Time, name: Name)
    requires forall i :: 0 <= i < |samples| ==> samples[i].name != name
    ensures StateOf(WithSamples(m, samples, active, now).state, name) == StateOf(m.state, name)
  {
    if samples != [] { NotSampledStays(m, samples[..|samples| - 1], active, now, name); }
  }

  /** The check that an account got. */
  lemma SampleOf(r: Registry, samples: seq<Sample>, name: Name) returns (i: nat)
    requires IsWellFormed(r) && IsComplete(r, samples) && IsEnabled(r, name)
    ensures i < |samples| && samples[i].name == name
    ensures forall j :: 0 <= j < |samples| && samples[j].name == name ==> j == i
  {
    OrderedAreRegistered(r);
    assert IsRegistered(r, name);
    var a :| a in Ordered(r) && a.name == name;
    i :| 0 <= i < |Ordered(r)| && Ordered(r)[i] == a;
  }

  /** After an evaluation an account is as its check left it. */
  lemma EvaluatedShows(m: Auth, samples: seq<Sample>, now: Time, name: Name) returns (check: Check)
    requires IsSoundAuth(m) && IsComplete(m.registry, samples) && IsEnabled(m.registry, name)
    ensures Sample(name, check) in samples && !check.Sampled?
    ensures StateOf(EvaluatedUsage(m, samples, now).state, name)
         == Merged(StateOf(m.state, name), check, now, m.settings)
  {
    var i := SampleOf(m.registry, samples, name);
    check := samples[i].check;
    LastCheckShows(m, samples, m.state.active, now, name, check);
    EvaluatedKeeps(m, samples, now);
    assert samples[i] == Sample(name, check);
  }

  /** An evaluation whose checks all fail changes no account's times. */
  lemma EvaluationKeepsTimes(m: Auth, samples: seq<Sample>, now: Time)
    requires IsSoundAuth(m) && IsComplete(m.registry, samples)
    ensures forall name :: SameTimes(StateOf(EvaluatedUsage(m, samples, now).state, name), StateOf(m.state, name))
  {
    EvaluatedKeeps(m, samples, now);
    forall name ensures SameTimes(StateOf(EvaluatedUsage(m, samples, now).state, name), StateOf(m.state, name)) {
      FailedSamplesKeepTimes(m, samples, m.state.active, now, name);
    }
  }

  // ---- No more than the bound -----------------------------------------------------------

  /** With the same times and the same active account, time only takes accounts away. */
  lemma LaterIsLess(m: Auth, e: Auth, from: Time, later: Time, deadline: Time)
    requires from <= later && e.registry == m.registry && e.state.active == m.state.active
    requires forall name :: SameTimes(StateOf(e.state, name), StateOf(m.state, name))
    ensures Servers(e, later, deadline) <= Servers(m, from, deadline)
    ensures ComesBack(e, later, deadline) ==> ComesBack(m, from, deadline)
    ensures MostSwitches(e, later, deadline) <= MostSwitches(m, from, deadline)
  {
    forall name | CanServe(e, name, later, deadline)
      ensures CanServe(m, name, from, deadline) && First(m, name, from) <= First(e, name, later)
    {
      LaterServesLess(m, name, from, later, deadline);
    }
    SubsetSize(Servers(e, later, deadline), Servers(m, from, deadline));
    if ComesBack(e, later, deadline) {
      var name :| name in Servers(e, later, deadline)
        && CanServe(e, e.state.active, First(e, name, later), deadline);
      LaterServesLess(m, m.state.active, First(m, name, from), First(e, name, later), deadline);
    }
  }

  /** What a rate limit may switch to is an account that can serve right now. */
  lemma TargetServes(m: Auth, samples: seq<Sample>, now: Time, deadline: Time, target: Name)
    requires IsSoundAuth(m) && IsComplete(m.registry, samples) && now < deadline && target != m.state.active
    requires ExecutionEligible(MarkedDepleted(EvaluatedUsage(m, samples, now), now), target, now)
    ensures target in Servers(EvaluatedUsage(m, samples, now), now, deadline)
    ensures First(EvaluatedUsage(m, samples, now), target, now) == now
  {
    EvaluatedKeeps(m, samples, now);
    var e := EvaluatedUsage(m, samples, now);
    assert StateOf(MarkedDepleted(e, now).state, target) == StateOf(e.state, target);
    EnabledIs(m.registry, target);
    var check := EvaluatedShows(m, samples, now, target);
  }

  /** The state after a switch. */
  function SwitchedTo(e: Auth, target: Name, now: Time): Auth {
    var d := MarkedDepleted(e, now);
    d.(state := ClearDegraded(Activated(d.state, target, now)))
  }

  /** The account it leaves keeps an old retry time. */
  lemma OldTimesStay(e: Auth, target: Name, now: Time, deadline: Time)
    requires target != e.state.active && !IsSettled(e, deadline)
    ensures SameTimes(StateOf(SwitchedTo(e, target, now).state, e.state.active), StateOf(e.state, e.state.active))
  {
  }

  /** Of the accounts that can serve after a switch, only the one it leaves is new, and only when it comes back. */
  lemma ServersAfter(e: Auth, target: Name, now: Time, deadline: Time, name: Name)
    requires now < deadline <= now + e.settings.pollInterval && target != e.state.active
    requires target in Servers(e, now, deadline) && First(e, target, now) == now
    requires name in Servers(SwitchedTo(e, target, now), now, deadline)
    ensures name != target
    ensures name in Servers(e, now, deadline) || (name == e.state.active && ComesBack(e, now, deadline))
  {
    if name == e.state.active {
      if !IsSettled(e, deadline) { OldTimesStay(e, target, now, deadline); }
    } else {
      assert StateOf(SwitchedTo(e, target, now).state, name) == StateOf(e.state, name);
    }
  }

  /** A switch leaves the target settled, uses it up, and gives back the old account at most when that comes back. */
  lemma SwitchCosts(e: Auth, target: Name, now: Time, deadline: Time)
    requires e.state.active != "" && now < deadline <= now + e.settings.pollInterval
    requires target in Servers(e, now, deadline) && First(e, target, now) == now
    ensures MostSwitches(SwitchedTo(e, target, now), now, deadline) + 1 <= MostSwitches(e, now, deadline)
  {
    var m' := SwitchedTo(e, target, now);
    var back := if ComesBack(e, now, deadline) then {e.state.active} else {};
    assert IsSettled(m', deadline);
    forall name | name in Servers(m', now, deadline) ensures name in Servers(e, now, deadline) - {target} + back {
      ServersAfter(e, target, now, deadline, name);
    }
    SubsetSize(Servers(m', now, deadline), Servers(e, now, deadline) - {target} + back);
  }

  /** A rate limit that does not switch only leaves the active account resting. */
  lemma PauseCosts(e: Auth, now: Time, deadline: Time)
    requires now < deadline <= now + e.settings.pollInterval
    ensures MostSwitches(MarkedDepleted(e, now), now, deadline) <= MostSwitches(e, now, deadline)
  {
    var d := MarkedDepleted(e, now);
    assert forall name :: name != e.state.active ==> StateOf(d.state, name) == StateOf(e.state, name);
    SubsetSize(Servers(d, now, deadline), Servers(e, now, deadline));
    if ComesBack(d, now, deadline) {
      assert SameTimes(StateOf(d.state, e.state.active), StateOf(e.state, e.state.active));
      assert ComesBack(e, now, deadline);
    }
  }

  lemma LimitCosts(m: Auth, b: Beat, deadline: Time)
    requires IsSoundAuth(m) && b.limited && IsComplete(m.registry, b.samples)
    requires b.now < deadline <= b.now + m.settings.pollInterval
    ensures MostSwitches(Next(m, b), b.now, deadline) + (if Switches(m, b) then 1 else 0)
         <= MostSwitches(EvaluatedUsage(m, b.samples, b.now), b.now, deadline)
  {
    EvaluatedKeeps(m, b.samples, b.now);
    var e := EvaluatedUsage(m, b.samples, b.now);
    if e.state.active != "" {
      var d := MarkedDepleted(e, b.now);
      FallbackTargetIs(d, Executable, d.state.active, b.now);
      var target := FallbackTarget(d, Executable, d.state.active, b.now);
      PauseCosts(e, b.now, deadline);
      if target != "" {
        TargetServes(m, b.samples, b.now, deadline, target);
        SwitchCosts(e, target, b.now, deadline);
        ActivateKeeps(d, target, b.now, b.copies);
      } else {
        SameState(d, Next(m, b), b.now, deadline);
      }
    }
  }

  /** Whether the balancer is degraded does not matter. */
  lemma SameState(d: Auth, m: Auth, from: Time, deadline: Time)
    requires m.registry == d.registry && m.state.accounts == d.state.accounts && m.state.active == d.state.active
    ensures MostSwitches(m, from, deadline) == MostSwitches(d, from, deadline)
  {
    LaterIsLess(m, d, from, from, deadline);
    LaterIsLess(d, m, from, from, deadline);
  }

  lemma BeatCosts(m: Auth, b: Beat, from: Time, deadline: Time)
    requires IsSoundAuth(m) && IsComplete(m.registry, b.samples)
    requires from <= b.now < deadline <= from + m.settings.pollInterval
    ensures var m' := Next(m, b);
      && IsSoundAuth(m') && m'.registry == m.registry && m'.settings == m.settings
      && MostSwitches(m', b.now, deadline) + (if Switches(m, b) then 1 else 0) <= MostSwitches(m, from, deadline)
  {
    EvaluatedKeeps(m, b.samples, b.now);
    EvaluationKeepsTimes(m, b.samples, b.now);
    LaterIsLess(m, EvaluatedUsage(m, b.samples, b.now), from, b.now, deadline);
    if b.limited {
      RateLimitedKeeps(m, b.samples, b.now, b.copies);
      LimitCosts(m, b, deadline);
    }
  }

  /** No run switches more often. */
  lemma {:induction false} SwitchesAtMost(m: Auth, beats: seq<Beat>, from: Time, deadline: Time)
    requires IsSoundAuth(m) && InOrder(beats, m.registry, from, deadline)
    requires deadline <= from + m.settings.pollInterval
    ensures CountSwitches(m, beats) <= MostSwitches(m, from, deadline)
    decreases |beats|
  {
    if beats == [] {
    } else {
      BeatCosts(m, beats[0], from, deadline);
      SwitchesAtMost(Next(m, beats[0]), beats[1..], beats[0].now, deadline);
    }
  }

  // ---- As often as the bound ----------------------------------------------------------------

  /** Checks that all fail: one account's for the moment only, the others' for good. */
  function Failing(r: Registry, served: Name): seq<Sample> {
    seq(|Ordered(r)|, i requires 0 <= i < |Ordered(r)| =>
      Sample(Ordered(r)[i].name, if Ordered(r)[i].name == served then Transient else Permanent))
  }

  /** All checks fail for good, then the active account hits its limit while one other can be used. */
  function Round(r: Registry, served: Name, now: Time): seq<Beat> {
    [Beat(now, Failing(r, ""), false, true), Beat(now, Failing(r, served), true, true)]
  }

  lemma FailingShows(m: Auth, served: Name, now: Time, name: Name)
    requires IsSoundAuth(m) && IsEnabled(m.registry, name)
    ensures IsComplete(m.registry, Failing(m.registry, served))
    ensures StateOf(EvaluatedUsage(m, Failing(m.registry, served), now).state, name)
         == Merged(StateOf(m.state, name), if name == served then Transient else Permanent, now, m.settings)
  {
    var check := EvaluatedShows(m, Failing(m.registry, served), now, name);
  }

  /** After all checks failed for good, no account counts as at its limit, and times are as they were. */
  lemma TickShows(m: Auth, now: Time)
    requires IsSoundAuth(m)
    ensures var e := EvaluatedUsage(m, Failing(m.registry, ""), now);
      && IsSoundAuth(e) && e.registry == m.registry && e.settings == m.settings && e.state.active == m.state.active
      && (forall name :: SameTimes(StateOf(e.state, name), StateOf(m.state, name)))
      && (forall name :: IsEnabled(m.registry, name) ==> !StateOf(e.state, name).limitReached)
  {
    var e := EvaluatedUsage(m, Failing(m.registry, ""), now);
    EvaluatedKeeps(m, Failing(m.registry, ""), now);
    EvaluationKeepsTimes(m, Failing(m.registry, ""), now);
    forall name | IsEnabled(m.registry, name) ensures !StateOf(e.state, name).limitReached {
      FailingShows(m, "", now, name);
      EnabledIs(m.registry, name);
    }
  }

  /** A failed check that is permanent rules an account out; one for the moment keeps an account that is fresh. */
  lemma OnlyServed(m: Auth, served: Name, now: Time, name: Name)
    requires IsSoundAuth(m) && IsEnabled(m.registry, name)
    requires name == served ==> !StateOf(m.state, served).limitReached && CanServe(m, served, now, now + 1)
    ensures ExecutionEligible(EvaluatedUsage(m, Failing(m.registry, served), now), name, now) <==> name == served
  {
    EvaluatedKeeps(m, Failing(m.registry, served), now);
    FailingShows(m, served, now, name);
    EnabledIs(m.registry, name);
    LookupIs(m.registry.accounts, name);
  }

  /** The hit then switches to the one account. */
  lemma HitSwitches(m: Auth, served: Name, now: Time)
    requires IsSoundAuth(m) && m.state.active != "" && served != m.state.active && IsEnabled(m.registry, served)
    requires !StateOf(m.state, served).limitReached && CanServe(m, served, now, now + 1)
    ensures var e := EvaluatedUsage(m, Failing(m.registry, served), now);
      FallbackTarget(MarkedDepleted(e, now), Executable, m.state.active, now) == served != ""
  {
    EvaluatedKeeps(m, Failing(m.registry, served), now);
    var e := EvaluatedUsage(m, Failing(m.registry, served), now);
    var d := MarkedDepleted(e, now);
    FallbackTargetIs(d, Executable, m.state.active, now);
    forall name | name != m.state.active
      ensures ExecutionEligible(d, name, now) <==> ExecutionEligible(e, name, now)
    {
      assert StateOf(d.state, name) == StateOf(e.state, name);
    }
    OnlyServed(m, served, now, served);
    assert IsCandidate(d, Executable, m.state.active, served, now);
    OnlyServed(m, served, now, FallbackTarget(d, Executable, m.state.active, now));
  }

  lemma EnabledNamesIs(r: Registry, name: Name)
    requires IsWellFormed(r)
    ensures name in EnabledNames(r) <==> IsEnabled(r, name)
  {
    EnabledIs(r, name);
    if name in EnabledNames(r) {
      var a :| a in r.accounts && a.enabled && a.name == name;
      assert a == Account(name, true);
    }
  }

  /** One account of the others that can be used as early as any. */
  lemma {:induction false} EarliestOne(m: Auth, names: set<Name>, from: Time) returns (one: Name)
    requires names != {}
    ensures one in names && forall name :: name in names ==> First(m, one, from) <= First(m, name, from)
  {
    var some :| some in names;
    one := some;
    var rest := names - {some};
    if rest != {} {
      var other := EarliestOne(m, rest, from);
      if First(m, other, from) <= First(m, some, from) { one := other; }
    }
    assert forall name :: name in names ==> name == some || name in rest;
  }

  /** Waiting for the first account that can be used loses none. */
  lemma EarlyIsFree(m: Auth, e: Auth, from: Time, now: Time, deadline: Time)
    requires from <= now && e.registry == m.registry && e.state.active == m.state.active
    requires forall name :: SameTimes(StateOf(e.state, name), StateOf(m.state, name))
    requires forall name :: name in Servers(m, from, deadline) ==> now <= First(m, name, from)
    ensures Servers(e, now, deadline) == Servers(m, from, deadline)
    ensures MostSwitches(e, now, deadline) == MostSwitches(m, from, deadline)
  {
    LaterIsLess(m, e, from, now, deadline);
    assert forall name :: name in Servers(m, from, deadline) ==> First(e, name, now) == First(m, name, from);
    if ComesBack(m, from, deadline) {
      var name :| name in Servers(m, from, deadline) && CanServe(m, m.state.active, First(m, name, from), deadline);
      assert name in Servers(e, now, deadline) && CanServe(e, e.state.active, First(e, name, now), deadline);
    }
  }

  /** A switch uses up no more than its target. */
  lemma OthersStill(e: Auth, target: Name, now: Time, deadline: Time)
    ensures Servers(e, now, deadline) - {target} <= Servers(SwitchedTo(e, target, now), now, deadline)
  {
    var m' := SwitchedTo(e, target, now);
    assert forall name :: name != e.state.active && name != target ==>
      StateOf(m'.state, name) == StateOf(e.state, name);
  }

  lemma ComesBackServes(e: Auth, now: Time, deadline: Time)
    requires ComesBack(e, now, deadline)
    ensures CanServe(e, e.state.active, now, deadline)
  {
    var name :| name in Servers(e, now, deadline) && CanServe(e, e.state.active, First(e, name, now), deadline);
    LaterServesLess(e, e.state.active, now, First(e, name, now), deadline);
  }

  /** And gives the old account back when that comes back. */
  lemma OldOneAgain(e: Auth, target: Name, now: Time, deadline: Time)
    requires IsSoundAuth(e) && e.state.active != "" && target != e.state.active && ComesBack(e, now, deadline)
    ensures e.state.active in Servers(SwitchedTo(e, target, now), now, deadline)
  {
    EnabledNamesIs(e.registry, e.state.active);
    ComesBackServes(e, now, deadline);
    OldTimesStay(e, target, now, deadline);
  }

  lemma SwitchUsesOne(e: Auth, target: Name, now: Time, deadline: Time)
    requires IsSoundAuth(e) && e.state.active != "" && now < deadline <= now + e.settings.pollInterval
    requires target in Servers(e, now, deadline) && First(e, target, now) == now && target != ""
    ensures MostSwitches(SwitchedTo(e, target, now), now, deadline) + 1 == MostSwitches(e, now, deadline)
  {
    var after, rest := Servers(SwitchedTo(e, target, now), now, deadline), Servers(e, now, deadline) - {target};
    SwitchCosts(e, target, now, deadline);
    OthersStill(e, target, now, deadline);
    if ComesBack(e, now, deadline) {
      OldOneAgain(e, target, now, deadline);
      SubsetSize(rest + {e.state.active}, after);
    } else {
      SubsetSize(rest, after);
    }
  }

  /** One round makes one switch and leaves one less. */
  lemma RoundSwitches(m: Auth, served: Name, from: Time, deadline: Time) returns (m': Auth)
    requires IsSoundAuth(m) && m.state.active != "" && deadline <= from + m.settings.pollInterval
    requires served in Servers(m, from, deadline)
    requires forall name :: name in Servers(m, from, deadline) ==> First(m, served, from) <= First(m, name, from)
    ensures var now := First(m, served, from);
      var tick, hit := Round(m.registry, served, now)[0], Round(m.registry, served, now)[1];
      && m' == Next(Next(m, tick), hit) && !Switches(m, tick) && Switches(Next(m, tick), hit)
      && IsSoundAuth(m') && m'.registry == m.registry && m'.settings == m.settings && m'.state.active != ""
      && from <= now < deadline && MostSwitches(m', now, deadline) + 1 == MostSwitches(m, from, deadline)
  {
    var now := First(m, served, from);
    EnabledIs(m.registry, served);
    EnabledNamesIs(m.registry, served);
    TickShows(m, now);
    var ticked := EvaluatedUsage(m, Failing(m.registry, ""), now);
    EarlyIsFree(m, ticked, from, now, deadline);
    HitSwitches(ticked, served, now);
    EvaluatedKeeps(ticked, Failing(m.registry, served), now);
    EvaluationKeepsTimes(ticked, Failing(m.registry, served), now);
    var e := EvaluatedUsage(ticked, Failing(m.registry, served), now);
    EarlyIsFree(ticked, e, now, now, deadline);
    var d := MarkedDepleted(e, now);
    ActivateKeeps(d, served, now, true);
    SwitchUsesOne(e, served, now, deadline);
    m' := d.(state := ClearDegraded(Activated(d.state, served, now)));
  }

  lemma CountRound(m: Auth, tick: Beat, hit: Beat, rest: seq<Beat>)
    ensures CountSwitches(m, [tick] + ([hit] + rest)) ==
      (if Switches(m, tick) then 1 else 0) + (if Switches(Next(m, tick), hit) then 1 else 0)
      + CountSwitches(Next(Next(m, tick), hit), rest)
  {
    assert ([tick] + ([hit] + rest))[1..] == [hit] + rest && ([hit] + rest)[1..] == rest;
  }

  lemma RoundInOrder(r: Registry, served: Name, from: Time, now: Time, deadline: Time, rest: seq<Beat>)
    requires IsWellFormed(r) && from <= now < deadline && InOrder(rest, r, now, deadline)
    ensures InOrder([Round(r, served, now)[0]] + ([Round(r, served, now)[1]] + rest), r, from, deadline)
  {
    var tick, hit := Round(r, served, now)[0], Round(r, served, now)[1];
    assert ([tick] + ([hit] + rest))[1..] == [hit] + rest && ([hit] + rest)[1..] == rest;
  }

  /** Some run switches as often as the bound says. */
  lemma {:induction false} MostIsReached(m: Auth, from: Time, deadline: Time) returns (beats: seq<Beat>)
    requires IsSoundAuth(m) && deadline <= from + m.settings.pollInterval
    ensures InOrder(beats, m.registry, from, deadline)
    ensures CountSwitches(m, beats) == MostSwitches(m, from, deadline)
    decreases MostSwitches(m, from, deadline)
  {
    if MostSwitches(m, from, deadline) == 0 {
      beats := [];
    } else {
      var served := EarliestOne(m, Servers(m, from, deadline), from);
      var now := First(m, served, from);
      var m' := RoundSwitches(m, served, from, deadline);
      var rest := MostIsReached(m', now, deadline);
      var tick, hit := Round(m.registry, served, now)[0], Round(m.registry, served, now)[1];
      beats := [tick] + ([hit] + rest);
      CountRound(m, tick, hit, rest);
      RoundInOrder(m.registry, served, from, now, deadline, rest);
    }
  }

  // ---- Exactly ------------------------------------------------------------------------------

  /** The most that any run switches is the bound, in every state. */
  lemma MostSwitchesExactly(m: Auth, from: Time, deadline: Time, n: nat)
    requires IsSoundAuth(m) && deadline <= from + m.settings.pollInterval
    ensures (forall beats :: InOrder(beats, m.registry, from, deadline) ==> CountSwitches(m, beats) <= n) <==>
      MostSwitches(m, from, deadline) <= n
  {
    if MostSwitches(m, from, deadline) <= n {
      forall beats | InOrder(beats, m.registry, from, deadline) ensures CountSwitches(m, beats) <= n {
        SwitchesAtMost(m, beats, from, deadline);
      }
    } else {
      var beats := MostIsReached(m, from, deadline);
    }
  }

  /** Every enabled account but the active one can be used. */
  predicate AllOthersServe(m: Auth, from: Time, deadline: Time) {
    forall a :: a in m.registry.accounts && a.enabled && a.name != m.state.active ==>
      CanServe(m, a.name, from, deadline)
  }

  lemma AllServe(m: Auth, from: Time, deadline: Time)
    requires AllOthersServe(m, from, deadline) && m.state.active in EnabledNames(m.registry)
    ensures Servers(m, from, deadline) == EnabledNames(m.registry) - {m.state.active}
    ensures |Servers(m, from, deadline)| == |EnabledNames(m.registry)| - 1
  {
  }

  /**
   Fewer switches than enabled accounts: exactly unless the active account has
   an old retry time, every other enabled account can be used in the interval,
   and the active one can be again after one of them was.
   */
  lemma FewerThanEnabledExactly(m: Auth, from: Time, deadline: Time)
    requires IsSoundAuth(m) && m.state.active != "" && deadline <= from + m.settings.pollInterval
    ensures (forall beats :: InOrder(beats, m.registry, from, deadline) ==>
               CountSwitches(m, beats) < |EnabledNames(m.registry)|) <==>
      !(AllOthersServe(m, from, deadline) && ComesBack(m, from, deadline))
  {
    var others := EnabledNames(m.registry) - {m.state.active};
    EnabledNamesIs(m.registry, m.state.active);
    assert Servers(m, from, deadline) <= others && |others| == |EnabledNames(m.registry)| - 1;
    MostSwitchesExactly(m, from, deadline, |others|);
    SubsetSize(Servers(m, from, deadline), others);
    if AllOthersServe(m, from, deadline) {
      AllServe(m, from, deadline);
    } else {
      var a :| a in m.registry.accounts && a.enabled && a.name != m.state.active
        && !CanServe(m, a.name, from, deadline);
      SubsetSize(Servers(m, from, deadline), others - {a.name});
    }
    assert (forall beats :: InOrder(beats, m.registry, from, deadline) ==>
              CountSwitches(m, beats) < |EnabledNames(m.registry)|) <==>
      forall beats :: InOrder(beats, m.registry, from, deadline) ==> CountSwitches(m, beats) <= |others|;
  }

  /** What is known about an account, with its last sample fresh throughout. */
  function FreshThroughout(m: Auth, from: Time, deadline: Time): Auth {
    m.(state := m.state.(accounts := map name | name in EnabledNames(m.registry) ::
      StateOf(m.state, name).(lastSuccessfulUsageCheckAt := Some(from), lastUsageFreshUntil := Some(deadline))))
  }

  /** The same accounts, active account and retry times. */
  predicate SameRetryTimes(m: Auth, m': Auth) {
    && m'.registry == m.registry && m'.settings == m.settings && m'.state.active == m.state.active
    && forall name :: name in EnabledNames(m.registry) ==>
         StateOf(m'.state, name).retryAfter == StateOf(m.state, name).retryAfter
  }

  /**
   Over all states with the same retry times: fewer switches than enabled
   accounts, exactly when the active account is settled, another one rests, or
   there is no other.
   */
  lemma RetryTimesDecide(m: Auth, from: Time, deadline: Time)
    requires IsSoundAuth(m) && m.state.active != "" && from < deadline <= from + m.settings.pollInterval
    ensures (forall m', beats :: SameRetryTimes(m, m') && IsSoundAuth(m') && InOrder(beats, m.registry, from, deadline)
               ==> CountSwitches(m', beats) < |EnabledNames(m.registry)|) <==>
      || IsSettled(m, deadline)
      || EnabledNames(m.registry) == {m.state.active}
      || exists name :: name in EnabledNames(m.registry) && name != m.state.active && Rests(m, name, deadline)
  {
    var names, active := EnabledNames(m.registry), m.state.active;
    EnabledNamesIs(m.registry, active);
    var escapes := || IsSettled(m, deadline) || names == {active}
      || exists name :: name in names && name != active && Rests(m, name, deadline);
    if escapes {
      forall m', beats | SameRetryTimes(m, m') && IsSoundAuth(m') && InOrder(beats, m.registry, from, deadline)
        ensures CountSwitches(m', beats) < |names|
      {
        EscapesHold(m, m', from, deadline);
        FewerThanEnabledExactly(m', from, deadline);
      }
    } else {
      var good := FreshThroughout(m, from, deadline);
      FreshFails(m, from, deadline);
      FewerThanEnabledExactly(good, from, deadline);
    }
  }

  lemma EscapesHold(m: Auth, m': Auth, from: Time, deadline: Time)
    requires IsSoundAuth(m) && m.state.active in EnabledNames(m.registry) && SameRetryTimes(m, m')
    requires || IsSettled(m, deadline)
             || EnabledNames(m.registry) == {m.state.active}
             || exists name :: name in EnabledNames(m.registry) && name != m.state.active && Rests(m, name, deadline)
    ensures !(AllOthersServe(m', from, deadline) && ComesBack(m', from, deadline))
  {
    if name :| name in EnabledNames(m.registry) && name != m.state.active && Rests(m, name, deadline) {
      assert !CanServe(m', name, from, deadline);
    }
  }

  lemma FreshFails(m: Auth, from: Time, deadline: Time)
    requires IsSoundAuth(m) && m.state.active in EnabledNames(m.registry) && from < deadline
    requires !IsSettled(m, deadline) && EnabledNames(m.registry) != {m.state.active}
    requires forall name :: name in EnabledNames(m.registry) && name != m.state.active ==> !Rests(m, name, deadline)
    ensures var good := FreshThroughout(m, from, deadline);
      && SameRetryTimes(m, good) && IsSoundAuth(good)
      && AllOthersServe(good, from, deadline) && ComesBack(good, from, deadline)
  {
    var good, active := FreshThroughout(m, from, deadline), m.state.active;
    forall name | name in EnabledNames(m.registry) && !Rests(m, name, deadline)
      ensures CanServe(good, name, from, deadline) && First(good, name, from) < deadline
    {
    }
    var other :| other in EnabledNames(m.registry) && other != active;
    assert other in Servers(good, from, deadline);
    assert CanServe(good, active, First(good, other, from), deadline);
  }

  /** Outside these cases some state with these retry times and some run make a switch for every enabled account. */
  lemma OldRetryTimeSwitchesBack(m: Auth, from: Time, deadline: Time) returns (m': Auth, beats: seq<Beat>)
    requires IsSoundAuth(m) && m.state.active != "" && from < deadline <= from + m.settings.pollInterval
    requires !IsSettled(m, deadline) && EnabledNames(m.registry) != {m.state.active}
    requires forall name :: name in EnabledNames(m.registry) && name != m.state.active ==> !Rests(m, name, deadline)
    ensures SameRetryTimes(m, m') && IsSoundAuth(m') && InOrder(beats, m.registry, from, deadline)
    ensures CountSwitches(m', beats) == |EnabledNames(m.registry)|
  {
    EnabledNamesIs(m.registry, m.state.active);
    m' := FreshThroughout(m, from, deadline);
    FreshFails(m, from, deadline);
    beats := MostIsReached(m', from, deadline);
    AllServe(m', from, deadline);
  }
}
