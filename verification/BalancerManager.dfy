/** The running balancer: its copy of the registry and the state, which its methods update in place. */
module BalancerManager {
  import opened Wrappers
  import opened Accounts
  import opened UsageSamples
  import opened Balancer
  import opened BalancerChoice
  import opened BalancerRuns
  import opened AccountCommands
  import opened AccountStore
  import opened BalancerWorld

  class Manager {
    const settings: Settings
    const files: AuthFiles
    var registry: Registry
    var state: AuthState

    constructor (settings: Settings, files: AuthFiles)
      ensures this.settings == settings && this.files == files
      ensures Current() == AtLaunch(settings, files.Contents())
    {
      this.settings, this.files := settings, files;
      registry, state := Loaded(files.registry), files.state;
    }

    ghost function Current(): Auth
      reads this
    {
      Auth(settings, registry, state)
    }

    // ---- Searches ---------------------------------------------------------------------

    /** The least-used search, one scan over the accounts. */
    method ChooseLeastUsed(test: Eligibility, exclude: Name, active: Name, now: Time) returns (best: Name)
      ensures best == LeastUsed(Current(), test, exclude, active, now)
    {
      var m := Auth(settings, registry, state);
      var accounts := Ordered(registry);
      var bestRank := Rank(0, 0, 0);
      var bestSet := false;
      best := "";
      var i := 0;
      while i < |accounts|
        invariant 0 <= i <= |accounts|
        invariant best == BestOf(m, accounts[..i], test, exclude, active, now)
        invariant bestSet <==> best != ""
        invariant bestSet ==> bestRank == RankOf(StateOf(state, best))
      {
        assert accounts[..i + 1][..i] == accounts[..i];
        var name := accounts[i].name;
        if name != exclude && IsEligible(m, test, name, now) {
          CandidatesAreRegistered(m, test, name, now);
          var rank := RankOf(StateOf(state, name));
          if !bestSet || RankLess(rank, bestRank) || (rank == bestRank && TieBreakLess(registry, name, best, active)) {
            best, bestRank, bestSet := name, rank, true;
          }
        }
        i := i + 1;
      }
      assert accounts[..i] == accounts;
    }

    /** The first eligible account in order that is not the excluded one. */
    method ChooseFirst(test: Eligibility, exclude: Name, now: Time) returns (name: Name)
      ensures name == FirstCandidate(Current(), Ordered(registry), test, exclude, now)
    {
      var m := Auth(settings, registry, state);
      var accounts := Ordered(registry);
      var i := 0;
      while i < |accounts|
        invariant 0 <= i <= |accounts|
        invariant
          FirstCandidate(m, accounts, test, exclude, now) == FirstCandidate(m, accounts[i..], test, exclude, now)
      {
        if accounts[i].name != exclude && IsEligible(m, test, accounts[i].name, now) {
          return accounts[i].name;
        }
        i := i + 1;
      }
      return "";
    }

    method ChooseFallbackTarget(test: Eligibility, active: Name, now: Time) returns (target: Name)
      ensures target == FallbackTarget(Current(), test, active, now)
    {
      var m := Auth(settings, registry, state);
      if settings.policy == ByUsage {
        target := ChooseLeastUsed(test, active, "", now);
        return;
      }
      var preferred := registry.preferred;
      if preferred != "" && preferred != active && IsEligible(m, test, preferred, now) {
        return preferred;
      }
      target := ChooseFirst(test, active, now);
    }

    /** The earliest retry time after now that an enabled account waits for. */
    method EarliestRetryAfter(now: Time) returns (best: Option<Time>)
      ensures best == EarliestRetryOf(Current(), Ordered(registry), now)
    {
      var m := Auth(settings, registry, state);
      var accounts := Ordered(registry);
      best := None;
      var i := 0;
      while i < |accounts|
        invariant 0 <= i <= |accounts|
        invariant best == EarliestRetryOf(m, accounts[..i], now)
      {
        assert accounts[..i + 1][..i] == accounts[..i];
        if accounts[i].enabled {
          var retryAt := StateOf(state, accounts[i].name).retryAfter;
          if retryAt.Some? && retryAt.value > now {
            if best.None? || retryAt.value < best.value {
              best := retryAt;
            }
          }
        }
        i := i + 1;
      }
      assert accounts[..i] == accounts;
    }

    // ---- State changes ------------------------------------------------------------------

    method Persist()
      modifies files`state
      ensures files.state == state
    {
      files.state := state;
    }

    method QueuePendingSwitch(name: Name, now: Time, reason: PendingReason)
      modifies this`state
      ensures state == QueuePending(old(Current()), name, now, reason)
    {
      if name == "" || name == state.active {
        state := ClearPending(state);
        return;
      }
      if !IsEnabled(registry, name) {
        return;
      }
      state := state.(pendingActive := name, pendingReason := reason, pendingSince := Some(now));
      state := state.(restartRequired := true);
    }

    method RefreshQueuedSwitches(now: Time)
      modifies this`state
      ensures state == Refreshed(old(Current()), now)
    {
      var m := Auth(settings, registry, state);
      var active := state.active;
      if active == "" {
        state := MarkDegraded(ClearPending(state), NoActiveAccount);
        return;
      }
      if ShouldQueueFallback(m, active, now) {
        var target := ChooseFallbackTarget(Fresh, active, now);
        if target == "" {
          state := MarkDegraded(ClearPending(state), NoFreshFallback);
          return;
        }
        QueuePendingSwitch(target, now, NearLimit);
        state := ClearDegraded(state);
        return;
      }
      var preferred := registry.preferred;
      if preferred != "" && preferred != active && ShouldQueueReturn(m, preferred, active, now) {
        QueuePendingSwitch(preferred, now, PreferredRestored);
        state := ClearDegraded(state);
        return;
      }
      state := ClearPending(state);
      if ActiveUsable(m, active, now) {
        state := ClearDegraded(state);
        return;
      }
      state := MarkDegraded(state, ActiveUnavailable);
    }

    /** Merges the samples into the accounts' states, one after the other. */
    method MergeSamples(samples: seq<Sample>, now: Time)
      modifies this`state
      ensures Current() == WithSamples(old(Current()), samples, old(state.active), now)
    {
      var active := state.active;
      var i := 0;
      while i < |samples|
        invariant 0 <= i <= |samples|
        invariant Current() == WithSamples(old(Current()), samples[..i], active, now)
      {
        assert samples[..i + 1][..i] == samples[..i];
        var name, check := samples[i].name, samples[i].check;
        var accountState := Merged(StateOf(state, name), check, now, settings);
        if check.Sampled? {
          if check.snapshot.hardLimit {
            accountState := accountState.(depletedAt := Some(now), lastFailureReason := UsageHardLimit);
          } else if check.snapshot.nearLimit {
            accountState := accountState.(depletedAt := Some(now), lastFailureReason := UsageNearLimit);
          } else if name == active || name == registry.preferred {
            accountState := accountState.(depletedAt := None, retryAfter := None);
            if accountState.lastFailureReason == UsageHardLimit || accountState.lastFailureReason == UsageNearLimit {
              accountState := accountState.(lastFailureReason := NoFailure);
            }
          }
        }
        state := state.(accounts := state.accounts[name := accountState]);
        i := i + 1;
      }
      assert samples[..i] == samples;
    }

    /** One evaluation of the usage: the state is decided anew and written. */
    method EvaluateUsage(samples: seq<Sample>, now: Time)
      modifies this`state, files`state
      ensures Current() == EvaluatedUsage(old(Current()), samples, now) && files.state == state
    {
      MergeSamples(samples, now);
      RefreshQueuedSwitches(now);
      Persist();
    }

    /** Makes an account active and writes the state, unless its credentials cannot be copied. */
    method ActivateAccount(name: Name, now: Time, copies: bool) returns (failure: Option<Failure>)
      modifies this`state, files`state
      ensures Activate(old(Current()), name, now, copies) == if failure.Some? then Err(failure.value) else Ok(state)
      ensures failure.Some? ==> state == old(state) && files.state == old(files.state)
      ensures failure.None? ==> files.state == state
    {
      if !IsRegistered(registry, name) {
        return Some(NotRegistered(name));
      }
      if !copies {
        return Some(CopyFailed);
      }
      var accountState := StateOf(state, name);
      accountState := accountState.(lastActivatedAt := Some(now), depletedAt := None, retryAfter := None);
      accountState := accountState.(lastFailureReason := NoFailure);
      state := state.(accounts := state.accounts[name := accountState]);
      state := state.(active := name);
      state := ClearPending(state);
      state := ClearDegraded(state);
      Persist();
      return None;
    }

    method ChooseLaunchAccount(now: Time) returns (name: Name)
      ensures name == LaunchChoice(Current(), now)
    {
      var m := Auth(settings, registry, state);
      var active, pending, preferred := state.active, state.pendingActive, registry.preferred;
      if settings.policy == ByUsage {
        var candidate := ChooseLeastUsed(Fresh, "", active, now);
        return if candidate != "" then candidate else LaunchFallback(m, now);
      }
      if pending != "" && FreshEligible(m, pending, now) {
        return pending;
      }
      if preferred != "" && FreshEligible(m, preferred, now) {
        return preferred;
      }
      if active != "" && FreshEligible(m, active, now) {
        return active;
      }
      var accounts := Ordered(registry);
      var i := 0;
      while i < |accounts|
        invariant 0 <= i <= |accounts|
        invariant FirstLaunchable(m, accounts, now) == FirstLaunchable(m, accounts[i..], now)
      {
        if accounts[i].name != preferred && accounts[i].name != active && FreshEligible(m, accounts[i].name, now) {
          return accounts[i].name;
        }
        i := i + 1;
      }
      return LaunchFallback(m, now);
    }

    /**
     Chooses and activates the account for a launch.  If the launch succeeds
     and some account is fresh-eligible, then the active one is, nothing is
     pending and the balancer is not degraded.
     */
    method EnsureLaunchAccount(samples: seq<Sample>, now: Time, copies: bool) returns (failure: Option<Failure>)
      modifies this`state, files`state
      ensures Launch(old(Current()), samples, now, copies) == if failure.Some? then Err(failure.value) else Ok(state)
      ensures files.state == if failure.Some? then EvaluatedUsage(old(Current()), samples, now).state else state
      ensures
        && failure.None? && IsSoundAuth(old(Current()))
        && (exists name :: FreshEligible(WithSamples(old(Current()), samples, old(state.active), now), name, now)) ==>
        FreshEligible(Current(), state.active, now) && state.pendingActive == "" && !state.degraded
    {
      ghost var m := Current();
      EvaluateUsage(samples, now);
      failure := LaunchEvaluated(now, copies);
      if failure.None? && IsSoundAuth(m)
         && exists name :: FreshEligible(WithSamples(m, samples, m.state.active, now), name, now) {
        LaunchPicksFresh(m, samples, now, copies);
      }
    }

    method LaunchEvaluated(now: Time, copies: bool) returns (failure: Option<Failure>)
      requires files.state == state
      modifies this`state, files`state
      ensures Launched(old(Current()), now, copies) == if failure.Some? then Err(failure.value) else Ok(state)
      ensures files.state == if failure.Some? then old(files.state) else state
    {
      var m := Auth(settings, registry, state);
      var pending := state.pendingActive;
      if pending != "" && pending != state.active && FreshEligible(m, pending, now) {
        failure := ActivateAccount(pending, now, copies);
        return;
      }
      var name := ChooseLaunchAccount(now);
      if name == "" {
        Persist();
        return None;
      }
      if name == state.active {
        state := ClearPending(state);
        state := ClearDegraded(state);
        if IsRegistered(registry, name) && !copies {
          return Some(CopyFailed);
        }
        Persist();
        return None;
      }
      failure := ActivateAccount(name, now, copies);
    }

    /** Reacts to a rate limit: evaluates the usage, then switches accounts or says how long to pause. */
    method HandleRateLimit(samples: seq<Sample>, now: Time, copies: bool) returns (decision: Decision)
      modifies this`state, files`state
      ensures (Current(), decision) == RateLimited(old(Current()), samples, now, copies)
      ensures files.state == WrittenByLimit(old(Current()), samples, now, copies)
    {
      EvaluateUsage(samples, now);
      decision := LimitEvaluated(now, copies);
    }

    /** Notes that the active account is depleted, and lets it rest unless it does already. */
    method DepleteActive(now: Time)
      modifies this`state
      ensures Current() == MarkedDepleted(old(Current()), now)
    {
      var activeState := StateOf(state, state.active);
      activeState := activeState.(depletedAt := Some(now), lastFailureReason := ExecRateLimit);
      if activeState.retryAfter.None? {
        activeState := activeState.(retryAfter := Some(now + settings.pollInterval));
      }
      state := state.(accounts := state.accounts[state.active := activeState]);
    }

    /** When the next account may be used again, or a poll interval from now. */
    method PauseEnd(now: Time) returns (retryAt: Time)
      ensures var earliest := EarliestRetryOf(Current(), Ordered(registry), now);
        retryAt == if earliest.Some? then earliest.value else now + settings.pollInterval
    {
      var earliest := EarliestRetryAfter(now);
      return if earliest.Some? then earliest.value else now + settings.pollInterval;
    }

    method LimitEvaluated(now: Time, copies: bool) returns (decision: Decision)
      requires files.state == state
      modifies this`state, files`state
      ensures Current() == Limited(old(Current()), now, copies).0 && decision == Limited(old(Current()), now, copies).1
      ensures files.state == if decision.Failed? then old(files.state) else state
    {
      var active := state.active;
      if active == "" {
        state := MarkDegraded(state, RateLimitNoActive);
        Persist();
        return NoAccount;
      }
      DepleteActive(now);
      var target := ChooseFallbackTarget(Executable, active, now);
      if target != "" && target != active {
        var failure := ActivateAccount(target, now, copies);
        return if failure.Some? then Failed(failure.value) else SwitchedTo(target);
      }
      var retryAt := PauseEnd(now);
      state := MarkDegraded(state, AllExhausted);
      Persist();
      return PausedUntil(retryAt);
    }
  }
}
