/**
 The balancer and the account commands share two files.  A launch reads both;
 a running balancer then keeps its own copy of the registry and writes only
 the state, while commands may edit both files behind its back.
 */
module BalancerWorld {
  import opened Wrappers
  import opened AccountNames
  import opened Accounts
  import opened UsageSamples
  import opened Balancer
  import opened BalancerChoice
  import opened AccountCommands
  import opened AccountEffects
  import opened BalancerRuns

  datatype World = World(home: Home, live: Option<Auth>)

  datatype Step =
    | Launching(samples: seq<Sample>, now: Time, copies: bool)
    | Ticking(samples: seq<Sample>, now: Time)
    | Hitting(samples: seq<Sample>, now: Time, copies: bool)
    | Quitting
    | Commanding(command: Command, now: Time, copies: bool)

  /** The balancer a launch starts from. */
  function AtLaunch(settings: Settings, h: Home): Auth {
    Auth(settings, Loaded(h.registry), h.state)
  }

  /** The state that a rate limit leaves in the file: a failed switch is not written. */
  function WrittenByLimit(m: Auth, samples: seq<Sample>, now: Time, copies: bool): AuthState {
    var (m', decision) := RateLimited(m, samples, now, copies);
    if decision.Failed? then EvaluatedUsage(m, samples, now).state else m'.state
  }

  function TakeStep(settings: Settings, w: World, step: Step): World {
    match step
    case Launching(samples, now, copies) =>
      var m := AtLaunch(settings, w.home);
      if m.registry.accounts == [] then w.(live := None)
      else
        (match Launch(m, samples, now, copies)
         case Ok(s) => World(w.home.(state := s), Some(m.(state := s)))
         case Err(_) => World(w.home.(state := EvaluatedUsage(m, samples, now).state), None))
    case Ticking(samples, now) =>
      if w.live.None? then w
      else
        var m := EvaluatedUsage(w.live.value, samples, now);
        World(w.home.(state := m.state), Some(m))
    case Hitting(samples, now, copies) =>
      if w.live.None? then w
      else
        World(w.home.(state := WrittenByLimit(w.live.value, samples, now, copies)),
              Some(RateLimited(w.live.value, samples, now, copies).0))
    case Quitting => w.(live := None)
    case Commanding(c, now, copies) => w.(home := Run(w.home, c, now, copies).0)
  }

  function TakeSteps(settings: Settings, w: World, steps: seq<Step>): World {
    if steps == [] then w
    else TakeStep(settings, TakeSteps(settings, w, steps[..|steps| - 1]), steps[|steps| - 1])
  }

  const NOTHING := World(EMPTY_HOME, None)

  // ---- Credentials ------------------------------------------------------------------------

  /**
   The samples that one evaluation can collect: one for each account of the
   balancer's copy, in order.  An account that was removed from the file has
   lost its credentials, so its check fails for good.
   */
  ghost predicate IsPossible(m: Auth, file: Registry, samples: seq<Sample>) {
    && |samples| == |Ordered(m.registry)|
    && forall i :: 0 <= i < |samples| ==>
         && samples[i].name == Ordered(m.registry)[i].name
         && (!IsRegistered(file, samples[i].name) ==> samples[i].check == Permanent)
  }

  lemma {:induction false} LastSampleShows(m: Auth, samples: seq<Sample>, active: Name, now: Time, name: Name)
    requires exists i :: 0 <= i < |samples| && samples[i].name == name
    requires forall i :: 0 <= i < |samples| && samples[i].name == name ==> samples[i].check == Permanent
    ensures StateOf(WithSamples(m, samples, active, now).state, name).lastUsageResult == UsagePermanent
  {
    var front, last := samples[..|samples| - 1], samples[|samples| - 1];
    if last.name != name {
      var i :| 0 <= i < |samples| && samples[i].name == name;
      assert front[i].name == name;
      LastSampleShows(m, front, active, now, name);
    }
  }

  /** An account without credentials is not eligible once the samples are merged. */
  lemma RemovedIsNotEligible(m: Auth, file: Registry, samples: seq<Sample>, now: Time, name: Name)
    requires IsSoundAuth(m) && IsPossible(m, file, samples)
    requires IsRegistered(m.registry, name) && !IsRegistered(file, name)
    ensures StateOf(EvaluatedUsage(m, samples, now).state, name).lastUsageResult == UsagePermanent
    ensures StateOf(WithSamples(m, samples, m.state.active, now).state, name).lastUsageResult == UsagePermanent
  {
    EvaluatedKeeps(m, samples, now);
    OrderedAreRegistered(m.registry);
    var a :| a in Ordered(m.registry) && a.name == name;
    var i :| 0 <= i < |samples| && Ordered(m.registry)[i] == a;
    assert samples[i].name == name;
    LastSampleShows(m, samples, m.state.active, now, name);
  }

  // ---- Consistency with the balancer's own copy ------------------------------------------

  /**
   The file still allows what the balancer's copy allows: the active account
   is enabled in it, and so is every other one of the copy that still has
   credentials.
   */
  predicate StillAllows(m: Auth, file: Registry) {
    m.state.active != "" ==>
      && IsEnabled(file, m.state.active)
      && forall a :: a in m.registry.accounts && a.enabled && IsRegistered(file, a.name) ==> IsEnabled(file, a.name)
  }

  lemma StillAllowsIs(m: Auth, file: Registry)
    requires IsWellFormed(m.registry)
    ensures StillAllows(m, file) <==>
      m.state.active != "" ==>
        && IsEnabled(file, m.state.active)
        && forall name :: IsEnabled(m.registry, name) && IsRegistered(file, name) ==> IsEnabled(file, name)
  {
    forall name ensures IsEnabled(m.registry, name) <==> Account(name, true) in m.registry.accounts {
      EnabledIs(m.registry, name);
    }
    assert forall a: Account :: a.enabled ==> a == Account(a.name, true);
  }

  /** The files are sound, and so is a running balancer, whose copy the file still allows. */
  predicate IsInStep(w: World) {
    && IsSound(w.home)
    && (w.live.Some? ==> IsSoundAuth(w.live.value) && StillAllows(w.live.value, w.home.registry))
  }

  lemma SameAccountsConsistent(r: Registry, r': Registry, s: AuthState)
    requires r.accounts == r'.accounts && IsConsistent(r, s)
    ensures IsConsistent(r', s)
  {
  }

  lemma WrittenByLimitKeeps(m: Auth, samples: seq<Sample>, now: Time, copies: bool)
    requires IsSoundAuth(m)
    ensures IsConsistent(m.registry, WrittenByLimit(m, samples, now, copies))
  {
    EvaluatedKeeps(m, samples, now);
    RateLimitedKeeps(m, samples, now, copies);
  }

  /** A switch is queued only to a fresh account. */
  lemma RefreshedPends(m: Auth, now: Time)
    requires IsSoundAuth(m)
    ensures Refreshed(m, now).pendingActive != "" ==> FreshEligible(m, Refreshed(m, now).pendingActive, now)
  {
    FallbackTargetIs(m, Fresh, m.state.active, now);
  }

  /** What an evaluation writes is consistent with a file that still allows the copy. */
  lemma EvaluationFits(m: Auth, file: Registry, samples: seq<Sample>, now: Time)
    requires IsSoundAuth(m) && StillAllows(m, file) && IsPossible(m, file, samples)
    ensures IsConsistent(file, EvaluatedUsage(m, samples, now).state)
    ensures StillAllows(EvaluatedUsage(m, samples, now), file)
  {
    EvaluatedKeeps(m, samples, now);
    WithSamplesKeeps(m, samples, m.state.active, now);
    StillAllowsIs(m, file);
    var merged := WithSamples(m, samples, m.state.active, now);
    RefreshedPends(merged, now);
    var pending := Refreshed(merged, now).pendingActive;
    if pending != "" && !IsRegistered(file, pending) {
      RemovedIsNotEligible(m, file, samples, now, pending);
    }
  }

  /** A rate limit stays with the active account or goes to one that has credentials. */
  lemma LimitGoes(m: Auth, file: Registry, samples: seq<Sample>, now: Time, copies: bool)
    requires IsSoundAuth(m) && IsPossible(m, file, samples)
    ensures var (m', decision) := RateLimited(m, samples, now, copies);
      && (decision.SwitchedTo? ==>
            && m'.state.active == decision.name && m'.state.pendingActive == ""
            && IsEnabled(m.registry, decision.name) && IsRegistered(file, decision.name) && m.state.active != "")
      && (!decision.SwitchedTo? ==>
            && m'.state.active == m.state.active
            && m'.state.pendingActive == EvaluatedUsage(m, samples, now).state.pendingActive)
  {
    EvaluatedKeeps(m, samples, now);
    var e := EvaluatedUsage(m, samples, now);
    if e.state.active != "" {
      var d := MarkedDepleted(e, now);
      FallbackTargetIs(d, Executable, d.state.active, now);
      var target := FallbackTarget(d, Executable, d.state.active, now);
      assert target != d.state.active ==> StateOf(d.state, target) == StateOf(e.state, target);
      if target != "" && !IsRegistered(file, target) {
        RemovedIsNotEligible(m, file, samples, now, target);
      }
    }
  }

  /** So does what a rate limit writes. */
  lemma LimitFits(m: Auth, file: Registry, samples: seq<Sample>, now: Time, copies: bool)
    requires IsSoundAuth(m) && StillAllows(m, file) && IsPossible(m, file, samples)
    ensures IsConsistent(file, WrittenByLimit(m, samples, now, copies))
    ensures StillAllows(RateLimited(m, samples, now, copies).0, file)
  {
    EvaluationFits(m, file, samples, now);
    RateLimitedKeeps(m, samples, now, copies);
    WrittenByLimitKeeps(m, samples, now, copies);
    LimitGoes(m, file, samples, now, copies);
    StillAllowsIs(m, file);
    StillAllowsIs(RateLimited(m, samples, now, copies).0, file);
  }

  // ---- Runs ----------------------------------------------------------------------------------

  /** A step that can happen, and that takes from a running balancer no account it may still use. */
  ghost predicate IsAllowed(settings: Settings, w: World, step: Step) {
    w.live.Some? ==>
      match step
      case Ticking(samples, _) => IsPossible(w.live.value, w.home.registry, samples)
      case Hitting(samples, _, _) => IsPossible(w.live.value, w.home.registry, samples)
      case Commanding(c, now, copies) => StillAllows(w.live.value, Run(w.home, c, now, copies).0.registry)
      case _ => true
  }

  lemma LaunchStepKeepsInStep(settings: Settings, w: World, samples: seq<Sample>, now: Time, copies: bool)
    requires IsSound(w.home)
    ensures IsInStep(TakeStep(settings, w, Launching(samples, now, copies)))
  {
    var m := AtLaunch(settings, w.home);
    LoadedIs(w.home.registry);
    SameAccountsConsistent(w.home.registry, m.registry, w.home.state);
    EvaluatedKeeps(m, samples, now);
    LaunchKeeps(m, samples, now, copies);
    var w' := TakeStep(settings, w, Launching(samples, now, copies));
    if m.registry.accounts != [] {
      SameAccountsConsistent(m.registry, w.home.registry, w'.home.state);
      if w'.live.Some? { StillAllowsIs(w'.live.value, w.home.registry); }
    }
  }

  lemma RunningStepKeepsInStep(settings: Settings, w: World, step: Step)
    requires IsInStep(w) && IsAllowed(settings, w, step) && (step.Ticking? || step.Hitting? || step.Quitting?)
    ensures IsInStep(TakeStep(settings, w, step))
  {
    if w.live.Some? && !step.Quitting? {
      var m := w.live.value;
      EvaluatedKeeps(m, step.samples, step.now);
      if step.Hitting? {
        RateLimitedKeeps(m, step.samples, step.now, step.copies);
        LimitFits(m, w.home.registry, step.samples, step.now, step.copies);
      } else {
        EvaluationFits(m, w.home.registry, step.samples, step.now);
      }
    }
  }

  lemma StepKeepsInStep(settings: Settings, w: World, step: Step)
    requires IsInStep(w) && IsAllowed(settings, w, step)
    ensures IsInStep(TakeStep(settings, w, step))
  {
    match step
    case Launching(samples, now, copies) => LaunchStepKeepsInStep(settings, w, samples, now, copies);
    case Commanding(c, now, copies) => CommandsAreSound(w.home, c, now, copies);
    case _ => RunningStepKeepsInStep(settings, w, step);
  }

  ghost predicate AreAllowed(settings: Settings, w: World, steps: seq<Step>) {
    forall i :: 0 <= i < |steps| ==> IsAllowed(settings, TakeSteps(settings, w, steps[..i]), steps[i])
  }

  /**
   Over every sequence of launches, ticks, rate limits and commands the files
   stay sound, also while commands run behind a running balancer's back, as
   long as none takes an account from it that it may still use.
   */
  lemma {:induction false} FilesStaySound(settings: Settings, steps: seq<Step>)
    requires AreAllowed(settings, NOTHING, steps)
    ensures IsInStep(TakeSteps(settings, NOTHING, steps))
  {
    if steps == [] {
    } else {
      var last := |steps| - 1;
      var front := steps[..last];
      assert forall i :: 0 <= i < last ==> front[..i] == steps[..i] && front[i] == steps[i];
      FilesStaySound(settings, front);
      assert steps[..last] == front;
      StepKeepsInStep(settings, TakeSteps(settings, NOTHING, front), steps[last]);
    }
  }

  // ---- Commands behind a running balancer's back -----------------------------------------------

  /** Importing, activating and enabling are always allowed. */
  lemma MoreIsAllowed(m: Auth, h: Home, c: Command, now: Time, copies: bool)
    requires IsSoundAuth(m) && IsSound(h) && StillAllows(m, h.registry)
    requires c.DoImport? || c.DoActivate? || c.DoEnable?
    ensures StillAllows(m, Run(h, c, now, copies).0.registry)
  {
    MoreOnlySwitchesOn(h, c, now, copies);
    StillAllowsIs(m, h.registry);
    StillAllowsIs(m, Run(h, c, now, copies).0.registry);
  }

  /** Disabling an account is allowed exactly when the balancer's copy does not have it enabled. */
  lemma DisablingIsAllowedExactly(m: Auth, h: Home, raw: string, now: Time, copies: bool)
    requires IsSoundAuth(m) && IsSound(h) && StillAllows(m, h.registry) && m.state.active != ""
    requires IsEnabled(h.registry, Normalized(raw)) && DisableAccount(h, raw, now, copies).1.None?
    ensures StillAllows(m, DisableAccount(h, raw, now, copies).0.registry) <==> !IsEnabled(m.registry, Normalized(raw))
  {
    DisableIs(h, raw, now, copies);
    StillAllowsIs(m, h.registry);
    StillAllowsIs(m, DisableAccount(h, raw, now, copies).0.registry);
  }

  /** Removing an account is allowed exactly when the balancer does not use it. */
  lemma RemovingIsAllowedExactly(m: Auth, h: Home, raw: string, now: Time, copies: bool)
    requires IsSoundAuth(m) && IsSound(h) && StillAllows(m, h.registry) && m.state.active != ""
    requires IsRegistered(h.registry, Normalized(raw))
    ensures StillAllows(m, RemoveAccount(h, raw, now, copies).0.registry) <==> m.state.active != Normalized(raw)
  {
    RemoveIs(h, raw, now, copies);
    StillAllowsIs(m, h.registry);
    StillAllowsIs(m, RemoveAccount(h, raw, now, copies).0.registry);
  }
}
