/** When a running balancer's stale copy of the registry makes the files unsound: exactly when, and that it happens. */
module BalancerStale {
  import opened Wrappers
  import opened AccountCommands
  import opened AccountEffects
  import opened AccountNames
  import opened Accounts
  import opened Balancer
  import opened BalancerChoice
  import opened BalancerRuns
  import opened BalancerWorld
  import opened UsageSamples

  /** A sample that shows an unused account. */
  const UNUSED := Sampled(Snapshot(Some(0), Some(0), false, false, false, None, None, None))

  function CheckFor(name: Name, singled: Name): Check {
    if name == singled then UNUSED else Permanent
  }

  /** Samples that single out one account: it is unused, all others fail. */
  function Singled(accounts: seq<Account>, singled: Name): seq<Sample> {
    if accounts == [] then []
    else
      var name := accounts[|accounts| - 1].name;
      Singled(accounts[..|accounts| - 1], singled) + [Sample(name, CheckFor(name, singled))]
  }

  /** What is known about an account says that it was sampled now, as the singled one or as another. */
  predicate IsShown(a: AccountState, isSingled: bool, now: Time, settings: Settings) {
    if isSingled then
      && a.lastUsageResult == UsageOK && !a.limitReached && a.retryAfter.None?
      && a.fiveHourUsedPct == Some(0) && a.weeklyUsedPct == Some(0)
      && a.lastUsageFreshUntil == Some(now + settings.staleAfter)
    else a.lastUsageResult == UsagePermanent
  }

  lemma SampleShows(m: Auth, name: Name, singled: Name, active: Name, now: Time)
    ensures var s := WithSample(m, Sample(name, CheckFor(name, singled)), active, now).state;
      && IsShown(StateOf(s, name), name == singled, now, m.settings)
      && forall other :: other != name ==> StateOf(s, other) == StateOf(m.state, other)
  {
  }

  lemma {:induction false} SingledIs(m: Auth, accounts: seq<Account>, singled: Name, active: Name, now: Time)
    requires DistinctNames(accounts)
    ensures var s := WithSamples(m, Singled(accounts, singled), active, now).state;
      forall i :: 0 <= i < |accounts| ==>
        IsShown(StateOf(s, accounts[i].name), accounts[i].name == singled, now, m.settings)
  {
    if accounts == [] {
    } else {
      var last := |accounts| - 1;
      var samples := Singled(accounts[..last], singled);
      SingledIs(m, accounts[..last], singled, active, now);
      WithSamplesKeeps(m, samples, active, now);
      assert Singled(accounts, singled)[..|samples|] == samples;
      SampleShows(WithSamples(m, samples, active, now), accounts[last].name, singled, active, now);
      assert forall i :: 0 <= i < last ==> accounts[..last][i] == accounts[i];
    }
  }

  /** The samples of one evaluation that single out an account; nobody is singled out by the empty name. */
  function SingledOut(m: Auth, name: Name): seq<Sample> {
    Singled(Ordered(m.registry), name)
  }

  lemma {:induction false} SingledNames(accounts: seq<Account>, singled: Name)
    ensures |Singled(accounts, singled)| == |accounts|
    ensures forall i :: 0 <= i < |accounts| ==>
      Singled(accounts, singled)[i] == Sample(accounts[i].name, CheckFor(accounts[i].name, singled))
  {
    if accounts != [] {
      SingledNames(accounts[..|accounts| - 1], singled);
    }
  }

  /** They can be collected when the account still has its credentials. */
  lemma SingledIsPossible(m: Auth, file: Registry, name: Name)
    requires IsWellFormed(m.registry) && (name == "" || IsRegistered(file, name))
    ensures IsPossible(m, file, SingledOut(m, name))
  {
    SingledNames(Ordered(m.registry), name);
    OrderedAreRegistered(m.registry);
    assert forall i :: 0 <= i < |Ordered(m.registry)| ==> Ordered(m.registry)[i].name != "";
  }

  /** After an evaluation with these samples the singled account is fresh-eligible, and no other is usable. */
  lemma SingledAlone(m: Auth, name: Name, now: Time)
    requires IsSoundAuth(m) && m.settings.staleAfter >= 0 && m.settings.thresholdPct > 0
    ensures var e := EvaluatedUsage(m, SingledOut(m, name), now);
      && (IsEnabled(m.registry, name) ==> name != "" && FreshEligible(e, name, now))
      && forall other :: other != name && IsRegistered(m.registry, other) ==>
           StateOf(e.state, other).lastUsageResult == UsagePermanent
  {
    var accounts := Ordered(m.registry);
    var samples := SingledOut(m, name);
    OrderedAreRegistered(m.registry);
    SingledIs(m, accounts, name, m.state.active, now);
    EvaluatedKeeps(m, samples, now);
    var s, e := WithSamples(m, samples, m.state.active, now).state, EvaluatedUsage(m, samples, now);
    forall other | IsRegistered(m.registry, other)
      ensures other != "" && IsShown(StateOf(e.state, other), other == name, now, m.settings)
    {
      var i :| 0 <= i < |accounts| && accounts[i].name == other;
      assert StateOf(e.state, other) == StateOf(s, other);
    }
    assert IsEnabled(m.registry, name) ==> IsRegistered(m.registry, name);
  }

  /** With the samples that single it out a rate limit puts an account in use; with none singled out, the active one. */
  lemma {:induction false} SingledIsChosen(m: Auth, name: Name, now: Time)
    requires IsSoundAuth(m) && m.state.active != "" && (name == "" || IsEnabled(m.registry, name))
    requires m.settings.staleAfter >= 0 && m.settings.thresholdPct > 0
    ensures WrittenByLimit(m, SingledOut(m, name), now, true).active == if name == "" then m.state.active else name
  {
    var samples := SingledOut(m, name);
    SingledAlone(m, name, now);
    EvaluatedKeeps(m, samples, now);
    var e := EvaluatedUsage(m, samples, now);
    var d := MarkedDepleted(e, now);
    FallbackTargetIs(d, Executable, m.state.active, now);
    var target := FallbackTarget(d, Executable, m.state.active, now);
    forall other | IsCandidate(d, Executable, m.state.active, other, now) ensures other == name != "" {
      assert IsRegistered(m.registry, other);
      assert StateOf(d.state, other) == StateOf(e.state, other);
    }
    if name != "" && name != m.state.active {
      assert StateOf(d.state, name) == StateOf(e.state, name);
      assert IsCandidate(d, Executable, m.state.active, name, now);
    }
    if target != "" { ActivateKeeps(d, target, now, true); }
  }

  // ---- Exactly when --------------------------------------------------------------------------

  /** Whatever a running balancer with the state `m` can sample, what it writes is consistent with the registry file. */
  ghost predicate WritesStaySound(m: Auth, file: Registry) {
    forall samples, now, copies :: IsPossible(m, file, samples) ==>
      && IsConsistent(file, EvaluatedUsage(m, samples, now).state)
      && IsConsistent(file, WrittenByLimit(m, samples, now, copies))
  }

  /** An account that the balancer would still use although the file does not allow it. */
  ghost function Unallowed(m: Auth, file: Registry): (name: Name)
    requires IsWellFormed(m.registry) && !StillAllows(m, file) && IsEnabled(file, m.state.active)
    ensures name != "" && IsEnabled(m.registry, name) && IsRegistered(file, name) && !IsEnabled(file, name)
  {
    StillAllowsIs(m, file);
    var name :| IsEnabled(m.registry, name) && IsRegistered(file, name) && !IsEnabled(file, name);
    LookupIs(m.registry.accounts, name);
    name
  }

  lemma AllowedStaysSound(m: Auth, file: Registry)
    requires IsSoundAuth(m) && StillAllows(m, file)
    ensures WritesStaySound(m, file)
  {
    forall samples, now, copies | IsPossible(m, file, samples)
      ensures IsConsistent(file, EvaluatedUsage(m, samples, now).state)
      ensures IsConsistent(file, WrittenByLimit(m, samples, now, copies))
    {
      EvaluationFits(m, file, samples, now);
      LimitFits(m, file, samples, now, copies);
    }
  }

  /** The samples that make the files unsound. */
  lemma UnallowedBreaks(m: Auth, file: Registry) returns (samples: seq<Sample>)
    requires IsSoundAuth(m) && IsWellFormed(file) && !StillAllows(m, file)
    requires m.settings.staleAfter >= 0 && m.settings.thresholdPct > 0
    ensures IsPossible(m, file, samples) && !IsConsistent(file, WrittenByLimit(m, samples, 0, true))
  {
    var name := if !IsEnabled(file, m.state.active) then "" else Unallowed(m, file);
    samples := SingledOut(m, name);
    SingledIsPossible(m, file, name);
    SingledIsChosen(m, name, 0);
    assert WrittenByLimit(m, samples, 0, true).active == if name == "" then m.state.active else name;
  }

  /**
   The files stay sound under a running balancer, whatever its samples show,
   exactly when it has no active account, or the active account is enabled in
   the file and every other account that is enabled in its copy is enabled
   there too or no longer registered.
   */
  lemma StaleRegistryExactly(m: Auth, file: Registry)
    requires IsSoundAuth(m) && IsWellFormed(file)
    requires m.settings.staleAfter >= 0 && m.settings.thresholdPct > 0
    ensures WritesStaySound(m, file) <==>
      m.state.active != "" ==>
        && IsEnabled(file, m.state.active)
        && forall name :: IsEnabled(m.registry, name) && IsRegistered(file, name) ==> IsEnabled(file, name)
  {
    StillAllowsIs(m, file);
    if StillAllows(m, file) {
      AllowedStaysSound(m, file);
    } else {
      var samples := UnallowedBreaks(m, file);
    }
  }

  // ---- It happens ---------------------------------------------------------------------------------

  function Both(x: Name, y: Name): seq<Account> {
    [Account(x, true), Account(y, true)]
  }

  /** Two accounts are imported, a balancer is launched on the first, and the second is disabled behind it. */
  function BeforeTheHit(x: Name, y: Name): seq<Step> {
    [Commanding(DoImport(x, false, true), 1, true), Commanding(DoImport(y, false, true), 2, true),
     Launching(Singled(Both(x, y), x), 3, true), Commanding(DoDisable(y), 4, true)]
  }

  /** The first account hits a limit while the second shows room. */
  function Hit(x: Name, y: Name): Step {
    Hitting(Singled(Both(x, y), y), 5, true)
  }

  lemma OneStepMore(settings: Settings, w: World, steps: seq<Step>, step: Step)
    ensures TakeSteps(settings, w, steps + [step]) == TakeStep(settings, TakeSteps(settings, w, steps), step)
  {
    assert (steps + [step])[..|steps|] == steps;
  }

  lemma OneNamed(a: Account, name: Name, with: bool)
    ensures Named([a], name, with) == if (a.name == name) == with then [a] else []
  {
    assert [a][1..] == [];
  }

  lemma BothOrdered(x: Name, y: Name)
    requires x != "" && y != "" && x != y && IsNormal(x) && IsNormal(y)
    ensures var r := Registry(x, Both(x, y));
      IsWellFormed(r) && Ordered(r) == Both(x, y) && IsEnabled(r, x) && IsEnabled(r, y)
  {
    var rest := [Account(y, true)];
    assert Both(x, y)[1..] == rest;
    OneNamed(Account(y, true), x, true);
    OneNamed(Account(y, true), x, false);
    assert Named(Both(x, y), x, true) == [Account(x, true)] + [] == [Account(x, true)];
    assert Named(Both(x, y), x, false) == rest;
    assert Lookup(rest, y) == Some(Account(y, true));
  }

  /** The home after the two imports: the first account is preferred and active. */
  function Imported(x: Name, y: Name): Home {
    Home(Registry(x, Both(x, y)), Activated(NO_STATE, x, 1))
  }

  lemma FirstImport(x: Name)
    requires x != "" && IsNormal(x)
    ensures Import(EMPTY_HOME, x, false, 1, true, true).0
         == Home(Registry(x, [Account(x, true)]), Activated(NO_STATE, x, 1))
  {
    NormalizedIsNormal(x);
    assert [] + [Account(x, true)] == [Account(x, true)];
    assert Fronted([Account(x, true)], x) == [Account(x, true)] by {
      assert [Account(x, true)][..0] == [];
    }
  }

  lemma SecondImport(x: Name, y: Name, s: AuthState)
    requires x != "" && y != "" && x != y && IsNormal(y) && s.active == x
    ensures Import(Home(Registry(x, [Account(x, true)]), s), y, false, 2, true, true).0
      == Home(Registry(x, Both(x, y)), s)
  {
    NormalizedIsNormal(y);
    assert [Account(x, true)] + [Account(y, true)] == Both(x, y);
    assert Lookup([Account(x, true)], y).None?;
  }

  /** The launch keeps the first account, which is the only fresh one. */
  lemma FirstIsLaunched(settings: Settings, x: Name, y: Name)
    requires x != "" && y != "" && x != y && IsNormal(x) && IsNormal(y)
    requires settings.staleAfter >= 0 && settings.thresholdPct > 0
    ensures var launch := Launch(AtLaunch(settings, Imported(x, y)), Singled(Both(x, y), x), 3, true);
      launch.Ok? && launch.value.active == x && IsConsistent(Registry(x, Both(x, y)), launch.value)
  {
    var m, samples := AtLaunch(settings, Imported(x, y)), Singled(Both(x, y), x);
    BothOrdered(x, y);
    SingledAlone(m, x, 3);
    EvaluatedKeeps(m, samples, 3);
    WithSamplesKeeps(m, samples, x, 3);
    LaunchKeeps(m, samples, 3, true);
    var e := EvaluatedUsage(m, samples, 3);
    LaunchChoiceIs(e, 3);
    forall name | FreshEligible(e, name, 3) ensures name == x {
      assert IsRegistered(m.registry, name);
    }
    assert FreshEligible(e, x, 3) && LaunchChoice(e, 3) == x;
  }

  lemma TwoSteps(settings: Settings, w: World, s: Step, t: Step)
    ensures TakeSteps(settings, w, [s, t]) == TakeStep(settings, TakeStep(settings, w, s), t)
  {
    OneStepMore(settings, w, [], s);
    OneStepMore(settings, w, [] + [s], t);
    assert [] + [s] + [t] == [s, t];
  }

  lemma ImportStep(settings: Settings, h: Home, raw: string, now: Time)
    ensures TakeStep(settings, World(h, None), Commanding(DoImport(raw, false, true), now, true))
         == World(Import(h, raw, false, now, true, true).0, None)
  {
  }

  lemma ImportedIs(settings: Settings, x: Name, y: Name)
    requires x != "" && y != "" && x != y && IsNormal(x) && IsNormal(y)
    ensures TakeSteps(settings, NOTHING, BeforeTheHit(x, y)[..2]) == World(Imported(x, y), None)
  {
    var steps, s := BeforeTheHit(x, y), Activated(NO_STATE, x, 1);
    assert steps[..2] == [steps[0], steps[1]];
    TwoSteps(settings, NOTHING, steps[0], steps[1]);
    ImportStep(settings, EMPTY_HOME, x, 1);
    FirstImport(x);
    ImportStep(settings, Home(Registry(x, [Account(x, true)]), s), y, 2);
    SecondImport(x, y, s);
  }

  lemma LaunchedIs(settings: Settings, x: Name, y: Name)
    requires x != "" && y != "" && x != y && IsNormal(x) && IsNormal(y)
    requires settings.staleAfter >= 0 && settings.thresholdPct > 0
    ensures var w := TakeStep(settings, World(Imported(x, y), None), BeforeTheHit(x, y)[2]);
      && IsSound(w.home) && w.home.registry == Registry(x, Both(x, y))
      && w.live == Some(Auth(settings, Registry(x, Both(x, y)), w.home.state)) && w.home.state.active == x
  {
    BothOrdered(x, y);
    FirstIsLaunched(settings, x, y);
  }

  /** Where the run stands before the hit. */
  lemma BeforeTheHitIs(settings: Settings, x: Name, y: Name)
    requires x != "" && y != "" && x != y && IsNormal(x) && IsNormal(y)
    requires settings.staleAfter >= 0 && settings.thresholdPct > 0
    ensures var w := TakeSteps(settings, NOTHING, BeforeTheHit(x, y));
      && IsSound(w.home) && w.live.Some? && IsSoundAuth(w.live.value) && w.live.value.settings == settings
      && w.live.value.registry == Registry(x, Both(x, y)) && w.live.value.state.active == x
      && IsRegistered(w.home.registry, y) && !IsEnabled(w.home.registry, y)
  {
    var steps := BeforeTheHit(x, y);
    ImportedIs(settings, x, y);
    LaunchedIs(settings, x, y);
    OneStepMore(settings, NOTHING, steps[..2], steps[2]);
    OneStepMore(settings, NOTHING, steps[..2] + [steps[2]], steps[3]);
    assert steps[..2] + [steps[2]] + [steps[3]] == steps;
    var w := TakeStep(settings, World(Imported(x, y), None), steps[2]);
    SecondDisabled(settings, w, y);
    BothOrdered(x, y);
  }

  lemma SecondDisabled(settings: Settings, w: World, y: Name)
    requires IsSound(w.home) && IsNormal(y) && IsEnabled(w.home.registry, y) && w.home.state.active != y
    ensures var w' := TakeStep(settings, w, Commanding(DoDisable(y), 4, true));
      IsSound(w'.home) && w'.live == w.live && IsRegistered(w'.home.registry, y) && !IsEnabled(w'.home.registry, y)
  {
    NormalizedIsNormal(y);
    DisableIs(w.home, y, 4, true);
    CommandsAreSound(w.home, DoDisable(y), 4, true);
  }

  /**
   The files do become unsound, with every sample one that can be collected:
   the run ends with an active account that the file has as disabled.
   */
  lemma StaleRegistryIsReached(settings: Settings, x: Name, y: Name)
    requires x != "" && y != "" && x != y && IsNormal(x) && IsNormal(y)
    requires settings.staleAfter >= 0 && settings.thresholdPct > 0
    ensures var w := TakeSteps(settings, NOTHING, BeforeTheHit(x, y));
      IsSound(w.home) && w.live.Some? && IsPossible(w.live.value, w.home.registry, Hit(x, y).samples)
    ensures var h := TakeSteps(settings, NOTHING, BeforeTheHit(x, y) + [Hit(x, y)]).home;
      h.state.active == y && !IsEnabled(h.registry, y) && !IsSound(h)
  {
    var w := TakeSteps(settings, NOTHING, BeforeTheHit(x, y));
    BothOrdered(x, y);
    BeforeTheHitIs(settings, x, y);
    SingledIsPossible(w.live.value, w.home.registry, y);
    SingledIsChosen(w.live.value, y, 5);
    OneStepMore(settings, NOTHING, BeforeTheHit(x, y), Hit(x, y));
  }
}
