/** What the balancer decides, told on what is known about the accounts and not by its own searches and tests. */
module BalancerLaws {
  import opened Wrappers
  import opened AccountNames
  import opened Accounts
  import opened UsageSamples
  import opened Balancer
  import opened BalancerChoice
  import opened BalancerRuns

  // ---- The order of accounts --------------------------------------------------------

  /** `x` stands in front of `y` in the list. */
  ghost predicate IsBefore(accounts: seq<Account>, x: Name, y: Name) {
    exists i, j :: 0 <= i < j < |accounts| && accounts[i].name == x && accounts[j].name == y
  }

  lemma {:induction false} NamedStandsThere(accounts: seq<Account>, name: Name, i: nat) returns (p: nat)
    requires i < |Named(accounts, name, false)|
    ensures p < |accounts| && accounts[p] == Named(accounts, name, false)[i]
  {
    NamedMembers(accounts, name, false);
    assert Named(accounts, name, false)[i] in accounts;
    p :| p < |accounts| && accounts[p] == Named(accounts, name, false)[i];
  }

  lemma {:induction false} NamedKeepsOrder(accounts: seq<Account>, name: Name, i: nat, j: nat) returns (p: nat, q: nat)
    requires i < j < |Named(accounts, name, false)|
    ensures p < q < |accounts|
    ensures accounts[p] == Named(accounts, name, false)[i] && accounts[q] == Named(accounts, name, false)[j]
  {
    if accounts[0].name == name {
      p, q := NamedKeepsOrder(accounts[1..], name, i, j);
      p, q := p + 1, q + 1;
    } else if i > 0 {
      p, q := NamedKeepsOrder(accounts[1..], name, i - 1, j - 1);
      p, q := p + 1, q + 1;
    } else {
      q := NamedStandsThere(accounts[1..], name, j - 1);
      p, q := 0, q + 1;
    }
  }

  lemma TwoDiffer(accounts: seq<Account>, name: Name)
    requires |accounts| > 1 && DistinctNames(accounts)
    ensures exists a :: a in accounts && a.name != name
  {
    assert accounts[0] in accounts && accounts[1] in accounts;
  }

  lemma {:induction false} NamedOne(accounts: seq<Account>, name: Name)
    requires DistinctNames(accounts) && IsSomewhere(accounts, name)
    ensures |Named(accounts, name, true)| == 1 && Named(accounts, name, true)[0].name == name
  {
    var named := Named(accounts, name, true);
    NamedMembers(accounts, name, true);
    var a :| a in accounts && a.name == name;
    assert a in named;
    if |named| > 1 { TwoDiffer(named, name); }
  }

  ghost predicate IsSomewhere(accounts: seq<Account>, name: Name) {
    exists a :: a in accounts && a.name == name
  }

  /** Behind the preferred account the others stand in the order of the registry. */
  lemma OrderIsKept(r: Registry, x: Name, y: Name)
    requires x != r.preferred && y != r.preferred && IsBefore(Ordered(r), x, y)
    ensures IsBefore(r.accounts, x, y)
  {
    var p, q := Named(r.accounts, r.preferred, true), Named(r.accounts, r.preferred, false);
    NamedMembers(r.accounts, r.preferred, true);
    var i, j :| 0 <= i < j < |Ordered(r)| && Ordered(r)[i].name == x && Ordered(r)[j].name == y;
    forall k | 0 <= k < |p| ensures p[k].name == r.preferred { assert p[k] in p; }
    var s, t := NamedKeepsOrder(r.accounts, r.preferred, i - |p|, j - |p|);
  }

  /** The preferred account comes first, and the others in the order of the registry. */
  lemma OrderedExactly(r: Registry)
    requires IsWellFormed(r)
    ensures multiset(Ordered(r)) == multiset(r.accounts)
    ensures r.preferred != "" ==> |Ordered(r)| > 0 && Ordered(r)[0].name == r.preferred
    ensures forall x, y :: x != r.preferred && y != r.preferred && IsBefore(Ordered(r), x, y) ==>
      IsBefore(r.accounts, x, y)
  {
    NamedSplits(r.accounts, r.preferred);
    if r.preferred != "" {
      LookupIs(r.accounts, r.preferred);
      assert IsSomewhere(r.accounts, r.preferred);
      NamedOne(r.accounts, r.preferred);
    }
    forall x, y | x != r.preferred && y != r.preferred && IsBefore(Ordered(r), x, y)
      ensures IsBefore(r.accounts, x, y)
    {
      OrderIsKept(r, x, y);
    }
  }

  lemma {:induction false} NamedSplits(accounts: seq<Account>, name: Name)
    ensures multiset(Named(accounts, name, true) + Named(accounts, name, false)) == multiset(accounts)
  {
    if accounts != [] {
      NamedSplits(accounts[1..], name);
      assert accounts == [accounts[0]] + accounts[1..];
      var p, q := Named(accounts[1..], name, true), Named(accounts[1..], name, false);
      assert multiset(p + q) == multiset(p) + multiset(q);
    }
  }

  // ---- The least used account -----------------------------------------------------------

  /** The percentage that is used, an unknown one counting as more than all. */
  function UsedOf(pct: Option<int>): int {
    match pct case None => 101 case Some(p) => p
  }

  function FiveHour(m: Auth, name: Name): int {
    UsedOf(StateOf(m.state, name).fiveHourUsedPct)
  }

  function Weekly(m: Auth, name: Name): int {
    UsedOf(StateOf(m.state, name).weeklyUsedPct)
  }

  function Larger(m: Auth, name: Name): int {
    if FiveHour(m, name) >= Weekly(m, name) then FiveHour(m, name) else Weekly(m, name)
  }

  /** Both windows are used as much. */
  predicate IsUsedAlike(m: Auth, x: Name, y: Name) {
    FiveHour(m, x) == FiveHour(m, y) && Weekly(m, x) == Weekly(m, y)
  }

  /**
   Of all candidates this one has the smallest larger percentage, among those
   the smallest five-hour one, among those the smallest weekly one; and of
   candidates used alike it is the active account, or else the preferred one,
   or else the first in order.
   */
  ghost predicate IsLeastUsed(m: Auth, test: Eligibility, exclude: Name, active: Name, now: Time, best: Name) {
    forall name :: IsCandidate(m, test, exclude, name, now) && name != best ==>
      && Larger(m, best) <= Larger(m, name)
      && (Larger(m, best) == Larger(m, name) ==> FiveHour(m, best) <= FiveHour(m, name))
      && (Larger(m, best) == Larger(m, name) && FiveHour(m, best) == FiveHour(m, name) ==>
            Weekly(m, best) <= Weekly(m, name))
      && (IsUsedAlike(m, best, name) ==>
            || best == active
            || (name != active && best == m.registry.preferred)
            || (name != active && name != m.registry.preferred && IsBefore(Ordered(m.registry), best, name)))
  }

  /** The least-used search answers with the least used candidate. */
  lemma LeastUsedExactly(m: Auth, test: Eligibility, exclude: Name, active: Name, now: Time)
    requires IsWellFormed(m.registry) && LeastUsed(m, test, exclude, active, now) != ""
    ensures IsCandidate(m, test, exclude, LeastUsed(m, test, exclude, active, now), now)
    ensures IsLeastUsed(m, test, exclude, active, now, LeastUsed(m, test, exclude, active, now))
  {
    var best := LeastUsed(m, test, exclude, active, now);
    LeastUsedIsBest(m, test, exclude, active, now);
    forall name | IsCandidate(m, test, exclude, name, now) && name != best
      ensures Better(m, best, name, active) && IsRegistered(m.registry, best) && IsRegistered(m.registry, name)
      ensures IndexOf(Ordered(m.registry), best) < IndexOf(Ordered(m.registry), name) ==>
        IsBefore(Ordered(m.registry), best, name)
    {
      CandidatesAreRegistered(m, test, name, now);
      CandidatesAreRegistered(m, test, best, now);
      RegisteredHasIndex(m.registry, best);
      RegisteredHasIndex(m.registry, name);
    }
  }

  // ---- The first account in order ---------------------------------------------------------

  lemma {:induction false} FirstCandidateComesFirst(m: Auth, accounts: seq<Account>, test: Eligibility, exclude: Name,
      now: Time, i: nat)
    requires i < |accounts| && IsCandidate(m, test, exclude, accounts[i].name, now)
    ensures exists k ::
      && 0 <= k <= i && FirstCandidate(m, accounts, test, exclude, now) == accounts[k].name
      && IsCandidate(m, test, exclude, accounts[k].name, now)
  {
    if !IsCandidate(m, test, exclude, accounts[0].name, now) {
      FirstCandidateComesFirst(m, accounts[1..], test, exclude, now, i - 1);
      var k :| 0 <= k <= i - 1 && FirstCandidate(m, accounts[1..], test, exclude, now) == accounts[1..][k].name
        && IsCandidate(m, test, exclude, accounts[1..][k].name, now);
      assert accounts[1..][k] == accounts[k + 1];
    }
  }

  /** The first of the accounts that is a candidate. */
  ghost predicate IsFirst(m: Auth, accounts: seq<Account>, test: Eligibility, exclude: Name, now: Time, name: Name) {
    exists k :: 0 <= k < |accounts| && accounts[k].name == name && IsCandidate(m, test, exclude, name, now)
      && forall i :: 0 <= i < k ==> !IsCandidate(m, test, exclude, accounts[i].name, now)
  }

  lemma {:induction false} FirstCandidateExactly(m: Auth, accounts: seq<Account>, test: Eligibility, exclude: Name,
      now: Time)
    requires FirstCandidate(m, accounts, test, exclude, now) != ""
    ensures IsFirst(m, accounts, test, exclude, now, FirstCandidate(m, accounts, test, exclude, now))
  {
    var name := FirstCandidate(m, accounts, test, exclude, now);
    if !IsCandidate(m, test, exclude, accounts[0].name, now) {
      var rest := accounts[1..];
      FirstCandidateExactly(m, rest, test, exclude, now);
      var k :| 0 <= k < |rest| && rest[k].name == name && IsCandidate(m, test, exclude, name, now)
        && forall i :: 0 <= i < k ==> !IsCandidate(m, test, exclude, rest[i].name, now);
      assert accounts[k + 1].name == name;
      assert forall i :: 0 < i < k + 1 ==> accounts[i] == rest[i - 1];
    } else {
      assert accounts[0].name == name;
    }
  }

  /** Another account that is eligible: the least used one when balancing by usage, otherwise the first in order. */
  ghost predicate IsFallback(m: Auth, test: Eligibility, active: Name, now: Time, target: Name) {
    && target != active && IsEligible(m, test, target, now)
    && if m.settings.policy == ByUsage then IsLeastUsed(m, test, active, "", now, target)
       else IsFirst(m, Ordered(m.registry), test, active, now, target)
  }

  /** A fallback is found whenever there is one. */
  lemma FallbackExactly(m: Auth, test: Eligibility, active: Name, now: Time)
    requires IsWellFormed(m.registry)
    ensures var target := FallbackTarget(m, test, active, now);
      if target == "" then forall name :: name != active ==> !IsEligible(m, test, name, now)
      else IsFallback(m, test, active, now, target)
  {
    var target, preferred := FallbackTarget(m, test, active, now), m.registry.preferred;
    FallbackTargetIs(m, test, active, now);
    forall name | name != active && IsEligible(m, test, name, now) ensures IsCandidate(m, test, active, name, now) { }
    if target != "" && m.settings.policy == ByUsage {
      LeastUsedExactly(m, test, active, "", now);
    } else if target != "" {
      OrderedExactly(m.registry);
      if preferred != "" && preferred != active && IsEligible(m, test, preferred, now) {
        assert Ordered(m.registry)[0].name == target;
      } else {
        FirstCandidateExactly(m, Ordered(m.registry), test, active, now);
      }
    }
  }

  // ---- Launch ----------------------------------------------------------------------------------

  lemma {:induction false} FirstLaunchableExactly(m: Auth, accounts: seq<Account>, now: Time)
    requires !FreshEligible(m, m.registry.preferred, now) && !FreshEligible(m, m.state.active, now)
    ensures FirstLaunchable(m, accounts, now) == FirstCandidate(m, accounts, Fresh, "", now)
  {
    if accounts != [] { FirstLaunchableExactly(m, accounts[1..], now); }
  }

  /**
   A launch takes a switch that is pending to a fresh account; otherwise a
   fresh account, the least used one when balancing by usage and else the
   preferred one, the active one, or the first in order; and without any the
   active account while its last known usage leaves room, the preferred one
   while it is enabled, or the active one.
   */
  ghost predicate IsLaunched(m: Auth, now: Time, name: Name) {
    var active, pending, preferred := m.state.active, m.state.pendingActive, m.registry.preferred;
    if pending != "" && FreshEligible(m, pending, now) then name == pending
    else if exists x :: FreshEligible(m, x, now) then
      && FreshEligible(m, name, now)
      && if m.settings.policy == ByUsage then IsLeastUsed(m, Fresh, "", active, now, name)
         else if FreshEligible(m, preferred, now) then name == preferred
         else if FreshEligible(m, active, now) then name == active
         else IsFirst(m, Ordered(m.registry), Fresh, "", now, name)
    else if ActiveUsable(m, active, now) then name == active
    else if preferred != "" && IsEnabled(m.registry, preferred) then name == preferred
    else name == active
  }

  lemma ChoiceIsLaunched(m: Auth, now: Time)
    requires IsWellFormed(m.registry)
    requires m.state.pendingActive != "" ==> !FreshEligible(m, m.state.pendingActive, now)
    ensures IsLaunched(m, now, LaunchChoice(m, now))
  {
    LaunchChoiceIs(m, now);
    if m.settings.policy == ByUsage {
      LeastUsedIsBest(m, Fresh, "", m.state.active, now);
      if LeastUsed(m, Fresh, "", m.state.active, now) != "" {
        LeastUsedExactly(m, Fresh, "", m.state.active, now);
      }
      forall x | FreshEligible(m, x, now) ensures IsCandidate(m, Fresh, "", x, now) { }
    } else if !FreshEligible(m, m.registry.preferred, now) && !FreshEligible(m, m.state.active, now) {
      FirstLaunchableExactly(m, Ordered(m.registry), now);
      if FirstLaunchable(m, Ordered(m.registry), now) != "" {
        FirstCandidateExactly(m, Ordered(m.registry), Fresh, "", now);
      }
    }
  }

  /** After a successful launch the active account is the one to launch, nothing is pending, and all is well. */
  lemma LaunchExactly(m: Auth, samples: seq<Sample>, now: Time, copies: bool)
    requires IsSoundAuth(m) && Launch(m, samples, now, copies).Ok?
    ensures var e, s := EvaluatedUsage(m, samples, now), Launch(m, samples, now, copies).value;
      && IsLaunched(e, now, s.active)
      && (s.active != "" ==> s.pendingActive == "" && !s.restartRequired && !s.degraded)
      && (s.active != e.state.active ==> StateOf(s, s.active).lastActivatedAt == Some(now))
      && (forall name :: name != s.active ==> StateOf(s, name) == StateOf(e.state, name))
  {
    EvaluatedKeeps(m, samples, now);
    var e := EvaluatedUsage(m, samples, now);
    var pending := e.state.pendingActive;
    if !(pending != "" && FreshEligible(e, pending, now)) { ChoiceIsLaunched(e, now); }
  }

  // ---- Queued switches --------------------------------------------------------------------------

  /** An account was in use for at least so long. */
  predicate HasDwelt(a: AccountState, now: Time, minimum: int) {
    minimum <= 0 || a.lastActivatedAt.None? || now - a.lastActivatedAt.value >= minimum
  }

  /** The last check of the account succeeded and showed that it is at a limit or a threshold. */
  predicate IsExhausted(a: AccountState, thresholdPct: int) {
    a.lastUsageResult == UsageOK
    && (a.limitReached || UsedOr(a.fiveHourUsedPct, thresholdPct) || UsedOr(a.weeklyUsedPct, thresholdPct))
  }

  predicate UsedOr(pct: Option<int>, thresholdPct: int) {
    match pct case None => false case Some(p) => thresholdPct <= p
  }

  /** The active account is exhausted and was in use for long enough to leave it. */
  predicate ShouldLeave(m: Auth, now: Time) {
    var a := StateOf(m.state, m.state.active);
    m.state.active != "" && IsExhausted(a, m.settings.thresholdPct) && HasDwelt(a, now, m.settings.minActiveDwell)
  }

  /** The preferred account is fresh again, and the active one was in use for long enough to go back to it. */
  predicate ShouldReturn(m: Auth, now: Time) {
    && m.state.active != "" && !ShouldLeave(m, now)
    && m.settings.policy == ByPreference && m.registry.preferred != m.state.active
    && FreshEligible(m, m.registry.preferred, now)
    && HasDwelt(StateOf(m.state, m.state.active), now, m.settings.preferredReturnDwell)
  }

  lemma FreshFallback(w: Auth, now: Time)
    requires IsWellFormed(w.registry)
    ensures var target := FallbackTarget(w, Fresh, w.state.active, now);
      && (target != "" <==> exists x :: x != w.state.active && FreshEligible(w, x, now))
      && (target != "" ==> IsFallback(w, Fresh, w.state.active, now, target) && IsEnabled(w.registry, target))
  {
    FallbackExactly(w, Fresh, w.state.active, now);
    assert forall x :: FreshEligible(w, x, now) <==> IsEligible(w, Fresh, x, now);
  }

  lemma QueuedNow(w: Auth, now: Time)
    requires IsSoundAuth(w)
    ensures var s := Refreshed(w, now);
      var others := exists x :: x != w.state.active && FreshEligible(w, x, now);
      && (s.pendingReason == NearLimit && s.pendingActive != "" <==> ShouldLeave(w, now) && others)
      && (s.pendingReason == PreferredRestored && s.pendingActive != "" <==> ShouldReturn(w, now))
      && (ShouldLeave(w, now) && others ==>
            IsFallback(w, Fresh, w.state.active, now, s.pendingActive) && s.pendingSince == Some(now))
      && (ShouldReturn(w, now) ==> s.pendingActive == w.registry.preferred && s.pendingSince == Some(now))
      && (!(ShouldLeave(w, now) && others) && !ShouldReturn(w, now) ==> s.pendingActive == "")
  {
    FreshFallback(w, now);
  }

  /**
   What an evaluation queues: a switch away from an exhausted account exactly
   when another one is fresh, a switch back to the preferred account exactly
   when that is fresh again, and otherwise nothing.
   */
  lemma QueuedExactly(m: Auth, samples: seq<Sample>, now: Time)
    requires IsSoundAuth(m)
    ensures var w := WithSamples(m, samples, m.state.active, now);
      var s := EvaluatedUsage(m, samples, now).state;
      var others := exists x :: x != m.state.active && FreshEligible(w, x, now);
      && (s.pendingReason == NearLimit && s.pendingActive != "" <==> ShouldLeave(w, now) && others)
      && (s.pendingReason == PreferredRestored && s.pendingActive != "" <==> ShouldReturn(w, now))
      && (ShouldLeave(w, now) && others ==>
            IsFallback(w, Fresh, m.state.active, now, s.pendingActive) && s.pendingSince == Some(now))
      && (ShouldReturn(w, now) ==> s.pendingActive == m.registry.preferred && s.pendingSince == Some(now))
      && (!(ShouldLeave(w, now) && others) && !ShouldReturn(w, now) ==> s.pendingActive == "")
  {
    WithSamplesKeeps(m, samples, m.state.active, now);
    QueuedNow(WithSamples(m, samples, m.state.active, now), now);
  }

  lemma DegradedNow(w: Auth, now: Time)
    requires IsSoundAuth(w)
    ensures var s := Refreshed(w, now);
      var others := exists x :: x != w.state.active && FreshEligible(w, x, now);
      && (s.degraded <==> s.degradedReason != NotDegraded)
      && (s.degradedReason == NoActiveAccount <==> w.state.active == "")
      && (s.degradedReason == NoFreshFallback <==> ShouldLeave(w, now) && !others)
      && (s.degradedReason == ActiveUnavailable <==>
            w.state.active != "" && !ShouldLeave(w, now) && !ShouldReturn(w, now)
            && !ActiveUsable(w, w.state.active, now))
  {
    FreshFallback(w, now);
  }

  /** The balancer reports trouble exactly without an active account, or when the active one cannot go on or be left. */
  lemma DegradedExactly(m: Auth, samples: seq<Sample>, now: Time)
    requires IsSoundAuth(m)
    ensures var w := WithSamples(m, samples, m.state.active, now);
      var s := EvaluatedUsage(m, samples, now).state;
      var others := exists x :: x != m.state.active && FreshEligible(w, x, now);
      && (s.degraded <==> s.degradedReason != NotDegraded)
      && (s.degradedReason == NoActiveAccount <==> m.state.active == "")
      && (s.degradedReason == NoFreshFallback <==> ShouldLeave(w, now) && !others)
      && (s.degradedReason == ActiveUnavailable <==>
            m.state.active != "" && !ShouldLeave(w, now) && !ShouldReturn(w, now)
            && !ActiveUsable(w, m.state.active, now))
  {
    WithSamplesKeeps(m, samples, m.state.active, now);
    DegradedNow(WithSamples(m, samples, m.state.active, now), now);
  }

  // ---- Rate limits ---------------------------------------------------------------------------------

  /** The state of an account that hit its limit: it rests for a poll interval unless it rests already. */
  predicate IsResting(before: AccountState, after: AccountState, now: Time, pollInterval: int) {
    && after.depletedAt == Some(now) && after.lastFailureReason == ExecRateLimit
    && after.retryAfter.Some?
    && after.retryAfter.value == (match before.retryAfter case None => now + pollInterval case Some(t) => t)
    && after.(depletedAt := before.depletedAt, lastFailureReason := before.lastFailureReason,
              retryAfter := before.retryAfter) == before
  }

  /** The state of an account that is put in use: it was activated now, and nothing holds it back. */
  predicate IsInUse(before: AccountState, after: AccountState, now: Time) {
    && after.lastActivatedAt == Some(now) && after.depletedAt == None && after.retryAfter == None
    && after.lastFailureReason == NoFailure
    && after.(lastActivatedAt := before.lastActivatedAt, depletedAt := before.depletedAt,
              retryAfter := before.retryAfter, lastFailureReason := before.lastFailureReason) == before
  }

  /** Marking the active account lets it rest and tells nothing new about the others. */
  lemma DepletedExactly(e: Auth, now: Time)
    ensures var d := MarkedDepleted(e, now);
      && d.registry == e.registry && d.settings == e.settings && d.state.active == e.state.active
      && IsResting(StateOf(e.state, e.state.active), StateOf(d.state, e.state.active), now, e.settings.pollInterval)
      && (forall x :: x != e.state.active ==> StateOf(d.state, x) == StateOf(e.state, x))
  {
  }

  /** Which fallback is found depends on the other accounts only. */
  lemma FallbackOfOthers(d: Auth, e: Auth, active: Name, now: Time, target: Name)
    requires d.registry == e.registry && d.settings == e.settings
    requires forall x :: x != active ==> StateOf(d.state, x) == StateOf(e.state, x)
    ensures forall x :: x != active ==> (IsEligible(d, Executable, x, now) <==> IsEligible(e, Executable, x, now))
    ensures IsFallback(d, Executable, active, now, target) ==> IsFallback(e, Executable, active, now, target)
  {
    forall x | x != active ensures IsEligible(d, Executable, x, now) <==> IsEligible(e, Executable, x, now) {
      assert StateOf(d.state, x) == StateOf(e.state, x);
    }
    forall x | x != active ensures FiveHour(d, x) == FiveHour(e, x) && Weekly(d, x) == Weekly(e, x) { }
    assert forall x :: IsCandidate(d, Executable, active, x, now) <==> IsCandidate(e, Executable, active, x, now);
  }

  lemma LimitedExactly(e: Auth, now: Time, copies: bool)
    requires IsSoundAuth(e) && e.state.active != ""
    ensures var (m', decision) := Limited(e, now, copies);
      var active := e.state.active;
      && (decision.SwitchedTo? <==> copies && exists x :: x != active && IsEligible(e, Executable, x, now))
      && (decision == Failed(CopyFailed) <==> !copies && exists x :: x != active && IsEligible(e, Executable, x, now))
      && (decision.PausedUntil? <==> forall x :: x != active ==> !IsEligible(e, Executable, x, now))
      && (decision.SwitchedTo? ==> IsFallback(e, Executable, active, now, decision.name))
  {
    var d := MarkedDepleted(e, now);
    DepletedExactly(e, now);
    FallbackExactly(d, Executable, e.state.active, now);
    var target := FallbackTarget(d, Executable, e.state.active, now);
    FallbackOfOthers(d, e, e.state.active, now, target);
    if target != "" {
      assert IsEligible(e, Executable, target, now);
      ActivateKeeps(d, target, now, copies);
    }
  }

  /** What a rate limit leaves in the state. */
  lemma LimitedState(e: Auth, now: Time, copies: bool)
    requires IsSoundAuth(e) && e.state.active != ""
    ensures var (m', decision) := Limited(e, now, copies);
      var active := e.state.active;
      && (decision.SwitchedTo? ==>
            && m'.state.active == decision.name != active && !m'.state.degraded
            && IsInUse(StateOf(e.state, decision.name), StateOf(m'.state, decision.name), now))
      && (!decision.SwitchedTo? ==> m'.state.active == active && (decision.PausedUntil? ==> m'.state.degraded))
      && IsResting(StateOf(e.state, active), StateOf(m'.state, active), now, e.settings.pollInterval)
      && (forall x :: x != active && x != m'.state.active ==> StateOf(m'.state, x) == StateOf(e.state, x))
  {
    DepletedExactly(e, now);
  }

  /** The pause ends when the first enabled account may be tried again, or else after a poll interval. */
  ghost predicate IsPauseEnd(m: Auth, now: Time, end: Time) {
    if exists x :: IsWaiting(m, x, now) then
      && (exists x :: IsWaiting(m, x, now) && StateOf(m.state, x).retryAfter == Some(end))
      && (forall x :: IsWaiting(m, x, now) ==> end <= StateOf(m.state, x).retryAfter.value)
    else end == now + m.settings.pollInterval
  }

  /** An enabled account that may be tried again after now. */
  predicate IsWaiting(m: Auth, x: Name, now: Time) {
    IsEnabled(m.registry, x) && StateOf(m.state, x).retryAfter.Some? && now < StateOf(m.state, x).retryAfter.value
  }

  lemma PauseEnds(d: Auth, now: Time)
    requires forall x :: IsEnabled(d.registry, x) <==> Account(x, true) in Ordered(d.registry)
    ensures var best := EarliestRetryOf(d, Ordered(d.registry), now);
      IsPauseEnd(d, now, if best.Some? then best.value else now + d.settings.pollInterval)
  {
    var accounts := Ordered(d.registry);
    EarliestRetryIs(d, accounts, now);
    var best := EarliestRetryOf(d, accounts, now);
    if best.Some? {
      var a :| a in accounts && a.enabled && StateOf(d.state, a.name).retryAfter == best;
      assert a == Account(a.name, true) && IsWaiting(d, a.name, now);
    }
    forall x | IsWaiting(d, x, now) ensures best.Some? && best.value <= StateOf(d.state, x).retryAfter.value {
      assert Account(x, true) in accounts;
    }
  }

  lemma LimitedPause(e: Auth, now: Time, copies: bool)
    requires IsSoundAuth(e) && Limited(e, now, copies).1.PausedUntil?
    ensures var (m', decision) := Limited(e, now, copies);
      m'.state.degradedReason == AllExhausted && IsPauseEnd(m', now, decision.retryAt)
  {
    var d, m', decision := MarkedDepleted(e, now), Limited(e, now, copies).0, Limited(e, now, copies).1;
    DepletedExactly(e, now);
    EnabledInOrder(e.registry);
    PauseEnds(d, now);
    SamePause(d, m', now, decision.retryAt);
  }

  lemma EnabledInOrder(r: Registry)
    requires IsWellFormed(r)
    ensures forall x :: IsEnabled(r, x) <==> Account(x, true) in Ordered(r)
  {
    OrderedMembers(r);
    forall x ensures IsEnabled(r, x) <==> Account(x, true) in Ordered(r) {
      EnabledIs(r, x);
    }
  }

  lemma SamePause(d: Auth, m: Auth, now: Time, end: Time)
    requires m.registry == d.registry && m.settings == d.settings && m.state.accounts == d.state.accounts
    ensures IsPauseEnd(d, now, end) <==> IsPauseEnd(m, now, end)
  {
    assert forall x :: StateOf(m.state, x) == StateOf(d.state, x);
    assert forall x :: IsWaiting(m, x, now) <==> IsWaiting(d, x, now);
  }

  /** So long a rate limit pauses when no other account can be used. */
  lemma PauseExactly(m: Auth, samples: seq<Sample>, now: Time, copies: bool)
    requires IsSoundAuth(m) && RateLimited(m, samples, now, copies).1.PausedUntil?
    ensures var (m', decision) := RateLimited(m, samples, now, copies);
      m'.state.degradedReason == AllExhausted && IsPauseEnd(m', now, decision.retryAt)
  {
    EvaluatedKeeps(m, samples, now);
    LimitedPause(EvaluatedUsage(m, samples, now), now, copies);
  }

  /**
   A rate limit lets the active account rest and puts another one in use
   whenever one can be: the least used, or the first in order.
   */
  lemma LimitExactly(m: Auth, samples: seq<Sample>, now: Time, copies: bool)
    requires IsSoundAuth(m) && m.state.active != ""
    ensures var e, (m', decision) := EvaluatedUsage(m, samples, now), RateLimited(m, samples, now, copies);
      var active := m.state.active;
      var others := exists x :: x != active && IsEligible(e, Executable, x, now);
      && (decision.SwitchedTo? <==> others && copies)
      && (decision == Failed(CopyFailed) <==> others && !copies)
      && (decision.PausedUntil? <==> !others)
      && IsResting(StateOf(e.state, active), StateOf(m'.state, active), now, m.settings.pollInterval)
      && (decision.SwitchedTo? ==>
            && m'.state.active == decision.name && IsFallback(e, Executable, active, now, decision.name)
            && IsInUse(StateOf(e.state, decision.name), StateOf(m'.state, decision.name), now)
            && !m'.state.degraded)
      && (!decision.SwitchedTo? ==> m'.state.active == active && (decision.PausedUntil? ==> m'.state.degraded))
      && (forall x :: x != active && x != m'.state.active ==> StateOf(m'.state, x) == StateOf(e.state, x))
  {
    EvaluatedKeeps(m, samples, now);
    LimitedExactly(EvaluatedUsage(m, samples, now), now, copies);
    LimitedState(EvaluatedUsage(m, samples, now), now, copies);
  }

  /** Without an active account a rate limit only reports trouble. */
  lemma LimitWithoutActive(m: Auth, samples: seq<Sample>, now: Time, copies: bool)
    requires IsSoundAuth(m) && m.state.active == ""
    ensures var (m', decision) := RateLimited(m, samples, now, copies);
      && decision == NoAccount && m'.state.degradedReason == RateLimitNoActive && m'.state.active == ""
      && m'.state.accounts == EvaluatedUsage(m, samples, now).state.accounts
  {
    EvaluatedKeeps(m, samples, now);
  }

  // ---- How long a check counts ----------------------------------------------------------------------

  /** The service lets the account go on, and no window is used up to the threshold. */
  predicate HasRoom(r: Response, thresholdPct: int) {
    && !r.overageLimitReached && !r.spendControlReached
    && match r.rateLimit
       case None => true
       case Some(limit) =>
         && limit.allowed && !limit.limitReached
         && (limit.primary.Some? ==> ClampPercent(limit.primary.value.usedPercent) < thresholdPct)
         && (limit.secondary.Some? ==> ClampPercent(limit.secondary.value.usedPercent) < thresholdPct)
  }

  /** The account was checked successfully at a time, with the given response. */
  predicate WasChecked(m: Auth, name: Name, before: AccountState, r: Response, favoured: bool, at: Time) {
    StateOf(m.state, name) == Evaluated(before, Sampled(SnapshotOf(r, m.settings, at)), favoured, at, m.settings)
  }

  lemma RoomInSnapshot(r: Response, settings: Settings, at: Time)
    ensures var s := SnapshotOf(r, settings, at);
      && (HasRoom(r, settings.thresholdPct) <==> !s.hardLimit && !s.nearLimit)
      && (s.nearLimit <==>
            AtLeast(s.fiveHourUsedPct, settings.thresholdPct) || AtLeast(s.weeklyUsedPct, settings.thresholdPct))
      && (!s.hardLimit && !s.nearLimit ==> s.retryAfter == None)
  {
  }

  lemma FreshInSnapshot(m: Auth, name: Name, before: AccountState, s: Snapshot, favoured: bool, at: Time, now: Time)
    requires name != "" && IsEnabled(m.registry, name)
    requires StateOf(m.state, name) == Evaluated(before, Sampled(s), favoured, at, m.settings)
    requires s.nearLimit <==>
      AtLeast(s.fiveHourUsedPct, m.settings.thresholdPct) || AtLeast(s.weeklyUsedPct, m.settings.thresholdPct)
    requires !s.hardLimit && !s.nearLimit ==> s.retryAfter == None
    ensures FreshEligible(m, name, now) <==> !s.hardLimit && !s.nearLimit && now <= at + m.settings.staleAfter
    ensures ActiveUsable(m, name, now) <==> !s.hardLimit && !s.nearLimit
  {
  }

  /**
   From a successful check on an account is fresh exactly while the check is
   not older than allowed, and only when the response showed room; it can go
   on being used as long as it showed room, however old the check is.
   */
  lemma FreshExactly(m: Auth, name: Name, before: AccountState, r: Response, favoured: bool, at: Time, now: Time)
    requires name != "" && IsEnabled(m.registry, name) && WasChecked(m, name, before, r, favoured, at)
    ensures FreshEligible(m, name, now) <==> HasRoom(r, m.settings.thresholdPct) && now <= at + m.settings.staleAfter
    ensures ActiveUsable(m, name, now) <==> HasRoom(r, m.settings.thresholdPct)
    ensures ExecutionEligible(m, name, now) <==> HasRoom(r, m.settings.thresholdPct)
  {
    RoomInSnapshot(r, m.settings, at);
    FreshInSnapshot(m, name, before, SnapshotOf(r, m.settings, at), favoured, at, now);
  }

  /**
   What a successful check notes of limits: one at a limit or a threshold is
   depleted from now on; the active and the preferred account are cleared once
   there is room, but of a rate limit's trace only the time, not the reason.
   */
  lemma NotedExactly(before: AccountState, r: Response, favoured: bool, at: Time, settings: Settings)
    ensures var s := SnapshotOf(r, settings, at);
      var after := Evaluated(before, Sampled(s), favoured, at, settings);
      && (HasRoom(r, settings.thresholdPct) <==> !s.hardLimit && !s.nearLimit)
      && (!HasRoom(r, settings.thresholdPct) ==>
            && after.depletedAt == Some(at)
            && after.lastFailureReason == if s.hardLimit then UsageHardLimit else UsageNearLimit)
      && (HasRoom(r, settings.thresholdPct) ==>
            && after.retryAfter == None
            && after.depletedAt == (if favoured then None else before.depletedAt)
            && after.lastFailureReason ==
                 if favoured && before.lastFailureReason != ExecRateLimit then NoFailure else before.lastFailureReason)
      && after.lastActivatedAt == before.lastActivatedAt
  {
    RoomInSnapshot(r, settings, at);
  }

  /**
   A check that fails for the moment leaves the account usable while the last
   good check is fresh, unless that had found it at its limit or waiting; one
   that fails for good rules it out.
   */
  lemma FailureExactly(m: Auth, name: Name, before: AccountState, check: Check, at: Time, now: Time)
    requires name != "" && IsEnabled(m.registry, name) && !check.Sampled?
    requires StateOf(m.state, name) == Merged(before, check, at, m.settings)
    ensures !FreshEligible(m, name, now)
    ensures ActiveUsable(m, name, now) <==>
      && check.Transient? && before.lastSuccessfulUsageCheckAt.Some?
      && before.lastUsageFreshUntil.Some? && at <= before.lastUsageFreshUntil.value
      && !before.limitReached
      && (before.retryAfter.Some? ==> before.retryAfter.value <= now)
  {
  }

  /** A disabled account is never chosen, whatever is known about it. */
  lemma DisabledIsNot(m: Auth, name: Name, now: Time)
    requires !IsEnabled(m.registry, name)
    ensures !FreshEligible(m, name, now) && !ActiveUsable(m, name, now) && !ExecutionEligible(m, name, now)
  {
  }

  /** When a window opens again: at the time it names, or after the seconds it names, or not known. */
  function OpensAt(w: Option<Window>, at: Time): Option<Time> {
    match w
    case None => None
    case Some(w) =>
      if w.resetAt >= 1 then Some(w.resetAt * 1_000_000_000)
      else if w.resetAfterSeconds >= 1 then Some(at + w.resetAfterSeconds * 1_000_000_000)
      else None
  }

  /** The window holds the account back: every one at a hard limit, otherwise those at the threshold. */
  predicate HoldsBack(r: Response, w: Option<Window>, thresholdPct: int) {
    && w.Some?
    && (|| r.overageLimitReached || r.spendControlReached
        || (r.rateLimit.Some? && (r.rateLimit.value.limitReached || !r.rateLimit.value.allowed))
        || ClampPercent(w.value.usedPercent) >= thresholdPct)
  }

  /** The earliest of two times that may not be known. */
  predicate IsEarliest(t: Option<Time>, a: Option<Time>, b: Option<Time>) {
    match t
    case None => a.None? && b.None?
    case Some(t) => (a == Some(t) || b == Some(t)) && (a.Some? ==> t <= a.value) && (b.Some? ==> t <= b.value)
  }

  /** Of the retry times of a snapshot those count whose windows hold the account back. */
  lemma SnapshotRetry(s: Snapshot, settings: Settings)
    requires s.nearLimit <==>
      AtLeast(s.fiveHourUsedPct, settings.thresholdPct) || AtLeast(s.weeklyUsedPct, settings.thresholdPct)
    ensures IsEarliest(
        EarliestRetry(s, settings),
        if s.hardLimit || AtLeast(s.fiveHourUsedPct, settings.thresholdPct) then s.primaryRetryAt else None,
        if s.hardLimit || AtLeast(s.weeklyUsedPct, settings.thresholdPct) then s.secondaryRetryAt else None)
  {
    var times, p, q := RetryCandidates(s, settings), s.primaryRetryAt, s.secondaryRetryAt;
    EarliestOfIs(times);
    assert times == [p, q] || times == [p] || times == [q] || times == [];
  }

  lemma WindowOpens(w: Option<Window>, at: Time)
    ensures RetryAt(w, at) == OpensAt(w, at)
  {
  }

  /** After a successful check an account waits for the first window that holds it back to open again. */
  lemma RetryExactly(r: Response, settings: Settings, at: Time)
    ensures var limit := r.rateLimit;
      var primary := if limit.Some? then limit.value.primary else None;
      var secondary := if limit.Some? then limit.value.secondary else None;
      IsEarliest(SnapshotOf(r, settings, at).retryAfter,
                 if HoldsBack(r, primary, settings.thresholdPct) then OpensAt(primary, at) else None,
                 if HoldsBack(r, secondary, settings.thresholdPct) then OpensAt(secondary, at) else None)
  {
    var limit, s := r.rateLimit, SnapshotOf(r, settings, at).(retryAfter := None);
    SnapshotRetry(s, settings);
    WindowOpens(if limit.Some? then limit.value.primary else None, at);
    WindowOpens(if limit.Some? then limit.value.secondary else None, at);
  }
}
