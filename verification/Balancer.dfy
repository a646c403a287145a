/**
 The balancer's decisions, as functions from one state to the next: merging
 samples, queueing a switch, choosing an account at launch, and reacting to a
 rate limit.
 */
module Balancer {
  import opened Wrappers
  import opened Accounts
  import opened UsageSamples

  // ---- The least-used search -----------------------------------------------------

  datatype Rank = Rank(maxUsed: int, fiveHour: int, weekly: int)

  function RankOf(a: AccountState): Rank {
    var fiveHour := if a.fiveHourUsedPct.Some? then a.fiveHourUsedPct.value else 101;
    var weekly := if a.weeklyUsedPct.Some? then a.weeklyUsedPct.value else 101;
    Rank(if weekly > fiveHour then weekly else fiveHour, fiveHour, weekly)
  }

  predicate RankLess(l: Rank, r: Rank) {
    if l.maxUsed != r.maxUsed then l.maxUsed < r.maxUsed
    else if l.fiveHour != r.fiveHour then l.fiveHour < r.fiveHour
    else l.weekly < r.weekly
  }

  /** The position of the name in the list, or its length. */
  function IndexOf(accounts: seq<Account>, name: Name): (i: nat)
    ensures i <= |accounts|
    ensures i < |accounts| ==> accounts[i].name == name
  {
    if accounts == [] then 0
    else if accounts[0].name == name then 0
    else 1 + IndexOf(accounts[1..], name)
  }

  predicate TieBreakLess(r: Registry, left: Name, right: Name, active: Name) {
    if left == active then true
    else if right == active then false
    else if left == r.preferred then true
    else if right == r.preferred then false
    else IndexOf(Ordered(r), left) < IndexOf(Ordered(r), right)
  }

  /** `left` is to be used rather than `right`. */
  predicate Better(m: Auth, left: Name, right: Name, active: Name) {
    var l, r := RankOf(StateOf(m.state, left)), RankOf(StateOf(m.state, right));
    RankLess(l, r) || (l == r && TieBreakLess(m.registry, left, right, active))
  }

  /** The account may be chosen: it passes the test and is not the excluded one. */
  predicate IsCandidate(m: Auth, test: Eligibility, exclude: Name, name: Name, now: Time) {
    name != exclude && IsEligible(m, test, name, now)
  }

  /** The best candidate among some accounts, scanning them in order. */
  function BestOf(m: Auth, accounts: seq<Account>, test: Eligibility, exclude: Name, active: Name, now: Time): Name {
    if accounts == [] then ""
    else
      var best := BestOf(m, accounts[..|accounts| - 1], test, exclude, active, now);
      var name := accounts[|accounts| - 1].name;
      if IsCandidate(m, test, exclude, name, now) && (best == "" || Better(m, name, best, active)) then name else best
  }

  function LeastUsed(m: Auth, test: Eligibility, exclude: Name, active: Name, now: Time): Name {
    BestOf(m, Ordered(m.registry), test, exclude, active, now)
  }

  // ---- Fixed-order choice --------------------------------------------------------------

  /** The first candidate in the list. */
  function FirstCandidate(m: Auth, accounts: seq<Account>, test: Eligibility, exclude: Name, now: Time): Name {
    if accounts == [] then ""
    else if IsCandidate(m, test, exclude, accounts[0].name, now) then accounts[0].name
    else FirstCandidate(m, accounts[1..], test, exclude, now)
  }

  function FirstLaunchable(m: Auth, accounts: seq<Account>, now: Time): Name {
    if accounts == [] then ""
    else
      var name := accounts[0].name;
      if name != m.registry.preferred && name != m.state.active && FreshEligible(m, name, now) then name
      else FirstLaunchable(m, accounts[1..], now)
  }

  /** The account to switch to from `active`, or the empty name. */
  function FallbackTarget(m: Auth, test: Eligibility, active: Name, now: Time): Name {
    if m.settings.policy == ByUsage then LeastUsed(m, test, active, "", now)
    else
      var preferred := m.registry.preferred;
      if preferred != "" && preferred != active && IsEligible(m, test, preferred, now) then preferred
      else FirstCandidate(m, Ordered(m.registry), test, active, now)
  }

  // ---- Queueing a switch ------------------------------------------------------------------

  predicate ShouldQueueFallback(m: Auth, active: Name, now: Time) {
    var a := StateOf(m.state, active);
    && a.lastUsageResult == UsageOK
    && (a.limitReached || ThresholdExceeded(a, m.settings))
    && DwellSatisfied(a.lastActivatedAt, now, m.settings.minActiveDwell)
  }

  predicate ShouldQueueReturn(m: Auth, preferred: Name, active: Name, now: Time) {
    && m.settings.policy == ByPreference
    && FreshEligible(m, preferred, now)
    && DwellSatisfied(StateOf(m.state, active).lastActivatedAt, now, m.settings.preferredReturnDwell)
  }

  function QueuePending(m: Auth, name: Name, now: Time, reason: PendingReason): AuthState {
    if name == "" || name == m.state.active then ClearPending(m.state)
    else if !IsEnabled(m.registry, name) then m.state
    else m.state.(pendingActive := name, pendingReason := reason, pendingSince := Some(now), restartRequired := true)
  }

  /** Decides anew whether a switch is pending, and whether the balancer is degraded. */
  function Refreshed(m: Auth, now: Time): AuthState {
    var active := m.state.active;
    var preferred := m.registry.preferred;
    if active == "" then MarkDegraded(ClearPending(m.state), NoActiveAccount)
    else if ShouldQueueFallback(m, active, now) then
      var target := FallbackTarget(m, Fresh, active, now);
      if target == "" then MarkDegraded(ClearPending(m.state), NoFreshFallback)
      else ClearDegraded(QueuePending(m, target, now, NearLimit))
    else if preferred != "" && preferred != active && ShouldQueueReturn(m, preferred, active, now) then
      ClearDegraded(QueuePending(m, preferred, now, PreferredRestored))
    else if ActiveUsable(m, active, now) then ClearDegraded(ClearPending(m.state))
    else MarkDegraded(ClearPending(m.state), ActiveUnavailable)
  }

  // ---- Merging samples -----------------------------------------------------------------------

  datatype Sample = Sample(name: Name, check: Check)

  function WithSample(m: Auth, sample: Sample, active: Name, now: Time): Auth {
    var favoured := sample.name == active || sample.name == m.registry.preferred;
    var a := Evaluated(StateOf(m.state, sample.name), sample.check, favoured, now, m.settings);
    m.(state := m.state.(accounts := m.state.accounts[sample.name := a]))
  }

  function WithSamples(m: Auth, samples: seq<Sample>, active: Name, now: Time): Auth {
    if samples == [] then m
    else WithSample(WithSamples(m, samples[..|samples| - 1], active, now), samples[|samples| - 1], active, now)
  }

  /** One evaluation: samples are merged, then the pending switch is decided. */
  function EvaluatedUsage(m: Auth, samples: seq<Sample>, now: Time): Auth {
    var merged := WithSamples(m, samples, m.state.active, now);
    merged.(state := Refreshed(merged, now))
  }

  // ---- Activation -----------------------------------------------------------------------------

  /** The state after an account was made active. */
  function Activated(s: AuthState, name: Name, now: Time): AuthState {
    var a := StateOf(s, name).(lastActivatedAt := Some(now), depletedAt := None, retryAfter := None,
                               lastFailureReason := NoFailure);
    ClearPending(s.(accounts := s.accounts[name := a], active := name))
  }

  datatype Failure = NotRegistered(name: Name) | CopyFailed

  /** Makes an account active; its credentials may fail to be copied, and then nothing changes. */
  function Activate(m: Auth, name: Name, now: Time, copies: bool): Result<AuthState, Failure> {
    if !IsRegistered(m.registry, name) then Err(NotRegistered(name))
    else if !copies then Err(CopyFailed)
    else Ok(ClearDegraded(Activated(m.state, name, now)))
  }

  // ---- Launch --------------------------------------------------------------------------------

  function LaunchFallback(m: Auth, now: Time): Name {
    var active, preferred := m.state.active, m.registry.preferred;
    if active != "" && ActiveUsable(m, active, now) then active
    else if preferred != "" && IsEnabled(m.registry, preferred) then preferred
    else active
  }

  function LaunchChoice(m: Auth, now: Time): Name {
    var active, pending, preferred := m.state.active, m.state.pendingActive, m.registry.preferred;
    if m.settings.policy == ByUsage then
      var candidate := LeastUsed(m, Fresh, "", active, now);
      if candidate != "" then candidate else LaunchFallback(m, now)
    else if pending != "" && FreshEligible(m, pending, now) then pending
    else if preferred != "" && FreshEligible(m, preferred, now) then preferred
    else if active != "" && FreshEligible(m, active, now) then active
    else
      var other := FirstLaunchable(m, Ordered(m.registry), now);
      if other != "" then other else LaunchFallback(m, now)
  }

  /** What a launch decides once its samples are merged. */
  function Launched(m: Auth, now: Time, copies: bool): Result<AuthState, Failure> {
    var pending := m.state.pendingActive;
    if pending != "" && pending != m.state.active && FreshEligible(m, pending, now) then
      Activate(m, pending, now, copies)
    else
      var name := LaunchChoice(m, now);
      if name == "" then Ok(m.state)
      else if name == m.state.active then
        if IsRegistered(m.registry, name) && !copies then Err(CopyFailed)
        else Ok(ClearDegraded(ClearPending(m.state)))
      else Activate(m, name, now, copies)
  }

  function Launch(m: Auth, samples: seq<Sample>, now: Time, copies: bool): Result<AuthState, Failure> {
    Launched(EvaluatedUsage(m, samples, now), now, copies)
  }

  // ---- Rate limits ------------------------------------------------------------------------------

  datatype Decision = NoAccount | SwitchedTo(name: Name) | PausedUntil(retryAt: Time) | Failed(failure: Failure)

  /** The account that hit its limit is depleted, and rests for one poll interval unless it rests already. */
  function MarkedDepleted(m: Auth, now: Time): Auth {
    var a := StateOf(m.state, m.state.active);
    var b := a.(depletedAt := Some(now), lastFailureReason := ExecRateLimit,
                retryAfter := if a.retryAfter.None? then Some(now + m.settings.pollInterval) else a.retryAfter);
    m.(state := m.state.(accounts := m.state.accounts[m.state.active := b]))
  }

  /** The earliest retry time after now among the enabled accounts in the list. */
  function EarliestRetryOf(m: Auth, accounts: seq<Account>, now: Time): Option<Time> {
    if accounts == [] then None
    else
      var best := EarliestRetryOf(m, accounts[..|accounts| - 1], now);
      var account := accounts[|accounts| - 1];
      var a := StateOf(m.state, account.name);
      if account.enabled && RetryPending(a, now) && (best.None? || a.retryAfter.value < best.value) then a.retryAfter
      else best
  }

  /** Reacts to a rate limit once its samples are merged: switches, or pauses. */
  function Limited(m: Auth, now: Time, copies: bool): (Auth, Decision) {
    if m.state.active == "" then (m.(state := MarkDegraded(m.state, RateLimitNoActive)), NoAccount)
    else
      var d := MarkedDepleted(m, now);
      var target := FallbackTarget(d, Executable, d.state.active, now);
      if target != "" && target != d.state.active then
        match Activate(d, target, now, copies)
        case Ok(s) => (d.(state := s), SwitchedTo(target))
        case Err(e) => (d, Failed(e))
      else
        var retryAt := EarliestRetryOf(d, Ordered(d.registry), now);
        (d.(state := MarkDegraded(d.state, AllExhausted)),
         PausedUntil(if retryAt.Some? then retryAt.value else now + m.settings.pollInterval))
  }

  function RateLimited(m: Auth, samples: seq<Sample>, now: Time, copies: bool): (Auth, Decision) {
    Limited(EvaluatedUsage(m, samples, now), now, copies)
  }
}
