/**
 Managed accounts: the registry, what is known about each account, and the
 tests that decide which account may be used.  Names are in normal form
 wherever they are stored (see `AccountNames`); the empty name stands for
 "none".  Times are nanoseconds; a blank time is `None`.
 */
module Accounts {
  import opened Wrappers
  import opened AccountNames

  type Name = string
  type Time = int

  const SECOND := 1_000_000_000

  datatype Policy = ByPreference | ByUsage

  datatype Settings = Settings(
    thresholdPct: int,
    pollInterval: int,
    staleAfter: int,
    minActiveDwell: int,
    preferredReturnDwell: int,
    policy: Policy)

  datatype Account = Account(name: Name, enabled: bool)

  datatype Registry = Registry(preferred: Name, accounts: seq<Account>)

  datatype UsageResult = Unchecked | UsageOK | UsageStale | UsageTransient | UsagePermanent

  datatype FailureReason = NoFailure | UsageHardLimit | UsageNearLimit | ExecRateLimit

  datatype AccountState = AccountState(
    lastActivatedAt: Option<Time>,
    depletedAt: Option<Time>,
    retryAfter: Option<Time>,
    primaryRetryAfter: Option<Time>,
    secondaryRetryAfter: Option<Time>,
    lastFailureReason: FailureReason,
    lastSuccessfulUsageCheckAt: Option<Time>,
    lastUsageFreshUntil: Option<Time>,
    lastUsageResult: UsageResult,
    fiveHourUsedPct: Option<int>,
    weeklyUsedPct: Option<int>,
    limitReached: bool,
    spendControlHit: bool)

  const UNKNOWN :=
    AccountState(None, None, None, None, None, NoFailure, None, None, Unchecked, None, None, false, false)

  datatype PendingReason = NoPending | NearLimit | PreferredRestored

  datatype DegradedReason =
    | NotDegraded | NoActiveAccount | NoFreshFallback | ActiveUnavailable | RateLimitNoActive | AllExhausted

  datatype AuthState = AuthState(
    active: Name,
    pendingActive: Name,
    pendingReason: PendingReason,
    pendingSince: Option<Time>,
    restartRequired: bool,
    degraded: bool,
    degradedReason: DegradedReason,
    accounts: map<Name, AccountState>)

  /** Everything a decision depends on. */
  datatype Auth = Auth(settings: Settings, registry: Registry, state: AuthState)

  // ---- The registry -------------------------------------------------------------

  /** The registry's entry with the name. */
  function Lookup(accounts: seq<Account>, name: Name): Option<Account> {
    if accounts == [] then None
    else if accounts[0].name == name then Some(accounts[0])
    else Lookup(accounts[1..], name)
  }

  predicate IsRegistered(r: Registry, name: Name) {
    Lookup(r.accounts, name).Some?
  }

  predicate IsEnabled(r: Registry, name: Name) {
    Lookup(r.accounts, name).Some? && Lookup(r.accounts, name).value.enabled
  }

  predicate DistinctNames(accounts: seq<Account>) {
    forall i, j :: 0 <= i < j < |accounts| ==> accounts[i].name != accounts[j].name
  }

  /** A registry as it is kept: normal, distinct names, and a preferred account that is registered. */
  predicate IsWellFormed(r: Registry) {
    && DistinctNames(r.accounts)
    && (forall i :: 0 <= i < |r.accounts| ==> r.accounts[i].name != "" && IsNormal(r.accounts[i].name))
    && (r.preferred != "" ==> IsRegistered(r, r.preferred))
  }

  lemma {:induction false} LookupIs(accounts: seq<Account>, name: Name)
    ensures Lookup(accounts, name).Some? ==>
      Lookup(accounts, name).value in accounts && Lookup(accounts, name).value.name == name
    ensures Lookup(accounts, name).None? ==> forall a :: a in accounts ==> a.name != name
    ensures DistinctNames(accounts) ==>
      forall a :: a in accounts && a.name == name ==> Lookup(accounts, name) == Some(a)
  {
    if accounts == [] {
    } else {
      var rest := accounts[1..];
      LookupIs(rest, name);
      assert forall a :: a in accounts <==> a == accounts[0] || a in rest;
      if DistinctNames(accounts) {
        assert forall i :: 0 <= i < |rest| ==> rest[i] == accounts[i + 1];
      }
    }
  }

  /** The accounts with, or without, the name, in registry order. */
  function Named(accounts: seq<Account>, name: Name, with: bool): seq<Account> {
    if accounts == [] then []
    else if (accounts[0].name == name) == with then [accounts[0]] + Named(accounts[1..], name, with)
    else Named(accounts[1..], name, with)
  }

  /** The preferred account first, the others in registry order. */
  function Ordered(r: Registry): seq<Account> {
    Named(r.accounts, r.preferred, true) + Named(r.accounts, r.preferred, false)
  }

  lemma {:induction false} NamedMembers(accounts: seq<Account>, name: Name, with: bool)
    ensures forall a :: a in Named(accounts, name, with) <==> a in accounts && (a.name == name) == with
    ensures DistinctNames(accounts) ==> DistinctNames(Named(accounts, name, with))
  {
    if accounts == [] {
    } else {
      var rest, named := accounts[1..], Named(accounts[1..], name, with);
      NamedMembers(rest, name, with);
      assert forall a :: a in accounts <==> a == accounts[0] || a in rest;
      if DistinctNames(accounts) {
        assert DistinctNames(rest) by { assert forall i :: 0 <= i < |rest| ==> rest[i] == accounts[i + 1]; }
        forall i | 0 <= i < |named| ensures named[i].name != accounts[0].name {
          assert named[i] in named;
          var k :| 0 <= k < |rest| && rest[k] == named[i];
          assert rest[k] == accounts[k + 1];
        }
      }
    }
  }

  lemma OrderedMembers(r: Registry)
    ensures forall a :: a in Ordered(r) <==> a in r.accounts
    ensures DistinctNames(r.accounts) ==> DistinctNames(Ordered(r))
  {
    NamedMembers(r.accounts, r.preferred, true);
    NamedMembers(r.accounts, r.preferred, false);
    var p, q := Named(r.accounts, r.preferred, true), Named(r.accounts, r.preferred, false);
    forall i, j | 0 <= i < |p| && 0 <= j < |q| ensures p[i].name != q[j].name {
      assert p[i] in p && q[j] in q;
    }
  }

  /** An account's name is enabled exactly when some entry says so. */
  lemma EnabledIs(r: Registry, name: Name)
    requires IsWellFormed(r)
    ensures IsEnabled(r, name) <==> Account(name, true) in r.accounts
  {
    LookupIs(r.accounts, name);
  }

  // ---- What is known about an account ----------------------------------------------

  function StateOf(s: AuthState, name: Name): AccountState {
    if name in s.accounts then s.accounts[name] else UNKNOWN
  }

  predicate ThresholdExceeded(a: AccountState, settings: Settings) {
    || (a.fiveHourUsedPct.Some? && a.fiveHourUsedPct.value >= settings.thresholdPct)
    || (a.weeklyUsedPct.Some? && a.weeklyUsedPct.value >= settings.thresholdPct)
  }

  predicate RetryPending(a: AccountState, now: Time) {
    a.retryAfter.Some? && a.retryAfter.value > now
  }

  predicate FreshExpired(a: AccountState, now: Time) {
    a.lastUsageFreshUntil.None? || now > a.lastUsageFreshUntil.value
  }

  predicate DwellSatisfied(since: Option<Time>, now: Time, minimum: int) {
    minimum <= 0 || since.None? || since.value + minimum <= now
  }

  /** The account has a fresh usage sample that leaves room. */
  predicate FreshEligible(m: Auth, name: Name, now: Time) {
    && name != "" && IsEnabled(m.registry, name)
    && var a := StateOf(m.state, name);
       && a.lastUsageResult == UsageOK && !a.limitReached && !ThresholdExceeded(a, m.settings)
       && !FreshExpired(a, now) && !RetryPending(a, now)
  }

  /** The account may go on being used: its last known usage leaves room. */
  predicate ActiveUsable(m: Auth, name: Name, now: Time) {
    && name != "" && IsEnabled(m.registry, name)
    && var a := StateOf(m.state, name);
       match a.lastUsageResult
       case UsageOK => !a.limitReached && !ThresholdExceeded(a, m.settings) && !RetryPending(a, now)
       case UsageStale => !a.limitReached && !RetryPending(a, now)
       case _ => false
  }

  predicate ExecutionEligible(m: Auth, name: Name, now: Time) {
    FreshEligible(m, name, now) || (ActiveUsable(m, name, now) && !RetryPending(StateOf(m.state, name), now))
  }

  /** Which of the two tests a search applies. */
  datatype Eligibility = Fresh | Executable

  predicate IsEligible(m: Auth, test: Eligibility, name: Name, now: Time) {
    match test case Fresh => FreshEligible(m, name, now) case Executable => ExecutionEligible(m, name, now)
  }

  // ---- The state's own consistency --------------------------------------------------

  /**
   A restart is required exactly when a switch is pending; a pending account
   differs from the active one; both are registered and enabled.
   */
  predicate IsConsistent(r: Registry, s: AuthState) {
    && (s.restartRequired <==> s.pendingActive != "")
    && (s.pendingActive == "" ==> s.pendingReason == NoPending && s.pendingSince.None?)
    && (s.pendingActive != "" ==> s.pendingActive != s.active && IsEnabled(r, s.pendingActive))
    && (s.active != "" ==> IsEnabled(r, s.active))
  }

  const NO_STATE := AuthState("", "", NoPending, None, false, false, NotDegraded, map[])

  function ClearPending(s: AuthState): AuthState {
    s.(pendingActive := "", pendingReason := NoPending, pendingSince := None, restartRequired := false)
  }

  function ClearDegraded(s: AuthState): AuthState {
    s.(degraded := false, degradedReason := NotDegraded)
  }

  function MarkDegraded(s: AuthState, reason: DegradedReason): AuthState {
    s.(degraded := true, degradedReason := reason)
  }
}
