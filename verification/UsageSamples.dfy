/** Usage samples: how a response becomes a snapshot, and how a check is merged into an account's state. */
module UsageSamples {
  import opened Wrappers
  import opened Accounts

  datatype Window = Window(usedPercent: real, resetAfterSeconds: int, resetAt: int)

  datatype RateLimit = RateLimit(allowed: bool, limitReached: bool, primary: Option<Window>, secondary: Option<Window>)

  datatype Response = Response(rateLimit: Option<RateLimit>, overageLimitReached: bool, spendControlReached: bool)

  datatype Snapshot = Snapshot(
    fiveHourUsedPct: Option<int>,
    weeklyUsedPct: Option<int>,
    spendControlHit: bool,
    nearLimit: bool,
    hardLimit: bool,
    primaryRetryAt: Option<Time>,
    secondaryRetryAt: Option<Time>,
    retryAfter: Option<Time>)

  /** The outcome of one usage check. */
  datatype Check = Sampled(snapshot: Snapshot) | Transient | Permanent

  // ---- Building a snapshot ----------------------------------------------------------

  function ClampPercent(value: real): int {
    var v := if value < 0.0 then 0.0 else value;
    var w := if v > 100.0 then 100.0 else v;
    (w + 0.5).Floor
  }

  lemma ClampPercentIs(value: real)
    ensures 0 <= ClampPercent(value) <= 100
    ensures 0.0 <= value <= 100.0 ==> value - 0.5 < ClampPercent(value) as real <= value + 0.5
  {
  }

  function WindowRetryAt(w: Window, now: Time): Option<Time> {
    if w.resetAt > 0 then Some(w.resetAt * SECOND)
    else if w.resetAfterSeconds > 0 then Some(now + w.resetAfterSeconds * SECOND)
    else None
  }

  /** The earlier of two times, a blank one counting as later than any. */
  function Earlier(a: Option<Time>, b: Option<Time>): Option<Time> {
    if a.None? then b else if b.None? || a.value <= b.value then a else b
  }

  function EarliestOf(times: seq<Option<Time>>): Option<Time> {
    if times == [] then None else Earlier(EarliestOf(times[..|times| - 1]), times[|times| - 1])
  }

  /** The retry times of the windows that matter: both for a hard limit, otherwise those at the threshold. */
  function RetryCandidates(s: Snapshot, settings: Settings): seq<Option<Time>> {
    if s.hardLimit then [s.primaryRetryAt, s.secondaryRetryAt]
    else if s.nearLimit then
      (if AtLeast(s.fiveHourUsedPct, settings.thresholdPct) then [s.primaryRetryAt] else [])
      + (if AtLeast(s.weeklyUsedPct, settings.thresholdPct) then [s.secondaryRetryAt] else [])
    else []
  }

  /** When the first of the limits that hold is over. */
  function EarliestRetry(s: Snapshot, settings: Settings): Option<Time> {
    EarliestOf(RetryCandidates(s, settings))
  }

  /** The earliest of some times is one of them and no later than any other; blank ones do not count. */
  lemma {:induction false} EarliestOfIs(times: seq<Option<Time>>)
    ensures EarliestOf(times).None? <==> forall t :: t in times ==> t.None?
    ensures EarliestOf(times).Some? ==> EarliestOf(times) in times
    ensures forall t :: t in times && t.Some? ==> EarliestOf(times).Some? && EarliestOf(times).value <= t.value
  {
    if times != [] {
      var front, last := times[..|times| - 1], times[|times| - 1];
      assert times == front + [last];
      EarliestOfIs(front);
    }
  }

  method FindEarliestRetry(s: Snapshot, settings: Settings) returns (best: Option<Time>)
    ensures best == EarliestRetry(s, settings)
  {
    var candidates: seq<Option<Time>> := [];
    if s.hardLimit {
      candidates := [s.primaryRetryAt, s.secondaryRetryAt];
    } else if s.nearLimit {
      if AtLeast(s.fiveHourUsedPct, settings.thresholdPct) {
        candidates := candidates + [s.primaryRetryAt];
      }
      if AtLeast(s.weeklyUsedPct, settings.thresholdPct) {
        candidates := candidates + [s.secondaryRetryAt];
      }
    }
    assert candidates == RetryCandidates(s, settings);
    best := None;
    for i := 0 to |candidates|
      invariant best == EarliestOf(candidates[..i])
    {
      assert candidates[..i + 1][..i] == candidates[..i];
      if candidates[i].Some? && (best.None? || candidates[i].value < best.value) {
        best := candidates[i];
      }
    }
    assert candidates[..|candidates|] == candidates;
  }

  function UsedPercent(w: Option<Window>): Option<int> {
    if w.Some? then Some(ClampPercent(w.value.usedPercent)) else None
  }

  function RetryAt(w: Option<Window>, now: Time): Option<Time> {
    if w.Some? then WindowRetryAt(w.value, now) else None
  }

  predicate AtLeast(pct: Option<int>, threshold: int) {
    pct.Some? && pct.value >= threshold
  }

  function SnapshotOf(r: Response, settings: Settings, now: Time): Snapshot {
    var primary := if r.rateLimit.Some? then r.rateLimit.value.primary else None;
    var secondary := if r.rateLimit.Some? then r.rateLimit.value.secondary else None;
    var limited := r.rateLimit.Some? && (r.rateLimit.value.limitReached || !r.rateLimit.value.allowed);
    var five, weekly := UsedPercent(primary), UsedPercent(secondary);
    var s := Snapshot(
      five, weekly, r.spendControlReached,
      AtLeast(five, settings.thresholdPct) || AtLeast(weekly, settings.thresholdPct),
      limited || r.overageLimitReached || r.spendControlReached,
      RetryAt(primary, now), RetryAt(secondary, now), None);
    s.(retryAfter := EarliestRetry(s, settings))
  }

  /** Fills in a snapshot from a response, window by window. */
  method BuildSnapshot(r: Response, settings: Settings, now: Time) returns (s: Snapshot)
    ensures s == SnapshotOf(r, settings, now)
  {
    s := Snapshot(None, None, false, false, false, None, None, None);
    if r.rateLimit.Some? {
      var limit := r.rateLimit.value;
      if limit.primary.Some? {
        var value := ClampPercent(limit.primary.value.usedPercent);
        s := s.(fiveHourUsedPct := Some(value), primaryRetryAt := WindowRetryAt(limit.primary.value, now));
        if value >= settings.thresholdPct {
          s := s.(nearLimit := true);
        }
      }
      if limit.secondary.Some? {
        var value := ClampPercent(limit.secondary.value.usedPercent);
        s := s.(weeklyUsedPct := Some(value), secondaryRetryAt := WindowRetryAt(limit.secondary.value, now));
        if value >= settings.thresholdPct {
          s := s.(nearLimit := true);
        }
      }
      if limit.limitReached || !limit.allowed {
        s := s.(hardLimit := true);
      }
    }
    if r.overageLimitReached {
      s := s.(hardLimit := true);
    }
    if r.spendControlReached {
      s := s.(spendControlHit := true, hardLimit := true);
    }
    var retryAfter := FindEarliestRetry(s, settings);
    s := s.(retryAfter := retryAfter);
  }

  // ---- Merging a check -----------------------------------------------------------------

  function Merged(a: AccountState, check: Check, now: Time, settings: Settings): AccountState {
    match check
    case Sampled(s) =>
      a.(fiveHourUsedPct := s.fiveHourUsedPct, weeklyUsedPct := s.weeklyUsedPct,
         spendControlHit := s.spendControlHit, limitReached := s.hardLimit,
         primaryRetryAfter := s.primaryRetryAt, secondaryRetryAfter := s.secondaryRetryAt,
         retryAfter := s.retryAfter, lastSuccessfulUsageCheckAt := Some(now),
         lastUsageFreshUntil := Some(now + settings.staleAfter), lastUsageResult := UsageOK)
    case Transient =>
      if a.lastSuccessfulUsageCheckAt.Some? && !FreshExpired(a, now) then a.(lastUsageResult := UsageStale)
      else a.(lastUsageResult := UsageTransient, limitReached := false, spendControlHit := false)
    case Permanent =>
      a.(lastUsageResult := UsagePermanent, limitReached := false, spendControlHit := false)
  }

  /** The state of an account after a check: `favoured` says that it is the active or the preferred one. */
  function Evaluated(a: AccountState, check: Check, favoured: bool, now: Time, settings: Settings): AccountState {
    var b := Merged(a, check, now, settings);
    if !check.Sampled? then b
    else if check.snapshot.hardLimit then b.(depletedAt := Some(now), lastFailureReason := UsageHardLimit)
    else if check.snapshot.nearLimit then b.(depletedAt := Some(now), lastFailureReason := UsageNearLimit)
    else if favoured then
      var c := b.(depletedAt := None, retryAfter := None);
      if c.lastFailureReason == UsageHardLimit || c.lastFailureReason == UsageNearLimit
      then c.(lastFailureReason := NoFailure) else c
    else b
  }

  /**
   Right after a successful check an enabled account is eligible exactly when
   the response showed room: neither a hard limit nor a window at the
   threshold.
   */
  lemma EligibleAfterCheck(m: Auth, name: Name, a: AccountState, r: Response, favoured: bool, now: Time)
    requires name != "" && m.settings.staleAfter >= 0
    requires StateOf(m.state, name)
          == Evaluated(a, Sampled(SnapshotOf(r, m.settings, now)), favoured, now, m.settings)
    ensures FreshEligible(m, name, now) <==>
      && IsEnabled(m.registry, name)
      && !SnapshotOf(r, m.settings, now).hardLimit && !SnapshotOf(r, m.settings, now).nearLimit
  {
  }
}
