/**
 Retention: dismissed items are marked deleted after some days, and deleted
 items are purged after some more.  Times are nanoseconds; the time of a mark
 is written in whole seconds.
 */
module Retention {
  import opened Wrappers
  import opened Findings

  /** Nanoseconds in a number of days of 24 hours. */
  function Days(n: int): int {
    n * 86_400_000_000_000
  }

  // ---- Settings --------------------------------------------------------------------

  const DEFAULT_DAYS := 30
  const MAX_DAYS := 3650

  /** A missing or negative number of days is the default, a huge one the maximum. */
  function ResolvedDays(setting: Option<int>): (days: int)
    ensures 0 <= days <= MAX_DAYS
  {
    if setting.None? || setting.value < 0 then DEFAULT_DAYS
    else if setting.value > MAX_DAYS then MAX_DAYS
    else setting.value
  }

  datatype Settings = Settings(dismissedDays: Option<int>, deletedDays: Option<int>)

  /** The latest time that is old enough; with no days to keep there is none. */
  function Cutoff(now: Time, days: int): Option<Time> {
    if days <= 0 then None else Some(now - Days(days))
  }

  /** Whether an item was last updated, or else created, by the cutoff. */
  predicate Expired(updatedAt: Option<Time>, createdAt: Option<Time>, cutoff: Option<Time>) {
    cutoff.Some? &&
    if updatedAt.Some? then updatedAt.value <= cutoff.value
    else createdAt.Some? && createdAt.value <= cutoff.value
  }

  /** A time as it is written, in whole seconds. */
  function Truncated(now: Time): (t: Time)
    ensures now - 1_000_000_000 < t <= now
  {
    now - now % 1_000_000_000
  }

  lemma TruncatedMonotone(s: Time, t: Time)
    requires s <= t
    ensures Truncated(s) <= Truncated(t)
  {
  }

  // ---- One item ---------------------------------------------------------------------

  datatype Fate = Kept | Marked | Purged

  function FateOf(isDismissed: bool, isDeleted: bool, updatedAt: Option<Time>, createdAt: Option<Time>,
                  settings: Settings, now: Time): Fate {
    if isDismissed && Expired(updatedAt, createdAt, Cutoff(now, ResolvedDays(settings.dismissedDays))) then Marked
    else if isDeleted && Expired(updatedAt, createdAt, Cutoff(now, ResolvedDays(settings.deletedDays))) then Purged
    else Kept
  }

  function FindingFate(f: Finding, settings: Settings, now: Time): Fate {
    FateOf(f.status == Dismissed, f.status == Deleted, f.updatedAt, f.createdAt, settings, now)
  }

  function MarkedFinding(f: Finding, now: Time): Finding {
    f.(status := Deleted, deletedFromStatus := Some(f.status), deletedAt := Some(Truncated(now)),
       updatedAt := Some(Truncated(now)))
  }

  datatype JobStatus = JobDismissed | JobDeleted | JobOther(name: string)

  datatype ScoutJob = ScoutJob(
    title: string,
    status: JobStatus,
    deletedFromStatus: Option<JobStatus>,
    deletedAt: Option<Time>,
    createdAt: Option<Time>,
    updatedAt: Option<Time>)

  function JobFate(j: ScoutJob, settings: Settings, now: Time): Fate {
    FateOf(j.status == JobDismissed, j.status == JobDeleted, j.updatedAt, j.createdAt, settings, now)
  }

  function MarkedJob(j: ScoutJob, now: Time): ScoutJob {
    j.(status := JobDeleted, deletedFromStatus := Some(j.status), deletedAt := Some(Truncated(now)),
       updatedAt := Some(Truncated(now)))
  }

  // ---- One pass ------------------------------------------------------------------------

  /** The findings after one retention pass. */
  function Retained(findings: map<Id, Finding>, settings: Settings, now: Time): map<Id, Finding> {
    map id | id in findings && FindingFate(findings[id], settings, now) != Purged ::
      if FindingFate(findings[id], settings, now) == Marked then MarkedFinding(findings[id], now) else findings[id]
  }

  function RetainedJobs(jobs: map<Id, ScoutJob>, settings: Settings, now: Time): map<Id, ScoutJob> {
    map id | id in jobs && JobFate(jobs[id], settings, now) != Purged ::
      if JobFate(jobs[id], settings, now) == Marked then MarkedJob(jobs[id], now) else jobs[id]
  }

  function WithFate(findings: map<Id, Finding>, fate: Fate, settings: Settings, now: Time): set<Id> {
    set id | id in findings && FindingFate(findings[id], settings, now) == fate
  }

  function JobsWithFate(jobs: map<Id, ScoutJob>, fate: Fate, settings: Settings, now: Time): set<Id> {
    set id | id in jobs && JobFate(jobs[id], settings, now) == fate
  }

  /** An item that was just marked is kept: the days to keep it are at least one. */
  lemma MarkedIsKept(settings: Settings, now: Time)
    ensures forall f: Finding :: FindingFate(MarkedFinding(f, now), settings, now) == Kept
    ensures forall j: ScoutJob :: JobFate(MarkedJob(j, now), settings, now) == Kept
  {
    assert Truncated(now) > now - Days(1);
  }

  /**
   A pass marks or purges each finding at most once, so a second pass at the
   same instant changes nothing; what is left out of the map was purged.
   */
  lemma PassIsIdempotent(findings: map<Id, Finding>, settings: Settings, now: Time)
    ensures var after := Retained(findings, settings, now);
      && Retained(after, settings, now) == after
      && (forall id :: id in after ==> FindingFate(after[id], settings, now) == Kept)
      && |after| == |findings| - |WithFate(findings, Purged, settings, now)|
  {
    MarkedIsKept(settings, now);
    RetainedCount(findings, settings, now);
    var after := Retained(findings, settings, now);
    assert forall id :: id in after ==> FindingFate(after[id], settings, now) == Kept;
    assert Retained(after, settings, now) == after;
  }

  lemma RetainedCount(findings: map<Id, Finding>, settings: Settings, now: Time)
    ensures |Retained(findings, settings, now)| == |findings| - |WithFate(findings, Purged, settings, now)|
  {
    var after, purged := Retained(findings, settings, now), WithFate(findings, Purged, settings, now);
    assert findings.Keys == after.Keys + purged && after.Keys !! purged;
    assert |findings.Keys| == |after.Keys| + |purged|;
  }

  lemma JobPassIsIdempotent(jobs: map<Id, ScoutJob>, settings: Settings, now: Time)
    ensures var after := RetainedJobs(jobs, settings, now);
      && RetainedJobs(after, settings, now) == after
      && (forall id :: id in after ==> JobFate(after[id], settings, now) == Kept)
      && |after| == |jobs| - |JobsWithFate(jobs, Purged, settings, now)|
  {
    MarkedIsKept(settings, now);
    RetainedJobsCount(jobs, settings, now);
    var after := RetainedJobs(jobs, settings, now);
    assert forall id :: id in after ==> JobFate(after[id], settings, now) == Kept;
    assert RetainedJobs(after, settings, now) == after;
  }

  lemma RetainedJobsCount(jobs: map<Id, ScoutJob>, settings: Settings, now: Time)
    ensures |RetainedJobs(jobs, settings, now)| == |jobs| - |JobsWithFate(jobs, Purged, settings, now)|
  {
    var after, purged := RetainedJobs(jobs, settings, now), JobsWithFate(jobs, Purged, settings, now);
    assert jobs.Keys == after.Keys + purged && after.Keys !! purged;
    assert |jobs.Keys| == |after.Keys| + |purged|;
  }

  // ---- Runs of passes ---------------------------------------------------------------------

  function RetainedOver(findings: map<Id, Finding>, settings: Settings, times: seq<Time>): map<Id, Finding> {
    if times == [] then findings
    else Retained(RetainedOver(findings, settings, times[..|times| - 1]), settings, times[|times| - 1])
  }

  predicate IsOrdered(times: seq<Time>) {
    forall i, j :: 0 <= i < j < |times| ==> times[i] <= times[j]
  }

  /** A pass at `now` finds a dismissed finding with timestamp `d` old enough to be marked. */
  predicate IsDue(d: Time, settings: Settings, now: Time) {
    var days := ResolvedDays(settings.dismissedDays);
    days > 0 && d + Days(days) <= now
  }

  /** A pass at `now` finds a mark made at `marked` old enough for the finding to be purged. */
  predicate IsOver(marked: Time, settings: Settings, now: Time) {
    var days := ResolvedDays(settings.deletedDays);
    days > 0 && Truncated(marked) + Days(days) <= now
  }

  /** How far a dismissed finding has come. */
  datatype Phase = Waiting | MarkedAt(time: Time) | Gone

  function NextPhase(phase: Phase, d: Time, settings: Settings, now: Time): Phase {
    match phase
    case Waiting => if IsDue(d, settings, now) then MarkedAt(now) else Waiting
    case MarkedAt(t) => if IsOver(t, settings, now) then Gone else phase
    case Gone => Gone
  }

  function PhaseAfter(d: Time, settings: Settings, times: seq<Time>): Phase {
    if times == [] then Waiting
    else NextPhase(PhaseAfter(d, settings, times[..|times| - 1]), d, settings, times[|times| - 1])
  }

  /** When an item was last updated, or else created. */
  function Since(updatedAt: Option<Time>, createdAt: Option<Time>): Option<Time> {
    if updatedAt.Some? then updatedAt else createdAt
  }

  /** The map shows a finding in the given phase. */
  predicate IsIn(phase: Phase, findings: map<Id, Finding>, id: Id, d: Time) {
    match phase
    case Waiting =>
      id in findings && findings[id].status == Dismissed
      && Since(findings[id].updatedAt, findings[id].createdAt) == Some(d)
    case MarkedAt(t) => id in findings && findings[id].status == Deleted && findings[id].updatedAt == Some(Truncated(t))
    case Gone => id !in findings
  }

  lemma {:induction false} PassesFollowPhases(findings: map<Id, Finding>, id: Id, d: Time, settings: Settings,
                                              times: seq<Time>)
    requires IsIn(Waiting, findings, id, d)
    ensures IsIn(PhaseAfter(d, settings, times), RetainedOver(findings, settings, times), id, d)
  {
    if times == [] {
    } else {
      PassesFollowPhases(findings, id, d, settings, times[..|times| - 1]);
    }
  }

  /** What the passes so far say, phase by phase. */
  ghost predicate Explains(phase: Phase, d: Time, settings: Settings, times: seq<Time>) {
    match phase
    case Waiting => forall i :: 0 <= i < |times| ==> !IsDue(d, settings, times[i])
    case MarkedAt(t) =>
      && IsDue(d, settings, t) && t in times
      && (forall i :: 0 <= i < |times| && IsDue(d, settings, times[i]) ==> t <= times[i])
      && !IsOverInTime(d, settings, times)
    case Gone => IsOverInTime(d, settings, times)
  }

  /** One pass found the finding due, and a later one found its mark over. */
  ghost predicate IsOverInTime(d: Time, settings: Settings, times: seq<Time>) {
    exists i, j :: 0 <= i < j < |times| && IsDue(d, settings, times[i]) && IsOver(times[i], settings, times[j])
  }

  lemma OverIsMonotone(s: Time, t: Time, settings: Settings, now: Time)
    requires s <= t && IsOver(t, settings, now)
    ensures IsOver(s, settings, now)
  {
    TruncatedMonotone(s, t);
  }

  lemma OverInLonger(d: Time, settings: Settings, front: seq<Time>, now: Time)
    ensures IsOverInTime(d, settings, front + [now]) <==>
      IsOverInTime(d, settings, front)
      || exists i :: 0 <= i < |front| && IsDue(d, settings, front[i]) && IsOver(front[i], settings, now)
  {
    var times := front + [now];
    assert forall i :: 0 <= i < |front| ==> times[i] == front[i];
    if i :| 0 <= i < |front| && IsDue(d, settings, front[i]) && IsOver(front[i], settings, now) {
      assert IsDue(d, settings, times[i]) && IsOver(times[i], settings, times[|front|]);
    }
    if i, j :| 0 <= i < j < |front| && IsDue(d, settings, front[i]) && IsOver(front[i], settings, front[j]) {
      assert IsDue(d, settings, times[i]) && IsOver(times[i], settings, times[j]);
    }
  }

  lemma NextPhaseExplains(phase: Phase, d: Time, settings: Settings, front: seq<Time>, now: Time)
    requires Explains(phase, d, settings, front) && IsOrdered(front + [now])
    ensures Explains(NextPhase(phase, d, settings, now), d, settings, front + [now])
  {
    var times := front + [now];
    assert times[|front|] == now && forall i :: 0 <= i < |front| ==> times[i] == front[i];
    OverInLonger(d, settings, front, now);
    if phase.MarkedAt? {
      forall i | 0 <= i < |front| && IsDue(d, settings, front[i]) && IsOver(front[i], settings, now)
        ensures IsOver(phase.time, settings, now)
      {
        OverIsMonotone(phase.time, front[i], settings, now);
      }
      var k :| 0 <= k < |front| && front[k] == phase.time;
    }
  }

  lemma {:induction false} PhaseExplains(d: Time, settings: Settings, times: seq<Time>)
    requires IsOrdered(times)
    ensures Explains(PhaseAfter(d, settings, times), d, settings, times)
  {
    if times == [] {
    } else {
      var front, now := times[..|times| - 1], times[|times| - 1];
      assert times == front + [now];
      PhaseExplains(d, settings, front);
      NextPhaseExplains(PhaseAfter(d, settings, front), d, settings, front, now);
    }
  }

  /**
   With a clock that does not run backwards, a finding that was dismissed at
   `d` is gone after some passes exactly when one pass found it old
   enough to be marked and a later one found that mark old enough.
   */
  lemma GoneExactly(findings: map<Id, Finding>, id: Id, d: Time, settings: Settings, times: seq<Time>)
    requires IsIn(Waiting, findings, id, d) && IsOrdered(times)
    ensures id !in RetainedOver(findings, settings, times) <==>
      exists i, j :: 0 <= i < j < |times| && IsDue(d, settings, times[i]) && IsOver(times[i], settings, times[j])
  {
    PassesFollowPhases(findings, id, d, settings, times);
    PhaseExplains(d, settings, times);
  }

  /** A dismissed finding is purged only after both waiting times, less the second that writing the mark drops. */
  lemma PurgedOnlyAfterWaits(findings: map<Id, Finding>, id: Id, d: Time, settings: Settings, times: seq<Time>)
    requires IsIn(Waiting, findings, id, d) && IsOrdered(times)
    requires id !in RetainedOver(findings, settings, times)
    ensures var dismissed, deleted := ResolvedDays(settings.dismissedDays), ResolvedDays(settings.deletedDays);
      && dismissed > 0 && deleted > 0 && times != []
      && times[|times| - 1] > d + Days(dismissed + deleted) - 1_000_000_000
  {
    GoneExactly(findings, id, d, settings, times);
    var i, j :| 0 <= i < j < |times| && IsDue(d, settings, times[i]) && IsOver(times[i], settings, times[j]);
    assert times[j] <= times[|times| - 1];
  }
}
