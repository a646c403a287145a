/** When retention passes mark and purge, in plain numbers, for findings and for scout jobs. */
module RetentionLaws {
  import opened Wrappers
  import opened Findings
  import opened Retention

  // ---- One pass ------------------------------------------------------------------

  /** Days are kept as set, but 30 when unset or negative and 3650 at most; with none to keep nothing gets old. */
  predicate IsOld(since: Option<Time>, setting: Option<int>, now: Time) {
    var days := match setting case None => 30 case Some(n) => if n < 0 then 30 else if n < 3650 then n else 3650;
    since.Some? && days > 0 && now - since.value >= days * 24 * 60 * 60 * 1_000_000_000
  }

  /** The time as it is written, without the part of a second. */
  predicate IsWhole(t: Time, now: Time) {
    t % 1_000_000_000 == 0 && t <= now < t + 1_000_000_000
  }

  /**
   A pass marks exactly the dismissed findings that are old enough, purges
   exactly the deleted ones that are, and leaves every other finding as it is.
   */
  lemma AgesExactly(findings: map<Id, Finding>, id: Id, settings: Settings, now: Time)
    ensures var after := Retained(findings, settings, now);
      && (id !in findings ==> id !in after)
      && (id in findings ==>
            var f := findings[id];
            var since := Since(f.updatedAt, f.createdAt);
            && (id !in after <==> f.status == Deleted && IsOld(since, settings.deletedDays, now))
            && (f.status == Dismissed && IsOld(since, settings.dismissedDays, now) ==>
                  && after[id].status == Deleted && after[id].deletedFromStatus == Some(Dismissed)
                  && after[id].deletedAt.Some? && IsWhole(after[id].deletedAt.value, now)
                  && after[id] == f.(status := Deleted, deletedFromStatus := Some(Dismissed),
                                     deletedAt := after[id].deletedAt, updatedAt := after[id].deletedAt))
            && (id in after && !(f.status == Dismissed && IsOld(since, settings.dismissedDays, now)) ==>
                  after[id] == f))
  {
    if id in findings && FindingFate(findings[id], settings, now) == Marked {
      WholeSeconds(now);
    }
  }

  lemma WholeSeconds(now: Time)
    ensures IsWhole(Truncated(now), now)
  {
  }

  /** So does a pass over scout jobs. */
  lemma JobsAgeExactly(jobs: map<Id, ScoutJob>, id: Id, settings: Settings, now: Time)
    ensures var after := RetainedJobs(jobs, settings, now);
      && (id !in jobs ==> id !in after)
      && (id in jobs ==>
            var j := jobs[id];
            var since := Since(j.updatedAt, j.createdAt);
            && (id !in after <==> j.status == JobDeleted && IsOld(since, settings.deletedDays, now))
            && (j.status == JobDismissed && IsOld(since, settings.dismissedDays, now) ==>
                  && after[id].status == JobDeleted && after[id].deletedFromStatus == Some(JobDismissed)
                  && after[id].deletedAt.Some? && IsWhole(after[id].deletedAt.value, now)
                  && after[id] == j.(status := JobDeleted, deletedFromStatus := Some(JobDismissed),
                                     deletedAt := after[id].deletedAt, updatedAt := after[id].deletedAt))
            && (id in after && !(j.status == JobDismissed && IsOld(since, settings.dismissedDays, now)) ==>
                  after[id] == j))
  {
    if id in jobs && JobFate(jobs[id], settings, now) == Marked {
      WholeSeconds(now);
    }
  }

  // ---- Runs of passes ---------------------------------------------------------------

  function RetainedJobsOver(jobs: map<Id, ScoutJob>, settings: Settings, times: seq<Time>): map<Id, ScoutJob> {
    if times == [] then jobs
    else RetainedJobs(RetainedJobsOver(jobs, settings, times[..|times| - 1]), settings, times[|times| - 1])
  }

  /** The map shows a scout job in the given phase. */
  predicate JobIsIn(phase: Phase, jobs: map<Id, ScoutJob>, id: Id, d: Time) {
    match phase
    case Waiting =>
      id in jobs && jobs[id].status == JobDismissed && Since(jobs[id].updatedAt, jobs[id].createdAt) == Some(d)
    case MarkedAt(t) => id in jobs && jobs[id].status == JobDeleted && jobs[id].updatedAt == Some(Truncated(t))
    case Gone => id !in jobs
  }

  lemma {:induction false} JobsFollowPhases(jobs: map<Id, ScoutJob>, id: Id, d: Time, settings: Settings,
                                            times: seq<Time>)
    requires JobIsIn(Waiting, jobs, id, d)
    ensures JobIsIn(PhaseAfter(d, settings, times), RetainedJobsOver(jobs, settings, times), id, d)
  {
    if times == [] {
    } else {
      JobsFollowPhases(jobs, id, d, settings, times[..|times| - 1]);
    }
  }

  /** A dismissed scout job is gone exactly when one pass found it due and a later one found that mark old enough. */
  lemma JobGoneExactly(jobs: map<Id, ScoutJob>, id: Id, d: Time, settings: Settings, times: seq<Time>)
    requires JobIsIn(Waiting, jobs, id, d) && IsOrdered(times)
    ensures id !in RetainedJobsOver(jobs, settings, times) <==>
      exists i, j :: 0 <= i < j < |times| && IsDue(d, settings, times[i]) && IsOver(times[i], settings, times[j])
  {
    JobsFollowPhases(jobs, id, d, settings, times);
    PhaseExplains(d, settings, times);
  }

  predicate IsAging(status: Status) {
    status == Dismissed || status == Deleted
  }

  /** What is neither dismissed nor deleted, or carries no time at all, outlives every sequence of passes unchanged. */
  lemma {:induction false} OthersStay(findings: map<Id, Finding>, id: Id, settings: Settings, times: seq<Time>)
    requires id in findings
    requires !IsAging(findings[id].status) || (findings[id].updatedAt.None? && findings[id].createdAt.None?)
    ensures var after := RetainedOver(findings, settings, times); id in after && after[id] == findings[id]
  {
    if times == [] {
    } else {
      var front := times[..|times| - 1];
      OthersStay(findings, id, settings, front);
      AgesExactly(RetainedOver(findings, settings, front), id, settings, times[|times| - 1]);
    }
  }

  lemma {:induction false} OtherJobsStay(jobs: map<Id, ScoutJob>, id: Id, settings: Settings, times: seq<Time>)
    requires id in jobs
    requires jobs[id].status.JobOther? || (jobs[id].updatedAt.None? && jobs[id].createdAt.None?)
    ensures var after := RetainedJobsOver(jobs, settings, times); id in after && after[id] == jobs[id]
  {
    if times == [] {
    } else {
      var front := times[..|times| - 1];
      OtherJobsStay(jobs, id, settings, front);
      JobsAgeExactly(RetainedJobsOver(jobs, settings, front), id, settings, times[|times| - 1]);
    }
  }
}
