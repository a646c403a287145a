/** The work state of one repository, which the syncs, the user and the retention passes update in place. */
module FindingsStore {
  import opened Wrappers
  import opened Findings
  import opened FindingsSync
  import opened FindingsRuns
  import opened Retention

  /** How many items a retention pass marked and purged. */
  datatype Counts = Counts(jobsMarked: nat, jobsPurged: nat, findingsMarked: nat, findingsPurged: nat)

  lemma JobsWithFateOneMore(jobs: map<Id, ScoutJob>, key: Id, j: ScoutJob, fate: Fate, settings: Settings, now: Time)
    requires key !in jobs
    ensures |JobsWithFate(jobs[key := j], fate, settings, now)| ==
      |JobsWithFate(jobs, fate, settings, now)| + if fate == JobFate(j, settings, now) then 1 else 0
  {
    var done := JobsWithFate(jobs, fate, settings, now);
    if fate == JobFate(j, settings, now) {
      assert JobsWithFate(jobs[key := j], fate, settings, now) == done + {key};
    } else {
      assert JobsWithFate(jobs[key := j], fate, settings, now) == done;
    }
  }

  lemma WithFateOneMore(findings: map<Id, Finding>, key: Id, f: Finding, fate: Fate, settings: Settings, now: Time)
    requires key !in findings
    ensures |WithFate(findings[key := f], fate, settings, now)| ==
      |WithFate(findings, fate, settings, now)| + if fate == FindingFate(f, settings, now) then 1 else 0
  {
    var done := WithFate(findings, fate, settings, now);
    if fate == FindingFate(f, settings, now) {
      assert WithFate(findings[key := f], fate, settings, now) == done + {key};
    } else {
      assert WithFate(findings[key := f], fate, settings, now) == done;
    }
  }

  /** Ageing one more entry: the counts grow as the pass says. */
  lemma JobsCountOneMore(before: map<Id, ScoutJob>, rest: set<Id>, key: Id, fate: Fate, settings: Settings, now: Time)
    requires key in rest && rest <= before.Keys
    ensures var more := if fate == JobFate(before[key], settings, now) then 1 else 0;
      |JobsWithFate(before - (rest - {key}), fate, settings, now)|
        == |JobsWithFate(before - rest, fate, settings, now)| + more
  {
    assert before - (rest - {key}) == (before - rest)[key := before[key]];
    JobsWithFateOneMore(before - rest, key, before[key], fate, settings, now);
  }

  /** Ageing one more entry: the map changes as the pass says. */
  lemma JobsOneMore(before: map<Id, ScoutJob>, current: map<Id, ScoutJob>, after: map<Id, ScoutJob>, rest: set<Id>,
      key: Id, settings: Settings, now: Time)
    requires key in rest && rest <= before.Keys && key in current && current[key] == before[key]
    requires current - rest == RetainedJobs(before - rest, settings, now)
    requires after == match JobFate(before[key], settings, now)
      case Kept => current
      case Marked => current[key := MarkedJob(before[key], now)]
      case Purged => current - {key}
    ensures after - (rest - {key}) == RetainedJobs(before - (rest - {key}), settings, now)
  {
    assert before - (rest - {key}) == (before - rest)[key := before[key]];
    var aged := RetainedJobs(before - (rest - {key}), settings, now);
    match JobFate(before[key], settings, now)
    case Kept =>
      assert after - (rest - {key}) == (current - rest)[key := before[key]];
      assert aged == (current - rest)[key := before[key]];
    case Marked =>
      assert after - (rest - {key}) == (current - rest)[key := MarkedJob(before[key], now)];
      assert aged == (current - rest)[key := MarkedJob(before[key], now)];
    case Purged =>
      assert after - (rest - {key}) == current - rest;
      assert aged == current - rest;
  }

  /** Ageing one more entry: the counts grow as the pass says. */
  lemma FindingsCountOneMore(before: map<Id, Finding>, rest: set<Id>, key: Id, fate: Fate, settings: Settings,
      now: Time)
    requires key in rest && rest <= before.Keys
    ensures var more := if fate == FindingFate(before[key], settings, now) then 1 else 0;
      |WithFate(before - (rest - {key}), fate, settings, now)| == |WithFate(before - rest, fate, settings, now)| + more
  {
    assert before - (rest - {key}) == (before - rest)[key := before[key]];
    WithFateOneMore(before - rest, key, before[key], fate, settings, now);
  }

  /** Ageing one more entry: the map changes as the pass says. */
  lemma FindingsOneMore(before: map<Id, Finding>, current: map<Id, Finding>, after: map<Id, Finding>, rest: set<Id>,
      key: Id, settings: Settings, now: Time)
    requires key in rest && rest <= before.Keys && key in current && current[key] == before[key]
    requires current - rest == Retained(before - rest, settings, now)
    requires after == match FindingFate(before[key], settings, now)
      case Kept => current
      case Marked => current[key := MarkedFinding(before[key], now)]
      case Purged => current - {key}
    ensures after - (rest - {key}) == Retained(before - (rest - {key}), settings, now)
  {
    assert before - (rest - {key}) == (before - rest)[key := before[key]];
    var aged := Retained(before - (rest - {key}), settings, now);
    match FindingFate(before[key], settings, now)
    case Kept =>
      assert after - (rest - {key}) == (current - rest)[key := before[key]];
      assert aged == (current - rest)[key := before[key]];
    case Marked =>
      assert after - (rest - {key}) == (current - rest)[key := MarkedFinding(before[key], now)];
      assert aged == (current - rest)[key := MarkedFinding(before[key], now)];
    case Purged =>
      assert after - (rest - {key}) == current - rest;
      assert aged == current - rest;
  }

  /** The findings with the given ones resolved. */
  ghost function AllResolved(findings: map<Id, Finding>, ids: set<Id>, now: Time): map<Id, Finding> {
    map id | id in findings :: if id in ids then ResolvedAt(findings[id], now) else findings[id]
  }

  lemma ResolvedOneMore(findings: map<Id, Finding>, missing: set<Id>, rest: set<Id>, id: Id, now: Time)
    requires id in rest && rest <= findings.Keys
    ensures missing - (rest - {id}) == (missing - rest) + if id in missing then {id} else {}
    ensures AllResolved(findings, missing - rest, now)[id] == findings[id]
    ensures AllResolved(findings, missing - (rest - {id}), now) ==
      if id in missing then AllResolved(findings, missing - rest, now)[id := ResolvedAt(findings[id], now)]
      else AllResolved(findings, missing - rest, now)
  {
  }

  lemma SeenInMore(proposals: seq<Proposal>, i: nat)
    requires i < |proposals|
    ensures SeenIn(proposals[..i + 1])
      == SeenIn(proposals[..i]) + if IsReported(proposals[i]) then {proposals[i].itemId} else {}
  {
    assert proposals[..i + 1] == proposals[..i] + [proposals[i]];
  }

  class WorkState {
    var findings: map<Id, Finding>
    var planned: map<Id, PlannedItem>
    var scoutJobs: map<Id, ScoutJob>
    var clock: Id

    constructor ()
      ensures Contents() == NO_FINDINGS && scoutJobs == map[]
    {
      findings, planned, scoutJobs, clock := map[], map[], map[], 0;
    }

    ghost function Contents(): State
      reads this`findings, this`planned, this`clock
    {
      State(findings, planned, clock)
    }

    /** Reads the clock. */
    method Tick() returns (now: Id)
      modifies this`clock
      ensures now == old(clock) && clock == now + 1
    {
      now := clock;
      clock := clock + 1;
    }

    // ---- Lookup -------------------------------------------------------------------

    /** The identifiers in use, in ascending order. */
    method SortedIds() returns (ids: seq<Id>)
      ensures forall i, j :: 0 <= i < j < |ids| ==> ids[i] < ids[j]
      ensures forall id :: id in ids <==> id in findings
    {
      ids := [];
      var rest := findings.Keys;
      while rest != {}
        invariant rest <= findings.Keys
        invariant forall id :: id in ids <==> id in findings.Keys - rest
        invariant forall i, j :: 0 <= i < j < |ids| ==> ids[i] < ids[j]
        invariant forall i, id :: 0 <= i < |ids| && id in rest ==> ids[i] < id
        decreases rest
      {
        var least := Least(rest);
        assert forall i :: 0 <= i < |ids| ==> ids[i] < least;
        ids := ids + [least];
        rest := rest - {least};
      }
    }

    /** Scans the findings in the order of their identifiers for the first one with the key. */
    method Find(key: Key) returns (found: Option<Id>)
      ensures found == FindBySource(findings, key)
      ensures found.Some? ==> found.value in findings
    {
      var ids := SortedIds();
      var i := 0;
      while i < |ids|
        invariant 0 <= i <= |ids|
        invariant forall k :: 0 <= k < i ==> findings[ids[k]].key != key
      {
        if findings[ids[i]].key == key {
          assert ids[i] in IdsWith(findings, key);
          forall id | id in IdsWith(findings, key) ensures ids[i] <= id {
            var k :| 0 <= k < |ids| && ids[k] == id;
            assert k >= i;
          }
          return Some(ids[i]);
        }
        i := i + 1;
      }
      forall id | id in findings ensures findings[id].key != key {
        var k :| 0 <= k < |ids| && ids[k] == id;
      }
      assert IdsWith(findings, key) == {};
      return None;
    }

    // ---- Upsert and promotion -----------------------------------------------------------

    /** Writes what a report says into a finding, field by field. */
    static method Rewrite(existing: Finding, input: Input, now: Time, createdAt: Time) returns (next: Finding)
      ensures next == Updated(existing, input, now, createdAt)
    {
      next := existing.(repo := if input.repo != "" then input.repo else existing.repo);
      next := next.(key := input.key, parent := input.parent, content := input.content, updatedAt := Some(now));
      if next.createdAt.None? {
        next := next.(createdAt := Some(createdAt));
      }
      if next.status == Resolved {
        next := next.(status := Open, resolvedAt := None);
      }
      if next.status == Deleted {
        next := next.(updatedAt := existing.updatedAt);
      }
    }

    method UpsertFinding(input: Input) returns (id: Id, changed: bool)
      modifies this`findings, this`clock
      ensures Upserted(Contents(), id, changed) == Upsert(old(Contents()), input)
      ensures id in findings
    {
      var wall := Tick();
      var now: Time := if input.updatedAt.Some? then input.updatedAt.value else wall;
      var createdAt: Time := if input.createdAt.Some? then input.createdAt.value else now;
      var found := Find(input.key);
      var existing: Finding;
      if found.Some? {
        id := found.value;
        existing := findings[id];
      } else {
        id := Tick();
        existing := NewFinding(id, input, createdAt);
      }
      var next := Rewrite(existing, input, now, createdAt);
      changed := found.None? || next != existing;
      if changed {
        findings := findings[id := next];
      }
    }

    method PromoteFinding(id: Id) returns (error: Option<Error>)
      modifies this`findings, this`planned, this`clock
      ensures Promote(old(Contents()), id) == if error.Some? then Err(error.value) else Ok(Contents())
      ensures error.Some? ==> Contents() == old(Contents())
    {
      if id !in findings {
        return Some(NotFound(id));
      }
      var finding := findings[id];
      if finding.status == Deleted {
        return Some(IsDeleted(id));
      }
      if finding.promotedTask.Some? && finding.promotedTask.value in planned {
        return None;
      }
      var now := Tick();
      var item := Tick();
      planned := planned[item := PlannedItem(item, "Address finding: " + finding.content.title,
                                             Priority(finding.content.severity), now, Queued)];
      finding := finding.(promotedTask := Some(item), status := Promoted, deletedFromStatus := None);
      finding := finding.(deletedAt := None, updatedAt := Some(now), resolvedAt := None);
      findings := findings[id := finding];
      return None;
    }

    method AutoPromoteFinding(auto: bool, id: Id) returns (promoted: bool)
      requires id in findings
      modifies this`findings, this`planned, this`clock
      ensures (Contents(), promoted) == AutoPromote(old(Contents()), auto, id)
    {
      if !auto {
        return false;
      }
      var finding := findings[id];
      if finding.promotedTask.Some? || finding.status == Dismissed || finding.status == Deleted {
        return false;
      }
      var error := PromoteFinding(id);
      return error.None?;
    }

    // ---- Planned items ---------------------------------------------------------------------

    /** A user plans some work. */
    method QueueItem(title: string, priority: int) returns (item: Id)
      modifies this`planned, this`clock
      ensures Contents() == Queue(old(Contents()), title, priority)
      ensures item in planned && planned[item].title == title && planned[item].state == Queued
    {
      var now := Tick();
      item := Tick();
      planned := planned[item := PlannedItem(item, title, priority, now, Queued)];
    }

    /** Notes how far an item got. */
    method AdvanceItem(item: Id, state: ItemState)
      modifies this`planned
      ensures Contents() == Advance(old(Contents()), item, state)
    {
      if item in planned {
        var changed := planned[item].(state := state);
        planned := planned[item := changed];
      }
    }

    /** Drops an item that was not launched; one that was is refused, and nothing changes. */
    method DropItem(item: Id) returns (error: Option<Error>)
      modifies this`planned
      ensures Drop(old(Contents()), item) == if error.Some? then Err(error.value) else Ok(Contents())
      ensures error.Some? ==> Contents() == old(Contents())
    {
      if item !in planned {
        return Some(NotFound(item));
      }
      if planned[item].state != Queued && planned[item].state != Failed {
        return Some(NotRemovable(item));
      }
      planned := planned - {item};
      return None;
    }

    // ---- Sync ---------------------------------------------------------------------------

    /** Resolves one finding when the source no longer reports it. */
    method ResolveIfMissing(id: Id, source: Source, seen: set<string>, now: Time) returns (resolved: bool)
      requires id in findings
      modifies this`findings
      ensures resolved <==> IsMissing(old(findings)[id], source, seen)
      ensures findings == if resolved then old(findings)[id := ResolvedAt(old(findings)[id], now)] else old(findings)
    {
      var finding := findings[id];
      if finding.key.kind != source.kind || finding.key.sourceId != source.id || finding.key.itemId in seen {
        return false;
      }
      if finding.status == Dismissed || finding.status == Deleted || finding.status == Resolved {
        return false;
      }
      finding := finding.(status := Resolved, resolvedAt := Some(now), updatedAt := Some(now));
      findings := findings[id := finding];
      return true;
    }

    /** Resolves, one after the other and in any order, the findings that the source no longer reports. */
    method MarkMissingFindings(source: Source, seen: set<string>) returns (updated: bool)
      modifies this`findings, this`clock
      ensures Contents() == MarkMissing(old(Contents()), source, seen).0
      ensures updated == MarkMissing(old(Contents()), source, seen).1
    {
      if findings == map[] {
        return false;
      }
      updated := false;
      var now := Tick();
      ghost var before := findings;
      ghost var missing := MissingIds(before, source, seen);
      var rest := findings.Keys;
      assert findings == AllResolved(before, missing - rest, now);
      while rest != {}
        invariant rest <= before.Keys && clock == now + 1
        invariant findings == AllResolved(before, missing - rest, now)
        invariant updated <==> missing - rest != {}
        decreases rest
      {
        var id :| id in rest;
        ResolvedOneMore(before, missing, rest, id, now);
        var resolved := ResolveIfMissing(id, source, seen, now);
        rest := rest - {id};
        updated := updated || resolved;
      }
      assert missing - rest == missing;
      assert findings == MarkMissing(old(Contents()), source, seen).0.findings;
    }

    /** Upserts one proposal; promotes its finding when the report asks for it. */
    method SyncProposal(r: Report, proposal: Proposal, stamp: Time) returns (updated: bool)
      modifies this`findings, this`planned, this`clock
      ensures Contents() == SyncOne(old(Contents()), r, proposal, stamp).0
      ensures updated == SyncOne(old(Contents()), r, proposal, stamp).1
    {
      if proposal.content.title == "" || proposal.content.summary == "" {
        return false;
      }
      var id, changed := UpsertFinding(InputOf(r, proposal, stamp));
      var promoted := AutoPromoteFinding(r.auto, id);
      return changed || promoted;
    }

    /** Syncs every proposal, in order. */
    method SyncProposals(r: Report, stamp: Time) returns (updated: bool, seen: set<string>)
      modifies this`findings, this`planned, this`clock
      ensures Contents() == SyncAll(old(Contents()), r, r.proposals, stamp).0
      ensures updated == SyncAll(old(Contents()), r, r.proposals, stamp).1
      ensures seen == SeenIn(r.proposals)
    {
      updated, seen := false, {};
      var i := 0;
      while i < |r.proposals|
        invariant 0 <= i <= |r.proposals|
        invariant Contents() == SyncAll(old(Contents()), r, r.proposals[..i], stamp).0
        invariant updated == SyncAll(old(Contents()), r, r.proposals[..i], stamp).1
        invariant seen == SeenIn(r.proposals[..i])
      {
        SyncAllOneMore(old(Contents()), r, r.proposals, i, stamp);
        SeenInMore(r.proposals, i);
        if IsReported(r.proposals[i]) {
          seen := seen + {r.proposals[i].itemId};
        }
        var changed := SyncProposal(r, r.proposals[i], stamp);
        updated := updated || changed;
        i := i + 1;
      }
      assert r.proposals[..i] == r.proposals;
    }

    /**
     Syncs one report.  The state stays sound, findings that the user closed
     stay closed, and nothing is promoted twice.
     */
    method SyncReport(r: Report) returns (updated: bool)
      modifies this`findings, this`planned, this`clock
      ensures (Contents(), updated) == Sync(old(Contents()), r)
      ensures IsSoundState(old(Contents())) ==>
        && IsSoundState(Contents()) && KeepsClosed(old(Contents()), Contents())
        && KeepsPromotions(old(Contents()), Contents())
    {
      if IsSoundState(Contents()) { SyncKeeps(Contents(), r); }
      var wall := Tick();
      var stamp: Time := if r.stamp.Some? then r.stamp.value else wall;
      var seen;
      updated, seen := SyncProposals(r, stamp);
      if !updated {
        updated := MarkMissingFindings(r.source, seen);
      }
    }

    // ---- User actions --------------------------------------------------------------------

    method DismissFinding(id: Id, reason: string) returns (error: Option<Error>)
      modifies this`findings, this`clock
      ensures Dismiss(old(Contents()), id, reason) == if error.Some? then Err(error.value) else Ok(Contents())
      ensures error.Some? ==> Contents() == old(Contents())
    {
      if id !in findings {
        return Some(NotFound(id));
      }
      var finding := findings[id];
      if finding.status == Deleted {
        return Some(IsDeleted(id));
      }
      var now := Tick();
      finding := finding.(status := Dismissed, deletedFromStatus := None, deletedAt := None);
      finding := finding.(dismissReason := reason, updatedAt := Some(now));
      findings := findings[id := finding];
      return None;
    }

    method RestoreFinding(id: Id) returns (error: Option<Error>)
      modifies this`findings, this`clock
      ensures Restore(old(Contents()), id) == if error.Some? then Err(error.value) else Ok(Contents())
      ensures error.Some? ==> Contents() == old(Contents())
    {
      if id !in findings {
        return Some(NotFound(id));
      }
      var finding := findings[id];
      if finding.status != Deleted {
        return Some(NotDeleted(id));
      }
      var now := Tick();
      finding := finding.(status := RestoredStatus(finding));
      finding := finding.(deletedFromStatus := None, deletedAt := None, updatedAt := Some(now));
      findings := findings[id := finding];
      return None;
    }

    // ---- Retention -------------------------------------------------------------------------

    /** Marks or purges one entry when it is old enough. */
    method AgeJob(key: Id, settings: Settings, now: Time) returns (fate: Fate)
      requires key in scoutJobs
      modifies this`scoutJobs
      ensures fate == JobFate(old(scoutJobs)[key], settings, now)
      ensures scoutJobs == match fate
        case Kept => old(scoutJobs)
        case Marked => old(scoutJobs)[key := MarkedJob(old(scoutJobs)[key], now)]
        case Purged => old(scoutJobs) - {key}
    {
      var dismissedCutoff := Cutoff(now, ResolvedDays(settings.dismissedDays));
      var deletedCutoff := Cutoff(now, ResolvedDays(settings.deletedDays));
      var job := scoutJobs[key];
      if job.status == JobDismissed {
        if Expired(job.updatedAt, job.createdAt, dismissedCutoff) {
          job := job.(deletedFromStatus := Some(job.status), deletedAt := Some(Truncated(now)));
          job := job.(status := JobDeleted, updatedAt := Some(Truncated(now)));
          scoutJobs := scoutJobs[key := job];
          return Marked;
        }
      } else if job.status == JobDeleted {
        if Expired(job.updatedAt, job.createdAt, deletedCutoff) {
          scoutJobs := scoutJobs - {key};
          return Purged;
        }
      }
      return Kept;
    }

    /** Ages every entry, in any order. */
    method MaintainJobs(settings: Settings, now: Time) returns (marked: nat, purged: nat)
      modifies this`scoutJobs
      ensures scoutJobs == RetainedJobs(old(scoutJobs), settings, now)
      ensures marked == |JobsWithFate(old(scoutJobs), Marked, settings, now)|
      ensures purged == |JobsWithFate(old(scoutJobs), Purged, settings, now)|
    {
      marked, purged := 0, 0;
      ghost var before := scoutJobs;
      var rest := scoutJobs.Keys;
      assert before - rest == map[];
      while rest != {}
        invariant rest <= before.Keys
        invariant forall id :: id in rest ==> id in scoutJobs && scoutJobs[id] == before[id]
        invariant scoutJobs - rest == RetainedJobs(before - rest, settings, now)
        invariant marked == |JobsWithFate(before - rest, Marked, settings, now)|
        invariant purged == |JobsWithFate(before - rest, Purged, settings, now)|
        decreases rest
      {
        var key :| key in rest;
        ghost var current := scoutJobs;
        var fate := AgeJob(key, settings, now);
        JobsCountOneMore(before, rest, key, Marked, settings, now);
        JobsCountOneMore(before, rest, key, Purged, settings, now);
        JobsOneMore(before, current, scoutJobs, rest, key, settings, now);
        rest := rest - {key};
        match fate
        case Kept =>
        case Marked => marked := marked + 1;
        case Purged => purged := purged + 1;
      }
      assert before - rest == before && scoutJobs - rest == scoutJobs;
    }

    /** Marks or purges one entry when it is old enough. */
    method AgeFinding(key: Id, settings: Settings, now: Time) returns (fate: Fate)
      requires key in findings
      modifies this`findings
      ensures fate == FindingFate(old(findings)[key], settings, now)
      ensures findings == match fate
        case Kept => old(findings)
        case Marked => old(findings)[key := MarkedFinding(old(findings)[key], now)]
        case Purged => old(findings) - {key}
    {
      var dismissedCutoff := Cutoff(now, ResolvedDays(settings.dismissedDays));
      var deletedCutoff := Cutoff(now, ResolvedDays(settings.deletedDays));
      var finding := findings[key];
      if finding.status == Dismissed {
        if Expired(finding.updatedAt, finding.createdAt, dismissedCutoff) {
          finding := finding.(deletedFromStatus := Some(finding.status), deletedAt := Some(Truncated(now)));
          finding := finding.(status := Deleted, updatedAt := Some(Truncated(now)));
          findings := findings[key := finding];
          return Marked;
        }
      } else if finding.status == Deleted {
        if Expired(finding.updatedAt, finding.createdAt, deletedCutoff) {
          findings := findings - {key};
          return Purged;
        }
      }
      return Kept;
    }

    /** Ages every entry, in any order. */
    method MaintainFindings(settings: Settings, now: Time) returns (marked: nat, purged: nat)
      modifies this`findings
      ensures findings == Retained(old(findings), settings, now)
      ensures marked == |WithFate(old(findings), Marked, settings, now)|
      ensures purged == |WithFate(old(findings), Purged, settings, now)|
    {
      marked, purged := 0, 0;
      ghost var before := findings;
      var rest := findings.Keys;
      assert before - rest == map[];
      while rest != {}
        invariant rest <= before.Keys
        invariant forall id :: id in rest ==> id in findings && findings[id] == before[id]
        invariant findings - rest == Retained(before - rest, settings, now)
        invariant marked == |WithFate(before - rest, Marked, settings, now)|
        invariant purged == |WithFate(before - rest, Purged, settings, now)|
        decreases rest
      {
        var key :| key in rest;
        ghost var current := findings;
        var fate := AgeFinding(key, settings, now);
        FindingsCountOneMore(before, rest, key, Marked, settings, now);
        FindingsCountOneMore(before, rest, key, Purged, settings, now);
        FindingsOneMore(before, current, findings, rest, key, settings, now);
        rest := rest - {key};
        match fate
        case Kept =>
        case Marked => marked := marked + 1;
        case Purged => purged := purged + 1;
      }
      assert before - rest == before && findings - rest == findings;
    }

    /** One retention pass; the counts are the numbers of items that were marked and purged. */
    method Maintain(settings: Settings, now: Time) returns (counts: Counts, updated: bool)
      modifies this`findings, this`scoutJobs
      ensures findings == Retained(old(findings), settings, now)
      ensures scoutJobs == RetainedJobs(old(scoutJobs), settings, now)
      ensures counts.findingsMarked == |WithFate(old(findings), Marked, settings, now)|
      ensures counts.findingsPurged == |WithFate(old(findings), Purged, settings, now)|
      ensures counts.jobsMarked == |JobsWithFate(old(scoutJobs), Marked, settings, now)|
      ensures counts.jobsPurged == |JobsWithFate(old(scoutJobs), Purged, settings, now)|
      ensures !updated <==> counts == Counts(0, 0, 0, 0)
    {
      var jobsMarked, jobsPurged := MaintainJobs(settings, now);
      var findingsMarked, findingsPurged := MaintainFindings(settings, now);
      counts := Counts(jobsMarked, jobsPurged, findingsMarked, findingsPurged);
      updated := jobsMarked > 0 || jobsPurged > 0 || findingsMarked > 0 || findingsPurged > 0;
    }
  }
}
