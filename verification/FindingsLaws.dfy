/** What steps do to a finding's status, its item and its contents, told on the finding itself. */
module FindingsLaws {
  import opened Wrappers
  import opened Findings
  import opened FindingsSync
  import opened FindingsRuns
  import opened FindingsSettled
  import opened Retention

  // ---- Upsert --------------------------------------------------------------------

  /** The status of a finding once it is reported: a resolved one is open again, and no other changes. */
  function Reopened(status: Status): Status {
    match status case Resolved => Open case s => s
  }

  /** The finding shows what was reported. */
  predicate IsAsReported(f: Finding, input: Input) {
    f.key == input.key && f.parent == input.parent && f.content == input.content
    && (input.repo != "" ==> f.repo == input.repo)
  }

  /** What an upsert must leave alone in a finding that exists. */
  predicate KeepsHistory(f: Finding, f': Finding) {
    && f'.id == f.id && f'.promotedTask == f.promotedTask && f'.dismissReason == f.dismissReason
    && f'.deletedFromStatus == f.deletedFromStatus && f'.deletedAt == f.deletedAt
    && (f.createdAt.Some? ==> f'.createdAt == f.createdAt)
  }

  /**
   An upsert makes a finding show what was reported.  A resolved one is open
   again with a blank time of resolution, any other keeps its status, and a
   deleted one its time of update; a new finding is open, with no item.
   */
  lemma UpsertExactly(s: State, input: Input)
    requires IsFresh(s)
    ensures var now, f := Or(input.updatedAt, s.clock), At(Upsert(s, input).state, input.key);
      && f.Some? && IsAsReported(f.value, input) && f.value.createdAt.Some?
      && match At(s, input.key)
         case None =>
           && f.value.status == Open && f.value.promotedTask == None && f.value.resolvedAt == None
           && f.value.deletedAt == None && f.value.deletedFromStatus == None && f.value.dismissReason == ""
           && f.value.updatedAt == Some(now) && f.value.createdAt == Some(Or(input.createdAt, now))
         case Some(before) =>
           && KeepsHistory(before, f.value) && f.value.status == Reopened(before.status)
           && f.value.resolvedAt == (if before.status == Resolved then None else before.resolvedAt)
           && f.value.updatedAt == if before.status == Deleted then before.updatedAt else Some(now)
  {
    UpsertIs(s, input);
    LookupHasKey(s.findings, input.key);
  }

  // ---- Promotion ------------------------------------------------------------------

  /** A new planned item for a finding: queued, with its title, and the more urgent the more severe it is. */
  lemma ItemExactly(s: State, id: Id)
    requires IsFresh(s) && id in s.findings && s.findings[id].status != Deleted && s.findings[id].promotedTask.None?
    ensures Promote(s, id).Ok?
    ensures ItemOf(Promote(s, id).value, id).Some?
      && ItemOf(Promote(s, id).value, id).value in Promote(s, id).value.planned
    ensures var s', f := Promote(s, id).value, s.findings[id];
      var item := s'.planned[ItemOf(s', id).value];
      && item.title == "Address finding: " + f.content.title && item.state == Queued
      && item.priority == (match f.content.severity
                           case "critical" => 0 case "high" => 1 case "medium" => 2 case _ => 3)
      && s'.findings[id].status == Promoted && s'.findings[id].resolvedAt == None
      && s'.findings[id].content == f.content && s'.findings[id].key == f.key
  {
  }

  // ---- Syncs ------------------------------------------------------------------------

  /** The status that a sync leaves a reported finding: open again when it was resolved, and promoted when asked to. */
  predicate IsSynced(before: Option<Finding>, after: Finding, auto: bool) {
    var status := match before case None => Open case Some(f) => Reopened(f.status);
    var item := match before case None => None case Some(f) => f.promotedTask;
    && (auto && item.None? && status != Dismissed && status != Deleted ==>
          after.status == Promoted && after.promotedTask.Some? && after.resolvedAt == None)
    && (!(auto && item.None? && status != Dismissed && status != Deleted) ==>
          && after.status == status && after.promotedTask == item
          && after.resolvedAt == match before
               case None => None
               case Some(f) => if f.status == Resolved then None else f.resolvedAt)
  }

  /** A finding that got an item by a sync got one that exists. */
  predicate IsPlanned(before: Option<Finding>, after: Finding, s': State) {
    (before.Some? ==> before.value.promotedTask.None?) && after.promotedTask.Some? ==>
      after.promotedTask.value in s'.planned
  }

  lemma SyncOneExactly(s: State, r: Report, p: Proposal, t: Time, itemId: string)
    requires IsFresh(s)
    ensures IsFresh(SyncOne(s, r, p, t).0) && s.planned.Keys <= SyncOne(s, r, p, t).0.planned.Keys
    ensures var key, s' := KeyOf(r.source, itemId), SyncOne(s, r, p, t).0;
      if IsReported(p) && p.itemId == itemId then
        && At(s', key).Some? && IsSynced(At(s, key), At(s', key).value, r.auto)
        && IsPlanned(At(s, key), At(s', key).value, s') && At(s', key).value.content == p.content
      else At(s', key) == At(s, key)
  {
    if IsReported(p) {
      var input := InputOf(r, p, t);
      var u := Upsert(s, input);
      UpsertIs(s, input);
      LookupHasKey(s.findings, input.key);
      AutoPromoteIs(u.state, r.auto, u.id);
      SameKeysSameLookup(u.state.findings, SyncOne(s, r, p, t).0.findings, input.key);
      if itemId != p.itemId { SyncOneElsewhere(s, r, p, t, KeyOf(r.source, itemId)); }
    }
  }

  /** Syncing a finding once more makes no difference to what this says. */
  lemma SyncedAgainIs(before: Option<Finding>, between: Finding, after: Finding, auto: bool)
    requires IsSynced(before, between, auto) && IsSynced(Some(between), after, auto)
    ensures IsSynced(before, after, auto)
  {
  }

  ghost predicate IsNamed(proposals: seq<Proposal>, itemId: string) {
    exists p :: p in proposals && p.content.title != "" && p.content.summary != "" && p.itemId == itemId
  }

  lemma {:induction false} SyncAllExactly(s: State, r: Report, proposals: seq<Proposal>, t: Time, itemId: string)
    requires IsFresh(s)
    ensures var key, s' := KeyOf(r.source, itemId), SyncAll(s, r, proposals, t).0;
      && IsFresh(s') && s.planned.Keys <= s'.planned.Keys
      && if IsNamed(proposals, itemId) then
           && At(s', key).Some? && IsSynced(At(s, key), At(s', key).value, r.auto)
           && IsPlanned(At(s, key), At(s', key).value, s')
         else At(s', key) == At(s, key)
  {
    if proposals == [] {
    } else {
      var front, last := proposals[..|proposals| - 1], proposals[|proposals| - 1];
      var m := SyncAll(s, r, front, t).0;
      SyncAllExactly(s, r, front, t, itemId);
      SyncOneExactly(m, r, last, t, itemId);
      assert forall p :: p in proposals <==> p in front || p == last;
      if IsNamed(front, itemId) && IsReported(last) && last.itemId == itemId {
        var key := KeyOf(r.source, itemId);
        SyncedAgainIs(At(s, key), At(m, key).value, At(SyncOne(m, r, last, t).0, key).value, r.auto);
      }
    }
  }

  /**
   After a sync every reported finding is there: a new one and one that was
   resolved are open, or promoted with an item when the report asks for it and
   it had none; one that the user closed or promoted is as it was.
   */
  lemma SyncExactly(s: State, r: Report, p: Proposal)
    requires IsFresh(s) && p in r.proposals && p.content.title != "" && p.content.summary != ""
    ensures var key, s' := KeyOf(r.source, p.itemId), Sync(s, r).0;
      && At(s', key).Some? && IsSynced(At(s, key), At(s', key).value, r.auto)
      && IsPlanned(At(s, key), At(s', key).value, s')
  {
    SyncAllExactly(s.(clock := s.clock + 1), r, r.proposals, Or(r.stamp, s.clock), p.itemId);
    TickKeepsAt(s, KeyOf(r.source, p.itemId));
    PassDecides(s, r, p);
  }

  /** The entries of a report that have a title and a summary. */
  function Titled(proposals: seq<Proposal>): seq<Proposal> {
    if proposals == [] then []
    else
      var front, last := Titled(proposals[..|proposals| - 1]), proposals[|proposals| - 1];
      if last.content.title != "" && last.content.summary != "" then front + [last] else front
  }

  lemma {:induction false} TitledAre(proposals: seq<Proposal>)
    ensures forall p :: p in Titled(proposals) <==>
      p in proposals && p.content.title != "" && p.content.summary != ""
  {
    if proposals != [] {
      var front, last := proposals[..|proposals| - 1], proposals[|proposals| - 1];
      TitledAre(front);
      assert proposals == front + [last];
    }
  }

  lemma {:induction false} OthersAreSkipped(s: State, r: Report, proposals: seq<Proposal>, all: seq<Proposal>, t: Time)
    ensures SyncAll(s, r, proposals, t) == SyncAll(s, r.(proposals := all), Titled(proposals), t)
  {
    if proposals != [] {
      var front, last := proposals[..|proposals| - 1], proposals[|proposals| - 1];
      OthersAreSkipped(s, r, front, all, t);
      var before, q := SyncAll(s, r, front, t).0, r.(proposals := all);
      assert InputOf(r, last, t) == InputOf(q, last, t);
      assert SyncOne(before, r, last, t) == SyncOne(before, q, last, t);
      if last.content.title != "" && last.content.summary != "" {
        assert Titled(proposals)[..|Titled(front)|] == Titled(front);
      }
    }
  }

  /** Entries without a title or a summary do not count: syncing the others alone does the same. */
  lemma TitledExactly(s: State, r: Report)
    ensures Sync(s, r) == Sync(s, r.(proposals := Titled(r.proposals)))
  {
    OthersAreSkipped(s.(clock := s.clock + 1), r, r.proposals, Titled(r.proposals), Or(r.stamp, s.clock));
    TitledAre(r.proposals);
    assert SeenIn(r.proposals) == SeenIn(Titled(r.proposals));
  }

  /** The finding is one that a sync of the report may resolve: of its source, alive, and not named. */
  ghost predicate IsForgotten(f: Finding, r: Report) {
    && f.key.kind == r.source.kind && f.key.sourceId == r.source.id && !IsNamed(r.proposals, f.key.itemId)
    && (f.status == Open || f.status == Promoted)
  }

  /** Marking resolves exactly the findings that are forgotten, and changes nothing else about them. */
  lemma MarkExactly(s: State, r: Report)
    ensures var s' := MarkMissing(s, r.source, SeenIn(r.proposals)).0;
      && s'.findings.Keys == s.findings.Keys
      && forall id :: id in s.findings ==>
           if IsForgotten(s.findings[id], r)
           then s'.findings[id]
             == s.findings[id].(status := Resolved, resolvedAt := Some(s.clock), updatedAt := Some(s.clock))
           else s'.findings[id] == s.findings[id]
  {
    forall itemId ensures itemId in SeenIn(r.proposals) <==> IsNamed(r.proposals, itemId) {
      if itemId in SeenIn(r.proposals) {
        var p :| p in r.proposals && IsReported(p) && p.itemId == itemId;
      }
    }
  }

  /** A sync resolves what is forgotten exactly when it changes nothing that is reported. */
  lemma ForgottenExactly(s: State, r: Report)
    requires IsFresh(s)
    ensures var t := Or(r.stamp, s.clock);
      Sync(s, r).0 == if AllCurrent(s.(clock := s.clock + 1), r, r.proposals, t)
                      then MarkMissing(Pass(s, r), r.source, SeenIn(r.proposals)).0 else Pass(s, r)
    ensures AllCurrent(s.(clock := s.clock + 1), r, r.proposals, Or(r.stamp, s.clock)) ==>
      Pass(s, r).findings == s.findings && Pass(s, r).planned == s.planned
  {
    SyncAllChanges(s.(clock := s.clock + 1), r, r.proposals, Or(r.stamp, s.clock));
  }

  // ---- User actions ------------------------------------------------------------------

  /** A dismissal is refused for deleted findings only; it keeps the item and everything that was reported. */
  lemma DismissExactly(s: State, id: Id, reason: string)
    requires id in s.findings
    ensures Dismiss(s, id, reason).Ok? <==> s.findings[id].status != Deleted
    ensures Dismiss(s, id, reason).Ok? ==>
      var f, s' := s.findings[id], Dismiss(s, id, reason).value;
      && s'.findings.Keys == s.findings.Keys && s'.planned == s.planned
      && (forall x :: x in s.findings && x != id ==> s'.findings[x] == s.findings[x])
      && s'.findings[id].status == Dismissed && s'.findings[id].dismissReason == reason
      && s'.findings[id].deletedAt == None && s'.findings[id].deletedFromStatus == None
      && s'.findings[id].updatedAt == Some(s.clock)
      && s'.findings[id].promotedTask == f.promotedTask && s'.findings[id].content == f.content
      && s'.findings[id].key == f.key && s'.findings[id].createdAt == f.createdAt
  {
  }

  /** What holds of every finding over every run. */
  predicate IsHonest(f: Finding) {
    && (f.status == Promoted ==> f.promotedTask.Some?)
    && (f.status == Resolved ==> f.resolvedAt.Some?)
    && (f.status == Open || f.status == Promoted ==> f.resolvedAt.None?)
    && (f.status == Deleted <==> f.deletedAt.Some?)
    && (f.status == Deleted ==> f.deletedFromStatus == Some(Dismissed))
    && (f.status != Deleted ==> f.deletedFromStatus.None?)
    && f.createdAt.Some? && f.updatedAt.Some?
  }

  predicate AllHonest(s: State) {
    forall id :: id in s.findings ==> IsHonest(s.findings[id])
  }

  lemma UpsertStaysHonest(s: State, input: Input)
    requires IsFresh(s) && AllHonest(s)
    ensures AllHonest(Upsert(s, input).state)
  {
    UpsertIs(s, input);
    LookupHasKey(s.findings, input.key);
  }

  lemma SyncOneStaysHonest(s: State, r: Report, p: Proposal, t: Time)
    requires IsFresh(s) && AllHonest(s)
    ensures AllHonest(SyncOne(s, r, p, t).0)
  {
    if IsReported(p) {
      UpsertStaysHonest(s, InputOf(r, p, t));
      UpsertIs(s, InputOf(r, p, t));
      AutoPromoteIs(Upsert(s, InputOf(r, p, t)).state, r.auto, Upsert(s, InputOf(r, p, t)).id);
    }
  }

  lemma {:induction false} SyncAllStaysHonest(s: State, r: Report, proposals: seq<Proposal>, t: Time)
    requires IsFresh(s) && AllHonest(s)
    ensures AllHonest(SyncAll(s, r, proposals, t).0)
  {
    if proposals != [] {
      SyncAllStaysHonest(s, r, proposals[..|proposals| - 1], t);
      SyncAllFresh(s, r, proposals[..|proposals| - 1], t);
      SyncOneStaysHonest(SyncAll(s, r, proposals[..|proposals| - 1], t).0, r, proposals[|proposals| - 1], t);
    }
  }

  lemma SyncStaysHonest(s: State, r: Report)
    requires IsFresh(s) && AllHonest(s)
    ensures AllHonest(Sync(s, r).0)
  {
    SyncAllStaysHonest(s.(clock := s.clock + 1), r, r.proposals, Or(r.stamp, s.clock));
    MarkExactly(Pass(s, r), r);
  }

  lemma PromoteStaysHonest(s: State, id: Id)
    requires AllHonest(s)
    ensures AllHonest(OkOr(Promote(s, id), s))
  {
  }

  lemma RetainStaysHonest(s: State, settings: Settings, now: Time)
    requires AllHonest(s)
    ensures AllHonest(s.(findings := Retained(s.findings, settings, now)))
  {
  }

  lemma StepStaysHonest(s: State, step: Step)
    requires IsSoundState(s) && AllHonest(s)
    ensures AllHonest(Take(s, step))
  {
    match step
    case SyncStep(r) => SyncStaysHonest(s, r);
    case ImportStep(input) => UpsertStaysHonest(s, input);
    case PromoteStep(id) => PromoteStaysHonest(s, id);
    case RetainStep(settings, now) => RetainStaysHonest(s, settings, now);
    case _ =>
  }

  /**
   Over every run a promoted finding names an item, and the times of
   resolution and deletion agree with the status.
   */
  lemma {:induction false} RunsAreHonest(steps: seq<Step>)
    ensures AllHonest(TakeAll(NO_FINDINGS, steps))
  {
    if steps == [] {
    } else {
      RunsAreHonest(steps[..|steps| - 1]);
      RunsAreSound(steps[..|steps| - 1]);
      StepStaysHonest(TakeAll(NO_FINDINGS, steps[..|steps| - 1]), steps[|steps| - 1]);
    }
  }

  /** So after every run what is restored is dismissed again, with its reason and its item. */
  lemma RestoreExactly(steps: seq<Step>, id: Id)
    requires id in TakeAll(NO_FINDINGS, steps).findings
    ensures var s := TakeAll(NO_FINDINGS, steps);
      var f := s.findings[id];
      && (Restore(s, id).Ok? <==> f.status == Deleted)
      && (Restore(s, id).Ok? ==>
            Restore(s, id).value == s.(clock := s.clock + 1, findings :=
              s.findings[id := f.(status := Dismissed, deletedFromStatus := None, deletedAt := None,
                                  updatedAt := Some(s.clock))]))
  {
    RunsAreHonest(steps);
  }

  /** Restoring brings back the status from which a finding was deleted, also in a state that no run leads to. */
  lemma RestoreBringsBack(s: State, id: Id)
    requires id in s.findings && s.findings[id].status == Deleted
    ensures Restore(s, id).Ok?
    ensures var f, f' := s.findings[id], Restore(s, id).value.findings[id];
      && (f.deletedFromStatus == None || f.deletedFromStatus == Some(Open) <==> f'.status == Open)
      && (f.deletedFromStatus == Some(Promoted) <==> f'.status == Promoted)
      && (f'.status == Open || f'.status == Promoted || f'.status == Dismissed)
      && f'.deletedAt == None && f'.deletedFromStatus == None && f'.dismissReason == f.dismissReason
  {
  }

  // ---- Planned items -------------------------------------------------------------------

  /** Exactly the items that are queued or failed can be dropped, and nothing else changes. */
  lemma DropExactly(s: State, item: Id)
    ensures Drop(s, item).Ok? <==>
      item in s.planned && (s.planned[item].state == Queued || s.planned[item].state == Failed)
    ensures Drop(s, item).Ok? ==>
      var s' := Drop(s, item).value;
      && s'.findings == s.findings && s'.clock == s.clock && item !in s'.planned
      && (forall x :: x != item ==> (x in s'.planned <==> x in s.planned))
      && (forall x :: x != item && x in s.planned ==> s'.planned[x] == s.planned[x])
  {
  }

  /** An item that is known takes the state that is noted, and nothing else of it or of others changes. */
  lemma AdvanceExactly(s: State, item: Id, state: ItemState)
    ensures var s' := Advance(s, item, state);
      && s'.findings == s.findings && s'.clock == s.clock && s'.planned.Keys == s.planned.Keys
      && (item in s.planned ==>
            s'.planned[item].state == state
            && s'.planned[item].(state := s.planned[item].state) == s.planned[item])
      && forall x :: x in s.planned && x != item ==> s'.planned[x] == s.planned[x]
  {
  }
}
