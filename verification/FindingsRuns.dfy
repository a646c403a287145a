/** What holds over every run of syncs, imports, user actions and retention passes. */
module FindingsRuns {
  import opened Wrappers
  import opened Findings
  import opened FindingsSync
  import opened Retention

  datatype Step =
    | SyncStep(report: Report)
    | ImportStep(input: Input)
    | PromoteStep(id: Id)
    | DismissStep(id: Id, reason: string)
    | RestoreStep(id: Id)
    | RetainStep(settings: Settings, now: Time)
    | QueueStep(title: string, priority: int)
    | AdvanceStep(item: Id, state: ItemState)
    | DropStep(item: Id)

  function OkOr(r: Result<State, Error>, s: State): State {
    match r case Ok(s') => s' case Err(_) => s
  }

  function Take(s: State, step: Step): State {
    match step
    case SyncStep(r) => Sync(s, r).0
    case ImportStep(input) => Upsert(s, input).state
    case PromoteStep(id) => OkOr(Promote(s, id), s)
    case DismissStep(id, reason) => OkOr(Dismiss(s, id, reason), s)
    case RestoreStep(id) => OkOr(Restore(s, id), s)
    case RetainStep(settings, now) => s.(findings := Retained(s.findings, settings, now))
    case QueueStep(title, priority) => Queue(s, title, priority)
    case AdvanceStep(item, state) => Advance(s, item, state)
    case DropStep(item) => OkOr(Drop(s, item), s)
  }

  function TakeAll(s: State, steps: seq<Step>): State {
    if steps == [] then s else Take(TakeAll(s, steps[..|steps| - 1]), steps[|steps| - 1])
  }

  const NO_FINDINGS := State(map[], map[], 0)

  // ---- The invariant --------------------------------------------------------------------

  /** No two findings have the same source, source id and source item. */
  predicate UniqueKeys(s: State) {
    forall i, j :: i in s.findings && j in s.findings && s.findings[i].key == s.findings[j].key ==> i == j
  }

  /** No two findings name the same planned item, whether it still exists or not, and none names a future one. */
  predicate ItemsApart(s: State) {
    && (forall i :: i in s.findings && s.findings[i].promotedTask.Some? ==> s.findings[i].promotedTask.value < s.clock)
    && (forall i, j :: i in s.findings && j in s.findings && s.findings[i].promotedTask.Some? ==>
          s.findings[i].promotedTask == s.findings[j].promotedTask ==> i == j)
  }

  predicate IsSoundState(s: State) {
    IsFresh(s) && UniqueKeys(s) && ItemsApart(s)
  }

  /** The planned item that a finding names, if there is the finding and it names one. */
  function ItemOf(s: State, id: Id): Option<Id> {
    if id in s.findings then s.findings[id].promotedTask else None
  }

  /**
   From `s` to `s'` nothing was taken back and nothing promoted again: planned
   items stay, a finding keeps the item it was promoted to, even one that was
   dropped since, and new items belong to findings that had none.
   */
  predicate KeepsPromotions(s: State, s': State) {
    && s.clock <= s'.clock
    && (forall item :: item in s.planned ==> item in s'.planned && s'.planned[item] == s.planned[item])
    && (forall id :: id in s'.findings && ItemOf(s', id) != ItemOf(s, id) ==>
          ItemOf(s, id).None? && ItemOf(s', id).value in s'.planned && ItemOf(s', id).value >= s.clock)
    && (forall item :: item in s'.planned && item !in s.planned ==>
          item >= s.clock && exists id :: id in s'.findings && ItemOf(s', id) == Some(item) && ItemOf(s, id).None?)
  }

  lemma KeepsPromotionsTransitive(a: State, b: State, c: State)
    requires KeepsPromotions(a, b) && KeepsPromotions(b, c)
    requires forall id :: id in b.findings ==> id in c.findings
    requires forall id :: id in a.findings ==> id in b.findings
    ensures KeepsPromotions(a, c)
  {
    forall item | item in c.planned && item !in a.planned
      ensures item >= a.clock
      ensures exists id :: id in c.findings && ItemOf(c, id) == Some(item) && ItemOf(a, id).None?
    {
      if item in b.planned {
        var id :| id in b.findings && ItemOf(b, id) == Some(item) && ItemOf(a, id).None?;
        assert id in c.findings && ItemOf(c, id) == ItemOf(b, id);
      } else {
        var id :| id in c.findings && ItemOf(c, id) == Some(item) && ItemOf(b, id).None?;
        assert id in a.findings ==> id in b.findings && ItemOf(b, id) == ItemOf(a, id);
      }
    }
    forall id | id in c.findings && ItemOf(c, id) != ItemOf(a, id)
      ensures ItemOf(a, id).None? && ItemOf(c, id).value in c.planned && ItemOf(c, id).value >= a.clock
    {
      assert id !in b.findings ==> id !in a.findings && ItemOf(b, id) == ItemOf(a, id);
    }
  }

  // ---- Closed findings -------------------------------------------------------------------

  /** What a sync must leave alone in a dismissed or deleted finding. */
  predicate StaysClosed(f: Finding, f': Finding) {
    && f'.id == f.id && f'.key == f.key && f'.promotedTask == f.promotedTask
    && (f.status == Dismissed || f.status == Deleted ==>
          && f'.status == f.status && f'.deletedFromStatus == f.deletedFromStatus && f'.deletedAt == f.deletedAt
          && f'.dismissReason == f.dismissReason)
    && (f.status == Deleted ==> f'.updatedAt == f.updatedAt)
  }

  predicate IsClosed(f: Finding) {
    f.status == Dismissed || f.status == Deleted
  }

  /** No finding is dropped, and the closed ones stay closed. */
  predicate KeepsClosed(s: State, s': State) {
    forall id :: id in s.findings ==>
      id in s'.findings && (IsClosed(s.findings[id]) ==> StaysClosed(s.findings[id], s'.findings[id]))
  }

  lemma KeepsClosedTransitive(a: State, b: State, c: State)
    requires KeepsClosed(a, b) && KeepsClosed(b, c)
    ensures KeepsClosed(a, c)
  {
  }

  // ---- Upsert and promotion -----------------------------------------------------------------

  lemma UpsertKeepsSound(s: State, input: Input)
    requires IsSoundState(s)
    ensures IsSoundState(Upsert(s, input).state)
  {
    UpsertIs(s, input);
    LookupHasKey(s.findings, input.key);
  }

  lemma UpsertKeepsPromotions(s: State, input: Input)
    requires IsSoundState(s)
    ensures KeepsPromotions(s, Upsert(s, input).state)
  {
    UpsertIs(s, input);
  }

  lemma UpsertKeepsClosed(s: State, input: Input)
    requires IsSoundState(s)
    ensures KeepsClosed(s, Upsert(s, input).state)
  {
    UpsertIs(s, input);
    LookupHasKey(s.findings, input.key);
  }

  lemma UpsertKeeps(s: State, input: Input)
    requires IsSoundState(s)
    ensures var s' := Upsert(s, input).state;
      IsSoundState(s') && KeepsPromotions(s, s') && KeepsClosed(s, s')
  {
    UpsertKeepsSound(s, input);
    UpsertKeepsPromotions(s, input);
    UpsertKeepsClosed(s, input);
  }

  /**
   A promotion of a finding that is not deleted makes one new item, and the
   finding names it, exactly when the finding names none or its item was
   dropped; otherwise it changes nothing.
   */
  lemma PromoteExactly(s: State, id: Id)
    requires IsSoundState(s) && id in s.findings && s.findings[id].status != Deleted
    ensures Promote(s, id).Ok?
    ensures var s', item := Promote(s, id).value, ItemOf(s, id);
      if item.Some? && item.value in s.planned then s' == s
      else
        exists made :: made !in s.planned && item != Some(made) && ItemOf(s', id) == Some(made)
          && s'.planned.Keys == s.planned.Keys + {made} && s'.findings[id].status == Promoted
  {
    var s', item := Promote(s, id).value, ItemOf(s, id);
    if item.None? || item.value !in s.planned {
      assert ItemOf(s', id) == Some(s.clock + 1) && s'.planned.Keys == s.planned.Keys + {s.clock + 1};
    }
  }

  /** A promotion keeps findings and their items apart, and touches no other finding. */
  lemma PromoteKeeps(s: State, id: Id)
    requires IsSoundState(s) && Promote(s, id).Ok?
    ensures var s' := Promote(s, id).value;
      && IsSoundState(s') && s'.findings.Keys == s.findings.Keys
      && forall x :: x in s.findings && x != id ==> s'.findings[x] == s.findings[x]
  {
  }

  lemma FirstPromotionKeeps(s: State, id: Id)
    requires IsFresh(s) && Promote(s, id).Ok? && ItemOf(s, id).None?
    ensures KeepsPromotions(s, Promote(s, id).value)
  {
    var s', item := Promote(s, id).value, s.clock + 1;
    assert ItemOf(s', id) == Some(item) && s'.planned.Keys == s.planned.Keys + {item};
  }

  lemma AutoPromoteKeeps(s: State, auto: bool, id: Id)
    requires IsSoundState(s) && id in s.findings
    ensures var s' := AutoPromote(s, auto, id).0;
      IsSoundState(s') && KeepsPromotions(s, s') && KeepsClosed(s, s')
  {
    if auto && !IsSpared(s.findings[id]) {
      PromoteKeeps(s, id);
      FirstPromotionKeeps(s, id);
    }
  }

  // ---- Syncs ---------------------------------------------------------------------------------

  lemma {:induction false} SyncOneKeeps(s: State, r: Report, p: Proposal, t: Time)
    requires IsSoundState(s)
    ensures var s' := SyncOne(s, r, p, t).0;
      IsSoundState(s') && KeepsPromotions(s, s') && KeepsClosed(s, s')
  {
    if IsReported(p) {
      var u := Upsert(s, InputOf(r, p, t));
      UpsertKeeps(s, InputOf(r, p, t));
      AutoPromoteKeeps(u.state, r.auto, u.id);
      var s' := SyncOne(s, r, p, t).0;
      KeepsPromotionsTransitive(s, u.state, s');
      KeepsClosedTransitive(s, u.state, s');
    }
  }

  lemma {:induction false} SyncAllKeeps(s: State, r: Report, proposals: seq<Proposal>, t: Time)
    requires IsSoundState(s)
    ensures var s' := SyncAll(s, r, proposals, t).0;
      IsSoundState(s') && KeepsPromotions(s, s') && KeepsClosed(s, s')
  {
    if proposals == [] {
    } else {
      var last := |proposals| - 1;
      SyncAllKeeps(s, r, proposals[..last], t);
      var m := SyncAll(s, r, proposals[..last], t).0;
      SyncOneKeeps(m, r, proposals[last], t);
      var s' := SyncAll(s, r, proposals, t).0;
      KeepsPromotionsTransitive(s, m, s');
      KeepsClosedTransitive(s, m, s');
    }
  }

  /** Marking touches no key and no promotion. */
  lemma MarkMissingIsLight(s: State, source: Source, seen: set<string>)
    ensures var s' := MarkMissing(s, source, seen).0;
      && s'.findings.Keys == s.findings.Keys && s'.planned == s.planned && s.clock <= s'.clock
      && forall id :: id in s.findings ==>
           s'.findings[id].key == s.findings[id].key && s'.findings[id].promotedTask == s.findings[id].promotedTask
  {
  }

  lemma MarkMissingKeepsClosed(s: State, source: Source, seen: set<string>)
    ensures KeepsClosed(s, MarkMissing(s, source, seen).0)
  {
  }

  lemma MarkMissingKeeps(s: State, source: Source, seen: set<string>)
    requires IsSoundState(s)
    ensures var s' := MarkMissing(s, source, seen).0;
      IsSoundState(s') && KeepsPromotions(s, s') && KeepsClosed(s, s')
  {
    MarkMissingIsLight(s, source, seen);
    MarkMissingKeepsClosed(s, source, seen);
  }

  /**
   A sync drops no finding, reopens none that the user closed and leaves the
   purge clock of a deleted one alone; a finding is promoted at most once, and
   every new planned item belongs to a finding that had none.
   */
  lemma SyncKeeps(s: State, r: Report)
    requires IsSoundState(s)
    ensures var s' := Sync(s, r).0;
      IsSoundState(s') && KeepsPromotions(s, s') && KeepsClosed(s, s')
  {
    var stamp := Or(r.stamp, s.clock);
    var ticked := s.(clock := s.clock + 1);
    SyncAllKeeps(ticked, r, r.proposals, stamp);
    var m := SyncAll(ticked, r, r.proposals, stamp).0;
    MarkMissingKeeps(m, r.source, SeenIn(r.proposals));
    var s' := Sync(s, r).0;
    KeepsPromotionsTransitive(ticked, m, s');
    KeepsClosedTransitive(ticked, m, s');
    TickedKeeps(s, s');
  }

  lemma TickedKeeps(s: State, s': State)
    requires KeepsPromotions(s.(clock := s.clock + 1), s')
    ensures KeepsPromotions(s, s')
  {
    var ticked := s.(clock := s.clock + 1);
    assert forall id :: ItemOf(ticked, id) == ItemOf(s, id);
  }

  // ---- Runs -----------------------------------------------------------------------------------

  lemma RetainKeeps(s: State, settings: Settings, now: Time)
    requires IsSoundState(s)
    ensures var s' := s.(findings := Retained(s.findings, settings, now));
      IsSoundState(s') && KeepsPromotions(s, s')
  {
  }

  lemma DismissKeeps(s: State, id: Id, reason: string)
    requires IsSoundState(s) && Dismiss(s, id, reason).Ok?
    ensures IsSoundState(Dismiss(s, id, reason).value) && KeepsPromotions(s, Dismiss(s, id, reason).value)
  {
  }

  lemma RestoreKeeps(s: State, id: Id)
    requires IsSoundState(s) && Restore(s, id).Ok?
    ensures IsSoundState(Restore(s, id).value) && KeepsPromotions(s, Restore(s, id).value)
  {
  }

  /** What users and the scheduler do with planned items touches no finding. */
  lemma ItemsKeep(s: State, title: string, priority: int, item: Id, state: ItemState)
    requires IsSoundState(s)
    ensures IsSoundState(Queue(s, title, priority)) && IsSoundState(Advance(s, item, state))
    ensures IsSoundState(OkOr(Drop(s, item), s))
  {
  }

  /** Every step but a promotion and what is done with planned items takes no promotion back. */
  lemma StepKeepsPromotions(s: State, step: Step)
    requires IsSoundState(s)
    requires step.SyncStep? || step.ImportStep? || step.DismissStep? || step.RestoreStep? || step.RetainStep?
    ensures IsSoundState(Take(s, step)) && KeepsPromotions(s, Take(s, step))
  {
    match step
    case SyncStep(r) => SyncKeeps(s, r);
    case ImportStep(input) => UpsertKeeps(s, input);
    case DismissStep(id, reason) => if Dismiss(s, id, reason).Ok? { DismissKeeps(s, id, reason); }
    case RestoreStep(id) => if Restore(s, id).Ok? { RestoreKeeps(s, id); }
    case RetainStep(settings, now) => RetainKeeps(s, settings, now);
  }

  /** Every step keeps findings apart, and the items they name. */
  lemma StepKeeps(s: State, step: Step)
    requires IsSoundState(s)
    ensures IsSoundState(Take(s, step))
  {
    match step
    case PromoteStep(id) => if Promote(s, id).Ok? { PromoteKeeps(s, id); }
    case QueueStep(title, priority) => ItemsKeep(s, title, priority, 0, Queued);
    case AdvanceStep(item, state) => ItemsKeep(s, "", 0, item, state);
    case DropStep(item) => ItemsKeep(s, "", 0, item, Queued);
    case _ => StepKeepsPromotions(s, step);
  }

  /** Over every run no two findings share a key, and no two ever name the same planned item. */
  lemma {:induction false} RunsAreSound(steps: seq<Step>)
    ensures IsSoundState(TakeAll(NO_FINDINGS, steps))
  {
    if steps == [] {
    } else {
      RunsAreSound(steps[..|steps| - 1]);
      StepKeeps(TakeAll(NO_FINDINGS, steps[..|steps| - 1]), steps[|steps| - 1]);
    }
  }

  // ---- What happens to closed findings ------------------------------------------------------------

  /** The step takes a dismissed or deleted finding out of that: promoting, restoring, or purging it. */
  predicate Reopens(s: State, step: Step, id: Id)
    requires id in s.findings
  {
    var f := s.findings[id];
    match step
    case PromoteStep(x) =>
      x == id && f.status == Dismissed && !(f.promotedTask.Some? && f.promotedTask.value in s.planned)
    case RestoreStep(x) => x == id && f.status == Deleted && RestoredStatus(f) != Dismissed
    case RetainStep(settings, now) => FindingFate(f, settings, now) == Purged
    case _ => false
  }

  /** A finding that the user closed stays closed under exactly the other steps; no sync ever reopens one. */
  lemma ReopensExactly(s: State, step: Step, id: Id)
    requires IsSoundState(s) && id in s.findings && IsClosed(s.findings[id])
    ensures var s' := Take(s, step);
      Reopens(s, step, id) <==> id !in s'.findings || !IsClosed(s'.findings[id])
  {
    match step
    case SyncStep(r) => SyncKeeps(s, r);
    case ImportStep(input) => UpsertKeeps(s, input);
    case _ =>
  }

  /** A finding that the user deletes by waiting can be taken back: restoring undoes the mark. */
  lemma RestoreUndoesMark(s: State, id: Id, settings: Settings, now: Time)
    requires id in s.findings && FindingFate(s.findings[id], settings, now) == Marked
    ensures var marked := s.(findings := Retained(s.findings, settings, now));
      && Restore(marked, id).Ok?
      && var f := Restore(marked, id).value.findings[id];
         f == s.findings[id].(deletedFromStatus := None, deletedAt := None, updatedAt := Some(s.clock))
  {
  }
}
