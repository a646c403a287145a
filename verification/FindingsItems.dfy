/** Planned items and the findings they were made for, over every run: one at a time, and when there is a second. */
module FindingsItems {
  import opened Wrappers
  import opened Findings
  import opened FindingsRuns
  import opened FindingsSync
  import opened Retention

  // ---- New findings have new identifiers ------------------------------------------------

  ghost predicate NewAreLater(s: State, s': State) {
    s.clock <= s'.clock && forall id :: id in s'.findings && id !in s.findings ==> s.clock <= id
  }

  lemma SyncOneNew(s: State, r: Report, p: Proposal, t: Time)
    requires IsSoundState(s)
    ensures NewAreLater(s, SyncOne(s, r, p, t).0)
  {
    if IsReported(p) {
      var u := Upsert(s, InputOf(r, p, t));
      UpsertKeeps(s, InputOf(r, p, t));
      AutoPromoteIs(u.state, r.auto, u.id);
    }
  }

  lemma {:induction false} SyncAllNew(s: State, r: Report, proposals: seq<Proposal>, t: Time)
    requires IsSoundState(s)
    ensures NewAreLater(s, SyncAll(s, r, proposals, t).0)
  {
    if proposals != [] {
      var front := proposals[..|proposals| - 1];
      SyncAllNew(s, r, front, t);
      SyncAllKeeps(s, r, front, t);
      SyncOneNew(SyncAll(s, r, front, t).0, r, proposals[|proposals| - 1], t);
    }
  }

  lemma SyncNew(s: State, r: Report)
    requires IsSoundState(s)
    ensures NewAreLater(s, Sync(s, r).0)
  {
    var ticked, stamp := s.(clock := s.clock + 1), Or(r.stamp, s.clock);
    SyncAllNew(ticked, r, r.proposals, stamp);
    SyncKeeps(s, r);
    assert Sync(s, r).0.findings.Keys == SyncAll(ticked, r, r.proposals, stamp).0.findings.Keys;
  }

  lemma StepNew(s: State, step: Step)
    requires IsSoundState(s)
    ensures NewAreLater(s, Take(s, step))
  {
    if step.SyncStep? { SyncNew(s, step.report); } else { StepKeeps(s, step); }
  }

  // ---- Items made over a run ------------------------------------------------------------

  function NewItems(s: State, s': State): set<Id> {
    s'.planned.Keys - s.planned.Keys
  }

  /** The items made so far for findings, whether they still exist or not: all but those that users queued. */
  function Made(steps: seq<Step>): set<Id> {
    if steps == [] then {}
    else
      var s, last := TakeAll(NO_FINDINGS, steps[..|steps| - 1]), steps[|steps| - 1];
      Made(steps[..|steps| - 1]) + if last.QueueStep? then {} else NewItems(s, Take(s, last))
  }

  /** Those of them that no user asked for. */
  function MadeBySyncs(steps: seq<Step>): set<Id> {
    if steps == [] then {}
    else
      var s, last := TakeAll(NO_FINDINGS, steps[..|steps| - 1]), steps[|steps| - 1];
      MadeBySyncs(steps[..|steps| - 1])
      + if last.QueueStep? || last.PromoteStep? then {} else NewItems(s, Take(s, last))
  }

  // ---- Owners -------------------------------------------------------------------------------

  /** `owner` names for every item made so far the finding it was made for. */
  ghost predicate AreOwners(s: State, owner: map<Id, Id>) {
    && (forall x :: x in owner ==> x < s.clock && owner[x] < s.clock)
    && (forall id :: id in s.findings && ItemOf(s, id).Some? ==>
          ItemOf(s, id).value in owner && owner[ItemOf(s, id).value] == id)
    && (forall x :: x in owner && owner[x] in s.findings ==> ItemOf(s, owner[x]).Some?)
    && (forall x :: x in owner && owner[x] in s.findings && x in s.planned ==> ItemOf(s, owner[x]) == Some(x))
  }

  /** No finding has two items at a time. */
  ghost predicate OneAtATime(s: State, owner: map<Id, Id>) {
    forall x, y :: x in owner && y in owner && x in s.planned && y in s.planned && owner[x] == owner[y] ==> x == y
  }

  /** An item that a sync made is the first one of its finding. */
  ghost predicate SyncsComeFirst(owner: map<Id, Id>, bySyncs: set<Id>) {
    forall x, y :: x in bySyncs && y in owner && x in owner && owner[x] == owner[y] ==> x <= y
  }

  ghost predicate IsRecord(s: State, owner: map<Id, Id>, bySyncs: set<Id>) {
    bySyncs <= owner.Keys && AreOwners(s, owner) && OneAtATime(s, owner) && SyncsComeFirst(owner, bySyncs)
  }

  /** A step that takes no promotion back makes items for findings that never had one. */
  ghost function NewOwner(s: State, s': State, owner: map<Id, Id>, item: Id): (id: Id)
    requires IsFresh(s') && KeepsPromotions(s, s') && NewAreLater(s, s') && AreOwners(s, owner)
    requires item in NewItems(s, s')
    ensures id in s'.findings && ItemOf(s', id) == Some(item) && ItemOf(s, id).None?
    ensures forall x :: x in owner ==> owner[x] != id
  {
    var id :| id in s'.findings && ItemOf(s', id) == Some(item) && ItemOf(s, id).None?;
    id
  }

  /** The step keeps the record of owners going. */
  ghost predicate Follows(s: State, s': State) {
    IsSoundState(s) && IsSoundState(s') && KeepsPromotions(s, s') && NewAreLater(s, s')
  }

  ghost function Added(s: State, s': State, owner: map<Id, Id>): (added: map<Id, Id>)
    requires Follows(s, s') && AreOwners(s, owner)
    ensures added.Keys == NewItems(s, s')
    ensures forall x :: x in added ==> added[x] == NewOwner(s, s', owner, x)
  {
    map x | x in NewItems(s, s') :: NewOwner(s, s', owner, x)
  }

  lemma NewItemIsNew(s: State, s': State, owner: map<Id, Id>, x: Id)
    requires Follows(s, s') && AreOwners(s, owner) && x in NewItems(s, s')
    ensures x >= s.clock && x !in owner
  {
  }

  ghost function Extended(s: State, s': State, owner: map<Id, Id>): map<Id, Id>
    requires Follows(s, s') && AreOwners(s, owner)
  {
    owner + Added(s, s', owner)
  }

  /** Items keep their owners, and a new one belongs to a finding that owned none. */
  lemma ExtendedIs(s: State, s': State, owner: map<Id, Id>)
    requires Follows(s, s') && AreOwners(s, owner)
    ensures var owner' := Extended(s, s', owner);
      && owner'.Keys == owner.Keys + NewItems(s, s')
      && (forall x :: x in owner ==> x !in NewItems(s, s') && owner'[x] == owner[x])
      && (forall x :: x in NewItems(s, s') ==>
            owner'[x] in s'.findings && ItemOf(s', owner'[x]) == Some(x) && owner'[x] !in owner.Values)
  {
    forall x | x in NewItems(s, s') ensures x !in owner { NewItemIsNew(s, s', owner, x); }
  }

  lemma ExtendedOwners(s: State, s': State, owner: map<Id, Id>)
    requires Follows(s, s') && AreOwners(s, owner)
    ensures AreOwners(s', Extended(s, s', owner))
  {
    var owner' := Extended(s, s', owner);
    ExtendedIs(s, s', owner);
    forall id | id in s'.findings && ItemOf(s', id).Some?
      ensures ItemOf(s', id).value in owner' && owner'[ItemOf(s', id).value] == id
    {
      var x := ItemOf(s', id).value;
      if ItemOf(s', id) != ItemOf(s, id) {
        assert x in NewItems(s, s');
        assert ItemOf(s', owner'[x]) == Some(x);
      }
    }
    forall x | x in owner && owner[x] in s'.findings
      ensures owner[x] in s.findings && ItemOf(s', owner[x]) == ItemOf(s, owner[x])
    {
    }
  }

  /** A new item shares its owner with no other item. */
  lemma NewOwnsAlone(s: State, s': State, owner: map<Id, Id>, x: Id, y: Id)
    requires Follows(s, s') && AreOwners(s, owner) && x in NewItems(s, s')
    requires y in owner || y in NewItems(s, s')
    ensures var owner' := Extended(s, s', owner); x in owner' && y in owner' && (owner'[x] == owner'[y] ==> x == y)
  {
    ExtendedIs(s, s', owner);
    if y in owner { assert owner[y] in owner.Values; }
  }

  lemma ExtendedOneEach(s: State, s': State, owner: map<Id, Id>, bySyncs: set<Id>)
    requires Follows(s, s') && IsRecord(s, owner, bySyncs)
    ensures OneAtATime(s', Extended(s, s', owner))
    ensures SyncsComeFirst(Extended(s, s', owner), bySyncs + NewItems(s, s'))
  {
    ExtendedIs(s, s', owner);
    forall x, y | x in NewItems(s, s') && (y in owner || y in NewItems(s, s'))
      ensures Extended(s, s', owner)[x] == Extended(s, s', owner)[y] ==> x == y
    {
      NewOwnsAlone(s, s', owner, x, y);
    }
    assert forall x :: x in owner && x in s'.planned ==> x in s.planned;
  }

  /** A step that takes no promotion back. */
  lemma ItemsAdded(s: State, s': State, owner: map<Id, Id>, bySyncs: set<Id>) returns (owner': map<Id, Id>)
    requires Follows(s, s') && IsRecord(s, owner, bySyncs)
    ensures owner'.Keys == owner.Keys + NewItems(s, s') && IsRecord(s', owner', bySyncs + NewItems(s, s'))
    ensures forall x :: x in owner ==> owner'[x] == owner[x]
  {
    owner' := Extended(s, s', owner);
    ExtendedIs(s, s', owner);
    ExtendedOwners(s, s', owner);
    ExtendedOneEach(s, s', owner, bySyncs);
  }

  /** A promotion may make another item for a finding whose item was dropped. */
  lemma OwnersAfterPromotion(s: State, id: Id, owner: map<Id, Id>)
    requires IsFresh(s) && AreOwners(s, owner) && Promote(s, id).Ok?
    requires ItemOf(s, id).None? || ItemOf(s, id).value !in s.planned
    ensures AreOwners(Promote(s, id).value, owner[s.clock + 1 := id])
  {
    var s' := Promote(s, id).value;
    forall x ensures ItemOf(s', x) == if x == id then Some(s.clock + 1) else ItemOf(s, x) { }
  }

  lemma ItemPromoted(s: State, id: Id, owner: map<Id, Id>, bySyncs: set<Id>) returns (owner': map<Id, Id>)
    requires IsSoundState(s) && IsRecord(s, owner, bySyncs) && Promote(s, id).Ok?
    ensures var s' := Promote(s, id).value;
      owner'.Keys == owner.Keys + NewItems(s, s') && IsRecord(s', owner', bySyncs)
    ensures forall x :: x in owner ==> owner'[x] == owner[x]
  {
    var s', item := Promote(s, id).value, s.clock + 1;
    if ItemOf(s, id).None? || ItemOf(s, id).value !in s.planned {
      owner' := owner[item := id];
      assert NewItems(s, s') == {item};
      OwnersAfterPromotion(s, id, owner);
    } else {
      owner' := owner;
      assert NewItems(s, s') == {};
    }
  }

  /** What users and the scheduler do with items changes no owner. */
  lemma ItemsHandled(s: State, s': State, owner: map<Id, Id>, bySyncs: set<Id>)
    requires IsSoundState(s) && IsRecord(s, owner, bySyncs) && s'.findings == s.findings && s.clock <= s'.clock
    requires forall x :: x in s'.planned && x !in s.planned ==> x >= s.clock
    ensures IsRecord(s', owner, bySyncs)
  {
    assert forall id :: ItemOf(s', id) == ItemOf(s, id);
  }

  lemma StepRecorded(s: State, step: Step, owner: map<Id, Id>, bySyncs: set<Id>) returns (owner': map<Id, Id>)
    requires IsSoundState(s) && IsRecord(s, owner, bySyncs)
    ensures var made := NewItems(s, Take(s, step));
      && owner'.Keys == owner.Keys + (if step.QueueStep? then {} else made)
      && IsRecord(Take(s, step), owner', bySyncs + if step.QueueStep? || step.PromoteStep? then {} else made)
    ensures forall x :: x in owner ==> owner'[x] == owner[x]
  {
    var s' := Take(s, step);
    if step.QueueStep? || step.AdvanceStep? || step.DropStep? {
      owner' := owner;
      ItemsHandled(s, s', owner, bySyncs);
      assert !step.QueueStep? ==> NewItems(s, s') == {};
    } else if step.PromoteStep? {
      owner' := owner;
      if Promote(s, step.id).Ok? { owner' := ItemPromoted(s, step.id, owner, bySyncs); }
    } else {
      StepKeepsPromotions(s, step);
      StepNew(s, step);
      owner' := ItemsAdded(s, s', owner, bySyncs);
    }
  }

  /**
   Over every run the items made for findings have owners: no finding ever has
   two items at a time, and a sync makes an item only for a finding that never
   had one, so at most one in all.
   */
  lemma {:induction false} RunsPromoteOnce(steps: seq<Step>) returns (owner: map<Id, Id>)
    ensures owner.Keys == Made(steps)
    ensures IsRecord(TakeAll(NO_FINDINGS, steps), owner, MadeBySyncs(steps))
    ensures forall x, y :: x in MadeBySyncs(steps) && y in MadeBySyncs(steps) && owner[x] == owner[y] ==> x == y
  {
    if steps == [] {
      owner := map[];
    } else {
      var front := steps[..|steps| - 1];
      owner := RunsPromoteOnce(front);
      RunsAreSound(front);
      owner := StepRecorded(TakeAll(NO_FINDINGS, front), steps[|steps| - 1], owner, MadeBySyncs(front));
    }
  }

  // ---- Second items ---------------------------------------------------------------------------

  /** Dropping an item and promoting its finding again makes a second one; no sync does. */
  lemma DroppedIsPromotedAgain(s: State, id: Id, auto: bool)
    requires IsSoundState(s) && id in s.findings && s.findings[id].status != Deleted
    requires ItemOf(s, id).Some? && ItemOf(s, id).value in s.planned && IsRemovable(s.planned[ItemOf(s, id).value])
    ensures var item := ItemOf(s, id).value;
      && Drop(s, item).Ok?
      && var dropped := Drop(s, item).value;
         && IsSoundState(dropped) && AutoPromote(dropped, auto, id) == (dropped, false)
         && Promote(dropped, id).Ok?
         && var s' := Promote(dropped, id).value;
            && ItemOf(s', id).Some? && ItemOf(s', id).value in s'.planned && ItemOf(s', id) != Some(item)
            && item !in s'.planned
  {
    PromoteExactly(Drop(s, ItemOf(s, id).value).value, id);
  }

  lemma TakeOneMore(steps: seq<Step>, step: Step)
    ensures TakeAll(NO_FINDINGS, steps + [step]) == Take(TakeAll(NO_FINDINGS, steps), step)
    ensures var made := NewItems(TakeAll(NO_FINDINGS, steps), Take(TakeAll(NO_FINDINGS, steps), step));
      && Made(steps + [step]) == Made(steps) + (if step.QueueStep? then {} else made)
      && MadeBySyncs(steps + [step])
         == MadeBySyncs(steps) + if step.QueueStep? || step.PromoteStep? then {} else made
  {
    assert (steps + [step])[..|steps|] == steps;
  }

  /** After any run: when the item of a finding can be dropped, the finding can get a second one. */
  lemma SecondItem(steps: seq<Step>, id: Id) returns (owner: map<Id, Id>, second: Id)
    requires var s := TakeAll(NO_FINDINGS, steps);
      && id in s.findings && s.findings[id].status != Deleted
      && ItemOf(s, id).Some? && ItemOf(s, id).value in s.planned && IsRemovable(s.planned[ItemOf(s, id).value])
    ensures var item := ItemOf(TakeAll(NO_FINDINGS, steps), id).value;
      var more := steps + [DropStep(item)] + [PromoteStep(id)];
      && owner.Keys == Made(more) && IsRecord(TakeAll(NO_FINDINGS, more), owner, MadeBySyncs(more))
      && item in owner && second in owner && second != item && owner[item] == owner[second] == id
  {
    var s := TakeAll(NO_FINDINGS, steps);
    var item := ItemOf(s, id).value;
    var dropped := steps + [DropStep(item)];
    RunsAreSound(steps);
    TakeOneMore(steps, DropStep(item));
    TakeOneMore(dropped, PromoteStep(id));
    DroppedIsPromotedAgain(s, id, false);
    second := ItemOf(TakeAll(NO_FINDINGS, dropped + [PromoteStep(id)]), id).value;
    var before := RunsPromoteOnce(steps);
    var between := StepRecorded(s, DropStep(item), before, MadeBySyncs(steps));
    owner := StepRecorded(TakeAll(NO_FINDINGS, dropped), PromoteStep(id), between, MadeBySyncs(dropped));
  }

  /** It happens: a finding is reported and promoted, its item is dropped, and it is promoted again. */
  lemma SecondItemHappens(input: Input) returns (owner: map<Id, Id>, second: Id)
    ensures var steps := [ImportStep(input)] + [PromoteStep(1)] + [DropStep(3)] + [PromoteStep(1)];
      && owner.Keys == Made(steps) && IsRecord(TakeAll(NO_FINDINGS, steps), owner, MadeBySyncs(steps))
      && 3 in owner && second in owner && second != 3 && owner[3] == owner[second] == 1
  {
    OneFinding(input);
    owner, second := SecondItem([ImportStep(input)] + [PromoteStep(1)], 1);
  }

  lemma OneFinding(input: Input)
    ensures var s := TakeAll(NO_FINDINGS, [ImportStep(input)] + [PromoteStep(1)]);
      && 1 in s.findings && s.findings[1].status == Promoted && ItemOf(s, 1) == Some(3)
      && 3 in s.planned && s.planned[3].state == Queued && s.planned.Keys == {3} && s.clock == 4
  {
    TakeOneMore([ImportStep(input)], PromoteStep(1));
    TakeOneMore([], ImportStep(input));
    assert [] + [ImportStep(input)] == [ImportStep(input)];
    assert IdsWith(map[], input.key) == {};
  }
}
