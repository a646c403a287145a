/** Syncing the same report over and over: when it settles, and in what state. */
module FindingsSync {
  import opened Wrappers
  import opened Findings

  /** Every identifier in use is older than the clock. */
  predicate IsFresh(s: State) {
    (forall id :: id in s.findings ==> id < s.clock) && (forall id :: id in s.planned ==> id < s.clock)
  }

  // ---- Lookups depend on keys only ---------------------------------------------------

  /** From `a` to `b` findings may be added, but no finding is dropped or changes its key. */
  predicate KeepsKeys(a: map<Id, Finding>, b: map<Id, Finding>) {
    forall id :: id in a ==> id in b && b[id].key == a[id].key
  }

  lemma SameKeysSameLookup(a: map<Id, Finding>, b: map<Id, Finding>, key: Key)
    requires a.Keys == b.Keys && KeepsKeys(a, b)
    ensures FindBySource(a, key) == FindBySource(b, key)
  {
    assert IdsWith(a, key) == IdsWith(b, key);
  }

  lemma AddedKeyLookup(a: map<Id, Finding>, id: Id, f: Finding, key: Key)
    requires id !in a
    ensures f.key != key ==> FindBySource(a[id := f], key) == FindBySource(a, key)
    ensures f.key == key && FindBySource(a, key).None? ==> FindBySource(a[id := f], key) == Some(id)
  {
    if f.key != key {
      assert IdsWith(a[id := f], key) == IdsWith(a, key);
    } else if FindBySource(a, key).None? {
      assert IdsWith(a, key) == {};
      assert IdsWith(a[id := f], key) == {id};
    }
  }

  lemma LookupHasKey(findings: map<Id, Finding>, key: Key)
    ensures FindBySource(findings, key).Some? ==>
      FindBySource(findings, key).value in findings && findings[FindBySource(findings, key).value].key == key
    ensures FindBySource(findings, key).None? ==> forall id :: id in findings ==> findings[id].key != key
  {
    assert forall id :: id in findings && findings[id].key == key ==> id in IdsWith(findings, key);
  }

  // ---- One upsert ------------------------------------------------------------------------

  /** The finding that belongs to a key, if there is one. */
  function At(s: State, key: Key): Option<Finding> {
    match FindBySource(s.findings, key)
    case None => None
    case Some(id) => if id in s.findings then Some(s.findings[id]) else None
  }

  /** What an upsert does: the finding of its key is as reported, and no other finding changes. */
  lemma UpsertIs(s: State, input: Input)
    requires IsFresh(s)
    ensures var u := Upsert(s, input);
      var now := Or(input.updatedAt, s.clock);
      var f := match At(s, input.key)
        case Some(f) => f
        case None => NewFinding(s.clock + 1, input, Or(input.createdAt, now));
      && IsFresh(u.state) && u.state.planned == s.planned
      && FindBySource(u.state.findings, input.key) == Some(u.id) && u.id in u.state.findings
      && u.state.findings == s.findings[u.id := Updated(f, input, now, Or(input.createdAt, now))]
      && (u.id in s.findings ==> s.findings[u.id] == f)
      && (u.changed <==> u.state.findings != s.findings)
  {
    LookupHasKey(s.findings, input.key);
    var u := Upsert(s, input);
    match FindBySource(s.findings, input.key)
    case None => AddedKeyLookup(s.findings, u.id, u.state.findings[u.id], input.key);
    case Some(id) =>
      SameKeysSameLookup(s.findings, u.state.findings, input.key);
      assert s.findings[id := s.findings[id]] == s.findings;
  }

  lemma UpsertElsewhere(s: State, input: Input, key: Key)
    requires IsFresh(s) && key != input.key
    ensures At(Upsert(s, input).state, key) == At(s, key)
    ensures FindBySource(Upsert(s, input).state.findings, key) == FindBySource(s.findings, key)
  {
    UpsertIs(s, input);
    LookupHasKey(s.findings, key);
    LookupHasKey(s.findings, input.key);
    var u := Upsert(s, input);
    match FindBySource(s.findings, input.key)
    case None => AddedKeyLookup(s.findings, u.id, u.state.findings[u.id], key);
    case Some(id) => SameKeysSameLookup(s.findings, u.state.findings, key);
  }

  /** Upserting the same input again changes nothing exactly when it carries a time, or the finding is deleted. */
  lemma UpsertTwiceExactly(s: State, input: Input)
    requires IsFresh(s)
    ensures var u := Upsert(s, input);
      !Upsert(u.state, input).changed <==> input.updatedAt.Some? || u.state.findings[u.id].status == Deleted
  {
    UpsertIs(s, input);
    UpsertIs(Upsert(s, input).state, input);
  }

  // ---- One proposal ---------------------------------------------------------------------

  /** A finding that its proposal does not change any more, except perhaps its time of update. */
  predicate IsAlmost(s: State, r: Report, p: Proposal, t: Time) {
    match At(s, KeyOf(r.source, p.itemId))
    case None => false
    case Some(f) =>
      && Updated(f, InputOf(r, p, t), t, t).(updatedAt := f.updatedAt) == f
      && (r.auto ==> IsSpared(f))
  }

  /** A finding that its proposal does not change at all any more. */
  predicate IsCurrent(s: State, r: Report, p: Proposal, t: Time) {
    match At(s, KeyOf(r.source, p.itemId))
    case None => false
    case Some(f) => Updated(f, InputOf(r, p, t), t, t) == f && (r.auto ==> IsSpared(f))
  }

  /** A promotion changes the one finding and adds the one item. */
  lemma AutoPromoteIs(s: State, auto: bool, id: Id)
    requires IsFresh(s) && id in s.findings
    ensures var (s', promoted) := AutoPromote(s, auto, id);
      && IsFresh(s')
      && (promoted <==> auto && !IsSpared(s.findings[id]))
      && (!promoted ==> s' == s)
      && (promoted ==> s'.findings == s.findings[id := PromotedTo(s.findings[id], s.clock + 1, s.clock)])
  {
  }

  lemma SyncOneIs(s: State, r: Report, p: Proposal, t: Time)
    requires IsFresh(s) && IsReported(p)
    ensures IsFresh(SyncOne(s, r, p, t).0) && IsAlmost(SyncOne(s, r, p, t).0, r, p, t)
    ensures SyncOne(s, r, p, t).1 <==> !IsCurrent(s, r, p, t)
    ensures IsAlmost(s, r, p, t) ==> IsCurrent(SyncOne(s, r, p, t).0, r, p, t)
    ensures !SyncOne(s, r, p, t).1 ==> SyncOne(s, r, p, t).0 == s.(clock := SyncOne(s, r, p, t).0.clock)
  {
    var input := InputOf(r, p, t);
    var u := Upsert(s, input);
    UpsertIs(s, input);
    LookupHasKey(s.findings, input.key);
    AutoPromoteIs(u.state, r.auto, u.id);
    var s' := SyncOne(s, r, p, t).0;
    SameKeysSameLookup(u.state.findings, s'.findings, input.key);
    assert At(s', input.key) == Some(s'.findings[u.id]);
  }

  lemma SyncOneElsewhere(s: State, r: Report, p: Proposal, t: Time, key: Key)
    requires IsFresh(s) && key != KeyOf(r.source, p.itemId)
    ensures At(SyncOne(s, r, p, t).0, key) == At(s, key)
  {
    if IsReported(p) {
      var input := InputOf(r, p, t);
      var u := Upsert(s, input);
      UpsertIs(s, input);
      UpsertElsewhere(s, input, key);
      LookupHasKey(u.state.findings, key);
      LookupHasKey(u.state.findings, input.key);
      AutoPromoteIs(u.state, r.auto, u.id);
      SameKeysSameLookup(u.state.findings, SyncOne(s, r, p, t).0.findings, key);
    }
  }

  // ---- A whole report -----------------------------------------------------------------------

  /** No two reported proposals claim the same item with different contents. */
  predicate IsConsistent(proposals: seq<Proposal>) {
    forall i, j ::
      0 <= i < j < |proposals| && IsReported(proposals[i]) && IsReported(proposals[j])
      && proposals[i].itemId == proposals[j].itemId
      ==> proposals[i] == proposals[j]
  }

  predicate AllAlmost(s: State, r: Report, proposals: seq<Proposal>, t: Time) {
    forall i :: 0 <= i < |proposals| && IsReported(proposals[i]) ==> IsAlmost(s, r, proposals[i], t)
  }

  predicate AllCurrent(s: State, r: Report, proposals: seq<Proposal>, t: Time) {
    forall i :: 0 <= i < |proposals| && IsReported(proposals[i]) ==> IsCurrent(s, r, proposals[i], t)
  }

  lemma {:induction false} SyncAllFresh(s: State, r: Report, proposals: seq<Proposal>, t: Time)
    requires IsFresh(s)
    ensures IsFresh(SyncAll(s, r, proposals, t).0)
  {
    if proposals == [] {
    } else {
      var last := |proposals| - 1;
      SyncAllFresh(s, r, proposals[..last], t);
      if IsReported(proposals[last]) { SyncOneIs(SyncAll(s, r, proposals[..last], t).0, r, proposals[last], t); }
    }
  }

  /** A pass changes nothing exactly when every reported finding is current. */
  lemma {:induction false} SyncAllChanges(s: State, r: Report, proposals: seq<Proposal>, t: Time)
    requires IsFresh(s)
    ensures SyncAll(s, r, proposals, t).1 <==> !AllCurrent(s, r, proposals, t)
    ensures !SyncAll(s, r, proposals, t).1 ==>
      SyncAll(s, r, proposals, t).0 == s.(clock := SyncAll(s, r, proposals, t).0.clock)
  {
    if proposals == [] {
    } else {
      var last := |proposals| - 1;
      var front := proposals[..last];
      assert forall i :: 0 <= i < last ==> front[i] == proposals[i];
      SyncAllChanges(s, r, front, t);
      SyncAllFresh(s, r, front, t);
      if IsReported(proposals[last]) { SyncOneIs(SyncAll(s, r, front, t).0, r, proposals[last], t); }
    }
  }

  /** Syncing a proposal makes its own finding almost current, and keeps every other one so. */
  lemma SyncedOnce(s: State, r: Report, p: Proposal, q: Proposal, t: Time)
    requires IsFresh(s) && IsReported(q) && (IsAlmost(s, r, q, t) || q == p)
    requires IsReported(p) && q.itemId == p.itemId ==> q == p
    ensures IsAlmost(SyncOne(s, r, p, t).0, r, q, t)
  {
    if IsReported(p) { SyncOneIs(s, r, p, t); }
    if q.itemId != p.itemId { SyncOneElsewhere(s, r, p, t, KeyOf(r.source, q.itemId)); }
  }

  lemma {:induction false} FirstPass(s: State, r: Report, proposals: seq<Proposal>, t: Time)
    requires IsFresh(s) && IsConsistent(proposals)
    ensures AllAlmost(SyncAll(s, r, proposals, t).0, r, proposals, t)
  {
    if proposals == [] {
    } else {
      var last := |proposals| - 1;
      var front := proposals[..last];
      assert forall i :: 0 <= i < last ==> front[i] == proposals[i];
      FirstPass(s, r, front, t);
      SyncAllFresh(s, r, front, t);
      var s' := SyncAll(s, r, front, t).0;
      forall i | 0 <= i < |proposals| && IsReported(proposals[i])
        ensures IsAlmost(SyncOne(s', r, proposals[last], t).0, r, proposals[i], t)
      {
        if i < last { assert IsAlmost(s', r, front[i], t); }
        SyncedOnce(s', r, proposals[last], proposals[i], t);
      }
    }
  }

  /** Syncing a proposal again keeps every other finding as good as it is, and makes its own current. */
  lemma SyncedAgain(s: State, r: Report, p: Proposal, q: Proposal, t: Time)
    requires IsFresh(s) && IsReported(q) && IsAlmost(s, r, q, t)
    requires IsReported(p) && q.itemId == p.itemId ==> q == p
    ensures IsAlmost(SyncOne(s, r, p, t).0, r, q, t)
    ensures IsCurrent(s, r, q, t) || q == p ==> IsCurrent(SyncOne(s, r, p, t).0, r, q, t)
  {
    if IsReported(p) { SyncOneIs(s, r, p, t); }
    if q.itemId != p.itemId { SyncOneElsewhere(s, r, p, t, KeyOf(r.source, q.itemId)); }
  }

  /** One more proposal synced again: the rest stay as good as they are. */
  lemma OneMoreSynced(s: State, r: Report, proposals: seq<Proposal>, n: nat, t: Time)
    requires IsFresh(s) && IsConsistent(proposals) && n < |proposals|
    requires AllAlmost(s, r, proposals, t) && AllCurrent(s, r, proposals[..n], t)
    ensures AllAlmost(SyncOne(s, r, proposals[n], t).0, r, proposals, t)
    ensures AllCurrent(SyncOne(s, r, proposals[n], t).0, r, proposals[..n + 1], t)
  {
    forall i | 0 <= i < |proposals| && IsReported(proposals[i])
      ensures IsAlmost(SyncOne(s, r, proposals[n], t).0, r, proposals[i], t)
      ensures i <= n ==> IsCurrent(SyncOne(s, r, proposals[n], t).0, r, proposals[i], t)
    {
      SyncedAgain(s, r, proposals[n], proposals[i], t);
      if i < n { assert IsCurrent(s, r, proposals[..n][i], t); }
    }
  }

  lemma SyncAllOneMore(s: State, r: Report, proposals: seq<Proposal>, n: nat, t: Time)
    requires n < |proposals|
    ensures var (s', changed) := SyncAll(s, r, proposals[..n], t);
      var (s'', changed') := SyncOne(s', r, proposals[n], t);
      SyncAll(s, r, proposals[..n + 1], t) == (s'', changed || changed')
  {
    assert proposals[..n + 1][..n] == proposals[..n];
  }

  /** The rest of the proposals stay as good as they are while one after the other is synced again. */
  lemma {:induction false} SecondPass(s: State, r: Report, proposals: seq<Proposal>, n: nat, t: Time)
    requires IsFresh(s) && IsConsistent(proposals) && AllAlmost(s, r, proposals, t) && n <= |proposals|
    ensures AllAlmost(SyncAll(s, r, proposals[..n], t).0, r, proposals, t)
    ensures AllCurrent(SyncAll(s, r, proposals[..n], t).0, r, proposals[..n], t)
  {
    if n > 0 {
      var k: nat := n - 1;
      var s' := SyncAll(s, r, proposals[..k], t).0;
      SecondPass(s, r, proposals, k, t);
      SyncAllFresh(s, r, proposals[..k], t);
      OneMoreSynced(s', r, proposals, k, t);
      SyncAllOneMore(s, r, proposals, k, t);
    }
  }

  // ---- Syncs ------------------------------------------------------------------------------------

  /** No finding of the source is alive without being reported. */
  predicate NoneMissing(s: State, r: Report) {
    MissingIds(s.findings, r.source, SeenIn(r.proposals)) == {}
  }

  /** Marking what is missing touches no finding that is reported. */
  lemma ReportedStaysCurrent(s: State, s': State, r: Report, t: Time)
    requires s'.findings.Keys == s.findings.Keys && KeepsKeys(s.findings, s'.findings)
    requires forall id | id in s.findings && s.findings[id].key.itemId in SeenIn(r.proposals) ::
      s'.findings[id] == s.findings[id]
    requires AllCurrent(s, r, r.proposals, t)
    ensures AllCurrent(s', r, r.proposals, t)
  {
    forall i | 0 <= i < |r.proposals| && IsReported(r.proposals[i]) ensures IsCurrent(s', r, r.proposals[i], t) {
      var key := KeyOf(r.source, r.proposals[i].itemId);
      SameKeysSameLookup(s.findings, s'.findings, key);
      LookupHasKey(s.findings, key);
      assert r.proposals[i] in r.proposals && key.itemId in SeenIn(r.proposals);
    }
  }

  lemma MarkMissingIs(s: State, r: Report, t: Time)
    requires IsFresh(s)
    ensures var (s', changed) := MarkMissing(s, r.source, SeenIn(r.proposals));
      && IsFresh(s') && NoneMissing(s', r) && s'.planned == s.planned
      && (changed <==> !NoneMissing(s, r))
      && (!changed ==> s' == s.(clock := s'.clock))
      && (AllCurrent(s, r, r.proposals, t) ==> AllCurrent(s', r, r.proposals, t))
  {
    var seen := SeenIn(r.proposals);
    var (s', changed) := MarkMissing(s, r.source, seen);
    assert s'.findings.Keys == s.findings.Keys && KeepsKeys(s.findings, s'.findings);
    if !changed { assert s'.findings == s.findings; }
    forall id | id in s'.findings ensures !IsMissing(s'.findings[id], r.source, seen) { }
    if AllCurrent(s, r, r.proposals, t) { ReportedStaysCurrent(s, s', r, t); }
  }

  /** Syncing the report again changes nothing. */
  predicate IsSettled(s: State, r: Report, t: Time) {
    AllCurrent(s, r, r.proposals, t) && NoneMissing(s, r)
  }

  /** How close to settled a state is: 3 for any state, 0 for a settled one. */
  ghost predicate IsWithin(n: nat, s: State, r: Report, t: Time) {
    && IsFresh(s)
    && (n <= 2 ==> AllAlmost(s, r, r.proposals, t))
    && (n <= 1 ==> AllCurrent(s, r, r.proposals, t))
    && (n == 0 ==> NoneMissing(s, r))
  }

  lemma CurrentIsAlmost(s: State, r: Report, t: Time)
    requires AllCurrent(s, r, r.proposals, t)
    ensures AllAlmost(s, r, r.proposals, t)
  {
    forall i | 0 <= i < |r.proposals| && IsReported(r.proposals[i]) ensures IsAlmost(s, r, r.proposals[i], t) {
      assert IsCurrent(s, r, r.proposals[i], t);
    }
  }

  /** A pass over the whole report makes every finding almost current, and almost current ones current. */
  lemma PassComesCloser(s: State, r: Report, t: Time)
    requires IsFresh(s) && IsConsistent(r.proposals)
    ensures var s' := SyncAll(s, r, r.proposals, t).0;
      && IsFresh(s') && AllAlmost(s', r, r.proposals, t)
      && (AllAlmost(s, r, r.proposals, t) ==> AllCurrent(s', r, r.proposals, t))
  {
    SyncAllFresh(s, r, r.proposals, t);
    FirstPass(s, r, r.proposals, t);
    if AllAlmost(s, r, r.proposals, t) {
      assert r.proposals[..|r.proposals|] == r.proposals;
      SecondPass(s, r, r.proposals, |r.proposals|, t);
    }
  }

  lemma ClockIsFree(s: State, r: Report, t: Time, clock: Id)
    ensures AllCurrent(s.(clock := clock), r, r.proposals, t) <==> AllCurrent(s, r, r.proposals, t)
    ensures AllAlmost(s.(clock := clock), r, r.proposals, t) <==> AllAlmost(s, r, r.proposals, t)
    ensures NoneMissing(s.(clock := clock), r) <==> NoneMissing(s, r)
  {
    forall p: Proposal
      ensures IsCurrent(s.(clock := clock), r, p, t) <==> IsCurrent(s, r, p, t)
      ensures IsAlmost(s.(clock := clock), r, p, t) <==> IsAlmost(s, r, p, t)
    {
    }
  }

  /** A pass that changes nothing leaves a settled state, once missing findings are marked. */
  lemma UnchangedSettles(s: State, r: Report, t: Time)
    requires Or(r.stamp, s.clock) == t && IsFresh(s) && AllCurrent(s, r, r.proposals, t)
    ensures Sync(s, r).1 <==> !NoneMissing(s, r)
    ensures IsWithin(0, Sync(s, r).0, r, t)
    ensures !Sync(s, r).1 ==> Sync(s, r).0 == s.(clock := Sync(s, r).0.clock)
  {
    var ticked := s.(clock := s.clock + 1);
    ClockIsFree(s, r, t, s.clock + 1);
    SyncAllChanges(ticked, r, r.proposals, t);
    SyncAllFresh(ticked, r, r.proposals, t);
    var s' := SyncAll(ticked, r, r.proposals, t).0;
    ClockIsFree(s, r, t, s'.clock);
    MarkMissingIs(s', r, t);
    CurrentIsAlmost(Sync(s, r).0, r, t);
  }

  /** A pass that changes something comes closer. */
  lemma ChangedComesCloser(n: nat, s: State, r: Report, t: Time)
    requires Or(r.stamp, s.clock) == t && IsConsistent(r.proposals)
    requires IsWithin(n, s, r, t) && !AllCurrent(s, r, r.proposals, t)
    ensures Sync(s, r).1 && n > 1 && IsWithin(n - 1, Sync(s, r).0, r, t)
  {
    var ticked := s.(clock := s.clock + 1);
    ClockIsFree(s, r, t, s.clock + 1);
    SyncAllChanges(ticked, r, r.proposals, t);
    assert Sync(s, r) == (SyncAll(ticked, r, r.proposals, t).0, true);
    PassComesCloser(ticked, r, t);
  }

  /** Every sync of a consistent report that changes something brings the state closer to settled. */
  lemma SyncComesCloser(n: nat, s: State, r: Report, t: Time)
    requires Or(r.stamp, s.clock) == t && IsConsistent(r.proposals) && IsWithin(n, s, r, t)
    ensures Sync(s, r).1 <==> !IsSettled(s, r, t)
    ensures Sync(s, r).1 ==> n > 0 && IsWithin(n - 1, Sync(s, r).0, r, t)
    ensures !Sync(s, r).1 ==> Sync(s, r).0 == s.(clock := Sync(s, r).0.clock) && IsWithin(0, Sync(s, r).0, r, t)
  {
    if AllCurrent(s, r, r.proposals, t) {
      UnchangedSettles(s, r, t);
    } else {
      ChangedComesCloser(n, s, r, t);
    }
  }

  function Synced(s: State, r: Report, n: nat): State
    decreases n
  {
    if n == 0 then s else Synced(Sync(s, r).0, r, n - 1)
  }

  /** How many of the next `n` syncs report a change. */
  function CountChanges(s: State, r: Report, n: nat): nat
    decreases n
  {
    if n == 0 then 0 else (if Sync(s, r).1 then 1 else 0) + CountChanges(Sync(s, r).0, r, n - 1)
  }

  lemma {:induction false} ChangesAreBounded(k: nat, s: State, r: Report, t: Time, n: nat)
    requires r.stamp == Some(t) && IsConsistent(r.proposals) && IsWithin(k, s, r, t)
    ensures CountChanges(s, r, n) <= k
    ensures n >= k ==> IsWithin(0, Synced(s, r, n), r, t)
    decreases n
  {
    if n > 0 {
      SyncComesCloser(k, s, r, t);
      var next := Sync(s, r).0;
      var left := if Sync(s, r).1 then k - 1 else 0;
      ChangesAreBounded(left, next, r, t, n - 1);
    }
  }

  /** A timed and consistent report changes something at most three times, and nothing once a sync changed nothing. */
  lemma TimedSettles(s: State, r: Report, n: nat)
    requires IsFresh(s) && r.stamp.Some? && IsConsistent(r.proposals)
    ensures CountChanges(s, r, n) <= 3
    ensures n >= 3 ==> !Sync(Synced(s, r, n), r).1
    ensures !Sync(s, r).1 ==> CountChanges(s, r, n) == 0
  {
    var t := r.stamp.value;
    ChangesAreBounded(3, s, r, t, n);
    SyncedFresh(s, r, n);
    SyncComesCloser(3, Synced(s, r, n), r, t);
    SyncComesCloser(3, s, r, t);
    if !Sync(s, r).1 {
      CurrentIsAlmost(s, r, t);
      ChangesAreBounded(0, s, r, t, n);
    }
  }

  lemma {:induction false} SyncedFresh(s: State, r: Report, n: nat)
    requires IsFresh(s)
    ensures IsFresh(Synced(s, r, n))
    decreases n
  {
    if n > 0 {
      var ticked := s.(clock := s.clock + 1);
      SyncAllFresh(ticked, r, r.proposals, Or(r.stamp, s.clock));
      MarkMissingIs(SyncAll(ticked, r, r.proposals, Or(r.stamp, s.clock)).0, r, 0);
      SyncedFresh(Sync(s, r).0, r, n - 1);
    }
  }

  /** In a settled state every reported finding is alive or set aside, and every other one of the source is closed. */
  lemma SettledMeans(s: State, r: Report, t: Time)
    requires IsSettled(s, r, t)
    ensures forall p :: p in r.proposals && IsReported(p) ==>
      At(s, KeyOf(r.source, p.itemId)).Some? && At(s, KeyOf(r.source, p.itemId)).value.status != Resolved
      && At(s, KeyOf(r.source, p.itemId)).value.content == p.content
    ensures forall id ::
      id in s.findings && IsOf(s.findings[id], r.source) && s.findings[id].key.itemId !in SeenIn(r.proposals) ==>
      s.findings[id].status == Dismissed || s.findings[id].status == Deleted || s.findings[id].status == Resolved
  {
    forall p | p in r.proposals && IsReported(p)
      ensures At(s, KeyOf(r.source, p.itemId)).Some? && At(s, KeyOf(r.source, p.itemId)).value.status != Resolved
        && At(s, KeyOf(r.source, p.itemId)).value.content == p.content
    {
      var i :| 0 <= i < |r.proposals| && r.proposals[i] == p;
      assert IsCurrent(s, r, r.proposals[i], t);
    }
    forall id | id in s.findings ensures !IsMissing(s.findings[id], r.source, SeenIn(r.proposals)) {
      assert id !in MissingIds(s.findings, r.source, SeenIn(r.proposals));
    }
  }

  lemma CurrentContent(s: State, r: Report, p: Proposal, t: Time)
    ensures IsCurrent(s, r, p, t) ==>
      At(s, KeyOf(r.source, p.itemId)).Some? && At(s, KeyOf(r.source, p.itemId)).value.content == p.content
  {
  }

  lemma ContradictionIsNotCurrent(s: State, r: Report, t: Time)
    requires !IsConsistent(r.proposals)
    ensures !AllCurrent(s, r, r.proposals, t)
  {
    var i, j :| 0 <= i < j < |r.proposals| && IsReported(r.proposals[i]) && IsReported(r.proposals[j])
      && r.proposals[i].itemId == r.proposals[j].itemId && r.proposals[i] != r.proposals[j];
    CurrentContent(s, r, r.proposals[i], t);
    CurrentContent(s, r, r.proposals[j], t);
  }
}
