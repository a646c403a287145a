/** Which reports settle when they are synced over and over, from which states, and which never do. */
module FindingsSettled {
  import opened Wrappers
  import opened Findings
  import opened FindingsSync

  predicate ReportsNothing(r: Report) {
    forall i :: 0 <= i < |r.proposals| ==> !IsReported(r.proposals[i])
  }

  predicate IsDeletedAt(s: State, key: Key) {
    At(s, key).Some? && At(s, key).value.status == Deleted
  }

  /** Everything that is reported was deleted by the user. */
  predicate AllDeleted(s: State, r: Report) {
    forall i :: 0 <= i < |r.proposals| && IsReported(r.proposals[i]) ==>
      IsDeletedAt(s, KeyOf(r.source, r.proposals[i].itemId))
  }

  /** After `n` syncs no further one changes anything. */
  ghost predicate IsQuietFrom(s: State, r: Report, n: nat) {
    forall m: nat :: m >= n ==> !Sync(Synced(s, r, m), r).1
  }

  /** Syncing the report again and again changes nothing from some sync on. */
  ghost predicate Settles(s: State, r: Report) {
    exists n: nat :: IsQuietFrom(s, r, n)
  }

  // ---- What a sync leaves of a reported finding ----------------------------------------

  lemma SyncOneKeepsDeleted(s: State, r: Report, p: Proposal, t: Time, itemId: string)
    requires IsFresh(s)
    ensures IsDeletedAt(SyncOne(s, r, p, t).0, KeyOf(r.source, itemId)) <==> IsDeletedAt(s, KeyOf(r.source, itemId))
  {
    if IsReported(p) {
      var input := InputOf(r, p, t);
      var u := Upsert(s, input);
      UpsertIs(s, input);
      LookupHasKey(s.findings, input.key);
      AutoPromoteIs(u.state, r.auto, u.id);
      SameKeysSameLookup(u.state.findings, SyncOne(s, r, p, t).0.findings, input.key);
      if itemId != p.itemId { SyncOneElsewhere(s, r, p, t, KeyOf(r.source, itemId)); }
    }
  }

  lemma {:induction false} SyncAllKeepsDeleted(s: State, r: Report, proposals: seq<Proposal>, t: Time, itemId: string)
    requires IsFresh(s)
    ensures var s' := SyncAll(s, r, proposals, t).0;
      IsDeletedAt(s', KeyOf(r.source, itemId)) <==> IsDeletedAt(s, KeyOf(r.source, itemId))
  {
    if proposals != [] {
      var front := proposals[..|proposals| - 1];
      SyncAllKeepsDeleted(s, r, front, t, itemId);
      SyncAllFresh(s, r, front, t);
      SyncOneKeepsDeleted(SyncAll(s, r, front, t).0, r, proposals[|proposals| - 1], t, itemId);
    }
  }

  /** Marking what is missing leaves what is reported as it is. */
  lemma MarkingKeepsReported(s: State, r: Report, p: Proposal)
    requires p in r.proposals && IsReported(p)
    ensures var key, s' := KeyOf(r.source, p.itemId), MarkMissing(s, r.source, SeenIn(r.proposals)).0;
      At(s', key) == At(s, key)
  {
    var key, s' := KeyOf(r.source, p.itemId), MarkMissing(s, r.source, SeenIn(r.proposals)).0;
    SameKeysSameLookup(s.findings, s'.findings, key);
    LookupHasKey(s.findings, key);
    assert p.itemId in SeenIn(r.proposals);
  }

  /** The pass over the proposals that a sync starts with. */
  function Pass(s: State, r: Report): State {
    SyncAll(s.(clock := s.clock + 1), r, r.proposals, Or(r.stamp, s.clock)).0
  }

  /** For what is reported the pass decides. */
  lemma PassDecides(s: State, r: Report, p: Proposal)
    requires p in r.proposals && IsReported(p)
    ensures At(Sync(s, r).0, KeyOf(r.source, p.itemId)) == At(Pass(s, r), KeyOf(r.source, p.itemId))
    ensures Pass(s, r).clock <= Sync(s, r).0.clock
  {
    MarkingKeepsReported(Pass(s, r), r, p);
  }

  lemma SyncStaysFresh(s: State, r: Report)
    requires IsFresh(s)
    ensures IsFresh(Sync(s, r).0)
  {
    SyncedFresh(s, r, 1);
    assert Synced(s, r, 1) == Synced(Sync(s, r).0, r, 0);
  }

  /** Reading the clock changes nothing else. */
  lemma TickKeepsAt(s: State, key: Key)
    ensures At(s.(clock := s.clock + 1), key) == At(s, key)
  {
  }

  /** A sync neither deletes a reported finding nor takes a deletion back. */
  lemma SyncKeepsDeleted(s: State, r: Report)
    requires IsFresh(s)
    ensures AllDeleted(Sync(s, r).0, r) <==> AllDeleted(s, r)
  {
    var ticked, t := s.(clock := s.clock + 1), Or(r.stamp, s.clock);
    forall i | 0 <= i < |r.proposals| && IsReported(r.proposals[i])
      ensures var key := KeyOf(r.source, r.proposals[i].itemId); IsDeletedAt(Sync(s, r).0, key) <==> IsDeletedAt(s, key)
    {
      SyncAllKeepsDeleted(ticked, r, r.proposals, t, r.proposals[i].itemId);
      PassDecides(s, r, r.proposals[i]);
      TickKeepsAt(s, KeyOf(r.source, r.proposals[i].itemId));
    }
  }

  // ---- Deleted findings settle -------------------------------------------------------------

  /** The time of a report does not matter for a deleted finding, which keeps its own. */
  lemma DeletedAnyTime(s: State, r: Report, t: Time, t': Time)
    requires AllDeleted(s, r)
    ensures AllCurrent(s, r, r.proposals, t) <==> AllCurrent(s, r, r.proposals, t')
    ensures AllAlmost(s, r, r.proposals, t) <==> AllCurrent(s, r, r.proposals, t)
  {
    forall i | 0 <= i < |r.proposals| && IsReported(r.proposals[i])
      ensures IsCurrent(s, r, r.proposals[i], t) <==> IsCurrent(s, r, r.proposals[i], t')
      ensures IsAlmost(s, r, r.proposals[i], t) <==> IsCurrent(s, r, r.proposals[i], t)
    {
    }
  }

  /** How close to settled a state is in which everything reported is deleted: 2 for any such state. */
  ghost predicate IsDeletedWithin(n: nat, s: State, r: Report) {
    && IsFresh(s) && AllDeleted(s, r)
    && (n <= 1 ==> AllCurrent(s, r, r.proposals, 0))
    && (n == 0 ==> NoneMissing(s, r))
  }

  lemma DeletedComesCloser(n: nat, s: State, r: Report)
    requires IsConsistent(r.proposals) && IsDeletedWithin(n, s, r)
    ensures Sync(s, r).1 ==> n > 0 && IsDeletedWithin(n - 1, Sync(s, r).0, r)
    ensures !Sync(s, r).1 ==> IsDeletedWithin(0, s, r) && IsDeletedWithin(0, Sync(s, r).0, r)
  {
    var t := Or(r.stamp, s.clock);
    SyncKeepsDeleted(s, r);
    DeletedAnyTime(s, r, t, 0);
    DeletedAnyTime(Sync(s, r).0, r, t, 0);
    SyncComesCloser(3, s, r, t);
    if AllCurrent(s, r, r.proposals, t) { UnchangedSettles(s, r, t); }
  }

  lemma {:induction false} DeletedChangesAreBounded(k: nat, s: State, r: Report, n: nat)
    requires IsConsistent(r.proposals) && IsDeletedWithin(k, s, r)
    ensures CountChanges(s, r, n) <= k
    ensures n >= k ==> IsDeletedWithin(0, Synced(s, r, n), r)
    decreases n
  {
    if n > 0 {
      DeletedComesCloser(k, s, r);
      DeletedChangesAreBounded(if Sync(s, r).1 then k - 1 else 0, Sync(s, r).0, r, n - 1);
    }
  }

  lemma DeletedSettles(s: State, r: Report, n: nat)
    requires IsFresh(s) && IsConsistent(r.proposals) && AllDeleted(s, r)
    ensures CountChanges(s, r, n) <= 2
    ensures n >= 2 ==> !Sync(Synced(s, r, n), r).1
    ensures !Sync(s, r).1 ==> CountChanges(s, r, n) == 0
  {
    DeletedChangesAreBounded(2, s, r, n);
    if n >= 2 { DeletedComesCloser(0, Synced(s, r, n), r); }
    DeletedComesCloser(2, s, r);
    if !Sync(s, r).1 { DeletedChangesAreBounded(0, s, r, n); }
  }

  // ---- Reports that settle ----------------------------------------------------------------

  /** The report does not contradict itself, and carries a time or only deleted findings. */
  predicate CanSettleFrom(s: State, r: Report) {
    IsConsistent(r.proposals) && (r.stamp.Some? || AllDeleted(s, r))
  }

  /**
   Re-syncing an unchanged report that can settle changes something at most
   three times, and never again once a sync has changed nothing.
   */
  lemma SyncSettles(s: State, r: Report, n: nat)
    requires IsFresh(s) && CanSettleFrom(s, r)
    ensures CountChanges(s, r, n) <= 3
    ensures n >= 3 ==> !Sync(Synced(s, r, n), r).1
    ensures !Sync(s, r).1 ==> CountChanges(s, r, n) == 0
  {
    if r.stamp.Some? { TimedSettles(s, r, n); } else { DeletedSettles(s, r, n); }
  }

  // ---- Reports that never settle ------------------------------------------------------------

  /** A report that contradicts itself changes something at every sync, so missing findings are never resolved. */
  lemma ContradictionNeverSettles(s: State, r: Report)
    requires IsFresh(s) && !IsConsistent(r.proposals)
    ensures Sync(s, r).1
    ensures Sync(s, r).0 == SyncAll(s.(clock := s.clock + 1), r, r.proposals, Or(r.stamp, s.clock)).0
  {
    var t := Or(r.stamp, s.clock);
    var ticked := s.(clock := s.clock + 1);
    ContradictionIsNotCurrent(ticked, r, t);
    SyncAllChanges(ticked, r, r.proposals, t);
  }

  /** There is a finding with the key, it is not deleted, and it was updated before now. */
  predicate IsPastAt(s: State, key: Key) {
    && At(s, key).Some? && At(s, key).value.status != Deleted
    && At(s, key).value.updatedAt.Some? && At(s, key).value.updatedAt.value < s.clock
  }

  /** Syncing a proposal stamps its own finding unless that is deleted, and leaves every other one. */
  lemma SyncOneStamps(s: State, r: Report, p: Proposal, t: Time, itemId: string)
    requires IsFresh(s) && t < s.clock
    ensures var key, s' := KeyOf(r.source, itemId), SyncOne(s, r, p, t).0;
      && s.clock <= s'.clock && IsFresh(s')
      && (IsPastAt(s, key) ==> IsPastAt(s', key))
      && (IsReported(p) && p.itemId == itemId && !IsDeletedAt(s, key) ==> IsPastAt(s', key))
  {
    if IsReported(p) {
      var input := InputOf(r, p, t);
      var u := Upsert(s, input);
      UpsertIs(s, input);
      LookupHasKey(s.findings, input.key);
      AutoPromoteIs(u.state, r.auto, u.id);
      SameKeysSameLookup(u.state.findings, SyncOne(s, r, p, t).0.findings, input.key);
      if itemId != p.itemId { SyncOneElsewhere(s, r, p, t, KeyOf(r.source, itemId)); }
    }
  }

  lemma {:induction false} SyncAllStamps(s: State, r: Report, proposals: seq<Proposal>, t: Time, itemId: string)
    requires IsFresh(s) && t < s.clock
    ensures var key, s' := KeyOf(r.source, itemId), SyncAll(s, r, proposals, t).0;
      && s.clock <= s'.clock && IsFresh(s')
      && (IsPastAt(s, key) ==> IsPastAt(s', key))
      && (!IsDeletedAt(s, key) && (exists p :: p in proposals && IsReported(p) && p.itemId == itemId) ==>
            IsPastAt(s', key))
  {
    if proposals != [] {
      var front, last := proposals[..|proposals| - 1], proposals[|proposals| - 1];
      SyncAllStamps(s, r, front, t, itemId);
      SyncAllKeepsDeleted(s, r, front, t, itemId);
      SyncOneStamps(SyncAll(s, r, front, t).0, r, last, t, itemId);
      assert forall p :: p in proposals ==> p in front || p == last;
    }
  }

  /** A sync without a time stamps every reported finding that is not deleted with a time that then is past. */
  lemma UntimedStamps(s: State, r: Report, p: Proposal)
    requires IsFresh(s) && r.stamp.None? && p in r.proposals && IsReported(p)
    requires !IsDeletedAt(s, KeyOf(r.source, p.itemId))
    ensures IsFresh(Sync(s, r).0) && IsPastAt(Sync(s, r).0, KeyOf(r.source, p.itemId))
  {
    TickKeepsAt(s, KeyOf(r.source, p.itemId));
    SyncAllStamps(s.(clock := s.clock + 1), r, r.proposals, s.clock, p.itemId);
    PassDecides(s, r, p);
    SyncStaysFresh(s, r);
  }

  /** So the next one changes it again. */
  lemma PastChanges(s: State, r: Report, p: Proposal)
    requires IsFresh(s) && r.stamp.None? && p in r.proposals && IsReported(p)
    requires IsPastAt(s, KeyOf(r.source, p.itemId))
    ensures Sync(s, r).1
  {
    var ticked := s.(clock := s.clock + 1);
    var i :| 0 <= i < |r.proposals| && r.proposals[i] == p;
    assert !IsCurrent(ticked, r, r.proposals[i], s.clock);
    SyncAllChanges(ticked, r, r.proposals, s.clock);
  }

  lemma {:induction false} PastStays(s: State, r: Report, p: Proposal, n: nat)
    requires IsFresh(s) && r.stamp.None? && p in r.proposals && IsReported(p)
    requires IsPastAt(s, KeyOf(r.source, p.itemId))
    ensures Sync(Synced(s, r, n), r).1
    decreases n
  {
    PastChanges(s, r, p);
    UntimedStamps(s, r, p);
    if n > 0 { PastStays(Sync(s, r).0, r, p, n - 1); }
  }

  /** A report without a time that names a finding that is not deleted changes it at every sync from the second on. */
  lemma UntimedNeverSettles(s: State, r: Report, n: nat)
    requires IsFresh(s) && r.stamp.None? && !AllDeleted(s, r)
    ensures Sync(Synced(s, r, n + 1), r).1
  {
    var i :| 0 <= i < |r.proposals| && IsReported(r.proposals[i])
      && !IsDeletedAt(s, KeyOf(r.source, r.proposals[i].itemId));
    UntimedStamps(s, r, r.proposals[i]);
    PastStays(Sync(s, r).0, r, r.proposals[i], n);
  }

  // ---- Exactly ---------------------------------------------------------------------------

  /**
   From a state a report settles exactly when it does not contradict itself,
   and carries a time or reports nothing but deleted findings.
   */
  lemma SettlesFromExactly(s: State, r: Report)
    requires IsFresh(s)
    ensures Settles(s, r) <==> CanSettleFrom(s, r)
  {
    if CanSettleFrom(s, r) {
      forall m: nat | m >= 3 ensures !Sync(Synced(s, r, m), r).1 { SyncSettles(s, r, m); }
      assert IsQuietFrom(s, r, 3);
    } else {
      forall n: nat ensures !IsQuietFrom(s, r, n) {
        if IsConsistent(r.proposals) {
          UntimedNeverSettles(s, r, n);
        } else {
          SyncedFresh(s, r, n + 1);
          ContradictionNeverSettles(Synced(s, r, n + 1), r);
        }
        assert Sync(Synced(s, r, n + 1), r).1;
      }
    }
  }

  /** Nothing is reported, or the report carries a time and does not contradict itself. */
  predicate CanSettle(r: Report) {
    ReportsNothing(r) || (r.stamp.Some? && IsConsistent(r.proposals))
  }

  /** A report settles from every state exactly when nothing is reported, or it has a time and no contradiction. */
  lemma SettlesExactly(r: Report)
    ensures CanSettle(r) <==> forall s :: IsFresh(s) ==> Settles(s, r)
  {
    forall s | IsFresh(s) ensures Settles(s, r) <==> CanSettleFrom(s, r) { SettlesFromExactly(s, r); }
    if !CanSettle(r) {
      var s := State(map[], map[], 0);
      assert !ReportsNothing(r) ==> !AllDeleted(s, r);
      assert IsFresh(s) && !Settles(s, r);
    }
  }
}
