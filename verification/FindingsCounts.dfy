/** How often a timed report changes something when it is synced over and over: twice at most, or three times. */
module FindingsCounts {
  import opened Wrappers
  import opened Findings
  import opened FindingsSync
  import opened FindingsSettled

  /** No other reported proposal claims the item. */
  predicate AppearsOnce(proposals: seq<Proposal>, i: nat)
    requires i < |proposals|
  {
    && IsReported(proposals[i])
    && forall j :: 0 <= j < |proposals| && IsReported(proposals[j]) && proposals[j].itemId == proposals[i].itemId ==>
         j == i
  }

  /** The report promotes what it names, and names some item once only. */
  predicate PromotesOnce(r: Report) {
    r.auto && exists i :: 0 <= i < |r.proposals| && AppearsOnce(r.proposals, i)
  }

  // ---- What is missing stays missing during a pass --------------------------------------

  /** Syncing a proposal touches the one finding of its key only. */
  lemma SyncOneTouches(s: State, r: Report, p: Proposal, t: Time) returns (id: Id)
    requires IsFresh(s) && IsReported(p)
    ensures var s' := SyncOne(s, r, p, t).0;
      && id in s'.findings && s'.findings[id].key == KeyOf(r.source, p.itemId)
      && (id in s.findings ==> s.findings[id].key == KeyOf(r.source, p.itemId))
      && s'.findings == s.findings[id := s'.findings[id]]
  {
    var input := InputOf(r, p, t);
    var u := Upsert(s, input);
    id := u.id;
    UpsertIs(s, input);
    LookupHasKey(s.findings, input.key);
    AutoPromoteIs(u.state, r.auto, u.id);
  }

  lemma SyncOneKeepsMissing(s: State, r: Report, p: Proposal, t: Time)
    requires IsFresh(s) && (IsReported(p) ==> p in r.proposals)
    ensures NoneMissing(SyncOne(s, r, p, t).0, r) <==> NoneMissing(s, r)
  {
    if IsReported(p) {
      var id := SyncOneTouches(s, r, p, t);
      assert p.itemId in SeenIn(r.proposals);
      assert MissingIds(SyncOne(s, r, p, t).0.findings, r.source, SeenIn(r.proposals))
          == MissingIds(s.findings, r.source, SeenIn(r.proposals));
    }
  }

  lemma {:induction false} PassKeepsMissing(s: State, r: Report, n: nat, t: Time)
    requires IsFresh(s) && n <= |r.proposals|
    ensures NoneMissing(SyncAll(s, r, r.proposals[..n], t).0, r) <==> NoneMissing(s, r)
  {
    if n > 0 {
      PassKeepsMissing(s, r, n - 1, t);
      SyncAllFresh(s, r, r.proposals[..n - 1], t);
      SyncAllOneMore(s, r, r.proposals, n - 1, t);
      SyncOneKeepsMissing(SyncAll(s, r, r.proposals[..n - 1], t).0, r, r.proposals[n - 1], t);
    }
  }

  lemma ChangingIsPass(s: State, r: Report, t: Time)
    requires IsFresh(s) && r.stamp == Some(t) && !AllCurrent(s, r, r.proposals, t)
    ensures Sync(s, r) == (Pass(s, r), true)
  {
    ClockIsFree(s, r, t, s.clock + 1);
    SyncAllChanges(s.(clock := s.clock + 1), r, r.proposals, t);
  }

  lemma PassImproves(s: State, r: Report, t: Time)
    requires IsFresh(s) && r.stamp == Some(t) && IsConsistent(r.proposals)
    ensures IsFresh(Pass(s, r)) && AllAlmost(Pass(s, r), r, r.proposals, t)
    ensures AllAlmost(s, r, r.proposals, t) ==> AllCurrent(Pass(s, r), r, r.proposals, t)
  {
    var ticked := s.(clock := s.clock + 1);
    assert Pass(s, r) == SyncAll(ticked, r, r.proposals, t).0;
    PassComesCloser(ticked, r, t);
    if AllAlmost(s, r, r.proposals, t) { ClockIsFree(s, r, t, ticked.clock); }
  }

  lemma PassLeavesMissing(s: State, r: Report)
    requires IsFresh(s)
    ensures NoneMissing(Pass(s, r), r) <==> NoneMissing(s, r)
  {
    assert r.proposals[..|r.proposals|] == r.proposals;
    PassKeepsMissing(s.(clock := s.clock + 1), r, |r.proposals|, Or(r.stamp, s.clock));
  }

  /** A sync that changes something is a pass. */
  lemma ChangingSync(s: State, r: Report, t: Time)
    requires IsFresh(s) && r.stamp == Some(t) && IsConsistent(r.proposals) && !AllCurrent(s, r, r.proposals, t)
    ensures Sync(s, r) == (Pass(s, r), true)
    ensures IsFresh(Pass(s, r)) && AllAlmost(Pass(s, r), r, r.proposals, t)
    ensures AllAlmost(s, r, r.proposals, t) ==> AllCurrent(Pass(s, r), r, r.proposals, t)
    ensures NoneMissing(Pass(s, r), r) <==> NoneMissing(s, r)
  {
    ChangingIsPass(s, r, t);
    PassImproves(s, r, t);
    PassLeavesMissing(s, r);
  }

  // ---- Twice at most ---------------------------------------------------------------------

  /** Without a missing finding two passes settle everything. */
  lemma NoneMissingTwice(s: State, r: Report, n: nat)
    requires IsFresh(s) && r.stamp.Some? && IsConsistent(r.proposals) && NoneMissing(s, r)
    ensures CountChanges(s, r, n) <= 2
  {
    var t := r.stamp.value;
    if n == 0 {
    } else if AllCurrent(s, r, r.proposals, t) {
      CurrentOnce(s, r, t, n);
    } else {
      ChangingSync(s, r, t);
      var s' := Pass(s, r);
      if n == 1 {
      } else if AllCurrent(s', r, r.proposals, t) {
        CurrentOnce(s', r, t, n - 1);
      } else {
        ChangingSync(s', r, t);
        CurrentOnce(Pass(s', r), r, t, n - 2);
      }
    }
  }

  /** Once everything reported is current, one sync settles what is missing. */
  lemma CurrentOnce(s: State, r: Report, t: Time, n: nat)
    requires IsFresh(s) && r.stamp == Some(t) && IsConsistent(r.proposals) && AllCurrent(s, r, r.proposals, t)
    ensures CountChanges(s, r, n) <= if NoneMissing(s, r) then 0 else 1
  {
    CurrentIsAlmost(s, r, t);
    ChangesAreBounded(if NoneMissing(s, r) then 0 else 1, s, r, t, n);
  }

  lemma OnePassTwice(s: State, r: Report, n: nat)
    requires IsFresh(s) && r.stamp.Some? && IsConsistent(r.proposals)
    requires AllCurrent(Pass(s, r), r, r.proposals, r.stamp.value)
    ensures CountChanges(s, r, n) <= 2
  {
    var t := r.stamp.value;
    if n == 0 {
    } else if AllCurrent(s, r, r.proposals, t) {
      CurrentOnce(s, r, t, n);
    } else {
      ChangingSync(s, r, t);
      assert CountChanges(s, r, n) == 1 + CountChanges(Pass(s, r), r, n - 1);
      CurrentOnce(Pass(s, r), r, t, n - 1);
    }
  }

  /** The proposal at `i` is current after a pass over the first `n`: there is no promotion, or it was synced twice. */
  predicate IsDone(r: Report, n: nat, i: nat)
    requires i < |r.proposals|
  {
    && IsReported(r.proposals[i]) && i < n
    && (r.auto ==>
          exists j ::
            && 0 <= j < n && j != i && j < |r.proposals|
            && IsReported(r.proposals[j]) && r.proposals[j].itemId == r.proposals[i].itemId)
  }

  lemma SyncedPlain(s: State, r: Report, p: Proposal, t: Time)
    requires IsFresh(s) && !r.auto && IsReported(p)
    ensures IsCurrent(SyncOne(s, r, p, t).0, r, p, t)
  {
    UpsertIs(s, InputOf(r, p, t));
    LookupHasKey(s.findings, InputOf(r, p, t).key);
  }

  lemma OneMoreDone(s: State, r: Report, n: nat, i: nat, t: Time)
    requires IsFresh(s) && IsConsistent(r.proposals) && n < |r.proposals| && i < |r.proposals|
    requires AllAlmost(s, r, r.proposals[..n], t) && IsDone(r, n + 1, i)
    requires IsDone(r, n, i) ==> IsCurrent(s, r, r.proposals[i], t)
    ensures IsCurrent(SyncOne(s, r, r.proposals[n], t).0, r, r.proposals[i], t)
  {
    var p, q := r.proposals[n], r.proposals[i];
    if IsReported(p) && p.itemId == q.itemId {
      assert p == q;
      if r.auto {
        var j :| 0 <= j < n + 1 && j != i && IsReported(r.proposals[j]) && r.proposals[j].itemId == q.itemId;
        var k := if j < n then j else i;
        assert r.proposals[..n][k] == q;
        SyncedAgain(s, r, p, q, t);
      } else {
        SyncedPlain(s, r, p, t);
      }
    } else {
      assert IsDone(r, n, i);
      assert r.proposals[..n][i] == q;
      SyncedAgain(s, r, p, q, t);
    }
  }

  lemma {:induction false} PassDone(s: State, r: Report, n: nat, i: nat, t: Time)
    requires IsFresh(s) && IsConsistent(r.proposals) && n <= |r.proposals| && i < |r.proposals| && IsDone(r, n, i)
    ensures IsCurrent(SyncAll(s, r, r.proposals[..n], t).0, r, r.proposals[i], t)
  {
    var front := r.proposals[..n - 1];
    SyncAllFresh(s, r, front, t);
    assert IsConsistent(front) by {
      assert forall k :: 0 <= k < |front| ==> front[k] == r.proposals[k];
    }
    FirstPass(s, r, front, t);
    if IsDone(r, n - 1, i) { PassDone(s, r, n - 1, i, t); }
    OneMoreDone(SyncAll(s, r, front, t).0, r, n - 1, i, t);
    SyncAllOneMore(s, r, r.proposals, n - 1, t);
  }

  /** Without a promotion of an item that is named once, one pass makes everything current. */
  lemma OnePassIsEnough(s: State, r: Report)
    requires IsFresh(s) && r.stamp.Some? && IsConsistent(r.proposals) && !PromotesOnce(r)
    ensures AllCurrent(Pass(s, r), r, r.proposals, r.stamp.value)
  {
    var ticked := s.(clock := s.clock + 1);
    assert r.proposals[..|r.proposals|] == r.proposals;
    forall i | 0 <= i < |r.proposals| && IsReported(r.proposals[i])
      ensures IsCurrent(Pass(s, r), r, r.proposals[i], r.stamp.value)
    {
      if r.auto { assert !AppearsOnce(r.proposals, i); }
      PassDone(ticked, r, |r.proposals|, i, r.stamp.value);
    }
  }

  /** Twice at most: when nothing is missing, or no item that is named once is promoted. */
  lemma TwiceAtMost(s: State, r: Report, n: nat)
    requires IsFresh(s) && r.stamp.Some? && IsConsistent(r.proposals) && (NoneMissing(s, r) || !PromotesOnce(r))
    ensures CountChanges(s, r, n) <= 2
  {
    if NoneMissing(s, r) {
      NoneMissingTwice(s, r, n);
    } else {
      OnePassIsEnough(s, r);
      OnePassTwice(s, r, n);
    }
  }

  // ---- Three times -----------------------------------------------------------------------------

  /** The finding of the item is promoted by a sync. */
  predicate IsPromotable(s: State, key: Key) {
    At(s, key).None? || !IsSpared(At(s, key).value)
  }

  /** A promotion stamps its finding with the time of the promotion. */
  lemma PromotedIsLater(s: State, r: Report, p: Proposal, t: Time)
    requires IsFresh(s) && r.auto && IsReported(p) && t < s.clock && IsPromotable(s, KeyOf(r.source, p.itemId))
    ensures var f := At(SyncOne(s, r, p, t).0, KeyOf(r.source, p.itemId));
      f.Some? && f.value.status == Promoted && f.value.updatedAt.Some? && f.value.updatedAt.value > t
  {
    var input := InputOf(r, p, t);
    var u := Upsert(s, input);
    UpsertIs(s, input);
    LookupHasKey(s.findings, input.key);
    AutoPromoteIs(u.state, r.auto, u.id);
    SameKeysSameLookup(u.state.findings, SyncOne(s, r, p, t).0.findings, input.key);
  }

  lemma {:induction false} OthersElsewhere(s: State, r: Report, i: nat, n: nat, t: Time)
    requires IsFresh(s) && i < |r.proposals| && AppearsOnce(r.proposals, i) && n <= |r.proposals|
    ensures var s' := SyncAll(s, r, r.proposals[..n], t).0;
      && IsFresh(s') && s.clock <= s'.clock
      && (n <= i ==> At(s', KeyOf(r.source, r.proposals[i].itemId)) == At(s, KeyOf(r.source, r.proposals[i].itemId)))
    ensures t < s.clock && r.auto && IsPromotable(s, KeyOf(r.source, r.proposals[i].itemId)) && i < n ==>
      var f := At(SyncAll(s, r, r.proposals[..n], t).0, KeyOf(r.source, r.proposals[i].itemId));
      f.Some? && f.value.status == Promoted && f.value.updatedAt.Some? && f.value.updatedAt.value > t
  {
    if n > 0 {
      var k: nat := n - 1;
      OthersElsewhere(s, r, i, k, t);
      SyncAllOneMore(s, r, r.proposals, k, t);
      var s' := SyncAll(s, r, r.proposals[..k], t).0;
      SyncOneStays(s', r, r.proposals[k], t);
      if k == i {
        if t < s.clock && r.auto && IsPromotable(s, KeyOf(r.source, r.proposals[i].itemId)) {
          PromotedIsLater(s', r, r.proposals[i], t);
        }
      } else if IsReported(r.proposals[k]) {
        SyncOneElsewhere(s', r, r.proposals[k], t, KeyOf(r.source, r.proposals[i].itemId));
      }
    }
  }

  lemma SyncOneStays(s: State, r: Report, p: Proposal, t: Time)
    requires IsFresh(s)
    ensures IsFresh(SyncOne(s, r, p, t).0) && s.clock <= SyncOne(s, r, p, t).0.clock
  {
    if IsReported(p) {
      UpsertIs(s, InputOf(r, p, t));
      AutoPromoteIs(Upsert(s, InputOf(r, p, t)).state, r.auto, Upsert(s, InputOf(r, p, t)).id);
    }
  }

  /** So after the pass that promotes it, the finding is not as the report says. */
  lemma PassPromotes(s: State, r: Report, i: nat, t: Time)
    requires IsFresh(s) && r.stamp == Some(t) && t <= s.clock && r.auto
    requires i < |r.proposals| && AppearsOnce(r.proposals, i)
    requires IsPromotable(s, KeyOf(r.source, r.proposals[i].itemId))
    ensures !AllCurrent(Pass(s, r), r, r.proposals, t)
  {
    TickKeepsAt(s, KeyOf(r.source, r.proposals[i].itemId));
    assert r.proposals[..|r.proposals|] == r.proposals;
    OthersElsewhere(s.(clock := s.clock + 1), r, i, |r.proposals|, t);
    assert !IsCurrent(Pass(s, r), r, r.proposals[i], t);
  }

  /** A promotion together with a missing finding: three syncs in a row change something. */
  lemma ThreeTimes(s: State, r: Report, i: nat)
    requires IsFresh(s) && r.stamp.Some? && r.stamp.value <= s.clock && IsConsistent(r.proposals) && r.auto
    requires i < |r.proposals| && AppearsOnce(r.proposals, i)
    requires IsPromotable(s, KeyOf(r.source, r.proposals[i].itemId)) && !NoneMissing(s, r)
    ensures CountChanges(s, r, 3) == 3
  {
    var t := r.stamp.value;
    assert !IsCurrent(s, r, r.proposals[i], t);
    ChangingSync(s, r, t);
    PassPromotes(s, r, i, t);
    ChangingSync(Pass(s, r), r, t);
    UnchangedSettles(Pass(Pass(s, r), r), r, t);
    CountThree(s, r);
  }

  lemma CountThree(s: State, r: Report)
    requires Sync(s, r).1 && Sync(Sync(s, r).0, r).1 && Sync(Sync(Sync(s, r).0, r).0, r).1
    ensures CountChanges(s, r, 3) == 3
  {
    var s' := Sync(s, r).0;
    assert CountChanges(s', r, 2) == 1 + CountChanges(Sync(s', r).0, r, 1);
  }

  // ---- Exactly ------------------------------------------------------------------------------------

  lemma {:induction false} UnusedName(names: set<string>) returns (name: string)
    ensures name !in names && forall n :: n in names ==> |n| < |name|
  {
    if names == {} {
      name := "x";
    } else {
      var one :| one in names;
      var other := UnusedName(names - {one});
      name := if |one| < |other| then other else one + "x";
      assert forall n :: n in names ==> n == one || n in names - {one};
    }
  }

  /** A state that holds one finding of the report's source, which the report does not name. */
  function OneMissing(r: Report, itemId: string, clock: Id): State {
    var f := NewFinding(0, Input(r.repo, KeyOf(r.source, itemId), r.parent, BLANK_CONTENT, None, None), 0);
    State(map[0 := f.(key := KeyOf(r.source, itemId))], map[], clock + 1)
  }

  /**
   A timed report without contradictions changes something twice at most, from
   every state, exactly when it does not promote an item that it names once.
   */
  lemma TwiceExactly(r: Report)
    requires r.stamp.Some? && IsConsistent(r.proposals)
    ensures !PromotesOnce(r) <==> forall s, n :: IsFresh(s) ==> CountChanges(s, r, n) <= 2
  {
    if PromotesOnce(r) {
      var i :| 0 <= i < |r.proposals| && AppearsOnce(r.proposals, i);
      var itemId := UnusedName(SeenIn(r.proposals));
      var s := OneMissing(r, itemId, if r.stamp.value > 0 then r.stamp.value else 0);
      assert r.proposals[i].itemId in SeenIn(r.proposals);
      assert 0 in MissingIds(s.findings, r.source, SeenIn(r.proposals));
      LookupHasKey(s.findings, KeyOf(r.source, r.proposals[i].itemId));
      ThreeTimes(s, r, i);
      assert IsFresh(s) && CountChanges(s, r, 3) == 3;
    } else {
      forall s, n: nat | IsFresh(s) ensures CountChanges(s, r, n) <= 2 { TwiceAtMost(s, r, n); }
    }
  }
}
