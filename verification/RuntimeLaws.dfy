/** What commands do to the lease, the requests and the mailbox, told over whole runs and on the records themselves. */
module RuntimeLaws {
  import opened Wrappers
  import opened RuntimeState
  import opened RuntimeReplay
  import opened RuntimeDirectory

  // ---- The lease ------------------------------------------------------------------

  /** A command that asks for the lease. */
  predicate IsForLease(c: Command) {
    c.AcquireAuthority? || c.RenewAuthority?
  }

  /**
   With an owner exactly the owner's acquisitions and renewals succeed, without
   one every acquisition and no renewal; what succeeds becomes the lease.
   */
  lemma LeaseExactly(s: State, c: Command, now: Time)
    requires IsForLease(c)
    ensures Apply(s, c, now).Ok? <==>
      if s.authority.owner.Some? then s.authority.owner.value == c.owner else c.AcquireAuthority?
    ensures Apply(s, c, now).Ok? ==>
      Apply(s, c, now).value
        == s.(authority := Lease(Some(c.owner), Some(c.leaseId), Some(c.leasedUntil), false, None))
    ensures Apply(s, c, now).Err? ==>
      Apply(s, c, now).error ==
        if s.authority.owner.None? then NoLease
        else if c.AcquireAuthority? then LeaseHeld(s.authority.owner.value)
        else OwnerMismatch(s.authority.owner.value)
  {
  }

  /** No other command touches the lease. */
  lemma OthersKeepLease(s: State, c: Command, now: Time)
    requires !IsForLease(c) && Apply(s, c, now).Ok?
    ensures Apply(s, c, now).value.authority == s.authority
  {
  }

  predicate IsAcquisition(step: Step) {
    step.Do? && step.command.AcquireAuthority?
  }

  /** The run's first acquisition. */
  predicate IsFirstAcquisition(steps: seq<Step>, i: nat)
    requires i < |steps|
  {
    IsAcquisition(steps[i]) && forall j :: 0 <= j < i ==> !IsAcquisition(steps[j])
  }

  /** The owner, once there is one, is that of the run's first acquisition, for ever. */
  lemma {:induction false} OwnerIsFirst(steps: seq<Step>)
    ensures var owner := RunAll(START, steps).state.authority.owner;
      && (owner.None? <==> forall i :: 0 <= i < |steps| ==> !IsAcquisition(steps[i]))
      && (forall i :: 0 <= i < |steps| && IsFirstAcquisition(steps, i) ==> owner == Some(steps[i].command.owner))
  {
    if steps != [] {
      var front, step := steps[..|steps| - 1], steps[|steps| - 1];
      var s := RunAll(START, front).state;
      OwnerIsFirst(front);
      assert forall i :: 0 <= i < |front| ==> front[i] == steps[i];
      assert forall i :: 0 <= i < |front| ==> (IsFirstAcquisition(steps, i) <==> IsFirstAcquisition(front, i));
      if step.Do? {
        if IsForLease(step.command) {
          LeaseExactly(s, step.command, step.now);
        } else if Apply(s, step.command, step.now).Ok? {
          OthersKeepLease(s, step.command, step.now);
        }
      }
      if s.authority.owner.Some? {
        var i := FirstAcquisition(front);
        assert IsFirstAcquisition(steps, i);
      }
    }
  }

  lemma {:induction false} FirstAcquisition(steps: seq<Step>) returns (i: nat)
    requires exists k :: 0 <= k < |steps| && IsAcquisition(steps[k])
    ensures i < |steps| && IsFirstAcquisition(steps, i)
  {
    var front := steps[..|steps| - 1];
    if k :| 0 <= k < |front| && IsAcquisition(front[k]) {
      i := FirstAcquisition(front);
      assert forall j :: 0 <= j < |front| ==> front[j] == steps[j];
    } else {
      i := |steps| - 1;
      assert forall j :: 0 <= j < i ==> front[j] == steps[j];
    }
  }

  /** The step asks for the lease and is not refused. */
  predicate TakesLease(steps: seq<Step>, i: nat)
    requires i < |steps|
  {
    && steps[i].Do? && IsForLease(steps[i].command)
    && Apply(RunAll(START, steps[..i]).state, steps[i].command, steps[i].now).Ok?
  }

  /** No later step does. */
  predicate TakesLeaseLast(steps: seq<Step>, i: nat)
    requires i < |steps|
  {
    TakesLease(steps, i) && forall j :: i < j < |steps| ==> !TakesLease(steps, j)
  }

  function LeaseFor(c: Command): Lease
    requires IsForLease(c)
  {
    Lease(Some(c.owner), Some(c.leaseId), Some(c.leasedUntil), false, None)
  }

  lemma StepLeases(l: Logged, step: Step)
    ensures Take(l, step).state.authority ==
      if step.Do? && IsForLease(step.command) && Apply(l.state, step.command, step.now).Ok? then LeaseFor(step.command)
      else l.state.authority
  {
    if step.Do? && Apply(l.state, step.command, step.now).Ok? {
      if IsForLease(step.command) {
        LeaseExactly(l.state, step.command, step.now);
      } else {
        OthersKeepLease(l.state, step.command, step.now);
      }
    }
  }

  lemma TakesBefore(steps: seq<Step>, i: nat)
    requires i < |steps| - 1
    ensures TakesLease(steps[..|steps| - 1], i) <==> TakesLease(steps, i)
  {
    assert steps[..|steps| - 1][..i] == steps[..i];
  }

  /** Lease id and deadline are those of the last acquisition or renewal that was not refused. */
  lemma {:induction false} LeaseIsLast(steps: seq<Step>, i: nat)
    requires i < |steps| && TakesLeaseLast(steps, i)
    ensures RunAll(START, steps).state.authority == LeaseFor(steps[i].command)
  {
    var last := |steps| - 1;
    var front := steps[..last];
    StepLeases(RunAll(START, front), steps[last]);
    if i < last {
      TakesBefore(steps, i);
      forall j | i < j < last ensures !TakesLease(front, j) { TakesBefore(steps, j); }
      LeaseIsLast(front, i);
      assert !TakesLease(steps, last);
    }
  }

  /** Without one there is no lease. */
  lemma {:induction false} NoLeaseYet(steps: seq<Step>)
    requires forall i :: 0 <= i < |steps| ==> !TakesLease(steps, i)
    ensures RunAll(START, steps).state.authority == NO_LEASE
  {
    if steps != [] {
      var last := |steps| - 1;
      StepLeases(RunAll(START, steps[..last]), steps[last]);
      forall i | 0 <= i < last ensures !TakesLease(steps[..last], i) { TakesBefore(steps, i); }
      NoLeaseYet(steps[..last]);
      assert !TakesLease(steps, last);
    }
  }

  // ---- Requests -------------------------------------------------------------------------

  /** `i` is the first record with the id. */
  predicate IsFirstRecord(rs: seq<DispatchRecord>, id: string, i: nat) {
    i < |rs| && rs[i].requestId == id && forall j :: 0 <= j < i ==> rs[j].requestId != id
  }

  lemma {:induction false} FirstRecordMarked(rs: seq<DispatchRecord>, id: string, i: nat, m: Mark, now: Time)
    requires IsFirstRecord(rs, id, i)
    ensures MarkFirst(rs, id, m, now) ==
      if MayMark(rs[i].status, m) then Ok(rs[i := MarkRecord(rs[i], m, now)])
      else Err(InvalidTransition(id, rs[i].status, Target(m)))
  {
    if i > 0 {
      FirstRecordMarked(rs[1..], id, i - 1, m, now);
      if MayMark(rs[i].status, m) {
        assert rs[i := MarkRecord(rs[i], m, now)] == [rs[0]] + rs[1..][i - 1 := MarkRecord(rs[i], m, now)];
      }
    } else if MayMark(rs[0].status, m) {
      assert rs[0 := MarkRecord(rs[0], m, now)] == [MarkRecord(rs[0], m, now)] + rs[1..];
    }
  }

  /** A notification moves the first record with the id, from pending only. */
  lemma NotifiedExactly(s: State, id: string, channel: string, now: Time, i: nat)
    requires IsFirstRecord(s.dispatch, id, i)
    ensures var r := s.dispatch[i];
      Apply(s, MarkNotified(id, channel), now) ==
        if r.status == Pending then
          Ok(s.(dispatch :=
            s.dispatch[i := r.(status := Notified, notifiedAt := Some(now), reason := Some(channel))]))
        else Err(InvalidTransition(id, r.status, Notified))
  {
    FirstRecordMarked(s.dispatch, id, i, ToNotified(channel), now);
  }

  /** A delivery moves it from notified only. */
  lemma DeliveredExactly(s: State, id: string, now: Time, i: nat)
    requires IsFirstRecord(s.dispatch, id, i)
    ensures var r := s.dispatch[i];
      Apply(s, MarkDelivered(id), now) ==
        if r.status == Notified then
          Ok(s.(dispatch := s.dispatch[i := r.(status := Delivered, deliveredAt := Some(now))]))
        else Err(InvalidTransition(id, r.status, Delivered))
  {
    FirstRecordMarked(s.dispatch, id, i, ToDelivered, now);
  }

  /** A failure moves it from pending or notified. */
  lemma FailedExactly(s: State, id: string, reason: string, now: Time, i: nat)
    requires IsFirstRecord(s.dispatch, id, i)
    ensures var r := s.dispatch[i];
      Apply(s, MarkFailed(id, reason), now) ==
        if r.status == Pending || r.status == Notified then
          Ok(s.(dispatch := s.dispatch[i := r.(status := Failed, failedAt := Some(now), reason := Some(reason))]))
        else Err(InvalidTransition(id, r.status, Failed))
  {
    FirstRecordMarked(s.dispatch, id, i, ToFailed(reason), now);
  }

  lemma {:induction false} UnknownRequest(rs: seq<DispatchRecord>, id: string, m: Mark, now: Time)
    requires forall i :: 0 <= i < |rs| ==> rs[i].requestId != id
    ensures MarkFirst(rs, id, m, now) == Err(DispatchNotFound(id))
  {
    if rs != [] { UnknownRequest(rs[1..], id, m, now); }
  }

  /** An unknown request takes no mark. */
  lemma UnknownExactly(s: State, id: string, text: string, now: Time)
    ensures var unknown := Err(DispatchNotFound(id));
      (forall r :: r in s.dispatch ==> r.requestId != id) <==>
        && Apply(s, MarkNotified(id, text), now) == unknown && Apply(s, MarkDelivered(id), now) == unknown
        && Apply(s, MarkFailed(id, text), now) == unknown
  {
    if forall r :: r in s.dispatch ==> r.requestId != id {
      UnknownRequest(s.dispatch, id, ToNotified(text), now);
      UnknownRequest(s.dispatch, id, ToDelivered, now);
      UnknownRequest(s.dispatch, id, ToFailed(text), now);
    } else {
      var i := FirstRecord(s.dispatch, id);
      NotifiedExactly(s, id, text, now, i);
    }
  }

  lemma {:induction false} FirstRecord(rs: seq<DispatchRecord>, id: string) returns (i: nat)
    requires exists r :: r in rs && r.requestId == id
    ensures IsFirstRecord(rs, id, i)
  {
    if rs[0].requestId == id {
      i := 0;
    } else {
      i := FirstRecord(rs[1..], id);
      i := i + 1;
      assert forall j :: 0 < j < |rs| ==> rs[j] == rs[1..][j - 1];
    }
  }

  /** The stamps of a record say how far it came. */
  predicate IsStamped(r: DispatchRecord) {
    && (r.status == Delivered <==> r.deliveredAt.Some?)
    && (r.status == Failed <==> r.failedAt.Some?)
    && (r.status == Pending ==> r.notifiedAt.None? && r.reason.None?)
    && (r.status == Notified || r.status == Delivered ==> r.notifiedAt.Some?)
    && (r.status != Pending ==> r.reason.Some?)
  }

  lemma MarkedIsStamped(r: DispatchRecord, m: Mark, now: Time)
    requires IsStamped(r) && MayMark(r.status, m)
    ensures IsStamped(MarkRecord(r, m, now))
  {
  }

  /** What was queued, request by request; only this stays of a record for ever. */
  datatype Request = Request(id: string, target: string, metadata: Option<string>, queuedAt: Time)

  function RequestsOf(rs: seq<DispatchRecord>): seq<Request> {
    seq(|rs|, i requires 0 <= i < |rs| =>
      Request(rs[i].requestId, rs[i].target, rs[i].metadata, rs[i].createdAt))
  }

  /** The requests that a run queues, in order. */
  function QueuedBy(steps: seq<Step>): seq<Request> {
    if steps == [] then []
    else
      var step := steps[|steps| - 1];
      QueuedBy(steps[..|steps| - 1])
      + if step.Do? && step.command.QueueDispatch?
        then [Request(step.command.requestId, step.command.target, step.command.metadata, step.now)] else []
  }

  lemma StepKeepsRequests(s: State, c: Command, now: Time)
    requires Apply(s, c, now).Ok? && forall r :: r in s.dispatch ==> IsStamped(r)
    ensures var rs := Apply(s, c, now).value.dispatch;
      && (forall r :: r in rs ==> IsStamped(r))
      && RequestsOf(rs) == RequestsOf(s.dispatch)
         + if c.QueueDispatch? then [Request(c.requestId, c.target, c.metadata, now)] else []
  {
    var rs := Apply(s, c, now).value.dispatch;
    if c.MarkNotified? || c.MarkDelivered? || c.MarkFailed? {
      var m := if c.MarkNotified? then ToNotified(c.channel)
               else if c.MarkDelivered? then ToDelivered else ToFailed(c.reason);
      var i := MarkFirstIs(s.dispatch, c.requestId, m, now);
      MarkedIsStamped(s.dispatch[i], m, now);
      assert rs == s.dispatch[i := MarkRecord(s.dispatch[i], m, now)];
    }
  }

  /**
   Over every run the records are the requests that were queued, in that
   order, each once, and their stamps agree with how far they came.
   */
  lemma {:induction false} RequestsAreKept(steps: seq<Step>)
    ensures var rs := RunAll(START, steps).state.dispatch;
      RequestsOf(rs) == QueuedBy(steps) && forall r :: r in rs ==> IsStamped(r)
  {
    if steps == [] {
    } else {
      var front, step := steps[..|steps| - 1], steps[|steps| - 1];
      RequestsAreKept(front);
      if step.Do? && Apply(RunAll(START, front).state, step.command, step.now).Ok? {
        StepKeepsRequests(RunAll(START, front).state, step.command, step.now);
      }
    }
  }

  // ---- Messages -------------------------------------------------------------------------------

  predicate IsFirstMessage(ms: seq<MailboxRecord>, id: string, i: nat) {
    i < |ms| && ms[i].messageId == id && forall j :: 0 <= j < i ==> ms[j].messageId != id
  }

  lemma {:induction false} FirstMessageStamped(ms: seq<MailboxRecord>, id: string, i: nat, delivered: bool, now: Time)
    requires IsFirstMessage(ms, id, i)
    ensures StampFirst(ms, id, delivered, now) ==
      if ms[i].deliveredAt.Some? then Err(AlreadyDelivered(id))
      else Ok(ms[i := if delivered then ms[i].(deliveredAt := Some(now)) else ms[i].(notifiedAt := Some(now))])
  {
    var m := if delivered then ms[i].(deliveredAt := Some(now)) else ms[i].(notifiedAt := Some(now));
    if i > 0 {
      FirstMessageStamped(ms[1..], id, i - 1, delivered, now);
      assert ms[i := m] == [ms[0]] + ms[1..][i - 1 := m];
    } else {
      assert ms[0 := m] == [m] + ms[1..];
    }
  }

  /** A message can be notified any number of times until it is delivered, and be delivered once. */
  lemma MessagesExactly(s: State, id: string, now: Time, i: nat)
    requires IsFirstMessage(s.mailbox, id, i)
    ensures var m := s.mailbox[i];
      if m.deliveredAt.Some? then
        && Apply(s, MarkMailboxNotified(id), now) == Err(AlreadyDelivered(id))
        && Apply(s, MarkMailboxDelivered(id), now) == Err(AlreadyDelivered(id))
      else
        && Apply(s, MarkMailboxNotified(id), now) == Ok(s.(mailbox := s.mailbox[i := m.(notifiedAt := Some(now))]))
        && Apply(s, MarkMailboxDelivered(id), now) == Ok(s.(mailbox := s.mailbox[i := m.(deliveredAt := Some(now))]))
  {
    FirstMessageStamped(s.mailbox, id, i, false, now);
    FirstMessageStamped(s.mailbox, id, i, true, now);
  }

  /** What was written in a message. */
  datatype Letter = Letter(id: string, from: string, to: string, body: string, writtenAt: Time)

  function LettersOf(ms: seq<MailboxRecord>): seq<Letter> {
    seq(|ms|, i requires 0 <= i < |ms| =>
      Letter(ms[i].messageId, ms[i].fromWorker, ms[i].toWorker, ms[i].body, ms[i].createdAt))
  }

  function WrittenBy(steps: seq<Step>): seq<Letter> {
    if steps == [] then []
    else
      var step := steps[|steps| - 1];
      WrittenBy(steps[..|steps| - 1])
      + if step.Do? && step.command.CreateMailboxMessage?
        then [Letter(step.command.messageId, step.command.fromWorker, step.command.toWorker, step.command.body,
                     step.now)]
        else []
  }

  lemma {:induction false} StampedIs(ms: seq<MailboxRecord>, id: string, delivered: bool, now: Time)
    requires StampFirst(ms, id, delivered, now).Ok?
    ensures LettersOf(StampFirst(ms, id, delivered, now).value) == LettersOf(ms)
  {
    if ms[0].messageId != id { StampedIs(ms[1..], id, delivered, now); }
    var stamped := StampFirst(ms, id, delivered, now).value;
    assert ms == [ms[0]] + ms[1..] && stamped == [stamped[0]] + stamped[1..];
    forall i | 0 <= i < |ms| ensures i < |stamped| && LettersOf(stamped)[i] == LettersOf(ms)[i] {
      if i > 0 && ms[0].messageId != id {
        assert LettersOf(stamped[1..])[i - 1] == LettersOf(ms[1..])[i - 1];
      }
    }
    assert |LettersOf(stamped[1..])| == |stamped| - 1 && |LettersOf(ms[1..])| == |ms| - 1;
  }

  // ---- The rest of the state ------------------------------------------------------------------

  /** The cursor that a run asks for last. */
  function LastCursor(steps: seq<Step>): Option<string> {
    if steps == [] then None
    else
      var step := steps[|steps| - 1];
      if step.Do? && step.command.RequestReplay? then step.command.cursor else LastCursor(steps[..|steps| - 1])
  }

  lemma StepKeepsLetters(s: State, c: Command, now: Time)
    requires Apply(s, c, now).Ok?
    ensures LettersOf(Apply(s, c, now).value.mailbox) == LettersOf(s.mailbox)
      + if c.CreateMailboxMessage? then [Letter(c.messageId, c.fromWorker, c.toWorker, c.body, now)] else []
  {
    match c
    case MarkMailboxNotified(id) => StampedIs(s.mailbox, id, false, now);
    case MarkMailboxDelivered(id) => StampedIs(s.mailbox, id, true, now);
    case _ =>
  }

  lemma StepMovesCursor(s: State, c: Command, now: Time)
    requires Apply(s, c, now).Ok?
    ensures Apply(s, c, now).value.cursor == if c.RequestReplay? then c.cursor else s.cursor
    ensures Apply(s, c, now).value.deferredLeaderNotification == s.deferredLeaderNotification
  {
  }

  lemma AlwaysTaken(s: State, c: Command, now: Time)
    requires c.QueueDispatch? || c.CreateMailboxMessage? || c.RequestReplay? || c.CaptureSnapshot?
    ensures Apply(s, c, now).Ok?
  {
  }

  /** Over every run the mailbox holds what was written, in order, and the cursor is the last one asked for. */
  lemma {:induction false} MessagesAreKept(steps: seq<Step>)
    ensures var s := RunAll(START, steps).state;
      LettersOf(s.mailbox) == WrittenBy(steps) && s.cursor == LastCursor(steps) && !s.deferredLeaderNotification
  {
    if steps == [] {
    } else {
      var front, step := steps[..|steps| - 1], steps[|steps| - 1];
      var s := RunAll(START, front).state;
      MessagesAreKept(front);
      if step.Do? && Apply(s, step.command, step.now).Ok? {
        StepKeepsLetters(s, step.command, step.now);
        StepMovesCursor(s, step.command, step.now);
      }
    }
  }

  // ---- Views ---------------------------------------------------------------------------------------

  /** Where the records with a status stand. */
  function PlacesOf(rs: seq<DispatchRecord>, status: Status): set<nat> {
    set i | 0 <= i < |rs| && rs[i].status == status
  }

  lemma PlacesOfMore(rs: seq<DispatchRecord>, status: Status)
    requires rs != []
    ensures PlacesOf(rs, status) ==
      PlacesOf(rs[..|rs| - 1], status) + if rs[|rs| - 1].status == status then {|rs| - 1} else {}
    ensures |rs| - 1 !in PlacesOf(rs[..|rs| - 1], status)
  {
  }

  lemma {:induction false} CountIs(rs: seq<DispatchRecord>, status: Status)
    ensures CountStatus(rs, status) == |PlacesOf(rs, status)|
  {
    if rs == [] {
    } else {
      CountIs(rs[..|rs| - 1], status);
      PlacesOfMore(rs, status);
    }
  }

  /** The backlog has, for every status, the number of records with it. */
  lemma BacklogExactly(rs: seq<DispatchRecord>)
    ensures var b := BacklogOf(rs);
      && b.pending == |PlacesOf(rs, Pending)| && b.notified == |PlacesOf(rs, Notified)|
      && b.delivered == |PlacesOf(rs, Delivered)| && b.failed == |PlacesOf(rs, Failed)|
  {
    CountIs(rs, Pending);
    CountIs(rs, Notified);
    CountIs(rs, Delivered);
    CountIs(rs, Failed);
  }

  /** Over every run the engine is ready exactly when the lease was acquired, and otherwise says that it was not. */
  lemma ReadyExactly(steps: seq<Step>)
    ensures ReadinessOf(RunAll(START, steps).state.authority) ==
      if exists i :: 0 <= i < |steps| && IsAcquisition(steps[i]) then Readiness(true, [])
      else Readiness(false, ["authority lease not acquired"])
  {
    OwnerIsFirst(steps);
    NeverStale(steps);
  }

  lemma {:induction false} NeverStale(steps: seq<Step>)
    ensures !RunAll(START, steps).state.authority.stale
  {
    if steps != [] {
      var front, step := steps[..|steps| - 1], steps[|steps| - 1];
      NeverStale(front);
      if step.Do? && IsForLease(step.command) { LeaseExactly(RunAll(START, front).state, step.command, step.now); }
    }
  }

  // ---- Compaction --------------------------------------------------------------------------------

  /** The event is about a request with an id that was delivered or has failed. */
  predicate IsOfFinished(e: Event, rs: seq<DispatchRecord>) {
    && (e.DispatchQueued? || e.DispatchNotified? || e.DispatchDelivered? || e.DispatchFailed?)
    && e.requestId != ""
    && exists r :: r in rs && r.requestId == e.requestId && (r.status == Delivered || r.status == Failed)
  }

  /** A compaction drops exactly the events of finished requests, and keeps the order of the others. */
  lemma {:induction false} CompactsExactly(log: seq<Event>, rs: seq<DispatchRecord>)
    ensures Compacted(log, Finished(rs)) == Others(log, rs)
  {
    if log == [] {
    } else {
      CompactsExactly(log[..|log| - 1], rs);
      FinishedIs(log[|log| - 1], rs);
    }
  }

  function Others(log: seq<Event>, rs: seq<DispatchRecord>): seq<Event> {
    if log == [] then []
    else Others(log[..|log| - 1], rs) + if IsOfFinished(log[|log| - 1], rs) then [] else [log[|log| - 1]]
  }

  lemma FinishedIs(e: Event, rs: seq<DispatchRecord>)
    ensures IsDropped(e, Finished(rs)) <==> IsOfFinished(e, rs)
  {
  }
}
