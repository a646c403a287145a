/**
 Event sourcing: the event log of any run of commands and compactions
 rebuilds the engine's state by replay.
 */
module RuntimeReplay {
  import opened Wrappers
  import opened RuntimeState

  // ---- Runs -------------------------------------------------------------------

  datatype Step = Do(command: Command, now: Time) | Compact

  /** The engine's state with the event log that belongs to it. */
  datatype Logged = Logged(state: State, log: seq<Event>)

  const START := Logged(INITIAL, [])

  function Take(l: Logged, step: Step): Logged {
    match step
    case Do(c, now) =>
      (match Apply(l.state, c, now)
       case Ok(s) => Logged(s, l.log + [EventOf(c)])
       case Err(_) => l)
    case Compact => l.(log := Compacted(l.log, Finished(l.state.dispatch)))
  }

  function RunAll(l: Logged, steps: seq<Step>): Logged {
    if steps == [] then l else Take(RunAll(l, steps[..|steps| - 1]), steps[|steps| - 1])
  }

  /** Replays a log; `clock` gives the time at which each event is replayed. */
  function ReplayLog(s: State, log: seq<Event>, clock: seq<Time>): State
    requires |clock| == |log|
  {
    if log == [] then s
    else
      var last := |log| - 1;
      Replay(ReplayLog(s, log[..last], clock[..last]), log[last], clock[last])
  }

  // ---- Forgetting timestamps --------------------------------------------------

  function Untimed(t: Option<Time>): Option<Time> {
    if t.Some? then Some(0) else None
  }

  function UntimedRecord(r: DispatchRecord): DispatchRecord {
    r.(createdAt := 0, notifiedAt := Untimed(r.notifiedAt), deliveredAt := Untimed(r.deliveredAt),
       failedAt := Untimed(r.failedAt))
  }

  function UntimedMessage(m: MailboxRecord): MailboxRecord {
    m.(createdAt := 0, notifiedAt := Untimed(m.notifiedAt), deliveredAt := Untimed(m.deliveredAt))
  }

  function UntimedDispatch(rs: seq<DispatchRecord>): seq<DispatchRecord> {
    if rs == [] then [] else [UntimedRecord(rs[0])] + UntimedDispatch(rs[1..])
  }

  function UntimedMailbox(ms: seq<MailboxRecord>): seq<MailboxRecord> {
    if ms == [] then [] else [UntimedMessage(ms[0])] + UntimedMailbox(ms[1..])
  }

  function UntimedState(s: State): State {
    s.(dispatch := UntimedDispatch(s.dispatch), mailbox := UntimedMailbox(s.mailbox))
  }

  lemma {:induction false} UntimedDispatchAppend(rs: seq<DispatchRecord>, r: DispatchRecord)
    ensures UntimedDispatch(rs + [r]) == UntimedDispatch(rs) + [UntimedRecord(r)]
  {
    if rs == [] {
    } else {
      UntimedDispatchAppend(rs[1..], r);
      assert (rs + [r])[1..] == rs[1..] + [r];
    }
  }

  lemma {:induction false} UntimedMailboxAppend(ms: seq<MailboxRecord>, m: MailboxRecord)
    ensures UntimedMailbox(ms + [m]) == UntimedMailbox(ms) + [UntimedMessage(m)]
  {
    if ms == [] {
    } else {
      UntimedMailboxAppend(ms[1..], m);
      assert (ms + [m])[1..] == ms[1..] + [m];
    }
  }

  function UntimedDispatchResult(r: Result<seq<DispatchRecord>, Error>): Result<seq<DispatchRecord>, Error> {
    match r case Ok(rs) => Ok(UntimedDispatch(rs)) case Err(e) => Err(e)
  }

  function UntimedMailboxResult(r: Result<seq<MailboxRecord>, Error>): Result<seq<MailboxRecord>, Error> {
    match r case Ok(ms) => Ok(UntimedMailbox(ms)) case Err(e) => Err(e)
  }

  lemma {:induction false} MarkFirstUntimed(rs: seq<DispatchRecord>, id: string, m: Mark, now: Time)
    ensures UntimedDispatchResult(MarkFirst(rs, id, m, now)) == MarkFirst(UntimedDispatch(rs), id, m, 0)
  {
    if rs != [] {
      var u := UntimedDispatch(rs);
      assert u[0] == UntimedRecord(rs[0]) && u[1..] == UntimedDispatch(rs[1..]);
      if rs[0].requestId == id {
        if MayMark(rs[0].status, m) {
          var marked := [MarkRecord(rs[0], m, now)] + rs[1..];
          assert marked[0] == MarkRecord(rs[0], m, now) && marked[1..] == rs[1..];
        }
      } else {
        MarkFirstUntimed(rs[1..], id, m, now);
        match MarkFirst(rs[1..], id, m, now)
        case Ok(rest) => assert ([rs[0]] + rest)[1..] == rest;
        case Err(_) =>
      }
    }
  }

  lemma {:induction false} StampFirstUntimed(ms: seq<MailboxRecord>, id: string, delivered: bool, now: Time)
    ensures UntimedMailboxResult(StampFirst(ms, id, delivered, now)) == StampFirst(UntimedMailbox(ms), id, delivered, 0)
  {
    if ms != [] {
      var u := UntimedMailbox(ms);
      assert u[0] == UntimedMessage(ms[0]) && u[1..] == UntimedMailbox(ms[1..]);
      if ms[0].messageId == id {
        match StampFirst(ms, id, delivered, now)
        case Ok(stamped) => assert stamped[1..] == ms[1..];
        case Err(_) =>
      } else {
        StampFirstUntimed(ms[1..], id, delivered, now);
        match StampFirst(ms[1..], id, delivered, now)
        case Ok(rest) => assert ([ms[0]] + rest)[1..] == rest;
        case Err(_) =>
      }
    }
  }

  function UntimedResult(r: Result<State, Error>): Result<State, Error> {
    match r case Ok(s) => Ok(UntimedState(s)) case Err(e) => Err(e)
  }

  /** No command looks at a timestamp, except for whether there is one. */
  lemma ApplyUntimed(s: State, c: Command, now: Time)
    ensures UntimedResult(Apply(s, c, now)) == Apply(UntimedState(s), c, 0)
  {
    match c
    case QueueDispatch(id, target, metadata) =>
      UntimedDispatchAppend(s.dispatch, NewDispatch(id, target, metadata, now));
    case MarkNotified(id, channel) => MarkFirstUntimed(s.dispatch, id, ToNotified(channel), now);
    case MarkDelivered(id) => MarkFirstUntimed(s.dispatch, id, ToDelivered, now);
    case MarkFailed(id, reason) => MarkFirstUntimed(s.dispatch, id, ToFailed(reason), now);
    case CreateMailboxMessage(id, from, to, body) =>
      UntimedMailboxAppend(s.mailbox, NewMessage(id, from, to, body, now));
    case MarkMailboxNotified(id) => StampFirstUntimed(s.mailbox, id, false, now);
    case MarkMailboxDelivered(id) => StampFirstUntimed(s.mailbox, id, true, now);
    case _ =>
  }

  /** Replaying does not depend on the clock except for the timestamps it writes. */
  lemma ReplayUntimed(s: State, e: Event, now: Time)
    ensures UntimedState(Replay(s, e, now)) == Replay(UntimedState(s), e, 0)
  {
    ApplyUntimed(s, ReplayedAs(e), now);
  }

  /** The timeless replay of a log. */
  function Rebuilt(log: seq<Event>): State {
    if log == [] then INITIAL else Replay(Rebuilt(log[..|log| - 1]), log[|log| - 1], 0)
  }

  lemma {:induction false} ReplayLogUntimed(log: seq<Event>, clock: seq<Time>)
    requires |clock| == |log|
    ensures UntimedState(ReplayLog(INITIAL, log, clock)) == Rebuilt(log)
  {
    if log == [] {
    } else {
      var last := |log| - 1;
      ReplayLogUntimed(log[..last], clock[..last]);
      ReplayUntimed(ReplayLog(INITIAL, log[..last], clock[..last]), log[last], clock[last]);
    }
  }

  // ---- Dropping requests ------------------------------------------------------

  /** The records that do not belong to the given requests. */
  function Without(rs: seq<DispatchRecord>, ids: set<string>): seq<DispatchRecord> {
    if rs == [] then []
    else if rs[0].requestId in ids then Without(rs[1..], ids)
    else [rs[0]] + Without(rs[1..], ids)
  }

  function WithoutState(s: State, ids: set<string>): State {
    s.(dispatch := Without(s.dispatch, ids))
  }

  lemma {:induction false} WithoutAppend(rs: seq<DispatchRecord>, r: DispatchRecord, ids: set<string>)
    ensures Without(rs + [r], ids) == Without(rs, ids) + (if r.requestId in ids then [] else [r])
  {
    if rs == [] {
      assert [r][1..] == [];
    } else {
      assert (rs + [r])[1..] == rs[1..] + [r];
      WithoutAppend(rs[1..], r, ids);
    }
  }

  /** Dropping more requests later is the same as dropping them at once. */
  lemma {:induction false} WithoutMore(rs: seq<DispatchRecord>, few: set<string>, many: set<string>)
    requires few <= many
    ensures Without(Without(rs, few), many) == Without(rs, many)
  {
    if rs == [] {
    } else {
      WithoutMore(rs[1..], few, many);
      if rs[0].requestId !in few {
        var w := [rs[0]] + Without(rs[1..], few);
        assert w[0] == rs[0] && w[1..] == Without(rs[1..], few);
      }
    }
  }

  lemma {:induction false} MarkFirstWithout(rs: seq<DispatchRecord>, id: string, m: Mark, now: Time, ids: set<string>)
    ensures id in ids && MarkFirst(rs, id, m, now).Ok? ==>
      Without(MarkFirst(rs, id, m, now).value, ids) == Without(rs, ids)
    ensures id !in ids && MarkFirst(rs, id, m, now).Ok? ==>
      MarkFirst(Without(rs, ids), id, m, now) == Ok(Without(MarkFirst(rs, id, m, now).value, ids))
    ensures id !in ids && MarkFirst(rs, id, m, now).Err? ==>
      MarkFirst(Without(rs, ids), id, m, now) == MarkFirst(rs, id, m, now)
  {
    if rs == [] {
    } else {
      var w := Without(rs[1..], ids);
      assert ([rs[0]] + w)[1..] == w;
      if rs[0].requestId == id {
        var r := MarkRecord(rs[0], m, now);
        assert ([r] + rs[1..])[0] == r && ([r] + rs[1..])[1..] == rs[1..];
      } else {
        MarkFirstWithout(rs[1..], id, m, now, ids);
        match MarkFirst(rs[1..], id, m, now)
        case Ok(rest) => assert ([rs[0]] + rest)[0] == rs[0] && ([rs[0]] + rest)[1..] == rest;
        case Err(_) =>
      }
    }
  }

  lemma ReplayQueuedKept(s: State, e: Event, now: Time, ids: set<string>)
    requires e.DispatchQueued? && !IsDropped(e, ids) && "" !in ids
    ensures Replay(WithoutState(s, ids), e, now) == WithoutState(Replay(s, e, now), ids)
  {
    WithoutAppend(s.dispatch, NewDispatch(e.requestId, e.target, e.metadata, now), ids);
  }

  lemma ReplayMarkedKept(s: State, e: Event, now: Time, ids: set<string>)
    requires e.DispatchNotified? || e.DispatchDelivered? || e.DispatchFailed?
    requires !IsDropped(e, ids) && "" !in ids
    ensures Replay(WithoutState(s, ids), e, now) == WithoutState(Replay(s, e, now), ids)
  {
    match e
    case DispatchNotified(id, channel) => MarkFirstWithout(s.dispatch, id, ToNotified(channel), now, ids);
    case DispatchDelivered(id) => MarkFirstWithout(s.dispatch, id, ToDelivered, now, ids);
    case DispatchFailed(id, reason) => MarkFirstWithout(s.dispatch, id, ToFailed(reason), now, ids);
  }

  /** Replaying a kept event commutes with dropping requests. */
  lemma ReplayKept(s: State, e: Event, now: Time, ids: set<string>)
    requires "" !in ids && !IsDropped(e, ids)
    ensures Replay(WithoutState(s, ids), e, now) == WithoutState(Replay(s, e, now), ids)
  {
    if e.DispatchQueued? {
      ReplayQueuedKept(s, e, now, ids);
    } else if e.DispatchNotified? || e.DispatchDelivered? || e.DispatchFailed? {
      ReplayMarkedKept(s, e, now, ids);
    }
  }

  /** A dropped event only concerns dropped requests. */
  lemma ReplayDropped(s: State, e: Event, now: Time, ids: set<string>)
    requires IsDropped(e, ids)
    ensures WithoutState(Replay(s, e, now), ids) == WithoutState(s, ids)
  {
    match e
    case DispatchQueued(id, target, metadata) => WithoutAppend(s.dispatch, NewDispatch(id, target, metadata, now), ids);
    case DispatchNotified(id, channel) => MarkFirstWithout(s.dispatch, id, ToNotified(channel), now, ids);
    case DispatchDelivered(id) => MarkFirstWithout(s.dispatch, id, ToDelivered, now, ids);
    case DispatchFailed(id, reason) => MarkFirstWithout(s.dispatch, id, ToFailed(reason), now, ids);
    case _ =>
  }

  lemma {:induction false} CompactedIgnoresEmptyId(log: seq<Event>, ids: set<string>)
    ensures Compacted(log, ids) == Compacted(log, ids - {""})
  {
    if log == [] {
    } else {
      CompactedIgnoresEmptyId(log[..|log| - 1], ids);
    }
  }

  /** Filtering the log by a set of requests commutes with replaying it. */
  lemma {:induction false} CompactionCommutesWithReplay(log: seq<Event>, ids: set<string>)
    requires "" !in ids
    ensures Rebuilt(Compacted(log, ids)) == WithoutState(Rebuilt(log), ids)
  {
    if log == [] {
    } else {
      var front, e := log[..|log| - 1], log[|log| - 1];
      CompactionCommutesWithReplay(front, ids);
      if IsDropped(e, ids) {
        ReplayDropped(Rebuilt(front), e, 0, ids);
      } else {
        ReplayKept(Rebuilt(front), e, 0, ids);
        var kept := Compacted(front, ids);
        assert (kept + [e])[..|kept|] == kept;
      }
    }
  }

  // ---- The invariant of every run ----------------------------------------------

  /** Only the first record of a request id ever leaves `Pending`. */
  ghost predicate FirstsOnly(rs: seq<DispatchRecord>) {
    forall i, j :: 0 <= i < j < |rs| && rs[i].requestId == rs[j].requestId ==> rs[j].status == Pending
  }

  /** A successful mark changes one record, the first with the id. */
  lemma {:induction false} MarkFirstIs(rs: seq<DispatchRecord>, id: string, m: Mark, now: Time) returns (i: nat)
    requires MarkFirst(rs, id, m, now).Ok?
    ensures i < |rs| && rs[i].requestId == id && MayMark(rs[i].status, m)
    ensures forall j :: 0 <= j < i ==> rs[j].requestId != id
    ensures MarkFirst(rs, id, m, now) == Ok(rs[i := MarkRecord(rs[i], m, now)])
  {
    if rs[0].requestId == id {
      i := 0;
      assert rs[0 := MarkRecord(rs[0], m, now)] == [MarkRecord(rs[0], m, now)] + rs[1..];
    } else {
      var k := MarkFirstIs(rs[1..], id, m, now);
      i := k + 1;
      assert rs[i := MarkRecord(rs[i], m, now)] == [rs[0]] + rs[1..][k := MarkRecord(rs[1..][k], m, now)];
    }
  }

  /** A request whose first record is finished takes no mark any more. */
  lemma FinishedTakesNoMark(rs: seq<DispatchRecord>, id: string, m: Mark, now: Time)
    requires FirstsOnly(rs) && id in Finished(rs)
    ensures MarkFirst(rs, id, m, now).Err?
  {
    var k :| 0 <= k < |rs| && rs[k].requestId == id && IsFinished(rs[k]);
    if MarkFirst(rs, id, m, now).Ok? {
      var i := MarkFirstIs(rs, id, m, now);
      assert false;
    }
  }

  lemma MarkKeepsFinished(rs: seq<DispatchRecord>, id: string, m: Mark, now: Time)
    requires FirstsOnly(rs) && MarkFirst(rs, id, m, now).Ok?
    ensures FirstsOnly(MarkFirst(rs, id, m, now).value)
    ensures Finished(rs) <= Finished(MarkFirst(rs, id, m, now).value)
  {
    var i := MarkFirstIs(rs, id, m, now);
    var rs' := MarkFirst(rs, id, m, now).value;
    forall x | x in Finished(rs) ensures x in Finished(rs') {
      var k :| 0 <= k < |rs| && rs[k].requestId == x && IsFinished(rs[k]);
      assert rs'[k] in rs' && IsFinished(rs'[k]) && rs'[k].requestId == x;
    }
  }

  lemma QueueKeepsFinished(rs: seq<DispatchRecord>, r: DispatchRecord)
    requires FirstsOnly(rs) && r.status == Pending
    ensures FirstsOnly(rs + [r]) && Finished(rs + [r]) == Finished(rs)
  {
    forall x | x in Finished(rs) ensures x in Finished(rs + [r]) {
      var q :| q in rs && IsFinished(q) && q.requestId == x;
      assert q in rs + [r];
    }
  }

  /** The non-empty ids with a finished record: what the next compaction drops. */
  function Closed(s: State): set<string> {
    Finished(s.dispatch) - {""}
  }

  /** Replaying the log gives the state, apart from requests that are finished. */
  ghost predicate LogRebuilds(l: Logged) {
    && FirstsOnly(l.state.dispatch)
    && WithoutState(Rebuilt(l.log), Closed(l.state)) == WithoutState(UntimedState(l.state), Closed(l.state))
  }

  /** A command's event, replayed, does to the rebuilt state what the command did. */
  lemma ApplyIsReplay(s: State, c: Command, now: Time)
    requires Apply(s, c, now).Ok?
    ensures Replay(s, EventOf(c), now) == Apply(s, c, now).value
  {
  }

  lemma ApplyKeepsFirsts(s: State, c: Command, now: Time)
    requires FirstsOnly(s.dispatch) && Apply(s, c, now).Ok?
    ensures FirstsOnly(Apply(s, c, now).value.dispatch)
    ensures Closed(s) <= Closed(Apply(s, c, now).value)
  {
    match c
    case QueueDispatch(id, target, metadata) => QueueKeepsFinished(s.dispatch, NewDispatch(id, target, metadata, now));
    case MarkNotified(id, channel) => MarkKeepsFinished(s.dispatch, id, ToNotified(channel), now);
    case MarkDelivered(id) => MarkKeepsFinished(s.dispatch, id, ToDelivered, now);
    case MarkFailed(id, reason) => MarkKeepsFinished(s.dispatch, id, ToFailed(reason), now);
    case _ =>
  }

  /** An event does the same to two states that agree apart from some requests. */
  lemma ReplayAgrees(r: State, s: State, e: Event, ids: set<string>)
    requires "" !in ids && WithoutState(r, ids) == WithoutState(s, ids)
    ensures WithoutState(Replay(r, e, 0), ids) == WithoutState(Replay(s, e, 0), ids)
  {
    if IsDropped(e, ids) {
      ReplayDropped(r, e, 0, ids);
      ReplayDropped(s, e, 0, ids);
    } else {
      ReplayKept(r, e, 0, ids);
      ReplayKept(s, e, 0, ids);
    }
  }

  lemma AgreeOnFewer(r: State, s: State, few: set<string>, many: set<string>)
    requires few <= many && WithoutState(r, few) == WithoutState(s, few)
    ensures WithoutState(r, many) == WithoutState(s, many)
  {
    WithoutMore(r.dispatch, few, many);
    WithoutMore(s.dispatch, few, many);
    assert r == WithoutState(r, few).(dispatch := r.dispatch);
    assert s == WithoutState(s, few).(dispatch := s.dispatch);
  }

  lemma DoKeepsLogRebuilds(l: Logged, c: Command, now: Time)
    requires LogRebuilds(l)
    ensures LogRebuilds(Take(l, Do(c, now)))
  {
    if Apply(l.state, c, now).Ok? {
      var e := EventOf(c);
      var s, s' := l.state, Apply(l.state, c, now).value;
      var log' := l.log + [e];
      assert log'[..|l.log|] == l.log;
      assert Rebuilt(log') == Replay(Rebuilt(l.log), e, 0);
      ApplyKeepsFirsts(s, c, now);
      ApplyIsReplay(s, c, now);
      ReplayUntimed(s, e, now);
      ReplayAgrees(Rebuilt(l.log), UntimedState(s), e, Closed(s));
      AgreeOnFewer(Rebuilt(log'), UntimedState(s'), Closed(s), Closed(s'));
      assert Take(l, Do(c, now)) == Logged(s', log');
    }
  }

  lemma {:induction false} CompactKeepsLogRebuilds(l: Logged)
    requires LogRebuilds(l)
    ensures LogRebuilds(Take(l, Compact))
    ensures Rebuilt(Take(l, Compact).log) == WithoutState(Rebuilt(l.log), Closed(l.state))
  {
    var ids := Closed(l.state);
    CompactedIgnoresEmptyId(l.log, Finished(l.state.dispatch));
    CompactionCommutesWithReplay(l.log, ids);
    WithoutMore(Rebuilt(l.log).dispatch, ids, ids);
  }

  lemma {:induction false} EveryRunRebuilds(steps: seq<Step>)
    ensures LogRebuilds(RunAll(START, steps))
  {
    if steps == [] {
    } else {
      var last := |steps| - 1;
      EveryRunRebuilds(steps[..last]);
      match steps[last]
      case Do(c, now) => DoKeepsLogRebuilds(RunAll(START, steps[..last]), c, now);
      case Compact => CompactKeepsLogRebuilds(RunAll(START, steps[..last]));
    }
  }

  // ---- What replay gives back ---------------------------------------------------

  lemma {:induction false} UntimedWithout(rs: seq<DispatchRecord>, ids: set<string>)
    ensures UntimedDispatch(Without(rs, ids)) == Without(UntimedDispatch(rs), ids)
  {
    if rs == [] {
    } else {
      UntimedWithout(rs[1..], ids);
      var u := UntimedDispatch(rs);
      assert u[0] == UntimedRecord(rs[0]) && u[1..] == UntimedDispatch(rs[1..]);
      var w := [rs[0]] + Without(rs[1..], ids);
      assert w[1..] == Without(rs[1..], ids);
    }
  }

  /**
   After any run of commands and compactions, replaying the log that is left,
   at whatever times, gives back the lease, the cursor and the mailbox, and in
   order every dispatch record whose id is empty or has no delivered or failed
   record; only timestamps differ.
   */
  lemma {:induction false} ReplayRestoresState(steps: seq<Step>, clock: seq<Time>)
    requires |clock| == |RunAll(START, steps).log|
    ensures var l := RunAll(START, steps);
      var r := ReplayLog(INITIAL, l.log, clock);
      && r.authority == l.state.authority
      && r.cursor == l.state.cursor
      && r.deferredLeaderNotification == l.state.deferredLeaderNotification
      && UntimedMailbox(r.mailbox) == UntimedMailbox(l.state.mailbox)
      && UntimedDispatch(Without(r.dispatch, Closed(l.state)))
           == UntimedDispatch(Without(l.state.dispatch, Closed(l.state)))
  {
    var l := RunAll(START, steps);
    var r := ReplayLog(INITIAL, l.log, clock);
    EveryRunRebuilds(steps);
    ReplayLogUntimed(l.log, clock);
    UntimedWithout(r.dispatch, Closed(l.state));
    UntimedWithout(l.state.dispatch, Closed(l.state));
  }

  /** Without compactions replay gives back every record. */
  lemma {:induction false} ReplayRestoresAll(steps: seq<Step>)
    requires Compact !in steps
    ensures Rebuilt(RunAll(START, steps).log) == UntimedState(RunAll(START, steps).state)
  {
    if steps == [] {
    } else {
      var last := |steps| - 1;
      var l := RunAll(START, steps[..last]);
      ReplayRestoresAll(steps[..last]);
      var Do(c, now) := steps[last];
      if Apply(l.state, c, now).Ok? {
        assert (l.log + [EventOf(c)])[..|l.log|] == l.log;
        ApplyIsReplay(l.state, c, now);
        ReplayUntimed(l.state, EventOf(c), now);
      }
    }
  }
}
