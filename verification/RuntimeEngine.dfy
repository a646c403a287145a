/**
 The runtime engine: the state in fields that the commands update in place,
 the events they emit, and the flags that say which files are out of date.
 */
module RuntimeEngine {
  import opened Wrappers
  import opened RuntimeState
  import opened RuntimeReplay
  import opened RuntimeDirectory
  import opened JsonArrayText
  import opened JsonArrayAppend

  /** One flag per file of the state directory. */
  datatype Dirty = Dirty(
    snapshot: bool,
    events: bool,
    authority: bool,
    backlog: bool,
    replay: bool,
    readiness: bool,
    dispatch: bool,
    mailbox: bool)

  const CLEAN := Dirty(false, false, false, false, false, false, false, false)

  /** From `s` to `s'` a flag was raised for every file whose source changed, and none was lowered. */
  ghost predicate FlagsCover(s: State, s': State, d: Dirty, d': Dirty) {
    && (!d'.snapshot ==> !d.snapshot && s == s'.(mailbox := s.mailbox))
    && (!d'.authority || !d'.readiness ==> s.authority == s'.authority)
    && (!d'.authority ==> !d.authority)
    && (!d'.readiness ==> !d.readiness)
    && (!d'.backlog || !d'.dispatch ==> s.dispatch == s'.dispatch)
    && (!d'.backlog ==> !d.backlog)
    && (!d'.dispatch ==> !d.dispatch)
    && (!d'.replay ==> !d.replay && s.cursor == s'.cursor
                       && s.deferredLeaderNotification == s'.deferredLeaderNotification)
    && (!d'.mailbox ==> !d.mailbox && s.mailbox == s'.mailbox)
  }

  /** Every file that exists and is not flagged shows the state. */
  ghost predicate Current(image: Image, s: State, dirty: Dirty) {
    && (image.snapshot.Some? && !dirty.snapshot ==> image.snapshot.value == SnapshotOf(s))
    && (image.authority.Some? && !dirty.authority ==> image.authority.value == s.authority)
    && (image.backlog.Some? && !dirty.backlog ==> image.backlog.value == BacklogOf(s.dispatch))
    && (image.readiness.Some? && !dirty.readiness ==> image.readiness.value == ReadinessOf(s.authority))
    && (image.replay.Some? && !dirty.replay ==>
          image.replay.value == ReplayView(s.cursor, s.deferredLeaderNotification))
    && (image.dispatch.Some? && !dirty.dispatch ==> image.dispatch.value == s.dispatch)
    && (image.mailbox.Some? && !dirty.mailbox ==> image.mailbox.value == s.mailbox)
  }

  /** A command that flags what it changes keeps unflagged files current. */
  lemma FlagsKeepCurrent(image: Image, s: State, s': State, d: Dirty, d': Dirty)
    requires FlagsCover(s, s', d, d') && Current(image, s, d)
    ensures Current(image, s', d')
  {
  }

  /** A file that exists and is not flagged is left alone. */
  function WriteIfDirty<T>(file: Option<T>, dirty: bool, value: T): Option<T> {
    if !dirty && file.Some? then file else Some(value)
  }

  /** The seven files besides the event log after they were written where flagged or missing. */
  ghost predicate Written(before: Image, s: State, dirty: Dirty, after: Image) {
    && after.snapshot == WriteIfDirty(before.snapshot, dirty.snapshot, SnapshotOf(s))
    && after.authority == WriteIfDirty(before.authority, dirty.authority, s.authority)
    && after.backlog == WriteIfDirty(before.backlog, dirty.backlog, BacklogOf(s.dispatch))
    && after.readiness == WriteIfDirty(before.readiness, dirty.readiness, ReadinessOf(s.authority))
    && after.replay == WriteIfDirty(before.replay, dirty.replay, ReplayView(s.cursor, s.deferredLeaderNotification))
    && after.dispatch == WriteIfDirty(before.dispatch, dirty.dispatch, s.dispatch)
    && after.mailbox == WriteIfDirty(before.mailbox, dirty.mailbox, s.mailbox)
  }

  /** Lazy writing is as good as writing everything, as long as unflagged files are current. */
  lemma WrittenShows(codec: Codec, before: Image, l: Logged, dirty: Dirty, after: Image)
    requires Current(before, l.state, dirty) && Written(before, l.state, dirty, after)
    requires after.events.Some? && LogOf(codec, after.events) == Some(l.log)
    ensures Shows(codec, after, l)
  {
  }

  /** The first record with the id: where it is and what marking it gives. */
  lemma {:induction false} MarkFirstAt(rs: seq<DispatchRecord>, i: nat, id: string, m: Mark, now: Time)
    requires i <= |rs| && (forall j :: 0 <= j < i ==> rs[j].requestId != id)
    requires i < |rs| ==> rs[i].requestId == id
    ensures MarkFirst(rs, id, m, now) ==
      if i == |rs| then Err(DispatchNotFound(id))
      else if MayMark(rs[i].status, m) then Ok(rs[i := MarkRecord(rs[i], m, now)])
      else Err(InvalidTransition(id, rs[i].status, Target(m)))
  {
    if rs == [] {
    } else if i == 0 {
      assert rs[0 := MarkRecord(rs[0], m, now)] == [MarkRecord(rs[0], m, now)] + rs[1..];
    } else {
      MarkFirstAt(rs[1..], i - 1, id, m, now);
      if i < |rs| {
        var r := MarkRecord(rs[i], m, now);
        assert rs[i := r] == [rs[0]] + rs[1..][i - 1 := r];
      }
    }
  }

  lemma {:induction false} StampFirstAt(ms: seq<MailboxRecord>, i: nat, id: string, delivered: bool, now: Time)
    requires i <= |ms| && (forall j :: 0 <= j < i ==> ms[j].messageId != id)
    requires i < |ms| ==> ms[i].messageId == id
    ensures StampFirst(ms, id, delivered, now) ==
      if i == |ms| then Err(MailboxNotFound(id))
      else if ms[i].deliveredAt.Some? then Err(AlreadyDelivered(id))
      else if delivered then Ok(ms[i := ms[i].(deliveredAt := Some(now))])
      else Ok(ms[i := ms[i].(notifiedAt := Some(now))])
  {
    if ms == [] {
    } else if i == 0 {
      var d, n := ms[0].(deliveredAt := Some(now)), ms[0].(notifiedAt := Some(now));
      assert ms[0 := d] == [d] + ms[1..] && ms[0 := n] == [n] + ms[1..];
    } else {
      StampFirstAt(ms[1..], i - 1, id, delivered, now);
      if i < |ms| {
        var d, n := ms[i].(deliveredAt := Some(now)), ms[i].(notifiedAt := Some(now));
        assert ms[i := d] == [ms[0]] + ms[1..][i - 1 := d] && ms[i := n] == [ms[0]] + ms[1..][i - 1 := n];
      }
    }
  }

  class RuntimeEngine {
    var authority: Lease
    var dispatch: seq<DispatchRecord>
    var mailbox: seq<MailboxRecord>
    var cursor: Option<string>
    var deferredLeaderNotification: bool
    var eventLog: seq<Event>
    var pendingEvents: seq<Event>
    var eventLogLoaded: bool
    var dirty: Dirty

    constructor ()
      ensures Contents() == INITIAL && eventLog == [] && pendingEvents == []
      ensures !eventLogLoaded && dirty == CLEAN
    {
      authority, dispatch, mailbox, cursor := NO_LEASE, [], [], None;
      deferredLeaderNotification := false;
      eventLog, pendingEvents, eventLogLoaded, dirty := [], [], false, CLEAN;
    }

    ghost function Contents(): State
      reads this`authority, this`dispatch, this`mailbox, this`cursor, this`deferredLeaderNotification
    {
      State(authority, dispatch, mailbox, cursor, deferredLeaderNotification)
    }

    /** Without the log in memory, a raised events flag comes with events to write. */
    ghost predicate Valid()
      reads this`dirty, this`eventLogLoaded, this`pendingEvents
    {
      && (dirty.events && !eventLogLoaded ==> pendingEvents != [])
      && (pendingEvents != [] ==> dirty.events)
    }

    ghost predicate CleanFilesCurrent(d: StateDirectory)
      reads this`authority, this`dispatch, this`mailbox, this`cursor, this`deferredLeaderNotification, this`dirty, d
    {
      Current(d.Files(), Contents(), dirty)
    }

    // ---- Commands ----------------------------------------------------------

    method Acquire(owner: string, leaseId: string, leasedUntil: string) returns (error: Option<Error>)
      modifies this`authority
      ensures RuntimeState.Acquire(old(authority), owner, leaseId, leasedUntil)
           == if error.Some? then Err(error.value) else Ok(authority)
      ensures error.Some? ==> authority == old(authority)
    {
      if authority.owner.Some? && authority.owner.value != owner {
        return Some(LeaseHeld(authority.owner.value));
      }
      authority := authority.(owner := Some(owner), leaseId := Some(leaseId), leasedUntil := Some(leasedUntil));
      authority := authority.(stale := false, staleReason := None);
      return None;
    }

    method Renew(owner: string, leaseId: string, leasedUntil: string) returns (error: Option<Error>)
      modifies this`authority
      ensures RuntimeState.Renew(old(authority), owner, leaseId, leasedUntil)
           == if error.Some? then Err(error.value) else Ok(authority)
      ensures error.Some? ==> authority == old(authority)
    {
      if authority.owner.None? {
        return Some(NoLease);
      }
      if authority.owner.value != owner {
        return Some(OwnerMismatch(authority.owner.value));
      }
      authority := authority.(leaseId := Some(leaseId), leasedUntil := Some(leasedUntil));
      authority := authority.(stale := false, staleReason := None);
      return None;
    }

    method Queue(requestId: string, target: string, metadata: Option<string>, now: Time)
      modifies this`dispatch
      ensures dispatch == old(dispatch) + [NewDispatch(requestId, target, metadata, now)]
    {
      dispatch := dispatch + [DispatchRecord(requestId, target, Pending, now, None, None, None, None, metadata)];
    }

    /** The index of the first record with the id, or the number of records. */
    method FindDispatch(requestId: string) returns (i: nat)
      ensures i <= |dispatch| && (i < |dispatch| ==> dispatch[i].requestId == requestId)
      ensures forall j :: 0 <= j < i ==> dispatch[j].requestId != requestId
    {
      i := 0;
      while i < |dispatch| && dispatch[i].requestId != requestId
        invariant i <= |dispatch|
        invariant forall j :: 0 <= j < i ==> dispatch[j].requestId != requestId
      {
        i := i + 1;
      }
    }

    method MarkNotified(requestId: string, channel: string, now: Time) returns (error: Option<Error>)
      modifies this`dispatch
      ensures MarkFirst(old(dispatch), requestId, ToNotified(channel), now)
           == if error.Some? then Err(error.value) else Ok(dispatch)
      ensures error.Some? ==> dispatch == old(dispatch)
    {
      var i := FindDispatch(requestId);
      MarkFirstAt(dispatch, i, requestId, ToNotified(channel), now);
      if i == |dispatch| {
        return Some(DispatchNotFound(requestId));
      }
      var record := dispatch[i];
      if record.status != Pending {
        return Some(InvalidTransition(requestId, record.status, Notified));
      }
      record := record.(status := Notified, notifiedAt := Some(now), reason := Some(channel));
      dispatch := dispatch[i := record];
      return None;
    }

    method MarkDelivered(requestId: string, now: Time) returns (error: Option<Error>)
      modifies this`dispatch
      ensures MarkFirst(old(dispatch), requestId, ToDelivered, now)
           == if error.Some? then Err(error.value) else Ok(dispatch)
      ensures error.Some? ==> dispatch == old(dispatch)
    {
      var i := FindDispatch(requestId);
      MarkFirstAt(dispatch, i, requestId, ToDelivered, now);
      if i == |dispatch| {
        return Some(DispatchNotFound(requestId));
      }
      var record := dispatch[i];
      if record.status != Notified {
        return Some(InvalidTransition(requestId, record.status, Delivered));
      }
      record := record.(status := Delivered, deliveredAt := Some(now));
      dispatch := dispatch[i := record];
      return None;
    }

    method MarkFailed(requestId: string, reason: string, now: Time) returns (error: Option<Error>)
      modifies this`dispatch
      ensures MarkFirst(old(dispatch), requestId, ToFailed(reason), now)
           == if error.Some? then Err(error.value) else Ok(dispatch)
      ensures error.Some? ==> dispatch == old(dispatch)
    {
      var i := FindDispatch(requestId);
      MarkFirstAt(dispatch, i, requestId, ToFailed(reason), now);
      if i == |dispatch| {
        return Some(DispatchNotFound(requestId));
      }
      var record := dispatch[i];
      if record.status != Pending && record.status != Notified {
        return Some(InvalidTransition(requestId, record.status, Failed));
      }
      record := record.(status := Failed, failedAt := Some(now), reason := Some(reason));
      dispatch := dispatch[i := record];
      return None;
    }

    method CreateMessage(messageId: string, from: string, to: string, body: string, now: Time)
      modifies this`mailbox
      ensures mailbox == old(mailbox) + [NewMessage(messageId, from, to, body, now)]
    {
      mailbox := mailbox + [MailboxRecord(messageId, from, to, body, now, None, None)];
    }

    method FindMailbox(messageId: string) returns (i: nat)
      ensures i <= |mailbox| && (i < |mailbox| ==> mailbox[i].messageId == messageId)
      ensures forall j :: 0 <= j < i ==> mailbox[j].messageId != messageId
    {
      i := 0;
      while i < |mailbox| && mailbox[i].messageId != messageId
        invariant i <= |mailbox|
        invariant forall j :: 0 <= j < i ==> mailbox[j].messageId != messageId
      {
        i := i + 1;
      }
    }

    method MarkMailboxNotified(messageId: string, now: Time) returns (error: Option<Error>)
      modifies this`mailbox
      ensures StampFirst(old(mailbox), messageId, false, now)
           == if error.Some? then Err(error.value) else Ok(mailbox)
      ensures error.Some? ==> mailbox == old(mailbox)
    {
      var i := FindMailbox(messageId);
      StampFirstAt(mailbox, i, messageId, false, now);
      if i == |mailbox| {
        return Some(MailboxNotFound(messageId));
      }
      if mailbox[i].deliveredAt.Some? {
        return Some(AlreadyDelivered(messageId));
      }
      mailbox := mailbox[i := mailbox[i].(notifiedAt := Some(now))];
      return None;
    }

    method MarkMailboxDelivered(messageId: string, now: Time) returns (error: Option<Error>)
      modifies this`mailbox
      ensures StampFirst(old(mailbox), messageId, true, now)
           == if error.Some? then Err(error.value) else Ok(mailbox)
      ensures error.Some? ==> mailbox == old(mailbox)
    {
      var i := FindMailbox(messageId);
      StampFirstAt(mailbox, i, messageId, true, now);
      if i == |mailbox| {
        return Some(MailboxNotFound(messageId));
      }
      if mailbox[i].deliveredAt.Some? {
        return Some(AlreadyDelivered(messageId));
      }
      mailbox := mailbox[i := mailbox[i].(deliveredAt := Some(now))];
      return None;
    }

    /** Appends an event; `was` and `flags` are the state and the flags in front of the command it stands for. */
    method AppendEvent(event: Event, ghost was: State, ghost flags: Dirty)
      requires FlagsCover(was, Contents(), flags, dirty)
      modifies this`eventLog, this`pendingEvents, this`dirty
      ensures eventLog == (if eventLogLoaded then old(eventLog) + [event] else old(eventLog))
      ensures pendingEvents == old(pendingEvents) + [event]
      ensures dirty.events && dirty == old(dirty).(events := true)
      ensures Contents() == old(Contents()) && FlagsCover(was, Contents(), flags, dirty)
    {
      if eventLogLoaded {
        eventLog := eventLog + [event];
      }
      pendingEvents := pendingEvents + [event];
      dirty := dirty.(events := true);
    }

    method MarkAuthorityStateChanged()
      modifies this`dirty
      ensures dirty == old(dirty).(snapshot := true, authority := true, readiness := true)
    {
      dirty := dirty.(snapshot := true, authority := true, readiness := true);
    }

    method MarkDispatchStateChanged()
      modifies this`dirty
      ensures dirty == old(dirty).(snapshot := true, backlog := true, dispatch := true)
    {
      dirty := dirty.(snapshot := true, backlog := true, dispatch := true);
    }

    method MarkReplayStateChanged()
      modifies this`dirty
      ensures dirty == old(dirty).(snapshot := true, replay := true)
    {
      dirty := dirty.(snapshot := true, replay := true);
    }

    method MarkMailboxStateChanged()
      modifies this`dirty
      ensures dirty == old(dirty).(mailbox := true)
    {
      dirty := dirty.(mailbox := true);
    }

    /** Carries out one command's change of state and flags, or refuses it. */
    method Perform(c: Command, now: Time) returns (error: Option<Error>)
      modifies this`authority, this`dispatch, this`mailbox, this`cursor, this`dirty
      ensures Apply(old(Contents()), c, now) == if error.Some? then Err(error.value) else Ok(Contents())
      ensures error.Some? ==> Contents() == old(Contents()) && dirty == old(dirty)
      ensures FlagsCover(old(Contents()), Contents(), old(dirty), dirty) && dirty.events == old(dirty.events)
    {
      error := None;
      match c
      case AcquireAuthority(owner, leaseId, leasedUntil) =>
        error := Acquire(owner, leaseId, leasedUntil);
        if error.None? { MarkAuthorityStateChanged(); }
      case RenewAuthority(owner, leaseId, leasedUntil) =>
        error := Renew(owner, leaseId, leasedUntil);
        if error.None? { MarkAuthorityStateChanged(); }
      case QueueDispatch(requestId, target, metadata) =>
        Queue(requestId, target, metadata, now);
        MarkDispatchStateChanged();
      case MarkNotified(requestId, channel) =>
        error := this.MarkNotified(requestId, channel, now);
        if error.None? { MarkDispatchStateChanged(); }
      case MarkDelivered(requestId) =>
        error := this.MarkDelivered(requestId, now);
        if error.None? { MarkDispatchStateChanged(); }
      case MarkFailed(requestId, reason) =>
        error := this.MarkFailed(requestId, reason, now);
        if error.None? { MarkDispatchStateChanged(); }
      case RequestReplay(newCursor) =>
        cursor := newCursor;
        MarkReplayStateChanged();
      case CaptureSnapshot =>
      case CreateMailboxMessage(messageId, from, to, body) =>
        CreateMessage(messageId, from, to, body, now);
        MarkMailboxStateChanged();
      case MarkMailboxNotified(messageId) =>
        error := this.MarkMailboxNotified(messageId, now);
        if error.None? { MarkMailboxStateChanged(); }
      case MarkMailboxDelivered(messageId) =>
        error := this.MarkMailboxDelivered(messageId, now);
        if error.None? { MarkMailboxStateChanged(); }
    }

    /**
     Processes one command.  A refused command changes nothing; any other one
     leaves exactly one event, and flags every file whose contents changed.
     */
    method ProcessCommand(c: Command, now: Time) returns (r: Result<Event, Error>)
      requires Valid()
      modifies this
      ensures Valid() && eventLogLoaded == old(eventLogLoaded)
      ensures FlagsCover(old(Contents()), Contents(), old(dirty), dirty)
      ensures Apply(old(Contents()), c, now) == if r.Err? then Err(r.error) else Ok(Contents())
      ensures r.Err? ==>
        && Contents() == old(Contents()) && dirty == old(dirty)
        && pendingEvents == old(pendingEvents) && eventLog == old(eventLog)
      ensures r.Ok? ==>
        && r.value == EventOf(c) && dirty.events
        && pendingEvents == old(pendingEvents) + [r.value]
        && eventLog == (if eventLogLoaded then old(eventLog) + [r.value] else old(eventLog))
    {
      var error := Perform(c, now);
      if error.Some? {
        return Err(error.value);
      }
      AppendEvent(EventOf(c), old(Contents()), old(dirty));
      return Ok(EventOf(c));
    }

    /** Drops the events of finished requests from the log in memory. */
    method Compact()
      requires Valid()
      modifies this`eventLog, this`dirty
      ensures Valid()
      ensures eventLogLoaded ==>
        eventLog == Compacted(old(eventLog), Finished(dispatch)) && dirty == old(dirty).(events := true)
      ensures !eventLogLoaded ==> eventLog == old(eventLog) && dirty == old(dirty)
    {
      if !eventLogLoaded {
        return;
      }
      var terminal: set<string> := {};
      var i := 0;
      while i < |dispatch|
        invariant 0 <= i <= |dispatch| && terminal == Finished(dispatch[..i])
      {
        assert dispatch[..i + 1] == dispatch[..i] + [dispatch[i]];
        if dispatch[i].status == Delivered || dispatch[i].status == Failed {
          terminal := terminal + {dispatch[i].requestId};
        }
        i := i + 1;
      }
      assert dispatch[..i] == dispatch;
      var filtered: seq<Event> := [];
      i := 0;
      while i < |eventLog|
        invariant 0 <= i <= |eventLog| && filtered == Compacted(eventLog[..i], terminal)
      {
        assert eventLog[..i + 1][..i] == eventLog[..i];
        var requestId := RequestIdOf(eventLog[i]);
        if !(requestId != "" && requestId in terminal) {
          filtered := filtered + [eventLog[i]];
        }
        i := i + 1;
      }
      assert eventLog[..i] == eventLog;
      eventLog := filtered;
      dirty := dirty.(events := true);
    }

    // ---- Writing the directory ----------------------------------------------

    /** Counts the dispatch records by status. */
    method DispatchBacklog() returns (b: Backlog)
      ensures b == BacklogOf(dispatch)
    {
      var pending, notified, delivered, failed := 0, 0, 0, 0;
      var i := 0;
      while i < |dispatch|
        invariant 0 <= i <= |dispatch|
        invariant Backlog(pending, notified, delivered, failed) == BacklogOf(dispatch[..i])
      {
        assert dispatch[..i + 1][..i] == dispatch[..i];
        match dispatch[i].status {
          case Pending => pending := pending + 1;
          case Notified => notified := notified + 1;
          case Delivered => delivered := delivered + 1;
          case Failed => failed := failed + 1;
        }
        i := i + 1;
      }
      assert dispatch[..i] == dispatch;
      b := Backlog(pending, notified, delivered, failed);
    }

    method TakeSnapshot() returns (snapshot: Snapshot)
      ensures snapshot == SnapshotOf(Contents())
    {
      var b := DispatchBacklog();
      snapshot := Snapshot(authority, b, ReplayView(cursor, deferredLeaderNotification), ReadinessOf(authority));
    }

    /**
     Writes the event log: all of it when it is in memory, otherwise the
     pending events at the end of the file.
     */
    method PersistEventLog(d: StateDirectory, codec: Codec) returns (ok: bool)
      requires IsFaithful(codec)
      modifies d`events
      ensures eventLogLoaded ==> ok && LogOf(codec, d.events) == Some(eventLog)
      ensures !eventLogLoaded && pendingEvents == [] ==> ok && LogOf(codec, d.events) == Some([])
      ensures !eventLogLoaded && pendingEvents != [] && LogOf(codec, old(d.events)).Some? ==>
        ok && LogOf(codec, d.events) == Some(LogOf(codec, old(d.events)).value + pendingEvents)
      ensures ok ==> d.events.Some?
    {
      if eventLogLoaded {
        RenderedLog(codec, eventLog);
        d.events := Some(Rendered(EncodeAll(codec, eventLog)));
        return true;
      }
      if |pendingEvents| == 0 {
        RenderedLog(codec, []);
        d.events := Some(Rendered([]));
        return true;
      }
      ok := AppendPending(d, codec);
    }

    /** Appends the events that are not in the file yet, one by one. */
    method AppendPending(d: StateDirectory, codec: Codec) returns (ok: bool)
      requires IsFaithful(codec) && pendingEvents != []
      modifies d`events
      ensures LogOf(codec, old(d.events)).Some? ==>
        ok && LogOf(codec, d.events) == Some(LogOf(codec, old(d.events)).value + pendingEvents)
      ensures ok ==> d.events.Some?
    {
      ghost var before := LogOf(codec, d.events);
      ghost var log := if before.Some? then before.value else [];
      var i := 0;
      while i < |pendingEvents|
        invariant 0 <= i <= |pendingEvents|
        invariant i > 0 ==> d.events.Some?
        invariant before.Some? ==> log == before.value + pendingEvents[..i] && LogOf(codec, d.events) == Some(log)
      {
        ok := d.AppendEvent(codec, pendingEvents[i]);
        if !ok {
          return false;
        }
        log := log + [pendingEvents[i]];
        i := i + 1;
      }
      assert pendingEvents[..i] == pendingEvents;
      return true;
    }

    /**
     Writes `events.json` where flagged or missing.  An existing log keeps its
     events: it is extended, or replaced by the log in memory, never emptied.
     */
    method PersistEvents(d: StateDirectory, codec: Codec, ghost before: Option<seq<Event>>) returns (ok: bool)
      requires IsFaithful(codec) && Valid() && before == LogOf(codec, d.events)
      modifies this`dirty, this`pendingEvents, d`events
      ensures Valid()
      ensures before.Some? ==>
        ok && d.events.Some? && LogOf(codec, d.events) == Some(
          if !old(dirty.events) && old(d.events).Some? then before.value
          else if eventLogLoaded then eventLog
          else before.value + old(pendingEvents))
      ensures !old(dirty.events) && old(d.events).Some? ==> ok && d.events == old(d.events)
      ensures dirty == old(dirty).(events := if ok then false else old(dirty.events))
    {
      assert before.Some? && pendingEvents == [] ==> before.value + pendingEvents == before.value;
      if dirty.events || d.events.None? {
        ok := PersistEventLog(d, codec);
        if !ok {
          return false;
        }
        dirty := dirty.(events := false);
        pendingEvents := [];
      }
      return true;
    }

    /** Writes `snapshot.json` where flagged or missing. */
    method PersistSnapshot(d: StateDirectory)
      modifies this`dirty, d`snapshot
      ensures d.snapshot == WriteIfDirty(old(d.snapshot), old(dirty.snapshot), SnapshotOf(Contents()))
      ensures dirty == old(dirty).(snapshot := false)
    {
      if dirty.snapshot || d.snapshot.None? {
        var snapshot := TakeSnapshot();
        d.snapshot := Some(snapshot);
        dirty := dirty.(snapshot := false);
      }
    }

    /** Writes `snapshot.json` and `events.json` where flagged or missing. */
    method Persist(d: StateDirectory, codec: Codec, ghost before: Option<seq<Event>>) returns (ok: bool)
      requires IsFaithful(codec) && Valid() && before == LogOf(codec, d.events)
      modifies this`dirty, this`pendingEvents, d`snapshot, d`events
      ensures Valid()
      ensures d.snapshot == WriteIfDirty(old(d.snapshot), old(dirty.snapshot), SnapshotOf(Contents()))
      ensures before.Some? ==>
        ok && d.events.Some? && LogOf(codec, d.events) == Some(
          if !old(dirty.events) && old(d.events).Some? then before.value
          else if eventLogLoaded then eventLog
          else before.value + old(pendingEvents))
      ensures !old(dirty.events) && old(d.events).Some? ==> ok && d.events == old(d.events)
      ensures dirty == old(dirty).(snapshot := false, events := if ok then false else old(dirty.events))
    {
      PersistSnapshot(d);
      ok := PersistEvents(d, codec, before);
    }

    /** Writes the six other files where flagged or missing. */
    method WriteCompatibilityView(d: StateDirectory)
      modifies this`dirty, d`authority, d`backlog, d`readiness, d`replay, d`dispatch, d`mailbox
      ensures dirty == Dirty(old(dirty.snapshot), old(dirty.events), false, false, false, false, false, false)
      ensures d.authority == WriteIfDirty(old(d.authority), old(dirty.authority), authority)
      ensures d.backlog == WriteIfDirty(old(d.backlog), old(dirty.backlog), BacklogOf(dispatch))
      ensures d.readiness == WriteIfDirty(old(d.readiness), old(dirty.readiness), ReadinessOf(authority))
      ensures d.replay == WriteIfDirty(old(d.replay), old(dirty.replay), ReplayView(cursor, deferredLeaderNotification))
      ensures d.dispatch == WriteIfDirty(old(d.dispatch), old(dirty.dispatch), dispatch)
      ensures d.mailbox == WriteIfDirty(old(d.mailbox), old(dirty.mailbox), mailbox)
    {
      var snapshot := TakeSnapshot();
      d.authority := WriteIfDirty(d.authority, dirty.authority, snapshot.authority);
      d.backlog := WriteIfDirty(d.backlog, dirty.backlog, snapshot.backlog);
      d.readiness := WriteIfDirty(d.readiness, dirty.readiness, snapshot.readiness);
      d.replay := WriteIfDirty(d.replay, dirty.replay, snapshot.replay);
      d.dispatch := WriteIfDirty(d.dispatch, dirty.dispatch, dispatch);
      d.mailbox := WriteIfDirty(d.mailbox, dirty.mailbox, mailbox);
      dirty := dirty.(authority := false, backlog := false, readiness := false, replay := false,
                      dispatch := false, mailbox := false);
    }
  }
}
