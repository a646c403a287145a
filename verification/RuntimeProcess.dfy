/**
 The `init` and `exec` processes: load the directory, process one command,
 write the directory.
 */
module RuntimeProcess {
  import opened Wrappers
  import opened RuntimeState
  import opened RuntimeReplay
  import opened RuntimeDirectory
  import opened RuntimeEngine

  // ---- Loading ----------------------------------------------------------------

  /** Replays an event of the dispatch queue. */
  method ReplayDispatch(engine: RuntimeEngine, event: Event, now: Time)
    requires event.DispatchQueued? || event.DispatchNotified? || event.DispatchDelivered? || event.DispatchFailed?
    modifies engine`dispatch
    ensures engine.Contents() == Replay(old(engine.Contents()), event, now)
  {
    match event
    case DispatchQueued(requestId, target, metadata) =>
      engine.Queue(requestId, target, metadata, now);
    case DispatchNotified(requestId, channel) =>
      var _ := engine.MarkNotified(requestId, channel, now);
    case DispatchDelivered(requestId) =>
      var _ := engine.MarkDelivered(requestId, now);
    case DispatchFailed(requestId, reason) =>
      var _ := engine.MarkFailed(requestId, reason, now);
  }

  /** Replays one event into an engine; a refused event changes nothing. */
  method ReplayEvent(engine: RuntimeEngine, event: Event, now: Time)
    modifies engine`authority, engine`dispatch, engine`mailbox, engine`cursor
    ensures engine.Contents() == Replay(old(engine.Contents()), event, now)
  {
    match event
    case AuthorityAcquired(owner, leaseId, leasedUntil) =>
      var _ := engine.Acquire(owner, leaseId, leasedUntil);
    case AuthorityRenewed(owner, leaseId, leasedUntil) =>
      var _ := engine.Acquire(owner, leaseId, leasedUntil);
    case ReplayRequested(cursor) =>
      engine.cursor := cursor;
    case SnapshotCaptured =>
    case MailboxMessageCreated(messageId, from, to, body) =>
      engine.CreateMessage(messageId, from, to, body, now);
    case MailboxNotified(messageId) =>
      var _ := engine.MarkMailboxNotified(messageId, now);
    case MailboxDelivered(messageId) =>
      var _ := engine.MarkMailboxDelivered(messageId, now);
    case _ =>
      ReplayDispatch(engine, event, now);
  }

  /** Replays a whole log into a fresh engine. */
  method ReplayAll(engine: RuntimeEngine, events: seq<Event>, loadLog: bool, now: Time)
    requires engine.Contents() == INITIAL && engine.eventLog == []
    modifies engine`authority, engine`dispatch, engine`mailbox, engine`cursor, engine`eventLog
    ensures UntimedState(engine.Contents()) == Rebuilt(events)
    ensures engine.eventLog == if loadLog then events else []
  {
    var i := 0;
    while i < |events|
      invariant 0 <= i <= |events|
      invariant UntimedState(engine.Contents()) == Rebuilt(events[..i])
      invariant engine.eventLog == if loadLog then events[..i] else []
    {
      assert events[..i + 1][..i] == events[..i];
      ReplayUntimed(engine.Contents(), events[i], now);
      ReplayEvent(engine, events[i], now);
      if loadLog {
        engine.eventLog := engine.eventLog + [events[i]];
      }
      i := i + 1;
    }
    assert events[..i] == events;
  }

  /** Rebuilds an engine from `events.json` alone. */
  method LoadFromEvents(d: StateDirectory, codec: Codec, loadLog: bool, now: Time)
    returns (engine: RuntimeEngine?)
    ensures engine != null <==> d.events.Some? && LogOf(codec, d.events).Some?
    ensures engine != null ==>
      && fresh(engine)
      && UntimedState(engine.Contents()) == Rebuilt(LogOf(codec, d.events).value)
      && engine.dirty == CLEAN && engine.pendingEvents == []
      && engine.eventLogLoaded == loadLog
      && engine.eventLog == (if loadLog then LogOf(codec, d.events).value else [])
  {
    if d.events.None? {
      return null;
    }
    var log := LogOf(codec, d.events);
    if log.None? {
      return null;
    }
    engine := new RuntimeEngine();
    engine.eventLogLoaded := loadLog;
    ReplayAll(engine, log.value, loadLog, now);
  }

  /** The state that the snapshot, dispatch and mailbox files hold. */
  function LoadedState(snapshot: Snapshot, dispatch: seq<DispatchRecord>, mailbox: seq<MailboxRecord>): State {
    State(snapshot.authority, dispatch, mailbox, snapshot.replay.cursor, snapshot.replay.deferredLeaderNotification)
  }

  /** Loads the directory: from the snapshot files, or from the events when one of them is missing. */
  method Load(d: StateDirectory, codec: Codec, loadLog: bool, now: Time) returns (engine: RuntimeEngine?)
    ensures engine != null ==> fresh(engine) && engine.Valid()
    ensures d.snapshot.Some? && d.dispatch.Some? && d.mailbox.Some? ==>
      && (engine != null <==> loadLog ==> d.events.Some? && LogOf(codec, d.events).Some?)
      && (engine != null ==>
            && engine.Contents() == LoadedState(d.snapshot.value, d.dispatch.value, d.mailbox.value)
            && engine.dirty == CLEAN && engine.pendingEvents == [] && engine.eventLogLoaded == loadLog
            && engine.eventLog == (if loadLog then LogOf(codec, d.events).value else []))
    ensures d.snapshot.None? || d.dispatch.None? || d.mailbox.None? ==>
      && (engine != null <==> d.events.Some? && LogOf(codec, d.events).Some?)
      && (engine != null ==> UntimedState(engine.Contents()) == Rebuilt(LogOf(codec, d.events).value))
  {
    if d.snapshot.None? || d.dispatch.None? || d.mailbox.None? {
      engine := LoadFromEvents(d, codec, loadLog, now);
      return;
    }
    engine := new RuntimeEngine();
    engine.authority := d.snapshot.value.authority;
    engine.dispatch := d.dispatch.value;
    engine.mailbox := d.mailbox.value;
    engine.cursor := d.snapshot.value.replay.cursor;
    engine.deferredLeaderNotification := d.snapshot.value.replay.deferredLeaderNotification;
    if loadLog {
      var log := if d.events.Some? then LogOf(codec, d.events) else None;
      if log.None? {
        return null;
      }
      engine.eventLog := log.value;
      engine.eventLogLoaded := true;
    }
  }

  // ---- Processes -----------------------------------------------------------------

  datatype Job = Job(command: Command, now: Time, compact: bool)

  datatype Failure = Refused(error: Error) | NotWritten

  /** What one `exec` process does to the state and the log. */
  function Next(l: Logged, job: Job): Logged {
    var l' := Take(l, Do(job.command, job.now));
    if Apply(l.state, job.command, job.now).Ok? && job.compact then Take(l', Compact) else l'
  }

  /** The first command of a fresh engine finishes no request, so a compaction drops nothing. */
  lemma FirstJob(job: Job)
    ensures Next(START, job) == Take(START, Do(job.command, job.now))
  {
    if Apply(INITIAL, job.command, job.now).Ok? {
      var l' := Take(START, Do(job.command, job.now));
      assert Finished(l'.state.dispatch) == {};
      assert l'.log == [EventOf(job.command)];
      assert Compacted(l'.log, {}) == Compacted([], {}) + l'.log;
    }
  }

  /** The state and log that an engine stands for, given the log on disk. */
  ghost function Standing(engine: RuntimeEngine, onDisk: seq<Event>): Logged
    reads engine
  {
    Logged(engine.Contents(), if engine.eventLogLoaded then engine.eventLog else onDisk + engine.pendingEvents)
  }

  /** Processes a command; files that showed the state still do unless they are flagged. */
  method ProcessTracked(engine: RuntimeEngine, c: Command, now: Time, ghost d: StateDirectory, ghost onDisk: seq<Event>)
    returns (r: Result<Event, Error>)
    requires engine.Valid()
    modifies engine
    ensures engine.Valid() && engine.eventLogLoaded == old(engine.eventLogLoaded)
    ensures old(engine.CleanFilesCurrent(d)) ==> engine.CleanFilesCurrent(d)
    ensures Standing(engine, onDisk) == Take(old(Standing(engine, onDisk)), Do(c, now))
    ensures match Apply(old(engine.Contents()), c, now)
      case Ok(_) => r == Ok(EventOf(c)) && engine.dirty.events
      case Err(e) => r == Err(e)
  {
    ghost var image, s, dirty, pending := d.Files(), engine.Contents(), engine.dirty, engine.pendingEvents;
    r := engine.ProcessCommand(c, now);
    assert Current(image, s, dirty) ==> engine.CleanFilesCurrent(d) by {
      if Current(image, s, dirty) {
        FlagsKeepCurrent(image, s, engine.Contents(), dirty, engine.dirty);
      }
    }
    assert onDisk + (pending + [EventOf(c)]) == onDisk + pending + [EventOf(c)];
  }

  /** Processes the job's command, and compacts the log in memory when asked to. */
  method Process(engine: RuntimeEngine, job: Job, ghost d: StateDirectory, ghost onDisk: seq<Event>)
    returns (r: Result<Event, Error>)
    requires engine.Valid()
    modifies engine
    ensures engine.Valid() && (old(engine.CleanFilesCurrent(d)) ==> engine.CleanFilesCurrent(d))
    ensures match Apply(old(engine.Contents()), job.command, job.now)
      case Ok(_) =>
        var l' := Take(old(Standing(engine, onDisk)), Do(job.command, job.now));
        && r == Ok(EventOf(job.command)) && engine.dirty.events
        && Standing(engine, onDisk) == if job.compact && old(engine.eventLogLoaded) then Take(l', Compact) else l'
      case Err(e) => r == Err(e)
  {
    r := ProcessTracked(engine, job.command, job.now, d, onDisk);
    if r.Ok? && job.compact {
      engine.Compact();
    }
  }

  /** Writes what an engine that has processed a command leaves behind. */
  method WriteBack(engine: RuntimeEngine, d: StateDirectory, codec: Codec, ghost onDisk: seq<Event>) returns (ok: bool)
    requires IsFaithful(codec) && engine.Valid() && engine.dirty.events
    modifies engine, d
    ensures old(LogOf(codec, d.events)) == Some(onDisk) && old(engine.CleanFilesCurrent(d)) ==>
      ok && Shows(codec, d.Files(), old(Standing(engine, onDisk)))
  {
    ghost var before, dirty, l := d.Files(), engine.dirty, Standing(engine, onDisk);
    ok := engine.Persist(d, codec, LogOf(codec, d.events));
    if ok {
      engine.WriteCompatibilityView(d);
      assert Written(before, l.state, dirty, d.Files());
      if LogOf(codec, before.events) == Some(onDisk) && Current(before, l.state, dirty) {
        WrittenShows(codec, before, l, dirty, d.Files());
      }
    }
  }

  /** The directory holds the state and log `l`, or nothing when `l` is the start. */
  ghost predicate Holds(codec: Codec, image: Image, l: Logged) {
    Shows(codec, image, l) || (l == START && image == NO_FILES)
  }

  /** The engine an `exec` process starts with; a directory that cannot be loaded gives a fresh one. */
  method LoadOrFresh(d: StateDirectory, codec: Codec, job: Job, ghost l: Logged) returns (engine: RuntimeEngine)
    ensures fresh(engine) && engine.Valid()
    ensures Holds(codec, d.Files(), l) ==>
      && engine.pendingEvents == [] && engine.CleanFilesCurrent(d)
      && Standing(engine, l.log) == l && LogOf(codec, d.events) == Some(l.log)
      && (engine.eventLogLoaded <==> job.compact && d.Files() != NO_FILES)
  {
    var loaded := Load(d, codec, job.compact, job.now);
    assert l.log + [] == l.log;
    if loaded == null {
      engine := new RuntimeEngine();
    } else {
      engine := loaded;
    }
  }

  /**
   One `exec` process on a state directory.  On a directory that shows a state
   and its log, and on an empty one, a refused command leaves every file as it
   was, and any other command leaves all eight files showing the next state.
   */
  method Exec(d: StateDirectory, codec: Codec, job: Job, ghost l: Logged) returns (r: Result<Event, Failure>)
    requires IsFaithful(codec)
    modifies d
    ensures old(Holds(codec, d.Files(), l)) ==>
      match Apply(l.state, job.command, job.now)
      case Ok(_) => r == Ok(EventOf(job.command)) && Shows(codec, d.Files(), Next(l, job))
      case Err(e) => r == Err(Refused(e)) && d.Files() == old(d.Files())
  {
    var engine := LoadOrFresh(d, codec, job, l);
    FirstJob(job);
    var event := Process(engine, job, d, l.log);
    if event.Err? {
      return Err(Refused(event.error));
    }
    var ok := WriteBack(engine, d, codec, l.log);
    if !ok {
      return Err(NotWritten);
    }
    return Ok(event.value);
  }

  /** The file as it is, or as `init` writes it when it is missing. */
  function Filled<T>(file: Option<T>, value: T): Option<T> {
    if file.Some? then file else Some(value)
  }

  /** What `init` makes of a directory: missing files show the initial state. */
  ghost predicate FilledIn(codec: Codec, before: Image, after: Image) {
    && after.snapshot == Filled(before.snapshot, SnapshotOf(INITIAL))
    && (if before.events.Some? then after.events == before.events
        else after.events.Some? && LogOf(codec, after.events) == Some([]))
    && after.authority == Filled(before.authority, INITIAL.authority)
    && after.backlog == Filled(before.backlog, BacklogOf(INITIAL.dispatch))
    && after.readiness == Filled(before.readiness, ReadinessOf(INITIAL.authority))
    && after.replay == Filled(before.replay, ReplayView(INITIAL.cursor, INITIAL.deferredLeaderNotification))
    && after.dispatch == Filled(before.dispatch, INITIAL.dispatch)
    && after.mailbox == Filled(before.mailbox, INITIAL.mailbox)
  }

  /** `init`: writes the files that are missing and touches no other. */
  method Init(d: StateDirectory, codec: Codec) returns (ok: bool)
    requires IsFaithful(codec)
    modifies d
    ensures ok && FilledIn(codec, old(d.Files()), d.Files())
  {
    var engine := new RuntimeEngine();
    ok := engine.Persist(d, codec, LogOf(codec, d.events));
    engine.WriteCompatibilityView(d);
  }

  /** So an empty directory shows the initial state, and one that shows a state stays as it is. */
  lemma FilledInHolds(codec: Codec, before: Image, after: Image, l: Logged)
    requires FilledIn(codec, before, after) && Holds(codec, before, l)
    ensures Shows(codec, after, l)
    ensures before != NO_FILES ==> after == before
  {
  }

  // ---- Runs of processes -----------------------------------------------------------

  datatype Call = Initialise | Execute(job: Job)

  function NextCall(l: Logged, call: Call): Logged {
    match call
    case Initialise => l
    case Execute(job) => Next(l, job)
  }

  function RunCalls(l: Logged, calls: seq<Call>): Logged {
    if calls == [] then l else NextCall(RunCalls(l, calls[..|calls| - 1]), calls[|calls| - 1])
  }

  /** The commands and compactions that a sequence of processes amounts to. */
  lemma {:induction false} CallsAreSteps(calls: seq<Call>) returns (steps: seq<Step>)
    ensures RunCalls(START, calls) == RunAll(START, steps)
  {
    if calls == [] {
      steps := [];
    } else {
      var last := |calls| - 1;
      var front := CallsAreSteps(calls[..last]);
      steps := front;
      if calls[last].Execute? {
        var job := calls[last].job;
        steps := front + [Do(job.command, job.now)];
        assert steps[..|front|] == front;
        if Apply(RunAll(START, front).state, job.command, job.now).Ok? && job.compact {
          assert (steps + [Compact])[..|steps|] == steps;
          steps := steps + [Compact];
        }
      }
    }
  }

  /** The process leaves the files written: `init`, and a command that is not refused. */
  predicate Writes(l: Logged, call: Call) {
    match call
    case Initialise => true
    case Execute(job) => Apply(l.state, job.command, job.now).Ok?
  }

  /** Some process of the sequence has written the files. */
  predicate HaveWritten(calls: seq<Call>) {
    calls != []
    && (HaveWritten(calls[..|calls| - 1]) || Writes(RunCalls(START, calls[..|calls| - 1]), calls[|calls| - 1]))
  }

  /** The directory shows the state and log, once one of the processes has written; before that it is empty. */
  ghost predicate HoldsAfter(codec: Codec, image: Image, calls: seq<Call>) {
    if HaveWritten(calls) then Shows(codec, image, RunCalls(START, calls))
    else image == NO_FILES && RunCalls(START, calls) == START
  }

  /** One process; a directory that holds a state and its log then holds the next ones. */
  method RunProcess(d: StateDirectory, codec: Codec, call: Call, ghost l: Logged)
    requires IsFaithful(codec) && Holds(codec, d.Files(), l)
    modifies d
    ensures Holds(codec, d.Files(), NextCall(l, call))
    ensures Writes(l, call) || old(Shows(codec, d.Files(), l)) ==> Shows(codec, d.Files(), NextCall(l, call))
    ensures !Writes(l, call) ==> d.Files() == old(d.Files()) && NextCall(l, call) == l
  {
    match call
    case Initialise =>
      ghost var before := d.Files();
      var ok := Init(d, codec);
      FilledInHolds(codec, before, d.Files(), l);
    case Execute(job) =>
      var r := Exec(d, codec, job, l);
  }

  /**
   Runs any sequence of `init` and `exec` processes on an empty directory.
   Once one of them was an `init` or was not refused, all eight files show the
   state the commands lead to, and replaying `events.json` rebuilds that state
   apart from finished requests.
   */
  method RunProcesses(d: StateDirectory, codec: Codec, calls: seq<Call>)
    requires IsFaithful(codec) && d.Files() == NO_FILES
    modifies d
    ensures HoldsAfter(codec, d.Files(), calls)
    ensures LogRebuilds(RunCalls(START, calls))
  {
    for i := 0 to |calls|
      invariant HoldsAfter(codec, d.Files(), calls[..i])
    {
      assert calls[..i + 1][..i] == calls[..i];
      RunProcess(d, codec, calls[i], RunCalls(START, calls[..i]));
    }
    assert calls[..|calls|] == calls;
    ghost var steps := CallsAreSteps(calls);
    EveryRunRebuilds(steps);
  }

  /** After such a sequence, loading gives back the state and the log; it fails exactly when no process has written. */
  method RunAndLoad(d: StateDirectory, codec: Codec, calls: seq<Call>, now: Time) returns (engine: RuntimeEngine?)
    requires IsFaithful(codec) && d.Files() == NO_FILES
    modifies d
    ensures engine == null <==> !HaveWritten(calls)
    ensures engine != null ==> Logged(engine.Contents(), engine.eventLog) == RunCalls(START, calls)
  {
    RunProcesses(d, codec, calls);
    engine := Load(d, codec, true, now);
  }
}
