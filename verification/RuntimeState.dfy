/**
 The state the runtime engine keeps, and what each command does to it: the
 authority lease, the dispatch queue, the mailbox and the replay cursor.
 Metadata is one JSON value; the engine treats an absent value and `null`
 alike, so both are `None`.
 */
module RuntimeState {
  import opened Wrappers

  type Time = int

  datatype Lease = Lease(
    owner: Option<string>,
    leaseId: Option<string>,
    leasedUntil: Option<string>,
    stale: bool,
    staleReason: Option<string>)

  datatype Status = Pending | Notified | Delivered | Failed

  datatype DispatchRecord = DispatchRecord(
    requestId: string,
    target: string,
    status: Status,
    createdAt: Time,
    notifiedAt: Option<Time>,
    deliveredAt: Option<Time>,
    failedAt: Option<Time>,
    reason: Option<string>,
    metadata: Option<string>)

  datatype MailboxRecord = MailboxRecord(
    messageId: string,
    fromWorker: string,
    toWorker: string,
    body: string,
    createdAt: Time,
    notifiedAt: Option<Time>,
    deliveredAt: Option<Time>)

  datatype State = State(
    authority: Lease,
    dispatch: seq<DispatchRecord>,
    mailbox: seq<MailboxRecord>,
    cursor: Option<string>,
    deferredLeaderNotification: bool)

  datatype Command =
    | AcquireAuthority(owner: string, leaseId: string, leasedUntil: string)
    | RenewAuthority(owner: string, leaseId: string, leasedUntil: string)
    | QueueDispatch(requestId: string, target: string, metadata: Option<string>)
    | MarkNotified(requestId: string, channel: string)
    | MarkDelivered(requestId: string)
    | MarkFailed(requestId: string, reason: string)
    | RequestReplay(cursor: Option<string>)
    | CaptureSnapshot
    | CreateMailboxMessage(messageId: string, fromWorker: string, toWorker: string, body: string)
    | MarkMailboxNotified(messageId: string)
    | MarkMailboxDelivered(messageId: string)

  datatype Event =
    | AuthorityAcquired(owner: string, leaseId: string, leasedUntil: string)
    | AuthorityRenewed(owner: string, leaseId: string, leasedUntil: string)
    | DispatchQueued(requestId: string, target: string, metadata: Option<string>)
    | DispatchNotified(requestId: string, channel: string)
    | DispatchDelivered(requestId: string)
    | DispatchFailed(requestId: string, reason: string)
    | ReplayRequested(cursor: Option<string>)
    | SnapshotCaptured
    | MailboxMessageCreated(messageId: string, fromWorker: string, toWorker: string, body: string)
    | MailboxNotified(messageId: string)
    | MailboxDelivered(messageId: string)

  datatype Error =
    | LeaseHeld(owner: string)
    | NoLease
    | OwnerMismatch(owner: string)
    | DispatchNotFound(requestId: string)
    | InvalidTransition(requestId: string, from: Status, to: Status)
    | MailboxNotFound(messageId: string)
    | AlreadyDelivered(messageId: string)

  const NO_LEASE := Lease(None, None, None, false, None)
  const INITIAL := State(NO_LEASE, [], [], None, false)

  function EventOf(c: Command): Event {
    match c
    case AcquireAuthority(o, l, u) => AuthorityAcquired(o, l, u)
    case RenewAuthority(o, l, u) => AuthorityRenewed(o, l, u)
    case QueueDispatch(id, target, metadata) => DispatchQueued(id, target, metadata)
    case MarkNotified(id, channel) => DispatchNotified(id, channel)
    case MarkDelivered(id) => DispatchDelivered(id)
    case MarkFailed(id, reason) => DispatchFailed(id, reason)
    case RequestReplay(cursor) => ReplayRequested(cursor)
    case CaptureSnapshot => SnapshotCaptured
    case CreateMailboxMessage(id, from, to, body) => MailboxMessageCreated(id, from, to, body)
    case MarkMailboxNotified(id) => MailboxNotified(id)
    case MarkMailboxDelivered(id) => MailboxDelivered(id)
  }

  // ---- Authority -----------------------------------------------------------

  function Acquire(lease: Lease, owner: string, leaseId: string, leasedUntil: string): Result<Lease, Error> {
    if lease.owner.Some? && lease.owner.value != owner then Err(LeaseHeld(lease.owner.value))
    else Ok(Lease(Some(owner), Some(leaseId), Some(leasedUntil), false, None))
  }

  function Renew(lease: Lease, owner: string, leaseId: string, leasedUntil: string): Result<Lease, Error> {
    if lease.owner.None? then Err(NoLease)
    else if lease.owner.value != owner then Err(OwnerMismatch(lease.owner.value))
    else Ok(Lease(lease.owner, Some(leaseId), Some(leasedUntil), false, None))
  }

  // ---- Dispatch --------------------------------------------------------------

  predicate IsFinished(r: DispatchRecord) {
    r.status == Delivered || r.status == Failed
  }

  function NewDispatch(id: string, target: string, metadata: Option<string>, now: Time): DispatchRecord {
    DispatchRecord(id, target, Pending, now, None, None, None, None, metadata)
  }

  /** The three ways a dispatch record moves on. */
  datatype Mark = ToNotified(channel: string) | ToDelivered | ToFailed(reason: string)

  function Target(m: Mark): Status {
    match m case ToNotified(_) => Notified case ToDelivered => Delivered case ToFailed(_) => Failed
  }

  predicate MayMark(from: Status, m: Mark) {
    match m
    case ToNotified(_) => from == Pending
    case ToDelivered => from == Notified
    case ToFailed(_) => from == Pending || from == Notified
  }

  function MarkRecord(r: DispatchRecord, m: Mark, now: Time): DispatchRecord {
    match m
    case ToNotified(channel) => r.(status := Notified, notifiedAt := Some(now), reason := Some(channel))
    case ToDelivered => r.(status := Delivered, deliveredAt := Some(now))
    case ToFailed(reason) => r.(status := Failed, failedAt := Some(now), reason := Some(reason))
  }

  /** Marks the first record with the id; later records with the same id are never looked at. */
  function MarkFirst(rs: seq<DispatchRecord>, id: string, m: Mark, now: Time): Result<seq<DispatchRecord>, Error> {
    if rs == [] then Err(DispatchNotFound(id))
    else if rs[0].requestId == id then
      if MayMark(rs[0].status, m) then Ok([MarkRecord(rs[0], m, now)] + rs[1..])
      else Err(InvalidTransition(id, rs[0].status, Target(m)))
    else
      match MarkFirst(rs[1..], id, m, now)
      case Ok(rest) => Ok([rs[0]] + rest)
      case Err(e) => Err(e)
  }

  // ---- Mailbox ----------------------------------------------------------------

  function NewMessage(id: string, from: string, to: string, body: string, now: Time): MailboxRecord {
    MailboxRecord(id, from, to, body, now, None, None)
  }

  /** Stamps the first message with the id as notified, or as delivered. */
  function StampFirst(ms: seq<MailboxRecord>, id: string, delivered: bool, now: Time)
    : Result<seq<MailboxRecord>, Error>
  {
    if ms == [] then Err(MailboxNotFound(id))
    else if ms[0].messageId == id then
      if ms[0].deliveredAt.Some? then Err(AlreadyDelivered(id))
      else if delivered then Ok([ms[0].(deliveredAt := Some(now))] + ms[1..])
      else Ok([ms[0].(notifiedAt := Some(now))] + ms[1..])
    else
      match StampFirst(ms[1..], id, delivered, now)
      case Ok(rest) => Ok([ms[0]] + rest)
      case Err(e) => Err(e)
  }

  // ---- One command ----------------------------------------------------------

  function WithAuthority(s: State, r: Result<Lease, Error>): Result<State, Error> {
    match r case Ok(lease) => Ok(s.(authority := lease)) case Err(e) => Err(e)
  }

  function WithDispatch(s: State, r: Result<seq<DispatchRecord>, Error>): Result<State, Error> {
    match r case Ok(rs) => Ok(s.(dispatch := rs)) case Err(e) => Err(e)
  }

  function WithMailbox(s: State, r: Result<seq<MailboxRecord>, Error>): Result<State, Error> {
    match r case Ok(ms) => Ok(s.(mailbox := ms)) case Err(e) => Err(e)
  }

  /** What a command leaves, or why it is refused. */
  function Apply(s: State, c: Command, now: Time): Result<State, Error> {
    match c
    case AcquireAuthority(o, l, u) => WithAuthority(s, Acquire(s.authority, o, l, u))
    case RenewAuthority(o, l, u) => WithAuthority(s, Renew(s.authority, o, l, u))
    case QueueDispatch(id, target, metadata) =>
      Ok(s.(dispatch := s.dispatch + [NewDispatch(id, target, metadata, now)]))
    case MarkNotified(id, channel) => WithDispatch(s, MarkFirst(s.dispatch, id, ToNotified(channel), now))
    case MarkDelivered(id) => WithDispatch(s, MarkFirst(s.dispatch, id, ToDelivered, now))
    case MarkFailed(id, reason) => WithDispatch(s, MarkFirst(s.dispatch, id, ToFailed(reason), now))
    case RequestReplay(cursor) => Ok(s.(cursor := cursor))
    case CaptureSnapshot => Ok(s)
    case CreateMailboxMessage(id, from, to, body) =>
      Ok(s.(mailbox := s.mailbox + [NewMessage(id, from, to, body, now)]))
    case MarkMailboxNotified(id) => WithMailbox(s, StampFirst(s.mailbox, id, false, now))
    case MarkMailboxDelivered(id) => WithMailbox(s, StampFirst(s.mailbox, id, true, now))
  }

  /** The command whose effect replaying an event has: a renewal is replayed as an acquisition. */
  function ReplayedAs(e: Event): Command {
    match e
    case AuthorityAcquired(o, l, u) => AcquireAuthority(o, l, u)
    case AuthorityRenewed(o, l, u) => AcquireAuthority(o, l, u)
    case DispatchQueued(id, target, metadata) => QueueDispatch(id, target, metadata)
    case DispatchNotified(id, channel) => MarkNotified(id, channel)
    case DispatchDelivered(id) => MarkDelivered(id)
    case DispatchFailed(id, reason) => MarkFailed(id, reason)
    case ReplayRequested(cursor) => RequestReplay(cursor)
    case SnapshotCaptured => CaptureSnapshot
    case MailboxMessageCreated(id, from, to, body) => CreateMailboxMessage(id, from, to, body)
    case MailboxNotified(id) => MarkMailboxNotified(id)
    case MailboxDelivered(id) => MarkMailboxDelivered(id)
  }

  /** Replaying one event; an event whose command would be refused is passed over. */
  function Replay(s: State, e: Event, now: Time): State {
    match Apply(s, ReplayedAs(e), now)
    case Ok(s') => s'
    case Err(_) => s
  }

  // ---- Compaction ---------------------------------------------------------------

  /** The ids that have a delivered or failed record. */
  function Finished(rs: seq<DispatchRecord>): set<string> {
    set r | r in rs && IsFinished(r) :: r.requestId
  }

  /** The request id an event carries; an empty id counts as none. */
  function RequestIdOf(e: Event): string {
    match e
    case DispatchQueued(id, _, _) => id
    case DispatchNotified(id, _) => id
    case DispatchDelivered(id) => id
    case DispatchFailed(id, _) => id
    case _ => ""
  }

  predicate IsDropped(e: Event, ids: set<string>) {
    RequestIdOf(e) != "" && RequestIdOf(e) in ids
  }

  /** The log without the events of the given requests. */
  function Compacted(log: seq<Event>, ids: set<string>): seq<Event> {
    if log == [] then []
    else
      var front := Compacted(log[..|log| - 1], ids);
      if IsDropped(log[|log| - 1], ids) then front else front + [log[|log| - 1]]
  }
}
