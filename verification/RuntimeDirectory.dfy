/**
 The state directory: eight files, of which `events.json` is kept as bytes
 and the other seven as the values they encode.  A missing file is `None`.
 */
module RuntimeDirectory {
  import opened Wrappers
  import opened RuntimeState
  import opened RuntimeReplay
  import opened JsonArrayText
  import opened JsonArrayAppend

  // ---- Views of the state -------------------------------------------------------

  datatype Backlog = Backlog(pending: nat, notified: nat, delivered: nat, failed: nat)
  datatype ReplayView = ReplayView(cursor: Option<string>, deferredLeaderNotification: bool)
  datatype Readiness = Readiness(ready: bool, reasons: seq<string>)
  datatype Snapshot = Snapshot(authority: Lease, backlog: Backlog, replay: ReplayView, readiness: Readiness)

  /** How many records have the status. */
  function CountStatus(rs: seq<DispatchRecord>, status: Status): nat {
    if rs == [] then 0
    else CountStatus(rs[..|rs| - 1], status) + if rs[|rs| - 1].status == status then 1 else 0
  }

  function BacklogOf(rs: seq<DispatchRecord>): Backlog {
    Backlog(CountStatus(rs, Pending), CountStatus(rs, Notified), CountStatus(rs, Delivered), CountStatus(rs, Failed))
  }

  /** The backlog counts every record once. */
  lemma {:induction false} BacklogCountsAll(rs: seq<DispatchRecord>)
    ensures var b := BacklogOf(rs); b.pending + b.notified + b.delivered + b.failed == |rs|
  {
    if rs == [] {
    } else {
      BacklogCountsAll(rs[..|rs| - 1]);
    }
  }

  function ReadinessOf(lease: Lease): Readiness {
    if lease.owner.None? then Readiness(false, ["authority lease not acquired"])
    else if lease.stale then
      var detail := if lease.staleReason.Some? then lease.staleReason.value else "";
      Readiness(false, ["authority lease is stale: " + detail])
    else Readiness(true, [])
  }

  function SnapshotOf(s: State): Snapshot {
    Snapshot(s.authority, BacklogOf(s.dispatch), ReplayView(s.cursor, s.deferredLeaderNotification),
             ReadinessOf(s.authority))
  }

  // ---- Event texts ----------------------------------------------------------------

  /** How one event is written as a JSON object, and read back. */
  datatype Codec = Codec(enc: Event -> Bytes, dec: Bytes -> Option<Event>)

  ghost predicate IsFaithful(codec: Codec) {
    forall e :: IsObjectText(codec.enc(e)) && codec.dec(codec.enc(e)) == Some(e)
  }

  function EncodeAll(codec: Codec, log: seq<Event>): (r: seq<Bytes>)
    ensures |r| == |log| && forall i :: 0 <= i < |log| ==> r[i] == codec.enc(log[i])
  {
    seq(|log|, i requires 0 <= i < |log| => codec.enc(log[i]))
  }

  function DecodeAll(codec: Codec, texts: seq<Bytes>): Option<seq<Event>> {
    if texts == [] then Some([])
    else
      match (DecodeAll(codec, texts[..|texts| - 1]), codec.dec(texts[|texts| - 1]))
      case (Some(front), Some(e)) => Some(front + [e])
      case _ => None
  }

  /** The events that `events.json` holds; a missing file holds none. */
  function LogOf(codec: Codec, file: Option<Bytes>): Option<seq<Event>> {
    if file.None? then Some([])
    else
      match ElementsOf(file.value)
      case None => None
      case Some(texts) => DecodeAll(codec, texts)
  }

  lemma {:induction false} DecodeEncoded(codec: Codec, log: seq<Event>)
    requires IsFaithful(codec)
    ensures DecodeAll(codec, EncodeAll(codec, log)) == Some(log)
  {
    if log == [] {
    } else {
      var last := |log| - 1;
      DecodeEncoded(codec, log[..last]);
      assert EncodeAll(codec, log)[..last] == EncodeAll(codec, log[..last]);
      assert log[..last] + [log[last]] == log;
    }
  }

  /** A full rewrite of the log reads back as that log. */
  lemma RenderedLog(codec: Codec, log: seq<Event>)
    requires IsFaithful(codec)
    ensures LogOf(codec, Some(Rendered(EncodeAll(codec, log)))) == Some(log)
  {
    RenderedReads(EncodeAll(codec, log));
    DecodeEncoded(codec, log);
  }

  /** An append in place adds the event at the end of the log. */
  lemma AppendedLog(codec: Codec, file: Bytes, e: Event)
    requires IsFaithful(codec) && LogOf(codec, Some(file)).Some?
    ensures Appended(file, codec.enc(e)).Some?
    ensures LogOf(codec, Some(Appended(file, codec.enc(e)).value)) == Some(LogOf(codec, Some(file)).value + [e])
  {
    var text := codec.enc(e);
    AppendExtendsArray(file, text);
    var before := ElementsOf(file).value;
    assert (before + [text])[..|before|] == before;
  }

  /** What a file holds; a missing one holds nothing. */
  function BytesOf(file: Option<Bytes>): Bytes {
    if file.Some? then file.value else []
  }

  /** The same for a file that may be missing. */
  lemma AppendedFile(codec: Codec, file: Option<Bytes>, log: seq<Event>, e: Event)
    requires IsFaithful(codec) && LogOf(codec, file) == Some(log)
    ensures Appended(BytesOf(file), codec.enc(e)).Some?
    ensures LogOf(codec, Some(Appended(BytesOf(file), codec.enc(e)).value)) == Some(log + [e])
  {
    assert LogOf(codec, Some(BytesOf(file))) == Some(log);
    AppendedLog(codec, BytesOf(file), e);
  }

  // ---- The directory ----------------------------------------------------------------

  /** What the eight files hold at one moment. */
  datatype Image = Image(
    snapshot: Option<Snapshot>,
    events: Option<Bytes>,
    authority: Option<Lease>,
    backlog: Option<Backlog>,
    readiness: Option<Readiness>,
    replay: Option<ReplayView>,
    dispatch: Option<seq<DispatchRecord>>,
    mailbox: Option<seq<MailboxRecord>>)

  const NO_FILES := Image(None, None, None, None, None, None, None, None)

  /** All eight files are there and show the given state and event log. */
  predicate Shows(codec: Codec, image: Image, l: Logged) {
    && image.snapshot == Some(SnapshotOf(l.state))
    && image.events.Some? && LogOf(codec, image.events) == Some(l.log)
    && image.authority == Some(l.state.authority)
    && image.backlog == Some(BacklogOf(l.state.dispatch))
    && image.readiness == Some(ReadinessOf(l.state.authority))
    && image.replay == Some(ReplayView(l.state.cursor, l.state.deferredLeaderNotification))
    && image.dispatch == Some(l.state.dispatch)
    && image.mailbox == Some(l.state.mailbox)
  }

  class StateDirectory {
    var snapshot: Option<Snapshot>
    var events: Option<Bytes>
    var authority: Option<Lease>
    var backlog: Option<Backlog>
    var readiness: Option<Readiness>
    var replay: Option<ReplayView>
    var dispatch: Option<seq<DispatchRecord>>
    var mailbox: Option<seq<MailboxRecord>>

    constructor ()
      ensures Files() == NO_FILES
    {
      snapshot, events, authority, backlog := None, None, None, None;
      readiness, replay, dispatch, mailbox := None, None, None, None;
    }

    ghost function Files(): Image
      reads this
    {
      Image(snapshot, events, authority, backlog, readiness, replay, dispatch, mailbox)
    }

    /**
     Appends one JSON value to `events.json`, which is created when missing.
     The part of the file in front of the closing bracket is not rewritten.
     */
    method AppendEventText(value: Bytes) returns (ok: bool)
      modifies this`events
      ensures ok <==> Appended(BytesOf(old(events)), value).Some?
      ensures events == Some(if ok then Appended(BytesOf(old(events)), value).value else BytesOf(old(events)))
    {
      if events.None? {
        events := Some([]);
      }
      var file := events.value;
      if |file| == 0 {
        events := Some([LBRACKET, NEWLINE] + value + CLOSING);
        return true;
      }
      var at := FindAppendPosition(file, 4096);
      if at.None? {
        return false;
      }
      var (position, empty) := at.value;
      var prefix := if empty then [NEWLINE] else [COMMA, NEWLINE];
      events := Some(Overwritten(file, position, prefix + value + CLOSING));
      return true;
    }

    /** The same for an event: a log that can be read then ends in it. */
    method AppendEvent(codec: Codec, e: Event) returns (ok: bool)
      requires IsFaithful(codec)
      modifies this`events
      ensures LogOf(codec, old(events)).Some? ==>
        ok && LogOf(codec, events) == Some(LogOf(codec, old(events)).value + [e])
      ensures ok ==> events.Some?
    {
      if LogOf(codec, events).Some? {
        AppendedFile(codec, events, LogOf(codec, events).value, e);
      }
      ok := AppendEventText(codec.enc(e));
    }
  }
}
