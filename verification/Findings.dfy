/**
 Findings: what a report's upsert, a promotion, a dismissal and the other
 steps do to the findings of one repository.

 Every look at the clock is later than all looks before, so the clock is the
 number of looks taken; identifiers made from the clock are therefore fresh.
 Texts are kept in the trimmed and normalised form in which they are stored.
 */
module Findings {
  import opened Wrappers

  type Id = nat
  type Time = int

  datatype Status = Open | Promoted | Dismissed | Deleted | Resolved

  datatype Key = Key(kind: string, sourceId: string, itemId: string)

  datatype Content = Content(
    title: string,
    summary: string,
    detail: string,
    evidence: string,
    severity: string,
    workType: string,
    files: seq<string>,
    path: string,
    line: int,
    route: string,
    page: string)

  datatype Parent = Parent(kind: string, id: string)

  datatype Finding = Finding(
    id: Id,
    repo: string,
    key: Key,
    parent: Parent,
    content: Content,
    status: Status,
    deletedFromStatus: Option<Status>,
    deletedAt: Option<Time>,
    promotedTask: Option<Id>,
    dismissReason: string,
    resolvedAt: Option<Time>,
    createdAt: Option<Time>,
    updatedAt: Option<Time>)

  datatype ItemState = Queued | Launching | Launched | Failed

  datatype PlannedItem = PlannedItem(id: Id, title: string, priority: int, createdAt: Time, state: ItemState)

  datatype State = State(findings: map<Id, Finding>, planned: map<Id, PlannedItem>, clock: Id)

  datatype Input = Input(repo: string, key: Key, parent: Parent, content: Content,
                         createdAt: Option<Time>, updatedAt: Option<Time>)

  datatype Error = NotFound(id: Id) | IsDeleted(id: Id) | NotDeleted(id: Id) | NotRemovable(id: Id)

  // ---- Looking a finding up ------------------------------------------------------

  lemma {:induction false} HasLeast(ids: set<Id>)
    requires ids != {}
    ensures exists least :: least in ids && forall id :: id in ids ==> least <= id
  {
    var x :| x in ids;
    if ids != {x} {
      var rest := ids - {x};
      HasLeast(rest);
      var y :| y in rest && forall id :: id in rest ==> y <= id;
      var least := if x <= y then x else y;
      assert forall id :: id in ids ==> id == x || id in rest;
      assert least in ids && forall id :: id in ids ==> least <= id;
    }
  }

  function Least(ids: set<Id>): (least: Id)
    requires ids != {}
    ensures least in ids && forall id :: id in ids ==> least <= id
  {
    HasLeast(ids);
    var least :| least in ids && forall id :: id in ids ==> least <= id;
    least
  }

  function IdsWith(findings: map<Id, Finding>, key: Key): set<Id> {
    set id | id in findings && findings[id].key == key
  }

  /** The finding with the key; of several, the one whose identifier sorts first. */
  function FindBySource(findings: map<Id, Finding>, key: Key): Option<Id> {
    var ids := IdsWith(findings, key);
    if ids == {} then None else Some(Least(ids))
  }

  // ---- Upsert ---------------------------------------------------------------------

  function Or<T>(value: Option<T>, default: T): T {
    if value.Some? then value.value else default
  }

  /** A finding after a report mentioned it again at time `now`. */
  function Updated(f: Finding, input: Input, now: Time, createdAt: Time): Finding {
    f.(repo := if input.repo != "" then input.repo else f.repo,
       key := input.key, parent := input.parent, content := input.content,
       createdAt := if f.createdAt.Some? then f.createdAt else Some(createdAt),
       updatedAt := if f.status == Deleted then f.updatedAt else Some(now),
       status := if f.status == Resolved then Open else f.status,
       resolvedAt := if f.status == Resolved then None else f.resolvedAt)
  }

  const BLANK_CONTENT := Content("", "", "", "", "", "", [], "", 0, "", "")

  function NewFinding(id: Id, input: Input, createdAt: Time): Finding {
    Finding(id, input.repo, Key("", "", ""), Parent("", ""), BLANK_CONTENT, Open, None, None, None, "", None,
            Some(createdAt), None)
  }

  datatype Upserted = Upserted(state: State, id: Id, changed: bool)

  /** The clock is read for the time in any case, and for the identifier of a new finding. */
  function Upsert(s: State, input: Input): Upserted {
    var now := Or(input.updatedAt, s.clock);
    var createdAt := Or(input.createdAt, now);
    match FindBySource(s.findings, input.key)
    case None =>
      var id := s.clock + 1;
      var f := Updated(NewFinding(id, input, createdAt), input, now, createdAt);
      Upserted(s.(findings := s.findings[id := f], clock := id + 1), id, true)
    case Some(id) =>
      var f := Updated(s.findings[id], input, now, createdAt);
      Upserted(s.(findings := if f == s.findings[id] then s.findings else s.findings[id := f], clock := s.clock + 1),
               id, f != s.findings[id])
  }

  // ---- Promotion ----------------------------------------------------------------------

  function Priority(severity: string): int {
    if severity == "critical" then 0 else if severity == "high" then 1 else if severity == "medium" then 2 else 3
  }

  function PromotedTo(f: Finding, item: Id, now: Time): Finding {
    f.(promotedTask := Some(item), status := Promoted, deletedFromStatus := None, deletedAt := None,
       updatedAt := Some(now), resolvedAt := None)
  }

  function PlannedFor(f: Finding, item: Id, now: Time): PlannedItem {
    PlannedItem(item, "Address finding: " + f.content.title, Priority(f.content.severity), now, Queued)
  }

  /** Makes a planned item for a finding, unless it has one that still exists. */
  function Promote(s: State, id: Id): Result<State, Error> {
    if id !in s.findings then Err(NotFound(id))
    else if s.findings[id].status == Deleted then Err(IsDeleted(id))
    else if s.findings[id].promotedTask.Some? && s.findings[id].promotedTask.value in s.planned then Ok(s)
    else
      var now, item := s.clock, s.clock + 1;
      var f := s.findings[id];
      Ok(State(s.findings[id := PromotedTo(f, item, now)], s.planned[item := PlannedFor(f, item, now)], item + 1))
  }

  /** Whether a sync that promotes automatically leaves the finding alone. */
  predicate IsSpared(f: Finding) {
    f.promotedTask.Some? || f.status == Dismissed || f.status == Deleted
  }

  function AutoPromote(s: State, auto: bool, id: Id): (State, bool)
    requires id in s.findings
  {
    if !auto || IsSpared(s.findings[id]) then (s, false)
    else
      match Promote(s, id)
      case Ok(s') => (s', true)
      case Err(_) => (s, false)
  }

  // ---- Sync ------------------------------------------------------------------------------

  datatype Source = Source(kind: string, id: string)

  /** One entry of a report. */
  datatype Proposal = Proposal(itemId: string, content: Content)

  /**
   A report that is synced: where it comes from, and the time it carries.  A
   report without a time of its own has that of the planned item that led to it.
   */
  datatype Report = Report(source: Source, repo: string, parent: Parent, auto: bool, stamp: Option<Time>,
                           proposals: seq<Proposal>)

  predicate IsReported(p: Proposal) {
    p.content.title != "" && p.content.summary != ""
  }

  function KeyOf(source: Source, itemId: string): Key {
    Key(source.kind, source.id, itemId)
  }

  function InputOf(r: Report, p: Proposal, stamp: Time): Input {
    Input(r.repo, KeyOf(r.source, p.itemId), r.parent, p.content, Some(stamp), Some(stamp))
  }

  /** Upserts one proposal and promotes its finding when the report asks for it. */
  function SyncOne(s: State, r: Report, p: Proposal, stamp: Time): (State, bool) {
    if !IsReported(p) then (s, false)
    else
      var u := Upsert(s, InputOf(r, p, stamp));
      assert u.id in u.state.findings;
      var (s', promoted) := AutoPromote(u.state, r.auto, u.id);
      (s', u.changed || promoted)
  }

  function SyncAll(s: State, r: Report, proposals: seq<Proposal>, stamp: Time): (State, bool) {
    if proposals == [] then (s, false)
    else
      var last := |proposals| - 1;
      var (s', changed) := SyncAll(s, r, proposals[..last], stamp);
      var (s'', changed') := SyncOne(s', r, proposals[last], stamp);
      (s'', changed || changed')
  }

  function SeenIn(proposals: seq<Proposal>): set<string> {
    set p | p in proposals && IsReported(p) :: p.itemId
  }

  predicate IsOf(f: Finding, source: Source) {
    f.key.kind == source.kind && f.key.sourceId == source.id
  }

  /** A finding that the source no longer reports and that is still alive. */
  predicate IsMissing(f: Finding, source: Source, seen: set<string>) {
    IsOf(f, source) && f.key.itemId !in seen && f.status != Dismissed && f.status != Deleted && f.status != Resolved
  }

  function ResolvedAt(f: Finding, now: Time): Finding {
    f.(status := Resolved, resolvedAt := Some(now), updatedAt := Some(now))
  }

  function MissingIds(findings: map<Id, Finding>, source: Source, seen: set<string>): set<Id> {
    set id | id in findings && IsMissing(findings[id], source, seen)
  }

  /** Resolves the findings that the source no longer reports; without findings not even the clock is read. */
  function MarkMissing(s: State, source: Source, seen: set<string>): (State, bool) {
    if s.findings == map[] then (s, false)
    else
      var missing := MissingIds(s.findings, source, seen);
      var findings := map id | id in s.findings ::
        if id in missing then ResolvedAt(s.findings[id], s.clock) else s.findings[id];
      (s.(findings := findings, clock := s.clock + 1), missing != {})
  }

  /** One sync: missing findings are looked for only when nothing else changed. */
  function Sync(s: State, r: Report): (State, bool) {
    var stamp := Or(r.stamp, s.clock);
    var (s', changed) := SyncAll(s.(clock := s.clock + 1), r, r.proposals, stamp);
    if changed then (s', true) else MarkMissing(s', r.source, SeenIn(r.proposals))
  }

  // ---- User actions -------------------------------------------------------------------------

  function Dismiss(s: State, id: Id, reason: string): Result<State, Error> {
    if id !in s.findings then Err(NotFound(id))
    else if s.findings[id].status == Deleted then Err(IsDeleted(id))
    else
      var f := s.findings[id].(status := Dismissed, deletedFromStatus := None, deletedAt := None,
                               dismissReason := reason, updatedAt := Some(s.clock));
      Ok(s.(findings := s.findings[id := f], clock := s.clock + 1))
  }

  /** What a deleted finding comes back as; a blank earlier status counts as open. */
  function RestoredStatus(f: Finding): Status {
    match f.deletedFromStatus
    case None => Open
    case Some(Open) => Open
    case Some(Promoted) => Promoted
    case Some(_) => Dismissed
  }

  function Restore(s: State, id: Id): Result<State, Error> {
    if id !in s.findings then Err(NotFound(id))
    else if s.findings[id].status != Deleted then Err(NotDeleted(id))
    else
      var f := s.findings[id];
      var f' := f.(status := RestoredStatus(f), deletedFromStatus := None, deletedAt := None,
                   updatedAt := Some(s.clock));
      Ok(s.(findings := s.findings[id := f'], clock := s.clock + 1))
  }

  // ---- Planned items ------------------------------------------------------------------------

  /** A user plans some work that no finding asked for. */
  function Queue(s: State, title: string, priority: int): State {
    var now, item := s.clock, s.clock + 1;
    s.(planned := s.planned[item := PlannedItem(item, title, priority, now, Queued)], clock := item + 1)
  }

  /** The scheduler notes how far an item got. */
  function Advance(s: State, item: Id, state: ItemState): State {
    if item !in s.planned then s else s.(planned := s.planned[item := s.planned[item].(state := state)])
  }

  predicate IsRemovable(item: PlannedItem) {
    item.state == Queued || item.state == Failed
  }

  /** A user drops an item that was not launched. */
  function Drop(s: State, item: Id): Result<State, Error> {
    if item !in s.planned then Err(NotFound(item))
    else if !IsRemovable(s.planned[item]) then Err(NotRemovable(item))
    else Ok(s.(planned := s.planned - {item}))
  }
}
