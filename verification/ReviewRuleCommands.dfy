/** The loops that scan results and commands run over the rules file. */
module ReviewRuleCommands {
  import opened ReviewRuleLaws
  import opened ReviewRules
  import opened Text
  import opened Wrappers

  method CleanSelectors(values: seq<string>) returns (out: seq<string>)
    ensures out == Cleaned(values)
  {
    out := [];
    for i := 0 to |values|
      invariant Cleaned(values) == out + Cleaned(values[i..])
    {
      var trimmed := Trim(values[i]);
      assert values[i..][1..] == values[i + 1..];
      if trimmed != "" {
        out := out + [trimmed];
      }
    }
  }

  method ApprovePending(d: Document, sel: seq<string>, now: int) returns (moved: nat, updated: Document)
    ensures moved == |Picked(d.pending, sel, now)|
    ensures updated == if moved == 0 then d else WithApproved(d, sel, now)
  {
    var approved, remaining := d.approved, [];
    moved := 0;
    for i := 0 to |d.pending|
      invariant approved + Picked(d.pending[i..], sel, now) == d.approved + Picked(d.pending, sel, now)
      invariant remaining + Kept(d.pending[i..], sel) == Kept(d.pending, sel)
      invariant moved + |Picked(d.pending[i..], sel, now)| == |Picked(d.pending, sel, now)|
    {
      var rule := d.pending[i];
      assert d.pending[i..][1..] == d.pending[i + 1..];
      if Selects(sel, rule.id) {
        approved := approved + [rule.(updatedAt := now)];
        moved := moved + 1;
      } else {
        remaining := remaining + [rule];
      }
    }
    if moved == 0 {
      return 0, d;
    }
    updated := d.(approved := approved, pending := remaining, updatedAt := now);
  }

  /** Takes the selected rules out of a bucket. */
  method Take(buckets: map<State, seq<Rule>>, s: State, sel: seq<string>, now: int)
    returns (moved: seq<Rule>, left: map<State, seq<Rule>>)
    requires s in buckets
    ensures moved == Picked(buckets[s], sel, now)
    ensures left == buckets[s := Kept(buckets[s], sel)]
  {
    var rules, kept := buckets[s], [];
    moved := [];
    for i := 0 to |rules|
      invariant moved + Picked(rules[i..], sel, now) == Picked(rules, sel, now)
      invariant kept + Kept(rules[i..], sel) == Kept(rules, sel)
    {
      assert rules[i..][1..] == rules[i + 1..];
      if Selects(sel, rules[i].id) {
        moved := moved + [rules[i].(updatedAt := now)];
      } else {
        kept := kept + [rules[i]];
      }
    }
    assert kept == Kept(rules, sel);
    left := buckets[s := kept];
  }

  /** Takes the selected rules out of every bucket. */
  method TakeAll(d: Document, sel: seq<string>, now: int) returns (moved: seq<Rule>, buckets: map<State, seq<Rule>>)
    ensures moved == Picked(All(d), sel, now)
    ensures forall s: State :: s in buckets && buckets[s] == Kept(Bucket(d, s), sel)
  {
    buckets := map[Approved := d.approved, Pending := d.pending, Disabled := d.disabled, Archived := d.archived];
    var approved, pending, disabled, archived;
    approved, buckets := Take(buckets, Approved, sel, now);
    pending, buckets := Take(buckets, Pending, sel, now);
    disabled, buckets := Take(buckets, Disabled, sel, now);
    archived, buckets := Take(buckets, Archived, sel, now);
    PickedOfAll(d, sel, now);
    moved := approved + pending + disabled + archived;
    forall s: State ensures s in buckets && buckets[s] == Kept(Bucket(d, s), sel) {
      match s
      case Approved =>
      case Pending =>
      case Disabled =>
      case Archived =>
    }
  }

  /** Puts the selected rules of every bucket behind those of the target. */
  method RewriteLifecycle(d: Document, action: Action, sel: seq<string>, now: int)
    returns (moved: nat, updated: Document)
    ensures moved == |Picked(All(d), sel, now)|
    ensures updated == if moved == 0 then d else Moved(d, Target(action), sel, now)
  {
    var all, buckets := TakeAll(d, sel, now);
    if all == [] {
      return 0, d;
    }
    buckets := buckets[Target(action) := buckets[Target(action)] + all];
    assert forall s: State :: buckets[s] == Filled(d, s, Target(action), sel, now);
    return |all|, Document(buckets[Approved], buckets[Pending], buckets[Disabled], buckets[Archived], now);
  }

  /** The rules by id; of two with the same id the later one. */
  method ById(rules: seq<Rule>) returns (byId: map<string, Rule>)
    ensures forall id :: id in byId <==> HasId(rules, id)
    ensures forall id :: id in byId ==> LastWith(rules, id) == Some(byId[id])
    ensures forall id :: id !in byId ==> LastWith(rules, id) == None
    ensures forall id :: id in byId ==> byId[id].id == id
  {
    byId := map[];
    for i := 0 to |rules|
      invariant forall id :: id in byId <==> HasId(rules[..i], id)
      invariant forall id :: id in byId ==> LastWith(rules[..i], id) == Some(byId[id]) && byId[id].id == id
      invariant forall id :: id !in byId ==> LastWith(rules[..i], id) == None
    {
      assert rules[..i + 1] == rules[..i] + [rules[i]];
      assert rules[..i + 1][..i] == rules[..i];
      byId := byId[rules[i].id := rules[i]];
    }
    assert rules[..|rules|] == rules;
  }

  /** Gives the candidates that are pending the time they had. */
  method KeepTimes(existing: Document, candidates: seq<Rule>) returns (normalized: seq<Rule>)
    ensures |normalized| == |candidates|
    ensures forall k :: 0 <= k < |candidates| ==> normalized[k] == Timed(existing, candidates[k])
  {
    var pendingById := ById(existing.pending);
    normalized := [];
    for i := 0 to |candidates|
      invariant |normalized| == i
      invariant forall k :: 0 <= k < i ==> normalized[k] == Timed(existing, candidates[k])
    {
      var rule := candidates[i];
      if rule.id in pendingById {
        rule := rule.(updatedAt := pendingById[rule.id].updatedAt);
      }
      normalized := normalized + [rule];
    }
  }

  method MergeScan(existing: Document, candidates: seq<Rule>, now: int) returns (document: Document)
    ensures document == Scanned(existing, candidates, now)
  {
    var approvedById := ById(existing.approved);
    var disabledById := ById(existing.disabled);
    var archivedById := ById(existing.archived);
    DecidedHas(existing);
    var normalized := KeepTimes(existing, candidates);
    var pending := [];
    for i := 0 to |normalized|
      invariant pending + Proposed(existing, candidates[i..]) == Proposed(existing, candidates)
    {
      var rule := normalized[i];
      assert candidates[i..][1..] == candidates[i + 1..];
      assert rule.id == candidates[i].id;
      if rule.id == "" || !(rule.id in approvedById || rule.id in disabledById || rule.id in archivedById) {
        pending := pending + [rule];
      }
    }
    document := existing.(pending := pending, updatedAt := now);
  }

  lemma DecidedHas(d: Document)
    ensures forall id ::
      HasId(Decided(d), id) <==> HasId(d.approved, id) || HasId(d.disabled, id) || HasId(d.archived, id)
  {
  }

  /** The file that holds a repository's rules. */
  class RulesFile {
    var stored: Option<Document>

    constructor ()
      ensures stored == None
    {
      stored := None;
    }

    function Existing(): Document
      reads this
    {
      if stored.Some? then stored.value else Document([], [], [], [], 0)
    }

    method Scan(candidates: seq<Rule>, now: int)
      modifies this
      ensures stored == Some(old(Apply(Existing(), Step.Scan(candidates, now))).value)
    {
      var document := MergeScan(Existing(), candidates, now);
      stored := Some(document);
    }

    /** Runs a command on the rules; one that fails leaves the file as it was. */
    method RunCommand(step: Step) returns (error: Option<Error>)
      requires !step.Scan?
      modifies this
      ensures old(stored).None? ==> error == Some(NoRulesFile) && stored == None
      ensures old(stored).Some? && Apply(old(stored).value, step).Ok? ==>
        error == None && stored == Some(Apply(old(stored).value, step).value)
      ensures old(stored).Some? && Apply(old(stored).value, step).Err? ==>
        error == Some(Apply(old(stored).value, step).error) && stored == old(stored)
    {
      if stored.None? {
        return Some(NoRulesFile);
      }
      var sel := CleanSelectors(step.args);
      if sel == [] {
        return Some(MissingRuleId);
      }
      var moved, updated;
      if step.Approve? {
        moved, updated := ApprovePending(stored.value, sel, step.now);
      } else {
        moved, updated := RewriteLifecycle(stored.value, step.action, sel, step.now);
      }
      if moved == 0 {
        return Some(NothingMatched);
      }
      stored := Some(updated);
      return None;
    }
  }
}
