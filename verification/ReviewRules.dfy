/** Review rules: scans propose them, people approve, enable, disable and archive them. */
module ReviewRules {
  import opened Wrappers
  import opened Text

  /** A rule; everything a scan found out about it besides its id is one token. */
  datatype Rule = Rule(id: string, details: int, updatedAt: int)

  datatype State = Approved | Pending | Disabled | Archived

  datatype Document = Document(
    approved: seq<Rule>, pending: seq<Rule>, disabled: seq<Rule>, archived: seq<Rule>, updatedAt: int)

  datatype Action = Enable | Disable | Archive

  datatype Step =
    | Scan(candidates: seq<Rule>, now: int)
    | Approve(args: seq<string>, now: int)
    | Rewrite(action: Action, args: seq<string>, now: int)

  datatype Error = NoRulesFile | MissingRuleId | NothingMatched

  function Target(action: Action): State {
    match action
    case Enable => Approved
    case Disable => Disabled
    case Archive => Archived
  }

  function Bucket(d: Document, s: State): seq<Rule> {
    match s
    case Approved => d.approved
    case Pending => d.pending
    case Disabled => d.disabled
    case Archived => d.archived
  }

  function All(d: Document): seq<Rule> {
    d.approved + d.pending + d.disabled + d.archived
  }

  /** Approved, disabled or archived: a scan has nothing more to say about these. */
  function Decided(d: Document): seq<Rule> {
    d.approved + d.disabled + d.archived
  }

  // ---- What the commands do ------------------------------------------------------------

  function Cleaned(args: seq<string>): seq<string> {
    if args == [] then []
    else if Trim(args[0]) == "" then Cleaned(args[1..])
    else [Trim(args[0])] + Cleaned(args[1..])
  }

  predicate Selects(sel: seq<string>, id: string) {
    "all" in sel || id in sel
  }

  /** The selected rules, stamped. */
  function Picked(rules: seq<Rule>, sel: seq<string>, now: int): seq<Rule> {
    if rules == [] then []
    else if Selects(sel, rules[0].id) then [rules[0].(updatedAt := now)] + Picked(rules[1..], sel, now)
    else Picked(rules[1..], sel, now)
  }

  function Kept(rules: seq<Rule>, sel: seq<string>): seq<Rule> {
    if rules == [] then []
    else if Selects(sel, rules[0].id) then Kept(rules[1..], sel)
    else [rules[0]] + Kept(rules[1..], sel)
  }

  /** A bucket once the selected rules were taken out of it, and put behind the rest if it is the target. */
  function Filled(d: Document, s: State, to: State, sel: seq<string>, now: int): seq<Rule> {
    Kept(Bucket(d, s), sel) + if s == to then Picked(All(d), sel, now) else []
  }

  /** Every selected rule is put in one bucket. */
  function Moved(d: Document, to: State, sel: seq<string>, now: int): Document {
    Document(Filled(d, Approved, to, sel, now), Filled(d, Pending, to, sel, now), Filled(d, Disabled, to, sel, now),
             Filled(d, Archived, to, sel, now), now)
  }

  function WithApproved(d: Document, sel: seq<string>, now: int): Document {
    d.(approved := d.approved + Picked(d.pending, sel, now), pending := Kept(d.pending, sel), updatedAt := now)
  }

  predicate HasId(rules: seq<Rule>, id: string) {
    exists r :: r in rules && r.id == id
  }

  /** The rule kept for an id: the last one. */
  function LastWith(rules: seq<Rule>, id: string): Option<Rule> {
    if rules == [] then None
    else if rules[|rules| - 1].id == id then Some(rules[|rules| - 1])
    else LastWith(rules[..|rules| - 1], id)
  }

  /** A candidate that was pending keeps its time. */
  function Timed(d: Document, c: Rule): Rule {
    match LastWith(d.pending, c.id)
    case None => c
    case Some(was) => c.(updatedAt := was.updatedAt)
  }

  /** A rule that is decided is not proposed again. */
  function Proposed(d: Document, candidates: seq<Rule>): seq<Rule> {
    if candidates == [] then []
    else if candidates[0].id != "" && HasId(Decided(d), candidates[0].id) then Proposed(d, candidates[1..])
    else [Timed(d, candidates[0])] + Proposed(d, candidates[1..])
  }

  function Scanned(d: Document, candidates: seq<Rule>, now: int): Document {
    d.(pending := Proposed(d, candidates), updatedAt := now)
  }

  function Apply(d: Document, step: Step): Result<Document, Error> {
    match step
    case Scan(candidates, now) => Ok(Scanned(d, candidates, now))
    case Approve(args, now) =>
      if Cleaned(args) == [] then Err(MissingRuleId)
      else if Picked(d.pending, Cleaned(args), now) == [] then Err(NothingMatched)
      else Ok(WithApproved(d, Cleaned(args), now))
    case Rewrite(action, args, now) =>
      if Cleaned(args) == [] then Err(MissingRuleId)
      else if Picked(All(d), Cleaned(args), now) == [] then Err(NothingMatched)
      else Ok(Moved(d, Target(action), Cleaned(args), now))
  }

  /** A command that fails writes nothing. */
  function After(d: Document, steps: seq<Step>): Document
    decreases |steps|
  {
    if steps == [] then d
    else After(match Apply(d, steps[0]) case Err(_) => d case Ok(next) => next, steps[1..])
  }
}
