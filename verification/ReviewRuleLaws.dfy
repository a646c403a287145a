/** What review rules keep over every sequence of scans and commands. */
module ReviewRuleLaws {
  import opened Wrappers
  import opened ReviewRules
  import opened Text

  // ---- Taking rules out of a bucket ---------------------------------------------------

  lemma {:induction false} PickedOfSum(a: seq<Rule>, b: seq<Rule>, sel: seq<string>, now: int)
    ensures Picked(a + b, sel, now) == Picked(a, sel, now) + Picked(b, sel, now)
    ensures Kept(a + b, sel) == Kept(a, sel) + Kept(b, sel)
  {
    if a == [] {
      assert a + b == b;
    } else {
      assert (a + b)[1..] == a[1..] + b;
      PickedOfSum(a[1..], b, sel, now);
    }
  }

  /** Selecting again takes all of the taken rules and none of those left. */
  lemma {:induction false} SelectTwice(rules: seq<Rule>, sel: seq<string>, was: int, now: int)
    ensures Picked(Picked(rules, sel, was), sel, now) == Picked(rules, sel, now)
    ensures Kept(Picked(rules, sel, was), sel) == []
    ensures Kept(Kept(rules, sel), sel) == Kept(rules, sel)
    ensures Picked(Kept(rules, sel), sel, now) == []
  {
    if rules != [] {
      SelectTwice(rules[1..], sel, was, now);
      if Selects(sel, rules[0].id) {
        assert Picked(rules, sel, was)[1..] == Picked(rules[1..], sel, was);
      } else {
        assert Kept(rules, sel)[1..] == Kept(rules[1..], sel);
      }
    }
  }

  lemma {:induction false} PickedHolds(rules: seq<Rule>, sel: seq<string>, now: int, r: Rule)
    ensures r in Picked(rules, sel, now) <==>
      exists was :: was in rules && Selects(sel, was.id) && r == was.(updatedAt := now)
    ensures r in Kept(rules, sel) <==> r in rules && !Selects(sel, r.id)
  {
    if rules != [] {
      PickedHolds(rules[1..], sel, now, r);
      assert forall x :: x in rules <==> x == rules[0] || x in rules[1..];
    }
  }

  // ---- Counting ------------------------------------------------------------------------

  function IdOf(r: Rule): string { r.id }

  /** A rule without its time. */
  function Plain(r: Rule): Rule { r.(updatedAt := 0) }

  function Tally<T>(rules: seq<Rule>, f: Rule -> T): multiset<T> {
    if rules == [] then multiset{} else multiset{f(rules[0])} + Tally(rules[1..], f)
  }

  ghost predicate IgnoresTime<T(!new)>(f: Rule -> T) {
    forall r: Rule, t: int :: f(r.(updatedAt := t)) == f(r)
  }

  lemma {:induction false} TallyOfSum<T>(a: seq<Rule>, b: seq<Rule>, f: Rule -> T)
    ensures Tally(a + b, f) == Tally(a, f) + Tally(b, f)
  {
    if a == [] {
      assert a + b == b;
    } else {
      assert (a + b)[1..] == a[1..] + b;
      TallyOfSum(a[1..], b, f);
    }
  }

  lemma {:induction false} TallyHas(rules: seq<Rule>, id: string)
    ensures Tally(rules, IdOf)[id] > 0 <==> HasId(rules, id)
  {
    if rules != [] {
      TallyHas(rules[1..], id);
      assert forall x :: x in rules <==> x == rules[0] || x in rules[1..];
    }
  }

  lemma {:induction false} TallyOfSplit<T(!new)>(rules: seq<Rule>, sel: seq<string>, now: int, f: Rule -> T)
    requires IgnoresTime(f)
    ensures Tally(Picked(rules, sel, now), f) + Tally(Kept(rules, sel), f) == Tally(rules, f)
  {
    if rules != [] {
      TallyOfSplit(rules[1..], sel, now, f);
      if Selects(sel, rules[0].id) {
        assert Picked(rules, sel, now)[1..] == Picked(rules[1..], sel, now);
        assert f(rules[0].(updatedAt := now)) == f(rules[0]);
      } else {
        assert Kept(rules, sel)[1..] == Kept(rules[1..], sel);
      }
    }
  }

  lemma TallyOfAll<T>(d: Document, f: Rule -> T)
    ensures Tally(All(d), f) == Tally(d.approved, f) + Tally(d.pending, f) + Tally(d.disabled, f) + Tally(d.archived, f)
  {
    TallyOfSum(d.approved, d.pending, f);
    TallyOfSum(d.approved + d.pending, d.disabled, f);
    TallyOfSum(d.approved + d.pending + d.disabled, d.archived, f);
  }

  /** Moving rules into one bucket loses none, makes none, and changes nothing but their times. */
  lemma MovedKeeps<T(!new)>(d: Document, to: State, sel: seq<string>, now: int, f: Rule -> T)
    requires IgnoresTime(f)
    ensures Tally(All(Moved(d, to, sel, now)), f) == Tally(All(d), f)
  {
    var m := Moved(d, to, sel, now);
    var kept := Document(Kept(d.approved, sel), Kept(d.pending, sel), Kept(d.disabled, sel), Kept(d.archived, sel), 0);
    FilledTally(d, Approved, to, sel, now, f);
    FilledTally(d, Pending, to, sel, now, f);
    FilledTally(d, Disabled, to, sel, now, f);
    FilledTally(d, Archived, to, sel, now, f);
    PickedOfAll(d, sel, now);
    TallyOfSplit(All(d), sel, now, f);
    TallyOfAll(m, f);
    TallyOfAll(kept, f);
    Gathered(to, Tally(kept.approved, f), Tally(kept.pending, f), Tally(kept.disabled, f), Tally(kept.archived, f),
             Tally(Picked(All(d), sel, now), f));
  }

  lemma Gathered<T>(to: State, a: multiset<T>, p: multiset<T>, x: multiset<T>, r: multiset<T>, m: multiset<T>)
    ensures (a + if to == Approved then m else multiset{}) + (p + if to == Pending then m else multiset{})
          + (x + if to == Disabled then m else multiset{}) + (r + if to == Archived then m else multiset{})
          == m + (a + p + x + r)
  {
  }

  lemma FilledTally<T>(d: Document, s: State, to: State, sel: seq<string>, now: int, f: Rule -> T)
    ensures Tally(Filled(d, s, to, sel, now), f) ==
      Tally(Kept(Bucket(d, s), sel), f) + if s == to then Tally(Picked(All(d), sel, now), f) else multiset{}
  {
    TallyOfSum(Kept(Bucket(d, s), sel), if s == to then Picked(All(d), sel, now) else [], f);
  }

  lemma PickedOfAll(d: Document, sel: seq<string>, now: int)
    ensures Picked(All(d), sel, now) ==
      Picked(d.approved, sel, now) + Picked(d.pending, sel, now)
      + Picked(d.disabled, sel, now) + Picked(d.archived, sel, now)
    ensures Kept(All(d), sel) ==
      Kept(d.approved, sel) + Kept(d.pending, sel) + Kept(d.disabled, sel) + Kept(d.archived, sel)
  {
    PickedOfSum(d.approved, d.pending, sel, now);
    PickedOfSum(d.approved + d.pending, d.disabled, sel, now);
    PickedOfSum(d.approved + d.pending + d.disabled, d.archived, sel, now);
  }

  lemma ApprovedKeeps<T(!new)>(d: Document, sel: seq<string>, now: int, f: Rule -> T)
    requires IgnoresTime(f)
    ensures Tally(All(WithApproved(d, sel, now)), f) == Tally(All(d), f)
  {
    TallyOfAll(WithApproved(d, sel, now), f);
    TallyOfAll(d, f);
    TallyOfSum(d.approved, Picked(d.pending, sel, now), f);
    TallyOfSplit(d.pending, sel, now, f);
  }

  /** Every command but a scan keeps the rules, up to their times: none is lost, made, or doubled. */
  lemma CommandsKeepRules<T(!new)>(d: Document, step: Step, f: Rule -> T)
    requires !step.Scan? && Apply(d, step).Ok? && IgnoresTime(f)
    ensures Tally(All(Apply(d, step).value), f) == Tally(All(d), f)
  {
    if step.Approve? {
      ApprovedKeeps(d, Cleaned(step.args), step.now, f);
    } else {
      MovedKeeps(d, Target(step.action), Cleaned(step.args), step.now, f);
    }
  }

  // ---- Where a rule ends up ---------------------------------------------------------------

  /** A command moves exactly the selected rules to its bucket, stamped, and leaves the others where and as they are. */
  lemma MovesExactly(d: Document, action: Action, args: seq<string>, now: int, s: State, r: Rule)
    requires Apply(d, Rewrite(action, args, now)).Ok?
    ensures r in Bucket(Apply(d, Rewrite(action, args, now)).value, s) <==>
      || (r in Bucket(d, s) && !Selects(Cleaned(args), r.id))
      || (s == Target(action)
          && exists was :: was in All(d) && Selects(Cleaned(args), was.id) && r == was.(updatedAt := now))
  {
    PickedHolds(Bucket(d, s), Cleaned(args), now, r);
    PickedHolds(All(d), Cleaned(args), now, r);
  }

  /** An approval moves exactly the selected pending rules behind the approved ones. */
  lemma ApprovesExactly(d: Document, args: seq<string>, now: int, r: Rule)
    requires Apply(d, Approve(args, now)).Ok?
    ensures var next := Apply(d, Approve(args, now)).value;
      && next.disabled == d.disabled && next.archived == d.archived && d.approved <= next.approved
      && (r in next.pending <==> r in d.pending && !Selects(Cleaned(args), r.id))
      && (r in next.approved <==>
            || r in d.approved
            || exists was :: was in d.pending && Selects(Cleaned(args), was.id) && r == was.(updatedAt := now))
  {
    PickedHolds(d.pending, Cleaned(args), now, r);
  }

  /** A command fails exactly when it was given no id, or none of a rule; an approval looks at pending rules only. */
  lemma FailsExactly(d: Document, action: Action, args: seq<string>, now: int)
    ensures Apply(d, Rewrite(action, args, now)) == Err(MissingRuleId) <==> Cleaned(args) == []
    ensures Apply(d, Rewrite(action, args, now)) == Err(NothingMatched) <==>
      Cleaned(args) != [] && forall r :: r in All(d) ==> !Selects(Cleaned(args), r.id)
    ensures Apply(d, Approve(args, now)) == Err(MissingRuleId) <==> Cleaned(args) == []
    ensures Apply(d, Approve(args, now)) == Err(NothingMatched) <==>
      Cleaned(args) != [] && forall r :: r in d.pending ==> !Selects(Cleaned(args), r.id)
  {
    NothingPicked(All(d), Cleaned(args), now);
    NothingPicked(d.pending, Cleaned(args), now);
  }

  lemma NothingPicked(rules: seq<Rule>, sel: seq<string>, now: int)
    ensures Picked(rules, sel, now) == [] <==> forall r :: r in rules ==> !Selects(sel, r.id)
  {
    forall r | r in rules ensures Selects(sel, r.id) ==> r.(updatedAt := now) in Picked(rules, sel, now) {
      PickedHolds(rules, sel, now, r.(updatedAt := now));
    }
    if Picked(rules, sel, now) != [] {
      PickedHolds(rules, sel, now, Picked(rules, sel, now)[0]);
    }
  }

  /** Of two commands for the same rules only the last one counts. */
  lemma LastActionWins(d: Document, first: Action, last: Action, args: seq<string>, was: int, now: int)
    requires Apply(d, Rewrite(first, args, was)).Ok?
    ensures Apply(Apply(d, Rewrite(first, args, was)).value, Rewrite(last, args, now))
      == Apply(d, Rewrite(last, args, now))
  {
    MovedTwice(d, Target(first), Target(last), Cleaned(args), was, now);
    NothingPicked(All(d), Cleaned(args), was);
    NothingPicked(All(d), Cleaned(args), now);
  }

  lemma PickedAgain(d: Document, to: State, sel: seq<string>, was: int, now: int)
    ensures Picked(All(Moved(d, to, sel, was)), sel, now) == Picked(All(d), sel, now)
  {
    MovedBucket(d, Approved, to, sel, was, now);
    MovedBucket(d, Pending, to, sel, was, now);
    MovedBucket(d, Disabled, to, sel, was, now);
    MovedBucket(d, Archived, to, sel, was, now);
    PickedOfAll(Moved(d, to, sel, was), sel, now);
  }

  lemma FilledTwice(d: Document, s: State, first: State, last: State, sel: seq<string>, was: int, now: int)
    ensures Filled(Moved(d, first, sel, was), s, last, sel, now) == Filled(d, s, last, sel, now)
  {
    MovedBucket(d, s, first, sel, was, now);
    PickedAgain(d, first, sel, was, now);
    assert Bucket(Moved(d, first, sel, was), s) == Filled(d, s, first, sel, was);
  }

  lemma MovedTwice(d: Document, first: State, last: State, sel: seq<string>, was: int, now: int)
    ensures Picked(All(Moved(d, first, sel, was)), sel, now) == Picked(All(d), sel, now)
    ensures Moved(Moved(d, first, sel, was), last, sel, now) == Moved(d, last, sel, now)
  {
    PickedAgain(d, first, sel, was, now);
    FilledTwice(d, Approved, first, last, sel, was, now);
    FilledTwice(d, Pending, first, last, sel, was, now);
    FilledTwice(d, Disabled, first, last, sel, was, now);
    FilledTwice(d, Archived, first, last, sel, was, now);
  }

  lemma MovedBucket(d: Document, s: State, to: State, sel: seq<string>, was: int, now: int)
    ensures Kept(Filled(d, s, to, sel, was), sel) == Kept(Bucket(d, s), sel)
    ensures Picked(Filled(d, s, to, sel, was), sel, now) == if s == to then Picked(All(d), sel, now) else []
  {
    PickedOfSum(Kept(Bucket(d, s), sel), if s == to then Picked(All(d), sel, was) else [], sel, now);
    SelectTwice(Bucket(d, s), sel, was, now);
    SelectTwice(All(d), sel, was, now);
  }

  // ---- Scans ---------------------------------------------------------------------------------

  /** A scan proposes exactly the candidates that are not decided, and leaves the decided rules alone. */
  lemma ScansExactly(d: Document, candidates: seq<Rule>, now: int, r: Rule)
    ensures var next := Apply(d, Scan(candidates, now)).value;
      && next.approved == d.approved && next.disabled == d.disabled && next.archived == d.archived
      && (r in next.pending <==>
            exists c :: c in candidates && (c.id == "" || !HasId(Decided(d), c.id)) && r == Timed(d, c))
  {
    ProposedHolds(d, candidates, r);
  }

  lemma {:induction false} ProposedHolds(d: Document, candidates: seq<Rule>, r: Rule)
    ensures r in Proposed(d, candidates) <==>
      exists c :: c in candidates && (c.id == "" || !HasId(Decided(d), c.id)) && r == Timed(d, c)
  {
    if candidates != [] {
      ProposedHolds(d, candidates[1..], r);
      assert forall x :: x in candidates <==> x == candidates[0] || x in candidates[1..];
    }
  }

  lemma {:induction false} ProposedIds(d: Document, candidates: seq<Rule>)
    ensures Tally(Proposed(d, candidates), IdOf) <= Tally(candidates, IdOf)
  {
    if candidates != [] {
      ProposedIds(d, candidates[1..]);
      if !(candidates[0].id != "" && HasId(Decided(d), candidates[0].id)) {
        assert Proposed(d, candidates)[1..] == Proposed(d, candidates[1..]);
      }
    }
  }

  // ---- Runs ------------------------------------------------------------------------------------

  /** Every rule has an id, and no two have the same: a rule stands in one bucket, once. */
  ghost predicate IsSound(d: Document) {
    && !HasId(All(d), "")
    && forall id :: Tally(All(d), IdOf)[id] <= 1
  }

  /** A scan comes up with each candidate once. */
  ghost predicate IsProper(step: Step) {
    step.Scan? ==> !HasId(step.candidates, "") && forall id :: Tally(step.candidates, IdOf)[id] <= 1
  }

  lemma IdsAdd(d: Document, id: string)
    ensures Tally(All(d), IdOf)[id] == Tally(Bucket(d, Approved), IdOf)[id] + Tally(Bucket(d, Pending), IdOf)[id]
                                     + Tally(Bucket(d, Disabled), IdOf)[id] + Tally(Bucket(d, Archived), IdOf)[id]
  {
    TallyOfAll(d, IdOf);
  }

  lemma InOneBucket(d: Document, s: State, t: State, id: string)
    requires IsSound(d) && HasId(Bucket(d, s), id) && HasId(Bucket(d, t), id)
    ensures s == t
  {
    IdsAdd(d, id);
    forall u: State ensures Tally(Bucket(d, u), IdOf)[id] > 0 <==> HasId(Bucket(d, u), id) {
      TallyHas(Bucket(d, u), id);
    }
    assert Tally(All(d), IdOf)[id] <= 1;
    assert Tally(Bucket(d, s), IdOf)[id] > 0 && Tally(Bucket(d, t), IdOf)[id] > 0;
  }

  lemma StepKeepsSound(d: Document, step: Step)
    requires IsSound(d) && IsProper(step) && Apply(d, step).Ok?
    ensures IsSound(Apply(d, step).value)
  {
    var next := Apply(d, step).value;
    TallyHas(All(d), "");
    TallyHas(All(next), "");
    if step.Scan? {
      TallyHas(step.candidates, "");
      forall id ensures Tally(All(next), IdOf)[id] <= if id == "" then 0 else 1 {
        ScanKeepsSound(d, step.candidates, step.now, id);
      }
    } else {
      CommandsKeepRules(d, step, IdOf);
    }
  }

  lemma ScanKeepsSound(d: Document, candidates: seq<Rule>, now: int, id: string)
    requires Tally(All(d), IdOf)[id] <= if id == "" then 0 else 1
    requires Tally(candidates, IdOf)[id] <= if id == "" then 0 else 1
    ensures Tally(All(Scanned(d, candidates, now)), IdOf)[id] <= if id == "" then 0 else 1
  {
    IdsAdd(d, id);
    IdsAdd(Scanned(d, candidates, now), id);
    ProposedCount(d, candidates, id);
  }

  /** Of an id a scan proposes no more than its candidates, and none that is decided. */
  lemma ProposedCount(d: Document, candidates: seq<Rule>, id: string)
    ensures Tally(Proposed(d, candidates), IdOf)[id] <= Tally(candidates, IdOf)[id]
    ensures id != "" && Tally(d.approved, IdOf)[id] + Tally(d.disabled, IdOf)[id] + Tally(d.archived, IdOf)[id] > 0 ==>
      Tally(Proposed(d, candidates), IdOf)[id] == 0
  {
    ProposedIds(d, candidates);
    TallyOfSum(d.approved, d.disabled, IdOf);
    TallyOfSum(d.approved + d.disabled, d.archived, IdOf);
    TallyHas(Decided(d), id);
    if id != "" && HasId(Decided(d), id) {
      NotProposed(d, candidates, id);
      TallyHas(Proposed(d, candidates), id);
    }
  }

  /** What is decided is not proposed. */
  lemma NotProposed(d: Document, candidates: seq<Rule>, id: string)
    requires id != "" && HasId(Decided(d), id)
    ensures !HasId(Proposed(d, candidates), id)
  {
    forall r | r in Proposed(d, candidates) ensures r.id != id {
      ProposedHolds(d, candidates, r);
      TimedId(d);
    }
  }

  lemma TimedId(d: Document)
    ensures forall c :: Timed(d, c).id == c.id
  {
  }

  /** Over every sequence of scans and commands each rule stays in exactly one bucket. */
  lemma {:induction false} RunsAreSound(d: Document, steps: seq<Step>)
    requires IsSound(d) && forall i :: 0 <= i < |steps| ==> IsProper(steps[i])
    ensures IsSound(After(d, steps))
    decreases |steps|
  {
    if steps != [] {
      if Apply(d, steps[0]).Ok? {
        StepKeepsSound(d, steps[0]);
        RunsAreSound(Apply(d, steps[0]).value, steps[1..]);
      } else {
        RunsAreSound(d, steps[1..]);
      }
    }
  }

  /** A decided rule stays a decided rule, with the same contents. */
  lemma StepKeepsDecided(d: Document, step: Step, r: Rule) returns (r': Rule)
    requires r in Decided(d) && Apply(d, step).Ok?
    ensures r' in Decided(Apply(d, step).value) && Plain(r') == Plain(r)
  {
    var next := Apply(d, step).value;
    match step
    case Scan(_, _) =>
      r' := r;
    case Approve(_, _) =>
      r' := r;
    case Rewrite(action, args, now) =>
      r' := if Selects(Cleaned(args), r.id) then r.(updatedAt := now) else r;
      var s := if r in d.approved then Approved else if r in d.disabled then Disabled else Archived;
      var t := if Selects(Cleaned(args), r.id) then Target(action) else s;
      assert r in All(d);
      MovesExactly(d, action, args, now, t, r');
      assert r' in Bucket(next, t);
  }

  /**
   Once a rule was approved, disabled or archived it is never lost and never
   proposed again, whatever scans and commands follow.
   */
  lemma {:induction false} DecidedStays(d: Document, steps: seq<Step>, r: Rule) returns (r': Rule)
    requires IsSound(d) && r in Decided(d) && forall i :: 0 <= i < |steps| ==> IsProper(steps[i])
    ensures r' in Decided(After(d, steps)) && Plain(r') == Plain(r)
    ensures !HasId(After(d, steps).pending, r.id)
    decreases |steps|
  {
    if steps == [] {
      r' := r;
      DecidedIsNotPending(d, r);
    } else if Apply(d, steps[0]).Ok? {
      StepKeepsSound(d, steps[0]);
      r' := StepKeepsDecided(d, steps[0], r);
      r' := DecidedStays(Apply(d, steps[0]).value, steps[1..], r');
    } else {
      r' := DecidedStays(d, steps[1..], r);
    }
  }

  lemma DecidedIsNotPending(d: Document, r: Rule)
    requires IsSound(d) && r in Decided(d)
    ensures !HasId(d.pending, r.id)
  {
    var s := if r in d.approved then Approved else if r in d.disabled then Disabled else Archived;
    assert r in Bucket(d, s);
    if HasId(d.pending, r.id) {
      InOneBucket(d, s, Pending, r.id);
    }
  }

  // ---- Which bucket ------------------------------------------------------------------------------

  /** Some argument, without white space around it, names the rule, or all rules. */
  predicate Names(args: seq<string>, id: string) {
    exists a :: a in args && Trim(a) != "" && (Trim(a) == id || Trim(a) == "all")
  }

  lemma {:induction false} NamesExactly(args: seq<string>, id: string)
    ensures Selects(Cleaned(args), id) <==> Names(args, id)
  {
    CleanedHolds(args, id);
    CleanedHolds(args, "all");
  }

  lemma {:induction false} CleanedHolds(args: seq<string>, word: string)
    ensures word in Cleaned(args) <==> word != "" && exists a :: a in args && Trim(a) == word
  {
    if args != [] {
      CleanedHolds(args[1..], word);
      assert args == [args[0]] + args[1..];
      assert args[0] in args;
    }
  }

  /** The bucket of the action: enabled rules are approved ones. */
  predicate StandsWhere(d: Document, action: Action, r: Rule) {
    match action
    case Enable => r in d.approved
    case Disable => r in d.disabled
    case Archive => r in d.archived
  }

  /** In a sound document an id stands in one bucket only. */
  lemma OnlyInBucket(d: Document, s: State, id: string)
    requires IsSound(d) && HasId(Bucket(d, s), id)
    ensures forall t: State :: HasId(Bucket(d, t), id) <==> t == s
  {
    forall t: State ensures HasId(Bucket(d, t), id) <==> t == s {
      if HasId(Bucket(d, t), id) { InOneBucket(d, s, t, id); }
    }
  }

  lemma NamedIsMoved(d: Document, action: Action, args: seq<string>, now: int, r: Rule)
    requires r in All(d) && Names(args, r.id)
    ensures Apply(d, Rewrite(action, args, now)).Ok?
    ensures r.(updatedAt := now) in Bucket(Apply(d, Rewrite(action, args, now)).value, Target(action))
  {
    NamesExactly(args, r.id);
    FailsExactly(d, action, args, now);
    MovesExactly(d, action, args, now, Target(action), r.(updatedAt := now));
  }

  /** Every rule that a command names stands, stamped, in the bucket of its action and in no other one. */
  lemma ActionExactly(d: Document, action: Action, args: seq<string>, now: int, r: Rule)
    requires IsSound(d) && r in All(d) && Names(args, r.id)
    ensures Apply(d, Rewrite(action, args, now)).Ok?
    ensures var next := Apply(d, Rewrite(action, args, now)).value;
      && StandsWhere(next, action, r.(updatedAt := now))
      && (HasId(next.approved, r.id) <==> action == Enable)
      && (HasId(next.disabled, r.id) <==> action == Disable)
      && (HasId(next.archived, r.id) <==> action == Archive)
      && !HasId(next.pending, r.id)
  {
    NamedIsMoved(d, action, args, now, r);
    StepKeepsSound(d, Rewrite(action, args, now));
    StandsOnlyThere(Apply(d, Rewrite(action, args, now)).value, action, r.(updatedAt := now));
  }

  lemma StandsOnlyThere(next: Document, action: Action, moved: Rule)
    requires IsSound(next) && moved in Bucket(next, Target(action))
    ensures StandsWhere(next, action, moved)
    ensures HasId(next.approved, moved.id) <==> action == Enable
    ensures HasId(next.disabled, moved.id) <==> action == Disable
    ensures HasId(next.archived, moved.id) <==> action == Archive
    ensures !HasId(next.pending, moved.id)
  {
    OnlyInBucket(next, Target(action), moved.id);
    assert HasId(Bucket(next, Approved), moved.id) <==> Approved == Target(action);
    assert HasId(Bucket(next, Pending), moved.id) <==> Pending == Target(action);
    assert HasId(Bucket(next, Disabled), moved.id) <==> Disabled == Target(action);
    assert HasId(Bucket(next, Archived), moved.id) <==> Archived == Target(action);
  }

  /** A command that is neither a scan nor names a rule leaves the rule where it stands. */
  lemma UnnamedStays(d: Document, step: Step, s: State, r: Rule)
    requires r in Bucket(d, s) && s != Pending && Apply(d, step).Ok?
    requires step.Rewrite? ==> !Names(step.args, r.id)
    ensures r in Bucket(Apply(d, step).value, s)
  {
    if step.Rewrite? {
      NamesExactly(step.args, r.id);
      MovesExactly(d, step.action, step.args, step.now, s, r);
    }
  }

  lemma {:induction false} UnnamedStaysOver(d: Document, steps: seq<Step>, s: State, r: Rule)
    requires r in Bucket(d, s) && s != Pending
    requires forall i :: 0 <= i < |steps| && steps[i].Rewrite? ==> !Names(steps[i].args, r.id)
    ensures r in Bucket(After(d, steps), s)
    decreases |steps|
  {
    if steps != [] {
      if Apply(d, steps[0]).Ok? {
        UnnamedStays(d, steps[0], s, r);
        UnnamedStaysOver(Apply(d, steps[0]).value, steps[1..], s, r);
      } else {
        UnnamedStaysOver(d, steps[1..], s, r);
      }
    }
  }

  /** Over every sequence of steps a rule ends up, stamped, in the bucket of the last command that names it. */
  lemma LastNamedDecides(d: Document, action: Action, args: seq<string>, now: int, steps: seq<Step>, r: Rule)
    requires IsSound(d) && r in All(d) && Names(args, r.id)
    requires forall i :: 0 <= i < |steps| && steps[i].Rewrite? ==> !Names(steps[i].args, r.id)
    ensures StandsWhere(After(d, [Rewrite(action, args, now)] + steps), action, r.(updatedAt := now))
  {
    var first := Rewrite(action, args, now);
    ActionExactly(d, action, args, now, r);
    assert ([first] + steps)[1..] == steps;
    var s := match action case Enable => Approved case Disable => Disabled case Archive => Archived;
    UnnamedStaysOver(Apply(d, first).value, steps, s, r.(updatedAt := now));
  }

  /** One rule stands in front of another one. */
  ghost predicate Before(rules: seq<Rule>, x: Rule, y: Rule) {
    exists i, j :: 0 <= i < j < |rules| && rules[i] == x && rules[j] == y
  }

  lemma BeforeOfSum(a: seq<Rule>, b: seq<Rule>, x: Rule, y: Rule)
    ensures Before(a + b, x, y) <==> Before(a, x, y) || Before(b, x, y) || (x in a && y in b)
  {
    var c := a + b;
    if Before(a, x, y) {
      var i, j :| 0 <= i < j < |a| && a[i] == x && a[j] == y;
      assert c[i] == x && c[j] == y;
    } else if Before(b, x, y) {
      var i, j :| 0 <= i < j < |b| && b[i] == x && b[j] == y;
      assert c[|a| + i] == x && c[|a| + j] == y;
    } else if x in a && y in b {
      var i :| 0 <= i < |a| && a[i] == x;
      var j :| 0 <= j < |b| && b[j] == y;
      assert c[i] == x && c[|a| + j] == y;
    }
  }

  lemma NoneBeforeInOne(x: Rule)
    ensures forall y, z :: !Before([x], y, z)
  {
  }

  lemma {:induction false} SplitKeepsOrder(rules: seq<Rule>, sel: seq<string>, now: int, x: Rule, y: Rule)
    ensures Before(Kept(rules, sel), x, y) <==> Before(rules, x, y) && !Selects(sel, x.id) && !Selects(sel, y.id)
    ensures Before(rules, x, y) && Selects(sel, x.id) && Selects(sel, y.id) ==>
      Before(Picked(rules, sel, now), x.(updatedAt := now), y.(updatedAt := now))
  {
    if rules != [] {
      var first, rest := [rules[0]], rules[1..];
      SplitKeepsOrder(rest, sel, now, x, y);
      NoneBeforeInOne(rules[0]);
      assert rules == first + rest;
      BeforeOfSum(first, rest, x, y);
      PickedHolds(rest, sel, now, y);
      PickedHolds(rest, sel, now, y.(updatedAt := now));
      if Selects(sel, rules[0].id) {
        NoneBeforeInOne(rules[0].(updatedAt := now));
        BeforeOfSum([rules[0].(updatedAt := now)], Picked(rest, sel, now), x.(updatedAt := now),
                    y.(updatedAt := now));
      } else {
        BeforeOfSum(first, Kept(rest, sel), x, y);
      }
    }
  }

  /** Unnamed rules keep their order, and the named ones follow in theirs. */
  lemma OrderExactly(d: Document, action: Action, args: seq<string>, now: int, s: State, x: Rule, y: Rule)
    requires Apply(d, Rewrite(action, args, now)).Ok?
    ensures var next := Apply(d, Rewrite(action, args, now)).value;
      && (Before(Bucket(d, s), x, y) && !Names(args, x.id) && !Names(args, y.id) ==> Before(Bucket(next, s), x, y))
      && (s == Target(action) && x in Bucket(d, s) && !Names(args, x.id) && y in All(d) && Names(args, y.id) ==>
            Before(Bucket(next, s), x, y.(updatedAt := now)))
      && (s == Target(action) && Before(All(d), x, y) && Names(args, x.id) && Names(args, y.id) ==>
            Before(Bucket(next, s), x.(updatedAt := now), y.(updatedAt := now)))
  {
    var sel := Cleaned(args);
    NamesExactly(args, x.id);
    NamesExactly(args, y.id);
    SplitKeepsOrder(Bucket(d, s), sel, now, x, y);
    SplitKeepsOrder(All(d), sel, now, x, y);
    PickedHolds(Bucket(d, s), sel, now, x);
    PickedHolds(All(d), sel, now, y.(updatedAt := now));
    if s == Target(action) {
      var kept, picked := Kept(Bucket(d, s), sel), Picked(All(d), sel, now);
      BeforeOfSum(kept, picked, x, y);
      BeforeOfSum(kept, picked, x, y.(updatedAt := now));
      BeforeOfSum(kept, picked, x.(updatedAt := now), y.(updatedAt := now));
    }
  }

  /** A candidate that is not decided is proposed with the time at which it last became pending, or else its own. */
  lemma ProposedTimeExactly(d: Document, candidates: seq<Rule>, now: int, c: Rule)
    requires c in candidates && (c.id == "" || !HasId(Decided(d), c.id))
    ensures var pending := Apply(d, Scan(candidates, now)).value.pending;
      && (!HasId(d.pending, c.id) ==> c in pending)
      && (forall i :: 0 <= i < |d.pending| && IsLastWith(d.pending, i, c.id) ==>
            c.(updatedAt := d.pending[i].updatedAt) in pending)
  {
    LastWithIs(d.pending, c.id);
    ProposedHolds(d, candidates, Timed(d, c));
  }

  predicate IsLastWith(rules: seq<Rule>, i: int, id: string)
    requires 0 <= i < |rules|
  {
    rules[i].id == id && forall j :: i < j < |rules| ==> rules[j].id != id
  }

  lemma {:induction false} LastWithIs(rules: seq<Rule>, id: string)
    ensures LastWith(rules, id).None? <==> !HasId(rules, id)
    ensures forall i :: 0 <= i < |rules| && IsLastWith(rules, i, id) ==> LastWith(rules, id) == Some(rules[i])
  {
    if rules != [] {
      var front, last := rules[..|rules| - 1], rules[|rules| - 1];
      assert rules == front + [last];
      LastWithIs(front, id);
      assert last in rules;
      if last.id != id {
        forall i | 0 <= i < |rules| && IsLastWith(rules, i, id) ensures LastWith(front, id) == Some(rules[i]) {
          assert i < |front| && front[i] == rules[i] && IsLastWith(front, i, id);
        }
      }
    }
  }
}
