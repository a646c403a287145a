/** When a pull request may be merged: the reviewers' last word, and the gates in front of the merge. */
module Approval {
  import opened Text
  import opened Wrappers

  /** A review as the service lists it. */
  datatype Review = Review(id: int, login: string, state: string)

  datatype Reason = NoReviewers | ChangesRequested(login: string) | NoApproval | Satisfied

  function Cleaned(login: string): string {
    LowerAll(Trim(if login != "" && login[0] == '@' then login[1..] else login))
  }

  predicate IsReviewer(login: string) {
    login != "" && login != "*"
  }

  function Login(r: Review): string {
    LowerAll(Trim(r.login))
  }

  predicate Approves(r: Review) {
    UpperAll(Trim(r.state)) == "APPROVED"
  }

  predicate RequestsChanges(r: Review) {
    UpperAll(Trim(r.state)) == "CHANGES_REQUESTED"
  }

  /** The review that counts for a reviewer: the highest id, of those the first listed. */
  function Latest(reviews: seq<Review>, login: string): Option<Review> {
    if reviews == [] then None
    else
      var before, r := Latest(reviews[..|reviews| - 1], login), reviews[|reviews| - 1];
      if Login(r) == login && (before.None? || r.id > before.value.id) then Some(r) else before
  }

  // ---- Which words count ------------------------------------------------------------------

  /** The same character, but for the case of an ASCII letter. */
  predicate SameLetter(c: char, d: char) {
    || c == d
    || ('A' <= c <= 'Z' && d as int == c as int + 32)
    || ('A' <= d <= 'Z' && c as int == d as int + 32)
  }

  /** The same text, but for case. */
  predicate Alike(s: string, t: string) {
    |s| == |t| && forall i :: 0 <= i < |s| ==> SameLetter(s[i], t[i])
  }

  lemma CaseIsFree(s: string, t: string)
    ensures LowerAll(s) == LowerAll(t) <==> Alike(s, t)
    ensures UpperAll(s) == UpperAll(t) <==> Alike(s, t)
  {
    if |s| == |t| {
      forall i | 0 <= i < |s|
        ensures Lower(s[i]) == Lower(t[i]) <==> SameLetter(s[i], t[i])
        ensures Upper(s[i]) == Upper(t[i]) <==> SameLetter(s[i], t[i])
      {
      }
      assert LowerAll(s) == LowerAll(t) ==> forall i :: 0 <= i < |s| ==> LowerAll(s)[i] == LowerAll(t)[i];
      assert UpperAll(s) == UpperAll(t) ==> forall i :: 0 <= i < |s| ==> UpperAll(s)[i] == UpperAll(t)[i];
    }
  }

  lemma Shouted(state: string)
    requires state != "" && forall i :: 0 <= i < |state| ==> 'A' <= state[i] <= '_'
    ensures UpperAll(Trim(state)) == UpperAll(state) == state
  {
    assert !IsSpace(state[0]) && !IsSpace(state[|state| - 1]);
    assert forall i :: 0 <= i < |state| ==> Upper(state[i]) == state[i];
  }

  /** A review approves, or requests changes, exactly when it says so, in any case and with white space around it. */
  lemma StatesExactly(r: Review)
    ensures Approves(r) <==> Alike(Trim(r.state), "APPROVED")
    ensures RequestsChanges(r) <==> Alike(Trim(r.state), "CHANGES_REQUESTED")
    ensures !(Approves(r) && RequestsChanges(r))
  {
    Shouted("APPROVED");
    Shouted("CHANGES_REQUESTED");
    CaseIsFree(Trim(r.state), "APPROVED");
    CaseIsFree(Trim(r.state), "CHANGES_REQUESTED");
  }

  /** A comment, a dismissed review and one not yet sent neither approve nor request changes. */
  lemma OtherStatesAreSilent(id: int, login: string)
    ensures forall state :: state == "COMMENTED" || state == "DISMISSED" || state == "PENDING" ==>
      !Approves(Review(id, login, state)) && !RequestsChanges(Review(id, login, state))
  {
    Shouted("COMMENTED");
    Shouted("DISMISSED");
    Shouted("PENDING");
    assert "COMMENTED"[0] == 'C' && "APPROVED"[0] == 'A';
  }

  function Eligible(controlPlane: seq<string>): set<string> {
    set v | v in controlPlane && IsReviewer(Cleaned(v)) :: Cleaned(v)
  }

  /** An entry of the control plane without the @ in front and the white space around it. */
  function Entry(v: string): string {
    Trim(if v != "" && v[0] == '@' then v[1..] else v)
  }

  /**
   A review counts exactly when some entry of the control plane spells its
   login, but for case, white space and an @ in front; a blank entry and "*"
   spell nobody's.
   */
  lemma EligibleExactly(controlPlane: seq<string>, r: Review)
    ensures Login(r) in Eligible(controlPlane) <==>
      Trim(r.login) != "" && Trim(r.login) != "*" && exists v :: v in controlPlane && Alike(Entry(v), Trim(r.login))
  {
    forall v ensures Cleaned(v) == Login(r) <==> Alike(Entry(v), Trim(r.login)) {
      CaseIsFree(Entry(v), Trim(r.login));
    }
    StarIsPlain(Trim(r.login));
  }

  lemma StarIsPlain(s: string)
    ensures IsReviewer(LowerAll(s)) <==> s != "" && s != "*"
  {
    if |s| == 1 {
      assert LowerAll(s)[0] == Lower(s[0]);
    }
  }

  // ---- What the answer means -----------------------------------------------------------

  /** No review of the same reviewer has a higher id. */
  ghost predicate IsLastWord(reviews: seq<Review>, r: Review) {
    r in reviews && forall x :: x in reviews && Login(x) == Login(r) ==> x.id <= r.id
  }

  /** Some eligible reviewer's last word approves, and none requests changes. */
  ghost predicate IsApproved(eligible: set<string>, reviews: seq<Review>) {
    && (exists r :: IsLastWord(reviews, r) && Login(r) in eligible && Approves(r))
    && (forall r :: IsLastWord(reviews, r) && Login(r) in eligible ==> !RequestsChanges(r))
  }

  ghost predicate IsApprover(eligible: set<string>, reviews: seq<Review>, l: string) {
    l in eligible && Latest(reviews, l).Some? && Approves(Latest(reviews, l).value)
  }

  ghost predicate IsObjector(eligible: set<string>, reviews: seq<Review>, l: string) {
    l in eligible && Latest(reviews, l).Some? && RequestsChanges(Latest(reviews, l).value)
  }

  /** The same, of the reviews the fold picks. */
  ghost predicate LatestApprove(eligible: set<string>, reviews: seq<Review>) {
    (exists l :: IsApprover(eligible, reviews, l)) && forall l :: !IsObjector(eligible, reviews, l)
  }

  lemma {:induction false} LatestIsLastWord(reviews: seq<Review>, login: string)
    ensures Latest(reviews, login).Some? ==>
      IsLastWord(reviews, Latest(reviews, login).value) && Login(Latest(reviews, login).value) == login
    ensures Latest(reviews, login).None? ==> forall x :: x in reviews ==> Login(x) != login
  {
    if reviews != [] {
      var front, last := reviews[..|reviews| - 1], reviews[|reviews| - 1];
      LatestIsLastWord(front, login);
      assert reviews == front + [last];
    }
  }

  /** The reviewer has at most one last word. */
  ghost predicate HasOneWord(reviews: seq<Review>, login: string) {
    forall x, y :: IsLastWord(reviews, x) && IsLastWord(reviews, y) && Login(x) == login && Login(y) == login ==> x == y
  }

  /** Where every reviewer that counts has one last word, the fold picks it. */
  lemma LatestIsApproved(eligible: set<string>, reviews: seq<Review>)
    requires forall l :: l in eligible ==> HasOneWord(reviews, l)
    ensures LatestApprove(eligible, reviews) <==> IsApproved(eligible, reviews)
  {
    forall l | l in eligible && Latest(reviews, l).Some?
      ensures IsLastWord(reviews, Latest(reviews, l).value) && Login(Latest(reviews, l).value) == l
    {
      LatestIsLastWord(reviews, l);
    }
    forall r | IsLastWord(reviews, r) && Login(r) in eligible
      ensures Approves(r) ==> IsApprover(eligible, reviews, Login(r))
      ensures RequestsChanges(r) ==> IsObjector(eligible, reviews, Login(r))
    {
      LatestIsLastWord(reviews, Login(r));
      assert Latest(reviews, Login(r)) == Some(r);
    }
  }

  /** The order of the list does not matter where every reviewer that counts has one last word. */
  lemma OrderIsFree(eligible: set<string>, one: seq<Review>, other: seq<Review>)
    requires forall r :: r in one <==> r in other
    requires forall l :: l in eligible ==> HasOneWord(one, l)
    ensures LatestApprove(eligible, one) <==> LatestApprove(eligible, other)
  {
    assert forall r :: IsLastWord(one, r) <==> IsLastWord(other, r);
    LatestIsApproved(eligible, one);
    LatestIsApproved(eligible, other);
  }

  /** A last word that is listed first is what the fold picks. */
  lemma {:induction false} FirstIsPicked(reviews: seq<Review>)
    requires reviews != [] && IsLastWord(reviews, reviews[0])
    ensures Latest(reviews, Login(reviews[0])) == Some(reviews[0])
  {
    var front := reviews[..|reviews| - 1];
    if front == [] {
      assert reviews[..0] == [];
    } else {
      assert forall x :: x in front ==> x in reviews;
      FirstIsPicked(front);
      assert reviews[|reviews| - 1] in reviews;
    }
  }

  /** The same reviews with one of them listed first. */
  lemma ListedFirst(reviews: seq<Review>, r: Review) returns (other: seq<Review>)
    requires r in reviews
    ensures multiset(other) == multiset(reviews) && other != [] && other[0] == r
    ensures forall x :: x in other <==> x in reviews
  {
    var i :| 0 <= i < |reviews| && reviews[i] == r;
    other := [r] + (reviews[..i] + reviews[i + 1..]);
    assert reviews == reviews[..i] + ([r] + reviews[i + 1..]);
    assert forall x :: x in other <==> x in multiset(other);
    assert forall x :: x in reviews <==> x in multiset(reviews);
  }

  /** What the fold picks for a reviewer does not depend on the order exactly when the reviewer has one last word. */
  lemma LatestIsFreeExactly(reviews: seq<Review>, login: string)
    ensures HasOneWord(reviews, login) <==>
      forall other :: multiset(other) == multiset(reviews) ==> Latest(other, login) == Latest(reviews, login)
  {
    if HasOneWord(reviews, login) {
      forall other | multiset(other) == multiset(reviews) ensures Latest(other, login) == Latest(reviews, login) {
        assert forall x :: x in other <==> x in multiset(other);
        assert forall x :: x in reviews <==> x in multiset(reviews);
        LatestIsLastWord(reviews, login);
        LatestIsLastWord(other, login);
      }
    } else {
      var x, y :| IsLastWord(reviews, x) && IsLastWord(reviews, y) && Login(x) == login && Login(y) == login && x != y;
      var xs := ListedFirst(reviews, x);
      var ys := ListedFirst(reviews, y);
      FirstIsPicked(xs);
      FirstIsPicked(ys);
      assert Latest(xs, login) != Latest(ys, login);
    }
  }

  // ---- When the answer depends on the order -----------------------------------------------

  function Where(reviews: seq<Review>, want: Review -> bool): seq<Review> {
    if reviews == [] then []
    else (if want(reviews[0]) then [reviews[0]] else []) + Where(reviews[1..], want)
  }

  lemma {:induction false} WhereHolds(reviews: seq<Review>, want: Review -> bool)
    ensures multiset(Where(reviews, want) + Where(reviews, r => !want(r))) == multiset(reviews)
    ensures forall r :: r in Where(reviews, want) <==> r in reviews && want(r)
  {
    if reviews != [] {
      var first, rest := [reviews[0]], reviews[1..];
      var yes, no := Where(rest, want), Where(rest, r => !want(r));
      WhereHolds(rest, want);
      assert reviews == first + rest;
      assert want(reviews[0]) ==> Where(reviews, want) == first + yes;
      assert multiset(yes + no) == multiset(yes) + multiset(no);
    }
  }

  /** The first listed of a reviewer's last words is the one that is picked. */
  lemma {:induction false} FirstWordIsPicked(reviews: seq<Review>, i: nat)
    requires i < |reviews| && IsLastWord(reviews, reviews[i])
    requires forall j :: 0 <= j < i && Login(reviews[j]) == Login(reviews[i]) ==> reviews[j].id < reviews[i].id
    ensures Latest(reviews, Login(reviews[i])) == Some(reviews[i])
  {
    var front, last := reviews[..|reviews| - 1], reviews[|reviews| - 1];
    assert reviews == front + [last];
    if i < |front| {
      assert front[i] == reviews[i];
      FirstWordIsPicked(front, i);
      assert last in reviews;
    } else {
      LatestIsLastWord(front, Login(last));
    }
  }

  lemma {:induction false} FirstWordOf(reviews: seq<Review>, login: string, k: nat) returns (i: nat)
    requires k < |reviews| && IsLastWord(reviews, reviews[k]) && Login(reviews[k]) == login
    ensures i <= k && IsLastWord(reviews, reviews[i]) && Login(reviews[i]) == login
    ensures forall j :: 0 <= j < i && Login(reviews[j]) == login ==> reviews[j].id < reviews[i].id
  {
    if j :| 0 <= j < k && Login(reviews[j]) == login && reviews[j].id >= reviews[k].id {
      assert reviews[j] in reviews;
      i := FirstWordOf(reviews, login, j);
    } else {
      i := k;
    }
  }

  /** An order in which every reviewer with a wanted last word has one picked. */
  lemma OrderFor(reviews: seq<Review>, want: Review -> bool) returns (other: seq<Review>)
    ensures multiset(other) == multiset(reviews)
    ensures forall r :: IsLastWord(reviews, r) && want(r) ==>
      Latest(other, Login(r)).Some? && want(Latest(other, Login(r)).value)
  {
    var front := Where(reviews, want);
    other := front + Where(reviews, r => !want(r));
    WhereHolds(reviews, want);
    SameWords(reviews, other);
    forall r | IsLastWord(reviews, r) && want(r)
      ensures Latest(other, Login(r)).Some? && want(Latest(other, Login(r)).value)
    {
      var k :| 0 <= k < |front| && front[k] == r;
      assert other[k] == r;
      var i := FirstWordOf(other, Login(r), k);
      FirstWordIsPicked(other, i);
      assert other[i] == front[i] && front[i] in front;
    }
  }

  lemma SameWords(one: seq<Review>, other: seq<Review>)
    requires multiset(one) == multiset(other)
    ensures forall r :: IsLastWord(one, r) <==> IsLastWord(other, r)
  {
    assert forall r :: r in one <==> r in multiset(one);
    assert forall r :: r in other <==> r in multiset(other);
  }

  ghost predicate AllApprove(reviews: seq<Review>, login: string) {
    forall r :: IsLastWord(reviews, r) && Login(r) == login ==> Approves(r)
  }

  ghost predicate AllObject(reviews: seq<Review>, login: string) {
    forall r :: IsLastWord(reviews, r) && Login(r) == login ==> RequestsChanges(r)
  }

  /** No last word requests changes, and some eligible reviewer's last words all approve. */
  ghost predicate IsSurelyApproved(eligible: set<string>, reviews: seq<Review>) {
    && (forall r :: IsLastWord(reviews, r) && Login(r) in eligible ==> !RequestsChanges(r))
    && exists r :: IsLastWord(reviews, r) && Login(r) in eligible && AllApprove(reviews, Login(r))
  }

  /** Some last word approves, and no eligible reviewer's last words all request changes. */
  ghost predicate IsPerhapsApproved(eligible: set<string>, reviews: seq<Review>) {
    && (exists r :: IsLastWord(reviews, r) && Login(r) in eligible && Approves(r))
    && (forall r :: IsLastWord(reviews, r) && Login(r) in eligible ==> !AllObject(reviews, Login(r)))
  }

  lemma LatestAreWords(eligible: set<string>, reviews: seq<Review>, other: seq<Review>)
    requires multiset(other) == multiset(reviews)
    ensures forall l :: Latest(other, l).Some? ==>
      IsLastWord(reviews, Latest(other, l).value) && Login(Latest(other, l).value) == l
    ensures forall r :: IsLastWord(reviews, r) ==> Latest(other, Login(r)).Some?
  {
    SameWords(reviews, other);
    forall l
      ensures Latest(other, l).Some? ==>
        IsLastWord(reviews, Latest(other, l).value) && Login(Latest(other, l).value) == l
      ensures Latest(other, l).None? ==> forall r :: IsLastWord(reviews, r) ==> Login(r) != l
    {
      LatestIsLastWord(other, l);
      assert forall r :: IsLastWord(reviews, r) ==> r in other;
    }
  }

  lemma SureInEveryOrder(eligible: set<string>, reviews: seq<Review>, other: seq<Review>)
    requires IsSurelyApproved(eligible, reviews) && multiset(other) == multiset(reviews)
    ensures LatestApprove(eligible, other)
  {
    LatestAreWords(eligible, reviews, other);
    var x :| IsLastWord(reviews, x) && Login(x) in eligible && AllApprove(reviews, Login(x));
    assert IsApprover(eligible, other, Login(x));
    forall l ensures !IsObjector(eligible, other, l) { }
  }

  lemma NoApproverWith(eligible: set<string>, reviews: seq<Review>, other: seq<Review>, l: string)
    requires multiset(other) == multiset(reviews)
    requires forall r :: IsLastWord(reviews, r) && !Approves(r) ==>
      Latest(other, Login(r)).Some? && !Approves(Latest(other, Login(r)).value)
    requires l in eligible ==> forall x :: IsLastWord(reviews, x) && Login(x) == l ==> !AllApprove(reviews, l)
    ensures !IsApprover(eligible, other, l)
  {
    LatestAreWords(eligible, reviews, other);
    if l in eligible && Latest(other, l).Some? {
      assert IsLastWord(reviews, Latest(other, l).value);
      var r :| IsLastWord(reviews, r) && Login(r) == l && !Approves(r);
    }
  }

  lemma UnsureInSomeOrder(eligible: set<string>, reviews: seq<Review>) returns (other: seq<Review>)
    requires !IsSurelyApproved(eligible, reviews)
    ensures multiset(other) == multiset(reviews) && !LatestApprove(eligible, other)
  {
    if x :| IsLastWord(reviews, x) && Login(x) in eligible && RequestsChanges(x) {
      other := OrderFor(reviews, RequestsChanges);
      assert IsObjector(eligible, other, Login(x));
    } else {
      other := OrderFor(reviews, r => !Approves(r));
      forall l ensures !IsApprover(eligible, other, l) { NoApproverWith(eligible, reviews, other, l); }
    }
  }

  /** The answer is yes in every order exactly when it is sure. */
  lemma SurelyExactly(eligible: set<string>, reviews: seq<Review>)
    ensures IsSurelyApproved(eligible, reviews) <==>
      forall other :: multiset(other) == multiset(reviews) ==> LatestApprove(eligible, other)
  {
    if IsSurelyApproved(eligible, reviews) {
      forall other | multiset(other) == multiset(reviews) ensures LatestApprove(eligible, other) {
        SureInEveryOrder(eligible, reviews, other);
      }
    } else {
      var other := UnsureInSomeOrder(eligible, reviews);
    }
  }

  /** What is picked in some order is a last word. */
  lemma PickedIsWord(reviews: seq<Review>, other: seq<Review>, login: string)
    requires multiset(other) == multiset(reviews)
    ensures Latest(other, login).Some? ==>
      IsLastWord(reviews, Latest(other, login).value) && Login(Latest(other, login).value) == login
  {
    SameWords(reviews, other);
    LatestIsLastWord(other, login);
  }

  /** Where every last word that is wanted gives way to none that is not, only wanted ones are picked. */
  lemma OnlyWanted(reviews: seq<Review>, other: seq<Review>, want: Review -> bool, login: string)
    requires multiset(other) == multiset(reviews) && Latest(other, login).Some?
    requires forall r :: IsLastWord(reviews, r) && want(r) ==>
      Latest(other, Login(r)).Some? && want(Latest(other, Login(r)).value)
    requires exists r :: IsLastWord(reviews, r) && Login(r) == login && want(r)
    ensures want(Latest(other, login).value)
  {
    var r :| IsLastWord(reviews, r) && Login(r) == login && want(r);
  }

  predicate Helps(r: Review, login: string) {
    !RequestsChanges(r) && (Login(r) == login ==> Approves(r))
  }

  lemma HelpIsThere(eligible: set<string>, reviews: seq<Review>, y: Review, x: Review)
    requires IsPerhapsApproved(eligible, reviews) && IsLastWord(reviews, y) && Approves(y) && !RequestsChanges(y)
    requires IsLastWord(reviews, x) && Login(x) in eligible
    ensures exists r :: IsLastWord(reviews, r) && Login(r) == Login(x) && Helps(r, Login(y))
  {
    if Login(x) == Login(y) {
      assert Helps(y, Login(y));
    } else {
      var r :| IsLastWord(reviews, r) && Login(r) == Login(x) && !RequestsChanges(r);
      assert Helps(r, Login(y));
    }
  }

  lemma PossibleInSomeOrder(eligible: set<string>, reviews: seq<Review>) returns (other: seq<Review>)
    requires IsPerhapsApproved(eligible, reviews)
    ensures multiset(other) == multiset(reviews) && LatestApprove(eligible, other)
  {
    var y :| IsLastWord(reviews, y) && Login(y) in eligible && Approves(y);
    var want := r => Helps(r, Login(y));
    other := OrderFor(reviews, want);
    forall l | l in eligible && Latest(other, l).Some? ensures Helps(Latest(other, l).value, Login(y)) {
      PickedIsWord(reviews, other, l);
      HelpIsThere(eligible, reviews, y, Latest(other, l).value);
      OnlyWanted(reviews, other, want, l);
    }
    HelpedIsApproved(eligible, reviews, other, y);
  }

  lemma HelpedIsApproved(eligible: set<string>, reviews: seq<Review>, other: seq<Review>, y: Review)
    requires multiset(other) == multiset(reviews) && IsLastWord(reviews, y) && Login(y) in eligible
    requires forall l :: l in eligible && Latest(other, l).Some? ==> Helps(Latest(other, l).value, Login(y))
    ensures LatestApprove(eligible, other)
  {
    LatestAreWords(eligible, reviews, other);
    assert IsApprover(eligible, other, Login(y));
  }

  lemma NotAllObject(eligible: set<string>, reviews: seq<Review>, other: seq<Review>, x: Review)
    requires multiset(other) == multiset(reviews) && LatestApprove(eligible, other)
    requires IsLastWord(reviews, x) && Login(x) in eligible
    ensures !AllObject(reviews, Login(x))
  {
    LatestAreWords(eligible, reviews, other);
    assert !IsObjector(eligible, other, Login(x));
    assert IsLastWord(reviews, Latest(other, Login(x)).value);
  }

  lemma SomeOrderIsPossible(eligible: set<string>, reviews: seq<Review>, other: seq<Review>)
    requires multiset(other) == multiset(reviews) && LatestApprove(eligible, other)
    ensures IsPerhapsApproved(eligible, reviews)
  {
    var l :| IsApprover(eligible, other, l);
    PickedIsWord(reviews, other, l);
    assert IsLastWord(reviews, Latest(other, l).value);
    forall x | IsLastWord(reviews, x) && Login(x) in eligible
      ensures !AllObject(reviews, Login(x))
    {
      NotAllObject(eligible, reviews, other, x);
    }
  }

  /** And in some order exactly when it is possible. */
  lemma PerhapsExactly(eligible: set<string>, reviews: seq<Review>)
    ensures IsPerhapsApproved(eligible, reviews) <==>
      exists other :: multiset(other) == multiset(reviews) && LatestApprove(eligible, other)
  {
    if IsPerhapsApproved(eligible, reviews) {
      var other := PossibleInSomeOrder(eligible, reviews);
    } else {
      forall other | multiset(other) == multiset(reviews) ensures !LatestApprove(eligible, other) {
        if LatestApprove(eligible, other) { SomeOrderIsPossible(eligible, reviews, other); }
      }
    }
  }

  /** The answer is the same in every order exactly when it is sure, or impossible. */
  lemma AnswerIsFreeExactly(eligible: set<string>, reviews: seq<Review>)
    ensures IsSurelyApproved(eligible, reviews) || !IsPerhapsApproved(eligible, reviews) <==>
      forall other :: multiset(other) == multiset(reviews) ==>
        (LatestApprove(eligible, other) <==> LatestApprove(eligible, reviews))
  {
    SurelyExactly(eligible, reviews);
    PerhapsExactly(eligible, reviews);
    assert multiset(reviews) == multiset(reviews);
  }

  ghost predicate DistinctIds(reviews: seq<Review>) {
    forall x, y :: x in reviews && y in reviews && x.id == y.id ==> x == y
  }

  /** Where no two reviews share an id, the order never matters. */
  lemma DistinctIdsAreFree(eligible: set<string>, reviews: seq<Review>, other: seq<Review>)
    requires DistinctIds(reviews) && multiset(other) == multiset(reviews)
    ensures LatestApprove(eligible, other) <==> LatestApprove(eligible, reviews)
  {
    forall l ensures HasOneWord(reviews, l) {
      assert forall x, y :: IsLastWord(reviews, x) && IsLastWord(reviews, y) && Login(x) == l && Login(y) == l ==>
        x.id == y.id;
    }
    assert forall r :: r in other <==> r in multiset(other);
    assert forall r :: r in reviews <==> r in multiset(reviews);
    OrderIsFree(eligible, reviews, other);
  }

  /** Two reviews with the same id are the exception: then the first listed counts. */
  lemma SharedIdDependsOnOrder(yes: Review, no: Review)
    requires yes.id == no.id && Login(yes) == Login(no) && Approves(yes) && RequestsChanges(no)
    ensures LatestApprove({Login(yes)}, [yes, no]) && !LatestApprove({Login(yes)}, [no, yes])
  {
    FirstOfTwo(yes, no, Login(yes));
    FirstOfTwo(no, yes, Login(yes));
    assert IsApprover({Login(yes)}, [yes, no], Login(yes));
    assert IsObjector({Login(yes)}, [no, yes], Login(yes));
  }

  lemma SharedIdsDependOnOrder()
    ensures var yes, no := Review(7, "ann", "APPROVED"), Review(7, "ann", "CHANGES_REQUESTED");
      LatestApprove({Login(yes)}, [yes, no]) && !LatestApprove({Login(yes)}, [no, yes])
  {
    Shouted("APPROVED");
    Shouted("CHANGES_REQUESTED");
    SharedIdDependsOnOrder(Review(7, "ann", "APPROVED"), Review(7, "ann", "CHANGES_REQUESTED"));
  }

  lemma FirstOfTwo(x: Review, y: Review, login: string)
    requires x.id == y.id && Login(x) == login && Login(y) == login
    ensures Latest([x, y], login) == Some(x)
  {
    assert [x, y][..1] == [x] && [x][..0] == [];
    assert Latest([x], login) == Some(x);
  }

  // ---- The fold ----------------------------------------------------------------------------

  /** The reviewers whose word counts, each once. */
  method EligibleReviewers(values: seq<string>) returns (reviewers: seq<string>)
    ensures forall l :: l in reviewers <==> IsReviewer(l) && exists v :: v in values && l == Cleaned(v)
    ensures forall i, j :: 0 <= i < j < |reviewers| ==> reviewers[i] != reviewers[j]
  {
    reviewers := [];
    var seen: set<string> := {};
    for i := 0 to |values|
      invariant forall l :: l in reviewers <==> l in seen
      invariant forall l :: l in reviewers <==> IsReviewer(l) && exists v :: v in values[..i] && l == Cleaned(v)
      invariant forall i, j :: 0 <= i < j < |reviewers| ==> reviewers[i] != reviewers[j]
    {
      var reviewer := Cleaned(values[i]);
      assert values[..i + 1] == values[..i] + [values[i]];
      if IsReviewer(reviewer) && reviewer !in seen {
        seen := seen + {reviewer};
        reviewers := reviewers + [reviewer];
      }
    }
    assert values[..|values|] == values;
  }

  /** Each eligible reviewer's latest review. */
  method LatestReviews(eligible: set<string>, reviews: seq<Review>) returns (latest: map<string, Review>)
    ensures forall l :: l in latest <==> l in eligible && Latest(reviews, l).Some?
    ensures forall l :: l in latest ==> Latest(reviews, l) == Some(latest[l])
  {
    latest := map[];
    for i := 0 to |reviews|
      invariant forall l :: l in latest <==> l in eligible && Latest(reviews[..i], l).Some?
      invariant forall l :: l in latest ==> Latest(reviews[..i], l) == Some(latest[l])
    {
      var review := reviews[i];
      assert reviews[..i + 1] == reviews[..i] + [review] && reviews[..i + 1][..i] == reviews[..i];
      var login := Login(review);
      if login in eligible && (login !in latest || review.id > latest[login].id) {
        latest := latest[login := review];
      }
    }
    assert reviews[..|reviews|] == reviews;
  }

  /** Whether some latest review approves and none requests changes, or why not. */
  method Decide(latest: map<string, Review>) returns (reason: Reason)
    ensures reason == Satisfied <==>
      (exists l :: l in latest && Approves(latest[l])) && forall l :: l in latest ==> !RequestsChanges(latest[l])
    ensures reason == NoApproval <==>
      forall l :: l in latest ==> !Approves(latest[l]) && !RequestsChanges(latest[l])
    ensures reason.ChangesRequested? <==> exists l :: l in latest && RequestsChanges(latest[l])
    ensures reason.ChangesRequested? ==> exists l ::
      l in latest && RequestsChanges(latest[l]) && latest[l].login == reason.login
  {
    var hasApproval := false;
    var left := latest.Keys;
    while left != {}
      invariant left <= latest.Keys
      invariant hasApproval <==> exists l :: l in latest && l !in left && Approves(latest[l])
      invariant forall l :: l in latest && l !in left ==> !RequestsChanges(latest[l])
    {
      var l :| l in left;
      if RequestsChanges(latest[l]) {
        return ChangesRequested(latest[l].login);
      }
      if Approves(latest[l]) {
        hasApproval := true;
      }
      left := left - {l};
    }
    return if hasApproval then Satisfied else NoApproval;
  }

  /** The map of the latest reviews says who approves and who objects. */
  lemma LatestSay(eligible: set<string>, reviews: seq<Review>, latest: map<string, Review>)
    requires forall l :: l in latest <==> l in eligible && Latest(reviews, l).Some?
    requires forall l :: l in latest ==> Latest(reviews, l) == Some(latest[l])
    ensures forall l :: IsApprover(eligible, reviews, l) <==> l in latest && Approves(latest[l])
    ensures forall l :: IsObjector(eligible, reviews, l) <==> l in latest && RequestsChanges(latest[l])
    ensures forall l :: l in latest ==> latest[l] == Latest(reviews, l).value
  {
  }

  /** What the eligible reviewers' latest reviews amount to. */
  method DecideFor(eligible: set<string>, reviews: seq<Review>) returns (reason: Reason)
    ensures reason == Satisfied <==> LatestApprove(eligible, reviews)
    ensures reason == NoApproval <==>
      forall l :: !IsApprover(eligible, reviews, l) && !IsObjector(eligible, reviews, l)
    ensures reason.ChangesRequested? <==> exists l :: IsObjector(eligible, reviews, l)
    ensures reason.ChangesRequested? ==>
      exists l :: IsObjector(eligible, reviews, l) && Latest(reviews, l).value.login == reason.login
  {
    var latest := LatestReviews(eligible, reviews);
    LatestSay(eligible, reviews, latest);
    reason := Decide(latest);
  }

  /** Whether the control-plane reviewers approve, or why not. */
  method ApprovalSatisfied(controlPlane: seq<string>, reviews: seq<Review>) returns (reason: Reason)
    ensures var eligible := Eligible(controlPlane);
      && (reason == Satisfied <==> LatestApprove(eligible, reviews))
      && (reason == NoReviewers <==> eligible == {})
      && (reason == NoApproval <==>
            eligible != {} && forall l :: !IsApprover(eligible, reviews, l) && !IsObjector(eligible, reviews, l))
      && (reason.ChangesRequested? <==> exists l :: IsObjector(eligible, reviews, l))
      && (reason.ChangesRequested? ==>
            exists l :: IsObjector(eligible, reviews, l) && Latest(reviews, l).value.login == reason.login)
  {
    var reviewers := EligibleReviewers(controlPlane);
    var eligible := set l | l in reviewers;
    assert eligible == Eligible(controlPlane);
    if reviewers == [] {
      return NoReviewers;
    }
    assert reviewers[0] in eligible;
    reason := DecideFor(eligible, reviews);
  }

  // ---- The merge ----------------------------------------------------------------------------

  /** A pull request, and what the policy and the checks say about it. */
  datatype Candidate = Candidate(mayMerge: bool, number: int, draft: bool, ciGreen: bool, auto: bool)

  datatype Outcome = NotAttempted | Blocked(reason: Block) | Merged

  datatype Block = NoPullRequest | IsDraft | CINotGreen | ReviewsUnread | NotApproved(why: Reason) | MergeRefused

  /** The gates in front of the reviewers are open. */
  predicate IsReady(c: Candidate) {
    c.mayMerge && c.number > 0 && !c.draft && c.ciGreen
  }

  ghost predicate ReviewersApprove(controlPlane: seq<string>, reviews: Option<seq<Review>>) {
    reviews.Some? && LatestApprove(Eligible(controlPlane), reviews.value)
  }

  /**
   Merges past every gate, the first closed one being the answer. The service
   is asked to merge only once all of them are open.
   */
  method EnsureMerge(c: Candidate, controlPlane: seq<string>, reviews: Option<seq<Review>>, accepts: bool)
    returns (outcome: Outcome, asked: bool)
    ensures asked <==> IsReady(c) && (c.auto || ReviewersApprove(controlPlane, reviews))
    ensures outcome == Merged <==> asked && accepts
    ensures outcome == NotAttempted <==> !c.mayMerge
    ensures outcome == Blocked(NoPullRequest) <==> c.mayMerge && c.number <= 0
    ensures outcome == Blocked(IsDraft) <==> c.mayMerge && c.number > 0 && c.draft
    ensures outcome == Blocked(CINotGreen) <==> c.mayMerge && c.number > 0 && !c.draft && !c.ciGreen
    ensures outcome == Blocked(ReviewsUnread) <==>
      IsReady(c) && !c.auto && Eligible(controlPlane) != {} && reviews.None?
    ensures outcome.Blocked? && outcome.reason.NotApproved? <==>
      IsReady(c) && !c.auto && !ReviewersApprove(controlPlane, reviews)
      && (Eligible(controlPlane) == {} || reviews.Some?)
    ensures outcome == Blocked(MergeRefused) <==> asked && !accepts
  {
    if !c.mayMerge {
      return NotAttempted, false;
    }
    if c.number <= 0 {
      return Blocked(NoPullRequest), false;
    }
    if c.draft {
      return Blocked(IsDraft), false;
    }
    if !c.ciGreen {
      return Blocked(CINotGreen), false;
    }
    if !c.auto {
      if Eligible(controlPlane) != {} && reviews.None? {
        return Blocked(ReviewsUnread), false;
      }
      var reason := ApprovalSatisfied(controlPlane, if reviews.Some? then reviews.value else []);
      if reason != Satisfied {
        return Blocked(NotApproved(reason)), false;
      }
    }
    return if accepts then Merged else Blocked(MergeRefused), true;
  }
}
