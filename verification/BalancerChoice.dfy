/** What the balancer's choices mean: the searches find an account exactly when there is one, and the best one. */
module BalancerChoice {
  import opened Wrappers
  import opened Accounts
  import opened UsageSamples
  import opened Balancer

  // ---- The order of the least-used search --------------------------------------------

  lemma {:induction false} IndexOfMember(accounts: seq<Account>, name: Name)
    ensures IndexOf(accounts, name) < |accounts| <==> exists a :: a in accounts && a.name == name
  {
    if accounts == [] {
    } else {
      IndexOfMember(accounts[1..], name);
      assert accounts[0] in accounts;
      assert forall a :: a in accounts <==> a == accounts[0] || a in accounts[1..];
    }
  }

  lemma RegisteredHasIndex(r: Registry, name: Name)
    requires IsRegistered(r, name)
    ensures IndexOf(Ordered(r), name) < |Ordered(r)|
  {
    LookupIs(r.accounts, name);
    OrderedMembers(r);
    assert Lookup(r.accounts, name).value in Ordered(r);
    IndexOfMember(Ordered(r), name);
  }

  /** Of two different registered accounts exactly one is better. */
  lemma BetterIsTotal(m: Auth, x: Name, y: Name, active: Name)
    requires IsRegistered(m.registry, x) && IsRegistered(m.registry, y) && x != y
    ensures Better(m, x, y, active) <==> !Better(m, y, x, active)
  {
    RegisteredHasIndex(m.registry, x);
    RegisteredHasIndex(m.registry, y);
  }

  lemma BetterIsTransitive(m: Auth, x: Name, y: Name, z: Name, active: Name)
    requires IsRegistered(m.registry, x) && IsRegistered(m.registry, y) && IsRegistered(m.registry, z)
    requires x != y && y != z && x != z
    requires Better(m, x, y, active) && Better(m, y, z, active)
    ensures Better(m, x, z, active)
  {
    RegisteredHasIndex(m.registry, x);
    RegisteredHasIndex(m.registry, y);
    RegisteredHasIndex(m.registry, z);
  }

  predicate AllRegistered(r: Registry, accounts: seq<Account>) {
    forall a :: a in accounts ==> a.name != "" && IsRegistered(r, a.name)
  }

  /** `best` is a candidate from the list and better than every other one. */
  ghost predicate IsBest(m: Auth, accounts: seq<Account>, test: Eligibility, exclude: Name, active: Name, now: Time,
                         best: Name) {
    && (exists a :: a in accounts && a.name == best)
    && IsCandidate(m, test, exclude, best, now)
    && (forall a :: a in accounts && a.name != best && IsCandidate(m, test, exclude, a.name, now) ==>
          Better(m, best, a.name, active))
  }

  /** The best of some candidates stays the best when one more account is not better, or is no candidate. */
  lemma BestStays(m: Auth, front: seq<Account>, last: Account, test: Eligibility, exclude: Name, active: Name,
      now: Time, best: Name)
    requires AllRegistered(m.registry, front) && IsBest(m, front, test, exclude, active, now, best)
    requires IsRegistered(m.registry, last.name) && last.name != best
    requires !(IsCandidate(m, test, exclude, last.name, now) && Better(m, last.name, best, active))
    ensures IsBest(m, front + [last], test, exclude, active, now, best)
  {
    BetterIsTotal(m, last.name, best, active);
  }

  /** A better one is the best from then on. */
  lemma BetterTakesOver(m: Auth, front: seq<Account>, last: Account, test: Eligibility, exclude: Name, active: Name,
      now: Time, best: Name)
    requires AllRegistered(m.registry, front) && IsBest(m, front, test, exclude, active, now, best)
    requires IsRegistered(m.registry, last.name) && forall a :: a in front ==> a.name != last.name
    requires IsCandidate(m, test, exclude, last.name, now) && Better(m, last.name, best, active)
    ensures IsBest(m, front + [last], test, exclude, active, now, last.name)
  {
    assert last in front + [last];
    forall a | a in front && a.name != best && IsCandidate(m, test, exclude, a.name, now)
      ensures Better(m, last.name, a.name, active)
    {
      BetterIsTransitive(m, last.name, best, a.name, active);
    }
  }

  lemma {:induction false} BestOfIsBest(m: Auth, accounts: seq<Account>, test: Eligibility, exclude: Name, active: Name,
                                        now: Time)
    requires AllRegistered(m.registry, accounts) && DistinctNames(accounts)
    ensures var best := BestOf(m, accounts, test, exclude, active, now);
      if best == "" then forall a :: a in accounts ==> !IsCandidate(m, test, exclude, a.name, now)
      else IsBest(m, accounts, test, exclude, active, now, best)
  {
    if accounts == [] {
    } else {
      var front, last := accounts[..|accounts| - 1], accounts[|accounts| - 1];
      assert accounts == front + [last];
      BestOfIsBest(m, front, test, exclude, active, now);
      var best := BestOf(m, front, test, exclude, active, now);
      if best != "" {
        var b :| b in front && b.name == best;
        assert best != last.name;
        if IsCandidate(m, test, exclude, last.name, now) && Better(m, last.name, best, active) {
          BetterTakesOver(m, front, last, test, exclude, active, now, best);
        } else {
          BestStays(m, front, last, test, exclude, active, now, best);
        }
      }
    }
  }

  lemma OrderedAreRegistered(r: Registry)
    requires IsWellFormed(r)
    ensures AllRegistered(r, Ordered(r)) && DistinctNames(Ordered(r))
    ensures forall name :: IsRegistered(r, name) <==> exists a :: a in Ordered(r) && a.name == name
  {
    OrderedMembers(r);
    forall a | a in Ordered(r) ensures a.name != "" && IsRegistered(r, a.name) {
      LookupIs(r.accounts, a.name);
    }
    forall name ensures IsRegistered(r, name) <==> exists a :: a in Ordered(r) && a.name == name {
      LookupIs(r.accounts, name);
    }
  }

  lemma CandidatesAreRegistered(m: Auth, test: Eligibility, name: Name, now: Time)
    requires IsEligible(m, test, name, now)
    ensures name != "" && IsEnabled(m.registry, name) && IsRegistered(m.registry, name)
  {
  }

  /**
   The least-used search answers "" exactly when no account is a candidate;
   otherwise its answer is the one candidate that is better than every other.
   */
  lemma LeastUsedIsBest(m: Auth, test: Eligibility, exclude: Name, active: Name, now: Time)
    requires IsWellFormed(m.registry)
    ensures var best := LeastUsed(m, test, exclude, active, now);
      && (best == "" <==> forall name :: !IsCandidate(m, test, exclude, name, now))
      && (best != "" ==>
            && IsCandidate(m, test, exclude, best, now)
            && forall name ::
              name != best && IsCandidate(m, test, exclude, name, now) ==> Better(m, best, name, active))
  {
    OrderedAreRegistered(m.registry);
    BestOfIsBest(m, Ordered(m.registry), test, exclude, active, now);
    forall name | IsCandidate(m, test, exclude, name, now)
      ensures exists a :: a in Ordered(m.registry) && a.name == name
    {
      CandidatesAreRegistered(m, test, name, now);
    }
  }

  /** The answer does not depend on the order in which the accounts are scanned. */
  lemma {:induction false} ScanOrderIsFree(m: Auth, one: seq<Account>, other: seq<Account>, test: Eligibility,
                                           exclude: Name, active: Name, now: Time)
    requires AllRegistered(m.registry, one) && DistinctNames(one) && DistinctNames(other)
    requires multiset(one) == multiset(other)
    ensures BestOf(m, one, test, exclude, active, now) == BestOf(m, other, test, exclude, active, now)
  {
    assert forall a :: a in one <==> a in multiset(one);
    assert forall a :: a in other <==> a in multiset(other);
    BestOfIsBest(m, one, test, exclude, active, now);
    BestOfIsBest(m, other, test, exclude, active, now);
    var x, y := BestOf(m, one, test, exclude, active, now), BestOf(m, other, test, exclude, active, now);
    if x != "" && y != "" && x != y {
      BetterIsTotal(m, x, y, active);
    }
  }

  // ---- The fixed-order searches --------------------------------------------------------

  lemma {:induction false} FirstCandidateIs(m: Auth, accounts: seq<Account>, test: Eligibility, exclude: Name,
      now: Time)
    ensures var name := FirstCandidate(m, accounts, test, exclude, now);
      if name == "" then forall a :: a in accounts ==> !IsCandidate(m, test, exclude, a.name, now)
      else IsCandidate(m, test, exclude, name, now)
  {
    if accounts == [] {
    } else {
      FirstCandidateIs(m, accounts[1..], test, exclude, now);
      if IsCandidate(m, test, exclude, accounts[0].name, now) {
        CandidatesAreRegistered(m, test, accounts[0].name, now);
      }
      assert forall a :: a in accounts <==> a == accounts[0] || a in accounts[1..];
    }
  }

  /** Under both policies a fallback target is found exactly when there is a candidate. */
  lemma FallbackTargetIs(m: Auth, test: Eligibility, active: Name, now: Time)
    requires IsWellFormed(m.registry)
    ensures var target := FallbackTarget(m, test, active, now);
      if target == "" then forall name :: !IsCandidate(m, test, active, name, now)
      else IsCandidate(m, test, active, target, now) && IsEnabled(m.registry, target)
  {
    if m.settings.policy == ByUsage {
      LeastUsedIsBest(m, test, active, "", now);
    } else {
      OrderedAreRegistered(m.registry);
      FirstCandidateIs(m, Ordered(m.registry), test, active, now);
      forall name | IsCandidate(m, test, active, name, now)
        ensures exists a :: a in Ordered(m.registry) && a.name == name
      {
        CandidatesAreRegistered(m, test, name, now);
      }
    }
  }

  lemma {:induction false} FirstLaunchableIs(m: Auth, accounts: seq<Account>, now: Time)
    ensures var name := FirstLaunchable(m, accounts, now);
      if name == "" then
        forall a :: a in accounts && a.name != m.registry.preferred && a.name != m.state.active ==>
          !FreshEligible(m, a.name, now)
      else FreshEligible(m, name, now)
  {
    if accounts == [] {
    } else {
      FirstLaunchableIs(m, accounts[1..], now);
      assert forall a :: a in accounts <==> a == accounts[0] || a in accounts[1..];
    }
  }

  /** A launch chooses a fresh account whenever there is one, and never a disabled one other than the active. */
  lemma LaunchChoiceIs(m: Auth, now: Time)
    requires IsWellFormed(m.registry)
    ensures (exists name :: FreshEligible(m, name, now)) ==> FreshEligible(m, LaunchChoice(m, now), now)
    ensures var name := LaunchChoice(m, now);
      name == "" || name == m.state.active || IsEnabled(m.registry, name)
  {
    if m.settings.policy == ByUsage {
      LeastUsedIsBest(m, Fresh, "", m.state.active, now);
      if name :| FreshEligible(m, name, now) {
        assert IsCandidate(m, Fresh, "", name, now);
      }
    } else {
      OrderedAreRegistered(m.registry);
      FirstLaunchableIs(m, Ordered(m.registry), now);
      if name :| FreshEligible(m, name, now) {
        assert IsRegistered(m.registry, name);
        var a :| a in Ordered(m.registry) && a.name == name;
      }
    }
  }

  /** The pause ends at the earliest retry time after now that an enabled account waits for. */
  lemma {:induction false} EarliestRetryIs(m: Auth, accounts: seq<Account>, now: Time)
    ensures var best := EarliestRetryOf(m, accounts, now);
      && (best.Some? ==>
            best.value > now && exists a :: a in accounts && a.enabled && StateOf(m.state, a.name).retryAfter == best)
      && (forall a :: a in accounts && a.enabled && RetryPending(StateOf(m.state, a.name), now) ==>
            best.Some? && best.value <= StateOf(m.state, a.name).retryAfter.value)
  {
    if accounts == [] {
    } else {
      var last := |accounts| - 1;
      EarliestRetryIs(m, accounts[..last], now);
      assert forall a :: a in accounts <==> a in accounts[..last] || a == accounts[last];
    }
  }
}
