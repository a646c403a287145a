/** What the account commands leave in both files, told on the accounts, the preference and the state. */
module AccountLaws {
  import opened Wrappers
  import opened AccountNames
  import opened Accounts
  import opened Balancer
  import opened AccountCommands
  import opened AccountEffects
  import opened BalancerLaws

  // ---- Parts of the home ---------------------------------------------------------------

  /** No account but the named one is other than it was. */
  ghost predicate OthersAreAsTheyWere(r: Registry, r': Registry, name: Name) {
    forall x :: x != name ==> Lookup(r'.accounts, x) == Lookup(r.accounts, x)
  }

  /** The preferred account, or else the first one. */
  function Preference(r: Registry): Name {
    if r.preferred != "" || r.accounts == [] then r.preferred else r.accounts[0].name
  }

  predicate HasNoPending(s: AuthState) {
    s.pendingActive == "" && s.pendingReason == NoPending && s.pendingSince == None && !s.restartRequired
  }

  /** An account was made the active one: nothing is pending, and its failures are forgotten but not its usage. */
  ghost predicate IsPutInUse(s: AuthState, s': AuthState, name: Name, now: Time) {
    var a, a' := StateOf(s, name), StateOf(s', name);
    && s'.active == name && HasNoPending(s')
    && s'.degraded == s.degraded && s'.degradedReason == s.degradedReason
    && (forall x :: x != name ==> StateOf(s', x) == StateOf(s, x))
    && a'.lastActivatedAt == Some(now) && a'.retryAfter == None && a'.depletedAt == None
    && a'.lastFailureReason == NoFailure
    && a' == a.(lastActivatedAt := a'.lastActivatedAt, retryAfter := None, depletedAt := None,
                lastFailureReason := NoFailure)
  }

  /** A switch that is pending to the account is dropped, and nothing else changes. */
  predicate DropsPending(s: AuthState, s': AuthState, name: Name) {
    if s.pendingActive == name && name != ""
    then HasNoPending(s') && s' == s.(pendingActive := "", pendingReason := NoPending, pendingSince := None,
                                      restartRequired := false)
    else s' == s
  }

  lemma PutInUse(s: AuthState, name: Name, now: Time)
    ensures IsPutInUse(s, Activated(s, name, now), name, now)
  {
  }

  lemma LookupOfLoaded(h: Home, name: Name)
    requires IsSound(h)
    ensures Loaded(h.registry).accounts == h.registry.accounts
    ensures Loaded(h.registry).preferred == Preference(h.registry)
    ensures IsRegistered(h.registry, name) ==> name != ""
  {
    LookupIs(h.registry.accounts, name);
    LoadedIs(h.registry);
  }

  // ---- Importing, activating, enabling -----------------------------------------------------

  /**
   An activation switches the account on, prefers it, moves it to the front and
   makes it active; when its credentials cannot be copied the state is as it was.
   */
  lemma ActivateExactly(h: Home, raw: string, now: Time, copies: bool)
    requires IsSound(h)
    ensures var name, (h', error) := Normalized(raw), ActivateAccount(h, raw, now, copies);
      if !IsRegistered(h.registry, name) then (h', error) == (h, Some(NotFound(name)))
      else
        && Lookup(h'.registry.accounts, name) == Some(Account(name, true))
        && OthersAreAsTheyWere(h.registry, h'.registry, name)
        && h'.registry.preferred == name && h'.registry.accounts != [] && h'.registry.accounts[0].name == name
        && if copies then error == None && IsPutInUse(h.state, h'.state, name, now)
           else error == Some(NotCopied) && h'.state == h.state
  {
    var name, r := Normalized(raw), Loaded(h.registry);
    LookupOfLoaded(h, name);
    LoadedIs(h.registry);
    if IsRegistered(r, name) {
      var r' := r.(accounts := WithEnabled(r.accounts, name, true));
      EnabledIsWellFormed(r, name, true);
      WithEnabledIs(r.accounts, name, true);
      WithPreferredIs(r', name);
      PreferredIsFirst(r', name);
      PutInUse(h.state, name, now);
    }
  }

  lemma PreferredIsFirst(r: Registry, name: Name)
    requires IsWellFormed(r) && IsRegistered(r, name) && name != ""
    ensures WithPreferred(r, name).accounts != [] && WithPreferred(r, name).accounts[0].name == name
  {
    FrontedIs(r.accounts, name);
    LookupIs(r.accounts, name);
    assert IsSomewhere(r.accounts, name);
    NamedOne(r.accounts, name);
  }

  /** An enabled account changes nothing; a disabled one is switched on, and the state is left alone. */
  lemma EnableExactly(h: Home, raw: string)
    requires IsSound(h)
    ensures var name, (h', error) := Normalized(raw), EnableAccount(h, raw);
      if !IsRegistered(h.registry, name) then (h', error) == (h, Some(NotFound(name)))
      else
        && error == None && h'.state == h.state
        && Lookup(h'.registry.accounts, name) == Some(Account(name, true))
        && OthersAreAsTheyWere(h.registry, h'.registry, name)
        && |h'.registry.accounts| == |h.registry.accounts|
        && (forall i :: 0 <= i < |h.registry.accounts| ==> h'.registry.accounts[i].name == h.registry.accounts[i].name)
        && (IsEnabled(h.registry, name) ==> h' == h)
        && (!IsEnabled(h.registry, name) ==> h'.registry.preferred == Preference(h.registry))
  {
    var name, r := Normalized(raw), Loaded(h.registry);
    LookupOfLoaded(h, name);
    LoadedIs(h.registry);
    LookupIs(r.accounts, name);
    WithEnabledIs(r.accounts, name, true);
  }

  /** An import prefers the account when it is asked to, or when there is no other one. */
  predicate IsPreferredBy(r: Registry, name: Name, primary: bool) {
    primary || forall i :: 0 <= i < |r.accounts| ==> r.accounts[i].name == name
  }

  lemma ImportedRegistry(r: Registry, name: Name, primary: bool)
    requires IsWellFormed(r) && name != "" && IsNormal(name) && r.preferred == Preference(r)
    ensures var r' := WithImported(r, name, primary);
      && Lookup(r'.accounts, name) == Some(Account(name, true))
      && OthersAreAsTheyWere(r, r', name)
      && r'.preferred == if IsPreferredBy(r, name, primary) then name else r.preferred
  {
    if IsRegistered(r, name) {
      LookupIs(r.accounts, name);
      EnabledIsWellFormed(r, name, true);
      WithEnabledIs(r.accounts, name, true);
      WithPreferredIs(r.(accounts := WithEnabled(r.accounts, name, true)), name);
      if |r.accounts| > 1 { TwoDiffer(r.accounts, name); }
    } else {
      AppendedIsWellFormed(r, name);
      AppendedLookup(r.accounts, Account(name, true));
      WithPreferredIs(r.(accounts := r.accounts + [Account(name, true)]), name);
      LookupIs(r.accounts, name);
    }
  }

  /**
   An import registers the account, switched on, and makes it active when none
   is or when it is the preferred one; it fails on a name without a character
   to keep and on a missing source, and then changes nothing.
   */
  lemma ImportExactly(h: Home, raw: string, primary: bool, now: Time, found: bool, copies: bool)
    requires IsSound(h)
    ensures var name, (h', error) := Normalized(raw), Import(h, raw, primary, now, found, copies);
      if name == "" then (h', error) == (h, Some(InvalidName))
      else if !found then (h', error) == (h, Some(NoSource))
      else
        var preferred := if IsPreferredBy(h.registry, name, primary) then name else Preference(h.registry);
        && Lookup(h'.registry.accounts, name) == Some(Account(name, true))
        && OthersAreAsTheyWere(h.registry, h'.registry, name)
        && h'.registry.preferred == preferred
        && if h.state.active != "" && preferred != name then error == None && h'.state == h.state
           else if copies then error == None && IsPutInUse(h.state, h'.state, name, now)
           else error == Some(NotCopied) && h'.state == h.state
  {
    var name := Normalized(raw);
    NormalizedIsNormal(raw);
    LoadedIs(h.registry);
    if name != "" && found {
      ImportedRegistry(Loaded(h.registry), name, primary);
      PutInUse(h.state, name, now);
    }
  }

  // ---- Disabling ------------------------------------------------------------------------------

  /** Of the enabled accounts but one: the preferred account if it is one of them, else the first in the registry. */
  ghost predicate IsNextEnabled(r: Registry, skip: Name, next: Name) {
    && IsEnabled(r, next) && next != skip
    && (next != r.preferred ==>
          && !(IsEnabled(r, r.preferred) && r.preferred != skip)
          && forall x :: IsEnabled(r, x) && x != skip && x != next ==> !IsBefore(r.accounts, x, next))
  }

  lemma {:induction false} NoneInFront(accounts: seq<Account>, skip: Name)
    requires DistinctNames(accounts)
    ensures var next := FirstEnabled(accounts, skip);
      next != "" ==> forall x :: Account(x, true) in accounts && x != skip && x != next ==> IsBefore(accounts, next, x)
  {
    if accounts != [] {
      var rest, next := accounts[1..], FirstEnabled(accounts, skip);
      assert DistinctNames(rest) by { assert forall i :: 0 <= i < |rest| ==> rest[i] == accounts[i + 1]; }
      NoneInFront(rest, skip);
      FirstEnabledIs(accounts, skip);
      forall x | next != "" && Account(x, true) in accounts && x != skip && x != next
        ensures IsBefore(accounts, next, x)
      {
        var j :| 0 <= j < |accounts| && accounts[j] == Account(x, true);
        if accounts[0].name == next {
          assert accounts[0].name == next && accounts[j].name == x && 0 < j;
        } else {
          assert accounts[0].name != x;
          assert rest[j - 1] == Account(x, true);
          var p, q :| 0 <= p < q < |rest| && rest[p].name == next && rest[q].name == x;
          assert accounts[p + 1].name == next && accounts[q + 1].name == x;
        }
      }
    }
  }

  lemma BeforeIsOneWay(accounts: seq<Account>, x: Name, y: Name)
    requires DistinctNames(accounts) && IsBefore(accounts, x, y)
    ensures !IsBefore(accounts, y, x)
  {
  }

  lemma NextEnabledExactly(r: Registry, skip: Name)
    requires IsWellFormed(r)
    ensures var next := FirstEnabled(Ordered(r), skip);
      if next == "" then forall x :: IsEnabled(r, x) ==> x == skip else IsNextEnabled(r, skip, next)
  {
    var next := FirstEnabled(Ordered(r), skip);
    OrderedMembers(r);
    OrderedExactly(r);
    FirstEnabledIsEnabled(r, skip);
    NoneInFront(Ordered(r), skip);
    NoneEnabled(Ordered(r), skip);
    forall x ensures IsEnabled(r, x) <==> Account(x, true) in Ordered(r) { EnabledIs(r, x); }
    if next == "" {
      assert forall x :: IsEnabled(r, x) ==> Account(x, true) in Ordered(r);
    } else if next != r.preferred {
      NotPreferredNext(r, skip, next);
    }
  }

  lemma NotPreferredNext(r: Registry, skip: Name, next: Name)
    requires IsWellFormed(r) && IsEnabled(r, next) && next != skip && next != r.preferred
    requires forall x :: IsEnabled(r, x) && x != skip && x != next ==> IsBefore(Ordered(r), next, x)
    ensures IsNextEnabled(r, skip, next)
  {
    OrderedMembers(r);
    OrderedExactly(r);
    if IsEnabled(r, r.preferred) && r.preferred != skip {
      LookupIs(r.accounts, r.preferred);
      assert false;
    }
    forall x | IsEnabled(r, x) && x != skip && x != next ensures !IsBefore(r.accounts, x, next) {
      assert IsBefore(r.accounts, next, x);
      BeforeIsOneWay(r.accounts, next, x);
    }
  }

  /**
   Disabling the active account makes the next enabled one active, and
   disabling the preferred one prefers the next one, or none when none is left;
   a switch that was pending to it is dropped.
   */
  lemma DisableExactly(h: Home, raw: string, now: Time, copies: bool)
    requires IsSound(h) && IsEnabled(h.registry, Normalized(raw)) && DisableAccount(h, raw, now, copies).1.None?
    ensures var name, h' := Normalized(raw), DisableAccount(h, raw, now, copies).0;
      && (h.state.active == name ==>
            && IsNextEnabled(h'.registry.(preferred := Preference(h.registry)), name, h'.state.active)
            && IsPutInUse(h.state, h'.state, h'.state.active, now))
      && (h.state.active != name ==> DropsPending(h.state, h'.state, name))
    ensures var name, h' := Normalized(raw), DisableAccount(h, raw, now, copies).0;
      && (Preference(h.registry) != name ==> h'.registry.preferred == Preference(h.registry))
      && (Preference(h.registry) == name ==>
            if h'.registry.preferred == "" then forall x :: !IsEnabled(h'.registry, x)
            else IsNextEnabled(h'.registry.(preferred := name), "", h'.registry.preferred))
  {
    var name, r := Normalized(raw), Loaded(h.registry);
    LookupOfLoaded(h, name);
    LoadedIs(h.registry);
    var r' := r.(accounts := WithEnabled(r.accounts, name, false));
    EnabledIsWellFormed(r, name, false);
    NextEnabledExactly(r', name);
    NextEnabledExactly(r', "");
    var h' := DisableAccount(h, raw, now, copies).0;
    PutInUse(h.state, FirstEnabled(Ordered(r'), name), now);
    LookupIs(r'.accounts, "");
    assert !IsEnabled(r', "");
    assert h'.registry.accounts == r'.accounts;
    assert forall x :: IsEnabled(h'.registry, x) <==> IsEnabled(r', x);
  }

  // ---- Removing ---------------------------------------------------------------------------------

  /** Nothing is known of an account that was removed. */
  predicate IsGone(s: AuthState, name: Name) {
    name !in s.accounts && s.active != name && s.pendingActive != name
  }

  /**
   Removing an account takes all that is known about it out of both files.  The
   others stay as they are, unless the active account is gone: then the
   preferred one, or the first one left, is activated.
   */
  lemma RemoveExactly(h: Home, raw: string, now: Time, copies: bool)
    requires IsSound(h) && IsRegistered(h.registry, Normalized(raw))
    ensures var name, (h', error) := Normalized(raw), RemoveAccount(h, raw, now, copies);
      && !IsRegistered(h'.registry, name) && IsGone(h'.state, name)
      && (h.state.active != "" && h.state.active != name ==>
            && error == None && OthersAreAsTheyWere(h.registry, h'.registry, name)
            && h'.state.accounts == h.state.accounts - {name}
            && DropsPending(h.state, h'.state.(accounts := h.state.accounts), name))
      && ((h.state.active == "" || h.state.active == name) && h'.registry.accounts == [] ==>
            error == None && h'.state.active == "")
      && ((h.state.active == "" || h.state.active == name) && h'.registry.accounts != [] ==>
            && IsEnabled(h'.registry, h'.registry.preferred)
            && (Preference(h.registry) != name ==> h'.registry.preferred == Preference(h.registry))
            && if copies then error == None && h'.state.active == h'.registry.preferred
               else error == Some(NotCopied) && h'.state.active == "")
  {
    var name, r := Normalized(raw), Loaded(h.registry);
    LookupOfLoaded(h, name);
    LoadedIs(h.registry);
    WithRemovedIs(r, name);
    RemovedIs(r.accounts, name);
    var saved := Home(WithRemoved(r, name), Forgotten(h.state, name));
    if saved.state.active == "" && saved.registry.preferred != "" {
      LookupIs(saved.registry.accounts, saved.registry.preferred);
      NormalizedIsNormal(saved.registry.preferred);
      ActivateExactly(saved, saved.registry.preferred, now, copies);
    }
  }
}
