/** What each account command does to the accounts, told account by account. */
module AccountEffects {
  import opened Wrappers
  import opened AccountCommands
  import opened AccountNames
  import opened Accounts
  import opened Balancer

  /** Every account is as it was, or registered and enabled now. */
  ghost predicate OnlySwitchesOn(r: Registry, r': Registry) {
    forall x :: Lookup(r'.accounts, x) == Lookup(r.accounts, x) || Lookup(r'.accounts, x) == Some(Account(x, true))
  }

  lemma WithImportedOnly(r: Registry, name: Name, primary: bool)
    requires IsWellFormed(r) && name != "" && IsNormal(name)
    ensures OnlySwitchesOn(r, WithImported(r, name, primary))
  {
    if IsRegistered(r, name) {
      EnabledIsWellFormed(r, name, true);
      WithEnabledIs(r.accounts, name, true);
      WithPreferredIs(r.(accounts := WithEnabled(r.accounts, name, true)), name);
    } else {
      AppendedIsWellFormed(r, name);
      AppendedLookup(r.accounts, Account(name, true));
      WithPreferredIs(r.(accounts := r.accounts + [Account(name, true)]), name);
    }
  }

  lemma SwitchedOnOnly(r: Registry, name: Name)
    requires IsWellFormed(r) && IsRegistered(r, name)
    ensures var r' := r.(accounts := WithEnabled(r.accounts, name, true));
      OnlySwitchesOn(r, r') && OnlySwitchesOn(r, WithPreferred(r', name))
  {
    var r' := r.(accounts := WithEnabled(r.accounts, name, true));
    LookupIs(r.accounts, name);
    EnabledIsWellFormed(r, name, true);
    WithEnabledIs(r.accounts, name, true);
    WithPreferredIs(r', name);
  }

  /** Importing, activating and enabling switch no account off, whether they succeed or not. */
  lemma MoreOnlySwitchesOn(h: Home, c: Command, now: Time, copies: bool)
    requires IsSound(h) && (c.DoImport? || c.DoActivate? || c.DoEnable?)
    ensures OnlySwitchesOn(h.registry, Run(h, c, now, copies).0.registry)
  {
    var name, r := Normalized(c.raw), Loaded(h.registry);
    NormalizedIsNormal(c.raw);
    LoadedIs(h.registry);
    if c.DoImport? {
      if name != "" { WithImportedOnly(r, name, c.primary); }
    } else if IsRegistered(r, name) {
      SwitchedOnOnly(r, name);
    }
  }

  lemma {:induction false} NoneEnabled(accounts: seq<Account>, skip: Name)
    requires forall a :: a in accounts ==> a.name != ""
    ensures FirstEnabled(accounts, skip) == "" <==> forall a :: a in accounts && a.enabled ==> a.name == skip
  {
    if accounts != [] {
      NoneEnabled(accounts[1..], skip);
      assert forall a :: a in accounts <==> a == accounts[0] || a in accounts[1..];
    }
  }

  /** There is no account to move on to exactly when no other one is enabled. */
  lemma NoOtherExactly(r: Registry, name: Name)
    requires IsWellFormed(r)
    ensures var r' := r.(accounts := WithEnabled(r.accounts, name, false));
      FirstEnabled(Ordered(r'), name) == "" <==> forall x :: IsEnabled(r, x) ==> x == name
  {
    var r' := r.(accounts := WithEnabled(r.accounts, name, false));
    EnabledIsWellFormed(r, name, false);
    WithEnabledIs(r.accounts, name, false);
    OrderedMembers(r');
    NoneEnabled(Ordered(r'), name);
    forall x ensures IsEnabled(r', x) <==> Account(x, true) in Ordered(r') { EnabledIs(r', x); }
    assert forall a: Account :: a.enabled ==> a == Account(a.name, true);
    assert forall x :: x != name ==> (IsEnabled(r', x) <==> IsEnabled(r, x));
    assert forall x :: IsEnabled(r, x) && x != name ==> Account(x, true) in Ordered(r');
    if FirstEnabled(Ordered(r'), name) != "" { FirstEnabledIsEnabled(r', name); }
  }

  /**
   Disabling an enabled account switches off that account only, and moves on
   to another enabled one when it was active.  It is refused exactly when it
   is active and no other is enabled, or when the other's credentials cannot
   be copied; then nothing changes, as for an account that is disabled already.
   */
  lemma DisableIs(h: Home, raw: string, now: Time, copies: bool)
    requires IsSound(h)
    ensures var name := Normalized(raw);
      && (!IsRegistered(h.registry, name) ==> DisableAccount(h, raw, now, copies) == (h, Some(NotFound(name))))
      && (IsRegistered(h.registry, name) && !IsEnabled(h.registry, name) ==>
            DisableAccount(h, raw, now, copies) == (h, None))
    ensures var name, (h', error) := Normalized(raw), DisableAccount(h, raw, now, copies);
      IsEnabled(h.registry, name) ==>
      && (error == Some(NoOtherEnabled(name)) <==>
            h.state.active == name && forall x :: IsEnabled(h.registry, x) ==> x == name)
      && (error == Some(NotCopied) <==>
            h.state.active == name && !copies && error != Some(NoOtherEnabled(name)))
      && (error.Some? ==> h' == h && (error == Some(NoOtherEnabled(name)) || error == Some(NotCopied)))
      && (error.None? ==>
            && Lookup(h'.registry.accounts, name) == Some(Account(name, false))
            && (forall x :: x != name ==> Lookup(h'.registry.accounts, x) == Lookup(h.registry.accounts, x))
            && (h.state.active != name ==> h'.state.active == h.state.active)
            && (h.state.active == name ==> h'.state.active != name && IsEnabled(h'.registry, h'.state.active)))
  {
    var name, r := Normalized(raw), Loaded(h.registry);
    LoadedIs(h.registry);
    LookupIs(r.accounts, name);
    WithEnabledIs(r.accounts, name, false);
    NoOtherExactly(r, name);
    assert forall x :: IsEnabled(r, x) <==> IsEnabled(h.registry, x);
    SwitchedOff(r, name);
    EnabledIsWellFormed(r, name, false);
    WithoutPreferenceIs(r.(accounts := WithEnabled(r.accounts, name, false)), name);
  }

  /** Activating a registered account switches no account off, whatever the state. */
  lemma ActivationOnly(h: Home, name: Name, now: Time, copies: bool)
    requires IsWellFormed(h.registry) && IsNormal(name) && IsRegistered(h.registry, name)
    ensures OnlySwitchesOn(h.registry, ActivateAccount(h, name, now, copies).0.registry)
    ensures forall x ::
      !IsRegistered(h.registry, x) ==> !IsRegistered(ActivateAccount(h, name, now, copies).0.registry, x)
  {
    NormalizedIsNormal(name);
    LoadedIs(h.registry);
    var r := Loaded(h.registry);
    LookupIs(r.accounts, name);
    SwitchedOnOnly(r, name);
    EnabledIsWellFormed(r, name, true);
    WithEnabledIs(r.accounts, name, true);
    WithPreferredIs(r.(accounts := WithEnabled(r.accounts, name, true)), name);
  }

  /** Removing a registered account takes it out and switches no other one off. */
  lemma RemoveIs(h: Home, raw: string, now: Time, copies: bool)
    requires IsSound(h)
    ensures !IsRegistered(h.registry, Normalized(raw)) ==>
      RemoveAccount(h, raw, now, copies) == (h, Some(NotFound(Normalized(raw))))
    ensures var name, r' := Normalized(raw), RemoveAccount(h, raw, now, copies).0.registry;
      && !IsRegistered(r', name)
      && forall x :: x != name ==>
           Lookup(r'.accounts, x) == Lookup(h.registry.accounts, x) || Lookup(r'.accounts, x) == Some(Account(x, true))
  {
    var name, r := Normalized(raw), Loaded(h.registry);
    LoadedIs(h.registry);
    RemovedIs(r.accounts, name);
    WithRemovedIs(r, name);
    var saved := Home(WithRemoved(r, name), Forgotten(h.state, name));
    if saved.registry.preferred != "" {
      LookupIs(saved.registry.accounts, saved.registry.preferred);
      ActivationOnly(saved, saved.registry.preferred, now, copies);
    }
  }
}
