/** The account commands: each loads the registry and the state, edits them and saves them. */
module AccountCommands {
  import opened Wrappers
  import opened AccountNames
  import opened Accounts
  import opened Balancer
  import opened BalancerChoice

  /** The two files under CODEX_HOME that the commands and the balancer share. */
  datatype Home = Home(registry: Registry, state: AuthState)

  datatype CommandError =
    | InvalidName | NoSource | NotFound(name: Name) | NoOtherEnabled(name: Name) | NotCopied

  const EMPTY_HOME := Home(Registry("", []), NO_STATE)

  predicate IsSound(h: Home) {
    IsWellFormed(h.registry) && IsConsistent(h.registry, h.state)
  }

  // ---- Registry edits -----------------------------------------------------------------

  /** Loading a registry gives it a preferred account when it has accounts but none preferred. */
  function Loaded(r: Registry): Registry {
    if r.preferred == "" && r.accounts != [] then r.(preferred := r.accounts[0].name) else r
  }

  /** The accounts with the named one moved to the front. */
  function Fronted(accounts: seq<Account>, name: Name): seq<Account> {
    if accounts == [] then []
    else
      var front, last := Fronted(accounts[..|accounts| - 1], name), accounts[|accounts| - 1];
      if last.name == name then [last] + front else front + [last]
  }

  function WithPreferred(r: Registry, name: Name): Registry {
    if name == "" then r else Registry(name, Fronted(r.accounts, name))
  }

  /** The first account with the name is switched on or off. */
  function WithEnabled(accounts: seq<Account>, name: Name, enabled: bool): seq<Account> {
    if accounts == [] then []
    else if accounts[0].name == name then [accounts[0].(enabled := enabled)] + accounts[1..]
    else [accounts[0]] + WithEnabled(accounts[1..], name, enabled)
  }

  function FirstEnabled(accounts: seq<Account>, skip: Name): Name {
    if accounts == [] then ""
    else if accounts[0].enabled && accounts[0].name != skip then accounts[0].name
    else FirstEnabled(accounts[1..], skip)
  }

  // ---- The commands ---------------------------------------------------------------------

  /** The account is added or switched on, and preferred when it is the first or is asked to be. */
  function WithImported(r: Registry, name: Name, primary: bool): Registry {
    var accounts :=
      if IsRegistered(r, name) then WithEnabled(r.accounts, name, true) else r.accounts + [Account(name, true)];
    var r' := r.(accounts := accounts);
    if r'.preferred == "" || |accounts| == 1 || primary then WithPreferred(r', name) else r'
  }

  /** `found` says that the source file exists and was copied; `copies` that the account could be put in use. */
  function Import(h: Home, raw: string, primary: bool, now: Time, found: bool, copies: bool)
    : (Home, Option<CommandError>)
  {
    var name := Normalized(raw);
    if name == "" then (h, Some(InvalidName))
    else if !found then (h, Some(NoSource))
    else
      var r := WithImported(Loaded(h.registry), name, primary);
      var saved := h.(registry := r);
      if h.state.active == "" || r.preferred == name then
        if copies then (saved.(state := Activated(h.state, name, now)), None) else (saved, Some(NotCopied))
      else (saved, None)
  }

  function ActivateAccount(h: Home, raw: string, now: Time, copies: bool): (Home, Option<CommandError>) {
    var name := Normalized(raw);
    var r := Loaded(h.registry);
    if !IsRegistered(r, name) then (h, Some(NotFound(name)))
    else
      var saved := h.(registry := WithPreferred(r.(accounts := WithEnabled(r.accounts, name, true)), name));
      if copies then (saved.(state := Activated(h.state, name, now)), None) else (saved, Some(NotCopied))
  }

  function EnableAccount(h: Home, raw: string): (Home, Option<CommandError>) {
    var name := Normalized(raw);
    var r := Loaded(h.registry);
    if !IsRegistered(r, name) then (h, Some(NotFound(name)))
    else if IsEnabled(r, name) then (h, None)
    else
      var r' := r.(accounts := WithEnabled(r.accounts, name, true));
      (h.(registry := if r'.preferred == "" then WithPreferred(r', name) else r'), None)
  }

  /** A preferred account that was switched off hands the preference on. */
  function WithoutPreference(r: Registry, name: Name): Registry {
    if r.preferred == name then r.(preferred := FirstEnabled(Ordered(r), "")) else r
  }

  function DisableAccount(h: Home, raw: string, now: Time, copies: bool): (Home, Option<CommandError>) {
    var name := Normalized(raw);
    var r := Loaded(h.registry);
    if !IsRegistered(r, name) then (h, Some(NotFound(name)))
    else if !IsEnabled(r, name) then (h, None)
    else
      var r' := r.(accounts := WithEnabled(r.accounts, name, false));
      var next := FirstEnabled(Ordered(r'), name);
      if h.state.active == name && next == "" then (h, Some(NoOtherEnabled(name)))
      else if h.state.active == name && !copies then (h, Some(NotCopied))
      else
        var s := if h.state.active == name then Activated(h.state, next, now) else h.state;
        (Home(WithoutPreference(r', name), if s.pendingActive == name then ClearPending(s) else s), None)
  }

  /** The account is taken out; when it was preferred, the first one left is. */
  function WithRemoved(r: Registry, name: Name): Registry {
    var accounts := Named(r.accounts, name, false);
    Registry(if r.preferred != name then r.preferred else if accounts == [] then "" else accounts[0].name, accounts)
  }

  /** Nothing about the account is left in the state. */
  function Forgotten(state: AuthState, name: Name): AuthState {
    var s := state.(accounts := state.accounts - {name});
    var s' := if s.active == name then s.(active := "") else s;
    if s'.pendingActive == name then ClearPending(s') else s'
  }

  function RemoveAccount(h: Home, raw: string, now: Time, copies: bool): (Home, Option<CommandError>) {
    var name := Normalized(raw);
    var r := Loaded(h.registry);
    if !IsRegistered(r, name) then (h, Some(NotFound(name)))
    else
      var saved := Home(WithRemoved(r, name), Forgotten(h.state, name));
      if saved.state.active == "" && saved.registry.preferred != ""
      then ActivateAccount(saved, saved.registry.preferred, now, copies)
      else (saved, None)
  }

  datatype Command =
    | DoImport(raw: string, primary: bool, found: bool)
    | DoActivate(raw: string)
    | DoEnable(raw: string)
    | DoDisable(raw: string)
    | DoRemove(raw: string)

  function Run(h: Home, c: Command, now: Time, copies: bool): (Home, Option<CommandError>) {
    match c
    case DoImport(raw, primary, found) => Import(h, raw, primary, now, found, copies)
    case DoActivate(raw) => ActivateAccount(h, raw, now, copies)
    case DoEnable(raw) => EnableAccount(h, raw)
    case DoDisable(raw) => DisableAccount(h, raw, now, copies)
    case DoRemove(raw) => RemoveAccount(h, raw, now, copies)
  }

  // ---- What the edits keep ----------------------------------------------------------------

  lemma {:induction false} WithEnabledIs(accounts: seq<Account>, name: Name, enabled: bool)
    ensures var edited := WithEnabled(accounts, name, enabled);
      && |edited| == |accounts|
      && (forall i :: 0 <= i < |accounts| ==> edited[i].name == accounts[i].name)
      && (forall x :: x != name ==> Lookup(edited, x) == Lookup(accounts, x))
      && Lookup(edited, name) == (if Lookup(accounts, name).None? then None else Some(Account(name, enabled)))
  {
    if accounts == [] {
    } else {
      var edited := WithEnabled(accounts, name, enabled);
      if accounts[0].name == name {
        assert edited[0] == Account(name, enabled) && edited[1..] == accounts[1..];
        forall x | x != name ensures Lookup(edited, x) == Lookup(accounts, x) {
          assert Lookup(edited, x) == Lookup(edited[1..], x);
        }
      } else {
        var rest := WithEnabled(accounts[1..], name, enabled);
        WithEnabledIs(accounts[1..], name, enabled);
        assert edited[0] == accounts[0] && edited[1..] == rest;
        forall x ensures Lookup(edited, x) == if accounts[0].name == x then Some(accounts[0]) else Lookup(rest, x) { }
      }
    }
  }

  /** Lookups only depend on which accounts there are. */
  lemma LookupSame(one: seq<Account>, other: seq<Account>)
    requires DistinctNames(one) && DistinctNames(other) && forall a :: a in one <==> a in other
    ensures forall x :: Lookup(one, x) == Lookup(other, x)
  {
    forall x ensures Lookup(one, x) == Lookup(other, x) {
      LookupIs(one, x);
      LookupIs(other, x);
    }
  }

  lemma {:induction false} NamedOfLast(accounts: seq<Account>, a: Account, name: Name, with: bool)
    ensures Named(accounts + [a], name, with)
      == Named(accounts, name, with) + if (a.name == name) == with then [a] else []
  {
    if accounts == [] {
      assert [] + [a] == [a];
    } else {
      assert (accounts + [a])[1..] == accounts[1..] + [a];
      NamedOfLast(accounts[1..], a, name, with);
    }
  }

  lemma {:induction false} NoneNamed(accounts: seq<Account>, name: Name)
    requires forall i :: 0 <= i < |accounts| ==> accounts[i].name != name
    ensures Named(accounts, name, true) == []
  {
    if accounts != [] { NoneNamed(accounts[1..], name); }
  }

  /** Moving an account to the front leaves the order that a preferred account gives. */
  lemma {:induction false} FrontedIs(accounts: seq<Account>, name: Name)
    requires DistinctNames(accounts)
    ensures Fronted(accounts, name) == Named(accounts, name, true) + Named(accounts, name, false)
  {
    if accounts != [] {
      var front, last := accounts[..|accounts| - 1], accounts[|accounts| - 1];
      assert accounts == front + [last];
      FrontedIs(front, name);
      var named, others := Named(front, name, true), Named(front, name, false);
      NamedOfLast(front, last, name, true);
      NamedOfLast(front, last, name, false);
      if last.name == name {
        NoneNamed(front, name);
        assert [last] + (named + others) == (named + [last]) + (others + []);
      } else {
        assert (named + others) + [last] == (named + []) + (others + [last]);
      }
    }
  }

  lemma WithPreferredIs(r: Registry, name: Name)
    requires IsWellFormed(r) && name != "" && IsRegistered(r, name)
    ensures IsWellFormed(WithPreferred(r, name))
    ensures forall x :: Lookup(WithPreferred(r, name).accounts, x) == Lookup(r.accounts, x)
  {
    var moved := WithPreferred(r, name).accounts;
    var r' := r.(preferred := name);
    OrderedMembers(r');
    FrontedIs(r.accounts, name);
    assert moved == Ordered(r');
    LookupSame(moved, r.accounts);
    forall i | 0 <= i < |moved| ensures moved[i].name != "" && IsNormal(moved[i].name) {
      assert moved[i] in r.accounts;
    }
  }

  lemma LoadedIs(r: Registry)
    requires IsWellFormed(r)
    ensures IsWellFormed(Loaded(r)) && Loaded(r).accounts == r.accounts
    ensures r.accounts != [] ==> Loaded(r).preferred != ""
  {
    if r.accounts != [] {
      LookupIs(r.accounts, r.accounts[0].name);
    }
  }

  lemma EnabledIsWellFormed(r: Registry, name: Name, enabled: bool)
    requires IsWellFormed(r)
    ensures IsWellFormed(r.(accounts := WithEnabled(r.accounts, name, enabled)))
  {
    WithEnabledIs(r.accounts, name, enabled);
  }

  lemma {:induction false} AppendedLookup(accounts: seq<Account>, a: Account)
    requires Lookup(accounts, a.name).None?
    ensures Lookup(accounts + [a], a.name) == Some(a)
    ensures forall x :: x != a.name ==> Lookup(accounts + [a], x) == Lookup(accounts, x)
  {
    if accounts == [] {
      assert accounts + [a] == [a];
    } else {
      AppendedLookup(accounts[1..], a);
      assert (accounts + [a])[1..] == accounts[1..] + [a];
    }
  }

  lemma AppendedIsWellFormed(r: Registry, name: Name)
    requires IsWellFormed(r) && name != "" && IsNormal(name) && !IsRegistered(r, name)
    ensures IsWellFormed(r.(accounts := r.accounts + [Account(name, true)]))
  {
    AppendedLookup(r.accounts, Account(name, true));
    LookupIs(r.accounts, name);
  }

  lemma RemovedIs(accounts: seq<Account>, name: Name)
    requires DistinctNames(accounts)
    ensures Lookup(Named(accounts, name, false), name).None?
    ensures forall x :: x != name ==> Lookup(Named(accounts, name, false), x) == Lookup(accounts, x)
  {
    var kept := Named(accounts, name, false);
    NamedMembers(accounts, name, false);
    forall x ensures x == name ==> Lookup(kept, x).None?
             ensures x != name ==> Lookup(kept, x) == Lookup(accounts, x) {
      LookupIs(kept, x);
      LookupIs(accounts, x);
    }
  }

  lemma {:induction false} FirstEnabledIs(accounts: seq<Account>, skip: Name)
    ensures var name := FirstEnabled(accounts, skip);
      name != "" ==> name != skip && Account(name, true) in accounts
  {
    if accounts == [] {
    } else {
      FirstEnabledIs(accounts[1..], skip);
    }
  }

  lemma FirstEnabledIsEnabled(r: Registry, skip: Name)
    requires DistinctNames(r.accounts)
    ensures var name := FirstEnabled(Ordered(r), skip); name != "" ==> name != skip && IsEnabled(r, name)
  {
    var name := FirstEnabled(Ordered(r), skip);
    FirstEnabledIs(Ordered(r), skip);
    OrderedMembers(r);
    LookupIs(r.accounts, name);
  }

  // ---- Every command keeps the home sound ----------------------------------------------------

  /** Activating an account that is enabled in the registry keeps the state consistent with it. */
  lemma ActivatedIsConsistent(r: Registry, s: AuthState, name: Name, now: Time)
    requires IsEnabled(r, name)
    ensures IsConsistent(r, Activated(s, name, now))
    ensures IsConsistent(r, ClearDegraded(Activated(s, name, now)))
  {
  }

  /** Registry edits that switch no account off keep a consistent state consistent. */
  lemma MoreEnabled(r: Registry, r': Registry, s: AuthState)
    requires IsConsistent(r, s) && forall x :: IsEnabled(r, x) ==> IsEnabled(r', x)
    ensures IsConsistent(r', s)
  {
  }

  lemma WithImportedIs(r: Registry, name: Name, primary: bool)
    requires IsWellFormed(r) && name != "" && IsNormal(name)
    ensures var r' := WithImported(r, name, primary);
      IsWellFormed(r') && IsEnabled(r', name) && forall x :: IsEnabled(r, x) ==> IsEnabled(r', x)
  {
    if IsRegistered(r, name) {
      EnabledIsWellFormed(r, name, true);
      WithEnabledIs(r.accounts, name, true);
      WithPreferredIs(r.(accounts := WithEnabled(r.accounts, name, true)), name);
    } else {
      AppendedIsWellFormed(r, name);
      AppendedLookup(r.accounts, Account(name, true));
      WithPreferredIs(r.(accounts := r.accounts + [Account(name, true)]), name);
    }
  }

  lemma ImportIsSound(h: Home, raw: string, primary: bool, now: Time, found: bool, copies: bool)
    requires IsSound(h)
    ensures IsSound(Import(h, raw, primary, now, found, copies).0)
  {
    var name := Normalized(raw);
    NormalizedIsNormal(raw);
    if name != "" && found {
      LoadedIs(h.registry);
      WithImportedIs(Loaded(h.registry), name, primary);
      var r := WithImported(Loaded(h.registry), name, primary);
      MoreEnabled(h.registry, r, h.state);
      ActivatedIsConsistent(r, h.state, name, now);
    }
  }

  lemma ActivateIsSound(h: Home, raw: string, now: Time, copies: bool)
    requires IsSound(h)
    ensures IsSound(ActivateAccount(h, raw, now, copies).0)
  {
    var name := Normalized(raw);
    var r := Loaded(h.registry);
    LoadedIs(h.registry);
    if IsRegistered(r, name) {
      LookupIs(r.accounts, name);
      var r' := r.(accounts := WithEnabled(r.accounts, name, true));
      EnabledIsWellFormed(r, name, true);
      WithEnabledIs(r.accounts, name, true);
      WithPreferredIs(r', name);
      var r'' := WithPreferred(r', name);
      assert IsEnabled(r'', name) && forall x :: IsEnabled(r, x) ==> IsEnabled(r'', x);
      MoreEnabled(h.registry, r'', h.state);
      ActivatedIsConsistent(r'', h.state, name, now);
    }
  }

  lemma EnableIsSound(h: Home, raw: string)
    requires IsSound(h)
    ensures IsSound(EnableAccount(h, raw).0)
  {
    var name := Normalized(raw);
    var r := Loaded(h.registry);
    LoadedIs(h.registry);
    if IsRegistered(r, name) && !IsEnabled(r, name) {
      LookupIs(r.accounts, name);
      var r' := r.(accounts := WithEnabled(r.accounts, name, true));
      EnabledIsWellFormed(r, name, true);
      WithEnabledIs(r.accounts, name, true);
      WithPreferredIs(r', name);
      MoreEnabled(h.registry, EnableAccount(h, raw).0.registry, h.state);
    }
  }

  lemma WithoutPreferenceIs(r: Registry, name: Name)
    requires IsWellFormed(r)
    ensures IsWellFormed(WithoutPreference(r, name)) && WithoutPreference(r, name).accounts == r.accounts
  {
    FirstEnabledIsEnabled(r, "");
  }

  /** The registry with an account switched off. */
  lemma SwitchedOff(r: Registry, name: Name)
    requires IsWellFormed(r)
    ensures var r' := r.(accounts := WithEnabled(r.accounts, name, false));
      var next := FirstEnabled(Ordered(r'), name);
      && IsWellFormed(WithoutPreference(r', name))
      && (forall x :: x != name && IsEnabled(r, x) ==> IsEnabled(WithoutPreference(r', name), x))
      && (next != "" ==> next != name && IsEnabled(WithoutPreference(r', name), next))
  {
    var r' := r.(accounts := WithEnabled(r.accounts, name, false));
    EnabledIsWellFormed(r, name, false);
    WithEnabledIs(r.accounts, name, false);
    WithoutPreferenceIs(r', name);
    FirstEnabledIsEnabled(r', name);
  }

  /** The state that goes with it. */
  lemma SwitchedOffState(r: Registry, r': Registry, s: AuthState, name: Name, next: Name, now: Time)
    requires IsConsistent(r, s) && forall x :: x != name && IsEnabled(r, x) ==> IsEnabled(r', x)
    requires s.active == name && name != "" ==> next != name && IsEnabled(r', next)
    ensures var s' := if s.active == name && name != "" then Activated(s, next, now) else s;
      IsConsistent(r', if s'.pendingActive == name then ClearPending(s') else s')
  {
  }

  lemma DisableIsSound(h: Home, raw: string, now: Time, copies: bool)
    requires IsSound(h)
    ensures IsSound(DisableAccount(h, raw, now, copies).0)
  {
    var name := Normalized(raw);
    var r := Loaded(h.registry);
    LoadedIs(h.registry);
    if IsEnabled(r, name) && DisableAccount(h, raw, now, copies).1.None? {
      var r' := r.(accounts := WithEnabled(r.accounts, name, false));
      SwitchedOff(r, name);
      LookupIs(r.accounts, name);
      SwitchedOffState(r, WithoutPreference(r', name), h.state, name, FirstEnabled(Ordered(r'), name), now);
    }
  }

  lemma WithRemovedIs(r: Registry, name: Name)
    requires IsWellFormed(r)
    ensures IsWellFormed(WithRemoved(r, name)) && !IsRegistered(WithRemoved(r, name), name)
    ensures forall x :: x != name && IsEnabled(r, x) ==> IsEnabled(WithRemoved(r, name), x)
  {
    var accounts := Named(r.accounts, name, false);
    NamedMembers(r.accounts, name, false);
    RemovedIs(r.accounts, name);
    if accounts != [] { LookupIs(accounts, accounts[0].name); }
    forall i | 0 <= i < |accounts| ensures accounts[i].name != "" && IsNormal(accounts[i].name) {
      assert accounts[i] in r.accounts;
    }
  }

  lemma RemoveIsSound(h: Home, raw: string, now: Time, copies: bool)
    requires IsSound(h)
    ensures IsSound(RemoveAccount(h, raw, now, copies).0)
  {
    var name := Normalized(raw);
    var r := Loaded(h.registry);
    LoadedIs(h.registry);
    if IsRegistered(r, name) {
      WithRemovedIs(r, name);
      var saved := Home(WithRemoved(r, name), Forgotten(h.state, name));
      assert IsConsistent(saved.registry, saved.state);
      ActivateIsSound(saved, saved.registry.preferred, now, copies);
    }
  }

  /** Whatever a command does, and wherever it fails, the home it leaves is sound. */
  lemma CommandsAreSound(h: Home, c: Command, now: Time, copies: bool)
    requires IsSound(h)
    ensures IsSound(Run(h, c, now, copies).0)
  {
    match c
    case DoImport(raw, primary, found) => ImportIsSound(h, raw, primary, now, found, copies);
    case DoActivate(raw) => ActivateIsSound(h, raw, now, copies);
    case DoEnable(raw) => EnableIsSound(h, raw);
    case DoDisable(raw) => DisableIsSound(h, raw, now, copies);
    case DoRemove(raw) => RemoveIsSound(h, raw, now, copies);
  }
}
