/** The registry and the state as files, which the account commands load, edit and save. */
module AccountStore {
  import opened Wrappers
  import opened AccountNames
  import opened Accounts
  import opened AccountCommands
  import opened Balancer

  // ---- Edits of a registry ---------------------------------------------------------------

  /** The index of the first account with the name, or the number of accounts. */
  method FindAccount(accounts: seq<Account>, name: Name) returns (i: nat)
    ensures i <= |accounts| && (i < |accounts| ==> accounts[i].name == name)
    ensures forall j :: 0 <= j < i ==> accounts[j].name != name
  {
    i := 0;
    while i < |accounts| && accounts[i].name != name
      invariant 0 <= i <= |accounts|
      invariant forall j :: 0 <= j < i ==> accounts[j].name != name
    {
      i := i + 1;
    }
  }

  /** That account is the one the name stands for, and the one that is switched on or off. */
  lemma {:induction false} FirstWith(accounts: seq<Account>, i: nat, name: Name, enabled: bool)
    requires i <= |accounts| && (i < |accounts| ==> accounts[i].name == name)
    requires forall j :: 0 <= j < i ==> accounts[j].name != name
    ensures Lookup(accounts, name) == if i == |accounts| then None else Some(accounts[i])
    ensures WithEnabled(accounts, name, enabled) ==
      if i == |accounts| then accounts else accounts[i := accounts[i].(enabled := enabled)]
  {
    if i > 0 {
      assert forall j :: 0 <= j < i - 1 ==> accounts[1..][j] == accounts[j + 1];
      FirstWith(accounts[1..], i - 1, name, enabled);
    }
  }

  /** Moves the account to the front and makes it the preferred one. */
  method SetPreferred(r: Registry, name: Name) returns (r': Registry)
    ensures r' == WithPreferred(r, name)
  {
    if name == "" {
      return r;
    }
    var ordered: seq<Account> := [];
    for i := 0 to |r.accounts|
      invariant ordered == Fronted(r.accounts[..i], name)
    {
      assert r.accounts[..i + 1][..i] == r.accounts[..i];
      if r.accounts[i].name == name {
        ordered := [r.accounts[i]] + ordered;
      } else {
        ordered := ordered + [r.accounts[i]];
      }
    }
    assert r.accounts[..|r.accounts|] == r.accounts;
    return Registry(name, ordered);
  }

  method FirstEnabledAccount(r: Registry, skip: Name) returns (name: Name)
    ensures name == FirstEnabled(Ordered(r), skip)
  {
    var accounts := Ordered(r);
    for i := 0 to |accounts|
      invariant FirstEnabled(accounts, skip) == FirstEnabled(accounts[i..], skip)
    {
      assert accounts[i..][1..] == accounts[i + 1..];
      if accounts[i].enabled && accounts[i].name != skip {
        return accounts[i].name;
      }
    }
    return "";
  }

  method WithoutAccount(accounts: seq<Account>, name: Name) returns (filtered: seq<Account>, removed: bool)
    ensures filtered == Named(accounts, name, false)
    ensures removed <==> Lookup(accounts, name).Some?
  {
    filtered, removed := [], false;
    for i := 0 to |accounts|
      invariant filtered + Named(accounts[i..], name, false) == Named(accounts, name, false)
      invariant !removed ==> Lookup(accounts, name) == Lookup(accounts[i..], name)
      invariant removed ==> Lookup(accounts, name).Some?
    {
      assert accounts[i..][1..] == accounts[i + 1..];
      if accounts[i].name == name {
        removed := true;
      } else {
        filtered := filtered + [accounts[i]];
      }
    }
  }

  // ---- The commands --------------------------------------------------------------------------

  /** The registry file and the state file. */
  class AuthFiles {
    var registry: Registry
    var state: AuthState

    constructor (registry: Registry, state: AuthState)
      ensures this.registry == registry && this.state == state
    {
      this.registry, this.state := registry, state;
    }

    ghost function Contents(): Home
      reads this
    {
      Home(registry, state)
    }

    method ImportAccount(raw: string, primary: bool, now: Time, found: bool, copies: bool)
      returns (error: Option<CommandError>)
      modifies this
      ensures Contents() == Import(old(Contents()), raw, primary, now, found, copies).0
      ensures error == Import(old(Contents()), raw, primary, now, found, copies).1
    {
      var name := Normalize(raw);
      if name == "" {
        return Some(InvalidName);
      }
      if !found {
        return Some(NoSource);
      }
      var r := Loaded(registry);
      var i := FindAccount(r.accounts, name);
      FirstWith(r.accounts, i, name, true);
      if i == |r.accounts| {
        r := r.(accounts := r.accounts + [Account(name, true)]);
      } else {
        r := r.(accounts := r.accounts[i := r.accounts[i].(enabled := true)]);
      }
      if r.preferred == "" || |r.accounts| == 1 || primary {
        r := SetPreferred(r, name);
      }
      registry := r;
      if state.active == "" || r.preferred == name {
        if !copies {
          return Some(NotCopied);
        }
        state := Activated(state, name, now);
      }
      return None;
    }

    method ActivateAccount(raw: string, now: Time, copies: bool) returns (error: Option<CommandError>)
      modifies this
      ensures Contents() == AccountCommands.ActivateAccount(old(Contents()), raw, now, copies).0
      ensures error == AccountCommands.ActivateAccount(old(Contents()), raw, now, copies).1
    {
      var name := Normalize(raw);
      var r := Loaded(registry);
      var i := FindAccount(r.accounts, name);
      FirstWith(r.accounts, i, name, true);
      if i == |r.accounts| {
        return Some(NotFound(name));
      }
      registry := SetPreferred(r.(accounts := r.accounts[i := r.accounts[i].(enabled := true)]), name);
      if !copies {
        return Some(NotCopied);
      }
      state := Activated(state, name, now);
      return None;
    }

    method EnableAccount(raw: string) returns (error: Option<CommandError>)
      modifies this`registry
      ensures Contents() == AccountCommands.EnableAccount(old(Contents()), raw).0
      ensures error == AccountCommands.EnableAccount(old(Contents()), raw).1
    {
      var name := Normalize(raw);
      var r := Loaded(registry);
      var i := FindAccount(r.accounts, name);
      FirstWith(r.accounts, i, name, true);
      if i == |r.accounts| {
        return Some(NotFound(name));
      }
      if r.accounts[i].enabled {
        return None;
      }
      r := r.(accounts := r.accounts[i := r.accounts[i].(enabled := true)]);
      if r.preferred == "" {
        r := SetPreferred(r, name);
      }
      registry := r;
      return None;
    }

    method DisableAccount(raw: string, now: Time, copies: bool) returns (error: Option<CommandError>)
      modifies this
      ensures Contents() == AccountCommands.DisableAccount(old(Contents()), raw, now, copies).0
      ensures error == AccountCommands.DisableAccount(old(Contents()), raw, now, copies).1
    {
      var name := Normalize(raw);
      var r := Loaded(registry);
      var i := FindAccount(r.accounts, name);
      FirstWith(r.accounts, i, name, false);
      if i == |r.accounts| {
        return Some(NotFound(name));
      }
      if !r.accounts[i].enabled {
        return None;
      }
      r := r.(accounts := r.accounts[i := r.accounts[i].(enabled := false)]);
      var s := state;
      if s.active == name {
        var next := FirstEnabledAccount(r, name);
        if next == "" {
          return Some(NoOtherEnabled(name));
        }
        if !copies {
          return Some(NotCopied);
        }
        s := Activated(s, next, now);
      }
      if r.preferred == name {
        var preferred := FirstEnabledAccount(r, "");
        r := r.(preferred := preferred);
      }
      if s.pendingActive == name {
        s := ClearPending(s);
      }
      registry, state := r, s;
      return None;
    }

    method RemoveAccount(raw: string, now: Time, copies: bool) returns (error: Option<CommandError>)
      modifies this
      ensures Contents() == AccountCommands.RemoveAccount(old(Contents()), raw, now, copies).0
      ensures error == AccountCommands.RemoveAccount(old(Contents()), raw, now, copies).1
    {
      var name := Normalize(raw);
      var r := Loaded(registry);
      var filtered, removed := WithoutAccount(r.accounts, name);
      if !removed {
        return Some(NotFound(name));
      }
      r := r.(accounts := filtered);
      if r.preferred == name {
        r := r.(preferred := if |filtered| > 0 then filtered[0].name else "");
      }
      registry := r;
      var s := state.(accounts := state.accounts - {name});
      if s.active == name {
        s := s.(active := "");
      }
      if s.pendingActive == name {
        s := ClearPending(s);
      }
      state := s;
      if s.active == "" && r.preferred != "" {
        error := ActivateAccount(r.preferred, now, copies);
        return error;
      }
      return None;
    }

    /** Runs a command; whatever it does, and wherever it fails, sound files stay sound. */
    method RunCommand(c: Command, now: Time, copies: bool) returns (error: Option<CommandError>)
      modifies this
      ensures Contents() == Run(old(Contents()), c, now, copies).0
      ensures error == Run(old(Contents()), c, now, copies).1
      ensures IsSound(old(Contents())) ==> IsSound(Contents())
    {
      if IsSound(Home(registry, state)) {
        CommandsAreSound(Home(registry, state), c, now, copies);
      }
      match c
      case DoImport(raw, primary, found) => error := ImportAccount(raw, primary, now, found, copies);
      case DoActivate(raw) => error := ActivateAccount(raw, now, copies);
      case DoEnable(raw) => error := EnableAccount(raw);
      case DoDisable(raw) => error := DisableAccount(raw, now, copies);
      case DoRemove(raw) => error := RemoveAccount(raw, now, copies);
    }
  }
}
