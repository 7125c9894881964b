// internal/api/configio.go, applyImport: the five loops that carry out a plan, and the order of the two maps.

module ConfigApply {
  import opened Options
  import opened Text
  import opened Recipients
  import opened Config

  /** The tables after some steps, and whether all of them succeeded; the first failure ends the import. */
  datatype Applied = Applied(t: Tables, ok: bool)

  function Create(a: Applied, d: Domain): Applied {
    if !a.ok || Key(d.name) in a.t.domains then a.(ok := false)
    else Applied(a.t.(domains := a.t.domains[Key(d.name) := d.(name := Key(d.name))]), true)
  }

  function Update(a: Applied, row: string, d: Domain): Applied {
    if !a.ok || row !in a.t.domains then a.(ok := false)
    else Applied(a.t.(domains := a.t.domains[row := d.(name := row)]), true)
  }

  function SetList(a: Applied, name: string, list: seq<string>): Applied {
    if !a.ok || Key(name) !in a.t.domains then a.(ok := false)
    else Applied(a.t.(recipients := a.t.recipients[a.t.domains[Key(name)].name := Kept(list)]), true)
  }

  function CreateUser(a: Applied, acc: Account): Applied {
    var username := TrimSpace(acc.username);
    if !a.ok || username in a.t.users then a.(ok := false)
    else Applied(a.t.(users := a.t.users[username := User(acc.allowed, true)]), true)
  }

  function Enable(a: Applied, username: string, on: bool): Applied {
    var u := TrimSpace(username);
    if !a.ok || u !in a.t.users then a.(ok := false)
    else Applied(a.t.(users := a.t.users[u := a.t.users[u].(enabled := on)]), true)
  }

  function CreateAll(a: Applied, ds: seq<Domain>): Applied {
    if ds == [] then a else Create(CreateAll(a, ds[..|ds| - 1]), ds[|ds| - 1])
  }

  function UpdateAll(a: Applied, ds: seq<(string, Domain)>): Applied {
    if ds == [] then a else Update(UpdateAll(a, ds[..|ds| - 1]), ds[|ds| - 1].0, ds[|ds| - 1].1)
  }

  /** The keys of a map in some order, each once. */
  predicate Lists<T>(order: seq<string>, m: map<string, T>) {
    && (forall i :: 0 <= i < |order| ==> order[i] in m)
    && (forall k :: k in m ==> k in order)
    && (forall i, j :: 0 <= i < j < |order| ==> order[i] != order[j])
  }

  function SetAll(a: Applied, lists: map<string, seq<string>>, order: seq<string>): Applied
    requires forall i :: 0 <= i < |order| ==> order[i] in lists
  {
    if order == [] then a
    else
      var name := order[|order| - 1];
      SetList(SetAll(a, lists, order[..|order| - 1]), name, lists[name])
  }

  function CreateUsers(a: Applied, accounts: seq<Account>): Applied {
    if accounts == [] then a else CreateUser(CreateUsers(a, accounts[..|accounts| - 1]), accounts[|accounts| - 1])
  }

  function EnableAll(a: Applied, toggles: map<string, bool>, order: seq<string>): Applied
    requires forall i :: 0 <= i < |order| ==> order[i] in toggles
  {
    if order == [] then a
    else
      var name := order[|order| - 1];
      Enable(EnableAll(a, toggles, order[..|order| - 1]), name, toggles[name])
  }

  /** What `applyImport` does, the maps being walked in these orders. */
  function ApplyOf(t: Tables, plan: Plan, lists: seq<string>, toggles: seq<string>): Applied
    requires Lists(lists, plan.setRecipients) && Lists(toggles, plan.enableUsers)
  {
    var a := CreateAll(Applied(t, true), plan.createDomains);
    var b := UpdateAll(a, plan.updateDomains);
    var c := SetAll(b, plan.setRecipients, lists);
    var d := CreateUsers(c, plan.createUsers);
    EnableAll(d, plan.enableUsers, toggles)
  }

  // ----- the loops -----

  class Node {
    var t: Tables

    constructor (t: Tables)
      ensures this.t == t
    {
      this.t := t;
    }

    method CreateDomains(ds: seq<Domain>) returns (ok: bool)
      modifies this
      ensures Applied(t, ok) == CreateAll(Applied(old(t), true), ds)
    {
      hide Key;
      for i := 0 to |ds|
        invariant Applied(t, true) == CreateAll(Applied(old(t), true), ds[..i])
      {
        assert ds[..i + 1][..i] == ds[..i];
        var d := ds[i];
        if Key(d.name) in t.domains {
          CreateStops(Applied(old(t), true), ds, i + 1);
          return false;
        }
        t := t.(domains := t.domains[Key(d.name) := d.(name := Key(d.name))]);
      }
      assert ds[..|ds|] == ds;
      ok := true;
    }

    method UpdateDomains(ds: seq<(string, Domain)>) returns (ok: bool)
      modifies this
      ensures Applied(t, ok) == UpdateAll(Applied(old(t), true), ds)
    {
      for i := 0 to |ds|
        invariant Applied(t, true) == UpdateAll(Applied(old(t), true), ds[..i])
      {
        assert ds[..i + 1][..i] == ds[..i];
        var row, d := ds[i].0, ds[i].1;
        if row !in t.domains {
          UpdateStops(Applied(old(t), true), ds, i + 1);
          return false;
        }
        t := t.(domains := t.domains[row := d.(name := row)]);
      }
      assert ds[..|ds|] == ds;
      ok := true;
    }

    method SetRecipientLists(lists: map<string, seq<string>>, order: seq<string>) returns (ok: bool)
      requires Lists(order, lists)
      modifies this
      ensures Applied(t, ok) == SetAll(Applied(old(t), true), lists, order)
    {
      hide Key, Kept;
      for i := 0 to |order|
        invariant Applied(t, true) == SetAll(Applied(old(t), true), lists, order[..i])
      {
        assert order[..i + 1][..i] == order[..i];
        var name := order[i];
        if Key(name) !in t.domains {
          SetStops(Applied(old(t), true), lists, order, i + 1);
          return false;
        }
        t := t.(recipients := t.recipients[t.domains[Key(name)].name := Kept(lists[name])]);
      }
      assert order[..|order|] == order;
      ok := true;
    }

    method CreateAccounts(accounts: seq<Account>) returns (ok: bool)
      modifies this
      ensures Applied(t, ok) == CreateUsers(Applied(old(t), true), accounts)
    {
      hide TrimSpace;
      for i := 0 to |accounts|
        invariant Applied(t, true) == CreateUsers(Applied(old(t), true), accounts[..i])
      {
        assert accounts[..i + 1][..i] == accounts[..i];
        var username := TrimSpace(accounts[i].username);
        if username in t.users {
          UsersStop(Applied(old(t), true), accounts, i + 1);
          return false;
        }
        t := t.(users := t.users[username := User(accounts[i].allowed, true)]);
      }
      assert accounts[..|accounts|] == accounts;
      ok := true;
    }

    method EnableAccounts(toggles: map<string, bool>, order: seq<string>) returns (ok: bool)
      requires Lists(order, toggles)
      modifies this
      ensures Applied(t, ok) == EnableAll(Applied(old(t), true), toggles, order)
    {
      hide TrimSpace;
      for i := 0 to |order|
        invariant Applied(t, true) == EnableAll(Applied(old(t), true), toggles, order[..i])
      {
        assert order[..i + 1][..i] == order[..i];
        var username := TrimSpace(order[i]);
        if username !in t.users {
          EnableStops(Applied(old(t), true), toggles, order, i + 1);
          return false;
        }
        t := t.(users := t.users[username := t.users[username].(enabled := toggles[order[i]])]);
      }
      assert order[..|order|] == order;
      ok := true;
    }

    method ApplyImport(plan: Plan, lists: seq<string>, toggles: seq<string>) returns (ok: bool)
      requires Lists(lists, plan.setRecipients) && Lists(toggles, plan.enableUsers)
      modifies this
      ensures Applied(t, ok) == ApplyOf(old(t), plan, lists, toggles)
    {
      hide CreateAll, UpdateAll, SetAll, CreateUsers, EnableAll;
      ghost var start := Applied(t, true);
      ok := CreateDomains(plan.createDomains);
      ghost var a := Applied(t, ok);
      StoppedStays(a, plan, lists, toggles);
      if !ok {
        return;
      }
      ok := UpdateDomains(plan.updateDomains);
      ghost var b := Applied(t, ok);
      StoppedStays(b, plan, lists, toggles);
      if !ok {
        return;
      }
      ok := SetRecipientLists(plan.setRecipients, lists);
      ghost var c := Applied(t, ok);
      StoppedStays(c, plan, lists, toggles);
      if !ok {
        return;
      }
      ok := CreateAccounts(plan.createUsers);
      ghost var d := Applied(t, ok);
      StoppedStays(d, plan, lists, toggles);
      if !ok {
        return;
      }
      ok := EnableAccounts(plan.enableUsers, toggles);
    }
  }

  /** After a failure nothing more is done. */
  lemma StoppedStays(a: Applied, plan: Plan, lists: seq<string>, toggles: seq<string>)
    requires Lists(lists, plan.setRecipients) && Lists(toggles, plan.enableUsers)
    ensures !a.ok ==> UpdateAll(a, plan.updateDomains) == a && SetAll(a, plan.setRecipients, lists) == a
                      && CreateUsers(a, plan.createUsers) == a && EnableAll(a, plan.enableUsers, toggles) == a
  {
    if !a.ok {
      assert plan.updateDomains[..0] == [] && lists[..0] == [] && plan.createUsers[..0] == [] && toggles[..0] == [];
      UpdateStops(a, plan.updateDomains, 0);
      SetStops(a, plan.setRecipients, lists, 0);
      UsersStop(a, plan.createUsers, 0);
      EnableStops(a, plan.enableUsers, toggles, 0);
    }
  }

  lemma {:induction false} CreateStops(a: Applied, ds: seq<Domain>, n: nat)
    requires n <= |ds| && !CreateAll(a, ds[..n]).ok
    ensures CreateAll(a, ds) == CreateAll(a, ds[..n])
    decreases |ds| - n
  {
    hide Key;
    if n == |ds| {
      assert ds[..n] == ds;
    } else {
      assert ds[..n + 1][..n] == ds[..n];
      CreateStops(a, ds, n + 1);
    }
  }

  lemma {:induction false} UpdateStops(a: Applied, ds: seq<(string, Domain)>, n: nat)
    requires n <= |ds| && !UpdateAll(a, ds[..n]).ok
    ensures UpdateAll(a, ds) == UpdateAll(a, ds[..n])
    decreases |ds| - n
  {
    if n == |ds| {
      assert ds[..n] == ds;
    } else {
      assert ds[..n + 1][..n] == ds[..n];
      UpdateStops(a, ds, n + 1);
    }
  }

  lemma {:induction false} SetStops(a: Applied, lists: map<string, seq<string>>, order: seq<string>, n: nat)
    requires n <= |order| && (forall i :: 0 <= i < |order| ==> order[i] in lists) && !SetAll(a, lists, order[..n]).ok
    ensures SetAll(a, lists, order) == SetAll(a, lists, order[..n])
    decreases |order| - n
  {
    hide Key, Kept;
    if n == |order| {
      assert order[..n] == order;
    } else {
      assert order[..n + 1][..n] == order[..n];
      SetStops(a, lists, order, n + 1);
    }
  }

  lemma {:induction false} UsersStop(a: Applied, accounts: seq<Account>, n: nat)
    requires n <= |accounts| && !CreateUsers(a, accounts[..n]).ok
    ensures CreateUsers(a, accounts) == CreateUsers(a, accounts[..n])
    decreases |accounts| - n
  {
    hide TrimSpace;
    if n == |accounts| {
      assert accounts[..n] == accounts;
    } else {
      assert accounts[..n + 1][..n] == accounts[..n];
      UsersStop(a, accounts, n + 1);
    }
  }

  lemma {:induction false} EnableStops(a: Applied, toggles: map<string, bool>, order: seq<string>, n: nat)
    requires n <= |order| && (forall i :: 0 <= i < |order| ==> order[i] in toggles) && !EnableAll(a, toggles, order[..n]).ok
    ensures EnableAll(a, toggles, order) == EnableAll(a, toggles, order[..n])
    decreases |order| - n
  {
    hide TrimSpace;
    if n == |order| {
      assert order[..n] == order;
    } else {
      assert order[..n + 1][..n] == order[..n];
      EnableStops(a, toggles, order, n + 1);
    }
  }
}
