// internal/api/configio.go, ExportConfigYAML: the document a node writes about itself, and what importing it does.

module ConfigExport {
  import opened Options
  import opened Text
  import opened Recipients
  import opened Config
  import opened ConfigApply
  import opened ConfigLaws
  import opened ConfigNames

  function ExportEntry(t: Tables, k: string): Entry
    requires k in t.domains
  {
    var d, list := t.domains[k], ListOf(t, k);
    Entry(d.name, d.host, d.port, d.tls, d.maxQueue, d.sendLimit, d.retention, Some(d.enabled),
          if list != [] then Some(list) else None)
  }

  function ExportAccount(t: Tables, u: string): Account
    requires u in t.users
  {
    Account(u, "", t.users[u].allowed, Some(t.users[u].enabled))
  }

  /** The document, with the rows in the order the queries give them. */
  function ExportOf(t: Tables, names: seq<string>, usernames: seq<string>): Document
    requires Lists(names, t.domains) && Lists(usernames, t.users)
  {
    Document(1, seq(|names|, i requires 0 <= i < |names| => ExportEntry(t, names[i])),
             seq(|usernames|, i requires 0 <= i < |usernames| => ExportAccount(t, usernames[i])))
  }

  method ExportConfig(t: Tables, names: seq<string>, usernames: seq<string>) returns (doc: Document)
    requires Lists(names, t.domains) && Lists(usernames, t.users)
    ensures doc == ExportOf(t, names, usernames)
  {
    hide ListOf;
    var domains, accounts := [], [];
    for i := 0 to |names|
      invariant |domains| == i && forall j :: 0 <= j < i ==> domains[j] == ExportEntry(t, names[j])
    {
      var d, list := t.domains[names[i]], ListOf(t, names[i]);
      var entry := Entry(d.name, d.host, d.port, d.tls, d.maxQueue, d.sendLimit, d.retention, Some(d.enabled), None);
      if |list| > 0 {
        entry := entry.(recipients := Some(list));
      }
      domains := domains + [entry];
    }
    for i := 0 to |usernames|
      invariant |accounts| == i && forall j :: 0 <= j < i ==> accounts[j] == ExportAccount(t, usernames[j])
    {
      var u := t.users[usernames[i]];
      accounts := accounts + [Account(usernames[i], "", u.allowed, Some(u.enabled))];
    }
    doc := Document(1, domains, accounts);
  }

  // ----- a node whose rows went through the checks -----

  ghost predicate DomainOk(k: string, d: Domain, st: Settings) {
    && d.name == k && Plain(k) && ToLower(k) == k && FieldsOk(d) && !Loops(d, st)
    && TrimSpace(d.host) == d.host && (d.sendLimit.Some? ==> d.sendLimit.value > 0)
  }

  /** How the planner looks up a domain that an account may send as. */
  function AllowedKey(name: string): string {
    Key(ToLower(TrimSpace(name)))
  }

  /** The account is named properly and sends as existing domains, however it writes them. */
  ghost predicate UserOk(t: Tables, u: string) {
    && u in t.users && u != "" && TrimSpace(u) == u && !BadName(u)
    && forall i :: 0 <= i < |t.users[u].allowed| ==> AllowedKey(t.users[u].allowed[i]) in t.domains
  }

  /** Every row is as an import would store it (`ImportKeepsNode`), and accounts name existing domains. */
  ghost predicate NodeOk(t: Tables, st: Settings) {
    && TablesOk(t)
    && (forall k :: k in t.domains ==> DomainOk(k, t.domains[k], st))
    && (forall k :: k in t.recipients ==> NormalForm(k, t.recipients[k]))
    && (forall u :: u in t.users ==> UserOk(t, u))
  }

  lemma EmptyNormal(k: string)
    ensures NormalForm(k, [])
  {
  }

  lemma ExportName(t: Tables, st: Settings, k: string)
    requires NodeOk(t, st) && k in t.domains
    ensures var e := ExportEntry(t, k);
            && e.name == k && EntryName(e) == k && k != "" && Key(k) == k && ToLower(TrimDot(TrimSpace(k))) == k
            && NormalForm(k, ListOf(t, k))
  {
    assert DomainOk(k, t.domains[k], st);
    PlainKey(k);
    EmptyNormal(k);
    hide TrimSpace, TrimDot, ToLower, Plain, NormalForm, ValidTls, UserOk;
  }

  /** An entry that carries every field of `d` puts `d` in the place of whatever was there. */
  lemma OverridesDomain(k: string, d: Domain, st: Settings, base: Domain, e: Entry)
    requires DomainOk(k, d, st) && ToLower(TrimDot(TrimSpace(k))) == k && k != "" && d.tls != ""
    requires e.name == k && e.host == d.host && e.port == d.port && e.tls == d.tls && e.maxQueue == d.maxQueue
    requires e.sendLimit == d.sendLimit && e.retention == d.retention && e.enabled == Some(d.enabled)
    requires base == d || (base.maxQueue.None? && base.sendLimit.None?)
    ensures Overridden(base, e) == d
  {
    hide TrimSpace, TrimDot, ToLower, Plain, Loops, NameOk, ValidTls;
    var r := Overridden(base, e);
    assert r.name == d.name && r.host == d.host && r.port == d.port && r.tls == d.tls;
    assert r.sendLimit == d.sendLimit && r.maxQueue == d.maxQueue;
    assert r.retention == d.retention && r.enabled == d.enabled;
  }

  lemma OverridesSame(t: Tables, st: Settings, k: string, base: Domain)
    requires NodeOk(t, st) && k in t.domains
    requires base == t.domains[k] || (base.maxQueue.None? && base.sendLimit.None?)
    ensures Overridden(base, ExportEntry(t, k)) == t.domains[k]
  {
    ExportName(t, st, k);
    assert DomainOk(k, t.domains[k], st);
    assert t.domains[k].tls != "" by { TlsNamed(t.domains[k]); }
    hide TrimSpace, TrimDot, ToLower, NormalForm, NodeOk, ListOf, DomainOk, Key, EntryName, Overridden;
    OverridesDomain(k, t.domains[k], st, base, ExportEntry(t, k));
  }

  lemma TlsNamed(d: Domain)
    requires FieldsOk(d)
    ensures d.tls != ""
  {
    hide NameOk;
  }

  /** Planned where it comes from, an exported domain is unchanged. */
  lemma OwnEntry(t: Tables, st: Settings, k: string)
    requires NodeOk(t, st) && k in t.domains
    ensures EntryIs(t, st, ExportEntry(t, k), Planned(k, k, Unchanged, t.domains[k], None))
  {
    hide UserOk, TrimSpace, TrimDot, ToLower, Plain, NormalForm, Loops, FieldsOk, Valid, Key, EntryName, Overridden, ListOf;
    var e, d := ExportEntry(t, k), t.domains[k];
    ExportName(t, st, k);
    OverridesSame(t, st, k, d);
    NormalIsFixed(k, ListOf(t, k));
    assert DomainOk(k, d, st);
    assert SameDomain(d, d) && EqualFold(k, k);
    hide NodeOk;
    assert NewList(t, e, Some(d)) == Good(None);
  }

  const EMPTY := Tables(map[], map[], map[])

  function Fresh(t: Tables, k: string): Planned
    requires k in t.domains
  {
    Planned(k, k, Created, t.domains[k], if ListOf(t, k) != [] then Some(ListOf(t, k)) else None)
  }

  /** Planned on an empty node, it is created with all its fields. */
  lemma FreshEntry(t: Tables, st: Settings, k: string)
    requires NodeOk(t, st) && k in t.domains
    ensures EntryIs(EMPTY, st, ExportEntry(t, k), Fresh(t, k))
  {
    hide UserOk;
    var e, d := ExportEntry(t, k), t.domains[k];
    ExportName(t, st, k);
    OverridesSame(t, st, k, Base(None, st));
    NormalIsFixed(k, ListOf(t, k));
    assert DomainOk(k, d, st);
    hide TrimSpace, TrimDot, ToLower, Plain, NormalForm, NodeOk, Loops, FieldsOk, Valid, Key, EntryName, Overridden, ListOf;
    assert Find(EMPTY, k) == None;
    assert NewList(EMPTY, e, None) == Good(if ListOf(t, k) != [] then Some(ListOf(t, k)) else None);
  }

  function OwnPlanned(t: Tables, names: seq<string>): seq<Planned>
    requires forall i :: 0 <= i < |names| ==> names[i] in t.domains
  {
    seq(|names|, i requires 0 <= i < |names| => Planned(names[i], names[i], Unchanged, t.domains[names[i]], None))
  }

  function FreshPlanned(t: Tables, names: seq<string>): seq<Planned>
    requires forall i :: 0 <= i < |names| ==> names[i] in t.domains
  {
    seq(|names|, i requires 0 <= i < |names| => Fresh(t, names[i]))
  }

  lemma OwnMatches(t: Tables, st: Settings, names: seq<string>, es: seq<Entry>)
    requires NodeOk(t, st) && Lists(names, t.domains)
    requires |es| == |names| && forall i :: 0 <= i < |es| ==> es[i] == ExportEntry(t, names[i])
    ensures EntriesMatch(t, st, es, OwnPlanned(t, names))
  {
    hide EntryIs, NodeOk, ExportEntry;
    forall i | 0 <= i < |es|
      ensures EntryIs(t, st, es[i], OwnPlanned(t, names)[i])
    {
      OwnEntry(t, st, names[i]);
    }
  }

  lemma FreshMatches(t: Tables, st: Settings, names: seq<string>, es: seq<Entry>)
    requires NodeOk(t, st) && Lists(names, t.domains)
    requires |es| == |names| && forall i :: 0 <= i < |es| ==> es[i] == ExportEntry(t, names[i])
    ensures EntriesMatch(EMPTY, st, es, FreshPlanned(t, names)) && PlainNames(es)
  {
    hide EntryIs, NodeOk, ExportEntry, Plain, ListOf;
    forall i | 0 <= i < |es|
      ensures EntryIs(EMPTY, st, es[i], FreshPlanned(t, names)[i]) && Plain(es[i].name)
    {
      FreshEntry(t, st, names[i]);
      PlainOf(t, st, names[i]);
    }
  }

  lemma DomainsPlanned(t: Tables, st: Settings, names: seq<string>, usernames: seq<string>)
    requires NodeOk(t, st) && Lists(names, t.domains) && Lists(usernames, t.users)
    ensures var es := ExportOf(t, names, usernames).domains;
            && PlainNames(es)
            && PlanEntries(t, st, es) == Good(OwnPlanned(t, names)) && PlanEntries(EMPTY, st, es) == Good(FreshPlanned(t, names))
  {
    var es := ExportOf(t, names, usernames).domains;
    hide NodeOk, PlanEntries, EntriesMatch, ExportEntry, OwnPlanned, FreshPlanned, PlainNames;
    OwnMatches(t, st, names, es);
    FreshMatches(t, st, names, es);
    EntriesFrom(t, st, es, OwnPlanned(t, names));
    EntriesFrom(EMPTY, st, es, FreshPlanned(t, names));
  }

  lemma PlainOf(t: Tables, st: Settings, k: string)
    requires NodeOk(t, st) && k in t.domains
    ensures Plain(ExportEntry(t, k).name)
  {
    assert DomainOk(k, t.domains[k], st);
    hide Plain, NormalForm, UserOk;
  }

  lemma KnownHere(t: Tables, incoming: set<string>, allowed: seq<string>)
    requires forall i :: 0 <= i < |allowed| ==> AllowedKey(allowed[i]) in t.domains
    ensures KnownDomains(t, incoming, allowed)
  {
    hide ToLower, TrimSpace, Key;
  }

  lemma AccountExported(t: Tables, st: Settings, incoming: set<string>, u: string)
    requires NodeOk(t, st) && u in t.users
    ensures var a := ExportAccount(t, u); AccountIs(t, st, incoming, a, PlannedUser(u, Unchanged, a))
  {
    assert UserOk(t, u);
    KnownHere(t, incoming, t.users[u].allowed);
    hide KnownDomains, TrimSpace, BadName, ToLower, NodeOk;
  }

  lemma AccountsExported(t: Tables, st: Settings, names: seq<string>, usernames: seq<string>, incoming: set<string>)
    requires NodeOk(t, st) && Lists(names, t.domains) && Lists(usernames, t.users)
    ensures PlanAccounts(t, st, incoming, ExportOf(t, names, usernames).accounts) == Good(Actions(t, usernames, Unchanged))
  {
    var accounts := ExportOf(t, names, usernames).accounts;
    hide AccountIs, NodeOk, ExportAccount, PlanAccounts;
    forall i | 0 <= i < |usernames|
      ensures AccountIs(t, st, incoming, accounts[i], Actions(t, usernames, Unchanged)[i])
    {
      AccountExported(t, st, incoming, usernames[i]);
    }
    AccountsFrom(t, st, incoming, accounts, Actions(t, usernames, Unchanged));
  }

  // ----- the accounts of an export, on an empty node -----

  /** The account writes every domain it may send as by its own name, up to case and space around it. */
  ghost predicate PortableUser(t: Tables, u: string)
    requires u in t.users
  {
    forall i :: 0 <= i < |t.users[u].allowed| ==> ToLower(TrimSpace(t.users[u].allowed[i])) in t.domains
  }

  ghost predicate Portable(t: Tables) {
    forall u :: u in t.users ==> PortableUser(t, u)
  }

  lemma KnownElsewhere(t: Tables, u: string)
    requires u in t.users
    ensures KnownDomains(EMPTY, t.domains.Keys, t.users[u].allowed) <==> PortableUser(t, u)
  {
    hide ToLower, TrimSpace, Key;
  }

  lemma AccountElsewhere(t: Tables, st: Settings, u: string)
    requires NodeOk(t, st) && u in t.users
    ensures var a := ExportAccount(t, u);
            && TrimSpace(a.username) == u != "" && !BadName(u)
            && PlanAccount(EMPTY, st, t.domains.Keys, a) ==
                 if PortableUser(t, u) then Good(PlannedUser(u, Skipped, a)) else Bad(UnknownDomain)
  {
    assert UserOk(t, u);
    KnownElsewhere(t, u);
    hide KnownDomains, TrimSpace, BadName, ToLower, NodeOk, PortableUser;
  }

  lemma ActionsSnoc(t: Tables, usernames: seq<string>, u: string)
    requires u in t.users && forall i :: 0 <= i < |usernames| ==> usernames[i] in t.users
    ensures Actions(t, usernames + [u], Skipped) == Actions(t, usernames, Skipped) + [PlannedUser(u, Skipped, ExportAccount(t, u))]
    ensures u !in usernames ==> u !in UserNames(Actions(t, usernames, Skipped))
  {
  }

  lemma {:induction false} AccountsElsewhere(t: Tables, st: Settings, usernames: seq<string>, accounts: seq<Account>)
    requires NodeOk(t, st) && (forall i :: 0 <= i < |usernames| ==> usernames[i] in t.users)
    requires forall i, j :: 0 <= i < j < |usernames| ==> usernames[i] != usernames[j]
    requires |accounts| == |usernames| && forall i :: 0 <= i < |accounts| ==> accounts[i] == ExportAccount(t, usernames[i])
    ensures PlanAccounts(EMPTY, st, t.domains.Keys, accounts) ==
            if forall i :: 0 <= i < |usernames| ==> PortableUser(t, usernames[i]) then Good(Actions(t, usernames, Skipped))
            else Bad(UnknownDomain)
    decreases |usernames|
  {
    hide NodeOk, PlanAccount, TrimSpace, BadName, UserNames, PortableUser, ExportAccount;
    if usernames == [] {
      assert Actions(t, usernames, Skipped) == [];
    } else {
      var init, u := usernames[..|usernames| - 1], usernames[|usernames| - 1];
      AccountsElsewhere(t, st, init, accounts[..|accounts| - 1]);
      AccountElsewhere(t, st, u);
      assert usernames == init + [u];
      ActionsSnoc(t, init, u);
      hide Actions;
    }
  }

  function Actions(t: Tables, usernames: seq<string>, action: Action): seq<PlannedUser>
    requires forall i :: 0 <= i < |usernames| ==> usernames[i] in t.users
  {
    seq(|usernames|, i requires 0 <= i < |usernames| => PlannedUser(usernames[i], action, ExportAccount(t, usernames[i])))
  }

  lemma NamesListed(t: Tables, names: seq<string>)
    requires Lists(names, t.domains)
    ensures Names(OwnPlanned(t, names)) == t.domains.Keys && Names(FreshPlanned(t, names)) == t.domains.Keys
  {
    var a, b := OwnPlanned(t, names), FreshPlanned(t, names);
    forall k
      ensures k in t.domains ==> k in Names(a) && k in Names(b)
    {
      if k in t.domains {
        var i :| 0 <= i < |names| && names[i] == k;
        assert a[i] in a && a[i].name == k && b[i] in b && b[i].name == k;
      }
    }
  }

  lemma PortableListed(t: Tables, usernames: seq<string>)
    requires Lists(usernames, t.users)
    ensures Portable(t) <==> forall i :: 0 <= i < |usernames| ==> PortableUser(t, usernames[i])
  {
    hide PortableUser;
  }

  lemma ExportPlans(t: Tables, st: Settings, names: seq<string>, usernames: seq<string>)
    requires NodeOk(t, st) && Lists(names, t.domains) && Lists(usernames, t.users)
    ensures var doc := ExportOf(t, names, usernames);
            && PlansTo(t, st, doc, OwnPlanned(t, names), Actions(t, usernames, Unchanged))
            && PlanEntries(EMPTY, st, doc.domains) == Good(FreshPlanned(t, names)) && Names(FreshPlanned(t, names)) == t.domains.Keys
            && PlanAccounts(EMPTY, st, t.domains.Keys, doc.accounts) ==
                 (if Portable(t) then Good(Actions(t, usernames, Skipped)) else Bad(UnknownDomain))
            && PlainNames(doc.domains)
  {
    DomainsPlanned(t, st, names, usernames);
    NamesListed(t, names);
    AccountsExported(t, st, names, usernames, t.domains.Keys);
    AccountsElsewhere(t, st, usernames, ExportOf(t, names, usernames).accounts);
    PortableListed(t, usernames);
    hide PlanEntries, PlanAccounts, NodeOk, Lists, Names, ExportEntry, ExportAccount, OwnPlanned, FreshPlanned, Actions, PlainNames, Portable, PortableUser;
  }

  lemma FreshPlans(t: Tables, st: Settings, names: seq<string>, usernames: seq<string>)
    requires NodeOk(t, st) && Lists(names, t.domains) && Lists(usernames, t.users)
    ensures var doc := ExportOf(t, names, usernames);
            && (Portable(t) ==> PlansTo(EMPTY, st, doc, FreshPlanned(t, names), Actions(t, usernames, Skipped)))
            && (!Portable(t) ==> PlanOf(EMPTY, st, doc) == Bad(UnknownDomain))
            && PlainNames(doc.domains)
  {
    ExportPlans(t, st, names, usernames);
    hide PlanEntries, PlanAccounts, NodeOk, Lists, Names, ExportEntry, ExportAccount, OwnPlanned, FreshPlanned, Actions, PlainNames, Portable;
  }

  lemma UnchangedPlan(ps: seq<Planned>, us: seq<PlannedUser>)
    requires forall i :: 0 <= i < |ps| ==> ps[i].action == Unchanged && ps[i].recipients.None?
    requires forall i :: 0 <= i < |us| ==> us[i].action == Unchanged
    ensures var plan := AddUsers(AddDomains(NOTHING, ps), us);
            AllSettled(plan) && forall i :: 0 <= i < |plan.users| ==> plan.users[i].action == Unchanged
  {
    PlanParts(ps, us);
    SettledPlan(ps);
    NoNewAccounts(us);
    NoToggles(us);
    hide AddDomains, AddUsers, NewAccounts, Toggles, ListsOf;
  }

  /** Applying a node's own export changes nothing. */
  lemma ExportChangesNothing(t: Tables, st: Settings, names: seq<string>, usernames: seq<string>)
    requires NodeOk(t, st) && Lists(names, t.domains) && Lists(usernames, t.users)
    ensures var r := PlanOf(t, st, ExportOf(t, names, usernames));
            && r.Good? && AllSettled(r.value)
            && forall i :: 0 <= i < |r.value.users| ==> r.value.users[i].action == Unchanged
  {
    var ps, us := OwnPlanned(t, names), Actions(t, usernames, Unchanged);
    UnchangedPlan(ps, us);
    hide PlanOf, PlansTo, AddDomains, AddUsers, NodeOk, Lists, ExportOf, AllSettled, OwnPlanned, Actions;
    ExportPlans(t, st, names, usernames);
    PlanOfIs(t, st, ExportOf(t, names, usernames), ps, us);
  }

  lemma {:induction false} NoUpdates(m: map<string, Domain>, ps: seq<Planned>)
    requires forall i :: 0 <= i < |ps| ==> ps[i].action != Updated
    ensures WithUpdated(m, ps) == m
  {
    if ps != [] {
      NoUpdates(m, ps[..|ps| - 1]);
    }
  }

  lemma {:induction false} NobodyNew(m: map<string, User>, us: seq<PlannedUser>)
    requires forall i :: 0 <= i < |us| ==> us[i].action != Created
    ensures WithNew(m, us) == m
  {
    if us != [] {
      NobodyNew(m, us[..|us| - 1]);
    }
  }

  lemma RebuiltDomains(t: Tables, names: seq<string>)
    requires TablesOk(t) && Lists(names, t.domains)
    ensures var ps := FreshPlanned(t, names); WithUpdated(WithCreated(map[], ps), ps) == t.domains
  {
    hide WithCreated, WithUpdated, ListOf;
    var ps := FreshPlanned(t, names);
    assert DistinctNames(ps);
    NoUpdates(WithCreated(map[], ps), ps);
    CreatedKeys(map[], ps);
    var m := WithCreated(map[], ps);
    forall k
      ensures (k in m <==> k in t.domains) && (k in t.domains ==> m[k] == t.domains[k])
    {
      if k in t.domains {
        var i :| 0 <= i < |names| && names[i] == k;
        CreatedAt(map[], ps, i);
        assert ps[i].name == k && ps[i].action == Created;
      }
    }
  }

  lemma RebuiltLists(t: Tables, names: seq<string>, k: string)
    requires TablesOk(t) && Lists(names, t.domains)
    ensures var lists := ListsOf(FreshPlanned(t, names));
            (if k in lists then lists[k] else []) == ListOf(t, k)
  {
    var ps := FreshPlanned(t, names);
    ListsAt(ps, k);
    hide ListsOf;
    if k in t.domains {
      var i :| 0 <= i < |names| && names[i] == k;
      assert ps[i].name == k;
    }
  }

  /** The tables an export leads to on an empty node. */
  lemma RebuiltTables(t: Tables, names: seq<string>, us: seq<PlannedUser>)
    requires TablesOk(t) && Lists(names, t.domains) && forall i :: 0 <= i < |us| ==> us[i].action != Created
    ensures var u := Imported(EMPTY, FreshPlanned(t, names), us);
            u.domains == t.domains && u.users == map[] && forall k: string :: ListOf(u, k) == ListOf(t, k)
  {
    var ps := FreshPlanned(t, names);
    RebuiltDomains(t, names);
    NobodyNew(map[], us);
    hide WithCreated, WithUpdated, WithNew, Toggles, FreshPlanned, ListsOf;
    var u := Imported(EMPTY, ps, us);
    assert u.recipients == ListsOf(ps);
    forall k: string
      ensures ListOf(u, k) == ListOf(t, k)
    {
      RebuiltLists(t, names, k);
    }
  }

  /** An export can be planned on an empty node exactly when no account writes a domain with a trailing dot; the
      node itself looks such a name up without the dot. */
  lemma ExportPlansOnEmpty(t: Tables, st: Settings, names: seq<string>, usernames: seq<string>)
    requires NodeOk(t, st) && Lists(names, t.domains) && Lists(usernames, t.users)
    ensures var r := PlanOf(EMPTY, st, ExportOf(t, names, usernames));
            (r.Good? <==> Portable(t)) && (r.Bad? ==> r.why == UnknownDomain)
  {
    var ps, us := FreshPlanned(t, names), Actions(t, usernames, Skipped);
    hide PlanOf, PlansTo, NodeOk, Lists, ExportOf, FreshPlanned, Actions, AddDomains, AddUsers, Portable;
    FreshPlans(t, st, names, usernames);
    if Portable(t) {
      PlanOfIs(EMPTY, st, ExportOf(t, names, usernames), ps, us);
    }
  }

  /** Applied to an empty node that takes it, an export gives the same domains with the same recipients, so the same
      domain section is exported. Accounts have no password in the document and are skipped. */
  lemma ExportRebuilds(t: Tables, st: Settings, names: seq<string>, usernames: seq<string>, plan: Plan, lists: seq<string>, toggles: seq<string>)
    requires NodeOk(t, st) && Lists(names, t.domains) && Lists(usernames, t.users)
    requires PlanOf(EMPTY, st, ExportOf(t, names, usernames)) == Good(plan)
    requires Lists(lists, plan.setRecipients) && Lists(toggles, plan.enableUsers)
    ensures var r := ApplyOf(EMPTY, plan, lists, toggles);
            && r.ok && r.t.domains == t.domains && r.t.users == map[]
            && (forall k: string :: ListOf(r.t, k) == ListOf(t, k))
            && Lists(names, r.t.domains) && ExportOf(r.t, names, []).domains == ExportOf(t, names, usernames).domains
  {
    var doc := ExportOf(t, names, usernames);
    var ps, us := FreshPlanned(t, names), Actions(t, usernames, Skipped);
    RebuiltTables(t, names, us);
    EmptyOk();
    hide PlanOf, PlansTo, AddDomains, AddUsers, NodeOk, Lists, ExportOf, FreshPlanned, Actions, ApplyOf, Imported, TablesOk, PlainNames, ListOf, Portable;
    ExportPlansOnEmpty(t, st, names, usernames);
    FreshPlans(t, st, names, usernames);
    var ps2, us2 := ImportOnce(EMPTY, st, doc, plan, lists, toggles);
    SamePlans(EMPTY, st, doc, ps, us, ps2, us2);
    SameExport(t, Imported(EMPTY, ps, us), names, usernames);
  }

  lemma EmptyOk()
    ensures TablesOk(EMPTY)
  {
  }

  lemma SamePlans(t: Tables, st: Settings, doc: Document, ps: seq<Planned>, us: seq<PlannedUser>, ps2: seq<Planned>, us2: seq<PlannedUser>)
    requires PlansTo(t, st, doc, ps, us) && PlansTo(t, st, doc, ps2, us2)
    ensures ps == ps2 && us == us2
  {
    hide PlanEntries, PlanAccounts, Names;
  }

  lemma SameExport(t: Tables, u: Tables, names: seq<string>, usernames: seq<string>)
    requires Lists(names, t.domains) && Lists(usernames, t.users) && u.domains == t.domains && u.users == map[]
    requires forall k: string :: ListOf(u, k) == ListOf(t, k)
    ensures Lists(names, u.domains) && ExportOf(u, names, []).domains == ExportOf(t, names, usernames).domains
  {
    hide ListOf;
  }

  // ----- a name with a trailing dot -----

  function DottedNode(allowed: string): Tables {
    Tables(map["a.b" := Domain("a.b", "c.d", 25, "none", None, None, 24, true)], map[], map["u" := User([allowed], true)])
  }

  /** An account that may send as "a.b." where the domain is "a.b": it is accepted and stored so, importing the node's own
      export changes nothing, and an empty node refuses that export. */
  lemma TrailingDotRefused(st: Settings, allowed: string, names: seq<string>, usernames: seq<string>)
    requires st.hostname == "" && allowed == "a.b."
    requires Lists(names, DottedNode(allowed).domains) && Lists(usernames, DottedNode(allowed).users)
    ensures NodeOk(DottedNode(allowed), st)
    ensures PlanOf(DottedNode(allowed), st, ExportOf(DottedNode(allowed), names, usernames)).Good?
    ensures PlanOf(EMPTY, st, ExportOf(DottedNode(allowed), names, usernames)) == Bad(UnknownDomain)
  {
    var t := DottedNode(allowed);
    DottedOk(st, t, allowed);
    hide NodeOk, Lists, PlanOf, ExportOf, Portable, AllSettled, DottedNode;
    ExportPlansOnEmpty(t, st, names, usernames);
    ExportChangesNothing(t, st, names, usernames);
  }

  /** How that account comes about. */
  lemma TrailingDotAccepted(st: Settings, allowed: string)
    requires allowed == "a.b." && st.strong("secret")
    ensures var a := Account("u", "secret", [allowed], None);
            && PlanAccount(DottedNode(allowed).(users := map[]), st, {}, a) == Good(PlannedUser("u", Created, a))
            && CreateUser(Applied(DottedNode(allowed).(users := map[]), true), a) == Applied(DottedNode(allowed), true)
  {
    DottedKey(allowed);
    assert Trimmed("u");
    TrimTrimmed("u");
    hide TrimSpace, ToLower, TrimDot;
  }

  lemma DottedOk(st: Settings, t: Tables, allowed: string)
    requires st.hostname == "" && allowed == "a.b." && t == DottedNode(allowed)
    ensures NodeOk(t, st) && !Portable(t)
  {
    hide TrimSpace, ToLower, TrimDot, DomainOk, Plain;
    DottedKey(allowed);
    DottedDomain(st, t.domains["a.b"]);
    assert Trimmed("u") && !BadName("u");
    TrimTrimmed("u");
    assert !PortableUser(t, "u") by { assert t.users["u"].allowed[0] == allowed; }
  }

  lemma DottedKey(allowed: string)
    requires allowed == "a.b."
    ensures ToLower(TrimSpace(allowed)) == "a.b." && AllowedKey(allowed) == "a.b"
  {
    assert Trimmed(allowed);
    TrimTrimmed(allowed);
    assert ToLower(allowed) == allowed;
    assert TrimDot(allowed) == "a.b";
    assert Plain("a.b") && ToLower("a.b") == "a.b";
    PlainKey("a.b");
    TrimTrimmed("a.b");
  }

  lemma DottedDomain(st: Settings, d: Domain)
    requires st.hostname == "" && d == Domain("a.b", "c.d", 25, "none", None, None, 24, true)
    ensures DomainOk("a.b", d, st)
  {
    assert Plain("a.b") && ToLower("a.b") == "a.b" && Trimmed("c.d");
    TrimTrimmed("c.d");
    assert NameOk("a.b") by { assert "a.b"[1] == '.'; }
  }

  // ----- what the accounts API accepts -----

  lemma {:induction false} TrimLeftDotted(b: string)
    ensures TrimLeft(b + ".") == TrimLeft(b) + "."
  {
    if b != "" && IsSpace(b[0]) {
      assert (b + ".")[1..] == b[1..] + ".";
      TrimLeftDotted(b[1..]);
    }
  }

  lemma {:induction false} TrimLeftTwice(b: string)
    ensures TrimLeft(TrimLeft(b)) == TrimLeft(b)
  {
    if b != "" && IsSpace(b[0]) {
      TrimLeftTwice(b[1..]);
    }
  }

  lemma DottedLookedUp(b: string)
    ensures AllowedKey(b + ".") == ToLower(TrimSpace(b))
  {
    TrimLeftDotted(b);
    TrimLeftTwice(b);
    var v := TrimSpace(b + ".");
    assert v == TrimLeft(b) + "." && TrimDot(v) == TrimLeft(b);
    TrimLower(v);
    TrimLower(TrimDot(v));
    LowerTwice(TrimSpace(TrimDot(v)));
    hide TrimDot, ToLower, TrimLeft, TrimRight;
  }

  /** The accounts API takes a name that is looked up as it stands; the planner knows it too. */
  lemma AcceptedByApi(t: Tables, st: Settings, name: string)
    requires NodeOk(t, st) && Key(name) in t.domains
    ensures AllowedKey(name) in t.domains
  {
    hide UserOk, NormalForm, FieldsOk, Loops, TablesOk, TrimSpace, ToLower, Plain;
    var k := Key(name);
    assert DomainOk(k, t.domains[k], st);
    hide NodeOk, DomainOk;
    if EndsInDot(name) {
      var b := TrimDot(name);
      assert name == b + ".";
      DottedLookedUp(b);
    } else {
      assert k == ToLower(TrimSpace(name));
      PlainKey(k);
    }
  }

  // ----- imports keep a node in order -----

  lemma TrimSpaceTwice(s: string)
    ensures TrimSpace(TrimSpace(s)) == TrimSpace(s)
  {
    TrimmedResult(s);
    TrimTrimmed(TrimSpace(s));
  }

  /** The fields that a good merge leaves, over defaults or over a row that was in order. */
  lemma MergedDomain(k: string, e: Entry, existing: Option<Domain>, st: Settings)
    requires DomainFrom(e, existing, st).Good? && DomainFrom(e, existing, st).value.name == k && Plain(k) && ToLower(k) == k
    requires existing.Some? ==> DomainOk(existing.value.name, existing.value, st)
    ensures DomainOk(k, DomainFrom(e, existing, st).value, st)
  {
    TrimSpaceTwice(e.host);
    hide TrimSpace, ToLower, TrimDot, Plain, ValidTls, NameOk, Loops;
  }

  lemma MergedOk(t: Tables, st: Settings, e: Entry)
    requires NodeOk(t, st) && Plain(e.name) && e.name != "" && PlanEntry(t, st, e).Good?
    ensures var p := PlanEntry(t, st, e).value; DomainOk(p.name, p.domain, st)
    ensures var p := PlanEntry(t, st, e).value; p.recipients.Some? ==> NormalForm(p.name, p.recipients.value)
  {
    hide TrimSpace, ToLower, TrimDot, Plain, NormalForm, Valid, Kept, Key, DomainOk, Overridden, FieldsOk, Loops, UserOk;
    var p := PlanEntry(t, st, e).value;
    var existing := Find(t, EntryName(e));
    EntryPlanned(t, st, e);
    PlainLower(e.name);
    MergedDomain(p.name, e, existing, st);
    if p.recipients.Some? {
      NewListKept(t, e, existing);
      ValidIsNormal(p.name, e.recipients.value);
    }
  }

  ghost predicate PlannedOk(ps: seq<Planned>, st: Settings) {
    forall i :: 0 <= i < |ps| ==>
      DomainOk(ps[i].name, ps[i].domain, st) && (ps[i].recipients.Some? ==> NormalForm(ps[i].name, ps[i].recipients.value))
  }

  lemma AllMergedOk(t: Tables, st: Settings, es: seq<Entry>)
    requires NodeOk(t, st) && PlainNames(es) && PlanEntries(t, st, es).Good?
    ensures PlannedOk(PlanEntries(t, st, es).value, st)
  {
    EntriesAre(t, st, es);
    var ps := PlanEntries(t, st, es).value;
    hide NodeOk, PlanEntries, PlanEntry, Plain, DomainOk, NormalForm;
    forall i | 0 <= i < |ps|
      ensures DomainOk(ps[i].name, ps[i].domain, st) && (ps[i].recipients.Some? ==> NormalForm(ps[i].name, ps[i].recipients.value))
    {
      assert EntryIs(t, st, es[i], ps[i]);
      NamedEntry(es[i]);
      MergedOk(t, st, es[i]);
    }
  }

  ghost predicate RowsOk(m: map<string, Domain>, st: Settings) {
    forall k :: k in m ==> DomainOk(k, m[k], st)
  }

  lemma {:induction false} RowsKept(m: map<string, Domain>, ps: seq<Planned>, st: Settings)
    requires RowsOk(m, st) && PlannedOk(ps, st)
    ensures RowsOk(WithCreated(m, ps), st) && RowsOk(WithUpdated(m, ps), st)
  {
    hide DomainOk, NormalForm;
    if ps != [] {
      RowsKept(m, ps[..|ps| - 1], st);
    }
  }

  lemma ListsKept(t: Tables, ps: seq<Planned>, st: Settings)
    requires PlannedOk(ps, st) && DistinctNames(ps) && forall k :: k in t.recipients ==> NormalForm(k, t.recipients[k])
    ensures forall k :: k in t.recipients + ListsOf(ps) ==> NormalForm(k, (t.recipients + ListsOf(ps))[k])
  {
    hide DomainOk, NormalForm, ListsOf;
    forall k | k in ListsOf(ps)
      ensures NormalForm(k, ListsOf(ps)[k])
    {
      ListsAt(ps, k);
      var i :| 0 <= i < |ps| && ps[i].name == k && ps[i].recipients.Some?;
    }
  }

  /** Where an account's domains are known, they are domains of the tables that the import leads to. */
  lemma KnownKept(t: Tables, incoming: set<string>, allowed: seq<string>, u: Tables)
    requires KnownDomains(t, incoming, allowed) && t.domains.Keys <= u.domains.Keys
    requires forall n :: n in incoming ==> n in u.domains && Key(n) == n
    ensures forall i :: 0 <= i < |allowed| ==> AllowedKey(allowed[i]) in u.domains
  {
    hide ToLower, TrimSpace, Key;
    forall i | 0 <= i < |allowed|
      ensures AllowedKey(allowed[i]) in u.domains
    {
      var name := ToLower(TrimSpace(allowed[i]));
      assert name in incoming || Key(name) in t.domains;
    }
  }

  ghost predicate AllowedIn(allowed: seq<string>, domains: set<string>) {
    forall i :: 0 <= i < |allowed| ==> AllowedKey(allowed[i]) in domains
  }

  ghost predicate UsersOk(m: map<string, User>, domains: set<string>) {
    forall u :: u in m ==> u != "" && TrimSpace(u) == u && !BadName(u) && AllowedIn(m[u].allowed, domains)
  }

  lemma {:induction false} UsersKept(m: map<string, User>, us: seq<PlannedUser>, domains: set<string>)
    requires UsersOk(m, domains)
    requires forall i :: 0 <= i < |us| && us[i].action == Created ==>
               var n := us[i].username; n != "" && TrimSpace(n) == n && !BadName(n) && AllowedIn(us[i].account.allowed, domains)
    ensures UsersOk(WithNew(m, us), domains)
  {
    hide AllowedIn, TrimSpace, BadName;
    if us != [] {
      UsersKept(m, us[..|us| - 1], domains);
    }
  }

  lemma NewUserOk(t: Tables, st: Settings, incoming: set<string>, a: Account, p: PlannedUser, u: Tables)
    requires AccountIs(t, st, incoming, a, p) && t.domains.Keys <= u.domains.Keys
    requires forall n :: n in incoming ==> n in u.domains && Key(n) == n
    ensures var n := p.username; n != "" && TrimSpace(n) == n && !BadName(n) && AllowedIn(p.account.allowed, u.domains.Keys)
  {
    AccountPlanned(t, st, incoming, a, p);
    assert KnownDomains(t, incoming, a.allowed);
    hide KnownDomains, TrimSpace, BadName, ToLower, Key;
    KnownKept(t, incoming, a.allowed, u);
  }

  lemma NodeParts(t: Tables, st: Settings)
    ensures NodeOk(t, st) <==>
              && TablesOk(t) && RowsOk(t.domains, st) && UsersOk(t.users, t.domains.Keys)
              && (forall k :: k in t.recipients ==> NormalForm(k, t.recipients[k]))
  {
    hide TablesOk, DomainOk, NormalForm, TrimSpace, BadName, AllowedKey;
    assert forall u :: u in t.users ==> (UserOk(t, u) <==> u != "" && TrimSpace(u) == u && !BadName(u) && AllowedIn(t.users[u].allowed, t.domains.Keys));
  }

  lemma NamesHeld(t: Tables, ps: seq<Planned>, us: seq<PlannedUser>)
    requires AllPlanned(t, ps) && Holds(t, ps, Imported(t, ps, us))
    ensures forall n :: n in Names(ps) ==> n in Imported(t, ps, us).domains && Key(n) == n
  {
    hide Imported, Key, Kept;
    forall n | n in Names(ps)
      ensures n in Imported(t, ps, us).domains && Key(n) == n
    {
      var p :| p in ps && p.name == n;
      var i :| 0 <= i < |ps| && ps[i] == p;
      assert PlannedFor(t, ps[i]);
    }
  }

  lemma MoreAllowed(m: map<string, User>, a: set<string>, b: set<string>)
    requires UsersOk(m, a) && a <= b
    ensures UsersOk(m, b)
  {
    hide AllowedKey, TrimSpace, BadName;
  }

  lemma ToggledOk(m: map<string, User>, toggles: map<string, bool>, domains: set<string>)
    requires UsersOk(m, domains)
    ensures UsersOk(ToggledAll(m, toggles), domains)
  {
    hide AllowedIn, TrimSpace, BadName;
  }

  lemma ImportedUsers(t: Tables, st: Settings, ps: seq<Planned>, us: seq<PlannedUser>, accounts: seq<Account>)
    requires UsersOk(t.users, t.domains.Keys) && AllPlanned(t, ps) && Holds(t, ps, Imported(t, ps, us))
    requires AccountsMatch(t, st, Names(ps), accounts, us)
    ensures var u := Imported(t, ps, us); UsersOk(u.users, u.domains.Keys)
  {
    NamesHeld(t, ps, us);
    var u := Imported(t, ps, us);
    assert u.users == ToggledAll(WithNew(t.users, us), Toggles(us));
    hide Imported, AllPlanned, AccountIs, UsersOk, ToggledAll, WithNew, Toggles, AllowedIn, TrimSpace, BadName, Key, Names;
    MoreAllowed(t.users, t.domains.Keys, u.domains.Keys);
    forall i | 0 <= i < |us|
      ensures var n := us[i].username; n != "" && TrimSpace(n) == n && !BadName(n) && AllowedIn(us[i].account.allowed, u.domains.Keys)
    {
      NewUserOk(t, st, Names(ps), accounts[i], us[i], u);
    }
    UsersKept(t.users, us, u.domains.Keys);
    ToggledOk(WithNew(t.users, us), Toggles(us), u.domains.Keys);
  }

  lemma ImportedNode(t: Tables, st: Settings, doc: Document, ps: seq<Planned>, us: seq<PlannedUser>)
    requires NodeOk(t, st) && PlainNames(doc.domains) && PlansTo(t, st, doc, ps, us)
    ensures NodeOk(Imported(t, ps, us), st)
  {
    NodeParts(t, st);
    NodeParts(Imported(t, ps, us), st);
    EntriesAre(t, st, doc.domains);
    EntriesPlanned(t, st, doc.domains);
    AccountsAre(t, st, Names(ps), doc.accounts);
    AccountsPlanned(t, st, Names(ps), doc.accounts, us);
    AllMergedOk(t, st, doc.domains);
    assert DistinctNames(ps);
    var u := Imported(t, ps, us);
    assert u.domains == WithUpdated(WithCreated(t.domains, ps), ps) && u.recipients == t.recipients + ListsOf(ps);
    hide NodeOk, TablesOk, RowsOk, UsersOk, NormalForm, AllPlanned, AllUsersPlanned, AccountsMatch, EntriesMatch, PlannedOk, DistinctNames;
    hide PlanEntries, PlanAccounts, Imported, WithCreated, WithUpdated, ListsOf, PlainNames, Names, Holds;
    ImportedHolds(t, ps, us);
    ImportedOk(t, ps, us);
    RowsKept(t.domains, ps, st);
    RowsKept(WithCreated(t.domains, ps), ps, st);
    ListsKept(t, ps, st);
    ImportedUsers(t, st, ps, us, doc.accounts);
  }

  /** An import of normalised names keeps a node in order, whatever the order of its maps. */
  lemma ImportKeepsNode(t: Tables, st: Settings, doc: Document, plan: Plan, lists: seq<string>, toggles: seq<string>)
    requires NodeOk(t, st) && Importable(t, st, doc, plan, lists, toggles)
    ensures NodeOk(ApplyOf(t, plan, lists, toggles).t, st)
  {
    hide NodeOk, PlanOf, PlansTo, ApplyOf, Imported, TablesOk, PlainNames, Lists, Settled, LaterAll;
    var ps, us := ImportOnce(t, st, doc, plan, lists, toggles);
    ImportedNode(t, st, doc, ps, us);
  }
}
