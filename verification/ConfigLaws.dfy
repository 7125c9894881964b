// Importing a document twice: after one import its domains are settled, after two its accounts are too.

module ConfigLaws {
  import opened Options
  import opened Text
  import opened Recipients
  import opened Config
  import opened ConfigApply

  // ----- normalised names -----

  /** No space around the name and no dot at its end. */
  predicate Plain(n: string) {
    Trimmed(n) && (n == "" || n[|n| - 1] != '.')
  }

  ghost predicate PlainNames(es: seq<Entry>) {
    forall i :: 0 <= i < |es| ==> Plain(es[i].name)
  }

  lemma PlainLower(n: string)
    requires Plain(n)
    ensures Plain(ToLower(n)) && TrimSpace(n) == n && TrimDot(n) == n && ToLower(ToLower(n)) == ToLower(n)
  {
    TrimTrimmed(n);
    LowerSpaces(n);
    LowerTwice(n);
    assert n != "" ==> ToLower(n)[|n| - 1] == Lower(n[|n| - 1]);
  }

  lemma PlainKey(n: string)
    requires Plain(n)
    ensures Key(ToLower(n)) == ToLower(n) && ToLower(TrimDot(TrimSpace(n))) == ToLower(n) && ToLower(TrimSpace(n)) == ToLower(n)
  {
    PlainLower(n);
    hide ToLower, TrimSpace, TrimDot, Plain;
    PlainLower(ToLower(n));
  }

  lemma {:induction false} TrimLeftShort(s: string)
    ensures |TrimLeft(s)| <= |s| && (|TrimLeft(s)| == |s| ==> TrimLeft(s) == s)
  {
    if s != "" && IsSpace(s[0]) {
      TrimLeftShort(s[1..]);
    }
  }

  lemma TrimmedShort(s: string)
    ensures |TrimSpace(s)| <= |s|
    ensures |TrimSpace(s)| == |s| ==> TrimSpace(s) == s && Trimmed(s)
  {
    TrimLeftShort(s);
    TrimmedResult(s);
  }

  // ----- one entry -----

  ghost predicate TablesOk(t: Tables) {
    && (forall k :: k in t.domains ==> t.domains[k].name == k)
    && t.recipients.Keys <= t.domains.Keys
    && (forall u :: u in t.users ==> Trimmed(u))
  }

  /** What a plan for a normalised name says about the tables it was made for. */
  ghost predicate PlannedFor(t: Tables, p: Planned) {
    && p.row == p.name == p.domain.name && Key(p.name) == p.name
    && (p.action == Created <==> p.name !in t.domains)
    && (p.action == Unchanged ==> t.domains[p.name] == p.domain && p.recipients.None?)
    && p.action != Skipped
    && (p.recipients.Some? ==> Kept(p.recipients.value) == p.recipients.value)
  }

  lemma NewListKept(t: Tables, e: Entry, existing: Option<Domain>)
    requires NewList(t, e, existing).Good? && NewList(t, e, existing).value.Some?
    ensures var l := NewList(t, e, existing).value.value; Kept(l) == l && Valid(EntryName(e), e.recipients.value) == Some(l)
  {
    hide Kept, NormalForm, EntryName, Valid;
    var l := NewList(t, e, existing).value.value;
    ValidIsNormal(EntryName(e), e.recipients.value);
    NormalIsKept(EntryName(e), l);
  }

  lemma EntryPlanned(t: Tables, st: Settings, e: Entry)
    requires TablesOk(t) && Plain(e.name) && e.name != "" && PlanEntry(t, st, e).Good?
    ensures PlannedFor(t, PlanEntry(t, st, e).value)
    ensures PlanEntry(t, st, e).value.name == ToLower(e.name)
  {
    var p := PlanEntry(t, st, e).value;
    var existing := Find(t, EntryName(e));
    PlainKey(e.name);
    if p.recipients.Some? {
      NewListKept(t, e, existing);
    }
    hide NewList, ToLower, TrimSpace, TrimDot, Plain, Valid, Kept, Trimmed, FieldsOk, Loops, EqualFold;
    assert DomainFrom(e, existing, st).value.name == ToLower(e.name);
    hide DomainFrom;
  }

  /** The same entry against tables that hold what was planned for it. */
  lemma EntrySettled(t: Tables, st: Settings, e: Entry, u: Tables)
    requires TablesOk(t) && Plain(e.name) && e.name != "" && PlanEntry(t, st, e).Good?
    requires var p := PlanEntry(t, st, e).value;
             && p.name in u.domains && u.domains[p.name] == p.domain
             && ListOf(u, p.name) == if p.recipients.Some? then p.recipients.value else ListOf(t, p.name)
    ensures var p := PlanEntry(t, st, e).value;
            PlanEntry(u, st, e) == Good(p.(action := Unchanged, recipients := None))
  {
    var p := PlanEntry(t, st, e).value;
    EntryPlanned(t, st, e);
    PlainKey(e.name);
    MergeTwice(e, Find(t, p.name), st);
    ListSettled(t, e, u, p);
    hide ToLower, TrimSpace, TrimDot, Plain, Valid, Kept, FieldsOk, Loops, Overridden, PlannedFor, NewList;
    assert Find(u, p.name) == Some(p.domain);
    assert SameDomain(p.domain, p.domain);
  }

  lemma MergeTwice(e: Entry, existing: Option<Domain>, st: Settings)
    requires DomainFrom(e, existing, st).Good? && Plain(e.name)
    ensures var d := DomainFrom(e, existing, st).value; DomainFrom(e, Some(d), st) == Good(d)
  {
    PlainKey(e.name);
    PlainLower(e.name);
    hide TrimSpace, TrimDot, Plain, ValidTls, NameOk, ToLower;
    var d := DomainFrom(e, existing, st).value;
    assert Overridden(d, e) == d;
  }

  lemma ListSettled(t: Tables, e: Entry, u: Tables, p: Planned)
    requires TablesOk(t)
    requires p.name == EntryName(e) && Key(p.name) == p.name && p.domain.name == p.name
    requires var existing := Find(t, p.name); NewList(t, e, existing) == Good(p.recipients)
    requires ListOf(u, p.name) == if p.recipients.Some? then p.recipients.value else ListOf(t, p.name)
    ensures NewList(u, e, Some(p.domain)) == Good(None)
  {
    hide Valid, EntryName, Key;
  }

  // ----- the entries of a document -----

  ghost predicate DistinctNames(ps: seq<Planned>) {
    forall i, j :: 0 <= i < j < |ps| ==> ps[i].name != ps[j].name
  }

  ghost predicate AllPlanned(t: Tables, ps: seq<Planned>) {
    forall i :: 0 <= i < |ps| ==> PlannedFor(t, ps[i])
  }

  ghost predicate EntryIs(t: Tables, st: Settings, e: Entry, p: Planned) {
    PlanEntry(t, st, e) == Good(p) && EntryName(e) == p.name != ""
  }

  ghost predicate EntriesMatch(t: Tables, st: Settings, es: seq<Entry>, ps: seq<Planned>) {
    |ps| == |es| && DistinctNames(ps) && forall i :: 0 <= i < |es| ==> EntryIs(t, st, es[i], ps[i])
  }

  lemma MatchSnoc(t: Tables, st: Settings, es: seq<Entry>, ps: seq<Planned>, e: Entry, p: Planned)
    requires EntriesMatch(t, st, es, ps) && EntryIs(t, st, e, p) && p.name !in Names(ps)
    ensures EntriesMatch(t, st, es + [e], ps + [p])
  {
    hide EntryIs;
    assert forall i :: 0 <= i < |ps| ==> ps[i].name in Names(ps);
  }

  /** Entry by entry, the plan is made of what is planned for each, under distinct names. */
  lemma {:induction false} EntriesAre(t: Tables, st: Settings, es: seq<Entry>)
    requires PlanEntries(t, st, es).Good?
    ensures EntriesMatch(t, st, es, PlanEntries(t, st, es).value)
  {
    hide PlanEntry, EntryName;
    if es != [] {
      var init, e := es[..|es| - 1], es[|es| - 1];
      EntriesAre(t, st, init);
      PlanEntryName(t, st, e);
      hide EntriesMatch, Names;
      assert es == init + [e];
      MatchSnoc(t, st, init, PlanEntries(t, st, init).value, e, PlanEntry(t, st, e).value);
    }
  }

  lemma EntriesPlanned(t: Tables, st: Settings, es: seq<Entry>)
    requires TablesOk(t) && PlainNames(es) && PlanEntries(t, st, es).Good?
    ensures AllPlanned(t, PlanEntries(t, st, es).value)
  {
    EntriesAre(t, st, es);
    var ps := PlanEntries(t, st, es).value;
    hide PlanEntry, Plain, PlannedFor, TablesOk;
    forall i | 0 <= i < |ps|
      ensures PlannedFor(t, ps[i])
    {
      assert EntryIs(t, st, es[i], ps[i]);
      NamedEntry(es[i]);
      EntryPlanned(t, st, es[i]);
    }
  }

  lemma NamedEntry(e: Entry)
    ensures EntryName(e) != "" ==> e.name != ""
  {
    assert TrimSpace("") == "";
  }

  /** Tables that hold what was planned for every entry, and nothing lost. */
  ghost predicate Holds(t: Tables, ps: seq<Planned>, u: Tables) {
    && t.domains.Keys <= u.domains.Keys
    && forall i :: 0 <= i < |ps| ==>
         && ps[i].name in u.domains && u.domains[ps[i].name] == ps[i].domain
         && ListOf(u, ps[i].name) == if ps[i].recipients.Some? then ps[i].recipients.value else ListOf(t, ps[i].name)
  }

  function Settled(ps: seq<Planned>): seq<Planned> {
    seq(|ps|, i requires 0 <= i < |ps| => ps[i].(action := Unchanged, recipients := None))
  }

  lemma {:induction false} EntriesFrom(u: Tables, st: Settings, es: seq<Entry>, ps: seq<Planned>)
    requires EntriesMatch(u, st, es, ps)
    ensures PlanEntries(u, st, es) == Good(ps)
  {
    hide PlanEntry, EntryName;
    if es != [] {
      EntriesFrom(u, st, es[..|es| - 1], ps[..|ps| - 1]);
      assert EntryIs(u, st, es[|es| - 1], ps[|ps| - 1]);
      assert ps == ps[..|ps| - 1] + [ps[|ps| - 1]];
    }
  }

  lemma EntriesSettled(t: Tables, st: Settings, es: seq<Entry>, u: Tables)
    requires TablesOk(t) && PlainNames(es) && PlanEntries(t, st, es).Good? && Holds(t, PlanEntries(t, st, es).value, u)
    ensures PlanEntries(u, st, es) == Good(Settled(PlanEntries(t, st, es).value))
  {
    EntriesAre(t, st, es);
    var ps := PlanEntries(t, st, es).value;
    hide PlanEntry, Plain, TablesOk, EntryName, PlanEntries;
    forall i | 0 <= i < |es|
      ensures EntryIs(u, st, es[i], Settled(ps)[i])
    {
      assert EntryIs(t, st, es[i], ps[i]);
      NamedEntry(es[i]);
      EntrySettled(t, st, es[i], u);
    }
    EntriesFrom(u, st, es, Settled(ps));
  }

  // ----- the first two loops: domains -----

  function WithCreated(m: map<string, Domain>, ps: seq<Planned>): map<string, Domain> {
    if ps == [] then m
    else
      var p := ps[|ps| - 1];
      var before := WithCreated(m, ps[..|ps| - 1]);
      if p.action == Created then before[p.name := p.domain] else before
  }

  function WithUpdated(m: map<string, Domain>, ps: seq<Planned>): map<string, Domain> {
    if ps == [] then m
    else
      var p := ps[|ps| - 1];
      var before := WithUpdated(m, ps[..|ps| - 1]);
      if p.action == Updated then before[p.name := p.domain] else before
  }

  lemma {:induction false} CreatedKeys(m: map<string, Domain>, ps: seq<Planned>)
    ensures forall k :: k in WithCreated(m, ps) <==> k in m || exists i :: 0 <= i < |ps| && ps[i].name == k && ps[i].action == Created
  {
    if ps != [] {
      CreatedKeys(m, ps[..|ps| - 1]);
    }
  }

  lemma {:induction false} CreatedAt(m: map<string, Domain>, ps: seq<Planned>, i: nat)
    requires i < |ps| && DistinctNames(ps)
    ensures ps[i].action == Created ==> ps[i].name in WithCreated(m, ps) && WithCreated(m, ps)[ps[i].name] == ps[i].domain
    ensures ps[i].action != Created && ps[i].name in m ==>
              ps[i].name in WithCreated(m, ps) && WithCreated(m, ps)[ps[i].name] == m[ps[i].name]
    decreases |ps|
  {
    if i < |ps| - 1 {
      CreatedAt(m, ps[..|ps| - 1], i);
    } else {
      CreatedElse(m, ps[..|ps| - 1], ps[i].name);
    }
  }

  lemma {:induction false} CreatedElse(m: map<string, Domain>, ps: seq<Planned>, k: string)
    requires forall i :: 0 <= i < |ps| ==> ps[i].name != k
    ensures (k in WithCreated(m, ps) <==> k in m) && (k in m ==> WithCreated(m, ps)[k] == m[k])
  {
    if ps != [] {
      CreatedElse(m, ps[..|ps| - 1], k);
    }
  }

  lemma {:induction false} UpdatedAt(m: map<string, Domain>, ps: seq<Planned>, i: nat)
    requires i < |ps| && DistinctNames(ps) && ps[i].name in m
    ensures ps[i].name in WithUpdated(m, ps)
    ensures WithUpdated(m, ps)[ps[i].name] == if ps[i].action == Updated then ps[i].domain else m[ps[i].name]
    decreases |ps|
  {
    if i < |ps| - 1 {
      UpdatedAt(m, ps[..|ps| - 1], i);
    } else {
      UpdatedElse(m, ps[..|ps| - 1], ps[i].name);
    }
  }

  lemma {:induction false} UpdatedElse(m: map<string, Domain>, ps: seq<Planned>, k: string)
    requires forall i :: 0 <= i < |ps| ==> ps[i].name != k
    ensures (k in WithUpdated(m, ps) <==> k in m) && (k in m ==> WithUpdated(m, ps)[k] == m[k])
  {
    if ps != [] {
      UpdatedElse(m, ps[..|ps| - 1], k);
    }
  }

  lemma {:induction false} UpdatedKeys(m: map<string, Domain>, ps: seq<Planned>)
    ensures m.Keys <= WithUpdated(m, ps).Keys
  {
    if ps != [] {
      UpdatedKeys(m, ps[..|ps| - 1]);
    }
  }

  lemma {:induction false} CreateLoop(t: Tables, ps: seq<Planned>)
    requires AllPlanned(t, ps) && DistinctNames(ps)
    ensures CreateAll(Applied(t, true), AddDomains(NOTHING, ps).createDomains) ==
            Applied(t.(domains := WithCreated(t.domains, ps)), true)
  {
    hide Key, Kept;
    if ps != [] {
      var init, p := ps[..|ps| - 1], ps[|ps| - 1];
      CreateLoop(t, init);
      CreatedKeys(t.domains, init);
      assert PlannedFor(t, p);
      var ds := AddDomains(NOTHING, init).createDomains;
      if p.action == Created {
        assert AddDomains(NOTHING, ps).createDomains == ds + [p.domain];
        assert (ds + [p.domain])[..|ds|] == ds;
      }
    }
  }

  lemma {:induction false} UpdateLoop(t: Tables, a: Tables, ps: seq<Planned>)
    requires AllPlanned(t, ps) && t.domains.Keys <= a.domains.Keys
    ensures UpdateAll(Applied(a, true), AddDomains(NOTHING, ps).updateDomains) ==
            Applied(a.(domains := WithUpdated(a.domains, ps)), true)
  {
    hide Key, Kept;
    if ps != [] {
      var init, p := ps[..|ps| - 1], ps[|ps| - 1];
      UpdateLoop(t, a, init);
      UpdatedKeys(a.domains, init);
      assert PlannedFor(t, p);
      var ds := AddDomains(NOTHING, init).updateDomains;
      if p.action == Updated {
        assert AddDomains(NOTHING, ps).updateDomains == ds + [(p.row, p.domain)];
        assert (ds + [(p.row, p.domain)])[..|ds|] == ds;
      }
    }
  }

  // ----- the third loop: lists of recipients -----

  function ListsOf(ps: seq<Planned>): map<string, seq<string>> {
    AddDomains(NOTHING, ps).setRecipients
  }

  lemma {:induction false} ListsAt(ps: seq<Planned>, k: string)
    requires DistinctNames(ps)
    ensures k in ListsOf(ps) <==> exists i :: 0 <= i < |ps| && ps[i].name == k && ps[i].recipients.Some?
    ensures forall i :: 0 <= i < |ps| && ps[i].name == k && ps[i].recipients.Some? ==> k in ListsOf(ps) && ListsOf(ps)[k] == ps[i].recipients.value
  {
    if ps != [] {
      ListsAt(ps[..|ps| - 1], k);
    }
  }

  /** Lists that can be stored as they are, each under its own name. */
  ghost predicate Storable(a: Tables, lists: map<string, seq<string>>) {
    forall k :: k in lists ==> Key(k) == k && k in a.domains && a.domains[k].name == k && Kept(lists[k]) == lists[k]
  }

  function Restricted(lists: map<string, seq<string>>, order: seq<string>): map<string, seq<string>>
    requires forall i :: 0 <= i < |order| ==> order[i] in lists
  {
    map k | k in order :: lists[k]
  }

  lemma SetOne(a: Tables, b: Tables, lists: map<string, seq<string>>, name: string)
    requires Storable(a, lists) && name in lists && b.domains == a.domains
    ensures SetList(Applied(b, true), name, lists[name]) == Applied(b.(recipients := b.recipients[name := lists[name]]), true)
  {
    hide Key, Kept;
  }

  lemma RestrictedSnoc(m: map<string, seq<string>>, lists: map<string, seq<string>>, init: seq<string>, name: string)
    requires name in lists && forall i :: 0 <= i < |init| ==> init[i] in lists
    ensures (m + Restricted(lists, init))[name := lists[name]] == m + Restricted(lists, init + [name])
  {
  }

  lemma SetStep(x: Applied, lists: map<string, seq<string>>, init: seq<string>, name: string)
    requires name in lists && forall i :: 0 <= i < |init| ==> init[i] in lists
    ensures SetAll(x, lists, init + [name]) == SetList(SetAll(x, lists, init), name, lists[name])
  {
    hide SetList;
    assert (init + [name])[..|init|] == init;
  }

  ghost predicate Stores(a: Tables, lists: map<string, seq<string>>, order: seq<string>)
    requires forall i :: 0 <= i < |order| ==> order[i] in lists
  {
    SetAll(Applied(a, true), lists, order) == Applied(a.(recipients := a.recipients + Restricted(lists, order)), true)
  }

  lemma StoresSnoc(a: Tables, lists: map<string, seq<string>>, init: seq<string>, name: string)
    requires Storable(a, lists) && name in lists && (forall i :: 0 <= i < |init| ==> init[i] in lists) && Stores(a, lists, init)
    ensures Stores(a, lists, init + [name])
  {
    hide Restricted, Storable, SetList, SetAll;
    var m := a.recipients + Restricted(lists, init);
    SetStep(Applied(a, true), lists, init, name);
    SetOne(a, a.(recipients := m), lists, name);
    RestrictedSnoc(a.recipients, lists, init, name);
  }

  lemma StoresLast(a: Tables, lists: map<string, seq<string>>, order: seq<string>)
    requires Storable(a, lists) && order != [] && (forall i :: 0 <= i < |order| ==> order[i] in lists)
    requires Stores(a, lists, order[..|order| - 1])
    ensures Stores(a, lists, order)
  {
    hide Stores, Storable;
    var init, name := order[..|order| - 1], order[|order| - 1];
    StoresSnoc(a, lists, init, name);
    assert order == init + [name];
  }

  lemma StoresNone(a: Tables, lists: map<string, seq<string>>, order: seq<string>)
    requires order == []
    ensures Stores(a, lists, order)
  {
    hide Key, Kept, SetList;
    assert a.recipients + Restricted(lists, order) == a.recipients;
  }

  /** Whatever the order in which the lists are stored, each one stands where it belongs. */
  lemma {:induction false} SetLoop(a: Tables, lists: map<string, seq<string>>, order: seq<string>)
    requires Storable(a, lists) && forall i :: 0 <= i < |order| ==> order[i] in lists
    ensures Stores(a, lists, order)
  {
    hide Stores, Storable, Key, Kept;
    if order == [] {
      StoresNone(a, lists, order);
    } else {
      SetLoop(a, lists, order[..|order| - 1]);
      StoresLast(a, lists, order);
    }
  }

  lemma AllLists(lists: map<string, seq<string>>, order: seq<string>)
    requires Lists(order, lists)
    ensures Restricted(lists, order) == lists
  {
  }

  // ----- the last two loops: accounts -----

  function NewAccounts(us: seq<PlannedUser>): seq<Account> {
    if us == [] then []
    else NewAccounts(us[..|us| - 1]) + (if us[|us| - 1].action == Created then [us[|us| - 1].account] else [])
  }

  function Toggles(us: seq<PlannedUser>): map<string, bool> {
    if us == [] then map[]
    else
      var u := us[|us| - 1];
      var before := Toggles(us[..|us| - 1]);
      if u.action == Updated then before[u.username := u.account.enabled == Some(true)] else before
  }

  /** The parts of a plan, by the entries and the accounts it was made from. */
  lemma PlanParts(ps: seq<Planned>, us: seq<PlannedUser>)
    ensures var plan := AddUsers(AddDomains(NOTHING, ps), us);
            && plan.createDomains == AddDomains(NOTHING, ps).createDomains
            && plan.updateDomains == AddDomains(NOTHING, ps).updateDomains
            && plan.setRecipients == ListsOf(ps)
            && plan.createUsers == NewAccounts(us) && plan.enableUsers == Toggles(us)
            && |plan.domains| == |ps| && |plan.users| == |us|
            && (forall i :: 0 <= i < |ps| ==> plan.domains[i] == Changed(ps[i].name, ps[i].action))
            && (forall i :: 0 <= i < |us| ==> plan.users[i] == Changed(us[i].username, us[i].action))
  {
    DomainParts(ps);
    UserParts(AddDomains(NOTHING, ps), us);
  }

  lemma {:induction false} DomainParts(ps: seq<Planned>)
    ensures var plan := AddDomains(NOTHING, ps);
            && plan.createUsers == [] && plan.enableUsers == map[] && plan.users == [] && |plan.domains| == |ps|
            && forall i :: 0 <= i < |ps| ==> plan.domains[i] == Changed(ps[i].name, ps[i].action)
  {
    if ps != [] {
      DomainParts(ps[..|ps| - 1]);
    }
  }

  lemma {:induction false} UserParts(start: Plan, us: seq<PlannedUser>)
    requires start.createUsers == [] && start.enableUsers == map[] && start.users == []
    ensures var plan := AddUsers(start, us);
            && plan == start.(users := plan.users, createUsers := NewAccounts(us), enableUsers := Toggles(us))
            && |plan.users| == |us|
            && forall i :: 0 <= i < |us| ==> plan.users[i] == Changed(us[i].username, us[i].action)
  {
    if us != [] {
      UserParts(start, us[..|us| - 1]);
    }
  }

  ghost predicate AccountIs(t: Tables, st: Settings, incoming: set<string>, a: Account, u: PlannedUser) {
    PlanAccount(t, st, incoming, a) == Good(u) && u.username == TrimSpace(a.username) != "" && !BadName(u.username)
  }

  ghost predicate DistinctUsers(us: seq<PlannedUser>) {
    forall i, j :: 0 <= i < j < |us| ==> us[i].username != us[j].username
  }

  ghost predicate AccountsMatch(t: Tables, st: Settings, incoming: set<string>, accounts: seq<Account>, us: seq<PlannedUser>) {
    |us| == |accounts| && DistinctUsers(us) && forall i :: 0 <= i < |us| ==> AccountIs(t, st, incoming, accounts[i], us[i])
  }

  lemma UsersSnoc(t: Tables, st: Settings, incoming: set<string>, accounts: seq<Account>, us: seq<PlannedUser>, a: Account, u: PlannedUser)
    requires AccountsMatch(t, st, incoming, accounts, us) && AccountIs(t, st, incoming, a, u) && u.username !in UserNames(us)
    ensures AccountsMatch(t, st, incoming, accounts + [a], us + [u])
  {
    hide AccountIs;
    assert forall i :: 0 <= i < |us| ==> us[i].username in UserNames(us);
  }

  lemma AccountStep(t: Tables, st: Settings, incoming: set<string>, accounts: seq<Account>)
    requires accounts != [] && PlanAccounts(t, st, incoming, accounts).Good?
    ensures var init, a := accounts[..|accounts| - 1], accounts[|accounts| - 1];
            && PlanAccounts(t, st, incoming, init).Good? && PlanAccount(t, st, incoming, a).Good?
            && var us, u := PlanAccounts(t, st, incoming, init).value, PlanAccount(t, st, incoming, a).value;
            && PlanAccounts(t, st, incoming, accounts) == Good(us + [u])
            && AccountIs(t, st, incoming, a, u) && u.username !in UserNames(us)
  {
    PlanAccountName(t, st, incoming, accounts[|accounts| - 1]);
    hide PlanAccount, TrimSpace, BadName, UserNames;
  }

  lemma {:induction false} AccountsAre(t: Tables, st: Settings, incoming: set<string>, accounts: seq<Account>)
    requires PlanAccounts(t, st, incoming, accounts).Good?
    ensures AccountsMatch(t, st, incoming, accounts, PlanAccounts(t, st, incoming, accounts).value)
  {
    if accounts == [] {
      hide PlanAccount, TrimSpace, BadName;
    } else {
      hide AccountsMatch, UserNames, AccountIs, PlanAccount, PlanAccounts;
      var init, a := accounts[..|accounts| - 1], accounts[|accounts| - 1];
      AccountStep(t, st, incoming, accounts);
      AccountsAre(t, st, incoming, init);
      assert accounts == init + [a];
      UsersSnoc(t, st, incoming, init, PlanAccounts(t, st, incoming, init).value, a, PlanAccount(t, st, incoming, a).value);
    }
  }

  lemma {:induction false} AccountsFrom(t: Tables, st: Settings, incoming: set<string>, accounts: seq<Account>, us: seq<PlannedUser>)
    requires AccountsMatch(t, st, incoming, accounts, us)
    ensures PlanAccounts(t, st, incoming, accounts) == Good(us)
  {
    hide PlanAccount, TrimSpace, BadName;
    if us != [] {
      AccountsFrom(t, st, incoming, accounts[..|us| - 1], us[..|us| - 1]);
      assert AccountIs(t, st, incoming, accounts[|us| - 1], us[|us| - 1]);
      assert us == us[..|us| - 1] + [us[|us| - 1]];
    }
  }

  /** What a plan for an account says about the tables it was made for. */
  ghost predicate UserPlanned(t: Tables, u: PlannedUser) {
    && u.username == TrimSpace(u.account.username) && TrimSpace(u.username) == u.username
    && (u.action == Created || u.action == Skipped <==> u.username !in t.users)
    && (u.action == Updated ==> u.account.enabled == Some(!t.users[u.username].enabled))
    && (u.action == Unchanged ==> u.account.enabled.None? || u.account.enabled == Some(t.users[u.username].enabled))
    && (u.action == Skipped <==> u.username !in t.users && u.account.password == "")
  }

  lemma AccountPlanned(t: Tables, st: Settings, incoming: set<string>, a: Account, u: PlannedUser)
    requires AccountIs(t, st, incoming, a, u)
    ensures UserPlanned(t, u) && u.account == a
  {
    TrimmedResult(a.username);
    hide TrimSpace, Trimmed, BadName, KnownDomains;
    TrimTrimmed(u.username);
  }

  ghost predicate AllUsersPlanned(t: Tables, us: seq<PlannedUser>) {
    forall i :: 0 <= i < |us| ==> UserPlanned(t, us[i])
  }

  lemma AccountsPlanned(t: Tables, st: Settings, incoming: set<string>, accounts: seq<Account>, us: seq<PlannedUser>)
    requires AccountsMatch(t, st, incoming, accounts, us)
    ensures AllUsersPlanned(t, us)
  {
    hide UserPlanned, AccountIs;
    forall i | 0 <= i < |us|
      ensures UserPlanned(t, us[i])
    {
      AccountPlanned(t, st, incoming, accounts[i], us[i]);
    }
  }

  function WithNew(m: map<string, User>, us: seq<PlannedUser>): map<string, User> {
    if us == [] then m
    else
      var u := us[|us| - 1];
      var before := WithNew(m, us[..|us| - 1]);
      if u.action == Created then before[u.username := User(u.account.allowed, true)] else before
  }

  lemma {:induction false} NewElse(m: map<string, User>, us: seq<PlannedUser>, k: string)
    requires forall i :: 0 <= i < |us| && us[i].action == Created ==> us[i].username != k
    ensures (k in WithNew(m, us) <==> k in m) && (k in m ==> WithNew(m, us)[k] == m[k])
  {
    if us != [] {
      NewElse(m, us[..|us| - 1], k);
    }
  }

  lemma {:induction false} NewAt(m: map<string, User>, us: seq<PlannedUser>, i: nat)
    requires i < |us| && DistinctUsers(us)
    ensures var k := us[i].username;
            if us[i].action == Created then k in WithNew(m, us) && WithNew(m, us)[k] == User(us[i].account.allowed, true)
            else (k in WithNew(m, us) <==> k in m) && (k in m ==> WithNew(m, us)[k] == m[k])
    decreases |us|
  {
    if i < |us| - 1 {
      NewAt(m, us[..|us| - 1], i);
    } else {
      NewElse(m, us[..|us| - 1], us[i].username);
    }
  }

  lemma {:induction false} NewLoop(t: Tables, a: Tables, us: seq<PlannedUser>)
    requires AllUsersPlanned(t, us) && DistinctUsers(us) && a.users == t.users
    ensures CreateUsers(Applied(a, true), NewAccounts(us)) == Applied(a.(users := WithNew(a.users, us)), true)
  {
    hide TrimSpace;
    if us != [] {
      var init, u := us[..|us| - 1], us[|us| - 1];
      NewLoop(t, a, init);
      NewElse(a.users, init, u.username);
      assert UserPlanned(t, u);
      var before := NewAccounts(init);
      if u.action == Created {
        assert NewAccounts(us) == before + [u.account];
        assert (before + [u.account])[..|before|] == before;
      } else {
        assert NewAccounts(us) == before;
      }
    }
  }

  function Toggled(m: map<string, User>, toggles: map<string, bool>, order: seq<string>): map<string, User>
    requires forall i :: 0 <= i < |order| ==> order[i] in toggles
  {
    map k | k in m :: if k in order then m[k].(enabled := toggles[k]) else m[k]
  }

  ghost predicate Switchable(a: Tables, toggles: map<string, bool>) {
    forall k :: k in toggles ==> TrimSpace(k) == k && k in a.users
  }

  lemma ToggledSnoc(m: map<string, User>, toggles: map<string, bool>, init: seq<string>, name: string)
    requires name in toggles && name in m && name !in init && forall i :: 0 <= i < |init| ==> init[i] in toggles
    ensures var before := Toggled(m, toggles, init);
            name in before && before[name := before[name].(enabled := toggles[name])] == Toggled(m, toggles, init + [name])
  {
  }

  /** Whatever the order in which the switches are set, each account ends as its own switch says. */
  lemma {:induction false} EnableLoop(a: Tables, toggles: map<string, bool>, order: seq<string>)
    requires Switchable(a, toggles) && (forall i :: 0 <= i < |order| ==> order[i] in toggles)
    requires forall i, j :: 0 <= i < j < |order| ==> order[i] != order[j]
    ensures EnableAll(Applied(a, true), toggles, order) == Applied(a.(users := Toggled(a.users, toggles, order)), true)
  {
    if order == [] {
      assert Toggled(a.users, toggles, order) == a.users;
    } else {
      var init, name := order[..|order| - 1], order[|order| - 1];
      EnableLoop(a, toggles, init);
      assert order == init + [name];
      ToggledSnoc(a.users, toggles, init, name);
      assert TrimSpace(name) == name;
      hide Toggled, TrimSpace, Switchable;
    }
  }

  lemma {:induction false} TogglesAt(us: seq<PlannedUser>, k: string)
    requires DistinctUsers(us)
    ensures k in Toggles(us) <==> exists i :: 0 <= i < |us| && us[i].username == k && us[i].action == Updated
    ensures forall i :: 0 <= i < |us| && us[i].username == k && us[i].action == Updated ==>
              k in Toggles(us) && Toggles(us)[k] == (us[i].account.enabled == Some(true))
  {
    if us != [] {
      TogglesAt(us[..|us| - 1], k);
    }
  }

  // ----- the whole import -----

  /** The tables after an import, whatever the order of the maps. */
  function Imported(t: Tables, ps: seq<Planned>, us: seq<PlannedUser>): Tables {
    Tables(WithUpdated(WithCreated(t.domains, ps), ps), t.recipients + ListsOf(ps),
           ToggledAll(WithNew(t.users, us), Toggles(us)))
  }

  function ToggledAll(m: map<string, User>, toggles: map<string, bool>): map<string, User> {
    map k | k in m :: if k in toggles then m[k].(enabled := toggles[k]) else m[k]
  }

  lemma AllToggles(m: map<string, User>, toggles: map<string, bool>, order: seq<string>)
    requires Lists(order, toggles)
    ensures Toggled(m, toggles, order) == ToggledAll(m, toggles)
  {
  }

  lemma ListsStorable(t: Tables, ps: seq<Planned>, a: Tables)
    requires AllPlanned(t, ps) && DistinctNames(ps)
    requires forall i :: 0 <= i < |ps| ==> ps[i].name in a.domains && a.domains[ps[i].name].name == ps[i].name
    ensures Storable(a, ListsOf(ps))
  {
    hide Key, Kept, ListsOf;
    forall k | k in ListsOf(ps)
      ensures Key(k) == k && k in a.domains && a.domains[k].name == k && Kept(ListsOf(ps)[k]) == ListsOf(ps)[k]
    {
      ListsAt(ps, k);
      var i :| 0 <= i < |ps| && ps[i].name == k && ps[i].recipients.Some?;
      assert PlannedFor(t, ps[i]);
    }
  }

  /** After the first two loops every planned name holds its merged fields. */
  lemma DomainsAt(t: Tables, ps: seq<Planned>, i: nat)
    requires AllPlanned(t, ps) && DistinctNames(ps) && i < |ps|
    ensures var m := WithUpdated(WithCreated(t.domains, ps), ps);
            ps[i].name in m && m[ps[i].name] == ps[i].domain && ps[i].domain.name == ps[i].name
  {
    assert PlannedFor(t, ps[i]);
    hide Key, Kept;
    CreatedAt(t.domains, ps, i);
    UpdatedAt(WithCreated(t.domains, ps), ps, i);
  }

  lemma SwitchesHeld(t: Tables, us: seq<PlannedUser>, a: Tables)
    requires AllUsersPlanned(t, us) && DistinctUsers(us) && a.users == WithNew(t.users, us)
    ensures Switchable(a, Toggles(us))
  {
    hide TrimSpace, Toggles, WithNew;
    forall k | k in Toggles(us)
      ensures TrimSpace(k) == k && k in a.users
    {
      TogglesAt(us, k);
      var i :| 0 <= i < |us| && us[i].username == k && us[i].action == Updated;
      assert UserPlanned(t, us[i]);
      NewAt(t.users, us, i);
    }
  }

  /** Carrying out the plan succeeds, and the order in which the maps are walked does not matter. */
  lemma ApplySucceeds(t: Tables, ps: seq<Planned>, us: seq<PlannedUser>, lists: seq<string>, toggles: seq<string>)
    requires AllPlanned(t, ps) && DistinctNames(ps) && AllUsersPlanned(t, us) && DistinctUsers(us)
    requires Lists(lists, ListsOf(ps)) && Lists(toggles, Toggles(us))
    ensures var plan := AddUsers(AddDomains(NOTHING, ps), us);
            && plan.setRecipients == ListsOf(ps) && plan.enableUsers == Toggles(us)
            && ApplyOf(t, plan, lists, toggles) == Applied(Imported(t, ps, us), true)
  {
    PlanParts(ps, us);
    CreateLoop(t, ps);
    CreatedElseKeys(t.domains, ps);
    var a := t.(domains := WithCreated(t.domains, ps));
    UpdateLoop(t, a, ps);
    var b := a.(domains := WithUpdated(a.domains, ps));
    forall i | 0 <= i < |ps|
      ensures ps[i].name in b.domains && b.domains[ps[i].name].name == ps[i].name
    {
      DomainsAt(t, ps, i);
    }
    ListsStorable(t, ps, b);
    SetLoop(b, ListsOf(ps), lists);
    AllLists(ListsOf(ps), lists);
    var c := b.(recipients := b.recipients + ListsOf(ps));
    NewLoop(t, c, us);
    var d := c.(users := WithNew(c.users, us));
    SwitchesHeld(t, us, d);
    EnableLoop(d, Toggles(us), toggles);
    AllToggles(d.users, Toggles(us), toggles);
    hide AddDomains, AddUsers, ListsOf, Toggles, NewAccounts, WithCreated, WithUpdated, WithNew, ToggledAll, AllPlanned, AllUsersPlanned,
      CreateAll, UpdateAll, SetAll, CreateUsers, EnableAll, Lists, Storable, Switchable, DistinctNames, DistinctUsers;
  }

  lemma {:induction false} CreatedElseKeys(m: map<string, Domain>, ps: seq<Planned>)
    ensures m.Keys <= WithCreated(m, ps).Keys
  {
    CreatedKeys(m, ps);
  }

  lemma ImportedHolds(t: Tables, ps: seq<Planned>, us: seq<PlannedUser>)
    requires AllPlanned(t, ps) && DistinctNames(ps)
    ensures Holds(t, ps, Imported(t, ps, us))
  {
    CreatedElseKeys(t.domains, ps);
    UpdatedKeys(WithCreated(t.domains, ps), ps);
    hide ToggledAll, WithNew, WithCreated, WithUpdated, ListsOf, AllPlanned;
    var u := Imported(t, ps, us);
    forall i | 0 <= i < |ps|
      ensures ps[i].name in u.domains && u.domains[ps[i].name] == ps[i].domain
      ensures ListOf(u, ps[i].name) == if ps[i].recipients.Some? then ps[i].recipients.value else ListOf(t, ps[i].name)
    {
      DomainsAt(t, ps, i);
      ListsAt(ps, ps[i].name);
    }
  }

  ghost predicate NamedRows(m: map<string, Domain>) {
    forall k :: k in m ==> m[k].name == k
  }

  lemma {:induction false} CreatedNamed(t: Tables, m: map<string, Domain>, ps: seq<Planned>)
    requires NamedRows(m) && AllPlanned(t, ps)
    ensures NamedRows(WithCreated(m, ps)) && NamedRows(WithUpdated(m, ps))
  {
    hide Key, Kept;
    if ps != [] {
      assert PlannedFor(t, ps[|ps| - 1]);
      CreatedNamed(t, m, ps[..|ps| - 1]);
    }
  }

  lemma {:induction false} NewTrimmed(t: Tables, m: map<string, User>, us: seq<PlannedUser>)
    requires (forall u :: u in m ==> Trimmed(u)) && AllUsersPlanned(t, us)
    ensures forall u :: u in WithNew(m, us) ==> Trimmed(u)
  {
    if us != [] {
      NewTrimmed(t, m, us[..|us| - 1]);
      assert UserPlanned(t, us[|us| - 1]);
      TrimmedResult(us[|us| - 1].account.username);
      hide TrimSpace, Trimmed;
    }
  }

  lemma ImportedOk(t: Tables, ps: seq<Planned>, us: seq<PlannedUser>)
    requires TablesOk(t) && AllPlanned(t, ps) && DistinctNames(ps) && AllUsersPlanned(t, us)
    ensures TablesOk(Imported(t, ps, us))
  {
    CreatedNamed(t, t.domains, ps);
    CreatedNamed(t, WithCreated(t.domains, ps), ps);
    NewTrimmed(t, t.users, us);
    ImportedHolds(t, ps, us);
    hide WithCreated, WithUpdated, WithNew, ListsOf, AllPlanned, AllUsersPlanned, Trimmed;
    var u := Imported(t, ps, us);
    forall k | k in u.recipients
      ensures k in u.domains
    {
      if k !in t.recipients {
        ListsAt(ps, k);
      }
    }
  }

  // ----- the accounts, planned again -----

  function Later(u: PlannedUser): PlannedUser {
    match u.action
    case Created => u.(action := if u.account.enabled == Some(false) then Updated else Unchanged)
    case Updated => u.(action := Unchanged)
    case _ => u
  }

  function LaterAll(us: seq<PlannedUser>): seq<PlannedUser> {
    seq(|us|, i requires 0 <= i < |us| => Later(us[i]))
  }

  /** The tables hold what was planned for this account. */
  ghost predicate UserHolds(t: Tables, p: PlannedUser, u: Tables) {
    match p.action
    case Created => p.username in u.users && u.users[p.username].enabled
    case Updated => p.username in u.users && Some(u.users[p.username].enabled) == p.account.enabled
    case Unchanged => p.username in t.users && p.username in u.users && u.users[p.username] == t.users[p.username]
    case Skipped => p.username !in u.users
  }

  lemma UsersHeld(t: Tables, ps: seq<Planned>, us: seq<PlannedUser>, i: nat)
    requires AllUsersPlanned(t, us) && DistinctUsers(us) && i < |us|
    ensures UserHolds(t, us[i], Imported(t, ps, us))
  {
    assert UserPlanned(t, us[i]);
    NewAt(t.users, us, i);
    TogglesAt(us, us[i].username);
    hide WithNew, Toggles, WithCreated, WithUpdated, ListsOf, AllUsersPlanned, TrimSpace;
  }

  lemma KnownLater(t: Tables, u: Tables, incoming: set<string>, allowed: seq<string>)
    requires t.domains.Keys <= u.domains.Keys && KnownDomains(t, incoming, allowed)
    ensures KnownDomains(u, incoming, allowed)
  {
    hide Key, ToLower, TrimSpace;
  }

  lemma AccountLater(t: Tables, st: Settings, incoming: set<string>, a: Account, p: PlannedUser, u: Tables)
    requires AccountIs(t, st, incoming, a, p) && t.domains.Keys <= u.domains.Keys && UserHolds(t, p, u)
    ensures AccountIs(u, st, incoming, a, Later(p))
  {
    AccountPlanned(t, st, incoming, a, p);
    assert KnownDomains(t, incoming, a.allowed);
    KnownLater(t, u, incoming, a.allowed);
    hide KnownDomains, TrimSpace, BadName;
  }

  lemma AccountsLater(t: Tables, st: Settings, ps: seq<Planned>, us: seq<PlannedUser>, incoming: set<string>, accounts: seq<Account>)
    requires AccountsMatch(t, st, incoming, accounts, us) && t.domains.Keys <= Imported(t, ps, us).domains.Keys
    ensures PlanAccounts(Imported(t, ps, us), st, incoming, accounts) == Good(LaterAll(us))
  {
    AccountsPlanned(t, st, incoming, accounts, us);
    var u := Imported(t, ps, us);
    hide AccountIs, UserHolds, Imported, AllUsersPlanned;
    forall i | 0 <= i < |us|
      ensures AccountIs(u, st, incoming, accounts[i], LaterAll(us)[i])
    {
      UsersHeld(t, ps, us, i);
      AccountLater(t, st, incoming, accounts[i], us[i], u);
    }
    AccountsFrom(u, st, incoming, accounts, LaterAll(us));
  }

  // ----- the laws -----

  /** A document whose plan is good, with its parts. */
  ghost predicate PlansTo(t: Tables, st: Settings, doc: Document, ps: seq<Planned>, us: seq<PlannedUser>) {
    && (doc.version == 0 || doc.version == 1)
    && PlanEntries(t, st, doc.domains) == Good(ps) && PlanAccounts(t, st, Names(ps), doc.accounts) == Good(us)
  }

  lemma PlanIs(t: Tables, st: Settings, doc: Document)
    requires PlanOf(t, st, doc).Good?
    ensures exists ps, us :: PlansTo(t, st, doc, ps, us) && PlanOf(t, st, doc) == Good(AddUsers(AddDomains(NOTHING, ps), us))
  {
    hide PlanEntries, PlanAccounts, AddUsers, AddDomains, Names;
    var ps := PlanEntries(t, st, doc.domains).value;
    assert PlansTo(t, st, doc, ps, PlanAccounts(t, st, Names(ps), doc.accounts).value);
  }

  lemma SettledNames(ps: seq<Planned>)
    ensures Names(Settled(ps)) == Names(ps)
  {
    var qs := Settled(ps);
    forall n
      ensures n in Names(qs) <==> n in Names(ps)
    {
      if p :| p in ps && p.name == n {
        var i :| 0 <= i < |ps| && ps[i] == p;
        assert qs[i] in qs && qs[i].name == n;
      }
      if q :| q in qs && q.name == n {
        var i :| 0 <= i < |qs| && qs[i] == q;
        assert ps[i] in ps && ps[i].name == n;
      }
    }
  }

  /** One import: it succeeds in any order of the maps, keeps every domain, and planned again the document has no domain
      left to create or change. */
  lemma OneImport(t: Tables, st: Settings, doc: Document, ps: seq<Planned>, us: seq<PlannedUser>, lists: seq<string>, toggles: seq<string>)
    requires TablesOk(t) && PlainNames(doc.domains) && PlansTo(t, st, doc, ps, us)
    requires Lists(lists, ListsOf(ps)) && Lists(toggles, Toggles(us))
    ensures var plan, u := AddUsers(AddDomains(NOTHING, ps), us), Imported(t, ps, us);
            && plan.setRecipients == ListsOf(ps) && plan.enableUsers == Toggles(us)
            && ApplyOf(t, plan, lists, toggles) == Applied(u, true)
            && TablesOk(u) && t.domains.Keys <= u.domains.Keys
            && PlansTo(u, st, doc, Settled(ps), LaterAll(us))
  {
    EntriesAre(t, st, doc.domains);
    EntriesPlanned(t, st, doc.domains);
    AccountsAre(t, st, Names(ps), doc.accounts);
    AccountsPlanned(t, st, Names(ps), doc.accounts, us);
    assert DistinctNames(ps) && DistinctUsers(us);
    hide AllPlanned, AllUsersPlanned, PlanEntries, PlanAccounts, EntriesMatch, TablesOk, PlainNames, AddUsers, AddDomains, ListsOf, Toggles, Lists, ApplyOf, Names, Settled, LaterAll, Imported;
    ApplySucceeds(t, ps, us, lists, toggles);
    ImportedHolds(t, ps, us);
    ImportedOk(t, ps, us);
    EntriesSettled(t, st, doc.domains, Imported(t, ps, us));
    AccountsLater(t, st, ps, us, Names(ps), doc.accounts);
    SettledNames(ps);
  }

  /** Nothing left to do for any domain. */
  ghost predicate DomainsSettled(plan: Plan) {
    && plan.createDomains == [] && plan.updateDomains == [] && plan.setRecipients == map[]
    && forall i :: 0 <= i < |plan.domains| ==> plan.domains[i].action == Unchanged
  }

  /** Nothing left to do at all; an account without a password that does not exist is skipped for ever. */
  ghost predicate AllSettled(plan: Plan) {
    && DomainsSettled(plan) && plan.createUsers == [] && plan.enableUsers == map[]
    && forall i :: 0 <= i < |plan.users| ==> plan.users[i].action == Unchanged || plan.users[i].action == Skipped
  }

  lemma {:induction false} SettledPlan(ps: seq<Planned>)
    requires forall i :: 0 <= i < |ps| ==> ps[i].action == Unchanged && ps[i].recipients.None?
    ensures var plan := AddDomains(NOTHING, ps); plan.createDomains == [] && plan.updateDomains == [] && plan.setRecipients == map[]
  {
    if ps != [] {
      SettledPlan(ps[..|ps| - 1]);
    }
  }

  lemma {:induction false} NoNewAccounts(us: seq<PlannedUser>)
    requires forall i :: 0 <= i < |us| ==> us[i].action != Created
    ensures NewAccounts(us) == []
  {
    if us != [] {
      NoNewAccounts(us[..|us| - 1]);
    }
  }

  lemma {:induction false} NoToggles(us: seq<PlannedUser>)
    requires forall i :: 0 <= i < |us| ==> us[i].action != Updated
    ensures Toggles(us) == map[]
  {
    if us != [] {
      NoToggles(us[..|us| - 1]);
    }
  }

  lemma AfterOne(ps: seq<Planned>, us: seq<PlannedUser>)
    ensures var plan := AddUsers(AddDomains(NOTHING, Settled(ps)), LaterAll(us));
            && DomainsSettled(plan) && plan.createUsers == [] && |plan.users| == |us|
            && forall i :: 0 <= i < |us| ==>
                 (plan.users[i].action == Updated <==> us[i].action == Created && us[i].account.enabled == Some(false))
  {
    PlanParts(Settled(ps), LaterAll(us));
    SettledPlan(Settled(ps));
    NoNewAccounts(LaterAll(us));
  }

  lemma NothingLeft(ps: seq<Planned>, us: seq<PlannedUser>)
    requires forall i :: 0 <= i < |ps| ==> ps[i].action == Unchanged && ps[i].recipients.None?
    requires forall i :: 0 <= i < |us| ==> us[i].action == Unchanged || us[i].action == Skipped
    ensures AllSettled(AddUsers(AddDomains(NOTHING, ps), us))
  {
    PlanParts(ps, us);
    SettledPlan(ps);
    NoNewAccounts(us);
    NoToggles(us);
    hide AddDomains, AddUsers, ListsOf, NewAccounts, Toggles;
  }

  lemma AfterTwo(ps: seq<Planned>, us: seq<PlannedUser>)
    ensures AllSettled(AddUsers(AddDomains(NOTHING, Settled(Settled(ps))), LaterAll(LaterAll(us))))
  {
    NothingLeft(Settled(Settled(ps)), LaterAll(LaterAll(us)));
  }

  /** A plan that was made for these tables and this document, with the maps walked in some order. */
  ghost predicate Importable(t: Tables, st: Settings, doc: Document, plan: Plan, lists: seq<string>, toggles: seq<string>) {
    && TablesOk(t) && PlainNames(doc.domains) && PlanOf(t, st, doc) == Good(plan)
    && Lists(lists, plan.setRecipients) && Lists(toggles, plan.enableUsers)
  }

  lemma PlanOfIs(t: Tables, st: Settings, doc: Document, ps: seq<Planned>, us: seq<PlannedUser>)
    requires PlansTo(t, st, doc, ps, us)
    ensures PlanOf(t, st, doc) == Good(AddUsers(AddDomains(NOTHING, ps), us))
  {
    hide PlanEntries, PlanAccounts, AddUsers, AddDomains, Names;
  }

  lemma ImportOnce(t: Tables, st: Settings, doc: Document, plan: Plan, lists: seq<string>, toggles: seq<string>)
    returns (ps: seq<Planned>, us: seq<PlannedUser>)
    requires Importable(t, st, doc, plan, lists, toggles)
    ensures var r := ApplyOf(t, plan, lists, toggles);
            && PlansTo(t, st, doc, ps, us) && r == Applied(Imported(t, ps, us), true)
            && TablesOk(r.t) && t.domains.Keys <= r.t.domains.Keys
            && PlansTo(r.t, st, doc, Settled(ps), LaterAll(us))
  {
    PlanIs(t, st, doc);
    hide PlanOf, PlansTo, AddUsers, AddDomains, TablesOk, PlainNames, Lists, ApplyOf, Imported, Settled, LaterAll;
    ps, us :| PlansTo(t, st, doc, ps, us) && PlanOf(t, st, doc) == Good(AddUsers(AddDomains(NOTHING, ps), us));
    PlanParts(ps, us);
    OneImport(t, st, doc, ps, us, lists, toggles);
  }

  /** Configuration import reaches a fixpoint for the domains in one step: the import succeeds, no domain is removed,
      and planning the same document again reports every domain unchanged. */
  lemma ImportSettlesDomains(t: Tables, st: Settings, doc: Document, plan: Plan, lists: seq<string>, toggles: seq<string>)
    requires Importable(t, st, doc, plan, lists, toggles)
    ensures var r := ApplyOf(t, plan, lists, toggles);
            && r.ok && TablesOk(r.t) && t.domains.Keys <= r.t.domains.Keys
            && PlanOf(r.t, st, doc).Good? && DomainsSettled(PlanOf(r.t, st, doc).value)
            && PlanOf(r.t, st, doc).value.createUsers == []
  {
    hide PlanOf, PlansTo, AddUsers, AddDomains, TablesOk, PlainNames, Lists, ApplyOf, Imported, Settled, LaterAll, DomainsSettled;
    var ps, us := ImportOnce(t, st, doc, plan, lists, toggles);
    var u := ApplyOf(t, plan, lists, toggles).t;
    PlanOfIs(u, st, doc, Settled(ps), LaterAll(us));
    AfterOne(ps, us);
  }

  /** After one import the accounts that still have to change are exactly the new ones marked disabled. */
  lemma AccountsAfterOne(t: Tables, st: Settings, doc: Document, plan: Plan, lists: seq<string>, toggles: seq<string>)
    requires Importable(t, st, doc, plan, lists, toggles)
    ensures var again := PlanOf(ApplyOf(t, plan, lists, toggles).t, st, doc);
            && again.Good? && |again.value.users| == |plan.users| == |doc.accounts|
            && forall i :: 0 <= i < |doc.accounts| ==>
                 (again.value.users[i].action == Updated <==> plan.users[i].action == Created && doc.accounts[i].enabled == Some(false))
  {
    hide PlanOf, AddUsers, AddDomains, TablesOk, PlainNames, Lists, ApplyOf, Imported, Settled, LaterAll, DomainsSettled;
    var ps, us := ImportOnce(t, st, doc, plan, lists, toggles);
    AccountsOf(t, st, Names(ps), doc.accounts, us);
    hide PlansTo;
    PlanOfIs(t, st, doc, ps, us);
    PlanParts(ps, us);
    PlanOfIs(ApplyOf(t, plan, lists, toggles).t, st, doc, Settled(ps), LaterAll(us));
    AfterOne(ps, us);
  }

  lemma AccountsOf(t: Tables, st: Settings, incoming: set<string>, accounts: seq<Account>, us: seq<PlannedUser>)
    requires PlanAccounts(t, st, incoming, accounts) == Good(us)
    ensures |us| == |accounts| && forall i :: 0 <= i < |us| ==> us[i].account == accounts[i]
  {
    AccountsAre(t, st, incoming, accounts);
    hide PlanAccounts, AccountIs, UserPlanned;
    forall i | 0 <= i < |us|
      ensures us[i].account == accounts[i]
    {
      AccountPlanned(t, st, incoming, accounts[i], us[i]);
    }
  }

  /** And for the accounts in two: a new account marked disabled is first created enabled. */
  lemma ImportTwiceSettlesAll(t: Tables, st: Settings, doc: Document, plan: Plan, lists: seq<string>, toggles: seq<string>,
                              lists2: seq<string>, toggles2: seq<string>)
    requires Importable(t, st, doc, plan, lists, toggles)
    requires var u := ApplyOf(t, plan, lists, toggles).t;
             PlanOf(u, st, doc).Good? && Importable(u, st, doc, PlanOf(u, st, doc).value, lists2, toggles2)
    ensures var u := ApplyOf(t, plan, lists, toggles).t;
            var r := ApplyOf(u, PlanOf(u, st, doc).value, lists2, toggles2);
            r.ok && PlanOf(r.t, st, doc).Good? && AllSettled(PlanOf(r.t, st, doc).value)
  {
    hide PlanOf, AddUsers, AddDomains, TablesOk, PlainNames, Lists, ApplyOf, Imported, Settled, LaterAll, AllSettled;
    var ps, us := ImportOnce(t, st, doc, plan, lists, toggles);
    var u := ApplyOf(t, plan, lists, toggles).t;
    var ps2, us2 := ImportOnce(u, st, doc, PlanOf(u, st, doc).value, lists2, toggles2);
    assert ps2 == Settled(ps) && us2 == LaterAll(us);
    hide PlansTo;
    var v := ApplyOf(u, PlanOf(u, st, doc).value, lists2, toggles2).t;
    PlanOfIs(v, st, doc, Settled(Settled(ps)), LaterAll(LaterAll(us)));
    AfterTwo(ps, us);
  }

  /** The order in which the two maps of a plan are walked does not matter. */
  lemma OrderIrrelevant(t: Tables, st: Settings, doc: Document, plan: Plan, lists: seq<string>, toggles: seq<string>,
                        lists2: seq<string>, toggles2: seq<string>)
    requires Importable(t, st, doc, plan, lists, toggles) && Importable(t, st, doc, plan, lists2, toggles2)
    ensures ApplyOf(t, plan, lists, toggles) == ApplyOf(t, plan, lists2, toggles2)
  {
    hide PlanOf, AddUsers, AddDomains, TablesOk, Importable, ApplyOf, Imported, Settled, LaterAll;
    var ps, us := ImportOnce(t, st, doc, plan, lists, toggles);
    var ps2, us2 := ImportOnce(t, st, doc, plan, lists2, toggles2);
    assert ps == ps2 && us == us2;
  }
}
