// An export with passwords put in restores the node it was made on (internal/api/configio.go:109-117).

module ConfigRestore {
  import opened Options
  import opened Text
  import opened Recipients
  import opened Config
  import opened ConfigApply
  import opened ConfigLaws
  import opened ConfigExport
  import opened ConfigMeaning

  /** The document with a password for every account. */
  function WithPasswords(doc: Document, pw: string -> string): Document {
    doc.(accounts := seq(|doc.accounts|, i requires 0 <= i < |doc.accounts| =>
                           doc.accounts[i].(password := pw(doc.accounts[i].username))))
  }

  lemma ExportParts(t: Tables, names: seq<string>, usernames: seq<string>, pw: string -> string)
    requires Lists(names, t.domains) && Lists(usernames, t.users)
    ensures var doc := WithPasswords(ExportOf(t, names, usernames), pw);
            && |doc.domains| == |names| && |doc.accounts| == |usernames|
            && (forall i :: 0 <= i < |names| ==> doc.domains[i] == ExportEntry(t, names[i]))
            && (forall i :: 0 <= i < |usernames| ==>
                  doc.accounts[i] == Account(usernames[i], pw(usernames[i]), t.users[usernames[i]].allowed, Some(t.users[usernames[i]].enabled)))
  {
    hide ListOf;
  }

  lemma ExportPlain(t: Tables, st: Settings, names: seq<string>, usernames: seq<string>, pw: string -> string)
    requires NodeOk(t, st) && Lists(names, t.domains) && Lists(usernames, t.users)
    ensures PlainNames(WithPasswords(ExportOf(t, names, usernames), pw).domains)
  {
    hide Plain, FieldsOk, Loops, ToLower, TrimSpace, NormalForm, UserOk, ListOf;
    ExportParts(t, names, usernames, pw);
    var doc := WithPasswords(ExportOf(t, names, usernames), pw);
    forall i | 0 <= i < |doc.domains|
      ensures Plain(doc.domains[i].name)
    {
      assert DomainOk(names[i], t.domains[names[i]], st);
    }
  }

  // ----- when it can be planned -----

  lemma SameButPasswords(st: Settings, names: set<string>, a: Account, b: Account)
    requires b == a.(password := b.password) && a.password == ""
    ensures AccountAccepted(EMPTY, st, names, b) <==> AccountAccepted(EMPTY, st, names, a) && (b.password != "" ==> st.strong(b.password))
  {
    hide TrimSpace, ToLower, Key;
  }

  lemma AllStrong(t: Tables, usernames: seq<string>, pw: string -> string, strong: string -> bool)
    requires Lists(usernames, t.users)
    ensures (forall i :: 0 <= i < |usernames| ==> strong(pw(usernames[i]))) <==> forall u :: u in t.users ==> strong(pw(u))
  {
    if forall i :: 0 <= i < |usernames| ==> strong(pw(usernames[i])) {
      forall u | u in t.users
        ensures strong(pw(u))
      {
        var i :| 0 <= i < |usernames| && usernames[i] == u;
      }
    }
  }

  lemma SameAccounts(st: Settings, known: set<string>, a: seq<Account>, b: seq<Account>)
    requires |a| == |b| && forall i :: 0 <= i < |a| ==> a[i].password == "" && b[i].password != "" && b[i] == a[i].(password := b[i].password)
    ensures AccountsAccepted(EMPTY, st, known, b) <==>
            AccountsAccepted(EMPTY, st, known, a) && forall i :: 0 <= i < |b| ==> st.strong(b[i].password)
  {
    hide AccountAccepted, TrimSpace;
    forall i | 0 <= i < |a|
      ensures AccountAccepted(EMPTY, st, known, b[i]) <==> AccountAccepted(EMPTY, st, known, a[i]) && st.strong(b[i].password)
      ensures a[i].username == b[i].username
    {
      SameButPasswords(st, known, a[i], b[i]);
    }
  }

  /** It can be planned on an empty node exactly if the export can, and every password is strong. */
  lemma PlansWithPasswords(t: Tables, st: Settings, names: seq<string>, usernames: seq<string>, pw: string -> string)
    requires NodeOk(t, st) && Lists(names, t.domains) && Lists(usernames, t.users) && forall u :: u in t.users ==> pw(u) != ""
    ensures PlanOf(EMPTY, st, WithPasswords(ExportOf(t, names, usernames), pw)).Good? <==>
              Portable(t) && forall u :: u in t.users ==> st.strong(pw(u))
  {
    var doc := ExportOf(t, names, usernames);
    var with_ := WithPasswords(doc, pw);
    ExportParts(t, names, usernames, pw);
    assert doc.domains == with_.domains && doc.version == with_.version == 1;
    assert |doc.accounts| == |usernames| && forall i :: 0 <= i < |usernames| ==>
      doc.accounts[i].password == "" && with_.accounts[i] == doc.accounts[i].(password := with_.accounts[i].password);
    hide PlanOf, NodeOk, Portable, EntriesAccepted, AccountsAccepted, NamesOf, ExportOf, WithPasswords;
    ExportPlansOnEmpty(t, st, names, usernames);
    AcceptedExactly(EMPTY, st, doc);
    AcceptedExactly(EMPTY, st, with_);
    SameAccounts(st, NamesOf(doc.domains), doc.accounts, with_.accounts);
    AllStrong(t, usernames, pw, st.strong);
    hide Lists;
  }

  // ----- what it restores -----

  lemma AllFields(d: Domain, e: Entry, was: Option<Domain>, st: Settings, k: string, full: Domain)
    requires DomainOk(k, full, st) && d.name == k && FieldsFrom(d, e, was, st) && (was.Some? ==> was.value == full)
    requires e == Entry(k, full.host, full.port, full.tls, full.maxQueue, full.sendLimit, full.retention, Some(full.enabled), e.recipients)
    ensures d == full
  {
    hide Plain, ToLower, TrimSpace, Loops, NameOk;
    assert full.tls != "" by { TlsNamed(full); }
  }

  lemma SameList(k: string, list: seq<string>, r: seq<string>)
    requires NormalForm(k, list) && StrictlySorted(r)
    requires forall x :: x in r <==> x != "" && exists i: nat :: i < |list| && AsStored(list, i) == x
    ensures r == list
  {
    hide Addresses, StrictlySorted, ToLower, TrimSpace;
    forall i: nat | i < |list|
      ensures AsStored(list, i) == list[i] != ""
    {
      assert Stored(list[i], k);
    }
    forall x
      ensures x in r <==> x in list
    {
      if x in list {
        var i: nat :| i < |list| && list[i] == x;
      }
    }
    SortedUnique(r, list);
  }

  lemma EntryRestored(t: Tables, st: Settings, k: string, before: Tables, u: Tables)
    requires NodeOk(t, st) && k in t.domains && EntryDone(before, u, st, ExportEntry(t, k))
    requires before.domains == map[] || (k in before.domains && before.domains[k] == t.domains[k])
    requires before.recipients == map[] || ListOf(before, k) == ListOf(t, k)
    ensures k in u.domains && u.domains[k] == t.domains[k] && ListOf(u, k) == ListOf(t, k)
  {
    var e := ExportEntry(t, k);
    var d := t.domains[k];
    assert DomainOk(k, d, st);
    ExportName(t, st, k);
    hide Plain, FieldsOk, Loops, ToLower, TrimSpace, UserOk, FieldsFrom, AsStored, StrictlySorted, NormalForm, NodeOk, TrimDot, Key, EntryName;
    assert ToLower(k) == k && e.name == k;
    var was := if k in before.domains then Some(before.domains[k]) else None;
    AllFields(u.domains[k], e, was, st, k, d);
    if ListOf(t, k) != [] {
      SameList(k, ListOf(t, k), ListOf(u, k));
    }
  }

  lemma ImportShown(before: Tables, st: Settings, doc: Document, plan: Plan, lists: seq<string>, toggles: seq<string>)
    requires TablesOk(before) && PlainNames(doc.domains) && PlanOf(before, st, doc) == Good(plan)
    requires Lists(lists, plan.setRecipients) && Lists(toggles, plan.enableUsers)
    ensures var r := ApplyOf(before, plan, lists, toggles);
            && r.ok && UnnamedStay(doc, before, r.t) && UnnamedUsersStay(doc, before, r.t)
            && (forall i :: 0 <= i < |doc.domains| ==> EntryDone(before, r.t, st, doc.domains[i]))
            && (forall i :: 0 <= i < |doc.accounts| ==> AccountDone(before, r.t, doc.accounts[i]))
  {
    hide PlanOf, PlainNames, TablesOk, Lists, EntryDone, EntryReported, AccountDone, ApplyOf, ListOf, ToLower, TrimSpace;
    ImportMeans(before, st, doc, plan, lists, toggles);
  }

  /** Imported on an empty node, an export with passwords gives all its domains, recipients and accounts; the accounts
      are switched on, whatever the document says. */
  lemma RestoresNode(t: Tables, st: Settings, names: seq<string>, usernames: seq<string>, pw: string -> string,
                     plan: Plan, lists: seq<string>, toggles: seq<string>)
    requires NodeOk(t, st) && Lists(names, t.domains) && Lists(usernames, t.users) && forall u :: u in t.users ==> pw(u) != ""
    requires PlanOf(EMPTY, st, WithPasswords(ExportOf(t, names, usernames), pw)) == Good(plan)
    requires Lists(lists, plan.setRecipients) && Lists(toggles, plan.enableUsers)
    ensures var r := ApplyOf(EMPTY, plan, lists, toggles);
            && r.ok && r.t.domains == t.domains && (forall k: string :: ListOf(r.t, k) == ListOf(t, k))
            && r.t.users == SwitchedOn(t.users)
  {
    hide *;
    var doc := WithPasswords(ExportOf(t, names, usernames), pw);
    EmptyOk();
    ExportPlain(t, st, names, usernames, pw);
    ExportShown(t, names, usernames, pw);
    ImportShown(EMPTY, st, doc, plan, lists, toggles);
    NobodyThere();
    var u := ApplyOf(EMPTY, plan, lists, toggles).t;
    Restored(t, st, names, doc, EMPTY, u);
    UsersRestored(t, st, usernames, pw, doc, EMPTY, u);
  }

  lemma NobodyThere()
    ensures EMPTY.domains == map[] && EMPTY.recipients == map[] && EMPTY.users == map[]
  {
  }

  lemma ExportShown(t: Tables, names: seq<string>, usernames: seq<string>, pw: string -> string)
    requires Lists(names, t.domains) && Lists(usernames, t.users)
    ensures var doc := WithPasswords(ExportOf(t, names, usernames), pw);
            && (forall i :: 0 <= i < |usernames| ==> usernames[i] in t.users)
            && |doc.domains| == |names| && |doc.accounts| == |usernames|
            && AllExported(t, names, doc) && AccountsExported(t, usernames, pw, doc)
  {
    hide ExportEntry;
    ExportParts(t, names, usernames, pw);
  }

  /** Every domain of `t` has its entry among the imported, and nothing else has. */
  ghost predicate AllExported(t: Tables, names: seq<string>, doc: Document) {
    |doc.domains| == |names| && forall i :: 0 <= i < |names| ==> names[i] in t.domains && doc.domains[i] == ExportEntry(t, names[i])
  }

  ghost predicate UnnamedStay(doc: Document, before: Tables, u: Tables) {
    forall k :: (forall i :: 0 <= i < |doc.domains| ==> ToLower(doc.domains[i].name) != k) ==>
      (k in u.domains <==> k in before.domains) && (k in before.domains ==> u.domains[k] == before.domains[k]) && ListOf(u, k) == ListOf(before, k)
  }

  lemma UnnamedAt(t: Tables, st: Settings, names: seq<string>, doc: Document, before: Tables, u: Tables, k: string)
    requires NodeOk(t, st) && AllExported(t, names, doc) && UnnamedStay(doc, before, u) && k !in t.domains
    ensures (k in u.domains <==> k in before.domains) && ListOf(u, k) == ListOf(before, k) && ListOf(t, k) == []
  {
    hide NodeOk, ToLower, ListOf, ExportEntry;
    forall i | 0 <= i < |doc.domains|
      ensures ToLower(doc.domains[i].name) != k
    {
      EntryNamed(t, st, names[i]);
    }
    NoListElse(t, st, k);
  }

  lemma Restored(t: Tables, st: Settings, names: seq<string>, doc: Document, before: Tables, u: Tables)
    requires NodeOk(t, st) && Lists(names, t.domains) && AllExported(t, names, doc) && UnnamedStay(doc, before, u)
    requires forall i :: 0 <= i < |names| ==> EntryDone(before, u, st, doc.domains[i])
    requires before.domains == map[] || before.domains == t.domains
    requires before.recipients == map[] || forall k: string :: ListOf(before, k) == ListOf(t, k)
    ensures u.domains == t.domains && forall k: string :: ListOf(u, k) == ListOf(t, k)
  {
    NoneListed(before);
    hide EntryDone, UnnamedStay, NodeOk, ExportEntry, ListOf;
    forall k: string
      ensures k in t.domains ==> k in u.domains && u.domains[k] == t.domains[k]
      ensures k !in t.domains ==> k !in u.domains
      ensures ListOf(u, k) == ListOf(t, k)
    {
      if k in t.domains {
        var i :| 0 <= i < |names| && names[i] == k;
        EntryRestored(t, st, k, before, u);
      } else {
        UnnamedAt(t, st, names, doc, before, u, k);
      }
    }
  }

  lemma NoneListed(t: Tables)
    ensures t.recipients == map[] ==> forall k: string :: ListOf(t, k) == []
  {
  }

  lemma EntryNamed(t: Tables, st: Settings, k: string)
    requires NodeOk(t, st) && k in t.domains
    ensures ToLower(ExportEntry(t, k).name) == k
  {
    assert DomainOk(k, t.domains[k], st);
    hide Plain, FieldsOk, Loops, ToLower, TrimSpace, UserOk, NormalForm, ListOf;
  }

  lemma NoListElse(t: Tables, st: Settings, k: string)
    requires NodeOk(t, st) && k !in t.domains
    ensures ListOf(t, k) == []
  {
    hide DomainOk, UserOk, NormalForm;
  }

  ghost predicate AccountsExported(t: Tables, usernames: seq<string>, pw: string -> string, doc: Document)
    requires forall i :: 0 <= i < |usernames| ==> usernames[i] in t.users
  {
    |doc.accounts| == |usernames| && forall i :: 0 <= i < |usernames| ==>
      doc.accounts[i] == Account(usernames[i], pw(usernames[i]), t.users[usernames[i]].allowed, Some(t.users[usernames[i]].enabled))
  }

  ghost predicate UnnamedUsersStay(doc: Document, before: Tables, u: Tables) {
    forall k :: (forall i :: 0 <= i < |doc.accounts| ==> TrimSpace(doc.accounts[i].username) != k) ==>
      (k in u.users <==> k in before.users) && (k in before.users ==> u.users[k] == before.users[k])
  }

  function SwitchedOn(users: map<string, User>): map<string, User> {
    map u | u in users :: User(users[u].allowed, true)
  }

  lemma UserRestored(t: Tables, k: string, password: string, before: Tables, u: Tables)
    requires k in t.users && TrimSpace(k) == k && password != ""
    requires AccountDone(before, u, Account(k, password, t.users[k].allowed, Some(t.users[k].enabled)))
    requires before.users == map[] || before.users == SwitchedOn(t.users)
    ensures k in u.users
    ensures before.users == map[] ==> u.users[k] == User(t.users[k].allowed, true)
    ensures before.users == SwitchedOn(t.users) ==> u.users[k] == t.users[k]
  {
    hide TrimSpace;
  }

  lemma UnnamedUser(t: Tables, st: Settings, usernames: seq<string>, pw: string -> string, doc: Document, before: Tables, u: Tables, k: string)
    requires NodeOk(t, st) && Lists(usernames, t.users) && AccountsExported(t, usernames, pw, doc) && UnnamedUsersStay(doc, before, u)
    requires k !in t.users && (before.users == map[] || before.users == SwitchedOn(t.users))
    ensures k !in u.users
  {
    hide NodeOk, TrimSpace;
    forall i | 0 <= i < |doc.accounts|
      ensures TrimSpace(doc.accounts[i].username) != k
    {
      UserNamed(t, st, usernames[i]);
    }
  }

  lemma UsersRestored(t: Tables, st: Settings, usernames: seq<string>, pw: string -> string, doc: Document, before: Tables, u: Tables)
    requires NodeOk(t, st) && Lists(usernames, t.users) && AccountsExported(t, usernames, pw, doc) && UnnamedUsersStay(doc, before, u)
    requires (forall x :: x in t.users ==> pw(x) != "") && forall i :: 0 <= i < |usernames| ==> AccountDone(before, u, doc.accounts[i])
    requires before.users == map[] || before.users == SwitchedOn(t.users)
    ensures before.users == map[] ==> u.users == SwitchedOn(t.users)
    ensures before.users == SwitchedOn(t.users) ==> u.users == t.users
  {
    hide NodeOk, TrimSpace, AccountDone, UnnamedUsersStay;
    forall k: string
      ensures k in t.users <==> k in u.users
      ensures k in t.users && before.users == map[] ==> u.users[k] == User(t.users[k].allowed, true)
      ensures k in t.users && before.users == SwitchedOn(t.users) ==> u.users[k] == t.users[k]
    {
      if k in t.users {
        var i :| 0 <= i < |usernames| && usernames[i] == k;
        UserNamed(t, st, k);
        UserRestored(t, k, pw(k), before, u);
      } else {
        UnnamedUser(t, st, usernames, pw, doc, before, u, k);
      }
    }
  }

  lemma UserNamed(t: Tables, st: Settings, u: string)
    requires NodeOk(t, st) && u in t.users
    ensures TrimSpace(u) == u
  {
    assert UserOk(t, u);
    hide DomainOk, NormalForm, TrimSpace;
  }

  /** A second import of the same document switches off those that were off: then the node is restored in full. */
  lemma RestoresNodeFully(t: Tables, st: Settings, names: seq<string>, usernames: seq<string>, pw: string -> string,
                          plan: Plan, lists: seq<string>, toggles: seq<string>, plan2: Plan, lists2: seq<string>, toggles2: seq<string>)
    requires NodeOk(t, st) && Lists(names, t.domains) && Lists(usernames, t.users) && forall u :: u in t.users ==> pw(u) != ""
    requires PlanOf(EMPTY, st, WithPasswords(ExportOf(t, names, usernames), pw)) == Good(plan)
    requires Lists(lists, plan.setRecipients) && Lists(toggles, plan.enableUsers)
    requires PlanOf(ApplyOf(EMPTY, plan, lists, toggles).t, st, WithPasswords(ExportOf(t, names, usernames), pw)) == Good(plan2)
    requires Lists(lists2, plan2.setRecipients) && Lists(toggles2, plan2.enableUsers)
    ensures var r := ApplyOf(ApplyOf(EMPTY, plan, lists, toggles).t, plan2, lists2, toggles2);
            r.ok && r.t.domains == t.domains && (forall k: string :: ListOf(r.t, k) == ListOf(t, k)) && r.t.users == t.users
  {
    hide *;
    var doc := WithPasswords(ExportOf(t, names, usernames), pw);
    var u := ApplyOf(EMPTY, plan, lists, toggles).t;
    EmptyOk();
    ExportPlain(t, st, names, usernames, pw);
    ExportShown(t, names, usernames, pw);
    TablesStay(EMPTY, st, doc, plan, lists, toggles);
    RestoresNode(t, st, names, usernames, pw, plan, lists, toggles);
    ImportShown(u, st, doc, plan2, lists2, toggles2);
    var v := ApplyOf(u, plan2, lists2, toggles2).t;
    Restored(t, st, names, doc, u, v);
    UsersRestored(t, st, usernames, pw, doc, u, v);
  }

  lemma TablesStay(before: Tables, st: Settings, doc: Document, plan: Plan, lists: seq<string>, toggles: seq<string>)
    requires TablesOk(before) && PlainNames(doc.domains) && PlanOf(before, st, doc) == Good(plan)
    requires Lists(lists, plan.setRecipients) && Lists(toggles, plan.enableUsers)
    ensures TablesOk(ApplyOf(before, plan, lists, toggles).t)
  {
    hide PlanOf, PlainNames, TablesOk, Lists, ApplyOf, DomainsSettled;
    ImportSettlesDomains(before, st, doc, plan, lists, toggles);
  }
}
