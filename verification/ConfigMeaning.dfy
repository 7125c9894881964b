// What an import does, field by field: present fields are set, absent ones keep their value or get the default, and
// nothing the document does not name is touched (internal/api/configio.go, internal/api/handlers.go:701-773).

module ConfigMeaning {
  import opened Options
  import opened Text
  import opened Recipients
  import opened Config
  import opened ConfigApply
  import opened ConfigLaws

  // ----- one request -----

  /** The fields of a request over those of the present domain; a new one has port 25, opportunistic TLS, no limits, the
      retention of the queue, and is enabled. */
  ghost predicate FieldsFrom(d: Domain, e: Entry, was: Option<Domain>, st: Settings) {
    && (e.host != "" ==> d.host == TrimSpace(e.host)) && (e.host == "" ==> d.host == if was.Some? then was.value.host else "")
    && (e.port != 0 ==> d.port == e.port) && (e.port == 0 ==> d.port == if was.Some? then was.value.port else 25)
    && (e.tls != "" ==> d.tls == e.tls) && (e.tls == "" ==> d.tls == if was.Some? then was.value.tls else "opportunistic")
    && (e.retention != 0 ==> d.retention == e.retention)
    && (e.retention == 0 ==> d.retention == if was.Some? then was.value.retention else st.retention)
    && (e.maxQueue.Some? ==> d.maxQueue == e.maxQueue)
    && (e.maxQueue.None? ==> d.maxQueue == if was.Some? then was.value.maxQueue else None)
    && (e.sendLimit.Some? ==> d.sendLimit == if e.sendLimit.value <= 0 then None else e.sendLimit)
    && (e.sendLimit.None? ==> d.sendLimit == if was.Some? then was.value.sendLimit else None)
    && (e.enabled.Some? ==> d.enabled == e.enabled.value)
    && (e.enabled.None? ==> d.enabled == if was.Some? then was.value.enabled else true)
  }

  /** A domain that may be stored. */
  ghost predicate Sound(d: Domain) {
    && d.name != "" && (forall c :: c in d.name ==> c != ' ' && c != '@' && c != '/' && c != '\\') && '.' in d.name
    && d.host != "" && 1 <= d.port <= 65535 && 1 <= d.retention <= 720
    && (d.tls == "none" || d.tls == "opportunistic" || d.tls == "starttls" || d.tls == "tls")
  }

  /** A request is refused as a renaming exactly if it names the domain otherwise, up to letter case; as invalid if the merged
      domain may not be stored; as a loop if it points at this host; and else it gives the merged domain. */
  lemma RequestExactly(e: Entry, was: Option<Domain>, st: Settings, d: Domain)
    requires FieldsFrom(d, e, was, st)
    requires d.name == if e.name != "" then ToLower(TrimDot(TrimSpace(e.name))) else if was.Some? then was.value.name else ""
    ensures DomainFrom(e, was, st) ==
            if e.name != "" && was.Some? && ToLower(e.name) != ToLower(was.value.name) then Bad(CannotRename)
            else if !Sound(d) then Bad(InvalidDomain)
            else if st.hostname != "" && ToLower(d.host) == ToLower(st.hostname) then Bad(DomainLoop)
            else Good(d)
  {
    hide ToLower, TrimSpace, TrimDot;
    MergedIs(e, was, st, d);
    SoundExactly(d);
    hide Sound, FieldsOk, Overridden, Base, FieldsFrom;
  }

  lemma MergedIs(e: Entry, was: Option<Domain>, st: Settings, d: Domain)
    requires FieldsFrom(d, e, was, st)
    requires d.name == if e.name != "" then ToLower(TrimDot(TrimSpace(e.name))) else if was.Some? then was.value.name else ""
    ensures Overridden(Base(was, st), e) == d
  {
    hide ToLower, TrimSpace, TrimDot;
  }

  lemma SoundExactly(d: Domain)
    ensures FieldsOk(d) <==> Sound(d)
  {
  }

  lemma MergedFields(e: Entry, was: Option<Domain>, st: Settings)
    ensures FieldsFrom(Overridden(Base(was, st), e), e, was, st)
  {
    hide ToLower, TrimSpace, TrimDot;
  }

  // ----- a whole import -----

  /** The row of entry `e` after the import, and its recipients. */
  ghost predicate EntryDone(t: Tables, u: Tables, st: Settings, e: Entry) {
    var n := ToLower(e.name);
    var was := if n in t.domains then Some(t.domains[n]) else None;
    && n in u.domains && u.domains[n].name == n && FieldsFrom(u.domains[n], e, was, st)
    && (e.recipients.None? ==> ListOf(u, n) == ListOf(t, n))
    && (e.recipients.Some? ==>
          && StrictlySorted(ListOf(u, n))
          && forall x :: x in ListOf(u, n) <==> x != "" && exists i: nat :: i < |e.recipients.value| && AsStored(e.recipients.value, i) == x)
  }

  /** What is reported for an entry: created if there was no such domain, unchanged if its row and list are what they
      were, and else updated. */
  ghost predicate EntryReported(t: Tables, u: Tables, e: Entry, c: Changed) {
    var n := ToLower(e.name);
    && c.name == n && n in u.domains
    && c.action == (if n !in t.domains then Created
                    else if t.domains[n] == u.domains[n] && ListOf(t, n) == ListOf(u, n) then Unchanged else Updated)
  }

  /** The account after the import: an old one keeps all but the switch; a new one with a password gets its list, switched on. */
  ghost predicate AccountDone(t: Tables, u: Tables, a: Account) {
    var n := TrimSpace(a.username);
    if n in t.users then
      n in u.users && u.users[n] == if a.enabled.Some? then t.users[n].(enabled := a.enabled.value) else t.users[n]
    else if a.password != "" then n in u.users && u.users[n] == User(a.allowed, true)
    else n !in u.users
  }

  lemma PlannedDomain(t: Tables, st: Settings, e: Entry, p: Planned)
    requires TablesOk(t) && Plain(e.name) && e.name != "" && PlanEntry(t, st, e) == Good(p)
    ensures var n := ToLower(e.name);
            var was := if n in t.domains then Some(t.domains[n]) else None;
            && p.name == n && EntryName(e) == n && p.domain.name == n && FieldsFrom(p.domain, e, was, st)
            && NewList(t, e, was) == Good(p.recipients) && p.action == ActionFor(was, p.domain, p.recipients)
  {
    hide NewList, ToLower, TrimSpace, TrimDot, Plain, FieldsOk, Loops, Overridden, Base, ActionFor, TablesOk, EqualFold, FieldsFrom;
    PlainKey(e.name);
    EntryPlanned(t, st, e);
    MergedFields(e, Find(t, ToLower(e.name)), st);
  }

  /** The list that is planned, or left alone because it is the present one. */
  lemma PlannedList(t: Tables, e: Entry, n: string, was: Option<Domain>, change: Option<seq<string>>)
    requires EntryName(e) == n && NewList(t, e, was) == Good(change) && (was.Some? ==> was.value.name == n) && (was.None? ==> n !in t.recipients)
    ensures e.recipients.None? ==> change.None?
    ensures var list := if change.Some? then change.value else ListOf(t, n);
            && (change.Some? ==> list != ListOf(t, n))
            && (e.recipients.Some? ==>
                 && StrictlySorted(list)
                 && forall x :: x in list <==> x != "" && exists i: nat :: i < |e.recipients.value| && AsStored(e.recipients.value, i) == x)
  {
    hide EntryName, Valid, StrictlySorted, AsStored, AddressIn;
    if e.recipients.Some? {
      ValidExactly(n, e.recipients.value);
    }
  }

  lemma NoStrayList(t: Tables, n: string)
    requires TablesOk(t)
    ensures n !in t.domains ==> n !in t.recipients
    ensures n in t.domains ==> t.domains[n].name == n
  {
  }

  lemma EntryMeans(t: Tables, st: Settings, e: Entry, p: Planned, u: Tables)
    requires TablesOk(t) && Plain(e.name) && e.name != "" && PlanEntry(t, st, e) == Good(p)
    requires p.name in u.domains && u.domains[p.name] == p.domain
    requires ListOf(u, p.name) == if p.recipients.Some? then p.recipients.value else ListOf(t, p.name)
    ensures EntryDone(t, u, st, e) && EntryReported(t, u, e, Changed(p.name, p.action))
  {
    hide TablesOk, Plain, PlanEntry, FieldsFrom, ToLower, NewList, StrictlySorted, AsStored, EntryName, ListOf;
    var n := ToLower(e.name);
    var was := if n in t.domains then Some(t.domains[n]) else None;
    PlannedDomain(t, st, e, p);
    NoStrayList(t, n);
    PlannedList(t, e, n, was, p.recipients);
  }

  /** Domains and lists that no entry names stay as they are. */
  lemma OthersStay(t: Tables, ps: seq<Planned>, us: seq<PlannedUser>, k: string)
    requires DistinctNames(ps) && forall i :: 0 <= i < |ps| ==> ps[i].name != k
    ensures var u := Imported(t, ps, us);
            && (k in u.domains <==> k in t.domains) && (k in t.domains ==> u.domains[k] == t.domains[k])
            && ListOf(u, k) == ListOf(t, k)
  {
    CreatedElse(t.domains, ps, k);
    UpdatedElse(WithCreated(t.domains, ps), ps, k);
    ListsAt(ps, k);
    hide WithCreated, WithUpdated, ListsOf, WithNew, Toggles, ToggledAll;
  }

  lemma AccountMeans(t: Tables, st: Settings, incoming: set<string>, ps: seq<Planned>, us: seq<PlannedUser>, accounts: seq<Account>, i: nat)
    requires AccountsMatch(t, st, incoming, accounts, us) && i < |us|
    ensures AccountDone(t, Imported(t, ps, us), accounts[i])
  {
    assert AccountIs(t, st, incoming, accounts[i], us[i]);
    AccountPlanned(t, st, incoming, accounts[i], us[i]);
    NewAt(t.users, us, i);
    TogglesAt(us, us[i].username);
    hide WithNew, Toggles, WithCreated, WithUpdated, ListsOf, TrimSpace, PlanAccount, BadName, AccountIs;
  }

  lemma OtherUsersStay(t: Tables, ps: seq<Planned>, us: seq<PlannedUser>, k: string)
    requires DistinctUsers(us) && forall i :: 0 <= i < |us| ==> us[i].username != k
    ensures var u := Imported(t, ps, us); (k in u.users <==> k in t.users) && (k in t.users ==> u.users[k] == t.users[k])
  {
    NewElse(t.users, us, k);
    TogglesAt(us, k);
    hide WithNew, Toggles, WithCreated, WithUpdated, ListsOf;
  }

  /** What an import of normalised names does to every domain and account, named in the document or not, and what it reports. */
  lemma ImportMeans(t: Tables, st: Settings, doc: Document, plan: Plan, lists: seq<string>, toggles: seq<string>)
    requires Importable(t, st, doc, plan, lists, toggles)
    ensures var r := ApplyOf(t, plan, lists, toggles);
            && r.ok && |plan.domains| == |doc.domains|
            && (forall i :: 0 <= i < |doc.domains| ==>
                  EntryDone(t, r.t, st, doc.domains[i]) && EntryReported(t, r.t, doc.domains[i], plan.domains[i]))
            && (forall i :: 0 <= i < |doc.accounts| ==> AccountDone(t, r.t, doc.accounts[i]))
            && (forall k :: (forall i :: 0 <= i < |doc.domains| ==> ToLower(doc.domains[i].name) != k) ==>
                  && (k in r.t.domains <==> k in t.domains) && (k in t.domains ==> r.t.domains[k] == t.domains[k])
                  && ListOf(r.t, k) == ListOf(t, k))
            && (forall k :: (forall i :: 0 <= i < |doc.accounts| ==> TrimSpace(doc.accounts[i].username) != k) ==>
                  (k in r.t.users <==> k in t.users) && (k in t.users ==> r.t.users[k] == t.users[k]))
  {
    hide PlanOf, AddUsers, AddDomains, TablesOk, PlainNames, Lists, ApplyOf, Imported, Settled, LaterAll, PlansTo;
    hide EntryDone, EntryReported, AccountDone, ListOf, ToLower, TrimSpace;
    var ps, us := ImportOnce(t, st, doc, plan, lists, toggles);
    PlanShown(t, st, doc, plan, ps, us);
    ImportParts(t, st, doc, ps, us);
  }

  lemma PlanShown(t: Tables, st: Settings, doc: Document, plan: Plan, ps: seq<Planned>, us: seq<PlannedUser>)
    requires PlanOf(t, st, doc) == Good(plan) && PlansTo(t, st, doc, ps, us)
    ensures |plan.domains| == |ps| && forall i :: 0 <= i < |ps| ==> plan.domains[i] == Changed(ps[i].name, ps[i].action)
  {
    hide PlanOf, AddUsers, AddDomains, PlansTo;
    PlanOfIs(t, st, doc, ps, us);
    PlanParts(ps, us);
  }

  lemma ImportParts(t: Tables, st: Settings, doc: Document, ps: seq<Planned>, us: seq<PlannedUser>)
    requires TablesOk(t) && PlainNames(doc.domains) && PlansTo(t, st, doc, ps, us)
    ensures var u := Imported(t, ps, us);
            && |ps| == |doc.domains|
            && (forall i :: 0 <= i < |doc.domains| ==>
                  EntryDone(t, u, st, doc.domains[i]) && EntryReported(t, u, doc.domains[i], Changed(ps[i].name, ps[i].action)))
            && (forall i :: 0 <= i < |doc.accounts| ==> AccountDone(t, u, doc.accounts[i]))
            && (forall k :: (forall i :: 0 <= i < |doc.domains| ==> ToLower(doc.domains[i].name) != k) ==>
                  && (k in u.domains <==> k in t.domains) && (k in t.domains ==> u.domains[k] == t.domains[k])
                  && ListOf(u, k) == ListOf(t, k))
            && (forall k :: (forall i :: 0 <= i < |doc.accounts| ==> TrimSpace(doc.accounts[i].username) != k) ==>
                  (k in u.users <==> k in t.users) && (k in t.users ==> u.users[k] == t.users[k]))
  {
    hide TablesOk, Imported, EntryDone, EntryReported, AccountDone, ListOf, ToLower, TrimSpace, Plain, PlanEntry, PlanAccount, EntryName,
      PlanEntries, PlanAccounts, Names, BadName, AllPlanned;
    EntriesAre(t, st, doc.domains);
    EntriesPlanned(t, st, doc.domains);
    AccountsAre(t, st, Names(ps), doc.accounts);
    ImportedHolds(t, ps, us);
    var u := Imported(t, ps, us);
    forall i | 0 <= i < |doc.domains|
      ensures EntryDone(t, u, st, doc.domains[i]) && EntryReported(t, u, doc.domains[i], Changed(ps[i].name, ps[i].action))
      ensures ps[i].name == ToLower(doc.domains[i].name)
    {
      assert EntryIs(t, st, doc.domains[i], ps[i]);
      NamedEntry(doc.domains[i]);
      EntryPlanned(t, st, doc.domains[i]);
      EntryMeans(t, st, doc.domains[i], ps[i], u);
    }
    forall i | 0 <= i < |doc.accounts|
      ensures AccountDone(t, u, doc.accounts[i]) && us[i].username == TrimSpace(doc.accounts[i].username)
    {
      AccountMeans(t, st, Names(ps), ps, us, doc.accounts, i);
      assert AccountIs(t, st, Names(ps), doc.accounts[i], us[i]);
    }
    forall k | forall i :: 0 <= i < |doc.domains| ==> ToLower(doc.domains[i].name) != k
      ensures (k in u.domains <==> k in t.domains) && (k in t.domains ==> u.domains[k] == t.domains[k]) && ListOf(u, k) == ListOf(t, k)
    {
      OthersStay(t, ps, us, k);
    }
    forall k | forall i :: 0 <= i < |doc.accounts| ==> TrimSpace(doc.accounts[i].username) != k
      ensures (k in u.users <==> k in t.users) && (k in t.users ==> u.users[k] == t.users[k])
    {
      OtherUsersStay(t, ps, us, k);
    }
  }

  // ----- which documents are accepted -----

  /** The name an entry is reported under, and whether the present tables take it. */
  function NameIn(e: Entry): string {
    ToLower(TrimSpace(e.name))
  }

  ghost predicate EntryAccepted(t: Tables, st: Settings, e: Entry) {
    && NameIn(e) != "" && DomainFrom(e, Find(t, NameIn(e)), st).Good?
    && (e.recipients.Some? ==> Valid(NameIn(e), e.recipients.value).Some?)
  }

  ghost predicate AccountAccepted(t: Tables, st: Settings, names: set<string>, a: Account) {
    var n := TrimSpace(a.username);
    && n != "" && (forall c :: c in n ==> c != ' ' && c != '\t' && c != '\r' && c != '\n')
    && (forall i :: 0 <= i < |a.allowed| ==>
          var d := ToLower(TrimSpace(a.allowed[i])); d in names || Find(t, d).Some?)
    && (n !in t.users && a.password != "" ==> st.strong(a.password))
  }

  ghost predicate EntriesAccepted(t: Tables, st: Settings, es: seq<Entry>) {
    && (forall i :: 0 <= i < |es| ==> EntryAccepted(t, st, es[i]))
    && forall i, j :: 0 <= i < j < |es| ==> NameIn(es[i]) != NameIn(es[j])
  }

  ghost predicate AccountsAccepted(t: Tables, st: Settings, names: set<string>, accounts: seq<Account>) {
    && (forall i :: 0 <= i < |accounts| ==> AccountAccepted(t, st, names, accounts[i]))
    && forall i, j :: 0 <= i < j < |accounts| ==> TrimSpace(accounts[i].username) != TrimSpace(accounts[j].username)
  }

  function NamesOf(es: seq<Entry>): set<string> {
    set e | e in es :: NameIn(e)
  }

  lemma EntryExactly(t: Tables, st: Settings, e: Entry)
    ensures EntryAccepted(t, st, e) <==> EntryName(e) != "" && PlanEntry(t, st, e).Good?
    ensures PlanEntry(t, st, e).Good? ==> PlanEntry(t, st, e).value.name == NameIn(e)
  {
    hide DomainFrom, Valid, Find, Key, ToLower, TrimSpace, ListOf, ActionFor;
  }

  lemma AccountExactly(t: Tables, st: Settings, names: set<string>, a: Account)
    ensures AccountAccepted(t, st, names, a) <==>
            TrimSpace(a.username) != "" && !BadName(TrimSpace(a.username)) && PlanAccount(t, st, names, a).Good?
    ensures PlanAccount(t, st, names, a).Good? ==> PlanAccount(t, st, names, a).value.username == TrimSpace(a.username)
  {
    hide Key, ToLower, TrimSpace;
  }

  lemma {:induction false} EntriesExactly(t: Tables, st: Settings, es: seq<Entry>)
    ensures PlanEntries(t, st, es).Good? <==> EntriesAccepted(t, st, es)
    ensures PlanEntries(t, st, es).Good? ==> Names(PlanEntries(t, st, es).value) == NamesOf(es)
  {
    if es == [] {
      hide PlanEntry;
    } else {
      hide EntryAccepted, PlanEntry, EntriesAccepted, NamesOf, Names, PlanEntries, NameIn;
      var n := |es| - 1;
      var init, e := es[..n], es[n];
      EntriesExactly(t, st, init);
      assert es == init + [e] && es[..n + 1] == es;
      EntriesSnoc(t, st, init, e);
      EntryExactly(t, st, e);
      NameIs(e);
      if PlanEntries(t, st, init).Good? {
        EntriesStep(t, st, es, n);
        if PlanEntry(t, st, e).Good? {
          NamesSnoc(PlanEntries(t, st, init).value, PlanEntry(t, st, e).value, init, e);
        }
      } else {
        EntriesBad(t, st, es, n);
      }
    }
  }

  lemma NameIs(e: Entry)
    ensures EntryName(e) == NameIn(e)
  {
  }

  lemma NamesSnoc(ps: seq<Planned>, p: Planned, es: seq<Entry>, e: Entry)
    requires Names(ps) == NamesOf(es) && p.name == NameIn(e)
    ensures Names(ps + [p]) == NamesOf(es + [e])
  {
    hide ToLower, TrimSpace, NameIn;
    assert Names(ps + [p]) == Names(ps) + {p.name};
    assert NamesOf(es + [e]) == NamesOf(es) + {NameIn(e)};
  }

  lemma EntriesSnoc(t: Tables, st: Settings, es: seq<Entry>, e: Entry)
    ensures EntriesAccepted(t, st, es + [e]) <==> EntriesAccepted(t, st, es) && EntryAccepted(t, st, e) && NameIn(e) !in NamesOf(es)
  {
    hide EntryAccepted, NameIn;
    var all := es + [e];
    assert all[|es|] == e && forall i :: 0 <= i < |es| ==> all[i] == es[i] && es[i] in es;
    if EntriesAccepted(t, st, all) {
      assert forall x :: x in es ==> exists i :: 0 <= i < |es| && all[i] == x;
    }
  }

  lemma AccountsStep(t: Tables, st: Settings, names: set<string>, accounts: seq<Account>, a: Account)
    requires PlanAccounts(t, st, names, accounts).Good?
    ensures var us, n := PlanAccounts(t, st, names, accounts).value, TrimSpace(a.username);
            PlanAccounts(t, st, names, accounts + [a]) ==
            if n == "" then Bad(UsernameMissing)
            else if BadName(n) then Bad(BadUsername)
            else if n in UserNames(us) then Bad(ListedTwice)
            else match PlanAccount(t, st, names, a) case Bad(why) => Bad(why) case Good(u) => Good(us + [u])
  {
    hide PlanAccount, TrimSpace, BadName, UserNames;
    assert (accounts + [a])[..|accounts|] == accounts;
  }

  lemma {:induction false} AccountsExactly(t: Tables, st: Settings, names: set<string>, accounts: seq<Account>)
    ensures PlanAccounts(t, st, names, accounts).Good? <==> AccountsAccepted(t, st, names, accounts)
    ensures PlanAccounts(t, st, names, accounts).Good? ==>
              UserNames(PlanAccounts(t, st, names, accounts).value) == set a | a in accounts :: TrimSpace(a.username)
    decreases |accounts|
  {
    if accounts == [] {
      hide PlanAccount;
    } else {
      hide AccountAccepted, PlanAccount, AccountsAccepted, UserNames, TrimSpace, BadName, PlanAccounts;
      var n := |accounts| - 1;
      var init, a := accounts[..n], accounts[n];
      AccountsExactly(t, st, names, init);
      assert accounts == init + [a];
      AccountsSnoc(t, st, names, init, a);
      AccountExactly(t, st, names, a);
      if PlanAccounts(t, st, names, init).Good? {
        AccountsStep(t, st, names, init, a);
        if PlanAccount(t, st, names, a).Good? {
          UserNamesSnoc(PlanAccounts(t, st, names, init).value, PlanAccount(t, st, names, a).value, init, a);
        }
      } else {
        AccountsBad(t, st, names, accounts, n);
      }
    }
  }

  lemma UserNamesSnoc(us: seq<PlannedUser>, u: PlannedUser, accounts: seq<Account>, a: Account)
    requires UserNames(us) == (set x | x in accounts :: TrimSpace(x.username)) && u.username == TrimSpace(a.username)
    ensures UserNames(us + [u]) == set x | x in accounts + [a] :: TrimSpace(x.username)
  {
    hide TrimSpace;
    assert UserNames(us + [u]) == UserNames(us) + {u.username};
  }

  lemma AccountsSnoc(t: Tables, st: Settings, names: set<string>, accounts: seq<Account>, a: Account)
    ensures AccountsAccepted(t, st, names, accounts + [a]) <==>
              && AccountsAccepted(t, st, names, accounts) && AccountAccepted(t, st, names, a)
              && TrimSpace(a.username) !in set x | x in accounts :: TrimSpace(x.username)
  {
    hide AccountAccepted, TrimSpace;
    var all := accounts + [a];
    assert all[|accounts|] == a && forall i :: 0 <= i < |accounts| ==> all[i] == accounts[i] && accounts[i] in accounts;
    if AccountsAccepted(t, st, names, all) {
      assert forall x :: x in accounts ==> exists i :: 0 <= i < |accounts| && all[i] == x;
    }
  }

  /** A document can be planned exactly if its version is known, every entry has a name of its own, makes a good request and
      lists recipients of its domain only, and every account has a name of its own without blanks, may send as domains of
      the document or the node only, and is old, or has no password, or a strong one. */
  lemma AcceptedExactly(t: Tables, st: Settings, doc: Document)
    ensures PlanOf(t, st, doc).Good? <==>
              && (doc.version == 0 || doc.version == 1)
              && EntriesAccepted(t, st, doc.domains) && AccountsAccepted(t, st, NamesOf(doc.domains), doc.accounts)
  {
    EntriesExactly(t, st, doc.domains);
    AccountsExactly(t, st, NamesOf(doc.domains), doc.accounts);
    hide EntriesAccepted, AccountsAccepted, PlanEntries, PlanAccounts, Names, NamesOf, AddUsers, AddDomains;
  }

  // ----- names -----

  /** A domain is stored and looked up under its name in lower case, without the dot a name may end in. */
  lemma KeyExactly(t: Tables, n: string)
    requires Plain(n)
    ensures Key(n) == ToLower(n) && Key(n + ".") == ToLower(n)
    ensures Find(t, n + ".") == Find(t, n) && (Find(t, n).Some? <==> ToLower(n) in t.domains)
  {
    PlainLower(n);
    assert (n + ".")[..|n|] == n && (n + ".")[|n|] == '.';
    hide ToLower, TrimSpace;
  }
}
