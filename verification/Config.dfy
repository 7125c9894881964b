// internal/api/configio.go and domainFromRequest of handlers.go: planning an import, applying it, exporting.

module Config {
  import opened Options
  import opened Text
  import opened Recipients

  /** A row of the domain table. */
  datatype Domain = Domain(
    name: string, host: string, port: int, tls: string,
    maxQueue: Option<int>, sendLimit: Option<int>, retention: int, enabled: bool)

  /** A domain of a document; 0 and "" stand for fields left out. */
  datatype Entry = Entry(
    name: string, host: string, port: int, tls: string,
    maxQueue: Option<int>, sendLimit: Option<int>, retention: int, enabled: Option<bool>,
    recipients: Option<seq<string>>)

  /** A submission account of a document. */
  datatype Account = Account(username: string, password: string, allowed: seq<string>, enabled: Option<bool>)

  datatype Document = Document(version: int, domains: seq<Entry>, accounts: seq<Account>)

  datatype User = User(allowed: seq<string>, enabled: bool)

  /** The tables, by stored name. */
  datatype Tables = Tables(domains: map<string, Domain>, recipients: map<string, seq<string>>, users: map<string, User>)

  /** This host's name, the default retention in hours, and the password rule. */
  datatype Settings = Settings(hostname: string, retention: int, strong: string -> bool)

  datatype Failure =
    | BadVersion
    | NameMissing
    | ListedTwice
    | CannotRename
    | InvalidDomain
    | DomainLoop
    | InvalidRecipient
    | UsernameMissing
    | BadUsername
    | UnknownDomain
    | WeakPassword

  datatype Outcome<+T> = Good(value: T) | Bad(why: Failure)

  datatype Action = Created | Updated | Unchanged | Skipped

  // ----- names -----

  function TrimDot(s: string): string {
    if s != "" && s[|s| - 1] == '.' then s[..|s| - 1] else s
  }

  /** The key a name is stored and looked up under. */
  function Key(name: string): string {
    ToLower(TrimSpace(TrimDot(name)))
  }

  function EntryName(e: Entry): string {
    ToLower(TrimSpace(e.name))
  }

  function Find(t: Tables, name: string): Option<Domain> {
    if Key(name) in t.domains then Some(t.domains[Key(name)]) else None
  }

  function ListOf(t: Tables, name: string): seq<string> {
    if name in t.recipients then t.recipients[name] else []
  }

  predicate NameOk(n: string) {
    n != "" && '.' in n && ' ' !in n && '@' !in n && '/' !in n && '\\' !in n
  }

  predicate ValidTls(tls: string) {
    tls == "none" || tls == "opportunistic" || tls == "starttls" || tls == "tls"
  }

  // ----- one domain -----

  function Base(existing: Option<Domain>, st: Settings): Domain {
    match existing
    case None => Domain("", "", 25, "opportunistic", None, None, st.retention, true)
    case Some(d) => d
  }

  /** The fields of the entry that are present, over those of `d`. */
  function Overridden(d: Domain, e: Entry): Domain {
    Domain(
      if e.name != "" then ToLower(TrimDot(TrimSpace(e.name))) else d.name,
      if e.host != "" then TrimSpace(e.host) else d.host,
      if e.port != 0 then e.port else d.port,
      if e.tls != "" then e.tls else d.tls,
      if e.maxQueue.Some? then e.maxQueue else d.maxQueue,
      match e.sendLimit case None => d.sendLimit case Some(n) => if n <= 0 then None else Some(n),
      if e.retention != 0 then e.retention else d.retention,
      if e.enabled.Some? then e.enabled.value else d.enabled)
  }

  predicate FieldsOk(d: Domain) {
    NameOk(d.name) && d.host != "" && 1 <= d.port <= 65535 && ValidTls(d.tls) && 1 <= d.retention <= 720
  }

  predicate Loops(d: Domain, st: Settings) {
    EqualFold(d.host, st.hostname) && st.hostname != ""
  }

  /** What `domainFromRequest` returns. */
  function DomainFrom(e: Entry, existing: Option<Domain>, st: Settings): Outcome<Domain> {
    var d := Overridden(Base(existing, st), e);
    if e.name != "" && existing.Some? && !EqualFold(e.name, existing.value.name) then Bad(CannotRename)
    else if !FieldsOk(d) then Bad(InvalidDomain)
    else if Loops(d, st) then Bad(DomainLoop)
    else Good(d)
  }

  /** The fields of a request over the present ones, one by one. */
  method MergeFields(e: Entry, existing: Option<Domain>, st: Settings) returns (d: Domain)
    ensures d == Overridden(Base(existing, st), e)
  {
    hide TrimSpace, ToLower, TrimDot;
    var base := Base(existing, st);
    var name, host, port, tls := base.name, base.host, base.port, base.tls;
    if e.name != "" {
      name := ToLower(TrimDot(TrimSpace(e.name)));
    }
    if e.host != "" {
      host := TrimSpace(e.host);
    }
    if e.port != 0 {
      port := e.port;
    }
    if e.tls != "" {
      tls := e.tls;
    }
    var maxQueue, sendLimit, retention, enabled := MergeLimits(e, base);
    d := Domain(name, host, port, tls, maxQueue, sendLimit, retention, enabled);
  }

  method MergeLimits(e: Entry, base: Domain) returns (maxQueue: Option<int>, sendLimit: Option<int>, retention: int, enabled: bool)
    ensures var d := Overridden(base, e);
            maxQueue == d.maxQueue && sendLimit == d.sendLimit && retention == d.retention && enabled == d.enabled
  {
    hide TrimSpace, ToLower, TrimDot;
    maxQueue, sendLimit, retention, enabled := base.maxQueue, base.sendLimit, base.retention, base.enabled;
    if e.retention != 0 {
      retention := e.retention;
    }
    if e.maxQueue.Some? {
      maxQueue := e.maxQueue;
    }
    if e.sendLimit.Some? {
      sendLimit := e.sendLimit;
      if e.sendLimit.value <= 0 {
        sendLimit := None;
      }
    }
    if e.enabled.Some? {
      enabled := e.enabled.value;
    }
  }

  /** The checks of `domainFromRequest` stand between its merging steps; each of them looks at merged fields only. */
  method DomainFromRequest(e: Entry, existing: Option<Domain>, st: Settings) returns (r: Outcome<Domain>)
    ensures r == DomainFrom(e, existing, st)
  {
    hide EqualFold, ValidTls, NameOk, Overridden, Base;
    if e.name != "" && existing.Some? && !EqualFold(e.name, existing.value.name) {
      return Bad(CannotRename);
    }
    var d := MergeFields(e, existing, st);
    if !NameOk(d.name) || d.host == "" {
      return Bad(InvalidDomain);
    }
    if d.port < 1 || d.port > 65535 || !ValidTls(d.tls) || d.retention < 1 || d.retention > 720 {
      return Bad(InvalidDomain);
    }
    if EqualFold(d.host, st.hostname) && st.hostname != "" {
      return Bad(DomainLoop);
    }
    r := Good(d);
  }

  /** `sameDomain`: every field but the name. */
  predicate SameDomain(a: Domain, b: Domain) {
    a.(name := "") == b.(name := "")
  }

  // ----- planning the domains -----

  /** What the plan does for one entry: its name, the row it stands for, the merged fields, and a new list of recipients. */
  datatype Planned = Planned(name: string, row: string, action: Action, domain: Domain, recipients: Option<seq<string>>)

  function NewList(t: Tables, e: Entry, existing: Option<Domain>): Outcome<Option<seq<string>>> {
    match e.recipients
    case None => Good(None)
    case Some(list) =>
      match Valid(EntryName(e), list)
      case None => Bad(InvalidRecipient)
      case Some(want) =>
        var current := if existing.Some? then ListOf(t, existing.value.name) else [];
        Good(if current == want then None else Some(want))
  }

  function ActionFor(existing: Option<Domain>, d: Domain, list: Option<seq<string>>): Action {
    match existing
    case None => Created
    case Some(old_) => if SameDomain(old_, d) && list.None? then Unchanged else Updated
  }

  function PlanEntry(t: Tables, st: Settings, e: Entry): Outcome<Planned> {
    var name := EntryName(e);
    var existing := Find(t, name);
    match DomainFrom(e, existing, st)
    case Bad(why) => Bad(why)
    case Good(d) =>
      match NewList(t, e, existing)
      case Bad(why) => Bad(why)
      case Good(list) =>
        Good(Planned(name, if existing.Some? then existing.value.name else Key(d.name), ActionFor(existing, d, list), d, list))
  }

  function Names(ps: seq<Planned>): set<string> {
    set p | p in ps :: p.name
  }

  function PlanEntries(t: Tables, st: Settings, es: seq<Entry>): Outcome<seq<Planned>> {
    if es == [] then Good([])
    else
      match PlanEntries(t, st, es[..|es| - 1])
      case Bad(why) => Bad(why)
      case Good(ps) =>
        var e := es[|es| - 1];
        if EntryName(e) == "" then Bad(NameMissing)
        else if EntryName(e) in Names(ps) then Bad(ListedTwice)
        else
          match PlanEntry(t, st, e)
          case Bad(why) => Bad(why)
          case Good(p) => Good(ps + [p])
  }

  // ----- planning the accounts -----

  datatype PlannedUser = PlannedUser(username: string, action: Action, account: Account)

  predicate BadName(username: string) {
    ' ' in username || '\t' in username || '\r' in username || '\n' in username
  }

  predicate KnownDomains(t: Tables, incoming: set<string>, allowed: seq<string>) {
    forall i :: 0 <= i < |allowed| ==>
      var name := ToLower(TrimSpace(allowed[i])); name in incoming || Key(name) in t.domains
  }

  function PlanAccount(t: Tables, st: Settings, incoming: set<string>, a: Account): Outcome<PlannedUser> {
    var username := TrimSpace(a.username);
    if !KnownDomains(t, incoming, a.allowed) then Bad(UnknownDomain)
    else if username !in t.users then
      if a.password == "" then Good(PlannedUser(username, Skipped, a))
      else if !st.strong(a.password) then Bad(WeakPassword)
      else Good(PlannedUser(username, Created, a))
    else if a.enabled.Some? && a.enabled.value != t.users[username].enabled then Good(PlannedUser(username, Updated, a))
    else Good(PlannedUser(username, Unchanged, a))
  }

  function UserNames(us: seq<PlannedUser>): set<string> {
    set u | u in us :: u.username
  }

  function PlanAccounts(t: Tables, st: Settings, incoming: set<string>, accounts: seq<Account>): Outcome<seq<PlannedUser>> {
    if accounts == [] then Good([])
    else
      match PlanAccounts(t, st, incoming, accounts[..|accounts| - 1])
      case Bad(why) => Bad(why)
      case Good(us) =>
        var a := accounts[|accounts| - 1];
        var username := TrimSpace(a.username);
        if username == "" then Bad(UsernameMissing)
        else if BadName(username) then Bad(BadUsername)
        else if username in UserNames(us) then Bad(ListedTwice)
        else
          match PlanAccount(t, st, incoming, a)
          case Bad(why) => Bad(why)
          case Good(u) => Good(us + [u])
  }

  // ----- the plan -----

  datatype Changed = Changed(name: string, action: Action)

  datatype Plan = Plan(
    domains: seq<Changed>, users: seq<Changed>,
    createDomains: seq<Domain>, updateDomains: seq<(string, Domain)>, createUsers: seq<Account>,
    enableUsers: map<string, bool>, setRecipients: map<string, seq<string>>)

  const NOTHING := Plan([], [], [], [], [], map[], map[])

  function AddDomain(plan: Plan, p: Planned): Plan {
    var q := plan.(domains := plan.domains + [Changed(p.name, p.action)]);
    var r := if p.recipients.Some? then q.(setRecipients := q.setRecipients[p.name := p.recipients.value]) else q;
    match p.action
    case Created => r.(createDomains := r.createDomains + [p.domain])
    case Updated => r.(updateDomains := r.updateDomains + [(p.row, p.domain)])
    case _ => r
  }

  function AddDomains(plan: Plan, ps: seq<Planned>): Plan {
    if ps == [] then plan else AddDomain(AddDomains(plan, ps[..|ps| - 1]), ps[|ps| - 1])
  }

  function AddUser(plan: Plan, u: PlannedUser): Plan {
    var q := plan.(users := plan.users + [Changed(u.username, u.action)]);
    match u.action
    case Created => q.(createUsers := q.createUsers + [u.account])
    case Updated => q.(enableUsers := q.enableUsers[u.username := u.account.enabled == Some(true)])
    case _ => q
  }

  function AddUsers(plan: Plan, us: seq<PlannedUser>): Plan {
    if us == [] then plan else AddUser(AddUsers(plan, us[..|us| - 1]), us[|us| - 1])
  }

  /** What `ApplyConfigYAML` plans for a document. */
  function PlanOf(t: Tables, st: Settings, doc: Document): Outcome<Plan> {
    if doc.version != 0 && doc.version != 1 then Bad(BadVersion)
    else
      match PlanEntries(t, st, doc.domains)
      case Bad(why) => Bad(why)
      case Good(ps) =>
        match PlanAccounts(t, st, Names(ps), doc.accounts)
        case Bad(why) => Bad(why)
        case Good(us) => Good(AddUsers(AddDomains(NOTHING, ps), us))
  }

  lemma {:induction false} EntriesBad(t: Tables, st: Settings, es: seq<Entry>, n: nat)
    requires n <= |es| && PlanEntries(t, st, es[..n]).Bad?
    ensures PlanEntries(t, st, es) == PlanEntries(t, st, es[..n])
    decreases |es| - n
  {
    hide PlanEntry, EntryName;
    if n == |es| {
      assert es[..n] == es;
    } else {
      assert es[..n + 1][..n] == es[..n];
      EntriesBad(t, st, es, n + 1);
    }
  }

  lemma {:induction false} AccountsBad(t: Tables, st: Settings, incoming: set<string>, accounts: seq<Account>, n: nat)
    requires n <= |accounts| && PlanAccounts(t, st, incoming, accounts[..n]).Bad?
    ensures PlanAccounts(t, st, incoming, accounts) == PlanAccounts(t, st, incoming, accounts[..n])
    decreases |accounts| - n
  {
    hide PlanAccount, TrimSpace;
    if n == |accounts| {
      assert accounts[..n] == accounts;
    } else {
      assert accounts[..n + 1][..n] == accounts[..n];
      AccountsBad(t, st, incoming, accounts, n + 1);
    }
  }

  method PlanOne(t: Tables, st: Settings, e: Entry) returns (r: Outcome<Planned>)
    ensures r == PlanEntry(t, st, e)
  {
    hide DomainFrom, Valid, Key, EntryName, SameDomain;
    var name := EntryName(e);
    var existing := Find(t, name);
    var merged := DomainFromRequest(e, existing, st);
    if merged.Bad? {
      return Bad(merged.why);
    }
    var d := merged.value;
    var change: Option<seq<string>> := None;
    if e.recipients.Some? {
      var list := ValidRecipients(name, e.recipients.value);
      if list.None? {
        return Bad(InvalidRecipient);
      }
      var current := [];
      if existing.Some? {
        current := ListOf(t, existing.value.name);
      }
      if current != list.value {
        change := list;
      }
    }
    if existing.None? {
      return Good(Planned(name, Key(d.name), Created, d, change));
    } else if SameDomain(existing.value, d) && change.None? {
      return Good(Planned(name, existing.value.name, Unchanged, d, change));
    } else {
      return Good(Planned(name, existing.value.name, Updated, d, change));
    }
  }

  lemma EntriesStep(t: Tables, st: Settings, es: seq<Entry>, i: nat)
    requires i < |es| && PlanEntries(t, st, es[..i]).Good?
    ensures var ps, e := PlanEntries(t, st, es[..i]).value, es[i];
            PlanEntries(t, st, es[..i + 1]) ==
            if EntryName(e) == "" then Bad(NameMissing)
            else if EntryName(e) in Names(ps) then Bad(ListedTwice)
            else match PlanEntry(t, st, e) case Bad(why) => Bad(why) case Good(p) => Good(ps + [p])
  {
    hide PlanEntry, EntryName, Names;
    assert es[..i + 1][..i] == es[..i];
  }

  lemma AddDomainsSnoc(plan: Plan, ps: seq<Planned>, p: Planned)
    ensures AddDomains(plan, ps + [p]) == AddDomain(AddDomains(plan, ps), p) && Names(ps + [p]) == Names(ps) + {p.name}
  {
    hide AddDomain;
    assert (ps + [p])[..|ps|] == ps;
  }

  method PlanDomains(t: Tables, st: Settings, es: seq<Entry>) returns (r: Outcome<Plan>, incoming: set<string>)
    ensures var planned := PlanEntries(t, st, es);
            if planned.Bad? then r == Bad(planned.why)
            else r == Good(AddDomains(NOTHING, planned.value)) && incoming == Names(planned.value)
  {
    var plan := NOTHING;
    incoming := {};
    ghost var done: seq<Planned> := [];
    assert PlanEntries(t, st, es[..0]) == Good(done) && AddDomains(NOTHING, done) == plan && Names(done) == {};
    hide PlanEntry, EntryName, AddDomain, PlanEntries, AddDomains, Names;
    for i := 0 to |es|
      invariant PlanEntries(t, st, es[..i]) == Good(done)
      invariant plan == AddDomains(NOTHING, done) && incoming == Names(done)
    {
      EntriesStep(t, st, es, i);
      var name := EntryName(es[i]);
      if name == "" {
        EntriesBad(t, st, es, i + 1);
        return Bad(NameMissing), incoming;
      }
      if name in incoming {
        EntriesBad(t, st, es, i + 1);
        return Bad(ListedTwice), incoming;
      }
      var p := PlanOne(t, st, es[i]);
      if p.Bad? {
        EntriesBad(t, st, es, i + 1);
        return Bad(p.why), incoming;
      }
      PlanEntryName(t, st, es[i]);
      AddDomainsSnoc(NOTHING, done, p.value);
      done := done + [p.value];
      incoming := incoming + {name};
      plan := AddDomain(plan, p.value);
    }
    assert es[..|es|] == es;
    r := Good(plan);
  }

  lemma PlanEntryName(t: Tables, st: Settings, e: Entry)
    ensures PlanEntry(t, st, e).Good? ==> PlanEntry(t, st, e).value.name == EntryName(e)
  {
    hide DomainFrom, NewList, Key, EntryName, ActionFor;
  }

  method PlanUsers(t: Tables, st: Settings, incoming: set<string>, accounts: seq<Account>, start: Plan) returns (r: Outcome<Plan>)
    ensures var planned := PlanAccounts(t, st, incoming, accounts);
            r == if planned.Bad? then Bad(planned.why) else Good(AddUsers(start, planned.value))
  {
    hide PlanAccount, AddUser, TrimSpace, BadName;
    var plan := start;
    var seen: set<string> := {};
    ghost var done: seq<PlannedUser> := [];
    for i := 0 to |accounts|
      invariant PlanAccounts(t, st, incoming, accounts[..i]) == Good(done)
      invariant plan == AddUsers(start, done) && seen == UserNames(done)
    {
      assert accounts[..i + 1][..i] == accounts[..i];
      var username := TrimSpace(accounts[i].username);
      if username == "" {
        AccountsBad(t, st, incoming, accounts, i + 1);
        return Bad(UsernameMissing);
      }
      if BadName(username) {
        AccountsBad(t, st, incoming, accounts, i + 1);
        return Bad(BadUsername);
      }
      if username in seen {
        AccountsBad(t, st, incoming, accounts, i + 1);
        return Bad(ListedTwice);
      }
      var u := PlanAccount(t, st, incoming, accounts[i]);
      if u.Bad? {
        AccountsBad(t, st, incoming, accounts, i + 1);
        return Bad(u.why);
      }
      assert u.value.username == username by { PlanAccountName(t, st, incoming, accounts[i]); }
      assert (done + [u.value])[..|done|] == done;
      done := done + [u.value];
      seen := seen + {username};
      plan := AddUser(plan, u.value);
    }
    assert accounts[..|accounts|] == accounts;
    r := Good(plan);
  }

  method PlanImport(t: Tables, st: Settings, doc: Document) returns (r: Outcome<Plan>)
    ensures r == PlanOf(t, st, doc)
  {
    hide PlanEntries, PlanAccounts, AddUsers, AddDomains, Names;
    if doc.version != 0 && doc.version != 1 {
      return Bad(BadVersion);
    }
    var first, incoming := PlanDomains(t, st, doc.domains);
    if first.Bad? {
      return first;
    }
    r := PlanUsers(t, st, incoming, doc.accounts, first.value);
  }

  lemma PlanAccountName(t: Tables, st: Settings, incoming: set<string>, a: Account)
    ensures PlanAccount(t, st, incoming, a).Good? ==> PlanAccount(t, st, incoming, a).value.username == TrimSpace(a.username)
  {
    hide TrimSpace, KnownDomains;
  }
}
