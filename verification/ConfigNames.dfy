// Names that are not in normal form: such a domain can be created, but its document cannot be imported again.

module ConfigNames {
  import opened Options
  import opened Text
  import opened Recipients
  import opened Config
  import opened ConfigApply
  import opened ConfigLaws

  // ----- a name, its row and its look-up -----

  lemma {:induction false} TrimLeftLower(s: string)
    ensures TrimLeft(ToLower(s)) == ToLower(TrimLeft(s))
  {
    if s != "" && IsSpace(s[0]) {
      TrimLeftLower(s[1..]);
      assert ToLower(s)[1..] == ToLower(s[1..]);
    }
  }

  lemma {:induction false} TrimRightLower(s: string)
    ensures TrimRight(ToLower(s)) == ToLower(TrimRight(s))
  {
    if s != "" && IsSpace(s[|s| - 1]) {
      TrimRightLower(s[..|s| - 1]);
      assert ToLower(s)[..|s| - 1] == ToLower(s[..|s| - 1]);
    }
  }

  lemma TrimLower(s: string)
    ensures TrimSpace(ToLower(s)) == ToLower(TrimSpace(s)) && TrimDot(ToLower(s)) == ToLower(TrimDot(s))
  {
    TrimLeftLower(s);
    TrimRightLower(TrimLeft(s));
    assert s != "" ==> ToLower(s)[..|s| - 1] == ToLower(s[..|s| - 1]);
  }

  /** The name without one trailing dot, as it is merged into the row. */
  function Undotted(e: Entry): string {
    TrimDot(TrimSpace(e.name))
  }

  predicate EndsInDot(s: string) {
    s != "" && s[|s| - 1] == '.'
  }

  lemma LookedUp(e: Entry)
    ensures Key(EntryName(e)) == ToLower(TrimSpace(Undotted(e)))
    ensures Key(ToLower(Undotted(e))) == ToLower(TrimSpace(TrimDot(Undotted(e))))
  {
    var v := TrimSpace(e.name);
    hide TrimSpace, TrimDot, ToLower;
    TrimLower(v);
    TrimLower(TrimDot(v));
    TrimLower(TrimDot(TrimDot(v)));
    LowerTwice(TrimSpace(TrimDot(v)));
    LowerTwice(TrimSpace(TrimDot(TrimDot(v))));
  }

  /** The row is found again under the entry's name, unless the name ends in two dots. */
  lemma FoundAgain(e: Entry)
    ensures Key(EntryName(e)) == Key(ToLower(Undotted(e))) <==> !EndsInDot(Undotted(e))
  {
    LookedUp(e);
    var w := Undotted(e);
    if EndsInDot(w) {
      DottedTrim(e.name);
      TrimmedShort(TrimDot(w));
      hide TrimSpace, ToLower;
      assert |ToLower(TrimSpace(w))| == |w| > |TrimDot(w)|;
      assert |ToLower(TrimSpace(TrimDot(w)))| == |TrimSpace(TrimDot(w))|;
    }
  }

  lemma DottedTrim(s: string)
    requires EndsInDot(TrimDot(TrimSpace(s)))
    ensures TrimSpace(TrimDot(TrimSpace(s))) == TrimDot(TrimSpace(s))
  {
    var v := TrimSpace(s);
    TrimmedResult(s);
    assert Trimmed(TrimDot(v));
    TrimTrimmed(TrimDot(v));
  }

  /** The stored name is the entry's own, up to case, exactly for a name in normal form. */
  lemma SameName(e: Entry)
    ensures EqualFold(e.name, Key(ToLower(Undotted(e)))) <==> Plain(e.name)
  {
    var v := TrimSpace(e.name);
    var w := TrimDot(v);
    LookedUp(e);
    TrimmedShort(e.name);
    TrimmedShort(TrimDot(w));
    if Plain(e.name) {
      TrimTrimmed(e.name);
      LowerTwice(e.name);
    } else {
      assert |TrimSpace(TrimDot(w))| < |e.name|;
      hide TrimSpace, TrimDot, Plain;
      assert |ToLower(e.name)| == |e.name| && |ToLower(ToLower(TrimSpace(TrimDot(w))))| == |TrimSpace(TrimDot(w))|;
    }
  }

  // ----- the second import -----

  function OneEntry(e: Entry): Document {
    Document(1, [e], [])
  }

  /** Tables that hold the row which an entry created, and otherwise the domains it was planned for. */
  ghost predicate HoldsRow(t: Tables, d: Domain, u: Tables) {
    u.domains == t.domains[Key(d.name) := d.(name := Key(d.name))]
  }

  lemma CreatedName(t: Tables, st: Settings, e: Entry)
    requires EntryName(e) != "" && PlanEntry(t, st, e).Good? && PlanEntry(t, st, e).value.action == Created
    ensures var p := PlanEntry(t, st, e).value;
            && Find(t, EntryName(e)) == None && DomainFrom(e, None, st) == Good(p.domain)
            && p.domain.name == ToLower(Undotted(e)) && NewList(t, e, None) == Good(p.recipients)
            && (forall u :: NewList(u, e, None) == NewList(t, e, None))
            && p == Planned(EntryName(e), Key(p.domain.name), Created, p.domain, p.recipients)
  {
    NamedEntry(e);
    hide TrimSpace, TrimDot, ToLower, FieldsOk, Loops, Valid, Key;
  }

  /** Planned again over its own row: refused as a renaming, or planned as new once more when the name ends in two dots. */
  lemma PlannedAgain(t: Tables, st: Settings, e: Entry, u: Tables)
    requires EntryName(e) != "" && PlanEntry(t, st, e).Good? && PlanEntry(t, st, e).value.action == Created
    requires !Plain(e.name) && HoldsRow(t, PlanEntry(t, st, e).value.domain, u)
    ensures PlanEntry(u, st, e) == if EndsInDot(Undotted(e)) then PlanEntry(t, st, e) else Bad(CannotRename)
  {
    CreatedName(t, st, e);
    FoundAgain(e);
    SameName(e);
    NamedEntry(e);
    var p := PlanEntry(t, st, e).value;
    hide TrimSpace, TrimDot, ToLower, Plain, Undotted, EndsInDot, EqualFold, Key, EntryName, DomainFrom, NewList, PlanEntry;
    if EndsInDot(Undotted(e)) {
      assert Find(u, EntryName(e)) == None;
      NotFound(u, st, e);
      NotFound(t, st, e);
    } else {
      var row := p.domain.(name := Key(p.domain.name));
      assert Find(u, EntryName(e)) == Some(row);
      Renamed(u, st, e, row);
    }
  }

  lemma NotFound(t: Tables, st: Settings, e: Entry)
    requires Find(t, EntryName(e)) == None && DomainFrom(e, None, st).Good? && NewList(t, e, None).Good?
    ensures var d := DomainFrom(e, None, st).value;
            PlanEntry(t, st, e) == Good(Planned(EntryName(e), Key(d.name), Created, d, NewList(t, e, None).value))
  {
    hide DomainFrom, NewList, EntryName, Key;
  }

  lemma Renamed(t: Tables, st: Settings, e: Entry, row: Domain)
    requires Find(t, EntryName(e)) == Some(row) && e.name != "" && !EqualFold(e.name, row.name)
    ensures PlanEntry(t, st, e) == Bad(CannotRename)
  {
    hide NewList, EntryName, Key, EqualFold, Overridden, FieldsOk, Loops;
  }

  lemma OnePlan(t: Tables, st: Settings, e: Entry)
    ensures PlanOf(t, st, OneEntry(e)) ==
            if EntryName(e) == "" then Bad(NameMissing)
            else match PlanEntry(t, st, e) case Bad(why) => Bad(why) case Good(p) => Good(AddDomain(NOTHING, p))
  {
    hide PlanEntry, EntryName, AddDomain;
    var es := [e];
    assert es[..0] == [] && es[..1] == es;
    assert PlanEntries(t, st, es[..0]) == Good([]);
    EntriesStep(t, st, es, 0);
    if EntryName(e) != "" && PlanEntry(t, st, e).Good? {
      AddOne(PlanEntry(t, st, e).value);
      assert [] + [PlanEntry(t, st, e).value] == [PlanEntry(t, st, e).value];
    }
  }

  lemma AddOne(p: Planned)
    ensures AddDomains(NOTHING, [p]) == AddDomain(NOTHING, p)
  {
    hide AddDomain;
    assert [p][..0] == [];
  }

  lemma OneCreated(a: Applied, d: Domain)
    ensures CreateAll(a, [d]) == Create(a, d)
  {
    assert [d][..0] == [];
  }

  /** Setting lists leaves the domains alone. */
  lemma {:induction false} ListsKeepDomains(a: Applied, lists: map<string, seq<string>>, order: seq<string>)
    requires forall i :: 0 <= i < |order| ==> order[i] in lists
    ensures SetAll(a, lists, order).t.domains == a.t.domains
  {
    hide Key, Kept;
    if order != [] {
      ListsKeepDomains(a, lists, order[..|order| - 1]);
    }
  }

  lemma SomeKey(order: seq<string>, m: map<string, bool>)
    requires Lists(order, m) && order != []
    ensures m != map[]
  {
    assert order[0] in m;
  }

  lemma CreatedPlanApplied(t: Tables, p: Planned, lists: seq<string>, toggles: seq<string>)
    requires p.action == Created
    requires var plan := AddDomain(NOTHING, p); Lists(lists, plan.setRecipients) && Lists(toggles, plan.enableUsers)
    ensures var r := ApplyOf(t, AddDomain(NOTHING, p), lists, toggles);
            && (r.ok ==> Key(p.domain.name) !in t.domains && HoldsRow(t, p.domain, r.t))
            && (Key(p.domain.name) in t.domains ==> !r.ok)
  {
    var plan := AddDomain(NOTHING, p);
    assert plan.createDomains == [p.domain] && plan.updateDomains == [] && plan.createUsers == [] && plan.enableUsers == map[];
    if toggles != [] {
      SomeKey(toggles, plan.enableUsers);
    }
    var a := Create(Applied(t, true), p.domain);
    OneCreated(Applied(t, true), p.domain);
    ListsKeepDomains(a, plan.setRecipients, lists);
    StoppedStays(a, plan, lists, toggles);
    hide Key, SetAll, AddDomain;
  }

  lemma StillPlain(t: Tables, st: Settings, e: Entry, plan: Plan, lists: seq<string>, toggles: seq<string>, lists2: seq<string>, toggles2: seq<string>)
    requires TablesOk(t) && Plain(e.name) && PlanOf(t, st, OneEntry(e)) == Good(plan)
    requires Lists(lists, plan.setRecipients) && Lists(toggles, plan.enableUsers)
    requires var again := PlanOf(ApplyOf(t, plan, lists, toggles).t, st, OneEntry(e));
             again.Good? ==> Lists(lists2, again.value.setRecipients) && Lists(toggles2, again.value.enableUsers)
    ensures var u := ApplyOf(t, plan, lists, toggles).t;
            PlanOf(u, st, OneEntry(e)).Good? && ApplyOf(u, PlanOf(u, st, OneEntry(e)).value, lists2, toggles2).ok
  {
    assert PlainNames([e]);
    hide TablesOk, PlanOf, Lists, ApplyOf, Plain, DomainsSettled, PlainNames;
    ImportSettlesDomains(t, st, OneEntry(e), plan, lists, toggles);
    var u := ApplyOf(t, plan, lists, toggles).t;
    ImportSettlesDomains(u, st, OneEntry(e), PlanOf(u, st, OneEntry(e)).value, lists2, toggles2);
  }

  /** For every domain an import created: importing its document again succeeds exactly when the name had no space around
      it and no dot at its end. Otherwise it is refused as a renaming, or, when the name ends in two dots, planned as new
      once more and stopped by the name that is taken. */
  lemma SecondImportRefused(t: Tables, st: Settings, e: Entry, plan: Plan, lists: seq<string>, toggles: seq<string>,
                            lists2: seq<string>, toggles2: seq<string>)
    requires TablesOk(t) && PlanOf(t, st, OneEntry(e)) == Good(plan) && plan.createDomains != []
    requires Lists(lists, plan.setRecipients) && Lists(toggles, plan.enableUsers) && ApplyOf(t, plan, lists, toggles).ok
    requires var again := PlanOf(ApplyOf(t, plan, lists, toggles).t, st, OneEntry(e));
             again.Good? ==> Lists(lists2, again.value.setRecipients) && Lists(toggles2, again.value.enableUsers)
    ensures var u := ApplyOf(t, plan, lists, toggles).t;
            var again := PlanOf(u, st, OneEntry(e));
            && (Plain(e.name) <==> again.Good? && ApplyOf(u, again.value, lists2, toggles2).ok)
            && (again.Bad? <==> !Plain(e.name) && !EndsInDot(Undotted(e)))
            && (again.Bad? ==> again.why == CannotRename)
  {
    hide TablesOk, Lists, Plain, ApplyOf, PlanEntry, PlanOf, Undotted, EndsInDot, Key, EntryName;
    OnePlan(t, st, e);
    var p := PlanEntry(t, st, e).value;
    assert p.action == Created;
    CreatedPlanApplied(t, p, lists, toggles);
    var u := ApplyOf(t, plan, lists, toggles).t;
    if Plain(e.name) {
      StillPlain(t, st, e, plan, lists, toggles, lists2, toggles2);
    } else {
      PlannedAgain(t, st, e, u);
      OnePlan(u, st, e);
      if EndsInDot(Undotted(e)) {
        CreatedPlanApplied(u, p, lists2, toggles2);
      }
    }
  }
}
