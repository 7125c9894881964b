// The sealer lists every signed field bottom-up; the validator re-selects fields from the list
// of names, each name taking the last field it has not used. Both arrive at the same fields.

module ArcSelection {
  import opened Options
  import opened Text
  import opened ArcCanon
  import opened ArcTags
  import opened ArcChain
  import opened ArcVerify
  import opened ArcSeal

  // ----- the names the sealer signs -----

  lemma ShortNamesClean(k: nat)
    requires k < 7
    ensures CleanName(SIGNED_HEADERS[k])
  {
    assert k == 0 || k == 1 || k == 2 || k == 3 || k == 4 || k == 5 || k == 6;
  }

  lemma LongNamesClean(k: nat)
    requires 7 <= k < |SIGNED_HEADERS|
    ensures CleanName(SIGNED_HEADERS[k])
  {
    assert k == 7 || k == 8 || k == 9 || k == 10 || k == 11 || k == 12;
  }

  lemma HeaderNamesClean(k: nat)
    requires k < |SIGNED_HEADERS|
    ensures CleanName(SIGNED_HEADERS[k])
  {
    hide CleanName;
    if k < 7 {
      ShortNamesClean(k);
    } else {
      LongNamesClean(k);
    }
  }

  /** Length and first letter, which already tell all the names apart. */
  function Shape(s: string): (nat, char) {
    if s == "" then (0, ' ') else (|s|, Lower(s[0]))
  }

  lemma FoldShape(a: string, b: string)
    requires EqualFold(a, b)
    ensures Shape(a) == Shape(b)
  {
    if a != "" {
      assert ToLower(a)[0] == ToLower(b)[0];
    }
  }

  lemma HeaderShapes()
    ensures forall i, j :: 0 <= i < j < |SIGNED_HEADERS| ==> Shape(SIGNED_HEADERS[i]) != Shape(SIGNED_HEADERS[j])
    ensures forall i :: 0 <= i < |SIGNED_HEADERS| ==>
      Shape(SIGNED_HEADERS[i]) != Shape(AAR) && Shape(SIGNED_HEADERS[i]) != Shape(AMS) && Shape(SIGNED_HEADERS[i]) != Shape(AS)
  {
    var shapes := [(4, 'f'), (2, 't'), (2, 'c'), (7, 's'), (4, 'd'), (10, 'm'), (8, 'r'),
                   (11, 'i'), (10, 'r'), (12, 'm'), (12, 'c'), (25, 'c'), (14, 'd')];
    assert |shapes| == |SIGNED_HEADERS|;
    forall i | 0 <= i < |SIGNED_HEADERS|
      ensures Shape(SIGNED_HEADERS[i]) == shapes[i]
    {
      assert i == 0 || i == 1 || i == 2 || i == 3 || i == 4 || i == 5 || i == 6 || i == 7 || i == 8 || i == 9 || i == 10 || i == 11 || i == 12;
    }
    assert Shape(AAR) == (26, 'a') && Shape(AMS) == (21, 'a') && Shape(AS) == (8, 'a');
  }

  ghost predicate Unlike(names: seq<string>) {
    forall i, j :: 0 <= i < j < |names| ==> Shape(names[i]) != Shape(names[j])
  }

  // ----- selecting one name -----

  predicate IsNamed(fields: seq<Field>, i: int, name: string) {
    0 <= i < |fields| && EqualFold(fields[i].name, name)
  }

  lemma {:induction false} PickIs(fields: seq<Field>, name: string, used: set<nat>, m: nat, i: nat)
    requires i < m <= |fields| && IsNamed(fields, i, name) && i !in used
    requires forall k :: i < k < m && IsNamed(fields, k, name) ==> k in used
    ensures Pick(fields, name, used, m) == i
  {
    if m - 1 > i {
      assert IsNamed(fields, m - 1, name) ==> m - 1 in used;
      PickIs(fields, name, used, m - 1, i);
    }
  }

  ghost function NamedIndices(fields: seq<Field>, name: string, m: nat): set<nat> {
    set i: nat | 0 <= i < m && IsNamed(fields, i, name)
  }

  lemma SelectOne(fields: seq<Field>, name: string, i: nat, used: set<nat>, names: seq<string>)
    requires IsNamed(fields, i, name) && i !in used
    requires forall k :: i < k && IsNamed(fields, k, name) ==> k in used
    ensures Selected(fields, [name] + names, used) == [fields[i]] + Selected(fields, names, used + {i})
  {
    PickIs(fields, name, used, |fields|, i);
    hide EqualFold, Pick, IsNamed;
    assert ([name] + names)[1..] == names;
  }

  lemma NamedIndicesStep(fields: seq<Field>, name: string, m: nat)
    requires 0 < m <= |fields|
    ensures NamedIndices(fields, name, m) ==
            (if IsNamed(fields, m - 1, name) then {m - 1} else {}) + NamedIndices(fields, name, m - 1)
  {
    hide IsNamed;
  }

  lemma SelectRunStep(fields: seq<Field>, name: string, i: nat, used: set<nat>, rest: seq<string>, more: seq<Field>, taken: set<nat>)
    requires i < |fields|
    requires forall names :: Selected(fields, [name] + names, used) == [fields[i]] + Selected(fields, names, used + {i})
    requires Selected(fields, Repeat(name, |more|) + rest, used + {i}) == more + Selected(fields, rest, used + {i} + taken)
    ensures Selected(fields, Repeat(name, |more| + 1) + rest, used) ==
            [fields[i]] + more + Selected(fields, rest, used + ({i} + taken))
  {
    hide Selected;
    assert Repeat(name, |more| + 1) + rest == [name] + (Repeat(name, |more|) + rest);
    assert used + {i} + taken == used + ({i} + taken);
  }

  lemma NamedStep(fields: seq<Field>, name: string, m: nat)
    requires m < |fields|
    ensures Named(fields, name, m + 1) == if IsNamed(fields, m, name) then [fields[m]] + Named(fields, name, m) else Named(fields, name, m)
  {
    hide EqualFold;
  }

  lemma SelectNone(fields: seq<Field>, name: string, used: set<nat>, rest: seq<string>)
    ensures Named(fields, name, 0) == [] && used + NamedIndices(fields, name, 0) == used && Repeat(name, 0) + rest == rest
  {
  }

  /** Listing a name as often as a field carries it selects those fields, last one first. */
  lemma {:induction false} SelectRun(fields: seq<Field>, name: string, m: nat, used: set<nat>, rest: seq<string>)
    requires m <= |fields|
    requires forall i :: 0 <= i < m && IsNamed(fields, i, name) ==> i !in used
    requires forall i :: m <= i && IsNamed(fields, i, name) ==> i in used
    ensures Selected(fields, Repeat(name, |Named(fields, name, m)|) + rest, used) ==
            Named(fields, name, m) + Selected(fields, rest, used + NamedIndices(fields, name, m))
    decreases m
  {
    hide Selected, NamedIndices, Named, Repeat;
    if m == 0 {
      SelectNone(fields, name, used, rest);
      assert [] + Selected(fields, rest, used) == Selected(fields, rest, used);
    } else {
      NamedIndicesStep(fields, name, m);
      NamedStep(fields, name, m - 1);
      if IsNamed(fields, m - 1, name) {
        SelectRun(fields, name, m - 1, used + {m - 1}, rest);
        forall names
          ensures Selected(fields, [name] + names, used) == [fields[m - 1]] + Selected(fields, names, used + {m - 1})
        {
          SelectOne(fields, name, m - 1, used, names);
        }
        SelectRunStep(fields, name, m - 1, used, rest, Named(fields, name, m - 1), NamedIndices(fields, name, m - 1));
      } else {
        assert {} + NamedIndices(fields, name, m - 1) == NamedIndices(fields, name, m - 1);
        SelectRun(fields, name, m - 1, used, rest);
      }
    }
  }

  // ----- selecting all names -----

  ghost function UsedBy(fields: seq<Field>, names: seq<string>): set<nat> {
    set i: nat, k: nat | 0 <= k < |names| && 0 <= i < |fields| && IsNamed(fields, i, names[k]) :: i
  }

  lemma UsedBySnoc(fields: seq<Field>, names: seq<string>)
    requires names != []
    ensures UsedBy(fields, names) ==
            UsedBy(fields, names[..|names| - 1]) + NamedIndices(fields, names[|names| - 1], |fields|)
  {
    var init, last := names[..|names| - 1], names[|names| - 1];
    forall i | i in UsedBy(fields, names)
      ensures i in UsedBy(fields, init) + NamedIndices(fields, last, |fields|)
    {
      var k: nat :| 0 <= k < |names| && 0 <= i < |fields| && IsNamed(fields, i, names[k]);
      if k < |init| {
        assert names[k] == init[k];
      }
    }
    forall i | i in UsedBy(fields, init)
      ensures i in UsedBy(fields, names)
    {
      var k: nat :| 0 <= k < |init| && 0 <= i < |fields| && IsNamed(fields, i, init[k]);
      assert names[k] == init[k];
    }
  }

  lemma UnusedName(fields: seq<Field>, names: seq<string>, i: nat)
    requires Unlike(names) && names != [] && IsNamed(fields, i, names[|names| - 1])
    ensures i !in UsedBy(fields, names[..|names| - 1])
  {
    var init := names[..|names| - 1];
    FoldShape(fields[i].name, names[|names| - 1]);
    forall k: nat | k < |init|
      ensures !IsNamed(fields, i, init[k])
    {
      assert init[k] == names[k] && Shape(names[k]) != Shape(names[|names| - 1]);
      if IsNamed(fields, i, init[k]) {
        FoldShape(fields[i].name, init[k]);
      }
    }
  }

  lemma {:induction false} SelectListed(fields: seq<Field>, names: seq<string>, rest: seq<string>)
    requires Unlike(names)
    ensures Selected(fields, ListedNames(fields, names) + rest, {}) ==
            SignedFields(fields, names) + Selected(fields, rest, UsedBy(fields, names))
    decreases |names|
  {
    if names == [] {
      assert UsedBy(fields, []) == {};
      assert ListedNames(fields, []) + rest == rest;
    } else {
      var init, last := names[..|names| - 1], names[|names| - 1];
      var run := Repeat(last, |Named(fields, last, |fields|)|);
      forall i: nat | IsNamed(fields, i, last)
        ensures i !in UsedBy(fields, init)
      {
        UnusedName(fields, names, i);
      }
      hide IsNamed, Selected, UsedBy, Named, Shape;
      assert ListedNames(fields, names) + rest == ListedNames(fields, init) + (run + rest);
      SelectListed(fields, init, run + rest);
      assert forall i :: IsNamed(fields, i, last) ==> i < |fields| by { NamedInRange(fields, last); }
      SelectRun(fields, last, |fields|, UsedBy(fields, init), rest);
      UsedBySnoc(fields, names);
    }
  }

  lemma NamedInRange(fields: seq<Field>, name: string)
    ensures forall i :: IsNamed(fields, i, name) ==> 0 <= i < |fields|
  {
  }

  // ----- new fields in front -----

  ghost predicate NoneNamed(front: seq<Field>, name: string) {
    forall i :: !IsNamed(front, i, name)
  }

  lemma {:induction false} NamedBehind(front: seq<Field>, fields: seq<Field>, name: string, m: nat)
    requires m <= |fields| && NoneNamed(front, name)
    ensures Named(front + fields, name, |front| + m) == Named(fields, name, m)
    decreases m
  {
    if m == 0 {
      NamedNone(front, fields, name, |front|);
    } else {
      assert (front + fields)[|front| + m - 1] == fields[m - 1];
      NamedBehind(front, fields, name, m - 1);
    }
  }

  lemma {:induction false} NamedNone(front: seq<Field>, fields: seq<Field>, name: string, m: nat)
    requires m <= |front| && NoneNamed(front, name)
    ensures Named(front + fields, name, m) == []
  {
    if m > 0 {
      assert !IsNamed(front, m - 1, name);
      NamedNone(front, fields, name, m - 1);
    }
  }

  lemma {:induction false} SignedBehind(front: seq<Field>, fields: seq<Field>, names: seq<string>)
    requires forall k :: 0 <= k < |names| ==> NoneNamed(front, names[k])
    ensures SignedFields(front + fields, names) == SignedFields(fields, names)
    ensures ListedNames(front + fields, names) == ListedNames(fields, names)
    decreases |names|
  {
    if names != [] {
      SignedBehind(front, fields, names[..|names| - 1]);
      NamedBehind(front, fields, names[|names| - 1], |fields|);
    }
  }

  lemma FrontUnsigned(s: ArcSet, k: nat)
    requires s.aar.name == AAR && s.ams.name == AMS && s.sl.name == AS && k < |SIGNED_HEADERS|
    ensures NoneNamed(Front(s), SIGNED_HEADERS[k])
  {
    HeaderShapes();
    forall i
      ensures !IsNamed(Front(s), i, SIGNED_HEADERS[k])
    {
      if IsNamed(Front(s), i, SIGNED_HEADERS[k]) {
        FoldShape(Front(s)[i].name, SIGNED_HEADERS[k]);
      }
    }
  }

  /** The validator selects, from the sealed message, exactly the fields the sealer signed. */
  lemma SelectionAgrees(s: ArcSet, fields: seq<Field>)
    requires s.aar.name == AAR && s.ams.name == AMS && s.sl.name == AS
    ensures Selected(Front(s) + fields, ListedNames(fields, SIGNED_HEADERS), {}) == SignedFields(fields, SIGNED_HEADERS)
  {
    var all, names := Front(s) + fields, SIGNED_HEADERS;
    forall k | 0 <= k < |names|
      ensures NoneNamed(Front(s), names[k])
    {
      FrontUnsigned(s, k);
    }
    HeaderShapes();
    hide Front, NoneNamed, Shape, SignedFields, ListedNames, UsedBy;
    SignedBehind(Front(s), fields, names);
    SelectListed(all, names, []);
    assert ListedNames(all, names) + [] == ListedNames(all, names);
    assert Selected(all, [], UsedBy(all, names)) == [];
  }

  // ----- the list of names as one tag value -----

  ghost predicate CleanNames(names: seq<string>) {
    forall i :: 0 <= i < |names| ==> CleanName(names[i])
  }

  lemma {:induction false} ListedClean(fields: seq<Field>, names: seq<string>)
    requires CleanNames(names)
    ensures CleanNames(ListedNames(fields, names))
    decreases |names|
  {
    if names != [] {
      hide CleanName, Named;
      ListedClean(fields, names[..|names| - 1]);
    }
  }

  /** No byte of it is a space or a semicolon. */
  predicate CleanText(s: string) {
    forall i :: 0 <= i < |s| ==> !IsSpace(s[i]) && s[i] != ';'
  }

  lemma {:induction false} JoinClean(names: seq<string>)
    requires CleanNames(names)
    ensures CleanText(Join(names, ":"))
    ensures names != [] ==> Join(names, ":") != ""
  {
    if |names| > 0 {
      assert CleanName(names[0]);
      JoinClean(names[1..]);
    }
  }

  lemma {:induction false} SplitJoined(names: seq<string>)
    requires CleanNames(names) && names != []
    ensures Split(Join(names, ":"), ':') == names
    decreases |names|, 1
  {
    assert CleanName(names[0]);
    assert ':' !in names[0];
    hide CleanName, CleanNames;
    if |names| == 1 {
      SplitWhole(names[0], ':');
    } else {
      SplitJoinedRest(names);
    }
  }

  lemma SplitJoinedRest(names: seq<string>)
    requires |names| > 1 && CleanNames(names) && ':' !in names[0]
    ensures Split(Join(names, ":"), ':') == names
    decreases |names|, 0
  {
    SplitJoined(names[1..]);
    var rest := Join(names[1..], ":");
    assert Join(names, ":") == names[0] + [':'] + rest;
    hide CleanNames, Split, Join;
    SplitCons(names[0], rest, ':');
  }

  lemma CleanTextValue(s: string)
    requires CleanText(s)
    ensures CleanValue(s) && RemoveSpaces(s) == s
  {
    RemoveSpacesNone(s);
  }
}
