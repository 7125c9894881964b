// What the seals add to a pass: a newest seal made by this sealer vouches for its own results and
// signature fields and for every earlier set, line by line.

module ArcSealSound {
  import opened Options
  import opened Text
  import opened ArcCanon
  import opened ArcTags
  import opened ArcChain
  import opened ArcVerify
  import opened ArcSeal
  import opened ArcSelection
  import opened ArcRoundTrip
  import opened ArcDecoding
  import opened ArcSoundness
  import opened ArcPassSound

  /** The three lines of a set as a seal covers them. */
  ghost predicate SameLines(a: ArcSet, b: ArcSet) {
    Canon(a.aar, true) == Canon(b.aar, true) && Canon(a.ams, true) == Canon(b.ams, true) && Canon(a.sl, true) == Canon(b.sl, true)
  }

  /** The set whose seal the run asks to be signed, the seal still without signature. */
  ghost function SetAsked(c: Crypto, run: SealRun, amsSig: string): ArcSet {
    var n := |RunSets(run)| + 1;
    ArcSet(ResultsField(n, OrElse(run.authserv, run.s.domain), OrElse(run.results, "none")),
           SignedField(AMS, RunAmsTags(c, run), amsSig),
           SignedField(AS, SealTags(run.s, n, run.t, SealedCV(RunSets(run), run.cv)), ""))
  }

  /** The run sealed these sets: the earlier ones are those it found, the last one has the results and the signature
      that it added, and the seal it made but for the value of the signature. */
  ghost predicate SealedChain(c: Crypto, run: SealRun, sets: seq<ArcSet>) {
    && |sets| == |RunSets(run)| + 1
    && (forall i :: 0 <= i < |RunSets(run)| ==> SameLines(sets[i], RunSets(run)[i]))
    && exists amsSig ::
         && Sign(c, run.s, NewAmsInput(RunMessage(run), RunAmsTags(c, run))) == Some(amsSig)
         && var last, asked := sets[|sets| - 1], SetAsked(c, run, amsSig);
            && Canon(last.aar, true) == Canon(asked.aar, true) && Canon(last.ams, true) == Canon(asked.ams, true)
            && Canon(StripSignature(last.sl), true) == Canon(StripSignature(asked.sl), true)
  }

  // ----- the lines of a seal input -----

  /** The fields in front of the last line of what a seal covers. */
  function Covered(sets: seq<ArcSet>): seq<Field>
    requires sets != []
  {
    var last := sets[|sets| - 1];
    SetFields(sets[..|sets| - 1]) + [last.aar, last.ams]
  }

  lemma {:induction false} SetFieldsAt(sets: seq<ArcSet>, i: nat)
    ensures |SetFields(sets)| == 3 * |sets|
    ensures i < |sets| ==>
              && SetFields(sets)[3 * i] == sets[i].aar && SetFields(sets)[3 * i + 1] == sets[i].ams
              && SetFields(sets)[3 * i + 2] == sets[i].sl
    decreases |sets|
  {
    if sets != [] {
      SetFieldsAt(sets[..|sets| - 1], i);
    }
  }

  lemma CanonAt(a: seq<Field>, b: seq<Field>, i: nat)
    requires CanonList(a) == CanonList(b) && i < |a|
    ensures |a| == |b| && Canon(a[i], true) == Canon(b[i], true)
  {
    hide Canon;
    assert |CanonList(a)| == |a| && |CanonList(b)| == |b|;
    assert CanonList(a)[i] == Canon(a[i], true) && CanonList(b)[i] == Canon(b[i], true);
  }

  lemma SameSets(a: seq<ArcSet>, b: seq<ArcSet>, i: nat)
    requires a != [] && b != [] && CanonList(Covered(a)) == CanonList(Covered(b))
    ensures |a| == |b|
    ensures i < |a| - 1 ==> SameLines(a[i], b[i])
    ensures Canon(a[|a| - 1].aar, true) == Canon(b[|b| - 1].aar, true) && Canon(a[|a| - 1].ams, true) == Canon(b[|b| - 1].ams, true)
  {
    hide Canon;
    var x, y := Covered(a), Covered(b);
    var p, q := a[..|a| - 1], b[..|b| - 1];
    SetFieldsAt(p, i);
    SetFieldsAt(q, i);
    hide SetFields;
    assert |x| == 3 * |p| + 2 && |y| == 3 * |q| + 2;
    CanonAt(x, y, |x| - 2);
    CanonAt(x, y, |x| - 1);
    if i < |p| {
      CanonAt(x, y, 3 * i);
      CanonAt(x, y, 3 * i + 1);
      CanonAt(x, y, 3 * i + 2);
    }
  }

  // ----- splitting what was verified -----

  lemma LinesSplit(had: seq<Field>, h: Field, signed: seq<Field>, g: Field)
    requires AllNamed(had) && NamedBy(h) && AllNamed(signed) && NamedBy(g)
    requires HeaderStream(had, true) + Canon(h, true) == HeaderStream(signed, true) + Canon(g, true)
    ensures CanonList(had) == CanonList(signed) && Canon(h, true) == Canon(g, true)
  {
    hide Canon, NamedBy, HeaderStream, PlainLine, CanonList, OneLiners;
    NamedLine(h);
    NamedLine(g);
    PlainLineEnds(Canon(h, true));
    PlainLineEnds(Canon(g, true));
    StreamEndsLine(had, true);
    StreamEndsLine(signed, true);
    LastLineUnique(HeaderStream(had, true), Canon(h, true), HeaderStream(signed, true), Canon(g, true));
    NamedOneLiners(had);
    NamedOneLiners(signed);
    StreamUnique(had, signed);
  }

  lemma SameName(h: Field, g: Field)
    requires NamedBy(h) && NamedBy(g) && Canon(h, true) == Canon(g, true)
    ensures EqualFold(h.name, g.name)
  {
    var a :| CleanName(a) && EqualFold(h.name, a);
    var b :| CleanName(b) && EqualFold(g.name, b);
    hide Canon, CanonValue, Value, CleanName, ToLower;
    CanonOfNamed(h, a);
    CanonOfNamed(g, b);
    ColonUnique(ToLower(a), CanonValue(Value(h)), ToLower(b), CanonValue(Value(g)));
  }

  lemma CoveredNamed(fields: seq<Field>, sets: seq<ArcSet>)
    requires HoldsAll(fields, sets) && sets != []
    ensures AllNamed(Covered(sets)) && NamedBy(StripSignature(sets[|sets| - 1].sl))
    ensures EqualFold(StripSignature(sets[|sets| - 1].sl).name, AS)
    ensures SealInputOf(sets) == HeaderStream(Covered(sets), true) + Canon(StripSignature(sets[|sets| - 1].sl), true)
  {
    hide SetFields, HoldsSet, Canon, HeaderStream, SealInputOf, EqualFold, NamedBy;
    forall i | 0 <= i < |sets|
      ensures SetNamed(sets[i])
    {
      HoldsNamed(fields, sets[i], i + 1);
    }
    var init, s := sets[..|sets| - 1], sets[|sets| - 1];
    HoldsNamed(fields, s, |sets| - 1 + 1);
    SetFieldsNamed(init);
    assert init + [s] == sets;
    SealInputStream(init, s);
    AllNamedJoin(SetFields(init), s.aar, s.ams);
    StrippedName(s.sl);
  }

  lemma StrippedName(f: Field)
    ensures StripSignature(f).name == f.name && (NamedBy(f) ==> NamedBy(StripSignature(f)))
  {
    hide CleanName, StripValue, EqualFold;
  }

  lemma SealIsNotAms(f: Field)
    requires EqualFold(f.name, AS)
    ensures !EqualFold(f.name, AMS)
  {
    AmsClean();
    if EqualFold(f.name, AMS) {
      FoldedLength(f.name, AS, f.name);
      FoldedLength(f.name, AMS, f.name);
    }
  }

  lemma AskedCovered(c: Crypto, run: SealRun, x: string) returns (amsSig: string, all: seq<ArcSet>)
    requires SealSigned(c, run, x) && ChainOf(RunMessage(run).fields).Some?
    ensures Sign(c, run.s, NewAmsInput(RunMessage(run), RunAmsTags(c, run))) == Some(amsSig)
    ensures all == RunSets(run) + [SetAsked(c, run, amsSig)]
    ensures x == HeaderStream(Covered(all), true) + Canon(StripSignature(all[|all| - 1].sl), true)
    ensures AllNamed(Covered(all)) && NamedBy(StripSignature(all[|all| - 1].sl))
  {
    hide NewAmsInput, RunAmsTags, SealTags, SealedCV, OrElse, Sign, SealInputOf, SignedField, ResultsField, RunMessage, ChainOf;
    hide HeaderStream, Canon, StripSignature, SetFields, NamedBy, AllNamed;
    amsSig :| Sign(c, run.s, NewAmsInput(RunMessage(run), RunAmsTags(c, run))) == Some(amsSig)
      && x == SealInputOf(RunSets(run) + [SetAsked(c, run, amsSig)]);
    var asked := SetAsked(c, run, amsSig);
    all := RunSets(run) + [asked];
    assert all[..|all| - 1] == RunSets(run);
    ChainNamed(RunMessage(run).fields);
    ResultsNamed(|RunSets(run)| + 1, OrElse(run.authserv, run.s.domain), OrElse(run.results, "none"));
    SignedFieldNamed(AMS, RunAmsTags(c, run), amsSig);
    NamedField(AS, SealTags(run.s, |RunSets(run)| + 1, run.t, SealedCV(RunSets(run), run.cv)));
    SealInputStream(RunSets(run), asked);
    AllNamedJoin(SetFields(RunSets(run)), asked.aar, asked.ams);
  }

  // ----- the theorem -----

  lemma NotAmsSigned(c: Crypto, run: SealRun, fields: seq<Field>, sets: seq<ArcSet>, x: string)
    requires HoldsAll(fields, sets) && sets != [] && x == SealInputOf(sets)
    ensures !AmsSigned(c, run, x)
  {
    hide HoldsAll, Covered, SealInputOf, HeaderStream, Canon, StripSignature, NamedBy, AllNamed, AmsSigned, IsRunAms, EqualFold, CanonList;
    CoveredNamed(fields, sets);
    var h := StripSignature(sets[|sets| - 1].sl);
    if AmsSigned(c, run, x) {
      var signed, g := AmsShape(c, run, x);
      LinesSplit(Covered(sets), h, signed, g);
      SameName(h, g);
      SealIsNotAms(h);
    }
  }

  lemma NotElsewhereSealed(fields: seq<Field>, sets: seq<ArcSet>, x: string)
    requires HoldsAll(fields, sets) && sets != [] && x == SealInputOf(sets)
    ensures !SignedElsewhere(x)
  {
    hide HoldsAll, Covered, SealInputOf, HeaderStream, Canon, StripSignature, NamedBy, AllNamed, ToLower, CanonList;
    CoveredNamed(fields, sets);
    var h := StripSignature(sets[|sets| - 1].sl);
    if SignedElsewhere(x) {
      var signed, g :| x == HeaderStream(signed, true) + Canon(g, true) && AllNamed(signed) && NamedBy(g)
        && !EqualFold(g.name, AMS) && !EqualFold(g.name, AS);
      LinesSplit(Covered(sets), h, signed, g);
      SameName(h, g);
    }
  }

  lemma SealCovers(c: Crypto, run: SealRun, fields: seq<Field>, sets: seq<ArcSet>, x: string)
    requires HoldsAll(fields, sets) && sets != [] && x == SealInputOf(sets)
    requires SignedIn(c, run, x)
    ensures SealedChain(c, run, sets)
  {
    hide HoldsAll, Covered, SealInputOf, HeaderStream, Canon, StripSignature, NamedBy, AllNamed, AmsSigned, SealSigned, EqualFold, CanonList;
    hide RunMessage, ChainOf, RunSets, SetAsked, SameLines, NewAmsInput, RunAmsTags, Sign;
    NotAmsSigned(c, run, fields, sets, x);
    CoveredNamed(fields, sets);
    var amsSig, all := AskedCovered(c, run, x);
    LinesSplit(Covered(sets), StripSignature(sets[|sets| - 1].sl), Covered(all), StripSignature(all[|all| - 1].sl));
    SameSets(sets, all, 0);
    forall i | 0 <= i < |RunSets(run)|
      ensures SameLines(sets[i], RunSets(run)[i])
    {
      SameSets(sets, all, i);
      assert all[i] == RunSets(run)[i];
    }
    assert all[|all| - 1] == SetAsked(c, run, amsSig);
  }

  ghost function ChainSets(raw: string): seq<ArcSet> {
    match ChainOf(MessageOf(Normalized(raw)).fields)
    case None => []
    case Some(sets) => sets
  }

  /** The tags of a seal. */
  function SealTagsOf(s: ArcSet): Tags {
    match TagsOf(Value(s.sl))
    case None => map[]
    case Some(tags) => tags
  }

  lemma {:induction false} EverySealChecks(c: Crypto, sets: seq<ArcSet>, k: nat)
    requires LastSealProblem(c, sets) == None && 1 <= k <= |sets|
    ensures SealProblem(c, sets[..k]) == None
    decreases |sets|
  {
    hide SealProblem;
    if k < |sets| {
      EverySealChecks(c, sets[..|sets| - 1], k);
      assert sets[..|sets| - 1][..k] == sets[..k];
    } else {
      assert sets[..k] == sets;
    }
  }

  lemma SealChecked(c: Crypto, sets: seq<ArcSet>) returns (sig: string)
    requires sets != [] && SealProblem(c, sets) == None
    ensures var key := SigKey(c, SealTagsOf(sets[|sets| - 1])); key.Some? && c.verifies(key.value, c.hash(SealInputOf(sets)), sig)
  {
    hide SignatureProblem, SealInputOf, TagsOf, Value, TagOf, MissingOf, SigKey;
    sig := SignatureChecked(c, SealTagsOf(sets[|sets| - 1]), SealInputOf(sets));
  }

  lemma PassSeals(c: Crypto, raw: string, n: nat)
    requires VerdictOf(c, raw) == Pass(n)
    ensures var sets := ChainSets(raw);
            |sets| == n && n > 0 && HoldsAll(MessageOf(Normalized(raw)).fields, sets) && LastSealProblem(c, sets) == None
  {
    hide AmsProblem, LastSealProblem, FirstCVProblem, LatestCV, MessageOf, Normalized, HoldsAll;
  }

  lemma HeldPrefix(fields: seq<Field>, sets: seq<ArcSet>, k: nat)
    requires HoldsAll(fields, sets) && k <= |sets|
    ensures HoldsAll(fields, sets[..k])
  {
    hide HoldsSet;
  }

  /** The seals of a pass are sound: each of them that was made with this key covers the sets up to its own, line by line,
      as a run of the sealer had them. */
  lemma SealsAreSound(c: Crypto, key: Key, runs: seq<SealRun>, raw: string, n: nat, k: nat)
    requires CollisionFree(c) && Unforgeable(c, key, runs)
    requires VerdictOf(c, raw) == Pass(n) && 1 <= k <= n
    requires k <= |ChainSets(raw)| && SigKey(c, SealTagsOf(ChainSets(raw)[k - 1])) == Some(key)
    ensures exists run :: run in runs && SealedChain(c, run, ChainSets(raw)[..k])
  {
    PassSeals(c, raw, n);
    hide VerdictOf, ChainSets, MessageOf, Normalized, HoldsAll, Unforgeable, SealTagsOf, SigKey, SealProblem, SealInputOf, SignedIn, SealedChain, SignedElsewhere;
    var fields, all, sets := MessageOf(Normalized(raw)).fields, ChainSets(raw), ChainSets(raw)[..k];
    EverySealChecks(c, all, k);
    HeldPrefix(fields, all, k);
    assert sets[|sets| - 1] == all[k - 1];
    var sig := SealChecked(c, sets);
    NotElsewhereSealed(fields, sets, SealInputOf(sets));
    assert !exists x :: SignedElsewhere(x) && c.hash(x) == c.hash(SealInputOf(sets));
    var run, x := MadeInRun(c, key, runs, c.hash(SealInputOf(sets)), sig);
    SealCovers(c, run, fields, sets, x);
  }
}
