// Sealing then validating passes: the validator's view of a sealed message, tag by tag,
// and the theorem for a first seal and for the extension of a validated chain.

module ArcRoundTrip {
  import opened Options
  import opened Text
  import opened ArcCanon
  import opened ArcCanonLaws
  import opened ArcTags
  import opened ArcChain
  import opened ArcVerify
  import opened ArcSeal
  import opened ArcFraming
  import opened ArcSelection

  // ----- what is assumed of the foreign functions -----

  /** base64 decodes what it encodes and writes neither spaces nor semicolons; digests are not empty. */
  ghost predicate EncodingLaws(c: Crypto) {
    && (forall x :: c.decode(c.encode(x)) == Some(x))
    && (forall x :: CleanText(c.encode(x)) && (x != "" ==> c.encode(x) != ""))
    && (forall x :: c.hash(x) != "")
  }

  /** The key at the sealer's selector and domain is of the sealer's type and accepts its signatures. */
  ghost predicate KeyPublished(c: Crypto, s: Sealer) {
    var key := c.lookup(KeyName(s.selector, s.domain));
    && key.Some?
    && key.value.Ed25519Key? == s.ed25519
    && forall d :: s.sign(d).Some? ==> s.sign(d).value != "" && c.verifies(key.value, d, s.sign(d).value)
  }

  predicate NamedSealer(s: Sealer) {
    CleanValue(s.domain) && s.domain != "" && CleanValue(s.selector) && s.selector != ""
  }

  // ----- decimal numbers and algorithm names as tag values -----

  lemma DecimalClean(n: nat)
    ensures CleanText(Decimal(n)) && CleanValue(Decimal(n))
  {
    CleanTextValue(Decimal(n));
  }

  lemma FormatIntClean(t: int)
    ensures CleanValue(FormatInt(t))
  {
    assert CleanText(FormatInt(t));
    CleanTextValue(FormatInt(t));
  }

  /** Lower-case letters, digits and signs: clean, and unchanged by `ToLower`. */
  predicate LowerText(s: string) {
    forall i :: 0 <= i < |s| ==> 33 <= s[i] as int <= 122 && s[i] != ';' && Lower(s[i]) == s[i]
  }

  lemma LowerTextClean(s: string)
    requires LowerText(s)
    ensures CleanText(s) && CleanValue(s) && ToLower(s) == s
  {
    CleanTextValue(s);
  }

  lemma Literals()
    ensures LowerText(RSA_SHA256) && LowerText(ED25519_SHA256)
    ensures |RSA_SHA256| == 10 && |ED25519_SHA256| == 14
  {
  }

  lemma RelaxedLiteral()
    ensures LowerText("relaxed/relaxed")
  {
  }

  lemma AlgorithmClean(s: Sealer)
    ensures CleanValue(Algorithm(s)) && ToLower(Algorithm(s)) == Algorithm(s) && |Algorithm(s)| >= 10
    ensures RSA_SHA256 != ED25519_SHA256
  {
    Literals();
    hide LowerText, CleanText, CleanValue, ToLower;
    LowerTextClean(Algorithm(s));
  }

  // ----- a signed field read back -----

  lemma SignedFieldRead(name: string, tags: seq<Tag>, sig: string)
    requires PlainName(name) && CleanTags(tags + [Tag("b", sig)]) && CleanValue(sig)
    ensures LineField(SignedField(name, tags, sig))
    ensures TagsOf(Value(SignedField(name, tags, sig))) == Some(TagMap(tags + [Tag("b", sig)]))
  {
    var all := tags + [Tag("b", sig)];
    hide TagsOf, Render, LineField, TagMap, PlainName;
    RenderOneLine(all);
    WrittenField(name, Render(all));
    ParseRendered(all);
  }

  lemma SignedFieldStripped(name: string, tags: seq<Tag>, sig: string)
    requires PlainName(name) && CleanTags(tags + [Tag("b", sig)]) && CleanValue(sig)
    ensures StripSignature(SignedField(name, tags, sig)) == SignedField(name, tags, "")
  {
    var all := tags + [Tag("b", sig)];
    forall i | 0 <= i < |tags|
      ensures CleanTag(tags[i]) && tags[i].name != "b"
    {
      assert all[i] == tags[i] && all[|tags|] == Tag("b", sig);
    }
    StripRendered(tags, sig);
    hide Render, CleanTags, CleanTag, PlainName;
    StripWritten(name, Render(all), Render(tags + [Tag("b", "")]));
  }

  lemma StripWritten(name: string, value: string, stripped: string)
    requires PlainName(name) && StripValue(" " + value) == " " + stripped
    ensures StripSignature(NewField(name, value)) == NewField(name, stripped)
  {
    var f := NewField(name, value);
    WrittenValue(name, value);
    hide StripValue, IndexByte, PlainName;
    ColonSpace(name, stripped);
  }

  lemma StrippedTwice(name: string, tags: seq<Tag>, sig: string)
    requires PlainName(name) && CleanTags(tags + [Tag("b", sig)]) && CleanValue(sig)
    ensures StripSignature(SignedField(name, tags, "")) == SignedField(name, tags, "")
  {
    var all, bare := tags + [Tag("b", sig)], tags + [Tag("b", "")];
    assert CleanValue("");
    assert CleanTags(bare) by {
      assert forall i :: 0 <= i < |tags| ==> bare[i] == all[i];
      assert bare[|tags|].name == all[|tags|].name;
      assert CleanTag(all[|tags|]);
    }
    SignedFieldStripped(name, tags, "");
  }

  // ----- the tags of a seal -----

  lemma SealTagsClean(s: Sealer, n: nat, t: int, cv: string, sig: string)
    requires NamedSealer(s) && CleanValue(cv) && CleanValue(sig)
    ensures CleanTags(SealTags(s, n, t, cv) + [Tag("b", sig)])
  {
    DecimalClean(n);
    FormatIntClean(t);
    AlgorithmClean(s);
    hide CleanValue, Algorithm, Decimal, FormatInt;
    var all := SealTags(s, n, t, cv) + [Tag("b", sig)];
    forall i | 0 <= i < |all|
      ensures CleanTag(all[i])
    {
      assert i == 0 || i == 1 || i == 2 || i == 3 || i == 4 || i == 5 || i == 6;
    }
    SealNamesDistinct(all);
  }

  lemma SealNamesDistinct(all: seq<Tag>)
    requires |all| == 7 && all[0].name == "i" && all[1].name == "a" && all[2].name == "cv"
    requires all[3].name == "d" && all[4].name == "s" && all[5].name == "t" && all[6].name == "b"
    ensures DistinctNames(all)
  {
  }

  lemma SealTagValues(s: Sealer, n: nat, t: int, cv: string, sig: string)
    requires NamedSealer(s) && CleanValue(cv) && CleanValue(sig)
    ensures var m := TagMap(SealTags(s, n, t, cv) + [Tag("b", sig)]);
            && TagOf(m, "i") == Decimal(n) && TagOf(m, "a") == Algorithm(s) && TagOf(m, "cv") == cv
            && TagOf(m, "d") == s.domain && TagOf(m, "s") == s.selector && TagOf(m, "b") == sig
            && TagOf(m, "h") == ""
  {
    var all := SealTags(s, n, t, cv) + [Tag("b", sig)];
    SealTagsClean(s, n, t, cv, sig);
    hide CleanTag, TagMap;
    TagMapHas(all, 0);
    TagMapHas(all, 1);
    TagMapHas(all, 2);
    TagMapHas(all, 3);
    TagMapHas(all, 4);
    TagMapHas(all, 6);
    TagMapNames(all, "h");
  }

  // ----- the tags of a message signature -----

  lemma AmsTagsClean(s: Sealer, n: nat, t: int, bh: string, h: string, sig: string)
    requires NamedSealer(s) && CleanValue(bh) && CleanValue(h) && CleanValue(sig)
    ensures CleanTags(AmsTags(s, n, t, bh, h) + [Tag("b", sig)])
  {
    DecimalClean(n);
    FormatIntClean(t);
    AlgorithmClean(s);
    RelaxedLiteral();
    LowerTextClean("relaxed/relaxed");
    AmsTagsCleanFrom(s, n, t, bh, h, sig);
  }

  lemma AmsTagsCleanFrom(s: Sealer, n: nat, t: int, bh: string, h: string, sig: string)
    requires CleanValue(s.domain) && CleanValue(s.selector) && CleanValue(bh) && CleanValue(h) && CleanValue(sig)
    requires CleanValue(Decimal(n)) && CleanValue(FormatInt(t)) && CleanValue(Algorithm(s)) && CleanValue("relaxed/relaxed")
    ensures CleanTags(AmsTags(s, n, t, bh, h) + [Tag("b", sig)])
  {
    hide CleanValue, Algorithm, Decimal, FormatInt;
    var all := AmsTags(s, n, t, bh, h) + [Tag("b", sig)];
    forall i | 0 <= i < |all|
      ensures CleanTag(all[i])
    {
      assert i == 0 || i == 1 || i == 2 || i == 3 || i == 4 || i == 5 || i == 6 || i == 7 || i == 8;
    }
    AmsNamesDistinct(all);
  }

  lemma AmsNamesDistinct(all: seq<Tag>)
    requires |all| == 9 && all[0].name == "i" && all[1].name == "a" && all[2].name == "c"
    requires all[3].name == "d" && all[4].name == "s" && all[5].name == "t"
    requires all[6].name == "bh" && all[7].name == "h" && all[8].name == "b"
    ensures DistinctNames(all)
  {
  }

  lemma AmsTagValues(s: Sealer, n: nat, t: int, bh: string, h: string, sig: string)
    requires NamedSealer(s) && CleanValue(bh) && CleanValue(h) && CleanValue(sig)
    ensures var m := TagMap(AmsTags(s, n, t, bh, h) + [Tag("b", sig)]);
            && TagOf(m, "i") == Decimal(n) && TagOf(m, "a") == Algorithm(s) && TagOf(m, "c") == "relaxed/relaxed"
            && TagOf(m, "d") == s.domain && TagOf(m, "s") == s.selector && TagOf(m, "bh") == bh
            && TagOf(m, "h") == h && TagOf(m, "b") == sig && TagOf(m, "l") == ""
  {
    hide CleanTag, TagMap, Decimal, FormatInt, Algorithm, CleanValue;
    var all := AmsTags(s, n, t, bh, h) + [Tag("b", sig)];
    AmsTagsClean(s, n, t, bh, h, sig);
    TagMapHas(all, 0);
    TagMapHas(all, 1);
    TagMapHas(all, 2);
    TagMapHas(all, 3);
    TagMapHas(all, 4);
    TagMapHas(all, 6);
    TagMapHas(all, 7);
    TagMapHas(all, 8);
    TagMapNames(all, "l");
  }

  // ----- the new fields are numbered -----

  lemma KindsOfNames(aar: Field, ams: Field, sl: Field)
    requires aar.name == AAR && ams.name == AMS && sl.name == AS
    ensures KindOf(aar) == Some(Results) && KindOf(ams) == Some(Signature) && KindOf(sl) == Some(Seal)
    ensures !EqualFold(AMS, AAR) && !EqualFold(AS, AAR)
  {
    assert |AAR| == 26 && |AMS| == 21 && |AS| == 8;
  }

  lemma {:induction false} TrimRightKeeps(a: string, b: string)
    requires a != "" && !IsSpace(a[|a| - 1])
    ensures a <= TrimRight(a + b)
  {
    var s := a + b;
    if b == "" {
      assert s == a;
    } else if IsSpace(s[|s| - 1]) {
      assert s[..|s| - 1] == a + b[..|b| - 1];
      TrimRightKeeps(a, b[..|b| - 1]);
    }
  }

  lemma InstanceTag(n: nat)
    ensures var tag := "i=" + Decimal(n);
            && TrimSpace(tag) == tag && tag[0] == 'i' && IndexByte(tag, '=') == 1
            && TrimSpace(tag[..1]) == "i" && TrimSpace(tag[2..]) == Decimal(n)
            && ';' !in tag
  {
    var d := Decimal(n);
    var tag := "i=" + d;
    assert Trimmed(tag) && Trimmed(d);
    TrimTrimmed(tag);
    TrimTrimmed(d);
    assert tag[..1] == "i" && tag[2..] == d;
    TrimTrimmed("i");
    assert tag[1] == '=' && tag[0] == 'i';
  }

  function ResultsValue(n: nat, authserv: string, results: string): string {
    "i=" + Decimal(n) + "; " + authserv + "; " + results
  }

  lemma ResultsText(n: nat, authserv: string, results: string)
    ensures AarInstanceText(TrimSpace(" " + ResultsValue(n, authserv, results))) == Decimal(n)
  {
    var tag := "i=" + Decimal(n);
    var tail := " " + authserv + "; " + results;
    var w := ResultsValue(n, authserv, results);
    InstanceTag(n);
    assert w == tag + ";" + tail;
    assert TrimSpace(" " + w) == TrimRight(w) by {
      TrimLeftSpace(' ', w);
      assert w[0] == 'i';
    }
    TrimRightKeeps(tag + ";", tail);
    hide TrimRight, AarInstanceText, Decimal, TrimSpace, IndexByte;
    InstanceBefore(tag, TrimRight(w));
  }

  lemma InstanceBefore(tag: string, v: string)
    requires ';' !in tag && tag + ";" <= v && tag != "" && tag[0] == 'i'
    requires TrimSpace(tag) == tag && IndexByte(tag, '=') == 1 && TrimSpace(tag[..1]) == "i"
    ensures AarInstanceText(v) == TrimSpace(tag[2..])
  {
    hide TrimSpace, IndexByte;
    assert v == tag + [';'] + v[|tag| + 1..];
    FirstByte(tag, ';', v[|tag| + 1..]);
    assert v[..|tag|] == tag;
  }

  lemma ResultsLine(n: nat, authserv: string, results: string)
    requires OneLine(authserv) && OneLine(results)
    ensures OneLine(ResultsValue(n, authserv, results))
  {
    DecimalClean(n);
    hide Decimal;
    assert OneLine("i=") && OneLine("; ");
  }

  lemma ResultsInstance(n: nat, authserv: string, results: string)
    requires 1 <= n <= MAX_INSTANCES && OneLine(authserv) && OneLine(results)
    ensures LineField(ResultsField(n, authserv, results))
    ensures MarkOf(ResultsField(n, authserv, results)) == Numbered(Results, n)
  {
    hide ResultsValue, AarInstanceText, TrimSpace, LineField, RemoveLineEnds, Value, Decimal, PlainName, MarkOf, ResultsField, OneLine;
    var f, w := ResultsField(n, authserv, results), ResultsValue(n, authserv, results);
    ArcNames();
    ResultsLine(n, authserv, results);
    ResultsFieldValue(n, authserv, results);
    WrittenField(AAR, w);
    SpacedLine(w);
    RemoveLineEndsOneLine(" " + w);
    ResultsText(n, authserv, results);
    NumberedResults(f, n);
  }

  lemma SpacedLine(w: string)
    requires OneLine(w)
    ensures OneLine(" " + w)
  {
  }

  lemma NumberedResults(f: Field, n: nat)
    requires f.name == AAR && 1 <= n <= MAX_INSTANCES
    requires AarInstanceText(TrimSpace(RemoveLineEnds(Value(f)))) == Decimal(n)
    ensures MarkOf(f) == Numbered(Results, n)
  {
    hide AarInstanceText, TrimSpace, RemoveLineEnds, Value, Decimal, Atoi, KindOf, ToLower;
    AtoiDecimal(n);
    KindsOfNames(f, NewField(AMS, ""), NewField(AS, ""));
    assert InstanceText(f) == Decimal(n);
  }

  lemma ResultsFieldValue(n: nat, authserv: string, results: string)
    ensures ResultsField(n, authserv, results) == NewField(AAR, ResultsValue(n, authserv, results))
  {
  }

  lemma SignedInstance(name: string, k: Kind, tags: seq<Tag>, sig: string, n: nat)
    requires (name == AMS && k == Signature) || (name == AS && k == Seal)
    requires CleanTags(tags + [Tag("b", sig)]) && CleanValue(sig)
    requires TagOf(TagMap(tags + [Tag("b", sig)]), "i") == Decimal(n) && 1 <= n <= MAX_INSTANCES
    ensures MarkOf(SignedField(name, tags, sig)) == Numbered(k, n)
  {
    ArcNames();
    SignedFieldRead(name, tags, sig);
    AtoiDecimal(n);
    hide TagsOf, Decimal, Value, Render, TagMap, CleanTags, PlainName, LineField;
    TaggedInstance(SignedField(name, tags, sig), k, TagMap(tags + [Tag("b", sig)]), n);
  }

  lemma TaggedInstance(f: Field, k: Kind, tags: Tags, n: nat)
    requires (f.name == AMS && k == Signature) || (f.name == AS && k == Seal)
    requires TagsOf(Value(f)) == Some(tags) && Atoi(TagOf(tags, "i")) == Some(n) && 1 <= n <= MAX_INSTANCES
    ensures MarkOf(f) == Numbered(k, n)
  {
    KindsOfNames(NewField(AAR, ""), NewField(AMS, ""), NewField(AS, ""));
    hide TagsOf, Value, Atoi, EqualFold;
  }

  // ----- small steps of the validator -----

  lemma {:induction false} NothingMissing(tags: Tags, names: seq<string>)
    requires forall i :: 0 <= i < |names| ==> TagOf(tags, names[i]) != ""
    ensures MissingOf(tags, names) == None
  {
    if names != [] {
      NothingMissing(tags, names[1..]);
    }
  }

  lemma {:induction false} MissingAt(tags: Tags, names: seq<string>, k: nat)
    requires k < |names| && TagOf(tags, names[k]) == ""
    requires forall i :: 0 <= i < k ==> TagOf(tags, names[i]) != ""
    ensures MissingOf(tags, names) == Some(MissingTag(names[k]))
    decreases k
  {
    if k > 0 {
      MissingAt(tags, names[1..], k - 1);
    }
  }

  lemma RelaxedBoth(c: string)
    requires c == "relaxed/relaxed"
    ensures CanonicalizationOf(c) == Some(Canonicalization(true, true))
  {
    hide ToLower, IndexByte, CanonicalizationOf, CleanValue, CleanText, LowerText;
    RelaxedLiteral();
    LowerTextClean(c);
    CutRelaxed(c);
    RelaxedCut(c);
  }

  lemma CutRelaxed(c: string)
    requires c == "relaxed/relaxed"
    ensures IndexByte(c, '/') == 7 && c[..7] == RELAXED && c[8..] == RELAXED
  {
    hide IndexByte;
    assert c == RELAXED + ['/'] + RELAXED;
    assert '/' !in RELAXED;
    FirstByte(RELAXED, '/', RELAXED);
  }

  lemma RelaxedCut(c: string)
    requires |c| == 15 && ToLower(c) == c && IndexByte(c, '/') == 7 && c[..7] == RELAXED && c[8..] == RELAXED
    ensures CanonicalizationOf(c) == Some(Canonicalization(true, true))
  {
    hide ToLower, IndexByte;
    assert |RELAXED| == 7;
  }

  lemma SignatureAccepted(c: Crypto, s: Sealer, tags: Tags, input: string, sig: string)
    requires EncodingLaws(c) && KeyPublished(c, s)
    requires Sign(c, s, input) == Some(sig)
    requires TagOf(tags, "a") == Algorithm(s) && TagOf(tags, "d") == s.domain && TagOf(tags, "s") == s.selector
    requires TagOf(tags, "b") == sig
    ensures CleanValue(sig) && sig != ""
    ensures SignatureProblem(c, tags, input) == None
  {
    AlgorithmClean(s);
    var raw := s.sign(c.hash(input)).value;
    assert sig == c.encode(raw) && raw != "";
    assert CleanText(c.encode(raw));
    CleanTextValue(sig);
    hide KeyName, RemoveSpaces, CleanValue, CleanText;
    assert c.decode(sig) == Some(raw);
  }

  lemma SignGivesClean(c: Crypto, s: Sealer, input: string)
    requires EncodingLaws(c) && KeyPublished(c, s) && Sign(c, s, input).Some?
    ensures CleanValue(Sign(c, s, input).value) && Sign(c, s, input).value != ""
  {
    var raw := s.sign(c.hash(input)).value;
    assert CleanText(c.encode(raw));
    CleanTextValue(c.encode(raw));
  }

  // ----- the new set -----

  /** The parts of a set the sealer adds to a message. */
  ghost predicate Added(c: Crypto, s: Sealer, m: Message, sets: seq<ArcSet>, cv: string, t: int, new_: ArcSet) {
    exists authserv, results :: OneLine(authserv) && OneLine(results)
      && NewSet(c, s, m, sets, authserv, results, cv, t) == Some(new_)
  }

  lemma ListClean(c: Crypto, m: Message)
    requires EncodingLaws(c)
    ensures var names := ListedNames(m.fields, SIGNED_HEADERS);
            && CleanNames(names)
            && CleanValue(Join(names, ":")) && RemoveSpaces(Join(names, ":")) == Join(names, ":")
            && (names != [] ==> Join(names, ":") != "" && Split(Join(names, ":"), ':') == names)
    ensures var bh := c.encode(c.hash(CanonBodyOf(m.body, true)));
            CleanValue(bh) && bh != "" && RemoveSpaces(bh) == bh
  {
    var names := ListedNames(m.fields, SIGNED_HEADERS);
    forall k | 0 <= k < |SIGNED_HEADERS|
      ensures CleanName(SIGNED_HEADERS[k])
    {
      HeaderNamesClean(k);
    }
    ListedClean(m.fields, SIGNED_HEADERS);
    JoinClean(names);
    if names != [] {
      SplitJoined(names);
    }
    hide CleanNames, Join, Split, ListedNames, CleanValue, CanonBodyOf;
    CleanTextValue(Join(names, ":"));
    CleanTextValue(c.encode(c.hash(CanonBodyOf(m.body, true))));
  }

  lemma AddedAms(c: Crypto, s: Sealer, m: Message, n: nat, t: int)
    requires EncodingLaws(c) && KeyPublished(c, s) && NamedSealer(s) && 1 <= n <= MAX_INSTANCES
    requires Sign(c, s, NewAmsInput(m, NewAmsTags(c, s, m, n, t))).Some?
    ensures var tags := NewAmsTags(c, s, m, n, t);
            var sig := Sign(c, s, NewAmsInput(m, tags)).value;
            && CleanValue(sig) && CleanTags(tags + [Tag("b", sig)])
            && LineField(SignedField(AMS, tags, sig))
            && MarkOf(SignedField(AMS, tags, sig)) == Numbered(Signature, n)
  {
    var bh, h := c.encode(c.hash(CanonBodyOf(m.body, true))), Join(ListedNames(m.fields, SIGNED_HEADERS), ":");
    var tags := NewAmsTags(c, s, m, n, t);
    var sig := Sign(c, s, NewAmsInput(m, tags)).value;
    SignGivesClean(c, s, NewAmsInput(m, tags));
    ListClean(c, m);
    ArcNames();
    hide CleanTags, NewAmsInput, AmsTags, TagMap, PlainName, LineField, MarkOf, SignedField, CanonBodyOf, Join, Split, RemoveSpaces;
    AmsTagsClean(s, n, t, bh, h, sig);
    AmsTagValues(s, n, t, bh, h, sig);
    SignedFieldRead(AMS, tags, sig);
    SignedInstance(AMS, Signature, tags, sig, n);
  }

  lemma AddedSeal(c: Crypto, s: Sealer, n: nat, t: int, cv: string, input: string)
    requires EncodingLaws(c) && KeyPublished(c, s) && NamedSealer(s) && 1 <= n <= MAX_INSTANCES && CleanValue(cv)
    requires Sign(c, s, input).Some?
    ensures var tags := SealTags(s, n, t, cv);
            var sig := Sign(c, s, input).value;
            && CleanValue(sig) && CleanTags(tags + [Tag("b", sig)])
            && LineField(SignedField(AS, tags, sig))
            && MarkOf(SignedField(AS, tags, sig)) == Numbered(Seal, n)
            && TagsOf(Value(SignedField(AS, tags, sig))) == Some(TagMap(tags + [Tag("b", sig)]))
  {
    var tags := SealTags(s, n, t, cv);
    var sig := Sign(c, s, input).value;
    SignGivesClean(c, s, input);
    ArcNames();
    hide CleanTags, SealTags, TagMap, PlainName, LineField, MarkOf, SignedField, TagsOf, Value;
    SealTagsClean(s, n, t, cv, sig);
    SealTagValues(s, n, t, cv, sig);
    SignedFieldRead(AS, tags, sig);
    SignedInstance(AS, Seal, tags, sig, n);
  }

  lemma AddedSet(c: Crypto, s: Sealer, m: Message, sets: seq<ArcSet>, cv: string, t: int, new_: ArcSet)
    requires EncodingLaws(c) && KeyPublished(c, s) && NamedSealer(s) && |sets| < MAX_INSTANCES && CleanValue(cv)
    requires Added(c, s, m, sets, cv, t, new_)
    ensures WritableSet(new_) && NextSet(new_, |sets| + 1)
    ensures new_.aar.name == AAR && new_.ams.name == AMS && new_.sl.name == AS
  {
    var authserv, results :| OneLine(authserv) && OneLine(results)
      && NewSet(c, s, m, sets, authserv, results, cv, t) == Some(new_);
    var n := |sets| + 1;
    ResultsInstance(n, authserv, results);
    hide NewAmsInput, NewAmsTags, SealTags, Sign, SealInputOf, ResultsField, LineField, MarkOf, OneLine, Render;
    var tags := NewAmsTags(c, s, m, n, t);
    AddedAms(c, s, m, n, t);
    var aar, ams := ResultsField(n, authserv, results), SignedField(AMS, tags, Sign(c, s, NewAmsInput(m, tags)).value);
    AddedSeal(c, s, n, t, cv, SealInputOf(sets + [ArcSet(aar, ams, SignedField(AS, SealTags(s, n, t, cv), ""))]));
  }
}
