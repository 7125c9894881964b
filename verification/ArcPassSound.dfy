// The soundness theorem: from the bytes that checked, back to the message that was sealed.

module ArcPassSound {
  import opened Options
  import opened Text
  import opened ArcCanon
  import opened ArcTags
  import opened ArcChain
  import opened ArcVerify
  import opened ArcSeal
  import opened ArcFraming
  import opened ArcSelection
  import opened ArcRoundTrip
  import opened ArcDecoding
  import opened ArcTagAgree
  import opened ArcParsed
  import opened ArcSoundness

  // ----- the shape of what was signed -----

  lemma AllNamedJoin(a: seq<Field>, f: Field, g: Field)
    requires AllNamed(a) && NamedBy(f) && NamedBy(g)
    ensures AllNamed(a + [f, g])
  {
    hide NamedBy;
  }

  lemma ResultsNamed(n: nat, authserv: string, results: string)
    ensures NamedBy(ResultsField(n, authserv, results))
  {
    AmsClean();
    hide CleanName, Decimal;
    assert EqualFold(AAR, AAR);
  }

  lemma SealShape(c: Crypto, run: SealRun, x: string) returns (signed: seq<Field>, g: Field)
    requires SealSigned(c, run, x) && ChainOf(RunMessage(run).fields).Some?
    ensures x == HeaderStream(signed, true) + Canon(g, true) && AllNamed(signed) && NamedBy(g) && g.name == AS
  {
    var sets, n := RunSets(run), |RunSets(run)| + 1;
    var amsSig :| Sign(c, run.s, NewAmsInput(RunMessage(run), RunAmsTags(c, run))) == Some(amsSig)
      && x == SealInputOf(sets + [ArcSet(
                ResultsField(n, OrElse(run.authserv, run.s.domain), OrElse(run.results, "none")),
                SignedField(AMS, RunAmsTags(c, run), amsSig),
                SignedField(AS, SealTags(run.s, n, run.t, SealedCV(sets, run.cv)), ""))]);
    var aar := ResultsField(n, OrElse(run.authserv, run.s.domain), OrElse(run.results, "none"));
    var ams := SignedField(AMS, RunAmsTags(c, run), amsSig);
    var tags := SealTags(run.s, n, run.t, SealedCV(sets, run.cv));
    ChainNamed(RunMessage(run).fields);
    ResultsNamed(n, OrElse(run.authserv, run.s.domain), OrElse(run.results, "none"));
    SignedFieldNamed(AMS, RunAmsTags(c, run), amsSig);
    hide NamedBy, AllNamed, Canon, HeaderStream, StripSignature, SignedField, ResultsField, SealTags, SealedCV, SetFields, RunMessage, ChainOf, RunAmsTags, SealInputOf, NewAmsInput, Sign, OrElse;
    NamedField(AS, tags);
    SealInputStream(sets, ArcSet(aar, ams, SignedField(AS, tags, "")));
    AllNamedJoin(SetFields(sets), aar, ams);
    signed, g := SetFields(sets) + [aar, ams], StripSignature(SignedField(AS, tags, ""));
  }

  lemma SignedFieldNamed(name: string, tags: seq<Tag>, sig: string)
    requires name == AMS
    ensures NamedBy(SignedField(name, tags, sig))
  {
    AmsClean();
    hide CleanName, Render;
    assert EqualFold(name, name);
  }

  ghost predicate IsRunAms(c: Crypto, run: SealRun, signed: seq<Field>, g: Field) {
    signed == SignedFields(RunMessage(run).fields, SIGNED_HEADERS) && g == SignedField(AMS, RunAmsTags(c, run), "")
  }

  lemma AmsShape(c: Crypto, run: SealRun, x: string) returns (signed: seq<Field>, g: Field)
    requires AmsSigned(c, run, x)
    ensures x == HeaderStream(signed, true) + Canon(g, true) && AllNamed(signed) && NamedBy(g)
    ensures g.name == AMS && IsRunAms(c, run, signed, g)
  {
    hide RunMessage, Canon, HeaderStream, SignedFields, RunAmsTags, SignedField, NamedBy, AllNamed, CleanNames;
    SignedHeadersClean();
    SignedNamed(RunMessage(run).fields, SIGNED_HEADERS);
    NamedField(AMS, RunAmsTags(c, run));
    signed, g := SignedFields(RunMessage(run).fields, SIGNED_HEADERS), SignedField(AMS, RunAmsTags(c, run), "");
  }

  lemma SignedShape(c: Crypto, run: SealRun, x: string) returns (signed: seq<Field>, g: Field)
    requires SignedIn(c, run, x)
    ensures x == HeaderStream(signed, true) + Canon(g, true) && AllNamed(signed) && NamedBy(g)
    ensures g.name == AS || (g.name == AMS && IsRunAms(c, run, signed, g))
  {
    hide RunMessage, ChainOf, Canon, HeaderStream, NamedBy, AllNamed, SealSigned, AmsSigned, IsRunAms;
    if SealSigned(c, run, x) {
      signed, g := SealShape(c, run, x);
    } else {
      signed, g := AmsShape(c, run, x);
    }
  }

  // ----- the tags of the received field -----

  lemma TightTag(t: Tag)
    requires CleanTag(t) && CleanText(t.value)
    ensures Tight(TagText(t))
  {
    var s := TagText(t);
    forall i | 0 <= i < |s|
      ensures !IsSpace(s[i])
    {
      if i < |t.name| {
        assert s[i] == t.name[i];
      } else if i > |t.name| {
        assert s[i] == t.value[i - |t.name| - 1];
      }
    }
  }

  lemma BareValue(tags: seq<Tag>)
    requires CleanTags(tags + [Tag("b", "")])
    ensures var g, all := SignedField(AMS, tags, ""), tags + [Tag("b", "")];
            && Value(g) == " " + Render(all)
            && CanonValue(Value(g)) == TrimSpace(CanonText(" " + Render(all)))
  {
    var all := tags + [Tag("b", "")];
    ArcNames();
    assert CleanValue("");
    forall i | 0 <= i < |tags|
      ensures CleanTag(tags[i]) && tags[i].name != "b"
    {
      assert all[i] == tags[i] && all[|tags|] == Tag("b", "");
    }
    StripRendered(tags, "");
    hide Render, CleanTag, PlainName, StripValue, TrimSpace, Compressed, RemoveLineEnds, IndexByte;
    WrittenValue(AMS, Render(all));
  }

  lemma NoSuchName(v: string, tags: seq<Tag>, name: string)
    requires PartsAgree(v, tags) && AllClean(tags) && TagsOf(v).Some? && name != ""
    requires forall i :: 0 <= i < |tags| && tags[i].name != "" ==> tags[i].name[0] != name[0]
    ensures TagOf(TagsOf(v).value, name) == ""
  {
    hide PartsAgree, AllClean, TagsOf;
    if name in TagsOf(v).value {
      var i := AgreedName(v, tags, name);
    }
  }

  lemma AgreedText(v: string, tags: seq<Tag>, i: nat)
    requires PartsAgree(v, tags) && i < |tags| && TagsOf(v).Some?
    requires CleanTag(tags[i]) && tags[i].name != "b" && CleanText(tags[i].value)
    ensures TagOf(TagsOf(v).value, tags[i].name) == tags[i].value
  {
    TightTag(tags[i]);
    hide PartsAgree, TagsOf, CleanTag, TagText, Tight, CleanText;
    AgreedTag(v, tags, i);
  }

  /** The tags of a message signature, in the order they are written. */
  ghost predicate NineTags(all: seq<Tag>) {
    && |all| == 9
    && all[0].name == "i" && all[1].name == "a" && all[2].name == "c" && all[3].name == "d" && all[4].name == "s"
    && all[5].name == "t" && all[6].name == "bh" && all[7].name == "h" && all[8].name == "b"
  }

  lemma NineHeads(all: seq<Tag>, name: string)
    requires NineTags(all) && name == "l"
    ensures forall i :: 0 <= i < |all| ==> all[i].name != "" && all[i].name[0] != name[0]
  {
    forall i | 0 <= i < |all|
      ensures all[i].name != "" && all[i].name[0] != name[0]
    {
      assert i == 0 || i == 1 || i == 2 || i == 3 || i == 4 || i == 5 || i == 6 || i == 7 || i == 8;
    }
  }

  lemma AgreedAt(v: string, all: seq<Tag>, i: nat, name: string)
    requires PartsAgree(v, all) && AllClean(all) && TagsOf(v).Some? && i < |all|
    requires all[i].name == name && name != "b" && CleanText(all[i].value)
    ensures TagOf(TagsOf(v).value, name) == all[i].value
  {
    hide CleanTag, PartsAgree, CleanText, TagsOf;
    AgreedText(v, all, i);
  }

  lemma AgreedNine(v: string, all: seq<Tag>)
    requires NineTags(all) && PartsAgree(v, all) && AllClean(all) && TagsOf(v).Some?
    requires CleanText(all[0].value) && CleanText(all[2].value) && CleanText(all[6].value) && CleanText(all[7].value)
    ensures var got := TagsOf(v).value;
            && TagOf(got, "i") == all[0].value && TagOf(got, "c") == all[2].value
            && TagOf(got, "bh") == all[6].value && TagOf(got, "h") == all[7].value && TagOf(got, "l") == ""
  {
    hide AllClean, PartsAgree, CleanText, TagsOf, TagOf;
    AgreedAt(v, all, 0, "i");
    AgreedAt(v, all, 2, "c");
    AgreedAt(v, all, 6, "bh");
    AgreedAt(v, all, 7, "h");
    NineHeads(all, "l");
    NoSuchName(v, all, "l");
  }

  lemma AmsNine(s: Sealer, n: nat, t: int, bh: string, h: string)
    ensures var all := AmsTags(s, n, t, bh, h) + [Tag("b", "")];
            && NineTags(all) && all[0].value == Decimal(n) && all[2].value == "relaxed/relaxed"
            && all[6].value == bh && all[7].value == h
  {
    hide Decimal, FormatInt, Algorithm;
  }

  lemma AmsAgree(v: string, tags: seq<Tag>)
    requires CleanTags(tags + [Tag("b", "")])
    requires CanonValue(StripValue(v)) == CanonValue(Value(SignedField(AMS, tags, "")))
    ensures PartsAgree(v, tags + [Tag("b", "")])
  {
    BareValue(tags);
    hide Render, CanonValue, StripValue, CanonText, TrimSpace, PartsAgree, Value, SignedField, AllClean;
    CanonTextValue(v);
    SameCanonAgree(v, tags + [Tag("b", "")]);
  }

  /** The tags of the received signature that decide what was covered are the sealed ones. */
  lemma DecodedTags(v: string, s: Sealer, n: nat, t: int, bh: string, h: string)
    requires NamedSealer(s) && CleanText(bh) && CleanText(h) && TagsOf(v).Some?
    requires CleanTags(AmsTags(s, n, t, bh, h) + [Tag("b", "")])
    requires CanonValue(StripValue(v)) == CanonValue(Value(SignedField(AMS, AmsTags(s, n, t, bh, h), "")))
    ensures var got := TagsOf(v).value;
            && TagOf(got, "i") == Decimal(n) && TagOf(got, "c") == "relaxed/relaxed"
            && TagOf(got, "bh") == bh && TagOf(got, "h") == h && TagOf(got, "l") == ""
  {
    AmsAgree(v, AmsTags(s, n, t, bh, h));
    AmsNine(s, n, t, bh, h);
    RelaxedLiteral();
    LowerTextClean("relaxed/relaxed");
    DecimalClean(n);
    hide TagsOf, CanonValue, StripValue, PartsAgree, CleanText, LowerText, Decimal, CleanValue, Value, SignedField, AmsTags, NineTags, AllClean, TagOf;
    AgreedNine(v, AmsTags(s, n, t, bh, h) + [Tag("b", "")]);
  }

  lemma CanonTextValue(v: string)
    ensures CanonValue(StripValue(v)) == TrimSpace(CanonText(v))
  {
  }

  // ----- what a passing signature says -----

  lemma PassParts(c: Crypto, raw: string, n: nat)
    requires VerdictOf(c, raw) == Pass(n)
    ensures var m := MessageOf(Normalized(raw));
            && ChainOf(m.fields).Some? && n == |ChainOf(m.fields).value| && n > 0
            && AmsProblem(c, m.fields, m.body, ChainOf(m.fields).value[n - 1].ams) == None
  {
    hide AmsProblem, LastSealProblem, FirstCVProblem, LatestCV, MessageOf, Normalized, ChainOf;
  }

  /** The newest message signature of a received message. */
  ghost function NewestAms(raw: string): Field {
    var m := MessageOf(Normalized(raw));
    match ChainOf(m.fields)
    case None => Field("", "")
    case Some(sets) => if sets == [] then Field("", "") else sets[|sets| - 1].ams
  }

  ghost function NewestTags(raw: string): Tags {
    match TagsOf(Value(NewestAms(raw)))
    case None => map[]
    case Some(tags) => tags
  }

  function SigKey(c: Crypto, tags: Tags): Option<Key> {
    c.lookup(KeyName(TagOf(tags, "s"), TagOf(tags, "d")))
  }

  /** What a signature that checked has covered. */
  ghost predicate Checked(c: Crypto, fields: seq<Field>, body: string, ams: Field, tags: Tags, canon: Canonicalization, cbody: string, sig: string) {
    && TagsOf(Value(ams)) == Some(tags) && TagOf(tags, "h") != ""
    && CanonicalizationOf(TagOf(tags, "c")) == Some(canon)
    && Limited(CanonBodyOf(body, canon.body), TagOf(tags, "l")) == Some(cbody)
    && c.encode(c.hash(cbody)) == RemoveSpaces(TagOf(tags, "bh"))
    && SigKey(c, tags).Some?
    && c.verifies(SigKey(c, tags).value, c.hash(AmsInput(fields, ams, SignedNames(tags), canon.header)), sig)
  }

  lemma NothingMissed(tags: Tags, names: seq<string>, k: nat)
    requires MissingOf(tags, names) == None && k < |names|
    ensures TagOf(tags, names[k]) != ""
  {
    if k > 0 {
      NothingMissed(tags, names[1..], k - 1);
    }
  }

  lemma SignatureChecked(c: Crypto, tags: Tags, input: string) returns (sig: string)
    requires SignatureProblem(c, tags, input) == None
    ensures SigKey(c, tags).Some? && c.verifies(SigKey(c, tags).value, c.hash(input), sig)
  {
    hide KeyName, RemoveSpaces;
    sig := c.decode(RemoveSpaces(TagOf(tags, "b"))).value;
  }

  lemma AmsChecked(c: Crypto, fields: seq<Field>, body: string, ams: Field)
    returns (tags: Tags, canon: Canonicalization, cbody: string, sig: string)
    requires AmsProblem(c, fields, body, ams) == None
    ensures Checked(c, fields, body, ams, tags, canon, cbody, sig)
  {
    hide SignatureProblem, CanonicalizationOf, Limited, CanonBodyOf, RemoveSpaces, AmsInput, SignedNames, MissingOf, TagsOf, Value;
    tags := TagsOf(Value(ams)).value;
    canon := CanonicalizationOf(TagOf(tags, "c")).value;
    cbody := Limited(CanonBodyOf(body, canon.body), TagOf(tags, "l")).value;
    sig := SignatureChecked(c, tags, AmsInput(fields, ams, SignedNames(tags), canon.header));
    NothingMissed(tags, AMS_TAGS, 5);
  }

  // ----- the theorem -----

  /** The run sealed this body and these header fields, as instance `n`. */
  ghost predicate SealedThis(run: SealRun, m: Message, names: seq<string>, n: nat) {
    var signed := RunMessage(run);
    && n == |RunSets(run)| + 1
    && CanonBodyOf(m.body, true) == CanonBodyOf(signed.body, true)
    && names == ListedNames(signed.fields, SIGNED_HEADERS)
    && CanonList(Selected(m.fields, names, {})) == CanonList(SignedFields(signed.fields, SIGNED_HEADERS))
  }

  lemma EncodeOnce(c: Crypto, x: string, y: string)
    requires EncodingLaws(c) && CollisionFree(c) && c.encode(c.hash(x)) == c.encode(c.hash(y))
    ensures x == y
  {
    assert c.decode(c.encode(c.hash(x))) == Some(c.hash(x));
    assert c.decode(c.encode(c.hash(y))) == Some(c.hash(y));
  }

  ghost function RunHash(c: Crypto, run: SealRun): string {
    c.encode(c.hash(CanonBodyOf(RunMessage(run).body, true)))
  }

  ghost function RunList(run: SealRun): string {
    Join(ListedNames(RunMessage(run).fields, SIGNED_HEADERS), ":")
  }

  lemma RunTexts(c: Crypto, run: SealRun)
    requires EncodingLaws(c)
    ensures CleanText(RunHash(c, run)) && CleanText(RunList(run))
    ensures RemoveSpaces(RunHash(c, run)) == RunHash(c, run)
    ensures RunList(run) != "" ==> Split(RemoveSpaces(RunList(run)), ':') == ListedNames(RunMessage(run).fields, SIGNED_HEADERS)
    ensures CleanNames(ListedNames(RunMessage(run).fields, SIGNED_HEADERS))
  {
    ListClean(c, RunMessage(run));
    SignedHeadersClean();
    hide CleanNames, CleanText, CanonBodyOf, ListedNames, Split, RemoveSpaces, CleanValue, RunMessage;
    var names := ListedNames(RunMessage(run).fields, SIGNED_HEADERS);
    JoinClean(names);
    assert Join([], ":") == "";
  }

  lemma RunTags(c: Crypto, run: SealRun, v: string)
    requires EncodingLaws(c) && NamedSealer(run.s) && TagsOf(v).Some?
    requires CanonValue(StripValue(v)) == CanonValue(Value(SignedField(AMS, RunAmsTags(c, run), "")))
    ensures var got := TagsOf(v).value;
            && TagOf(got, "i") == Decimal(|RunSets(run)| + 1) && TagOf(got, "c") == "relaxed/relaxed"
            && TagOf(got, "bh") == RunHash(c, run) && TagOf(got, "h") == RunList(run) && TagOf(got, "l") == ""
  {
    RunAmsTagsClean(c, run);
    RunTexts(c, run);
    hide TagsOf, CanonValue, StripValue, CleanText, Value, SignedField, CleanTags, CanonBodyOf, NamedSealer, EncodingLaws, RunSets, Join, ListedNames, Split, RemoveSpaces, AmsTags, CleanNames, RunMessage;
    DecodedTags(v, run.s, |RunSets(run)| + 1, run.t, RunHash(c, run), RunList(run));
  }

  lemma CoveredAlike(c: Crypto, run: SealRun, had: seq<Field>, f: Field, relaxed: bool, x: string)
    requires SignedIn(c, run, x) && Parsed(f) && EqualFold(f.name, AMS)
    requires x == HeaderStream(had, relaxed) + Canon(StripSignature(f), relaxed)
    ensures HeaderStream(had, relaxed) == HeaderStream(SignedFields(RunMessage(run).fields, SIGNED_HEADERS), true)
    ensures CanonValue(StripValue(Value(f))) == CanonValue(Value(SignedField(AMS, RunAmsTags(c, run), "")))
  {
    hide SignedIn, Canon, StripSignature, HeaderStream, Parsed, EqualFold, CanonValue, StripValue, Value, SignedField, RunAmsTags, SignedFields, AllNamed, NamedBy;
    var signed, g := SignedShape(c, run, x);
    InputsSplit(had, f, relaxed, signed, g);
    LastLineDecodes(f, relaxed, g);
    SealIsNoSignature(g);
  }

  lemma SealIsNoSignature(g: Field)
    requires EqualFold(g.name, AMS)
    ensures g.name != AS
  {
    AmsClean();
    if g.name == AS {
      FoldedLength(AS, AMS, AS);
    }
  }

  /** Bytes that a message signature covers are no DKIM input. */
  lemma NotElsewhere(had: seq<Field>, f: Field, relaxed: bool, x: string)
    requires Parsed(f) && EqualFold(f.name, AMS)
    requires x == HeaderStream(had, relaxed) + Canon(StripSignature(f), relaxed)
    ensures !SignedElsewhere(x)
  {
    hide Canon, StripSignature, HeaderStream, Parsed, EqualFold, CanonValue, StripValue, Value, AllNamed, NamedBy;
    if SignedElsewhere(x) {
      var signed, g :| x == HeaderStream(signed, true) + Canon(g, true) && AllNamed(signed) && NamedBy(g)
        && !EqualFold(g.name, AMS) && !EqualFold(g.name, AS);
      InputsSplit(had, f, relaxed, signed, g);
      LastLineDecodes(f, relaxed, g);
    }
  }

  lemma BodyAlike(c: Crypto, run: SealRun, body: string, tags: Tags, canon: Canonicalization, cbody: string)
    requires EncodingLaws(c) && CollisionFree(c)
    requires TagOf(tags, "c") == "relaxed/relaxed" && TagOf(tags, "l") == "" && TagOf(tags, "bh") == RunHash(c, run)
    requires CanonicalizationOf(TagOf(tags, "c")) == Some(canon)
    requires Limited(CanonBodyOf(body, canon.body), TagOf(tags, "l")) == Some(cbody)
    requires c.encode(c.hash(cbody)) == RemoveSpaces(TagOf(tags, "bh"))
    ensures canon == Canonicalization(true, true)
    ensures CanonBodyOf(body, true) == CanonBodyOf(RunMessage(run).body, true)
  {
    RelaxedBoth(TagOf(tags, "c"));
    RunTexts(c, run);
    hide CanonicalizationOf, CanonBodyOf, RemoveSpaces, TagOf, EncodingLaws, CollisionFree, RunMessage, CleanText, CleanNames, RunList, Split;
    assert cbody == CanonBodyOf(body, true);
    EncodeOnce(c, cbody, CanonBodyOf(RunMessage(run).body, true));
  }

  lemma FieldsAlike(c: Crypto, run: SealRun, fields: seq<Field>, names: seq<string>)
    requires EncodingLaws(c) && names == ListedNames(RunMessage(run).fields, SIGNED_HEADERS)
    requires HeaderStream(Selected(fields, names, {}), true) == HeaderStream(SignedFields(RunMessage(run).fields, SIGNED_HEADERS), true)
    ensures CanonList(Selected(fields, names, {})) == CanonList(SignedFields(RunMessage(run).fields, SIGNED_HEADERS))
  {
    RunTexts(c, run);
    SignedHeadersClean();
    hide EncodingLaws, HeaderStream, CanonList, SignedFields, ListedNames, RunMessage, CleanNames, RunHash, RunList, Split, RemoveSpaces, CleanText, AllNamed, Selected, OneLiners;
    var got, signed := Selected(fields, names, {}), SignedFields(RunMessage(run).fields, SIGNED_HEADERS);
    SelectedNamed(fields, names, {});
    SignedNamed(RunMessage(run).fields, SIGNED_HEADERS);
    NamedOneLiners(got);
    NamedOneLiners(signed);
    StreamUnique(got, signed);
  }

  lemma InstanceAlike(f: Field, tags: Tags, k: nat)
    requires TagsOf(Value(f)) == Some(tags) && TagOf(tags, "i") == Decimal(k) && !EqualFold(f.name, AAR)
    requires InstanceOf(f).Some?
    ensures InstanceOf(f) == Some(k)
  {
    AtoiDecimal(k);
    hide TagsOf, Value, EqualFold, Decimal, Atoi;
  }

  lemma NotResults(f: Field)
    requires EqualFold(f.name, AMS)
    ensures !EqualFold(f.name, AAR)
  {
    AmsClean();
    if EqualFold(f.name, AAR) {
      FoldedLength(f.name, AAR, f.name);
      FoldedLength(f.name, AMS, f.name);
    }
  }

  lemma RunSealed(c: Crypto, run: SealRun, fields: seq<Field>, body: string, ams: Field, tags: Tags,
                  canon: Canonicalization, cbody: string, sig: string, x: string, n: nat)
    requires EncodingLaws(c) && CollisionFree(c) && NamedSealer(run.s)
    requires Checked(c, fields, body, ams, tags, canon, cbody, sig)
    requires Parsed(ams) && EqualFold(ams.name, AMS) && InstanceOf(ams) == Some(n)
    requires SignedIn(c, run, x) && c.hash(x) == c.hash(AmsInput(fields, ams, SignedNames(tags), canon.header))
    ensures SealedThis(run, Message(fields, body), SignedNames(tags), n)
  {
    var names := SignedNames(tags);
    assert x == AmsInput(fields, ams, names, canon.header);
    NotResults(ams);
    hide CollisionFree, EncodingLaws, NamedSealer, Parsed, EqualFold, InstanceOf, SignedIn, CanonicalizationOf, Limited, RemoveSpaces;
    hide CanonBodyOf, TagOf, SigKey, TagsOf, Value, Selected, HeaderStream, Canon, StripSignature, SignedFields, ListedNames, RunMessage, RunSets;
    hide CanonValue, StripValue, SignedField, RunAmsTags, RunHash, RunList, Split, CanonList, Decimal, CleanText, CleanNames;
    CoveredAlike(c, run, Selected(fields, names, {}), ams, canon.header, x);
    RunTags(c, run, Value(ams));
    BodyAlike(c, run, body, tags, canon, cbody);
    InstanceAlike(ams, tags, |RunSets(run)| + 1);
    RunTexts(c, run);
    FieldsAlike(c, run, fields, names);
  }

  lemma NewestHeld(raw: string, n: nat)
    requires var m := MessageOf(Normalized(raw)); ChainOf(m.fields).Some? && n == |ChainOf(m.fields).value| > 0
    ensures var f := NewestAms(raw);
            Parsed(f) && EqualFold(f.name, AMS) && InstanceOf(f) == Some(n)
  {
    var fields := MessageOf(Normalized(raw)).fields;
    MessageParsed(raw);
    hide MessageOf, Normalized, Parsed, ChainOf, EqualFold, NumberedUpTo, Unrepeated, InstanceOf;
    var s := ChainOf(fields).value[n - 1];
    assert HoldsSet(fields, s, n);
    HoldsNamed(fields, s, n);
    HeldInstance(fields, s.ams, n);
  }

  lemma HeldInstance(fields: seq<Field>, f: Field, n: nat)
    requires Holds(fields, f, Signature, n)
    ensures InstanceOf(f) == Some(n)
  {
    hide InstanceOf, EqualFold;
  }

  lemma NotSignedElsewhere(c: Crypto, fields: seq<Field>, ams: Field, names: seq<string>, relaxed: bool)
    requires CollisionFree(c) && Parsed(ams) && EqualFold(ams.name, AMS)
    ensures !exists x :: SignedElsewhere(x) && c.hash(x) == c.hash(AmsInput(fields, ams, names, relaxed))
  {
    hide Parsed, EqualFold, SignedElsewhere, Selected, HeaderStream, Canon, StripSignature;
    NotElsewhere(Selected(fields, names, {}), ams, relaxed, AmsInput(fields, ams, names, relaxed));
  }

  lemma MadeInRun(c: Crypto, key: Key, runs: seq<SealRun>, d: string, sig: string) returns (run: SealRun, x: string)
    requires Unforgeable(c, key, runs) && c.verifies(key, d, sig) && !exists x :: SignedElsewhere(x) && c.hash(x) == d
    ensures run in runs && SignedIn(c, run, x) && c.hash(x) == d
  {
    hide SignedIn, SignedElsewhere;
    run, x :| run in runs && SignedIn(c, run, x) && c.hash(x) == d;
  }

  /** A pass is sound: the body, the listed names and the selected header fields of a message that
      validates at instance n are those of a message that was sealed as instance n. */
  lemma PassIsSound(c: Crypto, key: Key, runs: seq<SealRun>, raw: string, n: nat)
    requires EncodingLaws(c) && CollisionFree(c) && Unforgeable(c, key, runs)
    requires forall run :: run in runs ==> NamedSealer(run.s)
    requires VerdictOf(c, raw) == Pass(n) && SigKey(c, NewestTags(raw)) == Some(key)
    ensures exists run :: run in runs && SealedThis(run, MessageOf(Normalized(raw)), SignedNames(NewestTags(raw)), n)
  {
    var m := MessageOf(Normalized(raw));
    PassParts(c, raw, n);
    NewestHeld(raw, n);
    hide VerdictOf, MessageOf, Normalized, ChainOf, AmsProblem, Parsed, EqualFold, InstanceOf, SealedThis, SignedNames, AmsInput, EncodingLaws, CollisionFree, NamedSealer, SignedIn, SigKey, TagsOf, CanonicalizationOf, Limited, CanonBodyOf, RemoveSpaces, Value, TagOf, Unforgeable, SignedElsewhere, NewestTags;
    var ams := NewestAms(raw);
    var tags, canon, cbody, sig := AmsChecked(c, m.fields, m.body, ams);
    var d := c.hash(AmsInput(m.fields, ams, SignedNames(tags), canon.header));
    assert c.verifies(key, d, sig);
    NotSignedElsewhere(c, m.fields, ams, SignedNames(tags), canon.header);
    var run, x := MadeInRun(c, key, runs, d, sig);
    RunSealed(c, run, m.fields, m.body, ams, tags, canon, cbody, sig, x, n);
  }
}
