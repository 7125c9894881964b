// The two laws the sealer and the validator keep together: what is sealed validates,
// and what has failed stays failed over every later hop (RFC 8617, sections 5.1 and 5.2).

module ArcTheorems {
  import opened Options
  import opened Text
  import opened ArcCanon
  import opened ArcCanonLaws
  import opened ArcTags
  import opened ArcChain
  import opened ArcVerify
  import opened ArcSeal
  import opened ArcFraming
  import opened ArcSelection
  import opened ArcRoundTrip

  // ----- the new set under the validator -----

  /** `new_` is made of the sealer's tags with these two signatures. */
  ghost predicate SignedBy(c: Crypto, s: Sealer, m: Message, sets: seq<ArcSet>, cv: string, t: int, new_: ArcSet,
                           amsSig: string, slSig: string)
  {
    var n := |sets| + 1;
    var amsTags := NewAmsTags(c, s, m, n, t);
    var slTags := SealTags(s, n, t, cv);
    && Sign(c, s, NewAmsInput(m, amsTags)) == Some(amsSig)
    && new_.ams == SignedField(AMS, amsTags, amsSig)
    && Sign(c, s, SealInputOf(sets + [ArcSet(new_.aar, new_.ams, SignedField(AS, slTags, ""))])) == Some(slSig)
    && new_.sl == SignedField(AS, slTags, slSig)
  }

  lemma NewSetSigned(c: Crypto, s: Sealer, m: Message, sets: seq<ArcSet>, authserv: string, results: string, cv: string,
                     t: int, new_: ArcSet)
    returns (amsSig: string, slSig: string)
    requires NewSet(c, s, m, sets, authserv, results, cv, t) == Some(new_)
    ensures SignedBy(c, s, m, sets, cv, t, new_, amsSig, slSig)
  {
    hide NewAmsInput, NewAmsTags, SealTags, Sign, SealInputOf, ResultsField, SignedField;
    var n := |sets| + 1;
    var tags := NewAmsTags(c, s, m, n, t);
    amsSig := Sign(c, s, NewAmsInput(m, tags)).value;
    slSig := Sign(c, s, SealInputOf(sets + [ArcSet(new_.aar, new_.ams, SignedField(AS, SealTags(s, n, t, cv), ""))])).value;
  }

  lemma AddedSigned(c: Crypto, s: Sealer, m: Message, sets: seq<ArcSet>, cv: string, t: int, new_: ArcSet)
    returns (amsSig: string, slSig: string)
    requires Added(c, s, m, sets, cv, t, new_)
    ensures SignedBy(c, s, m, sets, cv, t, new_, amsSig, slSig)
  {
    hide NewSet, SignedBy, OneLine;
    var authserv, results :| OneLine(authserv) && OneLine(results)
      && NewSet(c, s, m, sets, authserv, results, cv, t) == Some(new_);
    amsSig, slSig := NewSetSigned(c, s, m, sets, authserv, results, cv, t, new_);
  }

  lemma SealInputLast(sets: seq<ArcSet>, a: ArcSet, b: ArcSet)
    requires a.aar == b.aar && a.ams == b.ams && StripSignature(a.sl) == StripSignature(b.sl)
    ensures SealInputOf(sets + [a]) == SealInputOf(sets + [b])
  {
    assert (sets + [a])[..|sets|] == sets && (sets + [b])[..|sets|] == sets;
  }

  lemma NewSealAccepted(c: Crypto, s: Sealer, m: Message, sets: seq<ArcSet>, cv: string, t: int, new_: ArcSet)
    requires EncodingLaws(c) && KeyPublished(c, s) && NamedSealer(s) && |sets| < MAX_INSTANCES && CleanValue(cv)
    requires Added(c, s, m, sets, cv, t, new_)
    ensures SealProblem(c, sets + [new_]) == None
    ensures TagsOf(Value(new_.sl)).Some? && TagOf(TagsOf(Value(new_.sl)).value, "cv") == cv
  {
    var n := |sets| + 1;
    var amsSig, slSig := AddedSigned(c, s, m, sets, cv, t, new_);
    var slTags := SealTags(s, n, t, cv);
    var bare := ArcSet(new_.aar, new_.ams, SignedField(AS, slTags, ""));
    ArcNames();
    hide SealTags, Sign, SealInputOf, SignedField, TagsOf, Value, NewAmsInput, NewAmsTags, StripSignature, TagMap, CleanTags, LineField, MarkOf, PlainName;
    var input := SealInputOf(sets + [bare]);
    AddedSeal(c, s, n, t, cv, input);
    SealTagValues(s, n, t, cv, slSig);
    SignedFieldStripped(AS, slTags, slSig);
    StrippedTwice(AS, slTags, slSig);
    SealInputLast(sets, new_, bare);
    var tags := TagMap(slTags + [Tag("b", slSig)]);
    SignatureAccepted(c, s, tags, input, slSig);
    assert (sets + [new_])[|sets + [new_]| - 1] == new_;
    AlgorithmClean(s);
    SealTagsPresent(s, tags);
  }

  lemma SealTagsPresent(s: Sealer, tags: Tags)
    requires TagOf(tags, "a") != "" && TagOf(tags, "b") != "" && TagOf(tags, "d") != "" && TagOf(tags, "s") != ""
    ensures MissingOf(tags, SEAL_TAGS) == None
  {
    forall i | 0 <= i < |SEAL_TAGS|
      ensures TagOf(tags, SEAL_TAGS[i]) != ""
    {
      assert i == 0 || i == 1 || i == 2 || i == 3;
    }
    NothingMissing(tags, SEAL_TAGS);
  }

  lemma AmsTagsPresent(tags: Tags)
    requires TagOf(tags, "a") != "" && TagOf(tags, "b") != "" && TagOf(tags, "bh") != ""
    requires TagOf(tags, "d") != "" && TagOf(tags, "s") != ""
    ensures MissingOf(tags, AMS_TAGS) == if TagOf(tags, "h") == "" then Some(MissingTag("h")) else None
  {
    forall i | 0 <= i < 5
      ensures TagOf(tags, AMS_TAGS[i]) != ""
    {
      assert i == 0 || i == 1 || i == 2 || i == 3 || i == 4;
    }
    assert AMS_TAGS[5] == "h";
    if TagOf(tags, "h") == "" {
      MissingAt(tags, AMS_TAGS, 5);
    } else {
      NothingMissing(tags, AMS_TAGS);
    }
  }

  /** The message has a field among those the sealer signs. */
  ghost predicate HasSignedField(m: Message) {
    exists i, k :: 0 <= k < |SIGNED_HEADERS| && IsNamed(m.fields, i, SIGNED_HEADERS[k])
  }

  lemma {:induction false} NamedSome(fields: seq<Field>, name: string, m: nat)
    requires m <= |fields|
    ensures Named(fields, name, m) != [] <==> exists i :: 0 <= i < m && IsNamed(fields, i, name)
    decreases m
  {
    if m > 0 {
      NamedSome(fields, name, m - 1);
      assert IsNamed(fields, m - 1, name) <==> EqualFold(fields[m - 1].name, name);
    }
  }

  lemma {:induction false} ListedSome(fields: seq<Field>, names: seq<string>)
    ensures ListedNames(fields, names) != [] <==>
            exists i, k :: 0 <= k < |names| && IsNamed(fields, i, names[k])
    decreases |names|
  {
    if names != [] {
      var init, last := names[..|names| - 1], names[|names| - 1];
      ListedSome(fields, init);
      NamedSome(fields, last, |fields|);
      hide Named, EqualFold;
      if i, k :| 0 <= k < |names| && IsNamed(fields, i, names[k]) {
        assert k < |init| ==> init[k] == names[k];
      }
      if i, k :| 0 <= k < |init| && IsNamed(fields, i, init[k]) {
        assert IsNamed(fields, i, names[k]);
      }
      if i :| 0 <= i < |fields| && IsNamed(fields, i, last) {
        assert IsNamed(fields, i, names[|names| - 1]);
      }
    }
  }

  lemma NewAmsChecked(c: Crypto, s: Sealer, m: Message, sets: seq<ArcSet>, cv: string, t: int, new_: ArcSet)
    requires EncodingLaws(c) && KeyPublished(c, s) && NamedSealer(s) && |sets| < MAX_INSTANCES && CleanValue(cv)
    requires Added(c, s, m, sets, cv, t, new_)
    ensures AmsProblem(c, Front(new_) + m.fields, m.body, new_.ams) ==
            if HasSignedField(m) then None else Some(MissingTag("h"))
  {
    var n := |sets| + 1;
    var amsSig, slSig := AddedSigned(c, s, m, sets, cv, t, new_);
    var tags, names := NewAmsTags(c, s, m, n, t), ListedNames(m.fields, SIGNED_HEADERS);
    AddedSet(c, s, m, sets, cv, t, new_);
    AddedAms(c, s, m, n, t);
    ListedSome(m.fields, SIGNED_HEADERS);
    SelectionAgrees(new_, m.fields);
    ArcNames();
    SignedFieldRead(AMS, tags, amsSig);
    SignedFieldStripped(AMS, tags, amsSig);
    hide TagsOf, Value, StripSignature, SignedField, HasSignedField, TagMap, CleanTags, ListedNames, SignedFields, Selected, NewAmsTags, Front;
    AmsOfTags(c, s, m, n, t, Front(new_) + m.fields, new_.ams, amsSig);
  }

  lemma AmsOfTags(c: Crypto, s: Sealer, m: Message, n: nat, t: int, fields: seq<Field>, ams: Field, sig: string)
    requires EncodingLaws(c) && KeyPublished(c, s) && NamedSealer(s)
    requires Sign(c, s, NewAmsInput(m, NewAmsTags(c, s, m, n, t))) == Some(sig)
    requires TagsOf(Value(ams)) == Some(TagMap(NewAmsTags(c, s, m, n, t) + [Tag("b", sig)]))
    requires StripSignature(ams) == SignedField(AMS, NewAmsTags(c, s, m, n, t), "")
    requires Selected(fields, ListedNames(m.fields, SIGNED_HEADERS), {}) == SignedFields(m.fields, SIGNED_HEADERS)
    ensures AmsProblem(c, fields, m.body, ams) ==
            if ListedNames(m.fields, SIGNED_HEADERS) != [] then None else Some(MissingTag("h"))
  {
    var names := ListedNames(m.fields, SIGNED_HEADERS);
    var bh, h := c.encode(c.hash(CanonBodyOf(m.body, true))), Join(names, ":");
    var tags := TagMap(NewAmsTags(c, s, m, n, t) + [Tag("b", sig)]);
    var input := NewAmsInput(m, NewAmsTags(c, s, m, n, t));
    assert input == AmsInput(fields, ams, names, true);
    assert NewAmsTags(c, s, m, n, t) == AmsTags(s, n, t, bh, h);
    ListClean(c, m);
    SignGivesClean(c, s, input);
    hide TagsOf, Value, StripSignature, SignedField, TagMap, ListedNames, SignedFields, Selected, NewAmsTags, NewAmsInput, AmsTags, AmsInput;
    hide CanonBodyOf, RemoveSpaces, Split, CleanNames, CleanValue, KeyName, CanonicalizationOf, KeyPublished, NamedSealer, Sign, EncodingLaws;
    AmsTagValues(s, n, t, bh, h, sig);
    SignatureAccepted(c, s, tags, input, sig);
    AlgorithmClean(s);
    assert s.domain != "" && s.selector != "" by { SealerNamed(s); }
    hide Algorithm;
    AmsVerdict(c, m, fields, ams, tags, names, bh, input);
  }

  lemma SealerNamed(s: Sealer)
    requires NamedSealer(s)
    ensures s.domain != "" && s.selector != ""
  {
  }

  lemma AmsVerdict(c: Crypto, m: Message, fields: seq<Field>, ams: Field, tags: Tags, names: seq<string>, bh: string, input: string)
    requires TagsOf(Value(ams)) == Some(tags)
    requires TagOf(tags, "a") != "" && TagOf(tags, "b") != "" && TagOf(tags, "d") != "" && TagOf(tags, "s") != ""
    requires TagOf(tags, "bh") == bh == c.encode(c.hash(CanonBodyOf(m.body, true))) && bh != "" && RemoveSpaces(bh) == bh
    requires TagOf(tags, "c") == "relaxed/relaxed" && TagOf(tags, "l") == ""
    requires TagOf(tags, "h") == Join(names, ":") && RemoveSpaces(Join(names, ":")) == Join(names, ":")
    requires names != [] ==> Join(names, ":") != "" && Split(Join(names, ":"), ':') == names
    requires AmsInput(fields, ams, names, true) == input
    requires SignatureProblem(c, tags, input) == None
    ensures AmsProblem(c, fields, m.body, ams) == if names != [] then None else Some(MissingTag("h"))
  {
    hide CanonBodyOf, RemoveSpaces, Split, TagsOf, Value, AmsInput, SignatureProblem, CanonicalizationOf, MissingOf, TagOf;
    AmsTagsPresent(tags);
    RelaxedBoth(TagOf(tags, "c"));
    assert Limited(CanonBodyOf(m.body, true), "") == Some(CanonBodyOf(m.body, true));
    if names == [] {
      assert Join(names, ":") == "";
    }
  }

  // ----- sealing then validating -----

  lemma {:induction false} FirstCVExtended(sets: seq<ArcSet>, s: ArcSet)
    requires FirstCVProblem(sets) == None
    ensures FirstCVProblem(sets + [s]) == CVProblem(s, |sets|)
  {
    hide CVProblem;
    assert (sets + [s])[..|sets|] == sets;
  }

  lemma CVTexts()
    ensures LowerText(CV_NONE) && LowerText(CV_PASS) && LowerText(CV_FAIL)
    ensures CV_NONE != CV_FAIL && CV_PASS != CV_FAIL && CV_NONE != CV_PASS
  {
    assert CV_NONE[0] == 'n' && CV_PASS[0] == 'p' && CV_FAIL[0] == 'f';
  }

  lemma CVClean(cv: string)
    requires cv == CV_NONE || cv == CV_PASS || cv == CV_FAIL
    ensures CleanValue(cv) && ToLower(cv) == cv
  {
    CVTexts();
    LowerTextClean(cv);
  }

  /** The chain of a message extended by a set the sealer made. */
  lemma ExtendedVerdict(c: Crypto, s: Sealer, m: Message, sets: seq<ArcSet>, cv: string, t: int, new_: ArcSet)
    requires EncodingLaws(c) && KeyPublished(c, s) && NamedSealer(s) && |sets| < MAX_INSTANCES
    requires Added(c, s, m, sets, cv, t, new_) && cv == WantedCV(|sets|)
    requires FirstCVProblem(sets) == None && LastSealProblem(c, sets) == None
    ensures ChainVerdict(c, Message(Front(new_) + m.fields, m.body), sets + [new_]) ==
            if HasSignedField(m) then Pass(|sets| + 1) else Fail(|sets| + 1, BadMessageSignature(MissingTag("h")))
  {
    var all := sets + [new_];
    CVTexts();
    CVClean(cv);
    hide CleanValue, HasSignedField, AmsProblem, SealProblem, Added, ToLower, LowerText, Front, TagsOf, Value, WantedCV;
    NewSealAccepted(c, s, m, sets, cv, t, new_);
    NewAmsChecked(c, s, m, sets, cv, t, new_);
    assert all[..|sets|] == sets && all[|sets|] == new_;
    FirstCVExtended(sets, new_);
    assert LatestCV(all) == cv;
    assert CVProblem(new_, |sets|) == None;
    assert LastSealProblem(c, all) == None;
    assert cv == CV_NONE || cv == CV_PASS by { WantedIs(|sets|); }
  }

  lemma WantedIs(i: nat)
    ensures WantedCV(i) == CV_NONE || WantedCV(i) == CV_PASS
  {
  }

  /** No chain, or a validated one that still has room. */
  ghost predicate Extensible(c: Crypto, original: string, cv: string) {
    var v := VerdictOf(c, original);
    v.NoChain? || (v.Pass? && v.instance < MAX_INSTANCES && cv == CV_PASS)
  }

  ghost predicate OneLineResults(s: Sealer, authserv: string, results: string) {
    OneLine(OrElse(authserv, s.domain)) && OneLine(results)
  }

  lemma PassedChain(c: Crypto, m: Message, sets: seq<ArcSet>)
    requires sets != [] && ChainVerdict(c, m, sets).Pass?
    ensures FirstCVProblem(sets) == None && LastSealProblem(c, sets) == None && LatestCV(sets) != CV_FAIL
    ensures ChainVerdict(c, m, sets).instance == |sets|
  {
    hide AmsProblem, LastSealProblem, FirstCVProblem, LatestCV;
  }

  lemma VerdictNotNone(c: Crypto, m: Message, sets: seq<ArcSet>)
    requires sets != []
    ensures !ChainVerdict(c, m, sets).NoChain?
  {
    hide AmsProblem, LastSealProblem, FirstCVProblem, LatestCV;
  }

  /** The length of the chain that a verdict talks about. */
  function ChainLength(v: Verdict): nat {
    if v.Pass? then v.instance else 0
  }

  lemma ExtensibleChain(c: Crypto, original: string, cv: string)
    requires Extensible(c, original, cv)
    ensures var m := MessageOf(Normalized(original));
            && ChainOf(m.fields).Some?
            && var sets := ChainOf(m.fields).value;
            && |sets| < MAX_INSTANCES && |sets| == ChainLength(VerdictOf(c, original))
            && FirstCVProblem(sets) == None && LastSealProblem(c, sets) == None
            && SealedCV(sets, cv) == WantedCV(|sets|)
            && Refusal(Some(sets), cv) == None
  {
    var m := MessageOf(Normalized(original));
    hide ChainVerdict, ChainOf, MessageOf, Normalized, LatestCV, FirstCVProblem, LastSealProblem;
    var sets := ChainOf(m.fields).value;
    if sets == [] {
      NothingWrong(c, sets);
    } else {
      VerdictNotNone(c, m, sets);
      PassedChain(c, m, sets);
    }
  }

  lemma NothingWrong(c: Crypto, sets: seq<ArcSet>)
    requires sets == []
    ensures FirstCVProblem(sets) == None && LastSealProblem(c, sets) == None
  {
  }

  ghost function Made(c: Crypto, s: Sealer, original: string, authserv: string, results: string, cv: string, t: int): Option<ArcSet> {
    var m := MessageOf(Normalized(original));
    match ChainOf(m.fields)
    case None => None
    case Some(sets) => NewSet(c, s, m, sets, OrElse(authserv, s.domain), OrElse(results, "none"), SealedCV(sets, cv), t)
  }

  lemma SealIs(c: Crypto, s: Sealer, original: string, authserv: string, results: string, cv: string, t: int)
    requires Refusal(ChainOf(MessageOf(Normalized(original)).fields), cv) == None
    ensures var made := Made(c, s, original, authserv, results, cv, t);
            SealOf(c, s, original, authserv, results, cv, t) ==
            (if made.Some? then Sealed(Written(made.value) + original) else Refused(SigningFailed))
  {
    hide MessageOf, Normalized, ChainOf, LatestCV, NewSet, Written, OrElse, SealedCV;
  }

  lemma SealProceeds(c: Crypto, s: Sealer, original: string, authserv: string, results: string, cv: string, t: int)
    requires var m := MessageOf(Normalized(original));
             ChainOf(m.fields).Some? && Refusal(ChainOf(m.fields), cv) == None
    requires OneLineResults(s, authserv, results)
    ensures var m := MessageOf(Normalized(original));
            var sets := ChainOf(m.fields).value;
            var r := SealOf(c, s, original, authserv, results, cv, t);
            if r.Sealed? then
              exists new_ :: r.out == Written(new_) + original && Added(c, s, m, sets, SealedCV(sets, cv), t, new_)
            else r.why == SigningFailed
  {
    hide MessageOf, Normalized, ChainOf, Refusal, Written, OneLineResults, SealedCV, SealOf, Made, Added;
    SealIs(c, s, original, authserv, results, cv, t);
    if Made(c, s, original, authserv, results, cv, t).Some? {
      MadeAdded(c, s, original, authserv, results, cv, t);
    }
  }

  lemma OrElseLine(a: string, b: string)
    requires OneLine(a) && OneLine(b)
    ensures OneLine(OrElse(a, b))
  {
  }

  lemma MadeAdded(c: Crypto, s: Sealer, original: string, authserv: string, results: string, cv: string, t: int)
    requires OneLineResults(s, authserv, results) && Made(c, s, original, authserv, results, cv, t).Some?
    ensures var m := MessageOf(Normalized(original));
            && ChainOf(m.fields).Some?
            && var sets := ChainOf(m.fields).value;
            Added(c, s, m, sets, SealedCV(sets, cv), t, Made(c, s, original, authserv, results, cv, t).value)
  {
    LinesUsed(s, authserv, results);
    hide MessageOf, Normalized, ChainOf, NewSet, OneLine, OrElse, SealedCV, Added, OneLineResults;
    var m := MessageOf(Normalized(original));
    var sets := ChainOf(m.fields).value;
    AddedBy(c, s, m, sets, OrElse(authserv, s.domain), OrElse(results, "none"), SealedCV(sets, cv), t,
            Made(c, s, original, authserv, results, cv, t).value);
  }

  lemma LinesUsed(s: Sealer, authserv: string, results: string)
    requires OneLineResults(s, authserv, results)
    ensures OneLine(OrElse(authserv, s.domain)) && OneLine(OrElse(results, "none"))
  {
    OrElseLine(results, "none");
  }

  lemma AddedBy(c: Crypto, s: Sealer, m: Message, sets: seq<ArcSet>, serv: string, res: string, cv: string, t: int, new_: ArcSet)
    requires OneLine(serv) && OneLine(res) && NewSet(c, s, m, sets, serv, res, cv, t) == Some(new_)
    ensures Added(c, s, m, sets, cv, t, new_)
  {
    hide NewSet, OneLine;
  }

  /** Sealing then validating: the sealer refuses nothing it should extend, and the result
      validates at the next instance exactly when the message has a field to sign. */
  lemma SealThenVerify(c: Crypto, s: Sealer, original: string, authserv: string, results: string, cv: string, t: int)
    requires EncodingLaws(c) && KeyPublished(c, s) && NamedSealer(s)
    requires Spooled(original) && OneLineResults(s, authserv, results) && Extensible(c, original, cv)
    ensures var r := SealOf(c, s, original, authserv, results, cv, t);
            var next := ChainLength(VerdictOf(c, original)) + 1;
            if r.Sealed? then
              VerdictOf(c, r.out) ==
              if HasSignedField(MessageOf(Normalized(original))) then Pass(next)
              else Fail(next, BadMessageSignature(MissingTag("h")))
            else r.why == SigningFailed
  {
    var m := MessageOf(Normalized(original));
    ExtensibleChain(c, original, cv);
    hide HasSignedField, Spooled, VerdictOf, Written, KeyPublished, NamedSealer, EncodingLaws, Refusal, Extensible, MessageOf, Normalized;
    hide FirstCVProblem, LastSealProblem, WantedCV, SealedCV, OneLineResults, SealOf, ChainOf, Added;
    SealProceeds(c, s, original, authserv, results, cv, t);
    var sets := ChainOf(m.fields).value;
    var r := SealOf(c, s, original, authserv, results, cv, t);
    if r.Sealed? {
      var new_ :| r.out == Written(new_) + original && Added(c, s, m, sets, SealedCV(sets, cv), t, new_);
      SealedVerdict(c, s, original, m, sets, SealedCV(sets, cv), t, new_);
    }
  }

  lemma SealedVerdict(c: Crypto, s: Sealer, original: string, m: Message, sets: seq<ArcSet>, cv: string, t: int, new_: ArcSet)
    requires EncodingLaws(c) && KeyPublished(c, s) && NamedSealer(s) && Spooled(original)
    requires m == MessageOf(Normalized(original)) && ChainOf(m.fields) == Some(sets) && |sets| < MAX_INSTANCES
    requires Added(c, s, m, sets, cv, t, new_) && cv == WantedCV(|sets|)
    requires FirstCVProblem(sets) == None && LastSealProblem(c, sets) == None
    ensures VerdictOf(c, Written(new_) + original) ==
            if HasSignedField(m) then Pass(|sets| + 1) else Fail(|sets| + 1, BadMessageSignature(MissingTag("h")))
  {
    WantedIs(|sets|);
    CVClean(cv);
    hide Added, EncodingLaws, KeyPublished, NamedSealer, Spooled, MessageOf, Normalized, HasSignedField, FirstCVProblem, LastSealProblem, ChainVerdict, Front, WritableSet, NextSet, Written, WantedCV, CleanValue, ToLower, Represents;
    AddedSet(c, s, m, sets, cv, t, new_);
    SealedMessage(new_, original);
    ChainExtended(new_, m.fields, sets);
    ExtendedVerdict(c, s, m, sets, cv, t, new_);
  }
}
