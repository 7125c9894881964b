// A pass is sound: when signatures cannot be forged and digests do not collide, a message that
// validates carries the body and the signed header fields of a message the sealer sealed.

module ArcSoundness {
  import opened Options
  import opened Text
  import opened ArcCanon
  import opened ArcCanonLaws
  import opened ArcTags
  import opened ArcChain
  import opened ArcVerify
  import opened ArcSeal
  import opened ArcFraming
  import opened ArcSelection
  import opened ArcRoundTrip
  import opened ArcDecoding
  import opened ArcTagDecoding
  import opened ArcTagAgree
  import opened ArcParsed

  // ----- lines that start with a name -----

  ghost predicate NamedBy(f: Field) {
    exists clean :: CleanName(clean) && EqualFold(f.name, clean)
  }

  ghost predicate AllNamed(fields: seq<Field>) {
    forall i :: 0 <= i < |fields| ==> NamedBy(fields[i])
  }

  /** One line, not empty, not a continuation. */
  predicate PlainLine(s: string) {
    s != "" && OneLine(s) && !IsBlank(s[0])
  }

  lemma NamedLine(f: Field)
    requires NamedBy(f)
    ensures PlainLine(Canon(f, true))
  {
    var clean :| CleanName(clean) && EqualFold(f.name, clean);
    CanonOfNamed(f, clean);
    assert ToLower(clean)[0] == Lower(clean[0]) && NameChar(clean[0]);
    hide CanonValue;
    assert Canon(f, true)[0] == ToLower(clean)[0];
  }

  lemma NamedOneLiners(fields: seq<Field>)
    requires AllNamed(fields)
    ensures OneLiners(fields)
  {
    hide NamedBy, Canon, OneLine;
    forall i | 0 <= i < |fields|
      ensures OneLine(Canon(fields[i], true))
    {
      NamedLine(fields[i]);
    }
  }

  /** No line feed is followed by a blank, and none ends the text. */
  predicate Unfolded(s: string) {
    forall i :: 0 <= i < |s| && s[i] == '\n' ==> i + 1 < |s| && !IsBlank(s[i + 1])
  }

  lemma UnfoldedStep(l: string, rest: string)
    requires OneLine(l) && rest != "" && !IsBlank(rest[0]) && Unfolded(rest)
    ensures Unfolded(l + CRLF + rest)
  {
    var s := l + CRLF + rest;
    assert forall i :: 0 <= i < |l| ==> s[i] == l[i] && l[i] in l;
    assert s[|l| + 2] == rest[0];
    assert forall i :: 0 <= i < |rest| ==> s[|l| + 2 + i] == rest[i];
  }

  lemma {:induction false} StreamUnfolded(fields: seq<Field>, x: string)
    requires AllNamed(fields) && PlainLine(x)
    ensures var s := HeaderStream(fields, true) + x; Unfolded(s) && s != "" && !IsBlank(s[0])
  {
    hide NamedBy, Canon;
    if fields == [] {
      assert "" + x == x;
      assert forall i :: 0 <= i < |x| ==> x[i] in x;
    } else {
      NamedLine(fields[0]);
      StreamUnfolded(fields[1..], x);
      var l, rest := Canon(fields[0], true), HeaderStream(fields[1..], true);
      UnfoldedStep(l, rest + x);
      assert l + CRLF + rest + x == l + CRLF + (rest + x);
    }
  }

  lemma NotFoldedHere(a: string, r: string)
    requires Unfolded(a + r) && Folded(r)
    ensures '\n' !in r
  {
    forall k | 0 <= k < |r|
      ensures r[k] != '\n'
    {
      var i := |a| + k;
      assert (a + r)[i] == r[k];
      assert k + 1 < |r| ==> (a + r)[i + 1] == r[k + 1];
    }
  }

  // ----- splitting what was verified into stream and last line -----

  /** Whatever the header canonicalisation of the received field, it decodes like the signed bytes. */
  lemma InputsSplit(had: seq<Field>, f: Field, relaxed: bool, signed: seq<Field>, g: Field)
    requires AllNamed(signed) && NamedBy(g)
    requires Parsed(f) && EqualFold(f.name, AMS)
    requires HeaderStream(had, relaxed) + Canon(StripSignature(f), relaxed) == HeaderStream(signed, true) + Canon(g, true)
    ensures HeaderStream(had, relaxed) == HeaderStream(signed, true)
    ensures Canon(StripSignature(f), relaxed) == Canon(g, true)
  {
    var h := StripSignature(f);
    NamedLine(g);
    StrippedParsed(f);
    AmsClean();
    assert Canon(h, false) == h.raw;
    hide Canon, StripSignature, NamedBy, HeaderStream, Parsed, Folded, EqualFold, CleanName, PlainLine, CanonValue;
    StreamEndsLine(had, relaxed);
    StreamEndsLine(signed, true);
    if relaxed {
      CanonOfNamed(h, AMS);
    } else {
      StreamUnfolded(signed, Canon(g, true));
      NotFoldedHere(HeaderStream(had, relaxed), h.raw);
    }
    PlainLineEnds(Canon(g, true));
    LastLineUnique(HeaderStream(had, relaxed), Canon(h, relaxed), HeaderStream(signed, true), Canon(g, true));
  }

  lemma PlainLineEnds(s: string)
    requires PlainLine(s)
    ensures '\n' !in s
  {
  }

  lemma AmsClean()
    ensures CleanName(AMS) && CleanName(AAR) && CleanName(AS)
    ensures |AMS| == 21 && |AAR| == 26 && |AS| == 8
  {
  }

  lemma ColonUnique(a: string, v: string, b: string, w: string)
    requires ':' !in a && ':' !in b && a + ":" + v == b + ":" + w
    ensures a == b && v == w
  {
    FirstColon(a, v);
    FirstColon(b, w);
  }

  lemma CanonValueTwice(v: string)
    ensures CanonValue(CanonValue(v)) == CanonValue(v)
  {
    var u := Compressed(RemoveLineEnds(v));
    CanonValueOneLine(v);
    RemoveLineEndsOneLine(CanonValue(v));
    TrimCompressed(u);
    CompressedIsCompressed(RemoveLineEnds(v));
    CompressedFixed(u);
    TrimSpaceTrimmed(u);
    assert CanonValue(v) == TrimSpace(u);
  }

  lemma TrimSpaceTrimmed(u: string)
    ensures TrimSpace(TrimSpace(u)) == TrimSpace(u)
  {
    TrimmedHead(u);
    TrimTrimmed(TrimSpace(u));
  }

  lemma FoldedLength(a: string, b: string, d: string)
    requires EqualFold(a, b) && |a| == |d|
    ensures |b| == |d|
  {
  }

  lemma NameOfLower(s: string, clean: string)
    requires s == ToLower(clean) && CleanName(clean)
    ensures TrimRightBlanks(s) == s
  {
    assert forall i :: 0 <= i < |s| ==> s[i] == Lower(clean[i]) && NameChar(clean[i]);
  }

  /** The last line tells that a message signature was signed, and fixes its canonical value. */
  lemma LastLineDecodes(f: Field, relaxed: bool, g: Field)
    requires Parsed(f) && EqualFold(f.name, AMS) && NamedBy(g)
    requires Canon(StripSignature(f), relaxed) == Canon(g, true)
    ensures EqualFold(g.name, AMS) && CanonValue(StripValue(Value(f))) == CanonValue(Value(g))
  {
    var clean :| CleanName(clean) && EqualFold(g.name, clean);
    var h, colon := StripSignature(f), IndexByte(f.raw, ':');
    assert f.name == TrimRightBlanks(f.raw[..colon]);
    StrippedParsed(f);
    AmsClean();
    assert Canon(h, false) == h.raw;
    hide Canon, StripSignature, Parsed, CleanName, CanonValue, StripValue, Value, TrimRightBlanks, Folded, IndexByte, ToLower;
    CanonOfNamed(g, clean);
    if relaxed {
      CanonOfNamed(h, AMS);
      ColonUnique(ToLower(AMS), CanonValue(Value(h)), ToLower(clean), CanonValue(Value(g)));
    } else {
      ColonUnique(f.raw[..colon], StripValue(Value(f)), ToLower(clean), CanonValue(Value(g)));
      NameOfLower(f.raw[..colon], clean);
      LowerTwice(clean);
      CanonValueTwice(Value(g));
    }
  }

  // ----- the fields a seal covers -----

  function SetFields(sets: seq<ArcSet>): seq<Field> {
    if sets == [] then []
    else
      var s := sets[|sets| - 1];
      SetFields(sets[..|sets| - 1]) + [s.aar, s.ams, s.sl]
  }

  lemma ThreeLines(a: Field, b: Field, d: Field)
    ensures HeaderStream([a, b, d], true) == CanonHeader(a, true) + CanonHeader(b, true) + CanonHeader(d, true)
    ensures HeaderStream([a, b], true) == CanonHeader(a, true) + CanonHeader(b, true)
  {
    hide CanonHeader, HeaderStream;
    HeaderStreamOne(a, true);
    HeaderStreamOne(b, true);
    HeaderStreamOne(d, true);
    assert [a, b] == [a] + [b] && [a, b, d] == [a, b] + [d];
    HeaderStreamAppend([a], [b], true);
    HeaderStreamAppend([a, b], [d], true);
  }

  lemma {:induction false} SetLinesStream(sets: seq<ArcSet>)
    ensures SetLines(sets) == HeaderStream(SetFields(sets), true)
    decreases |sets|
  {
    hide CanonHeader, HeaderStream;
    if sets == [] {
      assert HeaderStream([], true) == "" by { EmptyStream(); }
    } else {
      var s, init := sets[|sets| - 1], sets[..|sets| - 1];
      SetLinesStream(init);
      HeaderStreamAppend(SetFields(init), [s.aar, s.ams, s.sl], true);
      ThreeLines(s.aar, s.ams, s.sl);
    }
  }

  lemma EmptyStream()
    ensures HeaderStream([], true) == ""
  {
  }

  lemma SealInputStream(sets: seq<ArcSet>, s: ArcSet)
    ensures SealInputOf(sets + [s]) ==
            HeaderStream(SetFields(sets) + [s.aar, s.ams], true) + Canon(StripSignature(s.sl), true)
  {
    hide CanonHeader, HeaderStream, Canon, StripSignature;
    assert (sets + [s])[..|sets|] == sets;
    SetLinesStream(sets);
    HeaderStreamAppend(SetFields(sets), [s.aar, s.ams], true);
    ThreeLines(s.aar, s.ams, s.ams);
  }

  ghost predicate SetNamed(s: ArcSet) {
    NamedBy(s.aar) && NamedBy(s.ams) && NamedBy(s.sl)
  }

  lemma {:induction false} SetFieldsNamed(sets: seq<ArcSet>)
    requires forall i :: 0 <= i < |sets| ==> SetNamed(sets[i])
    ensures AllNamed(SetFields(sets))
    decreases |sets|
  {
    hide NamedBy;
    if sets != [] {
      SetFieldsNamed(sets[..|sets| - 1]);
    }
  }

  lemma PlacedNamed(fields: seq<Field>, i: int, k: Kind, n: nat)
    requires Placed(fields, i, k, n)
    ensures NamedBy(fields[i])
    ensures k == Signature ==> EqualFold(fields[i].name, AMS)
    ensures k == Seal ==> EqualFold(fields[i].name, AS)
  {
    hide CleanName, InstanceOf, EqualFold;
    AmsClean();
  }

  lemma ChainNamed(fields: seq<Field>)
    requires ChainOf(fields).Some?
    ensures AllNamed(SetFields(ChainOf(fields).value))
  {
    hide SetNamed, HoldsSet, NumberedUpTo, Unrepeated, SetFields;
    var sets := ChainOf(fields).value;
    forall i | 0 <= i < |sets|
      ensures SetNamed(sets[i])
    {
      HoldsNamed(fields, sets[i], i + 1);
    }
    SetFieldsNamed(sets);
  }

  lemma HoldsNamed(fields: seq<Field>, s: ArcSet, n: nat)
    requires HoldsSet(fields, s, n)
    ensures SetNamed(s)
    ensures EqualFold(s.ams.name, AMS) && s.ams in fields && EqualFold(s.sl.name, AS)
  {
    hide MarkOf, NamedBy, EqualFold;
    var i :| Placed(fields, i, Results, n) && fields[i] == s.aar;
    var j :| Placed(fields, j, Signature, n) && fields[j] == s.ams;
    var k :| Placed(fields, k, Seal, n) && fields[k] == s.sl;
    PlacedNamed(fields, i, Results, n);
    PlacedNamed(fields, j, Signature, n);
    PlacedNamed(fields, k, Seal, n);
  }

  // ----- selected fields are named cleanly -----

  lemma {:induction false} NamedAll(fields: seq<Field>, name: string, m: nat)
    requires m <= |fields| && CleanName(name)
    ensures AllNamed(Named(fields, name, m))
    decreases m
  {
    if m > 0 {
      hide CleanName, EqualFold;
      NamedAll(fields, name, m - 1);
    }
  }

  lemma {:induction false} SignedNamed(fields: seq<Field>, names: seq<string>)
    requires CleanNames(names)
    ensures AllNamed(SignedFields(fields, names))
    decreases |names|
  {
    if names != [] {
      hide CleanName, Named, NamedBy;
      SignedNamed(fields, names[..|names| - 1]);
      NamedAll(fields, names[|names| - 1], |fields|);
    }
  }

  lemma {:induction false} PickNamed(fields: seq<Field>, name: string, used: set<nat>, m: nat)
    requires m <= |fields| && Pick(fields, name, used, m) >= 0
    ensures EqualFold(fields[Pick(fields, name, used, m)].name, name)
  {
    hide EqualFold;
    if !(m - 1 !in used && EqualFold(fields[m - 1].name, name)) {
      PickNamed(fields, name, used, m - 1);
    }
  }

  lemma {:induction false} SelectedNamed(fields: seq<Field>, names: seq<string>, used: set<nat>)
    requires CleanNames(names)
    ensures AllNamed(Selected(fields, names, used))
    decreases |names|
  {
    if names != [] {
      hide CleanName, Pick, EqualFold;
      var i := Pick(fields, names[0], used, |fields|);
      if i < 0 {
        SelectedNamed(fields, names[1..], used);
      } else {
        PickNamed(fields, names[0], used, |fields|);
        assert CleanName(names[0]) && NamedBy(fields[i]);
        SelectedNamed(fields, names[1..], used + {i});
      }
    }
  }

  // ----- what the signer was asked to sign -----

  /** One call of the sealer. */
  datatype SealRun = SealRun(s: Sealer, original: string, authserv: string, results: string, cv: string, t: int)

  function RunMessage(run: SealRun): Message {
    MessageOf(Normalized(run.original))
  }

  ghost function RunSets(run: SealRun): seq<ArcSet> {
    match ChainOf(RunMessage(run).fields)
    case None => []
    case Some(sets) => sets
  }

  ghost function RunAmsTags(c: Crypto, run: SealRun): seq<Tag> {
    NewAmsTags(c, run.s, RunMessage(run), |RunSets(run)| + 1, run.t)
  }

  ghost predicate AmsSigned(c: Crypto, run: SealRun, x: string) {
    x == NewAmsInput(RunMessage(run), RunAmsTags(c, run))
  }

  ghost predicate SealSigned(c: Crypto, run: SealRun, x: string) {
    var sets, n := RunSets(run), |RunSets(run)| + 1;
    exists amsSig ::
      && Sign(c, run.s, NewAmsInput(RunMessage(run), RunAmsTags(c, run))) == Some(amsSig)
      && x == SealInputOf(sets + [ArcSet(
                ResultsField(n, OrElse(run.authserv, run.s.domain), OrElse(run.results, "none")),
                SignedField(AMS, RunAmsTags(c, run), amsSig),
                SignedField(AS, SealTags(run.s, n, run.t, SealedCV(sets, run.cv)), ""))])
  }

  /** The bytes whose digest the run hands to the signer: the message's, then the seal's. */
  ghost predicate SignedIn(c: Crypto, run: SealRun, x: string) {
    && Refusal(ChainOf(RunMessage(run).fields), run.cv) == None
    && (AmsSigned(c, run, x) || SealSigned(c, run, x))
  }

  ghost function RunResult(c: Crypto, run: SealRun): SealResult {
    SealOf(c, run.s, run.original, run.authserv, run.results, run.cv, run.t)
  }

  lemma SameTags(c: Crypto, s: Sealer, r: Sealer, m: Message, n: nat, t: int, cv: string)
    requires s.domain == r.domain && s.selector == r.selector && s.ed25519 == r.ed25519
    ensures NewAmsTags(c, s, m, n, t) == NewAmsTags(c, r, m, n, t) && SealTags(s, n, t, cv) == SealTags(r, n, t, cv)
  {
    hide Decimal, FormatInt, CanonBodyOf, Join, ListedNames;
  }

  lemma SameSign(c: Crypto, s: Sealer, r: Sealer, x: string)
    requires s.sign(c.hash(x)) == r.sign(c.hash(x))
    ensures Sign(c, s, x) == Sign(c, r, x)
  {
  }

  lemma SameSet(c: Crypto, run: SealRun, r: Sealer)
    requires run.s.domain == r.domain && run.s.selector == r.selector && run.s.ed25519 == r.ed25519
    requires forall x :: AmsSigned(c, run, x) || SealSigned(c, run, x) ==> Sign(c, run.s, x) == Sign(c, r, x)
    ensures var m, sets, cv := RunMessage(run), RunSets(run), SealedCV(RunSets(run), run.cv);
            var serv, res := OrElse(run.authserv, run.s.domain), OrElse(run.results, "none");
            NewSet(c, run.s, m, sets, serv, res, cv, run.t) == NewSet(c, r, m, sets, serv, res, cv, run.t)
  {
    hide NewAmsTags, SealTags, NewAmsInput, SealInputOf, ResultsField, SignedField, Sign, OrElse, SealedCV, RunMessage, RunSets;
    var m, sets, cv := RunMessage(run), RunSets(run), SealedCV(RunSets(run), run.cv);
    var serv, res, n := OrElse(run.authserv, run.s.domain), OrElse(run.results, "none"), |sets| + 1;
    SameTags(c, run.s, r, m, n, run.t, cv);
    var tags := NewAmsTags(c, run.s, m, n, run.t);
    assert AmsSigned(c, run, NewAmsInput(m, tags));
    var amsSig := Sign(c, run.s, NewAmsInput(m, tags));
    if amsSig.Some? {
      assert SealSigned(c, run, SealInputOf(sets + [ArcSet(
        ResultsField(n, serv, res), SignedField(AMS, tags, amsSig.value), SignedField(AS, SealTags(run.s, n, run.t, cv), ""))]));
    }
  }

  /** The sealer asks for no other signature: a signer that answers these alike gives the same result. */
  lemma SignsNothingElse(c: Crypto, run: SealRun, sign: string -> Option<string>)
    requires forall x :: SignedIn(c, run, x) ==> sign(c.hash(x)) == run.s.sign(c.hash(x))
    ensures RunResult(c, run) == RunResult(c, run.(s := run.s.(sign := sign)))
  {
    var r := run.s.(sign := sign);
    if Refusal(ChainOf(RunMessage(run).fields), run.cv) == None {
      forall x | AmsSigned(c, run, x) || SealSigned(c, run, x)
        ensures Sign(c, run.s, x) == Sign(c, r, x)
      {
        assert SignedIn(c, run, x);
        SameSign(c, run.s, r, x);
      }
      hide AmsSigned, SealSigned, SignedIn;
      SameSet(c, run, r);
    }
    hide NewSet, ChainOf, MessageOf, Normalized, Written, AmsSigned, SealSigned, SignedIn;
  }

  /** What the key signs besides: it is the domain's DKIM key too. Such an input is relaxed header lines and, last, a
      signature field of another name (RFC 6376, section 3.7). */
  ghost predicate SignedElsewhere(x: string) {
    exists signed, g ::
      && x == HeaderStream(signed, true) + Canon(g, true) && AllNamed(signed) && NamedBy(g)
      && !EqualFold(g.name, AMS) && !EqualFold(g.name, AS)
  }

  /** Signatures that check under `key` were made in one of `runs`, or for mail signed with DKIM. */
  ghost predicate Unforgeable(c: Crypto, key: Key, runs: seq<SealRun>) {
    forall d, sig :: c.verifies(key, d, sig) ==>
      (exists run, x :: run in runs && SignedIn(c, run, x) && c.hash(x) == d) || (exists x :: SignedElsewhere(x) && c.hash(x) == d)
  }

  ghost predicate CollisionFree(c: Crypto) {
    forall x, y :: c.hash(x) == c.hash(y) ==> x == y
  }

  // ----- every signed input is a stream of named lines and a last line -----

  lemma RunAmsTagsClean(c: Crypto, run: SealRun)
    requires EncodingLaws(c) && NamedSealer(run.s)
    ensures CleanTags(RunAmsTags(c, run) + [Tag("b", "")])
  {
    var m := RunMessage(run);
    ListClean(c, m);
    assert CleanValue("");
    hide CleanTags, AmsTags, CanonBodyOf, Join, Split, RemoveSpaces, CleanValue, EncodingLaws, NamedSealer;
    AmsTagsClean(run.s, |RunSets(run)| + 1, run.t, c.encode(c.hash(CanonBodyOf(m.body, true))),
                 Join(ListedNames(m.fields, SIGNED_HEADERS), ":"), "");
  }

  lemma SignedHeadersClean()
    ensures CleanNames(SIGNED_HEADERS)
  {
    hide CleanName;
    forall k | 0 <= k < |SIGNED_HEADERS|
      ensures CleanName(SIGNED_HEADERS[k])
    {
      HeaderNamesClean(k);
    }
  }

  lemma NamedField(name: string, tags: seq<Tag>)
    requires name == AMS || name == AS
    ensures NamedBy(SignedField(name, tags, "")) && SignedField(name, tags, "").name == name
    ensures NamedBy(StripSignature(SignedField(name, tags, ""))) && StripSignature(SignedField(name, tags, "")).name == name
  {
    AmsClean();
    hide CleanName, Render, StripValue;
    assert EqualFold(name, name);
  }
}
