// Which messages header lines of later hops can still make pass: all but those with an irreparable chain, or with a
// seal or a fiftieth message signature that no keys at all could make verify.

module ArcRepair {
  import opened Options
  import opened Text
  import opened ArcCanon
  import opened ArcTags
  import opened ArcChain
  import opened ArcVerify
  import opened ArcSeal
  import opened ArcFraming
  import opened ArcRoundTrip
  import opened ArcSelection
  import opened ArcTheorems
  import opened ArcCanonLaws
  import opened ArcPermanence
  import opened ArcIrreparable

  /** The DNS name a signature takes its key from, and the type the key there must have. */
  datatype Signer = Signer(key: string, ed25519: bool)

  /** None is a signature that verifies under no key. */
  function SignerOf(c: Crypto, tags: Tags): Option<Signer> {
    var a := ToLower(TagOf(tags, "a"));
    if c.decode(RemoveSpaces(TagOf(tags, "b"))).None? || (a != RSA_SHA256 && a != ED25519_SHA256) then None
    else Some(Signer(KeyName(TagOf(tags, "s"), TagOf(tags, "d")), a != RSA_SHA256))
  }

  function SealSigner(c: Crypto, f: Field): Option<Signer> {
    match TagsOf(Value(f))
    case None => None
    case Some(tags) =>
      if MissingOf(tags, SEAL_TAGS).Some? || TagOf(tags, "h") != "" then None else SignerOf(c, tags)
  }

  predicate BodyFits(c: Crypto, tags: Tags, body: string) {
    match CanonicalizationOf(TagOf(tags, "c"))
    case None => false
    case Some(canon) =>
      match Limited(CanonBodyOf(body, canon.body), TagOf(tags, "l"))
      case None => false
      case Some(cbody) => c.encode(c.hash(cbody)) == RemoveSpaces(TagOf(tags, "bh"))
  }

  function AmsSigner(c: Crypto, f: Field, body: string): Option<Signer> {
    match TagsOf(Value(f))
    case None => None
    case Some(tags) =>
      if MissingOf(tags, AMS_TAGS).Some? || !BodyFits(c, tags, body) then None else SignerOf(c, tags)
  }

  /** A signature that a complete chain with this field always has checked: any seal, and the message signature
      after whose set no other can come. */
  predicate AlwaysChecked(f: Field) {
    MarkOf(f).Numbered? && (MarkOf(f).kind == Seal || (MarkOf(f).kind == Signature && MarkOf(f).n == MAX_INSTANCES))
  }

  function SignerIn(c: Crypto, f: Field, body: string): Option<Signer> {
    if MarkOf(f).Numbered? && MarkOf(f).kind == Seal then SealSigner(c, f) else AmsSigner(c, f, body)
  }

  ghost predicate Verifiable(c: Crypto, m: Message) {
    forall i :: 0 <= i < |m.fields| && AlwaysChecked(m.fields[i]) ==> SignerIn(c, m.fields[i], m.body).Some?
  }

  /** No two signatures need keys of different types under one name. */
  ghost predicate NoClash(c: Crypto, m: Message) {
    forall i, j :: 0 <= i < |m.fields| && 0 <= j < |m.fields| && AlwaysChecked(m.fields[i]) && AlwaysChecked(m.fields[j]) ==>
      var s, t := SignerIn(c, m.fields[i], m.body), SignerIn(c, m.fields[j], m.body);
      s.Some? && t.Some? && s.value.key == t.value.key ==> s == t
  }

  ghost predicate Repairable(c: Crypto, m: Message) {
    !Irreparable(m.fields) && Verifiable(c, m) && NoClash(c, m)
  }

  /** The same digest and base64, with other keys and signatures. */
  ghost predicate OtherKeys(c: Crypto, d: Crypto) {
    d == c.(lookup := d.lookup, verifies := d.verifies)
  }

  ghost predicate CanPass(c: Crypto, raw: string) {
    exists d, blocks :: OtherKeys(c, d) && AllHeaders(blocks) && VerdictOf(d, Stacked(blocks, raw)).Pass?
  }

  // ----- what a pass says of each signature -----

  /** A key of the right type is there. */
  predicate KeyServes(d: Crypto, s: Option<Signer>) {
    s.Some? && d.lookup(s.value.key).Some? && d.lookup(s.value.key).value.Ed25519Key? == s.value.ed25519
  }

  lemma SignatureServed(c: Crypto, d: Crypto, tags: Tags, input: string)
    requires OtherKeys(c, d) && SignatureProblem(d, tags, input).None?
    ensures KeyServes(d, SignerOf(c, tags))
  {
    hide KeyName, ToLower, RemoveSpaces, TagOf;
  }

  lemma SealServed(c: Crypto, d: Crypto, sets: seq<ArcSet>)
    requires OtherKeys(c, d) && sets != [] && SealProblem(d, sets).None?
    ensures KeyServes(d, SealSigner(c, sets[|sets| - 1].sl))
  {
    hide TagsOf, Value, MissingOf, TagOf, SealInputOf, SignatureProblem, SignerOf, KeyServes, OtherKeys;
    SignatureServed(c, d, TagsOf(Value(sets[|sets| - 1].sl)).value, SealInputOf(sets));
  }

  lemma {:induction false} SealsServed(c: Crypto, d: Crypto, sets: seq<ArcSet>, n: nat)
    requires OtherKeys(c, d) && 1 <= n <= |sets| && LastSealProblem(d, sets).None?
    ensures KeyServes(d, SealSigner(c, sets[n - 1].sl))
    decreases |sets|
  {
    hide SealProblem, SealSigner, KeyServes, OtherKeys;
    if n == |sets| {
      SealServed(c, d, sets);
    } else {
      SealsServed(c, d, sets[..|sets| - 1], n);
    }
  }

  lemma AmsServed(c: Crypto, d: Crypto, fields: seq<Field>, body: string, ams: Field)
    requires OtherKeys(c, d) && AmsProblem(d, fields, body, ams).None?
    ensures KeyServes(d, AmsSigner(c, ams, body))
  {
    hide TagsOf, Value, MissingOf, TagOf, AmsInput, SignatureProblem, SignerOf, KeyServes, CanonicalizationOf, Limited, CanonBodyOf, RemoveSpaces;
    var tags := TagsOf(Value(ams)).value;
    var canon := CanonicalizationOf(TagOf(tags, "c")).value;
    SignatureServed(c, d, tags, AmsInput(fields, ams, SignedNames(tags), canon.header));
  }

  lemma HeldField(fields: seq<Field>, sets: seq<ArcSet>, i: int, k: Kind, n: nat)
    requires Represents(fields, sets) && Placed(fields, i, k, n)
    ensures 1 <= n <= |sets|
    ensures fields[i] == (match k case Results => sets[n - 1].aar case Signature => sets[n - 1].ams case Seal => sets[n - 1].sl)
  {
    hide MarkOf;
    assert 1 <= n <= MAX_INSTANCES by { assert MarkOf(fields[i]).n == n; }
    assert HoldsSet(fields, sets[n - 1], n - 1 + 1);
  }

  lemma PassServes(c: Crypto, d: Crypto, m: Message, i: int)
    requires OtherKeys(c, d) && MessageVerdict(d, m).Pass?
    requires 0 <= i < |m.fields| && AlwaysChecked(m.fields[i])
    ensures KeyServes(d, SignerIn(c, m.fields[i], m.body))
  {
    hide MarkOf, AmsProblem, LastSealProblem, FirstCVProblem, LatestCV, SealSigner, AmsSigner, KeyServes, Represents, OtherKeys;
    var sets := ChainOf(m.fields).value;
    var k, n := MarkOf(m.fields[i]).kind, MarkOf(m.fields[i]).n;
    HeldField(m.fields, sets, i, k, n);
    if k == Seal {
      SealsServed(c, d, sets, n);
    } else {
      ChainAtMost(m.fields, sets);
      AmsServed(c, d, m.fields, m.body, sets[n - 1].ams);
    }
  }

  lemma ChainAtMost(fields: seq<Field>, sets: seq<ArcSet>)
    requires Represents(fields, sets)
    ensures |sets| <= MAX_INSTANCES
  {
  }

  lemma PassIsRepairable(c: Crypto, raw: string)
    requires Spooled(raw) && CanPass(c, raw)
    ensures Repairable(c, MessageOf(Normalized(raw)))
  {
    hide Spooled, AllHeaders, Irreparable, MessageOf, Normalized, MessageVerdict, OtherKeys, AlwaysChecked, SignerIn;
    var d, blocks :| OtherKeys(c, d) && AllHeaders(blocks) && VerdictOf(d, Stacked(blocks, raw)).Pass?;
    var m := MessageOf(Normalized(raw));
    if Irreparable(m.fields) {
      FailureIsPermanent(raw, blocks, d);
    }
    var front := StackedFields(blocks, raw);
    forall i | 0 <= i < |m.fields| && AlwaysChecked(m.fields[i])
      ensures KeyServes(d, SignerIn(c, m.fields[i], m.body))
    {
      var all := Message(front + m.fields, m.body);
      assert all.fields[|front| + i] == m.fields[i];
      PassServes(c, d, all, |front| + i);
    }
  }

  // ----- keys under which every signature verifies -----

  /** Ed25519 keys at `eds` and RSA keys at every other name, all of which accept every signature. */
  ghost function Published(c: Crypto, eds: set<string>): (d: Crypto)
    ensures OtherKeys(c, d)
  {
    c.(lookup := (name: string) => if name in eds then Some(Ed25519Key(name)) else Some(RsaKey(name)),
       verifies := (key: Key, digest: string, sig: string) => true)
  }

  ghost predicate Fits(s: Option<Signer>, eds: set<string>) {
    s.Some? && (s.value.ed25519 <==> s.value.key in eds)
  }

  lemma SignatureFits(c: Crypto, eds: set<string>, tags: Tags, input: string)
    requires Fits(SignerOf(c, tags), eds)
    ensures SignatureProblem(Published(c, eds), tags, input).None?
  {
    hide KeyName, ToLower, RemoveSpaces, TagOf;
  }

  lemma SealFits(c: Crypto, eds: set<string>, sets: seq<ArcSet>)
    requires sets != [] && Fits(SealSigner(c, sets[|sets| - 1].sl), eds)
    ensures SealProblem(Published(c, eds), sets).None?
  {
    hide TagsOf, Value, MissingOf, TagOf, SealInputOf, SignatureProblem, SignerOf, Published;
    SignatureFits(c, eds, TagsOf(Value(sets[|sets| - 1].sl)).value, SealInputOf(sets));
  }

  lemma {:induction false} SealsFit(c: Crypto, eds: set<string>, sets: seq<ArcSet>)
    requires forall n :: 0 <= n < |sets| ==> Fits(SealSigner(c, sets[n].sl), eds)
    ensures LastSealProblem(Published(c, eds), sets).None?
  {
    hide SealProblem, SealSigner, Fits, Published;
    if sets != [] {
      SealFits(c, eds, sets);
      SealsFit(c, eds, sets[..|sets| - 1]);
    }
  }

  lemma AmsFits(c: Crypto, eds: set<string>, fields: seq<Field>, body: string, ams: Field)
    requires Fits(AmsSigner(c, ams, body), eds)
    ensures AmsProblem(Published(c, eds), fields, body, ams).None?
  {
    hide TagsOf, Value, MissingOf, TagOf, AmsInput, SignatureProblem, SignerOf, CanonicalizationOf, Limited, CanonBodyOf, RemoveSpaces;
    var tags := TagsOf(Value(ams)).value;
    var canon := CanonicalizationOf(TagOf(tags, "c")).value;
    SignatureFits(c, eds, tags, AmsInput(fields, ams, SignedNames(tags), canon.header));
  }

  // ----- the fields that are missing -----

  /** The fields of fifty sets in a row. */
  function SlotKind(j: nat): Kind {
    if j % 3 == 0 then Results else if j % 3 == 1 then Signature else Seal
  }

  const SLOTS: nat := 150

  ghost predicate HasField(fields: seq<Field>, k: Kind, n: nat) {
    exists i :: Placed(fields, i, k, n)
  }

  ghost predicate HasSlot(fields: seq<Field>, j: nat) {
    HasField(fields, SlotKind(j), j / 3 + 1)
  }

  ghost predicate HasSlots(fields: seq<Field>, j: nat) {
    forall l: nat :: l < j ==> HasSlot(fields, l)
  }

  ghost predicate Sound(c: Crypto, eds: set<string>, body: string, f: Field) {
    && !MarkOf(f).Malformed?
    && (MarkOf(f).Numbered? && MarkOf(f).kind == Seal ==> CVOf(f) == WantedCV(MarkOf(f).n - 1))
    && (AlwaysChecked(f) ==> Fits(SignerIn(c, f, body), eds))
  }

  ghost predicate Fillable(c: Crypto, eds: set<string>, m: Message) {
    Unrepeated(m.fields) && forall i :: 0 <= i < |m.fields| ==> Sound(c, eds, m.body, m.fields[i])
  }

  ghost function SomeSealer(eds: set<string>): Sealer {
    Sealer("x", "x", KeyName("x", "x") in eds, d => None)
  }

  /** What fills slot `j` of a message with this body. */
  ghost function Filler(c: Crypto, eds: set<string>, body: string, j: nat): Field {
    var s, n, sig := SomeSealer(eds), j / 3 + 1, c.encode("x");
    match SlotKind(j)
    case Results => ResultsField(n, "x", "none")
    case Signature => SignedField(AMS, AmsTags(s, n, 0, c.encode(c.hash(CanonBodyOf(body, true))), "from"), sig)
    case Seal => SignedField(AS, SealTags(s, n, 0, WantedCV(n - 1)), sig)
  }

  lemma SignerIs(c: Crypto, eds: set<string>, tags: Tags)
    requires EncodingLaws(c)
    requires TagOf(tags, "b") == c.encode("x") && TagOf(tags, "a") == Algorithm(SomeSealer(eds))
    requires TagOf(tags, "s") == "x" && TagOf(tags, "d") == "x"
    ensures Fits(SignerOf(c, tags), eds)
  {
    AlgorithmClean(SomeSealer(eds));
    assert CleanText(c.encode("x"));
    CleanTextValue(c.encode("x"));
    hide KeyName, ToLower, RemoveSpaces, TagOf;
  }

  lemma SealSignerIs(c: Crypto, eds: set<string>, body: string, f: Field, n: nat, tags: Tags)
    requires MarkOf(f) == Numbered(Seal, n) && TagsOf(Value(f)) == Some(tags) && Fits(SignerOf(c, tags), eds)
    requires MissingOf(tags, SEAL_TAGS).None? && TagOf(tags, "h") == "" && ToLower(TagOf(tags, "cv")) == WantedCV(n - 1)
    ensures Sound(c, eds, body, f)
  {
    hide MarkOf, TagsOf, Value, MissingOf, SignerOf, Fits, ToLower, TagOf;
  }

  lemma AmsSignerIs(c: Crypto, eds: set<string>, body: string, f: Field, n: nat, tags: Tags)
    requires MarkOf(f) == Numbered(Signature, n) && TagsOf(Value(f)) == Some(tags) && Fits(SignerOf(c, tags), eds)
    requires MissingOf(tags, AMS_TAGS).None? && BodyFits(c, tags, body)
    ensures Sound(c, eds, body, f)
  {
    hide MarkOf, TagsOf, Value, MissingOf, SignerOf, Fits, BodyFits;
  }

  lemma WantedClean(n: nat)
    ensures CleanValue(WantedCV(n)) && ToLower(WantedCV(n)) == WantedCV(n)
  {
    WantedIs(n);
    CVClean(WantedCV(n));
  }

  lemma SealFiller(c: Crypto, eds: set<string>, body: string, n: nat)
    requires EncodingLaws(c) && 1 <= n <= MAX_INSTANCES
    ensures var f := SignedField(AS, SealTags(SomeSealer(eds), n, 0, WantedCV(n - 1)), c.encode("x"));
            LineField(f) && MarkOf(f) == Numbered(Seal, n) && Sound(c, eds, body, f)
  {
    hide *;
    var s, sig, cv := SomeSealer(eds), c.encode("x"), WantedCV(n - 1);
    var tags := SealTags(s, n, 0, cv);
    var t := TagMap(tags + [Tag("b", sig)]);
    FillerParts(c, eds);
    WantedClean(n - 1);
    SealTagsClean(s, n, 0, cv, sig);
    SealTagValues(s, n, 0, cv, sig);
    SignedFieldRead(AS, tags, sig);
    SignedInstance(AS, Seal, tags, sig, n);
    SignerIs(c, eds, t);
    SealTagsThere(t);
    SealSignerIs(c, eds, body, SignedField(AS, tags, sig), n, t);
  }

  lemma SealTagsThere(t: Tags)
    requires TagOf(t, "a") != "" && TagOf(t, "b") != "" && TagOf(t, "d") != "" && TagOf(t, "s") != ""
    ensures MissingOf(t, SEAL_TAGS).None?
  {
    hide TagOf, MissingOf;
    NothingMissing(t, SEAL_TAGS);
  }

  lemma AmsTagsThere(t: Tags)
    requires TagOf(t, "a") != "" && TagOf(t, "b") != "" && TagOf(t, "bh") != "" && TagOf(t, "d") != ""
    requires TagOf(t, "s") != "" && TagOf(t, "h") != ""
    ensures MissingOf(t, AMS_TAGS).None?
  {
    hide TagOf, MissingOf;
    NothingMissing(t, AMS_TAGS);
  }

  lemma FillerParts(c: Crypto, eds: set<string>)
    requires EncodingLaws(c)
    ensures NamedSealer(SomeSealer(eds)) && SomeSealer(eds).domain == "x" && SomeSealer(eds).selector == "x"
    ensures CleanValue(c.encode("x")) && c.encode("x") != "" && Algorithm(SomeSealer(eds)) != ""
    ensures PlainName(AAR) && PlainName(AMS) && PlainName(AS)
  {
    ArcNames();
    AlgorithmClean(SomeSealer(eds));
    assert CleanText(c.encode("x"));
    CleanTextValue(c.encode("x"));
  }

  lemma AmsFiller(c: Crypto, eds: set<string>, body: string, n: nat)
    requires EncodingLaws(c) && 1 <= n <= MAX_INSTANCES
    ensures var f := SignedField(AMS, AmsTags(SomeSealer(eds), n, 0, c.encode(c.hash(CanonBodyOf(body, true))), "from"), c.encode("x"));
            LineField(f) && MarkOf(f) == Numbered(Signature, n) && Sound(c, eds, body, f)
  {
    hide *;
    var s, sig, bh, h := SomeSealer(eds), c.encode("x"), c.encode(c.hash(CanonBodyOf(body, true))), "from";
    var tags := AmsTags(s, n, 0, bh, h);
    var t := TagMap(tags + [Tag("b", sig)]);
    FillerParts(c, eds);
    BodyHashClean(c, body);
    FromClean(h);
    AmsTagsClean(s, n, 0, bh, h, sig);
    AmsTagValues(s, n, 0, bh, h, sig);
    SignedFieldRead(AMS, tags, sig);
    SignedInstance(AMS, Signature, tags, sig, n);
    SignerIs(c, eds, t);
    AmsTagsThere(t);
    BodyHashFits(c, t, body);
    AmsSignerIs(c, eds, body, SignedField(AMS, tags, sig), n, t);
  }

  lemma FromClean(h: string)
    requires h == "from"
    ensures CleanValue(h)
  {
  }

  lemma BodyHashFits(c: Crypto, t: Tags, body: string)
    requires TagOf(t, "c") == "relaxed/relaxed" && TagOf(t, "l") == ""
    requires RemoveSpaces(TagOf(t, "bh")) == c.encode(c.hash(CanonBodyOf(body, true)))
    ensures BodyFits(c, t, body)
  {
    RelaxedBoth(TagOf(t, "c"));
    hide TagOf, CanonicalizationOf, CanonBodyOf, RemoveSpaces;
  }

  lemma BodyHashClean(c: Crypto, body: string)
    requires EncodingLaws(c)
    ensures var bh := c.encode(c.hash(CanonBodyOf(body, true)));
            CleanValue(bh) && bh != "" && RemoveSpaces(bh) == bh
  {
    hide CanonBodyOf;
    CleanTextValue(c.encode(c.hash(CanonBodyOf(body, true))));
  }

  lemma FillerFits(c: Crypto, eds: set<string>, body: string, j: nat)
    requires EncodingLaws(c) && j < SLOTS
    ensures var f := Filler(c, eds, body, j);
            LineField(f) && MarkOf(f) == Numbered(SlotKind(j), j / 3 + 1) && Sound(c, eds, body, f)
  {
    hide EncodingLaws, LineField, MarkOf, SignedField, SealTags, AmsTags, ResultsField, CVOf, WantedCV, SignerIn, Fits, CanonBodyOf;
    match SlotKind(j)
    case Results => ResultsInstance(j / 3 + 1, "x", "none");
    case Signature => AmsFiller(c, eds, body, j / 3 + 1);
    case Seal => SealFiller(c, eds, body, j / 3 + 1);
  }

  lemma FilledIn(c: Crypto, eds: set<string>, m: Message, f: Field, j: nat)
    requires Fillable(c, eds, m) && HasSlots(m.fields, j) && !HasSlot(m.fields, j)
    requires MarkOf(f) == Numbered(SlotKind(j), j / 3 + 1) && Sound(c, eds, m.body, f)
    ensures Fillable(c, eds, Message([f] + m.fields, m.body)) && HasSlots([f] + m.fields, j + 1)
  {
    hide MarkOf, Sound, SlotKind;
    var all := [f] + m.fields;
    assert Placed(all, 0, SlotKind(j), j / 3 + 1);
    forall l: nat | l < j
      ensures HasSlot(all, l)
    {
      assert HasSlot(m.fields, l);
      var k, n := SlotKind(l), l / 3 + 1;
      var i :| Placed(m.fields, i, k, n);
      PlacedShifted([f], m.fields, i, k, n);
    }
    UnrepeatedFront(f, m.fields);
  }

  lemma UnrepeatedFront(f: Field, fields: seq<Field>)
    requires Unrepeated(fields) && MarkOf(f).Numbered?
    requires forall i :: !Placed(fields, i, MarkOf(f).kind, MarkOf(f).n)
    ensures Unrepeated([f] + fields)
  {
    hide MarkOf;
    var all := [f] + fields;
    forall i, j, k, n | Placed(all, i, k, n) && Placed(all, j, k, n)
      ensures i == j
    {
      assert i > 0 ==> Placed(fields, i - 1, k, n);
      assert j > 0 ==> Placed(fields, j - 1, k, n);
    }
  }

  /** Line by line, the missing fields are put in front. */
  lemma {:induction false} Fill(c: Crypto, eds: set<string>, raw: string, j: nat) returns (blocks: seq<string>)
    requires EncodingLaws(c) && Spooled(raw) && j <= SLOTS
    requires Fillable(c, eds, MessageOf(Normalized(raw))) && HasSlots(MessageOf(Normalized(raw)).fields, j)
    ensures AllHeaders(blocks)
    ensures var m := MessageOf(Normalized(Stacked(blocks, raw))); Fillable(c, eds, m) && HasSlots(m.fields, SLOTS)
    decreases SLOTS - j
  {
    hide EncodingLaws, Spooled, MessageOf, Normalized, Fillable, HasSlot, HeaderBlock, BlockFields, LineField, MarkOf, Sound, Filler;
    var m := MessageOf(Normalized(raw));
    if j == SLOTS {
      blocks := [];
    } else if HasSlot(m.fields, j) {
      blocks := Fill(c, eds, raw, j + 1);
    } else {
      var f := Filler(c, eds, m.body, j);
      var block := f.raw + CRLF;
      FillerFits(c, eds, m.body, j);
      FieldBlock(f);
      BlockInFront(block, raw);
      FilledIn(c, eds, m, f, j);
      hide HasSlots;
      var rest := Fill(c, eds, block + raw, j + 1);
      blocks := [block] + rest;
      assert blocks[1..] == rest;
    }
  }

  // ----- the chain is then complete -----

  ghost function Slot(fields: seq<Field>, k: Kind, n: nat): Field {
    if i :| Placed(fields, i, k, n) then fields[i] else Field("", "")
  }

  lemma SlotHeld(fields: seq<Field>, k: Kind, n: nat)
    requires HasSlots(fields, SLOTS) && 1 <= n <= MAX_INSTANCES
    ensures Holds(fields, Slot(fields, k, n), k, n)
  {
    hide MarkOf;
    var j := 3 * (n - 1) + (match k case Results => 0 case Signature => 1 case Seal => 2);
    assert SlotKind(j) == k && j / 3 + 1 == n && j < SLOTS;
    assert HasSlot(fields, j);
  }

  ghost function FullChain(fields: seq<Field>): seq<ArcSet> {
    seq(MAX_INSTANCES, (n: nat) => ArcSet(Slot(fields, Results, n + 1), Slot(fields, Signature, n + 1), Slot(fields, Seal, n + 1)))
  }

  lemma FullRepresents(c: Crypto, eds: set<string>, m: Message)
    requires Fillable(c, eds, m) && HasSlots(m.fields, SLOTS)
    ensures ChainOf(m.fields) == Some(FullChain(m.fields))
  {
    hide MarkOf, Slot, HasSlots, Holds, Unrepeated;
    var sets := FullChain(m.fields);
    forall n | 0 <= n < |sets|
      ensures HoldsSet(m.fields, sets[n], n + 1)
    {
      SlotHeld(m.fields, Results, n + 1);
      SlotHeld(m.fields, Signature, n + 1);
      SlotHeld(m.fields, Seal, n + 1);
    }
    NumberedFull(c, eds, m);
    ChainIs(m.fields, sets);
  }

  lemma NumberedFull(c: Crypto, eds: set<string>, m: Message)
    requires Fillable(c, eds, m)
    ensures NumberedUpTo(m.fields, MAX_INSTANCES)
  {
    hide AlwaysChecked, SignerIn, CVOf, WantedCV;
    hide MarkOf;
    forall i | 0 <= i < |m.fields|
      ensures !MarkOf(m.fields[i]).Malformed? && (MarkOf(m.fields[i]).Numbered? ==> MarkOf(m.fields[i]).n <= MAX_INSTANCES)
    {
      assert Sound(c, eds, m.body, m.fields[i]);
      var mark := MarkOf(m.fields[i]);
    }
  }

  lemma SealSound(c: Crypto, eds: set<string>, m: Message, n: nat)
    requires Fillable(c, eds, m) && HasSlots(m.fields, SLOTS) && 1 <= n <= MAX_INSTANCES
    ensures CVOf(Slot(m.fields, Seal, n)) == WantedCV(n - 1) && Fits(SealSigner(c, Slot(m.fields, Seal, n)), eds)
  {
    hide MarkOf, SealSigner, AmsSigner, Slot, HasSlots, CVOf, WantedCV;
    SlotHeld(m.fields, Seal, n);
    var i :| Placed(m.fields, i, Seal, n) && m.fields[i] == Slot(m.fields, Seal, n);
    assert Sound(c, eds, m.body, m.fields[i]);
  }

  lemma AmsSound(c: Crypto, eds: set<string>, m: Message)
    requires Fillable(c, eds, m) && HasSlots(m.fields, SLOTS)
    ensures Fits(AmsSigner(c, Slot(m.fields, Signature, MAX_INSTANCES), m.body), eds)
  {
    hide MarkOf, SealSigner, AmsSigner, Slot, HasSlots, CVOf, WantedCV;
    SlotHeld(m.fields, Signature, MAX_INSTANCES);
    var i :| Placed(m.fields, i, Signature, MAX_INSTANCES) && m.fields[i] == Slot(m.fields, Signature, MAX_INSTANCES);
    assert Sound(c, eds, m.body, m.fields[i]);
  }

  lemma {:induction false} NoWrongCV(sets: seq<ArcSet>)
    requires forall n :: 0 <= n < |sets| ==> CVOf(sets[n].sl) == WantedCV(n)
    ensures FirstCVProblem(sets).None?
  {
    if sets != [] {
      NoWrongCV(sets[..|sets| - 1]);
      WantedIs(|sets| - 1);
      hide TagsOf, Value, ToLower, TagOf;
    }
  }

  lemma FullPasses(c: Crypto, eds: set<string>, m: Message)
    requires Fillable(c, eds, m) && HasSlots(m.fields, SLOTS)
    ensures MessageVerdict(Published(c, eds), m).Pass?
  {
    var sets := FullChain(m.fields);
    FullRepresents(c, eds, m);
    hide ChainOf, Fillable, HasSlots, Slot, MarkOf, SealSigner, AmsSigner, AmsProblem, LastSealProblem, FirstCVProblem, CVOf, WantedCV, Published, Fits, LatestCV;
    forall n | 0 <= n < |sets|
      ensures CVOf(sets[n].sl) == WantedCV(n) && Fits(SealSigner(c, sets[n].sl), eds)
    {
      SealSound(c, eds, m, n + 1);
    }
    AmsSound(c, eds, m);
    AmsFits(c, eds, m.fields, m.body, sets[MAX_INSTANCES - 1].ams);
    SealsFit(c, eds, sets);
    NoWrongCV(sets);
    LatestWanted(sets);
  }

  lemma LatestWanted(sets: seq<ArcSet>)
    requires sets != [] && CVOf(sets[|sets| - 1].sl) == WantedCV(|sets| - 1)
    ensures LatestCV(sets) != CV_FAIL
  {
    CVTexts();
    WantedIs(|sets| - 1);
    hide TagsOf, Value, ToLower, TagOf, LowerText;
  }

  // ----- both directions -----

  lemma NoSlots(fields: seq<Field>)
    ensures HasSlots(fields, 0)
  {
  }

  ghost function EdNames(c: Crypto, m: Message): set<string> {
    set i | 0 <= i < |m.fields| && AlwaysChecked(m.fields[i]) && SignerIn(c, m.fields[i], m.body).Some?
         && SignerIn(c, m.fields[i], m.body).value.ed25519 :: SignerIn(c, m.fields[i], m.body).value.key
  }

  lemma SignersFit(c: Crypto, m: Message, i: int)
    requires Verifiable(c, m) && NoClash(c, m) && 0 <= i < |m.fields| && AlwaysChecked(m.fields[i])
    ensures Fits(SignerIn(c, m.fields[i], m.body), EdNames(c, m))
  {
    hide AlwaysChecked, SignerIn;
  }

  lemma RepairableIsFillable(c: Crypto, m: Message)
    requires Repairable(c, m)
    ensures Fillable(c, EdNames(c, m), m)
  {
    hide Verifiable, NoClash, SignerIn, EdNames, CVOf, WantedCV, Fits;
    hide MarkOf;
    forall i | 0 <= i < |m.fields|
      ensures Sound(c, EdNames(c, m), m.body, m.fields[i])
    {
      var mark := MarkOf(m.fields[i]);
      if mark.Numbered? && mark.kind == Seal {
        assert !WrongSeal(m.fields, i, mark.n);
      }
      if AlwaysChecked(m.fields[i]) {
        SignersFit(c, m, i);
      }
    }
  }

  /** Exactly the repairable messages can come to pass: header lines of later hops and some keys make the message pass
      if and only if no ARC field is malformed or repeated, every seal has the cv of its place, and each seal, and a
      signature of the last possible set, could verify under keys of the types they name. */
  lemma RepairableExactly(c: Crypto, raw: string)
    requires EncodingLaws(c) && Spooled(raw)
    ensures CanPass(c, raw) <==> Repairable(c, MessageOf(Normalized(raw)))
  {
    hide EncodingLaws, Spooled, AllHeaders, MessageOf, Normalized, MessageVerdict, OtherKeys, Repairable, Fillable, HasSlots, Published, EdNames;
    var m := MessageOf(Normalized(raw));
    if CanPass(c, raw) {
      PassIsRepairable(c, raw);
    }
    if Repairable(c, m) {
      var eds := EdNames(c, m);
      RepairableIsFillable(c, m);
      NoSlots(m.fields);
      var blocks := Fill(c, eds, raw, 0);
      FullPasses(c, eds, MessageOf(Normalized(Stacked(blocks, raw))));
      assert OtherKeys(c, Published(c, eds));
    }
  }
}
