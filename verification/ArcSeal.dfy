// internal/arc/arc.go: the sealer. It signs a normalised view of the message and writes
// three new header fields in front of the original bytes.

module ArcSeal {
  import opened Options
  import opened Text
  import opened ArcCanon
  import opened ArcTags
  import opened ArcChain
  import opened ArcVerify

  datatype Sealer = Sealer(domain: string, selector: string, ed25519: bool, sign: string -> Option<string>)

  datatype SealError = UnvalidatedChain | FailedChain | ChainTooLong | SigningFailed

  datatype SealResult = Sealed(out: string) | Refused(why: SealError)

  const SIGNED_HEADERS: seq<string> := [
    "from", "to", "cc", "subject", "date", "message-id", "reply-to",
    "in-reply-to", "references", "mime-version", "content-type",
    "content-transfer-encoding", "dkim-signature"]

  function Algorithm(s: Sealer): string {
    if s.ed25519 then ED25519_SHA256 else RSA_SHA256
  }

  // ----- which fields are signed -----

  /** The fields called `name` among the first `m`, last one first. */
  function Named(fields: seq<Field>, name: string, m: nat): seq<Field>
    requires m <= |fields|
  {
    if m == 0 then []
    else if EqualFold(fields[m - 1].name, name) then [fields[m - 1]] + Named(fields, name, m - 1)
    else Named(fields, name, m - 1)
  }

  function SignedFields(fields: seq<Field>, names: seq<string>): seq<Field> {
    if names == [] then []
    else SignedFields(fields, names[..|names| - 1]) + Named(fields, names[|names| - 1], |fields|)
  }

  function Repeat(name: string, n: nat): seq<string> {
    seq(n, _ => name)
  }

  /** The names that go into `h=`: each one as often as a field carries it. */
  function ListedNames(fields: seq<Field>, names: seq<string>): seq<string> {
    if names == [] then []
    else
      var last := names[|names| - 1];
      ListedNames(fields, names[..|names| - 1]) + Repeat(last, |Named(fields, last, |fields|)|)
  }

  // ----- the three new fields -----

  function NewField(name: string, value: string): Field {
    Field(name, name + ": " + value)
  }

  function ResultsField(n: nat, authserv: string, results: string): Field {
    NewField(AAR, "i=" + Decimal(n) + "; " + authserv + "; " + results)
  }

  function AmsTags(s: Sealer, n: nat, t: int, bh: string, h: string): seq<Tag> {
    [Tag("i", Decimal(n)), Tag("a", Algorithm(s)), Tag("c", "relaxed/relaxed"), Tag("d", s.domain),
     Tag("s", s.selector), Tag("t", FormatInt(t)), Tag("bh", bh), Tag("h", h)]
  }

  function SealTags(s: Sealer, n: nat, t: int, cv: string): seq<Tag> {
    [Tag("i", Decimal(n)), Tag("a", Algorithm(s)), Tag("cv", cv), Tag("d", s.domain),
     Tag("s", s.selector), Tag("t", FormatInt(t))]
  }

  function SignedField(name: string, tags: seq<Tag>, sig: string): Field {
    NewField(name, Render(tags + [Tag("b", sig)]))
  }

  function Sign(c: Crypto, s: Sealer, input: string): Option<string> {
    match s.sign(c.hash(input))
    case None => None
    case Some(sig) => Some(c.encode(sig))
  }

  /** The bytes the new message signature covers. */
  function NewAmsInput(m: Message, tags: seq<Tag>): string {
    HeaderStream(SignedFields(m.fields, SIGNED_HEADERS), true) + Canon(SignedField(AMS, tags, ""), true)
  }

  function NewAmsTags(c: Crypto, s: Sealer, m: Message, n: nat, t: int): seq<Tag> {
    AmsTags(s, n, t, c.encode(c.hash(CanonBodyOf(m.body, true))), Join(ListedNames(m.fields, SIGNED_HEADERS), ":"))
  }

  /** The set the sealer adds, or None when the signer fails. */
  function NewSet(c: Crypto, s: Sealer, m: Message, sets: seq<ArcSet>, authserv: string, results: string, cv: string, t: int)
    : Option<ArcSet>
  {
    var n := |sets| + 1;
    var aar := ResultsField(n, authserv, results);
    var amsTags := NewAmsTags(c, s, m, n, t);
    match Sign(c, s, NewAmsInput(m, amsTags))
    case None => None
    case Some(amsSig) =>
      var ams := SignedField(AMS, amsTags, amsSig);
      var slTags := SealTags(s, n, t, cv);
      match Sign(c, s, SealInputOf(sets + [ArcSet(aar, ams, SignedField(AS, slTags, ""))]))
      case None => None
      case Some(slSig) => Some(ArcSet(aar, ams, SignedField(AS, slTags, slSig)))
  }

  /** The header lines written in front of the message. */
  function Written(s: ArcSet): string {
    s.sl.raw + CRLF + (s.ams.raw + CRLF + (s.aar.raw + CRLF))
  }

  // ----- the refusal rules -----

  /** Why a chain is not extended; None when it is. */
  function Refusal(chain: Option<seq<ArcSet>>, cv: string): Option<SealError> {
    match chain
    case None => Some(if cv != CV_PASS && cv != CV_FAIL then UnvalidatedChain else FailedChain)
    case Some(sets) =>
      if |sets| + 1 > MAX_INSTANCES then Some(ChainTooLong)
      else if sets != [] && LatestCV(sets) == CV_FAIL then Some(FailedChain)
      else if sets != [] && cv != CV_PASS && cv != CV_FAIL then Some(UnvalidatedChain)
      else None
  }

  /** The cv that goes into the new seal. */
  function SealedCV(sets: seq<ArcSet>, cv: string): string {
    if sets == [] then CV_NONE else cv
  }

  function OrElse(s: string, other: string): string {
    if s == "" then other else s
  }

  /** What `Seal` writes, for the clock reading `t`. */
  ghost function SealOf(c: Crypto, s: Sealer, original: string, authserv: string, results: string, cv: string, t: int): SealResult {
    var m := MessageOf(Normalized(original));
    var chain := ChainOf(m.fields);
    if Refusal(chain, cv).Some? then Refused(Refusal(chain, cv).value)
    else
      var sets := chain.value;
      match NewSet(c, s, m, sets, OrElse(authserv, s.domain), OrElse(results, "none"), SealedCV(sets, cv), t)
      case None => Refused(SigningFailed)
      case Some(new_) => Sealed(Written(new_) + original)
  }

  method ListSigned(fields: seq<Field>) returns (signed: seq<string>, input: string)
    ensures signed == ListedNames(fields, SIGNED_HEADERS)
    ensures input == HeaderStream(SignedFields(fields, SIGNED_HEADERS), true)
  {
    hide CanonHeader, EqualFold;
    signed, input := [], "";
    var names := SIGNED_HEADERS;
    for n := 0 to |names|
      invariant signed == ListedNames(fields, names[..n])
      invariant input == HeaderStream(SignedFields(fields, names[..n]), true)
    {
      assert names[..n + 1][..n] == names[..n];
      var one, text := ListName(fields, names[n]);
      HeaderStreamAppend(SignedFields(fields, names[..n]), Named(fields, names[n], |fields|), true);
      signed := signed + one;
      input := input + text;
    }
    assert names[..|names|] == names;
  }

  method ListName(fields: seq<Field>, name: string) returns (signed: seq<string>, input: string)
    ensures signed == Repeat(name, |Named(fields, name, |fields|)|)
    ensures input == HeaderStream(Named(fields, name, |fields|), true)
  {
    hide CanonHeader, EqualFold;
    signed, input := [], "";
    ghost var found: seq<Field> := [];
    var i := |fields|;
    while i > 0
      invariant 0 <= i <= |fields|
      invariant signed == Repeat(name, |found|)
      invariant input == HeaderStream(found, true)
      invariant found + Named(fields, name, i) == Named(fields, name, |fields|)
    {
      i := i - 1;
      if EqualFold(fields[i].name, name) {
        var f := fields[i];
        assert found + ([f] + Named(fields, name, i)) == found + [f] + Named(fields, name, i);
        HeaderStreamAppend(found, [f], true);
        HeaderStreamOne(f, true);
        signed := signed + [name];
        input := input + CanonHeader(f, true);
        found := found + [f];
      }
    }
    assert found + [] == found;
  }

  method Seal(c: Crypto, s: Sealer, original: string, authserv: string, results: string, cv: string, t: int)
    returns (r: SealResult)
    ensures r == SealOf(c, s, original, authserv, results, cv, t)
  {
    hide ChainOf, MessageOf, Normalized, CanonBodyOf, Canon, SealInputOf, Render, HeaderStream, SignedFields, ListedNames;
    hide Sign, SignedField, AmsTags, SealTags, ResultsField, Written, LatestCV, OrElse, Join;
    var normal := NormalizeLineEndings(original);
    var m := SplitMessage(normal);
    var chain := Collect(m.fields);
    var refusal := Refusal(chain, cv);
    if refusal.Some? {
      return Refused(refusal.value);
    }
    var sets := chain.value;
    var instance := |sets| + 1;
    var aar := ResultsField(instance, OrElse(authserv, s.domain), OrElse(results, "none"));
    var body := CanonBody(m.body, true);
    var signed, input := ListSigned(m.fields);
    var amsTags := AmsTags(s, instance, t, c.encode(c.hash(body)), Join(signed, ":"));
    var amsSig := Sign(c, s, input + Canon(SignedField(AMS, amsTags, ""), true));
    if amsSig.None? {
      return Refused(SigningFailed);
    }
    var ams := SignedField(AMS, amsTags, amsSig.value);
    var slTags := SealTags(s, instance, t, SealedCV(sets, cv));
    var covered := SealInput(sets + [ArcSet(aar, ams, SignedField(AS, slTags, ""))]);
    var slSig := Sign(c, s, covered);
    if slSig.None? {
      return Refused(SigningFailed);
    }
    r := Sealed(Written(ArcSet(aar, ams, SignedField(AS, slTags, slSig.value))) + original);
  }
}
