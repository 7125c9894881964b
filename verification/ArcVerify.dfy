// internal/arc/verify.go: the chain validator. Hashing, base64, signature checking and
// key lookup are parameters; every other step is written out.

module ArcVerify {
  import opened Options
  import opened Text
  import opened ArcCanon
  import opened ArcChain

  datatype Key = RsaKey(id: string) | Ed25519Key(id: string)

  /** The foreign functions: digest, base64, signature check, and key lookup by DNS name. */
  datatype Crypto = Crypto(
    hash: string -> string,
    encode: string -> string,
    decode: string -> Option<string>,
    verifies: (Key, string, string) -> bool,
    lookup: string -> Option<Key>)

  const CV_NONE: string := "none"
  const CV_PASS: string := "pass"
  const CV_FAIL: string := "fail"
  const RELAXED: string := "relaxed"
  const SIMPLE: string := "simple"
  const RSA_SHA256: string := "rsa-sha256"
  const ED25519_SHA256: string := "ed25519-sha256"

  datatype Problem =
    | TagsUnparsed
    | MissingTag(name: string)
    | UnknownCanonicalization
    | InvalidLength
    | BodyHashMismatch
    | NotBase64
    | NoKey
    | WrongKeyType
    | BadSignature
    | UnsupportedAlgorithm
    | HeaderListInSeal

  datatype Reason =
    | BadChain
    | MarkedFailed
    | SealUnparsed(instance: nat)
    | WrongCV(instance: nat)
    | BadMessageSignature(why: Problem)
    | BadSeal(instance: nat, why: Problem)

  datatype Verdict = NoChain | Pass(instance: nat) | Fail(instance: nat, reason: Reason)

  // ----- signatures -----

  function KeyName(selector: string, domain: string): string {
    selector + "._domainkey." +
    (if domain != "" && domain[|domain| - 1] == '.' then domain[..|domain| - 1] else domain)
  }

  /** What `checkSignature` returns; None stands for no error. */
  function SignatureProblem(c: Crypto, tags: Tags, input: string): Option<Problem> {
    match c.decode(RemoveSpaces(TagOf(tags, "b")))
    case None => Some(NotBase64)
    case Some(sig) =>
      match c.lookup(KeyName(TagOf(tags, "s"), TagOf(tags, "d")))
      case None => Some(NoKey)
      case Some(key) =>
        var a := ToLower(TagOf(tags, "a"));
        if a == RSA_SHA256 then
          if !key.RsaKey? then Some(WrongKeyType)
          else if c.verifies(key, c.hash(input), sig) then None else Some(BadSignature)
        else if a == ED25519_SHA256 then
          if !key.Ed25519Key? then Some(WrongKeyType)
          else if c.verifies(key, c.hash(input), sig) then None else Some(BadSignature)
        else Some(UnsupportedAlgorithm)
  }

  /** The first tag of `names` that is missing or empty. */
  function MissingOf(tags: Tags, names: seq<string>): Option<Problem> {
    if names == [] then None
    else if TagOf(tags, names[0]) == "" then Some(MissingTag(names[0]))
    else MissingOf(tags, names[1..])
  }

  // ----- the message signature -----

  datatype Canonicalization = Canonicalization(header: bool, body: bool)

  /** What `canonicalization` returns; true is relaxed, None is its error. */
  function CanonicalizationOf(c: string): Option<Canonicalization> {
    if c == "" then Some(Canonicalization(false, false))
    else
      var l := ToLower(c);
      var cut := IndexByte(l, '/');
      var h := if cut < 0 then l else l[..cut];
      var rest := if cut < 0 then "" else l[cut + 1..];
      var b := if rest == "" then SIMPLE else rest;
      if (h == SIMPLE || h == RELAXED) && (b == SIMPLE || b == RELAXED) then
        Some(Canonicalization(h == RELAXED, b == RELAXED))
      else None
  }

  /** Cuts a canonical body at `l=`; None is an invalid length. */
  function Limited(cbody: string, l: string): Option<string> {
    if l == "" then Some(cbody)
    else
      match Atoi(l)
      case None => None
      case Some(n) =>
        if n < 0 || n >= 0x8000_0000_0000_0000 then None
        else if n < |cbody| then Some(cbody[..n])
        else Some(cbody)
  }

  /** The last unused field before position `m` with this name, or -1. */
  function Pick(fields: seq<Field>, name: string, used: set<nat>, m: nat): (r: int)
    requires m <= |fields|
    ensures -1 <= r < m
  {
    if m == 0 then -1
    else if m - 1 !in used && EqualFold(fields[m - 1].name, name) then m - 1
    else Pick(fields, name, used, m - 1)
  }

  /** The fields a list of names selects: each name takes the bottom-most field not taken before (RFC 6376, section 5.4.2). */
  function Selected(fields: seq<Field>, names: seq<string>, used: set<nat>): seq<Field> {
    if names == [] then []
    else
      var i := Pick(fields, names[0], used, |fields|);
      if i < 0 then Selected(fields, names[1..], used)
      else [fields[i]] + Selected(fields, names[1..], used + {i})
  }

  function HeaderStream(fields: seq<Field>, relaxed: bool): string {
    if fields == [] then "" else CanonHeader(fields[0], relaxed) + HeaderStream(fields[1..], relaxed)
  }

  const AMS_TAGS: seq<string> := ["a", "b", "bh", "d", "s", "h"]

  function SignedNames(tags: Tags): seq<string> {
    Split(RemoveSpaces(TagOf(tags, "h")), ':')
  }

  /** The bytes the message signature covers. */
  function AmsInput(fields: seq<Field>, ams: Field, names: seq<string>, relaxed: bool): string {
    HeaderStream(Selected(fields, names, {}), relaxed) + Canon(StripSignature(ams), relaxed)
  }

  /** What `verifyAMS` returns; None stands for no error. */
  function AmsProblem(c: Crypto, fields: seq<Field>, body: string, ams: Field): Option<Problem> {
    match TagsOf(Value(ams))
    case None => Some(TagsUnparsed)
    case Some(tags) =>
      if MissingOf(tags, AMS_TAGS).Some? then MissingOf(tags, AMS_TAGS)
      else
        match CanonicalizationOf(TagOf(tags, "c"))
        case None => Some(UnknownCanonicalization)
        case Some(canon) =>
          match Limited(CanonBodyOf(body, canon.body), TagOf(tags, "l"))
          case None => Some(InvalidLength)
          case Some(cbody) =>
            if c.encode(c.hash(cbody)) != RemoveSpaces(TagOf(tags, "bh")) then Some(BodyHashMismatch)
            else SignatureProblem(c, tags, AmsInput(fields, ams, SignedNames(tags), canon.header))
  }

  method SelectFields(fields: seq<Field>, names: seq<string>, relaxed: bool) returns (input: string)
    ensures input == HeaderStream(Selected(fields, names, {}), relaxed)
  {
    hide CanonHeader, EqualFold;
    input := "";
    var used: set<nat> := {};
    ghost var taken: seq<Field> := [];
    assert names[0..] == names;
    assert [] + Selected(fields, names, {}) == Selected(fields, names, {});
    for n := 0 to |names|
      invariant input == HeaderStream(taken, relaxed)
      invariant taken + Selected(fields, names[n..], used) == Selected(fields, names, {})
    {
      var name := names[n];
      assert names[n..][1..] == names[n + 1..];
      var i := |fields|;
      while i > 0 && !(i - 1 !in used && EqualFold(fields[i - 1].name, name))
        invariant 0 <= i <= |fields|
        invariant Pick(fields, name, used, |fields|) == Pick(fields, name, used, i)
      {
        i := i - 1;
      }
      if i > 0 {
        assert taken + ([fields[i - 1]] + Selected(fields, names[n + 1..], used + {i - 1}))
            == taken + [fields[i - 1]] + Selected(fields, names[n + 1..], used + {i - 1});
        HeaderStreamAppend(taken, [fields[i - 1]], relaxed);
        HeaderStreamOne(fields[i - 1], relaxed);
        used := used + {i - 1};
        input := input + CanonHeader(fields[i - 1], relaxed);
        taken := taken + [fields[i - 1]];
      }
    }
    assert taken + [] == taken;
  }

  lemma {:induction false} HeaderStreamAppend(a: seq<Field>, b: seq<Field>, relaxed: bool)
    ensures HeaderStream(a + b, relaxed) == HeaderStream(a, relaxed) + HeaderStream(b, relaxed)
  {
    hide CanonHeader;
    if a == [] {
      assert a + b == b;
    } else {
      assert (a + b)[1..] == a[1..] + b && (a + b)[0] == a[0];
      HeaderStreamAppend(a[1..], b, relaxed);
      AppendAssoc(CanonHeader(a[0], relaxed), HeaderStream(a[1..], relaxed), HeaderStream(b, relaxed));
    }
  }

  lemma HeaderStreamOne(f: Field, relaxed: bool)
    ensures HeaderStream([f], relaxed) == CanonHeader(f, relaxed)
  {
    hide CanonHeader;
    assert [f][1..] == [];
  }

  method VerifyAMS(c: Crypto, fields: seq<Field>, body: string, ams: Field) returns (r: Option<Problem>)
    ensures r == AmsProblem(c, fields, body, ams)
  {
    var parsed := ParseTags(Value(ams));
    if parsed.None? {
      return Some(TagsUnparsed);
    }
    var tags := parsed.value;
    var missing := FirstMissing(tags, AMS_TAGS);
    if missing.Some? {
      return missing;
    }
    var canon := CanonicalizationOf(TagOf(tags, "c"));
    if canon.None? {
      return Some(UnknownCanonicalization);
    }
    var whole := CanonBody(body, canon.value.body);
    var cbody := Limited(whole, TagOf(tags, "l"));
    if cbody.None? {
      return Some(InvalidLength);
    }
    if c.encode(c.hash(cbody.value)) != RemoveSpaces(TagOf(tags, "bh")) {
      return Some(BodyHashMismatch);
    }
    var input := SelectFields(fields, SignedNames(tags), canon.value.header);
    r := SignatureProblem(c, tags, input + Canon(StripSignature(ams), canon.value.header));
  }

  method FirstMissing(tags: Tags, names: seq<string>) returns (r: Option<Problem>)
    ensures r == MissingOf(tags, names)
  {
    assert names[0..] == names;
    for i := 0 to |names|
      invariant MissingOf(tags, names) == MissingOf(tags, names[i..])
    {
      assert names[i..][1..] == names[i + 1..];
      if TagOf(tags, names[i]) == "" {
        return Some(MissingTag(names[i]));
      }
    }
    r := None;
  }

  // ----- the seals -----

  function SetLines(sets: seq<ArcSet>): string {
    if sets == [] then ""
    else
      var s := sets[|sets| - 1];
      SetLines(sets[..|sets| - 1]) + CanonHeader(s.aar, true) + CanonHeader(s.ams, true) + CanonHeader(s.sl, true)
  }

  /** The bytes the seal of the last set covers: every set in order, the last seal without its signature and line end. */
  function SealInputOf(sets: seq<ArcSet>): string {
    if sets == [] then ""
    else
      var s := sets[|sets| - 1];
      SetLines(sets[..|sets| - 1]) + CanonHeader(s.aar, true) + CanonHeader(s.ams, true) + Canon(StripSignature(s.sl), true)
  }

  method SealInput(sets: seq<ArcSet>) returns (b: string)
    ensures b == SealInputOf(sets)
  {
    hide CanonHeader, Canon, StripSignature;
    b := "";
    for i := 0 to |sets|
      invariant b == if i < |sets| then SetLines(sets[..i]) else SealInputOf(sets)
    {
      assert sets[..i + 1][..i] == sets[..i];
      assert sets[..|sets|] == sets;
      b := b + CanonHeader(sets[i].aar, true);
      b := b + CanonHeader(sets[i].ams, true);
      if i == |sets| - 1 {
        b := b + Canon(StripSignature(sets[i].sl), true);
      } else {
        b := b + CanonHeader(sets[i].sl, true);
      }
    }
  }

  const SEAL_TAGS: seq<string> := ["a", "b", "d", "s"]

  /** What `verifySeal` returns for the seal of the last of `sets`. */
  function SealProblem(c: Crypto, sets: seq<ArcSet>): Option<Problem>
    requires sets != []
  {
    match TagsOf(Value(sets[|sets| - 1].sl))
    case None => Some(TagsUnparsed)
    case Some(tags) =>
      if MissingOf(tags, SEAL_TAGS).Some? then MissingOf(tags, SEAL_TAGS)
      else if TagOf(tags, "h") != "" then Some(HeaderListInSeal)
      else SignatureProblem(c, tags, SealInputOf(sets))
  }

  method VerifySeal(c: Crypto, sets: seq<ArcSet>, instance: nat) returns (r: Option<Problem>)
    requires 1 <= instance <= |sets|
    ensures r == SealProblem(c, sets[..instance])
  {
    hide TagsOf, SealInputOf, SignatureProblem;
    var parsed := ParseTags(Value(sets[instance - 1].sl));
    if parsed.None? {
      return Some(TagsUnparsed);
    }
    var tags := parsed.value;
    var missing := FirstMissing(tags, SEAL_TAGS);
    if missing.Some? {
      return missing;
    }
    if TagOf(tags, "h") != "" {
      return Some(HeaderListInSeal);
    }
    var input := SealInput(sets[..instance]);
    r := SignatureProblem(c, tags, input);
  }

  // ----- the validator -----

  function WantedCV(i: nat): string {
    if i == 0 then CV_NONE else CV_PASS
  }

  /** What is wrong with the cv tag of set `i`, counted from 0. */
  function CVProblem(s: ArcSet, i: nat): Option<Reason> {
    match TagsOf(Value(s.sl))
    case None => Some(SealUnparsed(i + 1))
    case Some(tags) => if ToLower(TagOf(tags, "cv")) != WantedCV(i) then Some(WrongCV(i + 1)) else None
  }

  function FirstCVProblem(sets: seq<ArcSet>): Option<Reason> {
    if sets == [] then None
    else
      match FirstCVProblem(sets[..|sets| - 1])
      case Some(r) => Some(r)
      case None => CVProblem(sets[|sets| - 1], |sets| - 1)
  }

  /** The problem of the newest bad seal. */
  function LastSealProblem(c: Crypto, sets: seq<ArcSet>): Option<Reason> {
    if sets == [] then None
    else
      match SealProblem(c, sets)
      case Some(p) => Some(BadSeal(|sets|, p))
      case None => LastSealProblem(c, sets[..|sets| - 1])
  }

  function ChainVerdict(c: Crypto, m: Message, sets: seq<ArcSet>): Verdict
    requires sets != []
  {
    var n := |sets|;
    if LatestCV(sets) == CV_FAIL then Fail(n, MarkedFailed)
    else if FirstCVProblem(sets).Some? then Fail(n, FirstCVProblem(sets).value)
    else
      match AmsProblem(c, m.fields, m.body, sets[n - 1].ams)
      case Some(p) => Fail(n, BadMessageSignature(p))
      case None =>
        match LastSealProblem(c, sets)
        case Some(r) => Fail(n, r)
        case None => Pass(n)
  }

  ghost function MessageVerdict(c: Crypto, m: Message): Verdict {
    match ChainOf(m.fields)
    case None => Fail(0, BadChain)
    case Some(sets) => if sets == [] then NoChain else ChainVerdict(c, m, sets)
  }

  /** What `Verify` returns. */
  ghost function VerdictOf(c: Crypto, raw: string): Verdict {
    MessageVerdict(c, MessageOf(Normalized(raw)))
  }

  method CheckCVs(sets: seq<ArcSet>) returns (r: Option<Reason>)
    ensures r == FirstCVProblem(sets)
  {
    hide CVProblem;
    for i := 0 to |sets|
      invariant FirstCVProblem(sets[..i]).None?
    {
      assert sets[..i + 1][..i] == sets[..i];
      var p := CVProblem(sets[i], i);
      if p.Some? {
        FirstCVProblemKept(sets, i + 1);
        return p;
      }
    }
    assert sets[..|sets|] == sets;
    r := None;
  }

  lemma {:induction false} FirstCVProblemKept(sets: seq<ArcSet>, n: nat)
    requires n <= |sets| && FirstCVProblem(sets[..n]).Some?
    ensures FirstCVProblem(sets) == FirstCVProblem(sets[..n])
    decreases |sets| - n
  {
    hide CVProblem;
    if n == |sets| {
      assert sets[..n] == sets;
    } else {
      assert sets[..n + 1][..n] == sets[..n];
      FirstCVProblemKept(sets, n + 1);
    }
  }

  method Verify(c: Crypto, raw: string) returns (r: Verdict)
    ensures r == VerdictOf(c, raw)
  {
    hide ChainOf, AmsProblem, SealProblem, FirstCVProblem, LatestCV, MessageOf, Normalized;
    var normal := NormalizeLineEndings(raw);
    var m := SplitMessage(normal);
    var chain := Collect(m.fields);
    if chain.None? {
      return Fail(0, BadChain);
    }
    var sets := chain.value;
    var n := |sets|;
    if n == 0 {
      return NoChain;
    }
    if LatestCV(sets) == CV_FAIL {
      return Fail(n, MarkedFailed);
    }
    var cv := CheckCVs(sets);
    if cv.Some? {
      return Fail(n, cv.value);
    }
    var ams := VerifyAMS(c, m.fields, m.body, sets[n - 1].ams);
    if ams.Some? {
      return Fail(n, BadMessageSignature(ams.value));
    }
    var i := n;
    assert sets[..n] == sets;
    while i > 0
      invariant 0 <= i <= n
      invariant LastSealProblem(c, sets) == LastSealProblem(c, sets[..i])
    {
      assert sets[..i][..i - 1] == sets[..i - 1];
      var p := VerifySeal(c, sets, i);
      if p.Some? {
        return Fail(n, BadSeal(i, p.value));
      }
      i := i - 1;
    }
    r := Pass(n);
  }
}
