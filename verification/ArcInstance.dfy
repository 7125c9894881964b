// The hypotheses of the two ARC theorems can be met together: toy cryptography that signs
// nothing but what one run of the sealer asks for, and a first seal that passes under it.

module ArcInstance {
  import opened Options
  import opened Text
  import opened ArcCanon
  import opened ArcTags
  import opened ArcChain
  import opened ArcVerify
  import opened ArcSeal
  import opened ArcFraming
  import opened ArcSelection
  import opened ArcRoundTrip
  import opened ArcTheorems
  import opened ArcSoundness
  import opened ArcPassSound

  const KEY: Key := RsaKey("toy")

  function Digest(x: string): string {
    "h" + x
  }

  predicate Unwanted(c: char) {
    IsSpace(c) || c == ';'
  }

  function Coded(c: char): (s: string)
    ensures |s| == 2
  {
    if Unwanted(c) then ['1', (c as int + 128) as char] else ['0', c]
  }

  /** Two characters for one, none of them a space or a semicolon. */
  function Encode(x: string): string {
    if x == "" then ""
    else Coded(x[0]) + Encode(x[1..])
  }

  function Decode(x: string): Option<string> {
    if x == "" then Some("")
    else if |x| == 1 then None
    else
      match Decode(x[2..])
      case None => None
      case Some(rest) => Some([if x[0] == '1' && 128 <= x[1] as int < 256 then (x[1] as int - 128) as char else x[1]] + rest)
  }

  lemma CodedDecodes(c: char, rest: string)
    requires Decode(rest).Some?
    ensures Decode(Coded(c) + rest) == Some([c] + Decode(rest).value)
  {
    assert (Coded(c) + rest)[2..] == rest;
  }

  lemma CodedClean(c: char, rest: string)
    requires CleanText(rest)
    ensures CleanText(Coded(c) + rest)
  {
    assert CleanText(Coded(c));
    assert forall i :: 0 <= i < |rest| ==> (Coded(c) + rest)[i + 2] == rest[i];
  }

  lemma {:induction false} EncodeDecodes(x: string)
    ensures Decode(Encode(x)) == Some(x) && CleanText(Encode(x)) && (x != "" ==> Encode(x) != "")
  {
    hide CleanText, Decode, Coded;
    if x == "" {
      NothingDecodes();
    } else {
      EncodeDecodes(x[1..]);
      CodedDecodes(x[0], Encode(x[1..]));
      CodedClean(x[0], Encode(x[1..]));
      assert x == [x[0]] + x[1..];
    }
  }

  lemma NothingDecodes()
    ensures Decode("") == Some("") && CleanText("")
  {
  }

  /** Cryptography under which exactly the digests in `known` are signed. */
  function Toy(known: set<string>): Crypto {
    Crypto(Digest, Encode, Decode, (key, d, sig) => d in known && sig == "s" + d, name => Some(KEY))
  }

  function ToySealer(domain: string, selector: string, known: set<string>): Sealer {
    Sealer(domain, selector, false, d => if d in known then Some("s" + d) else None)
  }

  lemma ToyLaws(known: set<string>, s: Sealer)
    requires s == ToySealer(s.domain, s.selector, known)
    ensures EncodingLaws(Toy(known)) && CollisionFree(Toy(known)) && KeyPublished(Toy(known), s)
  {
    var c := Toy(known);
    forall x
      ensures c.decode(c.encode(x)) == Some(x) && CleanText(c.encode(x)) && (x != "" ==> c.encode(x) != "") && c.hash(x) != ""
    {
      EncodeDecodes(x);
    }
    forall x, y | c.hash(x) == c.hash(y)
      ensures x == y
    {
      assert Digest(x)[1..] == x && Digest(y)[1..] == y;
    }
  }

  // ----- the two inputs one run signs -----

  function ToyRun(domain: string, selector: string, known: set<string>, original: string, authserv: string, results: string, t: int): SealRun {
    SealRun(ToySealer(domain, selector, known), original, authserv, results, CV_NONE, t)
  }

  ghost function SealAsked(c: Crypto, run: SealRun): string {
    SealInputOf([ArcSet(
      ResultsField(1, OrElse(run.authserv, run.s.domain), OrElse(run.results, "none")),
      SignedField(AMS, RunAmsTags(c, run), c.encode("s" + c.hash(NewAmsInput(RunMessage(run), RunAmsTags(c, run))))),
      SignedField(AS, SealTags(run.s, 1, run.t, CV_NONE), ""))])
  }

  /** What is asked for does not depend on what can be signed. */
  lemma AskedAlike(c: Crypto, d: Crypto, run: SealRun, other: Sealer)
    requires c.hash == d.hash && c.encode == d.encode
    requires run.s.domain == other.domain && run.s.selector == other.selector && run.s.ed25519 == other.ed25519
    ensures RunAmsTags(c, run) == RunAmsTags(d, run.(s := other)) && SealAsked(c, run) == SealAsked(d, run.(s := other))
  {
    hide CanonBodyOf, ListedNames, Join, Decimal, FormatInt, NewAmsInput, SealInputOf, ResultsField, SignedField, ChainOf, MessageOf, Normalized;
    TagsAlike(c, d, run, other);
    hide NewAmsTags, AmsTags, SealTags;
    SameTags(c, run.s, other, RunMessage(run), 1, run.t, CV_NONE);
    hide RunAmsTags;
  }

  lemma TagsAlike(c: Crypto, d: Crypto, run: SealRun, other: Sealer)
    requires c.hash == d.hash && c.encode == d.encode
    requires run.s.domain == other.domain && run.s.selector == other.selector && run.s.ed25519 == other.ed25519
    ensures RunAmsTags(c, run) == RunAmsTags(d, run.(s := other))
  {
    hide CanonBodyOf, ListedNames, Join, AmsTags, ChainOf, MessageOf, Normalized;
    var q := run.(s := other);
    assert RunMessage(q) == RunMessage(run) && RunSets(q) == RunSets(run);
    hide RunMessage, RunSets;
    SameTags(c, run.s, other, RunMessage(run), |RunSets(run)| + 1, run.t, CV_NONE);
    assert NewAmsTags(c, other, RunMessage(q), |RunSets(q)| + 1, q.t) == NewAmsTags(d, other, RunMessage(q), |RunSets(q)| + 1, q.t);
  }

  lemma RunSigns(c: Crypto, run: SealRun, known: set<string>)
    requires c == Toy(known) && run.s == ToySealer(run.s.domain, run.s.selector, known) && run.cv == CV_NONE
    requires ChainOf(RunMessage(run).fields) == Some([])
    requires known == {c.hash(NewAmsInput(RunMessage(run), RunAmsTags(c, run))), c.hash(SealAsked(c, run))}
    ensures Unforgeable(c, KEY, [run]) && RunResult(c, run).Sealed?
  {
    hide ChainOf, MessageOf, Normalized, NewAmsTags, NewAmsInput, SealInputOf, ResultsField, SignedField, SealTags, OrElse, Encode, Written;
    var x := NewAmsInput(RunMessage(run), RunAmsTags(c, run));
    assert Sign(c, run.s, x) == Some(c.encode("s" + c.hash(x)));
    assert AmsSigned(c, run, x);
    assert SealSigned(c, run, SealAsked(c, run)) by {
      var sets: seq<ArcSet> := [];
      assert forall s: ArcSet :: sets + [s] == [s];
    }
    assert SignedIn(c, run, x) && SignedIn(c, run, SealAsked(c, run));
    assert run in [run];
  }

  lemma FirstSeal(c: Crypto, run: SealRun)
    requires EncodingLaws(c) && KeyPublished(c, run.s) && NamedSealer(run.s) && run.cv == CV_NONE && RunResult(c, run).Sealed?
    requires Spooled(run.original) && OneLineResults(run.s, run.authserv, run.results)
    requires ChainOf(RunMessage(run).fields) == Some([])
    ensures VerdictOf(c, RunResult(c, run).out) ==
            if HasSignedField(RunMessage(run)) then Pass(1) else Fail(1, BadMessageSignature(MissingTag("h")))
  {
    hide EncodingLaws, KeyPublished, NamedSealer, Spooled, OneLineResults, HasSignedField, ChainOf, MessageOf, Normalized, SealOf, ChainVerdict;
    assert VerdictOf(c, run.original) == NoChain;
    SealThenVerify(c, run.s, run.original, run.authserv, run.results, run.cv, run.t);
  }

  /** A first seal: the hypotheses of both theorems hold together, and the sealed message passes if it has a field to sign. */
  lemma HypothesesMet(domain: string, selector: string, original: string, authserv: string, results: string, t: int)
    returns (c: Crypto, run: SealRun)
    requires CleanValue(domain) && domain != "" && CleanValue(selector) && selector != ""
    requires Spooled(original) && OneLine(OrElse(authserv, domain)) && OneLine(results)
    requires ChainOf(MessageOf(Normalized(original)).fields) == Some([])
    ensures run.s.domain == domain && run.s.selector == selector && run.original == original
    ensures EncodingLaws(c) && CollisionFree(c) && KeyPublished(c, run.s) && NamedSealer(run.s) && Unforgeable(c, KEY, [run])
    ensures var r := RunResult(c, run);
            && r.Sealed? && SigKey(c, NewestTags(r.out)) == Some(KEY)
            && VerdictOf(c, r.out) == if HasSignedField(RunMessage(run)) then Pass(1) else Fail(1, BadMessageSignature(MissingTag("h")))
  {
    var r := ToyRun(domain, selector, {}, original, authserv, results, t);
    hide RunAmsTags, SealAsked, NewAmsInput, RunResult, CleanValue, Encode, Digest, ChainOf, MessageOf, Normalized, HasSignedField, Spooled;
    hide EncodingLaws, CollisionFree, KeyPublished, Unforgeable, VerdictOf, NewestTags, KeyName, TagOf, OneLine;
    var known := {Digest(NewAmsInput(RunMessage(r), RunAmsTags(Toy({}), r))), Digest(SealAsked(Toy({}), r))};
    c, run := Toy(known), ToyRun(domain, selector, known, original, authserv, results, t);
    AskedAlike(Toy({}), c, r, run.s);
    ToyLaws(known, run.s);
    RunSigns(c, run, known);
    FirstSeal(c, run);
  }

  lemma EmptyMessage(original: string)
    requires original == ""
    ensures Spooled(original) && ChainOf(MessageOf(Normalized(original)).fields) == Some([])
    ensures !HasSignedField(MessageOf(Normalized(original)))
  {
    var fields := MessageOf(Normalized(original)).fields;
    assert fields == [];
    ChainIs(fields, []);
  }

  /** A message without a field to sign is sealed, and fails: the empty one for example. */
  lemma UnsignedMessageFails(domain: string, selector: string, t: int) returns (c: Crypto, run: SealRun)
    requires CleanValue(domain) && domain != "" && CleanValue(selector) && selector != ""
    ensures EncodingLaws(c) && KeyPublished(c, run.s) && NamedSealer(run.s) && run.original == ""
    ensures var r := RunResult(c, run);
            r.Sealed? && VerdictOf(c, r.out) == Fail(1, BadMessageSignature(MissingTag("h")))
  {
    EmptyMessage("");
    hide EncodingLaws, KeyPublished, NamedSealer, CollisionFree, Unforgeable, ChainOf, MessageOf, Normalized, HasSignedField, VerdictOf, RunResult, NewestTags;
    c, run := HypothesesMet(domain, selector, "", "", "", t);
  }
}
