// When the sealer writes nothing, and why a failed chain fails at every hop that leaves the ARC fields alone.

module ArcPermanence {
  import opened Options
  import opened Text
  import opened ArcCanon
  import opened ArcCanonLaws
  import opened ArcTags
  import opened ArcChain
  import opened ArcVerify
  import opened ArcSeal
  import opened ArcFraming
  import opened ArcSelection
  import opened ArcRoundTrip
  import opened ArcTheorems

  /** The chain is malformed, or its newest seal says cv=fail. */
  ghost predicate Failed(raw: string) {
    var chain := ChainOf(MessageOf(Normalized(raw)).fields);
    chain.None? || LatestCV(chain.value) == CV_FAIL
  }

  lemma RefusedExactly(chain: Option<seq<ArcSet>>, cv: string)
    requires chain.Some? ==> |chain.value| <= MAX_INSTANCES
    ensures Refusal(chain, cv).Some? <==>
              || chain.None? || LatestCV(chain.value) == CV_FAIL
              || |chain.value| == MAX_INSTANCES
              || (chain.value != [] && cv != CV_PASS && cv != CV_FAIL)
    ensures Refusal(chain, cv) != Some(SigningFailed)
  {
    assert LatestCV([]) != CV_FAIL by { assert CV_FAIL != ""; }
    hide LatestCV;
  }

  lemma SigningFailure(c: Crypto, s: Sealer, m: Message, sets: seq<ArcSet>, authserv: string, results: string, cv: string, t: int)
    requires NewSet(c, s, m, sets, authserv, results, cv, t) == None
    ensures exists input :: Sign(c, s, input) == None
  {
    hide Sign, NewAmsInput, NewAmsTags, SealInputOf, SealTags, SignedField, ResultsField;
  }

  /** The sealer writes nothing exactly for a malformed chain, a failed one, a full one,
      one nobody vouches for, or when the signer fails. */
  lemma SealRefusesExactly(c: Crypto, s: Sealer, original: string, authserv: string, results: string, cv: string, t: int)
    ensures var chain := ChainOf(MessageOf(Normalized(original)).fields);
            var r := SealOf(c, s, original, authserv, results, cv, t);
            && (r.Refused? && r.why != SigningFailed <==>
                  || Failed(original)
                  || |chain.value| == MAX_INSTANCES
                  || (chain.value != [] && cv != CV_PASS && cv != CV_FAIL))
            && (r.Refused? && r.why == SigningFailed ==> exists input :: Sign(c, s, input) == None)
  {
    hide MessageOf, Normalized, LatestCV, Written, Sign, NewSet, OrElse, SealedCV, Refusal;
    var m := MessageOf(Normalized(original));
    var chain := ChainOf(m.fields);
    RefusedExactly(chain, cv);
    hide ChainOf;
    if Refusal(chain, cv).None? {
      var sets := chain.value;
      if NewSet(c, s, m, sets, OrElse(authserv, s.domain), OrElse(results, "none"), SealedCV(sets, cv), t) == None {
        SigningFailure(c, s, m, sets, OrElse(authserv, s.domain), OrElse(results, "none"), SealedCV(sets, cv), t);
      }
    }
  }

  /** And which refusal it is: a chain that nobody validated, one that is full, one that failed. */
  lemma RefusalReasons(c: Crypto, s: Sealer, original: string, authserv: string, results: string, cv: string, t: int)
    ensures var chain := ChainOf(MessageOf(Normalized(original)).fields);
            var r := SealOf(c, s, original, authserv, results, cv, t);
            var vouched := cv == "pass" || cv == "fail";
            && (chain.None? ==> r == Refused(if vouched then FailedChain else UnvalidatedChain))
            && (chain.Some? && |chain.value| == 50 ==> r == Refused(ChainTooLong))
            && (chain.Some? && 0 < |chain.value| < 50 && LatestCV(chain.value) == "fail" ==> r == Refused(FailedChain))
            && (chain.Some? && 0 < |chain.value| < 50 && LatestCV(chain.value) != "fail" && !vouched ==> r == Refused(UnvalidatedChain))
  {
    hide MessageOf, Normalized, LatestCV, Written, NewSet, OrElse, SealedCV, ChainOf;
  }

  /** A failed chain fails validation whatever keys are published. */
  lemma FailedFails(c: Crypto, raw: string)
    requires Failed(raw)
    ensures VerdictOf(c, raw).Fail?
  {
    assert LatestCV([]) != CV_FAIL by { assert CV_FAIL != ""; }
    hide MessageOf, Normalized, ChainOf, LatestCV, FirstCVProblem, AmsProblem, LastSealProblem;
  }

  // ----- later hops -----

  /** A later hop seals, or prepends trace header lines of its own. */
  datatype Hop =
    | SealHop(c: Crypto, s: Sealer, authserv: string, results: string, cv: string, t: int)
    | TraceHop(block: string)

  ghost predicate PlainBlock(block: string) {
    HeaderBlock(block) && NoArc(BlockFields(block))
  }

  ghost predicate ValidHop(h: Hop) {
    h.TraceHop? ==> PlainBlock(h.block)
  }

  /** What the hop passes on; a message it cannot seal is delivered unsealed. */
  ghost function AfterHop(raw: string, h: Hop): string {
    match h
    case TraceHop(block) => block + raw
    case SealHop(c, s, authserv, results, cv, t) =>
      match SealOf(c, s, raw, authserv, results, cv, t)
      case Sealed(out) => out
      case Refused(_) => raw
  }

  ghost function AfterHops(raw: string, hops: seq<Hop>): string
    decreases |hops|
  {
    if hops == [] then raw else AfterHops(AfterHop(raw, hops[0]), hops[1..])
  }

  lemma BlockInFront(block: string, raw: string)
    requires HeaderBlock(block) && Spooled(raw)
    ensures Spooled(block + raw)
    ensures var m := MessageOf(Normalized(raw));
            MessageOf(Normalized(block + raw)) == Message(BlockFields(block) + m.fields, m.body)
  {
    NormalizedPrepend(block, raw);
    NormLineFeeds(raw);
    NormHead(raw);
    assert (block + raw)[0] == block[0] && (block + raw)[|block| - 1] == '\n';
    hide Norm, MessageOf, BlockFields;
    assert Normalized(raw) == Norm(raw);
    SplitPrepend(block, Norm(raw));
  }

  lemma TraceKeepsFailed(block: string, raw: string)
    requires PlainBlock(block) && Spooled(raw) && Failed(raw)
    ensures Failed(block + raw) && Spooled(block + raw)
  {
    BlockInFront(block, raw);
    hide HeaderBlock, Spooled, Normalized, MessageOf, BlockFields, ChainOf, LatestCV;
    ChainBehind(BlockFields(block), MessageOf(Normalized(raw)).fields);
  }

  lemma HopKeepsFailed(raw: string, h: Hop)
    requires ValidHop(h) && Spooled(raw) && Failed(raw)
    ensures Failed(AfterHop(raw, h)) && Spooled(AfterHop(raw, h))
  {
    hide Failed, Spooled, PlainBlock, SealOf;
    match h
    case TraceHop(block) =>
      TraceKeepsFailed(block, raw);
    case SealHop(c, s, authserv, results, cv, t) =>
      SealRefusesExactly(c, s, raw, authserv, results, cv, t);
  }

  /** Once failed, a message fails at every later hop that adds no ARC fields but by this sealer, whatever keys are published.
      That is all there is for a chain with missing fields, which another server's fields could complete. */
  lemma {:induction false} FailedStaysFailed(raw: string, hops: seq<Hop>, c: Crypto)
    requires Spooled(raw) && Failed(raw)
    requires forall i :: 0 <= i < |hops| ==> ValidHop(hops[i])
    ensures Failed(AfterHops(raw, hops)) && VerdictOf(c, AfterHops(raw, hops)).Fail?
    decreases |hops|
  {
    hide Failed, Spooled, VerdictOf, AfterHop, ValidHop;
    if hops == [] {
      FailedFails(c, raw);
    } else {
      assert ValidHop(hops[0]);
      HopKeepsFailed(raw, hops[0]);
      FailedStaysFailed(AfterHop(raw, hops[0]), hops[1..], c);
    }
  }

  /** Sealing an existing chain with cv=fail marks it failed. */
  lemma SealedFailIsFailed(c: Crypto, s: Sealer, original: string, authserv: string, results: string, t: int)
    requires EncodingLaws(c) && KeyPublished(c, s) && NamedSealer(s)
    requires Spooled(original) && OneLineResults(s, authserv, results)
    requires ChainOf(MessageOf(Normalized(original)).fields) != Some([])
    ensures var r := SealOf(c, s, original, authserv, results, CV_FAIL, t);
            r.Sealed? ==> Failed(r.out) && Spooled(r.out) && ChainOf(MessageOf(Normalized(r.out)).fields).Some?
  {
    var r := SealOf(c, s, original, authserv, results, CV_FAIL, t);
    if r.Sealed? {
      var m := MessageOf(Normalized(original));
      var sets := ChainOf(m.fields).value;
      assert Refusal(ChainOf(m.fields), CV_FAIL) == None && |sets| < MAX_INSTANCES && SealedCV(sets, CV_FAIL) == CV_FAIL by {
        hide MessageOf, Normalized, ChainOf, LatestCV, NewSet;
      }
      hide MessageOf, Normalized, ChainOf, LatestCV, Failed, Spooled, Written, Added, SealedCV, SealOf, OneLineResults, Refusal;
      SealProceeds(c, s, original, authserv, results, CV_FAIL, t);
      var new_ :| r.out == Written(new_) + original && Added(c, s, m, sets, SealedCV(sets, CV_FAIL), t, new_);
      MarkedFailedBySeal(c, s, original, m, sets, t, new_);
    }
  }

  lemma MarkedFailedBySeal(c: Crypto, s: Sealer, original: string, m: Message, sets: seq<ArcSet>, t: int, new_: ArcSet)
    requires EncodingLaws(c) && KeyPublished(c, s) && NamedSealer(s) && Spooled(original)
    requires m == MessageOf(Normalized(original)) && ChainOf(m.fields) == Some(sets) && |sets| < MAX_INSTANCES
    requires Added(c, s, m, sets, CV_FAIL, t, new_)
    ensures Failed(Written(new_) + original) && Spooled(Written(new_) + original)
    ensures ChainOf(MessageOf(Normalized(Written(new_) + original)).fields).Some?
  {
    CVClean(CV_FAIL);
    hide Added, EncodingLaws, KeyPublished, NamedSealer, Spooled, MessageOf, Normalized, Written, CleanValue, ToLower, ChainOf, LatestCV;
    SealedChain(c, s, original, m, sets, CV_FAIL, t, new_);
    LatestAdded(c, s, m, sets, CV_FAIL, t, new_);
  }

  lemma LatestAdded(c: Crypto, s: Sealer, m: Message, sets: seq<ArcSet>, cv: string, t: int, new_: ArcSet)
    requires EncodingLaws(c) && KeyPublished(c, s) && NamedSealer(s) && |sets| < MAX_INSTANCES && CleanValue(cv) && ToLower(cv) == cv
    requires Added(c, s, m, sets, cv, t, new_)
    ensures LatestCV(sets + [new_]) == cv
  {
    hide Added, EncodingLaws, KeyPublished, NamedSealer, CleanValue, ToLower, TagsOf, Value;
    NewSealAccepted(c, s, m, sets, cv, t, new_);
    assert (sets + [new_])[|sets|] == new_;
  }

  lemma SealedChain(c: Crypto, s: Sealer, original: string, m: Message, sets: seq<ArcSet>, cv: string, t: int, new_: ArcSet)
    requires EncodingLaws(c) && KeyPublished(c, s) && NamedSealer(s) && Spooled(original) && CleanValue(cv)
    requires m == MessageOf(Normalized(original)) && ChainOf(m.fields) == Some(sets) && |sets| < MAX_INSTANCES
    requires Added(c, s, m, sets, cv, t, new_)
    ensures ChainOf(MessageOf(Normalized(Written(new_) + original)).fields) == Some(sets + [new_])
    ensures Spooled(Written(new_) + original)
  {
    hide Added, EncodingLaws, KeyPublished, NamedSealer, Spooled, MessageOf, Normalized, Front, WritableSet, NextSet, Written, CleanValue, Represents;
    AddedSet(c, s, m, sets, cv, t, new_);
    WrittenSpooled(new_, original);
    SealedMessage(new_, original);
    ChainExtended(new_, m.fields, sets);
  }

  lemma WrittenSpooled(s: ArcSet, original: string)
    requires WritableSet(s)
    ensures Spooled(Written(s) + original)
  {
    WrittenSet(s);
    hide Written, BlockFields, WritableSet;
    var h := Written(s);
    assert (h + original)[0] == h[0] && (h + original)[|h| - 1] == h[|h| - 1] == '\n';
  }
}
