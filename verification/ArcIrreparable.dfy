// What no later hop can put right, whatever header fields it adds: a malformed or repeated ARC field,
// a seal with the wrong cv (cv=fail is one), and a seal that does not verify.

module ArcIrreparable {
  import opened Options
  import opened Text
  import opened ArcCanon
  import opened ArcCanonLaws
  import opened ArcTags
  import opened ArcChain
  import opened ArcVerify
  import opened ArcSeal
  import opened ArcFraming
  import opened ArcSelection
  import opened ArcRoundTrip
  import opened ArcTheorems
  import opened ArcPermanence

  /** The cv that a seal carries; a tag list that does not parse carries none. */
  function CVOf(f: Field): string {
    match TagsOf(Value(f))
    case None => ""
    case Some(tags) => ToLower(TagOf(tags, "cv"))
  }

  ghost predicate WrongSeal(fields: seq<Field>, i: int, n: nat) {
    n >= 1 && Placed(fields, i, Seal, n) && CVOf(fields[i]) != WantedCV(n - 1)
  }

  ghost predicate HasMalformed(fields: seq<Field>) {
    exists i :: 0 <= i < |fields| && MarkOf(fields[i]).Malformed?
  }

  /** An ARC field without instance, one given twice, or a seal whose cv is not the one its instance must have. */
  ghost predicate Irreparable(fields: seq<Field>) {
    HasMalformed(fields) || !Unrepeated(fields) || exists i, n :: WrongSeal(fields, i, n)
  }

  /** Some seal says cv=fail. */
  ghost predicate CarriesFail(fields: seq<Field>) {
    exists i: int, n: nat :: Placed(fields, i, Seal, n) && CVOf(fields[i]) == CV_FAIL
  }

  lemma CarriedFailIsIrreparable(fields: seq<Field>)
    requires CarriesFail(fields)
    ensures Irreparable(fields)
  {
    CVTexts();
    hide CVOf, WantedCV, LowerText, KindOf, InstanceOf;
    var i: int, n: nat :| Placed(fields, i, Seal, n) && CVOf(fields[i]) == CV_FAIL;
    assert n >= 1;
    WantedIs(n - 1);
    assert WrongSeal(fields, i, n);
  }

  lemma PlacedShifted(front: seq<Field>, fields: seq<Field>, i: int, k: Kind, n: nat)
    requires Placed(fields, i, k, n)
    ensures Placed(front + fields, |front| + i, k, n) && (front + fields)[|front| + i] == fields[i]
  {
    hide MarkOf;
  }

  lemma StaysIrreparable(front: seq<Field>, fields: seq<Field>)
    requires Irreparable(fields)
    ensures Irreparable(front + fields)
  {
    var all := front + fields;
    hide MarkOf, CVOf, WantedCV;
    if HasMalformed(fields) {
      var i :| 0 <= i < |fields| && MarkOf(fields[i]).Malformed?;
      assert all[|front| + i] == fields[i];
    } else if !Unrepeated(fields) {
      var i, j, k, n :| Placed(fields, i, k, n) && Placed(fields, j, k, n) && i != j;
      PlacedShifted(front, fields, i, k, n);
      PlacedShifted(front, fields, j, k, n);
    } else {
      var i, n :| WrongSeal(fields, i, n);
      PlacedShifted(front, fields, i, Seal, n);
      assert WrongSeal(all, |front| + i, n);
    }
  }

  lemma WrongSealFound(fields: seq<Field>, sets: seq<ArcSet>, i: int, n: nat)
    requires Represents(fields, sets) && WrongSeal(fields, i, n)
    ensures n <= |sets| && sets[n - 1].sl == fields[i]
  {
    hide MarkOf, CVOf, WantedCV;
    assert n <= |sets| && HoldsSet(fields, sets[n - 1], n - 1 + 1);
    var j :| Placed(fields, j, Seal, n) && fields[j] == sets[n - 1].sl;
    assert i == j;
  }

  lemma WrongCVIs(s: ArcSet, i: nat)
    ensures CVOf(s.sl) != WantedCV(i) ==> CVProblem(s, i).Some?
  {
    hide TagsOf, Value, ToLower, TagOf, WantedCV;
  }

  lemma LastReported(sets: seq<ArcSet>)
    requires sets != [] && CVProblem(sets[|sets| - 1], |sets| - 1).Some?
    ensures FirstCVProblem(sets).Some?
  {
    hide CVProblem;
  }

  lemma WrongCVReported(sets: seq<ArcSet>, n: nat)
    requires 1 <= n <= |sets| && CVOf(sets[n - 1].sl) != WantedCV(n - 1)
    ensures FirstCVProblem(sets).Some?
  {
    hide CVProblem, CVOf, WantedCV, FirstCVProblem;
    WrongCVIs(sets[n - 1], n - 1);
    var p := sets[..n];
    assert p[|p| - 1] == sets[n - 1];
    LastReported(p);
    FirstCVProblemKept(sets, n);
  }

  lemma IrreparableFails(c: Crypto, m: Message)
    requires Irreparable(m.fields)
    ensures MessageVerdict(c, m).Fail?
  {
    hide MarkOf, CVOf, WantedCV, AmsProblem, LastSealProblem, FirstCVProblem, LatestCV;
    if ChainOf(m.fields).Some? {
      var sets := ChainOf(m.fields).value;
      assert !HasMalformed(m.fields);
      var i, n :| WrongSeal(m.fields, i, n);
      WrongSealFound(m.fields, sets, i, n);
      WrongCVReported(sets, n);
    }
  }

  // ----- a seal that does not verify -----

  ghost predicate BrokenSeal(c: Crypto, fields: seq<Field>) {
    ChainOf(fields).Some? && LastSealProblem(c, ChainOf(fields).value).Some?
  }

  lemma HoldsSetShifted(front: seq<Field>, fields: seq<Field>, s: ArcSet, n: nat)
    requires HoldsSet(fields, s, n)
    ensures HoldsSet(front + fields, s, n)
  {
    hide MarkOf;
    var i :| Placed(fields, i, Results, n) && fields[i] == s.aar;
    var j :| Placed(fields, j, Signature, n) && fields[j] == s.ams;
    var k :| Placed(fields, k, Seal, n) && fields[k] == s.sl;
    PlacedShifted(front, fields, i, Results, n);
    PlacedShifted(front, fields, j, Signature, n);
    PlacedShifted(front, fields, k, Seal, n);
  }

  /** Fields put in front can only add sets to a chain. */
  lemma ChainGrows(front: seq<Field>, fields: seq<Field>)
    requires ChainOf(fields).Some? && ChainOf(front + fields).Some?
    ensures ChainOf(fields).value <= ChainOf(front + fields).value
  {
    hide MarkOf, Holds;
    var sets, more := ChainOf(fields).value, ChainOf(front + fields).value;
    forall m: nat | m < |sets|
      ensures HoldsSet(front + fields, sets[m], m + 1)
    {
      assert HoldsSet(fields, sets[m], m + 1);
      HoldsSetShifted(front, fields, sets[m], m + 1);
    }
    hide HoldsSet, Represents;
    if sets != [] {
      HeldWithin(front + fields, more, sets[|sets| - 1], |sets|);
    }
    forall m: nat | m < |sets|
      ensures more[m] == sets[m]
    {
      HeldWithin(front + fields, more, sets[m], m + 1);
    }
    assert sets == more[..|sets|];
  }

  lemma HeldWithin(fields: seq<Field>, sets: seq<ArcSet>, s: ArcSet, n: nat)
    requires Represents(fields, sets) && HoldsSet(fields, s, n) && n >= 1
    ensures n <= |sets| && sets[n - 1] == s
  {
    var i :| Placed(fields, i, Seal, n);
    hide MarkOf;
    assert n <= |sets|;
    HoldsOnce(fields, s, sets[n - 1], n);
  }

  lemma {:induction false} BrokenSealKept(c: Crypto, sets: seq<ArcSet>, more: seq<ArcSet>)
    requires sets <= more && LastSealProblem(c, sets).Some?
    ensures LastSealProblem(c, more).Some?
  {
    hide SealProblem;
    if |sets| < |more| {
      BrokenSealKept(c, sets, more[..|more| - 1]);
    } else {
      assert sets == more;
    }
  }

  lemma BrokenFails(c: Crypto, front: seq<Field>, fields: seq<Field>, body: string)
    requires BrokenSeal(c, fields)
    ensures MessageVerdict(c, Message(front + fields, body)).Fail?
  {
    hide Represents, AmsProblem, LastSealProblem, FirstCVProblem, LatestCV;
    var all := front + fields;
    if ChainOf(all).Some? {
      ChainGrows(front, fields);
      BrokenSealKept(c, ChainOf(fields).value, ChainOf(all).value);
      if ChainOf(all).value == [] {
        NothingWrong(c, ChainOf(all).value);
      }
    }
  }

  // ----- any number of later hops -----

  /** A message after hops that each put header lines in front. */
  function Stacked(blocks: seq<string>, raw: string): string
    decreases |blocks|
  {
    if blocks == [] then raw else Stacked(blocks[1..], blocks[0] + raw)
  }

  ghost predicate AllHeaders(blocks: seq<string>) {
    forall i :: 0 <= i < |blocks| ==> HeaderBlock(blocks[i])
  }

  /** The hops only put fields in front of those the message had. */
  lemma {:induction false} StackedFields(blocks: seq<string>, raw: string) returns (front: seq<Field>)
    requires AllHeaders(blocks) && Spooled(raw)
    ensures var m := MessageOf(Normalized(raw));
            MessageOf(Normalized(Stacked(blocks, raw))) == Message(front + m.fields, m.body)
    decreases |blocks|
  {
    hide HeaderBlock, Spooled, MessageOf, Normalized, BlockFields;
    var m := MessageOf(Normalized(raw));
    if blocks == [] {
      front := [];
      assert front + m.fields == m.fields;
    } else {
      BlockInFront(blocks[0], raw);
      var more := StackedFields(blocks[1..], blocks[0] + raw);
      front := more + BlockFields(blocks[0]);
      assert front + m.fields == more + (BlockFields(blocks[0]) + m.fields);
    }
  }

  /** Failure is permanent: whatever header fields the later hops put in front, ARC sets of their own included,
      and whatever keys are published, the message fails. */
  lemma FailureIsPermanent(raw: string, blocks: seq<string>, c: Crypto)
    requires Spooled(raw) && AllHeaders(blocks) && Irreparable(MessageOf(Normalized(raw)).fields)
    ensures VerdictOf(c, Stacked(blocks, raw)).Fail?
  {
    hide Spooled, AllHeaders, Irreparable, MessageOf, Normalized, MessageVerdict;
    var m := MessageOf(Normalized(raw));
    var front := StackedFields(blocks, raw);
    StaysIrreparable(front, m.fields);
    IrreparableFails(c, Message(front + m.fields, m.body));
  }

  /** A chain with a seal that does not verify never passes again under the same keys. */
  lemma BrokenSealIsPermanent(raw: string, blocks: seq<string>, c: Crypto)
    requires Spooled(raw) && AllHeaders(blocks) && BrokenSeal(c, MessageOf(Normalized(raw)).fields)
    ensures VerdictOf(c, Stacked(blocks, raw)).Fail?
  {
    hide Spooled, AllHeaders, BrokenSeal, MessageOf, Normalized, MessageVerdict;
    var m := MessageOf(Normalized(raw));
    var front := StackedFields(blocks, raw);
    BrokenFails(c, front, m.fields, m.body);
  }

  // ----- which failed messages these are -----

  lemma LatestFailCarries(fields: seq<Field>, sets: seq<ArcSet>)
    requires Represents(fields, sets) && LatestCV(sets) == CV_FAIL
    ensures CarriesFail(fields)
  {
    hide MarkOf, TagsOf, Value, ToLower;
    assert CV_FAIL != "";
    var s := sets[|sets| - 1];
    assert CVOf(s.sl) == CV_FAIL;
    hide CVOf, LatestCV;
    assert HoldsSet(fields, s, |sets| - 1 + 1);
    var i :| Placed(fields, i, Seal, |sets|) && fields[i] == s.sl;
  }

  /** A failed message is beyond repair, unless its ARC fields are sound and only some are missing. */
  lemma FailedIsIrreparable(raw: string)
    requires Failed(raw)
    ensures var fields := MessageOf(Normalized(raw)).fields;
            Irreparable(fields) || (!HasMalformed(fields) && Unrepeated(fields) && ChainOf(fields).None?)
  {
    hide MessageOf, Normalized, HasMalformed, Unrepeated, LatestCV;
    var fields := MessageOf(Normalized(raw)).fields;
    if ChainOf(fields).Some? {
      LatestFailCarries(fields, ChainOf(fields).value);
      CarriedFailIsIrreparable(fields);
    }
  }

  /** Sealing is such a hop. */
  lemma SealPrepends(c: Crypto, s: Sealer, original: string, authserv: string, results: string, cv: string, t: int)
    requires EncodingLaws(c) && KeyPublished(c, s) && NamedSealer(s) && OneLineResults(s, authserv, results)
    ensures var r := SealOf(c, s, original, authserv, results, cv, t);
            r.Sealed? ==> exists block :: HeaderBlock(block) && r.out == block + original
  {
    var r := SealOf(c, s, original, authserv, results, cv, t);
    var m := MessageOf(Normalized(original));
    if r.Sealed? {
      SealRefusesExactly(c, s, original, authserv, results, cv, t);
      hide MessageOf, Normalized, LatestCV, Written, Added, SealOf, OneLineResults, EncodingLaws, KeyPublished, NamedSealer, Represents, HeaderBlock;
      var sets := ChainOf(m.fields).value;
      RefusalNone(sets, cv);
      hide ChainOf, Refusal, CleanValue, SealedCV;
      SealProceeds(c, s, original, authserv, results, cv, t);
      var new_ :| r.out == Written(new_) + original && Added(c, s, m, sets, SealedCV(sets, cv), t, new_);
      AddedSet(c, s, m, sets, SealedCV(sets, cv), t, new_);
      WrittenSet(new_);
    }
  }

  lemma RefusalNone(sets: seq<ArcSet>, cv: string)
    requires |sets| < MAX_INSTANCES && LatestCV(sets) != CV_FAIL && (sets != [] ==> cv == CV_PASS || cv == CV_FAIL)
    ensures Refusal(Some(sets), cv) == None && CleanValue(SealedCV(sets, cv))
  {
    CVClean(SealedCV(sets, cv));
    hide LatestCV, CleanValue;
  }

  /** A message sealed with cv=fail never passes again, at whatever hop and under whatever keys (RFC 8617, section 5.1.2). */
  lemma SealedFailNeverPasses(c: Crypto, s: Sealer, original: string, authserv: string, results: string, t: int, blocks: seq<string>, d: Crypto)
    requires EncodingLaws(c) && KeyPublished(c, s) && NamedSealer(s)
    requires Spooled(original) && OneLineResults(s, authserv, results) && AllHeaders(blocks)
    requires ChainOf(MessageOf(Normalized(original)).fields) != Some([])
    ensures var r := SealOf(c, s, original, authserv, results, CV_FAIL, t);
            r.Sealed? ==> VerdictOf(d, Stacked(blocks, r.out)).Fail?
  {
    var r := SealOf(c, s, original, authserv, results, CV_FAIL, t);
    hide SealOf, Spooled, OneLineResults, AllHeaders, EncodingLaws, KeyPublished, NamedSealer, MessageOf, Normalized, Irreparable, LatestCV;
    if r.Sealed? {
      SealedFailIsFailed(c, s, original, authserv, results, t);
      var m := MessageOf(Normalized(r.out));
      LatestFailCarries(m.fields, ChainOf(m.fields).value);
      CarriedFailIsIrreparable(m.fields);
      FailureIsPermanent(r.out, blocks, d);
    }
  }

  // ----- what can be repaired -----

  lemma ResultsAlone(f: Field, fields: seq<Field>)
    requires MarkOf(f) == Numbered(Results, 1) && Represents(fields, [])
    ensures ChainOf([f] + fields).None?
  {
    hide MarkOf, ChainOf;
    var all := [f] + fields;
    forall sets
      ensures !Represents(all, sets)
    {
      assert Placed(all, 0, Results, 1);
      if |sets| >= 1 {
        forall i
          ensures !Placed(all, i, Seal, 1)
        {
          assert 1 <= i < |all| ==> all[i] == fields[i - 1];
        }
        assert !HoldsSet(all, sets[0], 0 + 1);
      }
    }
  }

  /** A set that lacks fields can be repaired: here its results field came first, and the sealer's two others later. */
  lemma MissingFieldsCanCome(c: Crypto, s: Sealer, original: string, authserv: string, results: string, t: int)
    returns (block: string, raw: string)
    requires EncodingLaws(c) && KeyPublished(c, s) && NamedSealer(s) && Spooled(original) && OneLineResults(s, authserv, results)
    requires var m := MessageOf(Normalized(original)); ChainOf(m.fields) == Some([]) && HasSignedField(m)
    requires SealOf(c, s, original, authserv, results, CV_NONE, t).Sealed?
    ensures HeaderBlock(block) && Spooled(raw) && Failed(raw) && VerdictOf(c, block + raw) == Pass(1)
  {
    hide MessageOf, Normalized, LatestCV, Written, Added, SealOf, OneLineResults, EncodingLaws, KeyPublished, NamedSealer;
    hide HasSignedField, HeaderBlock, Spooled, VerdictOf, Failed, WritableSet, NextSet, ChainOf, Represents;
    FirstSealPasses(c, s, original, authserv, results, t);
    var new_ := FirstSet(c, s, original, authserv, results, t);
    block, raw := SplitSet(new_, original);
  }

  lemma FirstSealPasses(c: Crypto, s: Sealer, original: string, authserv: string, results: string, t: int)
    requires EncodingLaws(c) && KeyPublished(c, s) && NamedSealer(s) && Spooled(original) && OneLineResults(s, authserv, results)
    requires var m := MessageOf(Normalized(original)); ChainOf(m.fields) == Some([]) && HasSignedField(m)
    requires SealOf(c, s, original, authserv, results, CV_NONE, t).Sealed?
    ensures VerdictOf(c, SealOf(c, s, original, authserv, results, CV_NONE, t).out) == Pass(1)
  {
    hide MessageOf, Normalized, SealOf, OneLineResults, EncodingLaws, KeyPublished, NamedSealer, HasSignedField, Spooled, ChainVerdict, ChainOf;
    assert VerdictOf(c, original) == NoChain;
    SealThenVerify(c, s, original, authserv, results, CV_NONE, t);
  }

  lemma FirstSet(c: Crypto, s: Sealer, original: string, authserv: string, results: string, t: int) returns (new_: ArcSet)
    requires EncodingLaws(c) && KeyPublished(c, s) && NamedSealer(s) && OneLineResults(s, authserv, results)
    requires ChainOf(MessageOf(Normalized(original)).fields) == Some([])
    requires SealOf(c, s, original, authserv, results, CV_NONE, t).Sealed?
    ensures SealOf(c, s, original, authserv, results, CV_NONE, t).out == Written(new_) + original
    ensures WritableSet(new_) && NextSet(new_, 1)
  {
    hide MessageOf, Normalized, LatestCV, Written, Added, SealOf, OneLineResults, EncodingLaws, KeyPublished, NamedSealer;
    hide ChainOf, Represents, CleanValue, WritableSet, NextSet;
    var sets: seq<ArcSet> := [];
    NoneIsNoFail(sets);
    RefusalNone(sets, CV_NONE);
    hide Refusal, SealedCV;
    SealProceeds(c, s, original, authserv, results, CV_NONE, t);
    new_ :| SealOf(c, s, original, authserv, results, CV_NONE, t).out == Written(new_) + original
      && Added(c, s, MessageOf(Normalized(original)), sets, SealedCV(sets, CV_NONE), t, new_);
    AddedSet(c, s, MessageOf(Normalized(original)), sets, SealedCV(sets, CV_NONE), t, new_);
  }

  lemma NoneIsNoFail(sets: seq<ArcSet>)
    requires sets == []
    ensures LatestCV(sets) != CV_FAIL
  {
    assert CV_FAIL != "";
  }

  lemma ResultsFirst(f: Field, original: string)
    requires LineField(f) && MarkOf(f) == Numbered(Results, 1) && Spooled(original)
    requires ChainOf(MessageOf(Normalized(original)).fields) == Some([])
    ensures Spooled(f.raw + CRLF + original) && Failed(f.raw + CRLF + original)
  {
    hide MessageOf, Normalized, BlockFields, LineField, HeaderBlock, Spooled, MarkOf, LatestCV, Represents;
    FieldBlock(f);
    BlockInFront(f.raw + CRLF, original);
    ResultsAlone(f, MessageOf(Normalized(original)).fields);
  }

  lemma WrittenApart(s: ArcSet, original: string)
    ensures s.sl.raw + CRLF + (s.ams.raw + CRLF) + (s.aar.raw + CRLF + original) == Written(s) + original
  {
    var a, b, c := s.sl.raw + CRLF, s.ams.raw + CRLF, s.aar.raw + CRLF;
    assert a + b + (c + original) == a + (b + c) + original;
  }

  lemma SplitSet(s: ArcSet, original: string) returns (block: string, raw: string)
    requires WritableSet(s) && NextSet(s, 1) && Spooled(original)
    requires ChainOf(MessageOf(Normalized(original)).fields) == Some([])
    ensures HeaderBlock(block) && Spooled(raw) && Failed(raw) && block + raw == Written(s) + original
  {
    hide Written, MessageOf, Normalized, BlockFields, LineField, HeaderBlock, Spooled, MarkOf, LatestCV, Failed, ChainOf, Represents;
    block, raw := s.sl.raw + CRLF + (s.ams.raw + CRLF), s.aar.raw + CRLF + original;
    FieldBlock(s.ams);
    FieldBlock(s.sl);
    BlockJoin(s.sl.raw + CRLF, s.ams.raw + CRLF);
    ResultsFirst(s.aar, original);
    WrittenApart(s, original);
  }
}
