// What the sealer writes, byte by byte (RFC 8617, section 4.1).

module ArcWritten {
  import opened Options
  import opened Text
  import opened ArcCanon
  import opened ArcTags
  import opened ArcChain
  import opened ArcVerify
  import opened ArcSeal

  /** The header fields whose signing is worth it, in the order in which they are listed. */
  const COVERED: seq<string> := [
    "from", "to", "cc", "subject", "date", "message-id", "reply-to", "in-reply-to", "references",
    "mime-version", "content-type", "content-transfer-encoding", "dkim-signature"]

  function AlgorithmName(s: Sealer): string {
    if s.ed25519 then "ed25519-sha256" else "rsa-sha256"
  }

  function ResultsLine(n: nat, authserv: string, results: string): string {
    "ARC-Authentication-Results: i=" + Decimal(n) + "; " + authserv + "; " + results
  }

  function AmsItems(s: Sealer, n: nat, t: int, bh: string, h: string, b: string): seq<string> {
    ["i=" + Decimal(n), "a=" + AlgorithmName(s), "c=relaxed/relaxed", "d=" + s.domain, "s=" + s.selector,
     "t=" + FormatInt(t), "bh=" + bh, "h=" + h, "b=" + b]
  }

  function AmsLine(s: Sealer, n: nat, t: int, bh: string, h: string, b: string): string {
    "ARC-Message-Signature: " + Join(AmsItems(s, n, t, bh, h, b), "; ")
  }

  function SealItems(s: Sealer, n: nat, t: int, cv: string, b: string): seq<string> {
    ["i=" + Decimal(n), "a=" + AlgorithmName(s), "cv=" + cv, "d=" + s.domain, "s=" + s.selector, "t=" + FormatInt(t), "b=" + b]
  }

  function SealLine(s: Sealer, n: nat, t: int, cv: string, b: string): string {
    "ARC-Seal: " + Join(SealItems(s, n, t, cv, b), "; ")
  }

  lemma {:induction false} RenderJoin(tags: seq<Tag>, texts: seq<string>)
    requires |texts| == |tags| && forall i :: 0 <= i < |tags| ==> texts[i] == tags[i].name + "=" + tags[i].value
    ensures Render(tags) == Join(texts, "; ")
  {
    if |tags| > 1 {
      RenderJoin(tags[1..], texts[1..]);
    }
  }

  lemma AlgorithmIs(s: Sealer)
    ensures Algorithm(s) == AlgorithmName(s)
  {
  }

  lemma SealTexts(s: Sealer, n: nat, t: int, cv: string, b: string, i: nat)
    ensures var tags := SealTags(s, n, t, cv) + [Tag("b", b)];
            |tags| == 7 && (i < 7 ==> SealItems(s, n, t, cv, b)[i] == tags[i].name + "=" + tags[i].value)
  {
    hide Decimal, FormatInt, Algorithm, AlgorithmName;
    AlgorithmIs(s);
    assert i < 7 ==> i == 0 || i == 1 || i == 2 || i == 3 || i == 4 || i == 5 || i == 6;
  }

  lemma AmsTexts(s: Sealer, n: nat, t: int, bh: string, h: string, b: string, i: nat)
    ensures var tags := AmsTags(s, n, t, bh, h) + [Tag("b", b)];
            |tags| == 9 && (i < 9 ==> AmsItems(s, n, t, bh, h, b)[i] == tags[i].name + "=" + tags[i].value)
  {
    hide Decimal, FormatInt, Algorithm, AlgorithmName;
    AlgorithmIs(s);
    if i < 4 {
      assert i == 0 || i == 1 || i == 2 || i == 3;
    } else if i < 9 {
      assert i == 4 || i == 5 || i == 6 || i == 7 || i == 8;
    }
  }

  lemma SealLineIs(s: Sealer, n: nat, t: int, cv: string, b: string)
    ensures SignedField(AS, SealTags(s, n, t, cv), b) == Field("ARC-Seal", SealLine(s, n, t, cv, b))
  {
    hide Render, Join, SealItems, SealTags;
    var tags := SealTags(s, n, t, cv) + [Tag("b", b)];
    assert |SealItems(s, n, t, cv, b)| == 7 by { Sizes(); }
    SealTexts(s, n, t, cv, b, 0);
    forall i: nat | i < 7
      ensures SealItems(s, n, t, cv, b)[i] == tags[i].name + "=" + tags[i].value
    {
      SealTexts(s, n, t, cv, b, i);
    }
    RenderJoin(tags, SealItems(s, n, t, cv, b));
    assert AS + ": " == "ARC-Seal: ";
  }

  lemma Sizes()
    ensures forall s, n, t, cv, b :: |SealItems(s, n, t, cv, b)| == 7
    ensures forall s, n, t, bh, h, b :: |AmsItems(s, n, t, bh, h, b)| == 9
  {
  }

  lemma AmsLineIs(s: Sealer, n: nat, t: int, bh: string, h: string, b: string)
    ensures SignedField(AMS, AmsTags(s, n, t, bh, h), b) == Field("ARC-Message-Signature", AmsLine(s, n, t, bh, h, b))
  {
    hide Render, Join, AmsItems, AmsTags;
    var tags := AmsTags(s, n, t, bh, h) + [Tag("b", b)];
    assert |AmsItems(s, n, t, bh, h, b)| == 9 by { Sizes(); }
    AmsTexts(s, n, t, bh, h, b, 0);
    forall i: nat | i < 9
      ensures AmsItems(s, n, t, bh, h, b)[i] == tags[i].name + "=" + tags[i].value
    {
      AmsTexts(s, n, t, bh, h, b, i);
    }
    RenderJoin(tags, AmsItems(s, n, t, bh, h, b));
    assert AMS + ": " == "ARC-Message-Signature: ";
  }

  lemma ResultsLineIs(n: nat, authserv: string, results: string)
    ensures ResultsField(n, authserv, results) == Field("ARC-Authentication-Results", ResultsLine(n, authserv, results))
  {
    hide Decimal;
    var d, tail := Decimal(n), "; " + authserv + "; " + results;
    assert AAR + ": " + ("i=" + d + tail) == "ARC-Authentication-Results: i=" + d + tail;
    assert "i=" + d + "; " + authserv + "; " + results == "i=" + d + tail;
    assert "ARC-Authentication-Results: i=" + d + "; " + authserv + "; " + results == "ARC-Authentication-Results: i=" + d + tail;
  }

  lemma CoveredIs()
    ensures SIGNED_HEADERS == COVERED
  {
  }

  /** `out` is the three header lines of set `n` in front of the message; the message signature signs the listed fields
      and its own line without signature, the seal all sets in order and its own line without signature. */
  ghost predicate ThreeLines(c: Crypto, s: Sealer, m: Message, sets: seq<ArcSet>, authserv: string, results: string,
                             cv: string, t: int, original: string, out: string) {
    exists x, y ::
      var n, h, bh := |sets| + 1, Join(ListedNames(m.fields, COVERED), ":"), c.encode(c.hash(CanonBodyOf(m.body, true)));
      var aar := ResultsLine(n, authserv, results);
      var ams := AmsLine(s, n, t, bh, h, c.encode(x));
      && s.sign(c.hash(HeaderStream(SignedFields(m.fields, COVERED), true)
                       + Canon(Field("ARC-Message-Signature", AmsLine(s, n, t, bh, h, "")), true))) == Some(x)
      && s.sign(c.hash(SealInputOf(sets + [ArcSet(Field("ARC-Authentication-Results", aar), Field("ARC-Message-Signature", ams),
                                                  Field("ARC-Seal", SealLine(s, n, t, cv, "")))]))) == Some(y)
      && out == SealLine(s, n, t, cv, c.encode(y)) + CRLF + (ams + CRLF + (aar + CRLF + original))
  }

  lemma SetWritten(c: Crypto, s: Sealer, m: Message, sets: seq<ArcSet>, authserv: string, results: string, cv: string, t: int, original: string)
    requires NewSet(c, s, m, sets, authserv, results, cv, t).Some?
    ensures ThreeLines(c, s, m, sets, authserv, results, cv, t, original,
                       Written(NewSet(c, s, m, sets, authserv, results, cv, t).value) + original)
  {
    hide HeaderStream, SignedFields, ListedNames, Canon, CanonBodyOf, Join, SealInputOf, AmsTags, SealTags, SignedField, ResultsField;
    hide AmsLine, SealLine, ResultsLine;
    CoveredIs();
    var n, h, bh := |sets| + 1, Join(ListedNames(m.fields, COVERED), ":"), c.encode(c.hash(CanonBodyOf(m.body, true)));
    ResultsLineIs(n, authserv, results);
    AmsLineIs(s, n, t, bh, h, "");
    SealLineIs(s, n, t, cv, "");
    var x := s.sign(c.hash(NewAmsInput(m, AmsTags(s, n, t, bh, h)))).value;
    AmsLineIs(s, n, t, bh, h, c.encode(x));
    var aar, ams := ResultsLine(n, authserv, results), AmsLine(s, n, t, bh, h, c.encode(x));
    var y := s.sign(c.hash(SealInputOf(sets + [ArcSet(Field(AAR, aar), Field(AMS, ams), Field(AS, SealLine(s, n, t, cv, "")))]))).value;
    SealLineIs(s, n, t, cv, c.encode(y));
    Apart(SealLine(s, n, t, cv, c.encode(y)) + CRLF, ams + CRLF, aar + CRLF, original);
  }

  lemma Apart(a: string, b: string, c: string, d: string)
    ensures a + (b + c) + d == a + (b + (c + d))
  {
  }

  /** Everything the sealer writes: the lines and the order of their tags, the host and the results it was given, or its
      own domain and "none", and cv=none on the first set. */
  lemma SealWrites(c: Crypto, s: Sealer, original: string, authserv: string, results: string, cv: string, t: int)
    ensures var m := MessageOf(Normalized(original));
            var r := SealOf(c, s, original, authserv, results, cv, t);
            r.Sealed? ==>
              && ChainOf(m.fields).Some?
              && ThreeLines(c, s, m, ChainOf(m.fields).value, if authserv == "" then s.domain else authserv,
                            if results == "" then "none" else results,
                            if ChainOf(m.fields) == Some([]) then "none" else cv, t, original, r.out)
  {
    hide MessageOf, Normalized, ChainOf, LatestCV, NewSet, Written, ThreeLines;
    var m := MessageOf(Normalized(original));
    var r := SealOf(c, s, original, authserv, results, cv, t);
    if r.Sealed? {
      var sets := ChainOf(m.fields).value;
      SetWritten(c, s, m, sets, OrElse(authserv, s.domain), OrElse(results, "none"), SealedCV(sets, cv), t, original);
    }
  }

  lemma ThirdLine(c: Crypto, s: Sealer, m: Message, sets: seq<ArcSet>, authserv: string, results: string,
                  cv: string, t: int, original: string, out: string) returns (lines: string)
    requires ThreeLines(c, s, m, sets, authserv, results, cv, t, original, out)
    ensures out == lines + (ResultsLine(|sets| + 1, authserv, results) + CRLF + original)
  {
    hide HeaderStream, SignedFields, ListedNames, Canon, CanonBodyOf, Join, SealInputOf, AmsLine, SealLine, ResultsLine;
    var n, h, bh := |sets| + 1, Join(ListedNames(m.fields, COVERED), ":"), c.encode(c.hash(CanonBodyOf(m.body, true)));
    var x, y :| out == SealLine(s, n, t, cv, c.encode(y)) + CRLF + (AmsLine(s, n, t, bh, h, c.encode(x)) + CRLF
                        + (ResultsLine(n, authserv, results) + CRLF + original));
    lines := SealLine(s, n, t, cv, c.encode(y)) + CRLF + (AmsLine(s, n, t, bh, h, c.encode(x)) + CRLF);
    AppendAssoc(SealLine(s, n, t, cv, c.encode(y)) + CRLF, AmsLine(s, n, t, bh, h, c.encode(x)) + CRLF,
                ResultsLine(n, authserv, results) + CRLF + original);
  }

  /** In particular the third line holds the host and the results as they were given. */
  lemma ResultsWritten(c: Crypto, s: Sealer, original: string, authserv: string, results: string, cv: string, t: int)
    returns (lines: string, n: nat)
    requires SealOf(c, s, original, authserv, results, cv, t).Sealed?
    ensures authserv != "" && results != "" ==>
              SealOf(c, s, original, authserv, results, cv, t).out ==
              lines + ("ARC-Authentication-Results: i=" + Decimal(n) + "; " + authserv + "; " + results + CRLF + original)
    ensures authserv == "" && results == "" ==>
              SealOf(c, s, original, authserv, results, cv, t).out ==
              lines + ("ARC-Authentication-Results: i=" + Decimal(n) + "; " + s.domain + "; " + "none" + CRLF + original)
  {
    hide MessageOf, Normalized, SealOf, ThreeLines, Decimal;
    SealWrites(c, s, original, authserv, results, cv, t);
    var m := MessageOf(Normalized(original));
    var sets := ChainOf(m.fields).value;
    n := |sets| + 1;
    lines := ThirdLine(c, s, m, sets, if authserv == "" then s.domain else authserv, if results == "" then "none" else results,
                       if ChainOf(m.fields) == Some([]) then "none" else cv, t, original, SealOf(c, s, original, authserv, results, cv, t).out);
  }

  /** A printed time reads back as the same number. */
  lemma FormatIntRead(t: int)
    ensures Atoi(FormatInt(t)) == Some(t)
  {
    DecimalValue(if t < 0 then -t else t);
    hide DigitsValue, AllDigits, Decimal;
    if t < 0 {
      assert FormatInt(t)[1..] == Decimal(-t);
    }
  }
}
