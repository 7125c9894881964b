// What a verdict and a sealed message are, spelled out tag by tag and byte by byte (RFC 8617, sections 4.1 and 5.2).

module ArcMeaning {
  import opened Options
  import opened Text
  import opened ArcCanon
  import opened ArcTags
  import opened ArcChain
  import opened ArcVerify
  import opened ArcSeal
  import opened ArcIrreparable

  // ----- what a pass means -----

  /** The key of selector `s` and domain `d` is looked up under s._domainkey.d, a dot at the end of `d` left out. */
  lemma KeyNameIs(s: string, d: string)
    ensures d == "" || d[|d| - 1] != '.' ==> KeyName(s, d) == s + "._domainkey." + d
    ensures KeyName(s, d + ".") == s + "._domainkey." + d
  {
    assert (d + ".")[|d|] == '.' && (d + ".")[..|d|] == d;
  }

  /** `name` is where the key for these tags is published. */
  ghost predicate PublishedAt(name: string, s: string, d: string) {
    exists x :: name == s + "._domainkey." + x && ((d == x && (x == "" || x[|x| - 1] != '.')) || d == x + ".")
  }

  /** The signature is base64, its key is there and of the type the algorithm asks for, and it verifies. */
  ghost predicate Vouched(c: Crypto, tags: Tags, input: string) {
    exists name, sig, key ::
      && PublishedAt(name, TagOf(tags, "s"), TagOf(tags, "d"))
      && c.decode(RemoveSpaces(TagOf(tags, "b"))) == Some(sig) && c.lookup(name) == Some(key)
      && ((ToLower(TagOf(tags, "a")) == "rsa-sha256" && key.RsaKey?) || (ToLower(TagOf(tags, "a")) == "ed25519-sha256" && key.Ed25519Key?))
      && c.verifies(key, c.hash(input), sig)
  }

  function ModeName(relaxed: bool): string {
    if relaxed then "relaxed" else "simple"
  }

  /** What c= may say; the body is simple unless it says otherwise, and so is the header of an absent tag. */
  predicate ModesAre(c: string, header: bool, body: bool) {
    var l := ToLower(c);
    || (l == "" && !header && !body)
    || ((l == ModeName(header) || l == ModeName(header) + "/") && !body)
    || l == ModeName(header) + "/" + ModeName(body)
  }

  /** l= cuts the canonical body at that many bytes. */
  ghost predicate CutAt(whole: string, l: string, part: string) {
    if l == "" then part == whole
    else exists n: int :: Atoi(l) == Some(n) && 0 <= n < 0x8000_0000_0000_0000
                       && (if n < |whole| then part == whole[..n] else part == whole)
  }

  ghost predicate AmsHolds(c: Crypto, m: Message, ams: Field) {
    exists tags, header, body, part ::
      && TagsOf(Value(ams)) == Some(tags)
      && TagOf(tags, "a") != "" && TagOf(tags, "b") != "" && TagOf(tags, "bh") != ""
      && TagOf(tags, "d") != "" && TagOf(tags, "s") != "" && TagOf(tags, "h") != ""
      && ModesAre(TagOf(tags, "c"), header, body)
      && CutAt(CanonBodyOf(m.body, body), TagOf(tags, "l"), part)
      && c.encode(c.hash(part)) == RemoveSpaces(TagOf(tags, "bh"))
      && Vouched(c, tags, HeaderStream(Selected(m.fields, Split(RemoveSpaces(TagOf(tags, "h")), ':'), {}), header)
                          + Canon(StripSignature(ams), header))
  }

  /** The seal of the last of `sets`. */
  ghost predicate SealHolds(c: Crypto, sets: seq<ArcSet>)
    requires sets != []
  {
    exists tags ::
      && TagsOf(Value(sets[|sets| - 1].sl)) == Some(tags)
      && TagOf(tags, "a") != "" && TagOf(tags, "b") != "" && TagOf(tags, "d") != "" && TagOf(tags, "s") != ""
      && TagOf(tags, "h") == "" && ToLower(TagOf(tags, "cv")) == (if |sets| == 1 then "none" else "pass")
      && Vouched(c, tags, SealInputOf(sets))
  }

  ghost predicate ChainHolds(c: Crypto, m: Message, sets: seq<ArcSet>) {
    && Represents(m.fields, sets) && sets != []
    && (forall i :: 1 <= i <= |sets| ==> SealHolds(c, sets[..i]))
    && AmsHolds(c, m, sets[|sets| - 1].ams)
  }

  lemma SignatureExactly(c: Crypto, tags: Tags, input: string)
    ensures SignatureProblem(c, tags, input).None? <==> Vouched(c, tags, input)
  {
    var s, d := TagOf(tags, "s"), TagOf(tags, "d");
    PublishedOnce(s, d);
    hide KeyName, PublishedAt, RemoveSpaces, ToLower, TagOf;
    if SignatureProblem(c, tags, input).None? {
      assert PublishedAt(KeyName(s, d), s, d);
    }
  }

  lemma PublishedOnce(s: string, d: string)
    ensures forall name :: PublishedAt(name, s, d) <==> name == KeyName(s, d)
  {
    forall name
      ensures PublishedAt(name, s, d) ==> name == KeyName(s, d)
    {
      if PublishedAt(name, s, d) {
        PublishedThere(name, s, d);
      }
    }
    PublishedSomewhere(s, d);
  }

  lemma PublishedThere(name: string, s: string, d: string)
    requires PublishedAt(name, s, d)
    ensures name == KeyName(s, d)
  {
    hide KeyName;
    var x :| name == s + "._domainkey." + x && ((d == x && (x == "" || x[|x| - 1] != '.')) || d == x + ".");
    KeyNameIs(s, x);
  }

  lemma PublishedSomewhere(s: string, d: string)
    ensures PublishedAt(KeyName(s, d), s, d)
  {
    hide KeyName;
    KeyNameIs(s, d);
    if d != "" && d[|d| - 1] == '.' {
      var x := d[..|d| - 1];
      assert d == x + ".";
      KeyNameIs(s, x);
    }
  }

  lemma ModesExactly(c: string, header: bool, body: bool)
    ensures CanonicalizationOf(c) == Some(Canonicalization(header, body)) <==> ModesAre(c, header, body)
  {
    hide ToLower, IndexByte;
    var l := ToLower(c);
    assert c == "" <==> l == "";
    ModeNames();
    SlashIn(l);
    if '/' in l {
      var cut := IndexByte(l, '/');
      ModesCut(l, l[..cut], l[cut + 1..], header, body);
    } else {
      NoSlash(l, header, body);
    }
  }

  lemma ModeNames()
    ensures '/' !in ModeName(true) && '/' !in ModeName(false) && ModeName(true) != ModeName(false)
    ensures ModeName(true) != "" && ModeName(false) != ""
  {
  }

  /** The two sides of a slash. */
  lemma ModesCut(l: string, h: string, b: string, header: bool, body: bool)
    requires l == h + "/" + b && '/' !in h
    ensures (l == ModeName(header) + "/" && !body) || l == ModeName(header) + "/" + ModeName(body) <==>
            h == ModeName(header) && ((b == "" && !body) || b == ModeName(body))
    ensures l != "" && l != ModeName(header)
  {
    ModeNames();
    hide ModeName, IndexByte;
    FirstByte(h, '/', b);
    FirstByte(ModeName(header), '/', "");
    FirstByte(ModeName(header), '/', ModeName(body));
    assert ModeName(header) + "/" + "" == ModeName(header) + "/";
    assert l[..|h|] == h && l[|h| + 1..] == b;
    if l == ModeName(header) + "/" {
      assert l[..|h|] == ModeName(header) && l[|h| + 1..] == "";
    }
    if l == ModeName(header) + "/" + ModeName(body) {
      assert l[..|h|] == ModeName(header) && l[|h| + 1..] == ModeName(body);
    }
    assert '/' in l by { assert l[|h|] == '/'; }
  }

  lemma NoSlash(l: string, header: bool, body: bool)
    requires '/' !in l
    ensures l != ModeName(header) + "/" && l != ModeName(header) + "/" + ModeName(body)
  {
    hide ModeName;
    assert (ModeName(header) + "/")[|ModeName(header)|] == '/';
    assert (ModeName(header) + "/" + ModeName(body))[|ModeName(header)|] == '/';
  }

  lemma SlashIn(l: string)
    ensures forall a, b :: '/' !in a && l == a + "/" + b ==> IndexByte(l, '/') == |a| && l[..|a|] == a && l[|a| + 1..] == b
    ensures '/' in l ==> l == l[..IndexByte(l, '/')] + "/" + l[IndexByte(l, '/') + 1..]
  {
    hide IndexByte;
    forall a, b | '/' !in a && l == a + "/" + b
      ensures IndexByte(l, '/') == |a| && l[..|a|] == a && l[|a| + 1..] == b
    {
      FirstByte(a, '/', b);
    }
  }

  lemma CutExactly(whole: string, l: string)
    ensures forall part :: CutAt(whole, l, part) <==> Limited(whole, l) == Some(part)
  {
    hide Atoi;
  }

  lemma MissingExactly(tags: Tags, names: seq<string>)
    ensures MissingOf(tags, names).None? <==> forall i :: 0 <= i < |names| ==> TagOf(tags, names[i]) != ""
  {
    hide TagOf;
    if names != [] {
      MissingExactly(tags, names[1..]);
      assert forall i :: 1 <= i < |names| ==> names[i] == names[1..][i - 1];
    }
  }
  lemma AmsThere(tags: Tags)
    ensures MissingOf(tags, AMS_TAGS).None? <==>
              && TagOf(tags, "a") != "" && TagOf(tags, "b") != "" && TagOf(tags, "bh") != ""
              && TagOf(tags, "d") != "" && TagOf(tags, "s") != "" && TagOf(tags, "h") != ""
  {
    MissingExactly(tags, AMS_TAGS);
    hide TagOf, MissingOf;
    assert AMS_TAGS[0] == "a" && AMS_TAGS[1] == "b" && AMS_TAGS[2] == "bh" && AMS_TAGS[3] == "d" && AMS_TAGS[4] == "s" && AMS_TAGS[5] == "h";
  }

  lemma SealThere(tags: Tags)
    ensures MissingOf(tags, SEAL_TAGS).None? <==>
              TagOf(tags, "a") != "" && TagOf(tags, "b") != "" && TagOf(tags, "d") != "" && TagOf(tags, "s") != ""
  {
    MissingExactly(tags, SEAL_TAGS);
    hide TagOf, MissingOf;
    assert SEAL_TAGS[0] == "a" && SEAL_TAGS[1] == "b" && SEAL_TAGS[2] == "d" && SEAL_TAGS[3] == "s";
  }

  lemma AmsExactly(c: Crypto, m: Message, ams: Field)
    ensures AmsProblem(c, m.fields, m.body, ams).None? <==> AmsHolds(c, m, ams)
  {
    hide TagOf, MissingOf, TagsOf, Value, CanonicalizationOf, ModesAre, Limited, CutAt, CanonBodyOf, RemoveSpaces, Vouched, SignatureProblem;
    hide HeaderStream, Selected, Split, Canon, StripSignature;
    if TagsOf(Value(ams)).Some? {
      var tags := TagsOf(Value(ams)).value;
      AmsThere(tags);
      forall header, body
        ensures CanonicalizationOf(TagOf(tags, "c")) == Some(Canonicalization(header, body)) <==> ModesAre(TagOf(tags, "c"), header, body)
      {
        ModesExactly(TagOf(tags, "c"), header, body);
      }
      forall whole
        ensures forall part :: CutAt(whole, TagOf(tags, "l"), part) <==> Limited(whole, TagOf(tags, "l")) == Some(part)
      {
        CutExactly(whole, TagOf(tags, "l"));
      }
      forall input
        ensures SignatureProblem(c, tags, input).None? <==> Vouched(c, tags, input)
      {
        SignatureExactly(c, tags, input);
      }
      AmsBoth(c, m, ams, tags);
    }
  }

  lemma AmsBoth(c: Crypto, m: Message, ams: Field, tags: Tags)
    requires TagsOf(Value(ams)) == Some(tags)
    requires MissingOf(tags, AMS_TAGS).None? <==>
              && TagOf(tags, "a") != "" && TagOf(tags, "b") != "" && TagOf(tags, "bh") != ""
              && TagOf(tags, "d") != "" && TagOf(tags, "s") != "" && TagOf(tags, "h") != ""
    requires forall header, body ::
              CanonicalizationOf(TagOf(tags, "c")) == Some(Canonicalization(header, body)) <==> ModesAre(TagOf(tags, "c"), header, body)
    requires forall whole, part :: CutAt(whole, TagOf(tags, "l"), part) <==> Limited(whole, TagOf(tags, "l")) == Some(part)
    requires forall input :: SignatureProblem(c, tags, input).None? <==> Vouched(c, tags, input)
    ensures AmsProblem(c, m.fields, m.body, ams).None? <==> AmsHolds(c, m, ams)
  {
    hide TagOf, MissingOf, TagsOf, Value, CanonicalizationOf, ModesAre, Limited, CutAt, CanonBodyOf, RemoveSpaces, Vouched, SignatureProblem;
    hide HeaderStream, Selected, Split, Canon, StripSignature;
    if AmsProblem(c, m.fields, m.body, ams).None? {
      var canon := CanonicalizationOf(TagOf(tags, "c")).value;
      assert ModesAre(TagOf(tags, "c"), canon.header, canon.body);
      var part := Limited(CanonBodyOf(m.body, canon.body), TagOf(tags, "l")).value;
      assert CutAt(CanonBodyOf(m.body, canon.body), TagOf(tags, "l"), part);
    }
  }

  lemma SealHoldsExactly(c: Crypto, sets: seq<ArcSet>)
    requires sets != []
    ensures SealHolds(c, sets) <==> SealProblem(c, sets).None? && CVProblem(sets[|sets| - 1], |sets| - 1).None?
  {
    hide TagOf, MissingOf, TagsOf, Value, Vouched, SignatureProblem, SealInputOf, ToLower;
    var v := Value(sets[|sets| - 1].sl);
    if TagsOf(v).Some? {
      SealThere(TagsOf(v).value);
      SignatureExactly(c, TagsOf(v).value, SealInputOf(sets));
    }
  }

  lemma {:induction false} SealsExactly(c: Crypto, sets: seq<ArcSet>)
    ensures FirstCVProblem(sets).None? && LastSealProblem(c, sets).None? <==> forall i :: 1 <= i <= |sets| ==> SealHolds(c, sets[..i])
  {
    hide SealHolds, SealProblem, CVProblem;
    if sets != [] {
      var init := sets[..|sets| - 1];
      SealsExactly(c, init);
      SealHoldsExactly(c, sets);
      assert sets[..|sets|] == sets;
      assert forall i :: 1 <= i <= |init| ==> init[..i] == sets[..i];
    }
  }

  lemma LastCVGood(c: Crypto, sets: seq<ArcSet>)
    requires sets != [] && SealHolds(c, sets)
    ensures LatestCV(sets) != CV_FAIL
  {
    hide TagOf, TagsOf, Value, Vouched, SealInputOf, ToLower;
    assert "none" != "fail" && "pass" != "fail" by { assert "none"[0] == 'n' && "pass"[0] == 'p' && "fail"[0] == 'f'; }
  }

  lemma ChainExactly(c: Crypto, m: Message, sets: seq<ArcSet>)
    requires Represents(m.fields, sets) && sets != []
    ensures ChainVerdict(c, m, sets).Pass? <==> ChainHolds(c, m, sets)
  {
    SealsExactly(c, sets);
    AmsExactly(c, m, sets[|sets| - 1].ams);
    hide SealHolds, AmsHolds, LatestCV, FirstCVProblem, LastSealProblem, AmsProblem, Represents;
    assert sets[..|sets|] == sets;
    if ChainHolds(c, m, sets) {
      LastCVGood(c, sets);
    }
  }

  /** A message passes at instance `n` exactly if its ARC fields are `n` complete sets, each seal has its tags, the cv of
      its place and a signature that verifies over the sets up to it, and the newest message signature has its tags, the
      digest of the body and a signature that verifies. It has no chain exactly if it has no ARC field. Else it fails. */
  lemma PassExactly(c: Crypto, raw: string, n: nat)
    ensures var m := MessageOf(Normalized(raw));
            && (VerdictOf(c, raw) == Pass(n) <==> exists sets :: |sets| == n && ChainHolds(c, m, sets))
            && (VerdictOf(c, raw) == NoChain <==> forall i :: 0 <= i < |m.fields| ==> KindOf(m.fields[i]).None?)
  {
    var m := MessageOf(Normalized(raw));
    hide MessageOf, Normalized, ChainHolds, ChainVerdict, Represents;
    forall sets | Represents(m.fields, sets)
      ensures ChainOf(m.fields) == Some(sets)
      ensures sets != [] ==> (ChainVerdict(c, m, sets).Pass? <==> ChainHolds(c, m, sets)) && !ChainVerdict(c, m, sets).NoChain?
      ensures sets != [] && ChainVerdict(c, m, sets).Pass? ==> ChainVerdict(c, m, sets) == Pass(|sets|)
    {
      ChainIs(m.fields, sets);
      if sets != [] {
        ChainExactly(c, m, sets);
        PassLength(c, m, sets);
      }
    }
    assert forall sets :: ChainHolds(c, m, sets) ==> Represents(m.fields, sets) && sets != [] by { HoldsMeans(c, m); }
    NoneExactly(m.fields);
  }

  lemma HoldsMeans(c: Crypto, m: Message)
    ensures forall sets :: ChainHolds(c, m, sets) ==> Represents(m.fields, sets) && sets != []
  {
    hide Represents, SealHolds, AmsHolds;
  }

  lemma PassLength(c: Crypto, m: Message, sets: seq<ArcSet>)
    requires sets != []
    ensures !ChainVerdict(c, m, sets).NoChain? && (ChainVerdict(c, m, sets).Pass? ==> ChainVerdict(c, m, sets) == Pass(|sets|))
  {
    hide LatestCV, FirstCVProblem, LastSealProblem, AmsProblem;
  }

  lemma NoneExactly(fields: seq<Field>)
    ensures Represents(fields, []) <==> forall i :: 0 <= i < |fields| ==> KindOf(fields[i]).None?
  {
    hide KindOf, InstanceOf;
    if Represents(fields, []) {
      forall i | 0 <= i < |fields|
        ensures KindOf(fields[i]).None?
      {
        match MarkOf(fields[i])
        case Plain =>
        case Malformed => assert false;
        case Numbered(_, _) => assert false;
      }
    } else if forall i :: 0 <= i < |fields| ==> KindOf(fields[i]).None? {
      assert forall i :: 0 <= i < |fields| ==> MarkOf(fields[i]).Plain?;
    }
  }
  // ----- which failure is reported -----

  lemma {:induction false} FirstWrongCV(sets: seq<ArcSet>, n: nat)
    requires n < |sets| && CVProblem(sets[n], n).Some? && forall i: nat :: i < n ==> CVProblem(sets[i], i).None?
    ensures FirstCVProblem(sets) == CVProblem(sets[n], n)
    decreases |sets|
  {
    hide CVProblem;
    if n < |sets| - 1 {
      FirstWrongCV(sets[..|sets| - 1], n);
    } else {
      NoWrongCV(sets[..n]);
    }
  }

  lemma {:induction false} NoWrongCV(sets: seq<ArcSet>)
    requires forall i: nat :: i < |sets| ==> CVProblem(sets[i], i).None?
    ensures FirstCVProblem(sets).None?
  {
    hide CVProblem;
    if sets != [] {
      NoWrongCV(sets[..|sets| - 1]);
    }
  }

  lemma {:induction false} NewestBadSeal(c: Crypto, sets: seq<ArcSet>, n: nat)
    requires 1 <= n <= |sets| && SealProblem(c, sets[..n]).Some?
    requires forall i :: n < i <= |sets| ==> SealProblem(c, sets[..i]).None?
    ensures LastSealProblem(c, sets) == Some(BadSeal(n, SealProblem(c, sets[..n]).value))
    decreases |sets|
  {
    hide SealProblem;
    assert sets[..|sets|] == sets;
    if n < |sets| {
      var init := sets[..|sets| - 1];
      assert forall i :: 1 <= i <= |init| ==> init[..i] == sets[..i];
      NewestBadSeal(c, init, n);
    }
  }

  lemma VerdictIs(c: Crypto, m: Message, sets: seq<ArcSet>)
    requires Represents(m.fields, sets) && sets != []
    ensures MessageVerdict(c, m) == ChainVerdict(c, m, sets)
  {
    ChainIs(m.fields, sets);
    hide ChainVerdict, Represents;
  }

  /** The checks and what they report, in their order. First: the newest seal says fail. */
  lemma MarkedFailedReported(c: Crypto, m: Message, sets: seq<ArcSet>)
    requires Represents(m.fields, sets) && sets != []
    ensures LatestCV(sets) == "fail" ==> MessageVerdict(c, m) == Fail(|sets|, MarkedFailed)
  {
    VerdictIs(c, m, sets);
    hide LatestCV, AmsProblem, FirstCVProblem, LastSealProblem, Represents, MessageVerdict;
  }

  /** Then the first seal that does not parse, or has the wrong cv. */
  lemma WrongCVReported(c: Crypto, m: Message, sets: seq<ArcSet>, i: nat)
    requires Represents(m.fields, sets) && LatestCV(sets) != "fail"
    requires i < |sets| && CVProblem(sets[i], i).Some? && forall j: nat :: j < i ==> CVProblem(sets[j], j).None?
    ensures MessageVerdict(c, m) == Fail(|sets|, CVProblem(sets[i], i).value)
  {
    FirstWrongCV(sets, i);
    VerdictIs(c, m, sets);
    hide LatestCV, AmsProblem, FirstCVProblem, LastSealProblem, Represents, MessageVerdict, CVProblem;
  }

  /** Then the message signature. */
  lemma BadSignatureReported(c: Crypto, m: Message, sets: seq<ArcSet>)
    requires Represents(m.fields, sets) && sets != [] && LatestCV(sets) != "fail"
    requires forall j: nat :: j < |sets| ==> CVProblem(sets[j], j).None?
    requires AmsProblem(c, m.fields, m.body, sets[|sets| - 1].ams).Some?
    ensures MessageVerdict(c, m) == Fail(|sets|, BadMessageSignature(AmsProblem(c, m.fields, m.body, sets[|sets| - 1].ams).value))
  {
    NoWrongCV(sets);
    VerdictIs(c, m, sets);
    hide LatestCV, AmsProblem, FirstCVProblem, LastSealProblem, Represents, MessageVerdict, CVProblem;
  }

  /** And last the newest seal that does not verify. */
  lemma BadSealReported(c: Crypto, m: Message, sets: seq<ArcSet>, k: nat)
    requires Represents(m.fields, sets) && sets != [] && LatestCV(sets) != "fail"
    requires forall j: nat :: j < |sets| ==> CVProblem(sets[j], j).None?
    requires AmsProblem(c, m.fields, m.body, sets[|sets| - 1].ams).None?
    requires 1 <= k <= |sets| && SealProblem(c, sets[..k]).Some? && forall i :: k < i <= |sets| ==> SealProblem(c, sets[..i]).None?
    ensures MessageVerdict(c, m) == Fail(|sets|, BadSeal(k, SealProblem(c, sets[..k]).value))
  {
    NoWrongCV(sets);
    NewestBadSeal(c, sets, k);
    VerdictIs(c, m, sets);
    hide LatestCV, AmsProblem, FirstCVProblem, LastSealProblem, Represents, MessageVerdict, CVProblem, SealProblem;
  }

  // ----- which fields a list of names selects -----

  predicate Carries(fields: seq<Field>, i: int, name: string) {
    0 <= i < |fields| && EqualFold(fields[i].name, name)
  }

  /** How many fields of that name stand below field `i`. */
  function Below(fields: seq<Field>, name: string, i: nat): nat
    decreases |fields| - i
  {
    if i + 1 >= |fields| then 0 else Below(fields, name, i + 1) + (if Carries(fields, i + 1, name) then 1 else 0)
  }

  /** How often the name has been listed. */
  function Times(names: seq<string>, name: string): nat {
    if names == [] then 0
    else Times(names[..|names| - 1], name) + (if EqualFold(names[|names| - 1], name) then 1 else 0)
  }

  function UsedAfter(fields: seq<Field>, names: seq<string>): set<nat> {
    if names == [] then {}
    else
      var used := UsedAfter(fields, names[..|names| - 1]);
      var i := Pick(fields, names[|names| - 1], used, |fields|);
      if i < 0 then used else used + {i}
  }

  lemma {:induction false} SelectedSnoc(fields: seq<Field>, names: seq<string>, used: set<nat>, name: string, last: set<nat>)
    requires last == UsedFrom(fields, names, used)
    ensures var i := Pick(fields, name, last, |fields|);
            Selected(fields, names + [name], used) == Selected(fields, names, used) + (if i < 0 then [] else [fields[i]])
  {
    hide Pick;
    if names == [] {
      assert [] + [name] == [name] && [name][1..] == [];
    } else {
      var i := Pick(fields, names[0], used, |fields|);
      assert (names + [name])[0] == names[0] && (names + [name])[1..] == names[1..] + [name];
      SelectedSnoc(fields, names[1..], if i < 0 then used else used + {i}, name, last);
    }
  }

  function UsedFrom(fields: seq<Field>, names: seq<string>, used: set<nat>): set<nat> {
    if names == [] then used
    else
      var i := Pick(fields, names[0], used, |fields|);
      UsedFrom(fields, names[1..], if i < 0 then used else used + {i})
  }

  lemma {:induction false} UsedFromSnoc(fields: seq<Field>, names: seq<string>, used: set<nat>)
    requires names != []
    ensures var init := UsedFrom(fields, names[..|names| - 1], used);
            var i := Pick(fields, names[|names| - 1], init, |fields|);
            UsedFrom(fields, names, used) == if i < 0 then init else init + {i}
  {
    hide Pick;
    if |names| == 1 {
      assert names[..0] == [] && names[1..] == [];
    } else {
      var i := Pick(fields, names[0], used, |fields|);
      assert names[1..][..|names| - 2] == names[..|names| - 1][1..];
      UsedFromSnoc(fields, names[1..], if i < 0 then used else used + {i});
    }
  }

  lemma {:induction false} UsedBoth(fields: seq<Field>, names: seq<string>)
    ensures UsedAfter(fields, names) == UsedFrom(fields, names, {})
    decreases |names|
  {
    hide Pick;
    if names != [] {
      UsedBoth(fields, names[..|names| - 1]);
      UsedFromSnoc(fields, names, {});
    }
  }

  lemma {:induction false} PickMeans(fields: seq<Field>, name: string, used: set<nat>, m: nat)
    requires m <= |fields|
    ensures var r := Pick(fields, name, used, m);
            && (r >= 0 ==> Carries(fields, r, name) && r !in used)
            && forall k: nat :: r < k < m && Carries(fields, k, name) ==> k in used
  {
    if m > 0 {
      PickMeans(fields, name, used, m - 1);
    }
  }

  /** Of each name those listed so far have taken the bottom-most fields. */
  ghost predicate BottomTaken(fields: seq<Field>, names: seq<string>, used: set<nat>) {
    forall i: nat, name :: Carries(fields, i, name) ==> (i in used <==> Below(fields, name, i) < Times(names, name))
  }

  lemma {:induction false} BelowAtMost(fields: seq<Field>, name: string, i: nat, n: nat)
    requires forall k: nat :: i < k && Carries(fields, k, name) ==> Below(fields, name, k) < n
    ensures Below(fields, name, i) <= n
    decreases |fields| - i
  {
    hide Carries;
    if i + 1 < |fields| && !Carries(fields, i + 1, name) {
      BelowAtMost(fields, name, i + 1, n);
    }
  }

  lemma {:induction false} BelowLess(fields: seq<Field>, name: string, i: nat, j: nat)
    requires i < j && Carries(fields, j, name)
    ensures Below(fields, name, j) < Below(fields, name, i)
    decreases j - i
  {
    if i + 1 < j {
      BelowLess(fields, name, i + 1, j);
    }
  }

  lemma SameNames(fields: seq<Field>, i: int, a: string, b: string)
    requires Carries(fields, i, a)
    ensures Carries(fields, i, b) <==> EqualFold(a, b)
  {
  }

  lemma {:induction false} FoldedBelow(fields: seq<Field>, a: string, b: string, i: nat)
    requires EqualFold(a, b)
    ensures Below(fields, a, i) == Below(fields, b, i)
    decreases |fields| - i
  {
    if i + 1 < |fields| {
      FoldedBelow(fields, a, b, i + 1);
    }
  }

  lemma {:induction false} FoldedTimes(names: seq<string>, a: string, b: string)
    requires EqualFold(a, b)
    ensures Times(names, a) == Times(names, b)
  {
    if names != [] {
      FoldedTimes(names[..|names| - 1], a, b);
    }
  }

  /** The next listing of a name takes the field that has as many of that name below it as were listed before. */
  lemma PickExactly(fields: seq<Field>, names: seq<string>, used: set<nat>, name: string)
    requires BottomTaken(fields, names, used)
    ensures var r := Pick(fields, name, used, |fields|);
            && (r >= 0 ==> Carries(fields, r, name) && Below(fields, name, r) == Times(names, name))
            && (r < 0 ==> forall i: nat :: Carries(fields, i, name) ==> Below(fields, name, i) < Times(names, name))
  {
    PickMeans(fields, name, used, |fields|);
    hide Pick, Below, Times, EqualFold;
    var r := Pick(fields, name, used, |fields|);
    assert forall k: nat :: Carries(fields, k, name) ==> k < |fields|;
    hide Carries;
    if r >= 0 {
      BelowAtMost(fields, name, r, Times(names, name));
    }
  }

  lemma TakenMore(fields: seq<Field>, names: seq<string>, used: set<nat>, name: string)
    requires BottomTaken(fields, names, used)
    ensures var r := Pick(fields, name, used, |fields|);
            BottomTaken(fields, names + [name], if r < 0 then used else used + {r})
  {
    PickExactly(fields, names, used, name);
    var r := Pick(fields, name, used, |fields|);
    assert (names + [name])[..|names|] == names;
    forall i: nat, x | Carries(fields, i, x)
      ensures i in (if r < 0 then used else used + {r}) <==> Below(fields, x, i) < Times(names + [name], x)
    {
      assert Times(names + [name], x) == Times(names, x) + if EqualFold(name, x) then 1 else 0;
      assert i in used <==> Below(fields, x, i) < Times(names, x);
      SameNames(fields, i, x, name);
      if EqualFold(name, x) {
        FoldedBelow(fields, name, x, i);
        FoldedTimes(names, name, x);
        hide Below, Times, Pick, EqualFold;
        if r >= 0 && i < r {
          BelowLess(fields, name, i, r);
        } else if r >= 0 && r < i {
          BelowLess(fields, name, r, i);
        }
      } else if r >= 0 {
        SameNames(fields, r, name, x);
      }
    }
  }

  lemma {:induction false} AlwaysBottom(fields: seq<Field>, names: seq<string>)
    ensures BottomTaken(fields, names, UsedAfter(fields, names))
    decreases |names|
  {
    hide Pick, BottomTaken;
    if names == [] {
      NothingTaken(fields);
    } else {
      AlwaysBottom(fields, names[..|names| - 1]);
      TakenMore(fields, names[..|names| - 1], UsedAfter(fields, names[..|names| - 1]), names[|names| - 1]);
      assert names[..|names| - 1] + [names[|names| - 1]] == names;
    }
  }

  lemma NothingTaken(fields: seq<Field>)
    ensures BottomTaken(fields, [], {})
  {
  }

  /** The fields a list of names selects, name by name: the first listing of a name takes the lowest field that carries
      it, the next one the field above that, and a listing too many takes none (RFC 6376, section 5.4.2). */
  lemma SelectedExactly(fields: seq<Field>, names: seq<string>, name: string)
    ensures forall i: nat :: Carries(fields, i, name) && Below(fields, name, i) == Times(names, name) ==>
              Selected(fields, names + [name], {}) == Selected(fields, names, {}) + [fields[i]]
    ensures (forall i: nat :: Carries(fields, i, name) ==> Below(fields, name, i) != Times(names, name)) ==>
              Selected(fields, names + [name], {}) == Selected(fields, names, {})
    ensures Selected(fields, [], {}) == []
  {
    var used := UsedAfter(fields, names);
    UsedBoth(fields, names);
    AlwaysBottom(fields, names);
    SelectedSnoc(fields, names, {}, name, used);
    PickExactly(fields, names, used, name);
    hide Pick, Selected, Below, Times, Carries, UsedAfter, UsedFrom, BottomTaken;
    var r := Pick(fields, name, used, |fields|);
    assert Selected(fields, names, {}) + [] == Selected(fields, names, {});
    forall i: nat | Carries(fields, i, name) && Below(fields, name, i) == Times(names, name)
      ensures i == r
    {
      if r >= 0 && i < r {
        BelowLess(fields, name, i, r);
      } else if r >= 0 && r < i {
        BelowLess(fields, name, r, i);
      }
    }
  }
}
