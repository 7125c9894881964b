// Reading back what a signature covers: canonical header lines decode in only one way, and a
// canonical tag list fixes every tag whose value holds no space.

module ArcDecoding {
  import opened Options
  import opened Text
  import opened ArcCanon
  import opened ArcCanonLaws
  import opened ArcTags
  import opened ArcChain
  import opened ArcVerify
  import opened ArcSeal
  import opened ArcFraming

  // ----- streams of lines -----

  predicate EndsLine(s: string) {
    s == "" || s[|s| - 1] == '\n'
  }

  /** The part after the last line end is determined by the whole. */
  lemma LastLineUnique(a: string, x: string, b: string, y: string)
    requires EndsLine(a) && EndsLine(b) && '\n' !in x && '\n' !in y
    requires a + x == b + y
    ensures a == b && x == y
  {
    LastLineNotLonger(a, x, b, y);
    LastLineNotLonger(b, y, a, x);
    assert (a + x)[..|a|] == a && (b + y)[..|b|] == b;
    assert (a + x)[|a|..] == x && (b + y)[|b|..] == y;
  }

  lemma LastLineNotLonger(a: string, x: string, b: string, y: string)
    requires EndsLine(a) && '\n' !in y && a + x == b + y
    ensures |a| <= |b|
  {
    assert forall i :: |b| <= i < |b + y| ==> (b + y)[i] == y[i - |b|] && y[i - |b|] in y;
    assert a != "" ==> (a + x)[|a| - 1] == '\n';
  }

  function CanonList(fields: seq<Field>): seq<string> {
    seq(|fields|, i requires 0 <= i < |fields| => Canon(fields[i], true))
  }

  ghost predicate OneLiners(fields: seq<Field>) {
    forall i :: 0 <= i < |fields| ==> OneLine(Canon(fields[i], true))
  }

  lemma {:induction false} StreamEndsLine(fields: seq<Field>, relaxed: bool)
    ensures EndsLine(HeaderStream(fields, relaxed))
    ensures fields != [] ==> HeaderStream(fields, relaxed) != ""
  {
    hide Canon;
    if fields != [] {
      StreamEndsLine(fields[1..], relaxed);
    }
  }

  lemma FirstLineUnique(x: string, a: string, y: string, b: string)
    requires OneLine(x) && OneLine(y) && x + CRLF + a == y + CRLF + b
    ensures x == y && a == b
  {
    var s := x + CRLF + a;
    assert s[|x|] == '\r' && s[|y|] == '\r';
    assert forall k :: 0 <= k < |x| ==> s[k] == x[k] && x[k] in x;
    assert forall k :: 0 <= k < |y| ==> s[k] == y[k] && y[k] in y;
    assert s[..|x|] == x && s[..|y|] == y;
    assert s[|x| + 2..] == a && s[|y| + 2..] == b;
  }

  /** A stream of canonical header lines decodes in only one way. */
  lemma {:induction false} StreamUnique(a: seq<Field>, b: seq<Field>)
    requires OneLiners(a) && OneLiners(b)
    requires HeaderStream(a, true) == HeaderStream(b, true)
    ensures CanonList(a) == CanonList(b)
  {
    StreamEndsLine(a, true);
    StreamEndsLine(b, true);
    if a != [] && b != [] {
      assert OneLine(Canon(a[0], true)) && OneLine(Canon(b[0], true));
      hide Canon, OneLine;
      FirstLineUnique(Canon(a[0], true), HeaderStream(a[1..], true), Canon(b[0], true), HeaderStream(b[1..], true));
      StreamUnique(a[1..], b[1..]);
      CanonListCons(a);
      CanonListCons(b);
    }
  }

  lemma CanonListCons(a: seq<Field>)
    requires a != []
    ensures CanonList(a) == [Canon(a[0], true)] + CanonList(a[1..])
  {
    hide Canon;
  }

  // ----- a canonical field is one line when its name is -----

  lemma {:induction false} CompressedOneLine(s: string)
    requires OneLine(s)
    ensures OneLine(Compressed(s))
  {
    if s != "" {
      CompressedOneLine(s[1..]);
    }
  }

  lemma {:induction false} TrimLeftSuffix(s: string)
    ensures |TrimLeft(s)| <= |s| && TrimLeft(s) == s[|s| - |TrimLeft(s)|..]
  {
    if s != "" && IsSpace(s[0]) {
      TrimLeftSuffix(s[1..]);
    }
  }

  lemma TrimSpaceOneLine(s: string)
    requires OneLine(s)
    ensures OneLine(TrimSpace(s))
  {
    TrimLeftSuffix(s);
    var l, t := TrimLeft(s), TrimSpace(s);
    assert forall i :: 0 <= i < |l| ==> l[i] in s;
    assert forall i :: 0 <= i < |t| ==> t[i] in l;
  }

  /** The value part of a relaxed canonical field. */
  function CanonValue(v: string): string {
    TrimSpace(Compressed(RemoveLineEnds(v)))
  }

  lemma CanonValueOneLine(v: string)
    ensures OneLine(CanonValue(v))
  {
    CompressedOneLine(RemoveLineEnds(v));
    TrimSpaceOneLine(Compressed(RemoveLineEnds(v)));
  }

  lemma FoldedNameClean(name: string, clean: string)
    requires EqualFold(name, clean) && CleanName(clean)
    ensures TrimSpace(name) == name && OneLine(ToLower(name)) && ':' !in ToLower(name)
  {
    assert forall i :: 0 <= i < |name| ==> Lower(name[i]) == ToLower(name)[i] == ToLower(clean)[i] == Lower(clean[i]);
    assert forall i :: 0 <= i < |name| ==> NameChar(clean[i]) && !IsSpace(name[i]) && !IsSpace(Lower(name[i])) && Lower(name[i]) != ':';
    TrimTrimmed(name);
  }

  lemma CanonOfNamed(f: Field, clean: string)
    requires EqualFold(f.name, clean) && CleanName(clean)
    ensures Canon(f, true) == ToLower(clean) + ":" + CanonValue(Value(f))
    ensures OneLine(Canon(f, true))
    ensures ToLower(clean) != "" && ':' !in ToLower(clean)
  {
    FoldedNameClean(f.name, clean);
    CanonValueOneLine(Value(f));
    hide CanonValue, Value, TrimSpace, ToLower, CleanName;
    assert Canon(f, true) == ToLower(f.name) + ":" + CanonValue(Value(f)) by {
      CanonUnfold(f);
    }
    assert |ToLower(clean)| == |clean|;
    assert clean != "" by { CleanNotEmpty(clean); }
  }

  lemma CleanNotEmpty(n: string)
    requires CleanName(n)
    ensures n != ""
  {
  }

  lemma CanonUnfold(f: Field)
    ensures Canon(f, true) == ToLower(TrimSpace(f.name)) + ":" + CanonValue(Value(f))
  {
  }

  // ----- parts without spaces -----

  predicate Tight(s: string) {
    forall i :: 0 <= i < |s| ==> !IsSpace(s[i])
  }

  lemma {:induction false} CompressedTight(s: string)
    requires forall i :: 0 <= i < |Compressed(s)| ==> !IsBlank(Compressed(s)[i])
    ensures Compressed(s) == s
  {
    if s != "" {
      CompressedIsCompressed(s);
      assert !IsBlank(s[0]);
      var t := Compressed(s[1..]);
      assert forall i :: 0 <= i < |t| ==> t[i] == Compressed(s)[i + 1];
      CompressedTight(s[1..]);
    }
  }

  lemma {:induction false} CompressedBytes(s: string, c: char)
    requires !IsBlank(c)
    ensures c in Compressed(s) <==> c in s
  {
    if s != "" {
      CompressedBytes(s[1..], c);
      assert s == [s[0]] + s[1..];
    }
  }

  lemma {:induction false} CompressedAround(a: string, c: char, b: string)
    requires !IsBlank(c)
    ensures Compressed(a + [c] + b) == Compressed(a) + [c] + Compressed(b)
  {
    if a == "" {
      assert a + [c] + b == [c] + b;
      assert ([c] + b)[1..] == b;
    } else {
      assert (a + [c] + b)[1..] == a[1..] + [c] + b && (a + [c] + b)[0] == a[0];
      CompressedAround(a[1..], c, b);
    }
  }

  function MapUnfold(parts: seq<string>): seq<string> {
    seq(|parts|, i requires 0 <= i < |parts| => RemoveLineEnds(parts[i]))
  }

  lemma StripPartNoSemi(p: string)
    requires ';' !in p
    ensures ';' !in StripPart(p)
  {
    assert StripPart(p) <= p;
  }

  lemma {:induction false} RemoveLineEndsBytes(s: string, c: char)
    requires !IsLineEnd(c)
    ensures c in RemoveLineEnds(s) <==> c in s
  {
    if s != "" {
      RemoveLineEndsBytes(s[1..], c);
      assert s == [s[0]] + s[1..];
    }
  }

  lemma RemoveLineEndsAround(a: string, c: char, b: string)
    requires !IsLineEnd(c)
    ensures RemoveLineEnds(a + [c] + b) == RemoveLineEnds(a) + [c] + RemoveLineEnds(b)
  {
    RemoveLineEndsAppend(a + [c], b);
    RemoveLineEndsAppend(a, [c]);
    assert [c][1..] == "" && RemoveLineEnds([c]) == [c];
  }

  lemma MapUnfoldCons(a: string, rest: seq<string>)
    ensures MapUnfold([a] + rest) == [RemoveLineEnds(a)] + MapUnfold(rest)
  {
    hide RemoveLineEnds;
  }

  lemma SplitUnfoldedStep(a: string, b: string)
    requires ';' !in a && Split(RemoveLineEnds(b), ';') == MapUnfold(Split(b, ';'))
    ensures Split(RemoveLineEnds(a + [';'] + b), ';') == MapUnfold(Split(a + [';'] + b, ';'))
  {
    RemoveLineEndsBytes(a, ';');
    hide Split, RemoveLineEnds;
    RemoveLineEndsAround(a, ';', b);
    SplitCons(a, b, ';');
    SplitCons(RemoveLineEnds(a), RemoveLineEnds(b), ';');
    MapUnfoldCons(a, Split(b, ';'));
  }

  /** Unfolding acts part by part. */
  lemma {:induction false} SplitUnfolded(v: string)
    ensures Split(RemoveLineEnds(v), ';') == MapUnfold(Split(v, ';'))
    decreases |v|
  {
    hide Split, RemoveLineEnds, MapUnfold;
    if ';' !in v {
      SplitUnfoldedOne(v);
    } else {
      var a, b := CutAt(v, ';');
      SplitUnfolded(b);
      SplitUnfoldedStep(a, b);
    }
  }

  lemma SplitUnfoldedOne(v: string)
    requires ';' !in v
    ensures Split(RemoveLineEnds(v), ';') == MapUnfold(Split(v, ';'))
  {
    RemoveLineEndsBytes(v, ';');
    hide RemoveLineEnds;
    SplitWhole(RemoveLineEnds(v), ';');
    SplitWhole(v, ';');
  }

  // ----- the canonical form of a signed tag list, part by part -----

  /** What the signed canonical text keeps of one part. */
  function CanonPart(p: string): string {
    Compressed(RemoveLineEnds(StripPart(p)))
  }

  function CanonText(v: string): string {
    Compressed(RemoveLineEnds(StripValue(v)))
  }

  function CanonParts(parts: seq<string>): seq<string> {
    seq(|parts|, i requires 0 <= i < |parts| => CanonPart(parts[i]))
  }

  lemma CanonPartNoSemi(p: string)
    requires ';' !in p
    ensures ';' !in CanonPart(p)
  {
    StripPartNoSemi(p);
    RemoveLineEndsBytes(StripPart(p), ';');
    CompressedBytes(RemoveLineEnds(StripPart(p)), ';');
  }

  lemma CanonTextCons(a: string, b: string)
    requires ';' !in a
    ensures CanonText(a + [';'] + b) == CanonPart(a) + [';'] + CanonText(b)
  {
    StripCons(a, b);
    hide StripPart, StripValue, RemoveLineEnds, Compressed;
    RemoveLineEndsAround(StripPart(a), ';', StripValue(b));
    CompressedAround(RemoveLineEnds(StripPart(a)), ';', RemoveLineEnds(StripValue(b)));
  }

  lemma CanonPartsCons(a: string, rest: seq<string>)
    ensures CanonParts([a] + rest) == [CanonPart(a)] + CanonParts(rest)
  {
    hide CanonPart;
  }

  lemma SplitCanonStep(a: string, b: string)
    requires ';' !in a && Split(CanonText(b), ';') == CanonParts(Split(b, ';'))
    ensures Split(CanonText(a + [';'] + b), ';') == CanonParts(Split(a + [';'] + b, ';'))
  {
    CanonPartNoSemi(a);
    hide Split, CanonText, CanonPart;
    SplitCons(a, b, ';');
    CanonTextCons(a, b);
    SplitCons(CanonPart(a), CanonText(b), ';');
    CanonPartsCons(a, Split(b, ';'));
  }

  lemma CutAt(v: string, c: char) returns (a: string, b: string)
    requires c in v
    ensures v == a + [c] + b && c !in a && |b| < |v|
  {
    var i := IndexByte(v, c);
    a, b := v[..i], v[i + 1..];
  }

  /** Stripping, unfolding and compressing act part by part. */
  lemma {:induction false} SplitCanonText(v: string)
    ensures Split(CanonText(v), ';') == CanonParts(Split(v, ';'))
    decreases |v|
  {
    hide Split, CanonText, CanonParts, IndexByte;
    if ';' !in v {
      SplitOnePart(v);
    } else {
      var a, b := CutAt(v, ';');
      SplitCanonText(b);
      SplitCanonStep(a, b);
    }
  }

  lemma SplitOnePart(v: string)
    requires ';' !in v
    ensures Split(CanonText(v), ';') == CanonParts(Split(v, ';'))
  {
    CanonPartNoSemi(v);
    assert StripValue(v) == StripPart(v);
    hide CanonPart, StripPart, StripValue;
    SplitWhole(CanonPart(v), ';');
    SplitWhole(v, ';');
    assert CanonText(v) == CanonPart(v) by { CanonWhole(v); }
    assert CanonParts([v]) == [CanonPart(v)];
  }

  lemma CanonWhole(v: string)
    requires StripValue(v) == StripPart(v)
    ensures CanonText(v) == CanonPart(v)
  {
  }
}
