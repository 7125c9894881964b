// What the parser guarantees of every field it returns: how its name was read, and that a
// line feed inside it is always followed by a space or tab.

module ArcParsed {
  import opened Options
  import opened Text
  import opened ArcCanon
  import opened ArcCanonLaws

  /** Every line feed follows a carriage return. */
  predicate Paired(s: string) {
    forall i :: 0 <= i < |s| && s[i] == '\n' ==> i > 0 && s[i - 1] == '\r'
  }

  /** A line feed stands before a blank or at the very end. */
  predicate FoldsOrEnds(s: string) {
    forall i :: 0 <= i < |s| - 1 && s[i] == '\n' ==> IsBlank(s[i + 1])
  }

  predicate Folded(s: string) {
    forall i :: 0 <= i < |s| && s[i] == '\n' ==> i + 1 < |s| && IsBlank(s[i + 1])
  }

  predicate Parsed(f: Field) {
    var colon := IndexByte(f.raw, ':');
    colon > 0 && f.name == TrimRightBlanks(f.raw[..colon]) && Folded(f.raw)
  }

  ghost predicate AllParsed(fields: seq<Field>) {
    forall i :: 0 <= i < |fields| ==> Parsed(fields[i])
  }

  ghost predicate GoodRaws(raws: seq<string>) {
    forall i :: 0 <= i < |raws| ==> Paired(raws[i]) && FoldsOrEnds(raws[i])
  }

  /** A single line: its only line feed is its last byte. */
  predicate RawLine(l: string) {
    Paired(l) && forall i :: 0 <= i < |l| - 1 ==> l[i] != '\n'
  }

  ghost predicate RawLines(lines: seq<string>) {
    forall i :: 0 <= i < |lines| ==> RawLine(lines[i])
  }

  lemma {:induction false} NormPaired(s: string)
    ensures Paired(Norm(s))
    decreases |s|
  {
    if s != "" {
      NormUnfold(s);
      NormPaired(s[StepLen(s)..]);
    }
  }

  lemma NormalizedPaired(raw: string)
    ensures Paired(Normalized(raw))
  {
    NormPaired(raw);
  }

  lemma HeadPaired(raw: string)
    requires Paired(raw)
    ensures Paired(HeadOf(raw))
  {
    assert HeadOf(raw) <= raw;
  }

  lemma FirstRawLine(head: string)
    requires Paired(head)
    ensures FindCRLF(head) < 0 ==> RawLine(head)
    ensures FindCRLF(head) >= 0 ==> RawLine(head[..FindCRLF(head) + 2]) && Paired(head[FindCRLF(head) + 2..])
  {
    var i := FindCRLF(head);
    assert forall k :: 0 <= k < |head| && head[k] == '\n' ==> CRLFAt(head, k - 1);
  }

  lemma {:induction false} LinesRaw(head: string)
    requires Paired(head)
    ensures RawLines(Lines(head))
    decreases |head|
  {
    FirstRawLine(head);
    hide RawLine, Paired;
    if head != "" && FindCRLF(head) >= 0 {
      LinesRaw(head[FindCRLF(head) + 2..]);
    }
  }

  lemma JoinRaw(r: string, l: string)
    requires Paired(r) && FoldsOrEnds(r) && RawLine(l) && Continues(l)
    ensures Paired(r + l) && FoldsOrEnds(r + l)
  {
    var s := r + l;
    assert forall k :: 0 <= k < |r| ==> s[k] == r[k];
    assert forall k :: |r| <= k < |s| ==> s[k] == l[k - |r|];
  }

  lemma {:induction false} MergeGood(raws: seq<string>, lines: seq<string>)
    requires GoodRaws(raws) && RawLines(lines)
    ensures GoodRaws(Merge(raws, lines))
    decreases |lines|
  {
    if lines != [] {
      assert RawLine(lines[0]);
      assert RawLine(lines[0]) ==> Paired(lines[0]) && FoldsOrEnds(lines[0]);
      if Continues(lines[0]) && raws != [] {
        JoinRaw(raws[|raws| - 1], lines[0]);
        hide RawLine, Paired, FoldsOrEnds;
        MergeGood(raws[..|raws| - 1] + [raws[|raws| - 1] + lines[0]], lines[1..]);
      } else {
        hide RawLine, Paired, FoldsOrEnds;
        MergeGood(raws + [lines[0]], lines[1..]);
      }
    }
  }

  lemma DroppedFolded(raw: string)
    requires Paired(raw) && FoldsOrEnds(raw)
    ensures Folded(DropCRLF(raw))
  {
    var r := DropCRLF(raw);
    forall i | 0 <= i < |r| && r[i] == '\n'
      ensures i + 1 < |r| && IsBlank(r[i + 1])
    {
      assert raw[i] == '\n';
      assert i < |raw| - 1 ==> IsBlank(raw[i + 1]);
      assert i == |raw| - 1 ==> CRLFAt(raw, |raw| - 2);
    }
  }

  lemma {:induction false} FieldsParsed(raws: seq<string>)
    requires GoodRaws(raws)
    ensures AllParsed(FieldsOf(raws))
  {
    if raws != [] {
      assert Paired(raws[0]) && FoldsOrEnds(raws[0]);
      DroppedFolded(raws[0]);
      hide Paired, FoldsOrEnds, Folded, DropCRLF, TrimRightBlanks, IndexByte;
      FieldsParsed(raws[1..]);
      assert forall i :: 0 <= i < |FieldOf(raws[0])| ==> Parsed(FieldOf(raws[0])[i]);
    }
  }

  /** Every field of a message was read from its own raw bytes, which fold properly. */
  lemma MessageParsed(raw: string)
    ensures AllParsed(MessageOf(Normalized(raw)).fields)
  {
    var s := Normalized(raw);
    hide Normalized, HeadOf, Lines, Merge, FieldsOf, Parsed, RawLine, Paired;
    NormalizedPaired(raw);
    HeadPaired(s);
    LinesRaw(HeadOf(s));
    MergeGood([], Lines(HeadOf(s)));
    FieldsParsed(Merge([], Lines(HeadOf(s))));
  }

  // ----- stripping the signature keeps the folding -----

  lemma StripPartFolded(p: string)
    requires Folded(p)
    ensures Folded(StripPart(p))
  {
    var s := StripPart(p);
    assert s <= p && (s == p || s[|s| - 1] == '=');
    assert forall i :: 0 <= i < |s| ==> s[i] == p[i];
  }

  lemma FoldedCut(v: string, i: nat)
    requires Folded(v) && i < |v| && v[i] == ';'
    ensures Folded(v[..i]) && Folded(v[i + 1..])
  {
  }

  lemma FoldedJoin(a: string, b: string)
    requires Folded(a) && Folded(b)
    ensures Folded(a + ";" + b)
  {
    var s := a + ";" + b;
    assert forall k :: 0 <= k < |a| ==> s[k] == a[k];
    assert s[|a|] == ';';
    assert forall k :: |a| < k < |s| ==> s[k] == b[k - |a| - 1];
  }

  lemma {:induction false} StripValueFolded(v: string)
    requires Folded(v)
    ensures Folded(StripValue(v))
    decreases |v|
  {
    var i := IndexByte(v, ';');
    if i < 0 {
      StripPartFolded(v);
    } else {
      FoldedCut(v, i);
      StripPartFolded(v[..i]);
      StripValueFolded(v[i + 1..]);
      hide Folded, StripPart, StripValue;
      FoldedJoin(StripPart(v[..i]), StripValue(v[i + 1..]));
      assert StripValue(v) == StripPart(v[..i]) + ";" + StripValue(v[i + 1..]) by { StripUnfold(v, i); }
    }
  }

  lemma StripUnfold(v: string, i: nat)
    requires i == IndexByte(v, ';')
    ensures StripValue(v) == StripPart(v[..i]) + ";" + StripValue(v[i + 1..])
  {
    hide StripPart, IndexByte;
  }

  lemma FoldedColon(h: string, v: string, w: string)
    requires h != "" && h[|h| - 1] == ':' && Folded(h + v) && Folded(w)
    ensures Folded(h + w)
  {
    assert forall k :: 0 <= k < |h| ==> (h + v)[k] == h[k] && (h + w)[k] == h[k];
    assert forall k :: 0 <= k < |w| ==> (h + w)[|h| + k] == w[k];
  }

  /** The stripped field of a parsed one: same name and name bytes, stripped value, still folded. */
  lemma StrippedParsed(f: Field)
    requires Parsed(f)
    ensures var g, colon := StripSignature(f), IndexByte(f.raw, ':');
            && g.name == f.name && colon > 0
            && g.raw == f.raw[..colon] + ":" + StripValue(Value(f)) && ':' !in f.raw[..colon]
            && Value(g) == StripValue(Value(f)) && Folded(g.raw)
  {
    hide Folded, StripValue;
    var g, colon := StripSignature(f), IndexByte(f.raw, ':');
    var h, v := f.raw[..colon + 1], f.raw[colon + 1..];
    assert f.raw == h + v && h == f.raw[..colon] + ":";
    FirstColon(f.raw[..colon], StripValue(v));
    FoldedValue(h, v);
    StripValueFolded(v);
    FoldedColon(h, v, StripValue(v));
  }

  lemma FoldedValue(h: string, v: string)
    requires Folded(h + v)
    ensures Folded(v)
  {
    assert forall k :: 0 <= k < |v| ==> (h + v)[|h| + k] == v[k];
  }

  lemma FirstColon(a: string, b: string)
    requires ':' !in a
    ensures var s := a + ":" + b; IndexByte(s, ':') == |a| && s[|a| + 1..] == b && s[..|a|] == a
  {
    var s := a + ":" + b;
    assert s[|a|] == ':' && s[..|a|] == a;
    assert forall k :: 0 <= k < |a| ==> s[k] == a[k];
  }
}
