// The sealer writes a new set as three lines in front of the original bytes; the validator
// normalises and splits the result again. Here: it finds the three fields and the old message.

module ArcFraming {
  import opened Options
  import opened Text
  import opened ArcCanon
  import opened ArcCanonLaws
  import opened ArcTags
  import opened ArcChain
  import opened ArcSeal

  // ----- single lines and blocks of lines -----

  lemma LineBlock(l: string)
    requires l != "" && OneLine(l) && !IsBlank(l[0])
    ensures HeaderBlock(l + CRLF)
    ensures BlockFields(l + CRLF) == FieldOf(l + CRLF)
  {
    var h := l + CRLF;
    assert forall i :: 0 <= i < |l| ==> h[i] == l[i] && h[i] != '\r';
    assert h[|l|] == '\r' && h[|l| + 1] == '\n';
    assert forall i :: 0 <= i < |h| && i != |l| ==> !CRLFAt(h, i);
    assert CRLFAt(h, |l|);
    assert FindCRLF(h) == |h| - 2 && FindBlankLine(h) < 0;
    LineNorm(l);
    LinesCons(h, "");
    assert h + "" == h;
    MergeOne(h);
  }

  lemma LineNorm(l: string)
    requires OneLine(l)
    ensures Norm(l + CRLF) == l + CRLF
  {
    NormAppend(l, CRLF);
    NormLineFeeds(l);
    NormStepText(CRLF);
  }

  lemma MergeOne(h: string)
    ensures FieldsOf(Merge([], [h])) == FieldOf(h)
  {
    assert [] + [h] == [h];
    assert [h][1..] == [];
    assert Merge([], [h]) == Merge([h], []);
    assert FieldsOf([h]) == FieldOf(h) + FieldsOf([]);
  }

  lemma BlockJoin(a: string, b: string)
    requires HeaderBlock(a) && HeaderBlock(b)
    ensures HeaderBlock(a + b)
    ensures BlockFields(a + b) == BlockFields(a) + BlockFields(b)
  {
    var h := a + b;
    FindBlankLinePrepend(a, b);
    assert CRLFAt(h, |h| - 2) by {
      assert h[|h| - 2] == b[|b| - 2] && h[|h| - 1] == b[|b| - 1];
    }
    assert !CRLFAt(h, 0) && !IsBlank(h[0]) by {
      assert h[0] == a[0] && h[1] == a[1];
    }
    NormAppend(a, b);
    BlockFieldsJoin(a, b);
  }

  lemma BlockFieldsJoin(a: string, b: string)
    requires |a| >= 2 && CRLFAt(a, |a| - 2) && b != "" && !IsBlank(b[0])
    ensures BlockFields(a + b) == BlockFields(a) + BlockFields(b)
  {
    LinesHead(b);
    hide Lines, Merge, FieldsOf, FindCRLF;
    LinesAppend(a, b);
    MergeAppend([], Lines(a), Lines(b));
    MergeKeeps(Merge([], Lines(a)), [], Lines(b));
    assert Merge([], Lines(a)) + [] == Merge([], Lines(a));
    FieldsOfAppend(Merge([], Lines(a)), Merge([], Lines(b)));
  }

  // ----- a written field is parsed back -----

  predicate PlainName(name: string) {
    CleanName(name)
  }

  lemma ArcNames()
    ensures PlainName(AAR) && PlainName(AMS) && PlainName(AS)
  {
  }

  /** A field that a line of its own stands for. */
  ghost predicate LineField(f: Field) {
    f.raw != "" && OneLine(f.raw) && !IsBlank(f.raw[0]) && FieldOf(f.raw + CRLF) == [f]
  }

  lemma WrittenValue(name: string, value: string)
    requires PlainName(name)
    ensures var f := NewField(name, value);
            && IndexByte(f.raw, ':') == |name| && f.raw[..|name|] == name && Value(f) == " " + value
            && f.raw[..|name| + 1] == name + ":" && f.raw[|name| + 1..] == " " + value
  {
    var f := NewField(name, value);
    ColonSpace(name, value);
    assert ':' !in name;
    FirstByte(name, ':', " " + value);
    hide IndexByte, PlainName;
    SliceAt(name + ":", " " + value);
    SliceAt(name, ":" + (" " + value));
  }

  lemma ColonSpace(name: string, value: string)
    ensures name + ": " + value == name + ":" + (" " + value)
    ensures name + ": " + value == name + (":" + (" " + value))
  {
  }

  lemma SliceAt(a: string, b: string)
    ensures (a + b)[..|a|] == a && (a + b)[|a|..] == b
  {
  }

  lemma WrittenField(name: string, value: string)
    requires PlainName(name) && OneLine(value)
    ensures LineField(NewField(name, value))
    ensures Value(NewField(name, value)) == " " + value
  {
    var f := NewField(name, value);
    WrittenValue(name, value);
    hide IndexByte;
    assert f.raw[0] == name[0];
    assert forall i :: 0 <= i < |name| ==> name[i] != '\r' && name[i] != '\n';
    assert CRLFAt(f.raw + CRLF, |f.raw|);
    assert (f.raw + CRLF)[..|f.raw|] == f.raw;
    assert TrimRightBlanks(name) == name;
  }

  ghost predicate WritableSet(s: ArcSet) {
    LineField(s.aar) && LineField(s.ams) && LineField(s.sl)
  }

  lemma FieldBlock(f: Field)
    requires LineField(f)
    ensures HeaderBlock(f.raw + CRLF)
    ensures BlockFields(f.raw + CRLF) == [f]
  {
    LineBlock(f.raw);
  }

  lemma WrittenSet(s: ArcSet)
    requires WritableSet(s)
    ensures HeaderBlock(Written(s))
    ensures BlockFields(Written(s)) == Front(s)
  {
    hide HeaderBlock, BlockFields, LineField;
    FieldBlock(s.aar);
    FieldBlock(s.ams);
    FieldBlock(s.sl);
    var last := s.ams.raw + CRLF + (s.aar.raw + CRLF);
    BlockJoin(s.ams.raw + CRLF, s.aar.raw + CRLF);
    BlockJoin(s.sl.raw + CRLF, last);
    assert [s.sl] + ([s.ams] + [s.aar]) == Front(s);
  }

  /** What the spool guarantees of a message: it is not a continuation line, and normalising it is stable under prepending. */
  ghost predicate Spooled(original: string) {
    && (original == "" || !IsBlank(original[0]))
    && ('\n' in original || '\r' !in original)
  }

  lemma NormHead(s: string)
    requires s == "" || !IsBlank(s[0])
    ensures Norm(s) == "" || !IsBlank(Norm(s)[0])
  {
  }

  /** The validator sees the new fields, then the fields and the body the sealer saw. */
  lemma SealedMessage(s: ArcSet, original: string)
    requires WritableSet(s) && Spooled(original)
    ensures var m := MessageOf(Normalized(original));
            MessageOf(Normalized(Written(s) + original)) == Message(Front(s) + m.fields, m.body)
  {
    WrittenSet(s);
    NormalizedPrepend(Written(s), original);
    NormHead(original);
    NormLineFeeds(original);
    hide Written, Front, BlockFields, Norm, MessageOf;
    assert Normalized(original) == Norm(original);
    SplitPrepend(Written(s), Norm(original));
  }
}
