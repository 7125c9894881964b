// Line endings, header fields and their canonical form, rule by rule (RFC 5322, section 2.2; RFC 6376, section 3.4.2).

module ArcHeaderRules {
  import opened Options
  import opened Text
  import opened ArcCanon
  import opened ArcCanonLaws
  import opened ArcBodyRules
  import opened ArcDecoding
  import opened ArcTagDecoding
  import opened ArcParsed

  // ----- line endings -----

  /** Every carriage return and every line feed is part of a CRLF. */
  predicate OnlyCRLF(s: string) {
    && (forall i :: 0 <= i < |s| && s[i] == '\r' ==> CRLFAt(s, i))
    && (forall i :: 0 <= i < |s| && s[i] == '\n' ==> CRLFAt(s, i - 1))
  }

  lemma NormOne(c: char)
    requires IsLineEnd(c)
    ensures Norm([c]) == CRLF && Norm(CRLF) == CRLF
  {
    assert [c][1..] == "" && CRLF[2..] == "";
    assert CRLF + "" == CRLF;
  }

  /** In a text with a line feed a line ending of one byte counts as CRLF. */
  lemma LineEndIsCRLF(a: string, c: char, b: string)
    requires IsLineEnd(c) && '\n' in a + [c] + b
    requires c == '\n' ==> a == "" || a[|a| - 1] != '\r'
    requires c == '\r' ==> b == "" || b[0] != '\n'
    ensures Normalized(a + [c] + b) == Normalized(a + CRLF + b)
  {
    hide Norm;
    assert (a + CRLF + b)[|a| + 1] == '\n';
    assert a + [c] + b == a + ([c] + b) && a + CRLF + b == a + (CRLF + b);
    NormAppend(a, [c] + b);
    NormAppend(a, CRLF + b);
    NormAppend([c], b);
    NormAppend(CRLF, b);
    NormOne(c);
  }

  lemma {:induction false} NormOnlyCRLF(s: string)
    ensures OnlyCRLF(Norm(s))
    ensures OnlyCRLF(s) ==> Norm(s) == s
    decreases |s|
  {
    if s != "" {
      var n := StepLen(s);
      var first, rest := StepText(s), s[n..];
      NormUnfold(s);
      hide Norm;
      NormOnlyCRLF(rest);
      FirstCRLF(first, Norm(rest));
      if OnlyCRLF(s) {
        RestCRLF(s);
      }
    }
  }

  lemma ShiftedCRLF(first: string, t: string, k: int)
    ensures CRLFAt(t, k) ==> CRLFAt(first + t, |first| + k)
  {
  }

  lemma FirstCRLF(first: string, t: string)
    requires OnlyCRLF(t) && (first == CRLF || (|first| == 1 && !IsLineEnd(first[0])))
    ensures OnlyCRLF(first + t)
  {
    var s := first + t;
    assert CRLFAt(first, 0) ==> CRLFAt(s, 0);
    forall i | 0 <= i < |s|
      ensures s[i] == '\r' ==> CRLFAt(s, i)
      ensures s[i] == '\n' ==> CRLFAt(s, i - 1)
    {
      if i >= |first| {
        assert s[i] == t[i - |first|];
        ShiftedCRLF(first, t, i - |first|);
        ShiftedCRLF(first, t, i - |first| - 1);
      }
    }
  }

  lemma RestCRLF(s: string)
    requires s != "" && OnlyCRLF(s)
    ensures OnlyCRLF(s[StepLen(s)..]) && StepText(s) == s[..StepLen(s)]
  {
    var n := StepLen(s);
    var t := s[n..];
    assert s[0] == '\r' ==> CRLFAt(s, 0);
    assert s[0] == '\n' ==> CRLFAt(s, -1);
    assert forall i :: 0 <= i < |t| ==> t[i] == s[n + i];
    assert forall i :: 0 <= i < |t| && CRLFAt(s, n + i) ==> CRLFAt(t, i);
    forall i | 0 <= i < |t| && t[i] == '\n'
      ensures CRLFAt(t, i - 1)
    {
      assert CRLFAt(s, n + i - 1);
    }
  }

  /** What is normalised holds CRLF only, and such texts, and those without a line feed, are left alone. */
  lemma NormalFormExactly(raw: string)
    ensures Normalized(raw) == raw <==> '\n' !in raw || OnlyCRLF(raw)
    ensures '\n' in raw ==> OnlyCRLF(Normalized(raw))
  {
    NormOnlyCRLF(raw);
  }

  // ----- a message written out is read back -----

  /** A field that can be written as lines of its own: every line but the first is a continuation. */
  predicate Writable(f: Field) {
    Parsed(f) && !IsBlank(f.raw[0]) && !CRLFAt(f.raw, 0)
  }

  function HeadText(fields: seq<Field>): string {
    if fields == [] then "" else fields[0].raw + CRLF + HeadText(fields[1..])
  }

  /** Every line end in it stands before a blank or at the very end. */
  ghost predicate Continued(s: string) {
    forall i :: CRLFAt(s, i) && i + 2 < |s| ==> IsBlank(s[i + 2])
  }

  lemma {:induction false} MergeContinued(raw: string, rest: string)
    requires Continued(rest) && (rest != "" ==> IsBlank(rest[0]))
    ensures Merge([raw], Lines(rest)) == [raw + rest]
    decreases |rest|
  {
    if rest == "" {
      assert raw + rest == raw;
    } else if FindCRLF(rest) < 0 {
      MergeStep(raw, rest, []);
    } else {
      hide Continued, FindCRLF, Lines, Merge;
      var l, more := CutHead(rest);
      RestContinued(l, more);
      MergeStep(raw, l, Lines(more));
      MergeContinued(raw + l, more);
      AppendAssoc(raw, l, more);
    }
  }

  lemma MergeStep(raw: string, l: string, lines: seq<string>)
    requires l != "" && IsBlank(l[0])
    ensures Merge([raw], [l] + lines) == Merge([raw + l], lines)
    ensures Merge([raw + l], []) == [raw + l]
  {
    assert ([l] + lines)[1..] == lines && [raw][..0] + [raw + l] == [raw + l];
  }

  lemma FoldedContinued(r: string)
    requires Folded(r)
    ensures Continued(r + CRLF) && FindBlankLine(r + CRLF) < 0
  {
    hide FindBlankLine;
    var h := r + CRLF;
    forall i | CRLFAt(h, i) && i + 2 < |h|
      ensures IsBlank(h[i + 2])
    {
      assert h[i + 1] == '\n';
      assert i + 1 < |r| && r[i + 1] == '\n';
    }
    forall i
      ensures !BlankLineAt(h, i)
    {
      assert CRLFAt(h, i) && i + 2 < |h| ==> IsBlank(h[i + 2]);
    }
  }

  /** The lines of one field are one field. */
  lemma FieldBack(f: Field)
    requires Writable(f)
    ensures OpenBlock(f.raw + CRLF) && BlockFields(f.raw + CRLF) == [f]
  {
    var h := f.raw + CRLF;
    FoldedContinued(f.raw);
    assert h[0] == f.raw[0] && h[|h| - 2] == '\r' && h[|h| - 1] == '\n';
    assert !CRLFAt(h, 0) && |h| > 2 by { assert f.raw[0] == ':' || |f.raw| > 1; assert |f.raw| > 1; }
    FieldLines(f);
    FieldRead(f);
    assert [h][1..] == [];
    hide FieldOf, Merge, Lines;
    assert FieldsOf([h]) == FieldOf(h) + FieldsOf([]);
  }

  lemma FieldRead(f: Field)
    requires Writable(f)
    ensures FieldOf(f.raw + CRLF) == [f]
  {
    var h := f.raw + CRLF;
    assert CRLFAt(h, |f.raw|) && h[..|f.raw|] == f.raw;
  }

  lemma CutHead(h: string) returns (l: string, more: string)
    requires FindCRLF(h) >= 0
    ensures h == l + more && |l| == FindCRLF(h) + 2 && Lines(h) == [l] + Lines(more)
  {
    hide FindCRLF;
    var i := FindCRLF(h);
    l, more := h[..i + 2], h[i + 2..];
  }

  lemma RestContinued(l: string, more: string)
    requires |l| >= 2 && CRLFAt(l + more, |l| - 2) && Continued(l + more)
    ensures Continued(more) && (more != "" ==> IsBlank(more[0]))
  {
    var h := l + more;
    assert more != "" ==> h[|l|] == more[0];
    forall k | CRLFAt(more, k) && k + 2 < |more|
      ensures IsBlank(more[k + 2])
    {
      ShiftedCRLF(l, more, k);
      assert h[|l| + k + 2] == more[k + 2];
    }
  }

  lemma FieldLines(f: Field)
    requires Writable(f)
    ensures Merge([], Lines(f.raw + CRLF)) == [f.raw + CRLF]
  {
    var h := f.raw + CRLF;
    FoldedContinued(f.raw);
    assert CRLFAt(h, |f.raw|) && h[0] == f.raw[0];
    hide Continued, FindCRLF, Lines, IndexByte, TrimRightBlanks, CRLFAt, Folded, FindBlankLine;
    var l, more := CutHead(h);
    assert l[0] == h[0];
    RestContinued(l, more);
    MergeFirst(l, Lines(more));
    MergeContinued(l, more);
  }

  lemma MergeFirst(l: string, lines: seq<string>)
    requires l != "" && !IsBlank(l[0])
    ensures Merge([], [l] + lines) == Merge([l], lines)
  {
    assert ([l] + lines)[1..] == lines && [] + [l] == [l];
  }

  /** Whatever fields and body are written, the parser gives them back. */
  lemma {:induction false} ParsedBack(fields: seq<Field>, body: string)
    requires forall i :: 0 <= i < |fields| ==> Writable(fields[i])
    ensures MessageOf(HeadText(fields) + CRLF + body) == Message(fields, body)
  {
    if fields == [] {
      NoHead(body);
    } else {
      assert Writable(fields[0]);
      var h, rest := fields[0].raw + CRLF, HeadText(fields[1..]) + CRLF + body;
      HeadStart(fields[1..], body);
      FieldBack(fields[0]);
      FirstField(fields, body);
      hide *;
      ParsedBack(fields[1..], body);
      SplitPrepend(h, rest);
    }
  }

  lemma FirstField(fields: seq<Field>, body: string)
    requires fields != []
    ensures HeadText(fields) + CRLF + body == fields[0].raw + CRLF + (HeadText(fields[1..]) + CRLF + body)
    ensures [fields[0]] + fields[1..] == fields
  {
    var a, b := fields[0].raw + CRLF, HeadText(fields[1..]);
    AppendAssoc(a, b, CRLF);
    AppendAssoc(a, b + CRLF, body);
  }

  lemma NoHead(body: string)
    ensures MessageOf(HeadText([]) + CRLF + body) == Message([], body)
  {
    var s := HeadText([]) + CRLF + body;
    assert s == CRLF + body;
    assert s[0] == '\r' && s[1] == '\n' && s[2..] == body;
    assert Lines("") == [] && Merge([], []) == [];
  }

  lemma HeadStart(fields: seq<Field>, body: string)
    requires forall i :: 0 <= i < |fields| ==> Writable(fields[i])
    ensures var s := HeadText(fields) + CRLF + body; s != "" && !IsBlank(s[0])
  {
    if fields != [] {
      assert Writable(fields[0]);
      var s := HeadText(fields) + CRLF + body;
      assert HeadText(fields)[0] == fields[0].raw[0];
      assert s[0] == HeadText(fields)[0];
    }
  }

  // ----- relaxed header fields -----

  /** The field that a header line with this name and value gives. */
  function Header(name: string, value: string): Field {
    Field(TrimRightBlanks(name), name + ":" + value)
  }

  lemma HeaderCanon(name: string, value: string)
    requires ':' !in name
    ensures Canon(Header(name, value), true) == ToLower(TrimSpace(TrimRightBlanks(name))) + ":" + CanonValue(value)
  {
    FirstColon(name, value);
    assert Value(Header(name, value)) == value;
    hide Value;
    CanonUnfold(Header(name, value));
  }

  lemma HeaderSame(name: string, v: string, w: string)
    requires ':' !in name && CanonValue(v) == CanonValue(w)
    ensures Canon(Header(name, v), true) == Canon(Header(name, w), true)
  {
    hide CanonValue, Header;
    HeaderCanon(name, v);
    HeaderCanon(name, w);
  }

  /** Relaxed: line ends inside a value do not count. */
  lemma HeaderLineEnds(name: string, a: string, e: string, b: string)
    requires ':' !in name && forall i :: 0 <= i < |e| ==> IsLineEnd(e[i])
    ensures Canon(Header(name, a + e + b), true) == Canon(Header(name, a + b), true)
  {
    hide Canon, Header;
    OnlyLineEnds(e);
    RemoveLineEndsAppend(a + e, b);
    RemoveLineEndsAppend(a, e);
    RemoveLineEndsAppend(a, b);
    assert RemoveLineEnds(a) + "" == RemoveLineEnds(a);
    hide RemoveLineEnds;
    HeaderSame(name, a + e + b, a + b);
  }

  lemma {:induction false} OnlyLineEnds(e: string)
    requires forall i :: 0 <= i < |e| ==> IsLineEnd(e[i])
    ensures RemoveLineEnds(e) == ""
  {
    if e != "" {
      OnlyLineEnds(e[1..]);
    }
  }

  lemma BlanksUnfolded(w: string)
    requires Blanks(w)
    ensures RemoveLineEnds(w) == w && RemoveLineEnds(" ") == " "
  {
    RemoveLineEndsOneLine(w);
    RemoveLineEndsOneLine(" ");
  }

  /** Relaxed: a run of blanks in a value counts as one space. */
  lemma HeaderBlankRun(name: string, a: string, w: string, b: string)
    requires ':' !in name && Blanks(w) && w != ""
    ensures Canon(Header(name, a + w + b), true) == Canon(Header(name, a + " " + b), true)
  {
    hide Canon, Header, RemoveLineEnds, Compressed;
    BlanksUnfolded(w);
    RemoveLineEndsAppend(a + w, b);
    RemoveLineEndsAppend(a, w);
    RemoveLineEndsAppend(a + " ", b);
    RemoveLineEndsAppend(a, " ");
    CompressedRun(RemoveLineEnds(a), w, RemoveLineEnds(b));
    HeaderSame(name, a + w + b, a + " " + b);
  }

  lemma {:induction false} TrimBlanks(w: string, s: string, u: string)
    requires Blanks(w) && Blanks(u)
    ensures TrimSpace(w + s + u) == TrimSpace(s)
    decreases |w| + |u|
  {
    hide TrimSpace;
    if w != "" {
      assert w + s + u == [w[0]] + (w[1..] + s + u);
      TrimSpaceCons(w[0], w[1..] + s + u);
      TrimBlanks(w[1..], s, u);
    } else if u != "" {
      var n := |u| - 1;
      assert w + s + u == w + s + u[..n] + [u[n]];
      TrimSpaceSnoc(w + s + u[..n], u[n]);
      TrimBlanks(w, s, u[..n]);
    } else {
      assert w + s + u == s;
    }
  }

  /** Relaxed: blanks around a value do not count. */
  lemma HeaderEnds(name: string, w: string, v: string, u: string)
    requires ':' !in name && Blanks(w) && Blanks(u)
    ensures Canon(Header(name, w + v + u), true) == Canon(Header(name, v), true)
  {
    hide Canon, Header, RemoveLineEnds, Compressed, TrimSpace;
    BlanksUnfolded(w);
    BlanksUnfolded(u);
    RemoveLineEndsAppend(w + v, u);
    RemoveLineEndsAppend(w, v);
    var x := RemoveLineEnds(v);
    TrimBlanks(w, x, u);
    TrimCompressed(w + x + u);
    TrimCompressed(x);
    HeaderSame(name, w + v + u, v);
  }

  lemma {:induction false} TrimRightAll(n: string, w: string)
    requires Blanks(w) && (n == "" || !IsBlank(n[|n| - 1]))
    ensures TrimRightBlanks(n + w) == n
  {
    if w == "" {
      assert n + w == n;
    } else {
      assert (n + w)[..|n| + |w| - 1] == n + w[..|w| - 1];
      TrimRightAll(n, w[..|w| - 1]);
    }
  }

  lemma LowerTrimmed(n: string)
    requires Trimmed(n)
    ensures Trimmed(ToLower(n))
  {
  }

  /** Relaxed: neither the letter case of a name counts, nor blanks behind it. */
  lemma HeaderName(n: string, w: string, v: string)
    requires ':' !in n && Trimmed(n) && Blanks(w)
    ensures Canon(Header(n + w, v), true) == Canon(Header(ToLower(n), v), true)
  {
    LowerTrimmed(n);
    assert ':' !in ToLower(n) && ':' !in n + w;
    TrimRightAll(n, w);
    TrimRightAll(ToLower(n), "");
    assert ToLower(n) + "" == ToLower(n);
    TrimTrimmed(n);
    TrimTrimmed(ToLower(n));
    LowerTwice(n);
    hide ToLower, TrimSpace, TrimRightBlanks, Canon, CanonValue, Header;
    HeaderCanon(n + w, v);
    HeaderCanon(ToLower(n), v);
  }

  /** Relaxed: a field in lower case, on one line, without double blanks and without blanks at either end of its value
      is its own canonical form. The other rules bring every field into this form. */
  lemma HeaderFixed(n: string, v: string)
    requires ':' !in n && Trimmed(n) && ToLower(n) == n && OneLine(v) && IsCompressed(v) && Trimmed(v)
    ensures CanonHeader(Header(n, v), true) == n + ":" + v + CRLF
  {
    TrimRightAll(n, "");
    assert n + "" == n;
    TrimTrimmed(n);
    TrimTrimmed(v);
    RemoveLineEndsOneLine(v);
    CompressedFixed(v);
    hide ToLower, TrimSpace, TrimRightBlanks, Compressed, RemoveLineEnds, Canon, Header;
    HeaderCanon(n, v);
  }

  /** Simple: the bytes of the field as they are. */
  lemma HeaderSimple(n: string, v: string)
    ensures CanonHeader(Header(n, v), false) == n + ":" + v + CRLF
  {
  }
}
