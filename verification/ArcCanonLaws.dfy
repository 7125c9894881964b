// The algebra behind sealing: how normalising and splitting behave under prepended header lines,
// and which bodies have the same canonical form (RFC 6376, sections 3.4.2 to 3.4.4).

module ArcCanonLaws {
  import opened Options
  import opened Text
  import opened ArcCanon

  // ----- line endings -----

  /** How much of a text the next step of normalising consumes, and what it writes. */
  function StepLen(s: string): (n: nat)
    requires s != ""
    ensures 1 <= n <= |s|
  {
    if s[0] == '\r' && |s| > 1 && s[1] == '\n' then 2 else 1
  }

  function StepText(s: string): string
    requires s != ""
  {
    if IsLineEnd(s[0]) then CRLF else [s[0]]
  }

  lemma NormUnfold(s: string)
    requires s != ""
    ensures Norm(s) == StepText(s) + Norm(s[StepLen(s)..])
  {
  }

  lemma {:induction false} NormAppend(a: string, b: string)
    requires !(a != "" && a[|a| - 1] == '\r' && b != "" && b[0] == '\n')
    ensures Norm(a + b) == Norm(a) + Norm(b)
    decreases |a|
  {
    if a == "" {
      assert a + b == b;
    } else {
      var n := StepLen(a);
      NormUnfold(a);
      NormUnfold(a + b);
      assert StepLen(a + b) == n && StepText(a + b) == StepText(a);
      assert (a + b)[n..] == a[n..] + b;
      NormAppend(a[n..], b);
      hide Norm;
      AppendAssoc(StepText(a), Norm(a[n..]), Norm(b));
    }
  }

  lemma NormStepText(s: string)
    requires s != ""
    ensures Norm(StepText(s)) == StepText(s)
  {
    if IsLineEnd(s[0]) {
      assert CRLF[2..] == "";
    } else {
      assert [s[0]][1..] == "";
    }
  }

  lemma {:induction false} NormTwice(s: string)
    ensures Norm(Norm(s)) == Norm(s)
    decreases |s|
  {
    if s != "" {
      var rest := s[StepLen(s)..];
      NormUnfold(s);
      NormTwice(rest);
      NormAppend(StepText(s), Norm(rest));
      NormStepText(s);
    }
  }

  lemma {:induction false} NormLineFeeds(s: string)
    ensures ('\n' in Norm(s)) <==> ('\n' in s || '\r' in s)
    ensures '\n' !in s && '\r' !in s ==> Norm(s) == s
    decreases |s|
  {
    if s != "" {
      var n := if s[0] == '\r' && |s| > 1 && s[1] == '\n' then 2 else 1;
      var first := if IsLineEnd(s[0]) then CRLF else [s[0]];
      NormStep(s, 0);
      assert s[0..] == s && Norm(s) == first + Norm(s[n..]);
      NormLineFeeds(s[n..]);
      assert s == s[..n] + s[n..];
      if IsLineEnd(s[0]) {
        assert CRLF[1] == '\n';
        assert Norm(s)[1] == '\n';
        assert s[0] in s;
      }
    }
  }

  /** Normalising twice is normalising once. */
  lemma NormalizedTwice(raw: string)
    ensures Normalized(Normalized(raw)) == Normalized(raw)
  {
    NormTwice(raw);
    NormLineFeeds(raw);
  }

  /** Complete lines with no empty line among them. */
  ghost predicate OpenBlock(h: string) {
    |h| > 2 && CRLFAt(h, |h| - 2) && !CRLFAt(h, 0) && FindBlankLine(h) < 0
  }

  /** A block of header lines as a mail server prepends it: normalised, complete lines, the first not a continuation. */
  ghost predicate HeaderBlock(h: string) {
    OpenBlock(h) && Norm(h) == h && !IsBlank(h[0])
  }

  /** Normalising commutes with prepending a header block exactly when the text has a line feed or no carriage return. */
  lemma NormalizedPrepend(h: string, raw: string)
    requires HeaderBlock(h)
    ensures Normalized(h + raw) == h + Norm(raw)
    ensures Normalized(h + raw) == h + Normalized(raw) <==> ('\n' in raw || '\r' !in raw)
  {
    assert h[|h| - 1] == '\n';
    assert (h + raw)[|h| - 1] == '\n';
    NormAppend(h, raw);
    NormLineFeeds(raw);
    if '\n' !in raw && '\r' in raw {
      assert '\n' in Norm(raw);
      assert (h + Norm(raw))[|h|..] == Norm(raw);
      assert (h + raw)[|h|..] == raw;
    }
  }

  // ----- splitting -----

  lemma LinesCons(p: string, rest: string)
    requires |p| >= 2 && FindCRLF(p) == |p| - 2
    ensures Lines(p + rest) == [p] + Lines(rest)
  {
    FindCRLFAppend(p, rest);
    assert (p + rest)[..|p|] == p && (p + rest)[|p|..] == rest;
  }

  lemma FirstLine(h: string)
    requires |h| >= 2 && CRLFAt(h, |h| - 2)
    ensures var i := FindCRLF(h); 0 <= i <= |h| - 2 && FindCRLF(h[..i + 2]) == i
    ensures var rest := h[FindCRLF(h) + 2..]; rest == "" || (|rest| >= 2 && CRLFAt(rest, |rest| - 2))
  {
    var i := FindCRLF(h);
    assert h[i + 1] == '\n' && h[|h| - 2] == '\r';
    var p := h[..i + 2];
    assert CRLFAt(p, i);
    assert forall k :: 0 <= k < i ==> (CRLFAt(p, k) <==> CRLFAt(h, k));
  }

  lemma {:induction false} LinesAppend(h: string, x: string)
    requires h == "" || (|h| >= 2 && CRLFAt(h, |h| - 2))
    ensures Lines(h + x) == Lines(h) + Lines(x)
    decreases |h|
  {
    if h == "" {
      assert h + x == x;
    } else {
      FirstLine(h);
      var p, rest := h[..FindCRLF(h) + 2], h[FindCRLF(h) + 2..];
      assert h == p + rest;
      LinesAppend(rest, x);
      LinesAppendStep(p, rest, x);
    }
  }

  lemma LinesAppendStep(p: string, rest: string, x: string)
    requires |p| >= 2 && FindCRLF(p) == |p| - 2
    requires Lines(rest + x) == Lines(rest) + Lines(x)
    ensures Lines(p + rest + x) == Lines(p + rest) + Lines(x)
  {
    hide Lines, FindCRLF;
    LinesCons(p, rest);
    var tail := rest + x;
    LinesCons(p, tail);
    assert p + tail == p + rest + x;
  }

  lemma FindCRLFAppend(h: string, x: string)
    requires FindCRLF(h) >= 0
    ensures FindCRLF(h + x) == FindCRLF(h)
  {
    var i := FindCRLF(h);
    assert CRLFAt(h + x, i);
    assert forall k :: 0 <= k < i ==> (CRLFAt(h + x, k) <==> CRLFAt(h, k));
  }

  lemma FindBlankLinePrepend(h: string, x: string)
    requires |h| > 2 && CRLFAt(h, |h| - 2) && FindBlankLine(h) < 0
    ensures FindBlankLine(h + x) ==
      if CRLFAt(x, 0) then |h| - 2
      else if FindBlankLine(x) < 0 then -1
      else |h| + FindBlankLine(x)
  {
    var s := h + x;
    assert forall k :: 0 <= k < |h| - 3 ==> (BlankLineAt(s, k) <==> BlankLineAt(h, k));
    assert s[|h| - 2] == '\r' && s[|h| - 1] == '\n';
    assert !BlankLineAt(s, |h| - 3) && !BlankLineAt(s, |h| - 1);
    assert BlankLineAt(s, |h| - 2) <==> CRLFAt(x, 0);
    assert forall k :: |h| <= k < |s| ==> (BlankLineAt(s, k) <==> BlankLineAt(x, k - |h|));
    var r := FindBlankLine(x);
    if CRLFAt(x, 0) {
      assert BlankLineAt(s, |h| - 2);
    } else if r >= 0 {
      assert BlankLineAt(s, |h| + r);
    }
  }

  lemma {:induction false} MergeKeeps(a: seq<string>, b: seq<string>, lines: seq<string>)
    requires b != [] || lines == [] || !Continues(lines[0])
    ensures Merge(a + b, lines) == a + Merge(b, lines)
    decreases |lines|
  {
    if lines != [] {
      if Continues(lines[0]) {
        var c := b[..|b| - 1] + [b[|b| - 1] + lines[0]];
        assert (a + b)[..|a + b| - 1] + [(a + b)[|a + b| - 1] + lines[0]] == a + c;
        MergeKeeps(a, c, lines[1..]);
      } else {
        assert a + b + [lines[0]] == a + (b + [lines[0]]);
        MergeKeeps(a, b + [lines[0]], lines[1..]);
      }
    }
  }

  lemma {:induction false} MergeAppend(raws: seq<string>, l1: seq<string>, l2: seq<string>)
    ensures Merge(raws, l1 + l2) == Merge(Merge(raws, l1), l2)
    decreases |l1|
  {
    if l1 == [] {
      assert l1 + l2 == l2;
    } else {
      assert (l1 + l2)[1..] == l1[1..] + l2;
      assert (l1 + l2)[0] == l1[0];
      if Continues(l1[0]) && raws != [] {
        MergeAppend(raws[..|raws| - 1] + [raws[|raws| - 1] + l1[0]], l1[1..], l2);
      } else {
        MergeAppend(raws + [l1[0]], l1[1..], l2);
      }
    }
  }

  lemma {:induction false} FieldsOfAppend(a: seq<string>, b: seq<string>)
    ensures FieldsOf(a + b) == FieldsOf(a) + FieldsOf(b)
  {
    if a == [] {
      assert a + b == b;
    } else {
      assert (a + b)[1..] == a[1..] + b && (a + b)[0] == a[0];
      FieldsOfAppend(a[1..], b);
      hide FieldOf;
      assert FieldOf(a[0]) + (FieldsOf(a[1..]) + FieldsOf(b)) == FieldOf(a[0]) + FieldsOf(a[1..]) + FieldsOf(b);
    }
  }

  /** The fields of a header block on its own. */
  function BlockFields(h: string): seq<Field> {
    FieldsOf(Merge([], Lines(h)))
  }

  lemma LinesHead(x: string)
    requires x == "" || !IsBlank(x[0])
    ensures Lines(x) == [] || !Continues(Lines(x)[0])
  {
  }

  lemma HeadPrepend(h: string, raw: string)
    requires OpenBlock(h)
    ensures HeadOf(h + raw) == h + HeadOf(raw)
  {
    FindBlankLinePrepend(h, raw);
    hide FindBlankLine;
    var s, r := h + raw, FindBlankLine(raw);
    assert s[0] == h[0] && s[1] == h[1];
    if CRLFAt(raw, 0) {
      SlicePrepend(h, raw, 0);
    } else if r >= 0 {
      SlicePrepend(h, raw, r + 2);
    }
  }

  lemma BodyPrepend(h: string, raw: string)
    requires OpenBlock(h)
    ensures BodyOf(h + raw) == BodyOf(raw)
  {
    FindBlankLinePrepend(h, raw);
    hide FindBlankLine;
    var s, r := h + raw, FindBlankLine(raw);
    assert s[0] == h[0] && s[1] == h[1];
    if CRLFAt(raw, 0) {
      SlicePrepend(h, raw, 2);
    } else if r >= 0 {
      SlicePrepend(h, raw, r + 4);
    }
  }

  lemma SlicePrepend(h: string, raw: string, n: nat)
    requires n <= |raw|
    ensures (h + raw)[..|h| + n] == h + raw[..n]
    ensures (h + raw)[|h| + n..] == raw[n..]
  {
  }

  /** Splitting a message with a header block in front only prepends the block's fields. */
  lemma SplitPrepend(h: string, raw: string)
    requires OpenBlock(h)
    requires raw == "" || !IsBlank(raw[0])
    ensures MessageOf(h + raw) == Message(BlockFields(h) + MessageOf(raw).fields, MessageOf(raw).body)
  {
    var head := HeadOf(raw);
    HeadPrepend(h, raw);
    BodyPrepend(h, raw);
    hide HeadOf, BodyOf, Lines, Merge, FieldsOf, FindCRLF, FindBlankLine;
    LinesAppend(h, head);
    LinesHead(head);
    MergeAppend([], Lines(h), Lines(head));
    MergeKeeps(Merge([], Lines(h)), [], Lines(head));
    assert Merge([], Lines(h)) + [] == Merge([], Lines(h));
    FieldsOfAppend(Merge([], Lines(h)), Merge([], Lines(head)));
  }

  // ----- bodies -----

  /** No tab and no two spaces in a row. */
  predicate IsCompressed(s: string) {
    && (forall i :: 0 <= i < |s| ==> s[i] != '\t')
    && (forall i :: 0 <= i && i + 1 < |s| ==> !(s[i] == ' ' && s[i + 1] == ' '))
  }

  lemma {:induction false} CompressedIsCompressed(s: string)
    ensures IsCompressed(Compressed(s))
    ensures s != "" ==> Compressed(s) != "" && Compressed(s)[0] == (if IsBlank(s[0]) then ' ' else s[0])
  {
    if s != "" {
      CompressedIsCompressed(s[1..]);
    }
  }

  lemma {:induction false} CompressedFixed(s: string)
    requires IsCompressed(s)
    ensures Compressed(s) == s
  {
    if s != "" {
      assert forall i :: 0 <= i < |s[1..]| ==> s[1..][i] == s[i + 1];
      CompressedFixed(s[1..]);
    }
  }

  lemma {:induction false} CompressedNoCRLF(s: string)
    requires FindCRLF(s) < 0
    ensures FindCRLF(Compressed(s)) < 0
  {
    if s != "" {
      assert forall k :: 0 <= k < |s[1..]| ==> (CRLFAt(s[1..], k) ==> CRLFAt(s, k + 1));
      CompressedNoCRLF(s[1..]);
      var t := Compressed(s[1..]);
      CompressedIsCompressed(s[1..]);
      if !(IsBlank(s[0]) && |s| > 1 && IsBlank(s[1])) {
        assert !CRLFAt(s, 0);
        assert forall k :: 1 <= k < |Compressed(s)| ==> (CRLFAt(Compressed(s), k) <==> CRLFAt(t, k - 1));
        assert !CRLFAt(Compressed(s), 0);
      }
    }
  }

  lemma CanonBodyLineFixed(l: string, relaxed: bool)
    requires FindCRLF(l) < 0
    ensures FindCRLF(CanonBodyLine(l, relaxed)) < 0
    ensures CanonBodyLine(CanonBodyLine(l, relaxed), relaxed) == CanonBodyLine(l, relaxed)
  {
    if relaxed {
      CompressedNoCRLF(l);
      CompressedIsCompressed(l);
      hide FindCRLF, Compressed, TrimRightSpaceChar;
      var c := Compressed(l);
      var t := TrimRightSpaceChar(c);
      assert t == c[..|t|];
      PrefixNoCRLF(c, |t|);
      CompressedFixed(t);
      TrimmedRight(t);
    }
  }

  lemma PrefixNoCRLF(c: string, n: nat)
    requires n <= |c| && FindCRLF(c) < 0
    ensures FindCRLF(c[..n]) < 0
  {
    hide FindCRLF;
    assert forall k :: 0 <= k < n ==> (CRLFAt(c[..n], k) ==> CRLFAt(c, k));
  }

  lemma TrimmedRight(t: string)
    requires t == "" || t[|t| - 1] != ' '
    ensures TrimRightSpaceChar(t) == t
  {
  }

  lemma SplitLinesCons(x: string, rest: string)
    requires FindCRLF(x) < 0
    ensures SplitLines(x + CRLF + rest) == [x] + SplitLines(rest)
  {
    var s := x + CRLF + rest;
    assert CRLFAt(s, |x|);
    assert forall k :: 0 <= k < |x| - 1 ==> (CRLFAt(s, k) <==> CRLFAt(x, k));
    assert x != "" ==> !CRLFAt(s, |x| - 1);
    assert FindCRLF(s) == |x|;
    assert s[..|x|] == x && s[|x| + 2..] == rest;
  }

  lemma {:induction false} SplitLinesJoin(lines: seq<string>)
    requires lines != [] && forall l :: l in lines ==> FindCRLF(l) < 0
    ensures SplitLines(Join(lines, CRLF) + CRLF) == lines + [""]
  {
    if |lines| == 1 {
      assert Join(lines, CRLF) + CRLF == lines[0] + CRLF + "";
      SplitLinesCons(lines[0], "");
    } else {
      var rest := Join(lines[1..], CRLF) + CRLF;
      assert Join(lines, CRLF) + CRLF == lines[0] + CRLF + rest;
      SplitLinesCons(lines[0], rest);
      SplitLinesJoin(lines[1..]);
    }
  }

  lemma {:induction false} SplitLinesTrailing(body: string)
    ensures SplitLines(body + CRLF) == SplitLines(body) + [""]
    decreases |body|
  {
    hide FindCRLF;
    var i := FindCRLF(body);
    if i < 0 {
      assert body + CRLF == body + CRLF + "";
      SplitLinesCons(body, "");
      EmptyLines(body);
    } else {
      FindCRLFAppend(body, CRLF);
      assert (body + CRLF)[i + 2..] == body[i + 2..] + CRLF;
      assert (body + CRLF)[..i] == body[..i];
      SplitLinesTrailing(body[i + 2..]);
      assert [body[..i]] + (SplitLines(body[i + 2..]) + [""]) == [body[..i]] + SplitLines(body[i + 2..]) + [""];
    }
  }

  lemma EmptyLines(body: string)
    requires FindCRLF(body) < 0
    ensures SplitLines(body) == [body] && SplitLines("") == [""]
  {
  }

  lemma DropTrailingOne(lines: seq<string>)
    ensures DropTrailingEmpty(lines + [""]) == DropTrailingEmpty(lines)
  {
    assert (lines + [""])[..|lines|] == lines;
  }

  function BlankLines(n: nat): string {
    if n == 0 then "" else BlankLines(n - 1) + CRLF
  }

  lemma CanonBodyOneMore(b: string, relaxed: bool)
    ensures CanonBodyOf(b + CRLF, relaxed) == CanonBodyOf(b, relaxed)
  {
    SplitLinesTrailing(b);
    var split := SplitLines(b);
    hide SplitLines;
    var lines := CanonBodyLines(split, relaxed);
    assert CanonBodyLine("", relaxed) == "";
    assert CanonBodyLines(split + [""], relaxed) == lines + [""];
    DropTrailingOne(lines);
  }

  /** The canonical body does not depend on how many empty lines end the body. */
  lemma {:induction false} CanonBodyTrailingBlank(body: string, n: nat, relaxed: bool)
    ensures CanonBodyOf(body + BlankLines(n), relaxed) == CanonBodyOf(body, relaxed)
  {
    hide CanonBodyOf;
    if n == 0 {
      assert body + "" == body;
    } else {
      assert body + BlankLines(n) == body + BlankLines(n - 1) + CRLF;
      CanonBodyOneMore(body + BlankLines(n - 1), relaxed);
      CanonBodyTrailingBlank(body, n - 1, relaxed);
    }
  }

  /** Lines that canonicalising leaves as they are and that hold no line end. */
  ghost predicate CanonLines(lines: seq<string>, relaxed: bool) {
    forall l :: l in lines ==> FindCRLF(l) < 0 && CanonBodyLine(l, relaxed) == l
  }

  lemma SplitGivesCanonLines(body: string, relaxed: bool)
    ensures CanonLines(CanonBodyLines(SplitLines(body), relaxed), relaxed)
  {
    var split := SplitLines(body);
    var canon := CanonBodyLines(split, relaxed);
    forall l | l in canon
      ensures FindCRLF(l) < 0 && CanonBodyLine(l, relaxed) == l
    {
      var i :| 0 <= i < |canon| && canon[i] == l;
      assert split[i] in split;
      CanonBodyLineFixed(split[i], relaxed);
    }
  }

  lemma BodyTextCanon(kept: seq<string>, relaxed: bool)
    requires CanonLines(kept, relaxed) && kept != [] && kept[|kept| - 1] != ""
    ensures CanonBodyOf(BodyText(kept, relaxed), relaxed) == BodyText(kept, relaxed)
  {
    SplitLinesJoin(kept);
    assert CanonBodyLine("", relaxed) == "";
    forall i | 0 <= i < |kept|
      ensures CanonBodyLine(kept[i], relaxed) == kept[i]
    {
      assert kept[i] in kept;
    }
    assert CanonBodyLines(kept + [""], relaxed) == kept + [""];
    DropTrailingOne(kept);
  }

  /** Canonicalising a canonical body changes nothing. */
  lemma CanonBodyTwice(body: string, relaxed: bool)
    ensures CanonBodyOf(CanonBodyOf(body, relaxed), relaxed) == CanonBodyOf(body, relaxed)
  {
    var canon := CanonBodyLines(SplitLines(body), relaxed);
    var kept := DropTrailingEmpty(canon);
    SplitGivesCanonLines(body, relaxed);
    if kept == [] {
      EmptyBody(relaxed);
    } else {
      assert forall l :: l in kept ==> l in canon;
      BodyTextCanon(kept, relaxed);
    }
  }

  lemma EmptyBody(relaxed: bool)
    ensures CanonBodyOf("", relaxed) == BodyText([], relaxed)
    ensures CanonBodyOf(CRLF, relaxed) == BodyText([], relaxed)
  {
    assert SplitLines("") == [""];
    assert "" + BlankLines(1) == CRLF by { assert BlankLines(0) == ""; assert "" + CRLF == CRLF; }
    assert CanonBodyLines([""], relaxed) == [""];
    DropTrailingOne([]);
    assert [] + [""] == [""];
    CanonBodyTrailingBlank("", 1, relaxed);
  }
}
