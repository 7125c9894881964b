// The canonical body, rule by rule, without the functions that compute it line by line
// (RFC 6376, sections 3.4.3 and 3.4.4).

module ArcBodyRules {
  import opened Options
  import opened Text
  import opened ArcCanon
  import opened ArcCanonLaws

  predicate Blanks(w: string) {
    forall i :: 0 <= i < |w| ==> IsBlank(w[i])
  }

  predicate EndsWithCRLF(s: string) {
    CRLFAt(s, |s| - 2)
  }

  // ----- joining texts line by line -----

  predicate SplitsCRLF(a: string, b: string) {
    a != "" && b != "" && a[|a| - 1] == '\r' && b[0] == '\n'
  }

  lemma FindCRLFBehind(a: string, b: string)
    requires !SplitsCRLF(a, b) && FindCRLF(a) < 0
    ensures FindCRLF(a + b) == if FindCRLF(b) < 0 then -1 else |a| + FindCRLF(b)
  {
    var s, j := a + b, FindCRLF(b);
    assert forall k :: 0 <= k < |a| - 1 ==> (CRLFAt(s, k) <==> CRLFAt(a, k));
    assert a != "" ==> !CRLFAt(s, |a| - 1);
    assert forall k :: 0 <= k < |b| ==> (CRLFAt(s, |a| + k) <==> CRLFAt(b, k));
    forall k | 0 <= k < |a| + (if j < 0 then |b| else j)
      ensures !CRLFAt(s, k)
    {
      if k >= |a| {
        assert CRLFAt(s, |a| + (k - |a|)) <==> CRLFAt(b, k - |a|);
      }
    }
    if j >= 0 {
      assert CRLFAt(s, |a| + j);
    }
  }

  /** The lines of two texts put together: the last of the one and the first of the other are one line. */
  function Glued(p: seq<string>, q: seq<string>): seq<string>
    requires p != [] && q != []
  {
    p[..|p| - 1] + [p[|p| - 1] + q[0]] + q[1..]
  }

  lemma GluedCons(l: string, p: seq<string>, q: seq<string>)
    requires p != [] && q != []
    ensures Glued([l] + p, q) == [l] + Glued(p, q)
  {
    assert ([l] + p)[..|p|] == [l] + p[..|p| - 1];
  }

  lemma {:induction false} SplitLinesConcat(a: string, b: string)
    requires !SplitsCRLF(a, b)
    ensures SplitLines(a + b) == Glued(SplitLines(a), SplitLines(b))
    decreases |a|
  {
    if FindCRLF(a) >= 0 {
      var l, rest := CutLine(a);
      assert rest != "" ==> a[|a| - 1] == rest[|rest| - 1];
      hide SplitLines, FindCRLF, Glued;
      SplitLinesConcat(rest, b);
      assert l + CRLF + rest + b == l + CRLF + (rest + b);
      SplitLinesCons(l, rest + b);
      GluedCons(l, SplitLines(rest), SplitLines(b));
    } else {
      LineBefore(a, b);
    }
  }

  lemma GluedFirst(a: string, l: string, q: seq<string>)
    ensures Glued([a], [l] + q) == [a + l] + q
  {
    assert ([l] + q)[1..] == q && [a][..0] == [];
  }

  lemma LineBefore(a: string, b: string)
    requires !SplitsCRLF(a, b) && FindCRLF(a) < 0
    ensures SplitLines(a + b) == Glued(SplitLines(a), SplitLines(b))
  {
    hide SplitLines, FindCRLF, SplitsCRLF, CRLFAt, Glued;
    EmptyLines(a);
    FindCRLFBehind(a, b);
    if FindCRLF(b) < 0 {
      EmptyLines(b);
      EmptyLines(a + b);
      GluedFirst(a, b, []);
      assert [b] + [] == [b] && [a + b] + [] == [a + b];
    } else {
      var l, rest := CutLine(b);
      FirstIsLine(a, l, rest);
      AppendAssoc(a, l + CRLF, rest);
      AppendAssoc(a, l, CRLF);
      SplitLinesCons(a + l, rest);
      GluedFirst(a, l, SplitLines(rest));
    }
  }

  lemma FirstIsLine(a: string, l: string, rest: string)
    requires FindCRLF(a) < 0 && FindCRLF(l) < 0 && !SplitsCRLF(a, l + CRLF + rest)
    ensures FindCRLF(a + l) < 0
  {
    hide FindCRLF;
    assert l != "" ==> (l + CRLF + rest)[0] == l[0];
    FindCRLFBehind(a, l);
  }

  lemma CutLine(s: string) returns (l: string, rest: string)
    requires FindCRLF(s) >= 0
    ensures FindCRLF(l) < 0 && s == l + CRLF + rest && SplitLines(s) == [l] + SplitLines(rest) && |rest| < |s|
  {
    hide FindCRLF, SplitLines;
    var i := FindCRLF(s);
    l, rest := s[..i], s[i + 2..];
    PrefixOfLine(s, i);
    assert s == s[..i] + s[i..i + 2] + s[i + 2..];
    SplitLinesCons(l, rest);
  }

  lemma PrefixOfLine(s: string, i: nat)
    requires i == FindCRLF(s)
    ensures FindCRLF(s[..i]) < 0
  {
    hide FindCRLF;
    assert forall k :: 0 <= k < i ==> (CRLFAt(s[..i], k) ==> CRLFAt(s, k));
  }

  /** Two bodies with the same lines but for one have the same canonical form if that line has. */
  lemma OneLineApart(before: seq<string>, x: string, y: string, after: seq<string>, a: string, b: string)
    requires SplitLines(a) == before + [x] + after && SplitLines(b) == before + [y] + after
    requires CanonBodyLine(x, true) == CanonBodyLine(y, true)
    ensures CanonBodyOf(a, true) == CanonBodyOf(b, true)
  {
    hide CanonBodyLine, SplitLines;
    assert CanonBodyLines(before + [x] + after, true) == CanonBodyLines(before + [y] + after, true);
  }

  // ----- runs of blanks -----

  lemma {:induction false} CompressedBlanks(w: string, y: string)
    requires Blanks(w) && w != ""
    ensures Compressed(w + y) == Compressed(" " + y)
  {
    if |w| == 1 {
      assert w + y == [w[0]] + y;
      BlankHead(w[0], y);
    } else {
      assert (w + y)[0] == w[0] && (w + y)[1] == w[1] && (w + y)[1..] == w[1..] + y;
      CompressedBlanks(w[1..], y);
    }
  }

  lemma {:induction false} CompressedRun(x: string, w: string, y: string)
    requires Blanks(w) && w != ""
    ensures Compressed(x + w + y) == Compressed(x + " " + y)
  {
    if x == "" {
      assert x + w + y == w + y && x + " " + y == " " + y;
      CompressedBlanks(w, y);
    } else {
      var s, t := x + w + y, x + " " + y;
      assert s[0] == x[0] == t[0] && s[1..] == x[1..] + w + y && t[1..] == x[1..] + " " + y;
      assert |s| > 1 && |t| > 1 && (IsBlank(s[1]) <==> IsBlank(t[1]));
      CompressedRun(x[1..], w, y);
    }
  }

  lemma CompressedStep(s: string)
    ensures Compressed(s) ==
            if s == "" then ""
            else if !IsBlank(s[0]) then [s[0]] + Compressed(s[1..])
            else if |s| > 1 && IsBlank(s[1]) then Compressed(s[1..])
            else " " + Compressed(s[1..])
  {
  }

  lemma {:induction false} CompressedLast(x: string)
    ensures Compressed(x + " ") == if x != "" && IsBlank(x[|x| - 1]) then Compressed(x) else Compressed(x) + " "
    ensures x != "" && IsBlank(x[|x| - 1]) ==> Compressed(x) != "" && Compressed(x)[|Compressed(x)| - 1] == ' '
  {
    hide Compressed;
    var s := x + " ";
    CompressedStep(s);
    CompressedStep(x);
    CompressedStep("");
    if x == "" {
      assert s[1..] == "";
    } else {
      assert s[0] == x[0] && s[1..] == x[1..] + " " && s[1] == if |x| == 1 then ' ' else x[1];
      CompressedLast(x[1..]);
      CompressedStep(x[1..]);
      AppendAssoc([x[0]], Compressed(x[1..]), " ");
      AppendAssoc(" ", Compressed(x[1..]), " ");
    }
  }

  lemma TrimLast(c: string)
    ensures TrimRightSpaceChar(c + " ") == TrimRightSpaceChar(c)
  {
    assert (c + " ")[..|c|] == c;
  }

  lemma LineBlanks(x: string, w: string)
    requires Blanks(w)
    ensures CanonBodyLine(x + w, true) == CanonBodyLine(x, true)
  {
    hide Compressed, TrimRightSpaceChar;
    if w == "" {
      assert x + w == x;
    } else {
      assert x + w + "" == x + w && x + " " + "" == x + " ";
      CompressedRun(x, w, "");
      CompressedLast(x);
      TrimLast(Compressed(x));
    }
  }

  lemma BlankEdges(a: string, w: string, b: string)
    requires Blanks(w) && w != ""
    ensures !SplitsCRLF(a, w + b) && !SplitsCRLF(w, b) && SplitLines(w) == [w]
  {
    assert w[0] in w && w[|w| - 1] in w;
    assert forall k :: 0 <= k < |w| ==> !CRLFAt(w, k);
  }

  /** The lines of a text with blanks somewhere in it. */
  lemma LinesAround(a: string, w: string, b: string)
    requires Blanks(w) && w != ""
    ensures var p, q := SplitLines(a), SplitLines(b);
            SplitLines(a + w + b) == p[..|p| - 1] + [p[|p| - 1] + w + q[0]] + q[1..]
  {
    hide SplitLines, SplitsCRLF, FindCRLF;
    BlankEdges(a, w, b);
    var p, q := SplitLines(a), SplitLines(b);
    SplitLinesConcat(w, b);
    SplitLinesConcat(a, w + b);
    assert a + w + b == a + (w + b);
    assert Glued([w], q) == [w + q[0]] + q[1..];
    assert p[|p| - 1] + (w + q[0]) == p[|p| - 1] + w + q[0];
  }

  /** Relaxed: a run of blanks counts as one space, wherever it stands. */
  lemma BlankRunIsOneSpace(a: string, w: string, b: string)
    requires Blanks(w) && w != ""
    ensures CanonBodyOf(a + w + b, true) == CanonBodyOf(a + " " + b, true)
  {
    hide CanonBodyOf, SplitLines, Compressed, TrimRightSpaceChar;
    var p, q := SplitLines(a), SplitLines(b);
    LinesAround(a, w, b);
    LinesAround(a, " ", b);
    CompressedRun(p[|p| - 1], w, q[0]);
    OneLineApart(p[..|p| - 1], p[|p| - 1] + w + q[0], p[|p| - 1] + " " + q[0], q[1..], a + w + b, a + " " + b);
  }

  lemma LineEndLines(b: string)
    ensures SplitLines(CRLF + b) == [""] + SplitLines(b)
  {
    EmptyLines("");
    assert "" + CRLF + b == CRLF + b;
    SplitLinesCons("", b);
  }

  /** Relaxed: blanks at the end of a line do not count. */
  lemma BlanksBeforeLineEnd(a: string, w: string, b: string)
    requires Blanks(w)
    ensures CanonBodyOf(a + w + CRLF + b, true) == CanonBodyOf(a + CRLF + b, true)
  {
    hide CanonBodyOf, SplitLines, CanonBodyLine;
    assert a + w + CRLF + b == a + w + (CRLF + b) && a + CRLF + b == a + (CRLF + b);
    if w == "" {
      assert a + w == a;
    } else {
      var p, q := SplitLines(a), SplitLines(b);
      LineEndLines(b);
      LinesAround(a, w, CRLF + b);
      SplitLinesConcat(a, CRLF + b);
      var x := p[|p| - 1];
      assert x + w + "" == x + w && x + "" == x;
      LineBlanks(x, w);
      OneLineApart(p[..|p| - 1], x + w, x, q, a + w + (CRLF + b), a + (CRLF + b));
    }
  }

  /** Relaxed: nor do those at the very end. */
  lemma BlanksAtEnd(a: string, w: string)
    requires Blanks(w)
    ensures CanonBodyOf(a + w, true) == CanonBodyOf(a, true)
  {
    hide CanonBodyOf, SplitLines, CanonBodyLine;
    if w == "" {
      assert a + w == a;
    } else {
      var p := SplitLines(a);
      EmptyLines("");
      LinesAround(a, w, "");
      var x := p[|p| - 1];
      assert a + w + "" == a + w && x + w + "" == x + w;
      LineBlanks(x, w);
      assert p == p[..|p| - 1] + [x] + [];
      OneLineApart(p[..|p| - 1], x + w, x, [], a + w, a);
    }
  }

  // ----- what a canonical body looks like -----

  predicate SpaceAtEndOfLine(s: string, i: int) {
    0 <= i < |s| && s[i] == ' ' && CRLFAt(s, i + 1)
  }

  /** No tab, no two spaces in a row, no space at the end of a line. */
  ghost predicate Tidy(s: string) {
    IsCompressed(s) && forall i :: !SpaceAtEndOfLine(s, i)
  }

  /** Whole lines, the last of them not empty. */
  predicate WholeLines(s: string) {
    |s| > 2 && EndsWithCRLF(s) && !EndsWithCRLF(s[..|s| - 2])
  }

  /** A relaxed canonical body. */
  ghost predicate RelaxedForm(s: string) {
    s == "" || (WholeLines(s) && Tidy(s))
  }

  predicate TidyLine(l: string) {
    FindCRLF(l) < 0 && IsCompressed(l) && (l == "" || l[|l| - 1] != ' ')
  }

  lemma TidyIsFixed(l: string)
    requires TidyLine(l)
    ensures CanonBodyLine(l, true) == l
  {
    CompressedFixed(l);
    TrimmedRight(l);
  }

  lemma CanonIsTidy(l: string)
    requires FindCRLF(l) < 0
    ensures TidyLine(CanonBodyLine(l, true))
  {
    hide FindCRLF, Compressed, TrimRightSpaceChar;
    CompressedNoCRLF(l);
    CompressedIsCompressed(l);
    var c := Compressed(l);
    var t := TrimRightSpaceChar(c);
    assert t == c[..|t|];
    PrefixNoCRLF(c, |t|);
  }

  lemma SpaceBehind(l: string, rest: string, i: int)
    requires i >= 0
    ensures SpaceAtEndOfLine(l + CRLF + rest, |l| + 2 + i) <==> SpaceAtEndOfLine(rest, i)
  {
    var s, n := l + CRLF + rest, |l| + 2;
    assert forall k :: 0 <= k < |rest| ==> s[n + k] == rest[k];
  }

  lemma SpaceInLine(l: string, rest: string, i: int)
    requires TidyLine(l) && i < |l| + 2
    ensures !SpaceAtEndOfLine(l + CRLF + rest, i)
  {
    hide FindCRLF, IsCompressed;
    var s := l + CRLF + rest;
    assert s[|l|] == '\r' && s[|l| + 1] == '\n';
    assert forall k :: 0 <= k < |l| ==> s[k] == l[k];
    assert i >= 0 && i + 2 < |l| ==> (CRLFAt(s, i + 1) <==> CRLFAt(l, i + 1));
  }

  lemma CompressedJoin(l: string, rest: string)
    requires IsCompressed(l)
    ensures IsCompressed(l + CRLF + rest) <==> IsCompressed(rest)
  {
    var s, n := l + CRLF + rest, |l| + 2;
    assert s[|l|] == '\r' && s[|l| + 1] == '\n';
    assert forall k :: 0 <= k < |l| ==> s[k] == l[k];
    assert forall k :: 0 <= k < |rest| ==> s[n + k] == rest[k];
    if IsCompressed(s) {
      assert forall k :: 0 <= k < |rest| ==> rest[k] == s[n + k] && s[n + k] != '\t';
      forall k | 0 <= k && k + 1 < |rest|
        ensures !(rest[k] == ' ' && rest[k + 1] == ' ')
      {
        assert !(s[n + k] == ' ' && s[n + k + 1] == ' ');
      }
    }
  }

  lemma TidyJoin(l: string, rest: string)
    requires TidyLine(l)
    ensures Tidy(l + CRLF + rest) <==> Tidy(rest)
  {
    hide FindCRLF, IsCompressed, SpaceAtEndOfLine;
    CompressedJoin(l, rest);
    var s, n := l + CRLF + rest, |l| + 2;
    forall i
      ensures i < n ==> !SpaceAtEndOfLine(s, i)
      ensures i >= n ==> (SpaceAtEndOfLine(s, i) <==> SpaceAtEndOfLine(rest, i - n))
    {
      if i < n {
        SpaceInLine(l, rest, i);
      } else {
        SpaceBehind(l, rest, i - n);
      }
    }
    forall i
      ensures SpaceAtEndOfLine(rest, i) ==> SpaceAtEndOfLine(s, n + i)
    {
      if i >= 0 {
        SpaceBehind(l, rest, i);
      } else {
        NoSpaceBefore(rest, i);
      }
    }
  }

  lemma NoSpaceBefore(s: string, i: int)
    ensures i < 0 ==> !SpaceAtEndOfLine(s, i)
  {
  }

  lemma {:induction false} TidyText(lines: seq<string>)
    requires lines != [] && forall l :: l in lines ==> TidyLine(l)
    ensures Tidy(Join(lines, CRLF) + CRLF)
  {
    hide TidyLine, Tidy;
    assert Tidy("") by { NothingTidy(); }
    if |lines| == 1 {
      assert Join(lines, CRLF) + CRLF == lines[0] + CRLF + "";
      TidyJoin(lines[0], "");
    } else {
      var rest := Join(lines[1..], CRLF) + CRLF;
      assert Join(lines, CRLF) + CRLF == lines[0] + CRLF + rest;
      TidyText(lines[1..]);
      TidyJoin(lines[0], rest);
    }
  }

  lemma NothingTidy()
    ensures Tidy("")
  {
  }

  lemma TidyHead(l: string, rest: string)
    requires FindCRLF(l) < 0 && Tidy(l + CRLF + rest)
    ensures TidyLine(l)
  {
    hide FindCRLF;
    var s := l + CRLF + rest;
    assert forall k :: 0 <= k < |l| ==> s[k] == l[k];
    assert s[|l|] == '\r' && s[|l| + 1] == '\n';
    assert !SpaceAtEndOfLine(s, |l| - 1);
  }

  lemma EndOfBoth(l: string, rest: string)
    ensures EndsWithCRLF(l + CRLF + rest) <==> rest == "" || EndsWithCRLF(rest)
  {
    var s := l + CRLF + rest;
    assert s[|l|] == '\r' && s[|l| + 1] == '\n';
    if |rest| > 1 {
      assert s[|s| - 2] == rest[|rest| - 2] && s[|s| - 1] == rest[|rest| - 1];
    }
  }

  lemma {:induction false} TidyLines(s: string)
    requires Tidy(s) && (s == "" || EndsWithCRLF(s))
    ensures forall l :: l in SplitLines(s) ==> TidyLine(l)
    decreases |s|
  {
    if s == "" {
      EmptyLines(s);
    } else {
      assert FindCRLF(s) >= 0;
      var l, rest := CutLine(s);
      hide SplitLines, TidyLine, Tidy, FindCRLF;
      EndOfBoth(l, rest);
      TidyHead(l, rest);
      TidyJoin(l, rest);
      TidyLines(rest);
    }
  }

  lemma {:induction false} JoinSplit(s: string)
    ensures Join(SplitLines(s), CRLF) == s
    decreases |s|
  {
    if FindCRLF(s) < 0 {
      EmptyLines(s);
    } else {
      var l, rest := CutLine(s);
      JoinSplit(rest);
      hide SplitLines;
      assert ([l] + SplitLines(rest))[1..] == SplitLines(rest);
    }
  }

  lemma {:induction false} LastLine(s: string)
    ensures var p := SplitLines(s); p[|p| - 1] == "" <==> s == "" || EndsWithCRLF(s)
    decreases |s|
  {
    hide FindCRLF, SplitLines, EndsWithCRLF;
    if FindCRLF(s) < 0 {
      EmptyLines(s);
      NoEnd(s);
    } else {
      var l, rest := CutLine(s);
      LastLine(rest);
      EndOfBoth(l, rest);
    }
  }

  lemma NoEnd(s: string)
    requires FindCRLF(s) < 0
    ensures !EndsWithCRLF(s)
  {
    hide FindCRLF;
    assert |s| >= 2 ==> !CRLFAt(s, |s| - 2);
  }

  /** A text that has lines, and whose last line is not empty, is put together again. */
  lemma LinesKept(core: string, relaxed: bool)
    requires core != "" && !EndsWithCRLF(core)
    requires forall l :: l in SplitLines(core) ==> CanonBodyLine(l, relaxed) == l
    ensures CanonBodyOf(core + CRLF, relaxed) == core + CRLF
  {
    hide SplitLines, CanonBodyLine, FindCRLF, CanonBodyOf;
    CanonBodyOneMore(core, relaxed);
    LastLine(core);
    JoinSplit(core);
    var p := SplitLines(core);
    assert forall i :: 0 <= i < |p| ==> p[i] in p;
    assert CanonBodyLines(p, relaxed) == p;
    LinesBody(core, p, relaxed);
  }

  lemma LinesBody(core: string, p: seq<string>, relaxed: bool)
    requires p == SplitLines(core) && CanonBodyLines(p, relaxed) == p && p[|p| - 1] != ""
    ensures CanonBodyOf(core, relaxed) == Join(p, CRLF) + CRLF
  {
    hide SplitLines, CanonBodyLine, CanonBodyLines, Join;
  }

  lemma SameEnd(core: string)
    ensures EndsWithCRLF(core + CRLF) && (core + CRLF)[..|core|] == core
  {
  }

  lemma CoreOf(s: string) returns (core: string)
    requires WholeLines(s)
    ensures s == core + CRLF && core != "" && !EndsWithCRLF(core)
  {
    core := s[..|s| - 2];
  }

  /** Relaxed: every canonical body has this form, and a body is its own canonical form exactly if it has. With the rules
      for blanks and for the end of the body that leaves no freedom: the rules bring every body into this form. */
  lemma RelaxedFormExactly(body: string)
    ensures RelaxedForm(CanonBodyOf(body, true))
    ensures CanonBodyOf(body, true) == body <==> RelaxedForm(body)
  {
    hide CanonBodyOf, RelaxedForm;
    CanonHasForm(body);
    if RelaxedForm(body) {
      FormIsFixed(body);
    }
  }

  lemma FormIsFixed(s: string)
    requires RelaxedForm(s)
    ensures CanonBodyOf(s, true) == s
  {
    if s == "" {
      EmptyBody(true);
    } else {
      var core := CoreOf(s);
      TidyLines(s);
      SplitLinesTrailing(core);
      hide SplitLines, CanonBodyOf, TidyLine;
      forall l | l in SplitLines(core)
        ensures CanonBodyLine(l, true) == l
      {
        assert l in SplitLines(s);
        TidyIsFixed(l);
      }
      LinesKept(core, true);
    }
  }

  lemma CanonHasForm(body: string)
    ensures RelaxedForm(CanonBodyOf(body, true))
  {
    var split := SplitLines(body);
    var canon := CanonBodyLines(split, true);
    var kept := DropTrailingEmpty(canon);
    forall l | l in canon
      ensures TidyLine(l)
    {
      var i :| 0 <= i < |canon| && canon[i] == l;
      assert split[i] in split;
      CanonIsTidy(split[i]);
    }
    hide CanonBodyLine, CanonBodyLines, DropTrailingEmpty, SplitLines;
    if kept != [] {
      assert forall l :: l in kept ==> l in canon;
      TidyForm(kept);
    }
  }

  lemma TidyForm(kept: seq<string>)
    requires kept != [] && kept[|kept| - 1] != "" && forall l :: l in kept ==> TidyLine(l)
    ensures RelaxedForm(Join(kept, CRLF) + CRLF)
  {
    TidyText(kept);
    assert forall l :: l in kept ==> FindCRLF(l) < 0 by { hide FindCRLF, IsCompressed; }
    hide TidyLine, Tidy, FindCRLF;
    KeptLines(kept);
    hide Join;
  }

  lemma KeptLines(kept: seq<string>)
    requires kept != [] && kept[|kept| - 1] != "" && forall l :: l in kept ==> FindCRLF(l) < 0
    ensures WholeLines(Join(kept, CRLF) + CRLF)
  {
    hide *;
    var core := Join(kept, CRLF);
    JoinedLines(kept, core);
    LastLine(core);
    WholeIs(core);
  }

  lemma JoinedLines(kept: seq<string>, core: string)
    requires kept != [] && core == Join(kept, CRLF) && forall l :: l in kept ==> FindCRLF(l) < 0
    ensures SplitLines(core) == kept
  {
    hide *;
    SplitLinesJoin(kept);
    SplitLinesTrailing(core);
    SameInit(SplitLines(core), kept);
  }

  lemma SameInit(p: seq<string>, q: seq<string>)
    requires p + [""] == q + [""]
    ensures p == q
  {
    assert p == (p + [""])[..|p|] && q == (q + [""])[..|q|];
    assert |p + [""]| == |q + [""]|;
  }

  lemma WholeIs(core: string)
    requires core != "" && !EndsWithCRLF(core)
    ensures WholeLines(core + CRLF)
  {
    hide EndsWithCRLF;
    SameEnd(core);
  }

  // ----- simple canonicalisation -----

  /** Simple: only the empty lines at the end change, and become none; the body gets a line end if it has none. */
  lemma {:induction false} SimpleExactly(core: string, n: nat)
    requires !EndsWithCRLF(core)
    ensures CanonBodyOf(core + BlankLines(n), false) == core + CRLF
  {
    CanonBodyTrailingBlank(core, n, false);
    if core == "" {
      EmptyBody(false);
      assert core + CRLF == CRLF;
    } else {
      CanonBodyOneMore(core, false);
      LinesKept(core, false);
    }
  }

  /** Every body is of that kind. */
  lemma {:induction false} BlankLinesCut(body: string) returns (core: string, n: nat)
    ensures body == core + BlankLines(n) && !EndsWithCRLF(core)
    decreases |body|
  {
    if EndsWithCRLF(body) {
      core, n := BlankLinesCut(body[..|body| - 2]);
      assert body == body[..|body| - 2] + CRLF;
      assert core + BlankLines(n + 1) == core + BlankLines(n) + CRLF;
      n := n + 1;
    } else {
      core, n := body, 0;
      assert core + "" == body;
    }
  }
}
