// Two tag lists with the same signed canonical text agree on every tag that holds no space.

module ArcTagDecoding {
  import opened Options
  import opened Text
  import opened ArcCanon
  import opened ArcCanonLaws
  import opened ArcTags
  import opened ArcDecoding

  // ----- trimming -----

  lemma TrimSpaceCons(c: char, s: string)
    requires IsSpace(c)
    ensures TrimSpace([c] + s) == TrimSpace(s)
  {
    TrimLeftSpace(c, s);
  }

  lemma {:induction false} TrimLeftSnoc(s: string, c: char)
    requires IsSpace(c)
    ensures TrimLeft(s + [c]) == if TrimLeft(s) == "" then "" else TrimLeft(s) + [c]
  {
    if s == "" {
      assert s + [c] == [c] + "";
      TrimLeftSpace(c, "");
    } else if IsSpace(s[0]) {
      assert s + [c] == [s[0]] + (s[1..] + [c]);
      TrimLeftSpace(s[0], s[1..] + [c]);
      TrimLeftSnoc(s[1..], c);
    }
  }

  lemma TrimRightSnoc(s: string, c: char)
    requires IsSpace(c)
    ensures TrimRight(s + [c]) == TrimRight(s)
  {
    assert (s + [c])[..|s|] == s;
  }

  lemma TrimSpaceSnoc(s: string, c: char)
    requires IsSpace(c)
    ensures TrimSpace(s + [c]) == TrimSpace(s)
  {
    TrimLeftSnoc(s, c);
    hide TrimLeft, TrimRight;
    TrimRightSnoc(TrimLeft(s), c);
    assert TrimRight("") == "" by { TrimTrimmed(""); assert TrimLeft("") == "" by { TrimLeftEmpty(); } }
  }

  lemma TrimLeftEmpty()
    ensures TrimLeft("") == ""
  {
  }

  // ----- trimming the whole trims only the outer parts -----

  ghost predicate SameTrimmed(a: seq<string>, b: seq<string>) {
    |a| == |b| && forall i :: 0 <= i < |a| ==> TrimSpace(a[i]) == TrimSpace(b[i])
  }

  lemma {:induction false} SplitTrimLeft(s: string)
    ensures SameTrimmed(Split(TrimLeft(s), ';'), Split(s, ';'))
  {
    if s != "" && IsSpace(s[0]) {
      var r := s[1..];
      SplitTrimLeft(r);
      SplitPrepended(s[0], r);
      assert s == [s[0]] + r;
      TrimSpaceCons(s[0], Split(r, ';')[0]);
      hide Split, TrimSpace;
    }
  }

  lemma SplitPrepended(c: char, s: string)
    requires c != ';'
    ensures Split([c] + s, ';') == [[c] + Split(s, ';')[0]] + Split(s, ';')[1..]
  {
    hide Split;
    if ';' !in s {
      SplitWhole(s, ';');
      SplitWhole([c] + s, ';');
    } else {
      var a, b := CutAt(s, ';');
      SplitCons(a, b, ';');
      assert [c] + (a + [';'] + b) == ([c] + a) + [';'] + b;
      SplitCons([c] + a, b, ';');
    }
  }

  /** A byte appended to the last part. */
  function AppendedLast(p: seq<string>, c: char): seq<string> {
    if p == [] then [] else p[..|p| - 1] + [p[|p| - 1] + [c]]
  }

  lemma AppendedLastCons(a: string, p: seq<string>, c: char)
    requires p != []
    ensures AppendedLast([a] + p, c) == [a] + AppendedLast(p, c)
  {
    assert ([a] + p)[..|p|] == [a] + p[..|p| - 1];
  }

  lemma SplitAppendedStep(a: string, b: string, c: char)
    requires ';' !in a && Split(b + [c], ';') == AppendedLast(Split(b, ';'), c)
    ensures Split(a + [';'] + b + [c], ';') == AppendedLast(Split(a + [';'] + b, ';'), c)
  {
    assert Split(b, ';') != [];
    hide Split, AppendedLast;
    assert a + [';'] + b + [c] == a + [';'] + (b + [c]);
    SplitCons(a, b, ';');
    SplitCons(a, b + [c], ';');
    AppendedLastCons(a, Split(b, ';'), c);
  }

  lemma {:induction false} SplitAppended(s: string, c: char)
    requires c != ';'
    ensures Split(s + [c], ';') == AppendedLast(Split(s, ';'), c)
    decreases |s|
  {
    hide Split;
    if ';' !in s {
      SplitWhole(s, ';');
      SplitWhole(s + [c], ';');
      assert AppendedLast([s], c) == [s + [c]];
    } else {
      var a, b := CutAt(s, ';');
      SplitAppended(b, c);
      SplitAppendedStep(a, b, c);
    }
  }

  lemma SameTrimmedLast(q: seq<string>, p: seq<string>, c: char)
    requires SameTrimmed(q, p) && p != [] && IsSpace(c)
    ensures SameTrimmed(q, AppendedLast(p, c))
  {
    hide TrimSpace;
    TrimSpaceSnoc(p[|p| - 1], c);
  }

  lemma {:induction false} SplitTrimRight(s: string)
    ensures SameTrimmed(Split(TrimRight(s), ';'), Split(s, ';'))
    decreases |s|
  {
    if s != "" && IsSpace(s[|s| - 1]) {
      var r, c := s[..|s| - 1], s[|s| - 1];
      assert TrimRight(s) == TrimRight(r);
      hide Split, TrimSpace, TrimRight, SameTrimmed, AppendedLast;
      SplitTrimRight(r);
      SplitAppended(r, c);
      assert s == r + [c];
      SameTrimmedLast(Split(TrimRight(r), ';'), Split(r, ';'), c);
    } else {
      assert TrimRight(s) == s;
    }
  }

  lemma SplitTrimSpace(s: string)
    ensures SameTrimmed(Split(TrimSpace(s), ';'), Split(s, ';'))
  {
    hide Split, TrimLeft, TrimRight;
    SplitTrimLeft(s);
    SplitTrimRight(TrimLeft(s));
  }

  // ----- compressing and trimming commute -----

  lemma {:induction false} CompressedSnoc(s: string, c: char)
    ensures IsBlank(c) ==> Compressed(s + [c]) == Compressed(s) || Compressed(s + [c]) == Compressed(s) + " "
    ensures !IsBlank(c) ==> Compressed(s + [c]) == Compressed(s) + [c]
  {
    if s == "" {
      assert s + [c] == [c] && [c][1..] == "";
    } else {
      assert (s + [c])[1..] == s[1..] + [c] && (s + [c])[0] == s[0];
      CompressedSnoc(s[1..], c);
      if |s| == 1 {
        assert s[1..] == "" && s[1..] + [c] == [c];
        assert [c][1..] == "";
      } else {
        assert (s + [c])[1] == s[1];
      }
    }
  }

  lemma TrimCompressedCons(c: char, s: string)
    requires IsSpace(c)
    ensures TrimSpace(Compressed([c] + s)) == TrimSpace(Compressed(s))
  {
    assert ([c] + s)[1..] == s;
    hide TrimSpace;
    TrimSpaceCons(c, Compressed(s));
    TrimSpaceCons(' ', Compressed(s));
    assert [' '] + Compressed(s) == " " + Compressed(s);
  }

  lemma TrimCompressedSnoc(s: string, c: char)
    requires IsSpace(c)
    ensures TrimSpace(Compressed(s + [c])) == TrimSpace(Compressed(s))
  {
    CompressedSnoc(s, c);
    hide TrimSpace, Compressed;
    TrimSpaceSnoc(Compressed(s), c);
    TrimSpaceSnoc(Compressed(s), ' ');
    assert Compressed(s) + [' '] == Compressed(s) + " ";
  }

  lemma {:induction false} CompressedTrimmed(s: string)
    requires Trimmed(s)
    ensures Trimmed(Compressed(s))
    ensures s != "" ==> Compressed(s) != "" && Compressed(s)[0] == s[0] && Compressed(s)[|Compressed(s)| - 1] == s[|s| - 1]
  {
    CompressedIsCompressed(s);
    if s != "" {
      assert s == s[..|s| - 1] + [s[|s| - 1]];
      CompressedSnoc(s[..|s| - 1], s[|s| - 1]);
    }
  }

  lemma {:induction false} TrimCompressed(s: string)
    ensures TrimSpace(Compressed(s)) == Compressed(TrimSpace(s))
    decreases |s|
  {
    if s != "" && IsSpace(s[0]) {
      assert s == [s[0]] + s[1..];
      TrimCompressedCons(s[0], s[1..]);
      TrimSpaceCons(s[0], s[1..]);
      TrimCompressed(s[1..]);
    } else if s != "" && IsSpace(s[|s| - 1]) {
      var r, c := s[..|s| - 1], s[|s| - 1];
      assert s == r + [c];
      TrimCompressedSnoc(r, c);
      TrimSpaceSnoc(r, c);
      TrimCompressed(r);
    } else {
      CompressedTrimmed(s);
      TrimTrimmed(s);
      TrimTrimmed(Compressed(s));
    }
  }

  // ----- a stripped part starts with b -----

  lemma {:induction false} TrimSkipped(w: string, rest: string)
    requires forall i :: 0 <= i < |w| ==> IsBlank(w[i]) || IsLineEnd(w[i])
    ensures TrimSpace(RemoveLineEnds(w + rest)) == TrimSpace(RemoveLineEnds(rest))
  {
    if w == "" {
      assert w + rest == rest;
    } else {
      assert (w + rest)[0] == w[0] && (w + rest)[1..] == w[1..] + rest;
      TrimSkipped(w[1..], rest);
      hide TrimSpace;
      if !IsLineEnd(w[0]) {
        TrimSpaceCons(w[0], RemoveLineEnds(w[1..] + rest));
      }
    }
  }

  /** What a part of a tag list says once unfolded and trimmed. */
  function PartText(p: string): string {
    TrimSpace(RemoveLineEnds(p))
  }

  predicate BlankOrEquals(c: char) {
    IsBlank(c) || c == '='
  }

  lemma {:induction false} UnfoldedTail(w: string, rest: string)
    requires forall i :: 0 <= i < |w| ==> IsBlank(w[i]) || IsLineEnd(w[i])
    requires rest != "" && rest[0] == '='
    ensures var x := RemoveLineEnds(w + rest); x != "" && BlankOrEquals(x[0])
  {
    if w == "" {
      assert w + rest == rest;
    } else {
      assert (w + rest)[0] == w[0] && (w + rest)[1..] == w[1..] + rest;
      UnfoldedTail(w[1..], rest);
    }
  }

  lemma TrimKeepsHead(s: string)
    requires |s| >= 2 && s[0] == 'b' && BlankOrEquals(s[1]) && '=' in s
    ensures var u := TrimSpace(s); |u| >= 2 && u[0] == 'b' && BlankOrEquals(u[1])
  {
    assert TrimLeft(s) == s;
    var k :| 0 <= k < |s| && s[k] == '=';
    assert s == s[..k + 1] + s[k + 1..];
    TrimKeeps(s[..k + 1], s[k + 1..]);
    assert k >= 1;
  }

  lemma {:induction false} TrimKeeps(a: string, b: string)
    requires a != "" && !IsSpace(a[|a| - 1])
    ensures a <= TrimRight(a + b)
  {
    var s := a + b;
    if b == "" {
      assert s == a;
    } else if IsSpace(s[|s| - 1]) {
      assert s[..|s| - 1] == a + b[..|b| - 1];
      TrimKeeps(a, b[..|b| - 1]);
    }
  }

  /** The part has the shape of a b tag: blanks, b, blanks, and the equals sign at `e`. */
  ghost predicate BTag(p: string, a: nat, e: nat) {
    && a < e < |p| && p[a] == 'b' && p[e] == '='
    && (forall i :: 0 <= i < a ==> IsBlank(p[i]) || IsLineEnd(p[i]))
    && (forall i :: a < i < e ==> IsBlank(p[i]) || IsLineEnd(p[i]))
  }

  lemma StrippedShape(p: string) returns (a: nat, e: nat)
    requires StripPart(p) != p
    ensures BTag(p, a, e) && StripPart(p) == p[..e + 1]
  {
    a := SkipSpaces(p);
    var rest := p[a + 1..];
    e := a + 1 + SkipSpaces(rest);
    assert forall i :: a < i < e ==> p[i] == rest[i - a - 1];
  }

  lemma UnfoldedHead(c: char, s: string)
    requires !IsLineEnd(c)
    ensures RemoveLineEnds([c] + s) == [c] + RemoveLineEnds(s)
  {
    assert ([c] + s)[1..] == s;
  }

  lemma BTagText(p: string, a: nat, e: nat)
    requires BTag(p, a, e)
    ensures var u := PartText(p); |u| >= 2 && u[0] == 'b' && BlankOrEquals(u[1])
  {
    var w, mid, tail := p[..a], p[a + 1..e], p[e..];
    hide RemoveLineEnds, TrimSpace;
    assert p == w + (['b'] + (mid + tail));
    TrimSkipped(w, ['b'] + (mid + tail));
    BTagTail(mid, tail);
  }

  lemma BTagTail(mid: string, tail: string)
    requires forall i :: 0 <= i < |mid| ==> IsBlank(mid[i]) || IsLineEnd(mid[i])
    requires tail != "" && tail[0] == '='
    ensures var u := TrimSpace(RemoveLineEnds(['b'] + (mid + tail))); |u| >= 2 && u[0] == 'b' && BlankOrEquals(u[1])
  {
    hide RemoveLineEnds, TrimSpace;
    var x := RemoveLineEnds(mid + tail);
    UnfoldedTail(mid, tail);
    UnfoldedHead('b', mid + tail);
    assert (mid + tail)[|mid|] == '=';
    RemoveLineEndsBytes(mid + tail, '=');
    assert (['b'] + x)[1..] == x;
    TrimKeepsHead(['b'] + x);
  }

  lemma StrippedText(p: string)
    requires StripPart(p) != p
    ensures var u := PartText(p); |u| >= 2 && u[0] == 'b' && BlankOrEquals(u[1])
    ensures var u := PartText(StripPart(p)); |u| >= 2 && u[0] == 'b' && BlankOrEquals(u[1])
  {
    var a, e := StrippedShape(p);
    hide StripPart;
    BTagText(p, a, e);
    BTagText(p[..e + 1], a, e);
  }

  lemma CanonPartText(p: string)
    ensures TrimSpace(CanonPart(p)) == Compressed(PartText(StripPart(p)))
  {
    TrimCompressed(RemoveLineEnds(StripPart(p)));
  }

  lemma CompressedHead(u: string)
    ensures u != "" && !IsBlank(u[0]) ==> Compressed(u) != "" && Compressed(u)[0] == u[0]
    ensures |u| >= 2 && !IsBlank(u[0]) ==> |Compressed(u)| >= 2 && (Compressed(u)[1] == if IsBlank(u[1]) then ' ' else u[1])
  {
    if |u| >= 2 && !IsBlank(u[0]) {
      CompressedIsCompressed(u[1..]);
      assert u[1..][0] == u[1];
    }
  }

  /** A part whose canonical text is a tag without spaces, other than b, is that tag exactly. */
  lemma TightPart(p: string, tau: string)
    requires TrimSpace(CanonPart(p)) == tau && Tight(tau)
    requires |tau| >= 2 && !(tau[0] == 'b' && BlankOrEquals(tau[1]))
    ensures PartText(p) == tau
  {
    CanonPartText(p);
    var u := PartText(StripPart(p));
    assert forall i :: 0 <= i < |tau| ==> !IsBlank(tau[i]);
    CompressedTight(u);
    if StripPart(p) != p {
      StrippedText(p);
    }
  }

  /** The first letter of a part's canonical text is the first letter of the part. */
  lemma HeadPart(p: string)
    ensures var t := TrimSpace(CanonPart(p));
            PartText(p) != "" ==> t != "" && t[0] == PartText(p)[0]
  {
    CanonPartText(p);
    PartTextTrimmed(p);
    if StripPart(p) != p {
      StrippedText(p);
    }
    hide PartText, StripPart, TrimSpace, CanonPart, Compressed;
    CompressedHead(PartText(StripPart(p)));
  }

  lemma PartTextTrimmed(p: string)
    ensures PartText(p) != "" ==> !IsSpace(PartText(p)[0])
  {
    var l := TrimLeft(RemoveLineEnds(p));
    assert PartText(p) <= l;
  }
}
