// What a tag list says, without the functions that read it: spaces and line ends around names and values do not
// count, parts without a name and repeated names are refused (RFC 6376, section 3.2).

module ArcTagRules {
  import opened Options
  import opened Text
  import opened ArcCanon
  import opened ArcChain
  import opened ArcTags
  import opened ArcDecoding
  import opened ArcTagDecoding

  predicate Spaces(w: string) {
    forall i :: 0 <= i < |w| ==> IsSpace(w[i])
  }

  /** `x` is `s` with spaces around it. */
  ghost predicate Around(x: string, s: string) {
    Trimmed(s) && exists w, u :: Spaces(w) && Spaces(u) && x == w + s + u
  }

  /** The part reads name=value at its first equals sign, which is at `e`. */
  ghost predicate SaysAt(part: string, e: int, name: string, value: string) {
    && 0 <= e < |part| && part[e] == '=' && '=' !in part[..e]
    && name != "" && Around(part[..e], name) && Around(part[e + 1..], value)
  }

  ghost predicate Says(part: string, name: string, value: string) {
    exists e :: SaysAt(part, e, name, value)
  }

  // ----- trimming -----

  lemma {:induction false} TrimLeftSpaces(w: string, s: string)
    requires Spaces(w)
    ensures TrimLeft(w + s) == TrimLeft(s)
  {
    if w == "" {
      assert w + s == s;
    } else {
      assert w + s == [w[0]] + (w[1..] + s);
      TrimLeftSpace(w[0], w[1..] + s);
      TrimLeftSpaces(w[1..], s);
    }
  }

  lemma {:induction false} TrimAround(w: string, s: string, u: string)
    requires Spaces(w) && Spaces(u)
    ensures TrimSpace(w + s + u) == TrimSpace(s)
    decreases |u|
  {
    if u == "" {
      assert w + s + u == w + s;
      TrimLeftSpaces(w, s);
    } else {
      hide TrimSpace;
      var n := |u| - 1;
      assert w + s + u == w + s + u[..n] + [u[n]];
      TrimSpaceSnoc(w + s + u[..n], u[n]);
      TrimAround(w, s, u[..n]);
    }
  }

  lemma TrimRightStep(s: string)
    ensures TrimRight(s) == if s != "" && IsSpace(s[|s| - 1]) then TrimRight(s[..|s| - 1]) else s
  {
  }

  lemma TrimLeftStep(s: string)
    ensures TrimLeft(s) == if s != "" && IsSpace(s[0]) then TrimLeft(s[1..]) else s
  {
  }

  lemma {:induction false} RightCut(s: string) returns (u: string)
    ensures s == TrimRight(s) + u && Spaces(u)
  {
    hide TrimRight;
    TrimRightStep(s);
    if s != "" && IsSpace(s[|s| - 1]) {
      var n := |s| - 1;
      u := RightCut(s[..n]);
      assert s == s[..n] + [s[n]];
      AppendAssoc(TrimRight(s[..n]), u, [s[n]]);
      u := u + [s[n]];
    } else {
      u := "";
    }
  }

  lemma {:induction false} LeftCut(s: string) returns (w: string)
    ensures s == w + TrimLeft(s) && Spaces(w)
  {
    hide TrimLeft;
    TrimLeftStep(s);
    if s != "" && IsSpace(s[0]) {
      w := LeftCut(s[1..]);
      assert s == [s[0]] + s[1..];
      AppendAssoc([s[0]], w, TrimLeft(s[1..]));
      w := [s[0]] + w;
    } else {
      w := "";
    }
  }

  lemma SpaceTrimmed(s: string)
    ensures Trimmed(TrimSpace(s))
  {
    assert TrimSpace(s) != "" ==> TrimSpace(s)[0] == TrimLeft(s)[0];
  }

  lemma AroundExactly(x: string, s: string)
    ensures Around(x, s) <==> s == TrimSpace(x)
  {
    var w := LeftCut(x);
    var u := RightCut(TrimLeft(x));
    SpaceTrimmed(x);
    assert x == w + TrimSpace(x) + u by { AppendAssoc(w, TrimSpace(x), u); }
    if Around(x, s) {
      var a, b :| Spaces(a) && Spaces(b) && x == a + s + b;
      TrimAround(a, s, b);
      TrimTrimmed(s);
    }
  }

  lemma TrimTwice(x: string)
    ensures TrimSpace(TrimLeft(x)) == TrimSpace(x) && TrimSpace(TrimRight(x)) == TrimSpace(x)
    ensures TrimSpace(x) == "" <==> TrimLeft(x) == ""
  {
    var w := LeftCut(x);
    var u := RightCut(x);
    hide TrimSpace, TrimLeft, TrimRight;
    TrimAround(w, TrimLeft(x), "");
    assert w + TrimLeft(x) + "" == x && "" + TrimRight(x) + u == x;
    TrimAround("", TrimRight(x), u);
    TrimmedEmpty(x);
  }

  lemma TrimmedEmpty(x: string)
    ensures TrimSpace(x) == "" <==> TrimLeft(x) == ""
  {
    var l := TrimLeft(x);
    if l != "" {
      assert l == l[..1] + l[1..];
      TrimRightKeepsAll(l[..1], l[1..]);
    }
  }

  // ----- one part -----

  lemma {:induction false} TrimLeftKeeps(x: string, y: string)
    requires y != "" && !IsSpace(y[0])
    ensures TrimLeft(x + y) == TrimLeft(x) + y
  {
    if x == "" {
      assert x + y == y;
    } else if IsSpace(x[0]) {
      assert x + y == [x[0]] + (x[1..] + y);
      TrimLeftSpace(x[0], x[1..] + y);
      TrimLeftKeeps(x[1..], y);
    }
  }

  lemma {:induction false} TrimRightKeepsAll(x: string, y: string)
    requires x != "" && !IsSpace(x[|x| - 1])
    ensures TrimRight(x + y) == x + TrimRight(y)
  {
    if y == "" {
      assert x + y == x;
    } else if IsSpace(y[|y| - 1]) {
      assert (x + y)[..|x| + |y| - 1] == x + y[..|y| - 1];
      TrimRightKeepsAll(x, y[..|y| - 1]);
    }
  }

  lemma TrimPart(x: string, y: string)
    ensures TrimSpace(x + "=" + y) == TrimLeft(x) + "=" + TrimRight(y)
  {
    hide TrimLeft, TrimRight;
    assert x + "=" + y == x + ("=" + y);
    TrimLeftKeeps(x, "=" + y);
    assert TrimLeft(x) + ("=" + y) == TrimLeft(x) + "=" + y;
    TrimRightKeepsAll(TrimLeft(x) + "=", y);
  }

  lemma {:induction false} TrimLeftWithin(x: string, c: char)
    ensures c in TrimLeft(x) ==> c in x
  {
    var w := LeftCut(x);
  }

  /** What the parser makes of a part whose first equals sign stands between `x` and `y`. */
  lemma PartCut(t: Tags, x: string, y: string)
    requires '=' !in x
    ensures var name := TrimSpace(x);
            AddPart(t, x + "=" + y) == if name == "" || name in t then None else Some(t[name := TrimSpace(y)])
  {
    var p := TrimLeft(x) + "=" + TrimRight(y);
    TrimPart(x, y);
    TrimLeftWithin(x, '=');
    FirstByte(TrimLeft(x), '=', TrimRight(y));
    TrimTwice(x);
    TrimTwice(y);
    hide TrimSpace, TrimLeft, TrimRight, IndexByte;
    assert p[..|TrimLeft(x)|] == TrimLeft(x) && p[|TrimLeft(x)| + 1..] == TrimRight(y);
  }

  lemma PartWithout(t: Tags, part: string)
    requires '=' !in part
    ensures AddPart(t, part) == if TrimSpace(part) == "" then Some(t) else None
  {
    var w := LeftCut(part);
    var u := RightCut(TrimLeft(part));
    assert '=' !in TrimSpace(part);
    hide TrimSpace;
  }

  /** A part of spaces only changes nothing; any other has to read name=value with a new name. */
  lemma PartExactly(t: Tags, part: string)
    ensures Spaces(part) ==> AddPart(t, part) == Some(t)
    ensures forall n, x :: Says(part, n, x) ==> AddPart(t, part) == if n in t then None else Some(t[n := x])
    ensures !Spaces(part) && (forall n, x :: !Says(part, n, x)) ==> AddPart(t, part).None?
    ensures Spaces(part) ==> forall n, x :: !Says(part, n, x)
  {
    hide TrimSpace, AddPart, Around;
    if Spaces(part) {
      SpacesOnly(part);
      PartWithout(t, part);
    }
    if '=' in part {
      var e := IndexByte(part, '=');
      var x, y := part[..e], part[e + 1..];
      assert part == x + "=" + y;
      PartCut(t, x, y);
      forall n, v | Says(part, n, v)
        ensures n == TrimSpace(x) && v == TrimSpace(y) && n != ""
      {
        var k :| SaysAt(part, k, n, v);
        SameCut(part, e, k);
        AroundExactly(x, n);
        AroundExactly(y, v);
      }
      AroundExactly(x, TrimSpace(x));
      AroundExactly(y, TrimSpace(y));
      assert TrimSpace(x) != "" ==> SaysAt(part, e, TrimSpace(x), TrimSpace(y)) && Says(part, TrimSpace(x), TrimSpace(y));
    } else {
      PartWithout(t, part);
      SpacesExactly(part);
    }
  }

  lemma SameCut(part: string, e: nat, k: nat)
    requires e < |part| && k < |part| && part[e] == '=' == part[k] && '=' !in part[..e] && '=' !in part[..k]
    ensures e == k
  {
    NotBefore(part, e);
    NotBefore(part, k);
  }

  lemma NotBefore(part: string, e: nat)
    requires e <= |part| && '=' !in part[..e]
    ensures forall k :: 0 <= k < e ==> part[k] != '='
  {
    assert forall k :: 0 <= k < e ==> part[k] == part[..e][k];
  }

  lemma SpacesOnly(part: string)
    requires Spaces(part)
    ensures TrimSpace(part) == "" && '=' !in part
  {
    TrimAround(part, "", "");
    assert part + "" + "" == part;
  }

  lemma SpacesExactly(part: string)
    ensures TrimSpace(part) == "" ==> Spaces(part)
  {
    var w := LeftCut(part);
    TrimTwice(part);
  }

  // ----- the whole list -----

  /** The parts of the list, line ends taken out. */
  function PartsIn(v: string): seq<string> {
    Split(RemoveLineEnds(v), ';')
  }

  ghost predicate Read(part: string) {
    Spaces(part) || exists n, x :: Says(part, n, x)
  }

  ghost predicate AllRead(parts: seq<string>) {
    forall i :: 0 <= i < |parts| ==> Read(parts[i])
  }

  ghost predicate NameOf(part: string, name: string) {
    exists x :: Says(part, name, x)
  }

  ghost predicate NoneTwice(parts: seq<string>) {
    forall i, j, n :: 0 <= i < j < |parts| && NameOf(parts[i], n) ==> !NameOf(parts[j], n)
  }

  ghost predicate SaidIn(parts: seq<string>, n: string, x: string) {
    exists i :: 0 <= i < |parts| && Says(parts[i], n, x)
  }

  /** The tags are what the parts say. */
  ghost predicate TagsSaid(parts: seq<string>, t: Tags) {
    forall n, x :: n in t && t[n] == x <==> SaidIn(parts, n, x)
  }

  lemma SaidSnoc(parts: seq<string>, part: string, n: string, x: string)
    ensures SaidIn(parts + [part], n, x) <==> SaidIn(parts, n, x) || Says(part, n, x)
  {
    hide Says;
    var all := parts + [part];
    if i :| 0 <= i < |parts| && Says(parts[i], n, x) {
      assert all[i] == parts[i];
    }
    if Says(part, n, x) {
      assert all[|parts|] == part;
    }
  }

  lemma TwiceSnoc(parts: seq<string>, part: string, t: Tags)
    requires TagsSaid(parts, t)
    ensures NoneTwice(parts + [part]) <==> NoneTwice(parts) && forall n :: NameOf(part, n) ==> n !in t
  {
    hide Says;
    var all := parts + [part];
    assert all[|parts|] == part;
    assert forall i :: 0 <= i < |parts| ==> all[i] == parts[i];
    if NoneTwice(all) {
      forall n | n in t
        ensures !NameOf(part, n)
      {
        assert SaidIn(parts, n, t[n]);
        var i :| 0 <= i < |parts| && Says(parts[i], n, t[n]);
        assert NameOf(all[i], n);
      }
      forall i, j, n | 0 <= i < j < |parts| && NameOf(parts[i], n)
        ensures !NameOf(parts[j], n)
      {
        assert NameOf(all[i], n);
      }
    }
    if NoneTwice(parts) && forall n :: NameOf(part, n) ==> n !in t {
      forall i, j, n | 0 <= i < j < |all| && NameOf(all[i], n)
        ensures !NameOf(all[j], n)
      {
        if j == |parts| {
          var x :| Says(parts[i], n, x);
          assert SaidIn(parts, n, x);
        }
      }
    }
  }

  lemma {:induction false} PartsExactly(parts: seq<string>)
    ensures PartsTags(parts).Some? <==> AllRead(parts) && NoneTwice(parts)
    ensures PartsTags(parts).Some? ==> TagsSaid(parts, PartsTags(parts).value)
  {
    hide Says, AddPart;
    if parts != [] {
      var init, part := parts[..|parts| - 1], parts[|parts| - 1];
      assert parts == init + [part];
      PartsExactly(init);
      ReadSnoc(init, part);
      if PartsTags(init).Some? {
        PartStep(init, part, PartsTags(init).value);
      } else {
        TwiceInit(init, part);
      }
    }
  }

  lemma ReadSnoc(parts: seq<string>, part: string)
    ensures AllRead(parts + [part]) <==> AllRead(parts) && Read(part)
  {
    hide Read;
    var all := parts + [part];
    assert all[|parts|] == part;
    assert forall i :: 0 <= i < |parts| ==> all[i] == parts[i];
  }

  lemma TwiceInit(parts: seq<string>, part: string)
    ensures NoneTwice(parts + [part]) ==> NoneTwice(parts)
  {
    hide NameOf;
    var all := parts + [part];
    assert forall i :: 0 <= i < |parts| ==> all[i] == parts[i];
  }

  lemma PartStep(parts: seq<string>, part: string, t: Tags)
    requires TagsSaid(parts, t) && NoneTwice(parts)
    ensures AddPart(t, part).Some? <==> Read(part) && NoneTwice(parts + [part])
    ensures AddPart(t, part).Some? ==> TagsSaid(parts + [part], AddPart(t, part).value)
  {
    PartExactly(t, part);
    TwiceSnoc(parts, part, t);
    hide Says, AddPart, Spaces;
    var r := AddPart(t, part);
    if r.Some? {
      forall n, x
        ensures n in r.value && r.value[n] == x <==> SaidIn(parts + [part], n, x)
      {
        SaidSnoc(parts, part, n, x);
        assert n in t && t[n] == x <==> SaidIn(parts, n, x);
      }
    }
  }

  /** A list is accepted exactly when every part is blank or reads name=value and no name comes twice, and its tags are
      exactly what its parts say. */
  lemma TagsExactly(v: string)
    ensures TagsOf(v).Some? <==> AllRead(PartsIn(v)) && NoneTwice(PartsIn(v))
    ensures TagsOf(v).Some? ==> TagsSaid(PartsIn(v), TagsOf(v).value)
  {
    PartsExactly(PartsIn(v));
    hide AllRead, NoneTwice, TagsSaid, Split, RemoveLineEnds;
  }

  // ----- the signature tag -----

  lemma SkipSpacesIs(s: string, n: nat)
    requires n < |s| && !IsBlank(s[n]) && !IsLineEnd(s[n])
    requires forall i :: 0 <= i < n ==> IsBlank(s[i]) || IsLineEnd(s[i])
    ensures SkipSpaces(s) == n
  {
    hide SkipSpaces;
  }

  /** A part loses what stands behind its equals sign exactly when it reads blanks, b, blanks, equals. */
  lemma StripExactly(p: string)
    ensures forall a: nat, e: nat :: BTag(p, a, e) ==> e < |p| && StripPart(p) == p[..e + 1]
    ensures (forall a: nat, e: nat :: !BTag(p, a, e)) ==> StripPart(p) == p
  {
    hide BTag, StripPart;
    forall a: nat, e: nat | BTag(p, a, e)
      ensures e < |p| && StripPart(p) == p[..e + 1]
    {
      StripAt(p, a, e);
    }
    if StripPart(p) != p {
      var a, e := StrippedShape(p);
    }
  }

  lemma StripAt(p: string, a: nat, e: nat)
    requires BTag(p, a, e)
    ensures e < |p| && StripPart(p) == p[..e + 1]
  {
    hide SkipSpaces;
    SkipSpacesIs(p, a);
    var rest := p[a + 1..];
    assert forall i :: 0 <= i < e - a - 1 ==> rest[i] == p[a + 1 + i];
    assert rest[e - a - 1] == '=';
    SkipSpacesIs(rest, e - a - 1);
  }

  /** And the parts of a value are stripped one by one. */
  lemma StripParts(a: string, b: string)
    requires ';' !in a
    ensures StripValue(a) == StripPart(a)
    ensures StripValue(a + ";" + b) == StripPart(a) + ";" + StripValue(b)
  {
    StripCons(a, b);
  }

  // ----- the instance of a results field -----

  /** The results field of instance `n` starts with a part that says i=n. */
  lemma InstanceExactly(f: Field, n: nat)
    requires EqualFold(f.name, AAR)
    ensures MarkOf(f) == Numbered(Results, n) <==>
              1 <= n <= 50 && exists num :: Says(PartsIn(Value(f))[0], "i", num) && Atoi(num) == Some(n)
  {
    hide *;
    var u := RemoveLineEnds(Value(f));
    FirstPartTrimmed(u);
    PartsAre(Value(f));
    InstancePart(TrimSpace(u), Split(u, ';')[0]);
    MarkIs(f, n, AarInstanceText(TrimSpace(u)));
    NoNumber();
  }

  lemma PartsAre(v: string)
    ensures PartsIn(v) == Split(RemoveLineEnds(v), ';')
  {
  }

  lemma NoNumber()
    ensures Atoi("").None?
  {
  }

  lemma MarkIs(f: Field, n: nat, text: string)
    requires EqualFold(f.name, AAR) && text == AarInstanceText(TrimSpace(RemoveLineEnds(Value(f))))
    ensures MarkOf(f) == Numbered(Results, n) <==> 1 <= n <= 50 && Atoi(text) == Some(n)
  {
    hide TrimSpace, RemoveLineEnds, Value, Atoi, EqualFold, AarInstanceText;
  }

  lemma FirstPartTrimmed(u: string)
    ensures var v := TrimSpace(u);
            var semi := IndexByte(v, ';');
            TrimSpace(v[..if semi < 0 then |v| else semi]) == TrimSpace(Split(u, ';')[0])
  {
    SplitTrimSpace(u);
    hide TrimSpace;
    var v := TrimSpace(u);
    assert TrimSpace(Split(v, ';')[0]) == TrimSpace(Split(u, ';')[0]);
    assert v[..|v|] == v;
  }

  lemma OnlyPart(part: string)
    ensures var tag := TrimSpace(part);
            var eq := IndexByte(tag, '=');
            AddPart(map[], part) ==
              if tag == "" then Some(map[]) else if eq <= 0 then None
              else Some(map[TrimSpace(tag[..eq]) := TrimSpace(tag[eq + 1..])])
  {
    hide TrimSpace, IndexByte;
  }

  lemma InstanceIs(v: string, tag: string)
    requires var semi := IndexByte(v, ';'); TrimSpace(v[..if semi < 0 then |v| else semi]) == tag
    ensures var eq := IndexByte(tag, '=');
            AarInstanceText(v) ==
              if eq <= 0 || tag[0] != 'i' || TrimSpace(tag[..eq]) != "i" then "" else TrimSpace(tag[eq + 1..])
  {
    hide TrimSpace, IndexByte, Trimmed;
    var eq := IndexByte(tag, '=');
    if eq == 0 {
      assert tag[..eq] == "";
      NothingTrimmed();
    }
  }

  lemma NothingTrimmed()
    ensures TrimSpace("") == ""
  {
  }

  lemma TrimmedFirst(tag: string, eq: nat)
    requires Trimmed(tag) && 0 < eq <= |tag| && TrimSpace(tag[..eq]) == "i"
    ensures tag[0] == 'i'
  {
    assert TrimLeft(tag[..eq]) == tag[..eq];
  }

  lemma SaidExactly(first: string, num: string)
    ensures Says(first, "i", num) <==> AddPart(map[], first) == Some(map["i" := num])
  {
    PartExactly(map[], first);
    hide Says, Spaces, AddPart;
    var one := map["i" := num];
    assert "i" in one && one["i"] == num;
    if AddPart(map[], first) == Some(one) {
      var n, x :| Says(first, n, x);
      assert map[n := x] == one;
      assert n in one && one[n] == x;
    }
  }

  lemma InstancePart(v: string, first: string)
    requires var semi := IndexByte(v, ';'); TrimSpace(v[..if semi < 0 then |v| else semi]) == TrimSpace(first)
    ensures forall num :: Says(first, "i", num) ==> AarInstanceText(v) == num
    ensures (forall num :: !Says(first, "i", num)) ==> AarInstanceText(v) == ""
  {
    InstanceIs(v, TrimSpace(first));
    hide Says, Spaces, TrimSpace, IndexByte, AddPart, AarInstanceText;
    InstanceOfPart(first, AarInstanceText(v));
  }

  lemma InstanceOfPart(first: string, text: string)
    requires var tag := TrimSpace(first);
             var eq := IndexByte(tag, '=');
             text == if eq <= 0 || tag[0] != 'i' || TrimSpace(tag[..eq]) != "i" then "" else TrimSpace(tag[eq + 1..])
    ensures forall num :: Says(first, "i", num) ==> text == num
    ensures (forall num :: !Says(first, "i", num)) ==> text == ""
  {
    hide Says, Spaces, TrimSpace, IndexByte, AddPart;
    var tag := TrimSpace(first);
    var eq := IndexByte(tag, '=');
    OnlyPart(first);
    SpaceTrimmed(first);
    forall num
      ensures Says(first, "i", num) ==> text == num && eq > 0 && tag[0] == 'i' && TrimSpace(tag[..eq]) == "i"
    {
      SaidExactly(first, num);
      assert "i" in map["i" := num];
      if eq > 0 && TrimSpace(tag[..eq]) == "i" {
        TrimmedFirst(tag, eq);
      }
    }
    if eq > 0 && TrimSpace(tag[..eq]) == "i" {
      SaidExactly(first, TrimSpace(tag[eq + 1..]));
    }
  }
}
