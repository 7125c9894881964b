// Tag lists as the sealer writes them, and the round trip through the parser and the signature stripper.

module ArcTags {
  import opened Options
  import opened Text
  import opened ArcCanon

  datatype Tag = Tag(name: string, value: string)

  function TagText(t: Tag): string {
    t.name + "=" + t.value
  }

  /** `n=v` pairs joined by "; ". */
  function Render(tags: seq<Tag>): string {
    if tags == [] then ""
    else if |tags| == 1 then TagText(tags[0])
    else TagText(tags[0]) + "; " + Render(tags[1..])
  }

  predicate NameChar(c: char) {
    !IsSpace(c) && c != ';' && c != '=' && c != ':'
  }

  predicate CleanName(n: string) {
    n != "" && forall i :: 0 <= i < |n| ==> NameChar(n[i])
  }

  /** A value the parser gives back as it is: no `;`, no line end, nothing to trim. */
  predicate CleanValue(v: string) {
    Trimmed(v) && OneLine(v) && ';' !in v
  }

  predicate CleanTag(t: Tag) {
    CleanName(t.name) && CleanValue(t.value)
  }

  ghost predicate AllClean(tags: seq<Tag>) {
    forall i :: 0 <= i < |tags| ==> CleanTag(tags[i])
  }

  ghost predicate CleanTags(tags: seq<Tag>) {
    AllClean(tags) && DistinctNames(tags)
  }

  ghost predicate DistinctNames(tags: seq<Tag>) {
    forall i, j :: 0 <= i < j < |tags| ==> tags[i].name != tags[j].name
  }

  function TagMap(tags: seq<Tag>): Tags {
    if tags == [] then map[]
    else
      var t := tags[|tags| - 1];
      TagMap(tags[..|tags| - 1])[t.name := t.value]
  }

  lemma {:induction false} TagMapHas(tags: seq<Tag>, i: nat)
    requires i < |tags| && DistinctNames(tags)
    ensures TagOf(TagMap(tags), tags[i].name) == tags[i].value
    decreases |tags|
  {
    if i < |tags| - 1 {
      TagMapHas(tags[..|tags| - 1], i);
    }
  }

  lemma {:induction false} TagMapNames(tags: seq<Tag>, name: string)
    ensures name in TagMap(tags) <==> exists i :: 0 <= i < |tags| && tags[i].name == name
    decreases |tags|
  {
    if tags != [] {
      var init := tags[..|tags| - 1];
      TagMapNames(init, name);
      assert name in TagMap(tags) <==> name in TagMap(init) || name == tags[|tags| - 1].name;
      if name in TagMap(init) {
        var i :| 0 <= i < |init| && init[i].name == name;
        assert tags[i].name == name;
      }
    }
  }

  // ----- one part -----

  lemma TagTextClean(t: Tag)
    requires CleanTag(t)
    ensures Trimmed(TagText(t)) && OneLine(TagText(t)) && ';' !in TagText(t)
    ensures IndexByte(TagText(t), '=') == |t.name|
    ensures TagText(t)[..|t.name|] == t.name && TagText(t)[|t.name| + 1..] == t.value
    ensures TrimSpace(t.name) == t.name && TrimSpace(t.value) == t.value
  {
    var s := TagText(t);
    assert '\r' !in t.name && '\n' !in t.name && ';' !in t.name && '=' !in t.name;
    FirstByte(t.name, '=', t.value);
    hide IndexByte, TrimSpace;
    TrimTrimmed(t.name);
    TrimTrimmed(t.value);
    assert s[..|t.name|] == t.name && s[|t.name| + 1..] == t.value;
  }

  lemma FirstByte(a: string, c: char, b: string)
    requires c !in a
    ensures IndexByte(a + [c] + b, c) == |a|
  {
    var s := a + [c] + b;
    assert s[|a|] == c && s[..|a|] == a;
    assert forall k :: 0 <= k < |a| ==> s[k] == a[k];
  }

  lemma AddTag(tags: Tags, t: Tag)
    requires CleanTag(t)
    ensures AddPart(tags, " " + TagText(t)) == if t.name in tags then None else Some(tags[t.name := t.value])
  {
    TagTextClean(t);
    TrimSpacePrefixed(TagText(t));
    assert TagText(t) != "";
  }

  lemma StripTag(t: Tag)
    requires CleanTag(t)
    ensures StripPart(" " + TagText(t)) == if t.name == "b" then " b=" else " " + TagText(t)
  {
    var p := " " + TagText(t);
    var n := t.name;
    assert p[0] == ' ' && p[1] == n[0] && p[1..] == TagText(t);
    assert SkipSpaces(p) == 1 by {
      assert !IsBlank(n[0]) && !IsLineEnd(n[0]);
    }
    if n[0] == 'b' {
      var c := if |n| > 1 then n[1] else '=';
      assert p[2] == c && p[2..][0] == c && !IsBlank(c) && !IsLineEnd(c);
      if |n| == 1 {
        assert n == "b";
        assert p[..3] == " b=";
      }
    }
  }

  // ----- the whole list -----

  lemma {:induction false} RenderOneLine(tags: seq<Tag>)
    requires AllClean(tags)
    ensures OneLine(Render(tags))
  {
    if tags != [] {
      assert CleanTag(tags[0]);
      TagTextClean(tags[0]);
      RenderOneLine(tags[1..]);
      hide TagText, CleanTag;
    }
  }

  function Parts(tags: seq<Tag>): seq<string> {
    seq(|tags|, i requires 0 <= i < |tags| => " " + TagText(tags[i]))
  }

  lemma RenderCons(tags: seq<Tag>)
    requires |tags| > 1
    ensures " " + Render(tags) == (" " + TagText(tags[0])) + ";" + (" " + Render(tags[1..]))
  {
    hide TagText;
    assert Render(tags) == TagText(tags[0]) + "; " + Render(tags[1..]);
    assert "; " == ";" + " ";
  }

  lemma FirstPart(t: Tag)
    requires CleanTag(t)
    ensures ';' !in " " + TagText(t)
  {
    TagTextClean(t);
  }

  lemma {:induction false} SplitRendered(tags: seq<Tag>)
    requires tags != []
    requires AllClean(tags)
    ensures Split(" " + Render(tags), ';') == Parts(tags)
  {
    assert CleanTag(tags[0]);
    FirstPart(tags[0]);
    var first := " " + TagText(tags[0]);
    hide CleanTag, TagText, Split;
    if |tags| == 1 {
      assert Render(tags) == TagText(tags[0]);
      SplitWhole(first, ';');
      assert Parts(tags) == [first];
    } else {
      SplitRendered(tags[1..]);
      RenderCons(tags);
      hide Render;
      SplitCons(first, " " + Render(tags[1..]), ';');
      PartsCons(tags);
    }
  }

  lemma PartsCons(tags: seq<Tag>)
    requires tags != []
    ensures Parts(tags) == [" " + TagText(tags[0])] + Parts(tags[1..])
  {
    hide TagText;
  }

  lemma {:induction false} PartsParse(tags: seq<Tag>)
    requires CleanTags(tags)
    ensures PartsTags(Parts(tags)) == Some(TagMap(tags))
    decreases |tags|
  {
    if tags != [] {
      var init := tags[..|tags| - 1];
      var last := tags[|tags| - 1];
      assert Parts(tags)[..|tags| - 1] == Parts(init);
      PartsParse(init);
      AddTag(TagMap(init), last);
      TagMapNames(init, last.name);
    }
  }

  /** Parsing what was rendered gives the tags back. */
  lemma ParseRendered(tags: seq<Tag>)
    requires tags != [] && CleanTags(tags)
    ensures TagsOf(" " + Render(tags)) == Some(TagMap(tags))
  {
    RenderOneLine(tags);
    RemoveLineEndsOneLine(" " + Render(tags));
    SplitRendered(tags);
    PartsParse(tags);
  }

  /** Stripping the signature of a rendered list whose last tag is b empties that tag and nothing else. */
  lemma {:induction false} StripRendered(tags: seq<Tag>, sig: string)
    requires AllClean(tags) && CleanValue(sig)
    requires forall i :: 0 <= i < |tags| ==> tags[i].name != "b"
    ensures StripValue(" " + Render(tags + [Tag("b", sig)])) == " " + Render(tags + [Tag("b", "")])
  {
    if tags == [] {
      StripOnly(sig);
    } else {
      var all, bare := tags + [Tag("b", sig)], tags + [Tag("b", "")];
      var rest := tags[1..];
      assert all[1..] == rest + [Tag("b", sig)] && bare[1..] == rest + [Tag("b", "")];
      assert CleanTag(tags[0]) && tags[0].name != "b";
      FirstPart(tags[0]);
      StripTag(tags[0]);
      hide CleanTag, TagText, StripPart, StripValue, Render;
      StripRendered(rest, sig);
      RenderCons(all);
      RenderCons(bare);
      StripCons(" " + TagText(tags[0]), " " + Render(all[1..]));
    }
  }

  lemma StripOnly(sig: string)
    requires CleanValue(sig)
    ensures StripValue(" " + Render([] + [Tag("b", sig)])) == " " + Render([] + [Tag("b", "")])
  {
    var t := Tag("b", sig);
    assert [] + [t] == [t] && [] + [Tag("b", "")] == [Tag("b", "")];
    assert CleanName("b");
    FirstPart(t);
    StripTag(t);
    assert " " + TagText(Tag("b", "")) == " b=";
  }

  lemma StripCons(first: string, rest: string)
    requires ';' !in first
    ensures StripValue(first + ";" + rest) == StripPart(first) + ";" + StripValue(rest)
  {
    FirstByte(first, ';', rest);
    var s := first + ";" + rest;
    assert s[..|first|] == first && s[|first| + 1..] == rest;
  }

}
