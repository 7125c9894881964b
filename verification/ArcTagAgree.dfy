// A tag list whose signed canonical text is that of a rendered list carries the rendered tags.

module ArcTagAgree {
  import opened Options
  import opened Text
  import opened ArcCanon
  import opened ArcCanonLaws
  import opened ArcTags
  import opened ArcDecoding
  import opened ArcTagDecoding

  // ----- what the parser makes of a part -----

  lemma AddPartText(t: Tags, part: string, tag: Tag)
    requires TrimSpace(part) == TagText(tag) && CleanTag(tag)
    ensures AddPart(t, part) == if tag.name in t then None else Some(t[tag.name := tag.value])
  {
    TagTextClean(tag);
    assert TagText(tag) != "";
  }

  lemma AddPartKeeps(t: Tags, part: string, name: string)
    requires AddPart(t, part).Some? && name in t
    ensures name in AddPart(t, part).value && AddPart(t, part).value[name] == t[name]
  {
  }

  lemma {:induction false} PartsTagsHas(parts: seq<string>, i: nat, tag: Tag)
    requires i < |parts| && TrimSpace(parts[i]) == TagText(tag) && CleanTag(tag)
    requires PartsTags(parts).Some?
    ensures tag.name in PartsTags(parts).value && PartsTags(parts).value[tag.name] == tag.value
    decreases |parts|
  {
    var init := parts[..|parts| - 1];
    hide AddPart, TrimSpace, TagText, CleanTag;
    if i == |parts| - 1 {
      AddPartText(PartsTags(init).value, parts[i], tag);
    } else {
      PartsTagsHas(init, i, tag);
      AddPartKeeps(PartsTags(init).value, parts[|parts| - 1], tag.name);
    }
  }

  lemma AddPartHead(t: Tags, part: string, name: string)
    requires AddPart(t, part).Some? && name != "" && name !in t && name in AddPart(t, part).value
    ensures TrimSpace(part) != "" && TrimSpace(part)[0] == name[0]
  {
    var p := TrimSpace(part);
    var eq := IndexByte(p, '=');
    assert name == TrimSpace(p[..eq]);
    TrimmedHead(part);
    TrimPrefix(p[..eq]);
  }

  lemma TrimmedHead(s: string)
    ensures TrimSpace(s) != "" ==> !IsSpace(TrimSpace(s)[0])
  {
    assert TrimSpace(s) <= TrimLeft(s);
  }

  lemma TrimPrefix(s: string)
    requires s != "" && !IsSpace(s[0])
    ensures TrimSpace(s) <= s
  {
  }

  /** A tag name starts with the first letter of one of the parts. */
  lemma {:induction false} PartsTagsHead(parts: seq<string>, name: string) returns (i: nat)
    requires PartsTags(parts).Some? && name != "" && name in PartsTags(parts).value
    ensures i < |parts| && TrimSpace(parts[i]) != "" && TrimSpace(parts[i])[0] == name[0]
    decreases |parts|
  {
    var init := parts[..|parts| - 1];
    hide AddPart, TrimSpace;
    var before := PartsTags(init).value;
    if name in before {
      i := PartsTagsHead(init, name);
    } else {
      i := |parts| - 1;
      AddPartHead(before, parts[i], name);
    }
  }

  // ----- the parts of a rendered list -----

  lemma {:induction false} CompressedNoBlanks(s: string)
    requires forall i :: 0 <= i < |s| ==> !IsBlank(s[i])
    ensures Compressed(s) == s
  {
    if s != "" {
      CompressedNoBlanks(s[1..]);
    }
  }

  lemma PartTextOfTag(t: Tag)
    requires CleanTag(t)
    ensures PartText(" " + TagText(t)) == TagText(t)
  {
    TagTextClean(t);
    hide TagText, CleanTag, TrimSpace;
    assert OneLine(" " + TagText(t));
    RemoveLineEndsOneLine(" " + TagText(t));
    TrimSpacePrefixed(TagText(t));
  }

  lemma CanonPartOfTag(t: Tag)
    requires CleanTag(t) && t.name != "b" && Tight(TagText(t))
    ensures TrimSpace(CanonPart(" " + TagText(t))) == TagText(t)
  {
    StripTag(t);
    PartTextOfTag(t);
    hide TagText, CleanTag, StripPart, TrimSpace, PartText, CanonPart;
    CanonPartText(" " + TagText(t));
    CompressedNoBlanks(TagText(t));
  }

  lemma CanonHeadOfTag(t: Tag)
    requires CleanTag(t)
    ensures var x := TrimSpace(CanonPart(" " + TagText(t))); x != "" && x[0] == t.name[0]
  {
    PartTextOfTag(t);
    HeadPart(" " + TagText(t));
    hide CanonPart, TrimSpace, PartText;
    assert TagText(t)[0] == t.name[0];
  }

  lemma TagTextHead(t: Tag)
    requires CleanTag(t) && t.name != "b"
    ensures |TagText(t)| >= 2 && !(TagText(t)[0] == 'b' && BlankOrEquals(TagText(t)[1]))
  {
    var n := t.name;
    assert TagText(t)[0] == n[0];
    if |n| > 1 {
      assert TagText(t)[1] == n[1] && NameChar(n[1]);
    } else {
      assert n == [n[0]] && TagText(t)[1] == '=';
    }
  }

  // ----- two lists with the same canonical text -----

  /** Part by part, the trimmed canonical texts agree. */
  ghost predicate PartsAgree(v: string, tags: seq<Tag>) {
    var q := Split(v, ';');
    |q| == |tags| && forall i :: 0 <= i < |q| ==> TrimSpace(CanonPart(q[i])) == TrimSpace(CanonPart(" " + TagText(tags[i])))
  }

  lemma SameCanonParts(v: string, w: string)
    requires TrimSpace(CanonText(v)) == TrimSpace(CanonText(w))
    ensures SameTrimmed(CanonParts(Split(v, ';')), CanonParts(Split(w, ';')))
  {
    hide Split, CanonText, CanonParts, TrimSpace;
    SplitTrimSpace(CanonText(v));
    SplitTrimSpace(CanonText(w));
    SplitCanonText(v);
    SplitCanonText(w);
  }

  lemma SameCanonAgree(v: string, tags: seq<Tag>)
    requires tags != [] && AllClean(tags)
    requires TrimSpace(CanonText(v)) == TrimSpace(CanonText(" " + Render(tags)))
    ensures PartsAgree(v, tags)
  {
    var w := " " + Render(tags);
    SplitRendered(tags);
    SameCanonParts(v, w);
    hide CanonText, CanonPart, TrimSpace, Split, Render, TagText, AllClean;
    var q := Split(v, ';');
    var a, b := CanonParts(q), CanonParts(Parts(tags));
    forall i | 0 <= i < |q|
      ensures TrimSpace(CanonPart(q[i])) == TrimSpace(CanonPart(" " + TagText(tags[i])))
    {
      assert TrimSpace(a[i]) == TrimSpace(b[i]);
    }
  }

  lemma UnfoldedParts(v: string)
    ensures TagsOf(v) == PartsTags(MapUnfold(Split(v, ';')))
  {
    SplitUnfolded(v);
  }

  /** A tag without spaces, other than b, is read back exactly. */
  lemma AgreedTag(v: string, tags: seq<Tag>, i: nat)
    requires PartsAgree(v, tags) && i < |tags| && TagsOf(v).Some?
    requires CleanTag(tags[i]) && tags[i].name != "b" && Tight(TagText(tags[i]))
    ensures TagOf(TagsOf(v).value, tags[i].name) == tags[i].value
  {
    var q := Split(v, ';');
    CanonPartOfTag(tags[i]);
    TagTextHead(tags[i]);
    hide CanonPart, TrimSpace, Split, TagText, CleanTag, RemoveLineEnds, TagsOf, PartText;
    TightPart(q[i], TagText(tags[i]));
    UnfoldedParts(v);
    assert MapUnfold(q)[i] == RemoveLineEnds(q[i]);
    PartTextIs(q[i]);
    PartsTagsHas(MapUnfold(q), i, tags[i]);
  }

  lemma PartTextIs(p: string)
    ensures PartText(p) == TrimSpace(RemoveLineEnds(p))
  {
  }

  /** A tag name starts like one of the rendered names. */
  lemma AgreedName(v: string, tags: seq<Tag>, name: string) returns (i: nat)
    requires PartsAgree(v, tags) && AllClean(tags) && TagsOf(v).Some? && name != "" && name in TagsOf(v).value
    ensures i < |tags| && tags[i].name != "" && tags[i].name[0] == name[0]
  {
    var q := Split(v, ';');
    UnfoldedParts(v);
    hide CanonPart, TrimSpace, Split, TagText, RemoveLineEnds, TagsOf, PartText;
    i := PartsTagsHead(MapUnfold(q), name);
    PartTextIs(q[i]);
    HeadPart(q[i]);
    assert CleanTag(tags[i]);
    CanonHeadOfTag(tags[i]);
  }
}
