// internal/arc/canon.go: line endings, header parsing, canonicalisation and tag lists.
// Each loop of the source is a method proved against a function of its input.

module ArcCanon {
  import opened Options
  import opened Text

  datatype Field = Field(name: string, raw: string)

  datatype Message = Message(fields: seq<Field>, body: string)

  type Tags = map<string, string>

  const AAR: string := "ARC-Authentication-Results"
  const AMS: string := "ARC-Message-Signature"
  const AS: string := "ARC-Seal"
  const MAX_INSTANCES: nat := 50

  function Value(f: Field): string {
    var i := IndexByte(f.raw, ':');
    if i >= 0 then f.raw[i + 1..] else ""
  }

  // ----- line endings -----

  function Norm(s: string): string
    decreases |s|
  {
    if s == "" then ""
    else if s[0] == '\r' then
      CRLF + Norm(if |s| > 1 && s[1] == '\n' then s[2..] else s[1..])
    else if s[0] == '\n' then CRLF + Norm(s[1..])
    else [s[0]] + Norm(s[1..])
  }

  /** What `normalizeLineEndings` returns: bytes without any line feed are left alone. */
  function Normalized(raw: string): string {
    if '\n' in raw then Norm(raw) else raw
  }

  method NormalizeLineEndings(raw: string) returns (out: string)
    ensures out == Normalized(raw)
  {
    if '\n' !in raw {
      return raw;
    }
    hide Norm;
    out := "";
    var i := 0;
    assert raw[0..] == raw;
    while i < |raw|
      invariant 0 <= i <= |raw|
      invariant out + Norm(raw[i..]) == Norm(raw)
    {
      NormStep(raw, i);
      if raw[i] == '\r' {
        if i + 1 < |raw| && raw[i + 1] == '\n' {
          AppendAssoc(out, CRLF, Norm(raw[i + 2..]));
          out := out + CRLF;
          i := i + 1;
        } else {
          AppendAssoc(out, CRLF, Norm(raw[i + 1..]));
          out := out + CRLF;
        }
      } else if raw[i] == '\n' {
        AppendAssoc(out, CRLF, Norm(raw[i + 1..]));
        out := out + CRLF;
      } else {
        AppendAssoc(out, [raw[i]], Norm(raw[i + 1..]));
        out := out + [raw[i]];
      }
      i := i + 1;
    }
    assert raw[i..] == "" && Norm("") == "" by { NormEmpty(); }
  }

  lemma NormEmpty()
    ensures Norm("") == ""
  {
  }

  lemma AppendAssoc(a: string, b: string, c: string)
    ensures a + (b + c) == a + b + c
  {
  }

  lemma NormStep(raw: string, i: nat)
    requires i < |raw|
    ensures Norm(raw[i..]) ==
      if raw[i] == '\r' && i + 1 < |raw| && raw[i + 1] == '\n' then CRLF + Norm(raw[i + 2..])
      else (if IsLineEnd(raw[i]) then CRLF else [raw[i]]) + Norm(raw[i + 1..])
  {
    assert raw[i..][1..] == raw[i + 1..];
    assert i + 1 < |raw| ==> raw[i..][2..] == raw[i + 2..];
  }

  // ----- splitting a message into header fields and body -----

  predicate CRLFAt(s: string, i: int) {
    0 <= i && i + 1 < |s| && s[i] == '\r' && s[i + 1] == '\n'
  }

  /** The first position of CRLF, or -1. */
  function FindCRLF(s: string): (r: int)
    ensures -1 <= r < |s|
    ensures r >= 0 ==> CRLFAt(s, r)
    ensures forall i :: 0 <= i < (if r < 0 then |s| else r) ==> !CRLFAt(s, i)
  {
    if |s| < 2 then -1
    else if CRLFAt(s, 0) then 0
    else
      var r := FindCRLF(s[1..]);
      assert forall i :: 1 <= i < |s| ==> (CRLFAt(s, i) <==> CRLFAt(s[1..], i - 1));
      if r < 0 then -1 else r + 1
  }

  predicate BlankLineAt(s: string, i: int) {
    CRLFAt(s, i) && CRLFAt(s, i + 2)
  }

  /** The first position of CRLF CRLF, or -1. */
  function FindBlankLine(s: string): (r: int)
    ensures -1 <= r < |s|
    ensures r >= 0 ==> BlankLineAt(s, r)
    ensures forall i :: 0 <= i < (if r < 0 then |s| else r) ==> !BlankLineAt(s, i)
  {
    if |s| < 4 then -1
    else if BlankLineAt(s, 0) then 0
    else
      var r := FindBlankLine(s[1..]);
      assert forall i :: 1 <= i < |s| ==> (BlankLineAt(s, i) <==> BlankLineAt(s[1..], i - 1));
      if r < 0 then -1 else r + 1
  }

  /** The lines of a header block, each with its line end. */
  function Lines(head: string): seq<string>
    decreases |head|
  {
    if head == "" then []
    else
      var i := FindCRLF(head);
      if i < 0 then [head] else [head[..i + 2]] + Lines(head[i + 2..])
  }

  predicate Continues(line: string) {
    line != "" && IsBlank(line[0])
  }

  /** Joins continuation lines to the field before them, if there is one. */
  function Merge(raws: seq<string>, lines: seq<string>): seq<string>
    decreases |lines|
  {
    if lines == [] then raws
    else if Continues(lines[0]) && raws != [] then
      Merge(raws[..|raws| - 1] + [raws[|raws| - 1] + lines[0]], lines[1..])
    else Merge(raws + [lines[0]], lines[1..])
  }

  function DropCRLF(s: string): string {
    if |s| >= 2 && CRLFAt(s, |s| - 2) then s[..|s| - 2] else s
  }

  /** The field a raw header stands for, or nothing when it has no name. */
  function FieldOf(raw: string): seq<Field> {
    var r := DropCRLF(raw);
    var colon := IndexByte(r, ':');
    if colon <= 0 then [] else [Field(TrimRightBlanks(r[..colon]), r)]
  }

  function FieldsOf(raws: seq<string>): seq<Field> {
    if raws == [] then [] else FieldOf(raws[0]) + FieldsOf(raws[1..])
  }

  function HeadOf(raw: string): string {
    if CRLFAt(raw, 0) then ""
    else
      var i := FindBlankLine(raw);
      if i >= 0 then raw[..i + 2] else raw
  }

  function BodyOf(raw: string): string {
    if CRLFAt(raw, 0) then raw[2..]
    else
      var i := FindBlankLine(raw);
      if i >= 0 then raw[i + 4..] else ""
  }

  /** What `splitMessage` returns. */
  function MessageOf(raw: string): Message {
    Message(FieldsOf(Merge([], Lines(HeadOf(raw)))), BodyOf(raw))
  }

  method SplitMessage(raw: string) returns (m: Message)
    ensures m == MessageOf(raw)
  {
    var head, body := HeadOf(raw), BodyOf(raw);
    var raws: seq<string> := [];
    var lines := Lines(head);
    assert lines[0..] == lines;
    for i := 0 to |lines|
      invariant Merge(raws, lines[i..]) == Merge([], lines)
    {
      var line := lines[i];
      assert lines[i..][1..] == lines[i + 1..];
      if Continues(line) && |raws| > 0 {
        raws := raws[..|raws| - 1] + [raws[|raws| - 1] + line];
      } else {
        raws := raws + [line];
      }
    }
    assert lines[|lines|..] == [];
    var fields := NamedFields(raws);
    m := Message(fields, body);
  }

  method NamedFields(raws: seq<string>) returns (out: seq<Field>)
    ensures out == FieldsOf(raws)
  {
    out := [];
    assert raws[0..] == raws;
    for i := 0 to |raws|
      invariant out + FieldsOf(raws[i..]) == FieldsOf(raws)
    {
      assert raws[i..][1..] == raws[i + 1..];
      var named := FieldOf(raws[i]);
      assert out + (named + FieldsOf(raws[i + 1..])) == out + named + FieldsOf(raws[i + 1..]);
      out := out + named;
    }
  }

  // ----- canonicalisation -----

  /** Every run of spaces and tabs becomes one space. */
  function Compressed(s: string): (t: string)
    ensures t != "" ==> s != ""
  {
    if s == "" then ""
    else if !IsBlank(s[0]) then [s[0]] + Compressed(s[1..])
    else if |s| > 1 && IsBlank(s[1]) then Compressed(s[1..])
    else " " + Compressed(s[1..])
  }

  method CompressWSP(s: string) returns (out: string)
    ensures out == Compressed(s)
  {
    hide Pending, Compressed;
    out := "";
    var space := false;
    assert s[0..] == s;
    PendingEnds(s);
    assert "" + Compressed(s) == Compressed(s);
    for i := 0 to |s|
      invariant out + Pending(space, s[i..]) == Compressed(s)
    {
      PendingStep(space, s, i);
      var rest := Pending(false, s[i + 1..]);
      assert out + (" " + [s[i]] + rest) == out + " " + [s[i]] + rest;
      assert out + ("" + [s[i]] + rest) == out + [s[i]] + rest;
      if IsBlank(s[i]) {
        space := true;
        continue;
      }
      if space {
        out := out + " ";
        space := false;
      }
      out := out + [s[i]];
    }
    assert s[|s|..] == "" && out + "" == out;
    if space {
      out := out + " ";
    }
  }

  lemma PendingEnds(s: string)
    ensures Pending(false, s) == Compressed(s) && Pending(false, "") == "" && Pending(true, "") == " "
  {
    assert " " + "" == " " && " "[1..] == "";
  }

  /** What is still to be written when a run of blanks may be open before `rest`. */
  function Pending(space: bool, rest: string): string {
    if space then Compressed(" " + rest) else Compressed(rest)
  }

  lemma PendingStep(space: bool, s: string, i: nat)
    requires i < |s|
    ensures Pending(space, s[i..]) ==
      if IsBlank(s[i]) then Pending(true, s[i + 1..])
      else (if space then " " else "") + [s[i]] + Pending(false, s[i + 1..])
  {
    var rest := s[i + 1..];
    assert s[i..] == [s[i]] + rest;
    assert (" " + s[i..])[1..] == s[i..];
    if IsBlank(s[i]) {
      BlankHead(s[i], rest);
    } else {
      assert Compressed(s[i..]) == [s[i]] + Compressed(rest);
      assert Compressed(" " + s[i..]) == " " + Compressed(s[i..]);
      assert " " + ([s[i]] + Compressed(rest)) == " " + [s[i]] + Compressed(rest);
    }
  }

  lemma BlankHead(c: char, rest: string)
    requires IsBlank(c)
    ensures Compressed([c] + rest) == Compressed(" " + rest)
    ensures Compressed(" " + ([c] + rest)) == Compressed(" " + rest)
  {
    assert ([c] + rest)[1..] == rest;
    assert (" " + rest)[1..] == rest;
    assert (" " + ([c] + rest))[1..] == [c] + rest;
  }

  /** The canonical form of a header field, without its line end. */
  function Canon(f: Field, relaxed: bool): string {
    if relaxed then
      ToLower(TrimSpace(f.name)) + ":" + TrimSpace(Compressed(RemoveLineEnds(Value(f))))
    else f.raw
  }

  function CanonHeader(f: Field, relaxed: bool): string {
    Canon(f, relaxed) + CRLF
  }

  function SplitLines(s: string): (lines: seq<string>)
    ensures |lines| >= 1
    ensures forall l :: l in lines ==> FindCRLF(l) < 0
    decreases |s|
  {
    var i := FindCRLF(s);
    if i < 0 then [s]
    else
      assert forall k :: 0 <= k < i ==> (CRLFAt(s[..i], k) ==> CRLFAt(s, k));
      [s[..i]] + SplitLines(s[i + 2..])
  }

  function CanonBodyLine(l: string, relaxed: bool): string {
    if relaxed then TrimRightSpaceChar(Compressed(l)) else l
  }

  function CanonBodyLines(lines: seq<string>, relaxed: bool): (r: seq<string>)
    ensures |r| == |lines|
  {
    seq(|lines|, i requires 0 <= i < |lines| => CanonBodyLine(lines[i], relaxed))
  }

  function DropTrailingEmpty(lines: seq<string>): (r: seq<string>)
    ensures r <= lines
    ensures r == [] || r[|r| - 1] != ""
  {
    if lines != [] && lines[|lines| - 1] == "" then DropTrailingEmpty(lines[..|lines| - 1]) else lines
  }

  function BodyText(lines: seq<string>, relaxed: bool): string {
    if lines == [] then (if relaxed then "" else CRLF) else Join(lines, CRLF) + CRLF
  }

  /** What `canonBody` returns. */
  function CanonBodyOf(body: string, relaxed: bool): string {
    BodyText(DropTrailingEmpty(CanonBodyLines(SplitLines(body), relaxed)), relaxed)
  }

  method CanonBody(body: string, relaxed: bool) returns (out: string)
    ensures out == CanonBodyOf(body, relaxed)
  {
    var lines := SplitLines(body);
    ghost var all := lines;
    if |lines| > 0 && lines[|lines| - 1] == "" {
      lines := lines[..|lines| - 1];
    }
    ghost var kept := lines;
    if relaxed {
      for i := 0 to |lines|
        invariant |lines| == |kept|
        invariant forall k :: 0 <= k < i ==> lines[k] == CanonBodyLine(kept[k], true)
        invariant forall k :: i <= k < |lines| ==> lines[k] == kept[k]
      {
        var c := CompressWSP(lines[i]);
        lines := lines[i := TrimRightSpaceChar(c)];
      }
    }
    assert lines == CanonBodyLines(kept, relaxed);
    ghost var want := CanonBodyLines(all, relaxed);
    assert DropTrailingEmpty(lines) == DropTrailingEmpty(want) by {
      if kept != all {
        assert want[..|want| - 1] == lines;
        assert want[|want| - 1] == "";
      }
    }
    while |lines| > 0 && lines[|lines| - 1] == ""
      invariant DropTrailingEmpty(lines) == DropTrailingEmpty(want)
    {
      lines := lines[..|lines| - 1];
    }
    if |lines| == 0 {
      return if relaxed then "" else CRLF;
    }
    out := Join(lines, CRLF) + CRLF;
  }

  // ----- tag lists -----

  function TagOf(t: Tags, name: string): string {
    if name in t then t[name] else ""
  }

  function AddPart(t: Tags, part: string): Option<Tags> {
    var p := TrimSpace(part);
    if p == "" then Some(t)
    else
      var eq := IndexByte(p, '=');
      if eq <= 0 then None
      else
        var name := TrimSpace(p[..eq]);
        if name in t then None else Some(t[name := TrimSpace(p[eq + 1..])])
  }

  function PartsTags(parts: seq<string>): Option<Tags> {
    if parts == [] then Some(map[])
    else
      match PartsTags(parts[..|parts| - 1])
      case None => None
      case Some(t) => AddPart(t, parts[|parts| - 1])
  }

  /** What `parseTags` returns; None stands for its false. */
  function TagsOf(v: string): Option<Tags> {
    PartsTags(Split(RemoveLineEnds(v), ';'))
  }

  method ParseTags(v: string) returns (r: Option<Tags>)
    ensures r == TagsOf(v)
  {
    var tags: Tags := map[];
    var parts := Split(RemoveLineEnds(v), ';');
    for i := 0 to |parts|
      invariant PartsTags(parts[..i]) == Some(tags)
    {
      assert parts[..i + 1][..i] == parts[..i];
      var next := AddPart(tags, parts[i]);
      if next.None? {
        NoTagsLater(parts, i + 1);
        return None;
      }
      tags := next.value;
    }
    assert parts[..|parts|] == parts;
    r := Some(tags);
  }

  lemma {:induction false} NoTagsLater(parts: seq<string>, i: nat)
    requires i <= |parts| && PartsTags(parts[..i]).None?
    ensures PartsTags(parts).None?
    decreases |parts| - i
  {
    if i == |parts| {
      assert parts[..i] == parts;
    } else {
      assert parts[..i + 1][..i] == parts[..i];
      NoTagsLater(parts, i + 1);
    }
  }

  // ----- the signature tag -----

  function SkipSpaces(s: string): (n: nat)
    ensures n <= |s|
    ensures forall i :: 0 <= i < n ==> IsBlank(s[i]) || IsLineEnd(s[i])
    ensures n < |s| ==> !IsBlank(s[n]) && !IsLineEnd(s[n])
  {
    if s != "" && (IsBlank(s[0]) || IsLineEnd(s[0])) then
      var n := SkipSpaces(s[1..]);
      1 + n
    else 0
  }

  /** Empties the value of one `;`-separated part when its name is b. */
  function StripPart(p: string): string {
    var a := SkipSpaces(p);
    if a < |p| && p[a] == 'b' then
      var e := a + 1 + SkipSpaces(p[a + 1..]);
      if e < |p| && p[e] == '=' then p[..e + 1] else p
    else p
  }

  function StripValue(v: string): string
    decreases |v|
  {
    var i := IndexByte(v, ';');
    if i < 0 then StripPart(v) else StripPart(v[..i]) + ";" + StripValue(v[i + 1..])
  }

  /** What `stripSignature` returns: a match of the expression reaches from the start of a part to its end. */
  function StripSignature(f: Field): Field {
    var colon := IndexByte(f.raw, ':');
    f.(raw := f.raw[..colon + 1] + StripValue(f.raw[colon + 1..]))
  }

  // ----- the instance number -----

  function AarInstanceText(v: string): string {
    var semi := IndexByte(v, ';');
    var tag := TrimSpace(v[..if semi < 0 then |v| else semi]);
    var eq := IndexByte(tag, '=');
    if tag == "" || tag[0] != 'i' || eq < 0 || TrimSpace(tag[..eq]) != "i" then ""
    else TrimSpace(tag[eq + 1..])
  }

  function InstanceText(f: Field): string {
    if EqualFold(f.name, AAR) then AarInstanceText(TrimSpace(RemoveLineEnds(Value(f))))
    else
      match TagsOf(Value(f))
      case None => ""
      case Some(t) => TagOf(t, "i")
  }

  /** What `instanceOf` returns; None stands for its false. */
  function InstanceOf(f: Field): (r: Option<nat>)
    ensures r.Some? ==> 1 <= r.value <= MAX_INSTANCES
  {
    match Atoi(InstanceText(f))
    case None => None
    case Some(n) => if 1 <= n <= MAX_INSTANCES then Some(n) else None
  }
}
