// Byte strings and the few operations of Go's `strings` package that the mail code uses.
// A byte is a `char`; spaces and letter case are those of ASCII.

module Options {
  datatype Option<+T> = None | Some(value: T)
}

module Text {
  import opened Options

  const CRLF: string := "\r\n"

  predicate IsSpace(c: char) {
    c == ' ' || 9 <= c as int <= 13
  }

  predicate IsBlank(c: char) {
    c == ' ' || c == '\t'
  }

  predicate IsLineEnd(c: char) {
    c == '\r' || c == '\n'
  }

  /** No carriage return and no line feed. */
  predicate OneLine(s: string) {
    '\r' !in s && '\n' !in s
  }

  function TrimLeft(s: string): (t: string)
    ensures t == "" || !IsSpace(t[0])
  {
    if s != "" && IsSpace(s[0]) then TrimLeft(s[1..]) else s
  }

  function TrimRight(s: string): (t: string)
    ensures t <= s
    ensures t == "" || !IsSpace(t[|t| - 1])
  {
    if s != "" && IsSpace(s[|s| - 1]) then TrimRight(s[..|s| - 1]) else s
  }

  function TrimSpace(s: string): string {
    TrimRight(TrimLeft(s))
  }

  /** Nothing that `TrimSpace` would remove. */
  predicate Trimmed(s: string) {
    s == "" || (!IsSpace(s[0]) && !IsSpace(s[|s| - 1]))
  }

  function TrimRightBlanks(s: string): (t: string)
    ensures t <= s
  {
    if s != "" && IsBlank(s[|s| - 1]) then TrimRightBlanks(s[..|s| - 1]) else s
  }

  function TrimRightSpaceChar(s: string): (t: string)
    ensures t <= s
    ensures t == "" || t[|t| - 1] != ' '
  {
    if s != "" && s[|s| - 1] == ' ' then TrimRightSpaceChar(s[..|s| - 1]) else s
  }

  function Lower(c: char): char {
    if 'A' <= c <= 'Z' then (c as int + 32) as char else c
  }

  function ToLower(s: string): (t: string)
    ensures |t| == |s|
  {
    seq(|s|, i requires 0 <= i < |s| => Lower(s[i]))
  }

  predicate EqualFold(a: string, b: string) {
    ToLower(a) == ToLower(b)
  }

  /** The first position of `c`, or -1. */
  function IndexByte(s: string, c: char): (r: int)
    ensures -1 <= r < |s|
    ensures r == -1 <==> c !in s
    ensures r >= 0 ==> s[r] == c && c !in s[..r]
  {
    if s == "" then -1
    else if s[0] == c then 0
    else
      var r := IndexByte(s[1..], c);
      assert s == [s[0]] + s[1..];
      if r < 0 then -1 else assert s[..r + 1] == [s[0]] + s[1..][..r]; r + 1
  }

  /** The last position of `c`, or -1. */
  function LastIndex(s: string, c: char): (r: int)
    ensures -1 <= r < |s|
    ensures r >= 0 ==> s[r] == c
    ensures forall k :: r < k < |s| ==> s[k] != c
  {
    if s == "" then -1
    else if s[|s| - 1] == c then |s| - 1
    else LastIndex(s[..|s| - 1], c)
  }

  function Split(s: string, c: char): (parts: seq<string>)
    ensures |parts| >= 1
    ensures forall p :: p in parts ==> c !in p
    decreases |s|
  {
    var i := IndexByte(s, c);
    if i < 0 then [s] else [s[..i]] + Split(s[i + 1..], c)
  }

  function Join(parts: seq<string>, sep: string): string {
    if |parts| == 0 then ""
    else if |parts| == 1 then parts[0]
    else parts[0] + sep + Join(parts[1..], sep)
  }

  function RemoveLineEnds(s: string): (t: string)
    ensures OneLine(t)
  {
    if s == "" then ""
    else if IsLineEnd(s[0]) then RemoveLineEnds(s[1..])
    else [s[0]] + RemoveLineEnds(s[1..])
  }

  function RemoveSpaces(s: string): string {
    if s == "" then ""
    else if IsBlank(s[0]) || IsLineEnd(s[0]) then RemoveSpaces(s[1..])
    else [s[0]] + RemoveSpaces(s[1..])
  }

  function Digit(d: nat): char
    requires d < 10
  {
    ('0' as int + d) as char
  }

  /** Decimal digits, as `%d` prints a non-negative integer. */
  function Decimal(n: nat): (s: string)
    ensures s != "" && forall i :: 0 <= i < |s| ==> '0' <= s[i] <= '9'
  {
    if n < 10 then [Digit(n)] else Decimal(n / 10) + [Digit(n % 10)]
  }

  function FormatInt(n: int): string {
    if n < 0 then "-" + Decimal(-n) else Decimal(n)
  }

  predicate AllDigits(s: string) {
    forall i :: 0 <= i < |s| ==> '0' <= s[i] <= '9'
  }

  function DigitsValue(s: string): nat
    requires AllDigits(s)
  {
    if s == "" then 0
    else DigitsValue(s[..|s| - 1]) * 10 + (s[|s| - 1] as int - '0' as int)
  }

  /** `strconv.Atoi` without the overflow error: the callers reject every large value themselves. */
  function Atoi(s: string): Option<int> {
    var signed := s != "" && (s[0] == '-' || s[0] == '+');
    var d := if signed then s[1..] else s;
    if d == "" || !AllDigits(d) then None
    else if signed && s[0] == '-' then Some(-(DigitsValue(d) as int))
    else Some(DigitsValue(d))
  }

  // ----- facts -----

  lemma {:induction false} DecimalValue(n: nat)
    ensures AllDigits(Decimal(n)) && DigitsValue(Decimal(n)) == n
  {
    if n >= 10 {
      DecimalValue(n / 10);
      var s := Decimal(n);
      assert s[..|s| - 1] == Decimal(n / 10);
    } else {
      assert Decimal(n)[..0] == "";
    }
  }

  lemma AtoiDecimal(n: nat)
    ensures Atoi(Decimal(n)) == Some(n)
  {
    DecimalValue(n);
  }

  lemma {:induction false} TrimLeftSpace(c: char, s: string)
    requires IsSpace(c)
    ensures TrimLeft([c] + s) == TrimLeft(s)
  {
    assert ([c] + s)[1..] == s;
  }

  lemma LowerTwice(s: string)
    ensures ToLower(ToLower(s)) == ToLower(s)
  {
  }

  lemma TrimTrimmed(s: string)
    requires Trimmed(s)
    ensures TrimSpace(s) == s
  {
  }

  lemma TrimSpacePrefixed(s: string)
    requires Trimmed(s)
    ensures TrimSpace(" " + s) == s
  {
    TrimLeftSpace(' ', s);
  }

  lemma {:induction false} SplitCons(a: string, rest: string, c: char)
    requires c !in a
    ensures Split(a + [c] + rest, c) == [a] + Split(rest, c)
  {
    var s := a + [c] + rest;
    var i := IndexByte(s, c);
    assert s[|a|] == c;
    assert i <= |a| by {
      assert forall k :: 0 <= k < i ==> s[k] in s[..i];
    }
    assert s[..i] == a && s[i + 1..] == rest;
  }

  lemma SplitWhole(s: string, c: char)
    requires c !in s
    ensures Split(s, c) == [s]
  {
  }

  lemma {:induction false} RemoveLineEndsOneLine(s: string)
    requires OneLine(s)
    ensures RemoveLineEnds(s) == s
  {
    if s != "" {
      RemoveLineEndsOneLine(s[1..]);
    }
  }

  lemma {:induction false} RemoveLineEndsAppend(a: string, b: string)
    ensures RemoveLineEnds(a + b) == RemoveLineEnds(a) + RemoveLineEnds(b)
  {
    if a == "" {
      assert a + b == b;
    } else {
      assert (a + b)[1..] == a[1..] + b;
      RemoveLineEndsAppend(a[1..], b);
    }
  }

  lemma {:induction false} RemoveSpacesNone(s: string)
    requires forall i :: 0 <= i < |s| ==> !IsBlank(s[i]) && !IsLineEnd(s[i])
    ensures RemoveSpaces(s) == s
  {
    if s != "" {
      RemoveSpacesNone(s[1..]);
    }
  }

  lemma NoLastIndex(s: string, c: char)
    requires c !in s
    ensures LastIndex(s, c) == -1
  {
    hide LastIndex;
    var r := LastIndex(s, c);
  }

  /** The last `c` stands in front of what holds none. */
  lemma LastIndexAt(before: string, c: char, rest: string)
    requires c !in rest
    ensures LastIndex(rest, c) == -1 && LastIndex(before + [c] + rest, c) == |before|
  {
    hide LastIndex;
    NoLastIndex(rest, c);
    var s := before + [c] + rest;
    BehindLast(before, c, rest);
    var r := LastIndex(s, c);
    assert s[|before|] == c;
  }

  lemma BehindLast(before: string, c: char, rest: string)
    requires c !in rest
    ensures forall k :: |before| < k < |before| + 1 + |rest| ==> (before + [c] + rest)[k] != c
  {
    var s := before + [c] + rest;
    forall k | |before| < k < |s|
      ensures s[k] != c
    {
      assert s[k] == rest[k - |before| - 1];
    }
  }

  /** Lower case is that of the 26 letters, and nothing else changes. */
  lemma LowerExactly(s: string, i: nat, k: nat)
    requires i < |s|
    ensures k < 26 && s[i] == "ABCDEFGHIJKLMNOPQRSTUVWXYZ"[k] ==> ToLower(s)[i] == "abcdefghijklmnopqrstuvwxyz"[k]
    ensures s[i] !in "ABCDEFGHIJKLMNOPQRSTUVWXYZ" ==> ToLower(s)[i] == s[i]
  {
    var upper, lower := "ABCDEFGHIJKLMNOPQRSTUVWXYZ", "abcdefghijklmnopqrstuvwxyz";
    assert forall j :: 0 <= j < 26 ==> upper[j] as int == 65 + j && lower[j] as int == 97 + j;
    if 'A' <= s[i] <= 'Z' {
      assert upper[s[i] as int - 65] == s[i];
    }
  }

  /** A number is an optional sign and at least one digit, and nothing else. */
  lemma AtoiExactly(sign: string, digits: string)
    requires sign == "" || sign == "+" || sign == "-"
    requires digits != "" ==> digits[0] != '+' && digits[0] != '-'
    ensures Atoi(sign + digits).Some? <==> digits != "" && forall i :: 0 <= i < |digits| ==> '0' <= digits[i] <= '9'
    ensures Atoi(digits).Some? ==> Atoi(sign + digits) == Some(if sign == "-" then -Atoi(digits).value else Atoi(digits).value)
  {
    hide DigitsValue;
    var s := sign + digits;
    if sign == "" {
      assert s == digits;
    } else {
      assert s[0] == sign[0] && s[1..] == digits;
    }
  }

  /** The spaces are those of ASCII: blank, tab, line feed, vertical tab, form feed, carriage return. */
  predicate AsciiSpace(c: char) {
    c == ' ' || c == '\t' || c == '\n' || c == 11 as char || c == 12 as char || c == '\r'
  }

  /** Trimming takes spaces, and nothing else, from both ends. */
  lemma {:induction false} TrimExactly(w: string, s: string, u: string)
    requires (forall i :: 0 <= i < |w| ==> AsciiSpace(w[i])) && forall i :: 0 <= i < |u| ==> AsciiSpace(u[i])
    requires s != "" ==> !AsciiSpace(s[0]) && !AsciiSpace(s[|s| - 1])
    ensures TrimSpace(w + s + u) == s
    decreases |w|
  {
    if w == "" {
      assert w + s + u == s + u;
      if s == "" {
        assert s + u == u;
        AllSpace(u);
      } else {
        assert TrimLeft(s + u) == s + u;
        TrimTail(s, u);
      }
    } else {
      assert w + s + u == [w[0]] + (w[1..] + s + u);
      TrimLeftSpace(w[0], w[1..] + s + u);
      TrimExactly(w[1..], s, u);
    }
  }

  lemma {:induction false} AllSpace(u: string)
    requires forall i :: 0 <= i < |u| ==> AsciiSpace(u[i])
    ensures TrimSpace(u) == ""
  {
    if u != "" {
      assert u == [u[0]] + u[1..];
      TrimLeftSpace(u[0], u[1..]);
      AllSpace(u[1..]);
    }
  }

  lemma {:induction false} TrimTail(s: string, u: string)
    requires (forall i :: 0 <= i < |u| ==> AsciiSpace(u[i])) && s != "" && !AsciiSpace(s[|s| - 1])
    ensures TrimRight(s + u) == s
  {
    if u == "" {
      assert s + u == s;
    } else {
      assert (s + u)[..|s| + |u| - 1] == s + u[..|u| - 1];
      TrimTail(s, u[..|u| - 1]);
    }
  }

  /** Blanks and line ends are taken out wherever they stand. */
  lemma {:induction false} RemoveSpacesExactly(a: string, c: char, b: string)
    ensures c == ' ' || c == '\t' || c == '\r' || c == '\n' ==> RemoveSpaces(a + [c] + b) == RemoveSpaces(a + b)
  {
    if a == "" {
      assert a + [c] + b == [c] + b && a + b == b && ([c] + b)[1..] == b;
    } else {
      assert (a + [c] + b)[1..] == a[1..] + [c] + b && (a + b)[1..] == a[1..] + b;
      RemoveSpacesExactly(a[1..], c, b);
    }
  }
}
