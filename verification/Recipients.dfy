// internal/api/recipients.go and internal/store/recipients.go: the normal form of a list of known recipients.

module Recipients {
  import opened Options
  import opened Text

  const MAX_RECIPIENTS: nat := 100000

  // ----- the order of strings -----

  predicate Less(a: string, b: string) {
    if b == "" then false
    else if a == "" then true
    else a[0] < b[0] || (a[0] == b[0] && Less(a[1..], b[1..]))
  }

  lemma {:induction false} LessTotal(a: string, b: string)
    ensures Less(a, b) || a == b || Less(b, a)
    ensures !(Less(a, b) && Less(b, a)) && !Less(a, a)
  {
    if a != "" && b != "" {
      LessTotal(a[1..], b[1..]);
      assert a == [a[0]] + a[1..] && b == [b[0]] + b[1..];
    }
    LessIrreflexive(a);
  }

  lemma {:induction false} LessIrreflexive(a: string)
    ensures !Less(a, a)
  {
    if a != "" {
      LessIrreflexive(a[1..]);
    }
  }

  lemma {:induction false} LessTransitive(a: string, b: string, c: string)
    requires Less(a, b) && Less(b, c)
    ensures Less(a, c)
  {
    if a != "" {
      if a[0] == b[0] == c[0] {
        LessTransitive(a[1..], b[1..], c[1..]);
      }
    }
  }

  // ----- sorted without repetition -----

  ghost predicate StrictlySorted(s: seq<string>) {
    forall i, j :: 0 <= i < j < |s| ==> Less(s[i], s[j])
  }

  /** `x` put in its place in a strictly sorted list, unless it is there. */
  function Insert(x: string, s: seq<string>): seq<string> {
    if s == [] then [x]
    else if x == s[0] then s
    else if Less(x, s[0]) then [x] + s
    else [s[0]] + Insert(x, s[1..])
  }

  /** Sorting and then dropping the repetitions. */
  function SortCompact(s: seq<string>): seq<string> {
    if s == [] then [] else Insert(s[0], SortCompact(s[1..]))
  }

  function Elements(s: seq<string>): set<string> {
    set x | x in s
  }

  lemma {:induction false} InsertSorted(x: string, s: seq<string>)
    requires StrictlySorted(s)
    ensures StrictlySorted(Insert(x, s))
    ensures forall y :: y in Insert(x, s) <==> y == x || y in s
  {
    if s != [] && x != s[0] {
      LessTotal(x, s[0]);
      if Less(x, s[0]) {
        forall j | 0 < j < |s|
          ensures Less(x, s[j])
        {
          LessTransitive(x, s[0], s[j]);
        }
      } else {
        InsertSorted(x, s[1..]);
        InsertAfter(x, s);
      }
    }
  }

  lemma InsertAfter(x: string, s: seq<string>)
    requires StrictlySorted(s) && s != [] && Less(s[0], x) && x != s[0] && !Less(x, s[0])
    requires StrictlySorted(Insert(x, s[1..]))
    requires forall y :: y in Insert(x, s[1..]) <==> y == x || y in s[1..]
    ensures StrictlySorted(Insert(x, s))
    ensures forall y :: y in Insert(x, s) <==> y == x || y in s
  {
    hide Less;
    var rest := Insert(x, s[1..]);
    assert Insert(x, s) == [s[0]] + rest;
    assert s == [s[0]] + s[1..];
    hide Insert;
    forall i | 0 <= i < |rest|
      ensures Less(s[0], rest[i])
    {
      assert rest[i] in rest;
      if rest[i] != x {
        var k :| 0 <= k < |s[1..]| && s[1..][k] == rest[i];
        assert s[k + 1] == rest[i];
      }
    }
    SortedCons(s[0], rest);
  }

  lemma SortedCons(x: string, rest: seq<string>)
    requires StrictlySorted(rest) && forall i :: 0 <= i < |rest| ==> Less(x, rest[i])
    ensures StrictlySorted([x] + rest)
  {
    hide Less;
  }

  lemma {:induction false} SortCompactIs(s: seq<string>)
    ensures StrictlySorted(SortCompact(s)) && Elements(SortCompact(s)) == Elements(s)
  {
    if s != [] {
      SortCompactIs(s[1..]);
      InsertSorted(s[0], SortCompact(s[1..]));
      hide Less, StrictlySorted;
      assert s == [s[0]] + s[1..];
      forall y
        ensures y in SortCompact(s) <==> y in s
      {
        assert y in s[1..] <==> y in Elements(s[1..]);
        assert y in SortCompact(s[1..]) <==> y in Elements(SortCompact(s[1..]));
      }
    }
  }

  /** A strictly sorted list is determined by its elements. */
  lemma {:induction false} SortedUnique(a: seq<string>, b: seq<string>)
    requires StrictlySorted(a) && StrictlySorted(b) && forall y :: y in a <==> y in b
    ensures a == b
  {
    assert b != [] ==> b[0] in b;
    if a != [] {
      assert a[0] in a;
      FirstIsLeast(a, b);
      FirstIsLeast(b, a);
      LessTotal(a[0], b[0]);
      TailElements(a);
      TailElements(b);
      hide Less;
      SortedUnique(a[1..], b[1..]);
      assert a == [a[0]] + a[1..] && b == [b[0]] + b[1..];
    }
  }

  lemma FirstIsLeast(a: seq<string>, b: seq<string>)
    requires StrictlySorted(a) && a != [] && (forall y :: y in b ==> y in a)
    ensures b != [] ==> a[0] == b[0] || Less(a[0], b[0])
  {
    hide Less;
    if b != [] {
      assert b[0] in b;
      var k :| 0 <= k < |a| && a[k] == b[0];
    }
  }

  lemma TailElements(a: seq<string>)
    requires StrictlySorted(a) && a != []
    ensures StrictlySorted(a[1..]) && forall y :: y in a[1..] <==> y in a && y != a[0]
  {
    LessIrreflexive(a[0]);
    hide Less;
    assert a == [a[0]] + a[1..];
    forall y | y in a[1..]
      ensures y != a[0]
    {
      var k :| 0 <= k < |a[1..]| && a[1..][k] == y;
      assert Less(a[0], a[k + 1]);
    }
  }

  /** Sorting a strictly sorted list changes nothing. */
  lemma SortCompactTwice(s: seq<string>)
    requires StrictlySorted(s)
    ensures SortCompact(s) == s
  {
    SortCompactIs(s);
    forall y
      ensures y in SortCompact(s) <==> y in s
    {
      assert y in Elements(SortCompact(s)) <==> y in Elements(s);
    }
    SortedUnique(SortCompact(s), s);
  }

  // ----- recipients -----

  function Normalize(addr: string): string {
    ToLower(TrimSpace(addr))
  }

  predicate Forbidden(c: char) {
    c == ' ' || c == '\t' || c == '\r' || c == '\n' || c == '<' || c == '>' || c == ',' || c == ';'
  }

  /** A normalised address of the domain. */
  predicate Addresses(addr: string, domain: string) {
    var at := LastIndex(addr, '@');
    at > 0 && addr[at + 1..] == domain && forall i :: 0 <= i < |addr| ==> !Forbidden(addr[i])
  }

  /** The addresses of the list, normalised, without the empty ones; None when one is not of the domain. */
  function Cleaned(domain: string, list: seq<string>): Option<seq<string>> {
    if list == [] then Some([])
    else
      match Cleaned(domain, list[..|list| - 1])
      case None => None
      case Some(out) =>
        var addr := Normalize(list[|list| - 1]);
        if addr == "" then Some(out)
        else if Addresses(addr, domain) then Some(out + [addr])
        else None
  }

  /** What `validRecipients` returns. */
  function Valid(domain: string, list: seq<string>): Option<seq<string>> {
    if |list| > MAX_RECIPIENTS then None
    else
      match Cleaned(domain, list)
      case None => None
      case Some(out) => Some(SortCompact(out))
  }

  lemma {:induction false} CleanedNone(domain: string, list: seq<string>, n: nat)
    requires n <= |list| && Cleaned(domain, list[..n]).None?
    ensures Cleaned(domain, list).None?
    decreases |list| - n
  {
    hide Normalize, Addresses;
    if n == |list| {
      assert list[..n] == list;
    } else {
      assert list[..n + 1][..n] == list[..n];
      CleanedNone(domain, list, n + 1);
    }
  }

  method ValidRecipients(domain: string, list: seq<string>) returns (r: Option<seq<string>>)
    ensures r == Valid(domain, list)
  {
    hide Normalize, SortCompact;
    if |list| > MAX_RECIPIENTS {
      return None;
    }
    var out := [];
    for i := 0 to |list|
      invariant Cleaned(domain, list[..i]) == Some(out)
    {
      assert list[..i + 1][..i] == list[..i];
      var addr := Normalize(list[i]);
      if addr == "" {
        continue;
      }
      var at := LastIndex(addr, '@');
      if at <= 0 || addr[at + 1..] != domain || exists k :: 0 <= k < |addr| && Forbidden(addr[k]) {
        CleanedNone(domain, list, i + 1);
        return None;
      }
      out := out + [addr];
    }
    assert list[..|list|] == list;
    r := Some(SortCompact(out));
  }

  /** An address as it is stored. */
  predicate Stored(addr: string, domain: string) {
    Normalize(addr) == addr && addr != "" && Addresses(addr, domain)
  }

  lemma LowerSpaces(s: string)
    ensures Trimmed(s) ==> Trimmed(ToLower(s))
  {
    if s != "" {
      assert ToLower(s)[0] == Lower(s[0]) && ToLower(s)[|s| - 1] == Lower(s[|s| - 1]);
    }
  }

  lemma TrimmedResult(s: string)
    ensures Trimmed(TrimSpace(s))
  {
    assert TrimSpace(s) <= TrimLeft(s);
  }

  lemma NormalizeTwice(addr: string)
    ensures Normalize(Normalize(addr)) == Normalize(addr)
  {
    var t := TrimSpace(addr);
    TrimmedResult(addr);
    LowerSpaces(t);
    hide Trimmed, TrimSpace, ToLower;
    TrimTrimmed(ToLower(t));
    LowerTwice(t);
  }

  lemma {:induction false} CleanedStored(domain: string, list: seq<string>)
    requires Cleaned(domain, list).Some?
    ensures forall x :: x in Cleaned(domain, list).value ==> Stored(x, domain)
    ensures |Cleaned(domain, list).value| <= |list|
  {
    hide Normalize, Addresses;
    if list != [] {
      CleanedStored(domain, list[..|list| - 1]);
      NormalizeTwice(list[|list| - 1]);
    }
  }

  lemma {:induction false} CleanedSame(domain: string, list: seq<string>)
    requires forall i :: 0 <= i < |list| ==> Stored(list[i], domain)
    ensures Cleaned(domain, list) == Some(list)
  {
    hide Normalize, Addresses;
    if list != [] {
      assert Stored(list[|list| - 1], domain);
      CleanedSame(domain, list[..|list| - 1]);
      assert list == list[..|list| - 1] + [list[|list| - 1]];
    }
  }

  /** A list in normal form: stored addresses of the domain, strictly sorted. */
  ghost predicate NormalForm(domain: string, list: seq<string>) {
    |list| <= MAX_RECIPIENTS && StrictlySorted(list) && forall i :: 0 <= i < |list| ==> Stored(list[i], domain)
  }

  lemma {:induction false} InsertLength(x: string, s: seq<string>)
    ensures |Insert(x, s)| <= |s| + 1
  {
    hide Less;
    if s != [] && x != s[0] && !Less(x, s[0]) {
      InsertLength(x, s[1..]);
    }
  }

  lemma {:induction false} SortCompactLength(s: seq<string>)
    ensures |SortCompact(s)| <= |s|
  {
    if s != [] {
      SortCompactLength(s[1..]);
      InsertLength(s[0], SortCompact(s[1..]));
      hide Insert;
    }
  }

  /** What is accepted comes out in normal form, with the addresses of the list and no others. */
  lemma ValidIsNormal(domain: string, list: seq<string>)
    requires Valid(domain, list).Some?
    ensures NormalForm(domain, Valid(domain, list).value)
    ensures Elements(Valid(domain, list).value) == Elements(Cleaned(domain, list).value)
  {
    var out := Cleaned(domain, list).value;
    CleanedStored(domain, list);
    SortCompactIs(out);
    SortCompactLength(out);
    hide Stored, Less, SortCompact, Cleaned, StrictlySorted;
    var r := SortCompact(out);
    forall i | 0 <= i < |r|
      ensures Stored(r[i], domain)
    {
      assert r[i] in Elements(r);
    }
  }

  /** A normal form is accepted unchanged. */
  lemma NormalIsFixed(domain: string, list: seq<string>)
    requires NormalForm(domain, list)
    ensures Valid(domain, list) == Some(list)
  {
    hide Stored, Less;
    CleanedSame(domain, list);
    SortCompactTwice(list);
  }

  /** An address of the domain: something, an @, and the domain, without blanks, line ends, brackets, commas or semicolons. */
  ghost predicate AddressIn(addr: string, domain: string) {
    && '@' !in domain && (exists local :: local != "" && addr == local + "@" + domain)
    && forall c :: c in addr ==>
         c != ' ' && c != '\t' && c != '\r' && c != '\n' && c != '<' && c != '>' && c != ',' && c != ';'
  }

  lemma AddressesExactly(addr: string, domain: string)
    ensures Addresses(addr, domain) <==> AddressIn(addr, domain)
  {
    if AddressIn(addr, domain) {
      AddressGood(addr, domain);
    }
    if Addresses(addr, domain) {
      AddressSplit(addr, domain);
    }
  }

  lemma AddressGood(addr: string, domain: string)
    requires AddressIn(addr, domain)
    ensures Addresses(addr, domain)
  {
    hide LastIndex;
    var local :| local != "" && addr == local + "@" + domain;
    LastIndexAt(local, '@', domain);
    assert addr == local + ['@'] + domain;
    assert addr[|local| + 1..] == domain;
    assert forall i :: 0 <= i < |addr| ==> addr[i] in addr;
  }

  lemma AddressSplit(addr: string, domain: string)
    requires Addresses(addr, domain)
    ensures AddressIn(addr, domain)
  {
    var at := LastIndex(addr, '@');
    hide LastIndex;
    var local := addr[..at];
    assert addr == local + "@" + domain;
    assert forall k :: 0 <= k < |domain| ==> domain[k] == addr[at + 1 + k] != '@';
    forall c | c in addr
      ensures !Forbidden(c)
    {
      var i :| 0 <= i < |addr| && addr[i] == c;
    }
  }

  function AsStored(list: seq<string>, i: nat): string
    requires i < |list|
  {
    ToLower(TrimSpace(list[i]))
  }

  lemma {:induction false} CleanedExactly(domain: string, list: seq<string>)
    ensures Cleaned(domain, list).Some? <==> forall i: nat :: i < |list| ==> AsStored(list, i) == "" || AddressIn(AsStored(list, i), domain)
    ensures Cleaned(domain, list).Some? ==>
              forall x :: x in Cleaned(domain, list).value <==> x != "" && exists i: nat :: i < |list| && AsStored(list, i) == x
  {
    hide Addresses, AddressIn, ToLower, TrimSpace;
    if list != [] {
      var n := |list| - 1;
      CleanedExactly(domain, list[..n]);
      AddressesExactly(Normalize(list[n]), domain);
      assert forall i: nat :: i < n ==> AsStored(list[..n], i) == AsStored(list, i);
      assert AsStored(list, n) == Normalize(list[n]);
    }
  }

  /** A list is accepted exactly if it is not too long and every address, trimmed and in lower case, is empty or one of the
      domain; what comes out is strictly sorted and holds exactly those that are not empty. */
  lemma ValidExactly(domain: string, list: seq<string>)
    ensures Valid(domain, list).Some? <==>
              |list| <= 100_000 && forall i: nat :: i < |list| ==> AsStored(list, i) == "" || AddressIn(AsStored(list, i), domain)
    ensures Valid(domain, list).Some? ==>
              && StrictlySorted(Valid(domain, list).value)
              && forall x :: x in Valid(domain, list).value <==> x != "" && exists i: nat :: i < |list| && AsStored(list, i) == x
  {
    CleanedExactly(domain, list);
    hide AddressIn, AsStored, Cleaned, StrictlySorted, SortCompact, Stored;
    if Valid(domain, list).Some? {
      ValidIsNormal(domain, list);
      var r, out := Valid(domain, list).value, Cleaned(domain, list).value;
      assert forall x :: x in r <==> x in Elements(r);
      assert forall x :: x in out <==> x in Elements(out);
    }
  }

  /** The order is that of the bytes: a text comes before its extensions, and else the first difference decides. */
  lemma {:induction false} LessExactly(p: string, x: string, y: string)
    requires x == "" || y == "" || x[0] != y[0]
    ensures Less(p + x, p + y) <==> y != "" && (x == "" || x[0] < y[0])
  {
    if p == "" {
      assert p + x == x && p + y == y;
    } else {
      assert (p + x)[0] == p[0] == (p + y)[0] && (p + x)[1..] == p[1..] + x && (p + y)[1..] == p[1..] + y;
      LessExactly(p[1..], x, y);
    }
  }

  /** What `SetDomainRecipients` stores. */
  function Kept(list: seq<string>): seq<string> {
    SortCompact(NonEmpty(list))
  }

  function NonEmpty(list: seq<string>): seq<string> {
    if list == [] then []
    else
      var addr := Normalize(list[|list| - 1]);
      NonEmpty(list[..|list| - 1]) + (if addr == "" then [] else [addr])
  }

  lemma {:induction false} NonEmptyExactly(list: seq<string>)
    ensures forall x :: x in NonEmpty(list) <==> x != "" && exists i: nat :: i < |list| && AsStored(list, i) == x
  {
    hide ToLower, TrimSpace;
    if list != [] {
      var n := |list| - 1;
      NonEmptyExactly(list[..n]);
      assert forall i: nat :: i < n ==> AsStored(list[..n], i) == AsStored(list, i);
      assert AsStored(list, n) == Normalize(list[n]);
    }
  }

  /** What is stored of any list is strictly sorted, trimmed, in lower case, and holds nothing empty. */
  lemma KeptExactly(list: seq<string>)
    ensures StrictlySorted(Kept(list))
    ensures forall x :: x in Kept(list) <==> x != "" && exists i: nat :: i < |list| && AsStored(list, i) == x
  {
    NonEmptyExactly(list);
    SortCompactIs(NonEmpty(list));
    hide StrictlySorted, SortCompact, NonEmpty, AsStored;
    assert forall x :: x in Kept(list) <==> x in Elements(Kept(list));
    assert forall x :: x in NonEmpty(list) <==> x in Elements(NonEmpty(list));
  }

  lemma {:induction false} NonEmptySame(domain: string, list: seq<string>)
    requires forall i :: 0 <= i < |list| ==> Stored(list[i], domain)
    ensures NonEmpty(list) == list
  {
    hide Normalize, Addresses;
    if list != [] {
      NonEmptySame(domain, list[..|list| - 1]);
    }
  }

  /** Storing a normal form keeps it as it is. */
  lemma NormalIsKept(domain: string, list: seq<string>)
    requires NormalForm(domain, list)
    ensures Kept(list) == list
  {
    hide Stored, Less;
    NonEmptySame(domain, list);
    SortCompactTwice(list);
  }
}
