// internal/arc/verify.go, `collect` and `latestCV`: when the ARC fields of a message form a chain.

module ArcChain {
  import opened Options
  import opened Text
  import opened ArcCanon

  datatype Kind = Results | Signature | Seal

  datatype ArcSet = ArcSet(aar: Field, ams: Field, sl: Field)

  function KindOf(f: Field): Option<Kind> {
    if EqualFold(f.name, AAR) then Some(Results)
    else if EqualFold(f.name, AMS) then Some(Signature)
    else if EqualFold(f.name, AS) then Some(Seal)
    else None
  }

  /** What a field is to the chain: nothing, a malformed ARC field, or a numbered one. */
  datatype Mark = Plain | Malformed | Numbered(kind: Kind, n: nat)

  function MarkOf(f: Field): (m: Mark)
    ensures m.Numbered? ==> 1 <= m.n <= MAX_INSTANCES
  {
    match KindOf(f)
    case None => Plain
    case Some(k) =>
      match InstanceOf(f)
      case None => Malformed
      case Some(n) => Numbered(k, n)
  }

  /** Field `i` is the one of kind `k` for instance `n`. */
  ghost predicate Placed(fields: seq<Field>, i: int, k: Kind, n: nat) {
    0 <= i < |fields| && MarkOf(fields[i]) == Numbered(k, n)
  }

  ghost predicate Holds(fields: seq<Field>, f: Field, k: Kind, n: nat) {
    exists i :: Placed(fields, i, k, n) && fields[i] == f
  }

  ghost predicate HoldsSet(fields: seq<Field>, s: ArcSet, n: nat) {
    Holds(fields, s.aar, Results, n) && Holds(fields, s.ams, Signature, n) && Holds(fields, s.sl, Seal, n)
  }

  /** Every ARC field has an instance, at most `max`. */
  ghost predicate NumberedUpTo(fields: seq<Field>, max: nat) {
    forall i :: 0 <= i < |fields| ==>
      !MarkOf(fields[i]).Malformed? && (MarkOf(fields[i]).Numbered? ==> MarkOf(fields[i]).n <= max)
  }

  ghost predicate Unrepeated(fields: seq<Field>) {
    forall i, j, k, n :: Placed(fields, i, k, n) && Placed(fields, j, k, n) ==> i == j
  }

  ghost predicate HoldsAll(fields: seq<Field>, sets: seq<ArcSet>) {
    forall m :: 0 <= m < |sets| ==> HoldsSet(fields, sets[m], m + 1)
  }

  /** The ARC fields are exactly the sets 1..|sets|, each complete, nothing repeated, at most fifty. */
  ghost predicate Represents(fields: seq<Field>, sets: seq<ArcSet>) {
    && |sets| <= MAX_INSTANCES
    && NumberedUpTo(fields, |sets|)
    && Unrepeated(fields)
    && HoldsAll(fields, sets)
  }

  lemma HoldsOnce(fields: seq<Field>, a: ArcSet, b: ArcSet, n: nat)
    requires Unrepeated(fields) && HoldsSet(fields, a, n) && HoldsSet(fields, b, n)
    ensures a == b
  {
  }

  lemma RepresentsSize(fields: seq<Field>, a: seq<ArcSet>, b: seq<ArcSet>)
    requires Represents(fields, a) && Represents(fields, b)
    ensures |a| <= |b|
  {
    if |a| > 0 {
      assert HoldsSet(fields, a[|a| - 1], |a| - 1 + 1);
    }
  }

  /** A message has at most one chain. */
  lemma RepresentsOnce(fields: seq<Field>, a: seq<ArcSet>, b: seq<ArcSet>)
    requires Represents(fields, a) && Represents(fields, b)
    ensures a == b
  {
    RepresentsSize(fields, a, b);
    RepresentsSize(fields, b, a);
    forall m | 0 <= m < |a|
      ensures a[m] == b[m]
    {
      HoldsOnce(fields, a[m], b[m], m + 1);
    }
  }

  /** What `collect` returns; None stands for its error. */
  ghost function ChainOf(fields: seq<Field>): (r: Option<seq<ArcSet>>)
    ensures r.Some? ==> Represents(fields, r.value)
    ensures r.None? ==> forall sets :: !Represents(fields, sets)
  {
    if sets :| Represents(fields, sets) then Some(sets) else None
  }

  lemma ChainIs(fields: seq<Field>, sets: seq<ArcSet>)
    requires Represents(fields, sets)
    ensures ChainOf(fields) == Some(sets)
  {
    RepresentsOnce(fields, sets, ChainOf(fields).value);
  }

  // ----- collecting -----

  datatype Partial = Partial(aar: Option<Field>, ams: Option<Field>, sl: Option<Field>)

  function PartialSlot(p: Partial, k: Kind): Option<Field> {
    match k
    case Results => p.aar
    case Signature => p.ams
    case Seal => p.sl
  }

  function FillSlot(p: Partial, k: Kind, f: Field): (q: Partial)
    ensures PartialSlot(q, k) == Some(f)
    ensures forall l :: l != k ==> PartialSlot(q, l) == PartialSlot(p, l)
  {
    match k
    case Results => p.(aar := Some(f))
    case Signature => p.(ams := Some(f))
    case Seal => p.(sl := Some(f))
  }

  function Filled(byInstance: map<nat, Partial>, k: Kind, n: nat): Option<Field> {
    if n in byInstance then PartialSlot(byInstance[n], k) else None
  }

  /** What the collecting loop knows after the fields `seen`. */
  ghost predicate Collected(seen: seq<Field>, byInstance: map<nat, Partial>, max: nat) {
    && NumberedUpTo(seen, max)
    && Unrepeated(seen)
    && max <= MAX_INSTANCES
    && (forall i, k, n :: Placed(seen, i, k, n) ==> Filled(byInstance, k, n) == Some(seen[i]))
    && (forall k, n :: Filled(byInstance, k, n).Some? ==> Holds(seen, Filled(byInstance, k, n).value, k, n))
    && (max > 0 ==> exists i, k :: Placed(seen, i, k, max))
  }

  lemma HoldsMore(seen: seq<Field>, more: seq<Field>, f: Field, k: Kind, n: nat)
    requires Holds(seen, f, k, n)
    ensures Holds(seen + more, f, k, n)
  {
    var i :| Placed(seen, i, k, n) && seen[i] == f;
    assert Placed(seen + more, i, k, n);
  }

  lemma PlacedMore(seen: seq<Field>, f: Field)
    ensures forall i, k, n :: Placed(seen + [f], i, k, n) <==>
              Placed(seen, i, k, n) || (i == |seen| && MarkOf(f) == Numbered(k, n))
  {
    hide MarkOf;
  }

  lemma CollectSkip(seen: seq<Field>, f: Field, byInstance: map<nat, Partial>, max: nat)
    requires Collected(seen, byInstance, max) && MarkOf(f).Plain?
    ensures Collected(seen + [f], byInstance, max)
  {
    hide MarkOf, Filled;
    PlacedMore(seen, f);
    forall k, n | Filled(byInstance, k, n).Some?
      ensures Holds(seen + [f], Filled(byInstance, k, n).value, k, n)
    {
      HoldsMore(seen, [f], Filled(byInstance, k, n).value, k, n);
    }
  }

  function NewPartial(byInstance: map<nat, Partial>, n: nat): Partial {
    if n in byInstance then byInstance[n] else Partial(None, None, None)
  }

  function Store(byInstance: map<nat, Partial>, k: Kind, n: nat, f: Field): map<nat, Partial> {
    byInstance[n := FillSlot(NewPartial(byInstance, n), k, f)]
  }

  lemma FilledAfter(byInstance: map<nat, Partial>, kf: Kind, nf: nat, f: Field, k: Kind, n: nat)
    ensures Filled(Store(byInstance, kf, nf, f), k, n) ==
              if k == kf && n == nf then Some(f) else Filled(byInstance, k, n)
  {
    match k case Results => case Signature => case Seal =>
  }

  lemma NumberedMore(seen: seq<Field>, f: Field, max: nat)
    requires NumberedUpTo(seen, max) && MarkOf(f).Numbered?
    ensures NumberedUpTo(seen + [f], if MarkOf(f).n > max then MarkOf(f).n else max)
  {
    hide MarkOf;
  }

  lemma UnrepeatedMore(seen: seq<Field>, f: Field)
    requires Unrepeated(seen) && MarkOf(f).Numbered?
    requires forall i :: !Placed(seen, i, MarkOf(f).kind, MarkOf(f).n)
    ensures Unrepeated(seen + [f])
  {
    PlacedMore(seen, f);
    hide MarkOf, Placed;
  }

  lemma CollectStep(seen: seq<Field>, f: Field, byInstance: map<nat, Partial>, max: nat)
    requires Collected(seen, byInstance, max)
    requires MarkOf(f).Numbered? && Filled(byInstance, MarkOf(f).kind, MarkOf(f).n).None?
    ensures var m := MarkOf(f);
            Collected(seen + [f], Store(byInstance, m.kind, m.n, f), if m.n > max then m.n else max)
  {
    var kf, nf := MarkOf(f).kind, MarkOf(f).n;
    var after, all := Store(byInstance, kf, nf, f), seen + [f];
    assert nf <= MAX_INSTANCES;
    NumberedMore(seen, f, max);
    UnrepeatedMore(seen, f);
    hide MarkOf, Filled, Store, NumberedUpTo, Unrepeated;
    forall i, k, n | Placed(all, i, k, n)
      ensures Filled(after, k, n) == Some(all[i])
    {
      PlacedMore(seen, f);
      FilledAfter(byInstance, kf, nf, f, k, n);
    }
    forall k, n | Filled(after, k, n).Some?
      ensures Holds(all, Filled(after, k, n).value, k, n)
    {
      FilledAfter(byInstance, kf, nf, f, k, n);
      if k == kf && n == nf {
        assert Placed(all, |seen|, kf, nf);
      } else {
        HoldsMore(seen, [f], Filled(byInstance, k, n).value, k, n);
      }
    }
    if nf <= max {
      var i, k :| Placed(seen, i, k, max);
      assert Placed(all, i, k, max);
    } else {
      assert Placed(all, |seen|, kf, nf);
    }
  }

  lemma RepeatedHasNoChain(fields: seq<Field>, i: nat, byInstance: map<nat, Partial>, max: nat)
    requires i < |fields| && Collected(fields[..i], byInstance, max)
    requires MarkOf(fields[i]).Numbered? && Filled(byInstance, MarkOf(fields[i]).kind, MarkOf(fields[i]).n).Some?
    ensures ChainOf(fields).None?
  {
    var k, n := MarkOf(fields[i]).kind, MarkOf(fields[i]).n;
    hide MarkOf, Filled, ChainOf;
    assert Holds(fields[..i], Filled(byInstance, k, n).value, k, n);
    var j :| Placed(fields[..i], j, k, n);
    assert Placed(fields, j, k, n) && Placed(fields, i, k, n);
  }

  lemma MalformedHasNoChain(fields: seq<Field>, i: nat)
    requires i < |fields| && MarkOf(fields[i]).Malformed?
    ensures ChainOf(fields).None?
  {
    hide MarkOf, ChainOf;
  }

  lemma IncompleteHasNoChain(fields: seq<Field>, byInstance: map<nat, Partial>, max: nat, n: nat, k: Kind)
    requires Collected(fields, byInstance, max) && 1 <= n <= max && Filled(byInstance, k, n).None?
    ensures ChainOf(fields).None?
  {
    hide MarkOf, Filled, ChainOf;
    forall sets
      ensures !Represents(fields, sets)
    {
      var i, l :| Placed(fields, i, l, max);
      if |sets| >= n {
        HoldsOneOfSet(fields, sets[n - 1], n, k);
      }
    }
  }

  lemma HoldsOneOfSet(fields: seq<Field>, s: ArcSet, n: nat, k: Kind)
    ensures HoldsSet(fields, s, n) ==> exists i :: Placed(fields, i, k, n)
  {
  }

  method Collect(fields: seq<Field>) returns (r: Option<seq<ArcSet>>)
    ensures r == ChainOf(fields)
  {
    hide MarkOf, Filled, Store, ChainOf;
    var byInstance: map<nat, Partial> := map[];
    var max: nat := 0;
    CollectedNone();
    for i := 0 to |fields|
      invariant Collected(fields[..i], byInstance, max)
    {
      var f := fields[i];
      assert fields[..i + 1] == fields[..i] + [f];
      hide Collected;
      match MarkOf(f) {
        case Plain =>
          CollectSkip(fields[..i], f, byInstance, max);
        case Malformed =>
          MalformedHasNoChain(fields, i);
          return None;
        case Numbered(k, n) =>
          if Filled(byInstance, k, n).Some? {
            RepeatedHasNoChain(fields, i, byInstance, max);
            return None;
          }
          CollectStep(fields[..i], f, byInstance, max);
          byInstance := Store(byInstance, k, n, f);
          if n > max {
            max := n;
          }
      }
    }
    assert fields[..|fields|] == fields;
    r := CompleteSets(fields, byInstance, max);
  }

  lemma CollectedNone()
    ensures Collected([], map[], 0)
  {
  }

  method CompleteSets(fields: seq<Field>, byInstance: map<nat, Partial>, max: nat) returns (r: Option<seq<ArcSet>>)
    requires Collected(fields, byInstance, max)
    ensures r == ChainOf(fields)
  {
    hide MarkOf, Filled, ChainOf;
    var sets := [];
    for m := 0 to max
      invariant |sets| == m
      invariant forall l :: 0 <= l < m ==> HoldsSet(fields, sets[l], l + 1)
    {
      var aar, ams, sl := Filled(byInstance, Results, m + 1), Filled(byInstance, Signature, m + 1), Filled(byInstance, Seal, m + 1);
      if aar.None? || ams.None? || sl.None? {
        IncompleteHasNoChain(fields, byInstance, max, m + 1,
          if aar.None? then Results else if ams.None? then Signature else Seal);
        return None;
      }
      var s := ArcSet(aar.value, ams.value, sl.value);
      assert HoldsSet(fields, s, m + 1);
      sets := sets + [s];
    }
    ChainIs(fields, sets);
    r := Some(sets);
  }

  /** What `latestCV` returns. */
  function LatestCV(sets: seq<ArcSet>): string {
    if sets == [] then ""
    else
      match TagsOf(Value(sets[|sets| - 1].sl))
      case None => ""
      case Some(t) => ToLower(TagOf(t, "cv"))
  }

  // ----- putting fields in front -----

  ghost predicate NoArc(fields: seq<Field>) {
    forall i :: 0 <= i < |fields| ==> MarkOf(fields[i]).Plain?
  }

  lemma PlacedBehind(front: seq<Field>, fields: seq<Field>, i: int, k: Kind, n: nat)
    requires NoArc(front)
    ensures Placed(front + fields, i, k, n) <==> Placed(fields, i - |front|, k, n)
  {
    hide MarkOf;
  }

  lemma HoldsBehind(front: seq<Field>, fields: seq<Field>, f: Field, k: Kind, n: nat)
    requires NoArc(front)
    ensures Holds(front + fields, f, k, n) <==> Holds(fields, f, k, n)
  {
    hide MarkOf;
    var all := front + fields;
    if Holds(fields, f, k, n) {
      var i :| Placed(fields, i, k, n) && fields[i] == f;
      assert Placed(all, i + |front|, k, n) && all[i + |front|] == f;
    }
    if Holds(all, f, k, n) {
      var i :| Placed(all, i, k, n) && all[i] == f;
      assert Placed(fields, i - |front|, k, n);
    }
  }

  lemma NumberedBehind(front: seq<Field>, fields: seq<Field>, max: nat)
    requires NoArc(front)
    ensures NumberedUpTo(front + fields, max) <==> NumberedUpTo(fields, max)
  {
    hide MarkOf;
    var all := front + fields;
    assert forall i :: 0 <= i < |fields| ==> fields[i] == all[i + |front|];
  }

  lemma UnrepeatedBehind(front: seq<Field>, fields: seq<Field>)
    requires NoArc(front)
    ensures Unrepeated(front + fields) <==> Unrepeated(fields)
  {
    hide MarkOf;
    var all := front + fields;
    if Unrepeated(fields) {
      forall i, j, k, n | Placed(all, i, k, n) && Placed(all, j, k, n)
        ensures i == j
      {
        PlacedBehind(front, fields, i, k, n);
        PlacedBehind(front, fields, j, k, n);
      }
    }
    if Unrepeated(all) {
      forall i, j, k, n | Placed(fields, i, k, n) && Placed(fields, j, k, n)
        ensures i == j
      {
        PlacedBehind(front, fields, i + |front|, k, n);
        PlacedBehind(front, fields, j + |front|, k, n);
      }
    }
  }

  lemma RepresentsBehind(front: seq<Field>, fields: seq<Field>, sets: seq<ArcSet>)
    requires NoArc(front)
    ensures Represents(front + fields, sets) <==> Represents(fields, sets)
  {
    hide NoArc, Holds, NumberedUpTo, Unrepeated;
    NumberedBehind(front, fields, |sets|);
    UnrepeatedBehind(front, fields);
    forall m | 0 <= m < |sets|
      ensures HoldsSet(front + fields, sets[m], m + 1) <==> HoldsSet(fields, sets[m], m + 1)
    {
      HoldsBehind(front, fields, sets[m].aar, Results, m + 1);
      HoldsBehind(front, fields, sets[m].ams, Signature, m + 1);
      HoldsBehind(front, fields, sets[m].sl, Seal, m + 1);
    }
  }

  /** Fields that are not ARC fields, put in front, do not change the chain. */
  lemma ChainBehind(front: seq<Field>, fields: seq<Field>)
    requires NoArc(front)
    ensures ChainOf(front + fields) == ChainOf(fields)
  {
    hide Represents, NoArc;
    forall sets
      ensures Represents(front + fields, sets) <==> Represents(fields, sets)
    {
      RepresentsBehind(front, fields, sets);
    }
    if ChainOf(fields).Some? {
      ChainIs(front + fields, ChainOf(fields).value);
    }
  }

  ghost predicate NextSet(s: ArcSet, n: nat) {
    MarkOf(s.aar) == Numbered(Results, n) && MarkOf(s.ams) == Numbered(Signature, n) && MarkOf(s.sl) == Numbered(Seal, n)
  }

  function Front(s: ArcSet): seq<Field> {
    [s.sl, s.ams, s.aar]
  }

  lemma PlacedExtended(s: ArcSet, fields: seq<Field>, n: nat, i: int, k: Kind, m: nat)
    requires NextSet(s, n)
    ensures Placed(Front(s) + fields, i, k, m) <==>
              Placed(fields, i - 3, k, m) || (m == n && i == (match k case Results => 2 case Signature => 1 case Seal => 0))
  {
    hide MarkOf;
    var all := Front(s) + fields;
    assert all[0] == s.sl && all[1] == s.ams && all[2] == s.aar;
  }

  lemma HoldsExtended(s: ArcSet, fields: seq<Field>, f: Field, k: Kind, n: nat)
    requires Holds(fields, f, k, n)
    ensures Holds(Front(s) + fields, f, k, n)
  {
    hide MarkOf;
    var i :| Placed(fields, i, k, n) && fields[i] == f;
    assert (Front(s) + fields)[i + 3] == f;
    assert Placed(Front(s) + fields, i + 3, k, n);
  }

  lemma UnrepeatedExtended(s: ArcSet, fields: seq<Field>, max: nat)
    requires Unrepeated(fields) && NumberedUpTo(fields, max) && NextSet(s, max + 1)
    ensures Unrepeated(Front(s) + fields)
  {
    hide MarkOf;
    var all := Front(s) + fields;
    forall i, j, k, n | Placed(all, i, k, n) && Placed(all, j, k, n)
      ensures i == j
    {
      PlacedExtended(s, fields, max + 1, i, k, n);
      PlacedExtended(s, fields, max + 1, j, k, n);
    }
  }

  lemma NumberedExtended(s: ArcSet, fields: seq<Field>, max: nat)
    requires NumberedUpTo(fields, max) && NextSet(s, max + 1)
    ensures NumberedUpTo(Front(s) + fields, max + 1)
  {
    hide MarkOf;
    var all := Front(s) + fields;
    assert all[0] == s.sl && all[1] == s.ams && all[2] == s.aar;
    assert forall i :: 3 <= i < |all| ==> all[i] == fields[i - 3];
  }

  lemma HoldsSetExtended(s: ArcSet, fields: seq<Field>, t: ArcSet, n: nat)
    requires HoldsSet(fields, t, n)
    ensures HoldsSet(Front(s) + fields, t, n)
  {
    hide Holds, Front;
    HoldsExtended(s, fields, t.aar, Results, n);
    HoldsExtended(s, fields, t.ams, Signature, n);
    HoldsExtended(s, fields, t.sl, Seal, n);
  }

  lemma HoldsAllSnoc(fields: seq<Field>, sets: seq<ArcSet>, s: ArcSet)
    requires HoldsAll(fields, sets) && HoldsSet(fields, s, |sets| + 1)
    ensures HoldsAll(fields, sets + [s])
  {
    hide HoldsSet;
  }

  lemma HoldsAllExtended(s: ArcSet, fields: seq<Field>, sets: seq<ArcSet>)
    requires HoldsAll(fields, sets) && NextSet(s, |sets| + 1)
    ensures HoldsAll(Front(s) + fields, sets + [s])
  {
    hide HoldsSet, NextSet, Front;
    var all := Front(s) + fields;
    forall m | 0 <= m < |sets|
      ensures HoldsSet(all, sets[m], m + 1)
    {
      HoldsSetExtended(s, fields, sets[m], m + 1);
    }
    HoldsNext(s, fields, |sets| + 1);
    HoldsAllSnoc(all, sets, s);
  }

  lemma RepresentsExtended(s: ArcSet, fields: seq<Field>, sets: seq<ArcSet>)
    requires Represents(fields, sets) && |sets| < MAX_INSTANCES && NextSet(s, |sets| + 1)
    ensures Represents(Front(s) + fields, sets + [s])
  {
    hide HoldsAll, NumberedUpTo, Unrepeated, NextSet, Front;
    UnrepeatedExtended(s, fields, |sets|);
    NumberedExtended(s, fields, |sets|);
    HoldsAllExtended(s, fields, sets);
  }

  /** A complete next set in front of a message extends its chain by that set. */
  lemma ChainExtended(s: ArcSet, fields: seq<Field>, sets: seq<ArcSet>)
    requires Represents(fields, sets) && |sets| < MAX_INSTANCES && NextSet(s, |sets| + 1)
    ensures ChainOf(Front(s) + fields) == Some(sets + [s])
  {
    hide Represents;
    RepresentsExtended(s, fields, sets);
    ChainIs(Front(s) + fields, sets + [s]);
  }

  lemma HoldsNext(s: ArcSet, fields: seq<Field>, n: nat)
    requires NextSet(s, n)
    ensures HoldsSet(Front(s) + fields, s, n)
  {
    hide MarkOf;
    var all := Front(s) + fields;
    assert all[0] == s.sl && all[1] == s.ams && all[2] == s.aar;
    assert Placed(all, 0, Seal, n) && Placed(all, 1, Signature, n) && Placed(all, 2, Results, n);
  }
}
