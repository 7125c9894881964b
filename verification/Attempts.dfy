// One attempt as a step of the queue: what module Outbound says of its lists is what the queue needs
// for nobody to be lost (internal/sender/sender.go:138-252, internal/sender/outbound.go).

module Attempts {
  import opened Options
  import Clock
  import opened Queue
  import opened QueueProtocol
  import opened Outbound

  /** What `deliver` makes of an attempt; after a failed one it tries again, unless the failure is permanent. */
  function ResultOf(o: Outcome, taken: set<string>): Result {
    match o
    case Done(res) => Settled(res)
    case Error(why) => if Permanent(why) then PermanentError else TransientError(taken)
  }

  function Among(list: seq<string>): set<string> {
    set r | r in list
  }

  predicate Distinct(to: seq<string>) {
    forall i, j :: 0 <= i < j < |to| ==> to[i] != to[j]
  }

  /** The sender's step, for the attempt that ends in `o` and the recipients refused in it. */
  function AttemptOf(i: nat, o: Outcome, taken: set<string>, refused: seq<string>, bounces: bool): Event {
    Attempt(i, ResultOf(o, taken), Among(refused), bounces)
  }

  lemma GivesUp(id: Id, m: Row, o: Outcome, taken: set<string>)
    ensures GivenUpBy(id, m, ResultOf(o, taken)) == Pairs(id, GivenUp(o, m.to))
  {
  }

  lemma {:induction false} OnceOnly(to: seq<string>, r: string)
    requires Distinct(to)
    ensures multiset(to)[r] <= 1
  {
    if to != [] {
      OnceOnly(to[..|to| - 1], r);
      assert to == to[..|to| - 1] + [to[|to| - 1]];
      if to[|to| - 1] == r {
        assert r !in to[..|to| - 1];
        assert r !in multiset(to[..|to| - 1]);
      }
    }
  }

  /** Whom the attempt gives up was refused or wronged: the step is fair if nobody is wronged, and only then if nobody is
      named twice. */
  lemma FairExactly(id: Id, to: seq<string>, gone: seq<string>, refused: seq<string>, wronged: seq<string>)
    requires multiset(gone) == multiset(refused) + multiset(wronged) && multiset(gone) <= multiset(to)
    ensures Named(id, Among(refused)) <= Pairs(id, gone)
    ensures wronged == [] ==> Pairs(id, gone) <= Named(id, Among(refused))
    ensures wronged != [] && Distinct(to) ==> !(Pairs(id, gone) <= Named(id, Among(refused)))
  {
    forall r | r in refused
      ensures r in gone
    {
      assert r in multiset(refused) && r in multiset(gone);
    }
    if wronged == [] {
      forall r | r in gone
        ensures r in refused
      {
        assert r in multiset(gone);
      }
    } else if Distinct(to) {
      var r := wronged[0];
      OnceOnly(to, r);
      assert r in multiset(wronged) && r in multiset(gone);
      assert r !in multiset(refused);
      assert (id, r) in Pairs(id, gone) && (id, r) !in Named(id, Among(refused));
    }
  }

  lemma GoneWithin(o: Outcome, to: seq<string>)
    requires o.Done? ==> Conserves(o.res, to)
    ensures multiset(GivenUp(o, to)) <= multiset(to)
  {
  }

  ghost predicate InHands(s: State, i: nat) {
    s.phase == Working && i < |s.tasks| && s.tasks[i].sending
  }

  lemma AttemptIs(s: State, i: nat, o: Outcome, taken: set<string>, refused: seq<string>, wronged: seq<string>, bounces: bool)
    requires InHands(s, i) && (o.Done? ==> Conserves(o.res, s.tasks[i].m.to))
    requires multiset(GivenUp(o, s.tasks[i].m.to)) == multiset(refused) + multiset(wronged)
    ensures var e := AttemptOf(i, o, taken, refused, bounces);
            && Enabled(s, e)
            && (wronged == [] ==> Fair(s, e))
            && (wronged != [] && Distinct(s.tasks[i].m.to) ==> !Fair(s, e))
  {
    var t := s.tasks[i];
    GivesUp(t.id, t.m, o, taken);
    GoneWithin(o, t.m.to);
    FairExactly(t.id, t.m.to, GivenUp(o, t.m.to), refused, wronged);
    hide GivenUpBy, GivenUp, Pairs, Named, Among, Conserves, Distinct;
  }

  /** One transaction, to the primary host or to a relay: it can happen as a step of the queue, and it wrongs nobody unless
      the message was refused after one recipient was accepted and another put off; then, with no recipient named twice, it does. */
  lemma TransmitAttempt(s: State, i: nat, p: Peer, taken: set<string>, bounces: bool)
    requires InHands(s, i)
    ensures var to := s.tasks[i].m.to;
            var e := AttemptOf(i, Transmitted(p, to), taken, RefusedIn(p, to), bounces);
            && Enabled(s, e)
            && (!Overrules(p, to) ==> Fair(s, e))
            && (Overrules(p, to) && Distinct(to) ==> !Fair(s, e))
  {
    var to := s.tasks[i].m.to;
    TransmitConserves(p, to);
    TransmitGivesUp(p, to);
    hide Conserves, Transmitted, RefusedIn, WrongedIn, Overrules, Sorted, Enabled, Fair, GivenUp;
    AttemptIs(s, i, Transmitted(p, to), taken, RefusedIn(p, to), WrongedIn(p, to), bounces);
  }

  /** Direct mode while its context lives: the same, over the domains it tries; a malformed address counts as refused. */
  lemma DirectAttempt(s: State, i: nat, net: string -> Site, taken: set<string>, bounces: bool)
    requires InHands(s, i) && !exists k :: Abandons(net, s.tasks[i].m.to, DomainsOf(s.tasks[i].m.to), k)
    ensures var to := s.tasks[i].m.to;
            var overruled := exists k :: OverrulesAt(net, to, DomainsOf(to), k);
            var e := AttemptOf(i, Done(Direct(net, to)), taken, MalformedOf(to) + DirectRefused(net, to, DomainsOf(to)), bounces);
            && Enabled(s, e)
            && (!overruled ==> Fair(s, e))
            && (overruled && Distinct(to) ==> !Fair(s, e))
  {
    var to := s.tasks[i].m.to;
    DirectConserves(net, to);
    DirectGivesUp(net, to);
    hide Conserves, Direct, DirectRefused, DirectWronged, MalformedOf, DomainsOf, OverrulesAt, Abandons, Enabled, Fair;
    AttemptIs(s, i, Done(Direct(net, to)), taken, MalformedOf(to) + DirectRefused(net, to, DomainsOf(to)),
              DirectWronged(net, to, DomainsOf(to)), bounces);
  }

  /** What becomes of a wronged recipient: two recipients of one domain, of whom `b` was only put off, are given up, while
      one of another domain is deferred. Once the writes are done, `b` is nowhere. */
  lemma PutOffRecipientLost(s: State, i: nat, a: string, b: string, c: string, bounces: bool, newId: Id, at: When)
    requires Inv(s) && InHands(s, i) && newId !in s.used && Distinct([a, b, c])
    requires var t := s.tasks[i];
             t.m.to == [a, b, c] && (t.id, b) !in s.delivered && (t.id, b) !in s.refused && t.id in s.spool && t.id !in s.purged
    ensures var u := Carried(Attempted(s, i, Settled(Recipients([], [c], [a, b])), {a}, bounces), i, newId, at);
            !AccountedFor(u, s.tasks[i].id, b)
  {
    var to := [a, b, c];
    assert to[0] == a && to[1] == b && to[2] == c;
    hide Inv, Carried, Attempted, AccountedFor;
    SettlingNeedsEveryone(s, i, Recipients([], [c], [a, b]), {a}, bounces, b, newId, at);
  }
}
