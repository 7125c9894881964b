// internal/sender/outbound.go: one SMTP transaction, and the grouping by domain in direct mode.
// The peer is a parameter; what is proved is where every recipient ends up.

module Outbound {
  import opened Options
  import opened Text

  /** What a command returns: success, an SMTP reply with its code, or a broken connection. */
  datatype Reply = Fine | Code(code: int) | Broken

  predicate Permanent(r: Reply) {
    r.Code? && 500 <= r.code < 600
  }

  /** The three lists of recipients of an attempt. */
  datatype Recipients = Recipients(accepted: seq<string>, deferred: seq<string>, rejected: seq<string>)

  /** A finished attempt, or its error. */
  datatype Outcome = Done(res: Recipients) | Error(why: Reply)

  const NOBODY := Recipients([], [], [])

  /** The lists hold every recipient as often as the envelope does, and nobody else. */
  ghost predicate Conserves(res: Recipients, to: seq<string>) {
    multiset(res.accepted) + multiset(res.deferred) + multiset(res.rejected) == multiset(to)
  }

  /** What the peer answers: to MAIL, to the RCPT commands by their position, and to DATA. */
  datatype Peer = Peer(mail: Reply, rcpt: nat -> Reply, data: Reply)

  function Add(res: Recipients, rcpt: string, r: Reply): Recipients {
    if r.Fine? then res.(accepted := res.accepted + [rcpt])
    else if Permanent(r) then res.(rejected := res.rejected + [rcpt])
    else res.(deferred := res.deferred + [rcpt])
  }

  /** What `transmit` returns. */
  function Transmitted(p: Peer, to: seq<string>): Outcome {
    if !p.mail.Fine? then Error(p.mail)
    else
      var res := Answers(p, to);
      if res.Error? || res.res.accepted == [] then res
      else if !p.data.Fine? then Error(p.data)
      else res
  }

  /** The answers to the RCPT commands, in order; a broken connection ends them. */
  function Answers(p: Peer, to: seq<string>): Outcome {
    if to == [] then Done(NOBODY)
    else
      match Answers(p, to[..|to| - 1])
      case Error(why) => Error(why)
      case Done(res) =>
        var rcpt := to[|to| - 1];
        if p.rcpt(|to| - 1).Broken? then Error(Broken) else Done(Add(res, rcpt, p.rcpt(|to| - 1)))
  }

  lemma {:induction false} AnswersBroken(p: Peer, to: seq<string>, n: nat)
    requires n <= |to| && Answers(p, to[..n]).Error?
    ensures Answers(p, to) == Answers(p, to[..n])
    decreases |to| - n
  {
    if n == |to| {
      assert to[..n] == to;
    } else {
      assert to[..n + 1][..n] == to[..n];
      AnswersBroken(p, to, n + 1);
    }
  }

  method Transmit(p: Peer, to: seq<string>) returns (r: Outcome)
    ensures r == Transmitted(p, to)
  {
    if !p.mail.Fine? {
      return Error(p.mail);
    }
    var res := NOBODY;
    for i := 0 to |to|
      invariant Answers(p, to[..i]) == Done(res)
    {
      assert to[..i + 1][..i] == to[..i];
      var reply := p.rcpt(i);
      if reply.Broken? {
        AnswersBroken(p, to, i + 1);
        return Error(Broken);
      }
      if reply.Fine? {
        res := res.(accepted := res.accepted + [to[i]]);
      } else if Permanent(reply) {
        res := res.(rejected := res.rejected + [to[i]]);
      } else {
        res := res.(deferred := res.deferred + [to[i]]);
      }
    }
    assert to[..|to|] == to;
    if |res.accepted| == 0 {
      return Done(res);
    }
    if !p.data.Fine? {
      return Error(p.data);
    }
    r := Done(res);
  }

  predicate Accepts(r: Reply) {
    r.Fine?
  }

  predicate Defers(r: Reply) {
    r.Code? && !Permanent(r)
  }

  /** The recipients whose own answer is of one kind, in envelope order. */
  function Answered(p: Peer, to: seq<string>, kind: Reply -> bool): seq<string> {
    if to == [] then []
    else Answered(p, to[..|to| - 1], kind) + (if kind(p.rcpt(|to| - 1)) then [to[|to| - 1]] else [])
  }

  /** Every recipient is where the answer to its own command puts it; one that is listed twice may be in two lists. */
  ghost predicate Sorted(p: Peer, to: seq<string>, res: Recipients) {
    && res.accepted == Answered(p, to, Accepts)
    && res.rejected == Answered(p, to, Permanent)
    && res.deferred == Answered(p, to, Defers)
  }

  lemma AddConserves(res: Recipients, to: seq<string>, rcpt: string, r: Reply)
    requires Conserves(res, to)
    ensures Conserves(Add(res, rcpt, r), to + [rcpt])
  {
  }

  lemma {:induction false} AnswersConserve(p: Peer, to: seq<string>)
    ensures Answers(p, to).Done? ==> Conserves(Answers(p, to).res, to)
  {
    if to != [] {
      hide Add, Conserves;
      var init, rcpt := to[..|to| - 1], to[|to| - 1];
      AnswersConserve(p, init);
      assert to == init + [rcpt];
      if Answers(p, to).Done? {
        AddConserves(Answers(p, init).res, init, rcpt, p.rcpt(|to| - 1));
      }
    } else {
      assert Answers(p, to) == Done(NOBODY);
    }
  }

  lemma AddSorted(p: Peer, to: seq<string>, res: Recipients)
    requires to != [] && Sorted(p, to[..|to| - 1], res) && !p.rcpt(|to| - 1).Broken?
    ensures Sorted(p, to, Add(res, to[|to| - 1], p.rcpt(|to| - 1)))
  {
    var r := p.rcpt(|to| - 1);
    assert Accepts(r) <==> r.Fine?;
  }

  lemma {:induction false} AnswersSorted(p: Peer, to: seq<string>)
    ensures Answers(p, to).Done? ==> Sorted(p, to, Answers(p, to).res)
  {
    hide Add;
    if to != [] {
      hide Sorted;
      AnswersSorted(p, to[..|to| - 1]);
      if Answers(p, to).Done? {
        AddSorted(p, to, Answers(p, to[..|to| - 1]).res);
      }
    }
  }

  /** Only a broken connection makes the answers an error. */
  lemma {:induction false} AnswersFail(p: Peer, to: seq<string>)
    ensures Answers(p, to).Error? <==> exists i: nat :: i < |to| && p.rcpt(i).Broken?
    ensures Answers(p, to).Error? ==> Answers(p, to) == Error(Broken)
  {
    if to != [] {
      AnswersFail(p, to[..|to| - 1]);
      hide Add;
    }
  }

  /** Without an error the lists hold every recipient as often as the envelope does, each where its own answer puts it. */
  lemma TransmitConserves(p: Peer, to: seq<string>)
    ensures Transmitted(p, to).Done? ==>
              Conserves(Transmitted(p, to).res, to) && Sorted(p, to, Transmitted(p, to).res)
              && (Transmitted(p, to).res.accepted != [] ==> p.data.Fine?)
  {
    AnswersConserve(p, to);
    AnswersSorted(p, to);
  }

  // ----- who is given up, and who was refused -----

  /** The recipients that an attempt gives up for good: those it rejected, or all of them after a permanent error. */
  function GivenUp(o: Outcome, to: seq<string>): seq<string> {
    match o
    case Done(res) => res.rejected
    case Error(why) => if Permanent(why) then to else []
  }

  /** The recipients at the marked positions, in order. */
  function Picked(to: seq<string>, marks: seq<bool>): seq<string>
    requires |marks| == |to|
  {
    if to == [] then []
    else
      var n := |to| - 1;
      Picked(to[..n], marks[..n]) + (if marks[n] then [to[n]] else [])
  }

  lemma {:induction false} PickedParts(to: seq<string>, whole: seq<bool>, a: seq<bool>, b: seq<bool>)
    requires |to| == |whole| == |a| == |b|
    requires forall i :: 0 <= i < |to| ==> (whole[i] <==> a[i] || b[i]) && !(a[i] && b[i])
    ensures multiset(Picked(to, whole)) == multiset(Picked(to, a)) + multiset(Picked(to, b))
    decreases |to|
  {
    if to != [] {
      var n := |to| - 1;
      PickedParts(to[..n], whole[..n], a[..n], b[..n]);
    }
  }

  lemma {:induction false} PickedAll(to: seq<string>, marks: seq<bool>)
    requires |marks| == |to|
    ensures (forall i :: 0 <= i < |to| ==> marks[i]) ==> Picked(to, marks) == to
    ensures Picked(to, marks) == [] <==> forall i :: 0 <= i < |to| ==> !marks[i]
    decreases |to|
  {
    if to != [] {
      var n := |to| - 1;
      PickedAll(to[..n], marks[..n]);
      assert to == to[..n] + [to[n]];
      assert forall i :: 0 <= i < n ==> marks[..n][i] == marks[i];
    }
  }

  /** Whose own answer is of one kind. */
  function Marks(p: Peer, n: nat, kind: Reply -> bool): (m: seq<bool>)
    ensures |m| == n
  {
    seq(n, i requires 0 <= i < n => kind(p.rcpt(i)))
  }

  lemma {:induction false} AnsweredPicked(p: Peer, to: seq<string>, kind: Reply -> bool)
    ensures Answered(p, to, kind) == Picked(to, Marks(p, |to|, kind))
  {
    if to != [] {
      var n := |to| - 1;
      AnsweredPicked(p, to[..n], kind);
      assert Marks(p, |to|, kind)[..n] == Marks(p, n, kind);
    }
  }

  /** No RCPT broke the connection. */
  predicate AllAnswered(p: Peer, to: seq<string>) {
    forall i :: 0 <= i < |to| ==> !p.rcpt(i).Broken?
  }

  /** The message itself was refused: after some recipients were accepted, DATA got a permanent answer. */
  predicate DataRefused(p: Peer, to: seq<string>) {
    && p.mail.Fine? && AllAnswered(p, to) && Permanent(p.data)
    && exists i :: 0 <= i < |to| && p.rcpt(i).Fine?
  }

  /** The peer refused recipient number `i`: with MAIL, with its own RCPT, or with the DATA it was accepted for. */
  predicate RefusedAt(p: Peer, to: seq<string>, i: nat) {
    || Permanent(p.mail)
    || (p.mail.Fine? && Permanent(p.rcpt(i)))
    || (DataRefused(p, to) && p.rcpt(i).Fine?)
  }

  /** The transaction gives recipient number `i` up. */
  predicate GivenUpAt(p: Peer, to: seq<string>, i: nat) {
    match Transmitted(p, to)
    case Done(_) => Permanent(p.rcpt(i))
    case Error(why) => Permanent(why)
  }

  function GivenUpMarks(p: Peer, to: seq<string>): (m: seq<bool>)
    ensures |m| == |to|
  {
    seq(|to|, i requires 0 <= i < |to| => GivenUpAt(p, to, i))
  }

  function RefusedMarks(p: Peer, to: seq<string>): (m: seq<bool>)
    ensures |m| == |to|
  {
    seq(|to|, i requires 0 <= i < |to| => GivenUpAt(p, to, i) && RefusedAt(p, to, i))
  }

  function WrongedMarks(p: Peer, to: seq<string>): (m: seq<bool>)
    ensures |m| == |to|
  {
    seq(|to|, i requires 0 <= i < |to| => GivenUpAt(p, to, i) && !RefusedAt(p, to, i))
  }

  /** Those given up that the peer refused. */
  function RefusedIn(p: Peer, to: seq<string>): seq<string> {
    Picked(to, RefusedMarks(p, to))
  }

  /** Those given up that it did not refuse. */
  function WrongedIn(p: Peer, to: seq<string>): seq<string> {
    Picked(to, WrongedMarks(p, to))
  }

  /** A refused DATA in a transaction where some RCPT was only put off: the error that `transmit` returns drops its lists. */
  predicate Overrules(p: Peer, to: seq<string>) {
    DataRefused(p, to) && exists i :: 0 <= i < |to| && Defers(p.rcpt(i))
  }

  lemma {:induction false} SomeAccepted(p: Peer, to: seq<string>)
    requires Answers(p, to).Done?
    ensures Answers(p, to).res.accepted != [] <==> exists i :: 0 <= i < |to| && p.rcpt(i).Fine?
  {
    AnswersSorted(p, to);
    AnsweredPicked(p, to, Accepts);
    PickedAll(to, Marks(p, |to|, Accepts));
    hide Answers, Answered, Picked;
    assert forall i :: 0 <= i < |to| ==> (Marks(p, |to|, Accepts)[i] <==> p.rcpt(i).Fine?);
  }

  /** What a transaction ends with, by its answers. */
  lemma TransmittedIs(p: Peer, to: seq<string>)
    ensures var o := Transmitted(p, to);
            if !p.mail.Fine? then o == Error(p.mail)
            else if !AllAnswered(p, to) then o == Error(Broken)
            else if p.data.Fine? || !exists i :: 0 <= i < |to| && p.rcpt(i).Fine? then o == Answers(p, to) && o.Done?
            else o == Error(p.data)
  {
    AnswersFail(p, to);
    if Answers(p, to).Done? {
      SomeAccepted(p, to);
    } else {
      AnswersError(p, to);
    }
  }

  lemma {:induction false} AnswersError(p: Peer, to: seq<string>)
    ensures Answers(p, to).Error? ==> Answers(p, to).why == Broken
  {
    hide Add;
    if to != [] {
      AnswersError(p, to[..|to| - 1]);
    }
  }

  /** Position by position: somebody is given up without having been refused exactly if DATA was refused and the own RCPT only put off. */
  lemma WrongedAt(p: Peer, to: seq<string>, i: nat)
    requires i < |to|
    ensures GivenUpAt(p, to, i) && !RefusedAt(p, to, i) <==> DataRefused(p, to) && Defers(p.rcpt(i))
  {
    TransmittedIs(p, to);
    hide Transmitted, Answers;
  }

  lemma GivenUpPicked(p: Peer, to: seq<string>)
    ensures GivenUp(Transmitted(p, to), to) == Picked(to, GivenUpMarks(p, to))
  {
    TransmitConserves(p, to);
    AnsweredPicked(p, to, Permanent);
    hide Conserves, Answers, Answered, Picked;
    var o := Transmitted(p, to);
    if o.Done? {
      assert GivenUpMarks(p, to) == Marks(p, |to|, Permanent);
    } else {
      PickedAll(to, GivenUpMarks(p, to));
    }
  }

  /** Whom a transaction gives up was refused by the peer or wronged, and nobody is wronged exactly unless DATA was refused
      in a transaction that had a recipient accepted and another put off. Then exactly those put off are wronged. */
  lemma TransmitGivesUp(p: Peer, to: seq<string>)
    ensures multiset(GivenUp(Transmitted(p, to), to)) == multiset(RefusedIn(p, to)) + multiset(WrongedIn(p, to))
    ensures WrongedIn(p, to) == [] <==> !Overrules(p, to)
    ensures WrongedIn(p, to) == if DataRefused(p, to) then Answered(p, to, Defers) else []
  {
    GivenUpPicked(p, to);
    AnsweredPicked(p, to, Defers);
    WrongedMarked(p, to);
    hide Picked, Answered, GivenUp, DataRefused, Transmitted, RefusedAt, GivenUpAt, Marks, Defers, WrongedMarks;
    PickedAll(to, WrongedMarks(p, to));
    PartsMarked(p, to);
    PickedParts(to, GivenUpMarks(p, to), RefusedMarks(p, to), WrongedMarks(p, to));
  }

  lemma PartsMarked(p: Peer, to: seq<string>)
    ensures forall i :: 0 <= i < |to| ==>
              (GivenUpMarks(p, to)[i] <==> RefusedMarks(p, to)[i] || WrongedMarks(p, to)[i])
              && !(RefusedMarks(p, to)[i] && WrongedMarks(p, to)[i])
  {
    hide GivenUpAt, RefusedAt;
  }

  lemma WrongedMarked(p: Peer, to: seq<string>)
    ensures (exists i :: 0 <= i < |to| && WrongedMarks(p, to)[i]) <==> Overrules(p, to)
    ensures DataRefused(p, to) ==> WrongedMarks(p, to) == Marks(p, |to|, Defers)
  {
    hide GivenUpAt, RefusedAt, DataRefused, Defers;
    forall i: nat | i < |to|
      ensures WrongedMarks(p, to)[i] <==> DataRefused(p, to) && Defers(p.rcpt(i))
    {
      WrongedAt(p, to, i);
    }
  }

  // ----- direct mode -----

  predicate Malformed(rcpt: string) {
    var at := LastIndex(rcpt, '@');
    at < 0 || at == |rcpt| - 1
  }

  function DomainOf(rcpt: string): string {
    if Malformed(rcpt) then "" else ToLower(rcpt[LastIndex(rcpt, '@') + 1..])
  }

  /** The recipients of one domain, in envelope order. */
  function Of(to: seq<string>, domain: string): seq<string> {
    if to == [] then []
    else
      var init, rcpt := to[..|to| - 1], to[|to| - 1];
      if !Malformed(rcpt) && DomainOf(rcpt) == domain then Of(init, domain) + [rcpt] else Of(init, domain)
  }

  function MalformedOf(to: seq<string>): seq<string> {
    if to == [] then []
    else
      var init, rcpt := to[..|to| - 1], to[|to| - 1];
      if Malformed(rcpt) then MalformedOf(init) + [rcpt] else MalformedOf(init)
  }

  /** The well-formed recipients' domains, each once, in order of first use. */
  function DomainsOf(to: seq<string>): seq<string> {
    if to == [] then []
    else
      var init, rcpt := to[..|to| - 1], to[|to| - 1];
      if Malformed(rcpt) || DomainOf(rcpt) in DomainsOf(init) then DomainsOf(init) else DomainsOf(init) + [DomainOf(rcpt)]
  }

  /** What the loop over the domains adds for one of them. */
  function AddDomain(res: Recipients, rcpts: seq<string>, o: Outcome): Recipients {
    match o
    case Done(r) => Recipients(res.accepted + r.accepted, res.deferred + r.deferred, res.rejected + r.rejected)
    case Error(why) =>
      if Permanent(why) then res.(rejected := res.rejected + rcpts) else res.(deferred := res.deferred + rcpts)
  }

  // ----- one domain -----

  /** An MX host of a domain: unreachable, or a peer. */
  datatype Host = Unreachable(why: Reply) | Reached(peer: Peer)

  /** What the network does for one domain: the MX lookup, its hosts by preference, and whether the
      attempt's context has ended once the domain was tried. */
  datatype Site = Site(lookup: Reply, hosts: seq<Host>, dead: bool)

  /** What `directTo` returns. The first host that answers decides. */
  function TriedHosts(hosts: seq<Host>, to: seq<string>, last: Reply): Outcome {
    if hosts == [] then Error(last)
    else
      match hosts[0]
      case Unreachable(why) => TriedHosts(hosts[1..], to, why)
      case Reached(peer) => Transmitted(peer, to)
  }

  function DirectTo(site: Site, to: seq<string>): Outcome {
    if !site.lookup.Fine? then Error(site.lookup) else TriedHosts(site.hosts, to, Broken)
  }

  method SendTo(site: Site, to: seq<string>) returns (r: Outcome)
    ensures r == DirectTo(site, to)
  {
    if !site.lookup.Fine? {
      return Error(site.lookup);
    }
    var last := Broken;
    assert site.hosts[0..] == site.hosts;
    for i := 0 to |site.hosts|
      invariant TriedHosts(site.hosts, to, Broken) == TriedHosts(site.hosts[i..], to, last)
    {
      assert site.hosts[i..][1..] == site.hosts[i + 1..];
      match site.hosts[i] {
        case Unreachable(why) => last := why;
        case Reached(peer) =>
          r := Transmit(peer, to);
          return r;
      }
    }
    r := Error(last);
  }

  lemma {:induction false} DirectToConserves(hosts: seq<Host>, to: seq<string>, last: Reply)
    ensures TriedHosts(hosts, to, last).Done? ==> Conserves(TriedHosts(hosts, to, last).res, to)
  {
    if hosts != [] {
      match hosts[0]
      case Unreachable(why) => DirectToConserves(hosts[1..], to, why);
      case Reached(peer) => TransmitConserves(peer, to);
    }
  }

  // ----- all domains -----

  predicate Stops(site: Site, o: Outcome) {
    o.Error? && site.dead
  }

  function DirectAll(net: string -> Site, to: seq<string>, domains: seq<string>, res: Recipients): Recipients {
    if domains == [] then res
    else
      var d := domains[0];
      var o := DirectTo(net(d), Of(to, d));
      var r := AddDomain(res, Of(to, d), o);
      if Stops(net(d), o) then r else DirectAll(net, to, domains[1..], r)
  }

  /** What `sendDirect` returns. */
  function Direct(net: string -> Site, to: seq<string>): Recipients {
    DirectAll(net, to, DomainsOf(to), NOBODY.(rejected := MalformedOf(to)))
  }

  lemma GroupStep(init: seq<string>, rcpt: string)
    ensures var to := init + [rcpt];
            && MalformedOf(to) == MalformedOf(init) + (if Malformed(rcpt) then [rcpt] else [])
            && DomainsOf(to) == DomainsOf(init) + (if Malformed(rcpt) || DomainOf(rcpt) in DomainsOf(init) then [] else [DomainOf(rcpt)])
    ensures forall d :: Of(init + [rcpt], d) == Of(init, d) + (if !Malformed(rcpt) && DomainOf(rcpt) == d then [rcpt] else [])
  {
    hide Malformed, DomainOf;
    assert (init + [rcpt])[..|init|] == init;
  }

  /** The first loop of `sendDirect`: malformed recipients are set aside, the others grouped by domain. */
  method Group(to: seq<string>) returns (malformed: seq<string>, domains: seq<string>, byDomain: map<string, seq<string>>)
    ensures malformed == MalformedOf(to) && domains == DomainsOf(to)
    ensures forall d :: d in byDomain <==> d in domains
    ensures forall d :: d in byDomain ==> byDomain[d] == Of(to, d)
  {
    hide MalformedOf, DomainsOf, Of, LastIndex;
    malformed, domains, byDomain := [], [], map[];
    GroupNone();
    for i := 0 to |to|
      invariant malformed == MalformedOf(to[..i]) && domains == DomainsOf(to[..i])
      invariant forall d :: d in byDomain <==> d in domains
      invariant forall d :: if d in byDomain then byDomain[d] == Of(to[..i], d) else Of(to[..i], d) == []
    {
      var rcpt := to[i];
      assert to[..i + 1] == to[..i] + [rcpt];
      GroupStep(to[..i], rcpt);
      var at := LastIndex(rcpt, '@');
      if at < 0 || at == |rcpt| - 1 {
        malformed := malformed + [rcpt];
        continue;
      }
      var d := ToLower(rcpt[at + 1..]);
      if d !in byDomain {
        domains := domains + [d];
        byDomain := byDomain[d := []];
      }
      byDomain := byDomain[d := byDomain[d] + [rcpt]];
    }
    assert to[..|to|] == to;
  }

  lemma GroupNone()
    ensures MalformedOf([]) == [] && DomainsOf([]) == [] && forall d :: Of([], d) == []
  {
  }

  method SendDirect(net: string -> Site, to: seq<string>) returns (all: Recipients)
    ensures all == Direct(net, to)
  {
    hide MalformedOf, DomainsOf, Of, DirectTo, AddDomain;
    var malformed, domains, byDomain := Group(to);
    all := NOBODY.(rejected := malformed);
    assert domains[0..] == domains;
    for i := 0 to |domains|
      invariant DirectAll(net, to, domains[i..], all) == Direct(net, to)
    {
      assert domains[i..][1..] == domains[i + 1..];
      var d := domains[i];
      var rcpts := byDomain[d];
      var o := SendTo(net(d), rcpts);
      all := AddDomain(all, rcpts, o);
      if o.Error? && net(d).dead {
        return;
      }
    }
  }

  // ----- nobody is dropped, while the context lives -----

  /** The recipients of the first `n` domains and the malformed ones. */
  ghost function Covered(to: seq<string>, domains: seq<string>): multiset<string> {
    if domains == [] then multiset{} else multiset(Of(to, domains[0])) + Covered(to, domains[1..])
  }

  ghost function Sum(res: Recipients): multiset<string> {
    multiset(res.accepted) + multiset(res.deferred) + multiset(res.rejected)
  }

  lemma AddDomainSum(res: Recipients, to: seq<string>, o: Outcome)
    requires o.Done? ==> Conserves(o.res, to)
    ensures Sum(AddDomain(res, to, o)) == Sum(res) + multiset(to)
  {
  }

  /** The loop stops at position `k` and leaves a domain untried. */
  ghost predicate Abandons(net: string -> Site, to: seq<string>, domains: seq<string>, k: nat) {
    k + 1 < |domains| && Stops(net(domains[k]), DirectTo(net(domains[k]), Of(to, domains[k])))
  }

  lemma CoveredSome(to: seq<string>, domains: seq<string>, x: string)
    requires domains != [] && x in Of(to, domains[0])
    ensures Covered(to, domains) != multiset{}
  {
    assert x in Covered(to, domains);
  }

  lemma CoveredCons(to: seq<string>, domains: seq<string>)
    ensures domains != [] ==> Covered(to, domains) == multiset(Of(to, domains[0])) + Covered(to, domains[1..])
    ensures Covered(to, []) == multiset{}
  {
  }

  lemma {:induction false} DirectSum(net: string -> Site, to: seq<string>, domains: seq<string>, res: Recipients)
    requires forall d :: d in domains ==> Of(to, d) != []
    ensures Sum(DirectAll(net, to, domains, res)) <= Sum(res) + Covered(to, domains)
    ensures Sum(DirectAll(net, to, domains, res)) == Sum(res) + Covered(to, domains)
            <==> !exists k :: Abandons(net, to, domains, k)
  {
    if domains != [] {
      var d, rest := domains[0], domains[1..];
      var o := DirectTo(net(d), Of(to, d));
      var r := AddDomain(res, Of(to, d), o);
      hide DirectTo, AddDomain, Conserves, Of, Sum, Covered;
      DirectToKeeps(net(d), Of(to, d));
      CoveredCons(to, domains);
      AddDomainSum(res, Of(to, d), o);
      AbandonsTail(net, to, domains);
      if Stops(net(d), o) {
        if rest != [] {
          assert Abandons(net, to, domains, 0);
          CoveredSome(to, rest, Of(to, rest[0])[0]);
        }
      } else {
        DirectSum(net, to, rest, r);
        assert !Abandons(net, to, domains, 0);
      }
    }
  }

  lemma DirectToKeeps(site: Site, to: seq<string>)
    ensures DirectTo(site, to).Done? ==> Conserves(DirectTo(site, to).res, to)
  {
    DirectToConserves(site.hosts, to, Broken);
  }

  lemma AbandonsTail(net: string -> Site, to: seq<string>, domains: seq<string>)
    requires domains != []
    ensures (exists k :: Abandons(net, to, domains, k)) <==>
            Abandons(net, to, domains, 0) || exists k :: Abandons(net, to, domains[1..], k)
  {
    hide DirectTo, Of;
    if k: nat :| Abandons(net, to, domains, k) {
      if k > 0 {
        assert Abandons(net, to, domains[1..], k - 1);
      }
    }
    if k: nat :| Abandons(net, to, domains[1..], k) {
      assert Abandons(net, to, domains, k + 1);
    }
  }

  // ----- grouping by domain loses nobody -----

  lemma {:induction false} OfNoDomain(to: seq<string>, d: string)
    ensures Of(to, d) != [] <==> d in DomainsOf(to)
  {
    if to != [] {
      OfNoDomain(to[..|to| - 1], d);
    }
  }

  /** What one more recipient adds to a domain. */
  ghost function Here(rcpt: string, d: string): multiset<string> {
    if !Malformed(rcpt) && DomainOf(rcpt) == d then multiset{rcpt} else multiset{}
  }

  ghost function Among(rcpt: string, domains: seq<string>): multiset<string> {
    if !Malformed(rcpt) && DomainOf(rcpt) in domains then multiset{rcpt} else multiset{}
  }

  lemma OfSnoc(to: seq<string>, rcpt: string, d: string)
    ensures multiset(Of(to + [rcpt], d)) == multiset(Of(to, d)) + Here(rcpt, d)
  {
    hide Malformed, DomainOf;
    assert (to + [rcpt])[..|to|] == to;
  }

  lemma AmongCons(rcpt: string, domains: seq<string>)
    requires domains != [] && domains[0] !in domains[1..]
    ensures Among(rcpt, domains) == Here(rcpt, domains[0]) + Among(rcpt, domains[1..])
  {
    hide Malformed, DomainOf;
    assert domains == [domains[0]] + domains[1..];
  }

  lemma SumsSwap(a: multiset<string>, h: multiset<string>, b: multiset<string>, t: multiset<string>)
    ensures (a + h) + (b + t) == (a + b) + (h + t)
  {
  }

  ghost predicate Distinct(domains: seq<string>) {
    forall i, j :: 0 <= i < j < |domains| ==> domains[i] != domains[j]
  }

  lemma DistinctTail(domains: seq<string>)
    requires Distinct(domains) && domains != []
    ensures Distinct(domains[1..]) && domains[0] !in domains[1..]
  {
  }

  lemma {:induction false} CoveredSnoc(to: seq<string>, rcpt: string, domains: seq<string>)
    requires Distinct(domains)
    ensures Covered(to + [rcpt], domains) == Covered(to, domains) + Among(rcpt, domains)
  {
    hide Here, Of, Distinct;
    if domains == [] {
      assert Among(rcpt, domains) == multiset{};
    } else {
      DistinctTail(domains);
      OfSnoc(to, rcpt, domains[0]);
      CoveredSnoc(to, rcpt, domains[1..]);
      AmongCons(rcpt, domains);
      hide Among;
      SumsSwap(multiset(Of(to, domains[0])), Here(rcpt, domains[0]), Covered(to, domains[1..]), Among(rcpt, domains[1..]));
    }
  }

  lemma {:induction false} CoveredAppend(to: seq<string>, domains: seq<string>, d: string)
    ensures Covered(to, domains + [d]) == Covered(to, domains) + multiset(Of(to, d))
  {
    if domains == [] {
      assert [] + [d] == [d] && [d][1..] == [];
    } else {
      assert (domains + [d])[1..] == domains[1..] + [d] && (domains + [d])[0] == domains[0];
      CoveredAppend(to, domains[1..], d);
    }
  }

  lemma {:induction false} DomainsDistinct(to: seq<string>)
    ensures Distinct(DomainsOf(to))
  {
    if to != [] {
      hide DomainOf, Malformed;
      DomainsDistinct(to[..|to| - 1]);
    }
  }

  lemma GroupedOne(init: seq<string>, rcpt: string, domains: seq<string>)
    requires Distinct(domains) && (DomainOf(rcpt) !in domains ==> Of(init, DomainOf(rcpt)) == [])
    ensures !Malformed(rcpt) ==>
              Covered(init + [rcpt], if DomainOf(rcpt) in domains then domains else domains + [DomainOf(rcpt)])
              == Covered(init, domains) + multiset{rcpt}
    ensures Malformed(rcpt) ==> Covered(init + [rcpt], domains) == Covered(init, domains)
  {
    var d := DomainOf(rcpt);
    CoveredSnoc(init, rcpt, domains);
    OfSnoc(init, rcpt, d);
    hide Covered, Of, DomainOf, Malformed;
    CoveredAppend(init + [rcpt], domains, d);
  }

  lemma {:induction false} GroupingConserves(to: seq<string>)
    ensures Covered(to, DomainsOf(to)) + multiset(MalformedOf(to)) == multiset(to)
  {
    if to != [] {
      var init, rcpt := to[..|to| - 1], to[|to| - 1];
      assert to == init + [rcpt];
      GroupingConserves(init);
      DomainsDistinct(init);
      OfNoDomain(init, DomainOf(rcpt));
      hide Malformed, DomainOf, Covered, Distinct, Of;
      GroupedOne(init, rcpt, DomainsOf(init));
    }
  }

  /** Direct mode keeps every recipient, malformed ones and failed domains included, exactly when the context
      does not end at a failed domain before the last one. */
  lemma DirectConserves(net: string -> Site, to: seq<string>)
    ensures Conserves(Direct(net, to), to) <==> !exists k :: Abandons(net, to, DomainsOf(to), k)
  {
    forall d | d in DomainsOf(to)
      ensures Of(to, d) != []
    {
      OfNoDomain(to, d);
    }
    var start := NOBODY.(rejected := MalformedOf(to));
    DirectSum(net, to, DomainsOf(to), start);
    GroupingConserves(to);
    hide Of, DomainsOf, MalformedOf, DirectAll, Covered, DirectTo;
    assert Sum(start) == multiset(MalformedOf(to));
  }

  /** With a dead context the later domains' recipients are in no list, so nobody tries them again. */
  lemma AbandonedDropped(net: string -> Site, to: seq<string>, k: nat)
    requires Abandons(net, to, DomainsOf(to), k)
    ensures Sum(Direct(net, to)) < multiset(to)
  {
    forall d | d in DomainsOf(to)
      ensures Of(to, d) != []
    {
      OfNoDomain(to, d);
    }
    var start := NOBODY.(rejected := MalformedOf(to));
    DirectSum(net, to, DomainsOf(to), start);
    GroupingConserves(to);
    hide Of, DomainsOf, MalformedOf, DirectAll, Covered, DirectTo;
    assert Sum(start) == multiset(MalformedOf(to));
  }

  // ----- who is given up in direct mode -----

  /** The first host that answers. */
  function FirstPeer(hosts: seq<Host>): Option<Peer> {
    if hosts == [] then None
    else match hosts[0]
      case Unreachable(_) => FirstPeer(hosts[1..])
      case Reached(peer) => Some(peer)
  }

  /** The peer that the recipients of a domain are offered to. */
  function PeerOf(site: Site): Option<Peer> {
    if site.lookup.Fine? then FirstPeer(site.hosts) else None
  }

  /** Without a peer a permanent failure of the look-up or of the last greeting refuses everybody. */
  function SiteRefused(site: Site, to: seq<string>): seq<string> {
    match PeerOf(site)
    case Some(peer) => RefusedIn(peer, to)
    case None => GivenUp(DirectTo(site, to), to)
  }

  function SiteWronged(site: Site, to: seq<string>): seq<string> {
    match PeerOf(site)
    case Some(peer) => WrongedIn(peer, to)
    case None => []
  }

  predicate SiteOverrules(site: Site, to: seq<string>) {
    PeerOf(site).Some? && Overrules(PeerOf(site).value, to)
  }

  lemma {:induction false} TriedFirst(hosts: seq<Host>, to: seq<string>, last: Reply)
    ensures FirstPeer(hosts).Some? ==> TriedHosts(hosts, to, last) == Transmitted(FirstPeer(hosts).value, to)
    ensures FirstPeer(hosts).None? ==> TriedHosts(hosts, to, last).Error?
  {
    hide Transmitted;
    if hosts != [] && hosts[0].Unreachable? {
      TriedFirst(hosts[1..], to, hosts[0].why);
    }
  }

  lemma SiteGivesUp(site: Site, to: seq<string>)
    ensures multiset(GivenUp(DirectTo(site, to), to)) == multiset(SiteRefused(site, to)) + multiset(SiteWronged(site, to))
    ensures SiteWronged(site, to) == [] <==> !SiteOverrules(site, to)
  {
    TriedFirst(site.hosts, to, Broken);
    if PeerOf(site).Some? {
      TransmitGivesUp(PeerOf(site).value, to);
    }
    hide Transmitted, RefusedIn, WrongedIn, Overrules, FirstPeer, TriedHosts, GivenUp;
  }

  /** Over the domains that are tried: those refused, and those wronged. */
  function DirectRefused(net: string -> Site, to: seq<string>, domains: seq<string>): seq<string> {
    if domains == [] then []
    else
      var d := domains[0];
      SiteRefused(net(d), Of(to, d))
      + (if Stops(net(d), DirectTo(net(d), Of(to, d))) then [] else DirectRefused(net, to, domains[1..]))
  }

  function DirectWronged(net: string -> Site, to: seq<string>, domains: seq<string>): seq<string> {
    if domains == [] then []
    else
      var d := domains[0];
      SiteWronged(net(d), Of(to, d))
      + (if Stops(net(d), DirectTo(net(d), Of(to, d))) then [] else DirectWronged(net, to, domains[1..]))
  }

  /** The loop comes as far as domain number `k`, and its transaction overrules an answer. */
  ghost predicate OverrulesAt(net: string -> Site, to: seq<string>, domains: seq<string>, k: nat) {
    && k < |domains| && SiteOverrules(net(domains[k]), Of(to, domains[k]))
    && forall j :: 0 <= j < k ==> !Stops(net(domains[j]), DirectTo(net(domains[j]), Of(to, domains[j])))
  }

  lemma AddDomainGivesUp(res: Recipients, to: seq<string>, o: Outcome)
    ensures multiset(AddDomain(res, to, o).rejected) == multiset(res.rejected) + multiset(GivenUp(o, to))
  {
  }

  lemma OverrulesTail(net: string -> Site, to: seq<string>, domains: seq<string>)
    requires domains != []
    ensures (exists k :: OverrulesAt(net, to, domains, k)) <==>
            || SiteOverrules(net(domains[0]), Of(to, domains[0]))
            || (!Stops(net(domains[0]), DirectTo(net(domains[0]), Of(to, domains[0]))) && exists k :: OverrulesAt(net, to, domains[1..], k))
  {
    hide DirectTo, Of, SiteOverrules, Stops;
    if SiteOverrules(net(domains[0]), Of(to, domains[0])) {
      assert OverrulesAt(net, to, domains, 0);
    }
    if k: nat :| OverrulesAt(net, to, domains, k) {
      if k > 0 {
        assert forall j :: 0 <= j < k - 1 ==> domains[1..][j] == domains[j + 1];
        assert OverrulesAt(net, to, domains[1..], k - 1);
      }
    }
    if !Stops(net(domains[0]), DirectTo(net(domains[0]), Of(to, domains[0]))) {
      if k: nat :| OverrulesAt(net, to, domains[1..], k) {
        assert forall j :: 0 < j < k + 1 ==> domains[j] == domains[1..][j - 1];
        assert OverrulesAt(net, to, domains, k + 1);
      }
    }
  }

  lemma {:induction false} DirectAllGivesUp(net: string -> Site, to: seq<string>, domains: seq<string>, res: Recipients)
    ensures multiset(DirectAll(net, to, domains, res).rejected) ==
            multiset(res.rejected) + multiset(DirectRefused(net, to, domains)) + multiset(DirectWronged(net, to, domains))
    ensures DirectWronged(net, to, domains) == [] <==> !exists k :: OverrulesAt(net, to, domains, k)
    decreases |domains|
  {
    hide DirectTo, Of, SiteRefused, SiteWronged, SiteOverrules, Stops, GivenUp, AddDomain;
    if domains != [] {
      var d := domains[0];
      var o := DirectTo(net(d), Of(to, d));
      SiteGivesUp(net(d), Of(to, d));
      AddDomainGivesUp(res, Of(to, d), o);
      OverrulesTail(net, to, domains);
      hide OverrulesAt;
      if !Stops(net(d), o) {
        DirectAllGivesUp(net, to, domains[1..], AddDomain(res, Of(to, d), o));
      }
    } else {
      assert !exists k: nat :: OverrulesAt(net, to, domains, k);
    }
  }

  /** Everybody that direct mode gives up has a malformed address, was refused, or was wronged; and nobody is wronged
      exactly if no transaction of the loop had its DATA refused with one recipient accepted and another put off. */
  lemma DirectGivesUp(net: string -> Site, to: seq<string>)
    ensures multiset(Direct(net, to).rejected) ==
            multiset(MalformedOf(to)) + multiset(DirectRefused(net, to, DomainsOf(to))) + multiset(DirectWronged(net, to, DomainsOf(to)))
    ensures DirectWronged(net, to, DomainsOf(to)) == [] <==> !exists k :: OverrulesAt(net, to, DomainsOf(to), k)
  {
    DirectAllGivesUp(net, to, DomainsOf(to), NOBODY.(rejected := MalformedOf(to)));
    hide DirectAll, DirectRefused, DirectWronged, DomainsOf, MalformedOf, OverrulesAt;
  }

  lemma TwoDomains(a: string, b: string)
    requires !Malformed(a) && !Malformed(b) && DomainOf(a) != DomainOf(b)
    ensures DomainsOf([a, b]) == [DomainOf(a), DomainOf(b)] && MalformedOf([a, b]) == []
    ensures Of([a, b], DomainOf(a)) == [a] && Of([a, b], DomainOf(b)) == [b]
  {
    hide Malformed, DomainOf;
    GroupNone();
    assert [] + [a] == [a] && [a] + [b] == [a, b];
    GroupStep([], a);
    GroupStep([a], b);
  }

  /** Such a loss: the look-up of the first domain fails as the context ends, and the second recipient is in no list. */
  lemma SecondDomainLost(a: string, b: string)
    requires !Malformed(a) && !Malformed(b) && DomainOf(a) != DomainOf(b)
    ensures Direct(d => Site(Broken, [], true), [a, b]) == Recipients([], [a], [])
    ensures Abandons(d => Site(Broken, [], true), [a, b], DomainsOf([a, b]), 0)
  {
    TwoDomains(a, b);
    hide Malformed, DomainOf, Of, DomainsOf, MalformedOf;
  }

  lemma SecondDomainLostExample()
    ensures Direct(d => Site(Broken, [], true), ["a@x", "b@y"]) == Recipients([], ["a@x"], [])
  {
    AtSecond("a@x");
    AtSecond("b@y");
    assert ToLower("x") == "x" && ToLower("y") == "y";
    SecondDomainLost("a@x", "b@y");
  }

  lemma AtSecond(s: string)
    requires |s| == 3 && s[1] == '@' && s[2] != '@'
    ensures !Malformed(s) && DomainOf(s) == ToLower([s[2]])
  {
    assert s[..2][|s[..2]| - 1] == '@';
    assert LastIndex(s[..2], '@') == 1;
    assert LastIndex(s, '@') == 1 && s[2..] == [s[2]];
  }

  // ----- relay mode -----

  /** What `sendViaRelay` returns once connected: a null sender that is refused is tried again under another name. */
  function ViaRelay(first: Peer, resetOk: bool, second: Peer, from: string, to: seq<string>): Outcome {
    if from == "" && Permanent(first.mail) && resetOk then Transmitted(second, to) else Transmitted(first, to)
  }

  /** The peer that answers for the relay in the end. */
  function RelayPeer(first: Peer, resetOk: bool, second: Peer, from: string): Peer {
    if from == "" && Permanent(first.mail) && resetOk then second else first
  }

  lemma RelayGivesUp(first: Peer, resetOk: bool, second: Peer, from: string, to: seq<string>)
    ensures var p, r := RelayPeer(first, resetOk, second, from), ViaRelay(first, resetOk, second, from, to);
            && multiset(GivenUp(r, to)) == multiset(RefusedIn(p, to)) + multiset(WrongedIn(p, to))
            && (WrongedIn(p, to) == [] <==> !Overrules(p, to))
  {
    TransmitGivesUp(RelayPeer(first, resetOk, second, from), to);
    hide Transmitted, RefusedIn, WrongedIn, Overrules, GivenUp;
  }

  // ----- a recipient that was only put off, and is given up -----

  /** Accepts the first, puts the second off, and refuses the message. */
  const FICKLE := Peer(Fine, i => if i == 0 then Fine else Code(450), Code(550))

  lemma FickleWrongs(a: string, b: string)
    ensures Transmitted(FICKLE, [a, b]) == Error(Code(550)) && DataRefused(FICKLE, [a, b])
    ensures Overrules(FICKLE, [a, b]) && RefusedIn(FICKLE, [a, b]) == [a] && WrongedIn(FICKLE, [a, b]) == [b]
  {
    var to := [a, b];
    assert FICKLE.rcpt(0) == Fine && FICKLE.rcpt(1) == Code(450);
    TransmittedIs(FICKLE, to);
    hide Transmitted, Answers;
    assert DataRefused(FICKLE, to);
    assert to[..1] == [a] && to[..1][..0] == [];
    var refused, wronged := RefusedMarks(FICKLE, to), WrongedMarks(FICKLE, to);
    assert refused == [true, false] && wronged == [false, true];
    PickedTwo(a, b, refused);
    PickedTwo(a, b, wronged);
  }

  lemma PickedTwo(a: string, b: string, marks: seq<bool>)
    requires |marks| == 2
    ensures Picked([a, b], marks) == (if marks[0] then [a] else []) + (if marks[1] then [b] else [])
  {
    var to := [a, b];
    assert to[..1] == [a] && [a][..0] == [] && marks[..1][..0] == [];
    assert Picked([a], marks[..1]) == if marks[0] then [a] else [];
  }

  /** One domain, two recipients: the second was answered 450, and is given up with the first. */
  lemma PutOffAndGivenUp(net: string -> Site, a: string, b: string)
    requires net == (d => Site(Fine, [Reached(FICKLE)], false))
    requires !Malformed(a) && !Malformed(b) && DomainOf(a) == DomainOf(b)
    ensures Direct(net, [a, b]) == Recipients([], [], [a, b])
    ensures DirectRefused(net, [a, b], DomainsOf([a, b])) == [a] && DirectWronged(net, [a, b], DomainsOf([a, b])) == [b]
  {
    hide Malformed, DomainOf, Of, DomainsOf, MalformedOf, Transmitted, RefusedIn, WrongedIn, FICKLE, Overrules;
    OneDomain(a, b);
    FickleWrongs(a, b);
    var d, to := DomainOf(a), [a, b];
    var site := Site(Fine, [Reached(FICKLE)], false);
    assert net(d) == site && [d][1..] == [];
    assert DirectTo(site, to) == Error(Code(550)) && PeerOf(site) == Some(FICKLE);
    var all := Recipients([], [], to);
    assert [] + to == to;
    assert AddDomain(NOBODY, to, Error(Code(550))) == all;
    assert NOBODY.(rejected := MalformedOf(to)) == NOBODY;
    assert DirectAll(net, to, [d], NOBODY) == DirectAll(net, to, [d][1..], all) == all;
  }

  lemma PutOffAndGivenUpExample(net: string -> Site)
    requires net == (d => Site(Fine, [Reached(FICKLE)], false))
    ensures Direct(net, ["a@x", "b@x"]) == Recipients([], [], ["a@x", "b@x"])
    ensures DirectWronged(net, ["a@x", "b@x"], DomainsOf(["a@x", "b@x"])) == ["b@x"]
  {
    AtSecond("a@x");
    AtSecond("b@x");
    hide Malformed, DomainOf, Direct, DirectWronged, DomainsOf;
    PutOffAndGivenUp(net, "a@x", "b@x");
  }

  lemma OneDomain(a: string, b: string)
    requires !Malformed(a) && !Malformed(b) && DomainOf(a) == DomainOf(b)
    ensures DomainsOf([a, b]) == [DomainOf(a)] && MalformedOf([a, b]) == [] && Of([a, b], DomainOf(a)) == [a, b]
  {
    hide Malformed, DomainOf;
    GroupNone();
    assert [] + [a] == [a] && [a] + [b] == [a, b];
    GroupStep([], a);
    GroupStep([a], b);
  }

  lemma RelayConserves(first: Peer, resetOk: bool, second: Peer, from: string, to: seq<string>)
    ensures var r := ViaRelay(first, resetOk, second, from, to);
            && (r.Done? ==> Conserves(r.res, to))
            && (r.Done? && from != "" ==> first.mail.Fine?)
  {
    TransmitConserves(first, to);
    TransmitConserves(second, to);
  }

  // ----- the answers, spelled out -----

  predicate Bounced(r: Reply) {
    r.Code? && 500 <= r.code < 600
  }

  /** What a transaction comes to. A refused MAIL ends it with that reply, a broken RCPT as broken; with nobody accepted
      DATA is not tried; a refused DATA ends it with that reply; else every recipient is where its own answer puts it:
      accepted, rejected for a code from 500 to 599, put off for any other code. */
  lemma TransmitExactly(p: Peer, to: seq<string>)
    ensures var o := Transmitted(p, to);
            var broken, some := exists i: nat :: i < |to| && p.rcpt(i).Broken?, exists i: nat :: i < |to| && p.rcpt(i).Fine?;
            if !p.mail.Fine? then o == Error(p.mail)
            else if broken then o == Error(Broken)
            else if some && !p.data.Fine? then o == Error(p.data)
            else o.Done? && ListsAre(p, to, o.res)
  {
    AnswersFail(p, to);
    if Answers(p, to).Done? {
      SomeAccepted(p, to);
      AnswersListed(p, to);
    }
    hide Answers, ListsAre;
  }

  ghost predicate ListsAre(p: Peer, to: seq<string>, res: Recipients) {
    && res.accepted == Picked(to, seq(|to|, i requires 0 <= i < |to| => p.rcpt(i).Fine?))
    && res.rejected == Picked(to, seq(|to|, i requires 0 <= i < |to| => Bounced(p.rcpt(i))))
    && res.deferred == Picked(to, seq(|to|, i requires 0 <= i < |to| => p.rcpt(i).Code? && !Bounced(p.rcpt(i))))
  }

  lemma AnswersListed(p: Peer, to: seq<string>)
    requires Answers(p, to).Done?
    ensures ListsAre(p, to, Answers(p, to).res)
  {
    hide Answers, Answered, Picked;
    AnswersSorted(p, to);
    AnsweredPicked(p, to, Accepts);
    AnsweredPicked(p, to, Permanent);
    AnsweredPicked(p, to, Defers);
    forall i: nat | i < |to|
      ensures Marks(p, |to|, Accepts)[i] == p.rcpt(i).Fine?
      ensures Marks(p, |to|, Permanent)[i] == Bounced(p.rcpt(i))
      ensures Marks(p, |to|, Defers)[i] == (p.rcpt(i).Code? && !Bounced(p.rcpt(i)))
    {
      var r := p.rcpt(i);
      assert Marks(p, |to|, Permanent)[i] == Permanent(r);
      assert Marks(p, |to|, Defers)[i] == Defers(r);
      assert Marks(p, |to|, Accepts)[i] == Accepts(r);
    }
    assert Marks(p, |to|, Accepts) == seq(|to|, i requires 0 <= i < |to| => p.rcpt(i).Fine?);
    assert Marks(p, |to|, Permanent) == seq(|to|, i requires 0 <= i < |to| => Bounced(p.rcpt(i)));
    assert Marks(p, |to|, Defers) == seq(|to|, i requires 0 <= i < |to| => p.rcpt(i).Code? && !Bounced(p.rcpt(i)));
  }

  /** What one domain comes to: the error of its look-up; else the transaction with the first host that is reached; else
      the error of the last host, if there is one. */
  lemma {:induction false} HostsExactly(site: Site, to: seq<string>, k: nat)
    requires k <= |site.hosts| && forall i :: 0 <= i < k ==> site.hosts[i].Unreachable?
    requires k < |site.hosts| ==> site.hosts[k].Reached?
    ensures DirectTo(site, to) ==
            if !site.lookup.Fine? then Error(site.lookup)
            else if k < |site.hosts| then Transmitted(site.hosts[k].peer, to)
            else Error(if k == 0 then Broken else site.hosts[k - 1].why)
  {
    TriedExactly(site.hosts, to, k, Broken);
    hide TriedHosts, Transmitted;
  }

  lemma {:induction false} TriedExactly(hosts: seq<Host>, to: seq<string>, k: nat, last: Reply)
    requires k <= |hosts| && forall i :: 0 <= i < k ==> hosts[i].Unreachable?
    requires k < |hosts| ==> hosts[k].Reached?
    ensures TriedHosts(hosts, to, last) ==
            if k < |hosts| then Transmitted(hosts[k].peer, to) else Error(if k == 0 then last else hosts[k - 1].why)
  {
    hide Transmitted;
    if k > 0 {
      assert forall i :: 0 <= i < k - 1 ==> hosts[1..][i] == hosts[i + 1];
      TriedExactly(hosts[1..], to, k - 1, hosts[0].why);
    }
  }

  /** An address has its domain behind its last @, in any letter case; without one, or with nothing behind it, it is malformed. */
  lemma AddressExactly(local: string, domain: string)
    requires '@' !in domain
    ensures Malformed(domain)
    ensures Malformed(local + "@" + domain) <==> domain == ""
    ensures domain != "" ==> DomainOf(local + "@" + domain) == ToLower(domain)
  {
    LastIndexAt(local, '@', domain);
    hide LastIndex;
    var s := local + "@" + domain;
    assert s[|local| + 1..] == domain;
  }

  /** The accepted of the domains that are tried, in order; and those put off: by their own answer, or with all of their
      domain by an error that is not permanent. */
  function DirectAccepted(net: string -> Site, to: seq<string>, domains: seq<string>): seq<string> {
    if domains == [] then []
    else
      var o := DirectTo(net(domains[0]), Of(to, domains[0]));
      Took(o) + (if o.Error? && net(domains[0]).dead then [] else DirectAccepted(net, to, domains[1..]))
  }

  function DirectDeferred(net: string -> Site, to: seq<string>, domains: seq<string>): seq<string> {
    if domains == [] then []
    else
      var o := DirectTo(net(domains[0]), Of(to, domains[0]));
      PutOff(o, Of(to, domains[0])) + (if o.Error? && net(domains[0]).dead then [] else DirectDeferred(net, to, domains[1..]))
  }

  /** What one domain adds to the accepted, and to those put off. */
  function Took(o: Outcome): seq<string> {
    if o.Done? then o.res.accepted else []
  }

  function PutOff(o: Outcome, rcpts: seq<string>): seq<string> {
    if o.Done? then o.res.deferred else if o.why.Code? && 500 <= o.why.code < 600 then [] else rcpts
  }

  lemma AddDomainLists(res: Recipients, rcpts: seq<string>, o: Outcome)
    ensures AddDomain(res, rcpts, o).accepted == res.accepted + Took(o)
    ensures AddDomain(res, rcpts, o).deferred == res.deferred + PutOff(o, rcpts)
  {
  }

  lemma {:induction false} DirectAllLists(net: string -> Site, to: seq<string>, domains: seq<string>, res: Recipients)
    ensures DirectAll(net, to, domains, res).accepted == res.accepted + DirectAccepted(net, to, domains)
    ensures DirectAll(net, to, domains, res).deferred == res.deferred + DirectDeferred(net, to, domains)
    decreases |domains|
  {
    hide DirectTo, Of, AddDomain, Took, PutOff;
    if domains == [] {
      assert res.accepted + [] == res.accepted && res.deferred + [] == res.deferred;
    } else {
      var d := domains[0];
      var o := DirectTo(net(d), Of(to, d));
      AddDomainLists(res, Of(to, d), o);
      AppendTwice(res.accepted, Took(o), DirectAccepted(net, to, domains[1..]));
      AppendTwice(res.deferred, PutOff(o, Of(to, d)), DirectDeferred(net, to, domains[1..]));
      if !Stops(net(d), o) {
        DirectAllLists(net, to, domains[1..], AddDomain(res, Of(to, d), o));
      }
    }
  }

  lemma AppendTwice(a: seq<string>, b: seq<string>, c: seq<string>)
    ensures a + (b + c) == a + b + c && a + (b + []) == a + b
  {
  }

  /** The lists of direct mode: accepted and put off, domain by domain; `DirectGivesUp` says who is rejected. */
  lemma DirectLists(net: string -> Site, to: seq<string>)
    ensures Direct(net, to).accepted == DirectAccepted(net, to, DomainsOf(to))
    ensures Direct(net, to).deferred == DirectDeferred(net, to, DomainsOf(to))
  {
    DirectAllLists(net, to, DomainsOf(to), NOBODY.(rejected := MalformedOf(to)));
    hide DirectAll, DirectAccepted, DirectDeferred, DomainsOf, MalformedOf;
    assert [] + DirectAccepted(net, to, DomainsOf(to)) == DirectAccepted(net, to, DomainsOf(to));
    assert [] + DirectDeferred(net, to, DomainsOf(to)) == DirectDeferred(net, to, DomainsOf(to));
  }

  /** The relay gets a second try only for a null sender that MAIL refused for good, on a connection that could be reset. */
  lemma RelayExactly(first: Peer, resetOk: bool, second: Peer, from: string, to: seq<string>)
    ensures from == "" && Bounced(first.mail) && resetOk ==> ViaRelay(first, resetOk, second, from, to) == Transmitted(second, to)
    ensures !(from == "" && Bounced(first.mail) && resetOk) ==> ViaRelay(first, resetOk, second, from, to) == Transmitted(first, to)
  {
    hide Transmitted;
  }
}
