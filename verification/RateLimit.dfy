// internal/ratelimit/ratelimit.go: a sliding window of grants for each key, compacted in place and pruned.

module RateLimit {
  import opened Options

  type Time = int

  const MAX_KEYS: nat := 10000

  /** The times after `cutoff`, in order. */
  function Recent(s: seq<Time>, cutoff: Time): (r: seq<Time>)
    ensures |r| <= |s|
  {
    if s == [] then []
    else
      var init, t := s[..|s| - 1], s[|s| - 1];
      if t > cutoff then Recent(init, cutoff) + [t] else Recent(init, cutoff)
  }

  lemma {:induction false} RecentTwice(s: seq<Time>, a: Time, b: Time)
    requires a <= b
    ensures Recent(Recent(s, a), b) == Recent(s, b)
  {
    if s != [] {
      var init, t := s[..|s| - 1], s[|s| - 1];
      RecentTwice(init, a, b);
      if t > a {
        assert (Recent(init, a) + [t])[..|Recent(init, a)|] == Recent(init, a);
      }
    }
  }

  lemma RecentSnoc(s: seq<Time>, t: Time, cutoff: Time)
    ensures Recent(s + [t], cutoff) == Recent(s, cutoff) + (if t > cutoff then [t] else [])
  {
    assert (s + [t])[..|s|] == s;
  }

  lemma {:induction false} RecentNone(s: seq<Time>, cutoff: Time)
    requires forall i :: 0 <= i < |s| ==> s[i] <= cutoff
    ensures Recent(s, cutoff) == []
  {
    if s != [] {
      RecentNone(s[..|s| - 1], cutoff);
    }
  }

  predicate Sorted(s: seq<Time>) {
    forall i, j :: 0 <= i < j < |s| ==> s[i] <= s[j]
  }

  /** Moves the times after `cutoff` to the front of the array, in order, and tells how many there are. */
  method Compact(a: array<Time>, cutoff: Time) returns (kept: nat)
    modifies a
    ensures kept <= a.Length && a[..kept] == Recent(old(a[..]), cutoff)
  {
    kept := 0;
    ghost var was := a[..];
    for i := 0 to a.Length
      invariant kept <= i && a[..kept] == Recent(was[..i], cutoff)
      invariant a[i..] == was[i..]
    {
      var t := a[i];
      assert t == a[i..][0] == was[i];
      assert was[..i + 1] == was[..i] + [t];
      RecentSnoc(was[..i], t, cutoff);
      if t > cutoff {
        a[kept] := t;
        kept := kept + 1;
        assert a[..kept] == a[..kept - 1] + [t];
      }
      assert a[i + 1..] == was[i + 1..];
    }
    assert was[..a.Length] == was;
  }

  /** What a key's entry stands for when there is none. */
  function Entry(m: map<string, seq<Time>>, key: string): seq<Time> {
    if key in m then m[key] else []
  }

  /** A key whose newest time is before `cutoff`, or that has none. */
  predicate Stale(s: seq<Time>, cutoff: Time) {
    s == [] || s[|s| - 1] < cutoff
  }

  /** The entry and the full history agree on everything a later call can see. */
  ghost predicate Agrees(entry: seq<Time>, history: seq<Time>, last: Time, window: nat) {
    && Sorted(entry) && Sorted(history)
    && (history != [] ==> history[|history| - 1] <= last)
    && (entry != [] ==> entry[|entry| - 1] <= last)
    && forall cutoff :: cutoff >= last - window ==> Recent(entry, cutoff) == Recent(history, cutoff)
  }

  lemma AgreesLater(entry: seq<Time>, history: seq<Time>, last: Time, window: nat, now: Time)
    requires Agrees(entry, history, last, window) && now >= last
    ensures Agrees(entry, history, now, window)
  {
  }

  lemma {:induction false} RecentStaysSorted(s: seq<Time>, cutoff: Time)
    requires Sorted(s)
    ensures var r := Recent(s, cutoff); Sorted(r) && (r != [] ==> r[|r| - 1] == s[|s| - 1])
  {
    if s != [] {
      var init, t := s[..|s| - 1], s[|s| - 1];
      RecentStaysSorted(init, cutoff);
      if t <= cutoff {
        RecentNone(s, cutoff);
      } else {
        var r := Recent(init, cutoff);
        forall i | 0 <= i < |r|
          ensures r[i] <= t
        {
          assert r[i] <= r[|r| - 1] == init[|init| - 1];
        }
      }
    }
  }

  /** The times after `cutoff` are the last ones, so their number tells where they start. */
  lemma {:induction false} RecentCount(s: seq<Time>, cutoff: Time, k: nat)
    requires Sorted(s) && k < |s|
    ensures s[k] > cutoff <==> |Recent(s, cutoff)| >= |s| - k
  {
    var init, t := s[..|s| - 1], s[|s| - 1];
    if t <= cutoff {
      RecentNone(s, cutoff);
    } else if k < |init| {
      RecentCount(init, cutoff, k);
    }
  }

  lemma CompactedAgrees(entry: seq<Time>, history: seq<Time>, last: Time, window: nat, now: Time)
    requires Agrees(entry, history, last, window) && now >= last
    ensures Agrees(Recent(entry, now - window), history, now, window)
    ensures Recent(entry, now - window) == Recent(history, now - window)
  {
    RecentStaysSorted(entry, now - window);
    hide Recent;
    forall cutoff | cutoff >= now - window
      ensures Recent(Recent(entry, now - window), cutoff) == Recent(history, cutoff)
    {
      RecentTwice(entry, now - window, cutoff);
    }
  }

  lemma GrantedAgrees(entry: seq<Time>, history: seq<Time>, now: Time, window: nat)
    requires Agrees(entry, history, now, window)
    ensures Agrees(entry + [now], history + [now], now, window)
  {
    forall cutoff | cutoff >= now - window
      ensures Recent(entry + [now], cutoff) == Recent(history + [now], cutoff)
    {
      RecentSnoc(entry, now, cutoff);
      RecentSnoc(history, now, cutoff);
    }
    hide Recent;
  }

  lemma EvictedAgrees(entry: seq<Time>, history: seq<Time>, now: Time, window: nat)
    requires Agrees(entry, history, now, window) && Stale(entry, now - window)
    ensures Agrees([], history, now, window)
  {
    forall cutoff | cutoff >= now - window
      ensures Recent([], cutoff) == Recent(history, cutoff)
    {
      RecentNone(entry, cutoff);
    }
  }

  // ----- the meaning of the limit -----

  /** Grants `max` apart are at least a window apart. */
  ghost predicate Spaced(h: seq<Time>, max: int, window: nat) {
    Sorted(h) && forall i :: 0 <= i && i + max < |h| && max > 0 ==> h[i + max] - h[i] >= window
  }

  /** A grant given only while fewer than `max` lie inside the window keeps the history spaced. */
  lemma GrantSpaced(h: seq<Time>, max: int, window: nat, now: Time)
    requires Spaced(h, max, window) && (h != [] ==> h[|h| - 1] <= now)
    requires |Recent(h, now - window)| < max
    ensures Spaced(h + [now], max, window)
  {
    if max <= |h| {
      RecentCount(h, now - window, |h| - max);
    }
    hide Recent;
    var g := h + [now];
    forall i | 0 <= i && i + max < |g|
      ensures g[i + max] - g[i] >= window
    {
      assert i + max == |h| ==> h[i] <= now - window;
    }
  }

  /** In any stretch of time as long as the window, a spaced history has at most `max` grants. */
  lemma WindowHoldsMax(h: seq<Time>, max: int, window: nat, x: Time, i: nat, j: nat)
    requires Spaced(h, max, window) && max > 0
    requires i <= j < |h| && x < h[i] && h[j] <= x + window
    ensures j - i + 1 <= max
  {
    var k := i + max;
    assert k < |h| ==> h[k] - h[i] >= window;
  }

  // ----- the table of keys -----

  /** For every key, the entry and the history agree, and the history is spaced. */
  ghost predicate Matches(m: map<string, seq<Time>>, h: map<string, seq<Time>>, last: Time, max: int, window: nat) {
    forall key: string :: Agrees(Entry(m, key), Entry(h, key), last, window) && Spaced(Entry(h, key), max, window)
  }

  lemma MatchesKey(m: map<string, seq<Time>>, h: map<string, seq<Time>>, last: Time, max: int, window: nat, key: string)
    requires Matches(m, h, last, max, window)
    ensures Agrees(Entry(m, key), Entry(h, key), last, window) && Spaced(Entry(h, key), max, window)
  {
    hide Agrees, Spaced;
  }

  lemma MatchesUpdate(m: map<string, seq<Time>>, h: map<string, seq<Time>>, last: Time, max: int, window: nat,
                      now: Time, key: string, mm: map<string, seq<Time>>, hh: map<string, seq<Time>>)
    requires Matches(m, h, last, max, window) && now >= last
    requires Agrees(Entry(mm, key), Entry(hh, key), now, window) && Spaced(Entry(hh, key), max, window)
    requires forall k :: k != key ==> Entry(mm, k) == Entry(m, k) && Entry(hh, k) == Entry(h, k)
    ensures Matches(mm, hh, now, max, window)
  {
    hide Agrees, Spaced, Entry;
    forall k: string
      ensures Agrees(Entry(mm, k), Entry(hh, k), now, window) && Spaced(Entry(hh, k), max, window)
    {
      MatchesKey(m, h, last, max, window, k);
      AgreesLater(Entry(m, k), Entry(h, k), last, window, now);
    }
  }

  lemma DeniedMatches(m: map<string, seq<Time>>, h: map<string, seq<Time>>, last: Time, max: int, window: nat, now: Time, key: string)
    requires Matches(m, h, last, max, window) && now >= last
    ensures Matches(m[key := Recent(Entry(m, key), now - window)], h, now, max, window)
    ensures Recent(Entry(m, key), now - window) == Recent(Entry(h, key), now - window)
  {
    MatchesKey(m, h, last, max, window, key);
    CompactedAgrees(Entry(m, key), Entry(h, key), last, window, now);
    hide Agrees, Spaced, Recent, Matches;
    MatchesUpdate(m, h, last, max, window, now, key, m[key := Recent(Entry(m, key), now - window)], h);
  }

  lemma GrantedMatches(m: map<string, seq<Time>>, h: map<string, seq<Time>>, last: Time, max: int, window: nat, now: Time, key: string)
    requires Matches(m, h, last, max, window) && now >= last && |Recent(Entry(h, key), now - window)| < max
    ensures Matches(m[key := Recent(Entry(m, key), now - window) + [now]], h[key := Entry(h, key) + [now]], now, max, window)
  {
    hide Agrees, Spaced, Recent, Matches;
    MatchesKey(m, h, last, max, window, key);
    CompactedAgrees(Entry(m, key), Entry(h, key), last, window, now);
    GrantedAgrees(Recent(Entry(m, key), now - window), Entry(h, key), now, window);
    AgreesNewest(Entry(m, key), Entry(h, key), last, window);
    GrantSpaced(Entry(h, key), max, window, now);
    MatchesUpdate(m, h, last, max, window, now, key, m[key := Recent(Entry(m, key), now - window) + [now]], h[key := Entry(h, key) + [now]]);
  }

  lemma EvictedMatches(m: map<string, seq<Time>>, h: map<string, seq<Time>>, last: Time, max: int, window: nat, key: string)
    requires Matches(m, h, last, max, window) && key in m && Stale(m[key], last - window)
    ensures Matches(m - {key}, h, last, max, window)
  {
    MatchesKey(m, h, last, max, window, key);
    EvictedAgrees(m[key], Entry(h, key), last, window);
    hide Agrees, Spaced, Matches, Stale;
    MatchesUpdate(m, h, last, max, window, last, key, m - {key}, h);
  }

  lemma ResetMatches(m: map<string, seq<Time>>, h: map<string, seq<Time>>, last: Time, max: int, window: nat, key: string)
    requires Matches(m, h, last, max, window)
    ensures Matches(m - {key}, h - {key}, last, max, window)
  {
    NothingAgrees(last, window, max);
    hide Agrees, Spaced, Matches;
    MatchesUpdate(m, h, last, max, window, last, key, m - {key}, h - {key});
  }

  lemma NothingMatches(last: Time, max: int, window: nat)
    ensures Matches(map[], map[], last, max, window)
  {
    NothingAgrees(last, window, max);
    hide Agrees, Spaced;
  }

  lemma AgreesNewest(entry: seq<Time>, history: seq<Time>, last: Time, window: nat)
    requires Agrees(entry, history, last, window)
    ensures history != [] ==> history[|history| - 1] <= last
  {
  }

  lemma NothingAgrees(last: Time, window: nat, max: int)
    ensures Agrees([], [], last, window) && Spaced([], max, window)
  {
  }

  // ----- the limiter -----

  class Limiter {
    const max: int
    const window: nat
    var attempts: map<string, seq<Time>>
    /** The grants of each key since its last reset, and the newest clock reading. */
    ghost var history: map<string, seq<Time>>
    ghost var last: Time

    ghost predicate Valid()
      reads this
    {
      Matches(attempts, history, last, max, window)
    }

    constructor (max: int, window: nat, now: Time)
      ensures Valid() && this.max == max && this.window == window && history == map[] && last == now
    {
      this.max, this.window := max, window;
      attempts, history, last := map[], map[], now;
      NothingMatches(now, max, window);
    }

    /** Grants exactly when fewer than `max` grants of the key since its last reset lie inside the window. */
    method Allow(key: string, now: Time) returns (ok: bool)
      requires Valid() && now >= last
      modifies this
      ensures Valid() && last == now
      ensures ok <==> |Recent(Entry(old(history), key), now - window)| < max
      ensures history == if ok then old(history)[key := Entry(old(history), key) + [now]] else old(history)
      // Beyond ten thousand keys only those with a recent grant are kept.
      ensures ok && |attempts| > 10000 ==> forall k :: k in attempts ==> attempts[k] != [] && attempts[k][|attempts[k]| - 1] >= now - window
    {
      hide Recent, Matches, Stale;
      var cutoff := now - window;
      var entry := Entry(attempts, key);
      var buffer := new Time[|entry|](i requires 0 <= i < |entry| => entry[i]);
      assert buffer[..] == entry;
      var n := Compact(buffer, cutoff);
      var kept := buffer[..n];
      DeniedMatches(attempts, history, last, max, window, now, key);
      if |kept| >= max {
        attempts := attempts[key := kept];
        last := now;
        return false;
      }
      GrantedMatches(attempts, history, last, max, window, now, key);
      attempts := attempts[key := kept + [now]];
      history := history[key := Entry(history, key) + [now]];
      last := now;
      if |attempts| > MAX_KEYS {
        Evict(cutoff);
      }
      ok := true;
    }

    /** Deletes exactly the stale keys, one by one. */
    method Evict(cutoff: Time)
      requires Valid() && cutoff == last - window
      modifies this`attempts
      ensures Valid()
      ensures forall key :: key in attempts <==>
                && key in old(attempts)
                && var e := old(attempts)[key]; e != [] && e[|e| - 1] >= cutoff
      ensures forall key :: key in attempts ==> attempts[key] == old(attempts)[key]
    {
      hide Matches;
      var keys := attempts.Keys;
      while keys != {}
        invariant Valid() && keys <= attempts.Keys
        invariant forall key :: key in attempts <==> key in old(attempts) && (key in keys || !Stale(old(attempts)[key], cutoff))
        invariant forall key :: key in attempts ==> attempts[key] == old(attempts)[key]
        decreases |keys|
      {
        var key :| key in keys;
        keys := keys - {key};
        if Stale(attempts[key], cutoff) {
          EvictedMatches(attempts, history, last, max, window, key);
          attempts := attempts - {key};
        }
      }
    }

    method Reset(key: string)
      requires Valid()
      modifies this
      ensures Valid() && last == old(last)
      ensures history == old(history) - {key}
    {
      hide Matches;
      ResetMatches(attempts, history, last, max, window, key);
      attempts := attempts - {key};
      history := history - {key};
    }
  }

  // ----- whole runs -----

  datatype Call = Allow(key: string, at: Time) | Reset(key: string)

  /** The simple meaning: the grants of one key since its last reset, over a run. */
  function GrantsOf(calls: seq<Call>, key: string, max: int, window: nat): seq<Time> {
    if calls == [] then []
    else
      var before := GrantsOf(calls[..|calls| - 1], key, max, window);
      match calls[|calls| - 1]
      case Allow(k, at) => if k == key && |Recent(before, at - window)| < max then before + [at] else before
      case Reset(k) => if k == key then [] else before
  }

  ghost predicate Clocked(calls: seq<Call>) {
    forall i, j :: 0 <= i < j < |calls| && calls[i].Allow? && calls[j].Allow? ==> calls[i].at <= calls[j].at
  }

  lemma {:induction false} GrantsSpaced(calls: seq<Call>, key: string, max: int, window: nat, last: Time)
    requires Clocked(calls) && forall i :: 0 <= i < |calls| && calls[i].Allow? ==> calls[i].at <= last
    ensures var g := GrantsOf(calls, key, max, window);
            Spaced(g, max, window) && (g != [] ==> g[|g| - 1] <= last)
    decreases |calls|
  {
    hide Recent, Spaced;
    if calls == [] {
      NothingAgrees(last, window, max);
    } else {
      var init, c := calls[..|calls| - 1], calls[|calls| - 1];
      assert forall i :: 0 <= i < |init| ==> init[i] == calls[i];
      var then_ := if c.Allow? then c.at else last;
      GrantsSpaced(init, key, max, window, then_);
      var before := GrantsOf(init, key, max, window);
      NothingAgrees(last, window, max);
      if c.Allow? && |Recent(before, c.at - window)| < max {
        GrantSpaced(before, max, window, c.at);
      }
    }
  }

  /** Over any run with a clock that does not go back, no stretch of a window between resets holds more than `max` grants. */
  lemma LimitHolds(calls: seq<Call>, key: string, max: int, window: nat, last: Time, x: Time, i: nat, j: nat)
    requires Clocked(calls) && max > 0 && forall i :: 0 <= i < |calls| && calls[i].Allow? ==> calls[i].at <= last
    requires var g := GrantsOf(calls, key, max, window); i <= j < |g| && x < g[i] && g[j] <= x + window
    ensures j - i + 1 <= max
  {
    GrantsSpaced(calls, key, max, window, last);
    hide GrantsOf, Spaced;
    WindowHoldsMax(GrantsOf(calls, key, max, window), max, window, x, i, j);
  }

  /** The simple meaning grants call `i`. */
  ghost predicate Granted(calls: seq<Call>, i: nat, max: int, window: nat)
    requires i < |calls|
  {
    calls[i].Allow? && |Recent(GrantsOf(calls[..i], calls[i].key, max, window), calls[i].at - window)| < max
  }

  lemma GrantsStep(calls: seq<Call>, n: nat, key: string, max: int, window: nat)
    requires n < |calls|
    ensures var before := GrantsOf(calls[..n], key, max, window);
            GrantsOf(calls[..n + 1], key, max, window) ==
            if calls[n].key != key then before
            else if calls[n].Reset? then []
            else if Granted(calls, n, max, window) then before + [calls[n].at]
            else before
  {
    hide Recent;
    assert calls[..n + 1][..n] == calls[..n];
  }

  ghost predicate SameGrants(history: map<string, seq<Time>>, calls: seq<Call>, max: int, window: nat) {
    forall key: string :: Entry(history, key) == GrantsOf(calls, key, max, window)
  }

  lemma SameGrantsStep(before: map<string, seq<Time>>, after: map<string, seq<Time>>, calls: seq<Call>, n: nat, max: int, window: nat)
    requires n < |calls| && SameGrants(before, calls[..n], max, window)
    requires match calls[n]
             case Allow(key, at) => after == if Granted(calls, n, max, window) then before[key := Entry(before, key) + [at]] else before
             case Reset(key) => after == before - {key}
    ensures SameGrants(after, calls[..n + 1], max, window)
  {
    hide GrantsOf, Granted;
    forall key: string
      ensures Entry(after, key) == GrantsOf(calls[..n + 1], key, max, window)
    {
      GrantsStep(calls, n, key, max, window);
    }
  }

  lemma GrantedIs(history: map<string, seq<Time>>, calls: seq<Call>, n: nat, max: int, window: nat)
    requires n < |calls| && calls[n].Allow? && SameGrants(history, calls[..n], max, window)
    ensures Granted(calls, n, max, window) <==> |Recent(Entry(history, calls[n].key), calls[n].at - window)| < max
  {
    hide Recent, GrantsOf;
  }

  /** The limiter, driven by a run of calls, grants what the simple meaning grants. */
  method Replay(calls: seq<Call>, max: int, window: nat, start: Time) returns (granted: seq<bool>)
    requires Clocked(calls) && forall i :: 0 <= i < |calls| && calls[i].Allow? ==> calls[i].at >= start
    ensures |granted| == |calls|
    ensures forall i :: 0 <= i < |calls| ==> (granted[i] <==> Granted(calls, i, max, window))
  {
    hide Recent, GrantsOf, Granted, SameGrants, Entry, Matches;
    var l := new Limiter(max, window, start);
    granted := [];
    assert SameGrants(map[], [], max, window) by { NoGrants(max, window); }
    assert calls[..0] == [];
    for n := 0 to |calls|
      invariant l.Valid() && fresh(l) && l.max == max && l.window == window && |granted| == n
      invariant SameGrants(l.history, calls[..n], max, window)
      invariant forall i :: n <= i < |calls| && calls[i].Allow? ==> calls[i].at >= l.last
      invariant forall i :: 0 <= i < n ==> (granted[i] <==> Granted(calls, i, max, window))
    {
      ghost var before := l.history;
      assert calls[n].Reset? ==> !Granted(calls, n, max, window) by { ResetGrantsNothing(calls, n, max, window); }
      if calls[n].Allow? {
        GrantedIs(before, calls, n, max, window);
      }
      var ok := false;
      match calls[n] {
        case Allow(key, at) => ok := l.Allow(key, at);
        case Reset(key) => l.Reset(key);
      }
      SameGrantsStep(before, l.history, calls, n, max, window);
      granted := granted + [ok];
    }
  }

  lemma ResetGrantsNothing(calls: seq<Call>, n: nat, max: int, window: nat)
    requires n < |calls|
    ensures Granted(calls, n, max, window) ==> calls[n].Allow?
  {
  }

  lemma NoGrants(max: int, window: nat)
    ensures SameGrants(map[], [], max, window)
  {
  }

  // ----- when a call is granted -----

  lemma {:induction false} RecentIsTail(s: seq<Time>, cutoff: Time, k: nat)
    requires k <= |s| && (forall i :: 0 <= i < k ==> s[i] <= cutoff) && forall i :: k <= i < |s| ==> s[i] > cutoff
    ensures Recent(s, cutoff) == s[k..]
  {
    if s != [] {
      var n := |s| - 1;
      if k <= n {
        RecentIsTail(s[..n], cutoff, k);
        assert s[k..] == s[..n][k..] + [s[n]];
      } else {
        RecentIsTail(s[..n], cutoff, n);
      }
    }
  }

  /** A call is granted exactly when fewer than `max` of the key's grants since its last reset came less than a window ago;
      of its grants those from number `k` on did. */
  lemma GrantedExactly(calls: seq<Call>, n: nat, max: int, window: nat, k: nat)
    requires n < |calls| && calls[n].Allow?
    requires var g := GrantsOf(calls[..n], calls[n].key, max, window);
             k <= |g| && (forall i :: 0 <= i < k ==> calls[n].at - g[i] >= window) && forall i :: k <= i < |g| ==> calls[n].at - g[i] < window
    ensures Granted(calls, n, max, window) <==> |GrantsOf(calls[..n], calls[n].key, max, window)| - k < max
  {
    hide GrantsOf, Recent;
    RecentIsTail(GrantsOf(calls[..n], calls[n].key, max, window), calls[n].at - window, k);
  }
}
