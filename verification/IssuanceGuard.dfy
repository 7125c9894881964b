// internal/acme/guard.go: a token bucket in front of the certificate authority.

module IssuanceGuard {
  import opened Options

  /** Nanoseconds. */
  type Time = int

  const SECOND: int := 1_000_000_000
  const BURST: int := 120
  const REFILL: int := 120 * SECOND
  const WARN_AFTER: int := 300 * SECOND
  const MAX_WAIT: int := 30 * SECOND

  datatype Bucket = Bucket(tokens: int, lastFill: Time)

  /** Go's integer division, which cuts towards zero. */
  function Quotient(a: int, b: int): int
    requires b > 0
  {
    if a >= 0 then a / b else -((-a) / b)
  }

  function Filled(g: Bucket, now: Time): Bucket {
    var earned := Quotient(now - g.lastFill, REFILL);
    if earned > 0 then
      Bucket(if g.tokens + earned > BURST then BURST else g.tokens + earned, g.lastFill + earned * REFILL)
    else g
  }

  /** The bucket after `take`. */
  function Taken(g: Bucket, now: Time): Bucket {
    var f := Filled(g, now);
    if f.tokens > 0 then f.(tokens := f.tokens - 1) else f
  }

  predicate Grants(g: Bucket, now: Time) {
    Filled(g, now).tokens > 0
  }

  function Wait(g: Bucket, now: Time): int {
    var f := Filled(g, now);
    if f.tokens > 0 then 0
    else
      var wait := REFILL - (now - f.lastFill);
      if wait < 0 then 0 else if wait > MAX_WAIT then MAX_WAIT else wait
  }

  /** Zero is returned exactly when a token was consumed, even by a clock that goes back. */
  lemma ZeroMeansToken(g: Bucket, now: Time)
    requires 0 <= g.tokens <= BURST
    ensures Wait(g, now) == 0 <==> Grants(g, now)
    ensures Wait(g, now) == 0 <==> Taken(g, now).tokens == Filled(g, now).tokens - 1
    ensures 0 <= Wait(g, now) <= MAX_WAIT
    ensures 0 <= Taken(g, now).tokens < BURST
  {
    FilledRecently(g, now);
  }

  lemma FilledRecently(g: Bucket, now: Time)
    ensures var f := Filled(g, now);
            now - f.lastFill < REFILL && (now >= g.lastFill ==> f.lastFill <= now)
  {
    var d := now - g.lastFill;
    if d >= 0 {
      assert d == d / REFILL * REFILL + d % REFILL;
    }
  }

  /** A call in full: every whole interval of 120 seconds since the last filling gives a token, up to 120 in the bucket;
      the call takes one if there is one, and else is told to wait until the next is due, but no longer than 30 seconds. */
  lemma TakenExactly(g: Bucket, now: Time, k: nat)
    requires 0 <= g.tokens <= 120 && k * (120 * SECOND) <= now - g.lastFill < (k + 1) * (120 * SECOND)
    ensures var tokens := if g.tokens + k < 120 then g.tokens + k else 120;
            var due := g.lastFill + (k + 1) * (120 * SECOND) - now;
            && (Grants(g, now) <==> g.tokens > 0 || k > 0)
            && Taken(g, now) == Bucket(if tokens > 0 then tokens - 1 else 0, g.lastFill + k * (120 * SECOND))
            && Wait(g, now) == (if tokens > 0 then 0 else if due < 30 * SECOND then due else 30 * SECOND)
  {
    var d := now - g.lastFill;
    assert d / REFILL == k by { Whole(d, k); }
  }

  lemma Whole(d: int, k: nat)
    requires k * REFILL <= d < (k + 1) * REFILL
    ensures d / REFILL == k
  {
    assert d == d / REFILL * REFILL + d % REFILL;
  }

  /** A clock that went back earns nothing and takes nothing back. */
  lemma TakenEarlier(g: Bucket, now: Time)
    requires 0 <= g.tokens <= 120 && now < g.lastFill
    ensures Grants(g, now) <==> g.tokens > 0
    ensures Taken(g, now) == Bucket(if g.tokens > 0 then g.tokens - 1 else 0, g.lastFill)
    ensures Wait(g, now) == if g.tokens > 0 then 0 else 30 * SECOND
  {
    var d := g.lastFill - now;
    assert Quotient(-d, REFILL) == -(d / REFILL) <= 0;
  }

  predicate Quiet(warnedAt: Option<Time>, now: Time) {
    warnedAt.None? || now - warnedAt.value > WARN_AFTER
  }

  class Guard {
    var tokens: int
    var lastFill: Time
    /** None before the first warning. */
    var warnedAt: Option<Time>
    var warnings: nat

    ghost function State(): Bucket
      reads this
    {
      Bucket(tokens, lastFill)
    }

    ghost predicate Valid()
      reads this
    {
      0 <= tokens <= BURST
    }

    constructor (now: Time)
      ensures Valid() && State() == Bucket(BURST, now) && warnings == 0
    {
      tokens, lastFill, warnedAt, warnings := BURST, now, None, 0;
    }

    method Take(now: Time) returns (wait: int)
      requires Valid()
      modifies this
      ensures Valid() && State() == Taken(old(State()), now) && wait == Wait(old(State()), now)
      ensures wait == 0 <==> Grants(old(State()), now)
      ensures warnings == old(warnings) +
                (if wait > 0 && (old(warnedAt).None? || now - old(warnedAt).value > 300 * SECOND) then 1 else 0)
      ensures warnedAt == if warnings > old(warnings) then Some(now) else old(warnedAt)
    {
      ZeroMeansToken(State(), now);
      var earned := Quotient(now - lastFill, REFILL);
      if earned > 0 {
        tokens := tokens + earned;
        if tokens > BURST {
          tokens := BURST;
        }
        lastFill := lastFill + earned * REFILL;
      }
      if tokens > 0 {
        tokens := tokens - 1;
        return 0;
      }
      wait := REFILL - (now - lastFill);
      if wait < 0 {
        wait := 0;
      }
      if wait > MAX_WAIT {
        wait := MAX_WAIT;
      }
      if Quiet(warnedAt, now) {
        warnedAt := Some(now);
        warnings := warnings + 1;
      }
    }
  }

  // ----- whole runs -----

  ghost predicate Clocked(times: seq<Time>) {
    forall i, j :: 0 <= i < j < |times| ==> times[i] <= times[j]
  }

  /** The grants of a run of calls. */
  function Granted(g: Bucket, times: seq<Time>): nat
    decreases |times|
  {
    if times == [] then 0 else (if Grants(g, times[0]) then 1 else 0) + Granted(Taken(g, times[0]), times[1..])
  }

  function After(g: Bucket, times: seq<Time>): Bucket
    decreases |times|
  {
    if times == [] then g else After(Taken(g, times[0]), times[1..])
  }

  /** The calls after the first: still clocked, and inside the same bounds. */
  lemma Rest(times: seq<Time>, fill: Time, end: Time)
    requires times != [] && Clocked(times) && fill <= times[0] && forall i :: 0 <= i < |times| ==> times[i] <= end
    ensures Clocked(times[1..]) && forall i :: 0 <= i < |times[1..]| ==> fill <= times[1..][i] <= end
  {
    assert forall i :: 0 <= i < |times[1..]| ==> times[1..][i] == times[i + 1];
  }

  lemma Slices(d: int, n: int)
    requires 0 <= n * REFILL <= d
    ensures (d - n * REFILL) / REFILL == d / REFILL - n
  {
  }

  /** What a bucket can grant until `end`: its tokens and what it earns on the way. */
  lemma {:induction false} GrantsBounded(g: Bucket, times: seq<Time>, end: Time)
    requires 0 <= g.tokens <= BURST && Clocked(times) && forall i :: 0 <= i < |times| ==> g.lastFill <= times[i] <= end
    requires g.lastFill <= end
    ensures Granted(g, times) <= g.tokens + (end - g.lastFill) / REFILL
    decreases |times|
  {
    if times != [] {
      var now := times[0];
      var f, t := Filled(g, now), Taken(g, now);
      FilledRecently(g, now);
      Rest(times, t.lastFill, end);
      ZeroMeansToken(g, now);
      GrantsBounded(t, times[1..], end);
      FillingCosts(g, now, end);
    }
  }

  lemma FillingCosts(g: Bucket, now: Time, end: Time)
    requires 0 <= g.tokens <= BURST && g.lastFill <= now <= end
    ensures var f := Filled(g, now);
            f.tokens + (end - f.lastFill) / REFILL <= g.tokens + (end - g.lastFill) / REFILL
  {
    var d := now - g.lastFill;
    assert d == d / REFILL * REFILL + d % REFILL;
    Slices(end - g.lastFill, d / REFILL);
  }

  /** Whoever waits a whole interval between calls is never refused, however empty the bucket was. */
  lemma {:induction false} PatientCallers(g: Bucket, times: seq<Time>)
    requires 0 <= g.tokens <= 120 && (times != [] ==> times[0] >= g.lastFill + 120 * SECOND)
    requires forall i :: 0 <= i && i + 1 < |times| ==> times[i + 1] >= times[i] + 120 * SECOND
    ensures Granted(g, times) == |times|
    decreases |times|
  {
    if times != [] {
      var now, t := times[0], Taken(g, times[0]);
      FilledRecently(g, now);
      ZeroMeansToken(g, now);
      assert Quotient(now - g.lastFill, REFILL) >= 1;
      var rest := times[1..];
      forall i | 0 <= i && i + 1 < |rest|
        ensures rest[i + 1] >= rest[i] + 120 * SECOND
      {
        assert rest[i] == times[i + 1];
      }
      PatientCallers(t, rest);
    }
  }

  /** As many calls as there are tokens are granted, whenever they come. */
  lemma {:induction false} BurstGranted(g: Bucket, times: seq<Time>)
    requires |times| <= g.tokens <= 120
    ensures Granted(g, times) == |times|
    decreases |times|
  {
    if times != [] {
      var f := Filled(g, times[0]);
      assert f.tokens >= g.tokens;
      BurstGranted(Taken(g, times[0]), times[1..]);
    }
  }

  /** Since creation at `start`: the burst, and one grant for every full refill interval. */
  lemma GrantsSinceCreation(start: Time, times: seq<Time>, end: Time)
    requires Clocked(times) && start <= end && forall i :: 0 <= i < |times| ==> start <= times[i] <= end
    ensures Granted(Bucket(BURST, start), times) <= BURST + (end - start) / REFILL
  {
    GrantsBounded(Bucket(BURST, start), times, end);
  }

  /** In any stretch of a run, whatever the bucket went through before, one more than that at most. */
  lemma GrantsBetween(g: Bucket, times: seq<Time>, from: Time, end: Time)
    requires 0 <= g.tokens <= BURST && g.lastFill <= from <= end
    requires Clocked(times) && forall i :: 0 <= i < |times| ==> from <= times[i] <= end
    ensures Granted(g, times) <= BURST + (end - from) / REFILL + 1
  {
    if times != [] {
      var now, t := times[0], Taken(g, times[0]);
      FilledRecently(g, now);
      ZeroMeansToken(g, now);
      hide Taken, Filled;
      Rest(times, t.lastFill, end);
      GrantsBounded(t, times[1..], end);
      OneMore(end - t.lastFill, end - from);
    }
  }

  lemma OneMore(a: int, b: int)
    requires a <= b + REFILL
    ensures a / REFILL <= b / REFILL + 1
  {
  }

  /** Every bucket of a run is filled with at most the burst, and not later than the clock. */
  lemma {:induction false} RunStaysValid(g: Bucket, times: seq<Time>, now: Time)
    requires 0 <= g.tokens <= BURST && Clocked(times) && g.lastFill <= now
    requires forall i :: 0 <= i < |times| ==> g.lastFill <= times[i] <= now
    ensures var r := After(g, times); 0 <= r.tokens <= BURST && r.lastFill <= now
    decreases |times|
  {
    if times != [] {
      var t := Taken(g, times[0]);
      FilledRecently(g, times[0]);
      ZeroMeansToken(g, times[0]);
      Rest(times, t.lastFill, now);
      RunStaysValid(t, times[1..], now);
    }
  }

  /** In a run from creation, the calls between `from` and `end` get at most the burst, one grant per full refill interval, and one. */
  lemma GrantsInRun(start: Time, before: seq<Time>, times: seq<Time>, from: Time, end: Time)
    requires start <= from <= end && Clocked(before) && Clocked(times)
    requires forall i :: 0 <= i < |before| ==> start <= before[i] <= from
    requires forall i :: 0 <= i < |times| ==> from <= times[i] <= end
    ensures Granted(After(Bucket(BURST, start), before), times) <= BURST + (end - from) / REFILL + 1
  {
    RunStaysValid(Bucket(BURST, start), before, from);
    GrantsBetween(After(Bucket(BURST, start), before), times, from, end);
  }
}
