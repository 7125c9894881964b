// internal/webhook/webhook.go and internal/store/webhooks.go, meta.go: a tailer copies events from an
// append-only log into an outbox of deliveries, behind a persisted cursor.

module Webhook {
  import opened Options

  const BATCH: nat := 200

  /** An event of the log; some cannot be rendered. */
  datatype Event = Event(id: nat, kind: string, renders: bool)

  datatype Hook = Hook(id: nat, events: seq<string>, enabled: bool)

  /** A delivery row, by the subscription and the event its payload names. */
  datatype Row = Row(hook: nat, event: nat)

  predicate Wants(h: Hook, kind: string) {
    h.enabled && (h.events == [] || kind in h.events)
  }

  function MinNat(a: nat, b: nat): nat {
    if a < b then a else b
  }

  // ----- what one drain writes -----

  /** The events after `cursor`, in order. */
  function After(log: seq<Event>, cursor: nat): seq<Event> {
    if log == [] then []
    else
      var init, e := log[..|log| - 1], log[|log| - 1];
      if e.id > cursor then After(init, cursor) + [e] else After(init, cursor)
  }

  function Batch(log: seq<Event>, cursor: nat): seq<Event> {
    var all := After(log, cursor);
    all[..MinNat(|all|, BATCH)]
  }

  predicate Due(e: Event, h: Hook) {
    Wants(h, e.kind) && e.renders
  }

  function RowsFor(e: Event, hooks: seq<Hook>): seq<Row> {
    if hooks == [] then []
    else
      var h := hooks[|hooks| - 1];
      RowsFor(e, hooks[..|hooks| - 1]) + (if Due(e, h) then [Row(h.id, e.id)] else [])
  }

  function RowsOf(events: seq<Event>, hooks: seq<Hook>): seq<Row> {
    if events == [] then []
    else RowsOf(events[..|events| - 1], hooks) + RowsFor(events[|events| - 1], hooks)
  }

  lemma {:induction false} RowsForPrefix(e: Event, hooks: seq<Hook>, n: nat)
    requires n <= |hooks|
    ensures RowsFor(e, hooks[..n]) <= RowsFor(e, hooks)
    decreases |hooks| - n
  {
    hide Due;
    if n == |hooks| {
      assert hooks[..n] == hooks;
    } else {
      assert hooks[..n + 1][..n] == hooks[..n];
      RowsForPrefix(e, hooks, n + 1);
    }
  }

  lemma {:induction false} RowsOfPrefix(events: seq<Event>, hooks: seq<Hook>, n: nat)
    requires n <= |events|
    ensures RowsOf(events[..n], hooks) <= RowsOf(events, hooks)
    decreases |events| - n
  {
    if n == |events| {
      assert events[..n] == events;
    } else {
      assert events[..n + 1][..n] == events[..n];
      RowsOfPrefix(events, hooks, n + 1);
    }
  }

  lemma PartOfDrain(events: seq<Event>, hooks: seq<Hook>, n: nat, k: nat)
    requires n < |events| && k < |RowsFor(events[n], hooks)|
    ensures var before := RowsOf(events[..n], hooks);
            && |before| + k < |RowsOf(events, hooks)|
            && RowsOf(events, hooks)[..|before| + k] == before + RowsFor(events[n], hooks)[..k]
  {
    assert events[..n + 1][..n] == events[..n];
    RowsOfPrefix(events, hooks, n + 1);
    hide RowsFor;
    var before, part := RowsOf(events[..n], hooks), RowsFor(events[n], hooks);
    assert RowsOf(events[..n + 1], hooks) == before + part;
    assert (before + part)[..|before| + k] == before + part[..k];
  }

  /** The tables and the tailer. `tailing` is the cursor in memory, lost when the process dies. */
  class Dispatcher {
    var log: seq<Event>
    var hooks: seq<Hook>
    var meta: Option<nat>
    var rows: seq<Row>
    var tailing: Option<nat>

    ghost predicate Valid()
      reads this
    {
      tailing.Some? ==> meta == tailing
    }

    constructor (log: seq<Event>, hooks: seq<Hook>, meta: Option<nat>)
      ensures Valid() && this.log == log && this.hooks == hooks && this.meta == meta && rows == [] && tailing == None
    {
      this.log, this.hooks, this.meta, rows, tailing := log, hooks, meta, [], None;
    }

    /** `startCursor`: the stored cursor, or the head of the log the first time. */
    method Begin(saveOk: bool)
      requires Valid()
      modifies this`meta, this`tailing
      ensures Valid()
      ensures old(meta).Some? ==> meta == old(meta) && tailing == meta
      ensures old(meta).None? ==> meta == tailing && tailing == if saveOk then Some(Head(log)) else None
    {
      tailing := meta;
      if meta.None? && saveOk {
        meta := Some(Head(log));
        tailing := meta;
      }
    }

    /** The enqueues of one event; the one after `left` others fails, if `left` is given. */
    method EnqueueFor(e: Event, left: Option<nat>) returns (n: nat, ok: bool)
      modifies this`rows
      ensures var part := RowsFor(e, hooks);
              if left.Some? && left.value < |part| then !ok && rows == old(rows) + part[..left.value]
              else ok && n == |part| && rows == old(rows) + part
    {
      n := 0;
      for k := 0 to |hooks|
        invariant rows == old(rows) + RowsFor(e, hooks[..k])
        invariant n == |RowsFor(e, hooks[..k])|
        invariant left.Some? ==> left.value >= n
      {
        var h := hooks[k];
        assert hooks[..k + 1][..k] == hooks[..k];
        RowsForPrefix(e, hooks, k + 1);
        if Wants(h, e.kind) && e.renders {
          if left == Some(n) {
            assert RowsFor(e, hooks)[..n] == RowsFor(e, hooks[..k]);
            return n, false;
          }
          rows := rows + [Row(h.id, e.id)];
          n := n + 1;
        }
      }
      assert hooks[..|hooks|] == hooks;
      ok := true;
    }

    /** `drain`: the enqueue number `failing` fails, if there is one; then, or when the cursor cannot be saved,
        the stored cursor stands and the rows already written stay. */
    method Drain(cursor: nat, failing: Option<nat>, saveOk: bool) returns (next: nat, ok: bool)
      modifies this`meta, this`rows
      ensures var events := Batch(log, cursor); var want := RowsOf(events, hooks);
              if events == [] then ok && next == cursor && rows == old(rows) && meta == old(meta)
              else if failing.Some? && failing.value < |want| then
                !ok && rows == old(rows) + want[..failing.value] && meta == old(meta)
              else
                && ok == saveOk && rows == old(rows) + want
                && (ok ==> next == events[|events| - 1].id && meta == Some(next))
                && (!ok ==> meta == old(meta))
    {
      hide RowsFor, Batch;
      next := cursor;
      var events := Batch(log, cursor);
      if |events| == 0 {
        return cursor, true;
      }
      var written: nat := 0;
      for n := 0 to |events|
        invariant rows == old(rows) + RowsOf(events[..n], hooks) && meta == old(meta)
        invariant written == |RowsOf(events[..n], hooks)|
        invariant failing.Some? ==> failing.value >= written
        invariant n > 0 ==> next == events[n - 1].id
      {
        var e := events[n];
        assert events[..n + 1][..n] == events[..n];
        var left := if failing.Some? then Some(failing.value - written) else None;
        var more, enqueued := EnqueueFor(e, left);
        if !enqueued {
          PartOfDrain(events, hooks, n, left.value);
          return next, false;
        }
        written := written + more;
        next := e.id;
      }
      assert events[..|events|] == events;
      if !saveOk {
        return next, false;
      }
      meta := Some(next);
      ok := true;
    }

    /** One tick of the tailer: the cursor in memory moves only when the drain succeeds. */
    method Tick(failing: Option<nat>, saveOk: bool)
      requires Valid()
      modifies this`meta, this`rows, this`tailing
      ensures Valid()
      ensures tailing.Some? == old(tailing).Some?
      ensures old(tailing).None? ==> rows == old(rows) && meta == old(meta)
      ensures old(tailing).Some? ==>
                var events := Batch(log, old(tailing).value);
                var want := RowsOf(events, hooks);
                var done := events == [] || ((failing.None? || failing.value >= |want|) && saveOk);
                && meta == (if done && events != [] then Some(events[|events| - 1].id) else old(meta))
                && rows == old(rows) + want[..if failing.Some? then MinNat(failing.value, |want|) else |want|]
    {
      if tailing.Some? {
        ghost var events := Batch(log, tailing.value);
        assert events == [] ==> RowsOf(events, hooks) == [];
        ghost var want := RowsOf(events, hooks);
        assert want[..|want|] == want;
        var next, ok := Drain(tailing.value, failing, saveOk);
        if ok {
          tailing := Some(next);
        }
      }
    }
  }

  /** The id of the newest event, or 0. */
  function Head(log: seq<Event>): nat {
    if log == [] then 0 else log[|log| - 1].id
  }

  // ----- delivering -----

  datatype Status = Waiting | Delivered | Failed

  datatype Delivery = Delivery(status: Status, attempts: nat)

  /** What one try meets: no subscription, a disabled one, or the answer's code (0 when there was none). */
  datatype Try = Gone | Disabled | Answered(code: nat)

  predicate Success(code: nat) {
    200 <= code < 300
  }

  predicate Retryable(code: nat) {
    if code == 0 then true
    else if code == 408 || code == 429 then true
    else if 400 <= code < 500 then false
    else true
  }

  /** The row after `attempt`, when the outcome is recorded. */
  function Attempted(d: Delivery, t: Try, maxAttempts: nat): Delivery {
    var after := d.attempts + 1;
    if t.Gone? || t.Disabled? then Delivery(Failed, after)
    else if Success(t.code) then Delivery(Delivered, after)
    else if !Retryable(t.code) then Delivery(Failed, after)
    else if after >= maxAttempts then Delivery(Failed, after)
    else Delivery(Waiting, after)
  }

  /** A try, and whether its outcome could be written to the row. */
  datatype Post = Post(met: Try, recorded: bool)

  /** A delivery over a run of tries; one that is no longer waiting is left alone, one whose outcome is not recorded comes again. */
  function Tried(d: Delivery, posts: seq<Post>, maxAttempts: nat): Delivery
    decreases |posts|
  {
    if posts == [] || !d.status.Waiting? then d
    else Tried(if posts[0].recorded then Attempted(d, posts[0].met, maxAttempts) else d, posts[1..], maxAttempts)
  }

  /** The tries whose outcome was recorded. */
  function Recorded(posts: seq<Post>): seq<Try> {
    if posts == [] then []
    else (if posts[0].recorded then [posts[0].met] else []) + Recorded(posts[1..])
  }

  /** After such a try there is no other: the subscription is gone or disabled, the answer is 2xx, or it is a 4xx
      that is neither 408 nor 429. */
  predicate Settles(t: Try) {
    t.Gone? || t.Disabled? || 200 <= t.code < 300 || (400 <= t.code < 500 && t.code != 408 && t.code != 429)
  }

  /** At most `maxAttempts` tries are counted, and a delivery is waiting exactly while no recorded try settled it and some
      are left; a try that is not recorded counts for nothing, so a success may be sent again. */
  lemma {:induction false} TriesBounded(d: Delivery, posts: seq<Post>, maxAttempts: nat)
    requires d.status.Waiting? && d.attempts < maxAttempts
    ensures var r, tries := Tried(d, posts, maxAttempts), Recorded(posts);
            && r.attempts <= maxAttempts && r.attempts <= d.attempts + |tries|
            && (r.status.Waiting? <==>
                  d.attempts + |tries| < maxAttempts && forall i :: 0 <= i < |tries| ==> !Settles(tries[i]))
            && (r.status.Delivered? ==> exists i :: 0 <= i < |tries| && tries[i].Answered? && Success(tries[i].code))
    decreases |posts|
  {
    if posts != [] {
      var tries, rest := Recorded(posts), Recorded(posts[1..]);
      if !posts[0].recorded {
        TriesBounded(d, posts[1..], maxAttempts);
        assert tries == rest;
      } else {
        var next := Attempted(d, posts[0].met, maxAttempts);
        assert tries[0] == posts[0].met && tries[1..] == rest;
        if next.status.Waiting? {
          TriesBounded(next, posts[1..], maxAttempts);
          assert forall i :: 1 <= i < |tries| ==> tries[i] == rest[i - 1];
        } else {
          assert Tried(next, posts[1..], maxAttempts) == next;
        }
      }
    }
  }

  /** What becomes of a delivery, if the first `n` recorded tries do not settle it and the next one does or there is none:
      it waits, with every try counted; or it has failed for good at the last one allowed; or the settling try decides. */
  lemma {:induction false} TriesExactly(d: Delivery, posts: seq<Post>, maxAttempts: nat, n: nat)
    requires d.status.Waiting? && d.attempts < maxAttempts && n <= |Recorded(posts)|
    requires forall i :: 0 <= i < n ==> !Settles(Recorded(posts)[i])
    requires n < |Recorded(posts)| ==> Settles(Recorded(posts)[n])
    ensures var r, tries := Tried(d, posts, maxAttempts), Recorded(posts);
            r == if d.attempts + n >= maxAttempts then Delivery(Failed, maxAttempts)
                 else if n == |tries| then Delivery(Waiting, d.attempts + n)
                 else Delivery(if tries[n].Answered? && 200 <= tries[n].code < 300 then Delivered else Failed, d.attempts + n + 1)
    decreases |posts|
  {
    if posts != [] {
      var tries, rest := Recorded(posts), Recorded(posts[1..]);
      if !posts[0].recorded {
        assert tries == rest;
        TriesExactly(d, posts[1..], maxAttempts, n);
      } else {
        var next := Attempted(d, posts[0].met, maxAttempts);
        assert tries == [posts[0].met] + rest;
        assert next.status.Waiting? <==> !Settles(tries[0]) && d.attempts + 1 < maxAttempts;
        if next.status.Waiting? {
          assert n >= 1 && forall i :: 0 <= i < n - 1 ==> rest[i] == tries[i + 1];
          TriesExactly(next, posts[1..], maxAttempts, n - 1);
        } else {
          assert Tried(next, posts[1..], maxAttempts) == next;
        }
      }
    }
  }

  function Power2(n: nat): nat {
    if n == 0 then 1 else 2 * Power2(n - 1)
  }

  const DEFAULT_BASE: int := 30_000_000_000

  /** `backoff` without its jitter, which adds at most a tenth. */
  function Delay(attempts: int, base: int, max: int): int {
    var b := if base <= 0 then DEFAULT_BASE else base;
    var m := if max < b then b else max;
    var d := b * Power2(if attempts < 1 then 0 else attempts - 1);
    if d > m then m else d
  }

  /** The first delay is the base, 30 seconds if none is set; each next one is twice as long, up to the maximum, which
      is never below the base. */
  lemma DelayDoubles(attempts: int, base: int, max: int)
    ensures var b := if base <= 0 then 30_000_000_000 else base;
            var m := if max < b then b else max;
            && (attempts <= 1 ==> Delay(attempts, base, max) == b)
            && (attempts >= 1 ==> var twice := 2 * Delay(attempts, base, max);
                                  Delay(attempts + 1, base, max) == if twice > m then m else twice)
  {
    var b := if base <= 0 then 30_000_000_000 else base;
    assert Power2(0) == 1;
    if attempts >= 1 {
      Doubled(b, attempts - 1);
    }
  }

  lemma {:induction false} PastMax(b: nat, i: nat, n: nat, m: int)
    requires i <= n && b * Power2(i) >= m
    ensures b * Power2(n) >= m
  {
    if i < n {
      PastMax(b, i, n - 1, m);
      Doubled(b, n - 1);
    }
  }

  lemma Doubled(b: nat, i: nat)
    ensures b * Power2(i + 1) == b * Power2(i) * 2
  {
  }

  /** Doubling from `b` until `m` is reached or the attempts are used up. */
  method Doubling(b: nat, m: int, attempts: int) returns (delay: int)
    requires 0 < b <= m
    ensures var d := b * Power2(if attempts < 1 then 0 else attempts - 1);
            delay == d || (delay >= m && d >= m)
  {
    hide Power2;
    ghost var n := if attempts < 1 then 0 else attempts - 1;
    delay := b;
    var i := 1;
    assert Power2(0) == 1 by { Power2Zero(); }
    while i < attempts && delay < m
      invariant 1 <= i && i - 1 <= n
      invariant delay == b * Power2(i - 1)
    {
      Doubled(b, i - 1);
      delay := delay * 2;
      i := i + 1;
    }
    if delay >= m {
      PastMax(b, i - 1, n, m);
    }
  }

  lemma Power2Zero()
    ensures Power2(0) == 1
  {
  }

  method Backoff(attempts: int, base: int, max: int, jitter: nat) returns (delay: int)
    requires jitter <= Delay(attempts, base, max) / 10
    ensures delay == Delay(attempts, base, max) + jitter
  {
    hide Power2;
    var b := if base <= 0 then DEFAULT_BASE else base;
    var m := if max < b then b else max;
    delay := Doubling(b, m, attempts);
    if delay > m {
      delay := m;
    }
    delay := delay + jitter;
  }
}
