// internal/store/queue.go: the rows of the delivery queue, one function and one method for each statement.

module Clock {
  import opened Options

  /** Nanoseconds. */
  type Time = int

  const SECOND: int := 1_000_000_000

  function Padded(f: nat, width: nat): (s: string)
    ensures |s| == width && forall i :: 0 <= i < |s| ==> '0' <= s[i] <= '9'
  {
    if width == 0 then "" else Padded(f / 10, width - 1) + [('0' as int + f % 10) as char]
  }

  function TrimZeros(s: string): (t: string)
    ensures t <= s && (t != "" ==> t[|t| - 1] != '0')
  {
    if s != "" && s[|s| - 1] == '0' then TrimZeros(s[..|s| - 1]) else s
  }

  /** What RFC3339Nano prints after the seconds: no fraction at all when it is zero, else no trailing zeros. */
  function FractionText(f: nat): (s: string)
    ensures s != ""
  {
    if f == 0 then "Z" else "." + TrimZeros(Padded(f, 9)) + "Z"
  }

  predicate TextNotAfter(a: string, b: string) {
    a == "" || (b != "" && (a[0] < b[0] || (a[0] == b[0] && TextNotAfter(a[1..], b[1..]))))
  }

  /** How the database compares two stored times: as text. The part up to the seconds has a fixed width. */
  predicate NotAfter(a: Time, b: Time) {
    a / SECOND < b / SECOND
    || (a / SECOND == b / SECOND && TextNotAfter(FractionText(a % SECOND), FractionText(b % SECOND)))
  }

  lemma {:induction false} TextOrder(a: string, b: string, c: string)
    ensures TextNotAfter(a, b) || TextNotAfter(b, a)
    ensures TextNotAfter(a, b) && TextNotAfter(b, c) ==> TextNotAfter(a, c)
  {
    if a != "" && b != "" {
      TextOrder(a[1..], b[1..], if c != "" then c[1..] else "");
    }
  }

  /** Stored times are ordered: any two can be compared, and the order carries over. */
  lemma StoredOrder(a: Time, b: Time, c: Time)
    ensures NotAfter(a, b) || NotAfter(b, a)
    ensures NotAfter(a, b) && NotAfter(b, c) ==> NotAfter(a, c)
  {
    TextOrder(FractionText(a % SECOND), FractionText(b % SECOND), FractionText(c % SECOND));
    hide TextNotAfter, FractionText;
  }

  /** A time `delay` after `now` is stored as a later one. */
  predicate Postponed(now: Time, delay: nat) {
    !NotAfter(now + delay, now)
  }

  /** A stored time is after `now` for every `now` exactly when it is at least a second later:
      within one second ".5Z" sorts before "Z". */
  lemma LaterInText(delay: nat)
    ensures (forall now: Time :: Postponed(now, delay)) <==> delay >= SECOND
  {
    if delay < SECOND {
      assert delay % SECOND == delay && FractionText(0) == "Z";
      assert TextNotAfter(FractionText(delay), FractionText(0)) by {
        var s := FractionText(delay);
        if delay == 0 {
          assert s[1..] == "" && TextNotAfter(s[1..], s[1..]);
        } else {
          assert s[0] == '.';
        }
      }
      assert !Postponed(0, delay);
    } else {
      forall now: Time
        ensures Postponed(now, delay)
      {
        assert (now + delay) / SECOND >= (now + SECOND) / SECOND == now / SECOND + 1;
      }
    }
  }
}

module Queue {
  import opened Options
  import opened Clock

  type Id = string

  datatype Status = Queued | Delivering | Delivered | Failed | Expired

  datatype Row = Row(
    from: string,
    to: seq<string>,
    status: Status,
    attempts: nat,
    nextRetry: Time,
    receivedAt: Time,
    expiresAt: Time,
    claimedAt: Option<Time>,
    outbound: bool,
    held: bool,
    authenticated: bool,
    domain: nat)

  type Rows = map<Id, Row>

  /** What the statements read from the other tables. */
  datatype Domains = Domains(enabled: set<nat>, up: set<nat>)

  datatype Claim = Inbound | Outbound | BouncesOnly

  predicate Pending(r: Row) {
    r.status == Queued || r.status == Delivering
  }

  predicate Finished(r: Row) {
    r.status == Delivered || r.status == Failed || r.status == Expired
  }

  predicate Claimable(r: Row, c: Claim, d: Domains, now: Time) {
    && r.status == Queued && !r.held && NotAfter(r.nextRetry, now) && r.domain in d.enabled
    && (match c
        case Inbound => !r.outbound && r.domain in d.up
        case Outbound => r.outbound
        case BouncesOnly => r.outbound && r.from == "")
  }

  function ClaimableIds(rows: Rows, c: Claim, d: Domains, now: Time): set<Id> {
    set id | id in rows && Claimable(rows[id], c, d, now)
  }

  function ClaimedRows(rows: Rows, ids: set<Id>, now: Time): Rows {
    map id | id in rows :: if id in ids then rows[id].(status := Delivering, claimedAt := Some(now)) else rows[id]
  }

  /** What the insert writes, whatever else it is given. */
  function NewRow(r: Row): Row {
    r.(status := Queued, attempts := 0, claimedAt := None, held := false)
  }

  function DeliveredRow(r: Row): Row {
    r.(status := Delivered, claimedAt := None)
  }

  function FailedRow(r: Row): Row {
    r.(status := Failed, attempts := r.attempts + 1, claimedAt := None)
  }

  function RescheduledRow(r: Row, attempts: nat, next: Time): Row {
    r.(status := Queued, attempts := attempts, nextRetry := next, claimedAt := None)
  }

  predicate Overdue(r: Row, now: Time) {
    r.status == Queued && !r.held && NotAfter(r.expiresAt, now)
  }

  function ExpiredRows(rows: Rows, now: Time): Rows {
    map id | id in rows :: if Overdue(rows[id], now) then rows[id].(status := Expired) else rows[id]
  }

  predicate Orphaned(r: Row, cutoff: Time) {
    r.status == Delivering && (r.claimedAt.None? || NotAfter(r.claimedAt.value, cutoff))
  }

  function ReleasedRows(rows: Rows, cutoff: Time): Rows {
    map id | id in rows :: if Orphaned(rows[id], cutoff) then rows[id].(status := Queued, claimedAt := None) else rows[id]
  }

  predicate Purgeable(r: Row, cutoff: Time) {
    Finished(r) && NotAfter(r.receivedAt, cutoff)
  }

  function KeptRows(rows: Rows, cutoff: Time): Rows {
    map id | id in rows && !Purgeable(rows[id], cutoff) :: rows[id]
  }

  // ----- the retry delay -----

  function Power2(n: nat): nat {
    if n == 0 then 1 else 2 * Power2(n - 1)
  }

  function Capped(attempts: int, base: nat, max: nat): nat {
    var n := if attempts < 1 then 1 else attempts;
    var e := if n - 1 > 32 then 32 else n - 1;
    if base * Power2(e) > max then max else base * Power2(e)
  }

  /** The delays `Backoff` may return: half the capped delay, and up to as much again, cut to whole nanoseconds. */
  predicate IsBackoff(delay: nat, attempts: int, base: nat, max: nat) {
    Capped(attempts, base, max) / 2 <= delay <= Capped(attempts, base, max)
  }

  lemma {:induction false} Power2Grows(n: nat)
    ensures Power2(n) >= 1
  {
    if n > 0 {
      Power2Grows(n - 1);
    }
  }

  /** Whatever the attempt and the jitter, a deferred row is later than every clock reading, as the database
      compares times, exactly when the first delay is at least two seconds. */
  lemma DeferredIsLater(base: nat, max: nat)
    requires 0 < base <= max
    ensures (forall attempts: int, delay: nat, now: Time :: IsBackoff(delay, attempts, base, max) ==> Postponed(now, delay))
            <==> base >= 2 * SECOND
  {
    if base >= 2 * SECOND {
      forall attempts: int, delay: nat, now: Time | IsBackoff(delay, attempts, base, max)
        ensures Postponed(now, delay)
      {
        CappedAtLeast(attempts, base, max);
        LaterInText(delay);
      }
    } else {
      var delay := base / 2;
      assert Capped(1, base, max) == base by { assert Power2(0) == 1; }
      assert IsBackoff(delay, 1, base, max);
      LaterInText(delay);
      var now: Time :| !Postponed(now, delay);
    }
  }

  lemma CappedAtLeast(attempts: int, base: nat, max: nat)
    requires base <= max
    ensures Capped(attempts, base, max) >= base
  {
    var n := if attempts < 1 then 1 else attempts;
    var e := if n - 1 > 32 then 32 else n - 1;
    Power2Grows(e);
    assert base * Power2(e) >= base * 1;
  }

  // ----- which rows are claimed first -----

  predicate Earlier(rows: Rows, a: Id, b: Id)
    requires a in rows && b in rows
  {
    NotAfter(rows[a].nextRetry, rows[b].nextRetry)
  }

  lemma {:induction false} EarliestExists(rows: Rows, ids: set<Id>)
    requires ids != {} && forall id :: id in ids ==> id in rows
    ensures exists id :: id in ids && forall k :: k in ids ==> Earlier(rows, id, k)
    decreases |ids|
  {
    hide NotAfter;
    var x :| x in ids;
    var rest := ids - {x};
    StoredOrder(rows[x].nextRetry, rows[x].nextRetry, rows[x].nextRetry);
    if rest == {} {
      assert ids == {x};
    } else {
      EarliestExists(rows, rest);
      var y :| y in rest && forall k :: k in rest ==> Earlier(rows, y, k);
      StoredOrder(rows[x].nextRetry, rows[y].nextRetry, rows[x].nextRetry);
      var z := if Earlier(rows, x, y) then x else y;
      forall k | k in ids
        ensures Earlier(rows, z, k)
      {
        if k in rest {
          StoredOrder(rows[x].nextRetry, rows[y].nextRetry, rows[k].nextRetry);
        }
      }
    }
  }

  // ----- the retry delay grows -----

  /** The delay starts at the base, doubles with every attempt, and stops at the maximum, or after 33 attempts. */
  lemma DelayDoubles(attempts: int, base: nat, max: nat)
    ensures attempts <= 1 ==> Capped(attempts, base, max) == if base < max then base else max
    ensures 1 <= attempts <= 32 ==>
              var twice := 2 * Capped(attempts, base, max);
              Capped(attempts + 1, base, max) == if twice < max then twice else max
    ensures attempts >= 33 ==> Capped(attempts + 1, base, max) == Capped(attempts, base, max)
  {
    assert Power2(0) == 1;
    if 1 <= attempts <= 32 {
      assert base * Power2(attempts) == 2 * (base * Power2(attempts - 1)) by { Doubled(base, attempts); }
    }
  }

  lemma Doubled(base: nat, n: nat)
    requires n >= 1
    ensures base * Power2(n) == 2 * (base * Power2(n - 1))
  {
  }

  // ----- the table -----

  function Ids(batch: seq<Id>): set<Id> {
    set id | id in batch
  }

  /** The queue table. Every method is one statement; `false` is its "not found". */
  class QueueStore {
    var rows: Rows

    constructor ()
      ensures rows == map[]
    {
      rows := map[];
    }

    method Enqueue(id: Id, r: Row) returns (ok: bool)
      modifies this
      ensures ok == (id !in old(rows))
      ensures rows == if ok then old(rows)[id := r.(status := Queued, attempts := 0, claimedAt := None, held := false)] else old(rows)
    {
      ok := id !in rows;
      if ok {
        rows := rows[id := NewRow(r)];
      }
    }

    /** Holds a row back, which is not held yet. */
    method Quarantine(id: Id) returns (ok: bool)
      modifies this
      ensures ok == (id in old(rows) && !old(rows)[id].held)
      ensures rows == if ok then old(rows)[id := old(rows)[id].(held := true)] else old(rows)
    {
      ok := id in rows && !rows[id].held;
      if ok {
        rows := rows[id := rows[id].(held := true)];
      }
    }

    /** Claims up to `limit` of the rows that may be claimed, each once, and those that are due first. */
    method ClaimBatch(c: Claim, d: Domains, limit: nat, now: Time) returns (batch: seq<Id>)
      modifies this
      ensures forall i, j :: 0 <= i < j < |batch| ==> batch[i] != batch[j]
      ensures var ready := ClaimableIds(old(rows), c, d, now);
              && Ids(batch) <= ready
              && |batch| == (if |ready| < limit then |ready| else limit)
              && forall a, b :: a in Ids(batch) && b in ready - Ids(batch) ==> NotAfter(old(rows)[a].nextRetry, old(rows)[b].nextRetry)
      // In the statement's words: what is taken may be taken, and what may be taken is left only when there is no room.
      ensures forall id :: id in old(rows) ==>
                var r := old(rows)[id];
                var may := && r.status == Queued && !r.held && NotAfter(r.nextRetry, now) && r.domain in d.enabled
                           && (c == Inbound ==> !r.outbound && r.domain in d.up) && (c != Inbound ==> r.outbound)
                           && (c == BouncesOnly ==> r.from == "");
                (id in batch ==> may) && (may && |batch| < limit ==> id in batch)
      ensures rows == ClaimedRows(old(rows), Ids(batch), now)
      ensures rows.Keys == old(rows).Keys && forall id :: id in rows ==>
                rows[id] == if id in batch then old(rows)[id].(status := Delivering, claimedAt := Some(now)) else old(rows)[id]
    {
      hide NotAfter;
      batch := [];
      ghost var ready := ClaimableIds(rows, c, d, now);
      var left := ClaimableIds(rows, c, d, now);
      assert forall id :: id in ready ==> id in rows;
      hide ClaimableIds;
      while |batch| < limit && left != {}
        invariant |batch| <= limit && left <= ready && |left| + |batch| == |ready| && rows == old(rows)
        invariant forall id :: id in ready <==> id in left || id in batch
        invariant forall id :: id in batch ==> id !in left
        invariant forall i, j :: 0 <= i < j < |batch| ==> batch[i] != batch[j]
        invariant forall a, b :: a in batch && b in left ==> Earlier(rows, a, b)
        decreases |left|
      {
        EarliestExists(rows, left);
        var id :| id in left && forall k :: k in left ==> Earlier(rows, id, k);
        left := left - {id};
        batch := batch + [id];
      }
      rows := ClaimedRows(rows, Ids(batch), now);
    }

    method MarkDelivered(id: Id) returns (ok: bool)
      modifies this
      ensures ok == (id in old(rows))
      ensures rows == if ok then old(rows)[id := old(rows)[id].(status := Delivered, claimedAt := None)] else old(rows)
    {
      ok := id in rows;
      if ok {
        rows := rows[id := DeliveredRow(rows[id])];
      }
    }

    method MarkFailed(id: Id) returns (ok: bool)
      modifies this
      ensures ok == (id in old(rows))
      ensures rows == if ok then old(rows)[id := old(rows)[id].(status := Failed, attempts := old(rows)[id].attempts + 1, claimedAt := None)]
                      else old(rows)
    {
      ok := id in rows;
      if ok {
        rows := rows[id := FailedRow(rows[id])];
      }
    }

    method Reschedule(id: Id, attempts: nat, delay: nat, now: Time) returns (ok: bool)
      modifies this
      ensures ok == (id in old(rows))
      ensures rows == if ok then old(rows)[id := old(rows)[id].(status := Queued, attempts := attempts, nextRetry := now + delay, claimedAt := None)]
                      else old(rows)
    {
      ok := id in rows;
      if ok {
        rows := rows[id := RescheduledRow(rows[id], attempts, now + delay)];
      }
    }

    method SetRecipients(id: Id, to: seq<string>) returns (ok: bool)
      modifies this
      ensures ok == (id in old(rows))
      ensures rows == if ok then old(rows)[id := old(rows)[id].(to := to)] else old(rows)
    {
      ok := id in rows;
      if ok {
        rows := rows[id := rows[id].(to := to)];
      }
    }

    /** The rows that have waited too long, and no others, expire and are returned. */
    method ExpireOverdue(now: Time) returns (ids: set<Id>)
      modifies this
      ensures forall id :: id in ids <==>
                && id in old(rows) && old(rows)[id].status == Queued && !old(rows)[id].held
                && NotAfter(old(rows)[id].expiresAt, now)
      ensures rows.Keys == old(rows).Keys
      ensures forall id :: id in rows ==> rows[id] == if id in ids then old(rows)[id].(status := Expired) else old(rows)[id]
      ensures rows == ExpiredRows(old(rows), now)
    {
      hide NotAfter;
      ids := set id | id in rows && Overdue(rows[id], now);
      rows := ExpiredRows(rows, now);
    }

    /** The claims that are too old, or have no time, end; nothing else changes. */
    method ReleaseOrphanedClaims(cutoff: Time)
      modifies this
      ensures rows.Keys == old(rows).Keys
      ensures forall id :: id in rows ==>
                var r := old(rows)[id];
                rows[id] == if r.status == Delivering && (r.claimedAt.None? || NotAfter(r.claimedAt.value, cutoff))
                            then r.(status := Queued, claimedAt := None) else r
      ensures rows == ReleasedRows(old(rows), cutoff)
    {
      hide NotAfter;
      rows := ReleasedRows(rows, cutoff);
    }

    /** The finished rows that came in long ago go; the others stay as they are. */
    method PurgeDelivered(cutoff: Time)
      modifies this
      ensures forall id :: id in rows <==>
                && id in old(rows)
                && (old(rows)[id].status == Queued || old(rows)[id].status == Delivering || !NotAfter(old(rows)[id].receivedAt, cutoff))
      ensures forall id :: id in rows ==> rows[id] == old(rows)[id]
      ensures rows == KeptRows(old(rows), cutoff)
    {
      hide NotAfter;
      rows := KeptRows(rows, cutoff);
    }
  }
}
