// internal/sender/sender.go: the loop of `pass`. It claims and delivers until nothing is claimable,
// and it ends because every round makes the waiting mail weigh less.

module SenderPass {
  import opened Options
  import opened Clock
  import opened Queue
  import opened QueueProtocol
  import Peers = Outbound

  /** What the world does to one delivery: the attempt's result and whom a peer refused in it, which of the writes after
      it fail, how long a deferred message waits, and how long a bounce is kept. */
  datatype Answer = Answer(result: Result, refused: set<string>, failing: set<nat>, delay: nat, keep: nat)

  /** Waiting, not held, and due as the database compares times. */
  predicate Ready(r: Row, now: Time) {
    r.status == Queued && !r.held && NotAfter(r.nextRetry, now)
  }

  function ReadyIds(rows: Rows, now: Time): set<Id> {
    set id | id in rows && Ready(rows[id], now)
  }

  function WithSender(rows: Rows, now: Time): set<Id> {
    set id | id in rows && Ready(rows[id], now) && rows[id].from != ""
  }

  /** Two for a message that has a sender, who may get a bounce; one for a message that has none. */
  function Weight(rows: Rows, now: Time): nat {
    |ReadyIds(rows, now)| + |WithSender(rows, now)|
  }

  function Senders(jobs: seq<Row>): nat {
    if jobs == [] then 0 else Senders(jobs[..|jobs| - 1]) + (if jobs[|jobs| - 1].from != "" then 1 else 0)
  }

  lemma SubsetSize(a: set<Id>, b: set<Id>)
    requires a <= b
    ensures |a| <= |b|
    decreases |a|
  {
    if a != {} {
      var x :| x in a;
      SubsetSize(a - {x}, b - {x});
    }
  }

  /** A bounce has no sender, so whatever becomes of it, no bounce follows. */
  lemma BouncesEnd(m: Row, at: When, r: Result, on: bool)
    ensures Bounce !in Plan(BounceRow(m, at), r, on)
  {
  }

  // ----- one delivery -----

  /** The rows one delivery may change: its own, which is not ready afterwards, and a new one without sender. */
  ghost predicate DeliveredOne(before: Rows, after: Rows, id: Id, m: Row, newId: Id, now: Time) {
    && (forall k :: k in before && k != id ==> k in after && after[k] == before[k])
    && (forall k :: k in after && k != id && k !in before ==> k == newId && m.from != "" && after[k].from == "")
    && (id in after ==> !Ready(after[id], now))
  }

  lemma DeliveredSenders(before: Rows, after: Rows, id: Id, m: Row, newId: Id, now: Time)
    requires DeliveredOne(before, after, id, m, newId, now)
    ensures WithSender(after, now) <= WithSender(before, now)
  {
    hide Ready;
  }

  lemma DeliveredReady(before: Rows, after: Rows, id: Id, m: Row, newId: Id, now: Time)
    requires DeliveredOne(before, after, id, m, newId, now)
    ensures ReadyIds(after, now) <= ReadyIds(before, now) + (if m.from != "" then {newId} else {})
  {
    hide Ready;
  }

  lemma DeliveredWeight(before: Rows, after: Rows, id: Id, m: Row, newId: Id, now: Time)
    requires DeliveredOne(before, after, id, m, newId, now)
    ensures Weight(after, now) <= Weight(before, now) + (if m.from != "" then 1 else 0)
  {
    DeliveredSenders(before, after, id, m, newId, now);
    DeliveredReady(before, after, id, m, newId, now);
    hide ReadyIds, WithSender, DeliveredOne;
    SubsetSize(WithSender(after, now), WithSender(before, now));
    if m.from != "" {
      SubsetSize(ReadyIds(after, now), ReadyIds(before, now) + {newId});
    } else {
      SubsetSize(ReadyIds(after, now), ReadyIds(before, now));
    }
  }

  /** The row of the delivery in the course of its writes: still claimed, or already not ready. */
  lemma NotReadyAfter(t: Task, row: Row, at: When)
    requires t.todo != [] && !Ready(row, at.now) && Postponed(at.now, at.delay)
    ensures !Ready(WrittenRow(t, row, at), at.now)
  {
    hide NotAfter;
  }

  ghost predicate OneBounce(todo: seq<Act>) {
    forall i, j :: 0 <= i < j < |todo| ==> !(todo[i].Bounce? && todo[j].Bounce?)
  }

  lemma PlanBounces(m: Row, r: Result, on: bool)
    ensures Bounce in Plan(m, r, on) ==> m.from != ""
    ensures OneBounce(Plan(m, r, on))
  {
    BouncePlanned(m, r, on);
    hide Plan;
  }

  lemma DeliveredTwice(x: Rows, y: Rows, z: Rows, id: Id, m: Row, newId: Id, now: Time)
    requires DeliveredOne(x, y, id, m, newId, now) && DeliveredOne(y, z, id, m, newId, now)
    ensures DeliveredOne(x, z, id, m, newId, now)
  {
    hide Ready;
  }

  lemma OwnRowWritten(rows: Rows, id: Id, row: Row, m: Row, newId: Id, now: Time)
    requires id in rows && !Ready(row, now)
    ensures DeliveredOne(rows, rows[id := row], id, m, newId, now)
  {
    hide Ready;
  }

  lemma BounceWritten(rows: Rows, id: Id, row: Row, m: Row, newId: Id, now: Time)
    requires newId !in rows && newId != id && m.from != "" && row.from == "" && (id in rows ==> !Ready(rows[id], now))
    ensures DeliveredOne(rows, rows[newId := row], id, m, newId, now)
  {
    hide Ready;
  }

  lemma OwnNotReady(before: Rows, after: Rows, id: Id, m: Row, newId: Id, now: Time)
    requires DeliveredOne(before, after, id, m, newId, now)
    ensures id in after ==> !Ready(after[id], now)
  {
    hide Ready;
  }

  lemma NothingWritten(rows: Rows, id: Id, m: Row, newId: Id, now: Time)
    requires id in rows ==> !Ready(rows[id], now)
    ensures DeliveredOne(rows, rows, id, m, newId, now)
  {
    hide Ready;
  }

  // ----- the writes of one delivery -----

  /** One of the writes, when it does not fail. */
  method DoWrite(db: QueueStore, t: Task, at: When, newId: Id) returns (done: bool)
    requires t.todo != []
    modifies db
    ensures done == (match t.todo[0] case Bounce => newId != t.id && newId !in old(db.rows) case DropBody => true case _ => t.id in old(db.rows))
    ensures db.rows == if !done || t.todo[0].DropBody? then old(db.rows)
                       else if t.todo[0].Bounce? then old(db.rows)[newId := BounceRow(t.m, at)]
                       else old(db.rows)[t.id := WrittenRow(t, old(db.rows)[t.id], at)]
  {
    done := true;
    match t.todo[0] {
      case Bounce =>
        done := newId != t.id;
        if done {
          done := db.Enqueue(newId, BounceRow(t.m, at));
        }
      case Narrow(to) => done := db.SetRecipients(t.id, to);
      case Again => done := db.Reschedule(t.id, t.m.attempts + 1, at.delay, at.now);
      case GiveUp => done := db.MarkFailed(t.id);
      case Finish => done := db.MarkDelivered(t.id);
      case DropBody =>
    }
  }

  lemma OneWriteDelivered(before: Rows, after: Rows, t: Task, at: When, newId: Id)
    requires t.todo != [] && (Bounce in t.todo ==> t.m.from != "") && Postponed(at.now, at.delay)
    requires t.id in before ==> !Ready(before[t.id], at.now)
    requires || after == before
             || (t.todo[0].Bounce? && newId != t.id && newId !in before && after == before[newId := BounceRow(t.m, at)])
             || (t.id in before && after == before[t.id := WrittenRow(t, before[t.id], at)])
    ensures DeliveredOne(before, after, t.id, t.m, newId, at.now)
  {
    NothingWritten(before, t.id, t.m, newId, at.now);
    if t.id in before {
      NotReadyAfter(t, before[t.id], at);
      OwnRowWritten(before, t.id, WrittenRow(t, before[t.id], at), t.m, newId, at.now);
    }
    hide DeliveredOne, Ready, Postponed, WrittenRow;
    if t.todo[0].Bounce? && newId != t.id && newId !in before {
      BounceWritten(before, t.id, BounceRow(t.m, at), t.m, newId, at.now);
    }
  }

  /** The state of the queue while this task is served, as the table shows it. */
  ghost predicate Serving(s: State, i: nat, t: Task, rows: Rows) {
    Inv(s) && s.phase == Working && i < |s.tasks| && s.tasks[i] == t && s.rows == rows
  }

  /** What any attempt keeps: without an error every recipient is in a list, and those refused are among those given up. */
  ghost predicate Proper(a: Answer, id: Id, m: Row) {
    && (a.result.Settled? ==> Peers.Conserves(a.result.res, m.to))
    && Named(id, a.refused) <= GivenUpBy(id, m, a.result)
  }

  /** From `s` the events lead to `u`, where the task has come this far and nothing else has changed. */
  ghost predicate Taking(s: State, events: seq<Event>, u: State, i: nat, t: Task, rows: Rows, newId: Id) {
    Run(s, events, u) && Serving(u, i, t, rows) && i < |s.tasks| && u.tasks == s.tasks[i := t] && u.used <= s.used + {newId}
  }

  lemma TakeStep(s: State, events: seq<Event>, u: State, i: nat, t: Task, rows: Rows, newId: Id, e: Event, t': Task)
    requires Taking(s, events, u, i, t, rows, newId) && Enabled(u, e)
    requires var v := Next(u, e); v.phase == Working && v.tasks == u.tasks[i := t'] && v.used <= s.used + {newId}
    ensures Taking(s, events + [e], Next(u, e), i, t', Next(u, e).rows, newId)
  {
    hide Inv, Enabled, Next, Run;
    RunThen(s, events, u, e);
    StepKeeps(u, e);
    assert s.tasks[i := t][i := t'] == s.tasks[i := t'];
  }

  lemma AttemptTaken(s: State, i: nat, id: Id, m: Row, a: Answer, bounces: bool, newId: Id, rows: Rows)
    returns (u: State, events: seq<Event>)
    requires Serving(s, i, Task(id, m, true, []), rows) && Proper(a, id, m)
    ensures Taking(s, events, u, i, Task(id, m, false, Plan(m, a.result, bounces)), rows, newId)
    ensures u.used == s.used && events == [Attempt(i, a.result, a.refused, bounces)]
  {
    hide Inv, Plan, Peers.Conserves, Named, GivenUpBy, Taken;
    var e := Attempt(i, a.result, a.refused, bounces);
    events := [] + [e];
    u := Next(s, e);
    assert s.tasks[i := s.tasks[i]] == s.tasks;
    TakeStep(s, [], s, i, Task(id, m, true, []), s.rows, newId, e, Task(id, m, false, Plan(m, a.result, bounces)));
  }

  lemma FreshId(used: set<Id>) returns (x: Id)
    ensures x !in used
    decreases |used|
  {
    x := Longer(used);
  }

  lemma Longer(used: set<Id>) returns (x: Id)
    ensures forall y :: y in used ==> |y| < |x|
    decreases |used|
  {
    if used == {} {
      x := "x";
    } else {
      var y :| y in used;
      var z := Longer(used - {y});
      x := if |z| > |y| then z else y + "x";
    }
  }

  /** How `DoWrite`, or a failed write, changes the table. */
  ghost predicate WroteRows(t: Task, at: When, newId: Id, tried: bool, before: Rows, after: Rows)
    requires t.todo != []
  {
    if !tried || t.todo[0].DropBody? then after == before
    else if t.todo[0].Bounce? then after == if newId != t.id && newId !in before then before[newId := BounceRow(t.m, at)] else before
    else after == if t.id in before then before[t.id := WrittenRow(t, before[t.id], at)] else before
  }

  /** What is left to do once the first write was tried. */
  function Rest(t: Task, done: bool): Task
    requires t.todo != []
  {
    if t.todo[0].Finish? && !done then t.(todo := []) else t.(todo := t.todo[1..])
  }

  lemma FailedIs(u: State, i: nat, t: Task, x: Id, at: When)
    requires i < |u.tasks| && u.tasks[i] == t && t.todo != []
    ensures var v := Written(u, i, false, x, at);
            v.tasks == u.tasks[i := Rest(t, false)] && v.phase == u.phase && v.used == u.used && v.rows == u.rows
  {
    hide BounceRow, RescheduledRow, FailedRow, DeliveredRow;
  }

  lemma DoneIs(u: State, i: nat, t: Task, x: Id, at: When, newId: Id, after: Rows)
    requires i < |u.tasks| && u.tasks[i] == t && t.todo != [] && t.id in u.rows && !t.todo[0].Bounce?
    requires WroteRows(t, at, newId, true, u.rows, after)
    ensures var v := Written(u, i, true, x, at);
            v.tasks == u.tasks[i := Rest(t, true)] && v.phase == u.phase && v.used == u.used && v.rows == after
  {
    hide BounceRow, RescheduledRow, FailedRow, DeliveredRow;
  }

  lemma WrittenIs(u: State, i: nat, t: Task, tried: bool, x: Id, at: When, newId: Id, after: Rows)
    requires i < |u.tasks| && u.tasks[i] == t && t.todo != [] && t.id in u.rows
    requires WroteRows(t, at, newId, tried, u.rows, after) && !(t.todo[0].Bounce? && tried)
    ensures var v := Written(u, i, tried, x, at);
            v.tasks == u.tasks[i := Rest(t, tried)] && v.phase == u.phase && v.used == u.used && v.rows == after
  {
    hide Written, Rest, WrittenRow, BounceRow;
    if tried {
      DoneIs(u, i, t, x, at, newId, after);
    } else {
      FailedIs(u, i, t, x, at);
    }
  }

  lemma BounceIs(u: State, i: nat, t: Task, x: Id, at: When)
    requires i < |u.tasks| && u.tasks[i] == t && t.todo != [] && t.todo[0].Bounce?
    ensures var v := Written(u, i, true, x, at);
            && v.tasks == u.tasks[i := Rest(t, true)] && v.phase == u.phase && v.used == u.used + {x} && v.rows == u.rows
            && v.incoming == u.incoming[x := BounceRow(t.m, at)]
  {
    hide BounceRow;
  }

  lemma WriteTaken(s: State, events: seq<Event>, u: State, i: nat, t: Task, at: When, newId: Id, tried: bool, before: Rows, after: Rows)
    returns (v: State, more: seq<Event>)
    requires Taking(s, events, u, i, t, before, newId) && !t.sending && t.todo != []
    requires WroteRows(t, at, newId, tried, before, after) && (t.todo[0].Bounce? ==> newId !in u.used)
    ensures Taking(s, more, v, i, Rest(t, tried), after, newId)
    ensures (t.todo[0].Bounce? || v.used == u.used) && events <= more && t.id in before
  {
    hide Run, Inv, WrittenRow, BounceRow, WroteRows, Enabled, Next, Written, Rest;
    var x := newId;
    if !t.todo[0].Bounce? {
      x := FreshId(u.used);
    }
    var e := Write(i, tried, x, at);
    IdsKnown(u, i);
    WriteEnabled(u, i, tried, x, at);
    if t.todo[0].Bounce? && tried {
      BounceIs(u, i, t, x, at);
    } else {
      WrittenIs(u, i, t, tried, x, at, newId, after);
    }
    v, more := Next(u, e), events + [e];
    TakeStep(s, events, u, i, t, before, newId, e, Rest(t, tried));
    if t.todo[0].Bounce? && tried {
      BounceWrote(t, at, newId, before, after);
      v, more := BounceTaken(s, more, v, i, Rest(t, tried), newId, before);
    }
  }

  lemma BounceWrote(t: Task, at: When, newId: Id, before: Rows, after: Rows)
    requires t.todo != [] && t.todo[0].Bounce? && WroteRows(t, at, newId, true, before, after) && newId != t.id && newId !in before
    ensures after == before[newId := BounceRow(t.m, at)]
  {
    hide BounceRow;
  }

  lemma WriteEnabled(u: State, i: nat, ok: bool, x: Id, at: When)
    requires u.phase == Working && i < |u.tasks| && !u.tasks[i].sending && u.tasks[i].todo != [] && x !in u.used
    ensures Enabled(u, Write(i, ok, x, at)) && Next(u, Write(i, ok, x, at)) == Written(u, i, ok, x, at)
  {
    hide Written;
  }

  lemma BounceTaken(s: State, events: seq<Event>, u: State, i: nat, t: Task, newId: Id, before: Rows) returns (v: State, more: seq<Event>)
    requires Taking(s, events, u, i, t, before, newId) && newId in u.incoming
    ensures more == events + [Enter(newId)] && Taking(s, more, v, i, t, before[newId := u.incoming[newId]], newId)
  {
    hide Run, Inv;
    var e := Enter(newId);
    v, more := Next(u, e), events + [e];
    assert u.tasks[i := t] == u.tasks;
    hide Enabled, Next;
    TakeStep(s, events, u, i, t, before, newId, e, t);
  }

  lemma IdsKnown(u: State, i: nat)
    requires Inv(u) && i < |u.tasks|
    ensures u.rows.Keys <= u.used && u.tasks[i].id in u.rows
  {
    hide Answers, TaskOk;
  }

  // ----- what a delivery leaves when no write fails -----

  /** The table with the bounce, if it has been written. */
  function WithBounce(rows: Rows, written: bool, newId: Id, row: Row): Rows {
    if written then rows[newId := row] else rows
  }

  /** The message's row, in full, and the row of the bounce. */
  ghost predicate Ended(a: Answer, bounces: bool, now: Time, m: Row, before: Rows, id: Id, newId: Id, after: Rows)
    requires id in before
  {
    var r := before[id];
    var deferred := a.result.NoDomain? || a.result.TransientError? || (a.result.Settled? && a.result.res.deferred != []);
    var delivered := a.result.Settled? && a.result.res.deferred == [] && a.result.res.accepted != [];
    var failed := if a.result.Settled? then a.result.res.rejected
                  else if a.result.PermanentError? || a.result.Unreadable? then m.to else [];
    && id in after
    && after[id] == (if deferred then r.(to := if a.result.Settled? then a.result.res.deferred else r.to, status := Queued,
                                        attempts := m.attempts + 1, nextRetry := now + a.delay, claimedAt := None)
                     else if delivered then r.(status := Delivered, claimedAt := None)
                     else r.(status := Failed, attempts := r.attempts + 1, claimedAt := None))
    && (newId in after <==> bounces && failed != [] && m.from != "" && (m.outbound || m.authenticated))
    && (newId in after ==>
          after[newId] == Row("", [m.from], Queued, 0, now, now, now + a.keep, None, true, false, false, m.domain))
    && forall k :: k != id && k != newId ==> (k in after <==> k in before) && (k in before ==> after[k] == before[k])
  }

  lemma RowAfterOne(t: Task, row: Row, at: When)
    requires |t.todo| == 1
    ensures RowAfter(t, row, at) == WrittenRow(t, row, at)
  {
    hide WrittenRow;
    var none := t.(todo := t.todo[1..]);
    assert none.todo == [];
    assert RowAfter(t, row, at) == RowAfter(none, WrittenRow(t, row, at), at);
  }

  lemma GivenUpRow(t: Task, row: Row, at: When)
    requires t.todo != [] && t.todo[0] == GiveUp
    requires forall i :: 1 <= i < |t.todo| ==> t.todo[i] == Bounce || t.todo[i] == DropBody
    ensures RowAfter(t, row, at) == row.(status := Failed, attempts := row.attempts + 1, claimedAt := None)
  {
    QuietRow(t.(todo := t.todo[1..]), WrittenRow(t, row, at), at);
  }

  lemma UnreadablePlan(m: Row, bounces: bool)
    ensures var todo := Plan(m, Unreadable, bounces);
            todo != [] && todo[0] == GiveUp && forall i :: 1 <= i < |todo| ==> todo[i] == Bounce
  {
    hide ShouldBounce;
  }

  lemma SettledRowFull(m: Row, res: Peers.Recipients, bounces: bool, id: Id, row: Row, at: When)
    ensures RowAfter(Task(id, m, false, Plan(m, Settled(res), bounces)), row, at) ==
              if res.deferred != [] then
                row.(to := res.deferred, status := Queued, attempts := m.attempts + 1, nextRetry := at.now + at.delay, claimedAt := None)
              else if res.accepted != [] then row.(status := Delivered, claimedAt := None)
              else row.(status := Failed, attempts := row.attempts + 1, claimedAt := None)
  {
    hide Plan, RowAfter, BounceActs, WrittenRow;
    var a := if res.deferred != [] then Narrow(res.deferred) else if res.accepted == [] then GiveUp else Finish;
    var b := if res.deferred != [] then Again else DropBody;
    ReducedPlan(m, res, bounces, id, row, at, a, b);
    TwoWritten(Task(id, m, false, [a, b]), row, at, a, b);
  }

  lemma ReducedPlan(m: Row, res: Peers.Recipients, bounces: bool, id: Id, row: Row, at: When, a: Act, b: Act)
    requires a == if res.deferred != [] then Narrow(res.deferred) else if res.accepted == [] then GiveUp else Finish
    requires b == if res.deferred != [] then Again else DropBody
    ensures RowAfter(Task(id, m, false, Plan(m, Settled(res), bounces)), row, at) == RowAfter(Task(id, m, false, [a, b]), row, at)
  {
    hide Plan, RowAfter, BounceActs, WrittenRow;
    PlanParts(m, res, bounces, a, b);
    SkipBounce(Task(id, m, false, Plan(m, Settled(res), bounces)), row, at, a, b);
  }

  lemma SkipBounce(t: Task, row: Row, at: When, a: Act, b: Act)
    requires t.todo == [a, b] || (|t.todo| == 3 && t.todo[0] == Bounce && t.todo[1..] == [a, b])
    ensures RowAfter(t, row, at) == RowAfter(t.(todo := [a, b]), row, at)
  {
    hide RowAfter, WrittenRow;
    if |t.todo| == 3 {
      RowAfterBounce(t, row, at);
    }
  }

  lemma TwoWritten(t: Task, row: Row, at: When, a: Act, b: Act)
    requires t.todo == [a, b]
    ensures a.Narrow? && b.Again? ==>
              RowAfter(t, row, at) == row.(to := a.to, status := Queued, attempts := t.m.attempts + 1,
                                           nextRetry := at.now + at.delay, claimedAt := None)
    ensures a.Finish? && b.DropBody? ==> RowAfter(t, row, at) == row.(status := Delivered, claimedAt := None)
    ensures a.GiveUp? && b.DropBody? ==> RowAfter(t, row, at) == row.(status := Failed, attempts := row.attempts + 1, claimedAt := None)
  {
    hide RowAfter;
    RowAfterTwo(t, row, at);
    assert [a, b][1..] == [b];
  }

  lemma PlannedRow(m: Row, r: Result, bounces: bool, id: Id, row: Row, at: When)
    ensures var t := Task(id, m, false, Plan(m, r, bounces));
            var deferred := r.NoDomain? || r.TransientError? || (r.Settled? && r.res.deferred != []);
            var delivered := r.Settled? && r.res.deferred == [] && r.res.accepted != [];
            RowAfter(t, row, at) ==
              (if deferred then row.(to := if r.Settled? then r.res.deferred else row.to, status := Queued,
                                     attempts := m.attempts + 1, nextRetry := at.now + at.delay, claimedAt := None)
               else if delivered then row.(status := Delivered, claimedAt := None)
               else row.(status := Failed, attempts := row.attempts + 1, claimedAt := None))
  {
    hide RowAfter, RescheduledRow, FailedRow, DeliveredRow, BounceActs;
    var t := Task(id, m, false, Plan(m, r, bounces));
    match r
    case Settled(res) => SettledRowFull(m, res, bounces, id, row, at);
    case Unreadable =>
      UnreadablePlan(m, bounces);
      GivenUpRow(t, row, at);
    case PermanentError =>
      GivingUpPlan(m, bounces);
      assert forall i :: 1 <= i < |t.todo| ==> t.todo[i] == t.todo[1..][i - 1];
      GivenUpRow(t, row, at);
    case NoDomain => AgainRow(t, row, at);
    case TransientError(_) => AgainRow(t, row, at);
  }

  lemma AgainRow(t: Task, row: Row, at: When)
    requires t.todo == [Again]
    ensures RowAfter(t, row, at) ==
              row.(status := Queued, attempts := t.m.attempts + 1, nextRetry := at.now + at.delay, claimedAt := None)
  {
    RowAfterOne(t, row, at);
    hide RowAfter;
  }

  lemma DeliveryEnded(a: Answer, bounces: bool, now: Time, m: Row, before: Rows, id: Id, newId: Id, after: Rows, at: When)
    requires at == When(now, a.delay, a.keep) && id in before && id in after && newId != id && newId !in before
    requires after[id] == RowAfter(Task(id, m, false, Plan(m, a.result, bounces)), before[id], at)
    requires after == WithBounce(before, Bounce in Plan(m, a.result, bounces), newId, BounceRow(m, at))[id := after[id]]
    ensures Ended(a, bounces, now, m, before, id, newId, after)
  {
    hide RowAfter, Plan;
    PlannedRow(m, a.result, bounces, id, before[id], at);
    BouncePlanned(m, a.result, bounces);
  }

  /** `deliver` and `settle`: the writes of the plan in order, some of which may fail. The table goes through the steps of
      the queue protocol: the attempt, then each write, done or failed. */
  method Deliver(db: QueueStore, id: Id, m: Row, a: Answer, newId: Id, bounces: bool, now: Time, ghost s: State, ghost i: nat)
    returns (ghost u: State, ghost events: seq<Event>)
    requires Postponed(now, a.delay)
    requires id in db.rows ==> !Ready(db.rows[id], now)
    modifies db
    ensures DeliveredOne(old(db.rows), db.rows, id, m, newId, now)
    ensures Serving(s, i, Task(id, m, true, []), old(db.rows)) && Proper(a, id, m) && newId !in s.used ==>
              && Run(s, events, u) && Serving(u, i, Task(id, m, false, []), db.rows)
              && u.tasks == s.tasks[i := Task(id, m, false, [])] && u.used <= s.used + {newId}
              && events != [] && events[0] == Attempt(i, a.result, a.refused, bounces)
    ensures a.failing == {} && id in old(db.rows) && newId != id && newId !in old(db.rows) ==>
              Ended(a, bounces, now, m, old(db.rows), id, newId, db.rows)
  {
    hide Plan, Ready, Postponed, DeliveredOne, Serving, Proper, Run, RowAfter, Ended, WrittenRow, BounceRow, Halfway, WithBounce;
    hide Taking, OneBounce;
    PlanBounces(m, a.result, bounces);
    var at := When(now, a.delay, a.keep);
    var todo := Plan(m, a.result, bounces);
    var t := Task(id, m, false, todo);
    ghost var before := db.rows;
    ghost var ok := Serving(s, i, Task(id, m, true, []), before) && Proper(a, id, m) && newId !in s.used;
    ghost var whole := a.failing == {} && id in before && newId != id && newId !in before;
    NothingWritten(before, id, m, newId, now);
    u, events := s, [];
    if ok {
      u, events := AttemptTaken(s, i, id, m, a, bounces, newId, before);
    }
    assert todo[0..] == todo;
    if whole {
      NotBegun(before, id, m, todo, at, newId);
    }
    for k := 0 to |todo|
      invariant t == Task(id, m, false, todo[k..])
      invariant DeliveredOne(before, db.rows, id, m, newId, now)
      invariant OneBounce(t.todo) && (Bounce in t.todo ==> m.from != "")
      invariant ok ==> Taking(s, events, u, i, t, db.rows, newId) && (Bounce in t.todo ==> newId !in u.used)
      invariant ok ==> events != [] && events[0] == Attempt(i, a.result, a.refused, bounces)
      invariant whole ==> Halfway(before, db.rows, id, m, todo, k, at, newId)
    {
      var done := false;
      ghost var mid := db.rows;
      if k !in a.failing {
        done := DoWrite(db, t, at, newId);
      }
      OwnNotReady(before, mid, id, m, newId, now);
      OneWriteDelivered(mid, db.rows, t, at, newId);
      DeliveredTwice(before, mid, db.rows, id, m, newId, now);
      if ok {
        u, events := WriteTaken(s, events, u, i, t, at, newId, k !in a.failing, mid, db.rows);
      }
      if whole {
        HalfwayIn(before, mid, id, m, todo, k, at, newId);
      }
      if t.todo[0].Finish? && !done {
        if ok {
          TakingMeans(s, events, u, i, t.(todo := []), db.rows, newId);
        }
        return;
      }
      if whole {
        WroteOwn(before, mid, db.rows, id, m, t, todo, k, at, newId);
      }
      BounceOnce(t.todo);
      t := t.(todo := t.todo[1..]);
      assert todo[k..][1..] == todo[k + 1..];
    }
    assert t == Task(id, m, false, []);
    if ok {
      TakingMeans(s, events, u, i, t, db.rows, newId);
    }
    if whole {
      AllWritten(before, db.rows, id, m, todo, at, newId);
      DeliveryEnded(a, bounces, now, m, before, id, newId, db.rows, at);
    }
  }

  lemma TakingMeans(s: State, events: seq<Event>, u: State, i: nat, t: Task, rows: Rows, newId: Id)
    requires Taking(s, events, u, i, t, rows, newId)
    ensures Run(s, events, u) && Serving(u, i, t, rows) && i < |s.tasks| && u.tasks == s.tasks[i := t] && u.used <= s.used + {newId}
  {
    hide Run, Serving;
  }

  lemma BounceOnce(todo: seq<Act>)
    requires OneBounce(todo) && todo != []
    ensures OneBounce(todo[1..]) && (Bounce in todo[1..] ==> Bounce in todo && !todo[0].Bounce?)
  {
    assert forall i :: 0 <= i < |todo[1..]| ==> todo[1..][i] == todo[i + 1];
    if Bounce in todo[1..] {
      var i :| 0 <= i < |todo[1..]| && todo[1..][i] == Bounce;
      assert todo[i + 1] == Bounce;
    }
  }

  /** The rows in the course of a delivery of which no write has failed. */
  ghost predicate Halfway(before: Rows, rows: Rows, id: Id, m: Row, todo: seq<Act>, k: nat, at: When, newId: Id)
    requires id in before && k <= |todo|
  {
    && id in rows && RowAfter(Task(id, m, false, todo[k..]), rows[id], at) == RowAfter(Task(id, m, false, todo), before[id], at)
    && rows == WithBounce(before, Bounce in todo[..k], newId, BounceRow(m, at))[id := rows[id]]
  }

  lemma HalfwayIn(before: Rows, rows: Rows, id: Id, m: Row, todo: seq<Act>, k: nat, at: When, newId: Id)
    requires id in before && k <= |todo| && Halfway(before, rows, id, m, todo, k, at, newId)
    ensures id in rows
  {
    hide RowAfter, WithBounce;
  }

  lemma NotBegun(before: Rows, id: Id, m: Row, todo: seq<Act>, at: When, newId: Id)
    requires id in before
    ensures Halfway(before, before, id, m, todo, 0, at, newId)
  {
    hide RowAfter, BounceRow;
    assert todo[0..] == todo && before[id := before[id]] == before;
  }

  lemma AllWritten(before: Rows, rows: Rows, id: Id, m: Row, todo: seq<Act>, at: When, newId: Id)
    requires id in before && Halfway(before, rows, id, m, todo, |todo|, at, newId)
    ensures id in rows && rows[id] == RowAfter(Task(id, m, false, todo), before[id], at)
    ensures rows == WithBounce(before, Bounce in todo, newId, BounceRow(m, at))[id := rows[id]]
  {
    hide BounceRow;
    assert todo[..|todo|] == todo;
    NoneLeft(Task(id, m, false, todo[|todo|..]), rows[id], at);
    hide RowAfter;
  }

  lemma NoneLeft(t: Task, row: Row, at: When)
    requires t.todo == []
    ensures RowAfter(t, row, at) == row
  {
  }

  lemma WroteOwn(before: Rows, mid: Rows, after: Rows, id: Id, m: Row, t: Task, todo: seq<Act>, k: nat, at: When, newId: Id)
    requires k < |todo| && t == Task(id, m, false, todo[k..]) && OneBounce(todo)
    requires id in before && newId != id && newId !in before && Halfway(before, mid, id, m, todo, k, at, newId)
    requires WroteRows(t, at, newId, true, mid, after)
    ensures Halfway(before, after, id, m, todo, k + 1, at, newId)
  {
    hide BounceRow, RescheduledRow, FailedRow, DeliveredRow;
    assert t.todo[0] == todo[k];
    assert todo[..k + 1] == todo[..k] + [todo[k]];
    if Bounce in todo[..k] {
      var j :| 0 <= j < k && todo[..k][j] == Bounce;
      assert todo[j] == Bounce;
    }
    assert RowAfter(t, mid[id], at) == RowAfter(t.(todo := t.todo[1..]), WrittenRow(t, mid[id], at), at);
    assert t.todo[1..] == todo[k + 1..];
  }

  // ----- claiming -----

  lemma ClaimWeight(rows: Rows, batch: seq<Id>, now: Time)
    requires Unrepeated(batch) && Ids(batch) <= ReadyIds(rows, now)
    ensures Weight(ClaimedRows(rows, Ids(batch), now), now) + |batch| + Senders(JobsOf(rows, batch)) == Weight(rows, now)
    decreases |batch|
  {
    var after := ClaimedRows(rows, Ids(batch), now);
    if batch == [] {
      assert after == rows;
    } else {
      var init, id := batch[..|batch| - 1], batch[|batch| - 1];
      assert Ids(batch) == Ids(init) + {id} && id !in Ids(init);
      ClaimWeight(rows, init, now);
      var mid := ClaimedRows(rows, Ids(init), now);
      ClaimOne(rows, Ids(init), id, now);
      assert JobsOf(rows, batch)[..|batch| - 1] == JobsOf(rows, init);
    }
  }

  function JobsOf(rows: Rows, batch: seq<Id>): seq<Row>
    requires Ids(batch) <= rows.Keys
  {
    seq(|batch|, i requires 0 <= i < |batch| => assert batch[i] in Ids(batch); rows[batch[i]])
  }

  lemma TakeOne(all: set<Id>, ids: set<Id>, id: Id)
    requires id !in ids
    ensures |all - ids| == |all - (ids + {id})| + (if id in all then 1 else 0)
  {
    if id in all {
      assert all - ids == (all - (ids + {id})) + {id};
    } else {
      assert all - ids == all - (ids + {id});
    }
  }

  lemma ClaimOne(rows: Rows, ids: set<Id>, id: Id, now: Time)
    requires id in ReadyIds(rows, now) && id !in ids
    ensures Weight(ClaimedRows(rows, ids, now), now) ==
            Weight(ClaimedRows(rows, ids + {id}, now), now) + (if rows[id].from != "" then 2 else 1)
  {
    assert id in WithSender(rows, now) <==> rows[id].from != "";
    hide ReadyIds, WithSender, ClaimedRows;
    ClaimedReady(rows, ids, now);
    ClaimedReady(rows, ids + {id}, now);
    TakeOne(ReadyIds(rows, now), ids, id);
    TakeOne(WithSender(rows, now), ids, id);
  }

  lemma ClaimedReady(rows: Rows, ids: set<Id>, now: Time)
    ensures ReadyIds(ClaimedRows(rows, ids, now), now) == ReadyIds(rows, now) - ids
    ensures WithSender(ClaimedRows(rows, ids, now), now) == WithSender(rows, now) - ids
  {
    hide NotAfter;
  }

  lemma ClaimableReady(rows: Rows, c: Claim, d: Domains, now: Time)
    ensures ClaimableIds(rows, c, d, now) <= ReadyIds(rows, now)
  {
    hide NotAfter;
  }

  lemma NothingClaimed(rows: Rows, now: Time)
    ensures ClaimedRows(rows, {}, now) == rows
  {
  }

  lemma {:induction false} SendersSame(a: seq<Row>, b: seq<Row>)
    requires |a| == |b| && forall i :: 0 <= i < |a| ==> a[i].from == b[i].from
    ensures Senders(a) == Senders(b)
    decreases |a|
  {
    if a != [] {
      SendersSame(a[..|a| - 1], b[..|b| - 1]);
    }
  }

  lemma {:induction false} SendersAppend(a: seq<Row>, b: seq<Row>)
    ensures Senders(a + b) == Senders(a) + Senders(b)
    decreases |b|
  {
    if b == [] {
      assert a + b == a;
    } else {
      assert (a + b)[..|a + b| - 1] == a + b[..|b| - 1];
      SendersAppend(a, b[..|b| - 1]);
    }
  }

  /** The batch is in the table and none of it is ready. */
  ghost predicate InHand(rows: Rows, batch: seq<Id>, now: Time) {
    forall i :: 0 <= i < |batch| ==> batch[i] in rows && !Ready(rows[batch[i]], now)
  }

  lemma ClaimedBatch(before: Rows, batch: seq<Id>, now: Time)
    requires Unrepeated(batch) && Ids(batch) <= ReadyIds(before, now)
    ensures var after := ClaimedRows(before, Ids(batch), now);
            && InHand(after, batch, now) && after.Keys == before.Keys
            && ReadyIds(after, now) <= ReadyIds(before, now)
            && forall i :: 0 <= i < |batch| ==> batch[i] in before && after[batch[i]].from == before[batch[i]].from
  {
    hide NotAfter;
    assert forall i :: 0 <= i < |batch| ==> batch[i] in Ids(batch) && batch[i] in ReadyIds(before, now);
    ClaimedReady(before, Ids(batch), now);
  }

  lemma ClaimedJobs(before: Rows, batch: seq<Id>, jobs: seq<Row>, now: Time)
    requires Unrepeated(batch) && Ids(batch) <= ReadyIds(before, now) && |jobs| == |batch|
    requires forall i :: 0 <= i < |batch| ==> batch[i] in before && jobs[i].from == before[batch[i]].from
    ensures Weight(ClaimedRows(before, Ids(batch), now), now) + |jobs| + Senders(jobs) == Weight(before, now)
  {
    hide ReadyIds, ClaimedRows, Weight;
    assert Ids(batch) <= before.Keys;
    ClaimWeight(before, batch, now);
    SendersSame(jobs, JobsOf(before, batch));
  }

  /** Claims a batch. What it takes off the rows is what its messages weigh. */
  method ClaimJobs(db: QueueStore, c: Claim, d: Domains, limit: nat, now: Time) returns (batch: seq<Id>, jobs: seq<Row>)
    requires limit > 0
    modifies db
    ensures |batch| == |jobs| && Unrepeated(batch)
    ensures batch == [] ==> db.rows == old(db.rows) && ClaimableIds(db.rows, c, d, now) == {}
    ensures Weight(db.rows, now) + |jobs| + Senders(jobs) == Weight(old(db.rows), now)
    ensures InHand(db.rows, batch, now)
    ensures Ids(batch) <= ReadyIds(old(db.rows), now) && Ids(batch) <= ClaimableIds(old(db.rows), c, d, now)
    ensures db.rows == ClaimedRows(old(db.rows), Ids(batch), now)
    ensures forall i :: 0 <= i < |batch| ==> batch[i] in db.rows && jobs[i] == db.rows[batch[i]]
  {
    ghost var before := db.rows;
    hide ClaimableIds, ReadyIds, Weight, ClaimedRows;
    batch := db.ClaimBatch(c, d, limit, now);
    ClaimableReady(before, c, d, now);
    ClaimedBatch(before, batch, now);
    NothingClaimed(before, now);
    assert batch == [] ==> Ids(batch) == {};
    jobs := [];
    for i := 0 to |batch|
      invariant |jobs| == i
      invariant forall j :: 0 <= j < i ==> jobs[j] == db.rows[batch[j]]
    {
      jobs := jobs + [db.rows[batch[i]]];
    }
    ClaimedJobs(before, batch, jobs, now);
  }

  /** The world answers delivery number `k`, of the message with this row. */
  type World = (nat, Id, Row) -> Answer

  /** No retry comes due at once. */
  ghost predicate Patient(world: World, now: Time) {
    forall k, id, m :: Postponed(now, world(k, id, m).delay)
  }

  ghost predicate ProperWorld(world: World) {
    forall k, id, m :: Proper(world(k, id, m), id, m)
  }

  /** The names drawn for bounces from number `k` on are new, and no two are the same. */
  ghost predicate FreshNames(names: nat -> Id, k: nat, used: set<Id>) {
    (forall j: nat :: j >= k ==> names(j) !in used) && forall i: nat, j: nat :: i < j ==> names(i) != names(j)
  }

  lemma StillInHand(before: Rows, after: Rows, batch: seq<Id>, i: nat, m: Row, newId: Id, now: Time)
    requires Unrepeated(batch) && i < |batch| && DeliveredOne(before, after, batch[i], m, newId, now)
    requires InHand(before, batch[i..], now)
    ensures InHand(after, batch[i + 1..], now)
  {
    hide Ready;
    var rest := batch[i + 1..];
    forall j | 0 <= j < |rest|
      ensures rest[j] in after && !Ready(after[rest[j]], now)
    {
      assert batch[i..][j + 1] == batch[i + 1 + j] == rest[j];
    }
  }

  /** The workers hold this batch, nothing of it transmitted yet. */
  ghost predicate Handed(s: State, batch: seq<Id>, jobs: seq<Row>, phase: Phase, rows: Rows) {
    && Inv(s) && s.phase == phase && s.rows == rows && |s.tasks| == |batch| == |jobs|
    && forall i :: 0 <= i < |batch| ==> s.tasks[i] == Task(batch[i], jobs[i], true, [])
  }

  /** The first `n` are done with. */
  ghost predicate HandedRest(s: State, batch: seq<Id>, jobs: seq<Row>, n: nat, rows: Rows) {
    && Inv(s) && s.phase == Working && s.rows == rows && |s.tasks| == |batch| == |jobs|
    && (forall i :: 0 <= i < |batch| && i < n ==> Resting(s.tasks[i]))
    && forall i :: n <= i < |batch| ==> s.tasks[i] == Task(batch[i], jobs[i], true, [])
  }

  lemma {:induction false} RunTwice(s: State, first: seq<Event>, u: State, second: seq<Event>, v: State)
    requires Run(s, first, u) && Run(u, second, v)
    ensures Run(s, first + second, v)
    decreases |first|
  {
    hide Enabled, Next;
    if first == [] {
      assert first + second == second;
    } else {
      assert (first + second)[1..] == first[1..] + second;
      RunTwice(Next(s, first[0]), first[1..], u, second, v);
    }
  }

  lemma OneHanded(s: State, batch: seq<Id>, jobs: seq<Row>, n: nat, rows: Rows, v: State, after: Rows)
    requires HandedRest(s, batch, jobs, n, rows) && n < |batch|
    requires Serving(v, n, Task(batch[n], jobs[n], false, []), after) && v.tasks == s.tasks[n := Task(batch[n], jobs[n], false, [])]
    ensures HandedRest(v, batch, jobs, n + 1, after)
  {
    hide Inv;
  }

  lemma NextHanded(s: State, batch: seq<Id>, jobs: seq<Row>, n: nat, rows: Rows)
    requires HandedRest(s, batch, jobs, n, rows) && n < |batch|
    ensures Serving(s, n, Task(batch[n], jobs[n], true, []), rows)
  {
    hide Inv;
  }

  lemma NamesLeft(names: nat -> Id, k: nat, used: set<Id>, after: set<Id>)
    requires FreshNames(names, k, used) && after <= used + {names(k)}
    ensures FreshNames(names, k + 1, after) && names(k) !in used
  {
  }

  method DeliverAll(db: QueueStore, batch: seq<Id>, jobs: seq<Row>, world: World, names: nat -> Id, start: nat, bounces: bool,
                    now: Time, ghost s: State) returns (ghost u: State, ghost events: seq<Event>)
    requires |batch| == |jobs| && Patient(world, now) && InHand(db.rows, batch, now) && Unrepeated(batch)
    modifies db
    ensures Weight(db.rows, now) <= Weight(old(db.rows), now) + Senders(jobs)
    ensures Handed(s, batch, jobs, Working, old(db.rows)) && ProperWorld(world) && FreshNames(names, start, s.used) ==>
              Run(s, events, u) && HandedRest(u, batch, jobs, |batch|, db.rows) && FreshNames(names, start + |batch|, u.used)
  {
    hide DeliveredOne, Ready, Weight, HandedRest, FreshNames, Run, Serving, Proper, ProperWorld, Ended, Senders, Handed, Patient, InHand, Unrepeated, Postponed;
    assert batch[0..] == batch;
    ghost var ok := Handed(s, batch, jobs, Working, db.rows) && ProperWorld(world) && FreshNames(names, start, s.used);
    u, events := s, [];
    HandedFirst(s, batch, jobs, db.rows);
    for i := 0 to |batch|
      invariant InHand(db.rows, batch[i..], now)
      invariant Weight(db.rows, now) <= Weight(old(db.rows), now) + Senders(jobs[..i])
      invariant ok ==> Run(s, events, u) && HandedRest(u, batch, jobs, i, db.rows) && FreshNames(names, start + i, u.used)
    {
      SendersNext(jobs, i);
      FirstInHand(db.rows, batch, i, world, jobs, start, now);
      ghost var before := db.rows;
      if ok {
        NextHanded(u, batch, jobs, i, before);
        NamesLeft(names, start + i, u.used, u.used);
      }
      ghost var v, more := Deliver(db, batch[i], jobs[i], world(start + i, batch[i], jobs[i]), names(start + i), bounces, now, u, i);
      if ok {
        OneHanded(u, batch, jobs, i, before, v, db.rows);
        NamesLeft(names, start + i, u.used, v.used);
        RunTwice(s, events, u, more, v);
        u, events := v, events + more;
      }
      DeliveredWeight(before, db.rows, batch[i], jobs[i], names(start + i), now);
      StillInHand(before, db.rows, batch, i, jobs[i], names(start + i), now);
    }
    assert jobs[..|batch|] == jobs;
  }

  lemma FirstInHand(rows: Rows, batch: seq<Id>, i: nat, world: World, jobs: seq<Row>, start: nat, now: Time)
    requires i < |batch| == |jobs| && InHand(rows, batch[i..], now) && Patient(world, now)
    ensures batch[i] in rows && !Ready(rows[batch[i]], now)
    ensures Postponed(now, world(start + i, batch[i], jobs[i]).delay)
    ensures ProperWorld(world) ==> Proper(world(start + i, batch[i], jobs[i]), batch[i], jobs[i])
  {
    hide Ready, Postponed, Proper;
    assert batch[i..][0] == batch[i];
  }

  lemma HandedFirst(s: State, batch: seq<Id>, jobs: seq<Row>, rows: Rows)
    ensures Handed(s, batch, jobs, Working, rows) ==> HandedRest(s, batch, jobs, 0, rows) && Run(s, [], s)
    ensures Senders(jobs[..0]) == 0
  {
    hide Inv;
  }

  lemma SendersNext(jobs: seq<Row>, i: nat)
    requires i < |jobs|
    ensures Senders(jobs[..i + 1]) == Senders(jobs[..i]) + (if jobs[i].from != "" then 1 else 0)
  {
    assert jobs[..i + 1][..i] == jobs[..i];
  }

  // ----- the pass -----

  lemma SecondClaim(rows: Rows, first: seq<Id>, second: seq<Id>, now: Time)
    requires Unrepeated(first) && Unrepeated(second) && InHand(rows, first, now) && Ids(second) <= ReadyIds(rows, now)
    ensures var after := ClaimedRows(rows, Ids(second), now);
            Unrepeated(first + second) && (InHand(after, second, now) ==> InHand(after, first + second, now))
  {
    hide NotAfter;
    forall j | 0 <= j < |second|
      ensures second[j] in rows && Ready(rows[second[j]], now) && second[j] !in first
    {
      assert second[j] in Ids(second);
    }
  }

  /** Which of the two claim statements of a round fail. */
  datatype Faults = Faults(inbound: bool, other: bool)

  lemma StepTaken(s: State, events: seq<Event>, u: State, e: Event)
    requires Run(s, events, u) && Inv(u) && Enabled(u, e)
    ensures Run(s, events + [e], Next(u, e)) && Inv(Next(u, e))
  {
    RunThen(s, events, u, e);
    StepKeeps(u, e);
  }

  lemma ClaimTaken(s: State, batch: seq<Id>, jobs: seq<Row>, c: Claim, d: Domains, now: Time, more: seq<Id>, moreJobs: seq<Row>,
                   before: Rows, after: Rows) returns (u: State, e: Event)
    requires Handed(s, batch, jobs, Claiming, before) && Unrepeated(more) && Ids(more) <= ClaimableIds(before, c, d, now)
    requires after == ClaimedRows(before, Ids(more), now) && |moreJobs| == |more|
    requires forall i :: 0 <= i < |more| ==> more[i] in after && moreJobs[i] == after[more[i]]
    ensures Enabled(s, e) && u == Next(s, e) && Handed(u, batch + more, jobs + moreJobs, Claiming, after) && u.used == s.used
  {
    hide Inv, ClaimedRows, ClaimableIds;
    e := ClaimRows(c, d, Ids(more), now, more);
    StepKeeps(s, e);
    u := Next(s, e);
    var tasks := TasksFor(after, more, true, {}, []);
    forall i | 0 <= i < |more|
      ensures tasks[i] == Task(more[i], moreJobs[i], true, [])
    {
      assert tasks[i].todo == [];
    }
  }

  /** The claims of one round: inbound mail, then outbound mail, or bounces only, or none. If the first fails the pass
      stops; without the second it goes on with what it has. */
  method ClaimRound(db: QueueStore, d: Domains, kind: Option<Claim>, limit: nat, f: Faults, now: Time, ghost s: State)
    returns (batch: seq<Id>, jobs: seq<Row>, ghost u: State, ghost events: seq<Event>)
    requires limit > 0
    modifies db
    ensures |batch| == |jobs| && Unrepeated(batch) && InHand(db.rows, batch, now)
    ensures Weight(db.rows, now) + |jobs| + Senders(jobs) == Weight(old(db.rows), now)
    ensures f.inbound ==> batch == [] && db.rows == old(db.rows)
    ensures batch == [] && !f.inbound && !f.other ==> Drained(db.rows, d, kind, now)
    ensures Handed(s, [], [], Claiming, old(db.rows)) ==>
              Run(s, events, u) && Handed(u, batch, jobs, Claiming, db.rows) && u.used == s.used
  {
    hide ClaimableIds, ReadyIds, Weight, ClaimedRows, Ready, Handed, Run, Senders, Enabled, Next, Ids, Inv;
    ghost var ok := Handed(s, [], [], Claiming, db.rows);
    u, events := s, [];
    NothingYet(s, now, db.rows);
    if f.inbound {
      batch, jobs := [], [];
      return;
    }
    hide InHand;
    batch, jobs := ClaimJobs(db, Inbound, d, limit, now);
    if ok {
      ghost var v, e := ClaimTaken(u, [], [], Inbound, d, now, batch, jobs, old(db.rows), db.rows);
      RunThen(s, events, u, e);
      u, events := v, events + [e];
      assert [] + batch == batch && [] + jobs == jobs;
    }
    if kind.Some? && !f.other {
      ghost var mid := db.rows;
      var more, moreJobs := ClaimJobs(db, kind.value, d, limit, now);
      SecondClaim(mid, batch, more, now);
      SendersAppend(jobs, moreJobs);
      if ok {
        ghost var v, e := ClaimTaken(u, batch, jobs, kind.value, d, now, more, moreJobs, mid, db.rows);
        RunThen(s, events, u, e);
        u, events := v, events + [e];
      }
      batch, jobs := batch + more, jobs + moreJobs;
    }
  }

  lemma NothingYet(s: State, now: Time, rows: Rows)
    ensures Run(s, [], s) && Senders([]) == 0 && InHand(rows, [], now)
    ensures Handed(s, [], [], Claiming, rows) ==> s.rows == rows
  {
    hide Inv;
  }

  /** Nothing is left that this pass could claim. */
  ghost predicate Drained(rows: Rows, d: Domains, kind: Option<Claim>, now: Time) {
    ClaimableIds(rows, Inbound, d, now) == {} && (kind.Some? ==> ClaimableIds(rows, kind.value, d, now) == {})
  }

  /** Between the rounds of a pass. */
  ghost predicate Between(s: State, events: seq<Event>, u: State, rows: Rows) {
    Run(s, events, u) && Handed(u, [], [], Claiming, rows)
  }

  lemma PassBegins(s: State, rows: Rows) returns (u: State, events: seq<Event>)
    requires Inv(s) && s.phase == Idle && s.rows == rows
    ensures Between(s, events, u, rows) && u.used == s.used
  {
    assert s.tasks == [];
    events := [] + [BeginPass];
    u := Next(s, BeginPass);
    hide Inv;
    assert Run(s, [], s);
    StepTaken(s, [], s, BeginPass);
  }

  lemma PassEnds(s: State, events: seq<Event>, u: State, rows: Rows) returns (v: State, more: seq<Event>)
    requires Between(s, events, u, rows)
    ensures Run(s, more, v) && Inv(v) && v.phase == Idle && v.rows == rows
  {
    hide Inv, Run;
    more := events + [EndPass];
    v := Next(u, EndPass);
    StepTaken(s, events, u, EndPass);
  }

  lemma Dispatched(s: State, events: seq<Event>, u: State, batch: seq<Id>, jobs: seq<Row>, rows: Rows) returns (v: State, more: seq<Event>)
    requires Run(s, events, u) && Handed(u, batch, jobs, Claiming, rows)
    ensures Run(s, more, v) && Handed(v, batch, jobs, Working, rows) && v.used == u.used
  {
    hide Inv, Run;
    more := events + [Dispatch];
    v := Next(u, Dispatch);
    StepTaken(s, events, u, Dispatch);
  }

  lemma RoundEnds(s: State, events: seq<Event>, u: State, batch: seq<Id>, jobs: seq<Row>, rows: Rows) returns (v: State, more: seq<Event>)
    requires Run(s, events, u) && HandedRest(u, batch, jobs, |batch|, rows)
    ensures Between(s, more, v, rows) && v.used == u.used
  {
    hide Inv, Run, Resting;
    more := events + [NextRound];
    v := Next(u, NextRound);
    StepTaken(s, events, u, NextRound);
  }

  /** A pass ends, whatever the peers answer and whichever writes and claims fail, provided a deferred message does not
      come due at once (Queue.DeferredIsLater says when that is certain). Nothing claimable is left, unless a claim
      of its last round failed. And what it does to the table is a run of the queue protocol. */
  method Pass(db: QueueStore, d: Domains, kind: Option<Claim>, limit: nat, world: World, names: nat -> Id, faults: nat -> Faults,
              bounces: bool, now: Time, ghost s: State) returns (rounds: nat, ghost u: State, ghost events: seq<Event>)
    requires limit > 0 && Patient(world, now)
    modifies db
    ensures !faults(rounds).inbound && !faults(rounds).other ==> Drained(db.rows, d, kind, now)
    ensures rounds <= Weight(old(db.rows), now)
    ensures Inv(s) && s.phase == Idle && s.rows == old(db.rows) && ProperWorld(world) && FreshNames(names, 0, s.used) ==>
              Run(s, events, u) && Inv(u) && u.phase == Idle && u.rows == db.rows
  {
    hide Weight, InHand, Drained, Patient, Handed, HandedRest, Between, Run, Inv, ProperWorld, FreshNames, Senders;
    var k: nat := 0;
    rounds := 0;
    ghost var ok := Inv(s) && s.phase == Idle && s.rows == db.rows && ProperWorld(world) && FreshNames(names, 0, s.used);
    u, events := s, [];
    if ok {
      u, events := PassBegins(s, db.rows);
    }
    while true
      invariant rounds + Weight(db.rows, now) <= Weight(old(db.rows), now)
      invariant ok ==> Between(s, events, u, db.rows) && FreshNames(names, k, u.used)
      decreases Weight(db.rows, now)
    {
      if ok {
        BetweenMeans(s, events, u, db.rows);
      }
      ghost var v, more;
      var batch, jobs;
      batch, jobs, v, more := ClaimRound(db, d, kind, limit, faults(rounds), now, u);
      if ok {
        RunTwice(s, events, u, more, v);
        events := events + more;
      }
      if |batch| == 0 {
        if ok {
          assert batch == [] && jobs == [];
          BetweenIs(s, events, v, db.rows);
          u, events := PassEnds(s, events, v, db.rows);
        }
        return;
      }
      if ok {
        v, events := Dispatched(s, events, v, batch, jobs, db.rows);
      }
      u, more := DeliverAll(db, batch, jobs, world, names, k, bounces, now, v);
      if ok {
        RunTwice(s, events, v, more, u);
        u, events := RoundEnds(s, events + more, u, batch, jobs, db.rows);
      }
      k := k + |batch|;
      rounds := rounds + 1;
    }
  }

  lemma BetweenMeans(s: State, events: seq<Event>, u: State, rows: Rows)
    requires Between(s, events, u, rows)
    ensures Run(s, events, u) && Handed(u, [], [], Claiming, rows)
  {
  }

  lemma BetweenIs(s: State, events: seq<Event>, u: State, rows: Rows)
    requires Run(s, events, u) && Handed(u, [], [], Claiming, rows)
    ensures Between(s, events, u, rows)
  {
  }

  /** With a retry base of two seconds or more every pass is patient. */
  lemma BackoffIsPatient(world: World, base: nat, max: nat, now: Time)
    requires 2 * SECOND <= base <= max && forall k, id, m: Row :: IsBackoff(world(k, id, m).delay, m.attempts + 1, base, max)
    ensures Patient(world, now)
  {
    DeferredIsLater(base, max);
    hide IsBackoff, Postponed;
    forall k: nat, id, m: Row
      ensures Postponed(now, world(k, id, m).delay)
    {
      assert IsBackoff(world(k, id, m).delay, m.attempts + 1, base, max);
    }
  }
}
