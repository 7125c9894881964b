// The delivery queue as a state machine over single database and spool writes: mail comes in, workers
// claim, attempt and settle, maintenance expires, releases and purges, and the process may die between
// any two writes (internal/sender/sender.go, internal/store/queue.go, internal/smtpd/smtpd.go).

module QueueProtocol {
  import opened Options
  import opened Clock
  import opened Queue
  import opened Outbound

  /** A write still to be done for a message. */
  datatype Act = Bounce | Narrow(to: seq<string>) | Again | GiveUp | Finish | DropBody

  /** A message in the hands of a worker or of maintenance: the row as it was read, whether it is still to be
      transmitted, and the writes that follow. */
  datatype Task = Task(id: Id, m: Row, sending: bool, todo: seq<Act>)

  /** When a write is done, how much later a deferred message is tried again, and how long a bounce is kept. */
  datatype When = When(now: Time, delay: nat, keep: nat)

  datatype Phase = Stopped | Idle | Claiming | Working | Maintaining

  /** `incoming` are bodies on the spool whose row is not written yet. The last line is history: the recipients
      each message entered with, the messages answered with success, the recipients that peers took, those that the
      sender gave up for good, and those of them that a peer refused. */
  datatype State = State(
    rows: Rows, spool: set<Id>, incoming: map<Id, Row>, tasks: seq<Task>, phase: Phase,
    entered: map<Id, seq<string>>, accepted: set<Id>, purged: Rows, used: set<Id>,
    delivered: set<(Id, string)>, givenUp: set<(Id, string)>, refused: set<(Id, string)>)

  datatype Result =
    | NoDomain
    | Unreadable
    | Settled(res: Recipients)
    | PermanentError
    | TransientError(taken: set<string>)

  datatype Event =
    | Spool(id: Id, row: Row)
    | Drop(id: Id)
    | Enter(id: Id)
    | Accept(id: Id)
    | Hold(id: Id)
    | Unhold(id: Id, now: Time)
    | Start(released: bool, cutoff: Time)
    | BeginPass
    | ClaimRows(c: Claim, d: Domains, ids: set<Id>, now: Time, batch: seq<Id>)
    | Dispatch
    | Attempt(i: nat, result: Result, refused: set<string>, bounces: bool)
    | Skip(i: nat)
    | Write(i: nat, ok: bool, newId: Id, at: When)
    | NextRound
    | EndPass
    | BeginMaintenance
    | Expire(now: Time, seen: seq<Id>, bounced: set<Id>)
    | Release(cutoff: Time)
    | Purge(cutoff: Time)
    | EndMaintenance
    | Crash

  // ----- the sender's decisions -----

  predicate ShouldBounce(on: bool, m: Row) {
    on && m.from != "" && (m.outbound || m.authenticated)
  }

  /** The bounce for those who failed, if anybody did. */
  function BounceActs(on: bool, m: Row, failed: seq<string>): seq<Act> {
    if failed != [] && ShouldBounce(on, m) then [Bounce] else []
  }

  function BounceRow(m: Row, at: When): Row {
    Row("", [m.from], Queued, 0, at.now, at.now, at.now + at.keep, None, true, false, false, m.domain)
  }

  /** The writes `deliver` and `settle` do after an attempt, in order. */
  function Plan(m: Row, r: Result, bounces: bool): seq<Act> {
    match r
    case NoDomain => [Again]
    case Unreadable => [GiveUp] + BounceActs(bounces, m, m.to)
    case Settled(res) =>
      BounceActs(bounces, m, res.rejected)
      + (if res.deferred != [] then [Narrow(res.deferred), Again]
         else if res.accepted == [] then [GiveUp, DropBody]
         else [Finish, DropBody])
    case PermanentError => [GiveUp] + BounceActs(bounces, m, m.to) + [DropBody]
    case TransientError(_) => [Again]
  }

  function Pairs(id: Id, to: seq<string>): set<(Id, string)> {
    set r | r in to :: (id, r)
  }

  function Taken(id: Id, r: Result): set<(Id, string)> {
    match r
    case Settled(res) => Pairs(id, res.accepted)
    case TransientError(taken) => set x | x in taken :: (id, x)
    case _ => {}
  }

  function GivenUpBy(id: Id, m: Row, r: Result): set<(Id, string)> {
    match r
    case Settled(res) => Pairs(id, res.rejected)
    case PermanentError => Pairs(id, m.to)
    case _ => {}
  }

  function Named(id: Id, to: set<string>): set<(Id, string)> {
    set r | r in to :: (id, r)
  }

  function TasksFor(rows: Rows, ids: seq<Id>, sending: bool, bounced: set<Id>, todo: seq<Act>): seq<Task>
    requires forall i :: 0 <= i < |ids| ==> ids[i] in rows
  {
    seq(|ids|, i requires 0 <= i < |ids| =>
      Task(ids[i], rows[ids[i]], sending, (if ids[i] in bounced then [Bounce] else []) + todo))
  }

  predicate Resting(t: Task) {
    !t.sending && t.todo == []
  }

  predicate AllResting(tasks: seq<Task>) {
    forall i :: 0 <= i < |tasks| ==> Resting(tasks[i])
  }

  predicate Unrepeated(ids: seq<Id>) {
    forall i, j :: 0 <= i < j < |ids| ==> ids[i] != ids[j]
  }

  // ----- the steps -----

  /** When a step can happen. An attempt that ends without an error has every recipient in a list, and those a peer
      refused are among those it gives up (Outbound). */
  ghost predicate Enabled(s: State, e: Event) {
    match e
    case Spool(id, _) => id !in s.used
    case Drop(id) => id in s.incoming
    case Enter(id) => id in s.incoming
    case Accept(id) => id in s.entered
    case Hold(id) => id in s.rows
    case Unhold(id, _) => id in s.rows && s.rows[id].status == Queued
    case Start(_, _) => s.phase == Stopped
    case BeginPass => s.phase == Idle
    case ClaimRows(c, d, ids, now, batch) =>
      s.phase == Claiming && ids <= ClaimableIds(s.rows, c, d, now) && Unrepeated(batch)
      && forall i :: 0 <= i < |batch| ==> batch[i] in ids
    case Dispatch => s.phase == Claiming
    case Attempt(i, result, refused, _) =>
      && s.phase == Working && i < |s.tasks| && s.tasks[i].sending
      && (result.Settled? ==> Conserves(result.res, s.tasks[i].m.to))
      && Named(s.tasks[i].id, refused) <= GivenUpBy(s.tasks[i].id, s.tasks[i].m, result)
    case Skip(i) => s.phase == Working && i < |s.tasks| && s.tasks[i].sending
    case Write(i, _, newId, _) =>
      && (s.phase == Working || s.phase == Maintaining)
      && i < |s.tasks| && !s.tasks[i].sending && s.tasks[i].todo != [] && newId !in s.used
    case NextRound => s.phase == Working && AllResting(s.tasks)
    case EndPass => s.phase == Claiming && s.tasks == []
    case BeginMaintenance => s.phase == Idle
    case Expire(now, seen, bounced) =>
      && s.phase == Maintaining && AllResting(s.tasks) && Unrepeated(seen)
      && (forall i :: 0 <= i < |seen| ==> seen[i] in s.rows && Overdue(s.rows[seen[i]], now))
      && forall id :: id in bounced ==> id in s.rows && s.rows[id].to != [] && ShouldBounce(true, s.rows[id])
    case Release(_) => s.phase == Maintaining && AllResting(s.tasks)
    case Purge(_) => s.phase == Maintaining && AllResting(s.tasks)
    case EndMaintenance => s.phase == Maintaining && AllResting(s.tasks)
    case Crash => true
  }

  /** The effect of one write for task `i`; a failed one changes nothing and, but for Finish, does not stop the rest. */
  function Written(s: State, i: nat, ok: bool, newId: Id, at: When): State
    requires i < |s.tasks| && s.tasks[i].todo != []
  {
    var t := s.tasks[i];
    var rest := s.(tasks := s.tasks[i := t.(todo := t.todo[1..])]);
    var written := ok && t.id in s.rows;
    match t.todo[0]
    case Bounce =>
      if ok then rest.(spool := s.spool + {newId}, incoming := s.incoming[newId := BounceRow(t.m, at)], used := s.used + {newId})
      else rest
    case Narrow(to) => if written then rest.(rows := s.rows[t.id := s.rows[t.id].(to := to)]) else rest
    case Again => if written then rest.(rows := s.rows[t.id := RescheduledRow(s.rows[t.id], t.m.attempts + 1, at.now + at.delay)]) else rest
    case GiveUp => if written then rest.(rows := s.rows[t.id := FailedRow(s.rows[t.id])]) else rest
    case Finish =>
      if written then rest.(rows := s.rows[t.id := DeliveredRow(s.rows[t.id])])
      else s.(tasks := s.tasks[i := t.(todo := [])])
    case DropBody => if ok then rest.(spool := s.spool - {t.id}) else rest
  }

  function Attempted(s: State, i: nat, result: Result, refused: set<string>, bounces: bool): State
    requires i < |s.tasks|
  {
    var t := s.tasks[i];
    s.(tasks := s.tasks[i := t.(sending := false, todo := Plan(t.m, result, bounces))],
       delivered := s.delivered + Taken(t.id, result),
       givenUp := s.givenUp + GivenUpBy(t.id, t.m, result),
       refused := s.refused + Named(t.id, refused))
  }

  ghost function Next(s: State, e: Event): State
    requires Enabled(s, e)
  {
    match e
    case Spool(id, row) =>
      s.(spool := s.spool + {id}, incoming := s.incoming[id := NewRow(row)], used := s.used + {id})
    case Drop(id) => s.(spool := s.spool - {id}, incoming := s.incoming - {id})
    case Enter(id) =>
      s.(rows := s.rows[id := s.incoming[id]], entered := s.entered[id := s.incoming[id].to], incoming := s.incoming - {id})
    case Accept(id) => s.(accepted := s.accepted + {id})
    case Hold(id) => s.(rows := s.rows[id := s.rows[id].(held := true)])
    case Unhold(id, now) => s.(rows := s.rows[id := s.rows[id].(held := false, nextRetry := now)])
    case Start(released, cutoff) =>
      s.(phase := Idle, rows := if released then ReleasedRows(s.rows, cutoff) else s.rows)
    case BeginPass => s.(phase := Claiming)
    case ClaimRows(c, d, ids, now, batch) =>
      s.(rows := ClaimedRows(s.rows, ids, now),
         tasks := s.tasks + TasksFor(ClaimedRows(s.rows, ids, now), batch, true, {}, []))
    case Dispatch => s.(phase := Working)
    case Attempt(i, result, refused, bounces) => Attempted(s, i, result, refused, bounces)
    case Skip(i) => s.(tasks := s.tasks[i := s.tasks[i].(sending := false, todo := [])])
    case Write(i, ok, newId, at) => Written(s, i, ok, newId, at)
    case NextRound => s.(phase := Claiming, tasks := [])
    case EndPass => s.(phase := Idle)
    case BeginMaintenance => s.(phase := Maintaining)
    case Expire(now, seen, bounced) =>
      s.(rows := ExpiredRows(s.rows, now), tasks := TasksFor(ExpiredRows(s.rows, now), seen, false, bounced, [DropBody]))
    case Release(cutoff) => s.(rows := ReleasedRows(s.rows, cutoff), tasks := [])
    case Purge(cutoff) =>
      s.(rows := KeptRows(s.rows, cutoff), tasks := [],
         purged := s.purged + map id | id in s.rows && Purgeable(s.rows[id], cutoff) :: s.rows[id])
    case EndMaintenance => s.(phase := Idle, tasks := [])
    case Crash => s.(phase := Stopped, tasks := [], incoming := map[])
  }

  const START := State(map[], {}, map[], [], Stopped, map[], {}, map[], {}, {}, {}, {})

  // ----- what every step keeps -----

  /** What peers took, and what the sender gave up. */
  datatype Ledger = Ledger(delivered: set<(Id, string)>, givenUp: set<(Id, string)>)

  predicate Settles(l: Ledger, id: Id, r: string) {
    (id, r) in l.delivered || (id, r) in l.givenUp
  }

  predicate Within(a: Ledger, b: Ledger) {
    a.delivered <= b.delivered && a.givenUp <= b.givenUp
  }

  /** Everybody in `to` has been taken by a peer or given up. */
  ghost predicate AllSettled(id: Id, to: seq<string>, settled: Ledger) {
    forall r :: r in to ==> Settles(settled, id, r)
  }

  ghost predicate AllGivenUp(id: Id, to: seq<string>, settled: Ledger) {
    forall r :: r in to ==> (id, r) in settled.givenUp
  }

  /** The row answers for every recipient `to` that it entered with. A pending row without a body names only recipients
      that were given up, so nobody who got the mail is reported as lost. */
  ghost predicate Answers(id: Id, row: Row, to: seq<string>, body: bool, settled: Ledger) {
    && (forall r :: r in to && r !in row.to ==> Settles(settled, id, r))
    && (row.status == Delivered ==> AllSettled(id, to, settled))
    && (Pending(row) && !body ==> AllGivenUp(id, row.to, settled))
  }

  predicate Changes(a: Act) {
    a.Again? || a.GiveUp? || a.Finish?
  }

  /** A task changes its row's status at most once, after narrowing it at most once. */
  predicate OneChange(todo: seq<Act>) {
    forall i, j :: 0 <= i < j < |todo| && (Changes(todo[i]) || todo[i].Narrow?) ==>
      !todo[j].Narrow? && (Changes(todo[i]) ==> !Changes(todo[j]))
  }

  ghost predicate ActOk(a: Act, id: Id, row: Row, to: seq<string>, settled: Ledger) {
    match a
    case Bounce => true
    case Narrow(left) =>
      && row.status == Delivering && (forall r :: r in to && r !in left ==> Settles(settled, id, r))
      && forall r :: r in left ==> r in row.to
    case Again => row.status == Delivering
    case GiveUp => row.status == Delivering
    case Finish => row.status == Delivering && AllSettled(id, to, settled)
    case DropBody => AllSettled(id, to, settled) || row.status == Expired
  }

  /** A body is dropped only once the row is finished, or when nobody is left who could still get it. */
  ghost predicate DropsOk(todo: seq<Act>, id: Id, row: Row, settled: Ledger) {
    forall j :: 0 <= j < |todo| && todo[j].DropBody? && (forall i :: 0 <= i < j ==> !todo[i].Finish?) ==>
      Finished(row) || AllGivenUp(id, row.to, settled)
  }

  ghost predicate TaskOk(t: Task, row: Row, to: seq<string>, settled: Ledger) {
    && OneChange(t.todo)
    && (t.sending ==> t.todo == [] && row.status == Delivering && row.to == t.m.to)
    && (forall i :: 0 <= i < |t.todo| ==> ActOk(t.todo[i], t.id, row, to, settled))
    && DropsOk(t.todo, t.id, row, settled)
  }

  ghost function Settlements(s: State): Ledger {
    Ledger(s.delivered, s.givenUp)
  }

  ghost predicate IdsOk(s: State) {
    && s.rows.Keys <= s.entered.Keys <= s.used && s.spool <= s.used
    && s.incoming.Keys <= s.spool && s.incoming.Keys !! s.entered.Keys
    && (forall id :: id in s.incoming ==> s.incoming[id].status == Queued)
    && s.accepted <= s.entered.Keys
    && s.entered.Keys == s.rows.Keys + s.purged.Keys
  }

  ghost predicate RowsOk(s: State)
    requires IdsOk(s)
  {
    forall id :: id in s.rows ==> Answers(id, s.rows[id], s.entered[id], id in s.spool, Settlements(s))
  }

  ghost predicate PurgedOk(s: State)
    requires IdsOk(s)
  {
    forall id :: id in s.purged ==> Finished(s.purged[id]) && Answers(id, s.purged[id], s.entered[id], true, Settlements(s))
  }

  ghost predicate TasksOk(s: State)
    requires IdsOk(s)
  {
    forall i :: 0 <= i < |s.tasks| ==>
      s.tasks[i].id in s.rows
      && TaskOk(s.tasks[i], s.rows[s.tasks[i].id], s.entered[s.tasks[i].id], Settlements(s))
  }

  predicate OneHolder(s: State) {
    forall i, j :: 0 <= i < j < |s.tasks| ==> s.tasks[i].id != s.tasks[j].id
  }

  predicate PhaseOk(s: State) {
    && (s.phase == Stopped || s.phase == Idle ==> s.tasks == [])
    && (s.phase == Claiming ==> forall i :: 0 <= i < |s.tasks| ==> s.tasks[i].sending)
    && (s.phase == Maintaining ==> forall i :: 0 <= i < |s.tasks| ==> !s.tasks[i].sending)
  }

  ghost predicate Inv(s: State) {
    IdsOk(s) && RowsOk(s) && PurgedOk(s) && TasksOk(s) && OneHolder(s) && PhaseOk(s)
  }

  lemma StartOk()
    ensures Inv(START)
  {
  }

  // ----- one step at a time -----

  lemma AnswersMore(id: Id, row: Row, to: seq<string>, body: bool, settled: Ledger, more: Ledger)
    requires Answers(id, row, to, body, settled) && Within(settled, more)
    ensures Answers(id, row, to, body, more) && Answers(id, row, to, true, more)
  {
  }

  lemma TaskMore(t: Task, row: Row, to: seq<string>, settled: Ledger, more: Ledger)
    requires TaskOk(t, row, to, settled) && Within(settled, more)
    ensures TaskOk(t, row, to, more)
  {
    forall i | 0 <= i < |t.todo|
      ensures ActOk(t.todo[i], t.id, row, to, more)
    {
      assert ActOk(t.todo[i], t.id, row, to, settled);
    }
  }

  /** Only the spool and the messages on their way in change. */
  lemma IntakeMoves(s: State, u: State)
    requires Inv(s) && IdsOk(u)
    requires u == s.(spool := u.spool, incoming := u.incoming, used := u.used)
    requires forall k :: k in s.rows ==> (k in u.spool <==> k in s.spool)
    ensures Inv(u)
  {
    hide Answers, TaskOk, IdsOk;
  }

  lemma SpoolIds(s: State, id: Id, row: Row)
    requires IdsOk(s) && id !in s.used
    ensures IdsOk(s.(spool := s.spool + {id}, incoming := s.incoming[id := NewRow(row)], used := s.used + {id}))
  {
  }

  lemma SpoolStep(s: State, id: Id, row: Row)
    requires Inv(s) && Enabled(s, Spool(id, row))
    ensures Inv(Next(s, Spool(id, row)))
  {
    SpoolIds(s, id, row);
    assert id !in s.rows;
    var u := Next(s, Spool(id, row));
    hide Inv, IdsOk;
    IntakeMoves(s, u);
  }

  lemma DropStep(s: State, id: Id)
    requires Inv(s) && Enabled(s, Drop(id))
    ensures Inv(Next(s, Drop(id)))
  {
    var u := Next(s, Drop(id));
    assert id !in s.rows && IdsOk(u);
    hide Inv, IdsOk;
    IntakeMoves(s, u);
  }

  lemma NewRowAnswers(id: Id, row: Row, settled: Ledger)
    requires Pending(row)
    ensures Answers(id, row, row.to, true, settled)
  {
  }

  lemma EnterIds(s: State, id: Id)
    requires IdsOk(s) && id in s.incoming
    ensures IdsOk(s.(rows := s.rows[id := s.incoming[id]], entered := s.entered[id := s.incoming[id].to], incoming := s.incoming - {id}))
    ensures id !in s.entered && id in s.spool && Pending(s.incoming[id])
  {
    assert s.entered[id := s.incoming[id].to].Keys == s.entered.Keys + {id};
    assert s.rows[id := s.incoming[id]].Keys == s.rows.Keys + {id};
  }

  lemma EnterRows(s: State, id: Id, u: State)
    requires Inv(s) && Enabled(s, Enter(id)) && u == Next(s, Enter(id)) && IdsOk(u) && id !in s.entered && id !in s.rows && id in s.spool
    requires Answers(id, s.incoming[id], s.incoming[id].to, true, Settlements(s))
    ensures RowsOk(u)
  {
    hide Answers, TaskOk, IdsOk;
  }

  lemma EnterStep(s: State, id: Id)
    requires Inv(s) && Enabled(s, Enter(id))
    ensures Inv(Next(s, Enter(id)))
  {
    var u := Next(s, Enter(id));
    EnterIds(s, id);
    NewRowAnswers(id, s.incoming[id], Settlements(s));
    assert s.rows.Keys <= s.entered.Keys && s.purged.Keys <= s.entered.Keys;
    hide Answers, TaskOk, IdsOk;
    EnterRows(s, id, u);
    hide RowsOk;
    assert PurgedOk(u) && TasksOk(u);
  }

  // ----- steps that change many rows at once -----

  /** A change of status that takes no duty away: to another pending status, or to failed or expired. */
  predicate StillAnswers(a: Row, b: Row) {
    a.to == b.to && (a.status == b.status || (Pending(a) && Pending(b)) || b.status == Failed || b.status == Expired)
  }

  lemma AnswersKept(id: Id, a: Row, b: Row, to: seq<string>, body: bool, settled: Ledger)
    requires Answers(id, a, to, body, settled) && StillAnswers(a, b)
    ensures Answers(id, b, to, body, settled)
  {
  }

  /** The rows change, and nothing else that the rows' duties depend on. */
  ghost predicate RowsMoved(s: State, u: State) {
    && u.rows.Keys == s.rows.Keys && u.entered == s.entered && u.spool == s.spool && u.incoming == s.incoming
    && u.used == s.used && u.accepted == s.accepted && u.purged == s.purged
    && u.delivered == s.delivered && u.givenUp == s.givenUp
    && forall id :: id in s.rows ==> StillAnswers(s.rows[id], u.rows[id])
  }

  lemma RowsMovedOk(s: State, u: State)
    requires Inv(s) && RowsMoved(s, u)
    ensures IdsOk(u) && RowsOk(u) && PurgedOk(u)
  {
    hide Answers, StillAnswers;
    forall id | id in u.rows
      ensures Answers(id, u.rows[id], u.entered[id], id in u.spool, Settlements(u))
    {
      AnswersKept(id, s.rows[id], u.rows[id], s.entered[id], id in s.spool, Settlements(s));
    }
  }

  lemma TaskKept(t: Task, a: Row, b: Row, to: seq<string>, settled: Ledger)
    requires TaskOk(t, a, to, settled) && a.to == b.to && a.status == b.status
    ensures TaskOk(t, b, to, settled)
  {
    forall i | 0 <= i < |t.todo|
      ensures ActOk(t.todo[i], t.id, b, to, settled)
    {
      assert ActOk(t.todo[i], t.id, a, to, settled);
    }
  }

  lemma FlagsMoved(s: State, id: Id, row: Row)
    requires Inv(s) && id in s.rows && row.to == s.rows[id].to && row.status == s.rows[id].status
    ensures RowsMoved(s, s.(rows := s.rows[id := row]))
  {
  }

  lemma FlagStep(s: State, id: Id, row: Row)
    requires Inv(s) && id in s.rows && row.to == s.rows[id].to && row.status == s.rows[id].status
    ensures Inv(s.(rows := s.rows[id := row]))
  {
    hide Answers, TaskOk, StillAnswers;
    var u := s.(rows := s.rows[id := row]);
    FlagsMoved(s, id, row);
    RowsMovedOk(s, u);
    forall i | 0 <= i < |u.tasks|
      ensures u.tasks[i].id in u.rows && TaskOk(u.tasks[i], u.rows[u.tasks[i].id], u.entered[u.tasks[i].id], Settlements(u))
    {
      var k := u.tasks[i].id;
      TaskKept(s.tasks[i], s.rows[k], u.rows[k], s.entered[k], Settlements(s));
    }
  }

  /** Orphaned claims go back to the queue only while nobody holds a message. */
  lemma ReleaseStep(s: State, cutoff: Time, phase: Phase)
    requires Inv(s)
    ensures Inv(s.(rows := ReleasedRows(s.rows, cutoff), tasks := [], phase := phase))
  {
    hide Answers, TaskOk;
    var u := s.(rows := ReleasedRows(s.rows, cutoff), tasks := [], phase := phase);
    RowsMovedOk(s, u);
  }

  lemma QuietStep(s: State, phase: Phase)
    requires Inv(s)
    ensures Inv(s.(phase := phase, tasks := []))
    ensures Inv(s.(phase := phase, tasks := [], incoming := map[]))
  {
    hide Answers, TaskOk;
    RowsMovedOk(s, s.(phase := phase, tasks := [])) by { AllStill(s); }
  }

  lemma AllStill(s: State)
    ensures forall id :: id in s.rows ==> StillAnswers(s.rows[id], s.rows[id])
  {
  }

  // ----- claiming -----

  lemma ClaimedTask(id: Id, row: Row, to: seq<string>, settled: Ledger)
    requires row.status == Delivering
    ensures TaskOk(Task(id, row, true, [] + []), row, to, settled)
  {
  }

  /** A claimed row was in nobody's hands. */
  lemma ClaimsAreFree(s: State, c: Claim, d: Domains, ids: set<Id>, now: Time, i: nat)
    requires Inv(s) && s.phase == Claiming && ids <= ClaimableIds(s.rows, c, d, now) && i < |s.tasks|
    ensures s.tasks[i].id !in ids
  {
    var t := s.tasks[i];
    assert TaskOk(t, s.rows[t.id], s.entered[t.id], Settlements(s));
  }

  lemma ClaimMoves(s: State, c: Claim, d: Domains, ids: set<Id>, now: Time, u: State)
    requires Inv(s) && ids <= ClaimableIds(s.rows, c, d, now)
    requires u == s.(rows := ClaimedRows(s.rows, ids, now), tasks := u.tasks)
    ensures RowsMoved(s, u)
  {
  }

  lemma ClaimTasks(s: State, c: Claim, d: Domains, ids: set<Id>, now: Time, batch: seq<Id>, i: nat)
    requires Enabled(s, ClaimRows(c, d, ids, now, batch)) && Inv(s)
    ensures var u := Next(s, ClaimRows(c, d, ids, now, batch));
            i < |u.tasks| ==>
              u.tasks[i].sending && u.tasks[i].id in u.rows
              && TaskOk(u.tasks[i], u.rows[u.tasks[i].id], s.entered[u.tasks[i].id], Settlements(s))
  {
    var u := Next(s, ClaimRows(c, d, ids, now, batch));
    if i < |s.tasks| {
      var k := s.tasks[i].id;
      ClaimsAreFree(s, c, d, ids, now, i);
      hide TaskOk, ClaimableIds;
      assert u.rows[k] == s.rows[k];
    } else if i < |u.tasks| {
      var k := batch[i - |s.tasks|];
      assert k in ids;
      ClaimedTask(k, u.rows[k], s.entered[k], Settlements(s));
      hide TaskOk, ClaimableIds;
      assert u.tasks[i] == Task(k, u.rows[k], true, [] + []);
    }
  }

  lemma ClaimDistinct(s: State, c: Claim, d: Domains, ids: set<Id>, now: Time, batch: seq<Id>)
    requires Inv(s) && Enabled(s, ClaimRows(c, d, ids, now, batch))
    ensures OneHolder(Next(s, ClaimRows(c, d, ids, now, batch)))
  {
    var u := Next(s, ClaimRows(c, d, ids, now, batch));
    assert OneHolder(s);
    hide Inv, ClaimableIds, ClaimedRows;
    forall i, j | 0 <= i < j < |u.tasks|
      ensures u.tasks[i].id != u.tasks[j].id
    {
      if i < |s.tasks| <= j {
        ClaimsAreFree(s, c, d, ids, now, i);
      }
    }
  }

  lemma ClaimStep(s: State, c: Claim, d: Domains, ids: set<Id>, now: Time, batch: seq<Id>)
    requires Inv(s) && Enabled(s, ClaimRows(c, d, ids, now, batch))
    ensures Inv(Next(s, ClaimRows(c, d, ids, now, batch)))
  {
    var u := Next(s, ClaimRows(c, d, ids, now, batch));
    hide TaskOk, Answers, RowsMoved, RowsOk, PurgedOk, ClaimedRows, ClaimableIds, OneHolder;
    ClaimMoves(s, c, d, ids, now, u);
    RowsMovedOk(s, u);
    forall i: nat | i < |u.tasks|
      ensures u.tasks[i].sending && u.tasks[i].id in u.rows
              && TaskOk(u.tasks[i], u.rows[u.tasks[i].id], s.entered[u.tasks[i].id], Settlements(s))
    {
      ClaimTasks(s, c, d, ids, now, batch, i);
    }
    ClaimDistinct(s, c, d, ids, now, batch);
  }

  // ----- attempts -----

  function Grown(l: Ledger, taken: set<(Id, string)>, givenUp: set<(Id, string)>): Ledger {
    Ledger(l.delivered + taken, l.givenUp + givenUp)
  }

  lemma ConservedSome(res: Recipients, to: seq<string>, r: string)
    requires Conserves(res, to) && r in to
    ensures r in res.accepted || r in res.deferred || r in res.rejected
  {
    assert r in multiset(to);
  }

  lemma SettledTask(t: Task, row: Row, to: seq<string>, settled: Ledger, res: Recipients, r: string)
    requires t.sending && TaskOk(t, row, to, settled) && Answers(t.id, row, to, true, settled)
    requires Conserves(res, t.m.to) && r in to && r !in res.deferred
    ensures Settles(Grown(settled, Pairs(t.id, res.accepted), Pairs(t.id, res.rejected)), t.id, r)
  {
    if r in t.m.to {
      ConservedSome(res, t.m.to, r);
    }
  }

  lemma PlanOneChange(m: Row, res: Recipients, bounces: bool)
    ensures OneChange(Plan(m, Settled(res), bounces))
  {
  }

  lemma SettledDropsOk(id: Id, m: Row, row: Row, settled: Ledger, res: Recipients, bounces: bool)
    requires res.accepted == [] && res.deferred == [] ==> AllGivenUp(id, row.to, settled)
    ensures DropsOk(Plan(m, Settled(res), bounces), id, row, settled)
  {
    hide AllGivenUp, ShouldBounce;
    var todo := Plan(m, Settled(res), bounces);
    if res.deferred == [] && res.accepted != [] {
      assert todo[|todo| - 2].Finish?;
    }
  }

  lemma SettledPlanOk(t: Task, row: Row, to: seq<string>, settled: Ledger, res: Recipients, bounces: bool)
    requires row.status == Delivering && row.to == t.m.to && Conserves(res, t.m.to)
    requires forall r :: r in to && r !in res.deferred ==> Settles(settled, t.id, r)
    requires res.accepted == [] && res.deferred == [] ==> AllGivenUp(t.id, row.to, settled)
    ensures TaskOk(t.(sending := false, todo := Plan(t.m, Settled(res), bounces)), row, to, settled)
  {
    DeferredNamed(res, t.m.to);
    PlanOneChange(t.m, res, bounces);
    SettledDropsOk(t.id, t.m, row, settled, res, bounces);
    hide Conserves, OneChange, DropsOk, AllGivenUp, ShouldBounce, Settles;
  }

  lemma DeferredNamed(res: Recipients, to: seq<string>)
    requires Conserves(res, to)
    ensures forall r :: r in res.deferred ==> r in to
  {
    forall r | r in res.deferred
      ensures r in to
    {
      assert r in multiset(res.deferred) && r in multiset(to);
    }
  }

  lemma OtherPlanOk(t: Task, row: Row, to: seq<string>, settled: Ledger, result: Result, bounces: bool)
    requires row.status == Delivering && !result.Settled?
    requires result.PermanentError? ==> AllSettled(t.id, to, settled) && AllGivenUp(t.id, row.to, settled)
    ensures TaskOk(t.(sending := false, todo := Plan(t.m, result, bounces)), row, to, settled)
  {
    hide AllSettled, AllGivenUp;
  }

  lemma PlanOk(t: Task, row: Row, to: seq<string>, settled: Ledger, result: Result, bounces: bool)
    requires t.sending && TaskOk(t, row, to, settled) && Answers(t.id, row, to, true, settled)
    requires result.Settled? ==> Conserves(result.res, t.m.to)
    ensures TaskOk(t.(sending := false, todo := Plan(t.m, result, bounces)), row, to,
                   Grown(settled, Taken(t.id, result), GivenUpBy(t.id, t.m, result)))
  {
    var more := Grown(settled, Taken(t.id, result), GivenUpBy(t.id, t.m, result));
    if result.Settled? {
      var res := result.res;
      forall r | r in to && r !in res.deferred
        ensures Settles(more, t.id, r)
      {
        SettledTask(t, row, to, settled, res, r);
      }
      if res.accepted == [] && res.deferred == [] {
        forall r | r in t.m.to
          ensures (t.id, r) in more.givenUp
        {
          ConservedSome(res, t.m.to, r);
        }
      }
      hide TaskOk, Plan, Taken, GivenUpBy, Conserves;
      SettledPlanOk(t, row, to, more, res, bounces);
    } else {
      assert result.PermanentError? ==> AllSettled(t.id, to, more) && AllGivenUp(t.id, row.to, more);
      assert row.status == Delivering;
      hide TaskOk, Plan, Taken, GivenUpBy, AllSettled, AllGivenUp, Answers;
      OtherPlanOk(t, row, to, more, result, bounces);
    }
  }

  lemma TaskIn(s: State, i: nat)
    requires Inv(s) && i < |s.tasks|
    ensures var t := s.tasks[i];
            && t.id in s.rows && t.id in s.entered && t.id in s.used
            && TaskOk(t, s.rows[t.id], s.entered[t.id], Settlements(s))
            && Answers(t.id, s.rows[t.id], s.entered[t.id], t.id in s.spool, Settlements(s))
            && Answers(t.id, s.rows[t.id], s.entered[t.id], true, Settlements(s))
  {
    hide TaskOk, Answers;
    var t := s.tasks[i];
    AnswersMore(t.id, s.rows[t.id], s.entered[t.id], t.id in s.spool, Settlements(s), Settlements(s));
  }

  lemma AttemptTask(s: State, i: nat, result: Result, refused: set<string>, bounces: bool)
    requires Inv(s) && Enabled(s, Attempt(i, result, refused, bounces))
    ensures var u := Next(s, Attempt(i, result, refused, bounces));
            i < |u.tasks| && s.tasks[i].id in s.rows && s.tasks[i].id in s.entered
            && TaskOk(u.tasks[i], s.rows[s.tasks[i].id], s.entered[s.tasks[i].id], Settlements(u))
  {
    var t := s.tasks[i];
    TaskIn(s, i);
    hide TaskOk, Answers, Taken, GivenUpBy, Plan, Conserves, Inv;
    PlanOk(t, s.rows[t.id], s.entered[t.id], Settlements(s), result, bounces);
    var u := Next(s, Attempt(i, result, refused, bounces));
    assert Settlements(u) == Grown(Settlements(s), Taken(t.id, result), GivenUpBy(t.id, t.m, result));
  }

  /** More is settled, and one task moved on: everything else stands. */
  lemma TaskMoves(s: State, u: State, i: nat)
    requires Inv(s) && i < |s.tasks| && Within(Settlements(s), Settlements(u))
    requires |u.tasks| == |s.tasks|
    requires u == s.(tasks := s.tasks[i := u.tasks[i]], delivered := u.delivered, givenUp := u.givenUp, refused := u.refused)
    requires u.tasks[i].id == s.tasks[i].id && !u.tasks[i].sending && s.phase == Working
    requires TaskOk(u.tasks[i], s.rows[s.tasks[i].id], s.entered[s.tasks[i].id], Settlements(u))
    ensures Inv(u)
  {
    hide TaskOk, Answers, Settlements;
    forall id | id in u.rows
      ensures Answers(id, u.rows[id], u.entered[id], id in u.spool, Settlements(u))
    {
      AnswersMore(id, s.rows[id], s.entered[id], id in s.spool, Settlements(s), Settlements(u));
    }
    forall id | id in u.purged
      ensures Answers(id, u.purged[id], u.entered[id], true, Settlements(u))
    {
      AnswersMore(id, s.purged[id], s.entered[id], true, Settlements(s), Settlements(u));
    }
    forall j | 0 <= j < |u.tasks| && j != i
      ensures TaskOk(u.tasks[j], u.rows[u.tasks[j].id], u.entered[u.tasks[j].id], Settlements(u))
    {
      TaskMore(s.tasks[j], s.rows[s.tasks[j].id], s.entered[s.tasks[j].id], Settlements(s), Settlements(u));
    }
  }

  lemma AttemptStep(s: State, i: nat, result: Result, refused: set<string>, bounces: bool)
    requires Inv(s) && Enabled(s, Attempt(i, result, refused, bounces))
    ensures Inv(Next(s, Attempt(i, result, refused, bounces)))
  {
    AttemptTask(s, i, result, refused, bounces);
    hide TaskOk, Answers, Taken, GivenUpBy, Plan, Conserves, Inv;
    TaskMoves(s, Next(s, Attempt(i, result, refused, bounces)), i);
  }

  lemma EmptyTask(t: Task, row: Row, to: seq<string>, settled: Ledger)
    requires !t.sending && t.todo == []
    ensures TaskOk(t, row, to, settled)
  {
  }

  lemma SkipStep(s: State, i: nat)
    requires Inv(s) && Enabled(s, Skip(i))
    ensures Inv(Next(s, Skip(i)))
  {
    var u := Next(s, Skip(i));
    EmptyTask(u.tasks[i], s.rows[s.tasks[i].id], s.entered[s.tasks[i].id], Settlements(s));
    hide TaskOk, Answers, Inv;
    TaskMoves(s, u, i);
  }

  // ----- the writes that follow -----

  lemma RestOk(t: Task, row: Row, to: seq<string>, settled: Ledger)
    requires TaskOk(t, row, to, settled) && t.todo != []
    ensures OneChange(t.todo[1..]) && !t.sending
    ensures forall j :: 0 <= j < |t.todo| - 1 ==> ActOk(t.todo[1..][j], t.id, row, to, settled)
    ensures Changes(t.todo[0]) ==> forall j :: 0 <= j < |t.todo| - 1 ==> !Changes(t.todo[1..][j]) && !t.todo[1..][j].Narrow?
  {
    forall j | 0 <= j < |t.todo| - 1
      ensures ActOk(t.todo[1..][j], t.id, row, to, settled)
    {
      assert ActOk(t.todo[j + 1], t.id, row, to, settled);
    }
  }

  /** The row after a write of its task. */
  function WrittenRow(t: Task, row: Row, at: When): Row
    requires t.todo != []
  {
    match t.todo[0]
    case Narrow(to) => row.(to := to)
    case Again => RescheduledRow(row, t.m.attempts + 1, at.now + at.delay)
    case GiveUp => FailedRow(row)
    case Finish => DeliveredRow(row)
    case _ => row
  }

  lemma RestDrops(t: Task, row: Row, to: seq<string>, settled: Ledger, at: When)
    requires t.todo != [] && TaskOk(t, row, to, settled)
    ensures DropsOk(t.todo[1..], t.id, WrittenRow(t, row, at), settled)
    ensures !t.todo[0].Finish? ==> DropsOk(t.todo[1..], t.id, row, settled)
  {
    var rest := t.todo[1..];
    assert ActOk(t.todo[0], t.id, row, to, settled);
    forall j | 0 <= j < |rest| && rest[j].DropBody? && !t.todo[0].Finish? && forall i :: 0 <= i < j ==> !rest[i].Finish?
      ensures Finished(row) || AllGivenUp(t.id, row.to, settled)
    {
      assert t.todo[j + 1].DropBody?;
      assert forall i :: 0 <= i < j + 1 ==> t.todo[i] == if i == 0 then t.todo[0] else rest[i - 1];
    }
  }

  lemma RestActs(t: Task, row: Row, to: seq<string>, settled: Ledger, at: When)
    requires t.todo != [] && TaskOk(t, row, to, settled)
    ensures forall j :: 0 <= j < |t.todo| - 1 ==> ActOk(t.todo[1..][j], t.id, WrittenRow(t, row, at), to, settled)
  {
    RestOk(t, row, to, settled);
    assert ActOk(t.todo[0], t.id, row, to, settled);
    var rest := t.todo[1..];
    forall j | 0 <= j < |rest|
      ensures ActOk(rest[j], t.id, WrittenRow(t, row, at), to, settled)
    {
      assert ActOk(rest[j], t.id, row, to, settled);
      assert rest[j] == t.todo[j + 1];
    }
  }

  lemma WrittenAnswers(t: Task, row: Row, to: seq<string>, body: bool, settled: Ledger, at: When)
    requires t.todo != [] && TaskOk(t, row, to, settled) && Answers(t.id, row, to, body, settled)
    ensures Answers(t.id, WrittenRow(t, row, at), to, body, settled)
  {
    assert ActOk(t.todo[0], t.id, row, to, settled);
  }

  lemma WrittenTask(t: Task, row: Row, to: seq<string>, body: bool, settled: Ledger, at: When)
    requires t.todo != [] && TaskOk(t, row, to, settled) && Answers(t.id, row, to, body, settled)
    ensures TaskOk(t.(todo := t.todo[1..]), WrittenRow(t, row, at), to, settled)
    ensures !t.todo[0].Finish? ==> TaskOk(t.(todo := t.todo[1..]), row, to, settled)
    ensures Answers(t.id, WrittenRow(t, row, at), to, body, settled)
  {
    RestOk(t, row, to, settled);
    RestActs(t, row, to, settled, at);
    RestDrops(t, row, to, settled, at);
    WrittenAnswers(t, row, to, body, settled, at);
    hide ActOk, DropsOk, Answers, OneChange, WrittenRow;
  }

  lemma DroppedBody(t: Task, row: Row, to: seq<string>, settled: Ledger)
    requires t.todo != [] && t.todo[0].DropBody? && TaskOk(t, row, to, settled) && Answers(t.id, row, to, true, settled)
    ensures Answers(t.id, row, to, false, settled)
  {
    assert ActOk(t.todo[0], t.id, row, to, settled);
  }

  /** One task moves on and its own row changes with it. */
  lemma OwnRowMoves(s: State, u: State, i: nat, row: Row)
    requires Inv(s) && i < |s.tasks| && s.tasks[i].todo != [] && s.phase == u.phase && !s.tasks[i].sending
    requires var k := s.tasks[i].id;
             && |u.tasks| == |s.tasks|
             && u == s.(tasks := s.tasks[i := u.tasks[i]], rows := s.rows[k := row], spool := u.spool)
             && u.tasks[i].id == k && !u.tasks[i].sending
             && (u.spool == s.spool || u.spool == s.spool - {k})
             && TaskOk(u.tasks[i], row, s.entered[k], Settlements(s))
             && Answers(k, row, s.entered[k], k in u.spool, Settlements(s))
    ensures Inv(u)
  {
    hide TaskOk, Answers;
    var k := s.tasks[i].id;
    assert k in s.rows && k !in s.incoming;
    assert s.rows[k := row].Keys == s.rows.Keys;
    forall j | 0 <= j < |u.tasks| && j != i
      ensures u.tasks[j].id != k && u.tasks[j] == s.tasks[j]
    {
    }
  }

  lemma BounceStep(s: State, i: nat, newId: Id, at: When)
    requires Inv(s) && i < |s.tasks| && s.tasks[i].todo != [] && newId !in s.used
    requires s.tasks[i].todo[0].Bounce? && (s.phase == Working || s.phase == Maintaining)
    ensures Inv(Written(s, i, true, newId, at))
  {
    var t := s.tasks[i];
    var mid := Next(s, Spool(newId, BounceRow(t.m, at)));
    SpoolStep(s, newId, BounceRow(t.m, at));
    TaskIn(s, i);
    WrittenTask(t, s.rows[t.id], s.entered[t.id], t.id in s.spool, Settlements(s), at);
    hide TaskOk, Answers, Inv;
    var u := Written(s, i, true, newId, at);
    assert mid.rows[t.id := s.rows[t.id]] == mid.rows;
    assert t.id in mid.spool <==> t.id in s.spool;
    assert u == mid.(tasks := mid.tasks[i := u.tasks[i]], rows := mid.rows[t.id := s.rows[t.id]], spool := u.spool);
    OwnRowMoves(mid, u, i, s.rows[t.id]);
  }

  lemma DropBodyStep(s: State, i: nat, newId: Id, at: When)
    requires Inv(s) && i < |s.tasks| && s.tasks[i].todo != [] && s.tasks[i].todo[0].DropBody?
    requires s.phase == Working || s.phase == Maintaining
    ensures Inv(Written(s, i, true, newId, at))
  {
    var t := s.tasks[i];
    var row, to := s.rows[t.id], s.entered[t.id];
    TaskIn(s, i);
    WrittenTask(t, row, to, t.id in s.spool, Settlements(s), at);
    DroppedBody(t, row, to, Settlements(s));
    hide TaskOk, Answers, Inv;
    var u := Written(s, i, true, newId, at);
    assert s.rows[t.id := row] == s.rows;
    OwnRowMoves(s, u, i, row);
  }

  lemma RowWriteStep(s: State, i: nat, newId: Id, at: When)
    requires Inv(s) && i < |s.tasks| && s.tasks[i].todo != [] && !s.tasks[i].todo[0].Bounce? && !s.tasks[i].todo[0].DropBody?
    requires s.phase == Working || s.phase == Maintaining
    ensures Inv(Written(s, i, true, newId, at))
  {
    var t := s.tasks[i];
    TaskIn(s, i);
    WrittenTask(t, s.rows[t.id], s.entered[t.id], t.id in s.spool, Settlements(s), at);
    hide TaskOk, Answers, Inv;
    OwnRowMoves(s, Written(s, i, true, newId, at), i, WrittenRow(t, s.rows[t.id], at));
  }

  lemma FailedWriteStep(s: State, i: nat, newId: Id, at: When)
    requires Inv(s) && i < |s.tasks| && s.tasks[i].todo != []
    requires s.phase == Working || s.phase == Maintaining
    ensures Inv(Written(s, i, false, newId, at))
  {
    var t := s.tasks[i];
    var row, to := s.rows[t.id], s.entered[t.id];
    TaskIn(s, i);
    WrittenTask(t, row, to, t.id in s.spool, Settlements(s), at);
    EmptyTask(t.(todo := []), row, to, Settlements(s));
    assert !t.sending;
    hide TaskOk, Answers, Inv;
    assert s.rows[t.id := row] == s.rows;
    OwnRowMoves(s, Written(s, i, false, newId, at), i, row);
  }

  lemma WriteStep(s: State, i: nat, ok: bool, newId: Id, at: When)
    requires Inv(s) && Enabled(s, Write(i, ok, newId, at))
    ensures Inv(Next(s, Write(i, ok, newId, at)))
  {
    hide Inv, Written;
    if !ok {
      FailedWriteStep(s, i, newId, at);
    } else if !s.tasks[i].todo[0].Bounce? && !s.tasks[i].todo[0].DropBody? {
      RowWriteStep(s, i, newId, at);
    } else if s.tasks[i].todo[0].Bounce? {
      BounceStep(s, i, newId, at);
    } else {
      DropBodyStep(s, i, newId, at);
    }
  }

  // ----- maintenance -----

  lemma ExpiredTask(id: Id, row: Row, bounced: set<Id>, to: seq<string>, settled: Ledger)
    requires row.status == Expired
    ensures TaskOk(Task(id, row, false, (if id in bounced then [Bounce] else []) + [DropBody]), row, to, settled)
  {
  }

  lemma ExpireMoves(s: State, now: Time, u: State)
    requires Inv(s) && u == s.(rows := ExpiredRows(s.rows, now), tasks := u.tasks)
    ensures RowsMoved(s, u)
  {
    hide NotAfter;
  }

  lemma ExpireTasks(s: State, now: Time, seen: seq<Id>, bounced: set<Id>)
    requires Inv(s) && Enabled(s, Expire(now, seen, bounced))
    ensures var u := Next(s, Expire(now, seen, bounced));
            forall i :: 0 <= i < |u.tasks| ==>
              u.tasks[i].id == seen[i] && seen[i] in u.rows && seen[i] in s.entered && !u.tasks[i].sending
              && TaskOk(u.tasks[i], u.rows[seen[i]], s.entered[seen[i]], Settlements(s))
  {
    var u := Next(s, Expire(now, seen, bounced));
    assert s.rows.Keys <= s.entered.Keys;
    hide TaskOk, Overdue, AllResting, Inv;
    forall i | 0 <= i < |u.tasks|
      ensures TaskOk(u.tasks[i], u.rows[seen[i]], s.entered[seen[i]], Settlements(s))
    {
      ExpiredTask(seen[i], u.rows[seen[i]], bounced, s.entered[seen[i]], Settlements(s));
    }
  }

  lemma ExpireStep(s: State, now: Time, seen: seq<Id>, bounced: set<Id>)
    requires Inv(s) && Enabled(s, Expire(now, seen, bounced))
    ensures Inv(Next(s, Expire(now, seen, bounced)))
  {
    var u := Next(s, Expire(now, seen, bounced));
    ExpireTasks(s, now, seen, bounced);
    hide TaskOk, Answers, RowsMoved, RowsOk, PurgedOk, Overdue, ExpiredRows;
    ExpireMoves(s, now, u);
    RowsMovedOk(s, u);
  }

  lemma PurgeIds(s: State, cutoff: Time)
    requires IdsOk(s)
    ensures var old_ := map id | id in s.rows && Purgeable(s.rows[id], cutoff) :: s.rows[id];
            IdsOk(s.(rows := KeptRows(s.rows, cutoff), tasks := [], purged := s.purged + old_))
  {
    hide Purgeable;
    var old_ := map id | id in s.rows && Purgeable(s.rows[id], cutoff) :: s.rows[id];
    assert s.rows.Keys == KeptRows(s.rows, cutoff).Keys + old_.Keys;
  }

  lemma PurgedRowOk(s: State, id: Id, cutoff: Time)
    requires Inv(s) && id in s.rows && Purgeable(s.rows[id], cutoff)
    ensures Finished(s.rows[id]) && Answers(id, s.rows[id], s.entered[id], true, Settlements(s))
  {
    hide Answers, TaskOk;
    AnswersMore(id, s.rows[id], s.entered[id], id in s.spool, Settlements(s), Settlements(s));
  }

  lemma PurgedOnes(s: State, u: State, cutoff: Time)
    requires Inv(s) && Enabled(s, Purge(cutoff)) && u == Next(s, Purge(cutoff)) && IdsOk(u)
    ensures PurgedOk(u)
  {
    assert u.purged.Keys <= u.entered.Keys;
    hide TaskOk, Answers, Purgeable, IdsOk, Finished, AllResting;
    forall id | id in u.purged
      ensures Finished(u.purged[id]) && Answers(id, u.purged[id], u.entered[id], true, Settlements(u))
    {
      if id in s.rows && Purgeable(s.rows[id], cutoff) {
        PurgedRowOk(s, id, cutoff);
      }
    }
  }

  lemma PurgeStep(s: State, cutoff: Time)
    requires Inv(s) && Enabled(s, Purge(cutoff))
    ensures Inv(Next(s, Purge(cutoff)))
  {
    var u := Next(s, Purge(cutoff));
    PurgeIds(s, cutoff);
    hide TaskOk, Answers, Purgeable, IdsOk, AllResting, PurgedOk;
    PurgedOnes(s, u, cutoff);
    assert RowsOk(u);
  }

  lemma AcceptStep(s: State, id: Id)
    requires Inv(s) && Enabled(s, Accept(id))
    ensures Inv(Next(s, Accept(id)))
  {
    hide TaskOk, Answers;
  }

  lemma PhaseStep(s: State, phase: Phase)
    requires Inv(s) && (s.tasks == [] || (s.phase == Claiming && phase == Working))
    ensures Inv(s.(phase := phase))
  {
    hide TaskOk, Answers;
  }

  lemma StartStep(s: State, released: bool, cutoff: Time)
    requires Inv(s) && Enabled(s, Start(released, cutoff))
    ensures Inv(Next(s, Start(released, cutoff)))
  {
    assert s.tasks == [];
    hide Inv, ReleasedRows;
    ReleaseStep(s, cutoff, Idle);
    PhaseStep(s, Idle);
  }

  lemma RestStep(s: State, e: Event)
    requires Inv(s) && Enabled(s, e)
    requires e.NextRound? || e.EndMaintenance? || e.Crash? || e.Release?
    ensures Inv(Next(s, e))
  {
    hide Inv, ReleasedRows;
    match e
    case NextRound => QuietStep(s, Claiming);
    case EndMaintenance => QuietStep(s, Idle);
    case Crash => QuietStep(s, Stopped);
    case Release(cutoff) => ReleaseStep(s, cutoff, Maintaining);
  }

  lemma LoopStep(s: State, e: Event)
    requires Inv(s) && Enabled(s, e)
    requires e.BeginPass? || e.Dispatch? || e.EndPass? || e.BeginMaintenance?
    ensures Inv(Next(s, e))
  {
    assert s.phase == Idle ==> s.tasks == [];
    hide Inv;
    match e
    case BeginPass => PhaseStep(s, Claiming);
    case Dispatch => PhaseStep(s, Working);
    case EndPass => PhaseStep(s, Idle);
    case BeginMaintenance => PhaseStep(s, Maintaining);
  }

  lemma HoldStep(s: State, e: Event)
    requires Inv(s) && Enabled(s, e) && (e.Hold? || e.Unhold?)
    ensures Inv(Next(s, e))
  {
    hide Inv;
    match e
    case Hold(id) => FlagStep(s, id, s.rows[id].(held := true));
    case Unhold(id, now) => FlagStep(s, id, s.rows[id].(held := false, nextRetry := now));
  }

  // ----- every run -----

  /** Every step keeps the invariant, failed writes, dropped tasks and crashes included. */
  lemma StepKeeps(s: State, e: Event)
    requires Inv(s) && Enabled(s, e)
    ensures Inv(Next(s, e))
  {
    hide Inv, Enabled, Next;
    match e
    case Spool(id, row) => SpoolStep(s, id, row);
    case Drop(id) => DropStep(s, id);
    case Enter(id) => EnterStep(s, id);
    case Accept(id) => AcceptStep(s, id);
    case Hold(_) => HoldStep(s, e);
    case Unhold(_, _) => HoldStep(s, e);
    case Start(released, cutoff) => StartStep(s, released, cutoff);
    case BeginPass => LoopStep(s, e);
    case ClaimRows(c, d, ids, now, batch) => ClaimStep(s, c, d, ids, now, batch);
    case Dispatch => LoopStep(s, e);
    case Attempt(i, result, refused, bounces) => AttemptStep(s, i, result, refused, bounces);
    case Skip(i) => SkipStep(s, i);
    case Write(i, ok, newId, at) => WriteStep(s, i, ok, newId, at);
    case NextRound => RestStep(s, e);
    case EndPass => LoopStep(s, e);
    case BeginMaintenance => LoopStep(s, e);
    case Expire(now, seen, bounced) => ExpireStep(s, now, seen, bounced);
    case Release(_) => RestStep(s, e);
    case Purge(cutoff) => PurgeStep(s, cutoff);
    case EndMaintenance => RestStep(s, e);
    case Crash => RestStep(s, e);
  }

  ghost predicate Run(s: State, events: seq<Event>, u: State)
    decreases |events|
  {
    if events == [] then s == u else Enabled(s, events[0]) && Run(Next(s, events[0]), events[1..], u)
  }

  lemma {:induction false} RunKeeps(s: State, events: seq<Event>, u: State)
    requires Inv(s) && Run(s, events, u)
    ensures Inv(u)
    decreases |events|
  {
    hide Inv, Enabled, Next;
    if events != [] {
      StepKeeps(s, events[0]);
      RunKeeps(Next(s, events[0]), events[1..], u);
    }
  }

  lemma {:induction false} RunThen(s: State, events: seq<Event>, u: State, e: Event)
    requires Run(s, events, u) && Enabled(u, e)
    ensures Run(s, events + [e], Next(u, e))
    decreases |events|
  {
    hide Enabled, Next;
    if events == [] {
      assert [e][1..] == [];
      assert events + [e] == [e];
      assert Run(Next(u, e), [], Next(u, e));
    } else {
      RunThen(Next(s, events[0]), events[1..], u, e);
      assert (events + [e])[1..] == events[1..] + [e];
    }
  }

  ghost predicate Reachable(s: State) {
    exists events :: Run(START, events, s)
  }

  lemma ReachableInv(s: State)
    requires Reachable(s)
    ensures Inv(s)
  {
    hide Inv, Run;
    var events :| Run(START, events, s);
    StartOk();
    RunKeeps(START, events, s);
  }

  /** Where a recipient of an accepted message is: taken or refused by a peer, named by a failed or expired row
      (which may have been purged since), or still named by a pending row whose body is on the spool. */
  ghost predicate AccountedFor(s: State, id: Id, r: string) {
    || (id, r) in s.delivered
    || (id, r) in s.refused
    || (id in s.rows && r in s.rows[id].to &&
          (s.rows[id].status == Failed || s.rows[id].status == Expired || (Pending(s.rows[id]) && id in s.spool)))
    || (id in s.purged && r in s.purged[id].to && (s.purged[id].status == Failed || s.purged[id].status == Expired))
  }

  /** The sender has given the recipient up for good, and no peer refused it. */
  predicate Wronged(s: State, id: Id, r: string) {
    (id, r) in s.givenUp && (id, r) !in s.refused
  }

  /** No recipient is lost, in any run, whatever writes fail and wherever the process dies, but one that was wronged. */
  lemma NoRecipientLost(s: State, id: Id, r: string)
    requires Reachable(s) && id in s.accepted && id in s.entered && r in s.entered[id]
    ensures AccountedFor(s, id, r) || Wronged(s, id, r)
  {
    ReachableInv(s);
    if id in s.rows {
      assert Answers(id, s.rows[id], s.entered[id], id in s.spool, Settlements(s));
    } else {
      assert id in s.purged;
      assert Answers(id, s.purged[id], s.entered[id], true, Settlements(s));
    }
  }

  /** Mail that was delivered is never reported as lost: a pending row whose body is gone names only recipients that the
      destination refused, but for those who were wronged. */
  lemma BodilessWereRefused(s: State, id: Id, r: string)
    requires Reachable(s) && id in s.rows && Pending(s.rows[id]) && id !in s.spool && r in s.rows[id].to
    ensures (id, r) in s.refused || Wronged(s, id, r)
  {
    ReachableInv(s);
    RowAnswers(s, id);
    hide Inv;
  }

  // ----- runs in which nobody is wronged -----

  /** An attempt that gives up only whom a peer refused. Module Outbound says exactly which attempts these are. */
  predicate Fair(s: State, e: Event) {
    e.Attempt? && e.i < |s.tasks| ==> GivenUpBy(s.tasks[e.i].id, s.tasks[e.i].m, e.result) <= Named(s.tasks[e.i].id, e.refused)
  }

  ghost predicate FairRun(s: State, events: seq<Event>, u: State)
    decreases |events|
  {
    if events == [] then s == u else Enabled(s, events[0]) && Fair(s, events[0]) && FairRun(Next(s, events[0]), events[1..], u)
  }

  /** Only attempts write the history of whom the sender gave up. */
  lemma HistoryStep(s: State, e: Event)
    requires Enabled(s, e)
    ensures var u := Next(s, e);
            if e.Attempt? then
              && e.i < |s.tasks|
              && u.givenUp == s.givenUp + GivenUpBy(s.tasks[e.i].id, s.tasks[e.i].m, e.result)
              && u.refused == s.refused + Named(s.tasks[e.i].id, e.refused)
            else u.givenUp == s.givenUp && u.refused == s.refused
  {
    if e.Write? {
      WrittenHistory(s, e.i, e.ok, e.newId, e.at);
    }
    hide Written, Plan, Taken, GivenUpBy, Named, TasksFor, ClaimedRows, ReleasedRows, ExpiredRows, KeptRows, NewRow, ClaimableIds;
  }

  lemma WrittenHistory(s: State, i: nat, ok: bool, newId: Id, at: When)
    requires i < |s.tasks| && s.tasks[i].todo != []
    ensures var u := Written(s, i, ok, newId, at); u.givenUp == s.givenUp && u.refused == s.refused
  {
    hide BounceRow, RescheduledRow, FailedRow, DeliveredRow;
  }

  lemma {:induction false} FairRunHistory(s: State, events: seq<Event>, u: State)
    requires FairRun(s, events, u) && s.givenUp <= s.refused
    ensures u.givenUp <= u.refused && Run(s, events, u)
    decreases |events|
  {
    hide Enabled, Next, GivenUpBy, Named;
    if events != [] {
      HistoryStep(s, events[0]);
      FairRunHistory(Next(s, events[0]), events[1..], u);
    }
  }

  /** If no attempt gives up anybody but whom a peer refused, nobody is lost, and a row without a body names only the refused. */
  lemma FairRunsLoseNobody(events: seq<Event>, s: State, id: Id, r: string)
    requires FairRun(START, events, s)
    ensures id in s.accepted && id in s.entered && r in s.entered[id] ==> AccountedFor(s, id, r)
    ensures id in s.rows && Pending(s.rows[id]) && id !in s.spool && r in s.rows[id].to ==> (id, r) in s.refused
  {
    hide Run, FairRun, AccountedFor, Pending;
    FairRunHistory(START, events, s);
    assert Reachable(s);
    hide Reachable;
    if id in s.accepted && id in s.entered && r in s.entered[id] {
      NoRecipientLost(s, id, r);
    }
    if id in s.rows && Pending(s.rows[id]) && id !in s.spool && r in s.rows[id].to {
      BodilessWereRefused(s, id, r);
    }
  }

  lemma RowAnswers(s: State, id: Id)
    requires Inv(s) && id in s.rows
    ensures id in s.entered && Answers(id, s.rows[id], s.entered[id], id in s.spool, Settlements(s))
  {
    hide Answers, TaskOk;
  }

  /** No message is in two hands; what is being transmitted is claimed, and a claim takes none of it. */
  lemma SingleHolder(s: State, e: Event)
    requires Reachable(s)
    ensures OneHolder(s)
    ensures forall i :: 0 <= i < |s.tasks| && s.tasks[i].sending ==>
              s.tasks[i].id in s.rows && s.rows[s.tasks[i].id].status == Delivering
    ensures Enabled(s, e) && e.ClaimRows? ==> forall i :: 0 <= i < |s.tasks| ==> s.tasks[i].id !in e.ids
  {
    ReachableInv(s);
    if Enabled(s, e) && e.ClaimRows? {
      forall i | 0 <= i < |s.tasks|
        ensures s.tasks[i].id !in e.ids
      {
        ClaimsAreFree(s, e.c, e.d, e.ids, e.now, i);
      }
    }
    hide Answers, ClaimableIds, Conserves;
  }

  lemma SendingHeld(s: State, i: nat)
    requires Inv(s) && i < |s.tasks| && s.tasks[i].sending
    ensures var t := s.tasks[i];
            t.id in s.rows && s.rows[t.id].status == Delivering && s.rows[t.id].to == t.m.to
  {
    hide Answers;
    TaskIn(s, i);
  }

  /** Whatever happens meanwhile, releases, expiry and purges included, the row of a message in transmission is left alone;
      an administrator may hold it. */
  lemma UntouchedWhileSending(s: State, e: Event, i: nat)
    requires Reachable(s) && Enabled(s, e) && i < |s.tasks| && s.tasks[i].sending
    ensures var id, u := s.tasks[i].id, Next(s, e);
            id in s.rows && id in u.rows && u.rows[id] == s.rows[id].(held := u.rows[id].held)
  {
    ReachableInv(s);
    SendingHeld(s, i);
    SendingPhase(s, i);
    NotIncoming(s, s.tasks[i].id);
    hide Inv, Reachable;
    if e.Write? {
      OtherWritten(s, i, e.i, e.ok, e.newId, e.at);
      hide Written;
    } else if e.ClaimRows? {
      ClaimElsewhere(s, s.tasks[i].id, e);
    } else {
      OtherRows(s, e, s.tasks[i].id);
    }
    hide Enabled;
  }

  lemma ClaimElsewhere(s: State, id: Id, e: Event)
    requires Enabled(s, e) && e.ClaimRows? && id in s.rows && s.rows[id].status == Delivering
    ensures id in Next(s, e).rows && Next(s, e).rows[id] == s.rows[id]
  {
    hide TasksFor, NotAfter;
    assert id !in e.ids;
  }

  /** The steps outside maintenance that are neither claims nor writes of a task. */
  lemma OtherRows(s: State, e: Event, id: Id)
    requires Enabled(s, e) && !e.Write? && !e.ClaimRows? && (s.phase == Claiming || s.phase == Working)
    requires id in s.rows && id !in s.incoming && s.rows[id].status == Delivering
    ensures id in Next(s, e).rows && Next(s, e).rows[id] == s.rows[id].(held := Next(s, e).rows[id].held)
  {
    hide Written, Plan, Taken, GivenUpBy, Named, TasksFor, ClaimedRows, ReleasedRows, ExpiredRows, KeptRows, NewRow, ClaimableIds, AllResting;
  }

  lemma SendingPhase(s: State, i: nat)
    requires Inv(s) && i < |s.tasks| && s.tasks[i].sending
    ensures s.phase == Claiming || s.phase == Working
    ensures forall j :: 0 <= j < |s.tasks| && j != i ==> s.tasks[j].id != s.tasks[i].id
  {
    hide Answers, TaskOk;
    assert s.phase == Stopped || s.phase == Idle || s.phase == Maintaining || s.phase == Claiming || s.phase == Working;
  }

  lemma NotIncoming(s: State, id: Id)
    requires Inv(s) && (id in s.rows || id in s.entered)
    ensures id !in s.incoming
  {
    hide Answers, TaskOk;
  }

  lemma OtherWritten(s: State, i: nat, j: nat, ok: bool, newId: Id, at: When)
    requires i < |s.tasks| && j < |s.tasks| && s.tasks[j].todo != [] && s.tasks[j].id != s.tasks[i].id
    requires s.tasks[i].id in s.rows
    ensures var u := Written(s, j, ok, newId, at); s.tasks[i].id in u.rows && u.rows[s.tasks[i].id] == s.rows[s.tasks[i].id]
  {
    hide BounceRow, RescheduledRow, FailedRow, DeliveredRow;
  }

  /** A message that stays in transmission stays claimed, with the recipients it was read with: no other step frees it. */
  lemma HeldWhileSending(s: State, e: Event, i: nat)
    requires Reachable(s) && Enabled(s, e) && i < |s.tasks| && s.tasks[i].sending
    requires i < |Next(s, e).tasks| && Next(s, e).tasks[i] == s.tasks[i]
    ensures var u, t := Next(s, e), s.tasks[i];
            t.id in u.rows && u.rows[t.id].status == Delivering && u.rows[t.id].to == t.m.to
  {
    hide Enabled, Next, Inv, Reachable;
    ReachableInv(s);
    StepKeeps(s, e);
    SendingHeld(Next(s, e), i);
  }

  // ----- why the attempt has to keep every recipient -----

  lemma WrittenShorter(s: State, i: nat, newId: Id, at: When)
    requires i < |s.tasks| && s.tasks[i].todo != []
    ensures var u := Written(s, i, true, newId, at);
            |u.tasks| == |s.tasks| && |u.tasks[i].todo| < |s.tasks[i].todo|
  {
    hide BounceRow;
  }

  /** All the writes still to be done for task `i`, none of which fails. */
  function Carried(s: State, i: nat, newId: Id, at: When): State
    requires i < |s.tasks|
    decreases |s.tasks[i].todo|
  {
    if s.tasks[i].todo == [] then s
    else
      WrittenShorter(s, i, newId, at);
      Carried(Written(s, i, true, newId, at), i, newId, at)
  }

  function RowAfter(t: Task, row: Row, at: When): Row
    decreases |t.todo|
  {
    if t.todo == [] then row else RowAfter(t.(todo := t.todo[1..]), WrittenRow(t, row, at), at)
  }

  lemma OneWritten(s: State, i: nat, newId: Id, at: When)
    requires i < |s.tasks| && s.tasks[i].todo != [] && s.tasks[i].id in s.rows && newId != s.tasks[i].id
    ensures var t, u := s.tasks[i], Written(s, i, true, newId, at);
            && |u.tasks| == |s.tasks| && u.tasks[i] == t.(todo := t.todo[1..])
            && t.id in u.rows && u.rows[t.id] == WrittenRow(t, s.rows[t.id], at)
            && (t.id in u.spool <==> t.id in s.spool && t.todo[0] != DropBody)
            && u.delivered == s.delivered && u.givenUp == s.givenUp && u.refused == s.refused && u.purged == s.purged
  {
    hide BounceRow, RescheduledRow, FailedRow, DeliveredRow;
  }

  lemma {:induction false} CarriedRow(s: State, i: nat, newId: Id, at: When)
    requires i < |s.tasks| && s.tasks[i].id in s.rows && newId != s.tasks[i].id
    ensures var t, u := s.tasks[i], Carried(s, i, newId, at);
            && t.id in u.rows && u.rows[t.id] == RowAfter(t, s.rows[t.id], at)
            && (t.id in u.spool <==> t.id in s.spool && DropBody !in t.todo)
            && u.delivered == s.delivered && u.givenUp == s.givenUp && u.refused == s.refused && u.purged == s.purged
    decreases |s.tasks[i].todo|
  {
    hide Written, WrittenRow;
    if s.tasks[i].todo != [] {
      OneWritten(s, i, newId, at);
      CarriedRow(Written(s, i, true, newId, at), i, newId, at);
      assert s.tasks[i].todo == [s.tasks[i].todo[0]] + s.tasks[i].todo[1..];
    }
  }

  lemma RowAfterTwo(t: Task, row: Row, at: When)
    requires |t.todo| == 2
    ensures RowAfter(t, row, at) == WrittenRow(t.(todo := t.todo[1..]), WrittenRow(t, row, at), at)
  {
    hide WrittenRow;
    var one := t.(todo := t.todo[1..]);
    var none := one.(todo := one.todo[1..]);
    assert none.todo == [] && none == t.(todo := []);
    assert RowAfter(one, WrittenRow(t, row, at), at) == RowAfter(none, WrittenRow(one, WrittenRow(t, row, at), at), at);
  }

  lemma RowAfterBounce(t: Task, row: Row, at: When)
    requires t.todo != [] && t.todo[0] == Bounce
    ensures RowAfter(t, row, at) == RowAfter(t.(todo := t.todo[1..]), row, at)
  {
  }

  lemma PlanParts(m: Row, res: Recipients, bounces: bool, a: Act, b: Act)
    requires a == if res.deferred != [] then Narrow(res.deferred) else if res.accepted == [] then GiveUp else Finish
    requires b == if res.deferred != [] then Again else DropBody
    ensures var todo := Plan(m, Settled(res), bounces);
            todo == [a, b] || (|todo| == 3 && todo[0] == Bounce && todo[1..] == [a, b])
    ensures DropBody in Plan(m, Settled(res), bounces) <==> b == DropBody
  {
    hide ShouldBounce;
    var head := BounceActs(bounces, m, res.rejected);
    assert Plan(m, Settled(res), bounces) == head + [a, b];
  }

  lemma SettledRow(t: Task, row: Row, res: Recipients, bounces: bool, at: When)
    requires row.to == t.m.to && t.todo == Plan(t.m, Settled(res), bounces)
    ensures var after := RowAfter(t, row, at);
            && (DropBody in t.todo <==> res.deferred == [])
            && after.to == (if res.deferred != [] then res.deferred else t.m.to)
            && after.status == (if res.deferred != [] then Queued else if res.accepted == [] then Failed else Delivered)
  {
    hide Plan, RowAfter;
    var a := if res.deferred != [] then Narrow(res.deferred) else if res.accepted == [] then GiveUp else Finish;
    var b := if res.deferred != [] then Again else DropBody;
    PlanParts(t.m, res, bounces, a, b);
    var two := t.(todo := [a, b]);
    RowAfterTwo(two, row, at);
    assert [a, b][1..] == [b];
    if |t.todo| == 3 {
      RowAfterBounce(t, row, at);
    }
  }

  /** Once the writes after an attempt are done, a recipient nobody had settled before is accounted for exactly when it was
      taken, put off or refused, or when the attempt neither delivered nor deferred anything, so that the failed row still
      names everyone. One in no list is lost, and so is one that is given up without having been refused. */
  lemma SettlingNeedsEveryone(s: State, i: nat, res: Recipients, refused: set<string>, bounces: bool, r: string, newId: Id, at: When)
    requires Inv(s) && s.phase == Working && i < |s.tasks| && s.tasks[i].sending && newId !in s.used
    requires var t := s.tasks[i];
             r in t.m.to && (t.id, r) !in s.delivered && (t.id, r) !in s.refused && t.id in s.spool && t.id !in s.purged
    ensures var u := Carried(Attempted(s, i, Settled(res), refused, bounces), i, newId, at);
            AccountedFor(u, s.tasks[i].id, r) <==>
              r in res.accepted || r in res.deferred || r in refused || (res.accepted == [] && res.deferred == [])
  {
    SendingHeld(s, i);
    RowUsed(s, s.tasks[i].id);
    hide Inv, Answers, TaskOk;
    var t := s.tasks[i];
    var u := Attempted(s, i, Settled(res), refused, bounces);
    CarriedRow(u, i, newId, at);
    SettledRow(u.tasks[i], s.rows[t.id], res, bounces, at);
    assert (t.id, r) in Pairs(t.id, res.accepted) <==> r in res.accepted;
    assert (t.id, r) in Named(t.id, refused) <==> r in refused;
    hide RowAfter, Plan, Carried, Pairs, Named;
  }

  /** After a permanent error the row is marked failed first. If that write works, the row names everybody; if it does not,
      the body goes all the same, and only those whom a peer refused, or took before, are accounted for. */
  lemma GivingUpNeedsTheRow(s: State, i: nat, refused: set<string>, bounces: bool, r: string, ok: bool, newId: Id, at: When)
    requires Inv(s) && s.phase == Working && i < |s.tasks| && s.tasks[i].sending && newId !in s.used
    requires var t := s.tasks[i];
             r in t.m.to && (t.id, r) !in s.delivered && (t.id, r) !in s.refused && t.id in s.spool && t.id !in s.purged
    ensures var u := Attempted(s, i, PermanentError, refused, bounces);
            && u.tasks[i].todo != [] && u.tasks[i].todo[0] == GiveUp
            && (AccountedFor(Carried(Written(u, i, ok, newId, at), i, newId, at), s.tasks[i].id, r) <==> ok || r in refused)
  {
    SendingHeld(s, i);
    RowUsed(s, s.tasks[i].id);
    GaveUp(s, i, refused, bounces, ok, newId, at);
    hide Inv, Enabled, Attempted, Written, BounceActs, WrittenRow, RowAfter, Carried, Plan;
    var t := s.tasks[i];
    var v := Written(Attempted(s, i, PermanentError, refused, bounces), i, ok, newId, at);
    CarriedRow(v, i, newId, at);
    QuietRow(v.tasks[i], v.rows[t.id], at);
    assert (t.id, r) in Named(t.id, refused) <==> r in refused;
  }

  lemma GaveUp(s: State, i: nat, refused: set<string>, bounces: bool, ok: bool, newId: Id, at: When)
    requires i < |s.tasks| && s.tasks[i].id in s.rows
    ensures var t, u := s.tasks[i], Attempted(s, i, PermanentError, refused, bounces);
            && u.tasks[i].todo != [] && u.tasks[i].todo[0] == GiveUp
            && var v := Written(u, i, ok, newId, at);
            && |v.tasks| == |s.tasks| && v.tasks[i].id == t.id && DropBody in v.tasks[i].todo
            && (forall k :: 0 <= k < |v.tasks[i].todo| ==> v.tasks[i].todo[k] == Bounce || v.tasks[i].todo[k] == DropBody)
            && t.id in v.rows && v.rows[t.id] == (if ok then FailedRow(s.rows[t.id]) else s.rows[t.id])
            && v.spool == s.spool && v.purged == s.purged && v.delivered == s.delivered
            && v.refused == s.refused + Named(t.id, refused)
  {
    hide Named, FailedRow, Plan;
    GivingUpPlan(s.tasks[i].m, bounces);
    var t, u := s.tasks[i], Attempted(s, i, PermanentError, refused, bounces);
    assert u.tasks[i].todo == Plan(t.m, PermanentError, bounces);
    GiveUpWritten(u, i, ok, newId, at);
    hide Written;
  }

  lemma GiveUpWritten(u: State, i: nat, ok: bool, newId: Id, at: When)
    requires i < |u.tasks| && u.tasks[i].todo != [] && u.tasks[i].todo[0] == GiveUp && u.tasks[i].id in u.rows
    ensures var t, v := u.tasks[i], Written(u, i, ok, newId, at);
            && |v.tasks| == |u.tasks| && v.tasks[i] == t.(todo := t.todo[1..])
            && t.id in v.rows && v.rows[t.id] == (if ok then FailedRow(u.rows[t.id]) else u.rows[t.id])
            && v.spool == u.spool && v.purged == u.purged && v.delivered == u.delivered && v.refused == u.refused
  {
    hide FailedRow, BounceRow, RescheduledRow, DeliveredRow;
  }

  lemma GivingUpPlan(m: Row, bounces: bool)
    ensures var todo := Plan(m, PermanentError, bounces);
            && todo != [] && todo[0] == GiveUp && DropBody in todo[1..]
            && forall k :: 0 <= k < |todo[1..]| ==> todo[1..][k] == Bounce || todo[1..][k] == DropBody
  {
    hide ShouldBounce;
    var rest := BounceActs(bounces, m, m.to) + [DropBody];
    assert Plan(m, PermanentError, bounces) == [GiveUp] + rest;
    assert Plan(m, PermanentError, bounces)[1..] == rest && rest[|rest| - 1] == DropBody;
  }

  /** A bounce and the removal of the body leave the row alone. */
  lemma {:induction false} QuietRow(t: Task, row: Row, at: When)
    requires forall i :: 0 <= i < |t.todo| ==> t.todo[i] == Bounce || t.todo[i] == DropBody
    ensures RowAfter(t, row, at) == row
    decreases |t.todo|
  {
    if t.todo != [] {
      QuietRow(t.(todo := t.todo[1..]), row, at);
    }
  }

  lemma RowUsed(s: State, id: Id)
    requires Inv(s) && id in s.rows
    ensures id in s.used
  {
    hide Answers, TaskOk;
  }

  // ----- who gets a bounce -----

  /** A plan holds a bounce exactly for a message that has a sender, whose address is authenticated or who sent it through
      here, and of which somebody failed for good. */
  lemma BouncePlanned(m: Row, r: Result, on: bool)
    ensures Bounce in Plan(m, r, on) <==>
              && on && m.from != "" && (m.outbound || m.authenticated)
              && (match r
                  case Settled(res) => res.rejected != []
                  case Unreadable => m.to != []
                  case PermanentError => m.to != []
                  case _ => false)
    ensures forall i, j :: 0 <= i < j < |Plan(m, r, on)| ==> !(Plan(m, r, on)[i].Bounce? && Plan(m, r, on)[j].Bounce?)
  {
  }

  /** A bounce that is still to be written is for a message of that kind. */
  ghost predicate BounceOwed(t: Task) {
    Bounce in t.todo ==> t.m.from != "" && (t.m.outbound || t.m.authenticated)
  }

  ghost predicate BouncesOwed(s: State) {
    forall i :: 0 <= i < |s.tasks| ==> BounceOwed(s.tasks[i])
  }

  lemma WriteOwed(s: State, i: nat, ok: bool, newId: Id, at: When)
    requires BouncesOwed(s) && i < |s.tasks| && s.tasks[i].todo != []
    ensures BouncesOwed(Written(s, i, ok, newId, at))
  {
    hide BounceRow, RescheduledRow, FailedRow, DeliveredRow;
    assert BounceOwed(s.tasks[i]);
    assert BounceOwed(s.tasks[i].(todo := s.tasks[i].todo[1..])) && BounceOwed(s.tasks[i].(todo := []));
  }

  lemma TasksOwed(rows: Rows, before: Rows, ids: seq<Id>, bounced: set<Id>)
    requires forall i :: 0 <= i < |ids| ==> ids[i] in rows
    requires forall id :: id in bounced ==> id in before && ShouldBounce(true, before[id])
    requires forall id :: id in rows && id in before ==>
               rows[id].from == before[id].from && rows[id].outbound == before[id].outbound && rows[id].authenticated == before[id].authenticated
    ensures forall i :: 0 <= i < |ids| ==> BounceOwed(TasksFor(rows, ids, false, bounced, [DropBody])[i])
  {
  }

  lemma ExpireOwed(s: State, now: Time, seen: seq<Id>, bounced: set<Id>)
    requires Enabled(s, Expire(now, seen, bounced))
    ensures BouncesOwed(Next(s, Expire(now, seen, bounced)))
  {
    hide Overdue, ShouldBounce;
    TasksOwed(ExpiredRows(s.rows, now), s.rows, seen, bounced);
    hide TasksFor, ExpiredRows;
  }

  lemma ClaimOwed(s: State, e: Event)
    requires BouncesOwed(s) && Enabled(s, e) && e.ClaimRows?
    ensures BouncesOwed(Next(s, e))
  {
    hide NotAfter, BounceOwed;
    var more := TasksFor(ClaimedRows(s.rows, e.ids, e.now), e.batch, true, {}, []);
    forall i | 0 <= i < |more|
      ensures BounceOwed(more[i])
    {
      assert more[i].todo == [] + [];
      NothingOwed(more[i]);
    }
  }

  lemma NothingOwed(t: Task)
    ensures t.todo == [] ==> BounceOwed(t)
  {
  }

  lemma OwedStep(s: State, e: Event)
    requires BouncesOwed(s) && Enabled(s, e)
    ensures BouncesOwed(Next(s, e))
  {
    match e
    case Write(i, ok, newId, at) =>
      WriteOwed(s, i, ok, newId, at);
    case Expire(now, seen, bounced) =>
      ExpireOwed(s, now, seen, bounced);
    case ClaimRows(_, _, _, _, _) =>
      ClaimOwed(s, e);
    case Attempt(i, result, refused, bounces) =>
      hide Plan, Taken, GivenUpBy, Named;
      BouncePlanned(s.tasks[i].m, result, bounces);
    case Skip(i) =>
    case _ =>
      hide Enabled, BounceOwed, ReleasedRows, KeptRows, NewRow, Purgeable;
      KeepsTasks(s, e);
  }

  lemma KeepsTasks(s: State, e: Event)
    requires Enabled(s, e) && !e.Write? && !e.Expire? && !e.ClaimRows? && !e.Attempt? && !e.Skip?
    ensures Next(s, e).tasks == s.tasks || Next(s, e).tasks == []
  {
    hide ReleasedRows, KeptRows, NewRow, Purgeable, Enabled;
  }

  lemma {:induction false} OwedRun(s: State, events: seq<Event>, u: State)
    requires BouncesOwed(s) && Run(s, events, u)
    ensures BouncesOwed(u)
    decreases |events|
  {
    hide Enabled, Next, BouncesOwed;
    if events != [] {
      OwedStep(s, events[0]);
      OwedRun(Next(s, events[0]), events[1..], u);
    }
  }

  /** No backscatter: in every run a bounce is written only for a message whose sender is authenticated or sent it through
      here, and it goes to that sender alone, has none of its own, and is kept as long as any mail. */
  lemma BouncesGoToTheSender(s: State, i: nat, newId: Id, at: When)
    requires Reachable(s) && Enabled(s, Write(i, true, newId, at)) && s.tasks[i].todo[0].Bounce?
    ensures var m, u := s.tasks[i].m, Next(s, Write(i, true, newId, at));
            && m.from != "" && (m.outbound || m.authenticated)
            && u.incoming == s.incoming[newId := Row("", [m.from], Queued, 0, at.now, at.now, at.now + at.keep,
                                                    None, true, false, false, m.domain)]
  {
    var events :| Run(START, events, s);
    assert BouncesOwed(START);
    OwedRun(START, events, s);
    hide Run, Reachable;
    assert BounceOwed(s.tasks[i]);
    assert s.tasks[i].todo[0] == Bounce;
  }

  // ----- when the body goes -----

  /** The body goes as the last thing, exactly when nobody is left to send it to: all were refused or accepted, or the error
      was permanent. A body that could not be read is left where it is, and so is one that is tried again. */
  lemma BodyGoesLast(m: Row, r: Result, on: bool)
    ensures var todo := Plan(m, r, on);
            && (DropBody in todo <==> r.PermanentError? || (r.Settled? && r.res.deferred == []))
            && (DropBody in todo ==> todo[|todo| - 1] == DropBody && DropBody !in todo[..|todo| - 1])
  {
    hide ShouldBounce;
  }

  // ----- releasing what was held -----

  /** A message that an administrator lets go is claimed by the next pass, if its domain is enabled and up, or it is outbound. */
  lemma UnheldIsClaimable(s: State, id: Id, now: Time, d: Domains)
    requires Enabled(s, Unhold(id, now)) && s.rows[id].domain in d.enabled
    ensures var rows := Next(s, Unhold(id, now)).rows;
            if s.rows[id].outbound then id in ClaimableIds(rows, Outbound, d, now)
            else id in ClaimableIds(rows, Inbound, d, now) <==> s.rows[id].domain in d.up
  {
    StoredOrder(now, now, now);
    hide NotAfter;
  }

  // ----- what an attempt adds to the history -----

  /** The history after an attempt: who took the mail, whom the sender gives up, and who was really refused. */
  lemma AttemptRecorded(s: State, i: nat, result: Result, refused: set<string>, bounces: bool, id: Id, r: string)
    requires Enabled(s, Attempt(i, result, refused, bounces))
    ensures var t, u := s.tasks[i], Next(s, Attempt(i, result, refused, bounces));
            var took := (result.Settled? && r in result.res.accepted) || (result.TransientError? && r in result.taken);
            var gone := (result.Settled? && r in result.res.rejected) || (result.PermanentError? && r in t.m.to);
            && ((id, r) in u.delivered <==> (id, r) in s.delivered || (id == t.id && took))
            && ((id, r) in u.givenUp <==> (id, r) in s.givenUp || (id == t.id && gone))
            && ((id, r) in u.refused <==> (id, r) in s.refused || (id == t.id && r in refused))
  {
    hide Plan;
  }
}
