// The outbox over whole runs: events come in, the old ones are purged, subscriptions change, drains fail
// half-way, and the process restarts. Every event behind the cursor has been enqueued for everybody who wanted it.

module WebhookRuns {
  import opened Options
  import opened Webhook

  /** The tables, and history: where tailing started, the subscriptions each event was enqueued for, the events purged
      from the log before the cursor reached them, every event ever recorded, and whether anything failed. */
  datatype State = State(
    log: seq<Event>, hooks: seq<Hook>, meta: Option<nat>, rows: seq<Row>, tailing: Option<nat>,
    start: nat, covered: map<nat, seq<Hook>>, missed: set<nat>, recorded: map<nat, Event>, faults: bool)

  datatype Step =
    | Record(e: Event)
    | PurgeLog(n: nat)
    | SetHooks(hooks: seq<Hook>)
    | Begin(saveOk: bool)
    | Tick(failing: Option<nat>, saveOk: bool)
    | Crash

  ghost predicate DistinctHooks(hooks: seq<Hook>) {
    forall i, j :: 0 <= i < j < |hooks| ==> hooks[i].id != hooks[j].id
  }

  ghost predicate Enabled(s: State, t: Step) {
    match t
    case Record(e) => e.id > Head(s.log)
    case PurgeLog(n) => n < |s.log|
    case SetHooks(hooks) => DistinctHooks(hooks)
    case _ => true
  }

  /** How many enqueues of a drain happen. */
  function Reached(failing: Option<nat>, want: nat): nat {
    if failing.Some? then MinNat(failing.value, want) else want
  }

  function Ticked(s: State, failing: Option<nat>, saveOk: bool): State
    requires s.tailing.Some?
  {
    var events := Batch(s.log, s.tailing.value);
    var want := RowsOf(events, s.hooks);
    var rows := s.rows + want[..Reached(failing, |want|)];
    if events == [] then s
    else if Reached(failing, |want|) < |want| || !saveOk then s.(rows := rows, faults := true)
    else
      var last := Some(events[|events| - 1].id);
      s.(rows := rows, meta := last, tailing := last,
         covered := s.covered + map e | e in events :: e.id := s.hooks)
  }

  ghost function Next(s: State, t: Step): State
    requires Enabled(s, t)
  {
    match t
    case Record(e) => s.(log := s.log + [e], recorded := s.recorded[e.id := e])
    case PurgeLog(n) =>
      s.(log := s.log[n..],
         missed := s.missed + set e | e in s.log[..n] && s.meta.Some? && e.id > s.meta.value :: e.id)
    case SetHooks(hooks) => s.(hooks := hooks)
    case Begin(saveOk) =>
      if s.meta.Some? then s.(tailing := s.meta)
      else if saveOk then s.(meta := Some(Head(s.log)), tailing := Some(Head(s.log)), start := Head(s.log))
      else s
    case Tick(failing, saveOk) => if s.tailing.Some? then Ticked(s, failing, saveOk) else s
    case Crash => s.(tailing := None)
  }

  // ----- the log -----

  ghost predicate Increasing(log: seq<Event>) {
    forall i, j :: 0 <= i < j < |log| ==> log[i].id < log[j].id
  }

  lemma {:induction false} AfterIs(log: seq<Event>, cursor: nat)
    requires Increasing(log)
    ensures Increasing(After(log, cursor))
    ensures forall e :: e in After(log, cursor) <==> e in log && e.id > cursor
  {
    if log != [] {
      var init, last := log[..|log| - 1], log[|log| - 1];
      AfterIs(init, cursor);
      assert log == init + [last];
      assert forall e :: e in init ==> e.id < last.id;
    }
  }

  lemma BatchIs(log: seq<Event>, cursor: nat)
    requires Increasing(log)
    ensures var b := Batch(log, cursor);
            && Increasing(b)
            && (forall e :: e in b ==> e in log && e.id > cursor)
            && (b != [] ==> forall e :: e in log && cursor < e.id <= b[|b| - 1].id ==> e in b)
            && (b == [] ==> forall e :: e in log ==> e.id <= cursor)
  {
    AfterIs(log, cursor);
    var all, b := After(log, cursor), Batch(log, cursor);
    hide After;
    assert forall e :: e in b ==> e in all;
    if b != [] {
      forall e | e in log && cursor < e.id <= b[|b| - 1].id
        ensures e in b
      {
        var i :| 0 <= i < |all| && all[i] == e;
        assert b[|b| - 1] == all[|b| - 1];
        assert i < |b| && b[i] == e;
      }
    } else {
      assert all == [];
    }
  }

  // ----- what a drain enqueues -----

  function Count(rows: seq<Row>, r: Row): nat {
    multiset(rows)[r]
  }

  lemma CountAppend(a: seq<Row>, b: seq<Row>, r: Row)
    ensures Count(a + b, r) == Count(a, r) + Count(b, r)
  {
  }

  /** The row is what the event calls for, given these subscriptions. */
  ghost predicate CalledBy(e: Event, hooks: seq<Hook>, r: Row) {
    r.event == e.id && exists h :: h in hooks && h.id == r.hook && Due(e, h)
  }

  ghost predicate Called(events: seq<Event>, hooks: seq<Hook>, r: Row) {
    exists e :: e in events && CalledBy(e, hooks, r)
  }

  lemma CalledBySnoc(e: Event, init: seq<Hook>, h: Hook, r: Row)
    requires DistinctHooks(init + [h])
    ensures CalledBy(e, init + [h], r) <==> CalledBy(e, init, r) || (r == Row(h.id, e.id) && Due(e, h))
    ensures r == Row(h.id, e.id) ==> !CalledBy(e, init, r)
  {
    hide Due;
    assert (init + [h])[|init|] == h;
    forall g | g in init
      ensures g.id != h.id
    {
      var i :| 0 <= i < |init| && init[i] == g;
      assert (init + [h])[i] == g;
    }
  }

  lemma {:induction false} CountFor(e: Event, hooks: seq<Hook>, r: Row)
    requires DistinctHooks(hooks)
    ensures Count(RowsFor(e, hooks), r) == if CalledBy(e, hooks, r) then 1 else 0
  {
    if hooks == [] {
      assert RowsFor(e, hooks) == [];
    } else {
      var init, h := hooks[..|hooks| - 1], hooks[|hooks| - 1];
      assert hooks == init + [h];
      CountFor(e, init, r);
      CalledBySnoc(e, init, h, r);
      assert Count([Row(h.id, e.id)], r) == if r == Row(h.id, e.id) then 1 else 0;
      assert Count([], r) == 0;
      hide Due, CalledBy, Count, DistinctHooks;
      CountAppend(RowsFor(e, init), if Due(e, h) then [Row(h.id, e.id)] else [], r);
    }
  }

  lemma CalledSnoc(init: seq<Event>, e: Event, hooks: seq<Hook>, r: Row)
    requires Increasing(init + [e])
    ensures Called(init + [e], hooks, r) <==> Called(init, hooks, r) || CalledBy(e, hooks, r)
    ensures CalledBy(e, hooks, r) ==> !Called(init, hooks, r)
  {
    hide Due;
    var events := init + [e];
    assert events[|init|] == e;
    forall x | x in init
      ensures x in events && x.id < e.id
    {
      var i :| 0 <= i < |init| && init[i] == x;
      assert events[i] == x;
    }
    assert forall x :: x in events <==> x in init || x == e;
  }

  /** Every event of the drain is enqueued exactly once for every subscription it is due to, and nothing else is. */
  lemma {:induction false} CountOf(events: seq<Event>, hooks: seq<Hook>, r: Row)
    requires DistinctHooks(hooks) && Increasing(events)
    ensures Count(RowsOf(events, hooks), r) == if Called(events, hooks, r) then 1 else 0
  {
    if events == [] {
      assert RowsOf(events, hooks) == [];
    } else {
      var init, e := events[..|events| - 1], events[|events| - 1];
      assert events == init + [e];
      CountOf(init, hooks, r);
      CountFor(e, hooks, r);
      CalledSnoc(init, e, hooks, r);
      hide Called, CalledBy, RowsFor, Count, Increasing, DistinctHooks;
      CountAppend(RowsOf(init, hooks), RowsFor(e, hooks), r);
    }
  }

  // ----- what every step keeps -----

  ghost predicate LogOk(s: State) {
    && Increasing(s.log) && DistinctHooks(s.hooks)
    && (forall e :: e in s.log ==> e.id in s.recorded && s.recorded[e.id] == e)
    && (forall id :: id in s.recorded ==> s.recorded[id].id == id && id <= Head(s.log))
  }

  ghost predicate CursorOk(s: State) {
    && (s.tailing.Some? ==> s.meta == s.tailing)
    && (s.meta.Some? ==> s.start <= s.meta.value <= Head(s.log))
    && (s.meta.None? ==> s.covered == map[] && s.rows == [])
  }

  /** Nothing recorded after the start is skipped: it was covered, or purged unseen, or is still ahead in the log. */
  ghost predicate SeenOk(s: State) {
    s.meta.Some? ==> forall id :: id in s.recorded && id > s.start ==>
      id in s.missed || (if id <= s.meta.value then id in s.covered else s.recorded[id] in s.log)
  }

  /** What the covered events called for. */
  ghost predicate Owed(s: State, r: Row) {
    && r.event in s.covered && r.event in s.recorded
    && exists h :: h in s.covered[r.event] && h.id == r.hook && Due(s.recorded[r.event], h)
  }

  ghost predicate CoveredOk(s: State) {
    && (forall id :: id in s.covered ==> id in s.recorded && s.meta.Some? && s.start < id <= s.meta.value)
    && (forall r :: Owed(s, r) ==> Count(s.rows, r) >= 1)
  }

  /** Without a fault, exactly the rows that are owed, each once. */
  ghost predicate ExactOk(s: State) {
    !s.faults ==> forall r :: Count(s.rows, r) == if Owed(s, r) then 1 else 0
  }

  ghost predicate Inv(s: State) {
    LogOk(s) && CursorOk(s) && SeenOk(s) && CoveredOk(s) && ExactOk(s)
  }

  /** What is owed, and what has been enqueued, stands while the rows and the covered events do. */
  lemma StillOwed(s: State, u: State)
    requires CoveredOk(s) && ExactOk(s) && u.rows == s.rows && u.covered == s.covered && u.faults == s.faults
    requires forall id :: id in s.covered ==> id in u.recorded && u.recorded[id] == s.recorded[id]
    requires u.covered != map[] ==> u.start == s.start && u.meta == s.meta
    ensures CoveredOk(u) && ExactOk(u)
  {
    hide Due, Count;
    forall r
      ensures Owed(u, r) == Owed(s, r)
    {
    }
    hide Owed;
  }

  lemma RecordIncreasing(log: seq<Event>, e: Event)
    requires Increasing(log) && e.id > Head(log)
    ensures Increasing(log + [e])
  {
  }

  lemma RecordLog(s: State, e: Event)
    requires LogOk(s) && Enabled(s, Record(e))
    ensures LogOk(Next(s, Record(e)))
  {
    RecordIncreasing(s.log, e);
    hide Increasing, DistinctHooks;
    var u := Next(s, Record(e));
    assert forall x :: x in u.log <==> x in s.log || x == e;
    assert forall x :: x in s.log ==> x.id <= Head(s.log);
  }

  lemma RecordSeen(s: State, e: Event)
    requires LogOk(s) && CursorOk(s) && SeenOk(s) && Enabled(s, Record(e))
    ensures CursorOk(Next(s, Record(e))) && SeenOk(Next(s, Record(e)))
  {
    hide Increasing, DistinctHooks;
    var u := Next(s, Record(e));
    assert forall x :: x in s.log || x == e ==> x in u.log;
  }

  lemma RecordStep(s: State, e: Event)
    requires Inv(s) && Enabled(s, Record(e))
    ensures Inv(Next(s, Record(e)))
  {
    assert forall id :: id in s.covered ==> id in s.recorded && id < e.id;
    hide LogOk, CursorOk, SeenOk, CoveredOk, ExactOk;
    RecordLog(s, e);
    RecordSeen(s, e);
    StillOwed(s, Next(s, Record(e)));
  }

  lemma PurgeLogOk(s: State, n: nat)
    requires LogOk(s) && CursorOk(s) && Enabled(s, PurgeLog(n))
    ensures LogOk(Next(s, PurgeLog(n))) && CursorOk(Next(s, PurgeLog(n)))
  {
    var u := Next(s, PurgeLog(n));
    assert forall x :: x in u.log ==> x in s.log;
    assert Head(u.log) == Head(s.log);
  }

  lemma PurgeSeen(s: State, n: nat)
    requires LogOk(s) && SeenOk(s) && Enabled(s, PurgeLog(n))
    ensures SeenOk(Next(s, PurgeLog(n)))
  {
    hide Increasing, DistinctHooks;
    var u := Next(s, PurgeLog(n));
    assert s.log == s.log[..n] + u.log;
    assert forall x :: x in s.log <==> x in s.log[..n] || x in u.log;
  }

  lemma PurgeStep(s: State, n: nat)
    requires Inv(s) && Enabled(s, PurgeLog(n))
    ensures Inv(Next(s, PurgeLog(n)))
  {
    assert forall id :: id in s.covered ==> id in s.recorded;
    hide LogOk, CursorOk, SeenOk, CoveredOk, ExactOk;
    PurgeLogOk(s, n);
    PurgeSeen(s, n);
    StillOwed(s, Next(s, PurgeLog(n)));
  }

  lemma BeginStep(s: State, saveOk: bool)
    requires Inv(s)
    ensures Inv(Next(s, Begin(saveOk)))
  {
    assert forall id :: id in s.covered ==> id in s.recorded;
    hide CoveredOk, ExactOk, Increasing, DistinctHooks;
    StillOwed(s, Next(s, Begin(saveOk)));
  }

  lemma PrefixCount(a: seq<Row>, b: seq<Row>, k: nat, r: Row)
    requires k <= |b|
    ensures Count(a + b[..k], r) >= Count(a, r)
  {
    CountAppend(a, b[..k], r);
  }

  lemma FaultyTick(s: State, failing: Option<nat>, saveOk: bool)
    requires Inv(s) && s.tailing.Some?
    requires var want := RowsOf(Batch(s.log, s.tailing.value), s.hooks); Reached(failing, |want|) < |want| || !saveOk
    ensures Inv(Next(s, Tick(failing, saveOk)))
  {
    hide Due, Batch, RowsOf, Count;
    var want := RowsOf(Batch(s.log, s.tailing.value), s.hooks);
    var u := Next(s, Tick(failing, saveOk));
    if u != s {
      MoreRows(s, u, want, Reached(failing, |want|));
    }
  }

  /** A drain that does not finish may add rows, and counts as a fault. */
  lemma MoreRows(s: State, u: State, want: seq<Row>, k: nat)
    requires Inv(s) && s.tailing.Some? && k <= |want| && u == s.(rows := s.rows + want[..k], faults := true)
    ensures Inv(u)
  {
    hide Due, Count;
    forall r
      ensures Owed(u, r) == Owed(s, r)
    {
    }
    forall r | Owed(u, r)
      ensures Count(u.rows, r) >= 1
    {
      PrefixCount(s.rows, want, k, r);
    }
  }

  lemma LastOfLog(s: State, events: seq<Event>)
    requires LogOk(s) && events != [] && forall e :: e in events ==> e in s.log
    ensures events[|events| - 1].id <= Head(s.log)
  {
    assert events[|events| - 1] in events;
  }

  /** After a clean drain a row is owed if it was before, or if the drain enqueued it; not both. */
  lemma OwedAfter(s: State, events: seq<Event>, u: State, r: Row)
    requires LogOk(s) && CursorOk(s) && CoveredOk(s) && s.tailing.Some?
    requires forall e :: e in events ==> e in s.log && e.id > s.tailing.value
    requires u.covered == s.covered + (map e | e in events :: e.id := s.hooks) && u.recorded == s.recorded
    ensures Owed(u, r) <==> Owed(s, r) || Called(events, s.hooks, r)
    ensures Owed(s, r) ==> !Called(events, s.hooks, r)
  {
    hide Due;
    if e :| e in events && e.id == r.event {
      assert s.recorded[e.id] == e && r.event !in s.covered;
      assert u.covered[r.event] == s.hooks;
    }
  }

  lemma CleanTickRows(s: State, u: State, events: seq<Event>)
    requires Inv(s) && s.tailing.Some? && Increasing(events)
    requires forall e :: e in events ==> e in s.log && e.id > s.tailing.value
    requires u.covered == s.covered + (map e | e in events :: e.id := s.hooks) && u.recorded == s.recorded
    requires u.rows == s.rows + RowsOf(events, s.hooks)
    ensures forall r :: Owed(u, r) ==> Count(u.rows, r) >= 1
    ensures !s.faults ==> forall r :: Count(u.rows, r) == if Owed(u, r) then 1 else 0
  {
    forall r
      ensures Owed(u, r) ==> Count(u.rows, r) >= 1
      ensures !s.faults ==> Count(u.rows, r) == if Owed(u, r) then 1 else 0
    {
      OwedAfter(s, events, u, r);
      CountOf(events, s.hooks, r);
      CountAppend(s.rows, RowsOf(events, s.hooks), r);
      hide Owed, Count, RowsOf, Due, Increasing, Called;
    }
  }

  lemma CleanTickMoves(s: State, failing: Option<nat>, saveOk: bool)
    requires LogOk(s) && s.tailing.Some? && Batch(s.log, s.tailing.value) != [] && saveOk
    requires var want := RowsOf(Batch(s.log, s.tailing.value), s.hooks); Reached(failing, |want|) == |want|
    ensures var u, events := Next(s, Tick(failing, saveOk)), Batch(s.log, s.tailing.value);
            MovedOver(s, u, events) && u.rows == s.rows + RowsOf(events, s.hooks) && u.faults == s.faults
  {
    var events := Batch(s.log, s.tailing.value);
    var want := RowsOf(events, s.hooks);
    BatchIs(s.log, s.tailing.value);
    LastOfLog(s, events);
    hide Batch, RowsOf, Increasing, Reached;
    assert want[..|want|] == want;
  }

  lemma CleanTickOwed(s: State, u: State, events: seq<Event>)
    requires Inv(s) && MovedOver(s, u, events) && u.rows == s.rows + RowsOf(events, s.hooks) && u.faults == s.faults
    ensures CoveredOk(u) && ExactOk(u)
  {
    hide RowsOf, Due, Count, Owed, Increasing;
    CleanTickRows(s, u, events);
    MovedCovered(s, u, events);
  }

  lemma CleanTick(s: State, failing: Option<nat>, saveOk: bool)
    requires Inv(s) && s.tailing.Some? && Batch(s.log, s.tailing.value) != [] && saveOk
    requires var want := RowsOf(Batch(s.log, s.tailing.value), s.hooks); Reached(failing, |want|) == |want|
    ensures Inv(Next(s, Tick(failing, saveOk)))
  {
    var events := Batch(s.log, s.tailing.value);
    var u := Next(s, Tick(failing, saveOk));
    hide Batch, RowsOf, Reached, Next, LogOk, CursorOk, SeenOk, CoveredOk, ExactOk, MovedOver, Enabled;
    CleanTickMoves(s, failing, saveOk);
    CleanTickOwed(s, u, events);
    CleanTickCursor(s, u, events);
  }

  lemma LastIsGreatest(events: seq<Event>, e: Event)
    requires Increasing(events) && e in events
    ensures e.id <= events[|events| - 1].id
  {
    var i :| 0 <= i < |events| && events[i] == e;
  }

  /** The cursor moved over `events`, which the drain covered for the present subscriptions. */
  ghost predicate MovedOver(s: State, u: State, events: seq<Event>) {
    && s.tailing.Some? && events != [] && Increasing(events)
    && (forall e :: e in events ==> e in s.log && e.id > s.tailing.value)
    && (forall e :: e in s.log && s.tailing.value < e.id <= events[|events| - 1].id ==> e in events)
    && events[|events| - 1].id <= Head(s.log)
    && var last := Some(events[|events| - 1].id);
       u == s.(rows := u.rows, meta := last, tailing := last, covered := s.covered + map e | e in events :: e.id := s.hooks)
  }

  lemma MovedSeen(s: State, u: State, events: seq<Event>)
    requires LogOk(s) && CursorOk(s) && SeenOk(s) && MovedOver(s, u, events)
    ensures SeenOk(u)
  {
    hide Increasing;
    forall id | id in s.recorded && id > s.start && id !in s.missed
      ensures if id <= u.meta.value then id in u.covered else s.recorded[id] in s.log
    {
      if s.meta.value < id <= u.meta.value {
        assert s.recorded[id] in events;
      }
    }
  }

  lemma MovedCovered(s: State, u: State, events: seq<Event>)
    requires LogOk(s) && CursorOk(s) && CoveredOk(s) && MovedOver(s, u, events)
    ensures forall id :: id in u.covered ==> id in u.recorded && u.meta.Some? && u.start < id <= u.meta.value
  {
    forall id | id in u.covered
      ensures id in u.recorded && u.start < id <= u.meta.value
    {
      hide Increasing, Owed;
      LastIsGreatest(events, events[|events| - 1]);
      if e :| e in events && e.id == id {
        LastIsGreatest(events, e);
      }
    }
  }

  lemma CleanTickCursor(s: State, u: State, events: seq<Event>)
    requires Inv(s) && MovedOver(s, u, events)
    ensures LogOk(u) && CursorOk(u) && SeenOk(u)
    ensures forall id :: id in u.covered ==> id in u.recorded && u.meta.Some? && u.start < id <= u.meta.value
  {
    MovedSeen(s, u, events);
    MovedCovered(s, u, events);
    MovedCursor(s, u, events);
    hide SeenOk, CoveredOk, ExactOk, LogOk, CursorOk, MovedOver;
  }

  lemma MovedCursor(s: State, u: State, events: seq<Event>)
    requires LogOk(s) && CursorOk(s) && MovedOver(s, u, events)
    ensures LogOk(u) && CursorOk(u)
  {
    var last := events[|events| - 1];
    assert last in events;
    hide Increasing, DistinctHooks;
  }

  lemma StepKeeps(s: State, t: Step)
    requires Inv(s) && Enabled(s, t)
    ensures Inv(Next(s, t))
  {
    match t
    case Record(e) => RecordStep(s, e);
    case PurgeLog(n) => PurgeStep(s, n);
    case Begin(saveOk) => BeginStep(s, saveOk);
    case Tick(failing, saveOk) => TickStep(s, failing, saveOk);
    case SetHooks(hooks) => HooksStep(s, hooks);
    case Crash => CrashStep(s);
  }

  lemma TickStep(s: State, failing: Option<nat>, saveOk: bool)
    requires Inv(s)
    ensures Inv(Next(s, Tick(failing, saveOk)))
  {
    hide Inv, Batch, RowsOf;
    if s.tailing.Some? && Batch(s.log, s.tailing.value) != [] {
      var want := RowsOf(Batch(s.log, s.tailing.value), s.hooks);
      if Reached(failing, |want|) < |want| || !saveOk {
        FaultyTick(s, failing, saveOk);
      } else {
        CleanTick(s, failing, saveOk);
      }
    }
  }

  lemma HooksStep(s: State, hooks: seq<Hook>)
    requires Inv(s) && Enabled(s, SetHooks(hooks))
    ensures Inv(Next(s, SetHooks(hooks)))
  {
    hide Due, Count;
    assert forall r :: Owed(Next(s, SetHooks(hooks)), r) == Owed(s, r);
  }

  lemma CrashStep(s: State)
    requires Inv(s)
    ensures Inv(Next(s, Crash))
  {
    hide Due, Count;
    assert forall r :: Owed(Next(s, Crash), r) == Owed(s, r);
  }

  ghost predicate Run(s: State, steps: seq<Step>, u: State)
    decreases |steps|
  {
    if steps == [] then s == u else Enabled(s, steps[0]) && Run(Next(s, steps[0]), steps[1..], u)
  }

  const START := State([], [], None, [], None, 0, map[], {}, map[], false)

  lemma StartOk()
    ensures Inv(START)
  {
    hide Due;
    assert forall r :: Count([], r) == 0;
  }

  lemma {:induction false} RunKeeps(s: State, steps: seq<Step>, u: State)
    requires Inv(s) && Run(s, steps, u)
    ensures Inv(u)
    decreases |steps|
  {
    hide Inv, Enabled, Next;
    if steps != [] {
      StepKeeps(s, steps[0]);
      RunKeeps(Next(s, steps[0]), steps[1..], u);
    }
  }

  /** In every run, an event recorded after the start and not beyond the stored cursor was purged unseen, or was covered
      by a drain and enqueued at least once for each subscription that wanted it then: exactly once if nothing failed. */
  lemma EveryEventEnqueued(steps: seq<Step>, s: State, id: nat, h: Hook)
    requires Run(START, steps, s) && s.meta.Some?
    requires id in s.recorded && s.start < id <= s.meta.value && id !in s.missed
    ensures id in s.covered
    ensures var e := s.recorded[id];
            h in s.covered[id] && h.enabled && (h.events == [] || e.kind in h.events) && e.renders ==>
              Count(s.rows, Row(h.id, id)) >= 1 && (!s.faults ==> Count(s.rows, Row(h.id, id)) == 1)
  {
    hide Inv, Run, Count;
    StartOk();
    RunKeeps(START, steps, s);
    EnqueuedNow(s, id, h);
  }

  lemma EnqueuedNow(s: State, id: nat, h: Hook)
    requires Inv(s) && s.meta.Some? && id in s.recorded && s.start < id <= s.meta.value && id !in s.missed
    ensures id in s.covered
    ensures h in s.covered[id] && Due(s.recorded[id], h) ==>
              Count(s.rows, Row(h.id, id)) >= 1 && (!s.faults ==> Count(s.rows, Row(h.id, id)) == 1)
  {
    hide Due, Count;
    if h in s.covered[id] && Due(s.recorded[id], h) {
      assert Owed(s, Row(h.id, id));
    }
  }

  /** Without a failure nothing else is enqueued: a row belongs to a covered event and a subscription that wanted it. */
  lemma NothingElseEnqueued(steps: seq<Step>, s: State, r: Row)
    requires Run(START, steps, s) && !s.faults && r in s.rows
    ensures r.event in s.covered && r.event in s.recorded
    ensures var e := s.recorded[r.event];
            e.renders && exists h :: h in s.covered[r.event] && h.id == r.hook && h.enabled && (h.events == [] || e.kind in h.events)
  {
    OwedMeans(s, r);
    hide Inv, Run, Owed;
    StartOk();
    RunKeeps(START, steps, s);
    assert Inv(s) ==> ExactOk(s) by { InvParts(s); }
    assert Count(s.rows, r) >= 1;
  }

  lemma OwedMeans(s: State, r: Row)
    ensures Owed(s, r) ==>
              && r.event in s.covered && r.event in s.recorded
              && var e := s.recorded[r.event];
                 e.renders && exists h :: h in s.covered[r.event] && h.id == r.hook && h.enabled && (h.events == [] || e.kind in h.events)
  {
  }

  lemma InvParts(s: State)
    ensures Inv(s) ==> ExactOk(s)
  {
    hide LogOk, CursorOk, SeenOk, CoveredOk, ExactOk;
  }

  // ----- the tailer's code takes these steps -----

  ghost predicate Holds(d: Dispatcher, s: State)
    reads d
  {
    d.log == s.log && d.hooks == s.hooks && d.meta == s.meta && d.rows == s.rows && d.tailing == s.tailing
  }

  lemma TickedIs(s: State, failing: Option<nat>, saveOk: bool)
    requires s.tailing.Some? && s.meta == s.tailing
    ensures var u, events := Next(s, Tick(failing, saveOk)), Batch(s.log, s.tailing.value);
            var want := RowsOf(events, s.hooks);
            var done := events == [] || ((failing.None? || failing.value >= |want|) && saveOk);
            && u.log == s.log && u.hooks == s.hooks && u.tailing == u.meta
            && u.meta == (if done && events != [] then Some(events[|events| - 1].id) else s.meta)
            && u.rows == s.rows + want[..if failing.Some? then MinNat(failing.value, |want|) else |want|]
  {
    var events := Batch(s.log, s.tailing.value);
    assert events == [] ==> RowsOf(events, s.hooks) == [];
    hide RowsOf, Batch;
    assert s.rows + [] == s.rows;
  }

  method TickTaken(d: Dispatcher, ghost s: State, failing: Option<nat>, saveOk: bool) returns (ghost u: State)
    requires d.Valid() && Holds(d, s)
    modifies d
    ensures u == Next(s, Tick(failing, saveOk)) && Holds(d, u) && d.Valid()
  {
    u := Next(s, Tick(failing, saveOk));
    if d.tailing.Some? {
      TickedIs(s, failing, saveOk);
    }
    hide RowsOf, Batch, Next, MinNat;
    assert s.tailing.None? ==> u == s by { NotTailing(s, failing, saveOk); }
    d.Tick(failing, saveOk);
  }

  lemma NotTailing(s: State, failing: Option<nat>, saveOk: bool)
    ensures s.tailing.None? ==> Next(s, Tick(failing, saveOk)) == s
  {
    hide Ticked;
  }

  method BeginTaken(d: Dispatcher, ghost s: State, saveOk: bool) returns (ghost u: State)
    requires d.Valid() && Holds(d, s) && s.tailing.None?
    modifies d
    ensures u == Next(s, Begin(saveOk)) && Holds(d, u) && d.Valid()
  {
    u := Next(s, Begin(saveOk));
    d.Begin(saveOk);
  }

  // ----- what one drain takes on -----

  lemma {:induction false} AfterIsTail(log: seq<Event>, cursor: nat, k: nat)
    requires k <= |log| && (forall i :: 0 <= i < k ==> log[i].id <= cursor) && forall i :: k <= i < |log| ==> log[i].id > cursor
    ensures After(log, cursor) == log[k..]
  {
    if log != [] {
      var n := |log| - 1;
      if k <= n {
        AfterIsTail(log[..n], cursor, k);
        assert log[k..] == log[..n][k..] + [log[n]];
      } else {
        AfterIsTail(log[..n], cursor, n);
      }
    }
  }

  /** A drain takes on the first 200 events behind the cursor, or all of them; in a log in order they start at number `k`. */
  lemma BatchExactly(log: seq<Event>, cursor: nat, k: nat)
    requires k <= |log| && (forall i :: 0 <= i < k ==> log[i].id <= cursor) && forall i :: k <= i < |log| ==> log[i].id > cursor
    ensures Batch(log, cursor) == if |log| - k <= 200 then log[k..] else log[k..k + 200]
  {
    AfterIsTail(log, cursor, k);
    hide After;
  }
}
