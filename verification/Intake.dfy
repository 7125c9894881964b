// internal/smtpd/smtpd.go: how a message is taken in. The body goes to the spool, then the row to the
// queue, then the peer is told; on every refusal the body is removed again.

module Intake {
  import opened Options
  import opened Clock
  import opened Blob
  import opened BlobStore
  import opened Queue
  import opened QueueProtocol

  datatype Filtered = FilterPasses | FilterHolds | FilterRejects

  /** `SpamDefers` is a deferral with the configuration that honours it. */
  datatype Judged = SpamPasses | SpamDefers | SpamRejects

  datatype Scanned = ScanPasses | ScanHolds | ScanRejects

  /** What an intake meets outside the two stores: configuration, verdicts, and which writes fail. `domainHours` is the
      domain's own retention, 0 if it has none or cannot be read. */
  datatype Surroundings = Surroundings(
    looping: bool, trace: Bytes, maxMessageBytes: int, salt: Bytes, diskOk: bool, removeOk: bool,
    filter: Filtered, spam: Judged, scan: Scanned, authenticated: bool,
    now: Time, retention: nat, domainHours: int, insertOk: bool, holdOk: bool)

  datatype Reply = Accepted | NoRecipients | MailLoop | TooBig | Rejected | TryLater

  predicate Unwanted(w: Surroundings) {
    w.filter == FilterRejects || w.spam != SpamPasses || w.scan == ScanRejects
  }

  predicate HeldBack(w: Surroundings) {
    w.filter == FilterHolds || w.scan == ScanHolds
  }

  // ----- the step as a run of the queue protocol -----

  ghost predicate Mirrors(s: State, rows: Rows, files: map<string, Bytes>) {
    s.rows == rows && s.spool == files.Keys
  }

  /** Between `s` and `u` nothing happened but the intake of `id`. */
  ghost predicate TookIn(s: State, u: State, id: Id, to: seq<string>, accepted: bool) {
    && Reachable(u) && u.tasks == s.tasks && u.phase == s.phase && u.purged == s.purged
    && u.delivered == s.delivered && u.givenUp == s.givenUp && u.refused == s.refused
    && u.entered == (if accepted then s.entered[id := to] else s.entered)
    && u.accepted == (if accepted then s.accepted + {id} else s.accepted)
  }

  lemma StepReaches(s: State, e: Event)
    requires Reachable(s) && Enabled(s, e)
    ensures Reachable(Next(s, e))
  {
    hide Enabled, Next, Run;
    var events :| Run(START, events, s);
    RunThen(START, events, s, e);
  }

  lemma SpoolReaches(s: State, id: Id, row: Row)
    requires Reachable(s) && id !in s.used
    ensures Reachable(s.(spool := s.spool + {id}, incoming := s.incoming[id := NewRow(row)], used := s.used + {id}))
  {
    StepReaches(s, Spool(id, row));
    hide Reachable;
  }

  lemma DropReaches(s: State, id: Id)
    requires Reachable(s) && id in s.incoming
    ensures Reachable(s.(spool := s.spool - {id}, incoming := s.incoming - {id}))
  {
    StepReaches(s, Drop(id));
    hide Reachable;
  }

  lemma EnterReaches(s: State, id: Id)
    requires Reachable(s) && id in s.incoming
    ensures Reachable(s.(rows := s.rows[id := s.incoming[id]], entered := s.entered[id := s.incoming[id].to], incoming := s.incoming - {id}))
  {
    StepReaches(s, Enter(id));
    hide Reachable;
  }

  lemma HoldReaches(s: State, id: Id)
    requires Reachable(s) && id in s.rows
    ensures Reachable(s.(rows := s.rows[id := s.rows[id].(held := true)]))
  {
    StepReaches(s, Hold(id));
    hide Reachable;
  }

  lemma AcceptReaches(s: State, id: Id)
    requires Reachable(s) && id in s.entered
    ensures Reachable(s.(accepted := s.accepted + {id}))
  {
    StepReaches(s, Accept(id));
    hide Reachable;
  }

  lemma SpoolIsUsed(s: State)
    requires Reachable(s)
    ensures s.spool <= s.used
  {
    ReachableInv(s);
    hide Answers, TaskOk;
  }

  /** A body that is stored, and removed again if that works. */
  lemma StoredAndRemoved(s: State, id: Id, row: Row, removed: bool) returns (u: State)
    requires Reachable(s) && id !in s.used
    ensures TookIn(s, u, id, row.to, false) && u.rows == s.rows && u.spool == if removed then s.spool else s.spool + {id}
  {
    hide Reachable;
    SpoolIsUsed(s);
    SpoolReaches(s, id, row);
    u := s.(spool := s.spool + {id}, incoming := s.incoming[id := NewRow(row)], used := s.used + {id});
    if removed {
      DropReaches(u, id);
      u := u.(spool := u.spool - {id}, incoming := u.incoming - {id});
      assert s.spool + {id} - {id} == s.spool;
    }
  }

  /** A body that is stored, a row that is written and perhaps held, and a peer that is told. */
  lemma StoredAndEntered(s: State, id: Id, row: Row, held: bool) returns (u: State)
    requires Reachable(s) && id !in s.used && row == NewRow(row)
    ensures TookIn(s, u, id, row.to, true) && u.rows == s.rows[id := row.(held := held)] && u.spool == s.spool + {id}
  {
    hide Reachable;
    SpoolReaches(s, id, row);
    u := s.(spool := s.spool + {id}, incoming := s.incoming[id := row], used := s.used + {id});
    EnterReaches(u, id);
    u := u.(rows := s.rows[id := row], entered := s.entered[id := row.to], incoming := u.incoming - {id});
    if held {
      HoldReaches(u, id);
      u := u.(rows := u.rows[id := row.(held := true)]);
      assert u.rows == s.rows[id := row.(held := true)];
    }
    AcceptReaches(u, id);
    u := u.(accepted := s.accepted + {id});
  }

  /** From every reachable state of the protocol that mirrors the two stores before, the intake leads to one
      that mirrors them after. */
  ghost predicate Refines(rows: Rows, files: map<string, Bytes>, newRows: Rows, newFiles: map<string, Bytes>, id: Id, to: seq<string>, accepted: bool) {
    forall s :: Reachable(s) && Mirrors(s, rows, files) && id !in s.used ==>
      exists u :: TookIn(s, u, id, to, accepted) && Mirrors(u, newRows, newFiles)
  }

  lemma RefusalRefines(rows: Rows, files: map<string, Bytes>, newFiles: map<string, Bytes>, id: Id, row: Row)
    requires id !in files ==> newFiles.Keys == files.Keys || newFiles.Keys == files.Keys + {id}
    ensures Refines(rows, files, rows, newFiles, id, row.to, false)
  {
    hide Reachable;
    forall s | Reachable(s) && Mirrors(s, rows, files) && id !in s.used
      ensures exists u :: TookIn(s, u, id, row.to, false) && Mirrors(u, rows, newFiles)
    {
      SpoolIsUsed(s);
      var u := StoredAndRemoved(s, id, row, newFiles.Keys == files.Keys);
      hide TookIn;
      assert Mirrors(u, rows, newFiles);
    }
  }

  lemma AcceptRefines(rows: Rows, files: map<string, Bytes>, newFiles: map<string, Bytes>, id: Id, row: Row, held: bool)
    requires newFiles.Keys == files.Keys + {id} && row == NewRow(row)
    ensures Refines(rows, files, rows[id := row.(held := held)], newFiles, id, row.to, true)
  {
    hide Reachable;
    forall s | Reachable(s) && Mirrors(s, rows, files) && id !in s.used
      ensures exists u :: TookIn(s, u, id, row.to, true) && Mirrors(u, rows[id := row.(held := held)], newFiles)
    {
      var u := StoredAndEntered(s, id, row, held);
      hide TookIn;
      assert Mirrors(u, rows[id := row.(held := held)], newFiles);
    }
  }

  lemma WrittenRemembers(s: State, i: nat, ok: bool, newId: Id, at: When)
    requires i < |s.tasks| && s.tasks[i].todo != []
    ensures var u := Written(s, i, ok, newId, at); u.entered == s.entered && u.accepted == s.accepted
  {
  }

  lemma StepRemembers(s: State, e: Event, id: Id)
    requires Enabled(s, e) && id in s.accepted && id in s.entered && id !in s.incoming
    ensures id in Next(s, e).accepted && id in Next(s, e).entered && Next(s, e).entered[id] == s.entered[id]
  {
    if e.Write? {
      WrittenRemembers(s, e.i, e.ok, e.newId, e.at);
    }
    hide Written, Plan, Taken, GivenUpBy, Named, TasksFor, ClaimedRows, ReleasedRows, ExpiredRows, KeptRows, NewRow, ClaimableIds;
  }

  lemma {:induction false} RunRemembers(s: State, events: seq<Event>, u: State, id: Id)
    requires Inv(s) && Run(s, events, u) && id in s.accepted && id in s.entered
    ensures id in u.accepted && id in u.entered && u.entered[id] == s.entered[id]
    decreases |events|
  {
    hide Inv, Enabled, Next;
    if events != [] {
      StepKeeps(s, events[0]);
      NotIncoming(s, id);
      StepRemembers(s, events[0], id);
      RunRemembers(Next(s, events[0]), events[1..], u, id);
    }
  }

  lemma {:induction false} RunReaches(s: State, events: seq<Event>, u: State)
    requires Reachable(s) && Run(s, events, u)
    ensures Reachable(u)
    decreases |events|
  {
    hide Reachable, Enabled, Next;
    if events != [] {
      StepReaches(s, events[0]);
      RunReaches(Next(s, events[0]), events[1..], u);
    }
  }

  /** From the moment the peer is told of success, whatever happens afterwards, every recipient it named is accounted for,
      unless the sender gives it up without a refusal; and if no attempt does that, without exception. */
  lemma AcceptedIsNeverLost(s: State, u: State, id: Id, to: seq<string>, events: seq<Event>, v: State, r: string)
    requires TookIn(s, u, id, to, true) && Run(u, events, v) && r in to
    ensures AccountedFor(v, id, r) || Wronged(v, id, r)
    ensures s.givenUp <= s.refused && FairRun(u, events, v) ==> AccountedFor(v, id, r)
  {
    hide Reachable, Inv, Run, FairRun, AccountedFor;
    ReachableInv(u);
    RunRemembers(u, events, v, id);
    RunReaches(u, events, v);
    NoRecipientLost(v, id, r);
    if s.givenUp <= s.refused && FairRun(u, events, v) {
      FairRunHistory(u, events, v);
    }
  }

  lemma WholeSealed(src: Source, maxBytes: int)
    requires !src.breaks && Fits(|src.data|, maxBytes)
    ensures ChunksSealed(src, maxBytes) == ChunkCount(src.data)
  {
  }

  lemma ReadsBack(keys: Bytes -> Aead, sealed: map<Bytes, Sealing>, salt: Bytes, body: Bytes)
    requires salt in sealed && sealed[salt] == Sealing(body, ChunkCount(body))
    ensures Ideal(keys, sealed) ==> DecodeFile(keys, PutFile(keys(salt), salt, body)) == Decoded(body, true)
  {
    if Ideal(keys, sealed) {
      RoundTrip(keys, sealed, salt);
    }
  }

  /** A message is not overdue before its retention is over, but for the last second, which text comparison blurs. */
  lemma KeptUntil(row: Row, at: Time)
    requires at + SECOND <= row.expiresAt
    ensures !Overdue(row, at)
  {
    LaterInText(row.expiresAt - at);
    assert Postponed(at, row.expiresAt - at);
    hide NotAfter;
  }

  /** The row of an accepted message: its envelope, the clock, the retention of its domain or else of the queue. */
  ghost predicate QueuedAs(r: Row, from: string, rcpts: seq<string>, domain: nat, w: Surroundings) {
    && r.from == from && r.to == rcpts && r.status == Queued && r.attempts == 0 && r.claimedAt == None
    && r.receivedAt == w.now && r.nextRetry == w.now
    && r.expiresAt == w.now + (if w.domainHours > 0 then w.domainHours * 3600 * SECOND else w.retention)
    && !r.outbound && r.authenticated == w.authenticated && r.domain == domain
    && r.held == ((w.filter == FilterHolds || w.scan == ScanHolds) && w.holdOk)
    && forall at :: at + SECOND <= r.expiresAt ==> !Overdue(r, at)
  }

  function RowFor(from: string, rcpts: seq<string>, domain: nat, w: Surroundings): Row {
    var kept := if w.domainHours > 0 then w.domainHours * 3600 * SECOND else w.retention;
    Row(from, rcpts, Queued, 0, w.now, w.now, w.now + kept, None, false, false, w.authenticated, domain)
  }

  lemma RowQueued(from: string, rcpts: seq<string>, domain: nat, w: Surroundings)
    ensures QueuedAs(RowFor(from, rcpts, domain, w).(held := HeldBack(w) && w.holdOk), from, rcpts, domain, w)
    ensures var r := RowFor(from, rcpts, domain, w);
            r.(status := Queued, attempts := 0, claimedAt := None, held := false) == r && r.(held := false) == r && r.to == rcpts
  {
    var r := RowFor(from, rcpts, domain, w).(held := HeldBack(w) && w.holdOk);
    forall at | at + SECOND <= r.expiresAt
      ensures !Overdue(r, at)
    {
      KeptUntil(r, at);
    }
  }

  // ----- the session -----

  class Session {
    var from: string
    var rcpts: seq<string>
    var domain: nat

    constructor (from: string, rcpts: seq<string>, domain: nat)
      ensures this.from == from && this.rcpts == rcpts && this.domain == domain
    {
      this.from, this.rcpts, this.domain := from, rcpts, domain;
    }

    /** Stores the body, asks for the verdicts, writes the row and holds it back if it has to. What is refused may have
        left its body. */
    method Offer(store: Store, queue: QueueStore, src: Source, id: Id, w: Surroundings) returns (reply: Reply)
      modifies store, queue
      ensures reply == Accepted <==>
                && w.filter != FilterRejects && w.spam == SpamPasses && w.scan != ScanRejects
                && ValidId(id) && id !in old(store.files) && id !in old(queue.rows)
                && !src.breaks && Fits(|w.trace| + |src.data|, w.maxMessageBytes + |w.trace|) && w.diskOk && w.insertOk
      ensures reply == Accepted ==>
                && queue.rows == old(queue.rows)[id := RowFor(from, rcpts, domain, w).(held := HeldBack(w) && w.holdOk)]
                && store.files == old(store.files)[id := PutFile(store.keys(w.salt), w.salt, w.trace + src.data)]
                && store.sealed == old(store.sealed)[w.salt := Sealing(w.trace + src.data, ChunkCount(w.trace + src.data))]
      ensures reply != Accepted ==> queue.rows == old(queue.rows)
      ensures store.files == old(store.files) || (id !in old(store.files) && ValidId(id) && store.files.Keys == old(store.files).Keys + {id})
      ensures forall k :: k in old(store.files) && k in store.files ==> store.files[k] == old(store.files)[k]
      ensures reply != NoRecipients && reply != MailLoop
      ensures reply == TooBig ==> !Fits(|w.trace| + |src.data|, w.maxMessageBytes + |w.trace|)
      ensures reply == Rejected <==>
                && ValidId(id) && id !in old(store.files)
                && !src.breaks && w.diskOk && Fits(|w.trace| + |src.data|, w.maxMessageBytes + |w.trace|)
                && (w.filter == FilterRejects || w.spam == SpamRejects || (w.spam == SpamPasses && w.scan == ScanRejects))
    {
      hide PutFile, ChunksSealed, ChunkCount, RowFor, QueuedAs;
      var put := store.Put(id, Source(w.trace + src.data, src.breaks), w.maxMessageBytes + |w.trace|, w.salt, w.diskOk);
      if !put.Stored? {
        reply := if put.TooLarge? then TooBig else TryLater;
      } else if Unwanted(w) {
        reply := if w.filter == FilterRejects || w.spam != SpamDefers then Rejected else TryLater;
      } else {
        var ok := false;
        if w.insertOk {
          ok := queue.Enqueue(id, RowFor(from, rcpts, domain, w));
        }
        RowQueued(from, rcpts, domain, w);
        reply := if ok then Accepted else TryLater;
      }
      if reply == Accepted {
        if HeldBack(w) && w.holdOk {
          var held := queue.Quarantine(id);
        }
        WholeSealed(Source(w.trace + src.data, src.breaks), w.maxMessageBytes + |w.trace|);
      }
    }

    /** Success means that the body is on the spool, whole, and a queued row names every recipient; anything else
        leaves no row, and no body but one that could not be removed. In both cases it is a run of the protocol. */
    method Data(store: Store, queue: QueueStore, src: Source, newId: Option<Id>, w: Surroundings) returns (reply: Reply)
      modifies store, queue
      ensures reply == Accepted <==>
                && domain != 0 && rcpts != [] && newId.Some? && !w.looping
                && w.filter != FilterRejects && w.spam == SpamPasses && w.scan != ScanRejects
                && ValidId(newId.value) && newId.value !in old(store.files) && newId.value !in old(queue.rows)
                && !src.breaks && Fits(|w.trace| + |src.data|, w.maxMessageBytes + |w.trace|) && w.diskOk && w.insertOk
      ensures reply == Accepted ==>
                && queue.rows.Keys == old(queue.rows).Keys + {newId.value}
                && (forall id :: id in old(queue.rows) ==> queue.rows[id] == old(queue.rows)[id])
                && QueuedAs(queue.rows[newId.value], from, rcpts, domain, w)
      ensures reply == Accepted ==>
                store.files == old(store.files)[newId.value := PutFile(store.keys(w.salt), w.salt, w.trace + src.data)]
      ensures reply == Accepted && Ideal(store.keys, store.sealed) ==>
                DecodeFile(store.keys, PutFile(store.keys(w.salt), w.salt, w.trace + src.data)) == Decoded(w.trace + src.data, true)
      ensures reply != Accepted ==>
                && queue.rows == old(queue.rows)
                && forall id :: id in store.files.Keys + old(store.files).Keys && Some(id) != newId ==>
                     id in store.files && id in old(store.files) && store.files[id] == old(store.files)[id]
      ensures reply != Accepted && newId.Some? && newId.value in store.files ==> newId.value in old(store.files) || !w.removeOk
      // A name that is taken: the message that has it keeps its body exactly if the refusal comes before the spool is touched,
      // or the removal fails. Names are random, and long.
      ensures newId.Some? && ValidId(newId.value) && newId.value in old(store.files) ==>
                && reply != Accepted
                && (newId.value in store.files <==> domain == 0 || rcpts == [] || w.looping || !w.removeOk)
                && (newId.value in store.files ==> store.files == old(store.files))
      // Which refusal it is: the verdicts count in the order filter, spam, malware, and only for a body that was stored.
      ensures reply == NoRecipients <==> domain == 0 || rcpts == []
      ensures reply == MailLoop <==> domain != 0 && rcpts != [] && newId.Some? && w.looping
      ensures reply == TooBig ==> !Fits(|w.trace| + |src.data|, w.maxMessageBytes + |w.trace|)
      ensures reply == Rejected <==>
                && domain != 0 && rcpts != [] && newId.Some? && !w.looping && ValidId(newId.value) && newId.value !in old(store.files)
                && !src.breaks && w.diskOk && Fits(|w.trace| + |src.data|, w.maxMessageBytes + |w.trace|)
                && (w.filter == FilterRejects || w.spam == SpamRejects || (w.spam == SpamPasses && w.scan == ScanRejects))
      ensures domain != 0 && rcpts != [] && !w.looping && !Unwanted(w) && Fits(|w.trace| + |src.data|, w.maxMessageBytes + |w.trace|) ==>
                reply == Accepted || reply == TryLater
      ensures newId.Some? ==> Refines(old(queue.rows), old(store.files), queue.rows, store.files, newId.value, rcpts, reply == Accepted)
    {
      hide Refines, Ideal, DecodeFile, PutFile, ChunkCount, QueuedAs, RowFor;
      RowQueued(from, rcpts, domain, w);
      if domain == 0 || |rcpts| == 0 || newId.None? || w.looping {
        if newId.Some? {
          RefusalRefines(queue.rows, store.files, store.files, newId.value, RowFor(from, rcpts, domain, w));
        }
        return if domain == 0 || |rcpts| == 0 then NoRecipients else if newId.None? then TryLater else MailLoop;
      }
      var id := newId.value;
      reply := Offer(store, queue, src, id, w);
      if reply != Accepted {
        if w.removeOk {
          var removed := store.Delete(id);
        }
        RefusalRefines(queue.rows, old(store.files), store.files, id, RowFor(from, rcpts, domain, w));
        return;
      }
      ReadsBack(store.keys, store.sealed, w.salt, w.trace + src.data);
      AcceptRefines(old(queue.rows), old(store.files), store.files, id, RowFor(from, rcpts, domain, w), HeldBack(w) && w.holdOk);
    }
  }
}
