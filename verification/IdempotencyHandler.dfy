/**
 The handler and its audit log as the objects the source has, updated in place, and the proof that
 one undisturbed call of `Handle` is a run of the protocol in `Idempotency`.
 */
module IdempotencyHandlers {
  import opened Wrappers
  import opened Idempotency

  /** Which audit statements of one call succeed, and what its worker does if it is run. */
  datatype Weather = Weather(
    fastRow: bool, fastBody: bool, row: bool, body: bool, write: bool, worker: Option<Response>)

  /** `threading.Lock`; `number` names the object. */
  class Lock {
    ghost const number: LockId
    var held: bool

    constructor (ghost number: LockId)
      ensures this.number == number && !held
    {
      this.number := number;
      held := false;
    }
  }

  class RefCountedLock {
    const lock: Lock
    var refs: int

    constructor (lock: Lock)
      ensures this.lock == lock && refs == 0
    {
      this.lock := lock;
      refs := 0;
    }
  }

  class AuditLog {
    var rows: Audit

    constructor (rows: Audit)
      ensures this.rows == rows
    {
      this.rows := rows;
    }

    /** The status column of the row, when the statement works and the row exists. */
    method Lookup(id: EventId, ok: bool) returns (status: Option<int>)
      ensures status == if ok && id in rows then Some(rows[id].status) else None
    {
      status := if ok && id in rows then Some(rows[id].status) else None;
    }

    method LookupResponse(id: EventId, ok: bool) returns (body: Option<string>)
      ensures body == if ok && id in rows then rows[id].body else None
    {
      body := if ok && id in rows then rows[id].body else None;
    }

    method Write(id: EventId, status: int, hit: bool, body: Option<string>, ok: bool) returns (persisted: bool)
      modifies this
      ensures persisted == ok
      ensures rows == if ok then Upsert(old(rows), id, status, hit, body) else old(rows)
    {
      if ok {
        rows := Upsert(rows, id, status, hit, body);
      }
      return ok;
    }
  }

  /** `_lookup`: the row and then its body, in two statements. */
  function Cached(audit: Audit, id: EventId, rowOk: bool, bodyOk: bool): Option<Response> {
    if rowOk && bodyOk && id in audit && audit[id].body.Some?
    then Some(Response(audit[id].status, audit[id].body.value))
    else None
  }

  function AfterWrite(audit: Audit, id: EventId, r: Response, hit: bool, ok: bool): Audit {
    if ok then Upsert(audit, id, r.status, hit, Some(r.body)) else audit
  }

  /** The critical section: answer from the table if it can, otherwise run the worker. */
  function Inside(audit: Audit, id: EventId, w: Weather): (Audit, Outcome) {
    match Cached(audit, id, w.row, w.body)
    case Some(r) => (AfterWrite(audit, id, r, true, w.write), Returned(r, true, w.write))
    case None =>
      match w.worker
      case None => (audit, WorkerFailed)
      case Some(r) => (AfterWrite(audit, id, r, false, w.write), Returned(r, false, w.write))
  }

  /** What a call does to the audit table and what it answers when nothing else runs meanwhile. */
  function HandleAlone(audit: Audit, id: EventId, wellFormed: bool, w: Weather): (Audit, Outcome) {
    if !wellFormed then (audit, InvalidEventId)
    else
      match Cached(audit, id, w.fastRow, w.fastBody)
      case Some(r) => (AfterWrite(audit, id, r, true, w.write), Returned(r, true, w.write))
      case None => Inside(audit, id, w)
  }

  /**
   What a call that nobody disturbs owes its caller, in terms of the table before and after: a refusal
   of a malformed id, the stored response if either lookup can read it, else the worker's, else its
   failure; and a row for what was answered, when it can be written.
   */
  predicate Serves(before: Audit, id: EventId, wellFormed: bool, w: Weather, after: Audit, outcome: Outcome) {
    var stored := id in before && before[id].body.Some?;
    var hit := stored && ((w.fastRow && w.fastBody) || (w.row && w.body));
    && (outcome == InvalidEventId <==> !wellFormed)
    && (outcome == WorkerFailed <==> wellFormed && !hit && w.worker == None)
    && (outcome.Returned? ==>
          && outcome.hit == hit && outcome.persisted == w.write
          && (hit ==> outcome.response == Response(before[id].status, before[id].body.value))
          && (!hit ==> w.worker == Some(outcome.response)))
    && after == if outcome.Returned? && w.write
                then before[id := Row(outcome.response.status, hit, Some(outcome.response.body))]
                else before
  }

  lemma AloneServes(audit: Audit, id: EventId, wellFormed: bool, w: Weather)
    ensures var (after, outcome) := HandleAlone(audit, id, wellFormed, w);
            Serves(audit, id, wellFormed, w, after, outcome)
  {
  }

  /** Taking and giving back a reference leaves the table as it was, entry or no entry. */
  lemma AcquireThenRelease(locks: LockTable, id: EventId, spare: LockId)
    requires id in locks ==> locks[id].refs > 0
    ensures Released(Acquired(locks, id, spare), id) == locks
  {
    assert id in locks ==> locks[id := locks[id]] == locks;
  }

  class IdempotencyHandler {
    const audit: AuditLog
    var eventLocks: map<EventId, RefCountedLock>
    ghost var nextLock: LockId

    ghost function Entries(): set<RefCountedLock>
      reads this
    {
      set id | id in eventLocks :: eventLocks[id]
    }

    /** The lock table as a value of the protocol. */
    ghost function View(): LockTable
      reads this, Entries()
    {
      map id | id in eventLocks :: Entry(eventLocks[id].lock.number, eventLocks[id].refs)
    }

    ghost predicate Valid()
      reads this
    {
      && (forall i | i in eventLocks :: eventLocks[i].lock.number < nextLock)
      && (forall i, j | i in eventLocks && j in eventLocks && i != j ::
            eventLocks[i].lock.number != eventLocks[j].lock.number)
    }

    constructor (audit: AuditLog)
      ensures Valid() && this.audit == audit && View() == map[]
    {
      this.audit := audit;
      eventLocks := map[];
      nextLock := 0;
    }

    /** An entry nobody refers to yet, over a new lock object. */
    method Install(id: EventId)
      requires Valid() && id !in eventLocks
      modifies this
      ensures Valid() && nextLock == old(nextLock) + 1
      ensures id in eventLocks && eventLocks == old(eventLocks)[id := eventLocks[id]]
      ensures fresh(eventLocks[id]) && fresh(eventLocks[id].lock) && !eventLocks[id].lock.held
      ensures View() == old(View())[id := Entry(old(nextLock), 0)]
    {
      var made := new Lock(nextLock);
      var entry := new RefCountedLock(made);
      eventLocks := eventLocks[id := entry];
      nextLock := nextLock + 1;
      assert forall i | i in old(eventLocks) :: eventLocks[i] == old(eventLocks[i]) && eventLocks[i] != entry;
    }

    method Adjust(id: EventId, delta: int)
      requires Valid() && id in eventLocks
      modifies eventLocks[id]
      ensures View() == old(View())[id := Entry(old(View())[id].lock, old(View())[id].refs + delta)]
    {
      var entry := eventLocks[id];
      entry.refs := entry.refs + delta;
    }

    /** The count goes up; a caller joining an existing entry is handed the very same lock object. */
    method AcquireLock(id: EventId) returns (lock: Lock)
      requires Valid()
      modifies this, if id in eventLocks then {eventLocks[id]} else {}
      ensures Valid() && id in eventLocks && lock == eventLocks[id].lock
      ensures View() == Acquired(old(View()), id, old(nextLock))
      ensures id in old(eventLocks) ==> eventLocks == old(eventLocks)
      ensures id !in old(eventLocks) ==> fresh(eventLocks[id]) && fresh(lock) && !lock.held
    {
      if id !in eventLocks {
        Install(id);
        label installed:
        Adjust(id, 1);
        assert View() == old@installed(View())[id := Entry(old(nextLock), 1)];
      } else {
        Adjust(id, 1);
      }
      lock := eventLocks[id].lock;
    }

    /** The count goes down; the entry is dropped when nobody refers to it any more. */
    method ReleaseLock(id: EventId)
      requires Valid()
      modifies this`eventLocks, if id in eventLocks then {eventLocks[id]} else {}
      ensures Valid() && nextLock == old(nextLock)
      ensures View() == Released(old(View()), id)
      ensures forall i | i in eventLocks :: i in old(eventLocks) && eventLocks[i] == old(eventLocks[i])
    {
      if id !in eventLocks {
        return;
      }
      Adjust(id, -1);
      if eventLocks[id].refs <= 0 {
        label low:
        eventLocks := eventLocks - {id};
        assert View() == old@low(View()) - {id};
      }
    }

    method LookupCached(id: EventId, rowOk: bool, bodyOk: bool) returns (cached: Option<Response>)
      ensures cached == Cached(audit.rows, id, rowOk, bodyOk)
    {
      var status := audit.Lookup(id, rowOk);
      if status.None? {
        return None;
      }
      var body := audit.LookupResponse(id, bodyOk);
      if body.None? {
        return None;
      }
      return Some(Response(status.value, body.value));
    }

    method OnCacheHit(id: EventId, cached: Response, ok: bool) returns (outcome: Outcome)
      modifies audit
      ensures audit.rows == AfterWrite(old(audit.rows), id, cached, true, ok)
      ensures outcome == Returned(cached, true, ok)
    {
      var persisted := audit.Write(id, cached.status, true, Some(cached.body), ok);
      outcome := Returned(cached, true, persisted);
    }

    method ExecuteWorker(id: EventId, worker: Option<Response>, ok: bool) returns (outcome: Outcome)
      modifies audit
      ensures worker.None? ==> audit.rows == old(audit.rows) && outcome == WorkerFailed
      ensures worker.Some? ==> audit.rows == AfterWrite(old(audit.rows), id, worker.value, false, ok) &&
                               outcome == Returned(worker.value, false, ok)
    {
      if worker.None? {
        return WorkerFailed;
      }
      var persisted := audit.Write(id, worker.value.status, false, Some(worker.value.body), ok);
      outcome := Returned(worker.value, false, persisted);
    }

    /** The body of `with lock`, which leaves the lock however it ends. */
    method WithLock(lock: Lock, id: EventId, w: Weather) returns (outcome: Outcome)
      requires !lock.held
      modifies lock, audit
      ensures (audit.rows, outcome) == Inside(old(audit.rows), id, w)
      ensures !lock.held
    {
      lock.held := true;
      var cached := LookupCached(id, w.row, w.body);
      if cached.Some? {
        outcome := OnCacheHit(id, cached.value, w.write);
      } else {
        outcome := ExecuteWorker(id, w.worker, w.write);
      }
      lock.held := false;
    }

    /** Acquire, critical section, release: the reference count comes back to where it was. */
    method HandleSlow(id: EventId, w: Weather) returns (outcome: Outcome)
      requires Valid()
      requires id in eventLocks ==> eventLocks[id].refs > 0 && !eventLocks[id].lock.held
      modifies this, if id in eventLocks then {eventLocks[id]} else {}
      modifies if id in eventLocks then {eventLocks[id].lock} else {}
      modifies audit
      ensures Valid() && View() == old(View())
      ensures (audit.rows, outcome) == Inside(old(audit.rows), id, w)
      ensures id in old(eventLocks) ==> !old(eventLocks[id].lock).held
    {
      var lock := AcquireLock(id);
      assert audit.rows == old(audit.rows);
      label acquired:
      outcome := WithLock(lock, id, w);
      assert View() == old@acquired(View());
      ReleaseLock(id);
      AcquireThenRelease(old(View()), id, old(nextLock));
    }

    /**
     The whole request, undisturbed.  Whatever the weather, on every exit path the reference count
     is balanced, so the lock table is as before, and no lock is left held.
     */
    method Handle(id: EventId, wellFormed: bool, w: Weather) returns (outcome: Outcome)
      requires Valid()
      requires id in eventLocks ==> eventLocks[id].refs > 0 && !eventLocks[id].lock.held
      modifies this, if id in eventLocks then {eventLocks[id]} else {}
      modifies if id in eventLocks then {eventLocks[id].lock} else {}
      modifies audit
      ensures Valid() && View() == old(View())
      ensures (audit.rows, outcome) == HandleAlone(old(audit.rows), id, wellFormed, w)
      ensures outcome.InvalidEventId? <==> !wellFormed
      ensures !wellFormed ==> audit.rows == old(audit.rows)
      ensures Serves(old(audit.rows), id, wellFormed, w, audit.rows, outcome)
      ensures id in old(eventLocks) ==> !old(eventLocks[id].lock).held
    {
      AloneServes(audit.rows, id, wellFormed, w);
      if !wellFormed {
        return InvalidEventId;
      }
      var cached := LookupCached(id, w.fastRow, w.fastBody);
      if cached.Some? {
        outcome := OnCacheHit(id, cached.value, w.write);
      } else {
        outcome := HandleSlow(id, w);
      }
    }
  }

  // ----- an undisturbed call is a run of the protocol -----------------------------------------------

  function Goto(s: State, c: CallId, pc: Pc): State
    requires c in s.calls
  {
    s.(calls := s.calls[c := Call(s.calls[c].event, pc)])
  }

  /** The recheck inside the lock ends with the cached answer or in the worker. */
  lemma LockedLookup(s: State, c: CallId, w: Weather) returns (actions: seq<Action>, t: State)
    requires c in s.calls && s.calls[c].pc.LockedRow?
    ensures IsRun(s, actions, t)
    ensures var Call(id, pc) := s.calls[c];
            t == Goto(s, c, match Cached(s.audit, id, w.row, w.body)
                            case Some(r) => LockedHit(pc.lock, r)
                            case None => Work(pc.lock))
  {
    actions, t := Push(s, [], s, c, Luck(w.row, true, None));
    if t.calls[c].pc.LockedBody? {
      actions, t := Push(s, actions, t, c, Luck(w.body, true, None));
    }
  }

  lemma Overwrite(calls: map<CallId, Call>, c: CallId, first: Call, second: Call)
    ensures calls[c := first][c := second] == calls[c := second]
  {
  }

  /** Recording a hit, or running the worker and recording its response. */
  lemma InsidePart(s: State, c: CallId, w: Weather) returns (actions: seq<Action>, t: State)
    requires c in s.calls && (s.calls[c].pc.LockedHit? || s.calls[c].pc.Work?)
    ensures IsRun(s, actions, t)
    ensures var Call(id, pc) := s.calls[c];
            var (audit, outcome) :=
              if pc.LockedHit? then
                (AfterWrite(s.audit, id, pc.cached, true, w.write), Returned(pc.cached, true, w.write))
              else if w.worker.None? then (s.audit, WorkerFailed)
              else (AfterWrite(s.audit, id, w.worker.value, false, w.write), Returned(w.worker.value, false, w.write));
            t == Goto(s, c, Unlock(pc.lock, outcome)).(audit := audit, completed := t.completed)
  {
    var luck := Luck(true, w.write, w.worker);
    actions, t := Push(s, [], s, c, luck);
    if t.calls[c].pc.Record? {
      actions, t := Push(s, actions, t, c, luck);
    }
  }

  /** The steps from the recheck inside the lock up to leaving it. */
  lemma LockedPart(s: State, c: CallId, w: Weather) returns (actions: seq<Action>, t: State)
    requires c in s.calls && s.calls[c].pc.LockedRow?
    ensures IsRun(s, actions, t)
    ensures var Call(id, pc) := s.calls[c];
            var (audit, outcome) := Inside(s.audit, id, w);
            t == Goto(s, c, Unlock(pc.lock, outcome)).(audit := audit, completed := t.completed)
  {
    var look, mid := LockedLookup(s, c, w);
    var act, end := InsidePart(mid, c, w);
    RunConcat(s, look, mid, act, end);
    actions, t := look + act, end;
    Overwrite(s.calls, c, mid.calls[c], end.calls[c]);
  }

  /** The lock-free lookup: either it answers, or the call goes on to acquire. */
  lemma FastPart(s: State, c: CallId, w: Weather) returns (actions: seq<Action>, t: State)
    requires c in s.calls && s.calls[c].pc.FastRow?
    ensures IsRun(s, actions, t)
    ensures var id := s.calls[c].event;
            t == match Cached(s.audit, id, w.fastRow, w.fastBody)
                 case None => Goto(s, c, Acquire)
                 case Some(r) =>
                   Goto(s, c, Done(Returned(r, true, w.write))).(audit := AfterWrite(s.audit, id, r, true, w.write))
  {
    actions, t := Push(s, [], s, c, Luck(w.fastRow, w.write, None));
    if t.calls[c].pc.FastBody? {
      actions, t := Push(s, actions, t, c, Luck(w.fastBody, w.write, None));
      if t.calls[c].pc.FastHit? {
        actions, t := Push(s, actions, t, c, Luck(true, w.write, None));
      }
    }
  }

  /** Registering at the lock and taking it, when nobody holds it. */
  lemma EnterPart(s: State, c: CallId) returns (actions: seq<Action>, t: State)
    requires c in s.calls && s.calls[c].pc.Acquire? && s.nextLock !in s.held
    requires s.calls[c].event in s.locks ==> s.locks[s.calls[c].event].lock !in s.held
    ensures IsRun(s, actions, t)
    ensures var id := s.calls[c].event;
            var locks := Acquired(s.locks, id, s.nextLock);
            locks[id].lock !in s.held &&
            t == Goto(s, c, LockedRow(locks[id].lock)).(
              locks := locks, held := s.held[locks[id].lock := c], nextLock := t.nextLock)
  {
    actions, t := Push(s, [], s, c, Luck(true, true, None));
    actions, t := Push(s, actions, t, c, Luck(true, true, None));
  }

  lemma LeavePart(s: State, c: CallId) returns (actions: seq<Action>, t: State)
    requires c in s.calls && s.calls[c].pc.Unlock?
    ensures IsRun(s, actions, t)
    ensures var Call(id, pc) := s.calls[c];
            t == Goto(s, c, Done(pc.outcome)).(locks := Released(s.locks, id), held := s.held - {pc.lock})
  {
    actions, t := Push(s, [], s, c, Luck(true, true, None));
    actions, t := Push(s, actions, t, c, Luck(true, true, None));
  }

  /** From acquire to the end, when nobody holds the event's lock. */
  lemma SlowPart(s: State, c: CallId, w: Weather) returns (actions: seq<Action>, t: State)
    requires c in s.calls && s.calls[c].pc.Acquire? && s.nextLock !in s.held
    requires s.calls[c].event in s.locks ==>
               s.locks[s.calls[c].event].lock !in s.held && s.locks[s.calls[c].event].refs > 0
    ensures IsRun(s, actions, t)
    ensures var id := s.calls[c].event;
            var (audit, outcome) := Inside(s.audit, id, w);
            t == Goto(s, c, Done(outcome)).(audit := audit, completed := t.completed, nextLock := t.nextLock)
  {
    var enter, entered := EnterPart(s, c);
    var middle, inside := LockedPart(entered, c, w);
    var leave, left := LeavePart(inside, c);
    RunConcat(s, enter, entered, middle, inside);
    RunConcat(s, enter + middle, inside, leave, left);
    actions, t := enter + middle + leave, left;
    AcquireThenRelease(s.locks, s.calls[c].event, s.nextLock);
    SoloHeld(s.held, entered.calls[c].pc.lock, c);
    Overwrite(s.calls, c, entered.calls[c], inside.calls[c]);
    Overwrite(s.calls, c, inside.calls[c], left.calls[c]);
  }

  lemma SoloHeld(held: map<LockId, CallId>, l: LockId, c: CallId)
    requires l !in held
    ensures held[l := c] - {l} == held
  {
  }

  lemma EntryFacts(s: State, id: EventId)
    requires LockInv(s)
    ensures s.nextLock !in s.held
    ensures id in s.locks ==> s.locks[id].refs > 0
  {
    HeldLocksAreOld(s);
  }

  /** What `Handle` does is one of the interleavings of the protocol, so everything proved of runs holds of it. */
  lemma HandleAloneIsRun(s: State, c: CallId, id: EventId, wellFormed: bool, w: Weather)
    returns (actions: seq<Action>, t: State)
    requires LockInv(s) && c !in s.calls
    requires id in s.locks ==> s.locks[id].lock !in s.held
    ensures IsRun(s, actions, t)
    ensures var (audit, outcome) := HandleAlone(s.audit, id, wellFormed, w);
            t == s.(calls := s.calls[c := Call(id, Done(outcome))], audit := audit,
                    completed := t.completed, nextLock := t.nextLock)
  {
    var begin := Begin(c, id, wellFormed);
    EntryFacts(s, id);
    RunSnoc(s, [], s, begin);
    assert [] + [begin] == [begin];
    actions, t := [begin], Next(s, begin);
    if wellFormed {
      var begun := t;
      var fast, mid := FastPart(begun, c, w);
      RunConcat(s, [begin], begun, fast, mid);
      actions, t := [begin] + fast, mid;
      if Cached(s.audit, id, w.fastRow, w.fastBody).None? {
        var slow, end := SlowPart(mid, c, w);
        RunConcat(s, actions, mid, slow, end);
        actions, t := actions + slow, end;
      }
      assert t.calls == s.calls[c := Call(id, t.calls[c].pc)];
    }
  }
}
