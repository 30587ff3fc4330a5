/**
 The canary idempotency layer as a concurrent protocol.

 Every invocation of `handle` is a call with its own program counter; the shared state is the
 lock table (event id to lock object and reference count), the set of held locks and the audit
 table.  One step of a call is one action the source performs atomically: a SELECT, an UPSERT,
 a critical section of the meta-lock, taking or leaving the per-event lock, or the worker
 finishing.  Audit reads and writes and the worker fail as the environment pleases.
 */
module Idempotency {
  import opened Wrappers

  type EventId = string
  type CallId = nat
  type LockId = nat

  datatype Response = Response(status: int, body: string)

  /** The columns of an audit row the handler reads back. */
  datatype Row = Row(status: int, hit: bool, body: Option<string>)

  type Audit = map<EventId, Row>

  /** How one call of `handle` ends. */
  datatype Outcome =
    | Returned(response: Response, hit: bool, persisted: bool)
    | InvalidEventId
    | WorkerFailed

  datatype Pc =
    | FastRow
    | FastBody(status: int)
    | FastHit(cached: Response)
    | Acquire
    | Wait(lock: LockId)
    | LockedRow(lock: LockId)
    | LockedBody(lock: LockId, status: int)
    | LockedHit(lock: LockId, cached: Response)
    | Work(lock: LockId)
    | Record(lock: LockId, response: Response)
    | Unlock(lock: LockId, outcome: Outcome)
    | Release(lock: LockId, outcome: Outcome)
    | Done(outcome: Outcome)

  datatype Call = Call(event: EventId, pc: Pc)

  datatype Entry = Entry(lock: LockId, refs: int)

  type LockTable = map<EventId, Entry>

  /** One finished worker run: who ran it, for which event, and what it answered. */
  datatype Completion = Completion(call: CallId, event: EventId, response: Response)

  datatype State = State(
    calls: map<CallId, Call>,
    locks: LockTable,
    held: map<LockId, CallId>,
    nextLock: LockId,
    audit: Audit,
    completed: seq<Completion>)

  /** The environment's choices for one step: does the read or write work, what does the worker do. */
  datatype Luck = Luck(readOk: bool, writeOk: bool, worker: Option<Response>)

  datatype Action = Begin(call: CallId, event: EventId, wellFormed: bool) | Advance(call: CallId, luck: Luck)

  // ----- the shared tables ---------------------------------------------------------------

  /** INSERT ... ON CONFLICT DO UPDATE with COALESCE on the body. */
  function Upsert(audit: Audit, id: EventId, status: int, hit: bool, body: Option<string>): Audit {
    var kept := if body.None? && id in audit then audit[id].body else body;
    audit[id := Row(status, hit, kept)]
  }

  /** `_acquire_lock` on values: the entry to hand out, with its count raised. */
  function Acquired(locks: LockTable, id: EventId, spare: LockId): LockTable {
    var e := if id in locks then locks[id] else Entry(spare, 0);
    locks[id := Entry(e.lock, e.refs + 1)]
  }

  /** `_release_lock` on values: the count lowered, the entry dropped at zero. */
  function Released(locks: LockTable, id: EventId): LockTable {
    if id !in locks then locks
    else if locks[id].refs - 1 <= 0 then locks - {id}
    else locks[id := Entry(locks[id].lock, locks[id].refs - 1)]
  }

  // ----- steps ----------------------------------------------------------------------------

  predicate CanAdvance(s: State, c: CallId) {
    c in s.calls && !s.calls[c].pc.Done? && (s.calls[c].pc.Wait? ==> s.calls[c].pc.lock !in s.held)
  }

  /** Where the call goes next. */
  function NextPc(s: State, id: EventId, pc: Pc, luck: Luck): Pc
    requires !pc.Done?
  {
    var row := luck.readOk && id in s.audit;
    var body := row && s.audit[id].body.Some?;
    match pc
    case FastRow => if row then FastBody(s.audit[id].status) else Acquire
    case FastBody(status) => if body then FastHit(Response(status, s.audit[id].body.value)) else Acquire
    case FastHit(r) => Done(Returned(r, true, luck.writeOk))
    case Acquire => Wait(if id in s.locks then s.locks[id].lock else s.nextLock)
    case Wait(l) => LockedRow(l)
    case LockedRow(l) => if row then LockedBody(l, s.audit[id].status) else Work(l)
    case LockedBody(l, status) =>
      if body then LockedHit(l, Response(status, s.audit[id].body.value)) else Work(l)
    case LockedHit(l, r) => Unlock(l, Returned(r, true, luck.writeOk))
    case Work(l) => if luck.worker.Some? then Record(l, luck.worker.value) else Unlock(l, WorkerFailed)
    case Record(l, r) => Unlock(l, Returned(r, false, luck.writeOk))
    case Unlock(l, o) => Release(l, o)
    case Release(_, o) => Done(o)
  }

  function NextLocks(s: State, id: EventId, pc: Pc): LockTable {
    match pc
    case Acquire => Acquired(s.locks, id, s.nextLock)
    case Release(_, _) => Released(s.locks, id)
    case _ => s.locks
  }

  function NextHeld(held: map<LockId, CallId>, c: CallId, pc: Pc): map<LockId, CallId> {
    match pc
    case Wait(l) => held[l := c]
    case Unlock(l, _) => held - {l}
    case _ => held
  }

  function NextAudit(audit: Audit, id: EventId, pc: Pc, ok: bool): Audit {
    if !ok then audit else
    match pc
    case FastHit(r) => Upsert(audit, id, r.status, true, Some(r.body))
    case LockedHit(_, r) => Upsert(audit, id, r.status, true, Some(r.body))
    case Record(_, r) => Upsert(audit, id, r.status, false, Some(r.body))
    case _ => audit
  }

  function NextCompleted(completed: seq<Completion>, c: CallId, id: EventId, pc: Pc,
                         worker: Option<Response>): seq<Completion> {
    if pc.Work? && worker.Some? then completed + [Completion(c, id, worker.value)] else completed
  }

  /** One atomic action of call `c`. */
  function Step(s: State, c: CallId, luck: Luck): State
    requires CanAdvance(s, c)
  {
    var Call(id, pc) := s.calls[c];
    State(
      s.calls[c := Call(id, NextPc(s, id, pc, luck))],
      NextLocks(s, id, pc),
      NextHeld(s.held, c, pc),
      if pc.Acquire? && id !in s.locks then s.nextLock + 1 else s.nextLock,
      NextAudit(s.audit, id, pc, luck.writeOk),
      NextCompleted(s.completed, c, id, pc, luck.worker))
  }

  predicate Possible(s: State, a: Action) {
    match a
    case Begin(c, _, _) => c !in s.calls
    case Advance(c, _) => CanAdvance(s, c)
  }

  function Next(s: State, a: Action): State
    requires Possible(s, a)
  {
    match a
    case Begin(c, id, wellFormed) =>
      s.(calls := s.calls[c := Call(id, if wellFormed then FastRow else Done(InvalidEventId))])
    case Advance(c, luck) => Step(s, c, luck)
  }

  /** A handler that has just been constructed over an existing audit table. */
  function Initial(audit: Audit): State {
    State(map[], map[], map[], 0, audit, [])
  }

  /** Where the actions lead; nowhere, when one of them is not possible in its turn. */
  ghost function After(s: State, actions: seq<Action>): Option<State>
    decreases |actions|
  {
    if actions == [] then Some(s)
    else if Possible(s, actions[0]) then After(Next(s, actions[0]), actions[1..])
    else None
  }

  ghost predicate IsRun(s: State, actions: seq<Action>, t: State) {
    After(s, actions) == Some(t)
  }

  // ----- audit statements and their faults --------------------------------------------------

  /** The audit statements of a call: two reads before the lock, two inside it, and the two writes. */
  datatype Statement = FastRowRead | FastBodyRead | LockedRowRead | LockedBodyRead | HitWrite | RecordWrite

  function StatementAt(pc: Pc): Option<Statement> {
    match pc
    case FastRow => Some(FastRowRead)
    case FastBody(_) => Some(FastBodyRead)
    case LockedRow(_) => Some(LockedRowRead)
    case LockedBody(_, _) => Some(LockedBodyRead)
    case FastHit(_) => Some(HitWrite)
    case LockedHit(_, _) => Some(HitWrite)
    case Record(_, _) => Some(RecordWrite)
    case _ => None
  }

  predicate Fails(pc: Pc, luck: Luck) {
    match StatementAt(pc)
    case None => false
    case Some(HitWrite) => !luck.writeOk
    case Some(RecordWrite) => !luck.writeOk
    case Some(_) => !luck.readOk
  }

  function FaultOf(s: State, a: Action): seq<Statement>
    requires Possible(s, a)
  {
    if a.Advance? && Fails(s.calls[a.call].pc, a.luck) then [StatementAt(s.calls[a.call].pc).value] else []
  }

  /** The statements that fail along a run, in order. */
  ghost function Faults(s: State, actions: seq<Action>): seq<Statement>
    decreases |actions|
  {
    if actions == [] || !Possible(s, actions[0]) then []
    else FaultOf(s, actions[0]) + Faults(Next(s, actions[0]), actions[1..])
  }

  /** The actions lead from s to t, and these are the faults on the way. */
  ghost predicate RunWith(s: State, actions: seq<Action>, t: State, faults: seq<Statement>) {
    (After(s, actions), Faults(s, actions)) == (Some(t), faults)
  }

  /** A failing statement of a call of this event. */
  function EventFault(s: State, a: Action, id: EventId): seq<Statement>
    requires Possible(s, a)
  {
    if a.Advance? && s.calls[a.call].event == id then FaultOf(s, a) else []
  }

  ghost function FaultsOf(s: State, actions: seq<Action>, id: EventId): seq<Statement>
    decreases |actions|
  {
    if actions == [] || !Possible(s, actions[0]) then []
    else EventFault(s, actions[0], id) + FaultsOf(Next(s, actions[0]), actions[1..], id)
  }

  /** Along the run no other statement of this event's calls fails; those of other events may. */
  ghost predicate OnlyFaults(s: State, actions: seq<Action>, id: EventId, may: set<Statement>) {
    forall x | x in FaultsOf(s, actions, id) :: x in may
  }

  lemma FaultsSplit(s: State, actions: seq<Action>, id: EventId, may: set<Statement>)
    requires actions != [] && Possible(s, actions[0]) && OnlyFaults(s, actions, id, may)
    ensures forall x | x in EventFault(s, actions[0], id) :: x in may
    ensures OnlyFaults(Next(s, actions[0]), actions[1..], id, may)
  {
    var first, rest := EventFault(s, actions[0], id), FaultsOf(Next(s, actions[0]), actions[1..], id);
    assert FaultsOf(s, actions, id) == first + rest;
    assert forall x | x in first || x in rest :: x in first + rest;
  }

  lemma {:induction false} EventFaultsAreFaults(s: State, actions: seq<Action>, id: EventId)
    ensures forall x | x in FaultsOf(s, actions, id) :: x in Faults(s, actions)
    decreases |actions|
  {
    if actions != [] && Possible(s, actions[0]) {
      EventFaultsAreFaults(Next(s, actions[0]), actions[1..], id);
    }
  }

  // ----- the lock discipline, whatever fails ------------------------------------------------

  predicate Referring(pc: Pc) {
    !(pc.FastRow? || pc.FastBody? || pc.FastHit? || pc.Acquire? || pc.Done?)
  }

  predicate Holding(pc: Pc) {
    Referring(pc) && !pc.Wait? && !pc.Release?
  }

  ghost function Referrers(calls: map<CallId, Call>, id: EventId): set<CallId> {
    set c | c in calls && calls[c].event == id && Referring(calls[c].pc)
  }

  /** refs counts exactly the calls between acquire and release, and all of them share the entry's lock. */
  ghost predicate RefsExact(calls: map<CallId, Call>, locks: LockTable) {
    && (forall id | id in locks :: locks[id].refs == |Referrers(calls, id)| > 0)
    && (forall c | c in calls && Referring(calls[c].pc) ::
          calls[c].event in locks && calls[c].pc.lock == locks[calls[c].event].lock)
  }

  /** Lock objects are never shared between event ids and never handed out twice. */
  ghost predicate LocksDistinct(locks: LockTable, nextLock: LockId) {
    && (forall id | id in locks :: locks[id].lock < nextLock)
    && (forall i, j | i in locks && j in locks && locks[i].lock == locks[j].lock :: i == j)
  }

  /** A lock is held exactly by the call that is inside its critical section. */
  ghost predicate HeldExact(calls: map<CallId, Call>, held: map<LockId, CallId>) {
    && (forall c | c in calls && Holding(calls[c].pc) ::
          calls[c].pc.lock in held && held[calls[c].pc.lock] == c)
    && (forall l | l in held ::
          held[l] in calls && Holding(calls[held[l]].pc) && calls[held[l]].pc.lock == l)
  }

  ghost predicate LockInv(s: State) {
    RefsExact(s.calls, s.locks) && LocksDistinct(s.locks, s.nextLock) && HeldExact(s.calls, s.held)
  }

  lemma ReferrersAfterMove(calls: map<CallId, Call>, c: CallId, pc: Pc)
    requires c in calls
    ensures forall id ::
              Referrers(calls[c := Call(calls[c].event, pc)], id) ==
              (if id != calls[c].event then Referrers(calls, id)
               else if Referring(pc) then Referrers(calls, id) + {c}
               else Referrers(calls, id) - {c})
  {
  }

  /** A move that keeps the call on the same side of acquire and release keeps the count. */
  lemma RefsAfterQuietMove(calls: map<CallId, Call>, locks: LockTable, c: CallId, pc: Pc)
    requires RefsExact(calls, locks) && c in calls
    requires Referring(pc) == Referring(calls[c].pc)
    requires Referring(pc) ==> pc.lock == calls[c].pc.lock
    ensures RefsExact(calls[c := Call(calls[c].event, pc)], locks)
  {
    var moved := calls[c := Call(calls[c].event, pc)];
    ReferrersAfterMove(calls, c, pc);
    forall id | id in locks ensures Referrers(moved, id) == Referrers(calls, id) {
      assert c in calls && (c in Referrers(calls, id) <==> calls[c].event == id && Referring(calls[c].pc));
    }
  }

  lemma RefsAfterAcquire(calls: map<CallId, Call>, locks: LockTable, c: CallId, spare: LockId)
    requires RefsExact(calls, locks) && c in calls && !Referring(calls[c].pc)
    ensures var grown := Acquired(locks, calls[c].event, spare);
            RefsExact(calls[c := Call(calls[c].event, Wait(grown[calls[c].event].lock))], grown)
  {
    var mine := calls[c].event;
    var grown := Acquired(locks, mine, spare);
    var moved := calls[c := Call(mine, Wait(grown[mine].lock))];
    ReferrersAfterMove(calls, c, moved[c].pc);
    assert c !in Referrers(calls, mine);
    if mine !in locks {
      assert Referrers(calls, mine) == {};
    }
    assert |Referrers(moved, mine)| == |Referrers(calls, mine)| + 1 == grown[mine].refs;
  }

  lemma RefsAfterRelease(calls: map<CallId, Call>, locks: LockTable, c: CallId, outcome: Outcome)
    requires RefsExact(calls, locks) && c in calls && Referring(calls[c].pc)
    ensures RefsExact(calls[c := Call(calls[c].event, Done(outcome))], Released(locks, calls[c].event))
  {
    var mine := calls[c].event;
    var shrunk := Released(locks, mine);
    var moved := calls[c := Call(mine, Done(outcome))];
    ReferrersAfterMove(calls, c, moved[c].pc);
    assert c in Referrers(calls, mine);
    assert |Referrers(moved, mine)| == |Referrers(calls, mine)| - 1 == locks[mine].refs - 1;
    forall d | d in moved && Referring(moved[d].pc)
      ensures moved[d].event in shrunk && moved[d].pc.lock == shrunk[moved[d].event].lock
    {
      if moved[d].event == mine {
        assert d in Referrers(moved, mine);
      }
    }
  }

  lemma RefsAfterStep(s: State, c: CallId, luck: Luck)
    requires RefsExact(s.calls, s.locks) && CanAdvance(s, c)
    ensures RefsExact(Step(s, c, luck).calls, Step(s, c, luck).locks)
  {
    var pc := s.calls[c].pc;
    if pc.Acquire? {
      RefsAfterAcquire(s.calls, s.locks, c, s.nextLock);
    } else if pc.Release? {
      RefsAfterRelease(s.calls, s.locks, c, pc.outcome);
    } else {
      RefsAfterQuietMove(s.calls, s.locks, c, NextPc(s, s.calls[c].event, pc, luck));
    }
  }

  lemma LocksDistinctAfterStep(s: State, c: CallId, luck: Luck)
    requires LocksDistinct(s.locks, s.nextLock) && CanAdvance(s, c)
    ensures LocksDistinct(Step(s, c, luck).locks, Step(s, c, luck).nextLock)
  {
  }

  lemma HeldAfterMove(calls: map<CallId, Call>, held: map<LockId, CallId>, c: CallId, pc: Pc)
    requires HeldExact(calls, held) && c in calls && !calls[c].pc.Done?
    requires calls[c].pc.Wait? ==> calls[c].pc.lock !in held && pc.LockedRow? && pc.lock == calls[c].pc.lock
    requires calls[c].pc.Unlock? ==> !Holding(pc)
    requires !calls[c].pc.Wait? && !calls[c].pc.Unlock? ==>
               Holding(pc) == Holding(calls[c].pc) && (Holding(pc) ==> pc.lock == calls[c].pc.lock)
    ensures HeldExact(calls[c := Call(calls[c].event, pc)], NextHeld(held, c, calls[c].pc))
  {
    assert calls[c].pc.Unlock? ==> Holding(calls[c].pc);
  }

  lemma HeldAfterStep(s: State, c: CallId, luck: Luck)
    requires HeldExact(s.calls, s.held) && CanAdvance(s, c)
    ensures HeldExact(Step(s, c, luck).calls, Step(s, c, luck).held)
  {
    HeldAfterMove(s.calls, s.held, c, NextPc(s, s.calls[c].event, s.calls[c].pc, luck));
  }

  lemma LockInvAfterBegin(s: State, c: CallId, id: EventId, wellFormed: bool)
    requires LockInv(s) && c !in s.calls
    ensures LockInv(Next(s, Begin(c, id, wellFormed)))
  {
    var t := Next(s, Begin(c, id, wellFormed));
    forall i ensures Referrers(t.calls, i) == Referrers(s.calls, i) {
    }
  }

  lemma {:induction false} LockInvAlongRun(s: State, actions: seq<Action>, t: State)
    requires LockInv(s) && IsRun(s, actions, t)
    ensures LockInv(t)
    decreases |actions|
  {
    if actions != [] {
      match actions[0] {
        case Begin(c, id, w) => LockInvAfterBegin(s, c, id, w);
        case Advance(c, luck) =>
          RefsAfterStep(s, c, luck);
          LocksDistinctAfterStep(s, c, luck);
          HeldAfterStep(s, c, luck);
      }
      LockInvAlongRun(Next(s, actions[0]), actions[1..], t);
    }
  }

  lemma OneHolder(s: State, c: CallId, d: CallId)
    requires LockInv(s) && c in s.calls && d in s.calls && s.calls[c].event == s.calls[d].event
    requires Holding(s.calls[c].pc) && Holding(s.calls[d].pc)
    ensures c == d
  {
  }

  /** At most one call per event id is inside the critical section, in every reachable state. */
  lemma MutualExclusion(audit: Audit, actions: seq<Action>, t: State, c: CallId, d: CallId)
    requires IsRun(Initial(audit), actions, t)
    requires c in t.calls && d in t.calls && t.calls[c].event == t.calls[d].event
    requires Holding(t.calls[c].pc) && Holding(t.calls[d].pc)
    ensures c == d
  {
    LockInvAlongRun(Initial(audit), actions, t);
    OneHolder(t, c, d);
  }

  /** The lock table after any run, in the source's own terms. */
  lemma LockDiscipline(audit: Audit, actions: seq<Action>, t: State, id: EventId)
    requires IsRun(Initial(audit), actions, t)
    ensures id in t.locks <==> Referrers(t.calls, id) != {}
    ensures id in t.locks ==> t.locks[id].refs == |Referrers(t.calls, id)|
    ensures forall c | c in Referrers(t.calls, id) :: t.calls[c].pc.lock == t.locks[id].lock
    ensures forall c, d | c in t.calls && d in t.calls && Referring(t.calls[c].pc) && Referring(t.calls[d].pc) ::
              t.calls[c].pc.lock == t.calls[d].pc.lock ==> t.calls[c].event == t.calls[d].event
  {
    LockInvAlongRun(Initial(audit), actions, t);
    if id !in t.locks {
      assert forall c | c in t.calls && Referring(t.calls[c].pc) :: t.calls[c].event != id;
    }
  }

  // ----- composing runs ---------------------------------------------------------------------

  lemma RunSnoc(s: State, actions: seq<Action>, t: State, a: Action)
    requires IsRun(s, actions, t) && Possible(t, a)
    ensures IsRun(s, actions + [a], Next(t, a))
    decreases |actions|
  {
    if actions == [] {
      assert actions + [a] == [a] && [a][1..] == [];
    } else {
      assert (actions + [a])[0] == actions[0] && (actions + [a])[1..] == actions[1..] + [a];
      RunSnoc(Next(s, actions[0]), actions[1..], t, a);
    }
  }

  lemma RunConcat(s: State, first: seq<Action>, t: State, second: seq<Action>, u: State)
    requires IsRun(s, first, t) && IsRun(t, second, u)
    ensures IsRun(s, first + second, u)
    decreases |first|
  {
    if first == [] {
      assert first + second == second;
    } else {
      assert (first + second)[0] == first[0] && (first + second)[1..] == first[1..] + second;
      RunConcat(Next(s, first[0]), first[1..], t, second, u);
    }
  }

  lemma {:induction false} FaultsConcat(s: State, first: seq<Action>, t: State, second: seq<Action>)
    requires IsRun(s, first, t)
    ensures Faults(s, first + second) == Faults(s, first) + Faults(t, second)
    decreases |first|
  {
    if first == [] {
      assert first + second == second;
    } else {
      var a, rest := first[0], first[1..];
      assert first == [a] + rest && first + second == [a] + (rest + second);
      FaultsFirst(s, a, rest);
      FaultsFirst(s, a, rest + second);
      FaultsConcat(Next(s, a), rest, t, second);
    }
  }

  lemma FaultsFirst(s: State, a: Action, rest: seq<Action>)
    requires Possible(s, a)
    ensures Faults(s, [a] + rest) == FaultOf(s, a) + Faults(Next(s, a), rest)
  {
    assert ([a] + rest)[1..] == rest;
  }

  lemma RunWithConcat(s: State, first: seq<Action>, t: State, fs: seq<Statement>, second: seq<Action>, u: State,
                      gs: seq<Statement>)
    requires RunWith(s, first, t, fs) && RunWith(t, second, u, gs)
    ensures RunWith(s, first + second, u, fs + gs)
  {
    RunConcat(s, first, t, second, u);
    FaultsConcat(s, first, t, second);
  }

  /** One more step of call `c`, appended to a run. */
  lemma Push(s: State, actions: seq<Action>, t: State, c: CallId, luck: Luck)
    returns (actions2: seq<Action>, t2: State)
    requires IsRun(s, actions, t) && CanAdvance(t, c)
    ensures actions2 == actions + [Advance(c, luck)] && t2 == Step(t, c, luck) && IsRun(s, actions2, t2)
    ensures Faults(s, actions2)
            == if Fails(t.calls[c].pc, luck) then Faults(s, actions) + [StatementAt(t.calls[c].pc).value]
               else Faults(s, actions)
  {
    var a := Advance(c, luck);
    RunSnoc(s, actions, t, a);
    actions2, t2 := actions + [a], Step(t, c, luck);
    FaultsConcat(s, actions, t, [a]);
    assert [a][1..] == [] && Faults(t2, []) == [];
  }

  /** A call begins. */
  lemma Enter(s: State, actions: seq<Action>, t: State, c: CallId, id: EventId)
    returns (actions2: seq<Action>, t2: State)
    requires IsRun(s, actions, t) && c !in t.calls
    ensures t2 == t.(calls := t.calls[c := Call(id, FastRow)]) && IsRun(s, actions2, t2)
    ensures Faults(s, actions2) == Faults(s, actions)
  {
    var a := Begin(c, id, true);
    RunSnoc(s, actions, t, a);
    actions2, t2 := actions + [a], Next(t, a);
    FaultsConcat(s, actions, t, [a]);
    assert [a][1..] == [] && Faults(t2, []) == [];
  }

  lemma HeldLocksAreOld(s: State)
    requires LockInv(s)
    ensures forall l | l in s.held :: l < s.nextLock
  {
    forall l | l in s.held ensures l < s.nextLock {
      var c := s.held[l];
      assert s.calls[c].event in s.locks;
    }
  }
}
