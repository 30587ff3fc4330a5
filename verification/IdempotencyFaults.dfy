/**
 Where the promises end: runs in which a body-less row makes callers disagree, or a failing audit
 statement makes the worker finish twice, and for each promise the exact condition under which every
 interleaving keeps it.
 */
module IdempotencyFaults {
  import opened Wrappers
  import opened Idempotency
  import opened IdempotencyAnswers
  import opened IdempotencyOnce

  predicate FastRead(x: Statement) {
    x.FastRowRead? || x.FastBodyRead?
  }

  predicate LockedRead(x: Statement) {
    x.LockedRowRead? || x.LockedBodyRead?
  }

  function Opt(fault: Option<Statement>): seq<Statement> {
    if fault.None? then [] else [fault.value]
  }

  /** The lookup finds nothing: there is no response, or the named read of the two fails. */
  predicate Misses(audit: Audit, id: EventId, fault: Option<Statement>) {
    if fault.None? then !Stored(audit, id) else Stored(audit, id)
  }

  /** Luck under which only the named statement fails. */
  function Unlucky(fault: Option<Statement>, x: Statement, worker: Option<Response>): Luck {
    Luck(fault != Some(x), fault != Some(x), worker)
  }

  lemma MissLookup(s: State, c: CallId, fault: Option<Statement>) returns (actions: seq<Action>, t: State)
    requires c in s.calls && s.calls[c].pc.FastRow?
    requires Misses(s.audit, s.calls[c].event, fault) && (fault.Some? ==> FastRead(fault.value))
    ensures RunWith(s, actions, t, Opt(fault))
    ensures t == s.(calls := s.calls[c := Call(s.calls[c].event, Acquire)])
  {
    assert Faults(s, []) == [];
    actions, t := Push(s, [], s, c, Unlucky(fault, FastRowRead, None));
    if t.calls[c].pc.FastBody? {
      actions, t := Push(s, actions, t, c, Unlucky(fault, FastBodyRead, None));
    }
    assert Faults(s, actions) == Opt(fault);
  }

  /** A call begins and misses the fast lookup. */
  lemma MissFast(s: State, c: CallId, id: EventId, fault: Option<Statement>) returns (actions: seq<Action>, t: State)
    requires c !in s.calls && Misses(s.audit, id, fault) && (fault.Some? ==> FastRead(fault.value))
    ensures RunWith(s, actions, t, Opt(fault))
    ensures t == s.(calls := s.calls[c := Call(id, Acquire)])
  {
    assert Faults(s, []) == [];
    var begin, begun := Enter(s, [], s, c, id);
    var look, end := MissLookup(begun, c, fault);
    RunWithConcat(s, begin, begun, [], look, end, Opt(fault));
    assert [] + Opt(fault) == Opt(fault);
    actions, t := begin + look, end;
  }

  /** A call alone at the lock takes it. */
  lemma SoloEnter(s: State, c: CallId) returns (actions: seq<Action>, t: State)
    requires LockInv(s) && c in s.calls && s.calls[c].pc.Acquire? && s.calls[c].event !in s.locks
    ensures RunWith(s, actions, t, []) && s.nextLock !in s.held
    ensures t == s.(calls := s.calls[c := Call(s.calls[c].event, LockedRow(s.nextLock))],
                    locks := s.locks[s.calls[c].event := Entry(s.nextLock, 1)],
                    held := s.held[s.nextLock := c], nextLock := s.nextLock + 1)
  {
    HeldLocksAreOld(s);
    assert Faults(s, []) == [];
    actions, t := Push(s, [], s, c, Luck(true, true, None));
    assert t.calls[c].pc == Wait(s.nextLock);
    actions, t := Push(s, actions, t, c, Luck(true, true, None));
  }

  /** Inside the lock a call reaches the worker when it finds no body to return. */
  lemma MissLocked(s: State, c: CallId, fault: Option<Statement>) returns (actions: seq<Action>, t: State)
    requires c in s.calls && s.calls[c].pc.LockedRow?
    requires Misses(s.audit, s.calls[c].event, fault) && (fault.Some? ==> LockedRead(fault.value))
    ensures RunWith(s, actions, t, Opt(fault))
    ensures t == s.(calls := s.calls[c := Call(s.calls[c].event, Work(s.calls[c].pc.lock))])
  {
    assert Faults(s, []) == [];
    actions, t := Push(s, [], s, c, Unlucky(fault, LockedRowRead, None));
    if t.calls[c].pc.LockedBody? {
      actions, t := Push(s, actions, t, c, Unlucky(fault, LockedBodyRead, None));
    }
    assert Faults(s, actions) == Opt(fault);
  }

  lemma SoloToWork(s: State, c: CallId, fault: Option<Statement>) returns (actions: seq<Action>, t: State)
    requires LockInv(s) && c in s.calls && s.calls[c].pc.Acquire? && s.calls[c].event !in s.locks
    requires Misses(s.audit, s.calls[c].event, fault) && (fault.Some? ==> LockedRead(fault.value))
    ensures RunWith(s, actions, t, Opt(fault))
    ensures t == s.(calls := s.calls[c := Call(s.calls[c].event, Work(s.nextLock))],
                    locks := s.locks[s.calls[c].event := Entry(s.nextLock, 1)],
                    held := s.held[s.nextLock := c], nextLock := s.nextLock + 1)
    ensures s.nextLock !in s.held
  {
    var enter, inside := SoloEnter(s, c);
    var miss, end := MissLocked(inside, c, fault);
    RunWithConcat(s, enter, inside, [], miss, end, Opt(fault));
    assert [] + Opt(fault) == Opt(fault);
    actions, t := enter + miss, end;
  }

  lemma WorkThenRecord(s: State, c: CallId, r: Response, writeOk: bool)
    requires c in s.calls && s.calls[c].pc.Work?
    ensures var luck, Call(id, pc) := Luck(true, writeOk, Some(r)), s.calls[c];
            && CanAdvance(s, c) && Step(s, c, luck).calls == s.calls[c := Call(id, Record(pc.lock, r))]
            && CanAdvance(Step(s, c, luck), c)
            && Step(Step(s, c, luck), c, luck)
               == s.(calls := s.calls[c := Call(id, Unlock(pc.lock, Returned(r, false, writeOk)))],
                     audit := NextAudit(s.audit, id, Record(pc.lock, r), writeOk),
                     completed := s.completed + [Completion(c, id, r)])
  {
  }

  /** The worker finishes and its response is recorded, or not. */
  lemma SoloRecord(s: State, c: CallId, r: Response, writeOk: bool) returns (actions: seq<Action>, t: State)
    requires c in s.calls && s.calls[c].pc.Work?
    ensures RunWith(s, actions, t, if writeOk then [] else [RecordWrite])
    ensures var Call(id, pc) := s.calls[c];
            t == s.(calls := s.calls[c := Call(id, Unlock(pc.lock, Returned(r, false, writeOk)))],
                    audit := NextAudit(s.audit, id, Record(pc.lock, r), writeOk),
                    completed := s.completed + [Completion(c, id, r)])
  {
    var luck := Luck(true, writeOk, Some(r));
    assert Faults(s, []) == [];
    WorkThenRecord(s, c, r, writeOk);
    actions, t := Push(s, [], s, c, luck);
    actions, t := Push(s, actions, t, c, luck);
    assert Faults(s, actions) == if writeOk then [] else [RecordWrite];
  }

  lemma SoloLeave(s: State, c: CallId) returns (actions: seq<Action>, t: State)
    requires c in s.calls && s.calls[c].pc.Unlock?
    ensures RunWith(s, actions, t, [])
    ensures var Call(id, pc) := s.calls[c];
            t == s.(calls := s.calls[c := Call(id, Done(pc.outcome))],
                    locks := Released(s.locks, id), held := s.held - {pc.lock})
  {
    assert Faults(s, []) == [];
    actions, t := Push(s, [], s, c, Luck(true, true, None));
    assert t.calls[c].pc == Release(s.calls[c].pc.lock, s.calls[c].pc.outcome);
    actions, t := Push(s, actions, t, c, Luck(true, true, None));
  }

  /** From the worker on, nothing can stop a call. */
  lemma SoloFinish(s: State, c: CallId, r: Response, writeOk: bool) returns (actions: seq<Action>, t: State)
    requires c in s.calls && s.calls[c].pc.Work?
    ensures RunWith(s, actions, t, if writeOk then [] else [RecordWrite])
    ensures var Call(id, pc) := s.calls[c];
            t == s.(calls := s.calls[c := Call(id, Done(Returned(r, false, writeOk)))],
                    locks := Released(s.locks, id), held := s.held - {pc.lock},
                    audit := NextAudit(s.audit, id, Record(pc.lock, r), writeOk),
                    completed := s.completed + [Completion(c, id, r)])
  {
    var record, mid := SoloRecord(s, c, r, writeOk);
    var leave, end := SoloLeave(mid, c);
    var faults := if writeOk then [] else [RecordWrite];
    RunWithConcat(s, record, mid, faults, leave, end, []);
    assert faults + [] == faults;
    actions, t := record + leave, end;
  }

  lemma SoloRestores(locks: LockTable, held: map<LockId, CallId>, id: EventId, l: LockId, c: CallId)
    requires id !in locks && l !in held
    ensures Released(locks[id := Entry(l, 1)], id) == locks
    ensures held[l := c] - {l} == held
  {
  }

  /** A call alone at the lock runs the worker, records and leaves everything released. */
  lemma SoloWorker(s: State, c: CallId, r: Response, fault: Option<Statement>, writeOk: bool)
    returns (actions: seq<Action>, t: State)
    requires LockInv(s) && c in s.calls && s.calls[c].pc.Acquire? && s.calls[c].event !in s.locks
    requires Misses(s.audit, s.calls[c].event, fault) && (fault.Some? ==> LockedRead(fault.value))
    ensures RunWith(s, actions, t, Opt(fault) + if writeOk then [] else [RecordWrite])
    ensures t == s.(calls := s.calls[c := Call(s.calls[c].event, Done(Returned(r, false, writeOk)))],
                    nextLock := s.nextLock + 1,
                    audit := NextAudit(s.audit, s.calls[c].event, Record(s.nextLock, r), writeOk),
                    completed := s.completed + [Completion(c, s.calls[c].event, r)])
  {
    var first, mid := SoloToWork(s, c, fault);
    var second, end := SoloFinish(mid, c, r, writeOk);
    RunWithConcat(s, first, mid, Opt(fault), second, end, if writeOk then [] else [RecordWrite]);
    actions, t := first + second, end;
    SoloRestores(s.locks, s.held, s.calls[c].event, s.nextLock, c);
    assert end.calls == s.calls[c := Call(s.calls[c].event, Done(Returned(r, false, writeOk)))];
  }

  // ----- one answer for all callers -------------------------------------------------------------

  /**
   Both audit reads are separate statements, so a stub row is enough to break the promise: for
   every table holding a body-less row there is a run with no fault at all in which two calls
   answer with different statuses, the second one a status no worker ever produced.
   */
  lemma StubTearsAnswer(init: Audit, id: EventId, r: Response)
    returns (actions: seq<Action>, t: State)
    requires Stub(init, id)
    ensures RunWith(Initial(init), actions, t, [])
    ensures Answered(t, 0, id) && t.calls[0].pc.outcome.response == Response(init[id].status, r.body)
    ensures Answered(t, 1, id) && t.calls[1].pc.outcome.response == r
    ensures id in t.audit && t.audit[id].status == init[id].status
  {
    var early, torn := StubPrefix(init, id);
    LockInvAlongRun(Initial(init), early, torn);
    var solo, mid := SoloWorker(torn, 1, r, None, true);
    var late, end := LateBody(mid, 0);
    RunWithConcat(Initial(init), early, torn, [], solo, mid, []);
    RunWithConcat(Initial(init), early + solo, mid, [], late, end, []);
    actions, t := early + solo + late, end;
  }

  /** A call that has read the row before it was completed reads the body afterwards. */
  lemma LateBody(s: State, c: CallId) returns (actions: seq<Action>, t: State)
    requires c in s.calls && s.calls[c].pc.FastBody? && Stored(s.audit, s.calls[c].event)
    ensures RunWith(s, actions, t, [])
    ensures var Call(id, pc) := s.calls[c];
            var torn := Response(pc.status, s.audit[id].body.value);
            t == s.(calls := s.calls[c := Call(id, Done(Returned(torn, true, true)))],
                    audit := Upsert(s.audit, id, torn.status, true, Some(torn.body)))
  {
    assert Faults(s, []) == [];
    actions, t := Push(s, [], s, c, Luck(true, true, None));
    assert t.calls[c].pc.FastHit?;
    actions, t := Push(s, actions, t, c, Luck(true, true, None));
  }

  /** Two calls have read the stub row; one of them has already found that it holds no body. */
  lemma StubPrefix(init: Audit, id: EventId) returns (actions: seq<Action>, t: State)
    requires Stub(init, id)
    ensures RunWith(Initial(init), actions, t, [])
    ensures t == Initial(init).(calls := map[0 := Call(id, FastBody(init[id].status)), 1 := Call(id, Acquire)])
  {
    var s := Initial(init);
    assert Faults(s, []) == [];
    var one, begun := Enter(s, [], s, 0, id);
    var first, mid := Push(s, one, begun, 0, Luck(true, true, None));
    var second, end := MissFast(mid, 1, id, None);
    RunWithConcat(s, first, mid, [], second, end, []);
    actions, t := first + second, end;
  }

  // ----- at most one worker ---------------------------------------------------------------------

  ghost predicate Twice(t: State, id: EventId, first: Response, second: Response) {
    && Of(t.completed, id) == [Completion(0, id, first), Completion(1, id, second)]
    && Answered(t, 0, id) && t.calls[0].pc.outcome.response == first && !t.calls[0].pc.outcome.hit
    && Answered(t, 1, id) && t.calls[1].pc.outcome.response == second && !t.calls[1].pc.outcome.hit
  }

  lemma TwoCompletions(id: EventId, first: Response, second: Response)
    ensures Of([Completion(0, id, first), Completion(1, id, second)], id)
            == [Completion(0, id, first), Completion(1, id, second)]
  {
    OfAppend([], Completion(0, id, first), id);
    OfAppend([Completion(0, id, first)], Completion(1, id, second), id);
    assert [] + [Completion(0, id, first)] == [Completion(0, id, first)];
    assert [Completion(0, id, first)] + [Completion(1, id, second)]
        == [Completion(0, id, first), Completion(1, id, second)];
  }

  /** A call that has missed the fast lookup and one that is about to, both served alone, one after the other. */
  lemma ServeBoth(s: State, id: EventId, first: Response, second: Response,
                  fault0: Option<Statement>, writeOk: bool, fault1: Option<Statement>)
    returns (actions: seq<Action>, t: State)
    requires LockInv(s) && s.locks == map[] && s.completed == []
    requires 0 in s.calls && 1 in s.calls && s.calls[0] == s.calls[1] == Call(id, Acquire)
    requires Misses(s.audit, id, fault0) && (fault0.Some? ==> LockedRead(fault0.value))
    requires Misses(NextAudit(s.audit, id, Record(s.nextLock, first), writeOk), id, fault1)
    requires fault1.Some? ==> LockedRead(fault1.value)
    ensures RunWith(s, actions, t, Opt(fault0) + (if writeOk then [] else [RecordWrite]) + Opt(fault1))
    ensures Twice(t, id, first, second)
  {
    var one, mid := SoloWorker(s, 0, first, fault0, writeOk);
    LockInvAlongRun(s, one, mid);
    var two, end := SoloWorker(mid, 1, second, fault1, true);
    assert Opt(fault1) + [] == Opt(fault1);
    RunWithConcat(s, one, mid, Opt(fault0) + if writeOk then [] else [RecordWrite], two, end, Opt(fault1));
    actions, t := one + two, end;
    ServedTwice(s, mid, end, id, first, second, writeOk);
  }

  lemma ServedTwice(s: State, mid: State, t: State, id: EventId, first: Response, second: Response, writeOk: bool)
    requires s.completed == [] && mid.completed == s.completed + [Completion(0, id, first)]
    requires t.completed == mid.completed + [Completion(1, id, second)]
    requires 0 in mid.calls && mid.calls[0] == Call(id, Done(Returned(first, false, writeOk)))
    requires t.calls == mid.calls[1 := Call(id, Done(Returned(second, false, true)))]
    ensures Twice(t, id, first, second)
  {
    TwoCompletions(id, first, second);
    assert t.completed == [Completion(0, id, first), Completion(1, id, second)];
  }

  /** Two calls begin and miss the fast lookup. */
  lemma BothMiss(init: Audit, id: EventId, fault: Option<Statement>) returns (actions: seq<Action>, t: State)
    requires Misses(init, id, fault) && (fault.Some? ==> FastRead(fault.value))
    ensures RunWith(Initial(init), actions, t, Opt(fault) + Opt(fault))
    ensures t == Initial(init).(calls := map[0 := Call(id, Acquire), 1 := Call(id, Acquire)])
  {
    var s := Initial(init);
    var one, mid := MissFast(s, 0, id, fault);
    var two, end := MissFast(mid, 1, id, fault);
    RunWithConcat(s, one, mid, Opt(fault), two, end, Opt(fault));
    actions, t := one + two, end;
  }

  /**
   One failing statement of the ones that matter is enough: from any table without a response for
   the event there is a run in which exactly that statement fails, once, and the worker finishes
   twice - when the response is not recorded, or when the second call cannot read it back inside the lock.
   */
  lemma OneFaultRepeatsWorker(init: Audit, id: EventId, fault: Statement, first: Response, second: Response)
    returns (actions: seq<Action>, t: State)
    requires !Stored(init, id) && (LockedRead(fault) || fault.RecordWrite?)
    ensures RunWith(Initial(init), actions, t, [fault]) && Twice(t, id, first, second)
  {
    var start, s := BothMiss(init, id, None);
    LockInvAlongRun(Initial(init), start, s);
    var rest, end;
    if fault.RecordWrite? {
      rest, end := ServeBoth(s, id, first, second, None, false, None);
    } else {
      rest, end := ServeBoth(s, id, first, second, None, true, Some(fault));
    }
    assert Faults(Initial(init), start) == [] && Faults(s, rest) == [fault];
    RunWithConcat(Initial(init), start, s, [], rest, end, [fault]);
    assert [] + [fault] == [fault];
    actions, t := start + rest, end;
  }

  /** Over a stored response it takes, for each of the two calls, a failing fast read and one inside the lock. */
  lemma TwoFaultsPerRun(init: Audit, id: EventId, fast: Statement, locked: Statement, first: Response, second: Response)
    returns (actions: seq<Action>, t: State)
    requires Stored(init, id) && FastRead(fast) && LockedRead(locked)
    ensures RunWith(Initial(init), actions, t, [fast, fast, locked, locked]) && Twice(t, id, first, second)
  {
    var start, s := BothMiss(init, id, Some(fast));
    LockInvAlongRun(Initial(init), start, s);
    var rest, end := ServeBoth(s, id, first, second, Some(locked), true, Some(locked));
    assert Opt(Some(locked)) + [] + Opt(Some(locked)) == [locked, locked];
    assert Faults(Initial(init), start) == [fast, fast];
    RunWithConcat(Initial(init), start, s, [fast, fast], rest, end, [locked, locked]);
    assert [fast, fast] + [locked, locked] == [fast, fast, locked, locked];
    actions, t := start + rest, end;
  }

  // ----- exactly when the promises hold ---------------------------------------------------------

  /** In every run in which only the statements in `may` fail for the event, the worker finishes at most once for it. */
  ghost predicate AlwaysOnce(init: Audit, id: EventId, may: set<Statement>) {
    forall actions, t | IsRun(Initial(init), actions, t) && OnlyFaults(Initial(init), actions, id, may) ::
      |Of(t.completed, id)| <= 1
  }

  ghost predicate AllAgree(t: State, id: EventId) {
    forall c, d | Answered(t, c, id) && Answered(t, d, id) ::
      t.calls[c].pc.outcome.response == t.calls[d].pc.outcome.response
  }

  /** In every such run all callers get the same answer. */
  ghost predicate AlwaysOneAnswer(init: Audit, id: EventId, may: set<Statement>) {
    forall actions, t | IsRun(Initial(init), actions, t) && OnlyFaults(Initial(init), actions, id, may) ::
      AllAgree(t, id)
  }

  /** No statement of that kind fails. */
  predicate Reliable(may: set<Statement>, kind: Statement -> bool) {
    forall x | x in may :: !kind(x)
  }

  /**
   When the worker finishes at most once. Without a stored response the reads inside the lock and the
   recording write have to work, and nothing else; with one, it is enough that one of the two lookups works.
   */
  lemma WorkerOnceIff(init: Audit, id: EventId, may: set<Statement>)
    ensures AlwaysOnce(init, id, may)
            <==> (if Stored(init, id) then Reliable(may, FastRead) || Reliable(may, LockedRead)
                  else Reliable(may, LockedRead) && RecordWrite !in may)
  {
    if Reliable(may, LockedRead) && (Stored(init, id) || RecordWrite !in may) {
      LockedReadsSuffice(init, id, may);
    } else if Stored(init, id) && Reliable(may, FastRead) {
      FastReadsSuffice(init, id, may);
    } else {
      var actions, t := SomeRunRepeats(init, id, may);
    }
  }

  /** When callers agree: for the same sets of statements, over a table without a body-less row for the event. */
  lemma OneAnswerIff(init: Audit, id: EventId, may: set<Statement>)
    ensures AlwaysOneAnswer(init, id, may) <==> !Stub(init, id) && AlwaysOnce(init, id, may)
    ensures AlwaysOneAnswer(init, id, may)
            <==> (if id in init then !Stub(init, id) && (Reliable(may, FastRead) || Reliable(may, LockedRead))
                  else Reliable(may, LockedRead) && RecordWrite !in may)
  {
    WorkerOnceIff(init, id, may);
    if Stub(init, id) {
      StubDisagrees(init, id, may);
    } else if Reliable(may, LockedRead) && (Stored(init, id) || RecordWrite !in may) {
      LockedReadsSuffice(init, id, may);
    } else if Stored(init, id) && Reliable(may, FastRead) {
      FastReadsSuffice(init, id, may);
    } else {
      var actions, t := SomeRunRepeats(init, id, may);
    }
  }

  /** In particular, with a working audit table callers always agree exactly when it starts without a body-less row. */
  lemma AnswerUniqueIffNoStub(init: Audit, id: EventId)
    ensures AlwaysOneAnswer(init, id, {}) <==> !Stub(init, id)
  {
    OneAnswerIff(init, id, {});
  }

  lemma StubDisagrees(init: Audit, id: EventId, may: set<Statement>)
    requires Stub(init, id)
    ensures !AlwaysOneAnswer(init, id, may)
  {
    var r := Response(init[id].status + 1, "");
    var actions, t := StubTearsAnswer(init, id, r);
    EventFaultsAreFaults(Initial(init), actions, id);
    assert OnlyFaults(Initial(init), actions, id, may);
    assert Answered(t, 0, id) && Answered(t, 1, id);
    assert t.calls[0].pc.outcome.response != t.calls[1].pc.outcome.response;
    assert !AllAgree(t, id);
  }

  lemma LockedReadsSuffice(init: Audit, id: EventId, may: set<Statement>)
    requires Reliable(may, LockedRead) && (Stored(init, id) || RecordWrite !in may)
    ensures AlwaysOnce(init, id, may) && (!Stub(init, id) ==> AlwaysOneAnswer(init, id, may))
  {
    forall x | x in may ensures !Matters(init, id, x) {
      assert !LockedRead(x);
    }
    forall actions, t | IsRun(Initial(init), actions, t) && OnlyFaults(Initial(init), actions, id, may)
      ensures |Of(t.completed, id)| <= 1 && (!Stub(init, id) ==> AllAgree(t, id))
    {
      WorkerOnce(init, actions, t, id, may);
      if !Stub(init, id) {
        OneAnswer(init, actions, t, id, may);
      }
    }
  }

  lemma FastReadsSuffice(init: Audit, id: EventId, may: set<Statement>)
    requires Stored(init, id) && Reliable(may, FastRead)
    ensures AlwaysOnce(init, id, may) && AlwaysOneAnswer(init, id, may)
  {
    assert FastRead(FastRowRead) && FastRead(FastBodyRead);
    forall actions, t | IsRun(Initial(init), actions, t) && OnlyFaults(Initial(init), actions, id, may)
      ensures |Of(t.completed, id)| <= 1 && AllAgree(t, id)
    {
      FastAlongRun(Initial(init), actions, t, id, may, Response(init[id].status, init[id].body.value));
    }
  }

  lemma SomeRunRepeats(init: Audit, id: EventId, may: set<Statement>) returns (actions: seq<Action>, t: State)
    requires if Stored(init, id) then !Reliable(may, FastRead) && !Reliable(may, LockedRead)
             else !Reliable(may, LockedRead) || RecordWrite in may
    ensures IsRun(Initial(init), actions, t) && OnlyFaults(Initial(init), actions, id, may)
    ensures |Of(t.completed, id)| == 2 && !AllAgree(t, id)
  {
    var first, second := Response(200, ""), Response(500, "");
    if Stored(init, id) {
      var fast :| fast in may && FastRead(fast);
      var locked :| locked in may && LockedRead(locked);
      actions, t := TwoFaultsPerRun(init, id, fast, locked, first, second);
    } else {
      var fault :| fault in may && (LockedRead(fault) || fault.RecordWrite?);
      actions, t := OneFaultRepeatsWorker(init, id, fault, first, second);
    }
    EventFaultsAreFaults(Initial(init), actions, id);
    assert t.calls[0].pc.outcome.response != t.calls[1].pc.outcome.response;
  }
}
