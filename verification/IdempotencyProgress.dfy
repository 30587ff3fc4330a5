/**
 Progress: no call runs forever, no set of calls deadlocks, and nothing is left behind.
 */
module IdempotencyProgress {
  import opened Idempotency

  /** How many steps a call can still take. */
  function Rank(pc: Pc): nat {
    match pc
    case FastRow => 10
    case FastBody(_) => 9
    case Acquire => 8
    case Wait(_) => 7
    case LockedRow(_) => 6
    case LockedBody(_, _) => 5
    case Work(_) => 4
    case Record(_, _) => 3
    case LockedHit(_, _) => 3
    case Unlock(_, _) => 2
    case Release(_, _) => 1
    case FastHit(_) => 1
    case Done(_) => 0
  }

  ghost function Effort(calls: map<CallId, Call>): nat
    decreases |calls|
  {
    if calls == map[] then 0
    else
      var c :| c in calls;
      Rank(calls[c].pc) + Effort(calls - {c})
  }

  lemma {:induction false} EffortSplit(calls: map<CallId, Call>, c: CallId)
    requires c in calls
    ensures Effort(calls) == Rank(calls[c].pc) + Effort(calls - {c})
    decreases |calls|
  {
    var d :| d in calls && Effort(calls) == Rank(calls[d].pc) + Effort(calls - {d});
    if d != c {
      EffortSplit(calls - {d}, c);
      EffortSplit(calls - {c}, d);
      assert calls - {d} - {c} == calls - {c} - {d};
    }
  }

  /** Every step uses up some of the remaining effort, so no call runs forever. */
  lemma EffortFalls(s: State, c: CallId, luck: Luck)
    requires CanAdvance(s, c)
    ensures Effort(Step(s, c, luck).calls) < Effort(s.calls)
  {
    var t := Step(s, c, luck);
    EffortSplit(s.calls, c);
    EffortSplit(t.calls, c);
    assert t.calls - {c} == s.calls - {c};
  }

  /** No deadlock: while some call has not ended, some call can take a step. */
  lemma SomeCallCanStep(audit: Audit, actions: seq<Action>, t: State, c: CallId) returns (d: CallId)
    requires IsRun(Initial(audit), actions, t)
    requires c in t.calls && !t.calls[c].pc.Done?
    ensures CanAdvance(t, d)
  {
    LockInvAlongRun(Initial(audit), actions, t);
    d := c;
    if !CanAdvance(t, c) {
      d := t.held[t.calls[c].pc.lock];
    }
  }

  /** Once every call has ended, no lock is held and the lock table is empty. */
  lemma NothingLeftBehind(audit: Audit, actions: seq<Action>, t: State)
    requires IsRun(Initial(audit), actions, t)
    requires forall c | c in t.calls :: t.calls[c].pc.Done?
    ensures t.locks == map[] && t.held == map[]
  {
    LockInvAlongRun(Initial(audit), actions, t);
    SomeoneKeepsEachLock(t);
    assert t.locks.Keys == {} && t.held.Keys == {};
  }

  lemma SomeoneKeepsEachLock(s: State)
    requires LockInv(s)
    ensures forall id | id in s.locks :: exists c :: c in s.calls && Referring(s.calls[c].pc)
    ensures forall l | l in s.held :: exists c :: c in s.calls && Referring(s.calls[c].pc)
  {
    forall id | id in s.locks ensures exists c :: c in s.calls && Referring(s.calls[c].pc) {
      var c :| c in Referrers(s.calls, id);
    }
    forall l | l in s.held ensures exists c :: c in s.calls && Referring(s.calls[c].pc) {
      assert Referring(s.calls[s.held[l]].pc);
    }
  }
}
