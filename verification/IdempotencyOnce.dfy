/**
 At most once: which audit statements have to work for the worker to finish at most once per event
 id, in every interleaving, whatever the starting table holds and whatever else fails.
 */
module IdempotencyOnce {
  import opened Wrappers
  import opened Idempotency
  import opened IdempotencyAnswers

  /** The call ran the worker to completion. */
  predicate Missed(pc: Pc) {
    match pc
    case Record(_, _) => true
    case Unlock(_, o) => o.Returned? && !o.hit
    case Release(_, o) => o.Returned? && !o.hit
    case Done(o) => o.Returned? && !o.hit
    case _ => false
  }

  /** The call found the response. */
  predicate Found(pc: Pc) {
    match pc
    case FastHit(_) => true
    case LockedHit(_, _) => true
    case Unlock(_, o) => o.Returned? && o.hit
    case Release(_, o) => o.Returned? && o.hit
    case Done(o) => o.Returned? && o.hit
    case _ => false
  }

  /** What a call of an event may be doing, given who completed and whether the response is stored. */
  ghost predicate CallAgrees(c: CallId, pc: Pc, done: seq<Completion>, stored: bool) {
    && (pc.Work? ==> done == [] && !stored)
    && (Missed(pc) ==> done != [] && done[0].call == c)
    && (Found(pc) ==> stored)
  }

  /** One completion at most; its call is still there, about to record or past it; what is stored came from it. */
  ghost predicate Once(init: Audit, calls: map<CallId, Call>, audit: Audit, completed: seq<Completion>, id: EventId) {
    var done := Of(completed, id);
    && |done| <= 1
    && (Stored(init, id) ==> Stored(audit, id) && done == [])
    && (Stored(audit, id) && !Stored(init, id) ==> done != [])
    && (done != [] ==> var w := done[0].call;
                       && w in calls && calls[w].event == id && Missed(calls[w].pc)
                       && (Stored(audit, id) || calls[w].pc.Record?))
    && (forall c | c in calls && calls[c].event == id :: CallAgrees(c, calls[c].pc, done, Stored(audit, id)))
  }

  lemma OnceFrame(init: Audit, calls: map<CallId, Call>, audit: Audit, completed: seq<Completion>,
                  calls2: map<CallId, Call>, audit2: Audit, completed2: seq<Completion>, id: EventId)
    requires Once(init, calls, audit, completed, id)
    requires forall c | c in calls && calls[c].event == id :: c in calls2 && calls2[c] == calls[c]
    requires forall c | c in calls2 && calls2[c].event == id ::
               || (c in calls && calls[c] == calls2[c])
               || (!calls2[c].pc.Work? && !Missed(calls2[c].pc) && !Found(calls2[c].pc))
    requires Stored(audit2, id) == Stored(audit, id)
    requires Of(completed2, id) == Of(completed, id)
    ensures Once(init, calls2, audit2, completed2, id)
  {
  }

  lemma OnceAfterBegin(init: Audit, s: State, c: CallId, event: EventId, wellFormed: bool, id: EventId)
    requires c !in s.calls && Once(init, s.calls, s.audit, s.completed, id)
    ensures var t := Next(s, Begin(c, event, wellFormed)); Once(init, t.calls, t.audit, t.completed, id)
  {
    var t := Next(s, Begin(c, event, wellFormed));
    OnceFrame(init, s.calls, s.audit, s.completed, t.calls, t.audit, t.completed, id);
  }

  lemma OnceAfterOtherStep(init: Audit, s: State, c: CallId, luck: Luck, id: EventId)
    requires CanAdvance(s, c) && s.calls[c].event != id && Once(init, s.calls, s.audit, s.completed, id)
    ensures var t := Step(s, c, luck); Once(init, t.calls, t.audit, t.completed, id)
  {
    var t := Step(s, c, luck);
    if t.completed != s.completed {
      OfAppend(s.completed, t.completed[|s.completed|], id);
    }
    OnceFrame(init, s.calls, s.audit, s.completed, t.calls, t.audit, t.completed, id);
  }

  /** A worker finishes: it is the first, since it is alone inside the lock and nothing was stored. */
  lemma OnceAfterWork(init: Audit, s: State, c: CallId, luck: Luck)
    requires LockInv(s) && CanAdvance(s, c) && s.calls[c].pc.Work? && luck.worker.Some?
    requires Once(init, s.calls, s.audit, s.completed, s.calls[c].event)
    ensures var t := Step(s, c, luck); Once(init, t.calls, t.audit, t.completed, s.calls[c].event)
  {
    var id := s.calls[c].event;
    var t := Step(s, c, luck);
    var done := Completion(c, id, luck.worker.value);
    OfAppend(s.completed, done, id);
    assert Of(t.completed, id) == [done];
    forall d | d in t.calls && t.calls[d].event == id && d != c
      ensures CallAgrees(d, t.calls[d].pc, Of(t.completed, id), Stored(t.audit, id))
    {
      assert t.calls[d] == s.calls[d];
      assert CallAgrees(d, s.calls[d].pc, Of(s.completed, id), Stored(s.audit, id));
      assert s.calls[d].pc.Work? ==> Holding(s.calls[d].pc);
    }
  }

  /** A call that looks the row up inside the lock goes on to the worker only if nobody completed. */
  lemma NobodyCompleted(init: Audit, s: State, c: CallId)
    requires LockInv(s) && c in s.calls && (s.calls[c].pc.LockedRow? || s.calls[c].pc.LockedBody?)
    requires Once(init, s.calls, s.audit, s.completed, s.calls[c].event) && !Stored(s.audit, s.calls[c].event)
    ensures Of(s.completed, s.calls[c].event) == []
  {
    var id := s.calls[c].event;
    if Of(s.completed, id) != [] {
      OneHolder(s, c, Of(s.completed, id)[0].call);
    }
  }

  /** What any other step stores is stored for good, and only a completed worker stores anything new. */
  lemma StoredAfterStep(init: Audit, s: State, c: CallId, luck: Luck)
    requires CanAdvance(s, c) && Once(init, s.calls, s.audit, s.completed, s.calls[c].event)
    ensures var id, pc := s.calls[c].event, s.calls[c].pc;
            && (Stored(s.audit, id) ==> Stored(Step(s, c, luck).audit, id))
            && (Stored(Step(s, c, luck).audit, id) ==> Stored(s.audit, id) || pc.Record?)
            && (pc.Record? && luck.writeOk ==> Stored(Step(s, c, luck).audit, id))
  {
    assert CallAgrees(c, s.calls[c].pc, Of(s.completed, s.calls[c].event), Stored(s.audit, s.calls[c].event));
  }

  lemma OwnCallAgrees(init: Audit, s: State, c: CallId, luck: Luck)
    requires LockInv(s) && CanAdvance(s, c) && !(s.calls[c].pc.Work? && luck.worker.Some?)
    requires Fails(s.calls[c].pc, luck) ==> !Matters(init, s.calls[c].event, StatementAt(s.calls[c].pc).value)
    requires Once(init, s.calls, s.audit, s.completed, s.calls[c].event)
    ensures var id, t := s.calls[c].event, Step(s, c, luck);
            && CallAgrees(c, t.calls[c].pc, Of(s.completed, id), Stored(t.audit, id))
            && (Missed(s.calls[c].pc) ==> Missed(t.calls[c].pc))
            && (s.calls[c].pc.Record? ==> Stored(t.audit, id))
  {
    var id, pc := s.calls[c].event, s.calls[c].pc;
    assert CallAgrees(c, pc, Of(s.completed, id), Stored(s.audit, id));
    StoredAfterStep(init, s, c, luck);
    if (pc.LockedRow? || pc.LockedBody?) && !Stored(s.audit, id) {
      NobodyCompleted(init, s, c);
    }
  }

  /** Every other step, as long as the statements that matter work. */
  lemma OnceAfterOwnStep(init: Audit, s: State, c: CallId, luck: Luck)
    requires LockInv(s) && CanAdvance(s, c) && !(s.calls[c].pc.Work? && luck.worker.Some?)
    requires Fails(s.calls[c].pc, luck) ==> !Matters(init, s.calls[c].event, StatementAt(s.calls[c].pc).value)
    requires Once(init, s.calls, s.audit, s.completed, s.calls[c].event)
    ensures var t := Step(s, c, luck); Once(init, t.calls, t.audit, t.completed, s.calls[c].event)
  {
    var id, t := s.calls[c].event, Step(s, c, luck);
    var done := Of(s.completed, id);
    assert t.completed == s.completed;
    StoredAfterStep(init, s, c, luck);
    OwnCallAgrees(init, s, c, luck);
    assert CallAgrees(c, s.calls[c].pc, done, Stored(s.audit, id));
    forall d | d in t.calls && t.calls[d].event == id && d != c
      ensures CallAgrees(d, t.calls[d].pc, done, Stored(t.audit, id))
    {
      assert t.calls[d] == s.calls[d];
      assert CallAgrees(d, s.calls[d].pc, done, Stored(s.audit, id));
    }
  }

  lemma OnceAfterAction(init: Audit, s: State, a: Action, id: EventId)
    requires LockInv(s) && Possible(s, a) && Once(init, s.calls, s.audit, s.completed, id)
    requires forall x | x in EventFault(s, a, id) :: !Matters(init, id, x)
    ensures var t := Next(s, a); LockInv(t) && Once(init, t.calls, t.audit, t.completed, id)
  {
    LockInvAlongRun(s, [a], Next(s, a)) by {
      assert IsRun(Next(s, a), [a][1..], Next(s, a));
    }
    match a {
      case Begin(c, event, w) => OnceAfterBegin(init, s, c, event, w, id);
      case Advance(c, luck) =>
        if s.calls[c].event != id {
          OnceAfterOtherStep(init, s, c, luck, id);
        } else if s.calls[c].pc.Work? && luck.worker.Some? {
          OnceAfterWork(init, s, c, luck);
        } else {
          assert Fails(s.calls[c].pc, luck) ==> StatementAt(s.calls[c].pc).value in EventFault(s, a, id);
          OnceAfterOwnStep(init, s, c, luck);
        }
    }
  }

  lemma {:induction false} OnceAlongRun(init: Audit, s: State, actions: seq<Action>, t: State, id: EventId,
                                        may: set<Statement>)
    requires LockInv(s) && IsRun(s, actions, t) && Once(init, s.calls, s.audit, s.completed, id)
    requires OnlyFaults(s, actions, id, may) && forall x | x in may :: !Matters(init, id, x)
    ensures Once(init, t.calls, t.audit, t.completed, id)
    decreases |actions|
  {
    if actions != [] {
      FaultsSplit(s, actions, id, may);
      OnceAfterAction(init, s, actions[0], id);
      OnceAlongRun(init, Next(s, actions[0]), actions[1..], t, id, may);
    }
  }

  /**
   As long as the reads inside the lock work, and recording too unless the response was stored
   before: in every interleaving, from any table, the worker finishes at most once per event id, at
   most one answer is a miss, and once the calls have ended exactly one is, unless the response was
   stored before. Fast reads and the writes of hits may fail as they please.
   */
  lemma WorkerOnce(init: Audit, actions: seq<Action>, t: State, id: EventId, may: set<Statement>)
    requires IsRun(Initial(init), actions, t) && OnlyFaults(Initial(init), actions, id, may)
    requires forall x | x in may :: !Matters(init, id, x)
    ensures |Of(t.completed, id)| <= 1 && (Stored(init, id) ==> Of(t.completed, id) == [])
    ensures forall c, d | Answered(t, c, id) && Answered(t, d, id) ::
              !t.calls[c].pc.outcome.hit && !t.calls[d].pc.outcome.hit ==> c == d
    ensures !Stored(init, id) && Quiet(t, id) && (exists c :: Answered(t, c, id)) ==>
              exists c :: Answered(t, c, id) && !t.calls[c].pc.outcome.hit
  {
    var s := Initial(init);
    assert Once(init, s.calls, s.audit, s.completed, id);
    OnceAlongRun(init, s, actions, t, id, may);
    var done := Of(t.completed, id);
    forall c | Answered(t, c, id)
      ensures t.calls[c].pc.outcome.hit ==> Stored(t.audit, id)
      ensures !t.calls[c].pc.outcome.hit ==> done != [] && done[0].call == c
    {
      assert CallAgrees(c, t.calls[c].pc, done, Stored(t.audit, id));
    }
    if !Stored(init, id) && Quiet(t, id) && exists c :: Answered(t, c, id) {
      assert done != [];
      assert Answered(t, done[0].call, id);
    }
  }

  // ----- a stored response that every fast lookup finds -----------------------------------------

  /** With a stored response and working fast reads no call gets past the fast lookup, or answers anything else. */
  ghost predicate Fast(s: State, id: EventId, stored: Response) {
    && id in s.audit && s.audit[id].status == stored.status && s.audit[id].body == Some(stored.body)
    && Of(s.completed, id) == []
    && forall c | c in s.calls && s.calls[c].event == id ::
         match s.calls[c].pc
         case FastRow => true
         case FastBody(status) => status == stored.status
         case FastHit(r) => r == stored
         case Done(o) => o.Returned? ==> o.response == stored
         case _ => false
  }

  lemma FastAfterAction(s: State, a: Action, id: EventId, stored: Response)
    requires Possible(s, a) && Fast(s, id, stored)
    requires forall x | x in EventFault(s, a, id) :: !x.FastRowRead? && !x.FastBodyRead?
    ensures Fast(Next(s, a), id, stored)
  {
    if a.Advance? {
      var pc := s.calls[a.call].pc;
      assert s.calls[a.call].event == id && Fails(pc, a.luck) ==> StatementAt(pc).value in EventFault(s, a, id);
      var t := Step(s, a.call, a.luck);
      if t.completed != s.completed {
        OfAppend(s.completed, t.completed[|s.completed|], id);
      }
    }
  }

  lemma {:induction false} FastAlongRun(s: State, actions: seq<Action>, t: State, id: EventId, may: set<Statement>,
                                        stored: Response)
    requires IsRun(s, actions, t) && Fast(s, id, stored) && OnlyFaults(s, actions, id, may)
    requires FastRowRead !in may && FastBodyRead !in may
    ensures Fast(t, id, stored)
    decreases |actions|
  {
    if actions != [] {
      FaultsSplit(s, actions, id, may);
      FastAfterAction(s, actions[0], id, stored);
      FastAlongRun(Next(s, actions[0]), actions[1..], t, id, may, stored);
    }
  }
}
