/**
 One answer per event: as long as the audit statements that matter work, the worker finishes at most
 once per event id and every caller gets the same answer, in every interleaving.
 */
module IdempotencyAnswers {
  import opened Wrappers
  import opened Idempotency

  ghost function Of(completed: seq<Completion>, id: EventId): seq<Completion> {
    if completed == [] then []
    else
      var rest := Of(completed[..|completed| - 1], id);
      var last := completed[|completed| - 1];
      if last.event == id then rest + [last] else rest
  }

  lemma OfAppend(completed: seq<Completion>, x: Completion, id: EventId)
    ensures Of(completed + [x], id) == if x.event == id then Of(completed, id) + [x] else Of(completed, id)
  {
    assert (completed + [x])[..|completed|] == completed;
  }

  /** A row without a body, as `record_ack` leaves behind. */
  predicate Stub(audit: Audit, id: EventId) {
    id in audit && audit[id].body.None?
  }

  /** A response is stored for the event. */
  predicate Stored(audit: Audit, id: EventId) {
    id in audit && audit[id].body.Some?
  }

  /** What has to work for an event: the reads inside the lock and, unless a response was stored before, recording. */
  predicate Matters(init: Audit, id: EventId, x: Statement) {
    x.LockedRowRead? || x.LockedBodyRead? || (x.RecordWrite? && !Stored(init, id))
  }

  /** The answer an event id is committed to, if any: the stored one, or the first finished worker's. */
  ghost function Answer(init: Audit, completed: seq<Completion>, id: EventId): Option<Response> {
    if id in init && init[id].body.Some? then Some(Response(init[id].status, init[id].body.value))
    else if Of(completed, id) != [] then Some(Of(completed, id)[0].response)
    else None
  }

  ghost predicate IsWinner(completed: seq<Completion>, id: EventId, c: CallId) {
    Of(completed, id) != [] && Of(completed, id)[0].call == c
  }

  /** What a call of an event may be doing, given the committed answer and whether the row is written. */
  predicate PcAgrees(pc: Pc, answer: Option<Response>, recorded: bool, winner: bool) {
    match pc
    case FastBody(status) => recorded && answer.Some? && status == answer.value.status && !winner
    case LockedBody(_, status) => recorded && answer.Some? && status == answer.value.status && !winner
    case FastHit(r) => recorded && answer == Some(r) && !winner
    case LockedHit(_, r) => recorded && answer == Some(r) && !winner
    case Work(_) => answer.None?
    case Record(_, r) => answer == Some(r) && !recorded && winner
    case Unlock(_, o) => OutcomeAgrees(o, answer, recorded, winner)
    case Release(_, o) => OutcomeAgrees(o, answer, recorded, winner)
    case Done(o) => OutcomeAgrees(o, answer, recorded, winner)
    case _ => !winner
  }

  predicate OutcomeAgrees(o: Outcome, answer: Option<Response>, recorded: bool, winner: bool) {
    match o
    case Returned(r, hit, _) => recorded && answer == Some(r) && hit == !winner
    case _ => !winner
  }

  predicate RowAgrees(audit: Audit, id: EventId, answer: Option<Response>) {
    id in audit ==>
      && answer.Some?
      && audit[id].status == answer.value.status
      && audit[id].body == Some(answer.value.body)
  }

  ghost predicate Agreed(init: Audit, calls: map<CallId, Call>, audit: Audit, completed: seq<Completion>, id: EventId) {
    var answer := Answer(init, completed, id);
    && RowAgrees(audit, id, answer)
    && (id in init ==> id in audit && Of(completed, id) == [])
    && |Of(completed, id)| <= 1
    && (forall w | IsWinner(completed, id, w) :: w in calls && calls[w].event == id)
    && (answer.Some? && id !in audit ==> exists w :: IsWinner(completed, id, w) && w in calls && calls[w].pc.Record?)
    && (forall c | c in calls && calls[c].event == id ::
          PcAgrees(calls[c].pc, answer, id in audit, IsWinner(completed, id, c)))
  }

  /** The story of an event depends only on its own calls, its row and its completions. */
  lemma AgreedFrame(init: Audit, calls: map<CallId, Call>, audit: Audit, completed: seq<Completion>,
                    calls2: map<CallId, Call>, audit2: Audit, completed2: seq<Completion>, id: EventId)
    requires Agreed(init, calls, audit, completed, id)
    requires forall c | c in calls && calls[c].event == id :: c in calls2 && calls2[c] == calls[c]
    requires forall c | c in calls2 && calls2[c].event == id && c !in calls ::
               PcAgrees(calls2[c].pc, None, false, false) && !calls2[c].pc.Work?
    requires forall c | c in calls2 && calls2[c].event == id && c in calls :: calls[c].event == id
    requires (id in audit2 <==> id in audit) && (id in audit ==> audit2[id] == audit[id])
    requires Of(completed2, id) == Of(completed, id)
    ensures Agreed(init, calls2, audit2, completed2, id)
  {
    assert Answer(init, completed2, id) == Answer(init, completed, id);
    forall w ensures IsWinner(completed2, id, w) == IsWinner(completed, id, w) {}
    if Answer(init, completed, id).Some? && id !in audit {
      var w :| IsWinner(completed, id, w) && w in calls && calls[w].pc.Record?;
      assert calls2[w] == calls[w];
    }
  }

  /** A step of a call of another event leaves this event's story alone. */
  lemma AgreedAfterOtherStep(init: Audit, s: State, c: CallId, luck: Luck, id: EventId)
    requires CanAdvance(s, c) && s.calls[c].event != id
    requires Agreed(init, s.calls, s.audit, s.completed, id)
    ensures var t := Step(s, c, luck); Agreed(init, t.calls, t.audit, t.completed, id)
  {
    var t := Step(s, c, luck);
    if t.completed != s.completed {
      OfAppend(s.completed, t.completed[|s.completed|], id);
    }
    AgreedFrame(init, s.calls, s.audit, s.completed, t.calls, t.audit, t.completed, id);
  }

  lemma WorkStep(s: State, c: CallId, luck: Luck)
    requires CanAdvance(s, c) && s.calls[c].pc.Work? && luck.worker.Some?
    ensures var Call(id, pc) := s.calls[c];
            Step(s, c, luck) == s.(calls := s.calls[c := Call(id, Record(pc.lock, luck.worker.value))],
                                   completed := s.completed + [Completion(c, id, luck.worker.value)])
  {
  }

  lemma NothingYet(init: Audit, s: State, c: CallId)
    requires c in s.calls && s.calls[c].pc.Work? && !Stub(init, s.calls[c].event)
    requires Agreed(init, s.calls, s.audit, s.completed, s.calls[c].event)
    ensures s.calls[c].event !in s.audit && s.calls[c].event !in init && Of(s.completed, s.calls[c].event) == []
  {
    var id := s.calls[c].event;
    assert PcAgrees(s.calls[c].pc, Answer(init, s.completed, id), id in s.audit, IsWinner(s.completed, id, c));
  }

  /** The worker finishing is what commits an event to its answer. */
  lemma AgreedAfterWork(init: Audit, s: State, c: CallId, luck: Luck)
    requires LockInv(s) && CanAdvance(s, c) && s.calls[c].pc.Work? && luck.worker.Some?
    requires !Stub(init, s.calls[c].event)
    requires Agreed(init, s.calls, s.audit, s.completed, s.calls[c].event)
    ensures var t := Step(s, c, luck); Agreed(init, t.calls, t.audit, t.completed, s.calls[c].event)
  {
    var id, t := s.calls[c].event, Step(s, c, luck);
    WorkStep(s, c, luck);
    NothingYet(init, s, c);
    OfAppend(s.completed, Completion(c, id, luck.worker.value), id);
    assert Of(t.completed, id) == [Completion(c, id, luck.worker.value)];
    assert IsWinner(t.completed, id, c) && t.calls[c].pc.Record?;
    forall d | d in t.calls && t.calls[d].event == id
      ensures PcAgrees(t.calls[d].pc, luck.worker, id in t.audit, IsWinner(t.completed, id, d))
    {
      if d != c {
        WaitingAgrees(init, s, c, d, luck.worker.value);
      }
    }
  }

  /** A call outside the lock of an event without an answer is none the wiser when one is found. */
  lemma WaitingAgrees(init: Audit, s: State, c: CallId, d: CallId, answer: Response)
    requires LockInv(s) && c in s.calls && d in s.calls && d != c
    requires s.calls[d].event == s.calls[c].event && s.calls[c].pc.Work? && !Stub(init, s.calls[c].event)
    requires Agreed(init, s.calls, s.audit, s.completed, s.calls[c].event)
    ensures PcAgrees(s.calls[d].pc, Some(answer), s.calls[c].event in s.audit, false)
  {
    var id := s.calls[c].event;
    NothingYet(init, s, c);
    assert PcAgrees(s.calls[d].pc, None, id in s.audit, IsWinner(s.completed, id, d));
    assert Holding(s.calls[c].pc);
  }

  /** While a call is inside the lock looking up the row, no finished worker still waits to record. */
  lemma NothingPendingInside(init: Audit, s: State, c: CallId)
    requires LockInv(s) && c in s.calls && s.calls[c].pc.LockedRow?
    requires Agreed(init, s.calls, s.audit, s.completed, s.calls[c].event)
    ensures Answer(init, s.completed, s.calls[c].event).Some? ==> s.calls[c].event in s.audit
  {
    var id := s.calls[c].event;
    if Answer(init, s.completed, id).Some? && id !in s.audit {
      var w :| IsWinner(s.completed, id, w) && w in s.calls && s.calls[w].pc.Record?;
      OneHolder(s, c, w);
    }
  }

  /** What any other step does to the row. */
  lemma OwnRowAgrees(init: Audit, s: State, c: CallId, luck: Luck)
    requires CanAdvance(s, c)
    requires Fails(s.calls[c].pc, luck) ==> !Matters(init, s.calls[c].event, StatementAt(s.calls[c].pc).value)
    requires !Stub(init, s.calls[c].event) && Agreed(init, s.calls, s.audit, s.completed, s.calls[c].event)
    ensures var id, audit := s.calls[c].event, Step(s, c, luck).audit;
            && RowAgrees(audit, id, Answer(init, s.completed, id)) && (id in s.audit ==> id in audit)
            && (id in audit && id !in s.audit ==> s.calls[c].pc.Record?)
            && (s.calls[c].pc.Record? ==> id in audit)
  {
    var id := s.calls[c].event;
    assert PcAgrees(s.calls[c].pc, Answer(init, s.completed, id), id in s.audit, IsWinner(s.completed, id, c));
  }

  /** And to its own call, as long as the statements that matter work. */
  lemma OwnPcAgrees(init: Audit, s: State, c: CallId, luck: Luck)
    requires LockInv(s) && CanAdvance(s, c) && !(s.calls[c].pc.Work? && luck.worker.Some?)
    requires Fails(s.calls[c].pc, luck) ==> !Matters(init, s.calls[c].event, StatementAt(s.calls[c].pc).value)
    requires !Stub(init, s.calls[c].event) && Agreed(init, s.calls, s.audit, s.completed, s.calls[c].event)
    ensures var id, t := s.calls[c].event, Step(s, c, luck);
            PcAgrees(t.calls[c].pc, Answer(init, s.completed, id), id in t.audit, IsWinner(s.completed, id, c))
  {
    var id := s.calls[c].event;
    assert PcAgrees(s.calls[c].pc, Answer(init, s.completed, id), id in s.audit, IsWinner(s.completed, id, c));
    OwnRowAgrees(init, s, c, luck);
    if s.calls[c].pc.LockedRow? {
      NothingPendingInside(init, s, c);
    }
  }

  lemma OtherPcAgrees(init: Audit, s: State, c: CallId, luck: Luck, d: CallId)
    requires CanAdvance(s, c) && d in s.calls && d != c && s.calls[d].event == s.calls[c].event
    requires Agreed(init, s.calls, s.audit, s.completed, s.calls[c].event)
    requires var id, audit := s.calls[c].event, Step(s, c, luck).audit;
             (id in s.audit ==> id in audit) && (id in audit && id !in s.audit ==> s.calls[c].pc.Record?)
    ensures var id := s.calls[c].event;
            PcAgrees(s.calls[d].pc, Answer(init, s.completed, id),
                     id in Step(s, c, luck).audit, IsWinner(s.completed, id, d))
  {
    var id, answer := s.calls[c].event, Answer(init, s.completed, s.calls[c].event);
    assert PcAgrees(s.calls[d].pc, answer, id in s.audit, IsWinner(s.completed, id, d));
    assert PcAgrees(s.calls[c].pc, answer, id in s.audit, IsWinner(s.completed, id, c));
  }

  lemma AgreedAfterOwnStep(init: Audit, s: State, c: CallId, luck: Luck)
    requires LockInv(s) && CanAdvance(s, c) && !(s.calls[c].pc.Work? && luck.worker.Some?)
    requires Fails(s.calls[c].pc, luck) ==> !Matters(init, s.calls[c].event, StatementAt(s.calls[c].pc).value)
    requires !Stub(init, s.calls[c].event) && Agreed(init, s.calls, s.audit, s.completed, s.calls[c].event)
    ensures var t := Step(s, c, luck); Agreed(init, t.calls, t.audit, t.completed, s.calls[c].event)
  {
    var id, t, answer := s.calls[c].event, Step(s, c, luck), Answer(init, s.completed, s.calls[c].event);
    assert t.completed == s.completed && forall d | d in s.calls && d != c :: t.calls[d] == s.calls[d];
    OwnRowAgrees(init, s, c, luck);
    OwnPcAgrees(init, s, c, luck);
    forall d | d in t.calls && t.calls[d].event == id
      ensures PcAgrees(t.calls[d].pc, answer, id in t.audit, IsWinner(s.completed, id, d))
    {
      if d != c {
        OtherPcAgrees(init, s, c, luck, d);
      }
    }
  }

  lemma AgreedAfterBegin(init: Audit, s: State, c: CallId, event: EventId, wellFormed: bool, id: EventId)
    requires c !in s.calls && Agreed(init, s.calls, s.audit, s.completed, id)
    ensures var t := Next(s, Begin(c, event, wellFormed)); Agreed(init, t.calls, t.audit, t.completed, id)
  {
    var t := Next(s, Begin(c, event, wellFormed));
    AgreedFrame(init, s.calls, s.audit, s.completed, t.calls, t.audit, t.completed, id);
  }

  lemma AgreedAfterAction(init: Audit, s: State, a: Action, id: EventId)
    requires LockInv(s) && Possible(s, a) && !Stub(init, id)
    requires forall x | x in EventFault(s, a, id) :: !Matters(init, id, x)
    requires Agreed(init, s.calls, s.audit, s.completed, id)
    ensures var t := Next(s, a); LockInv(t) && Agreed(init, t.calls, t.audit, t.completed, id)
  {
    LockInvAlongRun(s, [a], Next(s, a)) by {
      assert IsRun(Next(s, a), [a][1..], Next(s, a));
    }
    match a {
      case Begin(c, event, w) => AgreedAfterBegin(init, s, c, event, w, id);
      case Advance(c, luck) =>
        if s.calls[c].event != id {
          AgreedAfterOtherStep(init, s, c, luck, id);
        } else if s.calls[c].pc.Work? && luck.worker.Some? {
          AgreedAfterWork(init, s, c, luck);
        } else {
          assert Fails(s.calls[c].pc, luck) ==> StatementAt(s.calls[c].pc).value in EventFault(s, a, id);
          AgreedAfterOwnStep(init, s, c, luck);
        }
    }
  }

  lemma {:induction false} AgreedAlongRun(init: Audit, s: State, actions: seq<Action>, t: State, id: EventId,
                                          may: set<Statement>)
    requires LockInv(s) && IsRun(s, actions, t) && !Stub(init, id) && Agreed(init, s.calls, s.audit, s.completed, id)
    requires OnlyFaults(s, actions, id, may) && forall x | x in may :: !Matters(init, id, x)
    ensures LockInv(t) && Agreed(init, t.calls, t.audit, t.completed, id)
    decreases |actions|
  {
    if actions != [] {
      FaultsSplit(s, actions, id, may);
      AgreedAfterAction(init, s, actions[0], id);
      AgreedAlongRun(init, Next(s, actions[0]), actions[1..], t, id, may);
    }
  }

  /** The call has returned a response to its caller. */
  predicate Answered(s: State, c: CallId, id: EventId) {
    c in s.calls && s.calls[c].event == id && s.calls[c].pc.Done? && s.calls[c].pc.outcome.Returned?
  }

  predicate Quiet(s: State, id: EventId) {
    forall c | c in s.calls && s.calls[c].event == id :: s.calls[c].pc.Done?
  }

  /**
   The promise of the layer: as long as the statements that matter work, in every interleaving of any
   number of calls, the worker finishes at most once per event id, all answers are the same answer, at
   most one of them is a miss, and once the calls have ended exactly one is, unless the answer was
   stored before the handler started. Other statements, and those of other events, fail as they please.
   */
  lemma OneAnswer(init: Audit, actions: seq<Action>, t: State, id: EventId, may: set<Statement>)
    requires IsRun(Initial(init), actions, t) && OnlyFaults(Initial(init), actions, id, may) && !Stub(init, id)
    requires forall x | x in may :: !Matters(init, id, x)
    ensures |Of(t.completed, id)| <= 1
    ensures forall c, d | Answered(t, c, id) && Answered(t, d, id) ::
              t.calls[c].pc.outcome.response == t.calls[d].pc.outcome.response
    ensures forall c, d | Answered(t, c, id) && Answered(t, d, id) ::
              !t.calls[c].pc.outcome.hit && !t.calls[d].pc.outcome.hit ==> c == d
    ensures id in init ==> Of(t.completed, id) == [] && forall c | Answered(t, c, id) :: t.calls[c].pc.outcome.hit
    ensures id !in init && Quiet(t, id) && (exists c :: Answered(t, c, id)) ==>
              exists c :: Answered(t, c, id) && !t.calls[c].pc.outcome.hit
  {
    var s := Initial(init);
    assert Agreed(init, s.calls, s.audit, s.completed, id);
    AgreedAlongRun(init, s, actions, t, id, may);
    var answer := Answer(init, t.completed, id);
    forall c | Answered(t, c, id)
      ensures answer == Some(t.calls[c].pc.outcome.response)
      ensures t.calls[c].pc.outcome.hit == !IsWinner(t.completed, id, c)
    {
      assert PcAgrees(t.calls[c].pc, answer, id in t.audit, IsWinner(t.completed, id, c));
    }
    if id !in init && Quiet(t, id) && exists c :: Answered(t, c, id) {
      var w := Of(t.completed, id)[0].call;
      assert IsWinner(t.completed, id, w);
      assert PcAgrees(t.calls[w].pc, answer, id in t.audit, IsWinner(t.completed, id, w));
      assert Answered(t, w, id);
    }
  }
}
