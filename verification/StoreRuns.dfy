/**
 What holds at the end of every run of interleaved ingests and transitions: the audit trail of a
 claim is a chain of allowed moves, concurrent ingests of one content share one row and one creation
 event, and replay rebuilds the tables exactly when no creation was logged too late.
 */
module StoreRuns {

  import opened Wrappers
  import opened Ordering
  import opened EventLog
  import opened Replay
  import opened Backfill
  import opened LiveStore
  import opened StoreProtocol

  lemma InvAtEnd(s0: Machine, actions: seq<Action>, s: Machine)
    requires Init(s0) && Run(s0, actions, s)
    ensures Inv(s) && s.start == s0.rows
  {
    InitInv(s0);
    InvAlongRun(s0, actions, s);
  }

  // ----- the audit trail of a claim -------------------------------------------------------------

  /**
   However the reads and compare-and-sets interleave, a claim's state changes form a chain from the
   state it was created (or found) in to the state and time its row has now.
   */
  lemma ClaimChain(s0: Machine, actions: seq<Action>, s: Machine, claim: Ref)
    requires Init(s0) && Run(s0, actions, s) && claim in s.rows
    ensures claim in s.born && Chain(s.born[claim], ChangesIn(s.log, claim), s.rows[claim])
    ensures claim in s0.rows ==> s.born[claim] == s0.rows[claim]
    ensures claim !in s0.rows ==> claim.id in s.threads && s.threads[claim.id].call == Ingest(s.born[claim])
  {
    InvAtEnd(s0, actions, s);
    assert RowOk(s, claim) && LoggedOk(s, claim);
    if claim !in s0.rows {
      assert ThreadOk(s, claim.id);
    }
  }

  /** Nothing follows `rejected`: no move starts there, and none but the last ends there. */
  lemma RejectedIsFinal(born: Row, changes: seq<Event>, row: Row)
    requires Chain(born, changes, row)
    ensures forall i | 0 <= i < |changes| :: changes[i].payload.from != Some(Rejected)
    ensures forall i | 0 <= i < |changes| - 1 :: changes[i].payload.to != Some(Rejected)
    ensures born.state == Rejected ==> changes == [] && row == born
  {
    forall i | 0 <= i < |changes|
      ensures changes[i].payload.from != Some(Rejected)
    {
      assert changes[i].payload.from == StateBefore(born, changes, i);
    }
    forall i | 0 <= i < |changes| - 1 ensures changes[i].payload.to != Some(Rejected) {
      assert changes[i + 1].payload.from == StateBefore(born, changes, i + 1);
    }
    assert StateBefore(born, changes, 0) == Some(born.state);
  }

  lemma {:induction false} StandingGrows(born: Row, changes: seq<Event>, row: Row, i: nat, j: nat)
    requires Chain(born, changes, row) && i <= j < |changes|
    ensures Onward(changes[i].payload.from.value, changes[j].payload.to.value)
    decreases j - i
  {
    AllowedIsOnward(changes[i].payload.from.value, changes[i].payload.to.value);
    if i < j {
      StandingGrows(born, changes, row, i + 1, j);
      assert changes[i + 1].payload.from == StateBefore(born, changes, i + 1);
    }
  }

  /**
   Over every interleaving a claim only moves on: from auto through pending and confirmed to rejected,
   staying where it is or skipping steps, never back, and nowhere from rejected.
   */
  lemma ClaimsMoveOnward(s0: Machine, actions: seq<Action>, s: Machine, claim: Ref)
    requires Init(s0) && Run(s0, actions, s) && claim in s.rows
    ensures claim in s.born
    ensures var c := ChangesIn(s.log, claim);
            && (forall i | 0 <= i < |c| ::
                  c[i].payload.ChangePayload? && c[i].payload.from.Some? && c[i].payload.to.Some?)
            && (forall i, j | 0 <= i <= j < |c| :: Onward(c[i].payload.from.value, c[j].payload.to.value))
            && (if c == [] then s.rows[claim] == s.born[claim] else Onward(s.born[claim].state, s.rows[claim].state))
  {
    ClaimChain(s0, actions, s, claim);
    var c := ChangesIn(s.log, claim);
    forall i, j | 0 <= i <= j < |c| ensures Onward(c[i].payload.from.value, c[j].payload.to.value) {
      StandingGrows(s.born[claim], c, s.rows[claim], i, j);
    }
    assert StateBefore(s.born[claim], c, 0) == Some(s.born[claim].state);
    if c == [] {
      UnchangedRow(s.born[claim], s.rows[claim]);
    }
  }

  // ----- no event without its row ---------------------------------------------------------------

  /** The event names a row that is there, of the table its type speaks of, and of the user who wrote it. */
  ghost predicate OnTarget(s: Machine, e: Event) {
    && e.targetKind.Some? && e.targetId.Some?
    && e.eventType in (if e.targetKind.value.MemoryKind? then [MemoryCreated, MemoryReaffirmed]
                       else [ClaimCreated, ClaimStateChanged])
    && var r := Ref(e.targetKind.value, e.targetId.value);
       r in s.rows && s.rows[r].userId == e.userId
  }

  lemma TargetStays(s: Machine, s2: Machine, e: Event)
    requires OnTarget(s, e) && forall r | r in s.rows :: r in s2.rows && s2.rows[r].userId == s.rows[r].userId
    ensures OnTarget(s2, e)
  {
  }

  lemma RowsStay(s: Machine, a: Action)
    requires Inv(s) && Enabled(s, a)
    ensures forall r | r in s.rows :: r in Next(s, a).rows && Next(s, a).rows[r].userId == s.rows[r].userId
  {
    if a.Step? {
      assert ThreadOk(s, a.t);
    }
  }

  lemma NewEventOnTarget(s: Machine, a: Action)
    requires Inv(s) && Enabled(s, a) && |Next(s, a).log| > |s.log|
    ensures Next(s, a).log == s.log + [Next(s, a).log[|s.log|]] && OnTarget(Next(s, a), Next(s, a).log[|s.log|])
  {
    assert ThreadOk(s, a.t);
    match s.threads[a.t] {
      case Thread(Ingest(c), Emitting(p)) => assert RefOf(s.rows[p]) == p;
      case Thread(Transition(claim, to, _), Writing(from)) =>
        assert RefOf(s.rows[Ref(ClaimKind, claim)]) == Ref(ClaimKind, claim);
      case _ =>
    }
  }

  lemma LogOnlyGrows(s: Machine, a: Action)
    requires Enabled(s, a)
    ensures Next(s, a).log == s.log || |Next(s, a).log| > |s.log|
  {
  }

  lemma {:induction false} OnTargetAlongRun(s: Machine, actions: seq<Action>, s2: Machine)
    requires Inv(s) && Run(s, actions, s2) && forall e | e in s.log :: OnTarget(s, e)
    ensures forall e | e in s2.log :: OnTarget(s2, e)
    decreases |actions|
  {
    if actions != [] {
      var t := Next(s, actions[0]);
      RowsStay(s, actions[0]);
      LogOnlyGrows(s, actions[0]);
      forall e | e in t.log ensures OnTarget(t, e) {
        if t.log != s.log {
          NewEventOnTarget(s, actions[0]);
        }
        if e in s.log {
          TargetStays(s, t, e);
        }
      }
      NextKeeps(s, actions[0]);
      OnTargetAlongRun(t, actions[1..], s2);
    }
  }

  /** Over every interleaving, with any crashes: no event is an orphan, and none is written in another user's name. */
  lemma NoOrphans(s0: Machine, actions: seq<Action>, s: Machine)
    requires Init(s0) && Run(s0, actions, s)
    ensures forall e | e in s.log :: OnTarget(s, e)
  {
    InitInv(s0);
    OnTargetAlongRun(s0, actions, s);
  }

  // ----- concurrent ingests of one content ------------------------------------------------------

  predicate ReaffirmsRow(e: Event, p: Ref) {
    e.eventType.MemoryReaffirmed? && e.targetId == Some(p.id)
  }

  function ReaffirmOf(p: Ref): Event -> bool {
    e => ReaffirmsRow(e, p)
  }

  predicate IsDuplicate(th: Thread, p: Ref) {
    th.call.Ingest? && th.call.candidate.Memory? && th.pc == Returned(p, true)
  }

  /** The memory ingests that returned somebody else's row `p`. */
  function Deduped(s: Machine, p: Ref): set<string> {
    set t | t in s.threads && IsDuplicate(s.threads[t], p)
  }

  ghost predicate OnePerDuplicate(s: Machine, p: Ref) {
    |Filter(ReaffirmOf(p), s.log)| == |Deduped(s, p)|
  }

  lemma DedupedNext(s: Machine, s2: Machine, t: string, p: Ref)
    requires t in s2.threads && s2.threads == s.threads[t := s2.threads[t]]
    requires t in s.threads ==> !IsDuplicate(s.threads[t], p)
    ensures t !in Deduped(s, p)
    ensures Deduped(s2, p) == Deduped(s, p) + if IsDuplicate(s2.threads[t], p) then {t} else {}
  {
  }

  /** Every other statement neither logs nor returns a duplicate memory. */
  lemma NoEventNoDuplicate(s: Machine, s2: Machine, t: string, p: Ref)
    requires OnePerDuplicate(s, p) && s2.log == s.log
    requires t in s2.threads && s2.threads == s.threads[t := s2.threads[t]]
    requires t in s.threads ==> !IsDuplicate(s.threads[t], p)
    requires !IsDuplicate(s2.threads[t], p)
    ensures OnePerDuplicate(s2, p)
  {
    DedupedNext(s, s2, t, p);
  }

  lemma EmitCounts(s: Machine, t: string, c: Row, q: Ref, id: string, now: string, p: Ref)
    requires t in s.threads && s.threads[t] == Thread(Ingest(c), Emitting(q)) && ThreadOk(s, t)
    requires WellKeyed(s.rows) && OnePerDuplicate(s, p) && p.kind.MemoryKind?
    ensures OnePerDuplicate(Emitted(s, t, c, q, id, now), p)
  {
    var e := EmittedEvent(t, c, q, id, now);
    FilterConcat(ReaffirmOf(p), s.log, [e]);
    FilterOne(ReaffirmOf(p), e);
    DedupedNext(s, Emitted(s, t, c, q, id, now), t, p);
  }

  lemma SwapCounts(s: Machine, t: string, claim: string, from: State, to: State, user: Option<string>,
                   id: string, now: string, at: string, p: Ref)
    requires t in s.threads && s.threads[t] == Thread(Transition(claim, to, user), Writing(from))
    requires OnePerDuplicate(s, p)
    ensures OnePerDuplicate(Swapped(s, t, claim, from, to, id, now, at), p)
  {
    var s2 := Swapped(s, t, claim, from, to, id, now, at);
    DedupedNext(s, s2, t, p);
    if s2.log != s.log {
      var e := s2.log[|s.log|];
      assert s2.log == s.log + [e];
      FilterConcat(ReaffirmOf(p), s.log, [e]);
      FilterOne(ReaffirmOf(p), e);
    }
  }

  lemma CountStep(s: Machine, a: Action, p: Ref)
    requires Inv(s) && Enabled(s, a) && OnePerDuplicate(s, p) && p.kind.MemoryKind?
    ensures OnePerDuplicate(Next(s, a), p)
  {
    match a
    case Begin(t, _) => NoEventNoDuplicate(s, Next(s, a), t, p);
    case Crash(t) => NoEventNoDuplicate(s, Next(s, a), t, p);
    case Step(t, id, now, at) =>
      assert ThreadOk(s, t);
      match s.threads[t] {
        case Thread(Ingest(c), Inserting) => NoEventNoDuplicate(s, Inserted(s, t, c), t, p);
        case Thread(Ingest(c), Selecting) => NoEventNoDuplicate(s, Selected(s, t, c), t, p);
        case Thread(Ingest(c), Emitting(q)) => EmitCounts(s, t, c, q, id, now, p);
        case Thread(Transition(claim, to, user), Reading) => NoEventNoDuplicate(s, Judged(s, t, claim, to, user), t, p);
        case Thread(Transition(claim, to, user), Writing(from)) =>
          SwapCounts(s, t, claim, from, to, user, id, now, at, p);
        case _ =>
      }
  }

  lemma {:induction false} CountAlongRun(s: Machine, actions: seq<Action>, s2: Machine, p: Ref)
    requires Inv(s) && Run(s, actions, s2) && OnePerDuplicate(s, p) && p.kind.MemoryKind?
    ensures OnePerDuplicate(s2, p)
    decreases |actions|
  {
    if actions != [] {
      CountStep(s, actions[0], p);
      NextKeeps(s, actions[0]);
      CountAlongRun(Next(s, actions[0]), actions[1..], s2, p);
    }
  }

  /** The ingests of one content. */
  function Callers(s: Machine, k: Key): set<string> {
    set t | t in s.threads && s.threads[t].call.Ingest? && KeyOf(s.threads[t].call.candidate) == k
  }

  ghost predicate AllReturned(s: Machine) {
    forall t | t in s.threads && s.threads[t].call.Ingest? :: s.threads[t].pc.Returned?
  }

  lemma KeyInStartIff(s: Machine, p: Ref)
    requires Inv(s) && p in s.rows
    ensures HoldsKey(s.start, KeyOf(s.rows[p])) <==> p in s.start
  {
    assert RowOk(s, p);
    if p in s.start {
      IdentityKeepsKey(s.born[p], s.rows[p]);
      assert KeyOf(s.start[p]) == KeyOf(s.rows[p]);
    }
    if HoldsKey(s.start, KeyOf(s.rows[p])) {
      var q :| q in s.start && KeyOf(s.start[q]) == KeyOf(s.rows[p]);
      assert RowOk(s, q);
      IdentityKeepsKey(s.born[q], s.rows[q]);
    }
  }

  /** A caller was the first exactly when the row its key leads to carries its name. */
  lemma CallerReturns(s: Machine, t: string, p: Ref)
    requires Inv(s) && t in s.threads && s.threads[t].call.Ingest? && s.threads[t].pc.Returned?
    requires p in s.rows && KeyOf(s.rows[p]) == KeyOf(s.threads[t].call.candidate)
    ensures s.threads[t].pc == Returned(p, p.id != t)
    ensures p in s.start ==> p.id != t
  {
    assert ThreadOk(s, t);
    var c := s.threads[t].call.candidate;
    assert RefOf(s.rows[p]) == p && p.kind == RefOf(c).kind;
  }

  /**
   Once every ingest of a content has returned: one row holds it and all of them return its id. Was
   it in the store before, all report a duplicate. Otherwise exactly one does not - the one whose
   candidate the row is - and the log holds one creation of the row, carrying that candidate whole.
   */
  lemma OneRowPerContent(s0: Machine, actions: seq<Action>, s: Machine, k: Key)
    requires Init(s0) && Run(s0, actions, s) && AllReturned(s) && Callers(s, k) != {}
    ensures HoldsKey(s.rows, k)
    ensures var p := Holder(s.rows, k);
            && (forall q | q in s.rows && KeyOf(s.rows[q]) == k :: q == p)
            && (forall t | t in Callers(s, k) :: s.threads[t].pc == Returned(p, p.id != t))
            && (HoldsKey(s0.rows, k) ==> p in s0.rows && p.id !in Callers(s, k))
            && (!HoldsKey(s0.rows, k) ==> p !in s0.rows && p.id in Callers(s, k)
                                          && IsCreationOf(CreationsIn(s.log, p), s.threads[p.id].call.candidate))
  {
    InvAtEnd(s0, actions, s);
    var t :| t in Callers(s, k);
    assert ThreadOk(s, t);
    assert KeyOf(s.rows[s.threads[t].pc.persisted]) == k;
    var p := Holder(s.rows, k);
    forall q | q in Callers(s, k) ensures s.threads[q].pc == Returned(p, p.id != q) && (p in s.start ==> p.id != q) {
      CallerReturns(s, q, p);
    }
    KeyInStartIff(s, p);
    assert RowOk(s, p) && LoggedOk(s, p);
    if p !in s.start {
      assert ThreadOk(s, p.id);
      IdentityKeepsKey(s.born[p], s.rows[p]);
      assert p.id in Callers(s, k);
    }
  }

  /** For a memory, every other call leaves one reaffirmation, and none changes the row. */
  lemma OneReaffirmationPerDuplicate(s0: Machine, actions: seq<Action>, s: Machine, k: Key)
    requires Init(s0) && Run(s0, actions, s) && AllReturned(s) && Callers(s, k) != {} && k.MemoryKey?
    ensures HoldsKey(s.rows, k)
    ensures var p := Holder(s.rows, k);
            && |Filter(ReaffirmOf(p), s.log)| == |Callers(s, k) - {p.id}|
            && (p in s0.rows ==> s.rows[p] == s0.rows[p])
            && (p !in s0.rows ==> p.id in Callers(s, k) && s.rows[p] == s.threads[p.id].call.candidate)
  {
    OneRowPerContent(s0, actions, s, k);
    InvAtEnd(s0, actions, s);
    InitInv(s0);
    var p := Holder(s.rows, k);
    assert RefOf(s.rows[p]) == p;
    assert Deduped(s0, p) == {} && Filter(ReaffirmOf(p), s0.log) == [];
    CountAlongRun(s0, actions, s, p);
    DedupedAreTheOthers(s, k, p);
    assert RowOk(s, p) && LoggedOk(s, p);
    UnchangedRow(s.born[p], s.rows[p]);
    if p !in s0.rows {
      assert ThreadOk(s, p.id);
    }
  }

  lemma UnchangedRow(born: Row, row: Row)
    requires Chain(born, [], row)
    ensures row == born
  {
    assert StateBefore(born, [], 0) == Some(born.state);
  }

  lemma DedupedAreTheOthers(s: Machine, k: Key, p: Ref)
    requires Inv(s) && k.MemoryKey? && p in s.rows && KeyOf(s.rows[p]) == k
    requires forall t | t in Callers(s, k) :: s.threads[t].pc == Returned(p, p.id != t)
    ensures Deduped(s, p) == Callers(s, k) - {p.id}
  {
    forall t | t in Deduped(s, p) ensures t in Callers(s, k) && t != p.id {
      assert ThreadOk(s, t);
    }
    forall t | t in Callers(s, k) && t != p.id ensures t in Deduped(s, p) {
      assert KeyOf(s.threads[t].call.candidate) == k;
    }
  }
}
