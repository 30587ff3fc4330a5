/**
 Ingest and claim transitions as their database statements interleave. An ingest inserts, re-selects
 and then logs, in three separate statements; a transition reads, and then compares-and-sets together
 with its event. Any number of calls run at once, and any of them can die between two statements.
 Calls are named by the identifier they mint, so an ingest's candidate row carries its call's name.
 */
module StoreProtocol {

  import opened Wrappers
  import opened EventLog
  import opened Replay
  import opened Backfill
  import opened LiveStore

  datatype Call =
    | Ingest(candidate: Row)
    | Transition(claimId: string, to: State, expectedUser: Option<string>)

  datatype Pc =
    | Inserting | Selecting | Emitting(persisted: Ref) | Returned(persisted: Ref, deduped: bool)
    | Reading | Writing(from: State) | Applied | Refused(error: TransitionError)
    | Crashed | Broken

  datatype Thread = Thread(call: Call, pc: Pc)

  /**
   The tables, what has been logged since the run began, and the calls. Two history variables: the
   tables as the run began, and every row as it was first inserted.
   */
  datatype Machine = Machine(rows: Rows, log: seq<Event>, threads: map<string, Thread>, start: Rows, born: Rows)

  datatype Action =
    | Begin(t: string, call: Call)
    | Step(t: string, eventId: string, eventTime: string, updatedAt: string)
    | Crash(t: string)

  predicate Final(pc: Pc) {
    pc.Returned? || pc.Applied? || pc.Refused? || pc.Crashed? || pc.Broken?
  }

  ghost predicate Enabled(s: Machine, a: Action) {
    match a
    case Begin(t, Ingest(c)) =>
      t !in s.threads && t != "" && c.id == t && RefOf(c) !in s.rows && (c.Claim? ==> ClaimState(c.state))
    case Begin(t, Transition(_, _, _)) => t !in s.threads
    case Step(t, id, _, _) => t in s.threads && !Final(s.threads[t].pc) && NewId(s.log, id)
    case Crash(t) => t in s.threads && !Final(s.threads[t].pc)
  }

  function At(s: Machine, t: string, pc: Pc): Machine
    requires t in s.threads
  {
    s.(threads := s.threads[t := s.threads[t].(pc := pc)])
  }

  ghost function Inserted(s: Machine, t: string, c: Row): Machine
    requires t in s.threads
  {
    var s2 := if Conflicts(s.rows, c) then s else s.(rows := s.rows[RefOf(c) := c], born := s.born[RefOf(c) := c]);
    At(s2, t, Selecting)
  }

  ghost function Selected(s: Machine, t: string, c: Row): Machine
    requires t in s.threads
  {
    if !HoldsKey(s.rows, KeyOf(c)) then At(s, t, Broken)
    else
      var p := Holder(s.rows, KeyOf(c));
      At(s, t, if c.Claim? && p.id != t then Returned(p, true) else Emitting(p))
  }

  function EmittedEvent(t: string, c: Row, p: Ref, id: string, now: string): Event {
    if p.id == t then CreationEvent(c, id, now) else ReaffirmEvent(MemoryKind, c.userId, p.id, id, now)
  }

  function Emitted(s: Machine, t: string, c: Row, p: Ref, id: string, now: string): Machine
    requires t in s.threads
  {
    if p !in s.rows || s.rows[p].userId != c.userId then At(s, t, Broken)
    else At(s.(log := s.log + [EmittedEvent(t, c, p, id, now)]), t, Returned(p, p.id != t))
  }

  function Judged(s: Machine, t: string, claimId: string, to: State, user: Option<string>): Machine
    requires t in s.threads
  {
    var v := Verdict(s.rows, claimId, to, user);
    At(s, t, if v.Ok? then Writing(v.value) else Refused(v.error))
  }

  function Swapped(s: Machine, t: string, claimId: string, from: State, to: State, id: string, now: string,
                   updatedAt: string): Machine
    requires t in s.threads
  {
    var r := Ref(ClaimKind, claimId);
    if r !in s.rows || s.rows[r].state != from then At(s, t, Refused(ChangedConcurrently))
    else At(s.(rows := UpdateState(s.rows, r, to, Some(updatedAt)),
               log := s.log + [ChangeEvent(s.rows[r], from, to, updatedAt, id, now)]), t, Applied)
  }

  ghost function Next(s: Machine, a: Action): Machine
    requires Enabled(s, a)
  {
    match a
    case Begin(t, call) => s.(threads := s.threads[t := Thread(call, if call.Ingest? then Inserting else Reading)])
    case Crash(t) => At(s, t, Crashed)
    case Step(t, id, now, updatedAt) =>
      match s.threads[t]
      case Thread(Ingest(c), Inserting) => Inserted(s, t, c)
      case Thread(Ingest(c), Selecting) => Selected(s, t, c)
      case Thread(Ingest(c), Emitting(p)) => Emitted(s, t, c, p, id, now)
      case Thread(Transition(claim, to, user), Reading) => Judged(s, t, claim, to, user)
      case Thread(Transition(claim, to, _), Writing(from)) => Swapped(s, t, claim, from, to, id, now, updatedAt)
      case _ => At(s, t, Broken)
  }

  ghost predicate Init(s: Machine) {
    && WellKeyed(s.rows) && s.log == [] && s.threads == map[] && s.start == s.rows && s.born == s.rows
    && forall r | r in s.rows && r.kind.ClaimKind? :: r.id != ""
  }

  /** Where the actions lead; nowhere, when one of them is not enabled in its turn. */
  ghost function After(s: Machine, actions: seq<Action>): Option<Machine>
    decreases |actions|
  {
    if actions == [] then Some(s)
    else if Enabled(s, actions[0]) then After(Next(s, actions[0]), actions[1..])
    else None
  }

  ghost predicate Run(s: Machine, actions: seq<Action>, s2: Machine) {
    After(s, actions) == Some(s2)
  }

  // ----- the invariant --------------------------------------------------------------------------

  /** The state the i-th change of a row has to start from. */
  function StateBefore(born: Row, changes: seq<Event>, i: nat): Option<State>
    requires i <= |changes| && forall e | e in changes :: e.payload.ChangePayload?
  {
    if i == 0 then Some(born.state) else changes[i - 1].payload.to
  }

  /**
   The changes of a row form a chain: they start where the row was born, each starts where the one
   before it ended, each is allowed, and the last one shows the row as it is.
   */
  ghost predicate Chain(born: Row, changes: seq<Event>, row: Row) {
    && SameIdentity(born, row)
    && (forall e | e in changes ::
          e.payload.ChangePayload? && e.payload.from.Some? && e.payload.to.Some? && e.payload.updatedAt.Some?)
    && (forall i | 0 <= i < |changes| :: changes[i].payload.from == StateBefore(born, changes, i)
                                          && AllowedClaim(changes[i].payload.from.value, changes[i].payload.to.value))
    && StateBefore(born, changes, |changes|) == Some(row.state)
    && row.updatedAt == (if changes == [] then born.updatedAt else changes[|changes| - 1].payload.updatedAt.value)
  }

  ghost predicate RowOk(s: Machine, r: Ref) {
    if r in s.rows then
      && r in s.born && Chain(s.born[r], ChangesIn(s.log, r), s.rows[r])
      && (r in s.start ==> s.born[r] == s.start[r])
      && (r.kind.MemoryKind? ==> ChangesIn(s.log, r) == [])
      && (r.kind.ClaimKind? ==> r.id != "")
    else
      ChangesIn(s.log, r) == [] && r !in s.start && r !in s.born
  }

  /** The call that inserted a row, if the row is new. */
  ghost predicate Owns(s: Machine, t: string, r: Ref) {
    && t in s.threads && s.threads[t].call.Ingest?
    && RefOf(s.threads[t].call.candidate) == r && s.threads[t].pc != Inserting
  }

  ghost predicate IsCreationOf(es: seq<Event>, row: Row) {
    |es| == 1 && es[0] == CreationEvent(row, es[0].id, es[0].createdAt)
  }

  /** A row of this run is owned by the call that inserted it, and logged once that call has returned. */
  ghost predicate LoggedOk(s: Machine, r: Ref) {
    if r in s.rows && r !in s.start && r in s.born then
      && Owns(s, r.id, r)
      && (if s.threads[r.id].pc == Returned(r, false) then IsCreationOf(CreationsIn(s.log, r), s.born[r])
          else CreationsIn(s.log, r) == [])
    else CreationsIn(s.log, r) == []
  }

  ghost predicate ThreadOk(s: Machine, t: string)
    requires t in s.threads
  {
    match s.threads[t].call
    case Ingest(c) =>
      && c.id == t && t != ""
      && (RefOf(c) in s.rows ==> RefOf(c) in s.born && s.born[RefOf(c)] == c && RefOf(c) !in s.start)
      && (match s.threads[t].pc
          case Inserting => RefOf(c) !in s.rows
          case Selecting => HoldsKey(s.rows, KeyOf(c))
          case Emitting(p) => p in s.rows && KeyOf(s.rows[p]) == KeyOf(c) && (c.Claim? ==> p.id == t)
          case Returned(p, deduped) => p in s.rows && KeyOf(s.rows[p]) == KeyOf(c) && deduped == (p.id != t)
          case Crashed => true
          case _ => false)
    case Transition(claim, to, _) =>
      (match s.threads[t].pc
       case Reading => true
       case Writing(from) => Ref(ClaimKind, claim) in s.rows && AllowedClaim(from, to)
       case Applied => true
       case Refused(_) => true
       case Crashed => true
       case _ => false)
  }

  ghost predicate Inv(s: Machine) {
    && WellKeyed(s.rows) && DistinctIds(s.log)
    && (forall r :: RowOk(s, r) && LoggedOk(s, r))
    && (forall t | t in s.threads :: ThreadOk(s, t))
  }

  lemma InitInv(s: Machine)
    requires Init(s)
    ensures Inv(s)
  {
  }

  // ----- every statement keeps it ---------------------------------------------------------------

  /** Moving one call on while rows and log stay: only that call's own condition is at stake. */
  lemma OnlyThread(s: Machine, s2: Machine, t: string)
    requires Inv(s) && s2 == s.(threads := s2.threads) && t in s2.threads && ThreadOk(s2, t)
    requires s2.threads.Keys == s.threads.Keys + {t}
    requires forall q | q in s.threads && q != t :: s2.threads[q] == s.threads[q]
    requires t in s.threads ==> s2.threads[t].call == s.threads[t].call
    requires forall r: Ref | r.id == t && r in s.rows && r !in s.start ::
               t in s.threads && s2.threads[t].pc != Inserting
               && (s2.threads[t].pc == Returned(r, false) <==> s.threads[t].pc == Returned(r, false))
    ensures Inv(s2)
  {
    forall r ensures RowOk(s2, r) && LoggedOk(s2, r) {
      assert RowOk(s, r) && LoggedOk(s, r);
    }
    forall q | q in s2.threads && q != t ensures ThreadOk(s2, q) {
      assert ThreadOk(s, q);
    }
  }

  lemma NewRowsOwned(s: Machine)
    requires Inv(s)
    ensures forall r | r in s.rows && r !in s.start :: Owns(s, r.id, r)
  {
    forall r | r in s.rows && r !in s.start ensures Owns(s, r.id, r) {
      assert RowOk(s, r);
      assert LoggedOk(s, r);
    }
  }

  lemma BeginKeeps(s: Machine, t: string, call: Call)
    requires Inv(s) && Enabled(s, Begin(t, call))
    ensures Inv(Next(s, Begin(t, call)))
  {
    NewRowsOwned(s);
    OnlyThread(s, Next(s, Begin(t, call)), t);
  }

  lemma CrashKeeps(s: Machine, t: string)
    requires Inv(s) && Enabled(s, Crash(t))
    ensures Inv(Next(s, Crash(t)))
  {
    assert ThreadOk(s, t);
    NewRowsOwned(s);
    OnlyThread(s, Next(s, Crash(t)), t);
  }

  lemma SelectKeeps(s: Machine, t: string, c: Row)
    requires Inv(s) && t in s.threads && s.threads[t] == Thread(Ingest(c), Selecting)
    ensures Inv(Selected(s, t, c))
  {
    assert ThreadOk(s, t);
    var p := Holder(s.rows, KeyOf(c));
    NewRowsOwned(s);
    OnlyThread(s, Selected(s, t, c), t);
  }

  lemma JudgeKeeps(s: Machine, t: string, claimId: string, to: State, user: Option<string>)
    requires Inv(s) && t in s.threads && s.threads[t] == Thread(Transition(claimId, to, user), Reading)
    ensures Inv(Judged(s, t, claimId, to, user))
  {
    NewRowsOwned(s);
    OnlyThread(s, Judged(s, t, claimId, to, user), t);
  }

  lemma InsertedRow(s: Machine, t: string, c: Row, r: Ref)
    requires t in s.threads && s.threads[t] == Thread(Ingest(c), Inserting) && ThreadOk(s, t)
    requires RowOk(s, r) && LoggedOk(s, r) && !Conflicts(s.rows, c)
    ensures RowOk(Inserted(s, t, c), r) && LoggedOk(Inserted(s, t, c), r)
  {
    if r == RefOf(c) {
      assert StateBefore(c, [], 0) == Some(c.state);
    }
  }

  lemma InsertedKeys(rows: Rows, c: Row)
    requires WellKeyed(rows) && !Conflicts(rows, c)
    ensures WellKeyed(rows[RefOf(c) := c])
  {
  }

  /** The insert: a new row is born, or the key was taken and the tables stay. */
  lemma InsertKeeps(s: Machine, t: string, c: Row)
    requires Inv(s) && t in s.threads && s.threads[t] == Thread(Ingest(c), Inserting)
    ensures Inv(Inserted(s, t, c))
  {
    var s2 := Inserted(s, t, c);
    assert ThreadOk(s, t);
    if Conflicts(s.rows, c) {
      NewRowsOwned(s);
      HeldKey(s, t, c);
      OnlyThread(s, s2, t);
    } else {
      InsertedKeys(s.rows, c);
      forall r ensures RowOk(s2, r) && LoggedOk(s2, r) {
        assert RowOk(s, r) && LoggedOk(s, r);
        InsertedRow(s, t, c, r);
      }
      forall q | q in s2.threads ensures ThreadOk(s2, q) {
        InsertOthers(s, s2, t, c, q);
      }
    }
  }

  /** An insert that was ignored met a row with its key, since its own name is new. */
  lemma HeldKey(s: Machine, t: string, c: Row)
    requires t in s.threads && s.threads[t] == Thread(Ingest(c), Inserting) && ThreadOk(s, t) && Conflicts(s.rows, c)
    ensures HoldsKey(s.rows, KeyOf(c)) && RefOf(c) !in s.rows
  {
  }

  lemma InsertOthers(s: Machine, s2: Machine, t: string, c: Row, q: string)
    requires Inv(s) && t in s.threads && s.threads[t] == Thread(Ingest(c), Inserting)
    requires !Conflicts(s.rows, c) && s2 == Inserted(s, t, c) && q in s.threads
    ensures ThreadOk(s2, q)
  {
    assert ThreadOk(s, q) && ThreadOk(s, t);
    assert RowOk(s, RefOf(c));
    assert KeyOf(s2.rows[RefOf(c)]) == KeyOf(c);
    forall k | HoldsKey(s.rows, k) ensures HoldsKey(s2.rows, k) {
      var r :| r in s.rows && KeyOf(s.rows[r]) == k;
      assert r in s2.rows && KeyOf(s2.rows[r]) == k;
    }
  }

  /** An appended event that does not touch a row leaves its conditions alone. */
  lemma LogGrows(s: Machine, s2: Machine, e: Event, r: Ref)
    requires s2.log == s.log + [e] && s2.start == s.start && s2.born == s.born && s2.threads.Keys == s.threads.Keys
    requires RowOk(s, r) && LoggedOk(s, r) && Lookup(s2.rows, r) == Lookup(s.rows, r)
    requires !Changes(e, r) && !Creates(e, r)
    requires r.id in s.threads ==>
               && s2.threads[r.id].call == s.threads[r.id].call
               && (s2.threads[r.id].pc == Returned(r, false) <==> s.threads[r.id].pc == Returned(r, false))
               && (s2.threads[r.id].pc == Inserting <==> s.threads[r.id].pc == Inserting)
    ensures RowOk(s2, r) && LoggedOk(s2, r)
  {
    AppendViews(s.log, e, r);
    assert ChangesIn(s2.log, r) == ChangesIn(s.log, r) + [] == ChangesIn(s.log, r);
    assert CreationsIn(s2.log, r) == CreationsIn(s.log, r) + [] == CreationsIn(s.log, r);
  }

  /** Its creation event gives a new row the one creation it needs. */
  lemma CreationLogged(s: Machine, s2: Machine, e: Event, r: Ref)
    requires s2.log == s.log + [e] && s2.start == s.start && s2.born == s.born && s2.rows == s.rows
    requires RowOk(s, r) && LoggedOk(s, r) && r in s.rows && r !in s.start && Owns(s2, r.id, r)
    requires e == CreationEvent(s.born[r], e.id, e.createdAt) && RefOf(s.born[r]) == r
    requires s.threads[r.id].pc != Returned(r, false) && s2.threads[r.id].pc == Returned(r, false)
    ensures RowOk(s2, r) && LoggedOk(s2, r)
  {
    AppendViews(s.log, e, r);
    assert ChangesIn(s2.log, r) == ChangesIn(s.log, r) + [] == ChangesIn(s.log, r);
    assert CreationsIn(s2.log, r) == [e];
  }

  lemma EmitRow(s: Machine, t: string, c: Row, p: Ref, id: string, now: string, r: Ref)
    requires t in s.threads && s.threads[t] == Thread(Ingest(c), Emitting(p)) && ThreadOk(s, t)
    requires RowOk(s, r) && LoggedOk(s, r) && RefOf(s.rows[p]) == p && s.rows[p].userId == c.userId
    requires r in s.rows && r !in s.start ==> Owns(s, r.id, r)
    requires RefOf(c) in s.rows && KeyOf(s.rows[RefOf(c)]) == KeyOf(c) ==> p == RefOf(c)
    ensures var s2 := Emitted(s, t, c, p, id, now); RowOk(s2, r) && LoggedOk(s2, r)
  {
    var s2, e := Emitted(s, t, c, p, id, now), EmittedEvent(t, c, p, id, now);
    if Creates(e, r) {
      CreationLogged(s, s2, e, r);
    } else {
      LogGrows(s, s2, e, r);
    }
  }

  /** The event of an ingest: its row's creation, or one more reaffirmation. */
  lemma EmitKeeps(s: Machine, t: string, c: Row, p: Ref, id: string, now: string)
    requires Inv(s) && t in s.threads && s.threads[t] == Thread(Ingest(c), Emitting(p)) && NewId(s.log, id)
    ensures Inv(Emitted(s, t, c, p, id, now))
  {
    var s2 := Emitted(s, t, c, p, id, now);
    assert ThreadOk(s, t);
    AppendDistinct(s.log, EmittedEvent(t, c, p, id, now));
    forall r ensures RowOk(s2, r) && LoggedOk(s2, r) {
      NewRowsOwned(s);
      assert RowOk(s, r) && LoggedOk(s, r);
      EmitRow(s, t, c, p, id, now, r);
    }
    forall q | q in s2.threads ensures ThreadOk(s2, q) {
      assert ThreadOk(s, q);
    }
  }

  /** The chain grows by an allowed link from the state the row is in. */
  lemma ChainGrows(born: Row, changes: seq<Event>, row: Row, to: State, updatedAt: string, id: string, now: string)
    requires Chain(born, changes, row) && AllowedClaim(row.state, to)
    ensures Chain(born, changes + [ChangeEvent(row, row.state, to, updatedAt, id, now)],
                  Moved(row, to, Some(updatedAt)))
  {
    var e := ChangeEvent(row, row.state, to, updatedAt, id, now);
    var more := changes + [e];
    assert forall x | x in more :: x in changes || x == e;
    forall i | 0 <= i < |more|
      ensures more[i].payload.from == StateBefore(born, more, i)
      ensures AllowedClaim(more[i].payload.from.value, more[i].payload.to.value)
    {
      assert StateBefore(born, more, i) == StateBefore(born, changes, i);
    }
  }

  /** s2 is s after a change event of `mine` and the update that goes with it. */
  ghost predicate ChangedBy(s: Machine, s2: Machine, mine: Ref, to: State, e: Event, updatedAt: string) {
    && mine in s.rows && mine.kind.ClaimKind? && RefOf(s.rows[mine]) == mine && AllowedClaim(s.rows[mine].state, to)
    && e == ChangeEvent(s.rows[mine], s.rows[mine].state, to, updatedAt, e.id, e.createdAt)
    && s2 == s.(threads := s2.threads, rows := UpdateState(s.rows, mine, to, Some(updatedAt)), log := s.log + [e])
    && s2.threads.Keys == s.threads.Keys
    && forall q | q in s.threads && s.threads[q].call.Ingest? :: s2.threads[q] == s.threads[q]
  }

  lemma ChangedRow(s: Machine, s2: Machine, mine: Ref, to: State, e: Event, updatedAt: string)
    requires ChangedBy(s, s2, mine, to, e, updatedAt) && RowOk(s, mine)
    ensures RowOk(s2, mine)
  {
    ChainGrows(s.born[mine], ChangesIn(s.log, mine), s.rows[mine], to, updatedAt, e.id, e.createdAt);
    ChangedViews(s, s2, mine, to, e, updatedAt);
  }

  lemma ChangedViews(s: Machine, s2: Machine, mine: Ref, to: State, e: Event, updatedAt: string)
    requires ChangedBy(s, s2, mine, to, e, updatedAt) && mine.id != ""
    ensures ChangesIn(s2.log, mine) == ChangesIn(s.log, mine) + [e]
    ensures mine in s2.rows && s2.rows[mine] == Moved(s.rows[mine], to, Some(updatedAt))
  {
    AppendViews(s.log, e, mine);
  }

  lemma ChangedRowLogged(s: Machine, s2: Machine, mine: Ref, to: State, e: Event, updatedAt: string)
    requires ChangedBy(s, s2, mine, to, e, updatedAt) && LoggedOk(s, mine)
    ensures LoggedOk(s2, mine)
  {
    AppendViews(s.log, e, mine);
  }

  lemma OtherRow(s: Machine, s2: Machine, mine: Ref, to: State, e: Event, updatedAt: string, r: Ref)
    requires ChangedBy(s, s2, mine, to, e, updatedAt) && RowOk(s, r) && LoggedOk(s, r) && r != mine
    ensures RowOk(s2, r) && LoggedOk(s2, r)
  {
    AppendViews(s.log, e, r);
  }

  lemma SwapWins(s: Machine, t: string, claimId: string, from: State, to: State, user: Option<string>,
                 id: string, now: string, updatedAt: string)
    requires Inv(s) && t in s.threads
    requires s.threads[t] == Thread(Transition(claimId, to, user), Writing(from)) && NewId(s.log, id)
    requires Ref(ClaimKind, claimId) in s.rows && s.rows[Ref(ClaimKind, claimId)].state == from
    ensures Inv(Swapped(s, t, claimId, from, to, id, now, updatedAt))
  {
    var s2 := Swapped(s, t, claimId, from, to, id, now, updatedAt);
    var mine := Ref(ClaimKind, claimId);
    assert ThreadOk(s, t) && RowOk(s, mine);
    var e := ChangeEvent(s.rows[mine], from, to, updatedAt, id, now);
    AppendDistinct(s.log, e);
    SameKeys(s.rows, s2.rows);
    forall r ensures RowOk(s2, r) && LoggedOk(s2, r) {
      assert RowOk(s, r) && LoggedOk(s, r);
      if r == mine {
        ChangedRow(s, s2, mine, to, e, updatedAt);
        ChangedRowLogged(s, s2, mine, to, e, updatedAt);
      } else {
        OtherRow(s, s2, mine, to, e, updatedAt, r);
      }
    }
    forall q | q in s2.threads ensures ThreadOk(s2, q) {
      SwapOthers(s, s2, q);
    }
  }

  /** The compare-and-set with its event, or the refusal of a caller whose read is out of date. */
  lemma SwapKeeps(s: Machine, t: string, claimId: string, from: State, to: State, user: Option<string>,
                  id: string, now: string, updatedAt: string)
    requires Inv(s) && t in s.threads
    requires s.threads[t] == Thread(Transition(claimId, to, user), Writing(from)) && NewId(s.log, id)
    ensures Inv(Swapped(s, t, claimId, from, to, id, now, updatedAt))
  {
    assert ThreadOk(s, t);
    if s.rows[Ref(ClaimKind, claimId)].state == from {
      SwapWins(s, t, claimId, from, to, user, id, now, updatedAt);
    } else {
      NewRowsOwned(s);
      OnlyThread(s, Swapped(s, t, claimId, from, to, id, now, updatedAt), t);
    }
  }

  lemma SwapOthers(s: Machine, s2: Machine, q: string)
    requires q in s.threads && ThreadOk(s, q) && q in s2.threads && s2.threads[q].call == s.threads[q].call
    requires s2.threads[q].pc == s.threads[q].pc || (s2.threads[q].pc == Applied && s2.threads[q].call.Transition?)
    requires s2.rows.Keys == s.rows.Keys && s2.born == s.born && s2.start == s.start
    requires forall r | r in s.rows :: KeyOf(s2.rows[r]) == KeyOf(s.rows[r])
    ensures ThreadOk(s2, q)
  {
    forall k | HoldsKey(s.rows, k) ensures HoldsKey(s2.rows, k) {
      var r :| r in s.rows && KeyOf(s.rows[r]) == k;
      assert r in s2.rows && KeyOf(s2.rows[r]) == k;
    }
  }

  lemma NextKeeps(s: Machine, a: Action)
    requires Inv(s) && Enabled(s, a)
    ensures Inv(Next(s, a))
  {
    match a
    case Begin(t, call) => BeginKeeps(s, t, call);
    case Crash(t) => CrashKeeps(s, t);
    case Step(t, id, now, updatedAt) =>
      assert ThreadOk(s, t);
      match s.threads[t] {
        case Thread(Ingest(c), Inserting) => InsertKeeps(s, t, c);
        case Thread(Ingest(c), Selecting) => SelectKeeps(s, t, c);
        case Thread(Ingest(c), Emitting(p)) => EmitKeeps(s, t, c, p, id, now);
        case Thread(Transition(claim, to, user), Reading) => JudgeKeeps(s, t, claim, to, user);
        case Thread(Transition(claim, to, user), Writing(from)) =>
          SwapKeeps(s, t, claim, from, to, user, id, now, updatedAt);
        case _ =>
      }
  }

  lemma {:induction false} InvAlongRun(s: Machine, actions: seq<Action>, s2: Machine)
    requires Inv(s) && Run(s, actions, s2)
    ensures Inv(s2) && s2.start == s.start
    decreases |actions|
  {
    if actions != [] {
      NextKeeps(s, actions[0]);
      InvAlongRun(Next(s, actions[0]), actions[1..], s2);
    }
  }
}
