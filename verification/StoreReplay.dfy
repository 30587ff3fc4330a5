/**
 Replay of what interleaved ingests and transitions have logged. Because the row and its creation
 event are two statements, a transition can slip its event in between: the one way in which a
 finished run can fail to replay.
 */
module StoreReplay {

  import opened Wrappers
  import opened Ordering
  import opened EventLog
  import opened Replay
  import opened Backfill
  import opened LiveStore
  import opened StoreProtocol
  import opened StoreRuns

  lemma RowDated(s: Machine, r: Ref)
    requires RowOk(s, r)
    ensures Dated(s.log, r)
  {
    forall e | e in s.log && Changes(e, r) ensures e in ChangesIn(s.log, r) {
      assert ChangeOf(r)(e);
    }
  }

  lemma RowCreatedOnce(s: Machine, r: Ref)
    requires LoggedOk(s, r) && (r in s.rows ==> r in s.born && SameIdentity(s.born[r], s.rows[r]))
    ensures |CreationsIn(s.log, r)| <= 1
    ensures forall e | e in CreationsIn(s.log, r) :: r in s.rows && SameIdentity(CreatedRow(e).value, s.rows[r])
  {
  }

  /** What a run logs is a log of its rows. */
  lemma RunLog(s: Machine)
    requires Inv(s)
    ensures LogOf(s.rows, s.log)
  {
    forall r
      ensures |CreationsIn(s.log, r)| <= 1 && Dated(s.log, r)
      ensures forall e | e in s.log && Creates(e, r) :: r in s.rows && SameIdentity(CreatedRow(e).value, s.rows[r])
    {
      assert RowOk(s, r) && LoggedOk(s, r);
      RowDated(s, r);
      RowCreatedOnce(s, r);
      forall e | e in s.log && Creates(e, r) ensures e in CreationsIn(s.log, r) {
        assert CreationOf(r)(e);
      }
    }
    forall e | e in s.log && CreatedRow(e).Some?
      ensures RefOf(CreatedRow(e).value) in s.rows
      ensures SameIdentity(CreatedRow(e).value, s.rows[RefOf(CreatedRow(e).value)])
    {
      assert Creates(e, RefOf(CreatedRow(e).value));
    }
  }

  /**
   The row's creation is logged, and no transition came before it - unless another came after it, or
   the row is back where it was born.
   */
  ghost predicate LoggedInTime(s: Machine, r: Ref)
    requires r in s.rows && r in s.born
  {
    var seen := ShapingIn(s.log, r);
    && CreationsIn(s.log, r) != [] && seen != []
    && (Creates(seen[|seen| - 1], r) ==> s.rows[r] == s.born[r])
  }

  lemma RowSettles(s: Machine, r: Ref)
    requires RowOk(s, r) && r in s.rows
    ensures Settled(s.log, r, s.rows[r])
  {
    var c := ChangesIn(s.log, r);
    if c != [] {
      assert c[|c| - 1] in c;
      assert StateBefore(s.born[r], c, |c|) == c[|c| - 1].payload.to;
    }
  }

  lemma InTimeIsRebuildable(s: Machine, r: Ref)
    requires RowOk(s, r) && LoggedOk(s, r) && r in s.rows
    ensures r in s.born && (LoggedInTime(s, r) <==> Rebuildable(s.log, r, s.rows[r]))
  {
    RowSettles(s, r);
    if ShapingIn(s.log, r) != [] {
      LastShaping(s.log, r);
      CreationShowsBirth(s, r);
    }
  }

  lemma CreationShowsBirth(s: Machine, r: Ref)
    requires LoggedOk(s, r) && r in s.rows && r in s.born
    ensures forall e | e in CreationsIn(s.log, r) :: Shows(e, s.rows[r]) <==> s.rows[r] == s.born[r]
  {
  }

  /**
   A run from an empty store whose log is read in the order it was appended: replay into an empty
   target gives back both tables exactly, if and only if every row was logged in time. Replaying in
   place never changes anything.
   */
  lemma RunReplaysIff(s0: Machine, actions: seq<Action>, s: Machine)
    requires Init(s0) && s0.rows == map[] && Run(s0, actions, s) && AppendOrder(s.log)
    ensures forall r | r in s.rows :: r in s.born
    ensures ReplayLog(map[], InOrder(s.log)) == s.rows <==> forall r | r in s.rows :: LoggedInTime(s, r)
    ensures ReplayLog(s.rows, InOrder(s.log)) == s.rows
  {
    InvAtEnd(s0, actions, s);
    RunLog(s);
    BeforeStrict();
    BeforeTotal(s.log);
    SortOfSorted(Before, s.log);
    forall r | r in s.rows
      ensures r in s.born && (LoggedInTime(s, r) <==> Rebuildable(s.log, r, s.rows[r])) && Settled(s.log, r, s.rows[r])
    {
      assert RowOk(s, r) && LoggedOk(s, r);
      InTimeIsRebuildable(s, r);
      RowSettles(s, r);
    }
    RebuildsExactlyIff(s.rows, s.log);
    InPlaceChangesNothingIff(s.rows, s.log);
  }

  /** The same log in reading order. */
  lemma LogInOrder(rows: Rows, log: seq<Event>)
    requires LogOf(rows, log) && DistinctIds(log)
    ensures LogOf(rows, InOrder(log))
  {
    SortMembers(Before, log);
    forall r ensures |CreationsIn(InOrder(log), r)| <= 1 && Dated(InOrder(log), r) {
      assert Dated(log, r);
      SortedViews(log, r);
    }
  }

  /**
   In whatever order the log is read, clocks and identifiers being what they are: replay into an empty
   target gives back both tables exactly, if and only if each row's creation is logged and the event
   read last of those that touch it shows the row; in place it changes nothing if and only if the
   change read last does.
   */
  lemma AnyOrderReplaysIff(s0: Machine, actions: seq<Action>, s: Machine)
    requires Init(s0) && s0.rows == map[] && Run(s0, actions, s)
    ensures ReplayLog(map[], InOrder(s.log)) == s.rows
            <==> forall r | r in s.rows :: Rebuildable(InOrder(s.log), r, s.rows[r])
    ensures ReplayLog(s.rows, InOrder(s.log)) == s.rows
            <==> forall r | r in s.rows :: Settled(InOrder(s.log), r, s.rows[r])
  {
    InvAtEnd(s0, actions, s);
    RunLog(s);
    LogInOrder(s.rows, s.log);
    RebuildsExactlyIff(s.rows, InOrder(s.log));
    InPlaceChangesNothingIff(s.rows, InOrder(s.log));
  }

  // ----- what backfill makes of it --------------------------------------------------------------

  /** Creation events of a run name the rows they carry, so backfill's guard sees all of them and nothing else. */
  ghost predicate ProperlyNamed(log: seq<Event>) {
    forall e, r | e in log :: NamesCreation(e, r) <==> Creates(e, r)
  }

  lemma NextNamesProperly(s: Machine, a: Action)
    requires Enabled(s, a) && ProperlyNamed(s.log)
    ensures ProperlyNamed(Next(s, a).log)
  {
    if a.Step? {
      match s.threads[a.t] {
        case Thread(Ingest(c), Emitting(p)) => EmittedNamesProperly(s, a.t, c, p, a.eventId, a.eventTime);
        case Thread(Transition(claim, to, _), Writing(from)) =>
        case _ =>
      }
    }
  }

  lemma EmittedNamesProperly(s: Machine, t: string, c: Row, p: Ref, id: string, now: string)
    requires t in s.threads && ProperlyNamed(s.log)
    ensures ProperlyNamed(Emitted(s, t, c, p, id, now).log)
  {
  }

  lemma {:induction false} RunNamesProperly(s: Machine, actions: seq<Action>, s2: Machine)
    requires Run(s, actions, s2) && ProperlyNamed(s.log)
    ensures ProperlyNamed(s2.log)
    decreases |actions|
  {
    if actions != [] {
      NextNamesProperly(s, actions[0]);
      RunNamesProperly(Next(s, actions[0]), actions[1..], s2);
    }
  }

  lemma NamedIsLogged(log: seq<Event>, r: Ref)
    requires ProperlyNamed(log)
    ensures HasCreation(log, r) <==> CreationsIn(log, r) != []
  {
    if HasCreation(log, r) {
      var e :| e in log && NamesCreation(e, r);
      assert CreationOf(r)(e);
      assert e in CreationsIn(log, r);
    }
    if CreationsIn(log, r) != [] {
      var e := CreationsIn(log, r)[0];
      assert e in CreationsIn(log, r) && CreationOf(r)(e);
      assert NamesCreation(e, r);
    }
  }

  lemma RunIsBackfillable(s0: Machine, actions: seq<Action>, s: Machine)
    requires Init(s0) && s0.rows == map[] && Run(s0, actions, s) && AppendOrder(s.log)
    ensures InOrder(s.log) == s.log && Backfillable(s.rows, s.log)
  {
    InvAtEnd(s0, actions, s);
    RunLog(s);
    RunNamesProperly(s0, actions, s);
    BeforeStrict();
    BeforeTotal(s.log);
    SortOfSorted(Before, s.log);
    forall r | r in s.rows ensures HasCreation(s.log, r) <==> CreationsIn(s.log, r) != [] {
      NamedIsLogged(s.log, r);
    }
    forall r | r in s.rows ensures Settled(s.log, r, s.rows[r]) {
      assert RowOk(s, r);
      RowSettles(s, r);
    }
  }

  /**
   Whatever calls died between a row's insert and its creation event, backfill and replay give back
   both tables exactly when every creation that was logged was logged in time: a missing event is
   repaired, a late one is not. Replaying in place changes nothing.
   */
  lemma RunRepairsIff(s0: Machine, actions: seq<Action>, s: Machine, log2: seq<Event>)
    requires Init(s0) && s0.rows == map[] && Run(s0, actions, s) && AppendOrder(s.log)
    requires IsBackfill(s.rows, s.log, log2)
    ensures forall r | r in s.rows :: r in s.born
    ensures ReplayLog(map[], InOrder(log2)) == s.rows
            <==> forall r | r in s.rows && CreationsIn(s.log, r) != [] :: LoggedInTime(s, r)
    ensures ReplayLog(s.rows, InOrder(log2)) == s.rows && Missing(s.rows, log2) == {}
  {
    InvAtEnd(s0, actions, s);
    RunIsBackfillable(s0, actions, s);
    BackfillRepairsIff(s.rows, s.log, log2);
    forall r | r in s.rows ensures r in s.born && (LoggedInTime(s, r) <==> Rebuildable(s.log, r, s.rows[r])) {
      assert RowOk(s, r) && LoggedOk(s, r);
      InTimeIsRebuildable(s, r);
    }
  }

  // ----- a creation logged too late -------------------------------------------------------------

  lemma RunCons(s: Machine, a: Action, rest: seq<Action>, s2: Machine)
    requires Enabled(s, a) && Run(Next(s, a), rest, s2)
    ensures Run(s, [a] + rest, s2)
  {
    assert ([a] + rest)[1..] == rest;
  }

  lemma {:induction false} RunConcat(s: Machine, first: seq<Action>, s1: Machine, second: seq<Action>, s2: Machine)
    requires Run(s, first, s1) && Run(s1, second, s2)
    ensures Run(s, first + second, s2)
    decreases |first|
  {
    if first == [] {
      assert first + second == second;
    } else {
      RunConcat(Next(s, first[0]), first[1..], s1, second, s2);
      RunCons(s, first[0], first[1..] + second, s2);
      assert first + second == [first[0]] + (first[1..] + second);
    }
  }

  lemma RunOne(s: Machine, a: Action)
    requires Enabled(s, a)
    ensures Run(s, [a], Next(s, a))
  {
    assert [a][1..] == [] && Run(Next(s, a), [], Next(s, a));
  }

  const EMPTY := Machine(map[], [], map[], map[], map[])

  /** An ingest inserts its claim; before it logs it, a transition moves the claim and logs that. */
  function InsertOnly(c: Row): seq<Action> {
    [Begin(c.id, Ingest(c))] + [Step(c.id, "0", "0", "0")]
  }

  function Transit(c: Row, to: State, t: string): seq<Action> {
    [Begin(t, Transition(c.id, to, None))] + [Step(t, "0", "0", "0")] + [Step(t, "1", "1", "1")]
  }

  function LogLate(c: Row): seq<Action> {
    [Step(c.id, "2", "2", "2")] + [Step(c.id, "2", "2", "2")]
  }

  ghost predicate HalfIngested(s: Machine, c: Row, row: Row, log: seq<Event>) {
    && s.rows == map[RefOf(c) := row] && KeyOf(row) == KeyOf(c) && row.userId == c.userId && s.log == log
    && c.id in s.threads && s.threads[c.id] == Thread(Ingest(c), Selecting)
  }

  lemma InsertRun(c: Row) returns (s: Machine)
    requires c.Claim? && c.id != "" && ClaimState(c.state)
    ensures Run(EMPTY, InsertOnly(c), s) && HalfIngested(s, c, c, []) && s.threads.Keys == {c.id}
  {
    var s1 := Next(EMPTY, Begin(c.id, Ingest(c)));
    s := Next(s1, Step(c.id, "0", "0", "0"));
    RunOne(EMPTY, Begin(c.id, Ingest(c)));
    RunOne(s1, Step(c.id, "0", "0", "0"));
    RunConcat(EMPTY, [Begin(c.id, Ingest(c))], s1, [Step(c.id, "0", "0", "0")], s);
  }

  lemma TransitRun(s: Machine, c: Row, to: State, t: string) returns (s3: Machine)
    requires c.Claim? && ClaimState(c.state) && AllowedClaim(c.state, to)
    requires t !in s.threads && HalfIngested(s, c, c, [])
    ensures Run(s, Transit(c, to, t), s3)
    ensures HalfIngested(s3, c, Moved(c, to, Some("1")), [ChangeEvent(c, c.state, to, "1", "1", "1")])
  {
    var s1 := Next(s, Begin(t, Transition(c.id, to, None)));
    var s2 := Next(s1, Step(t, "0", "0", "0"));
    assert s2.threads[t].pc == Writing(c.state);
    s3 := Next(s2, Step(t, "1", "1", "1"));
    RunOne(s, Begin(t, Transition(c.id, to, None)));
    RunOne(s1, Step(t, "0", "0", "0"));
    RunOne(s2, Step(t, "1", "1", "1"));
    RunConcat(s, [Begin(t, Transition(c.id, to, None))], s1, [Step(t, "0", "0", "0")], s2);
    RunConcat(s, [Begin(t, Transition(c.id, to, None))] + [Step(t, "0", "0", "0")], s2, [Step(t, "1", "1", "1")], s3);
  }

  lemma LogRun(s: Machine, c: Row, row: Row, e: Event) returns (s2: Machine)
    requires HalfIngested(s, c, row, [e]) && e.id == "1"
    ensures Run(s, LogLate(c), s2) && s2.rows == s.rows && s2.log == [e, CreationEvent(c, "2", "2")]
  {
    assert "1"[0] != "2"[0];
    assert KeyOf(s.rows[RefOf(c)]) == KeyOf(c);
    var s1 := Next(s, Step(c.id, "2", "2", "2"));
    assert s1.threads[c.id] == Thread(Ingest(c), Emitting(RefOf(c)));
    s2 := Next(s1, Step(c.id, "2", "2", "2"));
    RunOne(s, Step(c.id, "2", "2", "2"));
    RunOne(s1, Step(c.id, "2", "2", "2"));
    RunConcat(s, [Step(c.id, "2", "2", "2")], s1, [Step(c.id, "2", "2", "2")], s2);
  }

  lemma LateRun(c: Row, to: State, t: string) returns (s: Machine)
    requires c.Claim? && c.id != "" && t != c.id && ClaimState(c.state) && AllowedClaim(c.state, to)
    ensures Run(EMPTY, InsertOnly(c) + Transit(c, to, t) + LogLate(c), s)
    ensures s.rows == map[RefOf(c) := Moved(c, to, Some("1"))]
    ensures s.log == [ChangeEvent(c, c.state, to, "1", "1", "1"), CreationEvent(c, "2", "2")]
  {
    var s2 := InsertRun(c);
    var s5 := TransitRun(s2, c, to, t);
    s := LogRun(s5, c, Moved(c, to, Some("1")), ChangeEvent(c, c.state, to, "1", "1", "1"));
    var first, second, third := InsertOnly(c), Transit(c, to, t), LogLate(c);
    RunConcat(EMPTY, first, s2, second, s5);
    RunConcat(EMPTY, first + second, s5, third, s);
  }

  /**
   Any claim and any allowed move to another state: when the transition lands between the insert and
   its creation event, both calls succeed, and replay then gives the claim back in its first state.
   */
  lemma LateCreationMisleads(c: Row, to: State, t: string) returns (s: Machine)
    requires c.Claim? && c.id != "" && t != c.id && ClaimState(c.state) && c.state != to && AllowedClaim(c.state, to)
    ensures Init(EMPTY) && Run(EMPTY, InsertOnly(c) + Transit(c, to, t) + LogLate(c), s) && AppendOrder(s.log)
    ensures s.rows == map[RefOf(c) := Moved(c, to, Some("1"))]
    ensures ReplayLog(map[], InOrder(s.log)) == map[RefOf(c) := c] != s.rows
  {
    s := LateRun(c, to, t);
    LateReplay(c, s.log[0], s.log[1]);
    assert s.rows[RefOf(c)].state == to;
  }

  lemma LateReplay(c: Row, e1: Event, e2: Event)
    requires CreatedRow(e1).None? && ChangedRef(e1).Some? && CreatedRow(e2) == Some(c)
    requires e1.createdAt == "1" && e2.createdAt == "2" && e1.id != e2.id
    ensures AppendOrder([e1, e2]) && ReplayLog(map[], InOrder([e1, e2])) == map[RefOf(c) := c]
  {
    BeforeStrict();
    assert StringLess("1", "2");
    assert Before(e1, e2);
    BeforeTotal([e1, e2]);
    SortOfSorted(Before, [e1, e2]);
    assert [e1, e2][..1] == [e1] && [e1][..0] == [];
    assert ReplayLog(map[], [e1]) == map[];
  }
}
