/**
 Backfill gives every row without a logged creation a synthesized one that carries the row as it is
 now, dated at the row's own creation. Wherever such events sort among the row's state changes, the
 log then rebuilds the whole store.
 */
module Backfill {

  import opened Wrappers
  import opened Ordering
  import opened EventLog
  import opened Replay

  function CreatedType(k: Kind): EventType {
    match k
    case MemoryKind => MemoryCreated
    case ClaimKind => ClaimCreated
  }

  /** The NOT EXISTS guard: it looks at the event's type and target, never at its payload. */
  predicate NamesCreation(e: Event, r: Ref) {
    e.eventType == CreatedType(r.kind) && e.targetKind == Some(r.kind) && e.targetId == Some(r.id)
  }

  predicate HasCreation(log: seq<Event>, r: Ref) {
    exists e | e in log :: NamesCreation(e, r)
  }

  function Missing(rows: Rows, log: seq<Event>): set<Ref> {
    set r | r in rows && !HasCreation(log, r)
  }

  function CreationEvent(row: Row, id: string, createdAt: string): Event {
    Event(id, createdAt, row.userId, CreatedType(RefOf(row).kind), Some(RefOf(row).kind), Some(row.id), RowPayload(row))
  }

  function Synthesized(row: Row, id: string): Event {
    CreationEvent(row, id, row.createdAt)
  }

  /** The events backfill appends for `refs` in that order, under the ids it mints. */
  function Added(rows: Rows, refs: seq<Ref>, ids: seq<string>): seq<Event>
    requires |refs| == |ids| && forall r | r in refs :: r in rows
  {
    if refs == [] then []
    else
      var n := |refs| - 1;
      Added(rows, refs[..n], ids[..n]) + [Synthesized(rows[refs[n]], ids[n])]
  }

  ghost predicate NoRepeats<T>(s: seq<T>) {
    forall i, j | 0 <= i < j < |s| :: s[i] != s[j]
  }

  lemma {:induction false} AddedEvents(rows: Rows, refs: seq<Ref>, ids: seq<string>)
    requires |refs| == |ids| && WellKeyed(rows) && forall r | r in refs :: r in rows
    ensures |Added(rows, refs, ids)| == |refs|
    ensures forall i | 0 <= i < |refs| :: Added(rows, refs, ids)[i] == Synthesized(rows[refs[i]], ids[i])
  {
    if refs != [] {
      AddedEvents(rows, refs[..|refs| - 1], ids[..|refs| - 1]);
    }
  }

  /** Each row among `refs` gets exactly one creation, carrying the row, and no row gets a change. */
  lemma {:induction false} AddedViews(rows: Rows, refs: seq<Ref>, ids: seq<string>, r: Ref)
    requires |refs| == |ids| && WellKeyed(rows) && NoRepeats(refs) && forall q | q in refs :: q in rows
    ensures var made := CreationsIn(Added(rows, refs, ids), r);
            |made| == (if r in refs then 1 else 0) && forall e | e in made :: r in rows && Shows(e, rows[r])
    ensures ChangesIn(Added(rows, refs, ids), r) == []
  {
    if refs != [] {
      var n := |refs| - 1;
      var e := Synthesized(rows[refs[n]], ids[n]);
      AddedViews(rows, refs[..n], ids[..n], r);
      AppendViews(Added(rows, refs[..n], ids[..n]), e, r);
      assert refs == refs[..n] + [refs[n]];
      assert Creates(e, refs[n]);
    }
  }

  // ----- views of the sorted log ----------------------------------------------------------------

  function InOrder(log: seq<Event>): seq<Event> {
    Sort(Before, log)
  }

  /** Replay reads the whole log by time, and events of one time by id, both by code point. */
  lemma ReadInOrder(log: seq<Event>)
    ensures multiset(InOrder(log)) == multiset(log)
    ensures forall i, j | 0 <= i < j < |InOrder(log)| ::
              var a, b := InOrder(log)[i], InOrder(log)[j];
              || ComesBefore(a.createdAt, b.createdAt)
              || (a.createdAt == b.createdAt && (a.id == b.id || ComesBefore(a.id, b.id)))
  {
    BeforeStrict();
    SortSorts(Before, log);
    forall i, j | 0 <= i < j < |InOrder(log)|
      ensures var a, b := InOrder(log)[i], InOrder(log)[j];
              || ComesBefore(a.createdAt, b.createdAt)
              || (a.createdAt == b.createdAt && (a.id == b.id || ComesBefore(a.id, b.id)))
    {
      var a, b := InOrder(log)[i], InOrder(log)[j];
      NotAfter(a.createdAt, b.createdAt);
      NotAfter(a.id, b.id);
    }
  }

  lemma NotAfter(a: string, b: string)
    ensures StringLess(b, a) || a == b || ComesBefore(a, b)
  {
    StringLessStrict();
    StringLessIs(a, b);
    assert TotalOn(StringLess, [a, b]);
    assert a in [a, b] && b in [a, b];
  }

  lemma SortedViews(log: seq<Event>, r: Ref)
    requires DistinctIds(log)
    ensures CreationsIn(InOrder(log), r) == InOrder(CreationsIn(log, r))
    ensures ChangesIn(InOrder(log), r) == InOrder(ChangesIn(log, r))
    ensures ShapingIn(InOrder(log), r) == InOrder(ShapingIn(log, r))
  {
    BeforeStrict();
    BeforeTotal(log);
    FilterSort(Before, CreationOf(r), log);
    FilterSort(Before, ChangeOf(r), log);
    FilterSort(Before, ShapingOf(r), log);
  }

  lemma ConcatViews(a: seq<Event>, b: seq<Event>, r: Ref)
    ensures CreationsIn(a + b, r) == CreationsIn(a, r) + CreationsIn(b, r)
    ensures ChangesIn(a + b, r) == ChangesIn(a, r) + ChangesIn(b, r)
    ensures ShapingIn(a + b, r) == ShapingIn(a, r) + ShapingIn(b, r)
  {
    FilterConcat(CreationOf(r), a, b);
    FilterConcat(ChangeOf(r), a, b);
    FilterConcat(ShapingOf(r), a, b);
  }

  lemma TouchedLast(before: seq<Event>, e: Event, r: Ref)
    requires Creates(e, r) || Changes(e, r)
    ensures var es := before + [e];
            && ShapingIn(es, r) != [] && ShapingIn(es, r)[|ShapingIn(es, r)| - 1] == e
            && (Creates(e, r) ==> e in CreationsIn(es, r))
            && (Changes(e, r) ==> ChangesIn(es, r) != [] && ChangesIn(es, r)[|ChangesIn(es, r)| - 1] == e)
  {
    AppendViews(before, e, r);
  }

  lemma UntouchedLast(before: seq<Event>, e: Event, r: Ref)
    requires !Creates(e, r) && !Changes(e, r)
    ensures CreationsIn(before + [e], r) == CreationsIn(before, r)
    ensures ChangesIn(before + [e], r) == ChangesIn(before, r)
    ensures ShapingIn(before + [e], r) == ShapingIn(before, r)
  {
    AppendViews(before, e, r);
  }

  /** The last event that touches a row is one of its creations or its last change. */
  lemma {:induction false} LastShaping(es: seq<Event>, r: Ref)
    requires ShapingIn(es, r) != []
    ensures var last := ShapingIn(es, r)[|ShapingIn(es, r)| - 1];
            var changes := ChangesIn(es, r);
            last in CreationsIn(es, r) || (changes != [] && last == changes[|changes| - 1])
  {
    var n := |es| - 1;
    SplitLast(es);
    if Creates(es[n], r) || Changes(es[n], r) {
      TouchedLast(es[..n], es[n], r);
    } else {
      UntouchedLast(es[..n], es[n], r);
      LastShaping(es[..n], r);
    }
  }

  lemma ShapesSomething(es: seq<Event>, r: Ref)
    requires CreationsIn(es, r) != []
    ensures ShapingIn(es, r) != []
  {
    var e := CreationsIn(es, r)[0];
    assert e in CreationsIn(es, r);
    assert ShapingOf(r)(e) && e in es;
    assert e in ShapingIn(es, r);
  }

  /** A row whose every creation carries it as it is, and whose changes end there, is rebuilt. */
  lemma CurrentCreationRebuilds(es: seq<Event>, r: Ref, row: Row)
    requires CreationsIn(es, r) != [] && Settled(es, r, row)
    requires forall e | e in CreationsIn(es, r) :: Shows(e, row)
    ensures Rebuildable(es, r, row)
  {
    ShapesSomething(es, r);
    LastShaping(es, r);
  }

  // ----- the theorem ----------------------------------------------------------------------------

  /** Every logged creation names the row it carries, and changes are dated and end at each row's current state. */
  ghost predicate Backfillable(rows: Rows, log: seq<Event>) {
    && DistinctIds(log) && LogOf(rows, log)
    && (forall r | r in rows :: HasCreation(log, r) <==> CreationsIn(log, r) != [])
    && (forall r | r in rows :: Settled(InOrder(log), r, rows[r]))
  }

  /** A store backfill can repair: the rows that do have a creation already replay exactly. */
  ghost predicate Repairable(rows: Rows, log: seq<Event>) {
    Backfillable(rows, log) && forall r | r in rows && HasCreation(log, r) :: Rebuildable(InOrder(log), r, rows[r])
  }

  /** A backfilled event: the row as it is, dated at the row's own creation, under its own user. */
  ghost predicate CreatesFrom(e: Event, row: Row) {
    && e.payload == RowPayload(row) && e.createdAt == row.createdAt && e.userId == row.userId
    && e.targetId == Some(row.id)
    && (if row.Memory? then e.eventType == MemoryCreated && e.targetKind == Some(MemoryKind)
        else e.eventType == ClaimCreated && e.targetKind == Some(ClaimKind))
  }

  /** Backfill appends one such event for each row whose creation no event names, and for no other. */
  lemma BackfilledEvents(rows: Rows, log: seq<Event>, log2: seq<Event>)
    requires WellKeyed(rows) && IsBackfill(rows, log, log2)
    ensures |log| <= |log2| && log2[..|log|] == log
    ensures forall i | |log| <= i < |log2| ::
              exists r | r in rows :: !HasCreation(log, r) && CreatesFrom(log2[i], rows[r])
    ensures forall r | r in rows && !HasCreation(log, r) ::
              exists i | |log| <= i < |log2| :: CreatesFrom(log2[i], rows[r])
  {
    var refs: seq<Ref>, ids: seq<string> :| BackfillBy(rows, log, log2, refs, ids);
    AddedEvents(rows, refs, ids);
    forall i | |log| <= i < |log2|
      ensures exists r | r in rows :: !HasCreation(log, r) && CreatesFrom(log2[i], rows[r])
    {
      var r := refs[i - |log|];
      assert r in refs && r in Missing(rows, log);
      assert log2[i] == Synthesized(rows[r], ids[i - |log|]);
    }
    forall r | r in rows && !HasCreation(log, r)
      ensures exists i | |log| <= i < |log2| :: CreatesFrom(log2[i], rows[r])
    {
      assert r in Missing(rows, log) && r in refs;
      var k :| 0 <= k < |refs| && refs[k] == r;
      assert log2[|log| + k] == Synthesized(rows[r], ids[k]);
    }
  }

  ghost predicate FreshIds(log: seq<Event>, ids: seq<string>) {
    NoRepeats(ids) && forall e | e in log :: e.id !in ids
  }

  /** `log2` is `log` with one synthesized creation for each row that had none. */
  ghost predicate IsBackfill(rows: Rows, log: seq<Event>, log2: seq<Event>) {
    exists refs: seq<Ref>, ids: seq<string> ::
      BackfillBy(rows, log, log2, refs, ids)
  }

  ghost predicate BackfillBy(rows: Rows, log: seq<Event>, log2: seq<Event>, refs: seq<Ref>, ids: seq<string>) {
    && |refs| == |ids| && NoRepeats(refs) && FreshIds(log, ids)
    && (forall r :: r in refs <==> r in Missing(rows, log))
    && log2 == log + Added(rows, refs, ids)
  }

  lemma BackfilledIds(rows: Rows, log: seq<Event>, refs: seq<Ref>, ids: seq<string>)
    requires WellKeyed(rows) && DistinctIds(log)
    requires |refs| == |ids| && FreshIds(log, ids) && forall r | r in refs :: r in rows
    ensures DistinctIds(log + Added(rows, refs, ids))
  {
    AddedEvents(rows, refs, ids);
    var more := Added(rows, refs, ids);
    forall e | e in more ensures e.id in ids {
      var i :| 0 <= i < |more| && more[i] == e;
      assert ids[i] in ids;
    }
    forall a, b | a in more && b in more && a.id == b.id ensures a == b {
      var i :| 0 <= i < |more| && more[i] == a;
      var j :| 0 <= j < |more| && more[j] == b;
      assert a.id == ids[i] && b.id == ids[j];
    }
  }

  lemma NothingThere(p: Event -> bool, s: seq<Event>)
    requires Filter(p, s) == []
    ensures forall e | e in s :: !p(e)
  {
    forall e | e in s ensures !p(e) {
      assert e in Filter(p, s) <==> e in s && p(e);
    }
  }

  lemma BackfilledDates(log: seq<Event>, more: seq<Event>, r: Ref)
    requires Dated(log, r) && ChangesIn(more, r) == []
    ensures Dated(InOrder(log + more), r)
  {
    SortMembers(Before, log + more);
    NothingThere(ChangeOf(r), more);
    forall e | e in more ensures !Changes(e, r) {
      assert !ChangeOf(r)(e);
    }
  }

  lemma NothingAdded(more: seq<Event>, r: Ref)
    requires CreationsIn(more, r) == [] && ChangesIn(more, r) == []
    ensures ShapingIn(more, r) == []
  {
    NothingThere(CreationOf(r), more);
    NothingThere(ChangeOf(r), more);
    forall e | e in more ensures !ShapingOf(r)(e) {
      assert !CreationOf(r)(e) && !ChangeOf(r)(e);
    }
    FilterNone(ShapingOf(r), more);
  }

  /** New events that leave a row alone leave its views of the sorted log alone. */
  lemma UntouchedViews(log: seq<Event>, more: seq<Event>, r: Ref)
    requires DistinctIds(log + more) && DistinctIds(log) && ChangesIn(more, r) == []
    ensures ChangesIn(InOrder(log + more), r) == ChangesIn(InOrder(log), r)
    ensures CreationsIn(more, r) == [] ==>
              && CreationsIn(InOrder(log + more), r) == CreationsIn(InOrder(log), r)
              && ShapingIn(InOrder(log + more), r) == ShapingIn(InOrder(log), r)
    ensures CreationsIn(log, r) == [] ==>
              CreationsIn(InOrder(log + more), r) == InOrder(CreationsIn(more, r))
  {
    SortedViews(log + more, r);
    SortedViews(log, r);
    ConcatViews(log, more, r);
    assert ChangesIn(log, r) + [] == ChangesIn(log, r);
    assert [] + CreationsIn(more, r) == CreationsIn(more, r);
    if CreationsIn(more, r) == [] {
      NothingAdded(more, r);
      assert ShapingIn(log, r) + [] == ShapingIn(log, r) && CreationsIn(log, r) + [] == CreationsIn(log, r);
    }
  }

  lemma BackfilledRow(rows: Rows, log: seq<Event>, log2: seq<Event>, refs: seq<Ref>, ids: seq<string>, r: Ref)
    requires Backfillable(rows, log) && BackfillBy(rows, log, log2, refs, ids)
    ensures var all := InOrder(log2);
            && |CreationsIn(all, r)| <= 1 && Dated(all, r)
            && ChangesIn(all, r) == ChangesIn(InOrder(log), r)
            && (r in rows ==> (Rebuildable(all, r, rows[r])
                               <==> (HasCreation(log, r) ==> Rebuildable(InOrder(log), r, rows[r]))))
  {
    var more := Added(rows, refs, ids);
    BackfilledIds(rows, log, refs, ids);
    AddedViews(rows, refs, ids, r);
    UntouchedViews(log, more, r);
    BackfilledDates(log, more, r);
    if r in refs {
      assert r in Missing(rows, log);
      SortMembers(Before, CreationsIn(more, r));
      CurrentCreationRebuilds(InOrder(log2), r, rows[r]);
    } else {
      SortedViews(log, r);
    }
  }

  /**
   Backfill, then replay into empty tables: every row comes back, field by field, exactly when the rows
   that already had a logged creation replay exactly. In place nothing changes, and a second backfill
   has nothing to do.
   */
  lemma BackfillRepairsIff(rows: Rows, log: seq<Event>, log2: seq<Event>)
    requires Backfillable(rows, log) && IsBackfill(rows, log, log2)
    ensures ReplayLog(map[], InOrder(log2)) == rows <==> Repairable(rows, log)
    ensures ReplayLog(rows, InOrder(log2)) == rows
    ensures Missing(rows, log2) == {}
  {
    var refs: seq<Ref>, ids: seq<string> :| BackfillBy(rows, log, log2, refs, ids);
    forall r ensures |CreationsIn(InOrder(log2), r)| <= 1 && Dated(InOrder(log2), r) {
      BackfilledRow(rows, log, log2, refs, ids, r);
    }
    BackfilledLog(rows, log, refs, ids);
    forall r | r in rows
      ensures Settled(InOrder(log2), r, rows[r])
      ensures Rebuildable(InOrder(log2), r, rows[r])
              <==> (HasCreation(log, r) ==> Rebuildable(InOrder(log), r, rows[r]))
    {
      BackfilledRow(rows, log, log2, refs, ids, r);
    }
    RebuildsExactlyIff(rows, InOrder(log2));
    InPlaceChangesNothingIff(rows, InOrder(log2));
    SecondBackfillIsEmpty(rows, log, log2, refs, ids);
  }

  /** So a repairable store is repaired. */
  lemma BackfillRepairs(rows: Rows, log: seq<Event>, log2: seq<Event>)
    requires Repairable(rows, log) && IsBackfill(rows, log, log2)
    ensures ReplayLog(map[], InOrder(log2)) == rows
    ensures ReplayLog(rows, InOrder(log2)) == rows
    ensures Missing(rows, log2) == {}
  {
    BackfillRepairsIff(rows, log, log2);
  }

  lemma BackfilledLog(rows: Rows, log: seq<Event>, refs: seq<Ref>, ids: seq<string>)
    requires LogOf(rows, log) && |refs| == |ids| && forall r | r in refs :: r in rows
    ensures forall e | e in InOrder(log + Added(rows, refs, ids)) && CreatedRow(e).Some? ::
              var row := CreatedRow(e).value;
              RefOf(row) in rows && SameIdentity(row, rows[RefOf(row)])
  {
    var more := Added(rows, refs, ids);
    AddedEvents(rows, refs, ids);
    SortMembers(Before, log + more);
    forall e | e in InOrder(log + more) && CreatedRow(e).Some?
      ensures RefOf(CreatedRow(e).value) in rows && SameIdentity(CreatedRow(e).value, rows[RefOf(CreatedRow(e).value)])
    {
      if e in more {
        var i :| 0 <= i < |more| && more[i] == e;
        assert refs[i] in refs && e == Synthesized(rows[refs[i]], ids[i]);
      }
    }
  }

  lemma SecondBackfillIsEmpty(rows: Rows, log: seq<Event>, log2: seq<Event>, refs: seq<Ref>, ids: seq<string>)
    requires WellKeyed(rows) && BackfillBy(rows, log, log2, refs, ids)
    ensures Missing(rows, log2) == {}
  {
    AddedEvents(rows, refs, ids);
    forall r | r in rows ensures HasCreation(log2, r) {
      if r in Missing(rows, log) {
        var i :| 0 <= i < |refs| && refs[i] == r;
        assert NamesCreation(Added(rows, refs, ids)[i], r);
      } else {
        var e :| e in log && NamesCreation(e, r);
        assert e in log2;
      }
    }
  }
}
