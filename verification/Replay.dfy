/**
 Replay rebuilds the two tables from the event log. The fold over the whole log is split into one
 fold per row; from there a row is rebuilt exactly when its creation is logged and the last event
 that touches it shows its current state, and a store exactly when each of its rows is.
 */
module Replay {

  import opened Wrappers
  import opened Ordering
  import opened EventLog

  function ApplyEvent(rows: Rows, e: Event): Rows {
    if CreatedRow(e).Some? then InsertOrIgnore(rows, CreatedRow(e).value)
    else if ChangedRef(e).Some? then UpdateState(rows, ChangedRef(e).value, e.payload.to.value, e.payload.updatedAt)
    else rows
  }

  /** The tables after applying a log, in the given order, to `rows`. */
  function ReplayLog(rows: Rows, es: seq<Event>): Rows {
    if es == [] then rows else ApplyEvent(ReplayLog(rows, es[..|es| - 1]), es[|es| - 1])
  }

  /** Equal in all columns but state and time, and those are as given; no time leaves the time. */
  predicate MovedTo(row: Row, to: State, updatedAt: Option<string>, now: Row) {
    && SameIdentity(row, now) && now.state == to
    && now.updatedAt == if updatedAt.Some? then updatedAt.value else row.updatedAt
  }

  /** A creation event of either table inserts its row, unless that would meet another row's id or content. */
  lemma CreationIsReplayed(rows: Rows, e: Event, row: Row)
    requires e.payload == RowPayload(row)
    requires (e.eventType == MemoryCreated && row.Memory?) || (e.eventType == ClaimCreated && row.Claim?)
    ensures var r := Ref(if row.Memory? then MemoryKind else ClaimKind, row.id);
            if r in rows || exists q | q in rows :: KeyOf(rows[q]) == KeyOf(row) then ApplyEvent(rows, e) == rows
            else ApplyEvent(rows, e) == rows[r := row]
  {
  }

  /** A state change of either table moves the row it names, if it is there. */
  lemma ChangeIsReplayed(rows: Rows, e: Event, k: Kind, id: string, from: Option<State>, to: State,
                         updatedAt: Option<string>)
    requires e.eventType == (if k.MemoryKind? then MemoryStateChanged else ClaimStateChanged)
    requires e.targetId == Some(id) && id != "" && e.payload == ChangePayload(from, Some(to), updatedAt)
    ensures var r := Ref(k, id);
            if r !in rows then ApplyEvent(rows, e) == rows
            else r in ApplyEvent(rows, e) && MovedTo(rows[r], to, updatedAt, ApplyEvent(rows, e)[r])
                 && ApplyEvent(rows, e) == rows[r := ApplyEvent(rows, e)[r]]
  {
  }

  /** Anything else changes nothing: other types, a payload of the wrong shape, no target, no new state. */
  lemma RestIsIgnored(rows: Rows, e: Event)
    requires e.eventType == MemoryCreated ==> !(e.payload.RowPayload? && e.payload.row.Memory?)
    requires e.eventType == ClaimCreated ==> !(e.payload.RowPayload? && e.payload.row.Claim?)
    requires e.eventType == MemoryStateChanged || e.eventType == ClaimStateChanged ==>
               e.targetId == None || e.targetId == Some("") || !e.payload.ChangePayload? || e.payload.to == None
    ensures ApplyEvent(rows, e) == rows
  {
  }

  lemma ReplayAppend(rows: Rows, es: seq<Event>, e: Event)
    ensures ReplayLog(rows, es + [e]) == ApplyEvent(ReplayLog(rows, es), e)
  {
    assert (es + [e])[..|es|] == es;
  }

  // ----- one row --------------------------------------------------------------------------------

  function Lookup(rows: Rows, r: Ref): Option<Row> {
    if r in rows then Some(rows[r]) else None
  }

  function ApplyToRow(row: Option<Row>, e: Event, r: Ref): Option<Row> {
    if Creates(e, r) && row.None? then CreatedRow(e)
    else if Changes(e, r) && row.Some? then Some(Moved(row.value, e.payload.to.value, e.payload.updatedAt))
    else row
  }

  function RowAfter(row: Option<Row>, es: seq<Event>, r: Ref): Option<Row> {
    if es == [] then row else ApplyToRow(RowAfter(row, es[..|es| - 1], r), es[|es| - 1], r)
  }

  /** `owner` names the one row that each unique key belongs to, in the tables and in the log. */
  ghost predicate OneOwner(owner: map<Key, Ref>, rows: Rows, es: seq<Event>) {
    && (forall r | r in rows :: RefOf(rows[r]) == r && KeyOf(rows[r]) in owner && owner[KeyOf(rows[r])] == r)
    && (forall e | e in es && CreatedRow(e).Some? ::
          var row := CreatedRow(e).value;
          KeyOf(row) in owner && owner[KeyOf(row)] == RefOf(row))
  }

  lemma ApplyIsPerRow(owner: map<Key, Ref>, rows: Rows, e: Event)
    requires OneOwner(owner, rows, [e])
    ensures OneOwner(owner, ApplyEvent(rows, e), [])
    ensures forall r :: Lookup(ApplyEvent(rows, e), r) == ApplyToRow(Lookup(rows, r), e, r)
  {
    assert e in [e];
    if CreatedRow(e).Some? {
      var row := CreatedRow(e).value;
      assert Conflicts(rows, row) <==> RefOf(row) in rows;
    }
  }

  /** Rows do not interact during replay as long as no two of them compete for one unique key. */
  lemma {:induction false} ReplayIsPerRow(owner: map<Key, Ref>, rows: Rows, es: seq<Event>)
    requires OneOwner(owner, rows, es)
    ensures OneOwner(owner, ReplayLog(rows, es), [])
    ensures forall r :: Lookup(ReplayLog(rows, es), r) == RowAfter(Lookup(rows, r), es, r)
  {
    if es != [] {
      var n := |es| - 1;
      var sofar := ReplayLog(rows, es[..n]);
      ReplayIsPerRow(owner, rows, es[..n]);
      assert es[n] in es;
      ApplyIsPerRow(owner, sofar, es[n]);
      forall r ensures Lookup(ReplayLog(rows, es), r) == RowAfter(Lookup(rows, r), es, r) {
        assert Lookup(sofar, r) == RowAfter(Lookup(rows, r), es[..n], r);
      }
    }
  }

  // ----- when one row is rebuilt ----------------------------------------------------------------

  /** The event shows the row as it is now: its creation carries it, or its change ends in its state. */
  predicate Shows(e: Event, row: Row) {
    if CreatedRow(e).Some? then CreatedRow(e).value == row
    else e.payload.ChangePayload? && e.payload.to == Some(row.state) && e.payload.updatedAt == Some(row.updatedAt)
  }

  /** Every state change of the row carries the time it wrote. */
  ghost predicate Dated(es: seq<Event>, r: Ref) {
    forall e | e in es && Changes(e, r) :: e.payload.updatedAt.Some?
  }

  lemma SplitLast(es: seq<Event>)
    requires es != []
    ensures es == es[..|es| - 1] + [es[|es| - 1]]
  {
  }

  lemma {:induction false} NothingWithoutCreation(es: seq<Event>, r: Ref)
    requires CreationsIn(es, r) == []
    ensures RowAfter(None, es, r).None?
  {
    if es != [] {
      var n := |es| - 1;
      SplitLast(es);
      AppendViews(es[..n], es[n], r);
      NothingWithoutCreation(es[..n], r);
    }
  }

  /**
   With one creation of a row in the log, the rebuilt row is that creation's, in the state and at the
   time of the last event that created or changed it - wherever the creation sorts among the changes.
   */
  lemma {:induction false} RowFromLastEvent(es: seq<Event>, r: Ref)
    requires |CreationsIn(es, r)| == 1 && Dated(es, r)
    ensures var row := RowAfter(None, es, r);
            var seen := ShapingIn(es, r);
            && row.Some? && seen != []
            && SameIdentity(CreatedRow(CreationsIn(es, r)[0]).value, row.value)
            && Shows(seen[|seen| - 1], row.value)
  {
    var n := |es| - 1;
    var e := es[n];
    SplitLast(es);
    AppendViews(es[..n], e, r);
    if Creates(e, r) {
      NothingWithoutCreation(es[..n], r);
    } else {
      RowFromLastEvent(es[..n], r);
    }
  }

  /** Two rows with one identity that the same event shows are the same row. */
  lemma ShownOnce(e: Event, a: Row, b: Row)
    requires SameIdentity(a, b) && Shows(e, a) && Shows(e, b)
    ensures a == b
  {
  }

  ghost predicate Rebuildable(es: seq<Event>, r: Ref, row: Row) {
    var seen := ShapingIn(es, r);
    CreationsIn(es, r) != [] && seen != [] && Shows(seen[|seen| - 1], row)
  }

  lemma RowRebuiltIff(es: seq<Event>, r: Ref, row: Row)
    requires |CreationsIn(es, r)| <= 1 && Dated(es, r)
    requires forall e | e in CreationsIn(es, r) :: SameIdentity(CreatedRow(e).value, row)
    ensures RowAfter(None, es, r) == Some(row) <==> Rebuildable(es, r, row)
  {
    if CreationsIn(es, r) == [] {
      NothingWithoutCreation(es, r);
    } else {
      RowFromLastEvent(es, r);
      var seen := ShapingIn(es, r);
      var born := CreatedRow(CreationsIn(es, r)[0]).value;
      var got := RowAfter(None, es, r).value;
      assert SameIdentity(got, row) by {
        assert CreationsIn(es, r)[0] in CreationsIn(es, r);
        IdentityKeepsKey(born, got);
      }
      if Shows(seen[|seen| - 1], row) {
        ShownOnce(seen[|seen| - 1], got, row);
      }
    }
  }

  /** Replaying over a row that is already there leaves it in the state of its last change. */
  lemma {:induction false} RowFromLastChange(row: Row, es: seq<Event>, r: Ref)
    requires Dated(es, r)
    ensures var after := RowAfter(Some(row), es, r);
            var changes := ChangesIn(es, r);
            && after.Some? && SameIdentity(row, after.value)
            && (changes == [] ==> after == Some(row))
            && (changes != [] ==> Shows(changes[|changes| - 1], after.value))
  {
    if es != [] {
      var n := |es| - 1;
      SplitLast(es);
      AppendViews(es[..n], es[n], r);
      RowFromLastChange(row, es[..n], r);
    }
  }

  /** The last change of the row, if any, ends in the row's state. */
  ghost predicate Settled(es: seq<Event>, r: Ref, row: Row) {
    var c := ChangesIn(es, r);
    c == [] || Shows(c[|c| - 1], row)
  }

  lemma RowUnchangedIff(row: Row, es: seq<Event>, r: Ref)
    requires Dated(es, r)
    ensures RowAfter(Some(row), es, r) == Some(row) <==> Settled(es, r, row)
  {
    RowFromLastChange(row, es, r);
    var c := ChangesIn(es, r);
    if c != [] && Shows(c[|c| - 1], row) {
      ShownOnce(c[|c| - 1], row, RowAfter(Some(row), es, r).value);
    }
  }

  // ----- when a store is rebuilt ----------------------------------------------------------------

  /**
   What the writers promise of a log: each creation carries a row of the store, up to what
   transitions write, no row is created twice, and changes are dated.
   */
  ghost predicate LogOf(rows: Rows, es: seq<Event>) {
    && WellKeyed(rows)
    && (forall e | e in es && CreatedRow(e).Some? ::
          var row := CreatedRow(e).value;
          RefOf(row) in rows && SameIdentity(row, rows[RefOf(row)]))
    && (forall r :: |CreationsIn(es, r)| <= 1 && Dated(es, r))
  }

  ghost function Owners(rows: Rows): (owner: map<Key, Ref>)
    requires WellKeyed(rows)
    ensures forall r | r in rows :: KeyOf(rows[r]) in owner && owner[KeyOf(rows[r])] == r
  {
    map r | r in rows :: KeyOf(rows[r]) := r
  }

  lemma LogHasOneOwner(rows: Rows, start: Rows, es: seq<Event>)
    requires LogOf(rows, es) && (start == rows || start == map[])
    ensures OneOwner(Owners(rows), start, es)
  {
    var owner := Owners(rows);
    forall e | e in es && CreatedRow(e).Some?
      ensures KeyOf(CreatedRow(e).value) in owner && owner[KeyOf(CreatedRow(e).value)] == RefOf(CreatedRow(e).value)
    {
      var row := CreatedRow(e).value;
      IdentityKeepsKey(row, rows[RefOf(row)]);
      assert KeyOf(rows[RefOf(row)]) in owner;
    }
  }

  lemma SameRows(a: Rows, b: Rows)
    requires forall r :: Lookup(a, r) == Lookup(b, r)
    ensures a == b
  {
    forall r ensures r in a <==> r in b { assert Lookup(a, r) == Lookup(b, r); }
    forall r | r in a ensures a[r] == b[r] { assert Lookup(a, r) == Lookup(b, r); }
  }

  lemma AbsentIsNotRebuilt(rows: Rows, es: seq<Event>, r: Ref)
    requires LogOf(rows, es) && r !in rows
    ensures RowAfter(None, es, r).None?
  {
    FilterNone(CreationOf(r), es);
    NothingWithoutCreation(es, r);
  }

  /**
   Replay into empty tables rebuilds every row field by field, and nothing else, exactly when each
   row's creation is logged and the last event that touches the row shows it as it is.
   */
  lemma RebuildsExactlyIff(rows: Rows, es: seq<Event>)
    requires LogOf(rows, es)
    ensures ReplayLog(map[], es) == rows <==> forall r | r in rows :: Rebuildable(es, r, rows[r])
  {
    LogHasOneOwner(rows, map[], es);
    ReplayIsPerRow(Owners(rows), map[], es);
    var got := ReplayLog(map[], es);
    forall r ensures Lookup(got, r) == RowAfter(None, es, r) {
      assert Lookup(map[], r) == None;
    }
    forall r | r in rows ensures Lookup(got, r) == Lookup(rows, r) <==> Rebuildable(es, r, rows[r]) {
      RowRebuiltIff(es, r, rows[r]);
    }
    if forall r | r in rows :: Rebuildable(es, r, rows[r]) {
      forall r ensures Lookup(got, r) == Lookup(rows, r) {
        if r !in rows { AbsentIsNotRebuilt(rows, es, r); }
      }
      SameRows(got, rows);
    }
  }

  /** Replay over the live tables changes nothing exactly when each row's last change shows its state. */
  lemma InPlaceChangesNothingIff(rows: Rows, es: seq<Event>)
    requires LogOf(rows, es)
    ensures ReplayLog(rows, es) == rows
            <==> forall r | r in rows :: Settled(es, r, rows[r])
  {
    LogHasOneOwner(rows, rows, es);
    ReplayIsPerRow(Owners(rows), rows, es);
    var got := ReplayLog(rows, es);
    forall r | r in rows
      ensures Lookup(got, r) == Lookup(rows, r) <==> Settled(es, r, rows[r])
    {
      RowUnchangedIff(rows[r], es, r);
    }
    if forall r | r in rows :: Settled(es, r, rows[r]) {
      forall r ensures Lookup(got, r) == Lookup(rows, r) {
        if r !in rows {
          AbsentIsNotRebuilt(rows, es, r);
        }
      }
      SameRows(got, rows);
    }
  }
}
