/**
 What the writers of the store keep: the transition table of claims, and the invariant that the log
 tells the whole story of every row, with the one lemma per kind of write that carries it on.
 */
module LiveStore {

  import opened Wrappers
  import opened Ordering
  import opened EventLog
  import opened Replay
  import opened Backfill

  // ----- transitions ----------------------------------------------------------------------------

  predicate ClaimState(s: State) {
    s.Auto? || s.Pending? || s.Confirmed? || s.Rejected?
  }

  /** CLAIM_TRANSITIONS: forward moves and self-loops; nothing leaves `rejected`. */
  predicate AllowedClaim(from: State, to: State) {
    match from
    case Auto => ClaimState(to)
    case Pending => to.Pending? || to.Confirmed? || to.Rejected?
    case Confirmed => to.Confirmed? || to.Rejected?
    case _ => false
  }

  /** How far along a claim is: the four registered states in order, nothing for any other text. */
  function Standing(s: State): Option<nat> {
    match s
    case Auto => Some(0)
    case Pending => Some(1)
    case Confirmed => Some(2)
    case Rejected => Some(3)
    case _ => None
  }

  /** A move that does not go back, between claim states, and not out of the last. */
  predicate Onward(from: State, to: State) {
    Standing(from).Some? && Standing(to).Some? && Standing(from).value < 3 && Standing(from).value <= Standing(to).value
  }

  /** The table says just that. */
  lemma AllowedIsOnward(from: State, to: State)
    ensures AllowedClaim(from, to) <==> Onward(from, to)
    ensures ClaimState(from) <==> Standing(from).Some?
  {
  }

  datatype TransitionError = ClaimNotFound | OtherUser | UnknownState | NotAllowed | ChangedConcurrently

  /** What the read of a claim decides before anything is written. */
  function Verdict(rows: Rows, claimId: string, to: State, expectedUser: Option<string>)
    : Result<State, TransitionError>
  {
    var r := Ref(ClaimKind, claimId);
    if r !in rows then Err(ClaimNotFound)
    else if expectedUser.Some? && rows[r].userId != expectedUser.value then Err(OtherUser)
    else if !ClaimState(rows[r].state) then Err(UnknownState)
    else if !AllowedClaim(rows[r].state, to) then Err(NotAllowed)
    else Ok(rows[r].state)
  }

  /** The verdict on a claim in plain terms. */
  lemma VerdictIs(rows: Rows, claimId: string, to: State, expectedUser: Option<string>)
    ensures var r, v := Ref(ClaimKind, claimId), Verdict(rows, claimId, to, expectedUser);
            var known := r in rows;
            var mine := known && (expectedUser == None || expectedUser == Some(rows[r].userId));
            && (v == Err(ClaimNotFound) <==> !known)
            && (v == Err(OtherUser) <==> known && !mine)
            && (v == Err(UnknownState) <==> mine && Standing(rows[r].state) == None)
            && (v == Err(NotAllowed) <==> mine && Standing(rows[r].state) != None && !Onward(rows[r].state, to))
            && (v.Ok? <==> mine && Onward(rows[r].state, to))
            && (v.Ok? ==> v.value == rows[r].state)
  {
    if Ref(ClaimKind, claimId) in rows {
      AllowedIsOnward(rows[Ref(ClaimKind, claimId)].state, to);
    }
  }

  function ChangeEvent(row: Row, from: State, to: State, updatedAt: string, id: string, now: string): Event {
    Event(id, now, row.userId, ClaimStateChanged, Some(ClaimKind), Some(row.id),
          ChangePayload(Some(from), Some(to), Some(updatedAt)))
  }

  function ReaffirmEvent(kind: Kind, userId: string, rowId: string, id: string, now: string): Event {
    Event(id, now, userId, if kind.MemoryKind? then MemoryReaffirmed else ClaimReaffirmed,
          Some(kind), Some(rowId), OtherPayload)
  }

  // ----- what every writer keeps ----------------------------------------------------------------

  /**
   The log tells the whole story of one row: its creation is logged once and carries it, the last
   event that touches it shows it as it is, so does its last change, and changes are dated. Nothing
   in the log touches a row that is not there.
   */
  ghost predicate Story(log: seq<Event>, r: Ref, row: Option<Row>) {
    && Dated(log, r)
    && match row
       case None => ShapingIn(log, r) == []
       case Some(row) =>
         && r.id != ""
         && |CreationsIn(log, r)| == 1
         && (assert CreationsIn(log, r)[0] in CreationsIn(log, r);
             SameIdentity(CreatedRow(CreationsIn(log, r)[0]).value, row))
         && Rebuildable(log, r, row) && Settled(log, r, row)
  }

  ghost predicate Live(rows: Rows, log: seq<Event>) {
    DistinctIds(log) && WellKeyed(rows) && forall r :: Story(log, r, Lookup(rows, r))
  }

  ghost predicate NewId(log: seq<Event>, id: string) {
    forall e | e in log :: e.id != id
  }

  lemma UnshapedViews(log: seq<Event>, r: Ref)
    requires ShapingIn(log, r) == []
    ensures CreationsIn(log, r) == [] && ChangesIn(log, r) == []
  {
    NothingThere(ShapingOf(r), log);
    forall e | e in log ensures !CreationOf(r)(e) && !ChangeOf(r)(e) {
      assert !ShapingOf(r)(e);
    }
    FilterNone(CreationOf(r), log);
    FilterNone(ChangeOf(r), log);
  }

  lemma StoryTells(log: seq<Event>, r: Ref, row: Option<Row>)
    requires Story(log, r, row)
    ensures |CreationsIn(log, r)| <= 1 && Dated(log, r)
    ensures row.Some? ==> Rebuildable(log, r, row.value) && Settled(log, r, row.value)
    ensures forall e | e in CreationsIn(log, r) :: row.Some? && SameIdentity(CreatedRow(e).value, row.value)
  {
    if row.None? {
      UnshapedViews(log, r);
    }
  }

  lemma LiveLog(rows: Rows, log: seq<Event>)
    requires Live(rows, log)
    ensures LogOf(rows, log)
    ensures forall r | r in rows :: Rebuildable(log, r, rows[r]) && Settled(log, r, rows[r])
  {
    forall r
      ensures |CreationsIn(log, r)| <= 1 && Dated(log, r)
      ensures r in rows ==> Rebuildable(log, r, rows[r]) && Settled(log, r, rows[r])
    {
      StoryTells(log, r, Lookup(rows, r));
    }
    forall e | e in log && CreatedRow(e).Some?
      ensures RefOf(CreatedRow(e).value) in rows && SameIdentity(CreatedRow(e).value, rows[RefOf(CreatedRow(e).value)])
    {
      var r := RefOf(CreatedRow(e).value);
      StoryTells(log, r, Lookup(rows, r));
      assert CreationOf(r)(e);
      assert e in CreationsIn(log, r);
    }
  }

  lemma AppendDated(log: seq<Event>, e: Event, r: Ref)
    requires Dated(log, r) && (Changes(e, r) ==> e.payload.updatedAt.Some?)
    ensures Dated(log + [e], r)
  {
    assert forall x | x in log + [e] :: x in log || x == e;
  }

  /** One event continues the story of a row: it creates it, changes it with a date, or leaves it alone. */
  lemma StoryGoesOn(log: seq<Event>, e: Event, r: Ref, was: Option<Row>)
    requires Story(log, r, was)
    requires Creates(e, r) ==> was.None? && r.id != ""
    requires Changes(e, r) ==> was.Some? && e.payload.updatedAt.Some?
    ensures Story(log + [e], r, ApplyToRow(was, e, r))
  {
    AppendViews(log, e, r);
    AppendDated(log, e, r);
    if Creates(e, r) {
      UnshapedViews(log, r);
    }
  }

  lemma AppendDistinct(log: seq<Event>, e: Event)
    requires DistinctIds(log) && NewId(log, e.id)
    ensures DistinctIds(log + [e])
  {
    assert forall x | x in log + [e] :: x in log || x == e;
  }

  /**
   A writer keeps the store live by appending one event with a new id and bringing the tables to
   where that event takes them.
   */
  lemma LiveGoesOn(rows: Rows, log: seq<Event>, e: Event, rows2: Rows)
    requires Live(rows, log) && NewId(log, e.id) && WellKeyed(rows2)
    requires CreatedRow(e).Some? ==> RefOf(CreatedRow(e).value) !in rows && CreatedRow(e).value.id != ""
    requires ChangedRef(e).Some? ==> ChangedRef(e).value in rows && e.payload.updatedAt.Some?
    requires forall r :: Lookup(rows2, r) == ApplyToRow(Lookup(rows, r), e, r)
    ensures Live(rows2, log + [e])
  {
    AppendDistinct(log, e);
    forall r ensures Story(log + [e], r, Lookup(rows2, r)) {
      StoryGoesOn(log, e, r, Lookup(rows, r));
    }
  }

  /** An event that creates and changes nothing: a reaffirmation, an audit entry. */
  lemma LiveAfterOther(rows: Rows, log: seq<Event>, e: Event)
    requires Live(rows, log) && NewId(log, e.id) && CreatedRow(e).None? && ChangedRef(e).None?
    ensures Live(rows, log + [e])
  {
    LiveGoesOn(rows, log, e, rows);
  }

  /** A first insert with its creation event. */
  lemma LiveAfterCreation(rows: Rows, log: seq<Event>, row: Row, id: string, now: string)
    requires Live(rows, log) && !Conflicts(rows, row) && row.id != "" && NewId(log, id)
    ensures Live(rows[RefOf(row) := row], log + [CreationEvent(row, id, now)])
  {
    LiveGoesOn(rows, log, CreationEvent(row, id, now), rows[RefOf(row) := row]);
  }

  /** A change event and the update of its row do the same to every row. */
  lemma ChangeIsApplied(rows: Rows, r: Ref, e: Event, to: State, updatedAt: string)
    requires r in rows && ChangedRef(e) == Some(r) && CreatedRow(e).None?
    requires e.payload.to == Some(to) && e.payload.updatedAt == Some(updatedAt)
    ensures forall q :: Lookup(UpdateState(rows, r, to, Some(updatedAt)), q) == ApplyToRow(Lookup(rows, q), e, q)
  {
  }

  /** A transition with its event. */
  lemma LiveAfterChange(rows: Rows, log: seq<Event>, r: Ref, from: State, to: State, updatedAt: string,
                        id: string, now: string)
    requires Live(rows, log) && r in rows && r.kind.ClaimKind? && NewId(log, id)
    ensures Live(UpdateState(rows, r, to, Some(updatedAt)), log + [ChangeEvent(rows[r], from, to, updatedAt, id, now)])
  {
    var e := ChangeEvent(rows[r], from, to, updatedAt, id, now);
    var rows2 := UpdateState(rows, r, to, Some(updatedAt));
    assert Story(log, r, Lookup(rows, r));
    SameKeys(rows, rows2);
    ChangeIsApplied(rows, r, e, to, updatedAt);
    LiveGoesOn(rows, log, e, rows2);
  }

  /** The log is read in the order it was appended. */
  ghost predicate AppendOrder(log: seq<Event>) {
    Sorted(Before, log)
  }

  /** From such a store, replay rebuilds the tables exactly, and replaying again or in place changes nothing. */
  lemma LiveReplays(rows: Rows, log: seq<Event>)
    requires Live(rows, log) && AppendOrder(log)
    ensures ReplayLog(map[], InOrder(log)) == rows
    ensures ReplayLog(rows, InOrder(log)) == rows
  {
    BeforeStrict();
    BeforeTotal(log);
    SortOfSorted(Before, log);
    LiveLog(rows, log);
    RebuildsExactlyIff(rows, log);
    InPlaceChangesNothingIff(rows, log);
  }

  // ----- whole runs, one call at a time ---------------------------------------------------------

  /** An ingest of a candidate row, a transition, or an event that creates and changes nothing. */
  datatype StoreOp =
    | IngestOp(row: Row, eventId: string, now: string)
    | TransitOp(claimId: string, to: State, expectedUser: Option<string>, updatedAt: string, eventId: string,
                now: string)
    | NoteOp(event: Event)

  datatype Store = Store(rows: Rows, log: seq<Event>)

  /** What the callers and the id mint guarantee: fresh row and event ids. */
  ghost predicate May(s: Store, op: StoreOp) {
    match op
    case IngestOp(row, id, _) => row.id != "" && RefOf(row) !in s.rows && NewId(s.log, id)
    case TransitOp(_, _, _, _, id, _) => NewId(s.log, id)
    case NoteOp(e) => NewId(s.log, e.id) && CreatedRow(e).None? && ChangedRef(e).None?
  }

  ghost function After(s: Store, op: StoreOp): Store {
    match op
    case IngestOp(row, id, now) =>
      if !HoldsKey(s.rows, KeyOf(row)) then Store(s.rows[RefOf(row) := row], s.log + [CreationEvent(row, id, now)])
      else if row.Claim? then s
      else s.(log := s.log + [ReaffirmEvent(MemoryKind, row.userId, Holder(s.rows, KeyOf(row)).id, id, now)])
    case TransitOp(claim, to, user, updatedAt, id, now) =>
      var r := Ref(ClaimKind, claim);
      if Verdict(s.rows, claim, to, user).Err? then s
      else Store(UpdateState(s.rows, r, to, Some(updatedAt)),
                 s.log + [ChangeEvent(s.rows[r], s.rows[r].state, to, updatedAt, id, now)])
    case NoteOp(e) => s.(log := s.log + [e])
  }

  ghost predicate RunsTo(s: Store, ops: seq<StoreOp>, end: Store)
    decreases |ops|
  {
    if ops == [] then end == s else May(s, ops[0]) && RunsTo(After(s, ops[0]), ops[1..], end)
  }

  lemma {:induction false} LiveAlongRun(s: Store, ops: seq<StoreOp>, end: Store)
    requires Live(s.rows, s.log) && RunsTo(s, ops, end)
    ensures Live(end.rows, end.log)
    decreases |ops|
  {
    if ops != [] {
      LiveAfterOp(s, ops[0]);
      LiveAlongRun(After(s, ops[0]), ops[1..], end);
    }
  }

  lemma LiveAfterOp(s: Store, op: StoreOp)
    requires Live(s.rows, s.log) && May(s, op)
    ensures var t := After(s, op); Live(t.rows, t.log)
  {
    match op
    case IngestOp(row, id, now) =>
      if !HoldsKey(s.rows, KeyOf(row)) {
        LiveAfterCreation(s.rows, s.log, row, id, now);
      } else if row.Memory? {
        LiveAfterOther(s.rows, s.log, ReaffirmEvent(MemoryKind, row.userId, Holder(s.rows, KeyOf(row)).id, id, now));
      }
    case TransitOp(claim, to, user, updatedAt, id, now) =>
      if Verdict(s.rows, claim, to, user).Ok? {
        var r := Ref(ClaimKind, claim);
        LiveAfterChange(s.rows, s.log, r, s.rows[r].state, to, updatedAt, id, now);
      }
    case NoteOp(e) => LiveAfterOther(s.rows, s.log, e);
  }

  /**
   Every run of ingests, deduplicated re-ingests, reaffirmations and transitions from an empty store,
   read in the order it was appended: replay into an empty target gives back both tables field by
   field, and replaying again, or in place, changes nothing.
   */
  lemma EveryRunReplays(ops: seq<StoreOp>, end: Store)
    requires RunsTo(Store(map[], []), ops, end) && AppendOrder(end.log)
    ensures ReplayLog(map[], InOrder(end.log)) == end.rows
    ensures ReplayLog(ReplayLog(map[], InOrder(end.log)), InOrder(end.log)) == end.rows
    ensures ReplayLog(end.rows, InOrder(end.log)) == end.rows
  {
    assert Live(map[], []) by {
      forall r ensures Story([], r, None) {
        assert ShapingIn([], r) == [];
      }
    }
    LiveAlongRun(Store(map[], []), ops, end);
    LiveReplays(end.rows, end.log);
  }
}
