/**
 The stored entities: memory and claim rows with their unique keys, the append-only event log and
 the order replay reads it in. A table is a map from row reference to row, so a statement of the
 database is one map update; the two tables share one map, told apart by the kind in the reference.
 Identifiers and timestamps are text compared by code point, as the database compares them.
 */
module EventLog {

  import opened Wrappers
  import opened Ordering

  /** Every registered state of a memory or a claim, and any other text. */
  datatype State = Auto | Pending | Confirmed | Rejected | Draft | Active | Archived | OtherState(name: string)

  datatype Row =
    | Memory(id: string, userId: string, source: Option<string>, vaultPath: string, title: Option<string>,
             summary: Option<string>, contentHash: string, state: State, createdAt: string, updatedAt: string)
    | Claim(id: string, userId: string, subject: string, relation: string, target: string, sourceId: string,
            contentHash: string, confidence: Option<real>, state: State, createdAt: string, updatedAt: string)

  datatype Kind = MemoryKind | ClaimKind

  /** Primary key of a row: its table and its id there. */
  datatype Ref = Ref(kind: Kind, id: string)

  /** The unique index of each table. */
  datatype Key =
    | MemoryKey(contentHash: string, userId: string)
    | ClaimKey(contentHash: string, sourceId: string, userId: string)

  type Rows = map<Ref, Row>

  function RefOf(row: Row): Ref {
    Ref(if row.Memory? then MemoryKind else ClaimKind, row.id)
  }

  function KeyOf(row: Row): Key {
    match row
    case Memory(_, user, _, _, _, _, hash, _, _, _) => MemoryKey(hash, user)
    case Claim(_, user, _, _, _, source, hash, _, _, _, _) => ClaimKey(hash, source, user)
  }

  /** Equal in every column but the two that a transition writes. */
  predicate SameIdentity(a: Row, b: Row) {
    a.(state := b.state, updatedAt := b.updatedAt) == b
  }

  lemma IdentityKeepsKey(a: Row, b: Row)
    requires SameIdentity(a, b)
    ensures RefOf(a) == RefOf(b) && KeyOf(a) == KeyOf(b) && SameIdentity(b, a)
  {
  }

  ghost predicate WellKeyed(rows: Rows) {
    && (forall r | r in rows :: RefOf(rows[r]) == r)
    && (forall r, q | r in rows && q in rows && KeyOf(rows[r]) == KeyOf(rows[q]) :: r == q)
  }

  lemma SameKeys(rows: Rows, rows2: Rows)
    requires WellKeyed(rows) && rows2.Keys == rows.Keys
    requires forall q | q in rows :: SameIdentity(rows[q], rows2[q])
    ensures WellKeyed(rows2)
    ensures forall q | q in rows :: KeyOf(rows2[q]) == KeyOf(rows[q])
  {
    forall q | q in rows ensures KeyOf(rows2[q]) == KeyOf(rows[q]) && RefOf(rows2[q]) == RefOf(rows[q]) {
      IdentityKeepsKey(rows[q], rows2[q]);
    }
  }

  predicate Conflicts(rows: Rows, row: Row) {
    RefOf(row) in rows || exists r | r in rows :: KeyOf(rows[r]) == KeyOf(row)
  }

  ghost predicate HoldsKey(rows: Rows, k: Key) {
    exists r | r in rows :: KeyOf(rows[r]) == k
  }

  ghost function Holder(rows: Rows, k: Key): (r: Ref)
    requires HoldsKey(rows, k)
    ensures r in rows && KeyOf(rows[r]) == k
  {
    var r :| r in rows && KeyOf(rows[r]) == k;
    r
  }

  /** INSERT OR IGNORE: a row that meets the primary key or the unique index of another is dropped. */
  function InsertOrIgnore(rows: Rows, row: Row): Rows {
    if Conflicts(rows, row) then rows else rows[RefOf(row) := row]
  }

  function Moved(row: Row, to: State, updatedAt: Option<string>): Row {
    if updatedAt.Some? then row.(state := to, updatedAt := updatedAt.value) else row.(state := to)
  }

  /** UPDATE ... WHERE id = ?: nothing happens when the row is absent. */
  function UpdateState(rows: Rows, r: Ref, to: State, updatedAt: Option<string>): Rows {
    if r in rows then rows[r := Moved(rows[r], to, updatedAt)] else rows
  }

  // ----- events ---------------------------------------------------------------------------------

  datatype EventType =
    | MemoryCreated | ClaimCreated | MemoryStateChanged | ClaimStateChanged
    | MemoryReaffirmed | ClaimReaffirmed | OtherType(name: string)

  /** A payload is a whole row, a transition with its optional parts, or anything else. */
  datatype Payload =
    | RowPayload(row: Row)
    | ChangePayload(from: Option<State>, to: Option<State>, updatedAt: Option<string>)
    | OtherPayload

  datatype Event = Event(id: string, createdAt: string, userId: string, eventType: EventType,
                         targetKind: Option<Kind>, targetId: Option<string>, payload: Payload)

  /** ORDER BY created_at ASC, event_id ASC. */
  predicate Before(a: Event, b: Event) {
    StringLess(a.createdAt, b.createdAt) || (a.createdAt == b.createdAt && StringLess(a.id, b.id))
  }

  ghost predicate DistinctIds(log: seq<Event>) {
    forall a, b | a in log && b in log && a.id == b.id :: a == b
  }

  lemma BeforeStrict()
    ensures StrictOrder(Before)
  {
    StringLessStrict();
    forall a, b, c | Before(a, b) && Before(b, c) ensures Before(a, c) {
      assert StringLess(a.createdAt, b.createdAt) && StringLess(b.createdAt, c.createdAt)
             ==> StringLess(a.createdAt, c.createdAt);
    }
  }

  /** Event ids are a primary key, so the reading order has no ties. */
  lemma BeforeTotal(log: seq<Event>)
    requires DistinctIds(log)
    ensures TotalOn(Before, log)
  {
    StringLessStrict();
    forall a, b | a in log && b in log && a != b ensures Before(a, b) || Before(b, a) {
      if a.createdAt == b.createdAt {
        assert TotalOn(StringLess, [a.id, b.id]);
        assert a.id in [a.id, b.id] && b.id in [a.id, b.id];
      } else {
        assert TotalOn(StringLess, [a.createdAt, b.createdAt]);
        assert a.createdAt in [a.createdAt, b.createdAt] && b.createdAt in [a.createdAt, b.createdAt];
      }
    }
  }

  // ----- what an event does to one row ----------------------------------------------------------

  /** The row a creation event inserts: only when every column of its kind is in the payload. */
  function CreatedRow(e: Event): Option<Row> {
    if e.payload.RowPayload? && ((e.eventType.MemoryCreated? && e.payload.row.Memory?)
                                 || (e.eventType.ClaimCreated? && e.payload.row.Claim?))
    then Some(e.payload.row) else None
  }

  function ChangedKind(t: EventType): Option<Kind> {
    match t
    case MemoryStateChanged => Some(MemoryKind)
    case ClaimStateChanged => Some(ClaimKind)
    case _ => None
  }

  /** The row a state change addresses: only when it names a target and a new state. */
  function ChangedRef(e: Event): Option<Ref> {
    if ChangedKind(e.eventType).Some? && e.targetId.Some? && e.targetId.value != ""
       && e.payload.ChangePayload? && e.payload.to.Some?
    then Some(Ref(ChangedKind(e.eventType).value, e.targetId.value)) else None
  }

  predicate Creates(e: Event, r: Ref) {
    CreatedRow(e).Some? && RefOf(CreatedRow(e).value) == r
  }

  predicate Changes(e: Event, r: Ref) {
    ChangedRef(e) == Some(r)
  }

  function CreationOf(r: Ref): Event -> bool {
    e => Creates(e, r)
  }

  function ChangeOf(r: Ref): Event -> bool {
    e => Changes(e, r)
  }

  function ShapingOf(r: Ref): Event -> bool {
    e => Creates(e, r) || Changes(e, r)
  }

  /** The creations, the changes, and both together, of one row in a log. */
  function CreationsIn(log: seq<Event>, r: Ref): seq<Event> {
    Filter(CreationOf(r), log)
  }

  function ChangesIn(log: seq<Event>, r: Ref): seq<Event> {
    Filter(ChangeOf(r), log)
  }

  function ShapingIn(log: seq<Event>, r: Ref): seq<Event> {
    Filter(ShapingOf(r), log)
  }

  lemma FilterOne(p: Event -> bool, e: Event)
    ensures Filter(p, [e]) == if p(e) then [e] else []
  {
    assert [e][1..] == [];
  }

  /** Appending one event appends to each view exactly when the event belongs to it. */
  lemma AppendViews(log: seq<Event>, e: Event, r: Ref)
    ensures CreationsIn(log + [e], r) == CreationsIn(log, r) + if Creates(e, r) then [e] else []
    ensures ChangesIn(log + [e], r) == ChangesIn(log, r) + if Changes(e, r) then [e] else []
    ensures ShapingIn(log + [e], r) == ShapingIn(log, r) + if Creates(e, r) || Changes(e, r) then [e] else []
  {
    FilterConcat(CreationOf(r), log, [e]);
    FilterConcat(ChangeOf(r), log, [e]);
    FilterConcat(ShapingOf(r), log, [e]);
    FilterOne(CreationOf(r), e);
    FilterOne(ChangeOf(r), e);
    FilterOne(ShapingOf(r), e);
  }
}
