/**
 Every run of enqueues and drains, with any replies and any crashes between a reply and its
 statement. The queue carries two histories: every request with its reply, and every eviction. Each
 event ever enqueued is in exactly one place: still queued, settled by one reply, or evicted.
 */
module WalRuns {

  import opened Ordering
  import opened OfflineQueue
  import opened WalQueues

  datatype Eviction = Eviction(row: Row, cutoff: string)

  datatype Queue = Queue(rows: seq<Row>, lastSeq: nat, trace: seq<Exchange>, evictions: seq<Eviction>)

  datatype Op =
    | Enqueue(endpoint: string, payload: string, createdAt: string)
    | Drain(http: bool, cutoff: string, replies: seq<Outcome>)

  function EvictionsOf(rows: seq<Row>, cutoff: string): seq<Eviction> {
    if rows == [] then []
    else (if Expired(rows[0], cutoff) then [Eviction(rows[0], cutoff)] else []) + EvictionsOf(rows[1..], cutoff)
  }

  function Apply(q: Queue, op: Op): Queue {
    match op
    case Enqueue(endpoint, payload, createdAt) =>
      q.(rows := q.rows + [Row(q.lastSeq + 1, endpoint, payload, createdAt, 0)], lastSeq := q.lastSeq + 1)
    case Drain(http, cutoff, replies) =>
      if !http then q
      else
        var w := Drained(q.rows, cutoff, replies);
        Queue(w.rows, q.lastSeq, q.trace + w.trace, q.evictions + EvictionsOf(q.rows, cutoff))
  }

  function Run(q: Queue, ops: seq<Op>): Queue
    decreases |ops|
  {
    if ops == [] then q else Run(Apply(q, ops[0]), ops[1..])
  }

  function IsEnqueue(): Op -> bool {
    (op: Op) => op.Enqueue?
  }

  /** What was enqueued, in order: keys are handed out from 1 on. */
  function Enqueued(ops: seq<Op>): seq<Op> {
    Filter(IsEnqueue(), ops)
  }

  // ----- counting by key ------------------------------------------------------------------------

  function WithKey(s: nat): Row -> bool {
    (r: Row) => r.key == s
  }

  /** A 2xx or a 4xx. */
  predicate Settling(code: int) {
    200 <= code <= 299 || 400 <= code <= 499
  }

  function FailureOf(s: nat): Exchange -> bool {
    (x: Exchange) => x.key == s && (x.outcome.NetworkError? || (x.outcome.Status? && !Settling(x.outcome.code)))
  }

  function SettlementOf(s: nat): Exchange -> bool {
    (x: Exchange) => x.key == s && x.outcome.Status? && Settling(x.outcome.code)
  }

  function EvictionOf(s: nat): Eviction -> bool {
    (e: Eviction) => e.row.key == s
  }

  function Copies(rows: seq<Row>, s: nat): nat {
    |Filter(WithKey(s), rows)|
  }

  function Failures(trace: seq<Exchange>, s: nat): nat {
    |Filter(FailureOf(s), trace)|
  }

  function Settlements(trace: seq<Exchange>, s: nat): nat {
    |Filter(SettlementOf(s), trace)|
  }

  function Evictions(evictions: seq<Eviction>, s: nat): nat {
    |Filter(EvictionOf(s), evictions)|
  }

  lemma CopiesConcat(a: seq<Row>, b: seq<Row>, s: nat)
    ensures Copies(a + b, s) == Copies(a, s) + Copies(b, s)
  {
    FilterConcat(WithKey(s), a, b);
  }

  lemma CopiesOne(row: Row, s: nat)
    ensures Copies([row], s) == if row.key == s then 1 else 0
  {
    assert [row][1..] == [];
  }

  lemma TraceNext(trace: seq<Exchange>, x: Exchange, s: nat)
    ensures Failures(trace + [x], s) == Failures(trace, s) + if x.key == s && Fails(x.outcome) then 1 else 0
    ensures Settlements(trace + [x], s) == Settlements(trace, s) + if x.key == s && Settles(x.outcome) then 1 else 0
  {
    FilterConcat(FailureOf(s), trace, [x]);
    FilterConcat(SettlementOf(s), trace, [x]);
    assert [x][1..] == [];
  }

  lemma PresentIsCounted(rows: seq<Row>, row: Row)
    requires row in rows
    ensures Copies(rows, row.key) > 0
  {
    assert WithKey(row.key)(row);
    assert row in Filter(WithKey(row.key), rows);
  }

  lemma EvictedIsCounted(evictions: seq<Eviction>, e: Eviction)
    requires e in evictions
    ensures Evictions(evictions, e.row.key) > 0
  {
    assert EvictionOf(e.row.key)(e);
    assert e in Filter(EvictionOf(e.row.key), evictions);
  }

  // ----- the invariant --------------------------------------------------------------------------

  /** Every key handed out is queued, settled or evicted: one of them, once. No other key is anywhere. */
  ghost predicate OnePlace(q: Queue, s: nat) {
    Copies(q.rows, s) + Settlements(q.trace, s) + Evictions(q.evictions, s) == if 1 <= s <= q.lastSeq then 1 else 0
  }

  ghost predicate RowOk(q: Queue, r: Row) {
    r.attempts == Failures(q.trace, r.key) <= MAX_ATTEMPTS
  }

  ghost predicate EvictionOk(q: Queue, e: Eviction) {
    e.row.attempts == Failures(q.trace, e.row.key) == MAX_ATTEMPTS && StringLess(e.row.createdAt, e.cutoff)
  }

  ghost predicate Inv(q: Queue) {
    && InOrder(q.rows)
    && (forall s: nat :: OnePlace(q, s))
    && (forall r | r in q.rows :: RowOk(q, r))
    && (forall e | e in q.evictions :: EvictionOk(q, e))
    && (forall s: nat | Failures(q.trace, s) > 0 :: 1 <= s <= q.lastSeq)
  }

  /** q with one row's reply recorded and settled. */
  function Posted(q: Queue, a: seq<Row>, row: Row, b: seq<Row>, o: Outcome): Queue {
    q.(rows := a + After(row, o) + b, trace := q.trace + [Exchange(row.key, o)])
  }

  lemma PostedPlace(q: Queue, a: seq<Row>, row: Row, b: seq<Row>, o: Outcome, s: nat)
    requires q.rows == a + [row] + b && OnePlace(q, s)
    ensures OnePlace(Posted(q, a, row, b, o), s)
  {
    TraceNext(q.trace, Exchange(row.key, o), s);
    CopiesConcat(a + [row], b, s);
    CopiesConcat(a, [row], s);
    CopiesConcat(a + After(row, o), b, s);
    CopiesConcat(a, After(row, o), s);
    CopiesOne(row, s);
    CopiesOne(row.(attempts := row.attempts + 1), s);
  }

  lemma PostedRow(q: Queue, a: seq<Row>, row: Row, b: seq<Row>, o: Outcome, r: Row)
    requires q.rows == a + [row] + b && Alive(row) && RowOk(q, row)
    requires if r in After(row, o) then true else RowOk(q, r) && r.key != row.key
    ensures RowOk(Posted(q, a, row, b, o), r)
  {
    TraceNext(q.trace, Exchange(row.key, o), r.key);
  }

  lemma OtherKeys(a: seq<Row>, row: Row, b: seq<Row>, r: Row)
    requires InOrder(a + [row] + b) && (r in a || r in b)
    ensures r in a + [row] + b && r.key != row.key
  {
    var all := a + [row] + b;
    if r in a {
      var i :| 0 <= i < |a| && a[i] == r;
      assert all[i] == r && Older(all[i], all[|a|]);
    } else {
      var i :| 0 <= i < |b| && b[i] == r;
      assert all[|a| + 1 + i] == r && Older(all[|a|], all[|a| + 1 + i]);
    }
  }

  lemma PostKeeps(q: Queue, a: seq<Row>, row: Row, b: seq<Row>, o: Outcome)
    requires Inv(q) && q.rows == a + [row] + b && Alive(row)
    ensures Inv(Posted(q, a, row, b, o))
  {
    var q2 := Posted(q, a, row, b, o);
    assert row in q.rows && RowOk(q, row);
    HandledInOrder(a, row, b, o);
    PresentIsCounted(q.rows, row);
    assert OnePlace(q, row.key);
    forall s: nat ensures OnePlace(q2, s) && (Failures(q2.trace, s) > 0 ==> 1 <= s <= q.lastSeq) {
      assert OnePlace(q, s);
      PostedPlace(q, a, row, b, o, s);
      TraceNext(q.trace, Exchange(row.key, o), s);
    }
    forall r | r in q2.rows ensures RowOk(q2, r) {
      if r !in After(row, o) {
        OtherKeys(a, row, b, r);
      }
      PostedRow(q, a, row, b, o, r);
    }
    forall e | e in q2.evictions ensures EvictionOk(q2, e) {
      EvictedIsCounted(q.evictions, e);
      assert EvictionOk(q, e) && OnePlace(q, e.row.key);
      TraceNext(q.trace, Exchange(row.key, o), e.row.key);
    }
  }

  /** The queue after the batch: the rows around it stay. */
  function AfterBatch(q: Queue, a: seq<Row>, w: Work, b: seq<Row>): Queue {
    q.(rows := a + (w.rows + b), trace := q.trace + w.trace)
  }

  lemma {:induction false} BatchKeeps(q: Queue, a: seq<Row>, batch: seq<Row>, b: seq<Row>, replies: seq<Outcome>,
                                      k: nat)
    requires Inv(q) && q.rows == a + (batch + b)
    ensures Inv(AfterBatch(q, a, DrainBatch(batch, replies, k), b))
    decreases |batch|
  {
    if batch == [] {
      assert q.trace + [] == q.trace;
    } else {
      var row, o := batch[0], Reply(replies, k);
      var h := Handle(row, o);
      var q2 := FirstRow(q, a, batch, b, o);
      Unfold(batch, replies, k);
      if h.completed {
        BatchKeeps(q2, a + h.rows, batch[1..], b, replies, NextRequest(row, k));
      }
      Regroup(q, q2, a, h, batch[1..], b, Tail(batch, replies, k));
    }
  }

  lemma FirstRow(q: Queue, a: seq<Row>, batch: seq<Row>, b: seq<Row>, o: Outcome) returns (q2: Queue)
    requires Inv(q) && batch != [] && q.rows == a + (batch + b)
    ensures var h := Handle(batch[0], o);
            q2 == q.(rows := (a + h.rows) + (batch[1..] + b), trace := q.trace + h.trace) && Inv(q2)
  {
    var row := batch[0];
    assert batch == [row] + batch[1..];
    assert q.rows == a + [row] + (batch[1..] + b);
    if Alive(row) {
      q2 := Posted(q, a, row, batch[1..] + b, o);
      PostKeeps(q, a, row, batch[1..] + b, o);
    } else {
      q2 := q;
      assert q.trace + [] == q.trace;
    }
  }

  lemma Regroup(q: Queue, q2: Queue, a: seq<Row>, h: Work, rest: seq<Row>, b: seq<Row>, tail: Work)
    requires q2 == q.(rows := (a + h.rows) + (rest + b), trace := q.trace + h.trace)
    ensures AfterBatch(q2, a + h.rows, tail, b) == AfterBatch(q, a, Then(h, tail), b)
    ensures AfterBatch(q, a, h.(rows := h.rows + rest), b) == q2
  {
    assert (a + h.rows) + (tail.rows + b) == a + ((h.rows + tail.rows) + b);
    assert (q.trace + h.trace) + tail.trace == q.trace + (h.trace + tail.trace);
    assert a + ((h.rows + rest) + b) == (a + h.rows) + (rest + b);
  }

  lemma {:induction false} EvictionSplits(rows: seq<Row>, cutoff: string, s: nat)
    ensures Copies(Evicted(rows, cutoff), s) + Evictions(EvictionsOf(rows, cutoff), s) == Copies(rows, s)
  {
    if rows != [] {
      var row, rest := rows[0], rows[1..];
      assert rows == [row] + rest;
      EvictionSplits(rest, cutoff, s);
      FilterCons(Stays(cutoff), row, rest);
      FilterCons(WithKey(s), row, rest);
      FilterCons(WithKey(s), row, Evicted(rest, cutoff));
      if Expired(row, cutoff) {
        FilterCons(EvictionOf(s), Eviction(row, cutoff), EvictionsOf(rest, cutoff));
      } else {
        assert EvictionsOf(rows, cutoff) == EvictionsOf(rest, cutoff);
      }
    }
  }

  lemma {:induction false} EvictionsAreExpired(rows: seq<Row>, cutoff: string)
    ensures forall e | e in EvictionsOf(rows, cutoff) :: e.row in rows && Expired(e.row, cutoff) && e.cutoff == cutoff
  {
    if rows != [] {
      EvictionsAreExpired(rows[1..], cutoff);
      assert forall r | r in rows[1..] :: r in rows;
    }
  }

  function Swept(q: Queue, cutoff: string): Queue {
    q.(rows := Evicted(q.rows, cutoff), evictions := q.evictions + EvictionsOf(q.rows, cutoff))
  }

  lemma SweepKeeps(q: Queue, cutoff: string)
    requires Inv(q)
    ensures Inv(Swept(q, cutoff))
  {
    var q2 := Swept(q, cutoff);
    FilterStrict(Older, Stays(cutoff), q.rows);
    EvictionsAreExpired(q.rows, cutoff);
    forall s: nat ensures OnePlace(q2, s) {
      assert OnePlace(q, s);
      EvictionSplits(q.rows, cutoff, s);
      FilterConcat(EvictionOf(s), q.evictions, EvictionsOf(q.rows, cutoff));
    }
    forall e | e in q2.evictions ensures EvictionOk(q2, e) {
      if e in EvictionsOf(q.rows, cutoff) {
        assert RowOk(q, e.row);
      } else {
        assert EvictionOk(q, e);
      }
    }
    forall r | r in q2.rows ensures RowOk(q2, r) {
      assert RowOk(q, r);
    }
  }

  lemma EnqueueKeeps(q: Queue, op: Op)
    requires Inv(q) && op.Enqueue?
    ensures Inv(Apply(q, op))
  {
    var q2 := Apply(q, op);
    var row := q2.rows[|q.rows|];
    forall r | r in q.rows ensures r.key <= q.lastSeq && RowOk(q, r) {
      PresentIsCounted(q.rows, r);
      assert OnePlace(q, r.key);
    }
    forall s: nat ensures OnePlace(q2, s) {
      assert OnePlace(q, s);
      CopiesConcat(q.rows, [row], s);
      CopiesOne(row, s);
    }
    forall i, j | 0 <= i < j < |q2.rows| ensures Older(q2.rows[i], q2.rows[j]) {
      if j == |q.rows| {
        assert q.rows[i] in q.rows;
      }
    }
    forall r | r in q2.rows ensures RowOk(q2, r) {
      assert r in q.rows || r == row;
    }
    forall e | e in q2.evictions ensures EvictionOk(q2, e) {
      assert EvictionOk(q, e);
    }
  }

  lemma DrainKeeps(q: Queue, cutoff: string, replies: seq<Outcome>)
    requires Inv(q)
    ensures Inv(Apply(q, Drain(true, cutoff, replies)))
  {
    var q1 := Swept(q, cutoff);
    SweepKeeps(q, cutoff);
    var batch := Batch(q1.rows);
    var rest := q1.rows[|batch|..];
    assert q1.rows == [] + (batch + rest);
    BatchKeeps(q1, [], batch, rest, replies, 0);
    var w := DrainBatch(batch, replies, 0);
    assert [] + (w.rows + rest) == w.rows + rest;
  }

  lemma {:induction false} InvAlongRun(q: Queue, ops: seq<Op>)
    requires Inv(q)
    ensures Inv(Run(q, ops))
    decreases |ops|
  {
    if ops != [] {
      if ops[0].Enqueue? {
        EnqueueKeeps(q, ops[0]);
      } else if ops[0].http {
        DrainKeeps(q, ops[0].cutoff, ops[0].replies);
      }
      InvAlongRun(Apply(q, ops[0]), ops[1..]);
    }
  }

  // ----- contents -------------------------------------------------------------------------------

  /** The row holds what was enqueued under its key. */
  predicate Original(sent: seq<Op>, r: Row) {
    1 <= r.key <= |sent| && sent[r.key - 1] == Enqueue(r.endpoint, r.payload, r.createdAt)
  }

  ghost predicate Carries(q: Queue, sent: seq<Op>) {
    && |sent| == q.lastSeq
    && (forall r | r in q.rows :: Original(sent, r))
    && (forall e | e in q.evictions :: Original(sent, e.row))
  }

  lemma {:induction false} BatchCarries(sent: seq<Op>, batch: seq<Row>, replies: seq<Outcome>, k: nat)
    requires forall r | r in batch :: Original(sent, r)
    ensures forall r | r in DrainBatch(batch, replies, k).rows :: Original(sent, r)
  {
    if batch != [] {
      var row := batch[0];
      assert Original(sent, row);
      assert forall r | r in batch[1..] :: r in batch;
      assert forall r | r in Handle(row, Reply(replies, k)).rows :: Original(sent, r);
      BatchCarries(sent, batch[1..], replies, NextRequest(row, k));
      Unfold(batch, replies, k);
    }
  }

  lemma DrainCarries(q: Queue, cutoff: string, replies: seq<Outcome>, sent: seq<Op>)
    requires Carries(q, sent)
    ensures Carries(Apply(q, Drain(true, cutoff, replies)), sent)
  {
    var kept := Evicted(q.rows, cutoff);
    var batch := Batch(kept);
    assert forall r | r in kept :: r in q.rows;
    assert forall r | r in batch :: r in kept;
    assert forall r | r in kept[|batch|..] :: r in kept;
    BatchCarries(sent, batch, replies, 0);
    EvictionsAreExpired(q.rows, cutoff);
  }

  lemma EnqueueCarries(q: Queue, op: Op, sent: seq<Op>)
    requires op.Enqueue? && Carries(q, sent)
    ensures Carries(Apply(q, op), sent + [op])
  {
    forall r: Row | Original(sent, r) ensures Original(sent + [op], r) {
    }
    var row := Row(q.lastSeq + 1, op.endpoint, op.payload, op.createdAt, 0);
    assert Original(sent + [op], row);
    assert forall r | r in Apply(q, op).rows :: r in q.rows || r == row;
  }

  lemma EnqueuedNext(ops: seq<Op>, sent: seq<Op>)
    requires ops != []
    ensures sent + Enqueued(ops) == if ops[0].Enqueue? then sent + [ops[0]] + Enqueued(ops[1..])
                                    else sent + Enqueued(ops[1..])
  {
    assert ops == [ops[0]] + ops[1..];
    FilterCons(IsEnqueue(), ops[0], ops[1..]);
    assert sent + [ops[0]] + Enqueued(ops[1..]) == sent + ([ops[0]] + Enqueued(ops[1..]));
  }

  lemma {:induction false} CarriesAlongRun(q: Queue, ops: seq<Op>, sent: seq<Op>)
    requires Carries(q, sent)
    ensures Carries(Run(q, ops), sent + Enqueued(ops))
    decreases |ops|
  {
    if ops == [] {
      assert sent + [] == sent;
    } else {
      var op, rest := ops[0], ops[1..];
      EnqueuedNext(ops, sent);
      if op.Enqueue? {
        EnqueueCarries(q, op, sent);
        CarriesAlongRun(Apply(q, op), rest, sent + [op]);
      } else {
        if op.http {
          DrainCarries(q, op.cutoff, op.replies, sent);
        }
        CarriesAlongRun(Apply(q, op), rest, sent);
      }
    }
  }

  // ----- the theorem ----------------------------------------------------------------------------

  const EMPTY := Queue([], 0, [], [])

  /**
   Over every run: the failed attempts recorded on a queued row are the failures it had, five at most;
   each key handed out is still queued, or was settled by exactly one 2xx or 4xx reply, or was evicted
   once, after five failures and past the age limit - and never two of these. A reply that came after
   the request was aborted is none of these: of a 2xx lost that way the queue knows nothing, and posts
   again. Keys are handed out in the order of the enqueues, and a row that is queued, or was evicted,
   holds what was enqueued under its key.
   */
  lemma NothingIsLost(ops: seq<Op>)
    ensures var q := Run(EMPTY, ops);
            && InOrder(q.rows)
            && (forall r | r in q.rows ::
                  1 <= r.key <= q.lastSeq && r.attempts == Failures(q.trace, r.key) <= 5)
            && (forall s: nat | 1 <= s <= q.lastSeq ::
                  Copies(q.rows, s) + Settlements(q.trace, s) + Evictions(q.evictions, s) == 1)
            && (forall e | e in q.evictions ::
                  Failures(q.trace, e.row.key) == 5 && StringLess(e.row.createdAt, e.cutoff))
            && |Enqueued(ops)| == q.lastSeq
            && (forall r | r in q.rows :: Original(Enqueued(ops), r))
            && (forall e | e in q.evictions :: Original(Enqueued(ops), e.row))
  {
    var q := Run(EMPTY, ops);
    InvAlongRun(EMPTY, ops);
    CarriesAlongRun(EMPTY, ops, []);
    assert [] + Enqueued(ops) == Enqueued(ops);
    forall r | r in q.rows ensures 1 <= r.key <= q.lastSeq {
      PresentIsCounted(q.rows, r);
      assert OnePlace(q, r.key);
    }
    forall s: nat | 1 <= s <= q.lastSeq
      ensures Copies(q.rows, s) + Settlements(q.trace, s) + Evictions(q.evictions, s) == 1
    {
      assert OnePlace(q, s);
    }
    forall e | e in q.evictions ensures Failures(q.trace, e.row.key) == 5 {
      assert EvictionOk(q, e);
    }
  }
}
