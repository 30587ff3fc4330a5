/**
 The offline queue of the ingest client. A drain posts queued events oldest first and deletes or
 marks each row by the reply. Replies are arbitrary; a reply of `Aborted` stands for a
 process that dies between a request and the statement that settles its row, and for an exception
 that the drain does not catch. Queue rows live in a table with an ever-growing primary key.
 */
module OfflineQueue {

  import opened Ordering

  const DRAIN_BATCH := 100
  const MAX_ATTEMPTS := 5

  datatype Row = Row(key: nat, endpoint: string, payload: string, createdAt: string, attempts: nat)

  datatype Outcome = Status(code: int) | NetworkError | Aborted

  /** The reply to the k-th request; a request that never gets one is aborted. */
  function Reply(replies: seq<Outcome>, k: nat): Outcome {
    if k < |replies| then replies[k] else Aborted
  }

  datatype DrainResult = DrainResult(sent: nat, failed: nat, skipped: nat)

  /** One request of a drain and what came back. */
  datatype Exchange = Exchange(key: nat, outcome: Outcome)

  datatype Work = Work(rows: seq<Row>, tally: DrainResult, trace: seq<Exchange>, completed: bool)

  predicate Alive(row: Row) {
    row.attempts < MAX_ATTEMPTS
  }

  predicate Accepted(o: Outcome) {
    o.Status? && 200 <= o.code < 300
  }

  /** The reply settles the row: delivered, or refused for good. */
  predicate Settles(o: Outcome) {
    Accepted(o) || (o.Status? && 400 <= o.code < 500)
  }

  predicate Fails(o: Outcome) {
    !Settles(o) && !o.Aborted?
  }

  function After(row: Row, o: Outcome): seq<Row> {
    if Settles(o) then [] else if Fails(o) then [row.(attempts := row.attempts + 1)] else [row]
  }

  function Plus(a: DrainResult, b: DrainResult): DrainResult {
    DrainResult(a.sent + b.sent, a.failed + b.failed, a.skipped + b.skipped)
  }

  function Then(a: Work, b: Work): Work {
    Work(a.rows + b.rows, Plus(a.tally, b.tally), a.trace + b.trace, b.completed)
  }

  /** What the drain does with one row. */
  function Handle(row: Row, o: Outcome): Work {
    if !Alive(row) then Work([row], DrainResult(0, 0, 1), [], true)
    else Work(After(row, o),
              if o.Aborted? then DrainResult(0, 0, 0) else if Accepted(o) then DrainResult(1, 0, 0)
              else DrainResult(0, 1, 0),
              [Exchange(row.key, o)], !o.Aborted?)
  }

  /** The number of requests made once a row is handled. */
  function NextRequest(row: Row, k: nat): nat {
    if Alive(row) then k + 1 else k
  }

  /** The rest of a batch, when `k` requests have been made. */
  function DrainBatch(batch: seq<Row>, replies: seq<Outcome>, k: nat): Work {
    if batch == [] then Work([], DrainResult(0, 0, 0), [], true)
    else
      var first := Handle(batch[0], Reply(replies, k));
      if !first.completed then first.(rows := first.rows + batch[1..])
      else Then(first, DrainBatch(batch[1..], replies, NextRequest(batch[0], k)))
  }

  predicate Expired(row: Row, cutoff: string) {
    !Alive(row) && StringLess(row.createdAt, cutoff)
  }

  function Stays(cutoff: string): Row -> bool {
    (row: Row) => !Expired(row, cutoff)
  }

  function Evicted(rows: seq<Row>, cutoff: string): seq<Row> {
    Filter(Stays(cutoff), rows)
  }

  function Min(a: nat, b: nat): nat {
    if a < b then a else b
  }

  function Batch(rows: seq<Row>): seq<Row> {
    rows[..Min(DRAIN_BATCH, |rows|)]
  }

  /** A whole drain over a non-empty scheme check: evict, take the oldest rows, post them. */
  function Drained(rows: seq<Row>, cutoff: string, replies: seq<Outcome>): Work {
    var kept := Evicted(rows, cutoff);
    var work := DrainBatch(Batch(kept), replies, 0);
    work.(rows := work.rows + kept[|Batch(kept)|..])
  }

  predicate Older(a: Row, b: Row) {
    a.key < b.key
  }

  ghost predicate InOrder(rows: seq<Row>) {
    StrictlySorted(Older, rows)
  }

  /** The keys of the live rows, oldest first. */
  function LiveKeys(rows: seq<Row>): seq<nat> {
    if rows == [] then [] else (if Alive(rows[0]) then [rows[0].key] else []) + LiveKeys(rows[1..])
  }

  // ----- statements by primary key --------------------------------------------------------------

  function DeleteKey(rows: seq<Row>, s: nat): seq<Row> {
    if rows == [] then [] else if rows[0].key == s then rows[1..] else [rows[0]] + DeleteKey(rows[1..], s)
  }

  function BumpKey(rows: seq<Row>, s: nat): seq<Row> {
    if rows == [] then []
    else if rows[0].key == s then [rows[0].(attempts := rows[0].attempts + 1)] + rows[1..]
    else [rows[0]] + BumpKey(rows[1..], s)
  }

  lemma {:induction false} DeleteAt(a: seq<Row>, row: Row, b: seq<Row>)
    requires forall r | r in a :: r.key != row.key
    ensures DeleteKey(a + [row] + b, row.key) == a + b
  {
    var all := a + [row] + b;
    if a == [] {
      assert all[1..] == b && a + b == b;
    } else {
      var rest := a[1..];
      assert all[0] == a[0] && all[1..] == rest + [row] + b;
      DeleteAt(rest, row, b);
      assert [a[0]] + (rest + b) == a + b;
    }
  }

  lemma {:induction false} BumpAt(a: seq<Row>, row: Row, b: seq<Row>)
    requires forall r | r in a :: r.key != row.key
    ensures BumpKey(a + [row] + b, row.key) == a + [row.(attempts := row.attempts + 1)] + b
  {
    var all, more := a + [row] + b, row.(attempts := row.attempts + 1);
    if a == [] {
      assert all[1..] == b && a + [more] + b == [more] + b;
    } else {
      var rest := a[1..];
      assert all[0] == a[0] && all[1..] == rest + [row] + b;
      BumpAt(rest, row, b);
      assert [a[0]] + (rest + [more] + b) == a + [more] + b;
    }
  }

  // ----- one drain ------------------------------------------------------------------------------

  /** Counts: a completed batch sorts every one of its rows under exactly one heading. */
  lemma {:induction false} BatchCounts(batch: seq<Row>, replies: seq<Outcome>, k: nat)
    ensures var w := DrainBatch(batch, replies, k);
            && w.tally.sent + w.tally.failed + w.tally.skipped <= |batch|
            && (w.completed <==> w.tally.sent + w.tally.failed + w.tally.skipped == |batch|)
  {
    if batch != [] {
      BatchCounts(batch[1..], replies, NextRequest(batch[0], k));
    }
  }

  /** A whole drain sorts each of the hundred oldest surviving rows under exactly one heading, unless it was aborted. */
  lemma DrainCounts(rows: seq<Row>, cutoff: string, replies: seq<Outcome>)
    ensures var w := Drained(rows, cutoff, replies);
            var counted := w.tally.sent + w.tally.failed + w.tally.skipped;
            && counted <= Min(100, |Evicted(rows, cutoff)|)
            && (w.completed <==> counted == Min(100, |Evicted(rows, cutoff)|))
  {
    BatchCounts(Batch(Evicted(rows, cutoff)), replies, 0);
  }

  /** The tail of a batch, once its first row is handled. */
  function Tail(batch: seq<Row>, replies: seq<Outcome>, k: nat): Work
    requires batch != []
  {
    DrainBatch(batch[1..], replies, NextRequest(batch[0], k))
  }

  lemma Unfold(batch: seq<Row>, replies: seq<Outcome>, k: nat)
    requires batch != []
    ensures var h := Handle(batch[0], Reply(replies, k));
            DrainBatch(batch, replies, k)
            == if h.completed then Then(h, Tail(batch, replies, k)) else h.(rows := h.rows + batch[1..])
  {
  }

  /** The trace answers the keys in order, from the k-th reply on; an abort is the last thing that happened. */
  ghost predicate Answers(w: Work, keys: seq<nat>, replies: seq<Outcome>, k: nat) {
    && |w.trace| <= |keys|
    && (forall i | 0 <= i < |w.trace| :: w.trace[i] == Exchange(keys[i], Reply(replies, k + i)))
    && (if w.completed then |w.trace| == |keys| else w.trace != [] && w.trace[|w.trace| - 1].outcome.Aborted?)
  }

  lemma AnswersNext(h: Work, key: nat, tail: Work, rest: seq<nat>, replies: seq<Outcome>, k: nat)
    requires h.trace == [Exchange(key, Reply(replies, k))] && Answers(tail, rest, replies, k + 1)
    ensures Answers(Then(h, tail), [key] + rest, replies, k)
  {
    var trace, keys := h.trace + tail.trace, [key] + rest;
    forall i | 0 <= i < |trace| ensures trace[i] == Exchange(keys[i], Reply(replies, k + i)) {
      if i > 0 {
        assert tail.trace[i - 1] == Exchange(rest[i - 1], Reply(replies, k + 1 + (i - 1)));
      }
    }
  }

  lemma AnswersStep(row: Row, tail: Work, rest: seq<nat>, replies: seq<Outcome>, k: nat, w: Work, keys: seq<nat>)
    requires Answers(tail, rest, replies, NextRequest(row, k))
    requires var h := Handle(row, Reply(replies, k));
             && w.trace == (if h.completed then h.trace + tail.trace else h.trace)
             && w.completed == (h.completed && tail.completed)
    requires keys == (if Alive(row) then [row.key] else []) + rest
    ensures Answers(w, keys, replies, k)
  {
    var h := Handle(row, Reply(replies, k));
    if !Alive(row) {
      assert w.trace == tail.trace && keys == rest;
    } else if h.completed {
      AnswersNext(h, row.key, tail, rest, replies, k);
    }
  }

  /** The requests of a batch are its live rows, oldest first, one each, answered in turn. */
  lemma {:induction false} RequestsAreLiveRows(batch: seq<Row>, replies: seq<Outcome>, k: nat)
    ensures Answers(DrainBatch(batch, replies, k), LiveKeys(batch), replies, k)
  {
    if batch != [] {
      Unfold(batch, replies, k);
      RequestsAreLiveRows(batch[1..], replies, NextRequest(batch[0], k));
      AnswersStep(batch[0], Tail(batch, replies, k), LiveKeys(batch[1..]),
                  replies, k, DrainBatch(batch, replies, k), LiveKeys(batch));
    }
  }

  lemma {:induction false} LiveKeysFrom(rows: seq<Row>, i: nat)
    requires i < |LiveKeys(rows)|
    ensures exists r | r in rows :: Alive(r) && r.key == LiveKeys(rows)[i]
  {
    var head := if Alive(rows[0]) then [rows[0].key] else [];
    if i < |head| {
      assert rows[0] in rows;
    } else {
      LiveKeysFrom(rows[1..], i - |head|);
      var r :| r in rows[1..] && Alive(r) && r.key == LiveKeys(rows[1..])[i - |head|];
      assert r in rows;
    }
  }

  /** Keys grow, so requests go out in the order of the queue and no row twice. */
  lemma {:induction false} LiveKeysGrow(rows: seq<Row>, i: nat, j: nat)
    requires InOrder(rows) && i < j < |LiveKeys(rows)|
    ensures LiveKeys(rows)[i] < LiveKeys(rows)[j]
  {
    var rest := rows[1..];
    if !Alive(rows[0]) {
      LiveKeysGrow(rest, i, j);
    } else if i > 0 {
      LiveKeysGrow(rest, i - 1, j - 1);
    } else {
      LiveKeysFrom(rest, j - 1);
      var r :| r in rest && r.key == LiveKeys(rest)[j - 1];
      var n :| 0 <= n < |rest| && rest[n] == r;
      assert Older(rows[0], rows[n + 1]);
    }
  }

  function Weight(rows: seq<Row>): int {
    if rows == [] then 0 else 6 - rows[0].attempts + Weight(rows[1..])
  }

  lemma {:induction false} WeightConcat(a: seq<Row>, b: seq<Row>)
    ensures Weight(a + b) == Weight(a) + Weight(b)
  {
    if a == [] {
      assert a + b == b;
    } else {
      WeightConcat(a[1..], b);
      assert (a + b)[1..] == a[1..] + b;
    }
  }

  ghost predicate Bounded(rows: seq<Row>) {
    forall r | r in rows :: r.attempts <= MAX_ATTEMPTS
  }

  lemma HandleLosesWeight(row: Row, o: Outcome)
    requires row.attempts <= MAX_ATTEMPTS
    ensures var w := Handle(row, o);
            Weight(w.rows) <= Weight([row]) && (w.completed && Alive(row) ==> Weight(w.rows) < Weight([row]))
  {
    assert [row][1..] == [];
    var more := row.(attempts := row.attempts + 1);
    assert [more][1..] == [] && Weight([more]) == 6 - more.attempts;
  }

  lemma WeightStep(batch: seq<Row>, o: Outcome, after: seq<Row>)
    requires batch != [] && batch[0].attempts <= MAX_ATTEMPTS && Weight(after) <= Weight(batch[1..])
    ensures Weight(Handle(batch[0], o).rows + after) <= Weight(batch)
    ensures Handle(batch[0], o).completed && (Alive(batch[0]) || Weight(after) < Weight(batch[1..])) ==>
              Weight(Handle(batch[0], o).rows + after) < Weight(batch)
  {
    HandleLosesWeight(batch[0], o);
    assert batch == [batch[0]] + batch[1..];
    WeightConcat([batch[0]], batch[1..]);
    WeightConcat(Handle(batch[0], o).rows, after);
  }

  lemma DrainStepWeight(batch: seq<Row>, replies: seq<Outcome>, k: nat, tail: Work)
    requires batch != [] && batch[0].attempts <= MAX_ATTEMPTS
    requires tail == DrainBatch(batch[1..], replies, NextRequest(batch[0], k))
    requires Weight(tail.rows) <= Weight(batch[1..])
    ensures var w := DrainBatch(batch, replies, k);
            && Weight(w.rows) <= Weight(batch)
            && (w.completed ==> tail.completed
                                && (Alive(batch[0]) || Weight(tail.rows) < Weight(batch[1..])
                                    ==> Weight(w.rows) < Weight(batch)))
  {
    var first := Handle(batch[0], Reply(replies, k));
    WeightStep(batch, Reply(replies, k), if first.completed then tail.rows else batch[1..]);
  }

  /** A batch never gains weight, and a completed one with a live row loses some. */
  lemma {:induction false} BatchLosesWeight(batch: seq<Row>, replies: seq<Outcome>, k: nat)
    requires Bounded(batch)
    ensures Weight(DrainBatch(batch, replies, k).rows) <= Weight(batch)
    ensures DrainBatch(batch, replies, k).completed && LiveKeys(batch) != [] ==>
              Weight(DrainBatch(batch, replies, k).rows) < Weight(batch)
  {
    if batch != [] {
      var k2 := NextRequest(batch[0], k);
      BatchLosesWeight(batch[1..], replies, k2);
      DrainStepWeight(batch, replies, k, DrainBatch(batch[1..], replies, k2));
    }
  }

  lemma {:induction false} EvictionLosesWeight(rows: seq<Row>, cutoff: string)
    requires Bounded(rows)
    ensures Weight(Evicted(rows, cutoff)) <= Weight(rows)
  {
    if rows != [] {
      assert rows == [rows[0]] + rows[1..];
      EvictionLosesWeight(rows[1..], cutoff);
      FilterCons(Stays(cutoff), rows[0], rows[1..]);
      WeightConcat([rows[0]], Evicted(rows[1..], cutoff));
    }
  }

  /** Every completed drain whose batch holds a live row makes progress. */
  lemma DrainLosesWeight(rows: seq<Row>, cutoff: string, replies: seq<Outcome>)
    requires Bounded(rows)
    ensures var w := Drained(rows, cutoff, replies);
            && Weight(w.rows) <= Weight(rows)
            && (w.completed && LiveKeys(Batch(Evicted(rows, cutoff))) != [] ==> Weight(w.rows) < Weight(rows))
  {
    var kept := Evicted(rows, cutoff);
    var batch, rest := Batch(kept), kept[|Batch(kept)|..];
    assert kept == batch + rest;
    EvictionLosesWeight(rows, cutoff);
    BatchLosesWeight(batch, replies, 0);
    WeightConcat(batch, rest);
    WeightConcat(DrainBatch(batch, replies, 0).rows, rest);
  }

  lemma {:induction false} DeadBatch(batch: seq<Row>, replies: seq<Outcome>, k: nat)
    requires LiveKeys(batch) == []
    ensures DrainBatch(batch, replies, k) == Work(batch, DrainResult(0, 0, |batch|), [], true)
  {
    if batch != [] {
      assert batch == [batch[0]] + batch[1..];
      DeadBatch(batch[1..], replies, k);
    }
  }

  /**
   A drain makes no request exactly when none of the hundred oldest rows is live; then nothing but the
   eviction has happened. Dead rows below the age limit are neither sent nor deleted, so a hundred of
   them hold back every live row behind them until they expire.
   */
  lemma SilentIff(rows: seq<Row>, cutoff: string, replies: seq<Outcome>)
    ensures var kept := Evicted(rows, cutoff);
            && (Drained(rows, cutoff, replies).trace == [] <==> LiveKeys(Batch(kept)) == [])
            && (Drained(rows, cutoff, replies).trace == [] ==>
                  Drained(rows, cutoff, replies) == Work(kept, DrainResult(0, 0, |Batch(kept)|), [], true))
  {
    var kept := Evicted(rows, cutoff);
    var batch := Batch(kept);
    assert kept == batch + kept[|batch|..];
    RequestsAreLiveRows(batch, replies, 0);
    if LiveKeys(batch) == [] {
      DeadBatch(batch, replies, 0);
    }
  }
}
