/**
 What becomes of each row of the queue in a drain, by the status codes themselves: which replies take
 a row away, which cost it an attempt, and how each is counted.
 */
module WalReplies {

  import opened Ordering
  import opened OfflineQueue
  import opened WalQueues

  /** A row may be posted while it has failed less than five times; a reply decides what becomes of it. */
  ghost predicate Answered(r: Row, trace: seq<Exchange>, rows: seq<Row>) {
    && ((forall x | x in trace :: x.key != r.key) ==> r in rows)
    && forall x | x in trace && x.key == r.key ::
         && r.attempts < 5
         && match x.outcome
            case Status(code) =>
              if 200 <= code < 300 || 400 <= code < 500 then forall q | q in rows :: q.key != r.key
              else r.(attempts := r.attempts + 1) in rows
            case NetworkError => r.(attempts := r.attempts + 1) in rows
            case Aborted => r in rows
  }

  lemma OneRowAnswered(row: Row, o: Outcome)
    ensures Answered(row, Handle(row, o).trace, Handle(row, o).rows)
    ensures forall x | x in Handle(row, o).trace :: x.key == row.key
    ensures forall q | q in Handle(row, o).rows :: q.key == row.key
  {
  }

  ghost predicate KeysFrom(w: Work, batch: seq<Row>) {
    && (forall x | x in w.trace :: exists r | r in batch :: r.key == x.key)
    && (forall q | q in w.rows :: exists r | r in batch :: r.key == q.key)
  }

  lemma {:induction false} BatchKeys(batch: seq<Row>, replies: seq<Outcome>, k: nat)
    ensures KeysFrom(DrainBatch(batch, replies, k), batch)
  {
    if batch != [] {
      var h, tail := Handle(batch[0], Reply(replies, k)), Tail(batch, replies, k);
      OneRowAnswered(batch[0], Reply(replies, k));
      BatchKeys(batch[1..], replies, NextRequest(batch[0], k));
      Unfold(batch, replies, k);
      var w := DrainBatch(batch, replies, k);
      assert batch[0] in batch && forall r | r in batch[1..] :: r in batch;
      forall x | x in w.trace ensures exists r | r in batch :: r.key == x.key {
        if x !in h.trace {
          var r :| r in batch[1..] && r.key == x.key;
        }
      }
      forall q | q in w.rows ensures exists r | r in batch :: r.key == q.key {
        if q !in h.rows && q !in batch[1..] {
          var r :| r in batch[1..] && r.key == q.key;
        }
      }
    }
  }

  lemma OtherKey(batch: seq<Row>, r: Row)
    requires InOrder(batch) && batch != [] && r in batch[1..]
    ensures InOrder(batch[1..]) && r.key != batch[0].key
  {
    var i :| 0 <= i < |batch[1..]| && batch[1..][i] == r;
    assert Older(batch[0], batch[i + 1]);
  }

  /** What others get does not matter to a row. */
  lemma AnsweredAmong(r: Row, before: Work, w: Work, trace: seq<Exchange>, rows: seq<Row>)
    requires Answered(r, w.trace, w.rows) && trace == before.trace + w.trace && rows == before.rows + w.rows
    requires (forall x | x in before.trace :: x.key != r.key) && (forall q | q in before.rows :: q.key != r.key)
    ensures Answered(r, trace, rows)
  {
  }

  lemma AnsweredFirst(r: Row, w: Work, after: Work, trace: seq<Exchange>, rows: seq<Row>)
    requires Answered(r, w.trace, w.rows) && trace == w.trace + after.trace && rows == w.rows + after.rows
    requires (forall x | x in after.trace :: x.key != r.key) && (forall q | q in after.rows :: q.key != r.key)
    ensures Answered(r, trace, rows)
  {
  }

  /** The batch after its first row: handled as well, or left as it is. */
  function Later(batch: seq<Row>, replies: seq<Outcome>, k: nat): Work
    requires batch != []
  {
    if Handle(batch[0], Reply(replies, k)).completed then Tail(batch, replies, k)
    else Work(batch[1..], DrainResult(0, 0, 0), [], true)
  }

  lemma FirstThenLater(batch: seq<Row>, replies: seq<Outcome>, k: nat)
    requires batch != []
    ensures var h, w := Handle(batch[0], Reply(replies, k)), DrainBatch(batch, replies, k);
            w.trace == h.trace + Later(batch, replies, k).trace && w.rows == h.rows + Later(batch, replies, k).rows
    ensures KeysFrom(Later(batch, replies, k), batch[1..])
  {
    Unfold(batch, replies, k);
    BatchKeys(batch[1..], replies, NextRequest(batch[0], k));
    assert Handle(batch[0], Reply(replies, k)).trace + [] == Handle(batch[0], Reply(replies, k)).trace;
  }

  lemma FirstApart(batch: seq<Row>, w: Work)
    requires InOrder(batch) && batch != [] && KeysFrom(w, batch[1..])
    ensures forall x | x in w.trace :: x.key != batch[0].key
    ensures forall q | q in w.rows :: q.key != batch[0].key
  {
    forall x | x in w.trace ensures x.key != batch[0].key {
      var q :| q in batch[1..] && q.key == x.key;
      OtherKey(batch, q);
    }
    forall q | q in w.rows ensures q.key != batch[0].key {
      var p :| p in batch[1..] && p.key == q.key;
      OtherKey(batch, p);
    }
  }

  lemma HeadAnswered(batch: seq<Row>, replies: seq<Outcome>, k: nat)
    requires InOrder(batch) && batch != []
    ensures Answered(batch[0], DrainBatch(batch, replies, k).trace, DrainBatch(batch, replies, k).rows)
  {
    var h, w := Handle(batch[0], Reply(replies, k)), DrainBatch(batch, replies, k);
    FirstThenLater(batch, replies, k);
    OneRowAnswered(batch[0], Reply(replies, k));
    FirstApart(batch, Later(batch, replies, k));
    AnsweredFirst(batch[0], h, Later(batch, replies, k), w.trace, w.rows);
  }

  lemma LaterAnswered(batch: seq<Row>, replies: seq<Outcome>, k: nat, r: Row)
    requires InOrder(batch) && batch != [] && r in batch[1..]
    requires Answered(r, Later(batch, replies, k).trace, Later(batch, replies, k).rows)
    ensures Answered(r, DrainBatch(batch, replies, k).trace, DrainBatch(batch, replies, k).rows)
  {
    var h, w := Handle(batch[0], Reply(replies, k)), DrainBatch(batch, replies, k);
    FirstThenLater(batch, replies, k);
    OneRowAnswered(batch[0], Reply(replies, k));
    OtherKey(batch, r);
    AnsweredAmong(r, h, Later(batch, replies, k), w.trace, w.rows);
  }

  lemma {:induction false} BatchAnswered(batch: seq<Row>, replies: seq<Outcome>, k: nat, r: Row)
    requires InOrder(batch) && r in batch
    ensures Answered(r, DrainBatch(batch, replies, k).trace, DrainBatch(batch, replies, k).rows)
  {
    if r == batch[0] {
      HeadAnswered(batch, replies, k);
    } else {
      assert batch == [batch[0]] + batch[1..];
      OtherKey(batch, r);
      if Handle(batch[0], Reply(replies, k)).completed {
        BatchAnswered(batch[1..], replies, NextRequest(batch[0], k), r);
      }
      LaterAnswered(batch, replies, k, r);
    }
  }

  // ----- counting -------------------------------------------------------------------------------

  function Sent(): Exchange -> bool {
    (x: Exchange) => x.outcome.Status? && 200 <= x.outcome.code < 300
  }

  function Unsent(): Exchange -> bool {
    (x: Exchange) => x.outcome.NetworkError? || (x.outcome.Status? && !(200 <= x.outcome.code < 300))
  }

  function GivenUp(): Row -> bool {
    (r: Row) => r.attempts >= 5
  }

  lemma OneRowCounted(row: Row, o: Outcome)
    ensures var h := Handle(row, o);
            && h.tally == DrainResult(|Filter(Sent(), h.trace)|, |Filter(Unsent(), h.trace)|,
                                      |Filter(GivenUp(), [row])|)
            && (h.completed <==> forall x | x in h.trace :: x.outcome != Aborted)
  {
    var h := Handle(row, o);
    assert [row][1..] == [];
    if h.trace != [] {
      assert h.trace == [Exchange(row.key, o)] && h.trace[1..] == [];
    }
  }

  lemma TraceCounts(a: seq<Exchange>, b: seq<Exchange>)
    ensures |Filter(Sent(), a + b)| == |Filter(Sent(), a)| + |Filter(Sent(), b)|
    ensures |Filter(Unsent(), a + b)| == |Filter(Unsent(), a)| + |Filter(Unsent(), b)|
  {
    FilterConcat(Sent(), a, b);
    FilterConcat(Unsent(), a, b);
  }

  lemma GivenUpCounts(batch: seq<Row>)
    requires batch != []
    ensures |Filter(GivenUp(), batch)| == |Filter(GivenUp(), [batch[0]])| + |Filter(GivenUp(), batch[1..])|
  {
    assert batch == [batch[0]] + batch[1..];
    FilterConcat(GivenUp(), [batch[0]], batch[1..]);
  }

  /** `sent` counts the 2xx, `failed` every other reply, `skipped` the rows given up that were come to. */
  lemma {:induction false} BatchCounted(batch: seq<Row>, replies: seq<Outcome>, k: nat)
    ensures var w := DrainBatch(batch, replies, k);
            && w.tally.sent == |Filter(Sent(), w.trace)|
            && w.tally.failed == |Filter(Unsent(), w.trace)|
            && w.tally.skipped <= |Filter(GivenUp(), batch)|
            && (w.completed ==> w.tally.skipped == |Filter(GivenUp(), batch)|)
            && (w.completed <==> forall x | x in w.trace :: x.outcome != Aborted)
  {
    if batch != [] {
      OneRowCounted(batch[0], Reply(replies, k));
      BatchCounted(batch[1..], replies, NextRequest(batch[0], k));
      GivenUpCounts(batch);
      Unfold(batch, replies, k);
      TraceCounts(Handle(batch[0], Reply(replies, k)).trace, Tail(batch, replies, k).trace);
    }
  }

  // ----- a whole drain --------------------------------------------------------------------------

  /** Rows that failed five times are dropped once they are older than the cutoff, and no others. */
  lemma {:induction false} DroppedIff(rows: seq<Row>, cutoff: string, r: Row)
    ensures r in Evicted(rows, cutoff) <==> r in rows && !(r.attempts >= 5 && StringLess(r.createdAt, cutoff))
  {
    assert Stays(cutoff)(r) <==> !(r.attempts >= 5 && StringLess(r.createdAt, cutoff));
  }

  /**
   A drain, row by row: a row that failed five times and is too old is dropped. Any other is posted if
   it failed less than five times and is among the hundred oldest, until a request gets no reply at all.
   A 2xx or 4xx takes it away, another status or a network error costs it an attempt, and without a
   reply it stays. Nothing else is changed, and the counters say how many of each there were.
   */
  lemma DrainedRow(rows: seq<Row>, cutoff: string, replies: seq<Outcome>, r: Row)
    requires InOrder(rows) && r in rows
    ensures var w := Drained(rows, cutoff, replies);
            if r.attempts >= 5 && StringLess(r.createdAt, cutoff)
            then (forall q | q in w.rows :: q.key != r.key) && forall x | x in w.trace :: x.key != r.key
            else Answered(r, w.trace, w.rows)
  {
    var kept := Evicted(rows, cutoff);
    var batch, rest := Batch(kept), kept[|Batch(kept)|..];
    var w := DrainBatch(batch, replies, 0);
    assert kept == batch + rest;
    FilterStrict(Older, Stays(cutoff), rows);
    DroppedIff(rows, cutoff, r);
    BatchKeys(batch, replies, 0);
    if r !in kept {
      forall q | q in kept ensures q.key != r.key {
        DroppedIff(rows, cutoff, q);
        OneKey(rows, q, r);
      }
    } else if r in batch {
      BatchAnswered(batch, replies, 0, r);
      forall q | q in rest ensures q.key != r.key {
        Apart(batch, rest, r, q);
      }
      AnsweredFirst(r, w, Work(rest, DrainResult(0, 0, 0), [], true), w.trace + [], w.rows + rest);
    } else {
      forall q | q in batch ensures q.key != r.key {
        Apart(batch, rest, q, r);
      }
    }
  }

  lemma OneKey(rows: seq<Row>, q: Row, r: Row)
    requires InOrder(rows) && q in rows && r in rows && q != r
    ensures q.key != r.key
  {
    var i :| 0 <= i < |rows| && rows[i] == q;
    var j :| 0 <= j < |rows| && rows[j] == r;
    assert if i < j then Older(rows[i], rows[j]) else Older(rows[j], rows[i]);
  }

  lemma Apart(a: seq<Row>, b: seq<Row>, q: Row, r: Row)
    requires InOrder(a + b) && q in a && r in b
    ensures q.key < r.key
  {
    var i :| 0 <= i < |a| && a[i] == q;
    var j :| 0 <= j < |b| && b[j] == r;
    assert Older((a + b)[i], (a + b)[|a| + j]);
  }

  /** Nothing but what was there is left, in the order of the queue. */
  lemma DrainedOrder(rows: seq<Row>, cutoff: string, replies: seq<Outcome>)
    requires InOrder(rows)
    ensures InOrder(Drained(rows, cutoff, replies).rows)
    ensures forall q | q in Drained(rows, cutoff, replies).rows ::
              exists r | r in rows :: q == r || (r.attempts < 5 && q == r.(attempts := r.attempts + 1))
  {
    var kept := Evicted(rows, cutoff);
    var batch, rest := Batch(kept), kept[|Batch(kept)|..];
    assert kept == batch + rest;
    FilterStrict(Older, Stays(cutoff), rows);
    assert [] + (batch + rest) == kept;
    BatchInOrder([], batch, rest, replies, 0);
    assert [] + (DrainBatch(batch, replies, 0).rows + rest) == Drained(rows, cutoff, replies).rows;
    BatchRows(batch, replies, 0);
    forall q | q in Drained(rows, cutoff, replies).rows
      ensures exists r | r in rows :: q == r || (r.attempts < 5 && q == r.(attempts := r.attempts + 1))
    {
      if q in rest {
        assert q in rows;
      } else {
        var r :| r in batch && (q == r || (r.attempts < 5 && q == r.(attempts := r.attempts + 1)));
        assert r in kept && r in rows;
      }
    }
  }

  lemma {:induction false} BatchRows(batch: seq<Row>, replies: seq<Outcome>, k: nat)
    ensures forall q | q in DrainBatch(batch, replies, k).rows ::
              exists r | r in batch :: q == r || (r.attempts < 5 && q == r.(attempts := r.attempts + 1))
  {
    if batch != [] {
      var h := Handle(batch[0], Reply(replies, k));
      Unfold(batch, replies, k);
      BatchRows(batch[1..], replies, NextRequest(batch[0], k));
      forall q | q in DrainBatch(batch, replies, k).rows
        ensures exists r | r in batch :: q == r || (r.attempts < 5 && q == r.(attempts := r.attempts + 1))
      {
        if q in h.rows {
          assert batch[0] in batch;
        } else if q in batch[1..] {
          assert q in batch;
        } else {
          var r :| r in batch[1..] && (q == r || (r.attempts < 5 && q == r.(attempts := r.attempts + 1)));
          assert r in batch;
        }
      }
    }
  }

  lemma HeadInOrder(a: seq<Row>, batch: seq<Row>, b: seq<Row>, o: Outcome)
    requires batch != [] && InOrder(a + (batch + b))
    ensures InOrder((a + Handle(batch[0], o).rows) + (batch[1..] + b))
  {
    assert a + (batch + b) == a + [batch[0]] + (batch[1..] + b);
    HandledInOrder(a, batch[0], batch[1..] + b, o);
  }

  lemma Regroup(a: seq<Row>, head: seq<Row>, later: seq<Row>, b: seq<Row>)
    ensures (a + head) + (later + b) == a + ((head + later) + b)
  {
    assert head + (later + b) == (head + later) + b;
    assert (a + head) + (later + b) == a + (head + (later + b));
  }

  lemma RowsRegroup(a: seq<Row>, batch: seq<Row>, b: seq<Row>, replies: seq<Outcome>, k: nat)
    requires batch != []
    ensures (a + Handle(batch[0], Reply(replies, k)).rows) + (Later(batch, replies, k).rows + b)
            == a + (DrainBatch(batch, replies, k).rows + b)
  {
    FirstThenLater(batch, replies, k);
    var head, later := Handle(batch[0], Reply(replies, k)).rows, Later(batch, replies, k).rows;
    Regroup(a, head, later, b);
  }

  lemma {:induction false} BatchInOrder(a: seq<Row>, batch: seq<Row>, b: seq<Row>, replies: seq<Outcome>, k: nat)
    requires InOrder(a + (batch + b))
    ensures InOrder(a + (DrainBatch(batch, replies, k).rows + b))
    decreases |batch|
  {
    if batch != [] {
      var h := Handle(batch[0], Reply(replies, k));
      HeadInOrder(a, batch, b, Reply(replies, k));
      if h.completed {
        BatchInOrder(a + h.rows, batch[1..], b, replies, NextRequest(batch[0], k));
      }
      RowsRegroup(a, batch, b, replies, k);
    }
  }

  /** The counters of a whole drain. */
  lemma DrainCounters(rows: seq<Row>, cutoff: string, replies: seq<Outcome>)
    ensures var w := Drained(rows, cutoff, replies);
            && w.tally.sent == |Filter(Sent(), w.trace)|
            && w.tally.failed == |Filter(Unsent(), w.trace)|
            && (w.completed <==> forall x | x in w.trace :: x.outcome != Aborted)
            && (w.completed ==> w.tally.skipped == |Filter(GivenUp(), Batch(Evicted(rows, cutoff)))|)
  {
    BatchCounted(Batch(Evicted(rows, cutoff)), replies, 0);
  }
}
