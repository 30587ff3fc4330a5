/**
 The queue as an object whose table changes statement by statement, and what holds over every run of
 enqueues, drains and crashes: no event is lost, and why each event that left the queue left it.
 */
module WalQueues {

  import opened Wrappers
  import opened Ordering
  import opened OfflineQueue

  function Moved(done: Work, h: Work, tail: Work, rest: seq<Row>): Work {
    if h.completed then Then(Then(done, h), tail)
    else Work(done.rows + (h.rows + rest), Plus(done.tally, h.tally), done.trace + h.trace, false)
  }

  lemma ThenMoved(done: Work, h: Work, tail: Work, rest: seq<Row>, w: Work)
    requires w == if h.completed then Then(h, tail) else h.(rows := h.rows + rest)
    ensures Then(done, w) == Moved(done, h, tail, rest)
  {
    if h.completed {
      ThenAssociates(done, h, tail);
    }
  }

  lemma StepThen(done: Work, batch: seq<Row>, replies: seq<Outcome>, k: nat)
    requires batch != []
    ensures Then(done, DrainBatch(batch, replies, k))
            == Moved(done, Handle(batch[0], Reply(replies, k)), Tail(batch, replies, k), batch[1..])
  {
    Unfold(batch, replies, k);
    ThenMoved(done, Handle(batch[0], Reply(replies, k)), Tail(batch, replies, k),
              batch[1..], DrainBatch(batch, replies, k));
  }

  const NOTHING := Work([], DrainResult(0, 0, 0), [], true)

  lemma ThenNothing(w: Work)
    ensures Then(NOTHING, w) == w
    ensures w.completed ==> Then(w, NOTHING) == w
  {
    assert [] + w.rows == w.rows && w.rows + [] == w.rows;
    assert [] + w.trace == w.trace && w.trace + [] == w.trace;
  }

  /** What handling the first `i` rows of a batch comes to; an abort ends it. */
  function Sofar(batch: seq<Row>, replies: seq<Outcome>, i: nat): Work
    requires i <= |batch|
  {
    if i == 0 then NOTHING
    else
      var w := Sofar(batch, replies, i - 1);
      if w.completed then Then(w, Handle(batch[i - 1], Reply(replies, |w.trace|))) else w
  }

  function Ended(done: Work, rest: seq<Row>, tail: Work): Work {
    if done.completed then Then(done, tail) else done.(rows := done.rows + rest)
  }

  lemma EndedNext(before: Work, h: Work, tail: Work, rest: seq<Row>)
    requires before.completed
    ensures Moved(before, h, tail, rest) == Ended(Then(before, h), rest, tail)
  {
    assert before.rows + (h.rows + rest) == (before.rows + h.rows) + rest;
  }

  lemma SofarNext(batch: seq<Row>, replies: seq<Outcome>, i: nat)
    requires i < |batch| && Sofar(batch, replies, i).completed
    ensures var before, now := Sofar(batch, replies, i), Sofar(batch, replies, i + 1);
            Ended(before, batch[i..], DrainBatch(batch[i..], replies, |before.trace|))
            == Ended(now, batch[i + 1..], DrainBatch(batch[i + 1..], replies, |now.trace|))
  {
    var before := Sofar(batch, replies, i);
    var s, k := batch[i..], |before.trace|;
    assert s[0] == batch[i] && s[1..] == batch[i + 1..];
    StepThen(before, s, replies, k);
    EndedNext(before, Handle(s[0], Reply(replies, k)), Tail(s, replies, k), s[1..]);
  }

  /** The loop computes row by row what the function says of the whole batch. */
  lemma {:induction false} LoopMeetsFunction(batch: seq<Row>, replies: seq<Outcome>, i: nat)
    requires i <= |batch| && (i > 0 ==> Sofar(batch, replies, i - 1).completed)
    ensures DrainBatch(batch, replies, 0)
            == Ended(Sofar(batch, replies, i), batch[i..],
                     DrainBatch(batch[i..], replies, |Sofar(batch, replies, i).trace|))
  {
    if i == 0 {
      ThenNothing(DrainBatch(batch, replies, 0));
      assert batch[0..] == batch;
    } else {
      LoopMeetsFunction(batch, replies, i - 1);
      SofarNext(batch, replies, i - 1);
    }
  }

  lemma ThenAssociates(a: Work, b: Work, c: Work)
    ensures Then(a, Then(b, c)) == Then(Then(a, b), c)
  {
    assert a.rows + (b.rows + c.rows) == (a.rows + b.rows) + c.rows;
    assert a.trace + (b.trace + c.trace) == (a.trace + b.trace) + c.trace;
  }

  /** The row's key occurs in the table only where the row is. */
  ghost predicate OnlyAt(before: seq<Row>, row: Row, after: seq<Row>) {
    InOrder(before + [row] + after)
  }

  lemma {:induction false} HandledInOrder(before: seq<Row>, row: Row, after: seq<Row>, o: Outcome)
    requires OnlyAt(before, row, after)
    ensures InOrder(before + After(row, o) + after)
    ensures forall r | r in before :: r.key != row.key
  {
    var all, now := before + [row] + after, before + After(row, o) + after;
    forall r | r in before ensures r.key != row.key {
      var i :| 0 <= i < |before| && before[i] == r;
      assert Older(all[i], all[|before|]);
    }
    var gap := if Settles(o) then 1 else 0;
    forall i, j | 0 <= i < j < |now| ensures Older(now[i], now[j]) {
      var i2, j2 := if i < |before| then i else i + gap, if j < |before| then j else j + gap;
      assert Older(all[i2], all[j2]);
    }
  }

  lemma SplitHead(left: seq<Row>, batch: seq<Row>, i: nat, rest: seq<Row>)
    requires i < |batch|
    ensures left + (batch[i..] + rest) == left + [batch[i]] + (batch[i + 1..] + rest)
  {
    assert batch[i..] == [batch[i]] + batch[i + 1..];
  }

  lemma StartHere(batch: seq<Row>, rest: seq<Row>)
    ensures batch + rest == NOTHING.rows + (batch[0..] + rest)
  {
  }

  lemma BatchEnds(batch: seq<Row>, replies: seq<Outcome>, i: nat, done: Work, rest: seq<Row>) returns (w: Work)
    requires i <= |batch| && done == Sofar(batch, replies, i) && (i == |batch| || !done.completed)
    requires i > 0 ==> Sofar(batch, replies, i - 1).completed
    ensures w == DrainBatch(batch, replies, 0) && w.tally == done.tally && w.completed == done.completed
    ensures done.rows + (batch[i..] + rest) == w.rows + rest
  {
    w := done.(rows := done.rows + batch[i..]);
    LoopMeetsFunction(batch, replies, i);
    if done.completed {
      assert batch[i..] == [];
      ThenNothing(done);
    }
  }

  class WalQueue {
    var rows: seq<Row>
    var lastSeq: nat

    constructor ()
      ensures rows == [] && lastSeq == 0
    {
      rows, lastSeq := [], 0;
    }

    method Enqueue(endpoint: string, payload: string, createdAt: string) returns (key: nat)
      modifies this
      ensures key == lastSeq == old(lastSeq) + 1
      ensures rows == old(rows) + [Row(key, endpoint, payload, createdAt, 0)]
    {
      lastSeq := lastSeq + 1;
      key := lastSeq;
      rows := rows + [Row(key, endpoint, payload, createdAt, 0)];
    }

    /**
     One drain; no result when it was aborted half-way. Each reply is settled in the table before the
     next request goes out, so what is left is the same function of the replies either way.
     */
    method Drain(http: bool, cutoff: string, replies: seq<Outcome>)
      returns (r: Option<DrainResult>, ghost trace: seq<Exchange>)
      requires InOrder(rows)
      modifies this`rows
      ensures !http ==> r == Some(DrainResult(0, 0, 0)) && rows == old(rows) && trace == []
      ensures http ==>
                var w := Drained(old(rows), cutoff, replies);
                rows == w.rows && trace == w.trace && r == if w.completed then Some(w.tally) else None
    {
      trace := [];
      if !http {
        return Some(DrainResult(0, 0, 0)), trace;
      }
      FilterStrict(Older, Stays(cutoff), rows);
      rows := Evicted(rows, cutoff);
      var batch := Batch(rows);
      assert rows == batch + rows[|batch|..];
      ghost var w;
      r, w := PostBatch(batch, replies, rows[|batch|..]);
      trace := w.trace;
    }

    /** Posts the rows of a batch, which is the head of the table. */
    method PostBatch(batch: seq<Row>, replies: seq<Outcome>, ghost rest: seq<Row>)
      returns (r: Option<DrainResult>, ghost w: Work)
      requires rows == batch + rest && InOrder(rows)
      modifies this`rows
      ensures w == DrainBatch(batch, replies, 0)
      ensures rows == w.rows + rest && r == if w.completed then Some(w.tally) else None
    {
      var result := DrainResult(0, 0, 0);
      ghost var done := NOTHING;
      var i, k, answered := 0, 0, true;
      StartHere(batch, rest);
      while i < |batch| && answered
        invariant 0 <= i <= |batch| && k == |done.trace|
        invariant InOrder(rows) && rows == done.rows + (batch[i..] + rest)
        invariant done.tally == result && done.completed == answered
        invariant done == Sofar(batch, replies, i) && (i > 0 ==> Sofar(batch, replies, i - 1).completed)
      {
        var delta;
        answered, delta, k, done := PostNext(batch, i, replies, k, done, rest);
        result := Plus(result, delta);
        i := i + 1;
      }
      w := BatchEnds(batch, replies, i, done, rest);
      r := if answered then Some(result) else None;
    }

    method PostNext(batch: seq<Row>, i: nat, replies: seq<Outcome>, k: nat, ghost done: Work, ghost rest: seq<Row>)
      returns (answered: bool, delta: DrainResult, k2: nat, ghost now: Work)
      requires i < |batch| && done == Sofar(batch, replies, i) && k == |done.trace| && done.completed
      requires rows == done.rows + (batch[i..] + rest) && InOrder(rows)
      modifies this`rows
      ensures InOrder(rows) && now.tally == Plus(done.tally, delta) && now.completed == answered
      ensures now == Sofar(batch, replies, i + 1) && k2 == |now.trace| && rows == now.rows + (batch[i + 1..] + rest)
    {
      ghost var h := Handle(batch[i], Reply(replies, k));
      SplitHead(done.rows, batch, i, rest);
      answered, delta, k2 := Post(batch[i], replies, k, done.rows, batch[i + 1..] + rest);
      now := Then(done, h);
    }

    /** Skips a dead row; posts a live one and settles it, unless the request is aborted. */
    method Post(row: Row, replies: seq<Outcome>, k: nat, ghost before: seq<Row>, ghost after: seq<Row>)
      returns (answered: bool, delta: DrainResult, k2: nat)
      requires rows == before + [row] + after && InOrder(rows)
      modifies this`rows
      ensures var h := Handle(row, Reply(replies, k));
              && rows == before + h.rows + after && InOrder(rows)
              && answered == h.completed && delta == h.tally && k2 == NextRequest(row, k)
    {
      if !Alive(row) {
        return true, DrainResult(0, 0, 1), k;
      }
      var o := Reply(replies, k);
      if o.Aborted? {
        return false, DrainResult(0, 0, 0), k + 1;
      }
      HandledInOrder(before, row, after, o);
      if Settles(o) {
        Delete(before, row, after);
      } else {
        Bump(before, row, after);
      }
      return true, if Accepted(o) then DrainResult(1, 0, 0) else DrainResult(0, 1, 0), k + 1;
    }

    /** DELETE FROM wal_queue WHERE seq = ? */
    method Delete(ghost before: seq<Row>, row: Row, ghost after: seq<Row>)
      requires rows == before + [row] + after && forall r | r in before :: r.key != row.key
      modifies this`rows
      ensures rows == before + after
    {
      DeleteAt(before, row, after);
      rows := DeleteKey(rows, row.key);
    }

    /** UPDATE wal_queue SET attempts = attempts + 1 WHERE seq = ? */
    method Bump(ghost before: seq<Row>, row: Row, ghost after: seq<Row>)
      requires rows == before + [row] + after && forall r | r in before :: r.key != row.key
      modifies this`rows
      ensures rows == before + [row.(attempts := row.attempts + 1)] + after
    {
      BumpAt(before, row, after);
      rows := BumpKey(rows, row.key);
    }
  }
}
