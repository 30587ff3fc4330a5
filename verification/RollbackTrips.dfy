/**
 When the controller trips, in numbers, of the operations themselves: counts over what was observed
 since the last acknowledgement, with the windows, thresholds and names the design fixes. Nothing here
 refers to the evaluations or to the deques they are read from.
 */
module RollbackTrips {
  import opened Wrappers
  import opened Ordering
  import opened SlidingWindows
  import opened Triggers
  import opened Rollback
  import opened RollbackHistory

  /** The operations after the last acknowledgement that took effect. */
  function SinceAcknowledged(cooldown: real, storeOk: bool, ops: seq<Op>): seq<Op> {
    if ops == [] then []
    else
      var before, last := ops[..|ops| - 1], ops[|ops| - 1];
      if last.Acknowledge? && last.operator != "" && Run(cooldown, storeOk, before).core.state == AwaitingAck then []
      else SinceAcknowledged(cooldown, storeOk, before) + [last]
  }

  function HowMany(p: Op -> bool, ops: seq<Op>): nat {
    |Filter(p, ops)|
  }

  function Requests(from: real): Op -> bool {
    (op: Op) => op.Observe? && op.ts >= from
  }

  function Errors(from: real): Op -> bool {
    (op: Op) => op.Observe? && op.ts >= from && op.isError
  }

  function Mismatches(from: real): Op -> bool {
    (op: Op) => op.Observe? && op.ts >= from && op.isMismatch
  }

  function SlowOnes(from: real): Op -> bool {
    (op: Op) => op.Observe? && op.ts >= from && op.latencyMs >= 100.0
  }

  /** At least one request in two hundred failed in the last five minutes. */
  predicate TooManyErrors(ops: seq<Op>, now: real) {
    200 * HowMany(Errors(now - 300.0), ops) >= HowMany(Requests(now - 300.0), ops) > 0
  }

  /** At least one in two hundred differed in the last three minutes. */
  predicate TooManyMismatches(ops: seq<Op>, now: real) {
    200 * HowMany(Mismatches(now - 180.0), ops) >= HowMany(Requests(now - 180.0), ops) > 0
  }

  /** More than one in a hundred took a tenth of a second in the last five minutes. */
  predicate TooSlow(ops: seq<Op>, now: real) {
    var n := HowMany(Requests(now - 300.0), ops);
    n > 0 && HowMany(SlowOnes(now - 300.0), ops) >= n / 100 + 1
  }

  predicate DataLost(ops: seq<Op>) {
    exists i | 0 <= i < |ops| :: ops[i].Loss? && ops[i].count > 0
  }

  // ----- from operations to samples -------------------------------------------------------------

  function Heard(op: Op): seq<Seen> {
    match op
    case Observe(ts, isError, latencyMs, isMismatch) => [Request(ts, isError, latencyMs, isMismatch)]
    case Loss(count) => if count < 0 then [] else [Lost(count)]
    case _ => []
  }

  function AllHeard(ops: seq<Op>): seq<Seen> {
    if ops == [] then [] else AllHeard(ops[..|ops| - 1]) + Heard(ops[|ops| - 1])
  }

  lemma LastOp(ops: seq<Op>)
    requires ops != []
    ensures ops == ops[..|ops| - 1] + [ops[|ops| - 1]]
  {
  }

  lemma AllHeardSnoc(ops: seq<Op>, op: Op)
    ensures AllHeard(ops + [op]) == AllHeard(ops) + Heard(op)
  {
    assert (ops + [op])[..|ops|] == ops;
  }

  /** What the reference has recorded since the last acknowledgement is what these operations were. */
  lemma {:induction false} HistoryIsHeard(cooldown: real, storeOk: bool, ops: seq<Op>)
    requires RollbackHistory.TimesRise(ops)
    ensures SinceAck(SpecRun(cooldown, storeOk, ops).history) == AllHeard(SinceAcknowledged(cooldown, storeOk, ops))
  {
    if ops != [] {
      var before, last := ops[..|ops| - 1], ops[|ops| - 1];
      LastOp(ops);
      RollbackHistory.RiseAtEnd(cooldown, storeOk, before, last);
      HistoryIsHeard(cooldown, storeOk, before);
      ControllerRefinesHistory(cooldown, storeOk, before);
      var s := SpecRun(cooldown, storeOk, before);
      AllHeardSnoc(SinceAcknowledged(cooldown, storeOk, before), last);
      HistoryNext(s, cooldown, last);
    }
  }

  lemma HistoryNext(s: Spec, cooldown: real, op: Op)
    ensures SinceAck(SpecNext(s, cooldown, op).history)
            == if op.Acknowledge? && op.operator != "" && s.core.state == AwaitingAck then []
               else SinceAck(s.history) + Heard(op)
  {
    if op.Observe? {
      SinceAckSnoc(s.history, Heard(op)[0]);
    } else if op.Loss? && op.count >= 0 {
      SinceAckSnoc(s.history, Heard(op)[0]);
    } else if op.Acknowledge? {
      SinceAckSnoc(s.history, Acked);
    }
    assert SinceAck(s.history) + [] == SinceAck(s.history);
  }

  /** The number of all requests, acknowledged or not, that the gate counts. */
  lemma {:induction false} HitsAreRequests(cooldown: real, storeOk: bool, ops: seq<Op>, from: real)
    ensures |SlidingWindows.Fresh(Samples(HitMark, SpecRun(cooldown, storeOk, ops).history), from)|
            == HowMany(Requests(from), ops)
  {
    if ops != [] {
      var before, last := ops[..|ops| - 1], ops[|ops| - 1];
      var s := SpecRun(cooldown, storeOk, before);
      LastOp(ops);
      HitsAreRequests(cooldown, storeOk, before, from);
      FilterSnoc(Requests(from), before, last);
      HitNext(s, cooldown, last, from);
    }
  }

  lemma FilterSnoc<T(!new)>(p: T -> bool, s: seq<T>, x: T)
    ensures |Filter(p, s + [x])| == |Filter(p, s)| + if p(x) then 1 else 0
  {
    FilterConcat(p, s, [x]);
    assert [x][1..] == [];
  }

  lemma HitNext(s: Spec, cooldown: real, op: Op, from: real)
    ensures |SlidingWindows.Fresh(Samples(HitMark, SpecNext(s, cooldown, op).history), from)|
            == |SlidingWindows.Fresh(Samples(HitMark, s.history), from)| + if Requests(from)(op) then 1 else 0
  {
    var h, more := Samples(HitMark, s.history), SpecNext(s, cooldown, op).history;
    if more != s.history {
      var x := more[|s.history|];
      assert more == s.history + [x];
      SamplesSnoc(HitMark, s.history, x);
      if x.Request? {
        FreshSnoc(h, Sample(x.ts, 1.0), from);
      } else {
        assert h + [] == h;
      }
    }
  }

  lemma FreshSnoc(samples: seq<Sample>, x: Sample, from: real)
    ensures SlidingWindows.Fresh(samples + [x], from)
            == SlidingWindows.Fresh(samples, from) + if x.ts >= from then [x] else []
  {
    FreshConcat(samples, [x], from);
    FreshCons(x, [], from);
    assert [x] + [] == [x];
  }

  /** What a value read off a request tells, counted over the operations. */
  function Showing(value: Seen -> real, q: real -> bool, from: real): Op -> bool {
    (op: Op) => op.Observe? && op.ts >= from && q(value(Request(op.ts, op.isError, op.latencyMs, op.isMismatch)))
  }

  lemma {:induction false} SamplesShow(value: Seen -> real, q: real -> bool, ops: seq<Op>, from: real)
    ensures |Filter(q, ValuesOf(SlidingWindows.Fresh(Samples(value, AllHeard(ops)), from)))|
            == HowMany(Showing(value, q, from), ops)
  {
    if ops != [] {
      var before, last := ops[..|ops| - 1], ops[|ops| - 1];
      LastOp(ops);
      SamplesShow(value, q, before, from);
      FilterSnoc(Showing(value, q, from), before, last);
      SamplesNext(value, q, before, last, from);
    }
  }

  lemma SamplesNext(value: Seen -> real, q: real -> bool, before: seq<Op>, op: Op, from: real)
    ensures |Filter(q, ValuesOf(SlidingWindows.Fresh(Samples(value, AllHeard(before + [op])), from)))|
            == |Filter(q, ValuesOf(SlidingWindows.Fresh(Samples(value, AllHeard(before)), from)))|
               + if Showing(value, q, from)(op) then 1 else 0
  {
    var heard := AllHeard(before);
    var samples := Samples(value, heard);
    AllHeardSnoc(before, op);
    if Heard(op) == [] {
      assert heard + [] == heard;
    } else {
      var x := Heard(op)[0];
      assert Heard(op) == [x];
      SamplesSnoc(value, heard, x);
      if x.Request? {
        var sample := Sample(x.ts, value(x));
        var kept := SlidingWindows.Fresh(samples, from);
        FreshSnoc(samples, sample, from);
        if x.ts >= from {
          assert ValuesOf(kept + [sample]) == ValuesOf(kept) + [value(x)];
          FilterSnoc(q, ValuesOf(kept), value(x));
        } else {
          assert kept + [] == kept;
        }
      } else {
        assert samples + [] == samples;
      }
    }
  }

  function Is1(): real -> bool {
    (v: real) => v == 1.0
  }

  function Slow(): real -> bool {
    (v: real) => v >= 100.0
  }

  function Anything(): real -> bool {
    (v: real) => true
  }

  lemma HowManyAlike(p: Op -> bool, q: Op -> bool, ops: seq<Op>)
    requires forall op :: p(op) == q(op)
    ensures HowMany(p, ops) == HowMany(q, ops)
  {
    FilterAgree(p, q, ops);
  }

  lemma {:induction false} MarksAreBinary(value: Seen -> real, history: seq<Seen>, from: real)
    requires forall x: Seen :: value(x) == 0.0 || value(x) == 1.0
    ensures forall s | s in Samples(value, history) :: s.value == 0.0 || s.value == 1.0
    ensures Binary(ValuesOf(SlidingWindows.Fresh(Samples(value, history), from)))
  {
    if history != [] {
      MarksAreBinary(value, history[..|history| - 1], from);
    }
    var kept := SlidingWindows.Fresh(Samples(value, history), from);
    forall i | 0 <= i < |kept| ensures kept[i].value == 0.0 || kept[i].value == 1.0 {
      assert kept[i] in kept;
    }
  }

  lemma RateIff(id: string, window: real, values: seq<real>, marked: nat, all: nat)
    requires Binary(values) && Marks(values) == marked && |values| == all
    ensures RateEvaluation(id, window, values).verdict == Breach <==> 200 * marked >= all > 0
  {
    RateBreachIff(id, window, values);
  }

  lemma MarkCount(value: Seen -> real, ops: seq<Op>, from: real, marked: Op -> bool)
    requires forall op: Op ::
               marked(op) <==> op.Observe? && op.ts >= from
                               && value(Request(op.ts, op.isError, op.latencyMs, op.isMismatch)) == 1.0
    ensures Marks(ValuesOf(SlidingWindows.Fresh(Samples(value, AllHeard(ops)), from))) == HowMany(marked, ops)
  {
    SamplesShow(value, Is1(), ops, from);
    HowManyAlike(Showing(value, Is1(), from), marked, ops);
    FilterAgree(Is1(), (v: real) => v == 1.0, ValuesOf(SlidingWindows.Fresh(Samples(value, AllHeard(ops)), from)));
  }

  lemma ValueCount(value: Seen -> real, ops: seq<Op>, from: real)
    ensures |ValuesOf(SlidingWindows.Fresh(Samples(value, AllHeard(ops)), from))| == HowMany(Requests(from), ops)
  {
    var values := ValuesOf(SlidingWindows.Fresh(Samples(value, AllHeard(ops)), from));
    SamplesShow(value, Anything(), ops, from);
    FilterAll(Anything(), values);
    HowManyAlike(Showing(value, Anything(), from), Requests(from), ops);
  }

  lemma ErrorsBreach(ops: seq<Op>, now: real)
    ensures var values := ValuesOf(Within(ErrorMark, AllHeard(ops), WINDOW_T1, now));
            RateEvaluation(T1_ID, WINDOW_T1, values).verdict == Breach <==> TooManyErrors(ops, now)
  {
    var from := now - 300.0;
    MarksAreBinary(ErrorMark, AllHeard(ops), from);
    MarkCount(ErrorMark, ops, from, Errors(from));
    ValueCount(ErrorMark, ops, from);
    RateIff(T1_ID, WINDOW_T1, ValuesOf(Within(ErrorMark, AllHeard(ops), 300.0, now)),
            HowMany(Errors(from), ops), HowMany(Requests(from), ops));
  }

  lemma MismatchesBreach(ops: seq<Op>, now: real)
    ensures var values := ValuesOf(Within(MismatchMark, AllHeard(ops), WINDOW_T2, now));
            RateEvaluation(T2_ID, WINDOW_T2, values).verdict == Breach <==> TooManyMismatches(ops, now)
  {
    var from := now - 180.0;
    MarksAreBinary(MismatchMark, AllHeard(ops), from);
    MarkCount(MismatchMark, ops, from, Mismatches(from));
    ValueCount(MismatchMark, ops, from);
    RateIff(T2_ID, WINDOW_T2, ValuesOf(Within(MismatchMark, AllHeard(ops), 180.0, now)),
            HowMany(Mismatches(from), ops), HowMany(Requests(from), ops));
  }

  lemma SlowCount(ops: seq<Op>, from: real)
    ensures AtLeast(100.0, ValuesOf(SlidingWindows.Fresh(Samples(LatencyOf, AllHeard(ops)), from)))
            == HowMany(SlowOnes(from), ops)
  {
    var values := ValuesOf(SlidingWindows.Fresh(Samples(LatencyOf, AllHeard(ops)), from));
    var p, q := Showing(LatencyOf, Slow(), from), SlowOnes(from);
    SamplesShow(LatencyOf, Slow(), ops, from);
    forall op: Op ensures p(op) == q(op) {
      assert op.Observe? ==> LatencyOf(Request(op.ts, op.isError, op.latencyMs, op.isMismatch)) == op.latencyMs;
    }
    HowManyAlike(p, q, ops);
    FilterAgree(Slow(), (v: real) => v >= 100.0, values);
  }

  lemma SlowBreach(ops: seq<Op>, now: real)
    ensures var values := ValuesOf(Within(LatencyOf, AllHeard(ops), WINDOW_T3, now));
            P99Evaluation(values).verdict == Breach <==> TooSlow(ops, now)
  {
    P99BreachIff(ValuesOf(Within(LatencyOf, AllHeard(ops), 300.0, now)));
    SlowCount(ops, now - 300.0);
    ValueCount(LatencyOf, ops, now - 300.0);
  }

  lemma LossNext(before: seq<Op>, op: Op)
    ensures Losses(AllHeard(before + [op]))
            == Losses(AllHeard(before)) + if op.Loss? && op.count > 0 then op.count else 0
  {
    AllHeardSnoc(before, op);
    assert AllHeard(before) + [] == AllHeard(before);
    if Heard(op) != [] {
      assert Heard(op) == [Heard(op)[0]];
      LossesSnoc(AllHeard(before), Heard(op)[0]);
    }
  }

  lemma LostNext(before: seq<Op>, op: Op)
    ensures DataLost(before + [op]) <==> DataLost(before) || (op.Loss? && op.count > 0)
  {
    var ops := before + [op];
    assert ops[|before|] == op;
    if DataLost(before) {
      var i :| 0 <= i < |before| && before[i].Loss? && before[i].count > 0;
      assert ops[i] == before[i];
    }
  }

  lemma {:induction false} LossesCount(ops: seq<Op>)
    ensures Losses(AllHeard(ops)) > 0 <==> DataLost(ops)
  {
    if ops != [] {
      LastOp(ops);
      LossesCount(ops[..|ops| - 1]);
      LossNext(ops[..|ops| - 1], ops[|ops| - 1]);
      LostNext(ops[..|ops| - 1], ops[|ops| - 1]);
    }
  }

  // ----- the theorem ----------------------------------------------------------------------------

  lemma BreachesAre(cooldown: real, storeOk: bool, ops: seq<Op>, now: real)
    requires RollbackHistory.TimesRise(ops)
    ensures var raw := SpecEvaluations(SpecRun(cooldown, storeOk, ops).history, now);
            var recent := SinceAcknowledged(cooldown, storeOk, ops);
            && |raw| == 4
            && raw[0].triggerId == "T1-error-rate" && (raw[0].verdict == Breach <==> TooManyErrors(recent, now))
            && raw[1].triggerId == "T2-discrepancy-rate"
            && (raw[1].verdict == Breach <==> TooManyMismatches(recent, now))
            && raw[2].triggerId == "T3-p99-latency" && (raw[2].verdict == Breach <==> TooSlow(recent, now))
            && raw[3].triggerId == "T4-data-loss" && (raw[3].verdict == Breach <==> DataLost(recent))
  {
    var recent := SinceAcknowledged(cooldown, storeOk, ops);
    HistoryIsHeard(cooldown, storeOk, ops);
    ErrorsBreach(recent, now);
    MismatchesBreach(recent, now);
    SlowBreach(recent, now);
    LossesCount(recent);
  }

  /** The first of four evaluations that breaches. */
  ghost predicate Names(raw: seq<Evaluation>, name: Option<string>) {
    exists i :: 0 <= i < |raw| && name == Some(raw[i].triggerId) && raw[i].verdict == Breach
                && forall k | 0 <= k < i :: raw[k].verdict != Breach
  }

  lemma NamesIs(raw: seq<Evaluation>, name: Option<string>)
    requires |raw| == 4 && Names(raw, name)
    ensures name == Some(if raw[0].verdict == Breach then raw[0].triggerId
                       else if raw[1].verdict == Breach then raw[1].triggerId
                       else if raw[2].verdict == Breach then raw[2].triggerId else raw[3].triggerId)
  {
  }

  lemma SomeBreach(raw: seq<Evaluation>)
    requires |raw| == 4
    ensures (exists e :: e in raw && e.verdict == Breach)
            <==> || raw[0].verdict == Breach || raw[1].verdict == Breach
                 || raw[2].verdict == Breach || raw[3].verdict == Breach
  {
    assert raw[0] in raw && raw[1] in raw && raw[2] in raw && raw[3] in raw;
  }

  /**
   From running, an evaluation trips exactly when at least fifty requests fall within five minutes and
   one of the four conditions holds of what was observed since the last acknowledgement; it names the
   first of them that holds, and the time. Otherwise nothing changes.
   */
  lemma TripsIff(cooldown: real, storeOk: bool, ops: seq<Op>, now: real, ok: bool)
    requires RollbackHistory.TimesRise(ops + [Evaluate(now, ok)]) && Run(cooldown, storeOk, ops).core.state == Running
    ensures var after := Run(cooldown, storeOk, ops + [Evaluate(now, ok)]).core;
            var recent := SinceAcknowledged(cooldown, storeOk, ops);
            var t1, t2 := TooManyErrors(recent, now), TooManyMismatches(recent, now);
            var t3, t4 := TooSlow(recent, now), DataLost(recent);
            if HowMany(Requests(now - 300.0), ops) >= 50 && (t1 || t2 || t3 || t4)
            then after.state == Tripped && after.trippedAt == Some(now)
                 && after.trippedBy == Some(if t1 then "T1-error-rate" else if t2 then "T2-discrepancy-rate"
                                            else if t3 then "T3-p99-latency" else "T4-data-loss")
            else after.state == Running && after.trippedAt == None && after.trippedBy == None
  {
    var h := SpecRun(cooldown, storeOk, ops).history;
    TripNeedsHitsAndNamesFirst(cooldown, storeOk, ops, now, ok);
    TrippedFieldsExact(cooldown, storeOk, ops + [Evaluate(now, ok)]);
    HitsAreRequests(cooldown, storeOk, ops, now - 300.0);
    assert RollbackHistory.TimesRise(ops) by {
      RollbackHistory.RiseAtEnd(cooldown, storeOk, ops, Evaluate(now, ok));
    }
    BreachesAre(cooldown, storeOk, ops, now);
    var raw, after := SpecEvaluations(h, now), Run(cooldown, storeOk, ops + [Evaluate(now, ok)]).core;
    SomeBreach(raw);
    if after.state == Tripped {
      assert Names(raw, after.trippedBy);
      NamesIs(raw, after.trippedBy);
    }
  }

  /** Insufficient data below fifty requests, otherwise a breach or none. */
  predicate Shows(e: Evaluation, id: string, enough: bool, breach: bool) {
    && e.triggerId == id
    && e.verdict == (if !enough then InsufficientData else if breach then Breach else Pass)
  }

  lemma JudgedVerdicts(core: Core, now: real, cooldown: real, gate: Evaluation, raw: seq<Evaluation>)
    ensures var after := Judge(core, now, cooldown, gate, raw);
            && after.gate == gate && |after.evaluations| == |raw|
            && forall i | 0 <= i < |raw| ::
                 after.evaluations[i] == (if gate.verdict == InsufficientData then raw[i].(verdict := InsufficientData)
                                          else raw[i])
  {
  }

  lemma RawVerdicts(history: seq<Seen>, now: real)
    ensures |SpecEvaluations(history, now)| == 4
    ensures forall i | 0 <= i < 4 :: SpecEvaluations(history, now)[i].verdict in {Breach, Pass}
  {
  }

  /**
   Whatever the state, an evaluation leaves the four verdicts of that moment, in order, and that of the
   gate: below fifty requests in five minutes all say that there is too little to go by.
   */
  lemma VerdictsShown(cooldown: real, storeOk: bool, ops: seq<Op>, now: real, ok: bool)
    requires RollbackHistory.TimesRise(ops + [Evaluate(now, ok)])
    ensures var core := Run(cooldown, storeOk, ops + [Evaluate(now, ok)]).core;
            var recent := SinceAcknowledged(cooldown, storeOk, ops);
            var enough := HowMany(Requests(now - 300.0), ops) >= 50;
            && |core.evaluations| == 4
            && Shows(core.evaluations[0], "T1-error-rate", enough, TooManyErrors(recent, now))
            && Shows(core.evaluations[1], "T2-discrepancy-rate", enough, TooManyMismatches(recent, now))
            && Shows(core.evaluations[2], "T3-p99-latency", enough, TooSlow(recent, now))
            && Shows(core.evaluations[3], "T4-data-loss", enough, DataLost(recent))
            && Shows(core.gate, "T5-min-hits-gate", enough, false)
  {
    var s := SpecRun(cooldown, storeOk, ops);
    assert (ops + [Evaluate(now, ok)])[..|ops|] == ops;
    ControllerRefinesHistory(cooldown, storeOk, ops + [Evaluate(now, ok)]);
    RollbackHistory.RiseAtEnd(cooldown, storeOk, ops, Evaluate(now, ok));
    HitsAreRequests(cooldown, storeOk, ops, now - 300.0);
    BreachesAre(cooldown, storeOk, ops, now);
    RawVerdicts(s.history, now);
    JudgedVerdicts(s.core, now, cooldown, SpecGate(s.history, now), SpecEvaluations(s.history, now));
  }

  /** A tripped controller waits for an acknowledgement from half an hour after its trip on, or whatever was set. */
  lemma WaitsIff(cooldown: real, storeOk: bool, ops: seq<Op>, now: real, ok: bool)
    requires Run(cooldown, storeOk, ops).core.state != Running
    ensures var before := Run(cooldown, storeOk, ops).core;
            var after := Run(cooldown, storeOk, ops + [Evaluate(now, ok)]).core;
            && before.trippedAt.Some? && after.trippedAt == before.trippedAt && after.trippedBy == before.trippedBy
            && after.state == (if before.state == AwaitingAck || now - before.trippedAt.value >= cooldown
                               then AwaitingAck else Tripped)
            && (cooldown == COOLDOWN_SECONDS && before.state == Tripped
                ==> (after.state == AwaitingAck <==> now >= before.trippedAt.value + 1800.0))
  {
    assert (ops + [Evaluate(now, ok)])[..|ops|] == ops;
    TrippedFieldsExact(cooldown, storeOk, ops);
  }

  /** An acknowledgement by a named operator ends the wait; any other does nothing. */
  lemma AcknowledgesIff(cooldown: real, storeOk: bool, ops: seq<Op>, operator: string, timestamp: string, ok: bool)
    ensures var before := Run(cooldown, storeOk, ops);
            var after := Run(cooldown, storeOk, ops + [Acknowledge(operator, timestamp, ok)]);
            if operator != "" && before.core.state == AwaitingAck
            then after.core.state == Running && after.core.trippedAt == None && after.core.trippedBy == None
                 && after.core.lastAck == Some(Ack(operator, timestamp)) && after.hits == before.hits
            else after == before
  {
    var op := Acknowledge(operator, timestamp, ok);
    assert (ops + [op])[..|ops|] == ops;
  }
}
