/**
 What the rollback controller promises over whole runs.  The reference forgets nothing: it keeps
 every observation ever made and recomputes each trigger by filtering that history.  The controller
 with its evicting deques refines it, and the promises about tripping are proved of every run.
 */
module RollbackHistory {
  import opened Wrappers
  import opened SlidingWindows
  import opened Triggers
  import opened Rollback

  datatype Seen = Request(ts: real, isError: bool, latencyMs: real, isMismatch: bool) | Lost(count: nat) | Acked

  /** The reference: the whole history, the state machine, the durable row. */
  datatype Spec = Spec(history: seq<Seen>, core: Core, row: Option<StateRow>)

  /** The observations after the last acknowledgement. */
  function SinceAck(history: seq<Seen>): seq<Seen> {
    if history == [] || history[|history| - 1].Acked? then []
    else SinceAck(history[..|history| - 1]) + [history[|history| - 1]]
  }

  /** One sample per request in the history, carrying what `value` reads off it. */
  function Samples(value: Seen -> real, history: seq<Seen>): seq<Sample> {
    if history == [] then []
    else
      var last := history[|history| - 1];
      Samples(value, history[..|history| - 1]) + (if last.Request? then [Sample(last.ts, value(last))] else [])
  }

  function Losses(history: seq<Seen>): nat {
    if history == [] then 0
    else
      var last := history[|history| - 1];
      Losses(history[..|history| - 1]) + (if last.Lost? then last.count else 0)
  }

  function ErrorMark(x: Seen): real { if x.Request? then Mark(x.isError) else 0.0 }
  function MismatchMark(x: Seen): real { if x.Request? then Mark(x.isMismatch) else 0.0 }
  function LatencyOf(x: Seen): real { if x.Request? then x.latencyMs else 0.0 }
  function HitMark(x: Seen): real { 1.0 }

  /** The in-window samples of a history at time `now`. */
  function Within(value: Seen -> real, history: seq<Seen>, window: real, now: real): seq<Sample> {
    SlidingWindows.Fresh(Samples(value, history), now - window)
  }

  function SpecEvaluations(history: seq<Seen>, now: real): seq<Evaluation> {
    var recent := SinceAck(history);
    Evaluations(Within(ErrorMark, recent, WINDOW_T1, now), Within(MismatchMark, recent, WINDOW_T2, now),
                Within(LatencyOf, recent, WINDOW_T3, now), Losses(recent))
  }

  function SpecGate(history: seq<Seen>, now: real): Evaluation {
    GateEvaluation(|Within(HitMark, history, WINDOW_T5, now)|)
  }

  function SpecNext(s: Spec, cooldown: real, op: Op): Spec {
    match op
    case Observe(ts, isError, latencyMs, isMismatch) =>
      s.(history := s.history + [Request(ts, isError, latencyMs, isMismatch)])
    case Loss(count) => if count < 0 then s else s.(history := s.history + [Lost(count)])
    case Evaluate(now, ok) =>
      var core := Judge(s.core, now, cooldown, SpecGate(s.history, now), SpecEvaluations(s.history, now));
      s.(core := core, row := Mirrored(s.row, s.core.state, core, ok))
    case Acknowledge(operator, timestamp, ok) =>
      if MayAcknowledge(s.core, operator) then
        s.(history := s.history + [Acked], core := Acknowledged(s.core, operator, timestamp),
           row := Persist(s.row, Running, None, ok))
      else s
  }

  function SpecStarted(storeOk: bool): Spec {
    Spec([], Started(storeOk).core, Started(storeOk).row)
  }

  function Run(cooldown: real, storeOk: bool, ops: seq<Op>): Controller {
    if ops == [] then Started(storeOk)
    else Next(Run(cooldown, storeOk, ops[..|ops| - 1]), cooldown, ops[|ops| - 1])
  }

  function SpecRun(cooldown: real, storeOk: bool, ops: seq<Op>): Spec {
    if ops == [] then SpecStarted(storeOk)
    else SpecNext(SpecRun(cooldown, storeOk, ops[..|ops| - 1]), cooldown, ops[|ops| - 1])
  }

  // ----- times ------------------------------------------------------------------------------------------

  /** Observation times rise, and so do evaluation times. */
  predicate TimesRise(ops: seq<Op>) {
    forall i, j | 0 <= i < j < |ops| ::
      && (ops[i].Observe? && ops[j].Observe? ==> ops[i].ts <= ops[j].ts)
      && (ops[i].Evaluate? && ops[j].Evaluate? ==> ops[i].now <= ops[j].now)
  }

  function LastEvaluation(ops: seq<Op>): Option<real> {
    if ops == [] then None
    else if ops[|ops| - 1].Evaluate? then Some(ops[|ops| - 1].now)
    else LastEvaluation(ops[..|ops| - 1])
  }

  lemma {:induction false} LastEvaluationMember(ops: seq<Op>)
    ensures LastEvaluation(ops).Some?
            ==> exists i :: 0 <= i < |ops| && ops[i].Evaluate? && ops[i].now == LastEvaluation(ops).value
  {
    if ops != [] && !ops[|ops| - 1].Evaluate? {
      LastEvaluationMember(ops[..|ops| - 1]);
    }
  }

  lemma {:induction false} HistoryMembers(cooldown: real, storeOk: bool, ops: seq<Op>)
    ensures forall x | x in SpecRun(cooldown, storeOk, ops).history && x.Request? ::
              exists i :: 0 <= i < |ops| && ops[i].Observe? && ops[i].ts == x.ts
  {
    if ops != [] {
      var before := ops[..|ops| - 1];
      HistoryMembers(cooldown, storeOk, before);
      var earlier := SpecRun(cooldown, storeOk, before).history;
      forall x | x in SpecRun(cooldown, storeOk, ops).history && x.Request?
        ensures exists i :: 0 <= i < |ops| && ops[i].Observe? && ops[i].ts == x.ts
      {
        if x in earlier {
          var i :| 0 <= i < |before| && before[i].Observe? && before[i].ts == x.ts;
          assert ops[i] == before[i];
        } else {
          assert ops[|ops| - 1].Observe? && ops[|ops| - 1].ts == x.ts;
        }
      }
    }
  }

  lemma RiseAtEnd(cooldown: real, storeOk: bool, before: seq<Op>, last: Op)
    requires TimesRise(before + [last])
    ensures TimesRise(before)
    ensures last.Observe?
            ==> forall x | x in SpecRun(cooldown, storeOk, before).history && x.Request? :: x.ts <= last.ts
    ensures last.Evaluate? && LastEvaluation(before).Some? ==> LastEvaluation(before).value <= last.now
  {
    var all := before + [last];
    assert forall i | 0 <= i < |before| :: before[i] == all[i];
    assert all[|before|] == last;
    HistoryMembers(cooldown, storeOk, before);
    LastEvaluationMember(before);
  }

  // ----- refinement -----------------------------------------------------------------------------------

  lemma SamplesSnoc(value: Seen -> real, history: seq<Seen>, x: Seen)
    ensures Samples(value, history + [x]) ==
            Samples(value, history) + (if x.Request? then [Sample(x.ts, value(x))] else [])
  {
    assert (history + [x])[..|history|] == history;
  }

  lemma SinceAckSnoc(history: seq<Seen>, x: Seen)
    ensures SinceAck(history + [x]) == if x.Acked? then [] else SinceAck(history) + [x]
  {
    assert (history + [x])[..|history|] == history;
  }

  lemma LossesSnoc(history: seq<Seen>, x: Seen)
    ensures Losses(history + [x]) == Losses(history) + (if x.Lost? then x.count else 0)
  {
    assert (history + [x])[..|history|] == history;
  }

  lemma {:induction false} SinceAckMembers(history: seq<Seen>)
    ensures forall x | x in SinceAck(history) :: x in history
  {
    if history != [] {
      SinceAckMembers(history[..|history| - 1]);
    }
  }

  lemma {:induction false} SamplesMembers(value: Seen -> real, history: seq<Seen>)
    ensures forall s | s in Samples(value, history) :: exists x :: x in history && x.Request? && x.ts == s.ts
  {
    if history != [] {
      var before, last := history[..|history| - 1], history[|history| - 1];
      SamplesMembers(value, before);
      assert history == before + [last];
      forall s | s in Samples(value, history) ensures exists x :: x in history && x.Request? && x.ts == s.ts {
        if s in Samples(value, before) {
          var x :| x in before && x.Request? && x.ts == s.ts;
          assert x in history;
        } else {
          assert last in history && last.Request? && last.ts == s.ts;
        }
      }
    }
  }

  /** One deque against the requests it should be tracking. */
  ghost predicate Follows(data: seq<Sample>, value: Seen -> real, history: seq<Seen>, window: real,
                          last: Option<real>) {
    forall samples | samples == Samples(value, history) :: Tracks(data, samples, window, last)
  }

  lemma FollowsRequest(data: seq<Sample>, value: Seen -> real, history: seq<Seen>, window: real, last: Option<real>,
                       x: Seen)
    requires Follows(data, value, history, window, last) && x.Request?
    requires forall y | y in history && y.Request? :: y.ts <= x.ts
    ensures Follows(data + [Sample(x.ts, value(x))], value, history + [x], window, last)
  {
    SamplesSnoc(value, history, x);
    SamplesMembers(value, history);
    TracksAdd(data, Samples(value, history), window, last, Sample(x.ts, value(x)));
  }

  lemma FollowsOther(data: seq<Sample>, value: Seen -> real, history: seq<Seen>, window: real, last: Option<real>,
                     x: Seen)
    requires Follows(data, value, history, window, last) && !x.Request?
    ensures Follows(data, value, history + [x], window, last)
  {
    SamplesSnoc(value, history, x);
    assert Samples(value, history) + [] == Samples(value, history);
  }

  lemma FollowsRead(data: seq<Sample>, value: Seen -> real, history: seq<Seen>, window: real, last: Option<real>,
                    now: real)
    requires Follows(data, value, history, window, last)
    requires last.Some? ==> last.value <= now
    ensures Evict(data, now - window) == Within(value, history, window, now)
    ensures Follows(Evict(data, now - window), value, history, window, Some(now))
  {
    TracksFresh(data, Samples(value, history), window, last, now);
    TracksRead(data, Samples(value, history), window, last, now);
  }

  ghost predicate Refines(c: Controller, s: Spec, last: Option<real>) {
    var recent := SinceAck(s.history);
    && Follows(c.errors, ErrorMark, recent, WINDOW_T1, last)
    && Follows(c.mismatches, MismatchMark, recent, WINDOW_T2, last)
    && Follows(c.latencies, LatencyOf, recent, WINDOW_T3, last)
    && Follows(c.hits, HitMark, s.history, WINDOW_T5, last)
    && c.losses == Losses(recent)
    && c.core == s.core
    && c.row == s.row
  }

  lemma RefinesObserve(c: Controller, s: Spec, last: Option<real>, cooldown: real, op: Op)
    requires Refines(c, s, last) && op.Observe?
    requires forall x | x in s.history && x.Request? :: x.ts <= op.ts
    ensures Refines(Next(c, cooldown, op), SpecNext(s, cooldown, op), last)
  {
    var x := Request(op.ts, op.isError, op.latencyMs, op.isMismatch);
    var recent := SinceAck(s.history);
    SinceAckSnoc(s.history, x);
    SinceAckMembers(s.history);
    LossesSnoc(recent, x);
    FollowsRequest(c.errors, ErrorMark, recent, WINDOW_T1, last, x);
    FollowsRequest(c.mismatches, MismatchMark, recent, WINDOW_T2, last, x);
    FollowsRequest(c.latencies, LatencyOf, recent, WINDOW_T3, last, x);
    FollowsRequest(c.hits, HitMark, s.history, WINDOW_T5, last, x);
  }

  /** A recorded loss is no request: the four windows do not move. */
  lemma WindowsIgnoreLoss(c: Controller, s: Spec, last: Option<real>, x: Seen)
    requires Refines(c, s, last) && x.Lost?
    ensures var recent := SinceAck(s.history) + [x];
            && Follows(c.errors, ErrorMark, recent, WINDOW_T1, last)
            && Follows(c.mismatches, MismatchMark, recent, WINDOW_T2, last)
            && Follows(c.latencies, LatencyOf, recent, WINDOW_T3, last)
            && Follows(c.hits, HitMark, s.history + [x], WINDOW_T5, last)
  {
    var recent := SinceAck(s.history);
    FollowsOther(c.errors, ErrorMark, recent, WINDOW_T1, last, x);
    FollowsOther(c.mismatches, MismatchMark, recent, WINDOW_T2, last, x);
    FollowsOther(c.latencies, LatencyOf, recent, WINDOW_T3, last, x);
    FollowsOther(c.hits, HitMark, s.history, WINDOW_T5, last, x);
  }

  lemma RefinesLoss(c: Controller, s: Spec, last: Option<real>, cooldown: real, op: Op)
    requires Refines(c, s, last) && op.Loss?
    ensures Refines(Next(c, cooldown, op), SpecNext(s, cooldown, op), last)
  {
    if op.count >= 0 {
      var x := Lost(op.count);
      SinceAckSnoc(s.history, x);
      LossesSnoc(SinceAck(s.history), x);
      WindowsIgnoreLoss(c, s, last, x);
    }
  }

  /** Sweeping the deques leaves exactly what filtering the history keeps. */
  lemma SweptFollows(c: Controller, s: Spec, last: Option<real>, now: real)
    requires Refines(c, s, last)
    requires last.Some? ==> last.value <= now
    ensures var t := Swept(c, now);
            var recent := SinceAck(s.history);
            && t.errors == Within(ErrorMark, recent, WINDOW_T1, now)
            && t.mismatches == Within(MismatchMark, recent, WINDOW_T2, now)
            && t.latencies == Within(LatencyOf, recent, WINDOW_T3, now)
            && t.hits == Within(HitMark, s.history, WINDOW_T5, now)
            && Refines(t, s, Some(now))
  {
    var recent := SinceAck(s.history);
    FollowsRead(c.errors, ErrorMark, recent, WINDOW_T1, last, now);
    FollowsRead(c.mismatches, MismatchMark, recent, WINDOW_T2, last, now);
    FollowsRead(c.latencies, LatencyOf, recent, WINDOW_T3, last, now);
    FollowsRead(c.hits, HitMark, s.history, WINDOW_T5, last, now);
  }

  lemma RefinesEvaluate(c: Controller, s: Spec, last: Option<real>, cooldown: real, op: Op)
    requires Refines(c, s, last) && op.Evaluate?
    requires last.Some? ==> last.value <= op.now
    ensures Refines(Next(c, cooldown, op), SpecNext(s, cooldown, op), Some(op.now))
  {
    SweptFollows(c, s, last, op.now);
    var t := Swept(c, op.now);
    assert Evaluations(t.errors, t.mismatches, t.latencies, t.losses) == SpecEvaluations(s.history, op.now);
    assert GateEvaluation(|t.hits|) == SpecGate(s.history, op.now);
  }

  lemma RefinesAcknowledge(c: Controller, s: Spec, last: Option<real>, cooldown: real, op: Op)
    requires Refines(c, s, last) && op.Acknowledge?
    ensures Refines(Next(c, cooldown, op), SpecNext(s, cooldown, op), last)
  {
    if MayAcknowledge(s.core, op.operator) {
      SinceAckSnoc(s.history, Acked);
      FollowsOther(c.hits, HitMark, s.history, WINDOW_T5, last, Acked);
    }
  }

  lemma {:induction false} RunRefines(cooldown: real, storeOk: bool, ops: seq<Op>)
    requires TimesRise(ops)
    ensures Refines(Run(cooldown, storeOk, ops), SpecRun(cooldown, storeOk, ops), LastEvaluation(ops))
  {
    if ops != [] {
      var before, last := ops[..|ops| - 1], ops[|ops| - 1];
      assert ops == before + [last];
      RiseAtEnd(cooldown, storeOk, before, last);
      RunRefines(cooldown, storeOk, before);
      var c, s, t := Run(cooldown, storeOk, before), SpecRun(cooldown, storeOk, before), LastEvaluation(before);
      match last {
        case Observe(_, _, _, _) => RefinesObserve(c, s, t, cooldown, last);
        case Loss(_) => RefinesLoss(c, s, t, cooldown, last);
        case Evaluate(_, _) => RefinesEvaluate(c, s, t, cooldown, last);
        case Acknowledge(_, _, _) => RefinesAcknowledge(c, s, t, cooldown, last);
      }
    }
  }

  /**
   The windowed controller is indistinguishable from the one that keeps everything: after every run
   with rising times, state, verdicts, `tripped_by` and the durable row are what filtering the whole
   history gives.
   */
  lemma ControllerRefinesHistory(cooldown: real, storeOk: bool, ops: seq<Op>)
    requires TimesRise(ops)
    ensures Run(cooldown, storeOk, ops).core == SpecRun(cooldown, storeOk, ops).core
    ensures Run(cooldown, storeOk, ops).row == SpecRun(cooldown, storeOk, ops).row
  {
    RunRefines(cooldown, storeOk, ops);
  }

  // ----- promises about tripping ---------------------------------------------------------------------

  lemma {:induction false} FirstBreachIs(evaluations: seq<Evaluation>)
    ensures FirstBreach(evaluations).None? <==> forall e | e in evaluations :: e.verdict != Breach
    ensures FirstBreach(evaluations).Some? ==>
              exists i :: 0 <= i < |evaluations| && evaluations[i] == FirstBreach(evaluations).value &&
                          evaluations[i].verdict == Breach &&
                          forall k | 0 <= k < i :: evaluations[k].verdict != Breach
  {
    if evaluations != [] {
      var rest := evaluations[1..];
      assert evaluations == [evaluations[0]] + rest;
      FirstBreachIs(rest);
      if evaluations[0].verdict != Breach && FirstBreach(rest).Some? {
        var i :| 0 <= i < |rest| && rest[i] == FirstBreach(rest).value && rest[i].verdict == Breach &&
                 forall k | 0 <= k < i :: rest[k].verdict != Breach;
        assert evaluations[i + 1] == rest[i];
        forall k | 0 <= k < i + 1 ensures evaluations[k].verdict != Breach {
          if k > 0 {
            assert evaluations[k] == rest[k - 1];
          }
        }
      }
    }
  }

  /** One judgement from running: gated below fifty hits, otherwise the first breach trips it. */
  lemma JudgeTrips(core: Core, now: real, cooldown: real, hits: nat, raw: seq<Evaluation>)
    requires core.state == Running
    ensures var after := Judge(core, now, cooldown, GateEvaluation(hits), raw);
            && (after.state == Running || after.state == Tripped)
            && (after.state == Tripped <==> hits >= MIN_HITS && exists e :: e in raw && e.verdict == Breach)
            && (after.state == Tripped ==>
                  after.trippedAt == Some(now) &&
                  exists i :: 0 <= i < |raw| && after.trippedBy == Some(raw[i].triggerId) && raw[i].verdict == Breach &&
                              forall k | 0 <= k < i :: raw[k].verdict != Breach)
  {
    FirstBreachIs(raw);
    FirstBreachIs(Gated(raw, true));
    assert forall e | e in Gated(raw, true) :: e.verdict == InsufficientData;
  }

  lemma SpecEvaluates(cooldown: real, storeOk: bool, ops: seq<Op>, now: real, ok: bool)
    requires TimesRise(ops + [Evaluate(now, ok)])
    ensures Run(cooldown, storeOk, ops).core == SpecRun(cooldown, storeOk, ops).core
    ensures var s := SpecRun(cooldown, storeOk, ops);
            Run(cooldown, storeOk, ops + [Evaluate(now, ok)]).core
            == Judge(s.core, now, cooldown, SpecGate(s.history, now), SpecEvaluations(s.history, now))
  {
    var all := ops + [Evaluate(now, ok)];
    assert all[..|ops|] == ops && all[|ops|] == Evaluate(now, ok);
    ControllerRefinesHistory(cooldown, storeOk, all);
    RiseAtEnd(cooldown, storeOk, ops, Evaluate(now, ok));
    ControllerRefinesHistory(cooldown, storeOk, ops);
  }

  /**
   An evaluation that leaves running does so to tripped, saw at least fifty hits in the last 300
   seconds, and names the first of T1 to T4 that the history says is breaching; and if the gate is
   open and some trigger breaches, it does leave running.
   */
  lemma TripNeedsHitsAndNamesFirst(cooldown: real, storeOk: bool, ops: seq<Op>, now: real, ok: bool)
    requires TimesRise(ops + [Evaluate(now, ok)])
    requires Run(cooldown, storeOk, ops).core.state == Running
    ensures var h := SpecRun(cooldown, storeOk, ops).history;
            var after := Run(cooldown, storeOk, ops + [Evaluate(now, ok)]).core;
            var raw := SpecEvaluations(h, now);
            && (after.state == Running || after.state == Tripped)
            && (after.state == Tripped <==>
                  |Within(HitMark, h, WINDOW_T5, now)| >= MIN_HITS && exists e :: e in raw && e.verdict == Breach)
            && (after.state == Tripped ==>
                  after.trippedAt == Some(now) &&
                  exists i :: 0 <= i < 4 && after.trippedBy == Some(raw[i].triggerId) && raw[i].verdict == Breach &&
                              forall k | 0 <= k < i :: raw[k].verdict != Breach)
  {
    SpecEvaluates(cooldown, storeOk, ops, now, ok);
    var h := SpecRun(cooldown, storeOk, ops).history;
    JudgeTrips(SpecRun(cooldown, storeOk, ops).core, now, cooldown,
               |Within(HitMark, h, WINDOW_T5, now)|, SpecEvaluations(h, now));
  }

  predicate CoreInv(core: Core) {
    && (core.state.Running? <==> core.trippedAt.None?)
    && (core.state.Running? <==> core.trippedBy.None?)
  }

  lemma {:induction false} TrippedFieldsExact(cooldown: real, storeOk: bool, ops: seq<Op>)
    ensures CoreInv(Run(cooldown, storeOk, ops).core)
  {
    if ops != [] {
      TrippedFieldsExact(cooldown, storeOk, ops[..|ops| - 1]);
    }
  }

  /** The only moves: running to tripped, tripped to awaiting_ack after the cooldown, and back by a named operator. */
  lemma OnlyTheCycle(cooldown: real, storeOk: bool, ops: seq<Op>, op: Op)
    ensures var before := Run(cooldown, storeOk, ops).core;
            var after := Next(Run(cooldown, storeOk, ops), cooldown, op).core;
            && (after.state != before.state ==>
                  || (before.state.Running? && after.state.Tripped? && op.Evaluate?)
                  || (before.state.Tripped? && after.state.AwaitingAck? && op.Evaluate? &&
                      op.now - before.trippedAt.value >= cooldown)
                  || (before.state.AwaitingAck? && after.state.Running? && op.Acknowledge? && op.operator != ""))
            && (after.state == before.state
                ==> after.trippedAt == before.trippedAt && after.trippedBy == before.trippedBy)
            && (before.state.Tripped? && after.state.AwaitingAck? ==>
                  after.trippedAt == before.trippedAt && after.trippedBy == before.trippedBy)
            && (before.state.AwaitingAck? && op.Acknowledge? && op.operator != "" ==> after.state.Running?)
            && (before.state.Tripped? && op.Evaluate? ==>
                  before.trippedAt.Some? && (op.now - before.trippedAt.value >= cooldown ==> after.state.AwaitingAck?))
  {
    TrippedFieldsExact(cooldown, storeOk, ops);
  }

  /** The times at which a run tripped, in order. */
  function Trips(cooldown: real, storeOk: bool, ops: seq<Op>): seq<real> {
    if ops == [] then []
    else
      var before, last := ops[..|ops| - 1], ops[|ops| - 1];
      Trips(cooldown, storeOk, before) +
      (if last.Evaluate? && Run(cooldown, storeOk, before).core.state.Running? &&
          Run(cooldown, storeOk, ops).core.state.Tripped?
       then [last.now] else [])
  }

  /** Where the controller stands relative to its last trip. */
  ghost predicate TripStanding(core: Core, trips: seq<real>, cooldown: real, last: Option<real>) {
    && (trips == [] ==> core.state.Running?)
    && (trips != [] ==>
          var t := trips[|trips| - 1];
          && last.Some?
          && (core.state.Tripped? ==> core.trippedAt == Some(t))
          && (!core.state.Tripped? ==> last.value - t >= cooldown))
  }

  predicate Spaced(trips: seq<real>, cooldown: real) {
    forall i | 0 <= i < |trips| - 1 :: trips[i + 1] - trips[i] >= cooldown
  }

  lemma SpacedSnoc(trips: seq<real>, cooldown: real, t: real)
    requires Spaced(trips, cooldown) && (trips != [] ==> t - trips[|trips| - 1] >= cooldown)
    ensures Spaced(trips + [t], cooldown)
  {
  }

  lemma TripStandingStep(c: Controller, trips: seq<real>, cooldown: real, last: Option<real>, op: Op)
    requires CoreInv(c.core) && TripStanding(c.core, trips, cooldown, last) && Spaced(trips, cooldown)
    requires op.Evaluate? && last.Some? ==> last.value <= op.now
    ensures var after := Next(c, cooldown, op).core;
            var tripped := op.Evaluate? && c.core.state.Running? && after.state.Tripped?;
            var trips2 := trips + (if tripped then [op.now] else []);
            && TripStanding(after, trips2, cooldown, if op.Evaluate? then Some(op.now) else last)
            && Spaced(trips2, cooldown)
  {
    if op.Evaluate? && c.core.state.Running? {
      SpacedSnoc(trips, cooldown, op.now);
    }
    assert trips + [] == trips;
  }

  lemma {:induction false} TripStandingAlong(cooldown: real, storeOk: bool, ops: seq<Op>)
    requires TimesRise(ops)
    ensures TripStanding(Run(cooldown, storeOk, ops).core, Trips(cooldown, storeOk, ops), cooldown, LastEvaluation(ops))
    ensures Spaced(Trips(cooldown, storeOk, ops), cooldown)
  {
    if ops != [] {
      var before, last := ops[..|ops| - 1], ops[|ops| - 1];
      assert ops == before + [last];
      RiseAtEnd(cooldown, storeOk, before, last);
      TripStandingAlong(cooldown, storeOk, before);
      TrippedFieldsExact(cooldown, storeOk, before);
      TripStandingStep(Run(cooldown, storeOk, before), Trips(cooldown, storeOk, before), cooldown,
                       LastEvaluation(before), last);
    }
  }

  /** Any two successive trips are at least the cooldown apart. */
  lemma TripsAreSpaced(cooldown: real, storeOk: bool, ops: seq<Op>, i: nat)
    requires TimesRise(ops) && i + 1 < |Trips(cooldown, storeOk, ops)|
    ensures Trips(cooldown, storeOk, ops)[i + 1] - Trips(cooldown, storeOk, ops)[i] >= cooldown
  {
    TripStandingAlong(cooldown, storeOk, ops);
  }

  predicate StoreWorks(ops: seq<Op>) {
    forall op | op in ops :: (op.Evaluate? || op.Acknowledge?) ==> op.storeOk
  }

  /** With working durable writes the row always shows the controller's state and what tripped it. */
  lemma {:induction false} RowMirrorsState(cooldown: real, ops: seq<Op>)
    requires StoreWorks(ops)
    ensures var c := Run(cooldown, true, ops); c.row == Some(StateRow(c.core.state, c.core.trippedBy))
  {
    if ops != [] {
      var before, last := ops[..|ops| - 1], ops[|ops| - 1];
      assert last in ops && forall op | op in before :: op in ops;
      RowMirrorsState(cooldown, before);
      TrippedFieldsExact(cooldown, true, before);
    }
  }
}
