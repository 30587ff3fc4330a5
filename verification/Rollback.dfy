/**
 The canary rollback controller: five trigger windows driving the running / tripped / awaiting_ack
 state machine.  The controller is given twice, as a value with one function per operation and as
 the object whose methods update its fields; the methods are proved to do what the functions say.
 */
module Rollback {
  import opened Wrappers
  import opened SlidingWindows
  import opened Triggers

  const COOLDOWN_SECONDS := 1800.0

  datatype CanaryState = Running | Tripped | AwaitingAck

  datatype Ack = Ack(operator: string, timestamp: string)

  /** The single durable row that mirrors the controller. */
  datatype StateRow = StateRow(state: CanaryState, trippedBy: Option<string>)

  datatype Core = Core(
    state: CanaryState,
    trippedAt: Option<real>,
    trippedBy: Option<string>,
    evaluations: seq<Evaluation>,
    gate: Evaluation,
    lastAck: Option<Ack>)

  datatype Controller = Controller(
    errors: seq<Sample>,
    mismatches: seq<Sample>,
    latencies: seq<Sample>,
    losses: nat,
    hits: seq<Sample>,
    core: Core,
    row: Option<StateRow>)

  /** `storeOk` says whether the durable write of the operation succeeds. */
  datatype Op =
    | Observe(ts: real, isError: bool, latencyMs: real, isMismatch: bool)
    | Loss(count: int)
    | Evaluate(now: real, storeOk: bool)
    | Acknowledge(operator: string, timestamp: string, storeOk: bool)

  // ----- the state machine, given the evaluations --------------------------------------------------

  function Persist(row: Option<StateRow>, state: CanaryState, tripper: Option<string>, ok: bool): Option<StateRow> {
    if ok then Some(StateRow(state, tripper)) else row
  }

  function Gated(evaluations: seq<Evaluation>, gateActive: bool): seq<Evaluation> {
    if !gateActive then evaluations
    else seq(|evaluations|, i requires 0 <= i < |evaluations| => evaluations[i].(verdict := InsufficientData))
  }

  function FirstBreach(evaluations: seq<Evaluation>): Option<Evaluation> {
    if evaluations == [] then None
    else if evaluations[0].verdict == Breach then Some(evaluations[0])
    else FirstBreach(evaluations[1..])
  }

  function Judge(core: Core, now: real, cooldown: real, gate: Evaluation, raw: seq<Evaluation>): Core {
    var evaluations := Gated(raw, gate.verdict == InsufficientData);
    var seen := core.(evaluations := evaluations, gate := gate);
    match core.state
    case Running =>
      var breach := FirstBreach(evaluations);
      if breach.Some? then seen.(state := Tripped, trippedAt := Some(now), trippedBy := Some(breach.value.triggerId))
      else seen
    case Tripped =>
      if core.trippedAt.Some? && now - core.trippedAt.value >= cooldown then seen.(state := AwaitingAck) else seen
    case AwaitingAck => seen
  }

  /** The durable row is written exactly when the state changes. */
  function Mirrored(row: Option<StateRow>, before: CanaryState, core: Core, ok: bool): Option<StateRow> {
    if core.state != before then Persist(row, core.state, core.trippedBy, ok) else row
  }

  predicate MayAcknowledge(core: Core, operator: string) {
    operator != "" && core.state.AwaitingAck?
  }

  function Acknowledged(core: Core, operator: string, timestamp: string): Core {
    core.(state := Running, trippedAt := None, trippedBy := None, lastAck := Some(Ack(operator, timestamp)))
  }

  // ----- the controller as a value -------------------------------------------------------------------

  function Started(storeOk: bool): Controller {
    Controller([], [], [], 0, [], Core(Running, None, None, [], GateEvaluation(0), None),
               Persist(None, Running, None, storeOk))
  }

  function Mark(b: bool): real {
    if b then 1.0 else 0.0
  }

  function Observed(c: Controller, ts: real, isError: bool, latencyMs: real, isMismatch: bool): Controller {
    c.(errors := c.errors + [Sample(ts, Mark(isError))],
       mismatches := c.mismatches + [Sample(ts, Mark(isMismatch))],
       latencies := c.latencies + [Sample(ts, latencyMs)],
       hits := c.hits + [Sample(ts, 1.0)])
  }

  function Evaluations(errors: seq<Sample>, mismatches: seq<Sample>, latencies: seq<Sample>,
                       losses: nat): seq<Evaluation> {
    [RateEvaluation(T1_ID, WINDOW_T1, ValuesOf(errors)),
     RateEvaluation(T2_ID, WINDOW_T2, ValuesOf(mismatches)),
     P99Evaluation(ValuesOf(latencies)),
     LossEvaluation(losses)]
  }

  function Swept(c: Controller, now: real): Controller {
    c.(errors := Evict(c.errors, now - WINDOW_T1),
       mismatches := Evict(c.mismatches, now - WINDOW_T2),
       latencies := Evict(c.latencies, now - WINDOW_T3),
       hits := Evict(c.hits, now - WINDOW_T5))
  }

  function Evaluated(c: Controller, cooldown: real, now: real, storeOk: bool): Controller {
    var s := Swept(c, now);
    var raw := Evaluations(s.errors, s.mismatches, s.latencies, s.losses);
    var core := Judge(c.core, now, cooldown, GateEvaluation(|s.hits|), raw);
    s.(core := core, row := Mirrored(c.row, c.core.state, core, storeOk))
  }

  function Acked(c: Controller, operator: string, timestamp: string, storeOk: bool): Controller {
    if MayAcknowledge(c.core, operator) then
      c.(errors := [], mismatches := [], latencies := [], losses := 0,
         core := Acknowledged(c.core, operator, timestamp),
         row := Persist(c.row, Running, None, storeOk))
    else c
  }

  function Next(c: Controller, cooldown: real, op: Op): Controller {
    match op
    case Observe(ts, isError, latencyMs, isMismatch) => Observed(c, ts, isError, latencyMs, isMismatch)
    case Loss(count) => if count < 0 then c else c.(losses := c.losses + count)
    case Evaluate(now, ok) => Evaluated(c, cooldown, now, ok)
    case Acknowledge(operator, timestamp, ok) => Acked(c, operator, timestamp, ok)
  }

  // ----- the controller as an object -------------------------------------------------------------------

  class StateStore {
    var row: Option<StateRow>

    constructor ()
      ensures row == None
    {
      row := None;
    }

    method Record(state: CanaryState, trippedBy: Option<string>, ok: bool)
      modifies this
      ensures row == Persist(old(row), state, trippedBy, ok)
    {
      if ok {
        row := Some(StateRow(state, trippedBy));
      }
    }
  }

  class RollbackController {
    const cooldown: real
    const t1: RateTrigger
    const t2: RateTrigger
    const t3: LatencyTrigger
    const t4: DataLossTrigger
    const t5: MinHitsGate
    const store: StateStore
    var state: CanaryState
    var trippedAt: Option<real>
    var trippedBy: Option<string>
    var lastEvaluations: seq<Evaluation>
    var lastGate: Evaluation
    var lastAck: Option<Ack>

    ghost function Windows(): set<SlidingWindow> {
      {t1.window, t2.window, t3.window, t5.window}
    }

    ghost predicate Valid() {
      && t1.window != t2.window && t1.window != t3.window && t1.window != t5.window
      && t2.window != t3.window && t2.window != t5.window && t3.window != t5.window
      && t1.id == T1_ID && t1.window.windowSeconds == WINDOW_T1
      && t2.id == T2_ID && t2.window.windowSeconds == WINDOW_T2
      && t3.window.windowSeconds == WINDOW_T3
      && t5.window.windowSeconds == WINDOW_T5
    }

    ghost function CoreView(): Core
      reads this
    {
      Core(state, trippedAt, trippedBy, lastEvaluations, lastGate, lastAck)
    }

    ghost function View(): Controller
      reads this, Windows(), t4, store
    {
      Controller(t1.window.data, t2.window.data, t3.window.data, t4.count, t5.window.data, CoreView(), store.row)
    }

    constructor (cooldown: real, storeOk: bool)
      ensures Valid() && this.cooldown == cooldown && View() == Started(storeOk)
      ensures fresh(Windows()) && fresh(t4) && fresh(store)
    {
      this.cooldown := cooldown;
      var durable := new StateStore();
      durable.Record(Running, None, storeOk);
      store := durable;
      t1 := new RateTrigger(T1_ID, WINDOW_T1);
      t2 := new RateTrigger(T2_ID, WINDOW_T2);
      t3 := new LatencyTrigger();
      t4 := new DataLossTrigger();
      var gate := new MinHitsGate();
      t5 := gate;
      state, trippedAt, trippedBy := Running, None, None;
      lastEvaluations, lastAck := [], None;
      lastGate := GateEvaluation(0);
    }

    method ObserveRequest(ts: real, isError: bool, latencyMs: real, isMismatch: bool)
      requires Valid()
      modifies Windows()
      ensures View() == Observed(old(View()), ts, isError, latencyMs, isMismatch)
    {
      t1.Record(ts, isError);
      t2.Record(ts, isMismatch);
      t3.Record(ts, latencyMs);
      t5.Record(ts);
    }

    /** False stands for the ValueError a negative count raises. */
    method ObserveDataLoss(count: int) returns (ok: bool)
      requires Valid()
      modifies t4
      ensures ok == (count >= 0)
      ensures View() == Next(old(View()), cooldown, Loss(count))
    {
      ok := t4.Record(count);
    }

    /** Every window is read and swept, in trigger order, whatever the gate says. */
    method EvaluateTriggers(now: real, gateActive: bool) returns (results: seq<Evaluation>)
      requires Valid()
      modifies t1.window, t2.window, t3.window
      ensures t1.window.data == Evict(old(t1.window.data), now - WINDOW_T1)
      ensures t2.window.data == Evict(old(t2.window.data), now - WINDOW_T2)
      ensures t3.window.data == Evict(old(t3.window.data), now - WINDOW_T3)
      ensures results == Gated(Evaluations(t1.window.data, t2.window.data, t3.window.data, t4.count), gateActive)
    {
      var e1 := t1.Evaluate(now);
      var e2 := t2.Evaluate(now);
      var e3 := t3.Evaluate(now);
      var e4 := t4.Evaluate();
      var raw := [e1, e2, e3, e4];
      results := [];
      for i := 0 to 4
        invariant |results| == i
        invariant forall k | 0 <= k < i ::
          results[k] == if gateActive then raw[k].(verdict := InsufficientData) else raw[k]
      {
        results := results + [if gateActive then raw[i].(verdict := InsufficientData) else raw[i]];
      }
    }

    method FindBreach(evaluations: seq<Evaluation>) returns (breach: Option<Evaluation>)
      ensures breach == FirstBreach(evaluations)
    {
      var i := 0;
      while i < |evaluations|
        invariant 0 <= i <= |evaluations|
        invariant FirstBreach(evaluations) == FirstBreach(evaluations[i..])
      {
        if evaluations[i].verdict == Breach {
          return Some(evaluations[i]);
        }
        i := i + 1;
      }
      return None;
    }

    method Trip(now: real, breach: Evaluation, storeOk: bool)
      modifies this`state, this`trippedAt, this`trippedBy, store
      ensures state == Tripped && trippedAt == Some(now) && trippedBy == Some(breach.triggerId)
      ensures store.row == Persist(old(store.row), Tripped, Some(breach.triggerId), storeOk)
    {
      state := Tripped;
      trippedAt := Some(now);
      trippedBy := Some(breach.triggerId);
      store.Record(Tripped, trippedBy, storeOk);
    }

    method Evaluate(now: real, storeOk: bool)
      requires Valid()
      modifies this, Windows(), store
      ensures View() == Evaluated(old(View()), cooldown, now, storeOk)
    {
      var gate := t5.Evaluate(now);
      var evaluations := EvaluateTriggers(now, gate.verdict == InsufficientData);
      lastEvaluations := evaluations;
      lastGate := gate;
      match state {
        case Running =>
          var breach := FindBreach(evaluations);
          if breach.Some? {
            Trip(now, breach.value, storeOk);
          }
        case Tripped =>
          if trippedAt.Some? && now - trippedAt.value >= cooldown {
            state := AwaitingAck;
            store.Record(AwaitingAck, trippedBy, storeOk);
          }
        case AwaitingAck =>
      }
    }

    method Acknowledge(operator: string, timestamp: string, storeOk: bool) returns (ok: bool)
      requires Valid()
      modifies this, Windows(), t4, store
      ensures ok == MayAcknowledge(old(CoreView()), operator)
      ensures View() == Acked(old(View()), operator, timestamp, storeOk)
    {
      if operator == "" || state != AwaitingAck {
        return false;
      }
      state, trippedAt, trippedBy := Running, None, None;
      lastAck := Some(Ack(operator, timestamp));
      store.Record(Running, None, storeOk);
      t1.Reset();
      t2.Reset();
      t3.Reset();
      t4.Reset();
      return true;
    }
  }
}
