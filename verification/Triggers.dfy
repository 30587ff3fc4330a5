/**
 The five canary trigger primitives.  Each evaluation is a function of the in-window values, which
 the trigger objects read out of their sliding windows; rates are exact rationals.
 */
module Triggers {
  import opened Wrappers
  import opened Ordering
  import opened SlidingWindows

  const T1_ID := "T1-error-rate"
  const T2_ID := "T2-discrepancy-rate"
  const T3_ID := "T3-p99-latency"
  const T4_ID := "T4-data-loss"
  const T5_ID := "T5-min-hits-gate"

  const RATE_THRESHOLD := 0.005
  const LATENCY_THRESHOLD := 100.0
  const LOSS_THRESHOLD := 0
  const MIN_HITS := 50

  const WINDOW_T1 := 300.0
  const WINDOW_T2 := 180.0
  const WINDOW_T3 := 300.0
  const WINDOW_T5 := 300.0

  datatype Verdict = Pass | Breach | InsufficientData

  datatype Evaluation = Evaluation(
    triggerId: string,
    verdict: Verdict,
    metric: real,
    threshold: real,
    windowSeconds: Option<real>,
    observations: nat)

  // ----- rates ----------------------------------------------------------------------------------

  function Sum(values: seq<real>): real {
    if values == [] then 0.0 else values[0] + Sum(values[1..])
  }

  function RateEvaluation(id: string, window: real, values: seq<real>): Evaluation {
    var n := |values|;
    var rate := if n > 0 then Sum(values) / n as real else 0.0;
    Evaluation(id, if n > 0 && rate >= RATE_THRESHOLD then Breach else Pass, rate, RATE_THRESHOLD, Some(window), n)
  }

  function Marks(values: seq<real>): nat {
    |Filter((v: real) => v == 1.0, values)|
  }

  /** Requests are recorded as 1.0 or 0.0. */
  predicate Binary(values: seq<real>) {
    forall i | 0 <= i < |values| :: values[i] == 0.0 || values[i] == 1.0
  }

  lemma {:induction false} SumOfMarks(values: seq<real>)
    requires Binary(values)
    ensures Sum(values) == Marks(values) as real
  {
    if values != [] {
      assert values == [values[0]] + values[1..];
      assert values[0] == 0.0 || values[0] == 1.0;
      SumOfMarks(values[1..]);
      FilterCons((v: real) => v == 1.0, values[0], values[1..]);
    }
  }

  lemma RateThreshold(marks: real, n: real)
    requires n > 0.0
    ensures marks / n >= RATE_THRESHOLD <==> 200.0 * marks >= n
  {
    assert marks == (marks / n) * n;
    if marks / n >= RATE_THRESHOLD {
      assert (marks / n) * n >= RATE_THRESHOLD * n;
    } else {
      assert (marks / n) * n < RATE_THRESHOLD * n;
    }
  }

  /** T1 and T2 breach exactly when at least one request in two hundred is marked, and there is one. */
  lemma RateBreachIff(id: string, window: real, values: seq<real>)
    requires Binary(values)
    ensures RateEvaluation(id, window, values).verdict == Breach <==>
            values != [] && 200 * Marks(values) >= |values|
  {
    SumOfMarks(values);
    if values != [] {
      RateThreshold(Sum(values), |values| as real);
    }
  }

  /** The reported rate is the share of marked samples. */
  lemma RateReported(id: string, window: real, values: seq<real>)
    requires Binary(values)
    ensures var e := RateEvaluation(id, window, values);
            && e.metric * |values| as real == Marks(values) as real && (values == [] ==> e.metric == 0.0)
            && e.threshold == 0.005 && e.windowSeconds == Some(window) && e.observations == |values|
            && e.verdict != InsufficientData
  {
    SumOfMarks(values);
    if values != [] {
      RateEvaluationExact(Sum(values), |values| as real);
    }
  }

  lemma RateEvaluationExact(marks: real, n: real)
    requires n > 0.0
    ensures marks / n * n == marks
  {
  }

  // ----- p99 --------------------------------------------------------------------------------------

  predicate RealLess(a: real, b: real) {
    a < b
  }

  function Clamp(i: int, top: nat): (j: nat)
    ensures j <= top
  {
    if i < 0 then 0 else if i > top then top else i
  }

  /** The nearest-rank index ceil(0.99 n) - 1, clamped to [0, n - 1]. */
  function P99Index(n: nat): (i: nat)
    requires n > 0
    ensures i < n
  {
    Clamp((99 * n + 99) / 100 - 1, n - 1)
  }

  function P99Evaluation(values: seq<real>): Evaluation {
    var n := |values|;
    if n == 0 then Evaluation(T3_ID, Pass, 0.0, LATENCY_THRESHOLD, Some(WINDOW_T3), 0)
    else
      var p99 := Sort(RealLess, values)[P99Index(n)];
      Evaluation(T3_ID, if p99 >= LATENCY_THRESHOLD then Breach else Pass, p99, LATENCY_THRESHOLD, Some(WINDOW_T3), n)
  }

  function AtLeast(threshold: real, values: seq<real>): nat {
    |Filter((v: real) => v >= threshold, values)|
  }

  /** Sorting does not change how many samples reach the threshold. */
  lemma AtLeastSorted(threshold: real, values: seq<real>)
    ensures AtLeast(threshold, Sort(RealLess, values)) == AtLeast(threshold, values)
  {
    var p := (v: real) => v >= threshold;
    FilterSort(RealLess, p, values);
  }

  lemma AtLeastConcat(threshold: real, low: seq<real>, high: seq<real>)
    requires forall i | 0 <= i < |low| :: low[i] < threshold
    ensures AtLeast(threshold, low + high) <= |high|
  {
    var p := (v: real) => v >= threshold;
    FilterConcat(p, low, high);
    FilterNone(p, low);
  }

  lemma AtLeastGrows(threshold: real, low: seq<real>, high: seq<real>)
    requires forall i | 0 <= i < |high| :: high[i] >= threshold
    ensures AtLeast(threshold, low + high) >= |high|
  {
    var p := (v: real) => v >= threshold;
    FilterConcat(p, low, high);
    FilterAll(p, high);
  }

  lemma AtLeastSplit(threshold: real, s: seq<real>, k: nat)
    requires k < |s| && Sorted(RealLess, s)
    ensures s[k] >= threshold <==> AtLeast(threshold, s) >= |s| - k
  {
    if s[k] >= threshold {
      assert s == s[..k] + s[k..];
      AtLeastGrows(threshold, s[..k], s[k..]);
    } else {
      assert s == s[..k + 1] + s[k + 1..];
      AtLeastConcat(threshold, s[..k + 1], s[k + 1..]);
    }
  }

  /** The reported p99 reaches any level exactly when more than one sample in a hundred does. */
  lemma P99Reaches(values: seq<real>, level: real)
    requires values != []
    ensures P99Evaluation(values).metric >= level <==> AtLeast(level, values) >= |values| / 100 + 1
  {
    var s := Sort(RealLess, values);
    var n := |values|;
    SortSorts(RealLess, values);
    AtLeastSorted(level, values);
    AtLeastSplit(level, s, P99Index(n));
    assert n - P99Index(n) == n / 100 + 1;
  }

  /** The sort-based p99 breaches exactly when more than one sample in a hundred reaches the threshold. */
  lemma P99BreachIff(values: seq<real>)
    ensures P99Evaluation(values).verdict == Breach <==>
            values != [] && AtLeast(LATENCY_THRESHOLD, values) >= |values| / 100 + 1
  {
    if values != [] {
      P99Reaches(values, LATENCY_THRESHOLD);
    }
  }

  /** Arrival order is irrelevant to the p99 evaluation. */
  lemma P99OrderIrrelevant(a: seq<real>, b: seq<real>)
    requires multiset(a) == multiset(b)
    ensures P99Evaluation(a) == P99Evaluation(b)
  {
    SortSorts(RealLess, a);
    SortSorts(RealLess, b);
    SortedUnique(RealLess, Sort(RealLess, a), Sort(RealLess, b));
    assert |multiset(a)| == |a| && |multiset(b)| == |b|;
  }

  // ----- data loss and the gate -------------------------------------------------------------------

  function LossEvaluation(count: nat): Evaluation {
    Evaluation(T4_ID, if count > LOSS_THRESHOLD then Breach else Pass,
               count as real, LOSS_THRESHOLD as real, None, count)
  }

  function GateEvaluation(hits: nat): Evaluation {
    Evaluation(T5_ID, if hits < MIN_HITS then InsufficientData else Pass, hits as real, MIN_HITS as real,
               Some(WINDOW_T5), hits)
  }

  /** What the other evaluations report beside their verdict. */
  lemma LevelsReported(values: seq<real>, count: nat, hits: nat)
    ensures var p99 := P99Evaluation(values);
            && (values == [] ==> p99.metric == 0.0) && p99.threshold == 100.0 && p99.windowSeconds == Some(300.0)
            && p99.observations == |values| && p99.verdict != InsufficientData
    ensures LossEvaluation(count) == Evaluation("T4-data-loss", if count > 0 then Breach else Pass, count as real, 0.0,
                                                None, count)
    ensures GateEvaluation(hits) == Evaluation("T5-min-hits-gate", if hits >= 50 then Pass else InsufficientData,
                                               hits as real, 50.0, Some(300.0), hits)
  {
  }

  // ----- the trigger objects ------------------------------------------------------------------------

  /** T1 and T2 differ only in name and window. */
  class RateTrigger {
    const id: string
    const window: SlidingWindow

    constructor (id: string, windowSeconds: real)
      ensures this.id == id && window.windowSeconds == windowSeconds && window.data == [] && fresh(window)
    {
      this.id := id;
      window := new SlidingWindow(windowSeconds);
    }

    method Record(ts: real, marked: bool)
      modifies window
      ensures window.data == old(window.data) + [Sample(ts, if marked then 1.0 else 0.0)]
    {
      window.Add(ts, if marked then 1.0 else 0.0);
    }

    method Evaluate(now: real) returns (ev: Evaluation)
      modifies window
      ensures window.data == Evict(old(window.data), now - window.windowSeconds)
      ensures ev == RateEvaluation(id, window.windowSeconds, ValuesOf(window.data))
    {
      var values := window.Values(now);
      ev := RateEvaluation(id, window.windowSeconds, values);
    }

    method Reset()
      modifies window
      ensures window.data == []
    {
      window.Reset();
    }
  }

  class LatencyTrigger {
    const window: SlidingWindow

    constructor ()
      ensures window.windowSeconds == WINDOW_T3 && window.data == [] && fresh(window)
    {
      window := new SlidingWindow(WINDOW_T3);
    }

    method Record(ts: real, latencyMs: real)
      modifies window
      ensures window.data == old(window.data) + [Sample(ts, latencyMs)]
    {
      window.Add(ts, latencyMs);
    }

    method Evaluate(now: real) returns (ev: Evaluation)
      modifies window
      ensures window.data == Evict(old(window.data), now - window.windowSeconds)
      ensures ev == P99Evaluation(ValuesOf(window.data))
    {
      var values := window.Values(now);
      ev := P99Evaluation(values);
    }

    method Reset()
      modifies window
      ensures window.data == []
    {
      window.Reset();
    }
  }

  class DataLossTrigger {
    var count: nat

    constructor ()
      ensures count == 0
    {
      count := 0;
    }

    /** A negative count raises and records nothing. */
    method Record(n: int) returns (ok: bool)
      modifies this
      ensures ok == (n >= 0)
      ensures count == if ok then old(count) + n else old(count)
    {
      if n < 0 {
        return false;
      }
      count := count + n;
      return true;
    }

    method Evaluate() returns (ev: Evaluation)
      ensures ev == LossEvaluation(count)
    {
      ev := LossEvaluation(count);
    }

    method Reset()
      modifies this
      ensures count == 0
    {
      count := 0;
    }
  }

  class MinHitsGate {
    const window: SlidingWindow

    constructor ()
      ensures window.windowSeconds == WINDOW_T5 && window.data == [] && fresh(window)
    {
      window := new SlidingWindow(WINDOW_T5);
    }

    method Record(ts: real)
      modifies window
      ensures window.data == old(window.data) + [Sample(ts, 1.0)]
    {
      window.Add(ts, 1.0);
    }

    method Evaluate(now: real) returns (ev: Evaluation)
      modifies window
      ensures window.data == Evict(old(window.data), now - window.windowSeconds)
      ensures ev == GateEvaluation(|window.data|)
    {
      var hits := window.Count(now);
      ev := GateEvaluation(hits);
    }
  }
}
