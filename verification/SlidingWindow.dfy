/**
 The deque behind every canary trigger: samples are appended at the back and stale ones are popped
 from the front on each read.  The reference is the whole list of samples, filtered by time.
 */
module SlidingWindows {
  import opened Wrappers
  import opened Ordering

  datatype Sample = Sample(ts: real, value: real)

  /** What popping stale samples from the front leaves. */
  function Evict(data: seq<Sample>, cutoff: real): seq<Sample> {
    if data != [] && data[0].ts < cutoff then Evict(data[1..], cutoff) else data
  }

  function ValuesOf(data: seq<Sample>): (values: seq<real>)
    ensures |values| == |data|
    ensures forall i | 0 <= i < |data| :: values[i] == data[i].value
  {
    seq(|data|, i requires 0 <= i < |data| => data[i].value)
  }

  class SlidingWindow {
    const windowSeconds: real
    var data: seq<Sample>

    constructor (windowSeconds: real)
      ensures this.windowSeconds == windowSeconds && data == []
    {
      this.windowSeconds := windowSeconds;
      data := [];
    }

    method Add(ts: real, value: real)
      modifies this
      ensures data == old(data) + [Sample(ts, value)]
    {
      data := data + [Sample(ts, value)];
    }

    method EvictStale(now: real)
      modifies this
      ensures data == Evict(old(data), now - windowSeconds)
    {
      var cutoff := now - windowSeconds;
      while data != [] && data[0].ts < cutoff
        invariant Evict(data, cutoff) == Evict(old(data), cutoff)
        decreases |data|
      {
        data := data[1..];
      }
    }

    method Values(now: real) returns (values: seq<real>)
      modifies this
      ensures data == Evict(old(data), now - windowSeconds)
      ensures values == ValuesOf(data)
    {
      EvictStale(now);
      values := ValuesOf(data);
    }

    method Count(now: real) returns (n: nat)
      modifies this
      ensures data == Evict(old(data), now - windowSeconds)
      ensures n == |data|
    {
      EvictStale(now);
      n := |data|;
    }

    method Reset()
      modifies this
      ensures data == []
    {
      data := [];
    }
  }

  // ----- prefix eviction against a filter ----------------------------------------------------------

  function Fresh(samples: seq<Sample>, cutoff: real): seq<Sample> {
    Filter((s: Sample) => s.ts >= cutoff, samples)
  }

  predicate Ascending(samples: seq<Sample>) {
    forall i, j | 0 <= i < j < |samples| :: samples[i].ts <= samples[j].ts
  }

  /** No sample older than the cutoff sits behind one that is not. */
  predicate NoStaleBehindFresh(data: seq<Sample>, cutoff: real) {
    forall i, j | 0 <= i < j < |data| && data[j].ts < cutoff :: data[i].ts < cutoff
  }

  lemma FreshCons(s: Sample, rest: seq<Sample>, cutoff: real)
    ensures Fresh([s] + rest, cutoff) == if s.ts >= cutoff then [s] + Fresh(rest, cutoff) else Fresh(rest, cutoff)
  {
    FilterCons((x: Sample) => x.ts >= cutoff, s, rest);
  }

  lemma FreshConcat(a: seq<Sample>, b: seq<Sample>, cutoff: real)
    ensures Fresh(a + b, cutoff) == Fresh(a, cutoff) + Fresh(b, cutoff)
  {
    FilterConcat((x: Sample) => x.ts >= cutoff, a, b);
  }

  /** Popping from the front equals filtering exactly when staleness is a prefix of the deque. */
  lemma {:induction false} EvictionExactIff(data: seq<Sample>, cutoff: real)
    ensures Evict(data, cutoff) == Fresh(data, cutoff) <==> NoStaleBehindFresh(data, cutoff)
  {
    if data != [] {
      var rest := data[1..];
      assert data == [data[0]] + rest;
      FreshCons(data[0], rest, cutoff);
      if data[0].ts < cutoff {
        EvictionExactIff(rest, cutoff);
        assert NoStaleBehindFresh(rest, cutoff) <==> NoStaleBehindFresh(data, cutoff) by {
          assert forall i | 0 <= i < |rest| :: rest[i] == data[i + 1];
          assert forall i | 1 <= i < |data| :: data[i] == rest[i - 1];
        }
      } else if NoStaleBehindFresh(data, cutoff) {
        FilterAll((x: Sample) => x.ts >= cutoff, data);
      } else {
        var i, j :| 0 <= i < j < |data| && data[j].ts < cutoff && data[i].ts >= cutoff;
        assert data[j] in data && data[j] !in Fresh(data, cutoff);
      }
    }
  }

  /** The deque is the history with a stale prefix dropped; `lastRead` is the latest read so far. */
  ghost predicate Tracks(data: seq<Sample>, history: seq<Sample>, window: real, lastRead: Option<real>) {
    && Ascending(history)
    && |data| <= |history|
    && history[|history| - |data|..] == data
    && (forall i | 0 <= i < |history| - |data| ::
          lastRead.Some? && history[i].ts < lastRead.value - window)
  }

  lemma TracksAdd(data: seq<Sample>, history: seq<Sample>, window: real, lastRead: Option<real>, s: Sample)
    requires Tracks(data, history, window, lastRead)
    requires forall x | x in history :: x.ts <= s.ts
    ensures Tracks(data + [s], history + [s], window, lastRead)
  {
    var k := |history| - |data|;
    assert (history + [s])[k..] == history[k..] + [s];
  }

  lemma FreshOfStalePrefix(stale: seq<Sample>, data: seq<Sample>, cutoff: real)
    requires forall s | s in stale :: s.ts < cutoff
    requires NoStaleBehindFresh(data, cutoff)
    ensures Fresh(stale + data, cutoff) == Evict(data, cutoff)
  {
    FreshConcat(stale, data, cutoff);
    FilterNone((x: Sample) => x.ts >= cutoff, stale);
    EvictionExactIff(data, cutoff);
  }

  lemma TracksPrefix(data: seq<Sample>, history: seq<Sample>, window: real, lastRead: Option<real>, now: real)
    returns (stale: seq<Sample>)
    requires Tracks(data, history, window, lastRead)
    requires lastRead.Some? ==> lastRead.value <= now
    ensures history == stale + data
    ensures forall s | s in stale :: s.ts < now - window
    ensures NoStaleBehindFresh(data, now - window)
  {
    var k := |history| - |data|;
    stale := history[..k];
    forall i, j | 0 <= i < j < |data| ensures data[i].ts <= data[j].ts {
      assert data[i] == history[k + i] && data[j] == history[k + j];
    }
  }

  /** A later cutoff filters to the same samples from the deque as from the whole history. */
  lemma TracksFresh(data: seq<Sample>, history: seq<Sample>, window: real, lastRead: Option<real>, now: real)
    requires Tracks(data, history, window, lastRead)
    requires lastRead.Some? ==> lastRead.value <= now
    ensures Evict(data, now - window) == Fresh(history, now - window)
  {
    var stale := TracksPrefix(data, history, window, lastRead, now);
    FreshOfStalePrefix(stale, data, now - window);
  }

  lemma {:induction false} EvictIsSuffix(data: seq<Sample>, cutoff: real) returns (k: nat)
    ensures k <= |data| && Evict(data, cutoff) == data[k..]
    ensures forall i | 0 <= i < k :: data[i].ts < cutoff
  {
    k := 0;
    if data != [] && data[0].ts < cutoff {
      var j := EvictIsSuffix(data[1..], cutoff);
      k := j + 1;
    }
  }

  lemma TracksRead(data: seq<Sample>, history: seq<Sample>, window: real, lastRead: Option<real>, now: real)
    requires Tracks(data, history, window, lastRead)
    requires lastRead.Some? ==> lastRead.value <= now
    ensures Tracks(Evict(data, now - window), history, window, Some(now))
  {
    var k := EvictIsSuffix(data, now - window);
    var d := |history| - |data|;
    assert data[k..] == history[d + k..];
    forall i | 0 <= i < d + k ensures history[i].ts < now - window {
      if i >= d {
        assert history[i] == data[i - d];
      }
    }
  }

  // ----- every run of adds, reads and resets ---------------------------------------------------------

  datatype WindowOp = Add(sample: Sample) | Read(now: real) | Reset

  /** The deque after a run, as the code maintains it. */
  function Deque(window: real, ops: seq<WindowOp>): seq<Sample> {
    if ops == [] then []
    else
      var data := Deque(window, ops[..|ops| - 1]);
      match ops[|ops| - 1]
      case Add(s) => data + [s]
      case Read(now) => Evict(data, now - window)
      case Reset => []
  }

  /** Every sample added since the last reset, nothing evicted. */
  function Added(ops: seq<WindowOp>): seq<Sample> {
    if ops == [] then []
    else
      match ops[|ops| - 1]
      case Add(s) => Added(ops[..|ops| - 1]) + [s]
      case Read(_) => Added(ops[..|ops| - 1])
      case Reset => []
  }

  predicate TimesRise(ops: seq<WindowOp>) {
    forall i, j | 0 <= i < j < |ops| ::
      && (ops[i].Add? && ops[j].Add? ==> ops[i].sample.ts <= ops[j].sample.ts)
      && (ops[i].Read? && ops[j].Read? ==> ops[i].now <= ops[j].now)
  }

  function LastRead(ops: seq<WindowOp>): Option<real> {
    if ops == [] then None
    else if ops[|ops| - 1].Read? then Some(ops[|ops| - 1].now)
    else LastRead(ops[..|ops| - 1])
  }

  lemma {:induction false} AddedMembers(ops: seq<WindowOp>)
    ensures forall s | s in Added(ops) :: Add(s) in ops
  {
    if ops != [] {
      AddedMembers(ops[..|ops| - 1]);
    }
  }

  lemma {:induction false} LastReadMember(ops: seq<WindowOp>)
    ensures LastRead(ops).Some? ==> Read(LastRead(ops).value) in ops
  {
    if ops != [] {
      LastReadMember(ops[..|ops| - 1]);
    }
  }

  /** What rising times mean for the last operation. */
  lemma RiseAtEnd(before: seq<WindowOp>, last: WindowOp)
    requires TimesRise(before + [last])
    ensures TimesRise(before)
    ensures last.Add? ==> forall s | s in Added(before) :: s.ts <= last.sample.ts
    ensures last.Read? && LastRead(before).Some? ==> LastRead(before).value <= last.now
  {
    var all := before + [last];
    assert forall i | 0 <= i < |before| :: before[i] == all[i];
    assert all[|before|] == last;
    AddedMembers(before);
    LastReadMember(before);
  }

  lemma {:induction false} DequeTracks(window: real, ops: seq<WindowOp>)
    requires TimesRise(ops)
    ensures Tracks(Deque(window, ops), Added(ops), window, LastRead(ops))
  {
    if ops != [] {
      var before, last := ops[..|ops| - 1], ops[|ops| - 1];
      assert ops == before + [last];
      RiseAtEnd(before, last);
      DequeTracks(window, before);
      match last {
        case Add(s) => TracksAdd(Deque(window, before), Added(before), window, LastRead(before), s);
        case Read(now) => TracksRead(Deque(window, before), Added(before), window, LastRead(before), now);
        case Reset =>
      }
    }
  }

  /**
   Eviction is exact over every run: with rising add times and rising read times, a read returns,
   in order, the values of all samples added since the last reset that are inside its window.
   */
  lemma ReadIsExact(window: real, ops: seq<WindowOp>, now: real)
    requires TimesRise(ops + [Read(now)])
    ensures ValuesOf(Deque(window, ops + [Read(now)])) == ValuesOf(Fresh(Added(ops), now - window))
    ensures |Deque(window, ops + [Read(now)])| == |Fresh(Added(ops), now - window)|
  {
    var all := ops + [Read(now)];
    assert all[..|all| - 1] == ops;
    RiseAtEnd(ops, Read(now));
    DequeTracks(window, ops);
    TracksFresh(Deque(window, ops), Added(ops), window, LastRead(ops), now);
  }

  /** Rising add times are needed: a late sample hides behind a newer one and is still counted. */
  lemma LateSampleIsKept(window: real, t: real)
    requires window > 0.0
    ensures var ops := [Add(Sample(t, 1.0)), Add(Sample(t - 1.0, 1.0))];
            |Deque(window, ops + [Read(t + window)])| == 2 && |Fresh(Added(ops), t)| == 1
  {
    var late, early := Sample(t, 1.0), Sample(t - 1.0, 1.0);
    var ops := [Add(late), Add(early)];
    var all := ops + [Read(t + window)];
    assert ops[..1] == [Add(late)] && [Add(late)][..0] == [] && all[..2] == ops;
    assert Deque(window, [Add(late)]) == [late] && Added([Add(late)]) == [late];
    assert Deque(window, ops) == [late, early] && Added(ops) == [late, early];
    assert [late, early] == [late] + ([early] + []);
    FreshCons(early, [], t);
    FreshCons(late, [early], t);
  }
}
