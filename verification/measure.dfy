/**
 The measuring loop. Each animation frame runs one `Step`: it counts the frame,
 in percentile mode records the time since the previous frame, and, once more
 than one period has passed since the last boundary, turns the period into one
 metric sample, appends it to the trailing history, resets the period and
 redraws the sparkline and the numeric readout.
 */
module Measure {
  import opened Wrappers
  import opened Values
  import opened Window
  import opened Render
  import opened Config

  /**
   The `percentile(p, list)` library function, taken as an arbitrary function. Its
   method is not fixed; the type does assume it returns a number on every call.
   */
  type Percentile = (real, seq<real>) -> real

  /** The loop's captured variables. Times are milliseconds. */
  datatype State = State(
    count: nat,           // frames seen in the current period
    lastTime: real,       // time of the last period boundary
    lastFrame: real,      // time of the last frame, kept in percentile mode only
    frames: seq<real>,    // frame durations of the current period, percentile mode only
    values: seq<Slot>)    // the trailing history

  /** What a boundary step paints: the bars of the sparkline and the number shown. */
  datatype Redraw = Redraw(bars: seq<Rect>, readout: Metric)

  /** The next state, and the redraw if the step crossed a period boundary. */
  datatype StepResult = StepResult(state: State, redraw: Option<Redraw>)

  /** The state the loop starts in. */
  function Init(o: Options, c: Config): (s: State)
    ensures Inv(c, s)
    ensures s.count == 0 && s.lastTime == 0.0 && s.lastFrame == 0.0 && s.frames == []
    ensures s.values == InitialValues(o, c.w)
  {
    State(0, 0.0, 0.0, [], InitialValues(o, c.w))
  }

  /** The part of a step that runs on every frame, before the boundary test. */
  function Record(c: Config, s: State, t: real): (r: State)
    ensures r.count == s.count + 1
    ensures r.lastTime == s.lastTime && r.values == s.values
    ensures c.PercentileMode() ==>
              && |r.frames| == |s.frames| + 1
              && r.frames[..|s.frames|] == s.frames
              && r.frames[|s.frames|] == t - s.lastFrame
              && r.lastFrame == t
    ensures !c.PercentileMode() ==> r.frames == s.frames && r.lastFrame == s.lastFrame
  {
    if c.PercentileMode() then
      s.(count := s.count + 1, frames := s.frames + [t - s.lastFrame], lastFrame := t)
    else
      s.(count := s.count + 1)
  }

  /** The boundary test, strict: a frame exactly one period after the last boundary does not close it. */
  predicate Crossed(c: Config, s: State, t: real)
    ensures Crossed(c, s, t) <==> t > s.lastTime + c.period
    ensures t == s.lastTime + c.period ==> !Crossed(c, s, t)
  {
    t - s.lastTime > c.period
  }

  /**
   Counting mode: the frames of the period against the number expected at `max`
   frames per second, so `metric * max` is the observed frames per second.
   */
  function ThroughputMetric(count: nat, max: real, period: real): (m: Metric)
    requires max != 0.0 && period != 0.0
    ensures m.Finite?
    ensures m.value * max * period == count as real * 1000.0
  {
    var expected := max * period * 0.001;
    assert expected * 1000.0 == max * period;
    Finite(count as real / expected)
  }

  /**
   Percentile mode: the rate implied by the `p`-th percentile frame duration,
   against `max`. The library is only ever asked about a non-empty list; an
   instantaneous percentile of zero gives `Infinity`.
   */
  function PercentileMetric(pct: Percentile, p: real, frames: seq<real>, max: real): (m: Metric)
    requires |frames| > 0 && max != 0.0
    ensures m.Finite? <==> pct(p, frames) != 0.0
    ensures m.Finite? ==> m.value * max * pct(p, frames) == 1000.0
  {
    DivideBy(RateOf(pct(p, frames)), max)
  }

  /**
   The sample for the period that the frame at `t` closes. That frame is counted
   in the closing period, and in percentile mode its duration is the last one
   of the list handed to the library, which is therefore never empty.
   */
  function ClosingMetric(c: Config, pct: Percentile, s: State, t: real): (m: Metric)
    requires c.WellFormed()
    ensures !c.PercentileMode() ==> m == ThroughputMetric(s.count + 1, c.max, c.period)
    ensures c.PercentileMode() ==>
              m == PercentileMetric(pct, c.slowPercentile, s.frames + [t - s.lastFrame], c.max)
  {
    var s1 := Record(c, s, t);
    if c.PercentileMode() then PercentileMetric(pct, c.slowPercentile, s1.frames, c.max)
    else ThroughputMetric(s1.count, c.max, c.period)
  }

  /** `values[values.length - 1] * max`, read after an append, so the newest slot is set. */
  function Readout(last: Slot, max: real): (r: Metric)
    requires last.Some? && max != 0.0
    ensures r.Finite? <==> last.value.Finite?
    ensures r.Finite? ==> r.value == last.value.value * max
  {
    MultiplyBy(last.value, max)
  }

  /** One run of `measure` for a frame at time `t`. */
  function Step(c: Config, pct: Percentile, s: State, t: real): (r: StepResult)
    requires c.WellFormed()
    ensures r.redraw.Some? <==> t - s.lastTime > c.period
    // before the boundary: only the frame is recorded
    ensures r.redraw.None? ==>
              && r.state.count == s.count + 1
              && r.state.lastTime == s.lastTime
              && r.state.values == s.values
    ensures r.redraw.None? && c.PercentileMode() ==>
              r.state.frames == s.frames + [t - s.lastFrame] && r.state.lastFrame == t
    ensures r.redraw.None? && !c.PercentileMode() ==>
              r.state.frames == s.frames && r.state.lastFrame == s.lastFrame
    // at the boundary: the period is reset, the history grows by one sample and is trimmed
    ensures r.redraw.Some? ==>
              && r.state.count == 0
              && r.state.frames == []
              && r.state.lastTime == t
              && r.state.lastFrame == (if c.PercentileMode() then t else s.lastFrame)
    ensures r.redraw.Some? ==>
              && r.state.values == Push(s.values, Some(ClosingMetric(c, pct, s, t)), c.w)
              && |r.state.values| <= c.w
              && r.state.values[|r.state.values| - 1] == Some(ClosingMetric(c, pct, s, t))
    ensures r.redraw.Some? ==>
              && r.redraw.value.bars == Bars(r.state.values, c.w, c.h)
              && r.redraw.value.readout == MultiplyBy(ClosingMetric(c, pct, s, t), c.max)
  {
    var s1 := Record(c, s, t);
    if Crossed(c, s1, t) then
      var m :=
        if c.PercentileMode() then PercentileMetric(pct, c.slowPercentile, s1.frames, c.max)
        else ThroughputMetric(s1.count, c.max, c.period);
      var vs := Push(s1.values, Some(m), c.w);
      var next := s1.(lastTime := t, values := vs, count := 0, frames := []);
      StepResult(next, Some(Redraw(Bars(vs, c.w, c.h), Readout(vs[|vs| - 1], c.max))))
    else
      StepResult(s1, None)
  }

  /** In counting mode the readout is the number of frames in the period per second of period. */
  lemma ThroughputReadout(count: nat, max: real, period: real)
    requires max != 0.0 && period != 0.0
    ensures MultiplyBy(ThroughputMetric(count, max, period), max) == Finite(count as real * 1000.0 / period)
  {
    var m := ThroughputMetric(count, max, period);
    var v := m.value * max;
    assert v * period == count as real * 1000.0;
    assert v == v * period / period;
  }

  /** In percentile mode the readout is the rate implied by the percentile frame duration. */
  lemma PercentileReadout(pct: Percentile, p: real, frames: seq<real>, max: real)
    requires |frames| > 0 && max != 0.0
    ensures MultiplyBy(PercentileMetric(pct, p, frames, max), max) == RateOf(pct(p, frames))
  {
    MultiplyUndoesDivide(RateOf(pct(p, frames)), max);
  }

  /**
   In counting mode a boundary step shows `(count + 1) * 1000 / period`: the frame
   that closes the period is counted in it.
   */
  lemma BoundaryReadoutCountsClosingFrame(c: Config, pct: Percentile, s: State, t: real)
    requires c.WellFormed() && !c.PercentileMode() && Crossed(c, s, t)
    ensures Step(c, pct, s, t).redraw.Some?
    ensures Step(c, pct, s, t).redraw.value.readout == Finite((s.count + 1) as real * 1000.0 / c.period)
  {
    ThroughputReadout(s.count + 1, c.max, c.period);
  }

  /** Sixty frames in a default one-second period at a baseline of 100 give the sample 0.6 and the readout 60. */
  lemma SixtyFramesExample(pct: Percentile)
    ensures Step(Config(32, 16, 1000.0, 100.0, 0.0), pct, State(59, 0.0, 0.0, [], []), 1001.0).state.values
            == [Some(Finite(0.6))]
    ensures Step(Config(32, 16, 1000.0, 100.0, 0.0), pct, State(59, 0.0, 0.0, [], []), 1001.0).redraw.value.readout
            == Finite(60.0)
  {
    ThroughputReadout(60, 100.0, 1000.0);
  }

  /**
   What every state the loop reaches satisfies: in percentile mode there is one
   recorded duration per counted frame; in counting mode no durations are kept.
   */
  predicate Inv(c: Config, s: State)
  {
    && (c.PercentileMode() ==> |s.frames| == s.count)
    && (!c.PercentileMode() ==> s.frames == [] && s.lastFrame == 0.0)
  }

  /**
   The first frame in percentile mode hands the library the time since the
   clock's origin, because `lastFrame` starts at 0.
   */
  lemma FirstPercentileFrame(o: Options, c: Config, t: real)
    requires c.PercentileMode()
    ensures Record(c, Init(o, c), t).frames == [t]
  {
  }

  /**
   The first period is measured from the clock's origin, because `lastTime` starts
   at 0: in counting mode a first frame later than `period` closes a period of
   one frame and shows `1000 / period`.
   */
  lemma FirstBoundaryReadout(o: Options, c: Config, pct: Percentile, t: real)
    requires c.WellFormed() && !c.PercentileMode() && t > c.period
    ensures Step(c, pct, Init(o, c), t).redraw.Some?
    ensures Step(c, pct, Init(o, c), t).redraw.value.readout == Finite(1000.0 / c.period)
  {
    ThroughputReadout(1, c.max, c.period);
  }

  /** Every step keeps one duration per counted frame (percentile mode) or none at all (counting mode). */
  lemma StepPreservesInv(c: Config, pct: Percentile, s: State, t: real)
    requires c.WellFormed() && Inv(c, s)
    ensures Inv(c, Step(c, pct, s, t).state)
  {
  }

  /** The loop driven by the frame times `ts`. */
  function Run(c: Config, pct: Percentile, s: State, ts: seq<real>): State
    requires c.WellFormed()
    decreases |ts|
  {
    if ts == [] then s else Run(c, pct, Step(c, pct, s, ts[0]).state, ts[1..])
  }

  /** The samples a run appends to the history, one per boundary, in order. */
  function Emitted(c: Config, pct: Percentile, s: State, ts: seq<real>): seq<Slot>
    requires c.WellFormed()
    decreases |ts|
  {
    if ts == [] then []
    else
      (if Crossed(c, s, ts[0]) then [Some(ClosingMetric(c, pct, s, ts[0]))] else [])
      + Emitted(c, pct, Step(c, pct, s, ts[0]).state, ts[1..])
  }

  /** The invariant holds however many frames the loop runs. */
  lemma {:induction false} RunPreservesInv(c: Config, pct: Percentile, s: State, ts: seq<real>)
    requires c.WellFormed() && Inv(c, s)
    ensures Inv(c, Run(c, pct, s, ts))
    decreases |ts|
  {
    if ts != [] {
      StepPreservesInv(c, pct, s, ts[0]);
      RunPreservesInv(c, pct, Step(c, pct, s, ts[0]).state, ts[1..]);
    }
  }

  /**
   After any run the history is the seed followed by exactly the samples emitted
   at the boundaries, each appended once and trimmed to the canvas width.
   */
  lemma {:induction false} RunHistory(c: Config, pct: Percentile, s: State, ts: seq<real>)
    requires c.WellFormed()
    ensures Run(c, pct, s, ts).values == PushAll(s.values, Emitted(c, pct, s, ts), c.w)
    decreases |ts|
  {
    if ts != [] {
      var next := Step(c, pct, s, ts[0]).state;
      var rest := Emitted(c, pct, next, ts[1..]);
      RunHistory(c, pct, next, ts[1..]);
      if Crossed(c, s, ts[0]) {
        var x := Some(ClosingMetric(c, pct, s, ts[0]));
        assert ([x] + rest)[0] == x && ([x] + rest)[1..] == rest;
      } else {
        assert Emitted(c, pct, s, ts) == rest;
      }
    }
  }

  /** Once a run has crossed at least one boundary, the history fits the canvas and holds the last samples. */
  lemma RunHistoryBounded(c: Config, pct: Percentile, s: State, ts: seq<real>)
    requires c.WellFormed() && |Emitted(c, pct, s, ts)| >= 1
    ensures Run(c, pct, s, ts).values == Keep(s.values + Emitted(c, pct, s, ts), c.w)
    ensures |Run(c, pct, s, ts).values| <= c.w
  {
    RunHistory(c, pct, s, ts);
    PushAllKeepsSuffix(s.values, Emitted(c, pct, s, ts), c.w);
  }

  /** Appending a sample to a filling history uncovers one more column on the right. */
  lemma PushWarmUp(vs: seq<Slot>, m: Metric, w: nat, k: nat)
    requires w >= 1 && WarmingUp(vs, w, k)
    ensures WarmingUp(Push(vs, Some(m), w), w, if k == 0 then 0 else k - 1)
  {
    var r := Push(vs, Some(m), w);
    assert |r| == w;
    assert forall i :: 0 <= i < w - 1 ==> r[i] == vs[i + 1];
  }

  /**
   Warm-up: starting from `w` unset slots, a boundary turns the rightmost unset
   slot into a set one, so the scan always reaches exactly the filled columns.
   */
  lemma StepWarmUp(c: Config, pct: Percentile, s: State, t: real, k: nat)
    requires c.WellFormed() && WarmingUp(s.values, c.w, k)
    ensures Crossed(c, s, t) ==>
              && WarmingUp(Step(c, pct, s, t).state.values, c.w, if k == 0 then 0 else k - 1)
              && ScanStart(Step(c, pct, s, t).state.values, c.w) == (if k == 0 then 0 else k - 1)
    ensures !Crossed(c, s, t) ==> WarmingUp(Step(c, pct, s, t).state.values, c.w, k)
  {
    var r := Step(c, pct, s, t);
    if Crossed(c, s, t) {
      var k' := if k == 0 then 0 else k - 1;
      PushWarmUp(s.values, ClosingMetric(c, pct, s, t), c.w, k);
      WarmUpScan(r.state.values, c.w, k', c.w);
    }
  }

  /** Without a seed the loop starts with every column blank. */
  lemma InitWarmUp(o: Options, c: Config)
    requires o.values.None?
    ensures WarmingUp(Init(o, c).values, c.w, c.w)
  {
  }
}
