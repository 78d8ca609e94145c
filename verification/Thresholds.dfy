/** Average triggers, the whole-percent label and the integer variance: what the
    shifted and scaled integer formulas mean for the samples of the window. */
module Thresholds {
  import opened Rings
  import opened Arithmetic
  import opened Windows
  import opened StatsComputers

  datatype Order = Less | Equal | Greater

  function Compare(a: nat, b: nat): Order {
    if a < b then Less else if a == b then Equal else Greater
  }

  // ---- the comparisons of the source ----

  /** `avg_rational`; without a window the answer is `Equal`, which fires nothing. */
  function AvgRational(runDivisor: nat, units: nat, current: Option<Block>, num: nat, den: nat): Order {
    match current
    case Some(block) => Compare(block.runner * den, units * runDivisor * num)
    case None => Equal
  }

  function McpuOrder(current: Option<Block>, bits: nat, mcpu: nat): Order {
    AvgRational(Pow2(bits), 1, current, mcpu, 1)
  }

  /** A work threshold is held in ten-thousandths, the load samples in percent. */
  function WorkOrder(current: Option<Block>, bits: nat, work: nat): Order {
    AvgRational(Pow2(bits), 100, current, work, 10_000)
  }

  /** A rate threshold is a number of messages over a number of milliseconds. */
  function RateOrder(current: Option<Block>, bits: nat, frameRateMs: nat, num: nat, den: nat): Order {
    AvgRational(frameRateMs * Pow2(bits), PLACES_TENS, current, num, den)
  }

  function FilledPercentOrder(current: Option<Block>, bits: nat, capacity: nat, num: nat, den: nat): Order {
    match current
    case Some(block) => Compare(block.runner * den, num * PLACES_TENS * capacity * Pow2(bits))
    case None => Equal
  }

  function FilledExactOrder(current: Option<Block>, bits: nat, exact: nat): Order {
    match current
    case Some(block) => Compare(block.runner, exact * PLACES_TENS * Pow2(bits))
    case None => Equal
  }

  /** `as_micros` drops what is left of the threshold below a microsecond. */
  function LatencyOrder(current: Option<Block>, bits: nat, nanos: nat): Order {
    match current
    case Some(block) => Compare(block.runner, nanos / 1000 * Pow2(bits))
    case None => Equal
  }

  // ---- what they should mean ----

  function Mean(xs: seq<nat>): real
    requires xs != []
  {
    Sum(xs) as real / |xs| as real
  }

  /** The comparison decides exactly: above, below, or neither, for the mean of the window in units of
      `unit` against the threshold `num / den`, cross-multiplied so that zeros need no exception; with no
      window it decides nothing. */
  ghost predicate Decides(order: Order, window: Option<seq<nat>>, unit: nat, num: nat, den: nat)
    requires window.Some? ==> window.value != []
  {
    (order == Greater <==> window.Some? && MeanAbove(window.value, unit, num, den))
    && (order == Less <==> window.Some? && MeanBelow(window.value, unit, num, den))
  }

  ghost predicate MeanAbove(xs: seq<nat>, unit: nat, num: nat, den: nat)
    requires xs != []
  {
    Mean(xs) * den as real > (num * unit) as real
  }

  ghost predicate MeanBelow(xs: seq<nat>, unit: nat, num: nat, den: nat)
    requires xs != []
  {
    Mean(xs) * den as real < (num * unit) as real
  }

  /** With a proper unit and a proper threshold that is the plain comparison of quotients. */
  lemma QuotientForm(xs: seq<nat>, unit: nat, num: nat, den: nat)
    requires xs != [] && 0 < unit && 0 < den
    ensures MeanAbove(xs, unit, num, den) <==> Mean(xs) / unit as real > num as real / den as real
    ensures MeanBelow(xs, unit, num, den) <==> Mean(xs) / unit as real < num as real / den as real
  {
    hide Mean;
    var m, u, d := Mean(xs), unit as real, den as real;
    var x, y := m / u, num as real / d;
    assert x * u == m && y * d == num as real;
    assert (num * unit) as real == num as real * u;
    assert u * d * (x - y) == m * d - num as real * u;
    SignReal(u * d, x - y);
  }

  /** The window of raw samples a metric's current block stands for. */
  function WindowOf(samples: seq<nat>, refreshBits: nat, windowBits: nat): (w: Option<seq<nat>>)
    ensures w.Some? ==> |w.value| == Pow2(refreshBits + windowBits)
  {
    Pow2Product(windowBits, refreshBits);
    assert windowBits + refreshBits == refreshBits + windowBits;
    ClosedWindow(samples, Pow2(refreshBits), Pow2(windowBits))
  }

  /** A metric's current block: the sums of that window. */
  function CurrentOf(samples: seq<nat>, refreshBits: nat, windowBits: nat): (current: Option<Block>)
    ensures var w := WindowOf(samples, refreshBits, windowBits);
            current == if w.Some? then Some(BlockOf(w.value)) else None
  {
    Expected(samples, Pow2(refreshBits), Pow2(windowBits)).current
  }

  /** The shared core: comparing `sum * den` with `num * (count * unit)` compares the mean. */
  lemma MeanCompare(xs: seq<nat>, unit: nat, num: nat, den: nat)
    requires xs != []
    ensures Sum(xs) * den > num * (|xs| * unit) <==> MeanAbove(xs, unit, num, den)
    ensures Sum(xs) * den < num * (|xs| * unit) <==> MeanBelow(xs, unit, num, den)
  {
    hide Sum;
    var n, m, d, t := |xs| as real, Mean(xs), den as real, (num * unit) as real;
    assert m * n == Sum(xs) as real;
    assert n * (m * d - t) == m * n * d - n * t;
    assert (Sum(xs) * den) as real == Sum(xs) as real * d;
    assert num * (|xs| * unit) == |xs| * (num * unit);
    assert (|xs| * (num * unit)) as real == n * t;
    SignReal(n, m * d - t);
  }

  function Scale(xs: seq<nat>, m: nat): (r: seq<nat>)
    ensures |r| == |xs|
  {
    seq(|xs|, i requires 0 <= i < |xs| => m * xs[i])
  }

  lemma {:induction false} ScaledSum(xs: seq<nat>, m: nat)
    ensures Sum(Scale(xs, m)) == m * Sum(xs)
  {
    if xs == [] {
    } else {
      var front, last := xs[..|xs| - 1], xs[|xs| - 1];
      ScaledSum(front, m);
      assert Scale(xs, m)[..|xs| - 1] == Scale(front, m);
      assert m * (Sum(front) + last) == m * Sum(front) + m * last;
    }
  }

  lemma ScaleSlice(xs: seq<nat>, m: nat, from: nat, to: nat)
    requires from <= to <= |xs|
    ensures Scale(xs, m)[from..to] == Scale(xs[from..to], m)
  {
  }

  /** The window of scaled samples is the scaled window. */
  lemma ScaledWindow(samples: seq<nat>, m: nat, refreshBits: nat, windowBits: nat)
    ensures var w := WindowOf(samples, refreshBits, windowBits);
            var scaled := WindowOf(Scale(samples, m), refreshBits, windowBits);
            (w.Some? <==> scaled.Some?) && (w.Some? ==> Sum(scaled.value) == m * Sum(w.value))
  {
    hide Sum, Scale, Pow2, Rotations, Before;
    var perBucket, buckets := Pow2(refreshBits), Pow2(windowBits);
    var k := Rotations(|samples|, perBucket);
    if buckets <= k {
      BeforeInPast(|samples|, perBucket, k - buckets);
      var from, to := Before(k - buckets, perBucket), Before(k, perBucket);
      ScaleSlice(samples, m, from, to);
      ScaledSum(samples[from..to], m);
    }
  }

  // ---- the triggers ----

  function Fills(frames: seq<ChannelFrame>): seq<nat> {
    seq(|frames|, i requires 0 <= i < |frames| => frames[i].filled)
  }

  function Rates(frames: seq<ChannelFrame>): seq<nat> {
    seq(|frames|, i requires 0 <= i < |frames| => frames[i].rate)
  }

  lemma McpuTriggerExact(samples: seq<nat>, refreshBits: nat, windowBits: nat, mcpu: nat)
    ensures Decides(McpuOrder(CurrentOf(samples, refreshBits, windowBits), refreshBits + windowBits, mcpu),
                    WindowOf(samples, refreshBits, windowBits), 1, mcpu, 1)
  {
    hide WindowOf, CurrentOf, Sum, Pow2;
    var w := WindowOf(samples, refreshBits, windowBits);
    if w.Some? {
      MeanCompare(w.value, 1, mcpu, 1);
    }
  }

  /** Load fires on the mean load as a fraction against the threshold as a fraction. */
  lemma WorkTriggerExact(samples: seq<nat>, refreshBits: nat, windowBits: nat, work: nat)
    ensures Decides(WorkOrder(CurrentOf(samples, refreshBits, windowBits), refreshBits + windowBits, work),
                    WindowOf(samples, refreshBits, windowBits), 100, work, 10_000)
  {
    hide WindowOf, CurrentOf, Sum, Pow2;
    var w := WindowOf(samples, refreshBits, windowBits);
    if w.Some? {
      MeanCompare(w.value, 100, work, 10_000);
      assert 100 * |w.value| * work == work * (|w.value| * 100);
    }
  }

  /** What a metric recorded a thousandfold compares with, given the unit of its threshold. */
  lemma ScaledCompare(raw: seq<nat>, refreshBits: nat, windowBits: nat, unit: nat, num: nat, den: nat)
    ensures var w := WindowOf(raw, refreshBits, windowBits);
            var current := CurrentOf(Scale(raw, PLACES_TENS), refreshBits, windowBits);
            (w.Some? <==> current.Some?)
            && (w.Some? ==>
                  var order := Compare(current.value.runner * den, PLACES_TENS * (num * (|w.value| * unit)));
                  (order == Greater <==> MeanAbove(w.value, unit, num, den))
                  && (order == Less <==> MeanBelow(w.value, unit, num, den)))
  {
    ScaledWindow(raw, PLACES_TENS, refreshBits, windowBits);
    hide WindowOf, CurrentOf, Sum, Pow2, Scale, MeanAbove, MeanBelow;
    var w := WindowOf(raw, refreshBits, windowBits);
    if w.Some? {
      var s := Sum(w.value);
      MeanCompare(w.value, unit, num, den);
      assert PLACES_TENS * s * den == PLACES_TENS * (s * den);
    }
  }

  /** Rate fires on messages per frame over milliseconds per frame. */
  lemma RateTriggerExact(frames: seq<ChannelFrame>, refreshBits: nat, windowBits: nat,
                         frameRateMs: nat, num: nat, den: nat)
    ensures Decides(RateOrder(CurrentOf(RateSamples(frames), refreshBits, windowBits),
                              refreshBits + windowBits, frameRateMs, num, den),
                    WindowOf(Rates(frames), refreshBits, windowBits), frameRateMs, num, den)
  {
    assert RateSamples(frames) == Scale(Rates(frames), PLACES_TENS);
    hide WindowOf, CurrentOf, Sum, Pow2, Scale, Rates, RateSamples;
    ScaledCompare(Rates(frames), refreshBits, windowBits, frameRateMs, num, den);
    var n := Pow2(refreshBits + windowBits);
    assert PLACES_TENS * (frameRateMs * n) * num == PLACES_TENS * (num * (n * frameRateMs));
  }

  /** A percentage fires on the mean fill as a fraction of the capacity. */
  lemma FilledPercentTriggerExact(frames: seq<ChannelFrame>, refreshBits: nat, windowBits: nat,
                                  capacity: nat, num: nat, den: nat)
    ensures Decides(FilledPercentOrder(CurrentOf(FilledSamples(frames), refreshBits, windowBits),
                                       refreshBits + windowBits, capacity, num, den),
                    WindowOf(Fills(frames), refreshBits, windowBits), capacity, num, den)
  {
    assert FilledSamples(frames) == Scale(Fills(frames), PLACES_TENS);
    hide WindowOf, CurrentOf, Sum, Pow2, Scale, Fills, FilledSamples;
    ScaledCompare(Fills(frames), refreshBits, windowBits, capacity, num, den);
    var n := Pow2(refreshBits + windowBits);
    assert num * PLACES_TENS * capacity * n == PLACES_TENS * (num * (n * capacity));
  }

  lemma FilledExactTriggerExact(frames: seq<ChannelFrame>, refreshBits: nat, windowBits: nat, exact: nat)
    ensures Decides(FilledExactOrder(CurrentOf(FilledSamples(frames), refreshBits, windowBits),
                                     refreshBits + windowBits, exact),
                    WindowOf(Fills(frames), refreshBits, windowBits), 1, exact, 1)
  {
    assert FilledSamples(frames) == Scale(Fills(frames), PLACES_TENS);
    hide WindowOf, CurrentOf, Sum, Pow2, Scale, Fills, FilledSamples;
    ScaledCompare(Fills(frames), refreshBits, windowBits, 1, exact, 1);
    var n := Pow2(refreshBits + windowBits);
    assert exact * PLACES_TENS * n == PLACES_TENS * (exact * (n * 1));
  }

  /** Latency is compared exactly like the rest, but with the whole microseconds of the threshold. */
  lemma LatencyTriggerExact(samples: seq<nat>, refreshBits: nat, windowBits: nat, nanos: nat)
    ensures Decides(LatencyOrder(CurrentOf(samples, refreshBits, windowBits), refreshBits + windowBits, nanos),
                    WindowOf(samples, refreshBits, windowBits), 1, nanos / 1000, 1)
  {
    hide WindowOf, CurrentOf, Sum, Pow2, MeanAbove, MeanBelow;
    var w := WindowOf(samples, refreshBits, windowBits);
    if w.Some? {
      MeanCompare(w.value, 1, nanos / 1000, 1);
    }
  }

  /** The trigger agrees with the real threshold, in nanoseconds, on these frames. */
  ghost predicate AboveRight(
    frames: seq<ChannelFrame>, refreshBits: nat, windowBits: nat, frameRateMs: nat, nanos: nat)
  {
    var samples := LatencySamples(frames, frameRateMs);
    var w := WindowOf(samples, refreshBits, windowBits);
    LatencyOrder(CurrentOf(samples, refreshBits, windowBits), refreshBits + windowBits, nanos) == Greater
    <==> w.Some? && MeanAbove(w.value, 1, nanos, 1000)
  }

  ghost predicate BelowRight(
    frames: seq<ChannelFrame>, refreshBits: nat, windowBits: nat, frameRateMs: nat, nanos: nat)
  {
    var samples := LatencySamples(frames, frameRateMs);
    var w := WindowOf(samples, refreshBits, windowBits);
    LatencyOrder(CurrentOf(samples, refreshBits, windowBits), refreshBits + windowBits, nanos) == Less
    <==> w.Some? && MeanBelow(w.value, 1, nanos, 1000)
  }

  /** In whole numbers: which window sums the dropped nanoseconds put on the wrong side. */
  lemma LatencyRightIff(frames: seq<ChannelFrame>, refreshBits: nat, windowBits: nat, frameRateMs: nat, nanos: nat)
    ensures var w := WindowOf(LatencySamples(frames, frameRateMs), refreshBits, windowBits);
            var n := Pow2(refreshBits + windowBits);
            var q, f := nanos / 1000 * n, n * (nanos % 1000);
            (AboveRight(frames, refreshBits, windowBits, frameRateMs, nanos)
             <==> (w.Some? ==> (Sum(w.value) > q <==> 1000 * Sum(w.value) > 1000 * q + f)))
            && (BelowRight(frames, refreshBits, windowBits, frameRateMs, nanos)
                <==> (w.Some? ==> (Sum(w.value) < q <==> 1000 * Sum(w.value) < 1000 * q + f)))
  {
    hide WindowOf, CurrentOf, Sum, Pow2, MeanAbove, MeanBelow, LatencySamples;
    var samples := LatencySamples(frames, frameRateMs);
    var w, n := WindowOf(samples, refreshBits, windowBits), Pow2(refreshBits + windowBits);
    if w.Some? {
      MeanCompare(w.value, 1, nanos, 1000);
      WholeAndRest(nanos, n);
    }
  }

  lemma WholeAndRest(nanos: nat, n: nat)
    ensures nanos * n == 1000 * (nanos / 1000 * n) + n * (nanos % 1000)
  {
    assert nanos == 1000 * (nanos / 1000) + nanos % 1000;
    assert (1000 * (nanos / 1000) + nanos % 1000) * n == 1000 * (nanos / 1000 * n) + n * (nanos % 1000);
  }

  /** Frames that record the given latencies. */
  function Recording(values: seq<nat>, frameRateMs: nat): seq<ChannelFrame> {
    seq(|values|, i requires 0 <= i < |values| => ChannelFrame(values[i], frameRateMs * 1000))
  }

  lemma RecordingRecords(values: seq<nat>, frameRateMs: nat)
    requires 0 < frameRateMs
    ensures LatencySamples(Recording(values, frameRateMs), frameRateMs) == values
  {
    forall i | 0 <= i < |values|
      ensures LatencyMicros(ChannelFrame(values[i], frameRateMs * 1000), frameRateMs) == values[i]
    {
      ModUnique(values[i] * (frameRateMs * 1000), frameRateMs * 1000, values[i], 0);
    }
  }

  /** A history of exactly one window length is its own window. */
  lemma FullWindow(samples: seq<nat>, refreshBits: nat, windowBits: nat)
    requires |samples| == Pow2(refreshBits + windowBits)
    ensures WindowOf(samples, refreshBits, windowBits) == Some(samples)
  {
    hide Pow2;
    var perBucket, buckets := Pow2(refreshBits), Pow2(windowBits);
    Pow2Product(windowBits, refreshBits);
    assert windowBits + refreshBits == refreshBits + windowBits;
    ModUnique(|samples|, perBucket, buckets, 0) by {
      assert perBucket * buckets == buckets * perBucket;
    }
    assert Before(0, perBucket) == 0 && samples[0..|samples|] == samples;
  }

  /** `n` latencies of `q`, the last of them `extra` more. */
  function Level(n: nat, q: nat, extra: nat): (r: seq<nat>)
    ensures |r| == n
  {
    seq(n, i requires 0 <= i < n => if i == n - 1 then q + extra else q)
  }

  lemma {:induction false} LevelSum(n: nat, q: nat, extra: nat)
    requires 0 < n
    ensures Sum(Level(n, q, extra)) == q * n + extra
  {
    assert Level(n, q, extra)[..n - 1] == Level(n - 1, q, 0);
    if n == 1 {
    } else {
      LevelSum(n - 1, q, 0);
      assert q * n == q * (n - 1) + q;
    }
  }

  /** No frame of a channel of this capacity shows more messages in flight than it holds. */
  predicate FillsWithin(frames: seq<ChannelFrame>, capacity: nat) {
    forall i :: 0 <= i < |frames| ==> frames[i].filled <= capacity
  }

  /** Any sum is the sum of a window of frames that can be recorded. */
  lemma SumRecorded(refreshBits: nat, windowBits: nat, frameRateMs: nat, q: nat, extra: nat)
    returns (frames: seq<ChannelFrame>)
    requires 0 < frameRateMs
    ensures FillsWithin(frames, q + extra)
    ensures var w := WindowOf(LatencySamples(frames, frameRateMs), refreshBits, windowBits);
            w.Some? && Sum(w.value) == q * Pow2(refreshBits + windowBits) + extra
  {
    hide Pow2, WindowOf, LatencySamples, Sum, Level;
    var n := Pow2(refreshBits + windowBits);
    frames := Recording(Level(n, q, extra), frameRateMs);
    RecordingRecords(Level(n, q, extra), frameRateMs);
    FullWindow(Level(n, q, extra), refreshBits, windowBits);
    LevelSum(n, q, extra);
    LevelWithin(n, q, extra, frameRateMs);
  }

  lemma LevelWithin(n: nat, q: nat, extra: nat, frameRateMs: nat)
    ensures FillsWithin(Recording(Level(n, q, extra), frameRateMs), q + extra)
  {
  }

  /** Without a frame rate every latency is zero. */
  lemma NoRateNoLatency(frames: seq<ChannelFrame>, refreshBits: nat, windowBits: nat)
    ensures var w := WindowOf(LatencySamples(frames, 0), refreshBits, windowBits);
            w.Some? ==> Sum(w.value) == 0
  {
    hide Pow2, Sum;
    var samples := LatencySamples(frames, 0);
    var w := WindowOf(samples, refreshBits, windowBits);
    if w.Some? {
      forall i | 0 <= i < |samples|
        ensures samples[i] == 0
      {
        assert frames[i].filled * (0 * 1000) == 0;
      }
      SumBound(w.value, 0);
    }
  }

  /** "Above" is right for all frames exactly when the nanoseconds dropped from the threshold are less
      than one unit of the mean, or no latency can be recorded at all; the same within any capacity above
      the threshold's microseconds. */
  lemma LatencyAboveRightIff(refreshBits: nat, windowBits: nat, frameRateMs: nat, nanos: nat, capacity: nat)
    ensures var always := forall frames :: AboveRight(frames, refreshBits, windowBits, frameRateMs, nanos);
            always <==> frameRateMs == 0 || Pow2(refreshBits + windowBits) * (nanos % 1000) < 1000
    ensures var within := forall frames ::
              FillsWithin(frames, capacity) ==> AboveRight(frames, refreshBits, windowBits, frameRateMs, nanos);
            nanos / 1000 < capacity ==>
              (within <==> frameRateMs == 0 || Pow2(refreshBits + windowBits) * (nanos % 1000) < 1000)
  {
    hide AboveRight, WindowOf, LatencySamples, Sum, Pow2;
    var n := Pow2(refreshBits + windowBits);
    if frameRateMs == 0 || n * (nanos % 1000) < 1000 {
      forall frames
        ensures AboveRight(frames, refreshBits, windowBits, frameRateMs, nanos)
      {
        LatencyRightIff(frames, refreshBits, windowBits, frameRateMs, nanos);
        NoRateNoLatency(frames, refreshBits, windowBits);
      }
    } else {
      var frames := SumRecorded(refreshBits, windowBits, frameRateMs, nanos / 1000, 1);
      LatencyRightIff(frames, refreshBits, windowBits, frameRateMs, nanos);
    }
  }

  /** "Below" is right for all frames exactly when no nanoseconds are dropped, or when no latency can be
      recorded and the threshold is at least a microsecond; the same within any capacity that reaches the
      threshold's microseconds. */
  lemma LatencyBelowRightIff(refreshBits: nat, windowBits: nat, frameRateMs: nat, nanos: nat, capacity: nat)
    ensures var always := forall frames :: BelowRight(frames, refreshBits, windowBits, frameRateMs, nanos);
            always <==> nanos % 1000 == 0 || (frameRateMs == 0 && 1000 <= nanos)
    ensures var within := forall frames ::
              FillsWithin(frames, capacity) ==> BelowRight(frames, refreshBits, windowBits, frameRateMs, nanos);
            nanos / 1000 <= capacity ==>
              (within <==> nanos % 1000 == 0 || (frameRateMs == 0 && 1000 <= nanos))
  {
    hide BelowRight, WindowOf, LatencySamples, Sum, Pow2;
    var n := Pow2(refreshBits + windowBits);
    Sign(n, nanos % 1000);
    if nanos % 1000 == 0 || (frameRateMs == 0 && 1000 <= nanos) {
      Sign(n, nanos / 1000);
      forall frames
        ensures BelowRight(frames, refreshBits, windowBits, frameRateMs, nanos)
      {
        LatencyRightIff(frames, refreshBits, windowBits, frameRateMs, nanos);
        NoRateNoLatency(frames, refreshBits, windowBits);
      }
    } else {
      var frames := BelowWitness(refreshBits, windowBits, frameRateMs, nanos / 1000);
      LatencyRightIff(frames, refreshBits, windowBits, frameRateMs, nanos);
    }
  }

  /** A window whose sum is exactly `q` a frame; with no frame rate only `q == 0` can be had. */
  lemma BelowWitness(refreshBits: nat, windowBits: nat, frameRateMs: nat, q: nat) returns (frames: seq<ChannelFrame>)
    requires 0 < frameRateMs || q == 0
    ensures FillsWithin(frames, q)
    ensures var w := WindowOf(LatencySamples(frames, frameRateMs), refreshBits, windowBits);
            w.Some? && Sum(w.value) == q * Pow2(refreshBits + windowBits)
  {
    hide Pow2, WindowOf, LatencySamples, Sum;
    if 0 < frameRateMs {
      frames := SumRecorded(refreshBits, windowBits, frameRateMs, q, 0);
    } else {
      frames := Recording(Level(Pow2(refreshBits + windowBits), 0, 0), 0);
      assert |LatencySamples(frames, 0)| == |frames| by {
        SamplesLength(frames, 0);
      }
      FullWindow(LatencySamples(frames, 0), refreshBits, windowBits);
      NoRateNoLatency(frames, refreshBits, windowBits);
      LevelWithin(Pow2(refreshBits + windowBits), 0, 0, 0);
    }
  }

  lemma SamplesLength(frames: seq<ChannelFrame>, frameRateMs: nat)
    ensures |LatencySamples(frames, frameRateMs)| == |frames|
  {
  }

  /** A mean of 1 microsecond is not reported as below 1.5 microseconds. */
  lemma LatencyBelowMisses()
    ensures var frames := [ChannelFrame(1, 1000)];
            var w := WindowOf(LatencySamples(frames, 1), 0, 0);
            w == Some([1]) && MeanBelow(w.value, 1, 1500, 1000)
            && LatencyOrder(CurrentOf(LatencySamples(frames, 1), 0, 0), 0, 1500) == Equal
  {
    hide CurrentOf;
    assert LatencySamples([ChannelFrame(1, 1000)], 1) == [1];
    FullWindow([1], 0, 0);
    assert Sum([1]) == 1;
  }

  /** A mean of 1.5 microseconds is reported as above 1.999 microseconds. */
  lemma LatencyAboveMisfires()
    ensures var frames := [ChannelFrame(1, 1000), ChannelFrame(2, 1000)];
            var w := WindowOf(LatencySamples(frames, 1), 0, 1);
            w == Some([1, 2]) && MeanBelow(w.value, 1, 1999, 1000)
            && LatencyOrder(CurrentOf(LatencySamples(frames, 1), 0, 1), 1, 1999) == Greater
  {
    hide CurrentOf;
    assert LatencySamples([ChannelFrame(1, 1000), ChannelFrame(2, 1000)], 1) == [1, 2];
    assert Pow2(1) == 2;
    FullWindow([1, 2], 0, 1);
    assert [1, 2][..1] == [1] && Sum([1]) == 1 && Sum([1, 2]) == 3;
  }

  // ---- whole percent ----

  /** `avg_filled_whole_percent`. */
  function WholePercent(showAvg: bool, current: Option<Block>, bits: nat, capacity: nat): Option<nat> {
    if !showAvg || current.None? || current.value.runner == 0 || 10 * capacity == 0 then None
    else Some(Min(Floor(Floor(current.value.runner, Pow2(bits)), 10 * capacity), 100))
  }

  /** The integer average of `compute_labels`; the fill passes the adjustment `(1, 10 * capacity)`. */
  function LabelInteger(current: Block, bits: nat, adjustNum: nat, adjustDen: nat): nat
    requires 0 < adjustDen
  {
    Floor(Floor(adjustNum * current.runner, Pow2(bits)), adjustDen)
  }

  lemma PercentArithmetic(sum: nat, n: nat, capacity: nat)
    requires 0 < n && 0 < capacity
    ensures 0 < capacity * n
    ensures Floor(Floor(PLACES_TENS * sum, n), 10 * capacity) == Floor(100 * sum, capacity * n)
  {
    hide Floor;
    NestedFloor(PLACES_TENS * sum, n, 10 * capacity);
    Sign(capacity, n);
    CancelTen(100 * sum, capacity * n);
    assert n * (10 * capacity) == 10 * (capacity * n) && PLACES_TENS * sum == 10 * (100 * sum);
  }

  /** Shifting and dividing in two steps loses nothing: the label is the floor of the exact fill
      percentage of the window, clamped, and before clamping it is what `compute_labels` prints. */
  lemma WholePercentIsFloor(
    showAvg: bool, frames: seq<ChannelFrame>, refreshBits: nat, windowBits: nat, capacity: nat)
    requires 0 < capacity
    ensures var bits, current := refreshBits + windowBits, CurrentOf(FilledSamples(frames), refreshBits, windowBits);
            var w := WindowOf(Fills(frames), refreshBits, windowBits);
            var percent := WholePercent(showAvg, current, bits, capacity);
            (percent.Some? <==> showAvg && w.Some? && Sum(w.value) != 0)
            && (percent.Some? ==>
                  0 < capacity * Pow2(bits)
                  && percent.value == Min(Floor(100 * Sum(w.value), capacity * Pow2(bits)), 100)
                  && percent.value == Min(LabelInteger(current.value, bits, 1, 10 * capacity), 100))
  {
    assert FilledSamples(frames) == Scale(Fills(frames), PLACES_TENS);
    ScaledWindow(Fills(frames), PLACES_TENS, refreshBits, windowBits);
    hide WindowOf, CurrentOf, Sum, Pow2, Scale, Fills, FilledSamples, Floor;
    var w := WindowOf(Fills(frames), refreshBits, windowBits);
    if w.Some? {
      PercentArithmetic(Sum(w.value), Pow2(refreshBits + windowBits), capacity);
    }
  }

  /** Whenever an "average above n percent" trigger fires, the label shows at least `n`. */
  lemma LabelCoversTrigger(current: Option<Block>, bits: nat, capacity: nat, n: nat)
    requires 0 < capacity && FilledPercentOrder(current, bits, capacity, n, 100) == Greater
    ensures var percent := WholePercent(true, current, bits, capacity);
            percent.Some? && Min(n, 100) <= percent.value
  {
    hide Pow2, Floor;
    var runner, size := current.value.runner, Pow2(bits);
    var unit := size * (10 * capacity);
    NestedFloor(runner, size, 10 * capacity);
    assert n * PLACES_TENS * capacity * size == 100 * (unit * n);
    FloorBounds(runner, unit, n);
  }

  // ---- integer variance ----

  /** The integer branch of `compute_std_dev`, up to the square root. */
  function VarianceUnderRoot(bits: nat, runner: nat, sumSqr: nat): nat {
    var r2Scaled := Floor(runner * runner, Pow2(bits));
    if sumSqr > r2Scaled then Floor(sumSqr - r2Scaled, Pow2(bits)) else 0
  }

  function Square(d: int): (s: nat)
    ensures s == 0 <==> d == 0
  {
    if d < 0 then -d * -d else d * d
  }

  /** Sum of squared distances of the samples from `x`. */
  function Spread(xs: seq<nat>, x: nat): nat {
    if xs == [] then 0 else Spread(xs[..|xs| - 1], x) + Square(xs[|xs| - 1] - x)
  }

  lemma SquareOfDifference(a: nat, b: nat)
    ensures Square(a - b) == a * a - 2 * (a * b) + b * b
  {
    assert (a - b) * (a - b) == a * a - 2 * (a * b) + b * b;
  }

  lemma SpreadStep(s: nat, n: nat, last: nat, x: nat)
    ensures (s + last) * x == s * x + last * x && (n + 1) * (x * x) == n * (x * x) + x * x
  {
  }

  lemma {:induction false} SpreadFormula(xs: seq<nat>, x: nat)
    ensures Spread(xs, x) == SumOfSquares(xs) - 2 * (Sum(xs) * x) + |xs| * (x * x)
  {
    hide Square;
    if xs == [] {
    } else {
      var front, last := xs[..|xs| - 1], xs[|xs| - 1];
      SpreadFormula(front, x);
      SquareOfDifference(last, x);
      SpreadStep(Sum(front), |front|, last, x);
    }
  }

  predicate AllEqual(xs: seq<nat>) {
    forall i, j :: 0 <= i < j < |xs| ==> xs[i] == xs[j]
  }

  lemma {:induction false} SpreadZeroIff(xs: seq<nat>, x: nat)
    ensures Spread(xs, x) == 0 <==> forall i :: 0 <= i < |xs| ==> xs[i] == x
  {
    hide Square;
    if xs == [] {
    } else {
      SpreadZeroIff(xs[..|xs| - 1], x);
    }
  }

  /** Adding one sample to the front widens the gap of the inequality by exactly the spread. */
  lemma GapGrows(n: nat, s: nat, q: nat, x: nat)
    ensures (n + 1) * (q + x * x) - (s + x) * (s + x) == (n * q - s * s) + (q - 2 * (s * x) + n * (x * x))
  {
    assert (n + 1) * (q + x * x) == n * q + n * (x * x) + q + x * x;
    assert (s + x) * (s + x) == s * s + 2 * (s * x) + x * x;
  }

  /** Cauchy-Schwarz, with its equality case. */
  lemma {:induction false} CauchySchwarz(xs: seq<nat>)
    ensures Sum(xs) * Sum(xs) <= |xs| * SumOfSquares(xs)
    ensures Sum(xs) * Sum(xs) == |xs| * SumOfSquares(xs) <==> AllEqual(xs)
  {
    hide Spread;
    if xs == [] {
    } else {
      var front, x := xs[..|xs| - 1], xs[|xs| - 1];
      CauchySchwarz(front);
      SpreadFormula(front, x);
      SpreadZeroIff(front, x);
      GapGrows(|front|, Sum(front), SumOfSquares(front), x);
      AllEqualFront(xs);
    }
  }

  lemma AllEqualFront(xs: seq<nat>)
    requires xs != []
    ensures AllEqual(xs) <==>
              AllEqual(xs[..|xs| - 1]) && forall i :: 0 <= i < |xs| - 1 ==> xs[i] == xs[|xs| - 1]
  {
    var front, last := xs[..|xs| - 1], xs[|xs| - 1];
    if AllEqual(front) && forall i :: 0 <= i < |xs| - 1 ==> xs[i] == last {
      forall i, j | 0 <= i < j < |xs|
        ensures xs[i] == xs[j]
      {
        assert i < |xs| - 1;
      }
    }
    if AllEqual(xs) {
      forall i, j | 0 <= i < j < |front|
        ensures front[i] == front[j]
      {
        assert xs[i] == xs[j];
      }
    }
  }

  /** For any window of `2^bits` samples the subtraction under the root never goes below zero, and
      is zero exactly for a constant window. */
  lemma VarianceSafe(xs: seq<nat>, bits: nat)
    requires |xs| == Pow2(bits)
    ensures Floor(Sum(xs) * Sum(xs), Pow2(bits)) <= SumOfSquares(xs)
    ensures Floor(Sum(xs) * Sum(xs), Pow2(bits)) == SumOfSquares(xs) <==> AllEqual(xs)
  {
    hide Sum, SumOfSquares, Pow2, AllEqual, Floor;
    CauchySchwarz(xs);
    var square, n, q := Sum(xs) * Sum(xs), |xs|, SumOfSquares(xs);
    FloorBounds(square, n, q);
    FloorBounds(square, n, q + 1);
    assert n * (q + 1) == n * q + n;
  }

  /** Two roundings down, one under the other, stay within one of the exact quotient. */
  lemma RoundedTwice(a: nat, n: nat, q: nat)
    requires 0 < n && Floor(a, n) <= q
    ensures var exact := (q as real - a as real / n as real) / n as real;
            -1.0 < Floor(q - Floor(a, n), n) as real - exact <= 1.0
  {
    hide Floor;
    var d, rn := q - Floor(a, n), n as real;
    var x := q as real - a as real / rn;
    FloorIsClose(a, n);
    FloorIsClose(d, n);
    // `x` lies in (d - 1, d], so `x / n` lies between `d / n - 1` and `d / n`.
    assert d as real - rn < x <= d as real;
    DivideMonotone(d as real, x, rn);
    DivideMonotone(d as real - rn, x, rn);
    LessOneStep(d as real, rn);
  }

  lemma RootIsQuotient(bits: nat, runner: nat, sumSqr: nat)
    requires Floor(runner * runner, Pow2(bits)) <= sumSqr
    ensures VarianceUnderRoot(bits, runner, sumSqr)
            == Floor(sumSqr - Floor(runner * runner, Pow2(bits)), Pow2(bits))
  {
    FloorBounds(0, Pow2(bits), 0);
  }

  /** The integer under the root is within one of the true variance of the window. */
  lemma VarianceWithinOne(xs: seq<nat>, bits: nat)
    requires |xs| == Pow2(bits)
    ensures var n, square, q := |xs| as real, (Sum(xs) * Sum(xs)) as real, SumOfSquares(xs) as real;
            -1.0 < VarianceUnderRoot(bits, Sum(xs), SumOfSquares(xs)) as real - (q - square / n) / n <= 1.0
  {
    VarianceSafe(xs, bits);
    RootIsQuotient(bits, Sum(xs), SumOfSquares(xs));
    hide Sum, SumOfSquares, Pow2, AllEqual, Floor, VarianceUnderRoot;
    RoundedTwice(Sum(xs) * Sum(xs), |xs|, SumOfSquares(xs));
  }

  // ---- bounds ----

  lemma {:induction false} SumBound(xs: seq<nat>, top: nat)
    requires forall i :: 0 <= i < |xs| ==> xs[i] <= top
    ensures Sum(xs) <= top * |xs|
  {
    if xs == [] {
    } else {
      SumBound(xs[..|xs| - 1], top);
      assert top * |xs| == top * (|xs| - 1) + top;
    }
  }

  /** An actor's mCPU window never sums to more than 1024 per frame. */
  lemma McpuWindowBound(samples: seq<nat>, refreshBits: nat, windowBits: nat)
    requires forall i :: 0 <= i < |samples| ==> samples[i] <= 1024
    ensures var current := CurrentOf(samples, refreshBits, windowBits);
            current.Some? ==> current.value.runner <= 1024 * Pow2(refreshBits + windowBits)
  {
    var w := WindowOf(samples, refreshBits, windowBits);
    hide CurrentOf, Expected, Pow2, Sum;
    if w.Some? {
      SumBound(w.value, 1024);
    }
  }

  /** So it is for the live statistics of an actor, whatever status updates they were fed. */
  lemma LiveMcpuBound(c: ActorStatsComputer)
    requires c.Valid()
    ensures c.mcpu.current.Some? ==>
              c.mcpu.current.value.runner <= 1024 * Pow2(c.refreshRateInBits + c.windowBucketInBits)
  {
    McpuWindowBound(McpuSamples(c.frames), c.refreshRateInBits, c.windowBucketInBits);
  }
}
