/** The two telemetry accumulators: per channel (fill, rate, latency) and per
    actor (mCPU, load). Each field-by-field update is proved to leave every
    history and every window equal to the recomputation of `Windows` over all
    the samples recorded since `init`. */
module StatsComputers {
  import opened Rings
  import opened Windows

  const PLACES_TENS: nat := 1000

  /** One telemetry frame of a channel: messages in flight, messages taken. */
  datatype ChannelFrame = ChannelFrame(filled: nat, rate: nat)

  function LatencyMicros(f: ChannelFrame, frameRateMs: nat): nat {
    if f.rate == 0 then 0 else f.filled * (frameRateMs * 1000) / f.rate
  }

  /** A latency sample: what is in flight over what is taken a microsecond, rounded down; zero when
      nothing is taken. */
  predicate IsLatency(micros: nat, f: ChannelFrame, frameRateMs: nat) {
    if f.rate == 0 then micros == 0
    else micros * f.rate <= f.filled * frameRateMs * 1000 < (micros + 1) * f.rate
  }

  lemma LatencyRounded(f: ChannelFrame, frameRateMs: nat)
    ensures IsLatency(LatencyMicros(f, frameRateMs), f, frameRateMs)
  {
    if f.rate != 0 {
      var all, r := f.filled * (frameRateMs * 1000), LatencyMicros(f, frameRateMs);
      assert all == f.filled * frameRateMs * 1000;
      assert all == f.rate * r + all % f.rate;
      assert (r + 1) * f.rate == f.rate * r + f.rate && r * f.rate == f.rate * r;
    }
  }

  function FilledSamples(frames: seq<ChannelFrame>): seq<nat> {
    seq(|frames|, i requires 0 <= i < |frames| => PLACES_TENS * frames[i].filled)
  }

  function RateSamples(frames: seq<ChannelFrame>): seq<nat> {
    seq(|frames|, i requires 0 <= i < |frames| => PLACES_TENS * frames[i].rate)
  }

  function LatencySamples(frames: seq<ChannelFrame>, frameRateMs: nat): seq<nat> {
    seq(|frames|, i requires 0 <= i < |frames| => LatencyMicros(frames[i], frameRateMs))
  }

  lemma SamplesAppend(frames: seq<ChannelFrame>, f: ChannelFrame, frameRateMs: nat)
    ensures FilledSamples(frames + [f]) == FilledSamples(frames) + [PLACES_TENS * f.filled]
    ensures RateSamples(frames + [f]) == RateSamples(frames) + [PLACES_TENS * f.rate]
    ensures LatencySamples(frames + [f], frameRateMs)
            == LatencySamples(frames, frameRateMs) + [LatencyMicros(f, frameRateMs)]
  {
  }

  /** What is recorded of frame `i`: a thousandfold of what is in flight and of what is taken, and the latency. */
  lemma SamplesRecord(frames: seq<ChannelFrame>, frameRateMs: nat, i: nat)
    requires i < |frames|
    ensures |FilledSamples(frames)| == |RateSamples(frames)| == |LatencySamples(frames, frameRateMs)| == |frames|
    ensures FilledSamples(frames)[i] == 1000 * frames[i].filled && RateSamples(frames)[i] == 1000 * frames[i].rate
    ensures IsLatency(LatencySamples(frames, frameRateMs)[i], frames[i], frameRateMs)
  {
    hide LatencyMicros, IsLatency;
    LatencyRounded(frames[i], frameRateMs);
  }

  // ---- cumulative counters that may restart ----

  function Latest(takes: seq<nat>): nat {
    if takes == [] then 0 else takes[|takes| - 1]
  }

  /** The take values seen just before each rollback, added up. */
  function BeforeRollbacks(takes: seq<nat>): nat {
    if |takes| < 2 then 0
    else
      var n := |takes|;
      BeforeRollbacks(takes[..n - 1]) + if takes[n - 1] < takes[n - 2] then takes[n - 2] else 0
  }

  function RateTotal(frames: seq<ChannelFrame>): nat {
    if frames == [] then 0 else RateTotal(frames[..|frames| - 1]) + frames[|frames| - 1].rate
  }

  class ChannelStatsComputer {
    const capacity: nat
    const frameRateMs: nat
    const refreshRateInBits: nat
    const windowBucketInBits: nat
    var filled: Rolling
    var rate: Rolling
    var latency: Rolling
    var bucketFramesCount: nat
    var prevTake: nat
    var totalConsumed: nat
    /** Every frame accumulated and every take value computed with, since `init`. */
    ghost var frames: seq<ChannelFrame>
    ghost var takes: seq<nat>

    ghost function PerBucket(): (p: nat)
      ensures 0 < p
    {
      Pow2(refreshRateInBits)
    }

    ghost function Buckets(): (p: nat)
      ensures 0 < p
    {
      Pow2(windowBucketInBits)
    }

    /** All three metrics equal the recomputation, so their histories have one length. */
    ghost predicate Windowed()
      reads this
    {
      bucketFramesCount == |frames| % PerBucket()
      && filled == Expected(FilledSamples(frames), PerBucket(), Buckets())
      && rate == Expected(RateSamples(frames), PerBucket(), Buckets())
      && latency == Expected(LatencySamples(frames, frameRateMs), PerBucket(), Buckets())
    }

    ghost predicate Valid()
      reads this
    {
      Windowed() && prevTake == Latest(takes)
      && totalConsumed == Latest(takes) + BeforeRollbacks(takes)
      && totalConsumed == RateTotal(frames)
    }

    /** `init`. */
    constructor (capacity: nat, frameRateMs: nat, refreshRateInBits: nat, windowBucketInBits: nat)
      requires 0 < capacity
      ensures Valid() && frames == [] && takes == []
      ensures this.capacity == capacity && this.frameRateMs == frameRateMs
      ensures this.refreshRateInBits == refreshRateInBits && this.windowBucketInBits == windowBucketInBits
    {
      this.capacity, this.frameRateMs := capacity, frameRateMs;
      this.refreshRateInBits, this.windowBucketInBits := refreshRateInBits, windowBucketInBits;
      filled := Rolling([Block(0, 0)], None);
      rate := Rolling([Block(0, 0)], None);
      latency := Rolling([Block(0, 0)], None);
      bucketFramesCount, prevTake, totalConsumed := 0, 0, 0;
      frames, takes := [], [];
      new;
      EmptyExpected(PerBucket(), Buckets());
    }

    /** `accumulate_data_frame`. */
    method AccumulateDataFrame(filled: nat, rate: nat)
      requires Windowed()
      modifies this`filled, this`rate, this`latency, this`bucketFramesCount, this`frames
      ensures Windowed() && frames == old(frames) + [ChannelFrame(filled, rate)]
      ensures var n, samples := |old(frames)|, LatencySamples(frames, frameRateMs);
              FilledSamples(frames)[n] == 1000 * filled && RateSamples(frames)[n] == 1000 * rate
              && IsLatency(samples[n], ChannelFrame(filled, rate), frameRateMs)
    {
      ghost var f, n := ChannelFrame(filled, rate), |frames|;
      SamplesAppend(frames, f, frameRateMs);
      FrameKeepsExpected(FilledSamples(frames), PLACES_TENS * filled, PerBucket(), Buckets());
      FrameKeepsExpected(RateSamples(frames), PLACES_TENS * rate, PerBucket(), Buckets());
      FrameKeepsExpected(LatencySamples(frames, frameRateMs), LatencyMicros(f, frameRateMs), PerBucket(), Buckets());
      NextQuotient(n, PerBucket());

      var filledHistory := AddFrame(this.filled.history, PLACES_TENS * filled);
      var rateHistory := AddFrame(this.rate.history, PLACES_TENS * rate);
      var latencyMicros := if rate == 0 then 0 else filled * (frameRateMs * 1000) / rate;
      var latencyHistory := AddFrame(latency.history, latencyMicros);
      this.filled := this.filled.(history := filledHistory);
      this.rate := this.rate.(history := rateHistory);
      latency := latency.(history := latencyHistory);

      bucketFramesCount := bucketFramesCount + 1;
      if bucketFramesCount >= Pow2(refreshRateInBits) {
        bucketFramesCount := 0;
        this.filled := RotateBlocks(this.filled, Pow2(windowBucketInBits));
        this.rate := RotateBlocks(this.rate, Pow2(windowBucketInBits));
        latency := RotateBlocks(latency, Pow2(windowBucketInBits));
      }
      frames := frames + [f];
      SamplesRecord(frames, frameRateMs, n);
    }

    /** The counter part of `compute`: a take below the previous one is a restarted counter. The
        running total never decreases, whatever the restarts. */
    method Compute(send: nat, take: nat) returns (inflight: nat)
      requires Valid() && 0 < capacity && take <= send
      modifies this
      ensures Valid() && takes == old(takes) + [take] && inflight == send - take
      ensures old(totalConsumed) <= totalConsumed
      ensures exists delta :: frames == old(frames) + [ChannelFrame(inflight, delta)]
                              && totalConsumed == old(totalConsumed) + delta
    {
      hide Expected, Pow2;
      inflight := send - take;
      var deltaConsumed := if take >= prevTake then take - prevTake else take;
      totalConsumed := totalConsumed + deltaConsumed;
      ghost var before := frames;
      AccumulateDataFrame(inflight, deltaConsumed);
      assert frames[..|before|] == before;
      assert (takes + [take])[..|takes|] == takes;
      prevTake := take;
      takes := takes + [take];
    }
  }

  lemma EmptyExpected(perBucket: nat, buckets: nat)
    requires 0 < perBucket && 0 < buckets
    ensures Expected([], perBucket, buckets) == Rolling([Block(0, 0)], None)
  {
    assert Rotations(0, perBucket) == 0;
    BeforeInPast(0, perBucket, 0);
    var none: seq<nat> := [];
    assert none[0..] == none;
    assert OpenBlocks(none, perBucket, buckets) == [BlockOf(none)];
  }

  datatype ActorFrame = ActorFrame(mcpu: nat, load: nat)

  function McpuSamples(frames: seq<ActorFrame>): seq<nat> {
    seq(|frames|, i requires 0 <= i < |frames| => frames[i].mcpu)
  }

  function LoadSamples(frames: seq<ActorFrame>): seq<nat> {
    seq(|frames|, i requires 0 <= i < |frames| => frames[i].load)
  }

  class ActorStatsComputer {
    const refreshRateInBits: nat
    const windowBucketInBits: nat
    var mcpu: Rolling
    var work: Rolling
    var bucketFramesCount: nat
    ghost var frames: seq<ActorFrame>

    ghost predicate Valid()
      reads this
    {
      var perBucket, buckets := Pow2(refreshRateInBits), Pow2(windowBucketInBits);
      bucketFramesCount == |frames| % perBucket
      && (forall i :: 0 <= i < |frames| ==> frames[i].mcpu <= 1024)
      && mcpu == Expected(McpuSamples(frames), perBucket, buckets)
      && work == Expected(LoadSamples(frames), perBucket, buckets)
    }

    /** `init`. */
    constructor (refreshRateInBits: nat, windowBucketInBits: nat)
      ensures Valid() && frames == []
      ensures this.refreshRateInBits == refreshRateInBits && this.windowBucketInBits == windowBucketInBits
    {
      this.refreshRateInBits, this.windowBucketInBits := refreshRateInBits, windowBucketInBits;
      mcpu, work := Rolling([Block(0, 0)], None), Rolling([Block(0, 0)], None);
      bucketFramesCount := 0;
      frames := [];
      new;
      EmptyExpected(Pow2(refreshRateInBits), Pow2(windowBucketInBits));
    }

    /** `accumulate_data_frame`; the source asserts the bound on `mcpu`. */
    method AccumulateDataFrame(mcpu: nat, work: nat)
      requires Valid() && mcpu <= 1024
      modifies this
      ensures Valid() && frames == old(frames) + [ActorFrame(mcpu, work)]
      ensures McpuSamples(frames)[|old(frames)|] == mcpu && LoadSamples(frames)[|old(frames)|] == work
    {
      ghost var perBucket, buckets := Pow2(refreshRateInBits), Pow2(windowBucketInBits);
      ghost var f, n := ActorFrame(mcpu, work), |frames|;
      assert McpuSamples(frames + [f]) == McpuSamples(frames) + [mcpu];
      assert LoadSamples(frames + [f]) == LoadSamples(frames) + [work];
      FrameKeepsExpected(McpuSamples(frames), mcpu, perBucket, buckets);
      FrameKeepsExpected(LoadSamples(frames), work, perBucket, buckets);
      NextQuotient(n, perBucket);

      var mcpuHistory := AddFrame(this.mcpu.history, mcpu);
      var workHistory := AddFrame(this.work.history, work);
      this.mcpu := this.mcpu.(history := mcpuHistory);
      this.work := this.work.(history := workHistory);
      bucketFramesCount := bucketFramesCount + 1;
      if bucketFramesCount >= Pow2(refreshRateInBits) {
        bucketFramesCount := 0;
        this.mcpu := RotateBlocks(this.mcpu, Pow2(windowBucketInBits));
        this.work := RotateBlocks(this.work, Pow2(windowBucketInBits));
      }
      frames := frames + [f];
    }
  }

  // ---- what the equality with the recomputation says ----

  /** With `k = n / 2^refresh` rotations behind it, a history of `n` samples has `min(k + 1, 2^window)`
      blocks, and block `j` sums exactly the samples from rotation `k + 1 - len + j` on. */
  lemma OpenBlock(samples: seq<nat>, perBucket: nat, buckets: nat, j: nat)
    requires 0 < perBucket && 0 < buckets
    ensures var k, history := Rotations(|samples|, perBucket), Expected(samples, perBucket, buckets).history;
            |history| == Min(k + 1, buckets)
            && (j < |history| ==>
                  Before(k + 1 - |history| + j, perBucket) <= |samples|
                  && history[j] == BlockOf(samples[Before(k + 1 - |history| + j, perBucket)..]))
  {
    hide Rotations, Before, BlockOf;
    var k := Rotations(|samples|, perBucket);
    if j < Depth(k, buckets) {
      BeforeInPast(|samples|, perBucket, k + 1 - Depth(k, buckets) + j);
    }
  }

  /** There is a current window exactly from rotation `2^window` on, and it sums exactly the
      `2^(refresh + window)` samples in front of the last rotation. */
  lemma CurrentWindow(samples: seq<nat>, refreshBits: nat, windowBits: nat)
    ensures var perBucket, buckets := Pow2(refreshBits), Pow2(windowBits);
            var k, current := Rotations(|samples|, perBucket), Expected(samples, perBucket, buckets).current;
            var n := Pow2(refreshBits + windowBits);
            (current.Some? <==> buckets <= k)
            && (current.Some? ==>
                  n <= Before(k, perBucket) <= |samples|
                  && current.value == BlockOf(samples[..Before(k, perBucket)][Before(k, perBucket) - n..]))
  {
    hide BlockOf, Pow2, OpenBlocks;
    var perBucket, buckets := Pow2(refreshBits), Pow2(windowBits);
    var k, n := Rotations(|samples|, perBucket), Pow2(refreshBits + windowBits);
    Pow2Product(windowBits, refreshBits);
    assert windowBits + refreshBits == refreshBits + windowBits;
    if buckets <= k {
      BeforeInPast(|samples|, perBucket, k - buckets);
      var to := Before(k, perBucket);
      assert Before(k - buckets, perBucket) == to - n by {
        assert (k - buckets) * perBucket == k * perBucket - buckets * perBucket;
      }
      assert samples[..to][to - n..] == samples[to - n..to];
    }
  }

  lemma {:induction false} Pow2Product(a: nat, b: nat)
    ensures Pow2(a) * Pow2(b) == Pow2(a + b)
  {
    if a == 0 {
    } else {
      Pow2Product(a - 1, b);
      var p, q := Pow2(a - 1), Pow2(b);
      assert 2 * p * q == 2 * (p * q);
    }
  }
}
