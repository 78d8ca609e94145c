/** The average arms of the trigger checks, on the live computers: a trigger
    fires exactly when the mean of the recorded samples in the current window is
    strictly past the threshold, and never while no window is complete. */
module Triggers {
  import opened Rings
  import opened StatsComputers
  import opened Thresholds

  datatype Trigger<T> = AvgAbove(limit: T) | AvgBelow(limit: T)

  datatype Filled = Percentage(num: nat, den: nat) | Exact(count: nat)

  function Fires<T>(rule: Trigger<T>, order: Order): bool {
    if rule.AvgAbove? then order == Greater else order == Less
  }

  /** The mean of the window is strictly past `num / den`, in units of `unit`. */
  ghost predicate Past<T>(rule: Trigger<T>, window: Option<seq<nat>>, unit: nat, num: nat, den: nat)
    requires window.Some? ==> window.value != []
  {
    window.Some?
    && if rule.AvgAbove? then MeanAbove(window.value, unit, num, den) else MeanBelow(window.value, unit, num, den)
  }

  method TriggeredMcpu(c: ActorStatsComputer, rule: Trigger<nat>) returns (fired: bool)
    requires c.Valid()
    ensures fired <==> Past(rule, WindowOf(McpuSamples(c.frames), c.refreshRateInBits, c.windowBucketInBits),
                            1, rule.limit, 1)
  {
    McpuTriggerExact(McpuSamples(c.frames), c.refreshRateInBits, c.windowBucketInBits, rule.limit);
    fired := Fires(rule, McpuOrder(c.mcpu.current, c.refreshRateInBits + c.windowBucketInBits, rule.limit));
  }

  /** The threshold is in ten-thousandths of full load. */
  method TriggeredWork(c: ActorStatsComputer, rule: Trigger<nat>) returns (fired: bool)
    requires c.Valid()
    ensures fired <==> Past(rule, WindowOf(LoadSamples(c.frames), c.refreshRateInBits, c.windowBucketInBits),
                            100, rule.limit, 10_000)
  {
    WorkTriggerExact(LoadSamples(c.frames), c.refreshRateInBits, c.windowBucketInBits, rule.limit);
    fired := Fires(rule, WorkOrder(c.work.current, c.refreshRateInBits + c.windowBucketInBits, rule.limit));
  }

  /** The threshold is messages over milliseconds. */
  method TriggeredRate(c: ChannelStatsComputer, rule: Trigger<(nat, nat)>) returns (fired: bool)
    requires c.Windowed()
    ensures fired <==> Past(rule, WindowOf(Rates(c.frames), c.refreshRateInBits, c.windowBucketInBits),
                            c.frameRateMs, rule.limit.0, rule.limit.1)
  {
    var bits := c.refreshRateInBits + c.windowBucketInBits;
    RateTriggerExact(c.frames, c.refreshRateInBits, c.windowBucketInBits, c.frameRateMs, rule.limit.0, rule.limit.1);
    fired := Fires(rule, RateOrder(c.rate.current, bits, c.frameRateMs, rule.limit.0, rule.limit.1));
  }

  method TriggeredFilled(c: ChannelStatsComputer, rule: Trigger<Filled>) returns (fired: bool)
    requires c.Windowed()
    ensures var w := WindowOf(Fills(c.frames), c.refreshRateInBits, c.windowBucketInBits);
            fired <==> match rule.limit
                       case Percentage(num, den) => Past(rule, w, c.capacity, num, den)
                       case Exact(count) => Past(rule, w, 1, count, 1)
  {
    var bits := c.refreshRateInBits + c.windowBucketInBits;
    match rule.limit
    case Percentage(num, den) =>
      FilledPercentTriggerExact(c.frames, c.refreshRateInBits, c.windowBucketInBits, c.capacity, num, den);
      fired := Fires(rule, FilledPercentOrder(c.filled.current, bits, c.capacity, num, den));
    case Exact(count) =>
      FilledExactTriggerExact(c.frames, c.refreshRateInBits, c.windowBucketInBits, count);
      fired := Fires(rule, FilledExactOrder(c.filled.current, bits, count));
  }

  /** The threshold is a duration in nanoseconds, of which only the whole microseconds count. */
  method TriggeredLatency(c: ChannelStatsComputer, rule: Trigger<nat>) returns (fired: bool)
    requires c.Windowed()
    ensures var samples := LatencySamples(c.frames, c.frameRateMs);
            fired <==> Past(rule, WindowOf(samples, c.refreshRateInBits, c.windowBucketInBits), 1, rule.limit / 1000, 1)
  {
    var bits := c.refreshRateInBits + c.windowBucketInBits;
    LatencyTriggerExact(LatencySamples(c.frames, c.frameRateMs), c.refreshRateInBits, c.windowBucketInBits, rule.limit);
    fired := Fires(rule, LatencyOrder(c.latency.current, bits, rule.limit));
  }
}
