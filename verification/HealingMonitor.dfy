/** The healing monitor: system and media events and a periodic tick lead to healing events, each
    on one of three layers with a cooldown of its own. Clock readings, the user's mode and the
    square root inside the calibration are inputs; ratios and thresholds are real numbers. */
module HealingMonitor {
  import opened Basics
  import opened RuleCondition
  import PendingActions
  import Calibration

  const SECOND: nat := 1_000_000_000
  const CALIBRATION_WINDOW: nat := Calibration.CALIBRATION_WINDOW_SECS * SECOND
  const TREND: nat := 4 * SECOND
  const REDUCED_BITRATE_KBPS: nat := 3500

  type HealingMode = PendingActions.HealingMode
  type Instant = PendingActions.Instant

  datatype Layer = Reactive | Predictive | Adaptive

  function Cooldown(l: Layer): nat {
    match l
    case Reactive => 20 * SECOND
    case Predictive => 60 * SECOND
    case Adaptive => 120 * SECOND
  }

  datatype SystemEvent =
    | CpuUsage(ratio: real)
    | GpuUsage(ratio: real)
    | MemUsage(ratio: real)
    | DiskWarning
    | NetworkStats(rttMs: u32, lossPct: real)

  datatype MediaEvent =
    | SourceDisconnected(sourceId: u32)
    | SourceReconnected(sourceId: u32)
    | FrameDropped(count: u32)
    | FrameDropPct(pct: u32)
    | EncodeError

  datatype Reason = DiskPressure | SourceLost(sourceId: u32)

  datatype HealingEvent =
    | ActivateFallback(reason: Reason)
    | BypassPlugin(pluginId: nat)
    | ReduceBitrate(targetKbps: nat)
    | ReducePreviewFps(targetFps: nat)
    | LightenCodec
    | RestoreNormal

  datatype Thresholds = Thresholds(
    cpuHigh: real, cpuCritical: real, bitrateDropPct: real, frameDropRate: u32, eventCount: u32)

  const INITIAL := Thresholds(0.75, 0.92, 0.18, 8, 3)

  function MinReal(a: real, b: real): real { if a < b then a else b }

  function MaxReal(a: real, b: real): real { if a > b then a else b }

  function AdjustForSession(t: Thresholds, cpu: real): Thresholds {
    t.(cpuHigh := MaxReal(MinReal(t.cpuHigh, cpu * 0.97), 0.55),
       bitrateDropPct := MinReal(t.bitrateDropPct + 0.01, 0.25))
  }

  datatype Monitor = Monitor(
    thresholds: Thresholds,
    last: map<Layer, Instant>,
    cpuHighSince: Option<Instant>,
    recentDrops: u32,
    lastCpu: real,
    metrics: RuleMetrics,
    stats: Calibration.Stats,
    started: Instant,
    outcome: Option<Calibration.Outcome>)

  /** The event was sent at some moment between the reading that found the layer ready and the
      reading that was recorded. */
  datatype Emission = Emission(layer: Layer, event: HealingEvent, checked: Instant, recorded: Instant)

  /** What happened so far; no step reads it. */
  datatype History = History(clock: Instant, emissions: seq<Emission>, samples: seq<u32>)

  datatype World = World(m: Monitor, h: History)

  predicate CanFire(m: Monitor, l: Layer, now: Instant) {
    l in m.last ==> now >= m.last[l] + Cooldown(l)
  }

  function Fire(w: World, l: Layer, e: HealingEvent, checked: Instant, recorded: Instant): World {
    if CanFire(w.m, l, checked) then
      World(w.m.(last := w.m.last[l := recorded]),
            w.h.(emissions := w.h.emissions + [Emission(l, e, checked, recorded)]))
    else w
  }

  /** The saturating cast of a percentage to an unsigned integer. */
  function Percent(ratio: real): u32 {
    var n := (ratio * 100.0).Floor;
    if n < 0 then 0 else if n > 0xFFFF_FFFF then 0xFFFF_FFFF else n
  }

  function LossPct(x: real): u8 {
    if x < 0.0 then 0 else if x > 100.0 then 100 else x.Floor
  }

  function SetMetrics(w: World, metrics: RuleMetrics): World { w.(m := w.m.(metrics := metrics)) }

  function HandleSystem(w: World, mode: HealingMode, e: SystemEvent, t0: Instant, t1: Instant): World {
    var m := w.m.metrics;
    if mode.Manual? then w
    else
      match e
      case CpuUsage(ratio) =>
        var v := SetMetrics(w.(m := w.m.(lastCpu := ratio)), m.(cpuLoadPct := Percent(ratio)));
        if ratio >= w.m.thresholds.cpuCritical then Fire(v, Reactive, LightenCodec, t0, t1)
        else if ratio >= w.m.thresholds.cpuHigh then
          v.(m := v.m.(cpuHighSince := if w.m.cpuHighSince.None? then Some(t0) else w.m.cpuHighSince))
        else v.(m := v.m.(cpuHighSince := None))
      case GpuUsage(ratio) =>
        var v := SetMetrics(w, m.(gpuLoadPct := Percent(ratio)));
        if ratio >= 0.98 then Fire(v, Predictive, ReduceBitrate(4000), t0, t1) else v
      case MemUsage(ratio) =>
        var v := SetMetrics(w, m.(memoryUsagePct := Percent(ratio)));
        if ratio >= 0.96 then Fire(v, Predictive, ReducePreviewFps(24), t0, t1) else v
      case DiskWarning => Fire(w, Adaptive, ActivateFallback(DiskPressure), t0, t1)
      case NetworkStats(rttMs, lossPct) =>
        SetMetrics(w, m.(networkRttMs := if rttMs > 0xFFFF then 0xFFFF else rttMs, networkLossPct := LossPct(lossPct)))
  }

  function SaturatingAdd(a: u32, b: u32): u32 {
    if a + b > 0xFFFF_FFFF then 0xFFFF_FFFF else a + b
  }

  function HandleMedia(w: World, mode: HealingMode, e: MediaEvent, t0: Instant, t1: Instant): World {
    if mode.Manual? then w
    else
      match e
      case SourceDisconnected(id) => Fire(w, Reactive, ActivateFallback(SourceLost(id)), t0, t1)
      case SourceReconnected(_) => Fire(w, Adaptive, RestoreNormal, t0, t1)
      case FrameDropped(count) =>
        var v := w.(m := w.m.(recentDrops := SaturatingAdd(w.m.recentDrops, count)));
        if count >= w.m.thresholds.frameDropRate then Fire(v, Reactive, ReducePreviewFps(20), t0, t1) else v
      case FrameDropPct(pct) => SetMetrics(w, w.m.metrics.(frameDropPct := if pct > 100 then 100 else pct))
      case EncodeError => Fire(w, Reactive, BypassPlugin(0), t0, t1)
  }

  // ---------------------------------------------------------------- the tick

  /** A tick reads the clock eight times at most, in this order. */
  datatype Readings = Readings(
    window: Instant, trend: Instant, trendCheck: Instant, trendRecord: Instant,
    dropCheck: Instant, dropRecord: Instant, adaptCheck: Instant, adaptRecord: Instant)

  predicate Ascending(r: Readings) {
    r.window <= r.trend <= r.trendCheck <= r.trendRecord <= r.dropCheck <= r.dropRecord <= r.adaptCheck <= r.adaptRecord
  }

  function Observed(w: World): World {
    if w.m.metrics.memoryUsagePct > 0 then
      World(w.m.(stats := Calibration.Observe(w.m.stats, w.m.metrics.memoryUsagePct)),
            w.h.(samples := w.h.samples + [w.m.metrics.memoryUsagePct]))
    else w
  }

  /** Until the window has passed a sample that is not zero is collected, zero meaning that there
      are no data; then the calibration is settled, once. */
  function CalibrationTick(w: World, now: Instant, sigma: real): World {
    if w.m.outcome.Some? then w
    else
      var v := Observed(w);
      if now >= w.m.started + CALIBRATION_WINDOW then
        v.(m := v.m.(outcome := Some(Calibration.ThresholdPolicy(v.m.stats, sigma))))
      else v
  }

  function EvaluateTrend(w: World, now: Instant, check: Instant, record: Instant): World {
    if w.m.cpuHighSince.Some? && now >= w.m.cpuHighSince.value + TREND && CanFire(w.m, Predictive, check) then
      var v := Fire(w, Predictive, LightenCodec, check, record);
      v.(m := v.m.(cpuHighSince := None))
    else w
  }

  function EvaluateDrops(w: World, check: Instant, record: Instant): World {
    if w.m.recentDrops >= w.m.thresholds.eventCount then
      var v := Fire(w, Predictive, ReduceBitrate(REDUCED_BITRATE_KBPS), check, record);
      v.(m := v.m.(recentDrops := 0))
    else w
  }

  /** A lower threshold is stored even where the cooldown keeps its announcement back. */
  function EvaluateAdaptive(w: World, mode: HealingMode, check: Instant, record: Instant): World {
    var adjusted := AdjustForSession(w.m.thresholds, w.m.lastCpu);
    if (mode.AutoPilot? || mode.Assist?) && adjusted.cpuHigh < w.m.thresholds.cpuHigh then
      var v := Fire(w, Adaptive, RestoreNormal, check, record);
      v.(m := v.m.(thresholds := adjusted))
    else w
  }

  function Tick(w: World, mode: HealingMode, r: Readings, sigma: real): World {
    if mode.Manual? then w
    else
      var c := CalibrationTick(w, r.window, sigma);
      var p := EvaluateTrend(c, r.trend, r.trendCheck, r.trendRecord);
      var d := EvaluateDrops(p, r.dropCheck, r.dropRecord);
      EvaluateAdaptive(d, mode, r.adaptCheck, r.adaptRecord)
  }

  datatype Input =
    | System(mode: HealingMode, system: SystemEvent, t0: Instant, t1: Instant)
    | Media(mode: HealingMode, media: MediaEvent, t0: Instant, t1: Instant)
    | Periodic(mode: HealingMode, r: Readings, sigma: real)

  /** The clock never goes back, and `sigma` is the root that the calibration asks for. */
  predicate Enabled(w: World, i: Input) {
    match i
    case System(_, _, t0, t1) => w.h.clock <= t0 <= t1
    case Media(_, _, t0, t1) => w.h.clock <= t0 <= t1
    case Periodic(_, r, sigma) =>
      w.h.clock <= r.window && Ascending(r) && (w.m.outcome.None? ==> Calibration.IsStdDev(Observed(w).m.stats, sigma))
  }

  function LastReading(i: Input): Instant {
    match i
    case System(_, _, _, t1) => t1
    case Media(_, _, _, t1) => t1
    case Periodic(_, r, _) => r.adaptRecord
  }

  function React(w: World, i: Input): World {
    match i
    case System(mode, e, t0, t1) => HandleSystem(w, mode, e, t0, t1)
    case Media(mode, e, t0, t1) => HandleMedia(w, mode, e, t0, t1)
    case Periodic(mode, r, sigma) => Tick(w, mode, r, sigma)
  }

  function Step(w: World, i: Input): World {
    var v := React(w, i);
    v.(h := v.h.(clock := LastReading(i)))
  }

  predicate Run(w: World, es: seq<Input>, v: World)
    decreases |es|
  {
    if es == [] then v == w else Enabled(w, es[0]) && Run(Step(w, es[0]), es[1..], v)
  }

  const NO_METRICS := RuleMetrics(0, 0, 0, 0, 0, 0, 0, 0)

  function NewWorld(now: Instant): World {
    World(Monitor(INITIAL, map[], None, 0, 0.0, NO_METRICS, Calibration.NO_SAMPLES, now, None), History(now, [], []))
  }

  // ---------------------------------------------------------------- rate limits

  predicate Spaced(es: seq<Emission>) {
    forall i, j | 0 <= i < j < |es| && es[i].layer == es[j].layer :: es[i].recorded + Cooldown(es[i].layer) <= es[j].checked
  }

  /** `last` holds the newest emission of each layer, and no emission lies in the future. */
  predicate Cooled(last: map<Layer, Instant>, es: seq<Emission>, clock: Instant) {
    && (forall i | 0 <= i < |es| ::
          es[i].checked <= es[i].recorded <= clock && es[i].layer in last && es[i].recorded <= last[es[i].layer])
    && (forall l | l in last :: exists i :: 0 <= i < |es| && es[i].layer == l && es[i].recorded == last[l])
  }

  predicate RateInv(w: World, clock: Instant) {
    Spaced(w.h.emissions) && Cooled(w.m.last, w.h.emissions, clock)
  }

  lemma FireKeepsRate(w: World, l: Layer, e: HealingEvent, clock: Instant, checked: Instant, recorded: Instant)
    requires RateInv(w, clock) && clock <= checked <= recorded
    ensures RateInv(Fire(w, l, e, checked, recorded), recorded)
  {
    var es := w.h.emissions;
    if CanFire(w.m, l, checked) {
      var v := Fire(w, l, e, checked, recorded);
      assert v.h.emissions[|es|].layer == l;
      forall k | k in v.m.last
        ensures exists i :: 0 <= i < |v.h.emissions| && v.h.emissions[i].layer == k && v.h.emissions[i].recorded == v.m.last[k]
      {
        if k != l {
          var i :| 0 <= i < |es| && es[i].layer == k && es[i].recorded == w.m.last[k];
          assert v.h.emissions[i] == es[i];
        }
      }
    }
  }

  lemma StepKeepsRate(w: World, i: Input)
    requires RateInv(w, w.h.clock) && Enabled(w, i)
    ensures RateInv(Step(w, i), LastReading(i))
  {
    StepIsReaction(w, i);
    match i
    case System(mode, e, t0, t1) => SystemKeepsRate(w, mode, e, t0, t1);
    case Media(mode, e, t0, t1) => MediaKeepsRate(w, mode, e, t0, t1);
    case Periodic(mode, r, sigma) => TickKeepsRate(w, mode, r, sigma);
  }

  lemma StepIsReaction(w: World, i: Input)
    ensures RateInv(React(w, i), LastReading(i)) ==> RateInv(Step(w, i), LastReading(i))
  {}

  /** Other fields have no part in it. */
  lemma RateElsewhere(w: World, v: World, clock: Instant, later: Instant)
    requires RateInv(w, clock) && clock <= later && v.m.last == w.m.last && v.h.emissions == w.h.emissions
    ensures RateInv(v, later)
  {}

  lemma SystemKeepsRate(w: World, mode: HealingMode, e: SystemEvent, t0: Instant, t1: Instant)
    requires RateInv(w, w.h.clock) && w.h.clock <= t0 <= t1
    ensures RateInv(HandleSystem(w, mode, e, t0, t1), t1)
  {
    var m, v := w.m.metrics, HandleSystem(w, mode, e, t0, t1);
    if mode.Manual? {
      RateElsewhere(w, v, w.h.clock, t1);
    } else {
      match e
      case CpuUsage(ratio) =>
        CpuKeepsRate(w, ratio, t0, t1);
      case GpuUsage(ratio) =>
        var u := SetMetrics(w, m.(gpuLoadPct := Percent(ratio)));
        RateElsewhere(w, u, w.h.clock, t1);
        FireKeepsRate(u, Predictive, ReduceBitrate(4000), w.h.clock, t0, t1);
      case MemUsage(ratio) =>
        var u := SetMetrics(w, m.(memoryUsagePct := Percent(ratio)));
        RateElsewhere(w, u, w.h.clock, t1);
        FireKeepsRate(u, Predictive, ReducePreviewFps(24), w.h.clock, t0, t1);
      case DiskWarning => FireKeepsRate(w, Adaptive, ActivateFallback(DiskPressure), w.h.clock, t0, t1);
      case NetworkStats(_, _) => RateElsewhere(w, v, w.h.clock, t1);
    }
  }

  lemma CpuKeepsRate(w: World, ratio: real, t0: Instant, t1: Instant)
    requires RateInv(w, w.h.clock) && w.h.clock <= t0 <= t1
    ensures RateInv(HandleSystem(w, PendingActions.AutoPilot, CpuUsage(ratio), t0, t1), t1)
  {
    var u := SetMetrics(w.(m := w.m.(lastCpu := ratio)), w.m.metrics.(cpuLoadPct := Percent(ratio)));
    RateElsewhere(w, u, w.h.clock, w.h.clock);
    FireKeepsRate(u, Reactive, LightenCodec, w.h.clock, t0, t1);
    if ratio < w.m.thresholds.cpuCritical {
      RateElsewhere(w, HandleSystem(w, PendingActions.AutoPilot, CpuUsage(ratio), t0, t1), w.h.clock, t1);
    }
  }

  lemma MediaKeepsRate(w: World, mode: HealingMode, e: MediaEvent, t0: Instant, t1: Instant)
    requires RateInv(w, w.h.clock) && w.h.clock <= t0 <= t1
    ensures RateInv(HandleMedia(w, mode, e, t0, t1), t1)
  {
    RateElsewhere(w, w, w.h.clock, t1);
    match e
    case SourceDisconnected(id) => FireKeepsRate(w, Reactive, ActivateFallback(SourceLost(id)), w.h.clock, t0, t1);
    case SourceReconnected(_) => FireKeepsRate(w, Adaptive, RestoreNormal, w.h.clock, t0, t1);
    case FrameDropped(count) =>
      var u := w.(m := w.m.(recentDrops := SaturatingAdd(w.m.recentDrops, count)));
      RateElsewhere(w, u, w.h.clock, t1);
      FireKeepsRate(u, Reactive, ReducePreviewFps(20), w.h.clock, t0, t1);
    case FrameDropPct(_) => RateElsewhere(w, HandleMedia(w, mode, e, t0, t1), w.h.clock, t1);
    case EncodeError => FireKeepsRate(w, Reactive, BypassPlugin(0), w.h.clock, t0, t1);
  }

  lemma TrendKeepsRate(w: World, clock: Instant, now: Instant, check: Instant, record: Instant)
    requires RateInv(w, clock) && clock <= check <= record
    ensures RateInv(EvaluateTrend(w, now, check, record), record)
  {
    var f := Fire(w, Predictive, LightenCodec, check, record);
    FireKeepsRate(w, Predictive, LightenCodec, clock, check, record);
    RateElsewhere(f, f.(m := f.m.(cpuHighSince := None)), record, record);
    RateElsewhere(w, w, clock, record);
  }

  lemma DropsKeepRate(w: World, clock: Instant, check: Instant, record: Instant)
    requires RateInv(w, clock) && clock <= check <= record
    ensures RateInv(EvaluateDrops(w, check, record), record)
  {
    var f := Fire(w, Predictive, ReduceBitrate(REDUCED_BITRATE_KBPS), check, record);
    FireKeepsRate(w, Predictive, ReduceBitrate(REDUCED_BITRATE_KBPS), clock, check, record);
    RateElsewhere(f, f.(m := f.m.(recentDrops := 0)), record, record);
    RateElsewhere(w, w, clock, record);
  }

  lemma AdaptiveKeepsRate(w: World, mode: HealingMode, clock: Instant, check: Instant, record: Instant)
    requires RateInv(w, clock) && clock <= check <= record
    ensures RateInv(EvaluateAdaptive(w, mode, check, record), record)
  {
    var f := Fire(w, Adaptive, RestoreNormal, check, record);
    FireKeepsRate(w, Adaptive, RestoreNormal, clock, check, record);
    RateElsewhere(f, f.(m := f.m.(thresholds := AdjustForSession(w.m.thresholds, w.m.lastCpu))), record, record);
    RateElsewhere(w, w, clock, record);
  }

  lemma TickKeepsRate(w: World, mode: HealingMode, r: Readings, sigma: real)
    requires RateInv(w, w.h.clock) && w.h.clock <= r.window && Ascending(r)
    ensures RateInv(Tick(w, mode, r, sigma), r.adaptRecord)
  {
    var c := CalibrationTick(w, r.window, sigma);
    RateElsewhere(w, c, w.h.clock, r.trend);
    TrendKeepsRate(c, r.trend, r.trend, r.trendCheck, r.trendRecord);
    var p := EvaluateTrend(c, r.trend, r.trendCheck, r.trendRecord);
    DropsKeepRate(p, r.trendRecord, r.dropCheck, r.dropRecord);
    AdaptiveKeepsRate(EvaluateDrops(p, r.dropCheck, r.dropRecord), mode, r.dropRecord, r.adaptCheck, r.adaptRecord);
    RateElsewhere(w, w, w.h.clock, r.adaptRecord);
  }

  lemma {:induction false} RunKeepsRate(w: World, es: seq<Input>, v: World)
    requires RateInv(w, w.h.clock) && Run(w, es, v)
    ensures RateInv(v, v.h.clock)
    decreases |es|
  {
    if es != [] {
      StepKeepsRate(w, es[0]);
      RunKeepsRate(Step(w, es[0]), es[1..], v);
    }
  }

  /** In every run, across all handlers, two sends on one layer are 20, 60 or 120 seconds apart at
      least, whenever between its two clock readings each send happened. */
  lemma EmissionsAreSpaced(start: Instant, es: seq<Input>, w: World, i: nat, j: nat, ti: Instant, tj: Instant)
    requires Run(NewWorld(start), es, w) && i < j < |w.h.emissions|
    requires w.h.emissions[i].layer == w.h.emissions[j].layer
    requires w.h.emissions[i].checked <= ti <= w.h.emissions[i].recorded
    requires w.h.emissions[j].checked <= tj <= w.h.emissions[j].recorded
    ensures w.h.emissions[i].layer.Reactive? ==> tj - ti >= 20_000_000_000
    ensures w.h.emissions[i].layer.Predictive? ==> tj - ti >= 60_000_000_000
    ensures w.h.emissions[i].layer.Adaptive? ==> tj - ti >= 120_000_000_000
  {
    RunKeepsRate(NewWorld(start), es, w);
  }

  /** A layer is held back exactly while an earlier emission of that layer is too recent. */
  lemma HeldBackExactlyWhen(start: Instant, es: seq<Input>, w: World, l: Layer, now: Instant)
    requires Run(NewWorld(start), es, w)
    ensures !CanFire(w.m, l, now)
            <==> exists i :: 0 <= i < |w.h.emissions| && w.h.emissions[i].layer == l
                             && now < w.h.emissions[i].recorded + Cooldown(l)
  {
    RunKeepsRate(NewWorld(start), es, w);
    if !CanFire(w.m, l, now) {
      var i :| 0 <= i < |w.h.emissions| && w.h.emissions[i].layer == l && w.h.emissions[i].recorded == w.m.last[l];
      assert now < w.h.emissions[i].recorded + Cooldown(l);
    }
  }

  /** In manual mode nothing at all changes. */
  lemma ManualIsSilent(w: World, i: Input)
    requires i.mode.Manual?
    ensures Step(w, i).m == w.m && Step(w, i).h.emissions == w.h.emissions
  {}

  lemma {:induction false} ManualRunIsSilent(w: World, es: seq<Input>, v: World)
    requires Run(w, es, v) && forall k | 0 <= k < |es| :: es[k].mode.Manual?
    ensures v.m == w.m && v.h.emissions == w.h.emissions
    decreases |es|
  {
    if es != [] {
      ManualIsSilent(w, es[0]);
      ManualRunIsSilent(Step(w, es[0]), es[1..], v);
    }
  }

  // ---------------------------------------------------------------- what leads to an emission

  /** The emission that an event asks for, on the layer it concerns. */
  function SystemTrigger(e: SystemEvent, t: Thresholds): Option<(Layer, HealingEvent)> {
    match e
    case CpuUsage(ratio) => if ratio >= t.cpuCritical then Some((Reactive, LightenCodec)) else None
    case GpuUsage(ratio) => if ratio >= 0.98 then Some((Predictive, ReduceBitrate(4000))) else None
    case MemUsage(ratio) => if ratio >= 0.96 then Some((Predictive, ReducePreviewFps(24))) else None
    case DiskWarning => Some((Adaptive, ActivateFallback(DiskPressure)))
    case NetworkStats(_, _) => None
  }

  function MediaTrigger(e: MediaEvent, t: Thresholds): Option<(Layer, HealingEvent)> {
    match e
    case SourceDisconnected(id) => Some((Reactive, ActivateFallback(SourceLost(id))))
    case SourceReconnected(_) => Some((Adaptive, RestoreNormal))
    case FrameDropped(count) => if count >= t.frameDropRate then Some((Reactive, ReducePreviewFps(20))) else None
    case FrameDropPct(_) => None
    case EncodeError => Some((Reactive, BypassPlugin(0)))
  }

  /** An event emits exactly what it asks for, when its layer is ready and the mode is not manual. */
  lemma EventsEmitTheirTrigger(w: World, i: Input)
    requires !i.Periodic?
    ensures var trigger := if i.System? then SystemTrigger(i.system, w.m.thresholds) else MediaTrigger(i.media, w.m.thresholds);
            Step(w, i).h.emissions
            == w.h.emissions
               + if !i.mode.Manual? && trigger.Some? && CanFire(w.m, trigger.value.0, i.t0)
                 then [Emission(trigger.value.0, trigger.value.1, i.t0, i.t1)] else []
  {}

  /** What input `i` can give rise to: its own trigger, or for a tick the two trends and the adaptation. */
  predicate Causes(i: Input, e: Emission) {
    !i.mode.Manual? &&
    match i
    case System(_, system, t0, t1) =>
      SystemTrigger(system, INITIAL) == Some((e.layer, e.event)) && e.checked == t0 && e.recorded == t1
    case Media(_, media, t0, t1) =>
      MediaTrigger(media, INITIAL) == Some((e.layer, e.event)) && e.checked == t0 && e.recorded == t1
    case Periodic(mode, r, _) =>
      || e == Emission(Predictive, LightenCodec, r.trendCheck, r.trendRecord)
      || e == Emission(Predictive, ReduceBitrate(REDUCED_BITRATE_KBPS), r.dropCheck, r.dropRecord)
      || ((mode.AutoPilot? || mode.Assist?) && e == Emission(Adaptive, RestoreNormal, r.adaptCheck, r.adaptRecord))
  }

  /** The triggers look only at thresholds that never change. */
  lemma TriggersAreConstant(t: Thresholds, s: SystemEvent, m: MediaEvent)
    requires Bounded(t)
    ensures SystemTrigger(s, t) == SystemTrigger(s, INITIAL) && MediaTrigger(m, t) == MediaTrigger(m, INITIAL)
  {}

  lemma TickEmissions(w: World, i: Input)
    requires i.Periodic?
    ensures w.h.emissions <= Step(w, i).h.emissions
    ensures forall n | |w.h.emissions| <= n < |Step(w, i).h.emissions| :: Causes(i, Step(w, i).h.emissions[n])
  {
    if !i.mode.Manual? {
      var c := CalibrationTick(w, i.r.window, i.sigma);
      assert c.h.emissions == w.h.emissions;
      var p := EvaluateTrend(c, i.r.trend, i.r.trendCheck, i.r.trendRecord);
      assert c.h.emissions <= p.h.emissions;
      var d := EvaluateDrops(p, i.r.dropCheck, i.r.dropRecord);
      assert p.h.emissions <= d.h.emissions;
      assert Step(w, i).h.emissions == EvaluateAdaptive(d, i.mode, i.r.adaptCheck, i.r.adaptRecord).h.emissions;
    }
  }

  lemma StepEmissions(w: World, i: Input)
    requires Bounded(w.m.thresholds)
    ensures w.h.emissions <= Step(w, i).h.emissions
    ensures forall n | |w.h.emissions| <= n < |Step(w, i).h.emissions| :: Causes(i, Step(w, i).h.emissions[n])
  {
    match i
    case System(_, system, _, _) =>
      EventsEmitTheirTrigger(w, i);
      TriggersAreConstant(w.m.thresholds, system, EncodeError);
    case Media(_, media, _, _) =>
      EventsEmitTheirTrigger(w, i);
      TriggersAreConstant(w.m.thresholds, DiskWarning, media);
    case Periodic(_, _, _) => TickEmissions(w, i);
  }

  lemma {:induction false} RunEmissions(w: World, es: seq<Input>, v: World, n: nat)
    requires Bounded(w.m.thresholds) && Run(w, es, v) && |w.h.emissions| <= n < |v.h.emissions|
    ensures exists k :: 0 <= k < |es| && Causes(es[k], v.h.emissions[n])
    decreases |es|
  {
    var u := Step(w, es[0]);
    StepEmissions(w, es[0]);
    StepTightens(w, es[0]);
    RunKeepsEmissions(u, es[1..], v);
    if n < |u.h.emissions| {
      assert v.h.emissions[n] == u.h.emissions[n];
    } else {
      RunEmissions(u, es[1..], v, n);
      var k :| 0 <= k < |es[1..]| && Causes(es[1..][k], v.h.emissions[n]);
      assert es[k + 1] == es[1..][k];
    }
  }

  lemma {:induction false} RunKeepsEmissions(w: World, es: seq<Input>, v: World)
    requires Bounded(w.m.thresholds) && Run(w, es, v)
    ensures w.h.emissions <= v.h.emissions
    decreases |es|
  {
    if es != [] {
      StepEmissions(w, es[0]);
      StepTightens(w, es[0]);
      RunKeepsEmissions(Step(w, es[0]), es[1..], v);
    }
  }

  /** Over every run each emission stems from an input outside manual mode that asks for just that
      event on just that layer, between that input's own clock readings. */
  lemma EveryEmissionHasItsCause(start: Instant, es: seq<Input>, w: World, n: nat)
    requires Run(NewWorld(start), es, w) && n < |w.h.emissions|
    ensures exists k :: 0 <= k < |es| && Causes(es[k], w.h.emissions[n])
  {
    RunEmissions(NewWorld(start), es, w, n);
  }

  /** Not a reading of the processor load below `low`; in manual mode readings are not looked at. */
  predicate NotLow(i: Input, low: real) {
    i.System? && i.system.CpuUsage? && !i.mode.Manual? ==> i.system.ratio >= low
  }

  predicate AllHigh(es: seq<Input>, from: nat, low: real)
    requires from <= |es|
  {
    forall k | from <= k < |es| :: NotLow(es[k], low)
  }

  predicate StartsTrend(i: Input, t: Instant, low: real) {
    i.System? && i.system.CpuUsage? && !i.mode.Manual? && i.t0 == t && i.system.ratio >= low
  }

  lemma StepTrend(w: World, i: Input, low: real)
    requires Bounded(w.m.thresholds) && low <= w.m.thresholds.cpuHigh && Step(w, i).m.cpuHighSince.Some?
    ensures NotLow(i, low)
    ensures w.m.cpuHighSince == Step(w, i).m.cpuHighSince || StartsTrend(i, Step(w, i).m.cpuHighSince.value, low)
  {}

  /** A trend under way began with a high reading, and no reading since was low. As thresholds only
      fall, every reading was measured against today's threshold or a higher one. */
  lemma {:induction false} TrendIsSustained(w: World, es: seq<Input>, v: World, low: real)
    requires Bounded(w.m.thresholds) && Run(w, es, v) && v.m.cpuHighSince.Some? && low <= v.m.thresholds.cpuHigh
    ensures (w.m.cpuHighSince == v.m.cpuHighSince && AllHigh(es, 0, low))
            || exists k :: 0 <= k < |es| && StartsTrend(es[k], v.m.cpuHighSince.value, low) && AllHigh(es, k, low)
    decreases |es|
  {
    if es != [] {
      var u, rest := Step(w, es[0]), es[1..];
      StepTightens(w, es[0]);
      TrendIsSustained(u, rest, v, low);
      if k :| 0 <= k < |rest| && StartsTrend(rest[k], v.m.cpuHighSince.value, low) && AllHigh(rest, k, low) {
        AllHighTail(es, k, low);
        assert StartsTrend(es[k + 1], v.m.cpuHighSince.value, low);
      } else {
        RunTightens(w, es, v);
        StepTrend(w, es[0], low);
        AllHighTail(es, 0, low);
        assert AllHigh(es, 0, low);
      }
    }
  }

  lemma AllHighTail(es: seq<Input>, k: nat, low: real)
    requires es != [] && k < |es| && AllHigh(es[1..], k, low)
    ensures AllHigh(es, k + 1, low)
  {
    forall n | k + 1 <= n < |es| ensures NotLow(es[n], low) {
      assert es[n] == es[1..][n - 1];
    }
  }

  /** A tick lightens the codec on the predictive layer only after the processor load has been high
      for 4 s or more: some reading that long ago was at the high-load threshold or above it, and
      none since was below. */
  lemma PredictiveLightenNeedsSustainedLoad(start: Instant, es: seq<Input>, w: World, i: Input, n: nat)
    requires Run(NewWorld(start), es, w) && Enabled(w, i) && i.Periodic?
    requires |w.h.emissions| <= n < |Step(w, i).h.emissions|
    requires Step(w, i).h.emissions[n].event == LightenCodec
    ensures exists k ::
              && 0 <= k < |es| && AllHigh(es, k, w.m.thresholds.cpuHigh)
              && es[k].System? && es[k].system.CpuUsage? && es[k].system.ratio >= w.m.thresholds.cpuHigh
              && Step(w, i).h.emissions[n].checked - es[k].t0 >= 4_000_000_000
  {
    var low := w.m.thresholds.cpuHigh;
    TickLightens(w, i, n);
    TrendIsSustained(NewWorld(start), es, w, low);
    var k :| 0 <= k < |es| && StartsTrend(es[k], w.m.cpuHighSince.value, low) && AllHigh(es, k, low);
    assert es[k].t0 + TREND <= Step(w, i).h.emissions[n].checked;
  }

  lemma TickLightens(w: World, i: Input, n: nat)
    requires Enabled(w, i) && i.Periodic?
    requires |w.h.emissions| <= n < |Step(w, i).h.emissions| && Step(w, i).h.emissions[n].event == LightenCodec
    ensures w.m.cpuHighSince.Some? && w.m.cpuHighSince.value + TREND <= Step(w, i).h.emissions[n].checked
  {
    var c := CalibrationTick(w, i.r.window, i.sigma);
    assert c.m.cpuHighSince == w.m.cpuHighSince && c.h.emissions == w.h.emissions;
    var p := EvaluateTrend(c, i.r.trend, i.r.trendCheck, i.r.trendRecord);
    var d := EvaluateDrops(p, i.r.dropCheck, i.r.dropRecord);
    assert p.h.emissions <= d.h.emissions <= Tick(w, i.mode, i.r, i.sigma).h.emissions;
  }

  // ---------------------------------------------------------------- thresholds

  predicate Bounded(t: Thresholds) {
    && 0.55 <= t.cpuHigh <= 0.75
    && 0.18 <= t.bitrateDropPct <= 0.25
    && t.cpuCritical == 0.92 && t.frameDropRate == 8 && t.eventCount == 3
  }

  /** `t` adapted any number of times. */
  predicate Tightened(t: Thresholds, u: Thresholds) {
    && u.cpuHigh <= t.cpuHigh && t.bitrateDropPct <= u.bitrateDropPct
    && (u.bitrateDropPct != t.bitrateDropPct ==> u.cpuHigh < t.cpuHigh)
  }

  lemma StepTightens(w: World, i: Input)
    requires Bounded(w.m.thresholds)
    ensures Bounded(Step(w, i).m.thresholds) && Tightened(w.m.thresholds, Step(w, i).m.thresholds)
    ensures Step(w, i).m.thresholds != w.m.thresholds ==> i.Periodic? && (i.mode.AutoPilot? || i.mode.Assist?)
  {
    if i.Periodic? && !i.mode.Manual? {
      var c := CalibrationTick(w, i.r.window, i.sigma);
      var p := EvaluateTrend(c, i.r.trend, i.r.trendCheck, i.r.trendRecord);
      var d := EvaluateDrops(p, i.r.dropCheck, i.r.dropRecord);
      assert d.m.thresholds == w.m.thresholds;
    }
  }

  lemma {:induction false} RunTightens(w: World, es: seq<Input>, v: World)
    requires Bounded(w.m.thresholds) && Run(w, es, v)
    ensures Bounded(v.m.thresholds) && Tightened(w.m.thresholds, v.m.thresholds)
    decreases |es|
  {
    if es != [] {
      StepTightens(w, es[0]);
      RunTightens(Step(w, es[0]), es[1..], v);
    }
  }

  /** Over any run the high-CPU threshold only falls, within [0.55, 0.75] and so below the critical
      one, and the bitrate threshold only rises, within [0.18, 0.25]. */
  lemma ThresholdsStayInRange(start: Instant, es: seq<Input>, w: World, fs: seq<Input>, v: World)
    requires Run(NewWorld(start), es, w) && Run(w, fs, v)
    ensures 0.55 <= v.m.thresholds.cpuHigh <= w.m.thresholds.cpuHigh <= 0.75 < v.m.thresholds.cpuCritical
    ensures 0.18 <= w.m.thresholds.bitrateDropPct <= v.m.thresholds.bitrateDropPct <= 0.25
  {
    RunTightens(NewWorld(start), es, w);
    RunTightens(w, fs, v);
  }

  // ---------------------------------------------------------------- calibration

  ghost predicate CalibrationInv(w: World) {
    && w.m.stats == Calibration.Welford(w.h.samples)
    && (forall k | 0 <= k < |w.h.samples| :: w.h.samples[k] > 0)
    && (w.m.outcome.Some? ==>
          exists sigma ::
            Calibration.IsStdDev(w.m.stats, sigma) && w.m.outcome.value == Calibration.ThresholdPolicy(w.m.stats, sigma))
  }

  lemma ObservedIsWelford(w: World)
    requires w.m.stats == Calibration.Welford(w.h.samples)
    ensures Observed(w).m.stats == Calibration.Welford(Observed(w).h.samples)
  {
    if w.m.metrics.memoryUsagePct > 0 {
      Calibration.WelfordSnoc(w.h.samples, w.m.metrics.memoryUsagePct);
    }
  }

  lemma StepCalibrates(w: World, i: Input)
    requires CalibrationInv(w) && Enabled(w, i)
    ensures CalibrationInv(Step(w, i))
    ensures w.m.outcome.Some? ==> Step(w, i).m.outcome == w.m.outcome && Step(w, i).h.samples == w.h.samples
    ensures w.m.outcome.None? ==>
              (Step(w, i).m.outcome.Some? <==>
               i.Periodic? && !i.mode.Manual? && i.r.window >= w.m.started + CALIBRATION_WINDOW)
    ensures Step(w, i).m.started == w.m.started
  {
    if i.Periodic? && !i.mode.Manual? {
      TickKeepsCalibration(w, i.mode, i.r, i.sigma);
      CalibrationTickKeepsInv(w, i.r.window, i.sigma);
      CalibrationElsewhere(CalibrationTick(w, i.r.window, i.sigma), Step(w, i));
    } else {
      CalibrationElsewhere(w, Step(w, i));
    }
  }

  lemma CalibrationElsewhere(w: World, v: World)
    requires CalibrationInv(w)
    requires v.m.stats == w.m.stats && v.m.outcome == w.m.outcome && v.h.samples == w.h.samples
    ensures CalibrationInv(v)
  {}

  lemma CalibrationTickKeepsInv(w: World, now: Instant, sigma: real)
    requires CalibrationInv(w) && (w.m.outcome.None? ==> Calibration.IsStdDev(Observed(w).m.stats, sigma))
    ensures CalibrationInv(CalibrationTick(w, now, sigma))
  {
    if w.m.outcome.None? {
      ObservedIsWelford(w);
    }
  }

  lemma TickKeepsCalibration(w: World, mode: HealingMode, r: Readings, sigma: real)
    requires !mode.Manual?
    ensures var c, v := CalibrationTick(w, r.window, sigma), Tick(w, mode, r, sigma);
            v.m.stats == c.m.stats && v.m.outcome == c.m.outcome && v.h.samples == c.h.samples && v.m.started == c.m.started
  {}

  lemma {:induction false} RunCalibrates(w: World, es: seq<Input>, v: World)
    requires CalibrationInv(w) && Run(w, es, v)
    ensures CalibrationInv(v) && v.m.started == w.m.started
    ensures w.m.outcome.Some? ==> v.m.outcome == w.m.outcome && v.h.samples == w.h.samples
    ensures w.m.outcome.None? ==> (v.m.outcome.Some? <==> WindowPassed(es, w.m.started))
    decreases |es|
  {
    if es != [] {
      StepCalibrates(w, es[0]);
      RunCalibrates(Step(w, es[0]), es[1..], v);
      WindowPassedSplit(es, w.m.started);
    }
  }

  /** Some tick outside manual mode comes after the calibration window. */
  predicate WindowPassed(es: seq<Input>, started: Instant) {
    exists k :: 0 <= k < |es| && PassesWindow(es[k], started)
  }

  predicate PassesWindow(i: Input, started: Instant) {
    i.Periodic? && !i.mode.Manual? && i.r.window - started >= 180_000_000_000
  }

  lemma WindowPassedSplit(es: seq<Input>, started: Instant)
    requires es != []
    ensures WindowPassed(es, started) <==> PassesWindow(es[0], started) || WindowPassed(es[1..], started)
  {
    if k :| 0 < k < |es| && PassesWindow(es[k], started) {
      assert es[1..][k - 1] == es[k];
    }
    if k :| 0 <= k < |es| - 1 && PassesWindow(es[1..][k], started) {
      assert es[k + 1] == es[1..][k];
    }
  }

  /** The calibration is settled exactly from the first tick after the window on, and for good: by
      60 or more collected samples of which two differ, or else without a threshold. No sample is
      zero. */
  lemma CalibrationSettlesOnce(start: Instant, es: seq<Input>, w: World, fs: seq<Input>, v: World)
    requires Run(NewWorld(start), es, w) && Run(w, fs, v)
    ensures w.m.outcome.Some? <==> WindowPassed(es, start)
    ensures w.m.outcome.Some? ==> v.m.outcome == w.m.outcome
    ensures w.m.outcome.Some? ==>
              var s := w.h.samples;
              && 0 !in s
              && (w.m.outcome.value.Calibrated? <==>
                    |s| >= 60 && exists i, j :: 0 <= i < |s| && 0 <= j < |s| && s[i] != s[j])
              && (w.m.outcome.value.Calibrated? ==>
                    exists sigma :: Calibration.IsStdDev(Calibration.Welford(s), sigma)
                                    && IsNearest(w.m.outcome.value.threshold, Calibration.Welford(s).mean + 3.0 * sigma))
  {
    RunCalibrates(NewWorld(start), es, w);
    RunCalibrates(w, fs, v);
    if w.m.outcome.Some? {
      var sigma :| Calibration.IsStdDev(w.m.stats, sigma)
                   && w.m.outcome.value == Calibration.ThresholdPolicy(w.m.stats, sigma);
      Calibration.CalibratesExactlyWhen(w.h.samples, sigma);
      if w.m.outcome.value.Calibrated? {
        Calibration.ThresholdGuarantee(w.h.samples, sigma);
        assert IsNearest(w.m.outcome.value.threshold, Calibration.Welford(w.h.samples).mean + 3.0 * sigma);
      }
    }
  }

  /** Among the integers from 50 to 95, `t` is nearest to `x`. */
  predicate IsNearest(t: int, x: real) {
    && (50.0 <= x <= 95.0 ==> x - 0.5 <= t as real <= x + 0.5)
    && (x < 50.0 ==> t == 50) && (x > 95.0 ==> t == 95)
  }

  // ---------------------------------------------------------------- metrics

  predicate MetricsInRange(m: RuleMetrics) { m.frameDropPct <= 100 && m.networkLossPct <= 100 }

  lemma TickKeepsMetrics(w: World, mode: HealingMode, r: Readings, sigma: real)
    ensures Tick(w, mode, r, sigma).m.metrics == w.m.metrics
  {}

  lemma StepKeepsMetricsInRange(w: World, i: Input)
    requires MetricsInRange(w.m.metrics)
    ensures MetricsInRange(Step(w, i).m.metrics)
  {
    match i
    case System(_, _, _, _) =>
    case Media(_, _, _, _) =>
    case Periodic(mode, r, sigma) => TickKeepsMetrics(w, mode, r, sigma);
  }

  lemma {:induction false} MetricsStayInRange(w: World, es: seq<Input>, v: World)
    requires MetricsInRange(w.m.metrics) && Run(w, es, v)
    ensures MetricsInRange(v.m.metrics)
    decreases |es|
  {
    if es != [] {
      StepKeepsMetricsInRange(w, es[0]);
      MetricsStayInRange(Step(w, es[0]), es[1..], v);
    }
  }

  // ---------------------------------------------------------------- the object

  /** Each method is the source's own sequence of updates; its contract equates the new state with
      the function above. */
  class HealingMonitor {
    var thresholds: Thresholds
    var last: map<Layer, Instant>
    var cpuHighSince: Option<Instant>
    var recentDrops: u32
    var lastCpu: real
    var metrics: RuleMetrics
    const calibrator: Calibration.BaselineCalibrator
    const started: Instant
    var outcome: Option<Calibration.Outcome>
    ghost var clock: Instant
    ghost var emissions: seq<Emission>

    ghost function Now(): World
      reads this, calibrator
    {
      World(Monitor(thresholds, last, cpuHighSince, recentDrops, lastCpu, metrics, calibrator.Current(), started, outcome),
            History(clock, emissions, calibrator.samples))
    }

    ghost predicate Valid()
      reads this, calibrator
    {
      calibrator.Valid()
    }

    constructor (now: Instant)
      ensures Valid() && Now() == NewWorld(now) && fresh(calibrator)
    {
      thresholds := INITIAL;
      last, cpuHighSince, recentDrops, lastCpu := map[], None, 0, 0.0;
      metrics, started, outcome := NO_METRICS, now, None;
      calibrator := new Calibration.BaselineCalibrator();
      clock, emissions := now, [];
    }

    /** A send between two clock readings, unless the layer is still cooling down. */
    method TryEmit(l: Layer, e: HealingEvent, checked: Instant, recorded: Instant) returns (fired: bool)
      requires Valid()
      modifies this`last, this`emissions
      ensures Valid() && Now() == Fire(old(Now()), l, e, checked, recorded)
      ensures fired <==> CanFire(old(Now()).m, l, checked)
    {
      if l in last && checked < last[l] + Cooldown(l) {
        return false;
      }
      emissions := emissions + [Emission(l, e, checked, recorded)];
      last := last[l := recorded];
      return true;
    }

    method OnSystem(mode: HealingMode, e: SystemEvent, t0: Instant, t1: Instant)
      requires Valid()
      modifies this
      ensures Valid() && Now() == HandleSystem(old(Now()), mode, e, t0, t1)
    {
      if mode.Manual? {
        return;
      }
      match e {
        case CpuUsage(ratio) =>
          lastCpu := ratio;
          metrics := metrics.(cpuLoadPct := Percent(ratio));
          if ratio >= thresholds.cpuCritical {
            var _ := TryEmit(Reactive, LightenCodec, t0, t1);
          } else if ratio >= thresholds.cpuHigh {
            if cpuHighSince.None? {
              cpuHighSince := Some(t0);
            }
          } else {
            cpuHighSince := None;
          }
        case GpuUsage(ratio) =>
          metrics := metrics.(gpuLoadPct := Percent(ratio));
          if ratio >= 0.98 {
            var _ := TryEmit(Predictive, ReduceBitrate(4000), t0, t1);
          }
        case MemUsage(ratio) =>
          metrics := metrics.(memoryUsagePct := Percent(ratio));
          if ratio >= 0.96 {
            var _ := TryEmit(Predictive, ReducePreviewFps(24), t0, t1);
          }
        case DiskWarning =>
          var _ := TryEmit(Adaptive, ActivateFallback(DiskPressure), t0, t1);
        case NetworkStats(rttMs, lossPct) =>
          metrics := metrics.(networkRttMs := if rttMs > 0xFFFF then 0xFFFF else rttMs, networkLossPct := LossPct(lossPct));
      }
    }

    method OnMedia(mode: HealingMode, e: MediaEvent, t0: Instant, t1: Instant)
      requires Valid()
      modifies this
      ensures Valid() && Now() == HandleMedia(old(Now()), mode, e, t0, t1)
    {
      if mode.Manual? {
        return;
      }
      match e {
        case SourceDisconnected(id) =>
          var _ := TryEmit(Reactive, ActivateFallback(SourceLost(id)), t0, t1);
        case SourceReconnected(_) =>
          var _ := TryEmit(Adaptive, RestoreNormal, t0, t1);
        case FrameDropped(count) =>
          recentDrops := SaturatingAdd(recentDrops, count);
          if count >= thresholds.frameDropRate {
            var _ := TryEmit(Reactive, ReducePreviewFps(20), t0, t1);
          }
        case FrameDropPct(pct) =>
          metrics := metrics.(frameDropPct := if pct > 100 then 100 else pct);
        case EncodeError =>
          var _ := TryEmit(Reactive, BypassPlugin(0), t0, t1);
      }
    }

    method TickCalibration(now: Instant, sigma: real)
      requires Valid() && (outcome.None? ==> Calibration.IsStdDev(Observed(Now()).m.stats, sigma))
      modifies this`outcome, calibrator
      ensures Valid() && Now() == CalibrationTick(old(Now()), now, sigma)
    {
      if outcome.Some? {
        return;
      }
      if metrics.memoryUsagePct > 0 {
        calibrator.Observe(metrics.memoryUsagePct);
        Calibration.WelfordSnoc(old(calibrator.samples), metrics.memoryUsagePct);
      }
      if now >= started + CALIBRATION_WINDOW {
        var result := calibrator.Finalize(sigma);
        outcome := Some(result);
      }
    }

    method EvaluatePredictive(r: Readings)
      requires Valid()
      modifies this`last, this`emissions, this`cpuHighSince, this`recentDrops
      ensures Valid()
      ensures Now() == EvaluateDrops(EvaluateTrend(old(Now()), r.trend, r.trendCheck, r.trendRecord), r.dropCheck, r.dropRecord)
    {
      if cpuHighSince.Some? && r.trend >= cpuHighSince.value + TREND {
        var fired := TryEmit(Predictive, LightenCodec, r.trendCheck, r.trendRecord);
        if fired {
          cpuHighSince := None;
        }
      }
      if recentDrops >= thresholds.eventCount {
        var _ := TryEmit(Predictive, ReduceBitrate(REDUCED_BITRATE_KBPS), r.dropCheck, r.dropRecord);
        recentDrops := 0;
      }
    }

    method Adapt(mode: HealingMode, check: Instant, record: Instant)
      requires Valid()
      modifies this`last, this`emissions, this`thresholds
      ensures Valid() && Now() == EvaluateAdaptive(old(Now()), mode, check, record)
    {
      if mode.CoPilot? || mode.Manual? {
        return;
      }
      var adjusted := AdjustForSession(thresholds, lastCpu);
      if adjusted.cpuHigh < thresholds.cpuHigh {
        var _ := TryEmit(Adaptive, RestoreNormal, check, record);
        thresholds := adjusted;
      }
    }

    method OnPeriodic(mode: HealingMode, r: Readings, sigma: real)
      requires Valid() && (outcome.None? ==> Calibration.IsStdDev(Observed(Now()).m.stats, sigma))
      modifies this, calibrator
      ensures Valid() && Now() == Tick(old(Now()), mode, r, sigma)
    {
      if mode.Manual? {
        return;
      }
      TickCalibration(r.window, sigma);
      EvaluatePredictive(r);
      Adapt(mode, r.adaptCheck, r.adaptRecord);
    }
  }
}
