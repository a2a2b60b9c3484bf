/** What each event and each tick does to the monitor, case by case, with the limits written out. */
module MonitorDecisions {
  import opened Basics
  import opened RuleCondition
  import opened HealingMonitor

  function Pause(l: Layer): nat {
    match l
    case Reactive => 20_000_000_000
    case Predictive => 60_000_000_000
    case Adaptive => 120_000_000_000
  }

  /** A layer is ready 20, 60 or 120 s after its last emission, or if it had none. */
  predicate Ready(last: map<Layer, Instant>, l: Layer, now: Instant) {
    l in last ==> now - last[l] >= Pause(l)
  }

  lemma ReadyCanFire(m: Monitor, l: Layer, now: Instant)
    ensures Ready(m.last, l, now) <==> CanFire(m, l, now)
  {}

  /** `p` is the percentage of `ratio`, rounded down, as far as 32 bits without a sign hold it. */
  predicate IsPercentOf(p: u32, ratio: real) {
    && (ratio < 0.0 ==> p == 0)
    && (0.0 <= ratio * 100.0 < 4294967296.0 ==> p as real <= ratio * 100.0 < p as real + 1.0)
    && (ratio * 100.0 >= 4294967296.0 ==> p == 0xFFFF_FFFF)
  }

  lemma PercentIsPercent(ratio: real)
    ensures IsPercentOf(Percent(ratio), ratio)
  {
    var x := ratio * 100.0;
    if x >= 4294967296.0 {
      assert x.Floor >= 4294967296;
    }
  }

  /** A system event changes the metric it reports and no other: loads become percentages rounded
      down, round trips are cut to 16 bits and losses to the range from 0 to 100. */
  lemma SystemEventsSetTheirMetric(w: World, i: Input)
    requires i.System? && !i.mode.Manual?
    ensures var a, b := w.m.metrics, Step(w, i).m.metrics;
            match i.system
            case CpuUsage(ratio) => b == a.(cpuLoadPct := b.cpuLoadPct) && IsPercentOf(b.cpuLoadPct, ratio)
            case GpuUsage(ratio) => b == a.(gpuLoadPct := b.gpuLoadPct) && IsPercentOf(b.gpuLoadPct, ratio)
            case MemUsage(ratio) => b == a.(memoryUsagePct := b.memoryUsagePct) && IsPercentOf(b.memoryUsagePct, ratio)
            case DiskWarning => b == a
            case NetworkStats(rttMs, lossPct) =>
              && b == a.(networkRttMs := b.networkRttMs, networkLossPct := b.networkLossPct)
              && (rttMs <= 65535 ==> b.networkRttMs == rttMs) && (rttMs > 65535 ==> b.networkRttMs == 65535)
              && (lossPct < 0.0 ==> b.networkLossPct == 0) && (lossPct > 100.0 ==> b.networkLossPct == 100)
              && (0.0 <= lossPct <= 100.0 ==> b.networkLossPct as real <= lossPct < b.networkLossPct as real + 1.0)
  {
    match i.system
    case CpuUsage(ratio) => PercentIsPercent(ratio);
    case GpuUsage(ratio) => PercentIsPercent(ratio);
    case MemUsage(ratio) => PercentIsPercent(ratio);
    case _ =>
  }

  /** A media event reports at most one metric, the share of dropped frames; drops are added up as
      far as 32 bits go. */
  lemma MediaEventsCount(w: World, i: Input)
    requires i.Media? && !i.mode.Manual?
    ensures var a, b := w.m, Step(w, i).m;
            && (i.media.FrameDropPct? ==> b == a.(metrics := b.metrics) && b.metrics == a.metrics.(frameDropPct := b.metrics.frameDropPct))
            && (i.media.FrameDropPct? && i.media.pct <= 100 ==> b.metrics.frameDropPct == i.media.pct)
            && (i.media.FrameDropPct? && i.media.pct > 100 ==> b.metrics.frameDropPct == 100)
            && (i.media.FrameDropped? && a.recentDrops + i.media.count <= 0xFFFF_FFFF ==>
                  b.recentDrops == a.recentDrops + i.media.count)
            && (i.media.FrameDropped? && a.recentDrops + i.media.count > 0xFFFF_FFFF ==> b.recentDrops == 0xFFFF_FFFF)
            && (!i.media.FrameDropPct? ==> b.metrics == a.metrics)
            && (!i.media.FrameDropped? ==> b.recentDrops == a.recentDrops)
  {}

  /** A load reading is remembered. Below the critical load it starts a trend, lets one go on, or
      ends it, as it is high or not; at the critical load and above the trend is left alone. */
  lemma LoadReadingsMakeTheTrend(w: World, i: Input)
    requires i.System? && i.system.CpuUsage? && !i.mode.Manual?
    ensures var a, b, x := w.m, Step(w, i).m, i.system.ratio;
            && b.lastCpu == x
            && (x >= a.thresholds.cpuCritical ==> b.cpuHighSince == a.cpuHighSince)
            && (a.thresholds.cpuHigh <= x < a.thresholds.cpuCritical ==>
                  b.cpuHighSince == Some(if a.cpuHighSince.Some? then a.cpuHighSince.value else i.t0))
            && (x < a.thresholds.cpuHigh && x < a.thresholds.cpuCritical ==> b.cpuHighSince == None)
  {}

  /** What an event asks for outside manual mode, and on which layer. */
  function AskedFor(i: Input): Option<(Layer, HealingEvent)>
    requires !i.Periodic?
  {
    if i.System? then
      match i.system
      case CpuUsage(x) => if x >= 0.92 then Some((Reactive, LightenCodec)) else None
      case GpuUsage(x) => if x >= 0.98 then Some((Predictive, ReduceBitrate(4000))) else None
      case MemUsage(x) => if x >= 0.96 then Some((Predictive, ReducePreviewFps(24))) else None
      case DiskWarning => Some((Adaptive, ActivateFallback(DiskPressure)))
      case NetworkStats(_, _) => None
    else
      match i.media
      case SourceDisconnected(id) => Some((Reactive, ActivateFallback(SourceLost(id))))
      case SourceReconnected(_) => Some((Adaptive, RestoreNormal))
      case FrameDropped(n) => if n >= 8 then Some((Reactive, ReducePreviewFps(20))) else None
      case FrameDropPct(_) => None
      case EncodeError => Some((Reactive, BypassPlugin(0)))
  }

  lemma AskedForIsTrigger(i: Input, t: Thresholds)
    requires !i.Periodic? && Bounded(t)
    ensures AskedFor(i) == if i.System? then SystemTrigger(i.system, t) else MediaTrigger(i.media, t)
  {}

  /** After every run an event sends exactly what it asks for, if and only if the mode is not manual and
      every emission so far on that layer, by whichever handler or tick, lies 20, 60 or 120 s back. */
  lemma EventsAreSentExactlyWhen(start: Instant, es: seq<Input>, w: World, i: Input)
    requires Run(NewWorld(start), es, w) && !i.Periodic?
    ensures Step(w, i).h.emissions
            == w.h.emissions
               + if && !i.mode.Manual? && AskedFor(i).Some?
                    && forall n | 0 <= n < |w.h.emissions| && w.h.emissions[n].layer == AskedFor(i).value.0 ::
                         i.t0 - w.h.emissions[n].recorded >= Pause(AskedFor(i).value.0)
                 then [Emission(AskedFor(i).value.0, AskedFor(i).value.1, i.t0, i.t1)] else []
  {
    RunTightens(NewWorld(start), es, w);
    AskedForIsTrigger(i, w.m.thresholds);
    EventsEmitTheirTrigger(w, i);
    if AskedFor(i).Some? {
      HeldBackExactlyWhen(start, es, w, AskedFor(i).value.0, i.t0);
    }
  }

  /** Until 180 s have passed each tick collects the memory load, unless it is zero; then no more. */
  lemma TicksCollectSamples(w: World, i: Input)
    requires i.Periodic? && !i.mode.Manual?
    ensures var v := Step(w, i);
            && (w.m.outcome.None? && w.m.metrics.memoryUsagePct > 0 ==>
                  v.h.samples == w.h.samples + [w.m.metrics.memoryUsagePct])
            && (w.m.outcome.Some? || w.m.metrics.memoryUsagePct == 0 ==> v.h.samples == w.h.samples)
            && (w.m.outcome.None? ==> (v.m.outcome.Some? <==> i.r.window - w.m.started >= 180_000_000_000))
  {
    TickKeepsCalibration(w, i.mode, i.r, i.sigma);
  }

  /** The codec is lightened once a trend has lasted 4 s, if the layer is ready, which ends the trend. */
  lemma TrendDecides(w: World, now: Instant, check: Instant, record: Instant)
    ensures var v := EvaluateTrend(w, now, check, record);
            if w.m.cpuHighSince.Some? && now - w.m.cpuHighSince.value >= 4_000_000_000 && Ready(w.m.last, Predictive, check)
            then && v.h == w.h.(emissions := w.h.emissions + [Emission(Predictive, LightenCodec, check, record)])
                 && v.m == w.m.(last := w.m.last[Predictive := record], cpuHighSince := None)
            else v == w
  {
    ReadyCanFire(w.m, Predictive, check);
  }

  /** As many drops as the limit lower the bitrate, if the layer is ready; the count starts anew
      even if it is not. */
  lemma DropsDecide(w: World, check: Instant, record: Instant)
    ensures var v := EvaluateDrops(w, check, record);
            if w.m.recentDrops < w.m.thresholds.eventCount then v == w
            else if Ready(w.m.last, Predictive, check)
            then && v.h == w.h.(emissions := w.h.emissions + [Emission(Predictive, ReduceBitrate(3500), check, record)])
                 && v.m == w.m.(last := w.m.last[Predictive := record], recentDrops := 0)
            else v == w.(m := w.m.(recentDrops := 0))
  {
    ReadyCanFire(w.m, Predictive, check);
  }

  /** In auto-pilot and assist mode the threshold for a high load falls to 97 per cent of the last
      reading, though not below 0.55, where that is lower than it was; the threshold for the bitrate
      then rises by 0.01 up to 0.25. This is announced if the layer is ready. */
  lemma AdaptiveDecides(w: World, mode: HealingMode, check: Instant, record: Instant)
    ensures var v := EvaluateAdaptive(w, mode, check, record);
            var target := if w.m.lastCpu * 0.97 < 0.55 then 0.55 else w.m.lastCpu * 0.97;
            var t := w.m.thresholds;
            if (mode.AutoPilot? || mode.Assist?) && target < t.cpuHigh
            then && v.m.thresholds
                    == t.(cpuHigh := target,
                          bitrateDropPct := if t.bitrateDropPct + 0.01 < 0.25 then t.bitrateDropPct + 0.01 else 0.25)
                 && v.m == w.m.(thresholds := v.m.thresholds, last := v.m.last)
                 && (Ready(w.m.last, Adaptive, check) ==>
                       && v.h == w.h.(emissions := w.h.emissions + [Emission(Adaptive, RestoreNormal, check, record)])
                       && v.m.last == w.m.last[Adaptive := record])
                 && (!Ready(w.m.last, Adaptive, check) ==> v.h == w.h && v.m.last == w.m.last)
            else v == w
  {
    ReadyCanFire(w.m, Adaptive, check);
  }

  /** A whole tick: what it sends, in this order, and what it leaves. A codec lightened in the same
      tick holds the lower bitrate back, as both share a layer. */
  lemma TicksDecide(w: World, i: Input)
    requires i.Periodic? && !i.mode.Manual?
    ensures var r, m, v := i.r, w.m, Step(w, i);
            var lightens := m.cpuHighSince.Some? && r.trend - m.cpuHighSince.value >= 4_000_000_000
                            && Ready(m.last, Predictive, r.trendCheck);
            var many := m.recentDrops >= m.thresholds.eventCount;
            var lowers := many && Ready(if lightens then m.last[Predictive := r.trendRecord] else m.last, Predictive, r.dropCheck);
            var target := if m.lastCpu * 0.97 < 0.55 then 0.55 else m.lastCpu * 0.97;
            var adapts := (i.mode.AutoPilot? || i.mode.Assist?) && target < m.thresholds.cpuHigh;
            && v.h.emissions
               == w.h.emissions
                  + (if lightens then [Emission(Predictive, LightenCodec, r.trendCheck, r.trendRecord)] else [])
                  + (if lowers then [Emission(Predictive, ReduceBitrate(3500), r.dropCheck, r.dropRecord)] else [])
                  + (if adapts && Ready(m.last, Adaptive, r.adaptCheck)
                     then [Emission(Adaptive, RestoreNormal, r.adaptCheck, r.adaptRecord)] else [])
            && v.m.cpuHighSince == (if lightens then None else m.cpuHighSince)
            && v.m.recentDrops == (if many then 0 else m.recentDrops)
            && v.m.thresholds.cpuHigh == (if adapts then target else m.thresholds.cpuHigh)
            && v.m.metrics == m.metrics && v.m.lastCpu == m.lastCpu
  {
    var c := CalibrationTick(w, i.r.window, i.sigma);
    assert c.h.emissions == w.h.emissions;
    assert c.m == w.m.(stats := c.m.stats, outcome := c.m.outcome);
    TrendDecides(c, i.r.trend, i.r.trendCheck, i.r.trendRecord);
    var p := EvaluateTrend(c, i.r.trend, i.r.trendCheck, i.r.trendRecord);
    DropsDecide(p, i.r.dropCheck, i.r.dropRecord);
    var d := EvaluateDrops(p, i.r.dropCheck, i.r.dropRecord);
    assert Ready(d.m.last, Adaptive, i.r.adaptCheck) == Ready(w.m.last, Adaptive, i.r.adaptCheck);
    AdaptiveDecides(d, i.mode, i.r.adaptCheck, i.r.adaptRecord);
  }
}
