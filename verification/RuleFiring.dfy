/** When rules fire: mode, hysteresis, cooldown after a rejected action and calibrated
    thresholds, first for one evaluation and then over whole runs.
    Instants are nanoseconds of one monotonic clock, read by the caller. */
module RuleFiring {
  import opened Basics
  import opened RuleText
  import opened RuleCondition
  import opened RuleConflicts

  const NANOS_PER_MILLI: nat := 1_000_000
  const REJECT_COOLDOWN: nat := 120_000 * NANOS_PER_MILLI
  const I64_MIN: int := -0x8000_0000_0000_0000
  const I64_MAX: int := 0x7FFF_FFFF_FFFF_FFFF

  type Instant = nat

  /** A parameter value of a rule file. */
  datatype Json = Int(n: int) | Float(x: real) | Other

  datatype Rule = Rule(id: string, condition: string, action: string, params: map<string, Json>, modes: seq<string>)

  /** Whole milliseconds from `earlier` to `now`, zero when `earlier` is not earlier. */
  function MillisSince(now: Instant, earlier: Instant): nat {
    if now >= earlier then (now - earlier) / NANOS_PER_MILLI else 0
  }

  function ActionTypeFromStr(action: string): Option<ActionType> {
    match action
    case "bitrate_reduce" => Some(BitrateReduce)
    case "bitrate_recover" => Some(BitrateRecover)
    case "scale_resolution" => Some(ScaleResolution)
    case "restore_resolution" => Some(RestoreResolution)
    case "cap_fps" => Some(CapFps)
    case "restore_fps" => Some(RestoreFps)
    case "log_only" => Some(LogOnly)
    case _ => None
  }

  /** The cast of a 64-bit integer to 32 bits keeps the low bits. */
  function WrapI32(n: int): i32 {
    (n + 0x8000_0000) % 0x1_0000_0000 - 0x8000_0000
  }

  function IntParam(params: map<string, Json>, key: string): i32 {
    if key in params && params[key].Int? && I64_MIN <= params[key].n <= I64_MAX then WrapI32(params[key].n) else 0
  }

  function ScaleParam(params: map<string, Json>): i32 {
    var key := "scale_factor";
    var scale :=
      if key in params && params[key].Float? then params[key].x
      else if key in params && params[key].Int? then params[key].n as real
      else 1.0;
    RoundI32(scale * 1000.0)
  }

  function CreateAction(rule: Rule, m: RuleMetrics, calib: CalibrationTable, at: Instant): Option<Action> {
    match ActionTypeFromStr(rule.action)
    case None => None
    case Some(t) =>
      var param1 := if t.ScaleResolution? || t.RestoreResolution? then ScaleParam(rule.params)
                    else IntParam(rule.params, "step_kbps");
      var critical := rule.action == "bitrate_reduce" || rule.action == "scale_resolution";
      Some(Action(rule.id, t, param1, IntParam(rule.params, "fps_limit"), at, !critical, t.LogOnly?, critical,
                  ExplanationFor(rule.condition, m, calib)))
  }

  /** The action a rule creates: its parameters come from the rule, integers by their low 32 bits
      and scale factors in thousandths to the nearest one, and only lowering the bitrate or the
      resolution is critical. */
  lemma CreatedAction(rule: Rule, m: RuleMetrics, calib: CalibrationTable, at: Instant)
    ensures var a := CreateAction(rule, m, calib, at);
            && (a.Some? ==>
                  && a.value.ruleId == rule.id && a.value.createdAt == at
                  && a.value.explanation == ExplanationFor(rule.condition, m, calib)
                  && (a.value.isCritical <==> a.value.actionType in {BitrateReduce, ScaleResolution})
                  && (a.value.requireApproval <==> !a.value.isCritical)
                  && (a.value.logOnly <==> a.value.actionType == LogOnly)
                  && (a.value.actionType !in {ScaleResolution, RestoreResolution} ==> Carries(a.value.param1, rule.params, "step_kbps"))
                  && Carries(a.value.param2, rule.params, "fps_limit")
                  && (a.value.actionType in {ScaleResolution, RestoreResolution} ==> CarriesScale(a.value.param1, rule.params)))
  {
    var action := rule.action;
    assert ActionTypeFromStr(action) == Some(BitrateReduce) <==> action == "bitrate_reduce";
    assert ActionTypeFromStr(action) == Some(ScaleResolution) <==> action == "scale_resolution";
    IntParamCarries(rule.params, "step_kbps");
    IntParamCarries(rule.params, "fps_limit");
  }

  /** The seven names a rule may give its action. */
  lemma ActionsByName(rule: Rule, m: RuleMetrics, calib: CalibrationTable, at: Instant)
    ensures var a := CreateAction(rule, m, calib, at);
            && (a.Some? && a.value.actionType == BitrateReduce <==> rule.action == "bitrate_reduce")
            && (a.Some? && a.value.actionType == BitrateRecover <==> rule.action == "bitrate_recover")
            && (a.Some? && a.value.actionType == ScaleResolution <==> rule.action == "scale_resolution")
            && (a.Some? && a.value.actionType == RestoreResolution <==> rule.action == "restore_resolution")
            && (a.Some? && a.value.actionType == CapFps <==> rule.action == "cap_fps")
            && (a.Some? && a.value.actionType == RestoreFps <==> rule.action == "restore_fps")
            && (a.Some? && a.value.actionType == LogOnly <==> rule.action == "log_only")
  {
    TypesByName(rule.action);
  }

  lemma TypesByName(name: string)
    ensures ActionTypeFromStr(name) == Some(BitrateReduce) <==> name == "bitrate_reduce"
    ensures ActionTypeFromStr(name) == Some(BitrateRecover) <==> name == "bitrate_recover"
    ensures ActionTypeFromStr(name) == Some(ScaleResolution) <==> name == "scale_resolution"
    ensures ActionTypeFromStr(name) == Some(RestoreResolution) <==> name == "restore_resolution"
    ensures ActionTypeFromStr(name) == Some(CapFps) <==> name == "cap_fps"
    ensures ActionTypeFromStr(name) == Some(RestoreFps) <==> name == "restore_fps"
    ensures ActionTypeFromStr(name) == Some(LogOnly) <==> name == "log_only"
  {}

  predicate Carries(value: i32, params: map<string, Json>, key: string) {
    if key in params && params[key].Int? && I64_MIN <= params[key].n <= I64_MAX then
      && (value - params[key].n) % 0x1_0000_0000 == 0
      && (I32_MIN <= params[key].n <= I32_MAX ==> value == params[key].n)
    else value == 0
  }

  predicate CarriesScale(value: i32, params: map<string, Json>) {
    var key := "scale_factor";
    && (key in params && params[key].Float? && -2_000_000.0 <= params[key].x <= 2_000_000.0 ==>
          -0.5 <= value as real - params[key].x * 1000.0 <= 0.5)
    && (key in params && params[key].Int? && -2_000_000 <= params[key].n <= 2_000_000 ==> value == params[key].n * 1000)
    && (key !in params || params[key].Other? ==> value == 1000)
  }

  lemma IntParamCarries(params: map<string, Json>, key: string)
    ensures Carries(IntParam(params, key), params, key)
  {}

  /** What one evaluation reads besides the last-trigger map. */
  datatype Tick = Tick(
    now: Instant,
    mode: string,
    metrics: RuleMetrics,
    calib: CalibrationTable,
    hysteresisMs: nat,
    cooldownUntil: map<string, Instant>)

  type Triggers = map<string, Instant>

  predicate CoolingDown(id: string, t: Tick) {
    id in t.cooldownUntil && t.now < t.cooldownUntil[id]
  }

  predicate Hysteresis(id: string, last: Triggers, t: Tick) {
    t.hysteresisMs > 0 && id in last && MillisSince(t.now, last[id]) < t.hysteresisMs
  }

  /** A GPU temperature of zero means that there is no reading. */
  predicate NoThermalReading(rule: Rule, t: Tick) {
    t.metrics.gpuTempC == 0 && Contains(rule.condition, "gpu_temp_c")
  }

  predicate Fires(rule: Rule, last: Triggers, t: Tick) {
    && t.mode in rule.modes
    && !CoolingDown(rule.id, t)
    && !Hysteresis(rule.id, last, t)
    && !NoThermalReading(rule, t)
    && EvalCondition(rule.condition, t.metrics, t.calib)
    && ActionTypeFromStr(rule.action).Some?
  }

  /** The loop over the rules: the last-trigger map and the actions created, in rule order. */
  function Scan(rules: seq<Rule>, last: Triggers, t: Tick): (Triggers, seq<Action>) {
    if rules == [] then (last, [])
    else
      var (before, made) := Scan(rules[..|rules| - 1], last, t);
      var rule := rules[|rules| - 1];
      if Fires(rule, before, t) then
        (before[rule.id := t.now], made + [CreateAction(rule, t.metrics, t.calib, t.now).value])
      else (before, made)
  }

  // ---------------------------------------------------------------- one evaluation

  lemma {:induction false} ScanConcat(a: seq<Rule>, b: seq<Rule>, last: Triggers, t: Tick)
    ensures var (l, x) := Scan(a, last, t);
            var (r, y) := Scan(b, l, t);
            Scan(a + b, last, t) == (r, x + y)
  {
    if b == [] {
      assert a + b == a;
      assert Scan(a, last, t).1 + [] == Scan(a, last, t).1;
    } else {
      var front, rule := b[..|b| - 1], b[|b| - 1];
      assert (a + b)[..|a + b| - 1] == a + front;
      ScanConcat(a, front, last, t);
      var (l, x) := Scan(a, last, t);
      var (r, y) := Scan(front, l, t);
      if Fires(rule, r, t) {
        var made := [CreateAction(rule, t.metrics, t.calib, t.now).value];
        assert x + (y + made) == (x + y) + made;
      }
    }
  }

  /** A rule that does not fire, for instance because its action is unknown, leaves the rest
      of the evaluation as if it were not in the list. */
  lemma SilentRuleIsIsolated(a: seq<Rule>, rule: Rule, b: seq<Rule>, last: Triggers, t: Tick)
    requires !Fires(rule, Scan(a, last, t).0, t)
    ensures Scan(a + [rule] + b, last, t) == Scan(a + b, last, t)
  {
    assert (a + [rule])[..|a|] == a;
    ScanConcat(a + [rule], b, last, t);
    ScanConcat(a, b, last, t);
  }

  predicate DistinctIds(rules: seq<Rule>) {
    forall i, j | 0 <= i < j < |rules| :: rules[i].id != rules[j].id
  }

  /** The actions of the rules that fire in the state before the evaluation. */
  function FiringActions(rules: seq<Rule>, last: Triggers, t: Tick): seq<Action> {
    if rules == [] then []
    else
      var rule := rules[|rules| - 1];
      FiringActions(rules[..|rules| - 1], last, t)
      + if Fires(rule, last, t) then [CreateAction(rule, t.metrics, t.calib, t.now).value] else []
  }

  function FiringIds(rules: seq<Rule>, last: Triggers, t: Tick): (ids: set<string>)
    ensures forall id | id in ids :: exists i | 0 <= i < |rules| :: rules[i].id == id
  {
    if rules == [] then {}
    else
      var front, rule := rules[..|rules| - 1], rules[|rules| - 1];
      var ids := FiringIds(front, last, t);
      assert forall i | 0 <= i < |front| :: front[i] == rules[i];
      if Fires(rule, last, t) then ids + {rule.id} else ids
  }

  function Stamp(last: Triggers, ids: set<string>, now: Instant): Triggers {
    last + map id | id in ids :: now
  }

  lemma StampOne(last: Triggers, ids: set<string>, id: string, now: Instant)
    ensures Stamp(last, ids + {id}, now) == Stamp(last, ids, now)[id := now]
  {}

  lemma FiresByOwnStamp(rule: Rule, last: Triggers, ids: set<string>, t: Tick)
    requires rule.id !in ids
    ensures Fires(rule, Stamp(last, ids, t.now), t) == Fires(rule, last, t)
  {}

  lemma ScanStep(front: seq<Rule>, rule: Rule, last: Triggers, t: Tick)
    ensures var (before, made) := Scan(front, last, t);
            Scan(front + [rule], last, t)
            == if Fires(rule, before, t)
               then (before[rule.id := t.now], made + [CreateAction(rule, t.metrics, t.calib, t.now).value])
               else (before, made)
  {
    assert (front + [rule])[..|front|] == front;
  }

  /** With distinct ids one evaluation creates exactly the actions of the rules whose guards
      pass in the state before it, and stamps exactly those rules. */
  lemma {:induction false} DistinctRulesFireIndependently(rules: seq<Rule>, last: Triggers, t: Tick)
    requires DistinctIds(rules)
    ensures Scan(rules, last, t) == (Stamp(last, FiringIds(rules, last, t), t.now), FiringActions(rules, last, t))
  {
    if rules == [] {
      assert Stamp(last, {}, t.now) == last;
    } else {
      var front, rule := rules[..|rules| - 1], rules[|rules| - 1];
      assert forall i | 0 <= i < |front| :: front[i] == rules[i];
      DistinctRulesFireIndependently(front, last, t);
      var ids := FiringIds(front, last, t);
      FiresByOwnStamp(rule, last, ids, t);
      StampOne(last, ids, rule.id, t.now);
      assert rules == front + [rule];
      ScanStep(front, rule, last, t);
      assert FiringActions(front, last, t) + [] == FiringActions(front, last, t);
    }
  }

  // ---------------------------------------------------------------- runs

  /** The part of an engine that a run changes. */
  datatype EngineState = EngineState(
    rules: seq<Rule>,
    hysteresisMs: nat,
    lastTrigger: Triggers,
    cooldownUntil: map<string, Instant>,
    calib: CalibrationTable)
  {
    function TickAt(now: Instant, mode: string, m: RuleMetrics): Tick {
      Tick(now, mode, m, calib, hysteresisMs, cooldownUntil)
    }
  }

  datatype Event =
    | Evaluate(now: Instant, mode: string, metrics: RuleMetrics)
    | Reject(now: Instant, ruleId: string)
    | Calibrate(metric: string, threshold: i32)
    | Load(newRules: seq<Rule>, newHysteresisMs: nat)

  function Step(e: EngineState, ev: Event): (EngineState, seq<Action>) {
    match ev
    case Evaluate(now, mode, m) =>
      var (last, made) := Scan(e.rules, e.lastTrigger, e.TickAt(now, mode, m));
      (e.(lastTrigger := last), made)
    case Reject(now, id) => (e.(cooldownUntil := e.cooldownUntil[id := now + REJECT_COOLDOWN]), [])
    case Calibrate(metric, threshold) => (e.(calib := e.calib[metric := threshold]), [])
    case Load(rules, h) => (e.(rules := rules, hysteresisMs := h), [])
  }

  /** The engine after a run and every action created in it, before conflict resolution. */
  function Run(e: EngineState, events: seq<Event>): (EngineState, seq<Action>) {
    if events == [] then (e, [])
    else
      var (mid, made) := Run(e, events[..|events| - 1]);
      var (end, more) := Step(mid, events[|events| - 1]);
      (end, made + more)
  }

  predicate HasTime(ev: Event) { ev.Evaluate? || ev.Reject? }

  /** The clock does not run backwards. */
  predicate ClockOrdered(events: seq<Event>) {
    forall i, j | 0 <= i < j < |events| && HasTime(events[i]) && HasTime(events[j]) :: events[i].now <= events[j].now
  }

  /** Every hysteresis in force during the run is at least `h`. */
  predicate HysteresisAtLeast(e: EngineState, events: seq<Event>, h: nat) {
    e.hysteresisMs >= h && forall i | 0 <= i < |events| && events[i].Load? :: events[i].newHysteresisMs >= h
  }

  predicate Spaced(made: seq<Action>, h: nat) {
    forall i, j | 0 <= i < j < |made| && made[i].ruleId == made[j].ruleId ::
      made[j].createdAt - made[i].createdAt >= h * 1_000_000
  }

  /** Every action made so far is remembered by its rule's last trigger. */
  predicate Remembered(made: seq<Action>, last: Triggers) {
    forall i | 0 <= i < |made| :: made[i].ruleId in last && made[i].createdAt <= last[made[i].ruleId]
  }

  lemma ActionOfRule(rule: Rule, t: Tick)
    requires ActionTypeFromStr(rule.action).Some?
    ensures var a := CreateAction(rule, t.metrics, t.calib, t.now).value;
            a.ruleId == rule.id && a.createdAt == t.now
  {}

  lemma MillisSpacing(now: Instant, earlier: Instant, h: nat)
    requires 0 < h <= MillisSince(now, earlier)
    ensures now - earlier >= h * NANOS_PER_MILLI
  {}

  lemma {:induction false} ScanSpacing(made: seq<Action>, rules: seq<Rule>, last: Triggers, t: Tick, h: nat)
    requires 0 < h <= t.hysteresisMs
    requires Remembered(made, last) && Spaced(made, h)
    ensures Remembered(made + Scan(rules, last, t).1, Scan(rules, last, t).0)
    ensures Spaced(made + Scan(rules, last, t).1, h)
  {
    if rules == [] {
      assert made + [] == made;
    } else {
      var rule := rules[|rules| - 1];
      ScanSpacing(made, rules[..|rules| - 1], last, t, h);
      var (before, more) := Scan(rules[..|rules| - 1], last, t);
      var all := made + more;
      if Fires(rule, before, t) {
        var a := CreateAction(rule, t.metrics, t.calib, t.now).value;
        ActionOfRule(rule, t);
        if rule.id in before {
          MillisSpacing(t.now, before[rule.id], t.hysteresisMs);
          assert t.hysteresisMs * NANOS_PER_MILLI >= h * NANOS_PER_MILLI;
        }
        assert made + (more + [a]) == all + [a];
        forall i | 0 <= i < |all| && all[i].ruleId == a.ruleId
          ensures a.createdAt - all[i].createdAt >= h * NANOS_PER_MILLI
        {
          assert all[i].createdAt <= before[rule.id];
        }
        assert Remembered(all + [a], before[rule.id := t.now]);
      }
    }
  }

  lemma {:induction false} RunSpacing(e: EngineState, events: seq<Event>, h: nat)
    requires h > 0 && HysteresisAtLeast(e, events, h)
    ensures Remembered(Run(e, events).1, Run(e, events).0.lastTrigger)
    ensures Spaced(Run(e, events).1, h)
    ensures Run(e, events).0.hysteresisMs >= h
  {
    if events != [] {
      var front, ev := events[..|events| - 1], events[|events| - 1];
      assert HysteresisAtLeast(e, front, h) by {
        assert forall i | 0 <= i < |front| :: front[i] == events[i];
      }
      RunSpacing(e, front, h);
      var (mid, made) := Run(e, front);
      if ev.Evaluate? {
        ScanSpacing(made, mid.rules, mid.lastTrigger, mid.TickAt(ev.now, ev.mode, ev.metrics), h);
      } else {
        assert made + [] == made;
      }
    }
  }

  /** Over any run, whatever is evaluated, rejected, calibrated or loaded in it, two actions
      created for one rule id are at least the smallest hysteresis in force apart, also when
      ids repeat within one rule list. */
  lemma FiringSpacing(e: EngineState, events: seq<Event>, h: nat)
    requires HysteresisAtLeast(e, events, h) && h > 0
    ensures Spaced(Run(e, events).1, h)
  {
    RunSpacing(e, events, h);
  }

  lemma {:induction false} RunConcat(e: EngineState, a: seq<Event>, b: seq<Event>)
    ensures var (mid, x) := Run(e, a);
            var (end, y) := Run(mid, b);
            Run(e, a + b) == (end, x + y)
  {
    if b == [] {
      assert a + b == a;
      assert Run(e, a).1 + [] == Run(e, a).1;
    } else {
      var front, ev := b[..|b| - 1], b[|b| - 1];
      assert (a + b)[..|a + b| - 1] == a + front;
      RunConcat(e, a, front);
      var (mid, x) := Run(e, a);
      var (next, y) := Run(mid, front);
      var more := Step(next, ev).1;
      assert x + (y + more) == (x + y) + more;
    }
  }

  lemma {:induction false} ScanRespectsCooldown(rules: seq<Rule>, last: Triggers, t: Tick, id: string)
    requires CoolingDown(id, t)
    ensures forall i | 0 <= i < |Scan(rules, last, t).1| :: Scan(rules, last, t).1[i].ruleId != id
  {
    if rules != [] {
      ScanRespectsCooldown(rules[..|rules| - 1], last, t, id);
      var rule := rules[|rules| - 1];
      if ActionTypeFromStr(rule.action).Some? {
        ActionOfRule(rule, t);
      }
    }
  }

  lemma {:induction false} ScanTimes(rules: seq<Rule>, last: Triggers, t: Tick)
    ensures forall i | 0 <= i < |Scan(rules, last, t).1| :: Scan(rules, last, t).1[i].createdAt == t.now
  {
    if rules != [] {
      ScanTimes(rules[..|rules| - 1], last, t);
      var rule := rules[|rules| - 1];
      if ActionTypeFromStr(rule.action).Some? {
        ActionOfRule(rule, t);
      }
    }
  }

  lemma {:induction false} RunRespectsCooldown(e: EngineState, events: seq<Event>, id: string, from: Instant)
    requires id in e.cooldownUntil && from + REJECT_COOLDOWN <= e.cooldownUntil[id]
    requires forall i | 0 <= i < |events| && events[i].Reject? :: events[i].now >= from
    ensures id in Run(e, events).0.cooldownUntil && from + REJECT_COOLDOWN <= Run(e, events).0.cooldownUntil[id]
    ensures forall i | 0 <= i < |Run(e, events).1| && Run(e, events).1[i].ruleId == id ::
              Run(e, events).1[i].createdAt >= from + REJECT_COOLDOWN
  {
    if events != [] {
      var front, ev := events[..|events| - 1], events[|events| - 1];
      RunRespectsCooldown(e, front, id, from);
      var mid := Run(e, front).0;
      if ev.Evaluate? {
        var t := mid.TickAt(ev.now, ev.mode, ev.metrics);
        ScanTimes(mid.rules, mid.lastTrigger, t);
        if ev.now < from + REJECT_COOLDOWN {
          ScanRespectsCooldown(mid.rules, mid.lastTrigger, t, id);
        }
      }
    }
  }

  /** After an action of a rule is rejected, no action of that rule is created for 120 s,
      whatever else happens: later rejects, calibration and new rule lists included. */
  lemma RejectSilencesRule(e: EngineState, before: seq<Event>, now: Instant, id: string, after: seq<Event>)
    requires ClockOrdered(before + [Reject(now, id)] + after)
    ensures var mid := Run(e, before + [Reject(now, id)]).0;
            && Run(e, before + [Reject(now, id)] + after).1
               == Run(e, before + [Reject(now, id)]).1 + Run(mid, after).1
            && id in mid.cooldownUntil && mid.cooldownUntil[id] == now + 120_000_000_000
            && forall i | 0 <= i < |Run(mid, after).1| && Run(mid, after).1[i].ruleId == id ::
                 Run(mid, after).1[i].createdAt >= now + 120_000_000_000
  {
    var head := before + [Reject(now, id)];
    var all := head + after;
    assert head[..|head| - 1] == before;
    var mid := Run(e, head).0;
    forall i | 0 <= i < |after| && after[i].Reject?
      ensures after[i].now >= now
    {
      assert all[|before|] == Reject(now, id) && all[|head| + i] == after[i];
    }
    RunRespectsCooldown(mid, after, id, now);
    RunConcat(e, head, after);
  }
}
