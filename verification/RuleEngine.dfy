/** The rule engine object. Every method is tied to the functions that describe one
    evaluation and one reload. */
module RuleEngine {
  import opened Basics
  import opened RuleText
  import opened RuleCondition
  import opened RuleConflicts
  import opened RuleFiring
  import opened RuleReload
  import opened RuleDecision

  /** A calibration table that several engines may hold at once. */
  class CalibrationCell {
    var table: CalibrationTable

    constructor ()
      ensures table == map[]
    {
      table := map[];
    }
  }

  class RuleEngine {
    const decode: Decoder
    var rules: seq<Rule>
    var hysteresisMs: nat
    var lastReload: int
    var lastMtime: Option<Mtime>
    var lastTrigger: Triggers
    var cooldownUntil: map<string, Instant>
    var calibration: CalibrationCell

    function State(): EngineState
      reads this, calibration
    {
      EngineState(rules, hysteresisMs, lastTrigger, cooldownUntil, calibration.table)
    }

    function File(): Store
      reads this
    {
      Store(rules, hysteresisMs, lastReload, lastMtime)
    }

    /** An engine that has not read its file yet. */
    constructor (decode: Decoder, now: Instant)
      ensures this.decode == decode && fresh(calibration)
      ensures File() == NewStore(now) && State() == EngineState([], 0, map[], map[], map[])
    {
      this.decode := decode;
      rules, hysteresisMs := [], 0;
      lastReload, lastMtime := now - 2000 * NANOS_PER_MILLI, None;
      lastTrigger, cooldownUntil := map[], map[];
      calibration := new CalibrationCell();
    }

    /** Share the table of `from`; later writes through either engine are seen by both. */
    method AdoptCalibration(from: RuleEngine)
      modifies this`calibration
      ensures calibration == from.calibration
      ensures State() == old(State()).(calib := from.calibration.table)
    {
      calibration := from.calibration;
    }

    method SetCalibratedThreshold(metric: string, threshold: i32)
      modifies calibration
      ensures State() == Step(old(State()), Calibrate(metric, threshold)).0
    {
      calibration.table := calibration.table[metric := threshold];
    }

    method ApplyCooldown(ruleId: string, duration: nat, now: Instant)
      modifies this`cooldownUntil
      ensures cooldownUntil == old(cooldownUntil)[ruleId := now + duration]
      ensures duration == REJECT_COOLDOWN ==> State() == Step(old(State()), Reject(now, ruleId)).0
    {
      cooldownUntil := cooldownUntil[ruleId := now + duration];
    }

    method HotReload(now: Instant, file: FileView) returns (outcome: ReloadOutcome)
      modifies this`rules, this`hysteresisMs, this`lastReload, this`lastMtime
      ensures (File(), outcome) == RuleReload.HotReload(old(File()), decode, now, file)
      ensures outcome.SkippedThrottled? <==> now - old(lastReload) < 1_000_000_000
      ensures !outcome.SkippedThrottled? ==> lastReload == now
      ensures outcome.Reloaded? ==> State() == Step(old(State()), Load(rules, hysteresisMs)).0
      ensures !outcome.Reloaded? ==> State() == old(State())
    {
      var elapsed := if now >= lastReload then (now - lastReload) / NANOS_PER_MILLI else 0;
      if elapsed < RELOAD_THROTTLE_MILLIS {
        return SkippedThrottled;
      }
      lastReload := now;
      if file.stat.None? {
        return Failed(CannotStat);
      }
      var mtime := file.stat.value;
      if mtime == lastMtime {
        return SkippedUnchanged;
      }
      if file.content.None? {
        return Failed(CannotRead);
      }
      var parsed := ParseRulesContent(decode, file.content.value);
      if parsed.None? {
        return Failed(ReloadError.CannotParse);
      }
      lastMtime := mtime;
      rules := parsed.value.rules;
      hysteresisMs := parsed.value.hysteresisMs;
      outcome := Reloaded;
    }

    method Evaluate(now: Instant, mode: string, metrics: RuleMetrics) returns (actions: seq<Action>)
      modifies this`lastTrigger
      ensures var (after, made) := Step(old(State()), RuleFiring.Evaluate(now, mode, metrics));
              && State() == after && actions == ResolveConflicts(made)
              && (DistinctIds(old(rules)) ==> MadeBy(made, DueRules(old(rules), old(State()), now, mode, metrics), now))
      ensures DistinctIds(old(rules)) ==>
                forall i | 0 <= i < |rules| && IsDue(rules[i], old(State()), now, mode, metrics) ::
                  rules[i].id in lastTrigger && lastTrigger[rules[i].id] == now
    {
      var calib := calibration.table;
      ghost var tick := old(State()).TickAt(now, mode, metrics);
      var made := [];
      for n := 0 to |rules|
        invariant (lastTrigger, made) == Scan(rules[..n], old(lastTrigger), tick)
      {
        var rule := rules[n];
        assert rules[..n + 1][..n] == rules[..n];
        if mode !in rule.modes {
          continue;
        }
        if rule.id in cooldownUntil && now < cooldownUntil[rule.id] {
          continue;
        }
        if hysteresisMs > 0 && rule.id in lastTrigger && MillisSince(now, lastTrigger[rule.id]) < hysteresisMs {
          continue;
        }
        if metrics.gpuTempC == 0 && Contains(rule.condition, "gpu_temp_c") {
          continue;
        }
        if EvalCondition(rule.condition, metrics, calib) {
          var action := CreateAction(rule, metrics, calib, now);
          if action.None? {
            continue;
          }
          lastTrigger := lastTrigger[rule.id := now];
          made := made + [action.value];
        }
      }
      assert rules[..|rules|] == rules;
      if DistinctIds(rules) {
        EvaluationMakesExactlyTheDue(old(State()), now, mode, metrics);
      }
      actions := ResolveConflicts(made);
    }
  }

  /** The reload behind the user interface: a new engine is built from the file and replaces
      the current one only if that works; it starts without memory of triggers and cooldowns
      but holds the current engine's own calibration table. */
  method ReloadRules(current: RuleEngine?, decode: Decoder, now: Instant, file: FileView)
    returns (engine: RuleEngine?, code: int)
    ensures var (store, outcome) := RuleReload.HotReload(NewStore(now), decode, now, file);
            && code == (if outcome.Failed? then 0 else 1)
            && (code == 0 ==> engine == current)
            && (code == 1 ==>
                  && engine != null && fresh(engine)
                  && (current != null ==> engine.calibration == current.calibration)
                  && engine.File() == store
                  && engine.State() == EngineState(store.rules, store.hysteresisMs, map[], map[],
                                                   if current != null then current.calibration.table else map[]))
  {
    var candidate := new RuleEngine(decode, now);
    var outcome := candidate.HotReload(now, file);
    if outcome.Failed? {
      return current, 0;
    }
    if current != null {
      candidate.AdoptCalibration(current);
    }
    return candidate, 1;
  }
}
