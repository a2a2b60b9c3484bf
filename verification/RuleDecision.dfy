/** When an evaluation creates an action, guard by guard, for one evaluation and over runs. */
module RuleDecision {
  import opened Basics
  import opened RuleText
  import opened RuleCondition
  import opened RuleConflicts
  import opened RuleFiring

  predicate KnownAction(name: string) {
    || name == "bitrate_reduce" || name == "bitrate_recover"
    || name == "scale_resolution" || name == "restore_resolution"
    || name == "cap_fps" || name == "restore_fps" || name == "log_only"
  }

  ghost predicate Mentions(text: string, word: string) {
    exists i: nat :: OccursAt(text, word, i)
  }

  /** All guards except the hysteresis: the rule is for this mode, no rejection still silences it, a
      rule about the GPU temperature has a reading to go by, its condition is met and its action
      is one of the seven. */
  ghost predicate Applies(rule: Rule, e: EngineState, now: Instant, mode: string, m: RuleMetrics) {
    && mode in rule.modes
    && (rule.id in e.cooldownUntil ==> e.cooldownUntil[rule.id] <= now)
    && (Mentions(rule.condition, "gpu_temp_c") ==> m.gpuTempC != 0)
    && EvalCondition(rule.condition, m, e.calib)
    && KnownAction(rule.action)
  }

  /** The rule was last triggered as many milliseconds ago as the hysteresis says, or never. */
  predicate Rested(rule: Rule, e: EngineState, now: Instant) {
    e.hysteresisMs == 0 || rule.id !in e.lastTrigger
    || now - e.lastTrigger[rule.id] >= e.hysteresisMs * 1_000_000
  }

  ghost predicate IsDue(rule: Rule, e: EngineState, now: Instant, mode: string, m: RuleMetrics) {
    Applies(rule, e, now, mode, m) && Rested(rule, e, now)
  }

  lemma ContainsIsMentions(text: string, word: string)
    ensures Contains(text, word) <==> Mentions(text, word)
  {
    if Contains(text, word) {
      FindSound(text, word);
    }
    if i: nat :| OccursAt(text, word, i) {
      FindLeftmost(text, word, i);
    }
  }

  lemma KnownActionsHaveTypes(name: string)
    ensures KnownAction(name) <==> ActionTypeFromStr(name).Some?
  {}

  lemma MillisReach(now: Instant, earlier: Instant, h: nat)
    requires h > 0
    ensures MillisSince(now, earlier) < h <==> now - earlier < h * 1_000_000
  {}

  lemma RestedIsNoHysteresis(rule: Rule, e: EngineState, now: Instant, mode: string, m: RuleMetrics)
    ensures Rested(rule, e, now) <==> !Hysteresis(rule.id, e.lastTrigger, e.TickAt(now, mode, m))
  {
    if e.hysteresisMs > 0 && rule.id in e.lastTrigger {
      MillisReach(now, e.lastTrigger[rule.id], e.hysteresisMs);
    }
  }

  lemma FiresApplies(rule: Rule, e: EngineState, last: Triggers, now: Instant, mode: string, m: RuleMetrics)
    ensures var t := e.TickAt(now, mode, m);
            Fires(rule, last, t) <==> Applies(rule, e, now, mode, m) && !Hysteresis(rule.id, last, t)
  {
    ContainsIsMentions(rule.condition, "gpu_temp_c");
    KnownActionsHaveTypes(rule.action);
  }

  lemma DueFires(rule: Rule, e: EngineState, now: Instant, mode: string, m: RuleMetrics)
    ensures Fires(rule, e.lastTrigger, e.TickAt(now, mode, m)) <==> IsDue(rule, e, now, mode, m)
  {
    FiresApplies(rule, e, e.lastTrigger, now, mode, m);
    RestedIsNoHysteresis(rule, e, now, mode, m);
  }

  /** The rules that are due, in the order of the file. */
  ghost function DueRules(rules: seq<Rule>, e: EngineState, now: Instant, mode: string, m: RuleMetrics): seq<Rule> {
    if rules == [] then []
    else
      var rule := rules[|rules| - 1];
      DueRules(rules[..|rules| - 1], e, now, mode, m) + if IsDue(rule, e, now, mode, m) then [rule] else []
  }

  /** One action a rule, made now. */
  predicate MadeBy(made: seq<Action>, rules: seq<Rule>, now: Instant) {
    && |made| == |rules|
    && forall k | 0 <= k < |made| :: made[k].ruleId == rules[k].id && made[k].createdAt == now
  }

  lemma {:induction false} DueRulesMake(rules: seq<Rule>, e: EngineState, now: Instant, mode: string, m: RuleMetrics)
    ensures MadeBy(FiringActions(rules, e.lastTrigger, e.TickAt(now, mode, m)), DueRules(rules, e, now, mode, m), now)
  {
    if rules != [] {
      var rule := rules[|rules| - 1];
      DueRulesMake(rules[..|rules| - 1], e, now, mode, m);
      DueFires(rule, e, now, mode, m);
      if IsDue(rule, e, now, mode, m) {
        ActionOfRule(rule, e.TickAt(now, mode, m));
      }
    }
  }

  lemma {:induction false} FiringIdsAre(rules: seq<Rule>, e: EngineState, now: Instant, mode: string, m: RuleMetrics, i: nat)
    requires DistinctIds(rules) && i < |rules|
    ensures rules[i].id in FiringIds(rules, e.lastTrigger, e.TickAt(now, mode, m)) <==> IsDue(rules[i], e, now, mode, m)
  {
    var front, n := rules[..|rules| - 1], |rules| - 1;
    DueFires(rules[n], e, now, mode, m);
    if i < n {
      FiringIdsAre(front, e, now, mode, m, i);
    } else {
      var ids := FiringIds(front, e.lastTrigger, e.TickAt(now, mode, m));
      assert rules[n].id !in ids;
    }
  }

  /** They are rules of the file, and all that are due. */
  lemma {:induction false} DueRulesAreRules(rules: seq<Rule>, e: EngineState, now: Instant, mode: string, m: RuleMetrics)
    ensures var due := DueRules(rules, e, now, mode, m);
            && (forall k | 0 <= k < |due| :: due[k] in rules && IsDue(due[k], e, now, mode, m))
            && (forall i | 0 <= i < |rules| && IsDue(rules[i], e, now, mode, m) :: rules[i] in due)
  {
    if rules != [] {
      var front, rule := rules[..|rules| - 1], rules[|rules| - 1];
      DueRulesAreRules(front, e, now, mode, m);
      var before, due := DueRules(front, e, now, mode, m), DueRules(rules, e, now, mode, m);
      assert rules == front + [rule];
      forall k | 0 <= k < |due| ensures due[k] in rules && IsDue(due[k], e, now, mode, m) {
        assert k < |before| ==> due[k] == before[k] && before[k] in front;
      }
      forall i | 0 <= i < |rules| && IsDue(rules[i], e, now, mode, m) ensures rules[i] in due {
        assert i < |front| ==> rules[i] == front[i] && front[i] in before;
      }
    }
  }

  lemma MadeForExactlyTheDue(made: seq<Action>, rules: seq<Rule>, i: nat, e: EngineState, now: Instant, mode: string, m: RuleMetrics)
    requires DistinctIds(rules) && i < |rules| && MadeBy(made, DueRules(rules, e, now, mode, m), now)
    ensures (exists k :: 0 <= k < |made| && made[k].ruleId == rules[i].id) <==> IsDue(rules[i], e, now, mode, m)
  {
    var due := DueRules(rules, e, now, mode, m);
    DueRulesAreRules(rules, e, now, mode, m);
    if IsDue(rules[i], e, now, mode, m) {
      var k :| 0 <= k < |due| && due[k] == rules[i];
      assert made[k].ruleId == rules[i].id;
    }
    if k :| 0 <= k < |made| && made[k].ruleId == rules[i].id {
      assert due[k] in rules;
      var j :| 0 <= j < |rules| && rules[j] == due[k];
      assert j == i;
    }
  }

  /** With distinct ids, an evaluation makes one action for every rule that is due, in the order of
      the file and for no other rule, and records this moment as the last trigger of exactly those. */
  lemma EvaluationMakesExactlyTheDue(e: EngineState, now: Instant, mode: string, m: RuleMetrics)
    requires DistinctIds(e.rules)
    ensures var (v, made) := Step(e, Evaluate(now, mode, m));
            && v == e.(lastTrigger := v.lastTrigger)
            && MadeBy(made, DueRules(e.rules, e, now, mode, m), now)
            && (forall i | 0 <= i < |e.rules| ::
                  (exists k :: 0 <= k < |made| && made[k].ruleId == e.rules[i].id)
                  <==> IsDue(e.rules[i], e, now, mode, m))
            && (forall i | 0 <= i < |e.rules| && IsDue(e.rules[i], e, now, mode, m) ::
                  e.rules[i].id in v.lastTrigger && v.lastTrigger[e.rules[i].id] == now)
            && (forall i | 0 <= i < |e.rules| && !IsDue(e.rules[i], e, now, mode, m) ::
                  && (e.rules[i].id in v.lastTrigger <==> e.rules[i].id in e.lastTrigger)
                  && (e.rules[i].id in v.lastTrigger ==> v.lastTrigger[e.rules[i].id] == e.lastTrigger[e.rules[i].id]))
  {
    var t := e.TickAt(now, mode, m);
    var made := Step(e, Evaluate(now, mode, m)).1;
    DistinctRulesFireIndependently(e.rules, e.lastTrigger, t);
    DueRulesMake(e.rules, e, now, mode, m);
    forall i | 0 <= i < |e.rules|
      ensures (exists k :: 0 <= k < |made| && made[k].ruleId == e.rules[i].id) <==> IsDue(e.rules[i], e, now, mode, m)
      ensures e.rules[i].id in FiringIds(e.rules, e.lastTrigger, t) <==> IsDue(e.rules[i], e, now, mode, m)
    {
      FiringIdsAre(e.rules, e, now, mode, m, i);
      MadeForExactlyTheDue(made, e.rules, i, e, now, mode, m);
    }
  }

  // ---------------------------------------------------------------- runs

  lemma {:induction false} MadeByARule(rules: seq<Rule>, e: EngineState, now: Instant, mode: string, m: RuleMetrics, n: nat)
    returns (i: nat)
    requires n < |Scan(rules, e.lastTrigger, e.TickAt(now, mode, m)).1|
    ensures var a := Scan(rules, e.lastTrigger, e.TickAt(now, mode, m)).1[n];
            && i < |rules| && rules[i].id == a.ruleId && a.createdAt == now
            && Applies(rules[i], e, now, mode, m)
  {
    var t, front, last := e.TickAt(now, mode, m), rules[..|rules| - 1], rules[|rules| - 1];
    var (before, made) := Scan(front, e.lastTrigger, t);
    if n < |made| {
      i := MadeByARule(front, e, now, mode, m, n);
    } else {
      i := |rules| - 1;
      FiresApplies(last, e, before, now, mode, m);
      ActionOfRule(last, t);
    }
  }

  /** Over every run each action was made by an evaluation, at its moment, from a rule then in force
      that was meant for the evaluation's mode, was not silenced and whose condition held. */
  lemma {:induction false} EveryActionHasItsRule(e: EngineState, events: seq<Event>, n: nat) returns (k: nat, i: nat)
    requires n < |Run(e, events).1|
    ensures k < |events| && events[k].Evaluate?
    ensures var a, engine := Run(e, events).1[n], Run(e, events[..k]).0;
            && i < |engine.rules| && engine.rules[i].id == a.ruleId && a.createdAt == events[k].now
            && Applies(engine.rules[i], engine, events[k].now, events[k].mode, events[k].metrics)
  {
    var front, ev := events[..|events| - 1], events[|events| - 1];
    var (mid, made) := Run(e, front);
    if n < |made| {
      k, i := EveryActionHasItsRule(e, front, n);
      assert front[..k] == events[..k];
    } else {
      k := |events| - 1;
      i := MadeByARule(mid.rules, mid, ev.now, ev.mode, ev.metrics, n - |made|);
    }
  }
}
