/** The rule engine and the pending actions together: ticks turn metrics into actions, and a reject
    first takes an action out and then, in a step of its own, silences the rule that made it. */
module HealingLoop {
  import opened Basics
  import opened RuleCondition
  import opened RuleConflicts
  import opened RuleFiring
  import P = PendingActions

  /** `owed` are the rules of rejected actions whose cooldown is yet to be applied. `log` holds every
      action that was given an identifier, by allocation; no step reads it. */
  datatype Loop = Loop(e: EngineState, w: P.World, owed: seq<string>, log: seq<Action>)

  datatype LoopEvent =
    | Ticking(now: Instant, mode: P.HealingMode, metrics: RuleMetrics, currentKbps: nat, originalKbps: nat)
    | Rejecting(id: u32)
    | Cooling(which: nat, now: Instant)
    | Configuring(change: Event)
    | Calling(call: P.Event)

  function ModeText(mode: P.HealingMode): string {
    match mode
    case AutoPilot => "auto-pilot"
    case CoPilot => "co-pilot"
    case Assist => "assist"
    case Manual => ""
  }

  function Requests(actions: seq<Action>, mode: P.HealingMode, current: nat, original: nat): seq<P.Request> {
    if actions == [] then []
    else Requests(actions[..|actions| - 1], mode, current, original) + [P.Request(mode, actions[|actions| - 1], current, original)]
  }

  function CollectAll(w: P.World, rs: seq<P.Request>): P.World {
    if rs == [] then w else P.Collect(CollectAll(w, rs[..|rs| - 1]), rs[|rs| - 1])
  }

  /** The actions of the requests that are not withheld. */
  function Identified(rs: seq<P.Request>): seq<Action> {
    if rs == [] then []
    else Identified(rs[..|rs| - 1]) + if P.Withheld(rs[|rs| - 1]) then [] else [rs[|rs| - 1].action]
  }

  /** One tick: evaluation, conflict resolution and identifiers, all under the engine's lock. */
  function Tick(l: Loop, now: Instant, mode: P.HealingMode, m: RuleMetrics, current: nat, original: nat): Loop {
    if mode.Manual? then l
    else
      var (e, made) := Step(l.e, Evaluate(now, ModeText(mode), m));
      var rs := Requests(ResolveConflicts(made), mode, current, original);
      Loop(e, CollectAll(l.w, rs), l.owed, l.log + Identified(rs))
  }

  predicate Enabled(l: Loop, ev: LoopEvent) {
    match ev
    case Ticking(_, _, _, _, _) => true
    case Rejecting(_) => true
    case Cooling(which, _) => which < |l.owed|
    case Configuring(change) => change.Calibrate? || change.Load?
    case Calling(call) => !call.Collecting? && !call.Rejecting? && P.ValidEvent(l.w, call)
  }

  function LoopStep(l: Loop, ev: LoopEvent): Loop
    requires Enabled(l, ev)
  {
    match ev
    case Ticking(now, mode, m, current, original) => Tick(l, now, mode, m, current, original)
    case Rejecting(id) =>
      l.(w := P.Reject(l.w, id).0, owed := if id in l.w.b.pending then l.owed + [l.w.b.pending[id].ruleId] else l.owed)
    case Cooling(which, now) =>
      l.(e := Step(l.e, Reject(now, l.owed[which])).0, owed := l.owed[..which] + l.owed[which + 1..])
    case Configuring(change) => l.(e := Step(l.e, change).0)
    case Calling(call) => l.(w := P.Step(l.w, call))
  }

  predicate LoopRun(l: Loop, evs: seq<LoopEvent>, v: Loop)
    decreases |evs|
  {
    if evs == [] then v == l else Enabled(l, evs[0]) && LoopRun(LoopStep(l, evs[0]), evs[1..], v)
  }

  function NewLoop(e: EngineState, firstId: u32): Loop {
    Loop(e, P.NewWorld(firstId), [], [])
  }

  // ---------------------------------------------------------------- every action can be traced to its making

  predicate CollectedTied(w: P.World, log: seq<Action>) {
    && |w.j.collectedAlloc| == |w.b.collected|
    && forall i | 0 <= i < |w.b.collected| ::
         w.j.collectedAlloc[i] < |log| && w.b.collected[i].request.action == log[w.j.collectedAlloc[i]]
  }

  predicate HeldTied(w: P.World, log: seq<Action>) {
    && |w.j.heldAlloc| == |w.j.held|
    && (forall k | 0 <= k < |w.j.heldAlloc| :: w.j.heldAlloc[k] < |log|)
  }

  /** The making of a pending action, as a position in the log. */
  predicate MadeAs(w: P.World, id: u32, n: nat) {
    id in w.j.tickets && w.j.tickets[id] < |w.j.heldAlloc| && w.j.heldAlloc[w.j.tickets[id]] == n
  }

  predicate PendingTied(w: P.World, log: seq<Action>) {
    forall id | id in w.b.pending ::
      && id in w.j.tickets && w.j.tickets[id] < |w.j.heldAlloc| && w.j.heldAlloc[w.j.tickets[id]] < |log|
      && log[w.j.heldAlloc[w.j.tickets[id]]].ruleId == w.b.pending[id].ruleId
  }

  predicate Tied(w: P.World, log: seq<Action>) {
    |log| == w.j.allocations && CollectedTied(w, log) && HeldTied(w, log) && PendingTied(w, log)
  }

  /** Fewer pending actions, by the same tickets and rules. */
  lemma TiedFrame(w: P.World, v: P.World, log: seq<Action>)
    requires Tied(w, log)
    requires v.j.allocations == w.j.allocations && v.b.collected == w.b.collected && v.j.collectedAlloc == w.j.collectedAlloc
    requires v.j.held == w.j.held && v.j.heldAlloc == w.j.heldAlloc
    requires forall id | id in v.b.pending ::
               && id in w.b.pending && v.b.pending[id].ruleId == w.b.pending[id].ruleId
               && id in v.j.tickets && id in w.j.tickets && v.j.tickets[id] == w.j.tickets[id]
    ensures Tied(v, log)
  {}

  lemma CollectTies(w: P.World, r: P.Request, log: seq<Action>)
    requires Tied(w, log)
    ensures Tied(P.Collect(w, r), if P.Withheld(r) then log else log + [r.action])
  {}

  lemma {:induction false} CollectAllTies(w: P.World, rs: seq<P.Request>, log: seq<Action>)
    requires Tied(w, log)
    ensures Tied(CollectAll(w, rs), log + Identified(rs))
  {
    if rs == [] {
      assert log + [] == log;
    } else {
      var front, r := rs[..|rs| - 1], rs[|rs| - 1];
      CollectAllTies(w, front, log);
      CollectTies(CollectAll(w, front), r, log + Identified(front));
      assert log + (Identified(front) + [r.action]) == log + Identified(front) + [r.action];
      assert Identified(front) + [] == Identified(front);
    }
  }

  lemma DropTies(w: P.World, log: seq<Action>)
    requires Tied(w, log) && w.b.collected != []
    ensures Tied(P.DropCollected(w), log)
    ensures P.FirstAllocation(w.j) < |log| && w.b.collected[0].request.action == log[P.FirstAllocation(w.j)]
  {}

  lemma HoldTies(w: P.World, a: P.RjAction, allocation: nat, rule: string, now: Instant, log: seq<Action>)
    requires Tied(w, log) && allocation < |log| && log[allocation].ruleId == rule
    ensures Tied(P.Hold(w, a, allocation, rule, now), log)
  {}

  lemma RouteTies(w: P.World, now: Instant, log: seq<Action>)
    requires Tied(w, log)
    ensures Tied(P.Route(w, now), log)
  {
    if w.b.collected != [] {
      var c, v, n := w.b.collected[0], P.DropCollected(w), P.FirstAllocation(w.j);
      DropTies(w, log);
      if P.RequiresApproval(c.request.mode, P.AutoApproved(c.Action().actionType, w.b.autoApprove)) {
        var free := P.Free(v, c.id);
        TiedFrame(v, free, log);
        HoldTies(free, c.Action(), n, c.request.action.ruleId, now, log);
        TiedFrame(P.Hold(free, c.Action(), n, c.request.action.ruleId, now), P.Route(w, now), log);
      } else {
        TiedFrame(v, P.Route(w, now), log);
      }
    }
  }

  lemma {:induction false} CloseAllFrame(w: P.World, ids: seq<u32>, fate: P.Fate)
    ensures var v := P.CloseAll(w, ids, fate);
            && (forall id | id in v.b.pending :: id in w.b.pending && v.b.pending[id] == w.b.pending[id])
            && (forall id | id in v.b.pending && id in w.j.tickets :: id in v.j.tickets && v.j.tickets[id] == w.j.tickets[id])
  {
    if ids != [] {
      CloseAllFrame(w, ids[..|ids| - 1], fate);
    }
  }

  lemma {:induction false} PushUiAllFrame(w: P.World, actions: seq<P.RjAction>)
    ensures var v := P.PushUiAll(w, actions);
            v.b.pending == w.b.pending && v.j.tickets == w.j.tickets
  {
    if actions != [] {
      PushUiAllFrame(w, actions[..|actions| - 1]);
    }
  }

  lemma ClearTies(w: P.World, order: seq<u32>, fate: P.Fate, log: seq<Action>)
    requires Tied(w, log) && !fate.Overwritten? && forall i | 0 <= i < |order| :: order[i] in w.b.pending
    ensures Tied(P.Clear(w, order, fate), log)
  {
    var u, actions := P.CloseAll(w, order, fate), P.ActionsOf(w.b.pending, order);
    CloseAllFrame(w, order, fate);
    P.ClosingFrame(w, order, fate);
    TiedFrame(w, u, log);
    PushUiAllFrame(u, actions);
    P.NotifyingFrame(u, actions);
    TiedFrame(u, P.PushUiAll(u, actions), log);
  }

  lemma ApproveTies(w: P.World, id: u32, now: Instant, log: seq<Action>)
    requires Tied(w, log)
    ensures Tied(P.Approve(w, id, now).0, log)
  {
    TiedFrame(w, P.Approve(w, id, now).0, log);
  }

  lemma CallTies(w: P.World, call: P.Event, log: seq<Action>)
    requires Tied(w, log) && P.ValidEvent(w, call) && !call.Collecting? && !call.Rejecting?
    ensures Tied(P.Step(w, call), log)
  {
    match call
    case Routing(now) => RouteTies(w, now, log);
    case Approving(id, now) => ApproveTies(w, id, now, log);
    case Sweeping(_, order) => ClearTies(w, order, P.Expired, log);
    case SettingMode(mode, order) =>
      if mode <= 3 && mode != w.b.mode {
        var v := w.(b := w.b.(mode := mode));
        TiedFrame(w, v, log);
        ClearTies(v, order, P.ModeCleared, log);
      }
    case SettingAutoApprove(_, _) => TiedFrame(w, P.Step(w, call), log);
    case Dequeuing => TiedFrame(w, P.Dequeue(w), log);
    case UiDequeuing => TiedFrame(w, P.UiDequeue(w), log);
    case _ =>
  }

  lemma StepTies(l: Loop, ev: LoopEvent)
    requires Tied(l.w, l.log) && Enabled(l, ev)
    ensures Tied(LoopStep(l, ev).w, LoopStep(l, ev).log)
  {
    match ev
    case Ticking(now, mode, m, current, original) =>
      if !mode.Manual? {
        var made := Step(l.e, Evaluate(now, ModeText(mode), m)).1;
        CollectAllTies(l.w, Requests(ResolveConflicts(made), mode, current, original), l.log);
      }
    case Rejecting(id) => TiedFrame(l.w, P.Reject(l.w, id).0, l.log);
    case Cooling(_, _) =>
    case Configuring(_) =>
    case Calling(call) => CallTies(l.w, call, l.log);
  }

  lemma {:induction false} RunTies(l: Loop, evs: seq<LoopEvent>, v: Loop)
    requires Tied(l.w, l.log) && LoopRun(l, evs, v)
    ensures Tied(v.w, v.log)
    decreases |evs|
  {
    if evs != [] {
      StepTies(l, evs[0]);
      RunTies(LoopStep(l, evs[0]), evs[1..], v);
    }
  }

  // ---------------------------------------------------------------- what a tick collects

  /** The actions that this mode lets pass: a recovery only of a bitrate that is reduced, and in assist
      mode only what is critical. */
  function Passing(actions: seq<Action>, mode: P.HealingMode, current: nat, original: nat): seq<Action> {
    if actions == [] then []
    else
      var a := actions[|actions| - 1];
      Passing(actions[..|actions| - 1], mode, current, original)
      + if (a.actionType.BitrateRecover? ==> 0 < current < original) && (mode.Assist? ==> a.isCritical) then [a] else []
  }

  function ActionsIn(collected: seq<P.RoutedAction>): seq<Action> {
    seq(|collected|, i requires 0 <= i < |collected| => collected[i].request.action)
  }

  lemma {:induction false} PassingIsIdentified(actions: seq<Action>, mode: P.HealingMode, current: nat, original: nat)
    requires !mode.Manual?
    ensures Identified(Requests(actions, mode, current, original)) == Passing(actions, mode, current, original)
  {
    if actions != [] {
      var front := actions[..|actions| - 1];
      PassingIsIdentified(front, mode, current, original);
      var rs := Requests(actions, mode, current, original);
      assert rs[..|rs| - 1] == Requests(front, mode, current, original);
    }
  }

  lemma {:induction false} CollectAllAppends(w: P.World, rs: seq<P.Request>)
    ensures var v := CollectAll(w, rs);
            && ActionsIn(v.b.collected) == ActionsIn(w.b.collected) + Identified(rs)
            && v.b.pending == w.b.pending && v.b.actionQueue == w.b.actionQueue
  {
    if rs != [] {
      CollectAllAppends(w, rs[..|rs| - 1]);
      var u, r := CollectAll(w, rs[..|rs| - 1]), rs[|rs| - 1];
      if !P.Withheld(r) {
        assert ActionsIn(P.Collect(u, r).b.collected) == ActionsIn(u.b.collected) + [r.action];
      }
    }
  }

  /** A tick evaluates the rules under the name of its mode, resolves conflicts, and puts what the mode
      lets pass behind the actions collected before; in manual mode it does nothing. */
  lemma TickCollects(l: Loop, now: Instant, mode: P.HealingMode, m: RuleMetrics, current: nat, original: nat)
    ensures var v := LoopStep(l, Ticking(now, mode, m, current, original));
            if mode.Manual? then v == l
            else
              var name := if mode.AutoPilot? then "auto-pilot" else if mode.CoPilot? then "co-pilot" else "assist";
              var (e, made) := Step(l.e, Evaluate(now, name, m));
              var passing := Passing(ResolveConflicts(made), mode, current, original);
              && v.e == e && v.log == l.log + passing && v.owed == l.owed
              && ActionsIn(v.w.b.collected) == ActionsIn(l.w.b.collected) + passing
              && v.w.b.pending == l.w.b.pending && v.w.b.actionQueue == l.w.b.actionQueue
  {
    if !mode.Manual? {
      var made := Step(l.e, Evaluate(now, ModeText(mode), m)).1;
      PassingIsIdentified(ResolveConflicts(made), mode, current, original);
      CollectAllAppends(l.w, Requests(ResolveConflicts(made), mode, current, original));
    }
  }

  // ---------------------------------------------------------------- a reject silences its rule

  /** The rule's cooldown lasts until 120 s after `from` at least. */
  predicate Silenced(e: EngineState, rule: string, from: Instant) {
    rule in e.cooldownUntil && from + REJECT_COOLDOWN <= e.cooldownUntil[rule]
  }

  /** No action of the rule among `actions` was made sooner. */
  predicate MadeLater(actions: seq<Action>, rule: string, from: Instant) {
    forall n | 0 <= n < |actions| && actions[n].ruleId == rule :: actions[n].createdAt >= from + REJECT_COOLDOWN
  }

  lemma EvaluationSilences(e: EngineState, now: Instant, mode: string, m: RuleMetrics, rule: string, from: Instant)
    requires Silenced(e, rule, from)
    ensures var (e1, made) := Step(e, Evaluate(now, mode, m));
            Silenced(e1, rule, from) && MadeLater(made, rule, from)
  {
    var t := e.TickAt(now, mode, m);
    ScanTimes(e.rules, e.lastTrigger, t);
    if now < from + REJECT_COOLDOWN {
      ScanRespectsCooldown(e.rules, e.lastTrigger, t, rule);
    }
  }

  lemma {:induction false} SortMembers(s: seq<Action>)
    ensures forall x | x in StableSort(s) :: x in s
  {
    if s != [] {
      SortMembers(s[1..]);
      InsertMembers(s[0], StableSort(s[1..]));
    }
  }

  lemma {:induction false} DropMembers(s: seq<Action>, r: bool, c: bool, z: bool)
    ensures forall x | x in DropOpposed(s, r, c, z) :: x in s
  {
    if s != [] {
      DropMembers(s[1..], r, c, z);
    }
  }

  lemma ResolveMembers(s: seq<Action>)
    ensures forall x | x in ResolveConflicts(s) :: x in s
  {
    var kept := DropOpposed(s, Has(s, BitrateReduce), Has(s, CapFps), Has(s, ScaleResolution));
    DropMembers(s, Has(s, BitrateReduce), Has(s, CapFps), Has(s, ScaleResolution));
    SortMembers(kept);
  }

  lemma {:induction false} IdentifiedLater(actions: seq<Action>, mode: P.HealingMode, current: nat, original: nat, rule: string, from: Instant)
    requires MadeLater(actions, rule, from)
    ensures MadeLater(Identified(Requests(actions, mode, current, original)), rule, from)
  {
    if actions != [] {
      IdentifiedLater(actions[..|actions| - 1], mode, current, original, rule, from);
      var rs := Requests(actions, mode, current, original);
      assert rs[..|rs| - 1] == Requests(actions[..|actions| - 1], mode, current, original);
    }
  }

  lemma ResolvedLater(made: seq<Action>, rule: string, from: Instant)
    requires MadeLater(made, rule, from)
    ensures MadeLater(ResolveConflicts(made), rule, from)
  {
    ResolveMembers(made);
    var r := ResolveConflicts(made);
    forall n | 0 <= n < |r| && r[n].ruleId == rule ensures r[n].createdAt >= from + REJECT_COOLDOWN {
      assert r[n] in made;
      var k :| 0 <= k < |made| && made[k] == r[n];
    }
  }

  /** What the run adds to the log. */
  function Added(l: Loop, v: Loop): seq<Action>
    requires |l.log| <= |v.log|
  {
    v.log[|l.log|..]
  }

  lemma StepSilences(l: Loop, ev: LoopEvent, rule: string, from: Instant)
    requires Silenced(l.e, rule, from) && Enabled(l, ev) && (ev.Cooling? ==> ev.now >= from)
    ensures var v := LoopStep(l, ev);
            Silenced(v.e, rule, from) && l.log <= v.log && MadeLater(Added(l, v), rule, from)
  {
    match ev
    case Ticking(now, mode, m, current, original) =>
      if !mode.Manual? {
        EvaluationSilences(l.e, now, ModeText(mode), m, rule, from);
        var made := Step(l.e, Evaluate(now, ModeText(mode), m)).1;
        ResolvedLater(made, rule, from);
        IdentifiedLater(ResolveConflicts(made), mode, current, original, rule, from);
        var identified := Identified(Requests(ResolveConflicts(made), mode, current, original));
        assert (l.log + identified)[|l.log|..] == identified;
      }
    case _ =>
  }

  lemma {:induction false} RunSilences(l: Loop, evs: seq<LoopEvent>, v: Loop, rule: string, from: Instant)
    requires Silenced(l.e, rule, from) && LoopRun(l, evs, v)
    requires forall i | 0 <= i < |evs| && evs[i].Cooling? :: evs[i].now >= from
    ensures l.log <= v.log && MadeLater(Added(l, v), rule, from)
    decreases |evs|
  {
    if evs != [] {
      var u := LoopStep(l, evs[0]);
      StepSilences(l, evs[0], rule, from);
      RunSilences(u, evs[1..], v, rule, from);
      forall n | 0 <= n < |Added(l, v)| && Added(l, v)[n].ruleId == rule
        ensures Added(l, v)[n].createdAt >= from + REJECT_COOLDOWN
      {
        if n < |Added(l, u)| {
          assert Added(l, v)[n] == Added(l, u)[n];
        } else {
          assert Added(l, v)[n] == Added(u, v)[n - |Added(l, u)|];
        }
      }
    }
  }

  /** A reject returns by noting the rule of the action it took out. */
  lemma RejectOwesItsRule(l: Loop, id: u32)
    requires id in l.w.b.pending && Tied(l.w, l.log)
    ensures var v := LoopStep(l, Rejecting(id));
            && P.Reject(l.w, id).1 == 1 && id !in v.w.b.pending
            && v.owed == l.owed + [l.w.b.pending[id].ruleId]
            && exists n :: 0 <= n < |l.log| && MadeAs(l.w, id, n) && l.log[n].ruleId == v.owed[|v.owed| - 1]
  {
    var n := l.w.j.heldAlloc[l.w.j.tickets[id]];
    assert MadeAs(l.w, id, n);
  }

  /** Once the cooldown of a rejected action's rule is applied, then over every further run of both
      machines each action of that rule that is on its way or pending was either given its identifier
      before that moment or made 120 s after it or later. */
  lemma RejectedRuleStaysAway(e: EngineState, firstId: u32, before: seq<LoopEvent>, t: Loop, which: nat, now: Instant, after: seq<LoopEvent>, v: Loop)
    requires LoopRun(NewLoop(e, firstId), before, t) && which < |t.owed|
    requires LoopRun(LoopStep(t, Cooling(which, now)), after, v)
    requires forall i | 0 <= i < |after| && after[i].Cooling? :: after[i].now >= now
    ensures Tied(v.w, v.log) && t.log <= v.log
    ensures forall i | 0 <= i < |v.w.b.collected| && v.w.b.collected[i].request.action.ruleId == t.owed[which] ::
              v.w.j.collectedAlloc[i] < |t.log|
              || v.w.b.collected[i].request.action.createdAt >= now + 120_000_000_000
    ensures forall id | id in v.w.b.pending && v.w.b.pending[id].ruleId == t.owed[which] ::
              exists n :: 0 <= n < |v.log| && MadeAs(v.w, id, n) && v.log[n].ruleId == t.owed[which]
                          && (n < |t.log| || v.log[n].createdAt >= now + 120_000_000_000)
  {
    var u, rule := LoopStep(t, Cooling(which, now)), t.owed[which];
    RunTies(NewLoop(e, firstId), before, t);
    RunTies(u, after, v);
    RunSilences(u, after, v, rule, now);
    forall n | |t.log| <= n < |v.log| && v.log[n].ruleId == rule
      ensures v.log[n].createdAt >= now + REJECT_COOLDOWN
    {
      assert v.log[n] == Added(u, v)[n - |t.log|];
    }
    forall id | id in v.w.b.pending && v.w.b.pending[id].ruleId == rule
      ensures exists n :: 0 <= n < |v.log| && MadeAs(v.w, id, n) && v.log[n].ruleId == rule
                          && (n < |t.log| || v.log[n].createdAt >= now + REJECT_COOLDOWN)
    {
      assert MadeAs(v.w, id, v.w.j.heldAlloc[v.w.j.tickets[id]]);
    }
  }

  /** The first case does occur: a second action of the rule that is already on its way when the first
      is rejected is still held afterwards, for the user to decide again. */
  lemma EarlierActionIsStillHeld(l: Loop, id: u32, rule: string, now: Instant)
    requires l.owed == [] && id in l.w.b.pending && l.w.b.pending[id].ruleId == rule && l.w.b.collected != []
    requires var c := l.w.b.collected[0];
             && c.id != id && c.request.action.ruleId == rule
             && P.RequiresApproval(c.request.mode, P.AutoApproved(c.Action().actionType, l.w.b.autoApprove))
    ensures var a := LoopStep(l, Rejecting(id));
            var b := LoopStep(a, Cooling(0, now));
            var v := LoopStep(b, Calling(P.Routing(now)));
            && Silenced(v.e, rule, now)
            && l.w.b.collected[0].id in v.w.b.pending && v.w.b.pending[l.w.b.collected[0].id].ruleId == rule
  {}
}
