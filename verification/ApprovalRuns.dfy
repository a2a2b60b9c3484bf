/** Approvals over whole runs: what they let through to the actuator, and that a full actuator
    queue loses none of them. */
module ApprovalRuns {
  import opened Basics
  import opened ActionIds
  import opened PendingActions

  // ---------------------------------------------------------------- what approvals let through

  /** The held actions among the pushes, in order. */
  function GatedActions(pushed: seq<Push>): seq<RjAction> {
    if pushed == [] then []
    else
      var p := pushed[|pushed| - 1];
      GatedActions(pushed[..|pushed| - 1]) + if p.origin.Gated? then [p.action] else []
  }

  lemma GatedAppend(pushed: seq<Push>, p: Push)
    ensures GatedActions(pushed + [p]) == GatedActions(pushed) + if p.origin.Gated? then [p.action] else []
  {
    assert (pushed + [p])[..|pushed|] == pushed;
  }

  /** The action an event approves, if it is an approval that returns 1. */
  function LetThrough(w: World, ev: Event): seq<RjAction> {
    if ev.Approving? && Approve(w, ev.id, ev.now).1 == 1 && ev.id in w.b.pending then [w.b.pending[ev.id].action] else []
  }

  /** All of them, in order. */
  function SuccessfulApprovals(w: World, events: seq<Event>): seq<RjAction>
    requires ValidRun(w, events)
    decreases |events|
  {
    if events == [] then [] else LetThrough(w, events[0]) + SuccessfulApprovals(Step(w, events[0]), events[1..])
  }

  lemma {:induction false} CloseAllPushesNothing(w: World, ids: seq<u32>, fate: Fate)
    ensures CloseAll(w, ids, fate).j.pushed == w.j.pushed
  {
    if ids != [] {
      CloseAllPushesNothing(w, ids[..|ids| - 1], fate);
    }
  }

  lemma {:induction false} PushUiAllPushesNothing(w: World, actions: seq<RjAction>)
    ensures PushUiAll(w, actions).j.pushed == w.j.pushed
  {
    if actions != [] {
      PushUiAllPushesNothing(w, actions[..|actions| - 1]);
    }
  }

  lemma ClearPushesNothing(w: World, order: seq<u32>, fate: Fate)
    requires forall i | 0 <= i < |order| :: order[i] in w.b.pending
    ensures Clear(w, order, fate).j.pushed == w.j.pushed
  {
    CloseAllPushesNothing(w, order, fate);
    PushUiAllPushesNothing(CloseAll(w, order, fate), ActionsOf(w.b.pending, order));
  }

  lemma RouteLetsNothingThrough(w: World, now: Instant)
    ensures GatedActions(Route(w, now).j.pushed) == GatedActions(w.j.pushed)
  {
    if w.b.collected != [] {
      var c := w.b.collected[0];
      GatedAppend(w.j.pushed, Push(c.Action(), Direct(c.request.mode, c.request.action.isCritical, w.b.autoApprove)));
    }
  }

  lemma ApproveLetsThrough(w: World, id: u32, now: Instant)
    ensures GatedActions(Approve(w, id, now).0.j.pushed) == GatedActions(w.j.pushed) + LetThrough(w, Approving(id, now))
  {
    if id in w.b.pending {
      GatedAppend(w.j.pushed, Push(w.b.pending[id].action, Gated(TicketOf(w.j, id))));
    }
  }

  lemma StepLetsThrough(w: World, ev: Event)
    requires ValidEvent(w, ev)
    ensures GatedActions(Step(w, ev).j.pushed) == GatedActions(w.j.pushed) + LetThrough(w, ev)
  {
    match ev
    case Routing(now) => RouteLetsNothingThrough(w, now);
    case Approving(id, now) => ApproveLetsThrough(w, id, now);
    case Sweeping(now, order) => ClearPushesNothing(w, order, Expired);
    case SettingMode(mode, order) =>
      if mode <= 3 && mode != w.b.mode {
        ClearPushesNothing(w.(b := w.b.(mode := mode)), order, ModeCleared);
      }
    case _ =>
  }

  lemma Grouping(a: seq<RjAction>, b: seq<RjAction>, c: seq<RjAction>)
    ensures a + (b + c) == a + b + c
  {}

  lemma {:induction false} RunLetsThrough(w: World, events: seq<Event>)
    requires ValidRun(w, events)
    ensures GatedActions(Run(w, events).j.pushed) == GatedActions(w.j.pushed) + SuccessfulApprovals(w, events)
    decreases |events|
  {
    if events != [] {
      var v := Step(w, events[0]);
      StepLetsThrough(w, events[0]);
      RunLetsThrough(v, events[1..]);
      Grouping(GatedActions(w.j.pushed), LetThrough(w, events[0]), SuccessfulApprovals(v, events[1..]));
    }
  }

  /** Over every run the held actions that were pushed to the actuator are exactly those of the
      approvals that returned 1, in the order of these. */
  lemma PushedExactlyBySuccessfulApprovals(firstId: u32, events: seq<Event>)
    requires ValidRun(NewWorld(firstId), events)
    ensures GatedActions(Run(NewWorld(firstId), events).j.pushed) == SuccessfulApprovals(NewWorld(firstId), events)
  {
    RunLetsThrough(NewWorld(firstId), events);
  }

  // ---------------------------------------------------------------- a full queue loses nothing

  /** No call that takes `id` out for a reason of its own, and no sweep late enough to. */
  predicate Spares(ev: Event, id: u32, mode: u32, deadline: Instant) {
    match ev
    case Approving(other, _) => other != id
    case Rejecting(other) => other != id
    case Sweeping(now, _) => now < deadline
    case SettingMode(newMode, _) => newMode > 3 || newMode == mode
    case _ => true
  }

  predicate Kept(w: World, id: u32, entry: PendingEntry, mode: u32) {
    id in w.b.pending && w.b.pending[id] == entry && w.b.mode == mode
  }

  lemma RouteSpares(w: World, now: Instant, firstId: u32, id: u32, entry: PendingEntry, mode: u32)
    requires Ticketed(w) && Numbered(w, firstId) && w.j.allocations <= ID_COUNT && Kept(w, id, entry, mode)
    ensures Kept(Route(w, now), id, entry, mode)
  {
    if w.b.collected != [] {
      NextIdIsFree(w, firstId);
    }
  }

  lemma NextIdIsFree(w: World, firstId: u32)
    requires Ticketed(w) && Numbered(w, firstId) && w.j.allocations <= ID_COUNT && w.b.collected != []
    ensures w.b.collected[0].id !in w.b.pending
  {
    DropNumbers(w, firstId);
    NewIdIsFree(DropCollected(w), firstId, FirstAllocation(w.j));
  }

  lemma SweepSpares(w: World, now: Instant, order: seq<u32>, id: u32, entry: PendingEntry, mode: u32)
    requires Inv(w) && Enumerates(order, ExpiredIds(w.b.pending, now))
    requires Kept(w, id, entry, mode) && now < entry.created + PENDING_TTL
    ensures Kept(Clear(w, order, Expired), id, entry, mode)
  {
    ClearKeeps(w, order, ExpiredIds(w.b.pending, now), Expired);
    CloseAllKeepsMode(w, order, Expired);
    PushUiAllKeepsMode(CloseAll(w, order, Expired), ActionsOf(w.b.pending, order));
  }

  lemma ApproveSpares(w: World, other: u32, now: Instant, id: u32, entry: PendingEntry, mode: u32)
    requires Kept(w, id, entry, mode) && other != id
    ensures Kept(Approve(w, other, now).0, id, entry, mode)
  {}

  lemma StepSpares(w: World, ev: Event, firstId: u32, id: u32, entry: PendingEntry, mode: u32)
    requires Inv(w) && Numbered(w, firstId) && w.j.allocations <= ID_COUNT && ValidEvent(w, ev)
    requires Kept(w, id, entry, mode) && Spares(ev, id, mode, entry.created + PENDING_TTL)
    ensures Kept(Step(w, ev), id, entry, mode)
  {
    match ev
    case Routing(now) => RouteSpares(w, now, firstId, id, entry, mode);
    case Approving(other, now) => ApproveSpares(w, other, now, id, entry, mode);
    case Sweeping(now, order) => SweepSpares(w, now, order, id, entry, mode);
    case _ =>
  }

  lemma {:induction false} CloseAllAllocatesNothing(w: World, ids: seq<u32>, fate: Fate)
    ensures CloseAll(w, ids, fate).j.allocations == w.j.allocations
  {
    if ids != [] {
      CloseAllAllocatesNothing(w, ids[..|ids| - 1], fate);
    }
  }

  lemma {:induction false} PushUiAllAllocatesNothing(w: World, actions: seq<RjAction>)
    ensures PushUiAll(w, actions).j.allocations == w.j.allocations
  {
    if actions != [] {
      PushUiAllAllocatesNothing(w, actions[..|actions| - 1]);
    }
  }

  lemma StepAllocates(w: World, ev: Event)
    requires ValidEvent(w, ev)
    ensures Step(w, ev).j.allocations >= w.j.allocations
  {
    match ev
    case Sweeping(_, order) =>
      CloseAllAllocatesNothing(w, order, Expired);
      PushUiAllAllocatesNothing(CloseAll(w, order, Expired), ActionsOf(w.b.pending, order));
    case SettingMode(mode, order) =>
      if mode <= 3 && mode != w.b.mode {
        var v := w.(b := w.b.(mode := mode));
        CloseAllAllocatesNothing(v, order, ModeCleared);
        PushUiAllAllocatesNothing(CloseAll(v, order, ModeCleared), ActionsOf(v.b.pending, order));
      }
    case _ =>
  }

  lemma {:induction false} RunAllocates(w: World, events: seq<Event>)
    requires ValidRun(w, events)
    ensures Run(w, events).j.allocations >= w.j.allocations
    decreases |events|
  {
    if events != [] {
      StepAllocates(w, events[0]);
      RunAllocates(Step(w, events[0]), events[1..]);
    }
  }

  /** What all reachable worlds have in common. */
  predicate Sound(w: World, firstId: u32) {
    Inv(w) && Numbered(w, firstId)
  }

  lemma SoundStepSpares(w: World, ev: Event, firstId: u32, id: u32, entry: PendingEntry, mode: u32)
    requires Sound(w, firstId) && w.j.allocations <= ID_COUNT && ValidEvent(w, ev)
    requires Kept(w, id, entry, mode) && Spares(ev, id, mode, entry.created + PENDING_TTL)
    ensures Sound(Step(w, ev), firstId) && Kept(Step(w, ev), id, entry, mode)
  {
    StepKeeps(w, ev);
    StepNumbers(w, ev, firstId);
    StepSpares(w, ev, firstId, id, entry, mode);
  }

  predicate AllSpare(events: seq<Event>, id: u32, mode: u32, deadline: Instant) {
    forall k | 0 <= k < |events| :: Spares(events[k], id, mode, deadline)
  }

  lemma AllSpareSplit(events: seq<Event>, id: u32, mode: u32, deadline: Instant)
    requires events != [] && AllSpare(events, id, mode, deadline)
    ensures Spares(events[0], id, mode, deadline) && AllSpare(events[1..], id, mode, deadline)
  {}

  lemma {:induction false} RunSpares(w: World, events: seq<Event>, firstId: u32, id: u32, entry: PendingEntry, mode: u32, deadline: Instant)
    requires ValidRun(w, events) && Run(w, events).j.allocations <= ID_COUNT
    requires Sound(w, firstId) && Kept(w, id, entry, mode)
    requires AllSpare(events, id, mode, deadline) && deadline <= entry.created + PENDING_TTL
    ensures Kept(Run(w, events), id, entry, mode)
    decreases |events|
  {
    if events != [] {
      RunAllocates(w, events);
      AllSpareSplit(events, id, mode, deadline);
      SoundStepSpares(w, events[0], firstId, id, entry, mode);
      RunSpares(Step(w, events[0]), events[1..], firstId, id, entry, mode, deadline);
    }
  }

  predicate Reached(firstId: u32, events: seq<Event>, w: World) {
    ValidRun(NewWorld(firstId), events) && Run(NewWorld(firstId), events) == w
  }

  lemma ReachedIsSound(firstId: u32, events: seq<Event>, w: World)
    requires Reached(firstId, events, w)
    ensures Sound(w, firstId)
  {
    ReachableWorlds(firstId, events);
  }

  /** An approval of `id` for which the actuator queue has no room. */
  predicate Refused(w: World, id: u32, now: Instant, v: World) {
    id in w.b.pending && |w.b.actionQueue| >= 64 && v == Approve(w, id, now).0
  }

  function Refreshed(w: World, id: u32, now: Instant): PendingEntry
    requires id in w.b.pending
  {
    w.b.pending[id].(created := now)
  }

  lemma RefusedApproval(w: World, firstId: u32, id: u32, now: Instant, v: World)
    requires Sound(w, firstId) && Refused(w, id, now, v)
    ensures Approve(w, id, now).1 == 0 && Sound(v, firstId) && Kept(v, id, Refreshed(w, id, now), w.b.mode)
  {
    FullQueueKeepsTheAction(w, id, now, now);
    ApproveKeeps(w, id, now);
    NumberedFrame(w, v, firstId);
  }

  lemma SurvivesFrom(w: World, firstId: u32, id: u32, now: Instant, v: World, after: seq<Event>)
    requires Sound(w, firstId) && Refused(w, id, now, v)
    requires ValidRun(v, after) && Run(v, after).j.allocations <= ID_COUNT
    requires AllSpare(after, id, w.b.mode, now + PENDING_TTL)
    ensures Approve(w, id, now).1 == 0
    ensures Kept(Run(v, after), id, Refreshed(w, id, now), w.b.mode)
  {
    RefusedApproval(w, firstId, id, now, v);
    RunSpares(v, after, firstId, id, Refreshed(w, id, now), w.b.mode, now + PENDING_TTL);
  }

  /** An approval that meets a full actuator queue returns 0 and loses nothing: whatever happens in
      the following 30 s, the action stays pending until it is approved or rejected again or the
      mode changes. */
  lemma FullQueueApprovalSurvives(firstId: u32, before: seq<Event>, w: World, id: u32, now: Instant, v: World, after: seq<Event>)
    requires Reached(firstId, before, w) && Refused(w, id, now, v)
    requires ValidRun(v, after) && Run(v, after).j.allocations <= ID_COUNT
    requires AllSpare(after, id, w.b.mode, now + PENDING_TTL)
    ensures Approve(w, id, now).1 == 0
    ensures Kept(Run(v, after), id, Refreshed(w, id, now), w.b.mode)
  {
    ReachedIsSound(firstId, before, w);
    SurvivesFrom(w, firstId, id, now, v, after);
  }
}
