/** Actions that need no approval: over every run each is announced and sent to the actuator, where
    it is queued, or refused and counted. */
module DirectActions {
  import opened Basics
  import opened PendingActions
  import opened UserNotifications

  function OfferedActions(offers: seq<Offer>): (r: seq<RjAction>)
    ensures |r| == |offers| && forall i | 0 <= i < |r| :: r[i] == offers[i].action
  {
    seq(|offers|, i requires 0 <= i < |offers| => offers[i].action)
  }

  /** The offered actions that the actuator's queue took, in order. */
  function TakenActions(offers: seq<Offer>): seq<RjAction> {
    if offers == [] then []
    else
      var o := offers[|offers| - 1];
      TakenActions(offers[..|offers| - 1]) + if o.taken then [o.action] else []
  }

  /** The actions that were pushed without approval, in order. */
  function DirectlyPushed(pushed: seq<Push>): seq<RjAction> {
    if pushed == [] then []
    else
      var p := pushed[|pushed| - 1];
      DirectlyPushed(pushed[..|pushed| - 1]) + if p.origin.Direct? then [p.action] else []
  }

  predicate Accounted(w: World) {
    && w.j.allocations == |w.b.collected| + |w.j.held| + |w.j.offers|
    && Told(w.j.uiPushed, New, false) == OfferedActions(w.j.offers)
    && DirectlyPushed(w.j.pushed) == TakenActions(w.j.offers)
    && |w.j.offers| == |TakenActions(w.j.offers)| + w.b.droppedActions
  }

  lemma OfferSnoc(offers: seq<Offer>, o: Offer)
    ensures OfferedActions(offers + [o]) == OfferedActions(offers) + [o.action]
    ensures TakenActions(offers + [o]) == TakenActions(offers) + if o.taken then [o.action] else []
  {
    assert (offers + [o])[..|offers|] == offers;
  }

  lemma DirectSnoc(pushed: seq<Push>, p: Push)
    ensures DirectlyPushed(pushed + [p]) == DirectlyPushed(pushed) + if p.origin.Direct? then [p.action] else []
  {
    assert (pushed + [p])[..|pushed|] == pushed;
  }

  lemma AccountedFrame(w: World, v: World)
    requires Accounted(w)
    requires v.j.allocations == w.j.allocations && v.b.collected == w.b.collected && v.j.held == w.j.held
    requires v.j.offers == w.j.offers && v.j.pushed == w.j.pushed && v.b.droppedActions == w.b.droppedActions
    requires Told(v.j.uiPushed, New, false) == Told(w.j.uiPushed, New, false)
    ensures Accounted(v)
  {}

  lemma {:induction false} CloseAllFrame(w: World, ids: seq<u32>, fate: Fate)
    ensures var v := CloseAll(w, ids, fate);
            && v.j.offers == w.j.offers && v.j.pushed == w.j.pushed && v.b.droppedActions == w.b.droppedActions
            && v.j.uiPushed == w.j.uiPushed
  {
    if ids != [] {
      CloseAllFrame(w, ids[..|ids| - 1], fate);
    }
  }

  lemma {:induction false} PushUiAllFrame(w: World, actions: seq<RjAction>)
    ensures var v := PushUiAll(w, actions);
            v.j.offers == w.j.offers && v.j.pushed == w.j.pushed && v.b.droppedActions == w.b.droppedActions
  {
    if actions != [] {
      PushUiAllFrame(w, actions[..|actions| - 1]);
    }
  }

  lemma ClearAccounts(w: World, order: seq<u32>, fate: Fate)
    requires Accounted(w) && !fate.Overwritten? && forall i | 0 <= i < |order| :: order[i] in w.b.pending
    ensures Accounted(Clear(w, order, fate))
  {
    var u, actions := CloseAll(w, order, fate), ActionsOf(w.b.pending, order);
    CloseAllFrame(w, order, fate);
    ClosingFrame(w, order, fate);
    PushUiAllFrame(u, actions);
    NotifyingFrame(u, actions);
    ToldAll(u, actions, New, false);
    AccountedFrame(w, Clear(w, order, fate));
  }

  lemma HoldingAccounts(w: World, now: Instant)
    requires Accounted(w) && w.b.collected != []
    requires var c := w.b.collected[0];
             RequiresApproval(c.request.mode, AutoApproved(c.Action().actionType, w.b.autoApprove))
    ensures Accounted(Route(w, now))
  {
    var c := w.b.collected[0];
    ToldSnoc(w.j.uiPushed, UiEvent(c.Action(), true, New, c.request.action.explanation), New, false);
  }

  /** The announcement, the offer and the push are one action each. */
  lemma OfferingAccounts(w: World, now: Instant)
    requires Accounted(w) && w.b.collected != []
    requires var c := w.b.collected[0];
             !RequiresApproval(c.request.mode, AutoApproved(c.Action().actionType, w.b.autoApprove))
    ensures Accounted(Route(w, now))
  {
    var c := w.b.collected[0];
    var a, taken := c.Action(), |w.b.actionQueue| < QUEUE_CAPACITY;
    ToldSnoc(w.j.uiPushed, UiEvent(a, false, New, c.request.action.explanation), New, false);
    OfferSnoc(w.j.offers, Offer(a, taken));
    if taken {
      DirectSnoc(w.j.pushed, Push(a, Direct(c.request.mode, c.request.action.isCritical, w.b.autoApprove)));
    }
  }

  lemma ApproveAccounts(w: World, id: u32, now: Instant)
    requires Accounted(w)
    ensures Accounted(Approve(w, id, now).0)
  {
    if id in w.b.pending && |w.b.actionQueue| < QUEUE_CAPACITY {
      DirectSnoc(w.j.pushed, Push(w.b.pending[id].action, Gated(TicketOf(w.j, id))));
    }
  }

  lemma StepAccounts(w: World, ev: Event)
    requires Accounted(w) && ValidEvent(w, ev)
    ensures Accounted(Step(w, ev))
  {
    match ev
    case Routing(now) =>
      if w.b.collected != [] {
        var c := w.b.collected[0];
        if RequiresApproval(c.request.mode, AutoApproved(c.Action().actionType, w.b.autoApprove)) {
          HoldingAccounts(w, now);
        } else {
          OfferingAccounts(w, now);
        }
      }
    case Approving(id, now) => ApproveAccounts(w, id, now);
    case Sweeping(_, order) => ClearAccounts(w, order, Expired);
    case SettingMode(mode, order) =>
      if mode <= 3 && mode != w.b.mode {
        ClearAccounts(w.(b := w.b.(mode := mode)), order, ModeCleared);
      }
    case _ =>
  }

  lemma {:induction false} RunAccounts(w: World, events: seq<Event>)
    requires Accounted(w) && ValidRun(w, events)
    ensures Accounted(Run(w, events))
    decreases |events|
  {
    if events != [] {
      StepAccounts(w, events[0]);
      RunAccounts(Step(w, events[0]), events[1..]);
    }
  }

  /** Over every run: every identifier belongs to an action that is on its way, was held, or was
      sent to the actuator without approval. Those sent are exactly the ones announced so, in
      order; each was queued at its place among the pushes, or refused and counted. */
  lemma EveryActionIsAccountedFor(firstId: u32, events: seq<Event>)
    requires ValidRun(NewWorld(firstId), events)
    ensures var w := Run(NewWorld(firstId), events);
            && w.j.allocations == |w.b.collected| + |w.j.held| + |w.j.offers|
            && Told(w.j.uiPushed, New, false) == OfferedActions(w.j.offers)
            && DirectlyPushed(w.j.pushed) == TakenActions(w.j.offers)
            && |w.j.offers| == |TakenActions(w.j.offers)| + w.b.droppedActions
  {
    assert Accounted(NewWorld(firstId));
    RunAccounts(NewWorld(firstId), events);
  }
}
