/** What the user interface is told about held actions: over every run its events of each kind are
    exactly the actions that were held or invalidated. */
module UserNotifications {
  import opened Basics
  import opened PendingActions
  import RuleCondition

  /** The actions of the events of one kind, in order. */
  function Told(events: seq<UiEvent>, kind: EventKind, approval: bool): seq<RjAction> {
    if events == [] then []
    else
      var e := events[|events| - 1];
      Told(events[..|events| - 1], kind, approval)
      + if e.kind == kind && e.requireApproval == approval then [e.action] else []
  }

  predicate IsInvalidation(f: Fate) { f.Expired? || f.ModeCleared? }

  /** The held actions that were invalidated, in order. */
  function InvalidatedActions(held: seq<RjAction>, outcomes: seq<Outcome>): seq<RjAction>
    requires forall i | 0 <= i < |outcomes| :: outcomes[i].ticket < |held|
  {
    if outcomes == [] then []
    else
      var o := outcomes[|outcomes| - 1];
      InvalidatedActions(held, outcomes[..|outcomes| - 1]) + if IsInvalidation(o.fate) then [held[o.ticket]] else []
  }

  predicate Announced(w: World) {
    && TicketsInRange(w)
    && Told(w.j.uiPushed, New, true) == w.j.held
    && Told(w.j.uiPushed, Invalidated, false) == InvalidatedActions(w.j.held, w.j.outcomes)
  }

  lemma ToldSnoc(events: seq<UiEvent>, e: UiEvent, kind: EventKind, approval: bool)
    ensures Told(events + [e], kind, approval)
            == Told(events, kind, approval) + if e.kind == kind && e.requireApproval == approval then [e.action] else []
  {
    assert (events + [e])[..|events|] == events;
  }

  lemma InvalidatedSnoc(held: seq<RjAction>, outcomes: seq<Outcome>, o: Outcome)
    requires forall i | 0 <= i < |outcomes| :: outcomes[i].ticket < |held|
    requires o.ticket < |held|
    ensures forall i | 0 <= i < |outcomes + [o]| :: (outcomes + [o])[i].ticket < |held|
    ensures InvalidatedActions(held, outcomes + [o])
            == InvalidatedActions(held, outcomes) + if IsInvalidation(o.fate) then [held[o.ticket]] else []
  {
    assert (outcomes + [o])[..|outcomes|] == outcomes;
  }

  lemma {:induction false} InvalidatedFrame(held: seq<RjAction>, a: RjAction, outcomes: seq<Outcome>)
    requires forall i | 0 <= i < |outcomes| :: outcomes[i].ticket < |held|
    ensures InvalidatedActions(held + [a], outcomes) == InvalidatedActions(held, outcomes)
  {
    if outcomes != [] {
      InvalidatedFrame(held, a, outcomes[..|outcomes| - 1]);
    }
  }

  lemma AppendLast(before: seq<RjAction>, actions: seq<RjAction>)
    requires actions != []
    ensures before + actions[..|actions| - 1] + [actions[|actions| - 1]] == before + actions
  {}

  lemma {:induction false} ToldAll(w: World, actions: seq<RjAction>, kind: EventKind, approval: bool)
    ensures Told(PushUiAll(w, actions).j.uiPushed, kind, approval)
            == Told(w.j.uiPushed, kind, approval) + if kind == Invalidated && !approval then actions else []
  {
    if actions != [] {
      var front, a := actions[..|actions| - 1], actions[|actions| - 1];
      ToldAll(w, front, kind, approval);
      ToldSnoc(PushUiAll(w, front).j.uiPushed, InvalidatedEvent(a), kind, approval);
      AppendLast(Told(w.j.uiPushed, kind, approval), actions);
      assert PushUiAll(w, actions).j.uiPushed == PushUiAll(w, front).j.uiPushed + [InvalidatedEvent(a)];
    }
  }

  lemma {:induction false} CloseAllTickets(w: World, ids: seq<u32>, fate: Fate)
    ensures var v := CloseAll(w, ids, fate);
            v.j.held == w.j.held && v.j.tickets == w.j.tickets - IdSet(ids) && v.j.uiPushed == w.j.uiPushed
  {
    if ids != [] {
      CloseAllTickets(w, ids[..|ids| - 1], fate);
    }
  }

  lemma CloseInvalidates(u: World, id: u32, fate: Fate, ticket: nat, a: RjAction)
    requires TicketsInRange(u)
    requires TicketOf(u.j, id) == ticket < |u.j.held| && u.j.held[ticket] == a && IsInvalidation(fate)
    ensures var v := Close(u, id, fate);
            && TicketsInRange(v)
            && InvalidatedActions(v.j.held, v.j.outcomes) == InvalidatedActions(u.j.held, u.j.outcomes) + [a]
  {
    InvalidatedSnoc(u.j.held, u.j.outcomes, Outcome(ticket, fate));
  }

  predicate TicketsInRange(w: World) {
    forall i | 0 <= i < |w.j.outcomes| :: w.j.outcomes[i].ticket < |w.j.held|
  }

  lemma TicketKept(w: World, ids: seq<u32>, fate: Fate, id: u32)
    requires Ticketed(w) && id in w.b.pending && id !in ids
    ensures TicketOf(CloseAll(w, ids, fate).j, id) == w.j.tickets[id] < |w.j.held|
    ensures w.j.held[w.j.tickets[id]] == w.b.pending[id].action
  {
    CloseAllTickets(w, ids, fate);
    assert id !in IdSet(ids);
  }

  /** Closing `ids` one by one appends their actions to the invalidated ones. */
  lemma {:induction false} CloseAllInvalidates(w: World, ids: seq<u32>, fate: Fate)
    requires Ticketed(w) && TicketsInRange(w) && IsInvalidation(fate) && Distinct(ids)
    requires forall i | 0 <= i < |ids| :: ids[i] in w.b.pending
    ensures var v := CloseAll(w, ids, fate);
            && v.j.held == w.j.held && TicketsInRange(v)
            && InvalidatedActions(v.j.held, v.j.outcomes)
               == InvalidatedActions(w.j.held, w.j.outcomes) + ActionsOf(w.b.pending, ids)
  {
    if ids != [] {
      var front, id := ids[..|ids| - 1], ids[|ids| - 1];
      CloseAllInvalidates(w, front, fate);
      TicketKept(w, front, fate, id);
      CloseInvalidates(CloseAll(w, front, fate), id, fate, w.j.tickets[id], w.b.pending[id].action);
      AppendLast(InvalidatedActions(w.j.held, w.j.outcomes), ActionsOf(w.b.pending, ids));
    }
  }

  lemma ClearAnnounces(w: World, order: seq<u32>, ids: set<u32>, fate: Fate)
    requires Inv(w) && Announced(w) && IsInvalidation(fate) && ids <= w.b.pending.Keys && Enumerates(order, ids)
    ensures Announced(Clear(w, order, fate))
  {
    CloseAllInvalidates(w, order, fate);
    CloseAllTickets(w, order, fate);
    var u, actions := CloseAll(w, order, fate), ActionsOf(w.b.pending, order);
    ToldAll(u, actions, New, true);
    ToldAll(u, actions, Invalidated, false);
    NotifyingFrame(u, actions);
  }

  lemma CloseAnnounces(w: World, id: u32, fate: Fate)
    requires Ticketed(w) && Announced(w) && !IsInvalidation(fate) && id in w.b.pending
    ensures Announced(Close(w, id, fate))
  {
    InvalidatedSnoc(w.j.held, w.j.outcomes, Outcome(w.j.tickets[id], fate));
  }

  lemma HoldAnnounces(w: World, a: RjAction, allocation: nat, rule: string, e: RuleCondition.Explanation, now: Instant)
    requires Announced(w)
    ensures Announced(PushUi(Hold(w, a, allocation, rule, now), UiEvent(a, true, New, e)))
  {
    InvalidatedFrame(w.j.held, a, w.j.outcomes);
    ToldSnoc(w.j.uiPushed, UiEvent(a, true, New, e), New, true);
    ToldSnoc(w.j.uiPushed, UiEvent(a, true, New, e), Invalidated, false);
  }

  lemma AnnouncedFrame(w: World, v: World)
    requires Announced(w)
    requires v.j.uiPushed == w.j.uiPushed && v.j.held == w.j.held && v.j.outcomes == w.j.outcomes
    ensures Announced(v)
  {}

  lemma PushDirectAnnounces(w: World, a: RjAction, e: RuleCondition.Explanation, origin: Origin)
    requires Announced(w)
    ensures Announced(PushDirect(PushUi(w, UiEvent(a, false, New, e)), a, origin))
  {
    var ev := UiEvent(a, false, New, e);
    ToldSnoc(w.j.uiPushed, ev, New, true);
    ToldSnoc(w.j.uiPushed, ev, Invalidated, false);
    AnnouncedFrame(PushUi(w, ev), PushDirect(PushUi(w, ev), a, origin));
  }

  lemma EnqueuePendingAnnounces(w: World, a: RjAction, allocation: nat, rule: string, e: RuleCondition.Explanation, now: Instant)
    requires Ticketed(w) && Announced(w)
    ensures Announced(EnqueuePending(w, a, allocation, rule, e, now))
  {
    if a.id in w.b.pending {
      CloseAnnounces(w, a.id, Overwritten);
    }
    HoldAnnounces(Free(w, a.id), a, allocation, rule, e, now);
  }

  lemma RouteAnnounces(w: World, now: Instant)
    requires Ticketed(w) && Announced(w)
    ensures Announced(Route(w, now))
  {
    if w.b.collected != [] {
      var c, v := w.b.collected[0], DropCollected(w);
      AnnouncedFrame(w, v);
      if RequiresApproval(c.request.mode, AutoApproved(c.Action().actionType, w.b.autoApprove)) {
        EnqueuePendingAnnounces(v, c.Action(), FirstAllocation(w.j), c.request.action.ruleId, c.request.action.explanation, now);
      } else {
        PushDirectAnnounces(v, c.Action(), c.request.action.explanation,
                            Direct(c.request.mode, c.request.action.isCritical, w.b.autoApprove));
      }
    }
  }

  lemma ApproveAnnounces(w: World, id: u32, now: Instant)
    requires Ticketed(w) && Announced(w)
    ensures Announced(Approve(w, id, now).0)
  {
    if id in w.b.pending {
      CloseAnnounces(w, id, Approved);
      if |w.b.actionQueue| < QUEUE_CAPACITY {
        AnnouncedFrame(Close(w, id, Approved), Approve(w, id, now).0);
      } else {
        AnnouncedFrame(w, Approve(w, id, now).0);
      }
    }
  }

  lemma StepAnnounces(w: World, ev: Event)
    requires Inv(w) && Announced(w) && ValidEvent(w, ev)
    ensures Announced(Step(w, ev))
  {
    match ev
    case Routing(now) => RouteAnnounces(w, now);
    case Approving(id, now) => ApproveAnnounces(w, id, now);
    case Rejecting(id) =>
      if id in w.b.pending {
        CloseAnnounces(w, id, Rejected);
      }
    case Sweeping(now, order) => ClearAnnounces(w, order, ExpiredIds(w.b.pending, now), Expired);
    case SettingMode(mode, order) =>
      if mode <= 3 && mode != w.b.mode {
        var v := w.(b := w.b.(mode := mode));
        ConfigKeeps(w, v);
        AnnouncedFrame(w, v);
        ClearAnnounces(v, order, v.b.pending.Keys, ModeCleared);
      }
    case _ => AnnouncedFrame(w, Step(w, ev));
  }

  lemma {:induction false} RunAnnounces(w: World, events: seq<Event>)
    requires Inv(w) && Announced(w) && ValidRun(w, events)
    ensures Announced(Run(w, events))
    decreases |events|
  {
    if events != [] {
      StepKeeps(w, events[0]);
      StepAnnounces(w, events[0]);
      RunAnnounces(Step(w, events[0]), events[1..]);
    }
  }

  /** Over every run the requests for approval put to the user interface are exactly the actions
      held, and the withdrawals exactly the held actions that expired or fell to a mode change, in
      order; an approval or a reject, which came from there, is not announced back. */
  lemma TheUserIsToldEverything(firstId: u32, events: seq<Event>)
    requires ValidRun(NewWorld(firstId), events)
    ensures Announced(Run(NewWorld(firstId), events))
  {
    ReachableWorlds(firstId, []);
    RunAnnounces(NewWorld(firstId), events);
  }
}
