/** The object behind the exported calls. Each method body is the source's own sequence of
    queue and map operations; its contract equates the new state with the step function. */
module FfiState {
  import opened Basics
  import opened PendingActions
  import RuleCondition

  lemma AppendOne(w: World, order: seq<u32>, id: u32, fate: Fate)
    requires id in w.b.pending && forall i | 0 <= i < |order| :: order[i] in w.b.pending
    ensures CloseAll(w, order + [id], fate) == Close(CloseAll(w, order, fate), id, fate)
    ensures ActionsOf(w.b.pending, order + [id]) == ActionsOf(w.b.pending, order) + [w.b.pending[id].action]
  {
    assert (order + [id])[..|order|] == order;
  }

  /** What is yet to be removed is still there. */
  lemma StillPending(w: World, order: seq<u32>, n: nat, fate: Fate)
    requires n < |order| && Distinct(order) && order[n] in w.b.pending
    ensures order[n] in CloseAll(w, order[..n], fate).b.pending
    ensures CloseAll(w, order[..n], fate).b.pending[order[n]] == w.b.pending[order[n]]
  {
    CloseAllPending(w, order[..n], fate);
    assert order[n] !in order[..n];
  }

  /** The elements of a set in some order. */
  method Enumerate(ids: set<u32>) returns (order: seq<u32>)
    ensures Enumerates(order, ids)
  {
    order := [];
    var todo := ids;
    while todo != {}
      invariant todo <= ids
      invariant forall i | 0 <= i < |order| :: order[i] in ids && order[i] !in todo
      invariant forall id | id in ids :: id in todo || id in order
      invariant Distinct(order)
      decreases todo
    {
      var id :| id in todo;
      order := order + [id];
      todo := todo - {id};
    }
  }

  /** The tick saw co-pilot mode, and the action's category is not switched to automatic. */
  predicate HeldForTheUser(c: RoutedAction, auto: set<Category>) {
    c.request.mode.CoPilot? && !SwitchedToAutomatic(c.request.action.actionType, auto)
  }

  class FfiState {
    var nextId: u32
    var collected: seq<RoutedAction>
    var actionQueue: seq<RjAction>
    var uiQueue: seq<UiEvent>
    var pending: map<u32, PendingEntry>
    var mode: u32
    var autoApprove: set<Category>
    var droppedActions: nat
    var droppedUi: nat
    ghost var journal: Journal

    ghost function World(): World
      reads this
    {
      PendingActions.World(
        Bridge(nextId, collected, actionQueue, uiQueue, pending, mode, autoApprove, droppedActions, droppedUi), journal)
    }

    constructor ()
      ensures World() == NewWorld(1)
    {
      nextId := 1;
      collected, actionQueue, uiQueue, pending := [], [], [], map[];
      mode, autoApprove := 0, {};
      droppedActions, droppedUi := 0, 0;
      journal := NewWorld(1).j;
    }

    method NextActionId() returns (id: u32)
      modifies this`nextId, this`journal
      ensures (id, World()) == Allocate(old(World()))
      ensures id == if old(nextId) == 0 then 1 else old(nextId)
      ensures nextId == if id == 0xFFFF_FFFF then 0 else id + 1
    {
      id := nextId;
      nextId := (nextId + 1) % U32_SIZE;
      if id == 0 {
        id := nextId;
        nextId := (nextId + 1) % U32_SIZE;
      }
      journal := journal.(allocations := journal.allocations + 1);
    }

    /** A push that fails leaves the queue alone and is counted. */
    method EnqueueAction(a: RjAction, ghost origin: Origin) returns (ok: bool)
      modifies this`actionQueue, this`droppedActions, this`journal
      ensures World() == PushAction(old(World()), a, origin)
      ensures ok <==> |old(actionQueue)| < 64
      ensures ok ==> actionQueue == old(actionQueue) + [a] && droppedActions == old(droppedActions)
      ensures !ok ==> actionQueue == old(actionQueue) && droppedActions == old(droppedActions) + 1
    {
      ok := |actionQueue| < QUEUE_CAPACITY;
      if ok {
        actionQueue := actionQueue + [a];
        journal := journal.(pushed := journal.pushed + [Push(a, origin)]);
      } else {
        droppedActions := droppedActions + 1;
      }
    }

    /** A full ring gives up its oldest event to make room. */
    method EnqueueUiEvent(ev: UiEvent)
      modifies this`uiQueue, this`droppedUi, this`journal
      ensures World() == PushUi(old(World()), ev)
      ensures |old(uiQueue)| < 64 ==> uiQueue == old(uiQueue) + [ev] && droppedUi == old(droppedUi)
      ensures |old(uiQueue)| >= 64 ==> uiQueue == old(uiQueue)[1..] + [ev] && droppedUi == old(droppedUi) + 1
    {
      if |uiQueue| >= QUEUE_CAPACITY {
        uiQueue := uiQueue[1..];
        droppedUi := droppedUi + 1;
      }
      uiQueue := uiQueue + [ev];
      journal := journal.(uiPushed := journal.uiPushed + [ev]);
    }

    method EnqueuePending(a: RjAction, ghost allocation: nat, ruleId: string, e: RuleCondition.Explanation, now: Instant)
      modifies this`pending, this`uiQueue, this`droppedUi, this`journal
      ensures World() == PendingActions.EnqueuePending(old(World()), a, allocation, ruleId, e, now)
      ensures pending == old(pending)[a.id := PendingEntry(a, ruleId, now)]
    {
      ghost var free := Free(World(), a.id);
      assert free.b.pending[a.id := PendingEntry(a, ruleId, now)] == pending[a.id := PendingEntry(a, ruleId, now)];
      pending := pending[a.id := PendingEntry(a, ruleId, now)];
      journal := Hold(free, a, allocation, ruleId, now).j;
      EnqueueUiEvent(UiEvent(a, true, New, e));
    }

    /** One rule action of a tick: withheld, or given an identifier. */
    method CollectAction(r: Request)
      modifies this`nextId, this`collected, this`journal
      ensures World() == Collect(old(World()), r)
      ensures !r.mode.Manual? && (r.mode.Assist? ==> r.action.isCritical)
              && (r.action.actionType.BitrateRecover? ==> 0 < r.currentKbps < r.originalKbps) ==>
                |collected| == |old(collected)| + 1 && collected[..|old(collected)|] == old(collected)
                && collected[|old(collected)|].request == r
      ensures r.mode.Manual? || (r.mode.Assist? && !r.action.isCritical)
              || (r.action.actionType.BitrateRecover? && !(0 < r.currentKbps < r.originalKbps)) ==>
                World() == old(World())
    {
      if r.mode.Manual? {
        return;
      }
      if r.action.actionType.BitrateRecover? && !RecoveryHasDeficit(r.currentKbps, r.originalKbps) {
        return;
      }
      if r.mode.Assist? && !r.action.isCritical {
        return;
      }
      journal := journal.(collectedAlloc := journal.collectedAlloc + [journal.allocations]);
      var id := NextActionId();
      collected := collected + [Collected(id, r)];
    }

    /** The tick's next collected action goes to the actuator or is held for approval. */
    method RouteNext(now: Instant)
      modifies this
      ensures World() == Route(old(World()), now)
      ensures old(collected) != [] && HeldForTheUser(old(collected[0]), old(autoApprove)) ==>
                && pending == old(pending)[old(collected[0].id) := PendingEntry(old(collected[0]).Action(), old(collected[0].request.action.ruleId), now)]
                && actionQueue == old(actionQueue) && droppedActions == old(droppedActions)
      ensures old(collected) != [] && !HeldForTheUser(old(collected[0]), old(autoApprove)) ==>
                && pending == old(pending)
                && (|old(actionQueue)| < 64 ==>
                      actionQueue == old(actionQueue) + [old(collected[0]).Action()] && droppedActions == old(droppedActions))
                && (|old(actionQueue)| >= 64 ==>
                      actionQueue == old(actionQueue) && droppedActions == old(droppedActions) + 1)
    {
      if collected == [] {
        return;
      }
      RouteDecides(World(), now);
      ghost var allocation := FirstAllocation(journal);
      journal := DropCollected(World()).j;
      var c := collected[0];
      collected := collected[1..];
      var a := RjAction(c.id, c.request.action.actionType, c.request.action.param1, c.request.action.param2);
      if RequiresApproval(c.request.mode, AutoApproved(a.actionType, autoApprove)) {
        EnqueuePending(a, allocation, c.request.action.ruleId, c.request.action.explanation, now);
      } else {
        EnqueueUiEvent(UiEvent(a, false, New, c.request.action.explanation));
        journal := journal.(offers := journal.offers + [Offer(a, |actionQueue| < QUEUE_CAPACITY)]);
        var ok := EnqueueAction(a, Direct(c.request.mode, c.request.action.isCritical, autoApprove));
      }
    }

    method ActionApprove(id: u32, now: Instant) returns (code: int)
      modifies this
      ensures (World(), code) == Approve(old(World()), id, now)
      ensures code == if id in old(pending) && |old(actionQueue)| < 64 then 1 else 0
      ensures code == 1 ==> pending == old(pending) - {id} && actionQueue == old(actionQueue) + [old(pending)[id].action]
      ensures code == 0 ==> pending.Keys == old(pending).Keys && actionQueue == old(actionQueue)
    {
      if id !in pending {
        return 0;
      }
      var entry := pending[id];
      pending := pending - {id};
      if |actionQueue| < QUEUE_CAPACITY {
        ghost var ticket := TicketOf(journal, id);
        journal := Close(World(), id, Approved).j;
        actionQueue := actionQueue + [entry.action];
        journal := journal.(pushed := journal.pushed + [Push(entry.action, Gated(ticket))]);
        return 1;
      }
      pending := pending[id := PendingEntry(entry.action, entry.ruleId, now)];
      assert pending == old(pending)[id := entry.(created := now)];
      return 0;
    }

    /** The rule whose cooldown the caller starts, when an action was rejected. */
    method ActionReject(id: u32) returns (code: int, ruleId: Option<string>)
      modifies this`pending, this`journal
      ensures (World(), code) == Reject(old(World()), id)
      ensures ruleId == if id in old(pending) then Some(old(pending)[id].ruleId) else None
    {
      if id !in pending {
        return 0, None;
      }
      var entry := pending[id];
      journal := Close(World(), id, Rejected).j;
      pending := pending - {id};
      return 1, Some(entry.ruleId);
    }

    /** Remove `ids` one by one, in whatever order the store yields them, then notify. */
    method Invalidate(ids: set<u32>, ghost fate: Fate) returns (order: seq<u32>)
      requires ids <= pending.Keys
      modifies this`pending, this`uiQueue, this`droppedUi, this`journal
      ensures Enumerates(order, ids)
      ensures World() == Clear(old(World()), order, fate)
    {
      order := Enumerate(ids);
      var removed := RemoveAll(order, fate);
      ghost var closed := World();
      for n := 0 to |removed|
        invariant World() == PushUiAll(closed, removed[..n])
      {
        assert removed[..n + 1][..n] == removed[..n];
        EnqueueUiEvent(InvalidatedEvent(removed[n]));
      }
      assert removed[..|removed|] == removed;
    }

    method RemoveAll(order: seq<u32>, ghost fate: Fate) returns (removed: seq<RjAction>)
      requires Distinct(order) && forall i | 0 <= i < |order| :: order[i] in pending
      modifies this`pending, this`journal
      ensures World() == CloseAll(old(World()), order, fate)
      ensures removed == ActionsOf(old(pending), order)
    {
      removed := [];
      ghost var start := World();
      for n := 0 to |order|
        invariant World() == CloseAll(start, order[..n], fate)
        invariant removed == ActionsOf(start.b.pending, order[..n])
      {
        var id := order[n];
        StillPending(start, order, n, fate);
        assert order[..n + 1] == order[..n] + [id];
        AppendOne(start, order[..n], id, fate);
        removed := removed + [pending[id].action];
        journal := Close(World(), id, fate).j;
        pending := pending - {id};
      }
      assert order[..|order|] == order;
    }

    method SweepExpiredPending(now: Instant) returns (order: seq<u32>)
      modifies this`pending, this`uiQueue, this`droppedUi, this`journal
      ensures ValidEvent(old(World()), Sweeping(now, order))
      ensures World() == Step(old(World()), Sweeping(now, order))
      ensures forall id :: id in order <==> id in old(pending) && now - old(pending)[id].created >= 30_000_000_000
    {
      order := Invalidate(ExpiredIds(pending, now), Expired);
    }

    method SetHealingMode(newMode: u32) returns (ok: bool, order: seq<u32>)
      modifies this
      ensures ok <==> newMode <= 3
      ensures ok && newMode != old(mode) ==>
                Enumerates(order, old(pending).Keys) && World() == SetMode(old(World()), newMode, order)
      ensures !ok || newMode == old(mode) ==> World() == old(World())
    {
      order := [];
      if newMode > 3 {
        return false, [];
      }
      var previous := mode;
      mode := newMode;
      if previous != newMode {
        order := Invalidate(pending.Keys, ModeCleared);
      }
      ok := true;
    }

    method SetActionAutoApprove(category: Category, enabled: bool)
      modifies this`autoApprove
      ensures World() == Step(old(World()), SettingAutoApprove(category, enabled))
    {
      autoApprove := if enabled then autoApprove + {category} else autoApprove - {category};
    }

    method ActionDequeue() returns (a: Option<RjAction>)
      modifies this`actionQueue, this`journal
      ensures World() == Dequeue(old(World()))
      ensures a == if old(actionQueue) == [] then None else Some(old(actionQueue)[0])
    {
      if actionQueue == [] {
        return None;
      }
      a := Some(actionQueue[0]);
      journal := journal.(dequeued := journal.dequeued + [actionQueue[0]]);
      actionQueue := actionQueue[1..];
    }

    method ActionEventDequeue() returns (ev: Option<UiEvent>)
      modifies this`uiQueue, this`journal
      ensures World() == UiDequeue(old(World()))
      ensures ev == if old(uiQueue) == [] then None else Some(old(uiQueue)[0])
    {
      if uiQueue == [] {
        return None;
      }
      ev := Some(uiQueue[0]);
      journal := journal.(uiPopped := journal.uiPopped + [uiQueue[0]]);
      uiQueue := uiQueue[1..];
    }
  }
}
