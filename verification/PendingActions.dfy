/** The hand-over of rule actions to the actuator: routed straight to a bounded queue, or held
    for the user's approval until it is approved, rejected, too old or the mode changes.
    Each exported call is one atomic step. A journal records what happened; no step reads it. */
module PendingActions {
  import opened Basics
  import opened RuleConflicts
  import opened ActionIds
  import RuleCondition

  const QUEUE_CAPACITY: nat := 64
  const PENDING_TTL: nat := 30_000_000_000

  type Instant = nat

  datatype HealingMode = AutoPilot | CoPilot | Assist | Manual

  function ModeFromRaw(raw: u32): HealingMode {
    match raw
    case 0 => AutoPilot
    case 1 => CoPilot
    case 2 => Assist
    case 3 => Manual
    case _ => CoPilot
  }

  datatype Category = Bitrate | Resolution | Fps

  function CategoryOf(t: ActionType): Option<Category> {
    match t
    case BitrateReduce | BitrateRecover => Some(Bitrate)
    case ScaleResolution | RestoreResolution => Some(Resolution)
    case CapFps | RestoreFps => Some(Fps)
    case LogOnly => None
  }

  predicate AutoApproved(t: ActionType, auto: set<Category>) {
    CategoryOf(t).None? || CategoryOf(t).value in auto
  }

  predicate RequiresApproval(mode: HealingMode, autoApproved: bool) {
    mode.CoPilot? && !autoApproved
  }

  /** There is a reduced bitrate to recover from. */
  predicate RecoveryHasDeficit(currentKbps: nat, originalKbps: nat) {
    currentKbps > 0 && originalKbps > 0 && currentKbps < originalKbps
  }

  datatype RjAction = RjAction(id: u32, actionType: ActionType, param1: int, param2: int)

  datatype PendingEntry = PendingEntry(action: RjAction, ruleId: string, created: Instant)

  datatype EventKind = New | Invalidated

  datatype UiEvent = UiEvent(
    action: RjAction, requireApproval: bool, kind: EventKind, explanation: RuleCondition.Explanation)

  function InvalidatedEvent(a: RjAction): UiEvent {
    UiEvent(a, false, Invalidated, RuleCondition.NO_EXPLANATION)
  }

  /** An action made by a rule, as the periodic tick that made it saw the mode and the bitrates. */
  datatype Request = Request(mode: HealingMode, action: Action, currentKbps: nat, originalKbps: nat)

  predicate Withheld(r: Request) {
    || r.mode.Manual?
    || (r.action.actionType.BitrateRecover? && !RecoveryHasDeficit(r.currentKbps, r.originalKbps))
    || (r.mode.Assist? && !r.action.isCritical)
  }

  /** An action with its identifier, on its way from the rules to the actuator or the user. */
  datatype Collected = Collected(id: u32, request: Request)
  {
    function Action(): RjAction {
      RjAction(id, request.action.actionType, request.action.param1, request.action.param2)
    }
  }

  const NO_REQUEST := Request(AutoPilot, RuleConflicts.Action("", LogOnly, 0, 0, 0, false, true, false, RuleCondition.NO_EXPLANATION), 0, 0)

  type RoutedAction = c: Collected | !Withheld(c.request) witness Collected(0, NO_REQUEST)

  datatype Bridge = Bridge(
    nextId: u32,
    collected: seq<RoutedAction>,
    actionQueue: seq<RjAction>,
    uiQueue: seq<UiEvent>,
    pending: map<u32, PendingEntry>,
    mode: u32,
    autoApprove: set<Category>,
    droppedActions: nat,
    droppedUi: nat)

  /** How a held action left the pending store. `Overwritten` is a later action with its identifier. */
  datatype Fate = Approved | Rejected | Expired | ModeCleared | Overwritten

  /** A ticket is the position of a held action among all actions ever held. */
  datatype Outcome = Outcome(ticket: nat, fate: Fate)

  datatype Origin = Direct(mode: HealingMode, critical: bool, auto: set<Category>) | Gated(ticket: nat)

  datatype Push = Push(action: RjAction, origin: Origin)

  /** An action sent to the actuator without approval; a full queue does not take it. */
  datatype Offer = Offer(action: RjAction, taken: bool)

  datatype Journal = Journal(
    allocations: nat,
    collectedAlloc: seq<nat>,
    held: seq<RjAction>,
    heldAlloc: seq<nat>,
    tickets: map<u32, nat>,
    outcomes: seq<Outcome>,
    pushed: seq<Push>,
    dequeued: seq<RjAction>,
    offers: seq<Offer>,
    uiPushed: seq<UiEvent>,
    uiPopped: seq<UiEvent>)

  datatype World = World(b: Bridge, j: Journal)

  function NewWorld(firstId: u32): World {
    World(Bridge(firstId, [], [], [], map[], 0, {}, 0, 0),
          Journal(0, [], [], [], map[], [], [], [], [], [], []))
  }

  // ---------------------------------------------------------------- the steps

  /** The notification ring: a full ring gives up its oldest event. */
  function PushUi(w: World, ev: UiEvent): World {
    var q, full := w.b.uiQueue, |w.b.uiQueue| >= QUEUE_CAPACITY;
    World(w.b.(uiQueue := (if full then q[1..] else q) + [ev],
               droppedUi := if full then w.b.droppedUi + 1 else w.b.droppedUi),
          w.j.(uiPushed := w.j.uiPushed + [ev]))
  }

  function PushUiAll(w: World, actions: seq<RjAction>): World {
    if actions == [] then w
    else PushUi(PushUiAll(w, actions[..|actions| - 1]), InvalidatedEvent(actions[|actions| - 1]))
  }

  /** The actuator queue: a full queue refuses the newest action. */
  function PushAction(w: World, a: RjAction, origin: Origin): World {
    if |w.b.actionQueue| < QUEUE_CAPACITY then
      World(w.b.(actionQueue := w.b.actionQueue + [a]), w.j.(pushed := w.j.pushed + [Push(a, origin)]))
    else w.(b := w.b.(droppedActions := w.b.droppedActions + 1))
  }

  function PushDirect(w: World, a: RjAction, origin: Origin): World {
    PushAction(w.(j := w.j.(offers := w.j.offers + [Offer(a, |w.b.actionQueue| < QUEUE_CAPACITY)])), a, origin)
  }

  function TicketOf(j: Journal, id: u32): nat {
    if id in j.tickets then j.tickets[id] else 0
  }

  /** Take `id` out of the pending store for good. */
  function Close(w: World, id: u32, fate: Fate): World {
    World(w.b.(pending := w.b.pending - {id}),
          w.j.(tickets := w.j.tickets - {id}, outcomes := w.j.outcomes + [Outcome(TicketOf(w.j, id), fate)]))
  }

  function CloseAll(w: World, ids: seq<u32>, fate: Fate): World {
    if ids == [] then w else Close(CloseAll(w, ids[..|ids| - 1], fate), ids[|ids| - 1], fate)
  }

  function ActionsOf(pending: map<u32, PendingEntry>, ids: seq<u32>): (r: seq<RjAction>)
    requires forall i | 0 <= i < |ids| :: ids[i] in pending
    ensures |r| == |ids|
  {
    if ids == [] then []
    else ActionsOf(pending, ids[..|ids| - 1]) + [pending[ids[|ids| - 1]].action]
  }

  function Hold(w: World, a: RjAction, allocation: nat, ruleId: string, now: Instant): World {
    World(w.b.(pending := w.b.pending[a.id := PendingEntry(a, ruleId, now)]),
          w.j.(held := w.j.held + [a], heldAlloc := w.j.heldAlloc + [allocation],
               tickets := w.j.tickets[a.id := |w.j.held|]))
  }

  function Free(w: World, id: u32): World {
    if id in w.b.pending then Close(w, id, Overwritten) else w
  }

  function EnqueuePending(w: World, a: RjAction, allocation: nat, ruleId: string, e: RuleCondition.Explanation, now: Instant): World {
    PushUi(Hold(Free(w, a.id), a, allocation, ruleId, now), UiEvent(a, true, New, e))
  }

  function Allocate(w: World): (u32, World) {
    var (id, next) := NextId(w.b.nextId);
    (id, World(w.b.(nextId := next), w.j.(allocations := w.j.allocations + 1)))
  }

  /** A tick first gives an identifier to every action that is not withheld, ... */
  function Collect(w: World, r: Request): World {
    if Withheld(r) then w
    else
      var (id, v) := Allocate(w);
      World(v.b.(collected := v.b.collected + [Collected(id, r)]),
            v.j.(collectedAlloc := v.j.collectedAlloc + [w.j.allocations]))
  }

  function FirstAllocation(j: Journal): nat {
    if j.collectedAlloc == [] then 0 else j.collectedAlloc[0]
  }

  function DropCollected(w: World): World
    requires w.b.collected != []
  {
    World(w.b.(collected := w.b.collected[1..]),
          w.j.(collectedAlloc := if w.j.collectedAlloc == [] then [] else w.j.collectedAlloc[1..]))
  }

  /** ... then sends them on one by one; other calls may come between any two of these steps. */
  function Route(w: World, now: Instant): World {
    if w.b.collected == [] then w
    else
      var c := w.b.collected[0];
      var v := DropCollected(w);
      if RequiresApproval(c.request.mode, AutoApproved(c.Action().actionType, w.b.autoApprove)) then
        EnqueuePending(v, c.Action(), FirstAllocation(w.j), c.request.action.ruleId, c.request.action.explanation, now)
      else
        PushDirect(PushUi(v, UiEvent(c.Action(), false, New, c.request.action.explanation)), c.Action(),
                   Direct(c.request.mode, c.request.action.isCritical, w.b.autoApprove))
  }

  function Approve(w: World, id: u32, now: Instant): (World, int) {
    if id !in w.b.pending then (w, 0)
    else
      var entry := w.b.pending[id];
      if |w.b.actionQueue| < QUEUE_CAPACITY then
        (PushAction(Close(w, id, Approved), entry.action, Gated(TicketOf(w.j, id))), 1)
      else (w.(b := w.b.(pending := w.b.pending[id := entry.(created := now)])), 0)
  }

  function Reject(w: World, id: u32): (World, int) {
    if id !in w.b.pending then (w, 0) else (Close(w, id, Rejected), 1)
  }

  predicate TooOld(e: PendingEntry, now: Instant) {
    now >= e.created && now - e.created >= PENDING_TTL
  }

  function ExpiredIds(pending: map<u32, PendingEntry>, now: Instant): set<u32> {
    set id | id in pending && TooOld(pending[id], now)
  }

  /** `order` visits every element of `ids` once; the store's own order is arbitrary. */
  predicate Enumerates(order: seq<u32>, ids: set<u32>) {
    && (forall i | 0 <= i < |order| :: order[i] in ids)
    && (forall id | id in ids :: id in order)
    && (forall i, j | 0 <= i < j < |order| :: order[i] != order[j])
  }

  function Clear(w: World, order: seq<u32>, fate: Fate): World
    requires forall i | 0 <= i < |order| :: order[i] in w.b.pending
  {
    PushUiAll(CloseAll(w, order, fate), ActionsOf(w.b.pending, order))
  }

  datatype Event =
    | Collecting(request: Request)
    | Routing(now: Instant)
    | Approving(id: u32, now: Instant)
    | Rejecting(id: u32)
    | Sweeping(now: Instant, order: seq<u32>)
    | SettingMode(mode: u32, order: seq<u32>)
    | SettingAutoApprove(category: Category, enabled: bool)
    | Dequeuing
    | UiDequeuing

  predicate ValidEvent(w: World, ev: Event) {
    match ev
    case Sweeping(now, order) => Enumerates(order, ExpiredIds(w.b.pending, now))
    case SettingMode(_, order) => Enumerates(order, w.b.pending.Keys)
    case _ => true
  }

  function SetMode(w: World, mode: u32, order: seq<u32>): World
    requires Enumerates(order, w.b.pending.Keys)
  {
    if mode > 3 then w
    else if mode == w.b.mode then w
    else Clear(w.(b := w.b.(mode := mode)), order, ModeCleared)
  }

  function Dequeue(w: World): World {
    if w.b.actionQueue == [] then w
    else World(w.b.(actionQueue := w.b.actionQueue[1..]), w.j.(dequeued := w.j.dequeued + [w.b.actionQueue[0]]))
  }

  function UiDequeue(w: World): World {
    if w.b.uiQueue == [] then w
    else World(w.b.(uiQueue := w.b.uiQueue[1..]), w.j.(uiPopped := w.j.uiPopped + [w.b.uiQueue[0]]))
  }

  function Step(w: World, ev: Event): World
    requires ValidEvent(w, ev)
  {
    match ev
    case Collecting(r) => Collect(w, r)
    case Routing(now) => Route(w, now)
    case Approving(id, now) => Approve(w, id, now).0
    case Rejecting(id) => Reject(w, id).0
    case Sweeping(now, order) => Clear(w, order, Expired)
    case SettingMode(mode, order) => SetMode(w, mode, order)
    case SettingAutoApprove(c, enabled) =>
      w.(b := w.b.(autoApprove := if enabled then w.b.autoApprove + {c} else w.b.autoApprove - {c}))
    case Dequeuing => Dequeue(w)
    case UiDequeuing => UiDequeue(w)
  }

  // ---------------------------------------------------------------- invariants

  /** The held action with this ticket is still waiting. */
  predicate Waiting(w: World, k: nat)
    requires k < |w.j.held|
  {
    w.j.held[k].id in w.j.tickets && w.j.tickets[w.j.held[k].id] == k
  }

  predicate HasOutcome(w: World, k: nat) {
    exists i | 0 <= i < |w.j.outcomes| :: w.j.outcomes[i].ticket == k
  }

  /** The pending store and the tickets describe the same actions. */
  predicate Ticketed(w: World) {
    && w.j.tickets.Keys == w.b.pending.Keys
    && forall id | id in w.b.pending ::
         && w.j.tickets[id] < |w.j.held|
         && w.j.held[w.j.tickets[id]] == w.b.pending[id].action
         && w.b.pending[id].action.id == id
  }

  /** Every action ever held is waiting or has an outcome, never both, and at most one outcome. */
  predicate Settled(w: World) {
    && (forall i | 0 <= i < |w.j.outcomes| :: w.j.outcomes[i].ticket < |w.j.held|)
    && (forall i, j | 0 <= i < j < |w.j.outcomes| :: w.j.outcomes[i].ticket != w.j.outcomes[j].ticket)
    && (forall k | 0 <= k < |w.j.held| :: Waiting(w, k) <==> !HasOutcome(w, k))
  }

  predicate Counted(w: World) {
    |w.j.held| == |w.b.pending| + |w.j.outcomes|
  }

  function GatedTickets(pushed: seq<Push>): seq<nat> {
    if pushed == [] then []
    else
      var p := pushed[|pushed| - 1];
      GatedTickets(pushed[..|pushed| - 1]) + if p.origin.Gated? then [p.origin.ticket] else []
  }

  function ApprovedTickets(outcomes: seq<Outcome>): seq<nat> {
    if outcomes == [] then []
    else
      var o := outcomes[|outcomes| - 1];
      ApprovedTickets(outcomes[..|outcomes| - 1]) + if o.fate.Approved? then [o.ticket] else []
  }

  /** A direct push was allowed by the mode and the categories at that moment. */
  predicate DirectAllowed(p: Push) {
    p.origin.Direct? ==>
      && !p.origin.mode.Manual?
      && (p.origin.mode.CoPilot? ==> AutoApproved(p.action.actionType, p.origin.auto))
      && (p.origin.mode.Assist? ==> p.origin.critical)
  }

  /** Held actions reach the actuator by approval only: the gated pushes are the approvals, in order. */
  predicate Gatekept(w: World) {
    && GatedTickets(w.j.pushed) == ApprovedTickets(w.j.outcomes)
    && forall i | 0 <= i < |w.j.pushed| :: Legitimate(w.j.pushed[i], w.j.held)
  }

  predicate Legitimate(p: Push, held: seq<RjAction>) {
    && DirectAllowed(p)
    && (p.origin.Gated? ==> p.origin.ticket < |held| && held[p.origin.ticket] == p.action)
  }

  function PushedActions(pushed: seq<Push>): (r: seq<RjAction>)
    ensures |r| == |pushed| && forall i | 0 <= i < |r| :: r[i] == pushed[i].action
  {
    seq(|pushed|, i requires 0 <= i < |pushed| => pushed[i].action)
  }

  function DirectCount(pushed: seq<Push>): nat {
    if pushed == [] then 0
    else DirectCount(pushed[..|pushed| - 1]) + if pushed[|pushed| - 1].origin.Direct? then 1 else 0
  }

  /** First in, first out; a direct action is in the queue's history or counted as dropped. */
  predicate Queued(w: World) {
    && |w.b.actionQueue| <= QUEUE_CAPACITY
    && PushedActions(w.j.pushed) == w.j.dequeued + w.b.actionQueue
    && |w.j.offers| == DirectCount(w.j.pushed) + w.b.droppedActions
  }

  /** The ring is the end of everything notified; the rest was popped or counted as dropped. */
  predicate Notified(w: World) {
    && |w.b.uiQueue| <= QUEUE_CAPACITY
    && |w.j.uiPushed| == |w.j.uiPopped| + w.b.droppedUi + |w.b.uiQueue|
    && w.b.uiQueue == w.j.uiPushed[|w.j.uiPushed| - |w.b.uiQueue|..]
  }

  predicate Ledger(w: World) {
    Ticketed(w) && Settled(w) && Counted(w)
  }

  predicate Inv(w: World) {
    Ledger(w) && Gatekept(w) && Queued(w) && Notified(w)
  }

  // ---------------------------------------------------------------- every step keeps them

  /** The ledger looks at the pending store, the tickets, the held actions and the outcomes. */
  lemma LedgerFrame(w: World, v: World)
    requires Ledger(w)
    requires v.b.pending == w.b.pending
    requires v.j.tickets == w.j.tickets && v.j.held == w.j.held && v.j.outcomes == w.j.outcomes
    ensures Ledger(v)
  {
    assert forall k | 0 <= k < |w.j.held| :: Waiting(v, k) == Waiting(w, k) && HasOutcome(v, k) == HasOutcome(w, k);
  }

  lemma GateFrame(w: World, v: World)
    requires Gatekept(w) && v.j.pushed == w.j.pushed && v.j.outcomes == w.j.outcomes && v.j.held == w.j.held
    ensures Gatekept(v)
  {}

  lemma QueueFrame(w: World, v: World)
    requires Queued(w) && v.j.pushed == w.j.pushed && v.j.dequeued == w.j.dequeued && v.j.offers == w.j.offers
    requires v.b.actionQueue == w.b.actionQueue && v.b.droppedActions == w.b.droppedActions
    ensures Queued(v)
  {}

  lemma NoticeFrame(w: World, v: World)
    requires Notified(w) && v.j.uiPushed == w.j.uiPushed && v.j.uiPopped == w.j.uiPopped
    requires v.b.uiQueue == w.b.uiQueue && v.b.droppedUi == w.b.droppedUi
    ensures Notified(v)
  {}

  lemma PushUiNotifies(w: World, ev: UiEvent)
    requires Notified(w)
    ensures Notified(PushUi(w, ev))
  {}

  lemma PushUiKeeps(w: World, ev: UiEvent)
    requires Inv(w)
    ensures Inv(PushUi(w, ev))
  {
    var v := PushUi(w, ev);
    LedgerFrame(w, v);
    GateFrame(w, v);
    QueueFrame(w, v);
    PushUiNotifies(w, ev);
  }

  lemma {:induction false} PushUiAllKeeps(w: World, actions: seq<RjAction>)
    requires Inv(w)
    ensures Inv(PushUiAll(w, actions))
    ensures PushUiAll(w, actions).b.pending == w.b.pending
    ensures PushUiAll(w, actions).j.outcomes == w.j.outcomes
  {
    if actions != [] {
      PushUiAllKeeps(w, actions[..|actions| - 1]);
      PushUiKeeps(PushUiAll(w, actions[..|actions| - 1]), InvalidatedEvent(actions[|actions| - 1]));
    }
  }

  lemma ApprovedAppend(outcomes: seq<Outcome>, o: Outcome)
    ensures ApprovedTickets(outcomes + [o]) == ApprovedTickets(outcomes) + if o.fate.Approved? then [o.ticket] else []
  {
    assert (outcomes + [o])[..|outcomes|] == outcomes;
  }

  lemma PushesAppend(pushed: seq<Push>, p: Push)
    ensures GatedTickets(pushed + [p]) == GatedTickets(pushed) + if p.origin.Gated? then [p.origin.ticket] else []
    ensures DirectCount(pushed + [p]) == DirectCount(pushed) + if p.origin.Direct? then 1 else 0
    ensures PushedActions(pushed + [p]) == PushedActions(pushed) + [p.action]
  {
    assert (pushed + [p])[..|pushed|] == pushed;
  }

  lemma CloseOutcomes(w: World, id: u32, fate: Fate, k: nat)
    requires Ticketed(w) && id in w.b.pending
    ensures HasOutcome(Close(w, id, fate), k) <==> HasOutcome(w, k) || k == w.j.tickets[id]
  {
    var v, t := Close(w, id, fate), w.j.tickets[id];
    assert v.j.outcomes[|w.j.outcomes|].ticket == t;
    if HasOutcome(w, k) {
      var i :| 0 <= i < |w.j.outcomes| && w.j.outcomes[i].ticket == k;
      assert v.j.outcomes[i].ticket == k;
    }
    if HasOutcome(v, k) && k != t {
      var i :| 0 <= i < |v.j.outcomes| && v.j.outcomes[i].ticket == k;
      assert w.j.outcomes[i].ticket == k;
    }
  }

  lemma CloseWaiting(w: World, id: u32, fate: Fate, k: nat)
    requires Ticketed(w) && id in w.b.pending && k < |w.j.held|
    ensures Waiting(Close(w, id, fate), k) <==> Waiting(w, k) && k != w.j.tickets[id]
  {}

  lemma CloseCounts(w: World, id: u32)
    requires id in w.b.pending
    ensures |w.b.pending - {id}| == |w.b.pending| - 1
  {
    assert (w.b.pending - {id}).Keys == w.b.pending.Keys - {id};
    assert |w.b.pending.Keys - {id}| == |w.b.pending.Keys| - 1;
  }

  lemma CloseOpenOrShut(w: World, id: u32, fate: Fate, k: nat)
    requires Ticketed(w) && Settled(w) && id in w.b.pending && k < |w.j.held|
    ensures Waiting(Close(w, id, fate), k) <==> !HasOutcome(Close(w, id, fate), k)
  {
    CloseOutcomes(w, id, fate, k);
    CloseWaiting(w, id, fate, k);
  }

  lemma CloseOnce(w: World, id: u32, fate: Fate)
    requires Ticketed(w) && Settled(w) && id in w.b.pending
    ensures forall i | 0 <= i < |w.j.outcomes| :: w.j.outcomes[i].ticket != w.j.tickets[id]
  {
    assert Waiting(w, w.j.tickets[id]) && !HasOutcome(w, w.j.tickets[id]);
  }

  lemma CloseSettled(w: World, id: u32, fate: Fate)
    requires Ticketed(w) && Settled(w) && id in w.b.pending
    ensures Settled(Close(w, id, fate))
  {
    var v := Close(w, id, fate);
    forall k | 0 <= k < |v.j.held|
      ensures Waiting(v, k) <==> !HasOutcome(v, k)
    {
      CloseOpenOrShut(w, id, fate, k);
    }
    CloseOnce(w, id, fate);
  }

  /** Closing settles exactly one waiting action. */
  lemma CloseSettles(w: World, id: u32, fate: Fate)
    requires Ledger(w) && id in w.b.pending
    ensures Ledger(Close(w, id, fate))
  {
    CloseSettled(w, id, fate);
    CloseTickets(w, id, fate);
    CloseCounts(w, id);
  }

  lemma CloseTickets(w: World, id: u32, fate: Fate)
    requires Ticketed(w) && id in w.b.pending
    ensures Ticketed(Close(w, id, fate))
  {}

  lemma CloseKeeps(w: World, id: u32, fate: Fate)
    requires Inv(w) && id in w.b.pending && !fate.Approved?
    ensures Inv(Close(w, id, fate))
  {
    var v := Close(w, id, fate);
    CloseSettles(w, id, fate);
    ApprovedAppend(w.j.outcomes, Outcome(w.j.tickets[id], fate));
    QueueFrame(w, v);
    NoticeFrame(w, v);
  }

  function IdSet(ids: seq<u32>): (r: set<u32>)
    ensures forall id :: id in r <==> id in ids
  {
    if ids == [] then {} else IdSet(ids[..|ids| - 1]) + {ids[|ids| - 1]}
  }

  predicate Distinct(ids: seq<u32>) {
    forall i, j | 0 <= i < j < |ids| :: ids[i] != ids[j]
  }

  lemma {:induction false} CloseAllPending(w: World, ids: seq<u32>, fate: Fate)
    ensures CloseAll(w, ids, fate).b.pending == w.b.pending - IdSet(ids)
  {
    if ids != [] {
      CloseAllPending(w, ids[..|ids| - 1], fate);
    }
  }

  lemma {:induction false} CloseAllKeeps(w: World, ids: seq<u32>, fate: Fate)
    requires Inv(w) && !fate.Approved? && Distinct(ids) && IdSet(ids) <= w.b.pending.Keys
    ensures Inv(CloseAll(w, ids, fate))
  {
    if ids != [] {
      var front, id := ids[..|ids| - 1], ids[|ids| - 1];
      assert IdSet(front) <= IdSet(ids) && id in IdSet(ids);
      CloseAllKeeps(w, front, fate);
      CloseAllPending(w, front, fate);
      assert id !in front;
      CloseKeeps(CloseAll(w, front, fate), id, fate);
    }
  }

  lemma ClearKeeps(w: World, order: seq<u32>, ids: set<u32>, fate: Fate)
    requires Inv(w) && !fate.Approved? && ids <= w.b.pending.Keys && Enumerates(order, ids)
    ensures Inv(Clear(w, order, fate))
    ensures Clear(w, order, fate).b.pending == w.b.pending - ids
  {
    assert IdSet(order) == ids;
    CloseAllKeeps(w, order, fate);
    CloseAllPending(w, order, fate);
    PushUiAllKeeps(CloseAll(w, order, fate), ActionsOf(w.b.pending, order));
  }

  lemma HoldKeeps(w: World, a: RjAction, allocation: nat, ruleId: string, now: Instant)
    requires Inv(w) && a.id !in w.b.pending
    ensures Inv(Hold(w, a, allocation, ruleId, now))
  {
    HoldSettles(w, a, allocation, ruleId, now);
    HoldGate(w, a, allocation, ruleId, now);
    QueueFrame(w, Hold(w, a, allocation, ruleId, now));
    NoticeFrame(w, Hold(w, a, allocation, ruleId, now));
  }

  lemma HoldGate(w: World, a: RjAction, allocation: nat, ruleId: string, now: Instant)
    requires Gatekept(w)
    ensures Gatekept(Hold(w, a, allocation, ruleId, now))
  {}

  lemma HoldSettles(w: World, a: RjAction, allocation: nat, ruleId: string, now: Instant)
    requires Ledger(w) && a.id !in w.b.pending
    ensures Ledger(Hold(w, a, allocation, ruleId, now))
  {
    var v, n := Hold(w, a, allocation, ruleId, now), |w.j.held|;
    forall k | 0 <= k < |v.j.held|
      ensures Waiting(v, k) <==> !HasOutcome(v, k)
    {
      assert HasOutcome(v, k) == HasOutcome(w, k);
      if k < n {
        assert v.j.held[k] == w.j.held[k];
        assert Waiting(v, k) == Waiting(w, k);
      }
    }
    assert |v.b.pending| == |w.b.pending| + 1;
  }

  lemma PushQueues(w: World, a: RjAction, origin: Origin)
    requires |w.b.actionQueue| <= QUEUE_CAPACITY
    requires PushedActions(w.j.pushed) == w.j.dequeued + w.b.actionQueue
    requires origin.Gated? ==> |w.b.actionQueue| < QUEUE_CAPACITY
    requires |w.j.offers| == DirectCount(w.j.pushed) + w.b.droppedActions + if origin.Direct? then 1 else 0
    ensures Queued(PushAction(w, a, origin))
  {
    PushesAppend(w.j.pushed, Push(a, origin));
    assert w.j.dequeued + (w.b.actionQueue + [a]) == (w.j.dequeued + w.b.actionQueue) + [a];
  }

  lemma DirectGate(w: World, a: RjAction, origin: Origin)
    requires Gatekept(w) && origin.Direct? && DirectAllowed(Push(a, origin))
    ensures Gatekept(PushDirect(w, a, origin))
  {
    PushesAppend(w.j.pushed, Push(a, origin));
  }

  lemma PushDirectKeeps(w: World, a: RjAction, origin: Origin)
    requires Inv(w) && origin.Direct? && DirectAllowed(Push(a, origin))
    ensures Inv(PushDirect(w, a, origin))
  {
    LedgerFrame(w, PushDirect(w, a, origin));
    NoticeFrame(w, PushDirect(w, a, origin));
    PushQueues(w.(j := w.j.(offers := w.j.offers + [Offer(a, |w.b.actionQueue| < QUEUE_CAPACITY)])), a, origin);
    DirectGate(w, a, origin);
  }

  lemma EnqueuePendingKeeps(w: World, a: RjAction, allocation: nat, ruleId: string, e: RuleCondition.Explanation, now: Instant)
    requires Inv(w)
    ensures Inv(EnqueuePending(w, a, allocation, ruleId, e, now))
  {
    if a.id in w.b.pending {
      CloseKeeps(w, a.id, Overwritten);
    }
    HoldKeeps(Free(w, a.id), a, allocation, ruleId, now);
    PushUiKeeps(Hold(Free(w, a.id), a, allocation, ruleId, now), UiEvent(a, true, New, e));
  }

  /** Neither identifiers nor collected actions have a part in it. */
  lemma CollectionKeeps(w: World, v: World)
    requires Inv(w)
    requires v.b == w.b.(nextId := v.b.nextId, collected := v.b.collected)
    requires v.j == w.j.(allocations := v.j.allocations, collectedAlloc := v.j.collectedAlloc)
    ensures Inv(v)
  {
    LedgerFrame(w, v);
    GateFrame(w, v);
    QueueFrame(w, v);
    NoticeFrame(w, v);
  }

  lemma RouteKeeps(w: World, now: Instant)
    requires Inv(w)
    ensures Inv(Route(w, now))
  {
    if w.b.collected != [] {
      var c, v := w.b.collected[0], DropCollected(w);
      CollectionKeeps(w, v);
      if RequiresApproval(c.request.mode, AutoApproved(c.Action().actionType, w.b.autoApprove)) {
        EnqueuePendingKeeps(v, c.Action(), FirstAllocation(w.j), c.request.action.ruleId, c.request.action.explanation, now);
      } else {
        var note := UiEvent(c.Action(), false, New, c.request.action.explanation);
        PushUiKeeps(v, note);
        PushDirectKeeps(PushUi(v, note), c.Action(), Direct(c.request.mode, c.request.action.isCritical, w.b.autoApprove));
      }
    }
  }

  lemma ApproveGate(w: World, id: u32)
    requires Ledger(w) && Gatekept(w) && id in w.b.pending && |w.b.actionQueue| < QUEUE_CAPACITY
    ensures Gatekept(PushAction(Close(w, id, Approved), w.b.pending[id].action, Gated(TicketOf(w.j, id))))
  {
    var a, t := w.b.pending[id].action, w.j.tickets[id];
    ApprovedAppend(w.j.outcomes, Outcome(t, Approved));
    GateGrows(w, Close(w, id, Approved), Push(a, Gated(t)));
  }

  /** A push and an approval of the same ticket together. */
  lemma GateGrows(w: World, c: World, p: Push)
    requires Gatekept(w) && c.j.held == w.j.held && c.j.pushed == w.j.pushed && Legitimate(p, w.j.held)
    requires p.origin.Gated? && ApprovedTickets(c.j.outcomes) == ApprovedTickets(w.j.outcomes) + [p.origin.ticket]
    requires |c.b.actionQueue| < QUEUE_CAPACITY
    ensures Gatekept(PushAction(c, p.action, p.origin))
  {
    PushesAppend(w.j.pushed, p);
  }

  lemma ApprovePushes(w: World, id: u32)
    requires Inv(w) && id in w.b.pending && |w.b.actionQueue| < QUEUE_CAPACITY
    ensures Inv(PushAction(Close(w, id, Approved), w.b.pending[id].action, Gated(TicketOf(w.j, id))))
  {
    var a, c, origin := w.b.pending[id].action, Close(w, id, Approved), Gated(TicketOf(w.j, id));
    CloseSettles(w, id, Approved);
    LedgerFrame(c, PushAction(c, a, origin));
    ApproveGate(w, id);
    PushQueues(c, a, origin);
    NoticeFrame(w, PushAction(c, a, origin));
  }

  lemma SameKeysSameSize(m: map<u32, PendingEntry>, id: u32, entry: PendingEntry)
    requires id in m
    ensures m[id := entry].Keys == m.Keys && |m[id := entry]| == |m|
  {
    assert m[id := entry].Keys == m.Keys;
    assert |m[id := entry].Keys| == |m[id := entry]| && |m.Keys| == |m|;
  }

  lemma RefreshKeeps(w: World, id: u32, entry: PendingEntry)
    requires Inv(w) && id in w.b.pending && entry.action == w.b.pending[id].action
    ensures Inv(w.(b := w.b.(pending := w.b.pending[id := entry])))
  {
    var v := w.(b := w.b.(pending := w.b.pending[id := entry]));
    RefreshLedger(w, id, entry);
    GateFrame(w, v);
    QueueFrame(w, v);
    NoticeFrame(w, v);
  }

  lemma RefreshLedger(w: World, id: u32, entry: PendingEntry)
    requires Ledger(w) && id in w.b.pending && entry.action == w.b.pending[id].action
    ensures Ledger(w.(b := w.b.(pending := w.b.pending[id := entry])))
  {
    var v := w.(b := w.b.(pending := w.b.pending[id := entry]));
    SameKeysSameSize(w.b.pending, id, entry);
    assert forall k | 0 <= k < |w.j.held| :: Waiting(v, k) == Waiting(w, k) && HasOutcome(v, k) == HasOutcome(w, k);
  }

  lemma ApproveKeeps(w: World, id: u32, now: Instant)
    requires Inv(w)
    ensures Inv(Approve(w, id, now).0)
  {
    if id in w.b.pending {
      if |w.b.actionQueue| < QUEUE_CAPACITY {
        ApprovePushes(w, id);
      } else {
        RefreshKeeps(w, id, w.b.pending[id].(created := now));
      }
    }
  }

  lemma HeadMoves(done: seq<RjAction>, queue: seq<RjAction>)
    requires queue != []
    ensures (done + [queue[0]]) + queue[1..] == done + queue
  {}

  lemma DequeueKeeps(w: World)
    requires Inv(w)
    ensures Inv(Dequeue(w))
  {
    LedgerFrame(w, Dequeue(w));
    GateFrame(w, Dequeue(w));
    NoticeFrame(w, Dequeue(w));
    if w.b.actionQueue != [] {
      HeadMoves(w.j.dequeued, w.b.actionQueue);
    }
  }

  lemma UiDequeueKeeps(w: World)
    requires Inv(w)
    ensures Inv(UiDequeue(w))
  {
    LedgerFrame(w, UiDequeue(w));
    GateFrame(w, UiDequeue(w));
    QueueFrame(w, UiDequeue(w));
    if w.b.uiQueue != [] {
      var n := |w.j.uiPushed| - |w.b.uiQueue|;
      assert w.j.uiPushed[n..][1..] == w.j.uiPushed[n + 1..];
    }
  }

  lemma ConfigKeeps(w: World, v: World)
    requires Inv(w) && v.j == w.j && v.b == w.b.(mode := v.b.mode, autoApprove := v.b.autoApprove)
    ensures Inv(v)
  {
    LedgerFrame(w, v);
    GateFrame(w, v);
    QueueFrame(w, v);
    NoticeFrame(w, v);
  }

  lemma StepKeeps(w: World, ev: Event)
    requires Inv(w) && ValidEvent(w, ev)
    ensures Inv(Step(w, ev))
  {
    match ev
    case Collecting(r) => CollectionKeeps(w, Collect(w, r));
    case Routing(now) => RouteKeeps(w, now);
    case Approving(id, now) => ApproveKeeps(w, id, now);
    case Rejecting(id) =>
      if id in w.b.pending {
        CloseKeeps(w, id, Rejected);
      }
    case Sweeping(now, order) => ClearKeeps(w, order, ExpiredIds(w.b.pending, now), Expired);
    case SettingMode(mode, order) =>
      if mode <= 3 && mode != w.b.mode {
        var v := w.(b := w.b.(mode := mode));
        ConfigKeeps(w, v);
        ClearKeeps(v, order, v.b.pending.Keys, ModeCleared);
      }
    case SettingAutoApprove(_, _) => ConfigKeeps(w, Step(w, ev));
    case Dequeuing => DequeueKeeps(w);
    case UiDequeuing => UiDequeueKeeps(w);
  }

  // ---------------------------------------------------------------- whole runs

  predicate ValidRun(w: World, events: seq<Event>)
    decreases |events|
  {
    events == [] || (ValidEvent(w, events[0]) && ValidRun(Step(w, events[0]), events[1..]))
  }

  function Run(w: World, events: seq<Event>): World
    requires ValidRun(w, events)
    decreases |events|
  {
    if events == [] then w else Run(Step(w, events[0]), events[1..])
  }

  lemma {:induction false} RunKeeps(w: World, events: seq<Event>)
    requires Inv(w) && ValidRun(w, events)
    ensures Inv(Run(w, events))
    decreases |events|
  {
    if events != [] {
      StepKeeps(w, events[0]);
      RunKeeps(Step(w, events[0]), events[1..]);
    }
  }

  predicate NoneOverwritten(outcomes: seq<Outcome>) {
    forall i | 0 <= i < |outcomes| :: !outcomes[i].fate.Overwritten?
  }

  /** Identifiers come from the counter, in order; while the counter has not gone round, no
      held action has lost its place to a later one. */
  predicate Numbered(w: World, firstId: u32) {
    && w.b.nextId == CounterAfter(firstId, w.j.allocations)
    && |w.j.heldAlloc| == |w.j.held|
    && (forall k | 0 <= k < |w.j.held| ::
          w.j.heldAlloc[k] < w.j.allocations && w.j.held[k].id == NthId(firstId, w.j.heldAlloc[k]))
    && (forall k, l | 0 <= k < l < |w.j.held| :: w.j.heldAlloc[k] < w.j.heldAlloc[l])
    && CollectedInOrder(w, firstId)
    && (w.j.allocations <= ID_COUNT ==> NoneOverwritten(w.j.outcomes))
  }

  /** Collected actions were given their identifiers in order and after those of all held ones. */
  predicate CollectedInOrder(w: World, firstId: u32) {
    && |w.j.collectedAlloc| == |w.b.collected|
    && (forall i | 0 <= i < |w.b.collected| ::
          w.j.collectedAlloc[i] < w.j.allocations && w.b.collected[i].id == NthId(firstId, w.j.collectedAlloc[i]))
    && (forall i, j | 0 <= i < j < |w.j.collectedAlloc| :: w.j.collectedAlloc[i] < w.j.collectedAlloc[j])
    && (forall k, i | 0 <= k < |w.j.heldAlloc| && 0 <= i < |w.j.collectedAlloc| :: w.j.heldAlloc[k] < w.j.collectedAlloc[i])
  }

  lemma NumberedFrame(w: World, v: World, firstId: u32)
    requires Numbered(w, firstId)
    requires v.b.nextId == w.b.nextId && v.j.allocations == w.j.allocations
    requires v.j.held == w.j.held && v.j.heldAlloc == w.j.heldAlloc
    requires v.b.collected == w.b.collected && v.j.collectedAlloc == w.j.collectedAlloc
    requires NoneOverwritten(w.j.outcomes) ==> NoneOverwritten(v.j.outcomes)
    ensures Numbered(v, firstId)
  {}

  lemma {:induction false} ClosingFrame(w: World, ids: seq<u32>, fate: Fate)
    requires !fate.Overwritten?
    ensures var v := CloseAll(w, ids, fate);
            && v.b.nextId == w.b.nextId && v.j.allocations == w.j.allocations
            && v.j.held == w.j.held && v.j.heldAlloc == w.j.heldAlloc
            && v.b.collected == w.b.collected && v.j.collectedAlloc == w.j.collectedAlloc
            && (NoneOverwritten(w.j.outcomes) ==> NoneOverwritten(v.j.outcomes))
  {
    if ids != [] {
      ClosingFrame(w, ids[..|ids| - 1], fate);
    }
  }

  lemma {:induction false} NotifyingFrame(w: World, actions: seq<RjAction>)
    ensures var v := PushUiAll(w, actions);
            && v.b.nextId == w.b.nextId && v.j.allocations == w.j.allocations
            && v.j.held == w.j.held && v.j.heldAlloc == w.j.heldAlloc && v.j.outcomes == w.j.outcomes
            && v.b.collected == w.b.collected && v.j.collectedAlloc == w.j.collectedAlloc
  {
    if actions != [] {
      NotifyingFrame(w, actions[..|actions| - 1]);
    }
  }

  lemma ClearFrame(w: World, order: seq<u32>, fate: Fate, firstId: u32)
    requires Numbered(w, firstId) && !fate.Overwritten?
    requires forall i | 0 <= i < |order| :: order[i] in w.b.pending
    ensures Numbered(Clear(w, order, fate), firstId)
  {
    ClosingFrame(w, order, fate);
    NotifyingFrame(CloseAll(w, order, fate), ActionsOf(w.b.pending, order));
    NumberedFrame(w, Clear(w, order, fate), firstId);
  }

  /** Within one round of the counter the identifier of an action newly held is not in the store. */
  lemma NewIdIsFree(w: World, firstId: u32, allocation: nat)
    requires Ticketed(w) && Numbered(w, firstId) && allocation < w.j.allocations <= ID_COUNT
    requires forall k | 0 <= k < |w.j.heldAlloc| :: w.j.heldAlloc[k] < allocation
    ensures NthId(firstId, allocation) !in w.b.pending
  {
    var id := NthId(firstId, allocation);
    if id in w.b.pending {
      var k := w.j.tickets[id];
      IdsDistinct(firstId, w.j.heldAlloc[k], allocation);
    }
  }

  lemma CollectNumbers(w: World, r: Request, firstId: u32)
    requires Numbered(w, firstId)
    ensures Numbered(Collect(w, r), firstId)
  {}

  lemma DropNumbers(w: World, firstId: u32)
    requires Numbered(w, firstId) && w.b.collected != []
    ensures var v, allocation := DropCollected(w), FirstAllocation(w.j);
            && Numbered(v, firstId)
            && allocation < v.j.allocations && w.b.collected[0].id == NthId(firstId, allocation)
            && Between(v.j, allocation)
  {}

  /** `allocation` lies after those of the held actions and before those of the collected ones. */
  predicate Between(j: Journal, allocation: nat) {
    && (forall k | 0 <= k < |j.heldAlloc| :: j.heldAlloc[k] < allocation)
    && (forall i | 0 <= i < |j.collectedAlloc| :: allocation < j.collectedAlloc[i])
  }

  lemma HoldNumbers(w: World, a: RjAction, allocation: nat, ruleId: string, now: Instant, firstId: u32)
    requires Numbered(w, firstId) && allocation < w.j.allocations && a.id == NthId(firstId, allocation)
    requires Between(w.j, allocation)
    ensures Numbered(Hold(w, a, allocation, ruleId, now), firstId)
  {}

  lemma FreeNumbers(w: World, id: u32, firstId: u32)
    requires Numbered(w, firstId) && (w.j.allocations <= ID_COUNT ==> id !in w.b.pending)
    ensures Numbered(Free(w, id), firstId)
  {}

  lemma EnqueuePendingNumbers(w: World, a: RjAction, allocation: nat, rule: string, e: RuleCondition.Explanation, now: Instant, firstId: u32)
    requires Numbered(w, firstId) && (w.j.allocations <= ID_COUNT ==> a.id !in w.b.pending)
    requires allocation < w.j.allocations && a.id == NthId(firstId, allocation) && Between(w.j, allocation)
    ensures Numbered(EnqueuePending(w, a, allocation, rule, e, now), firstId)
  {
    var free := Free(w, a.id);
    FreeNumbers(w, a.id, firstId);
    HoldNumbers(free, a, allocation, rule, now, firstId);
    NumberedFrame(Hold(free, a, allocation, rule, now), EnqueuePending(w, a, allocation, rule, e, now), firstId);
  }

  lemma RouteNumbers(w: World, now: Instant, firstId: u32)
    requires Ticketed(w) && Numbered(w, firstId)
    ensures Numbered(Route(w, now), firstId)
  {
    if w.b.collected != [] {
      var c, v, allocation := w.b.collected[0], DropCollected(w), FirstAllocation(w.j);
      DropNumbers(w, firstId);
      if RequiresApproval(c.request.mode, AutoApproved(c.Action().actionType, w.b.autoApprove)) {
        if w.j.allocations <= ID_COUNT {
          NewIdIsFree(v, firstId, allocation);
        }
        EnqueuePendingNumbers(v, c.Action(), allocation, c.request.action.ruleId, c.request.action.explanation, now, firstId);
      } else {
        NumberedFrame(v, Route(w, now), firstId);
      }
    }
  }

  lemma QuietStepNumbers(w: World, ev: Event, firstId: u32)
    requires Numbered(w, firstId) && ValidEvent(w, ev) && !ev.Collecting? && !ev.Routing? && !ev.Sweeping? && !ev.SettingMode?
    ensures Numbered(Step(w, ev), firstId)
  {
    NumberedFrame(w, Step(w, ev), firstId);
  }

  lemma StepNumbers(w: World, ev: Event, firstId: u32)
    requires Ticketed(w) && Numbered(w, firstId) && ValidEvent(w, ev)
    ensures Numbered(Step(w, ev), firstId)
  {
    match ev
    case Collecting(r) => CollectNumbers(w, r, firstId);
    case Routing(now) => RouteNumbers(w, now, firstId);
    case Sweeping(_, order) => ClearFrame(w, order, Expired, firstId);
    case SettingMode(mode, order) =>
      if mode <= 3 && mode != w.b.mode {
        var v := w.(b := w.b.(mode := mode));
        NumberedFrame(w, v, firstId);
        ClearFrame(v, order, ModeCleared, firstId);
      }
    case _ => QuietStepNumbers(w, ev, firstId);
  }

  lemma {:induction false} RunNumbers(w: World, events: seq<Event>, firstId: u32)
    requires Inv(w) && Numbered(w, firstId) && ValidRun(w, events)
    ensures Numbered(Run(w, events), firstId)
    decreases |events|
  {
    if events != [] {
      StepKeeps(w, events[0]);
      StepNumbers(w, events[0], firstId);
      RunNumbers(Step(w, events[0]), events[1..], firstId);
    }
  }

  /** Everything above holds after every run from a new bridge. */
  lemma ReachableWorlds(firstId: u32, events: seq<Event>)
    requires ValidRun(NewWorld(firstId), events)
    ensures Inv(Run(NewWorld(firstId), events)) && Numbered(Run(NewWorld(firstId), events), firstId)
  {
    var w := NewWorld(firstId);
    RunKeeps(w, events);
    RunNumbers(w, events, firstId);
  }

  /** The routing of one action, case by case. It is held exactly when the tick saw co-pilot mode
      and its category is not automatic; otherwise it goes to the actuator, and is lost, counted,
      only if 64 actions wait there. */
  lemma RouteDecides(w: World, now: Instant)
    requires w.b.collected != []
    ensures var c, v := w.b.collected[0], Step(w, Routing(now));
            var r := c.request.action;
            var a := RjAction(c.id, r.actionType, r.param1, r.param2);
            && v.b.collected == w.b.collected[1..]
            && (c.request.mode.CoPilot? && !SwitchedToAutomatic(r.actionType, w.b.autoApprove) ==>
                  && v.b.pending == w.b.pending[c.id := PendingEntry(a, r.ruleId, now)]
                  && v.b.actionQueue == w.b.actionQueue && v.b.droppedActions == w.b.droppedActions
                  && v.j.uiPushed == w.j.uiPushed + [UiEvent(a, true, New, r.explanation)])
            && (!c.request.mode.CoPilot? || SwitchedToAutomatic(r.actionType, w.b.autoApprove) ==>
                  && v.b.pending == w.b.pending
                  && v.j.uiPushed == w.j.uiPushed + [UiEvent(a, false, New, r.explanation)]
                  && (|w.b.actionQueue| < 64 ==>
                        v.b.actionQueue == w.b.actionQueue + [a] && v.b.droppedActions == w.b.droppedActions)
                  && (|w.b.actionQueue| >= 64 ==>
                        v.b.actionQueue == w.b.actionQueue && v.b.droppedActions == w.b.droppedActions + 1))
  {
    var c := w.b.collected[0];
    FreeThenPut(w.b.pending, c.id, PendingEntry(c.Action(), c.request.action.ruleId, now));
  }

  lemma FreeThenPut(m: map<u32, PendingEntry>, id: u32, entry: PendingEntry)
    ensures (m - {id})[id := entry] == m[id := entry]
  {}

  /** A rule action is given an identifier unless the mode is manual, or it would recover a bitrate
      that is not reduced, or the mode is assist and it is not critical. */
  lemma CollectDecides(w: World, r: Request)
    ensures var v := Step(w, Collecting(r));
            if !r.mode.Manual?
               && (r.action.actionType.BitrateRecover? ==> 0 < r.currentKbps < r.originalKbps)
               && (r.mode.Assist? ==> r.action.isCritical)
            then
              && |v.b.collected| == |w.b.collected| + 1 && v.b.collected[..|w.b.collected|] == w.b.collected
              && v.b.collected[|w.b.collected|].request == r
              && v.j.allocations == w.j.allocations + 1
            else v == w
  {}

  function FateCount(outcomes: seq<Outcome>, fate: Fate): nat {
    if outcomes == [] then 0
    else FateCount(outcomes[..|outcomes| - 1], fate) + if outcomes[|outcomes| - 1].fate == fate then 1 else 0
  }

  lemma {:induction false} FatesPartition(outcomes: seq<Outcome>)
    ensures |outcomes| == FateCount(outcomes, Approved) + FateCount(outcomes, Rejected) + FateCount(outcomes, Expired)
                          + FateCount(outcomes, ModeCleared) + FateCount(outcomes, Overwritten)
    ensures NoneOverwritten(outcomes) ==> FateCount(outcomes, Overwritten) == 0
  {
    if outcomes != [] {
      FatesPartition(outcomes[..|outcomes| - 1]);
    }
  }

  /** Conservation over every run: the actions ever held are those pending, approved, rejected
      and invalidated; nothing else as long as fewer than 2^32 identifiers were handed out.
      Direct actions are in the queue's history or counted as dropped. */
  lemma Conservation(firstId: u32, events: seq<Event>)
    requires ValidRun(NewWorld(firstId), events)
    ensures var w := Run(NewWorld(firstId), events);
            && |w.j.held| == |w.b.pending| + FateCount(w.j.outcomes, Approved) + FateCount(w.j.outcomes, Rejected)
                             + FateCount(w.j.outcomes, Expired) + FateCount(w.j.outcomes, ModeCleared)
                             + FateCount(w.j.outcomes, Overwritten)
            && (w.j.allocations <= 0xFFFF_FFFF ==> FateCount(w.j.outcomes, Overwritten) == 0)
            && |w.j.offers| == DirectCount(w.j.pushed) + w.b.droppedActions
            && PushedActions(w.j.pushed) == w.j.dequeued + w.b.actionQueue
            && |w.b.actionQueue| <= 64
  {
    ReachableWorlds(firstId, events);
    FatesPartition(Run(NewWorld(firstId), events).j.outcomes);
  }

  /** The notification ring is always the latest events, at most 64, and nothing is unaccounted for. */
  lemma NotificationRing(firstId: u32, events: seq<Event>)
    requires ValidRun(NewWorld(firstId), events)
    ensures var w := Run(NewWorld(firstId), events);
            && |w.b.uiQueue| <= 64
            && |w.j.uiPopped| + w.b.droppedUi + |w.b.uiQueue| == |w.j.uiPushed|
            && w.b.uiQueue == w.j.uiPushed[|w.j.uiPopped| + w.b.droppedUi..]
  {
    ReachableWorlds(firstId, events);
  }

  /** Every action ever held is waiting, or has left with exactly one outcome. */
  lemma ExactlyOneOutcome(firstId: u32, events: seq<Event>, k: nat)
    requires ValidRun(NewWorld(firstId), events) && k < |Run(NewWorld(firstId), events).j.held|
    ensures var w := Run(NewWorld(firstId), events);
            || (Waiting(w, k) && !HasOutcome(w, k))
            || (!Waiting(w, k) && exists i | 0 <= i < |w.j.outcomes| ::
                  && w.j.outcomes[i].ticket == k
                  && forall j | 0 <= j < |w.j.outcomes| && w.j.outcomes[j].ticket == k :: j == i)
  {
    ReachableWorlds(firstId, events);
    var w := Run(NewWorld(firstId), events);
    if HasOutcome(w, k) {
      var i :| 0 <= i < |w.j.outcomes| && w.j.outcomes[i].ticket == k;
      assert forall j | 0 <= j < |w.j.outcomes| && w.j.outcomes[j].ticket == k :: j == i;
    }
  }

  lemma {:induction false} ApprovedPositions(outcomes: seq<Outcome>, a: nat)
    returns (i: nat)
    requires a < |ApprovedTickets(outcomes)|
    ensures i < |outcomes| && outcomes[i] == Outcome(ApprovedTickets(outcomes)[a], Approved)
    ensures |ApprovedTickets(outcomes[..i])| == a
  {
    var front, o := outcomes[..|outcomes| - 1], outcomes[|outcomes| - 1];
    if a < |ApprovedTickets(front)| {
      i := ApprovedPositions(front, a);
      assert front[..i] == outcomes[..i];
    } else {
      i := |outcomes| - 1;
    }
  }

  lemma {:induction false} GatedPosition(pushed: seq<Push>, i: nat)
    requires i < |pushed| && pushed[i].origin.Gated?
    ensures |GatedTickets(pushed[..i])| < |GatedTickets(pushed)|
    ensures GatedTickets(pushed)[|GatedTickets(pushed[..i])|] == pushed[i].origin.ticket
  {
    var front := pushed[..|pushed| - 1];
    if i < |front| {
      GatedPosition(front, i);
      assert front[..i] == pushed[..i];
    } else {
      assert front == pushed[..i];
    }
  }

  lemma GatedPositionsGrow(pushed: seq<Push>, i: nat, j: nat)
    requires i < j < |pushed| && pushed[i].origin.Gated?
    ensures |GatedTickets(pushed[..i])| < |GatedTickets(pushed[..j])|
  {
    GatedPosition(pushed[..j], i);
    assert pushed[..j][..i] == pushed[..i];
  }

  /** Two gated pushes are two approvals. */
  lemma GatedPushesDiffer(w: World, i: nat, j: nat)
    requires Inv(w) && i < |w.j.pushed| && j < |w.j.pushed| && i != j
    requires w.j.pushed[i].origin.Gated? && w.j.pushed[j].origin.Gated?
    ensures w.j.pushed[i].origin.ticket != w.j.pushed[j].origin.ticket
  {
    GatedPosition(w.j.pushed, i);
    GatedPosition(w.j.pushed, j);
    var o := ApprovedPositions(w.j.outcomes, |GatedTickets(w.j.pushed[..i])|);
    var p := ApprovedPositions(w.j.outcomes, |GatedTickets(w.j.pushed[..j])|);
    if i < j {
      GatedPositionsGrow(w.j.pushed, i, j);
    } else {
      GatedPositionsGrow(w.j.pushed, j, i);
    }
    assert o != p;
  }

  lemma GatedPushIsApproved(w: World, i: nat)
    requires Inv(w) && i < |w.j.pushed| && w.j.pushed[i].origin.Gated?
    ensures exists o :: 0 <= o < |w.j.outcomes| && w.j.outcomes[o] == Outcome(w.j.pushed[i].origin.ticket, Approved)
  {
    GatedPosition(w.j.pushed, i);
    var o := ApprovedPositions(w.j.outcomes, |GatedTickets(w.j.pushed[..i])|);
  }

  /** The approval is its only outcome. */
  lemma GatedPushHasNoOtherOutcome(w: World, i: nat, o: nat)
    requires Inv(w) && i < |w.j.pushed| && w.j.pushed[i].origin.Gated?
    requires o < |w.j.outcomes| && w.j.outcomes[o].ticket == w.j.pushed[i].origin.ticket
    ensures w.j.outcomes[o].fate.Approved?
  {
    GatedPushIsApproved(w, i);
  }

  /** A held action reaches the actuator only if its one outcome is an approval, and only once:
      in particular never after a reject or an invalidation. */
  lemma OnlyApprovalsReachTheActuator(firstId: u32, events: seq<Event>, i: nat)
    requires ValidRun(NewWorld(firstId), events)
    requires i < |Run(NewWorld(firstId), events).j.pushed|
    requires Run(NewWorld(firstId), events).j.pushed[i].origin.Gated?
    ensures var w := Run(NewWorld(firstId), events);
            var t := w.j.pushed[i].origin.ticket;
            && t < |w.j.held| && w.j.held[t] == w.j.pushed[i].action
            && (exists o :: 0 <= o < |w.j.outcomes| && w.j.outcomes[o] == Outcome(t, Approved))
            && (forall o | 0 <= o < |w.j.outcomes| && w.j.outcomes[o].ticket == t :: w.j.outcomes[o].fate.Approved?)
            && (forall j | 0 <= j < |w.j.pushed| && j != i && w.j.pushed[j].origin.Gated? ::
                  w.j.pushed[j].origin.ticket != t)
  {
    ReachableWorlds(firstId, events);
    var w := Run(NewWorld(firstId), events);
    assert Legitimate(w.j.pushed[i], w.j.held);
    GatedPushIsApproved(w, i);
    forall o | 0 <= o < |w.j.outcomes| && w.j.outcomes[o].ticket == w.j.pushed[i].origin.ticket
      ensures w.j.outcomes[o].fate.Approved?
    {
      GatedPushHasNoOtherOutcome(w, i, o);
    }
    forall j | 0 <= j < |w.j.pushed| && j != i && w.j.pushed[j].origin.Gated?
      ensures w.j.pushed[j].origin.ticket != w.j.pushed[i].origin.ticket
    {
      GatedPushesDiffer(w, i, j);
    }
  }

  /** The kinds of action that each category covers; one that only logs needs no approval. */
  predicate SwitchedToAutomatic(t: ActionType, auto: set<Category>) {
    || t.LogOnly?
    || ((t.BitrateReduce? || t.BitrateRecover?) && Bitrate in auto)
    || ((t.ScaleResolution? || t.RestoreResolution?) && Resolution in auto)
    || ((t.CapFps? || t.RestoreFps?) && Fps in auto)
  }

  /** What reached the actuator without approval was allowed to: never in manual mode, in
      co-pilot mode only with its category switched to automatic, in assist mode only if critical. */
  lemma DirectPushesWereAllowed(firstId: u32, events: seq<Event>, i: nat)
    requires ValidRun(NewWorld(firstId), events) && i < |Run(NewWorld(firstId), events).j.pushed|
    requires Run(NewWorld(firstId), events).j.pushed[i].origin.Direct?
    ensures var p := Run(NewWorld(firstId), events).j.pushed[i];
            && !p.origin.mode.Manual?
            && (p.origin.mode.CoPilot? ==> SwitchedToAutomatic(p.action.actionType, p.origin.auto))
            && (p.origin.mode.Assist? ==> p.origin.critical)
  {
    ReachableWorlds(firstId, events);
  }

  /** Once an action has an outcome, approving or rejecting its identifier does nothing and
      returns 0, until the identifiers have gone once round. */
  lemma SettledIdsStaySettled(firstId: u32, events: seq<Event>, k: nat, now: Instant)
    requires ValidRun(NewWorld(firstId), events) && k < |Run(NewWorld(firstId), events).j.held|
    requires Run(NewWorld(firstId), events).j.allocations <= 0xFFFF_FFFF
    requires HasOutcome(Run(NewWorld(firstId), events), k)
    ensures var w := Run(NewWorld(firstId), events);
            Approve(w, w.j.held[k].id, now) == (w, 0) && Reject(w, w.j.held[k].id) == (w, 0)
  {
    ReachableWorlds(firstId, events);
    var w := Run(NewWorld(firstId), events);
    var id := w.j.held[k].id;
    if id in w.b.pending {
      var l := w.j.tickets[id];
      if l < k {
        IdsDistinct(firstId, w.j.heldAlloc[l], w.j.heldAlloc[k]);
      } else if k < l {
        IdsDistinct(firstId, w.j.heldAlloc[k], w.j.heldAlloc[l]);
      }
    }
  }

  /** An approval that meets a full actuator queue loses nothing: the action stays pending with
      a fresh time stamp and cannot expire for another 30 s. */
  lemma FullQueueKeepsTheAction(w: World, id: u32, now: Instant, later: Instant)
    requires id in w.b.pending && |w.b.actionQueue| >= 64 && later < now + 30_000_000_000
    ensures var (v, code) := Approve(w, id, now);
            && code == 0 && v.j == w.j
            && v.b.pending.Keys == w.b.pending.Keys
            && v.b.pending[id] == w.b.pending[id].(created := now)
            && (forall other | other in w.b.pending && other != id :: v.b.pending[other] == w.b.pending[other])
            && id !in ExpiredIds(v.b.pending, later)
  {}

  /** A sweep removes exactly the entries of 30 s and older. */
  lemma SweepRemovesTheOld(w: World, now: Instant, order: seq<u32>)
    requires Inv(w) && Enumerates(order, ExpiredIds(w.b.pending, now))
    ensures forall id :: id in Clear(w, order, Expired).b.pending <==>
              id in w.b.pending && now - w.b.pending[id].created < 30_000_000_000
  {
    ClearKeeps(w, order, ExpiredIds(w.b.pending, now), Expired);
  }

  /** A change to another valid mode removes every entry; any other call changes nothing. */
  lemma ModeChangeRemovesAll(w: World, mode: u32, order: seq<u32>)
    requires Inv(w) && Enumerates(order, w.b.pending.Keys)
    ensures mode <= 3 && mode != w.b.mode ==> SetMode(w, mode, order).b.pending == map[]
    ensures mode <= 3 ==> SetMode(w, mode, order).b.mode == mode
    ensures mode > 3 || mode == w.b.mode ==> SetMode(w, mode, order) == w
  {
    if mode <= 3 && mode != w.b.mode {
      var v := w.(b := w.b.(mode := mode));
      ConfigKeeps(w, v);
      ClearKeeps(v, order, v.b.pending.Keys, ModeCleared);
      CloseAllKeepsMode(v, order, ModeCleared);
      PushUiAllKeepsMode(CloseAll(v, order, ModeCleared), ActionsOf(v.b.pending, order));
    }
  }

  // ---------------------------------------------------------------- ticks that do not overlap a mode change

  /** The tick routes by a mode that is still in force at that moment. */
  predicate AtomicTick(w: World, ev: Event) {
    ev.Routing? && w.b.collected != [] ==> w.b.collected[0].request.mode == ModeFromRaw(w.b.mode)
  }

  predicate AtomicRun(w: World, events: seq<Event>)
    requires ValidRun(w, events)
    decreases |events|
  {
    events == [] || (AtomicTick(w, events[0]) && AtomicRun(Step(w, events[0]), events[1..]))
  }

  predicate HeldInCoPilot(w: World) {
    w.b.mode <= 3 && (w.b.pending != map[] ==> ModeFromRaw(w.b.mode).CoPilot?)
  }

  lemma {:induction false} CloseAllKeepsMode(w: World, ids: seq<u32>, fate: Fate)
    ensures CloseAll(w, ids, fate).b.mode == w.b.mode
  {
    if ids != [] {
      CloseAllKeepsMode(w, ids[..|ids| - 1], fate);
    }
  }

  lemma {:induction false} PushUiAllKeepsMode(w: World, actions: seq<RjAction>)
    ensures PushUiAll(w, actions).b.mode == w.b.mode
  {
    if actions != [] {
      PushUiAllKeepsMode(w, actions[..|actions| - 1]);
    }
  }

  lemma ClearHoldsInCoPilot(w: World, order: seq<u32>, ids: set<u32>, fate: Fate)
    requires Inv(w) && !fate.Approved? && ids <= w.b.pending.Keys && Enumerates(order, ids) && w.b.mode <= 3
    requires ids == w.b.pending.Keys || HeldInCoPilot(w)
    ensures HeldInCoPilot(Clear(w, order, fate))
  {
    ClearKeeps(w, order, ids, fate);
    CloseAllKeepsMode(w, order, fate);
    PushUiAllKeepsMode(CloseAll(w, order, fate), ActionsOf(w.b.pending, order));
  }

  lemma RouteHoldsInCoPilot(w: World, now: Instant)
    requires HeldInCoPilot(w) && AtomicTick(w, Routing(now))
    ensures HeldInCoPilot(Route(w, now))
  {}

  lemma StepHoldsInCoPilot(w: World, ev: Event)
    requires Inv(w) && HeldInCoPilot(w) && ValidEvent(w, ev) && AtomicTick(w, ev)
    ensures HeldInCoPilot(Step(w, ev))
  {
    match ev
    case Routing(now) => RouteHoldsInCoPilot(w, now);
    case Sweeping(now, order) => ClearHoldsInCoPilot(w, order, ExpiredIds(w.b.pending, now), Expired);
    case SettingMode(mode, order) =>
      if mode <= 3 && mode != w.b.mode {
        var v := w.(b := w.b.(mode := mode));
        ConfigKeeps(w, v);
        ClearHoldsInCoPilot(v, order, v.b.pending.Keys, ModeCleared);
      }
    case _ =>
  }

  lemma {:induction false} RunHoldsInCoPilot(w: World, events: seq<Event>)
    requires Inv(w) && HeldInCoPilot(w) && ValidRun(w, events) && AtomicRun(w, events)
    ensures HeldInCoPilot(Run(w, events))
    decreases |events|
  {
    if events != [] {
      StepKeeps(w, events[0]);
      StepHoldsInCoPilot(w, events[0]);
      RunHoldsInCoPilot(Step(w, events[0]), events[1..]);
    }
  }

  /** As long as no tick overlaps a change of mode, an action is held only while the mode is
      co-pilot; so leaving that mode leaves nothing behind that an approval could still release. */
  lemma NothingHeldOutsideCoPilot(firstId: u32, events: seq<Event>)
    requires ValidRun(NewWorld(firstId), events) && AtomicRun(NewWorld(firstId), events)
    requires Run(NewWorld(firstId), events).b.mode != 1
    ensures Run(NewWorld(firstId), events).b.pending == map[]
  {
    ReachableWorlds(firstId, []);
    RunHoldsInCoPilot(NewWorld(firstId), events);
  }
}
