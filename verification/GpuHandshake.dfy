/** One preview frame's way through two GPU interfaces: Vulkan copies into an image of a pool of
    three, OpenGL samples another. The state machine interleaves the painting thread with the
    completion of copies and of draws; results of driver calls are inputs. One lifetime of the
    optimizer, from its initialisation to its shutdown. */
module GpuHandshake {
  import opened Basics

  const POOL: nat := 3

  datatype Layout = Undefined | ShaderReadOnly

  type Slot = s: nat | s < POOL

  /** The image that a copy started from `slot` writes. */
  function Target(slot: Slot): Slot { (slot + 1) % POOL }

  /** The copy optimizer's own fields. `signaled` is indexed by image, `layouts` by slot. */
  datatype Optimizer = Optimizer(counter: nat, waitValue: nat, signaled: seq<bool>, layouts: seq<Layout>)

  /** Entry points that may be missing at run time, and the images whose semaphore can be waited for:
      those whose handle was imported, or none when the entry point for the wait is missing. */
  datatype Procs = Procs(fenceSync: bool, clientWaitSync: bool, waitable: set<Slot>)

  /** Where the painting thread is. */
  datatype Phase =
    | Idle
    | Fencing(slot: Slot)
    | Waiting(slot: Slot)
    | Recording(slot: Slot)
    | Submitting(slot: Slot)
    | Rendering

  /** An image of the pool; every resize makes a new generation. */
  datatype Image = Image(generation: nat, index: Slot)

  datatype Submit = Submit(value: nat, image: Image, signals: bool)

  datatype World = World(
    procs: Procs,
    o: Optimizer,
    current: Slot,
    generation: nat,
    interop: seq<bool>,
    fences: seq<Option<nat>>,
    phase: Phase,
    // the devices
    timeline: nat,
    submits: seq<Submit>,
    draws: seq<Option<Image>>,
    drawsDone: nat,
    signals: seq<nat>,
    waits: seq<nat>,
    // for each image: the generation last written, the value of that copy, whether it carried a
    // signal, and the newest copy that later draws are ordered after
    lastGeneration: seq<Option<nat>>,
    lastWrite: seq<nat>,
    lastSignaled: seq<bool>,
    seen: seq<nat>)

  datatype Event =
    | CopyFinishes
    | DrawFinishes
    | Paint(slot: Slot, resized: bool)
    | PaintAgain
    | FenceWait(ok: bool)
    | PreviousWait(ok: bool)
    | Record(ok: bool)
    | Submitted(ok: bool, hasSemaphore: bool, imported: bool)
    | Render(hasFallback: bool)

  function Three<T>(x: T): seq<T> { [x, x, x] }

  const NEW_OPTIMIZER := Optimizer(0, 0, Three(false), Three(Undefined))

  function NewWorld(procs: Procs): World {
    World(procs, NEW_OPTIMIZER, 0, 0, Three(false), Three(None), Idle, 0, [], [], 0, Three(0), Three(0),
          Three(None), Three(0), Three(true), Three(0))
  }

  predicate ShapedOptimizer(o: Optimizer) { |o.signaled| == POOL && |o.layouts| == POOL }

  predicate Shaped(w: World) {
    && ShapedOptimizer(w.o)
    && |w.interop| == POOL && |w.fences| == POOL
    && |w.signals| == POOL && |w.waits| == POOL
    && |w.lastGeneration| == POOL && |w.lastWrite| == POOL && |w.lastSignaled| == POOL && |w.seen| == POOL
  }

  /** Whether the fence of an image is looked at, and whether it has passed. */
  predicate FenceChecked(w: World, i: Slot)
    requires Shaped(w)
  {
    w.fences[i].Some? && w.procs.clientWaitSync
  }

  predicate FencePassed(w: World, i: Slot)
    requires Shaped(w)
  {
    w.fences[i].Some? && w.fences[i].value <= w.drawsDone
  }

  /** A wait may fail at any time; it succeeds only when what it waits for has come. */
  predicate Enabled(w: World, e: Event) {
    Shaped(w) &&
    match e
    case CopyFinishes => w.timeline < |w.submits|
    case DrawFinishes => w.drawsDone < |w.draws|
    case Paint(_, _) => w.phase.Idle?
    case PaintAgain => w.phase.Idle?
    case FenceWait(ok) =>
      w.phase.Fencing? &&
      if FenceChecked(w, Target(w.phase.slot)) then ok ==> FencePassed(w, Target(w.phase.slot)) else ok
    case PreviousWait(ok) =>
      w.phase.Waiting? && if w.o.waitValue > 0 then ok ==> w.timeline >= w.o.waitValue else ok
    case Record(_) => w.phase.Recording?
    case Submitted(_, _, _) => w.phase.Submitting?
    case Render(_) => w.phase.Rendering?
  }

  // ---------------------------------------------------------------- the steps

  /** A changed size rebuilds the pool: the device is idle, the images are new and no texture
      shows them. What the optimizer knows about layouts stays. */
  function BeginPaint(w: World, slot: Slot, resized: bool): World {
    if resized then
      w.(phase := Fencing(slot), current := slot, generation := w.generation + 1, interop := Three(false),
         timeline := if w.timeline < |w.submits| then |w.submits| else w.timeline)
    else
      w.(phase := Fencing(slot), current := slot)
  }

  /** The optimizer's part of a submission: a failed one is rolled back. */
  function SubmitOptimizer(o: Optimizer, slot: Slot, image: Slot, ok: bool, hasSemaphore: bool): Optimizer
    requires ShapedOptimizer(o)
  {
    if !ok then o
    else
      Optimizer(o.counter + 1, o.counter + 1,
                if hasSemaphore then o.signaled[image := true] else o.signaled,
                o.layouts[slot := ShaderReadOnly])
  }

  /** A signal is sent unless the previous one for this image is still unused. */
  predicate Signals(o: Optimizer, image: Slot, hasSemaphore: bool)
    requires ShapedOptimizer(o)
  {
    hasSemaphore && !o.signaled[image]
  }

  function SubmitCopy(w: World, ok: bool, hasSemaphore: bool, imported: bool): World
    requires Shaped(w) && w.phase.Submitting?
  {
    if !ok then w.(phase := Idle)
    else
      var slot, i := w.phase.slot, Target(w.phase.slot);
      var s := Signals(w.o, i, hasSemaphore);
      var o := SubmitOptimizer(w.o, slot, i, true, hasSemaphore);
      w.(o := o,
         phase := Rendering,
         interop := w.interop[slot := w.interop[slot] || imported],
         submits := w.submits + [Submit(o.waitValue, Image(w.generation, i), s)],
         signals := if s then w.signals[i := w.signals[i] + 1] else w.signals,
         lastGeneration := w.lastGeneration[i := Some(w.generation)],
         lastWrite := w.lastWrite[i := o.waitValue],
         lastSignaled := w.lastSignaled[i := s])
  }

  /** The value of the copy whose signal a wait on image `i` uses up: the last that carried one. */
  function SignalValue(submits: seq<Submit>, i: Slot): nat {
    if submits == [] then 0
    else
      var s := submits[|submits| - 1];
      if s.image.index == i && s.signals then s.value else SignalValue(submits[..|submits| - 1], i)
  }

  predicate WaitsForSignal(w: World)
    requires Shaped(w)
  {
    w.interop[w.current] && w.current in w.procs.waitable && w.o.signaled[w.current]
  }

  /** Waits for the image's signal if there is one, draws, and puts a fence behind the draw. With
      neither a texture of the pool nor the fallback texture there is nothing to draw. */
  function RenderFrame(w: World, hasFallback: bool): World
    requires Shaped(w) && w.phase.Rendering?
  {
    if w.interop[w.current] || hasFallback then Draw(w) else w.(phase := Idle)
  }

  function Draw(w: World): World
    requires Shaped(w)
  {
    var c := w.current;
    var v := if WaitsForSignal(w) then
               w.(o := w.o.(signaled := w.o.signaled[c := false]),
                  waits := w.waits[c := w.waits[c] + 1],
                  seen := w.seen[c := SignalValue(w.submits, c)])
             else w;
    var draws := w.draws + [if w.interop[c] then Some(Image(w.generation, c)) else None];
    v.(draws := draws,
       fences := w.fences[c := if w.procs.fenceSync then Some(|draws|) else None],
       phase := Idle)
  }

  function Step(w: World, e: Event): World
    requires Enabled(w, e)
  {
    match e
    case CopyFinishes => w.(timeline := w.timeline + 1)
    case DrawFinishes => w.(drawsDone := w.drawsDone + 1)
    case Paint(slot, resized) => BeginPaint(w, slot, resized)
    case PaintAgain => w.(phase := Rendering)
    case FenceWait(ok) => w.(phase := if ok then Waiting(w.phase.slot) else Idle)
    case PreviousWait(ok) => w.(phase := if ok then Recording(w.phase.slot) else Idle)
    case Record(ok) => w.(phase := if ok then Submitting(w.phase.slot) else Idle)
    case Submitted(ok, hasSemaphore, imported) => SubmitCopy(w, ok, hasSemaphore, imported)
    case Render(hasFallback) => RenderFrame(w, hasFallback)
  }

  predicate Run(w: World, es: seq<Event>, v: World)
    decreases |es|
  {
    if es == [] then v == w else Enabled(w, es[0]) && Run(Step(w, es[0]), es[1..], v)
  }

  // ---------------------------------------------------------------- the invariant

  /** Copies are numbered 1, 2, 3, ... and at most the last one is unfinished. */
  predicate Numbered(w: World) {
    && w.o.counter == w.o.waitValue == |w.submits|
    && (forall k | 0 <= k < |w.submits| :: w.submits[k].value == k + 1)
    && w.timeline <= |w.submits| <= w.timeline + 1
    && (w.phase.Recording? || w.phase.Submitting? ==> w.timeline == |w.submits|)
  }

  /** A signal not yet waited for is what the flag stands for. */
  predicate Paired(w: World)
    requires Shaped(w)
  {
    forall i: Slot :: w.signals[i] == w.waits[i] + if w.o.signaled[i] then 1 else 0
  }

  predicate DrawsOf(w: World, i: Slot, bound: nat) {
    forall d | 0 <= d < |w.draws| :: w.draws[d].Some? && w.draws[d].value.index == i ==> d < bound
  }

  /** The fence of an image lies behind all its draws. */
  predicate Fenced(w: World)
    requires Shaped(w)
  {
    && w.drawsDone <= |w.draws|
    && (w.procs.fenceSync ==> forall i: Slot :: if w.fences[i].Some? then DrawsOf(w, i, w.fences[i].value) else DrawsOf(w, i, 0))
  }

  predicate BeyondFence(p: Phase) { p.Waiting? || p.Recording? || p.Submitting? }

  predicate Cleared(w: World) {
    && (w.phase.Fencing? || BeyondFence(w.phase) ==> w.phase.slot == w.current)
    && (w.procs.fenceSync && w.procs.clientWaitSync && BeyondFence(w.phase) ==> DrawsOf(w, Target(w.phase.slot), w.drawsDone))
  }

  predicate Tracked(w: World)
    requires Shaped(w)
  {
    && (forall s: Slot :: w.o.layouts[s] == if w.lastGeneration[Target(s)].Some? then ShaderReadOnly else Undefined)
    && (forall i: Slot :: w.lastGeneration[i].Some? ==> w.lastGeneration[i].value <= w.generation)
  }

  predicate SignalKnown(w: World, i: Slot)
    requires Shaped(w)
  {
    && SignalValue(w.submits, i) <= w.lastWrite[i] <= |w.submits|
    && w.seen[i] <= w.lastWrite[i]
    && (i !in w.procs.waitable ==> w.seen[i] == 0)
    && (w.lastSignaled[i] && w.o.signaled[i] ==> SignalValue(w.submits, i) == w.lastWrite[i])
    && (w.lastSignaled[i] && !w.o.signaled[i] ==> w.seen[i] == w.lastWrite[i])
    && (!w.lastSignaled[i] ==> SignalValue(w.submits, i) < w.lastWrite[i] && w.seen[i] < w.lastWrite[i])
  }

  predicate Inv(w: World) {
    && Shaped(w) && Numbered(w) && Paired(w) && Fenced(w) && Cleared(w) && Tracked(w)
    && forall i: Slot :: SignalKnown(w, i)
  }

  lemma NewWorldInv(procs: Procs)
    ensures Inv(NewWorld(procs))
  {}

  lemma SubmitKeepsInv(w: World, ok: bool, hasSemaphore: bool, imported: bool)
    requires Inv(w) && w.phase.Submitting?
    ensures Inv(SubmitCopy(w, ok, hasSemaphore, imported))
  {
    if ok {
      var v := SubmitCopy(w, ok, hasSemaphore, imported);
      assert v.submits[..|v.submits| - 1] == w.submits;
      forall i: Slot ensures SignalKnown(v, i) {
        assert SignalKnown(w, i);
      }
    } else {
      IdleKeepsInv(w);
    }
  }

  lemma DrawKeepsInv(w: World)
    requires Inv(w) && w.phase.Rendering?
    ensures Inv(Draw(w))
  {
    var v, c := Draw(w), w.current;
    forall i: Slot ensures SignalKnown(v, i) {
      assert SignalKnown(w, i);
    }
    if w.procs.fenceSync {
      forall i: Slot ensures if v.fences[i].Some? then DrawsOf(v, i, v.fences[i].value) else DrawsOf(v, i, 0) {
        assert if w.fences[i].Some? then DrawsOf(w, i, w.fences[i].value) else DrawsOf(w, i, 0);
      }
    }
  }

  lemma QuietStepKeepsInv(w: World, e: Event)
    requires Inv(w) && Enabled(w, e) && !e.Submitted? && !e.Render?
    ensures Inv(Step(w, e))
  {
    var v := Step(w, e);
    forall i: Slot ensures SignalKnown(v, i) {
      assert SignalKnown(w, i);
    }
  }

  /** Every step keeps the invariant. */
  lemma StepKeepsInv(w: World, e: Event)
    requires Inv(w) && Enabled(w, e)
    ensures Inv(Step(w, e))
  {
    match e
    case Submitted(ok, hasSemaphore, imported) => SubmitKeepsInv(w, ok, hasSemaphore, imported);
    case Render(hasFallback) =>
      DrawKeepsInv(w);
      if !w.interop[w.current] && !hasFallback {
        IdleKeepsInv(w);
      }
    case _ => QuietStepKeepsInv(w, e);
  }

  lemma IdleKeepsInv(w: World)
    requires Inv(w)
    ensures Inv(w.(phase := Idle))
  {
    forall i: Slot ensures SignalKnown(w.(phase := Idle), i) {
      assert SignalKnown(w, i);
    }
  }

  lemma {:induction false} RunKeepsInv(w: World, es: seq<Event>, v: World)
    requires Inv(w) && Run(w, es, v)
    ensures Inv(v)
    decreases |es|
  {
    if es != [] {
      StepKeepsInv(w, es[0]);
      RunKeepsInv(Step(w, es[0]), es[1..], v);
    }
  }

  predicate Reachable(procs: Procs, es: seq<Event>, w: World) { Run(NewWorld(procs), es, w) }

  lemma ReachableInv(procs: Procs, es: seq<Event>, w: World)
    requires Reachable(procs, es, w)
    ensures Inv(w)
  {
    NewWorldInv(procs);
    RunKeepsInv(NewWorld(procs), es, w);
  }

  // ---------------------------------------------------------------- the timeline

  /** The values signalled on the timeline are 1, 2, 3, ... without gaps, whatever submissions
      failed in between, and at most one copy is unfinished at any time. */
  lemma TimelineHasNoGaps(procs: Procs, es: seq<Event>, w: World)
    requires Reachable(procs, es, w)
    ensures forall k | 0 <= k < |w.submits| :: w.submits[k].value == k + 1
    ensures w.o.counter == w.o.waitValue == |w.submits|
    ensures w.timeline <= |w.submits| <= w.timeline + 1
  {
    ReachableInv(procs, es, w);
  }

  /** When a command buffer is reset every earlier copy is finished. */
  lemma NoResetBeforeCompletion(procs: Procs, es: seq<Event>, w: World, ok: bool)
    requires Reachable(procs, es, w) && Enabled(w, Record(ok))
    ensures forall k | 0 <= k < |w.submits| :: w.submits[k].value <= w.timeline
  {
    ReachableInv(procs, es, w);
  }

  /** Per image, signals minus waits is 1 if its flag is set and 0 otherwise: no semaphore is
      signalled twice without a wait, and none is waited for without a signal. */
  lemma SignalsMatchWaits(procs: Procs, es: seq<Event>, w: World, i: Slot)
    requires Reachable(procs, es, w)
    ensures Shaped(w) && w.signals[i] as int - w.waits[i] as int == if w.o.signaled[i] then 1 else 0
  {
    ReachableInv(procs, es, w);
  }

  // ---------------------------------------------------------------- write after read

  /** The copy about to be submitted overwrites no image that an unfinished draw samples. */
  predicate Overwrites(w: World, d: nat) {
    && w.phase.Submitting? && w.drawsDone <= d < |w.draws|
    && w.draws[d] == Some(Image(w.generation, Target(w.phase.slot)))
  }

  lemma NoOverwriteWhileSampled(procs: Procs, es: seq<Event>, w: World, d: nat)
    requires procs.fenceSync && procs.clientWaitSync && Reachable(procs, es, w)
    ensures !Overwrites(w, d)
  {
    ReachableInv(procs, es, w);
    RunKeepsProcs(NewWorld(procs), es, w);
    assert w.phase.Submitting? ==> DrawsOf(w, Target(w.phase.slot), w.drawsDone);
  }

  lemma {:induction false} RunKeepsProcs(w: World, es: seq<Event>, v: World)
    requires Run(w, es, v)
    ensures v.procs == w.procs
    decreases |es|
  {
    if es != [] {
      RunKeepsProcs(Step(w, es[0]), es[1..], v);
    }
  }

  /** A frame that reaches its submission at once: the fence passes and the last copy is finished. */
  function FrameUpToSubmit(slot: Slot): seq<Event> {
    [Paint(slot, false), FenceWait(true), PreviousWait(true), Record(true)]
  }

  lemma FrameReachesSubmit(w: World, slot: Slot)
    requires Shaped(w) && w.phase.Idle? && w.timeline >= w.o.waitValue
    requires FenceChecked(w, Target(slot)) ==> FencePassed(w, Target(slot))
    ensures Run(w, FrameUpToSubmit(slot), w.(phase := Submitting(slot), current := slot))
  {
    var v := w.(phase := Submitting(slot), current := slot);
    var es := FrameUpToSubmit(slot);
    assert Run(w.(phase := Recording(slot), current := slot), es[3..], v);
    assert es[2..][1..] == es[3..];
    assert Run(w.(phase := Waiting(slot), current := slot), es[2..], v);
    assert es[1..][1..] == es[2..];
    assert Run(w.(phase := Fencing(slot), current := slot), es[1..], v);
  }

  lemma {:induction false} RunConcat(w: World, es: seq<Event>, u: World, fs: seq<Event>, v: World)
    requires Run(w, es, u) && Run(u, fs, v)
    ensures Run(w, es + fs, v)
    decreases |es|
  {
    if es == [] {
      assert es + fs == fs;
    } else {
      RunConcat(Step(w, es[0]), es[1..], u, fs, v);
      assert (es + fs)[1..] == es[1..] + fs;
    }
  }

  lemma RunSnoc(w: World, es: seq<Event>, u: World, e: Event)
    requires Run(w, es, u) && Enabled(u, e)
    ensures Run(w, es + [e], Step(u, e))
  {
    assert [e][1..] == [];
    RunConcat(w, es, u, [e], Step(u, e));
  }

  /** No run overwrites an image while it is sampled exactly when both the fence and the wait for
      it are available. */
  lemma NoOverwriteExactlyWhen(procs: Procs)
    ensures (forall es, w, d: nat :: Reachable(procs, es, w) ==> !Overwrites(w, d))
            <==> procs.fenceSync && procs.clientWaitSync
  {
    if procs.fenceSync && procs.clientWaitSync {
      forall es, w, d: nat | Reachable(procs, es, w) ensures !Overwrites(w, d) {
        NoOverwriteWhileSampled(procs, es, w, d);
      }
    } else {
      var es, w := OverwriteWithoutFences(procs);
      assert Reachable(procs, es, w) && Overwrites(w, 0);
    }
  }

  // ---------------------------------------------------------------- read after write

  /** A draw comes after every copy into the image it samples. */
  predicate OrderedDraw(w: World)
    requires Shaped(w)
  {
    w.lastWrite[w.current] <= w.timeline || w.lastWrite[w.current] == Draw(w).seen[w.current]
  }

  /** A draw from the pool is ordered after the last copy into its image exactly when that copy
      carried a signal and the wait for it is available, or when it is finished. A copy carries no
      signal when the flag was still set. */
  lemma DrawIsOrderedExactlyWhen(procs: Procs, es: seq<Event>, w: World)
    requires Reachable(procs, es, w) && w.phase.Rendering?
    requires Shaped(w) && w.interop[w.current]
    ensures OrderedDraw(w)
            <==> (w.current in procs.waitable && w.lastSignaled[w.current]) || w.lastWrite[w.current] <= w.timeline
  {
    ReachableInv(procs, es, w);
    RunKeepsProcs(NewWorld(procs), es, w);
    assert SignalKnown(w, w.current);
  }

  /** The draw that follows a copy in the same frame is always ordered, with or without signals:
      the frame's own copy goes into another image, and all earlier ones are finished. */
  lemma DrawAfterOwnCopyIsOrdered(procs: Procs, es: seq<Event>, w: World, hasSemaphore: bool, imported: bool)
    requires Reachable(procs, es, w) && w.phase.Submitting?
    ensures Shaped(w)
    ensures var v := Step(w, Submitted(true, hasSemaphore, imported));
            Shaped(v) && OrderedDraw(v) && v.lastWrite[Target(v.current)] > v.timeline
  {
    ReachableInv(procs, es, w);
    assert SignalKnown(w, w.current);
  }

  function Frame(slot: Slot): seq<Event> {
    FrameUpToSubmit(slot) + [Submitted(true, true, true), Render(false)]
  }

  function AfterFrame(w: World, slot: Slot): World
    requires Shaped(w)
  {
    Draw(SubmitCopy(w.(phase := Submitting(slot), current := slot), true, true, true))
  }

  lemma FrameIsRun(w: World, slot: Slot)
    requires Shaped(w) && w.phase.Idle? && w.timeline >= w.o.waitValue
    requires FenceChecked(w, Target(slot)) ==> FencePassed(w, Target(slot))
    ensures Run(w, Frame(slot), AfterFrame(w, slot))
  {
    FrameReachesSubmit(w, slot);
    var u, es := w.(phase := Submitting(slot), current := slot), FrameUpToSubmit(slot);
    RunSnoc(w, es, u, Submitted(true, true, true));
    RunSnoc(w, es + [Submitted(true, true, true)], Step(u, Submitted(true, true, true)), Render(false));
    assert es + [Submitted(true, true, true)] + [Render(false)] == Frame(slot);
  }

  lemma FrameOfSlot0(w: World)
    requires Shaped(w)
    ensures var v := AfterFrame(w, 0);
            && Shaped(v) && v.phase.Idle? && v.procs == w.procs
            && v.timeline == w.timeline && v.drawsDone == w.drawsDone && v.o.waitValue == w.o.counter + 1 == v.o.counter
            && v.interop[1] == w.interop[1] && v.fences[1] == w.fences[1] && v.fences[2] == w.fences[2]
            && v.o.signaled[1] && v.lastWrite[1] == v.o.waitValue && |v.submits| == |w.submits| + 1
            && SignalValue(v.submits, 1) == if w.o.signaled[1] then SignalValue(w.submits, 1) else v.o.waitValue
  {
    var u := SubmitCopy(w.(phase := Submitting(0), current := 0), true, true, true);
    assert u.submits[..|u.submits| - 1] == w.submits;
  }

  /** Two copies into image 1, each finished before the next; the second finds the flag set. */
  lemma SecondCopyIsNotSignaled(n: World, es: seq<Event>, c: World) returns (all: seq<Event>, f: World)
    requires Run(n, es, c) && Shaped(c) && c.phase.Idle? && c.timeline == c.o.waitValue == c.o.counter == |c.submits|
    requires c.interop[1] && !c.o.signaled[1] && c.fences[2].None? && (c.fences[1].Some? ==> FencePassed(c, 1))
    ensures Run(n, all, f) && Shaped(f) && f.phase.Idle? && f.procs == c.procs
    ensures f.interop[1] && f.o.signaled[1] && f.fences[2].None?
    ensures SignalValue(f.submits, 1) < f.lastWrite[1] && f.timeline < f.lastWrite[1] == f.o.waitValue
  {
    FrameIsRun(c, 0);
    FrameOfSlot0(c);
    var d := AfterFrame(c, 0);
    RunConcat(n, es, c, Frame(0), d);
    RunSnoc(n, es + Frame(0), d, CopyFinishes);
    all := es + Frame(0) + [CopyFinishes];
    var e := Step(d, CopyFinishes);
    FrameIsRun(e, 0);
    FrameOfSlot0(e);
    f := AfterFrame(e, 0);
    RunConcat(n, all, e, Frame(0), f);
    all := all + Frame(0);
  }

  /** A draw from image 1 that is finished, its copy as well. */
  lemma FirstFrame(procs: Procs) returns (es: seq<Event>, c: World)
    ensures Reachable(procs, es, c) && Shaped(c) && c.phase.Idle? && c.procs == procs
    ensures c.generation == 0 && c.lastGeneration[Target(1)] == Some(0)
    ensures c.timeline == c.o.waitValue == c.o.counter == |c.submits|
    ensures c.interop[1] && !c.o.signaled[1] && c.fences[2].None? && (c.fences[1].Some? ==> FencePassed(c, 1))
  {
    var n := NewWorld(procs);
    FrameIsRun(n, 1);
    var a := AfterFrame(n, 1);
    RunSnoc(n, Frame(1), a, CopyFinishes);
    var b := Step(a, CopyFinishes);
    es := Frame(1) + [CopyFinishes];
    RunSnoc(n, es, b, DrawFinishes);
    es := es + [DrawFinishes];
    c := Step(b, DrawFinishes);
  }

  /** The first copy into image 1 is signalled, the second is not, and a frame dropped for the
      third leaves a draw that waits for the first signal at most. */
  lemma DrawMayOvertakeSecondCopy(procs: Procs) returns (es: seq<Event>, w: World)
    ensures Reachable(procs, es, w) && w.phase.Rendering? && Shaped(w) && w.interop[w.current] && !OrderedDraw(w)
  {
    var c, f;
    es, c := FirstFrame(procs);
    es, f := SecondCopyIsNotSignaled(NewWorld(procs), es, c);
    es, w := DropFrame(NewWorld(procs), es, f);
    ReachableInv(procs, es, w);
    assert SignalKnown(w, 1);
  }

  /** A frame for slot 1 dropped because the last copy is not finished, and a repaint. */
  lemma DropFrame(n: World, es: seq<Event>, f: World) returns (all: seq<Event>, w: World)
    requires Run(n, es, f) && Shaped(f) && f.phase.Idle? && f.timeline < f.o.waitValue
    requires FenceChecked(f, 2) ==> FencePassed(f, 2)
    ensures Run(n, all, w) && w == f.(phase := Rendering, current := 1)
  {
    RunSnoc(n, es, f, Paint(1, false));
    all, w := es + [Paint(1, false)], Step(f, Paint(1, false));
    RunSnoc(n, all, w, FenceWait(true));
    all, w := all + [FenceWait(true)], Step(w, FenceWait(true));
    RunSnoc(n, all, w, PreviousWait(false));
    all, w := all + [PreviousWait(false)], Step(w, PreviousWait(false));
    RunSnoc(n, all, w, PaintAgain);
    all, w := all + [PaintAgain], Step(w, PaintAgain);
  }

  lemma FrameOfSlot1(procs: Procs)
    ensures var u := Step(AfterFrame(NewWorld(procs), 1), CopyFinishes);
            && Shaped(u) && u.phase.Idle? && u.procs == procs && u.generation == 0
            && u.timeline == u.o.waitValue && u.drawsDone == 0 && u.draws == [Some(Image(0, 1))]
            && (u.fences[1].Some? <==> procs.fenceSync)
  {}

  /** Without one of the two entry points there is a run that overwrites an image being sampled:
      one frame draws image 1, and before that draw is finished the next one copies into it. */
  lemma OverwriteWithoutFences(procs: Procs) returns (es: seq<Event>, w: World)
    requires !procs.fenceSync || !procs.clientWaitSync
    ensures Reachable(procs, es, w) && Overwrites(w, 0)
  {
    var n := NewWorld(procs);
    FrameIsRun(n, 1);
    FrameOfSlot1(procs);
    RunSnoc(n, Frame(1), AfterFrame(n, 1), CopyFinishes);
    es := Frame(1) + [CopyFinishes];
    var u := Step(AfterFrame(n, 1), CopyFinishes);
    FrameReachesSubmit(u, 0);
    w := u.(phase := Submitting(0), current := 0);
    RunConcat(n, es, u, FrameUpToSubmit(0), w);
    es := es + FrameUpToSubmit(0);
  }

  // ---------------------------------------------------------------- layouts

  /** The layout that image `i` of the present pool is in after all submitted copies. */
  function RealLayout(w: World, i: Slot): Layout
    requires Shaped(w)
  {
    if w.lastGeneration[i] == Some(w.generation) then ShaderReadOnly else Undefined
  }

  /** The recorded layout, which becomes the barrier's old layout, is the real one exactly when
      the slot has not been used since before the last resize: never, or again since. */
  lemma LayoutIsRightExactlyWhen(procs: Procs, es: seq<Event>, w: World, slot: Slot)
    requires Reachable(procs, es, w)
    ensures Shaped(w)
    ensures w.o.layouts[slot] == RealLayout(w, Target(slot))
            <==> w.lastGeneration[Target(slot)] in {None, Some(w.generation)}
  {
    ReachableInv(procs, es, w);
  }

  /** Hence it is always right in a run without a resize. */
  lemma LayoutIsRightWithoutResize(procs: Procs, es: seq<Event>, w: World, slot: Slot)
    requires Reachable(procs, es, w) && forall i | 0 <= i < |es| :: !(es[i].Paint? && es[i].resized)
    ensures Shaped(w) && w.o.layouts[slot] == RealLayout(w, Target(slot))
  {
    GenerationWithoutResize(NewWorld(procs), es, w);
    ReachableInv(procs, es, w);
    LayoutIsRightExactlyWhen(procs, es, w, slot);
  }

  lemma {:induction false} GenerationWithoutResize(w: World, es: seq<Event>, v: World)
    requires Run(w, es, v) && forall i | 0 <= i < |es| :: !(es[i].Paint? && es[i].resized)
    ensures v.generation == w.generation
    decreases |es|
  {
    if es != [] {
      GenerationWithoutResize(Step(w, es[0]), es[1..], v);
    }
  }

  /** A resize leaves the recorded layout of every slot used before it wrong, and no other. */
  lemma ResizeLeavesUsedLayoutsStale(procs: Procs, es: seq<Event>, w: World, next: Slot, slot: Slot)
    requires Reachable(procs, es, w) && w.phase.Idle?
    ensures Shaped(w)
    ensures var v := Step(w, Paint(next, true));
            v.o.layouts[slot] != RealLayout(v, Target(slot)) <==> w.lastGeneration[Target(slot)].Some?
  {
    ReachableInv(procs, es, w);
  }

  /** A run that reaches such a barrier: one frame through slot 1, a resize, and a second frame
      through slot 1 about to be submitted, its image being a new one. */
  lemma StaleLayoutIsReached(procs: Procs) returns (es: seq<Event>, w: World)
    ensures Reachable(procs, es, w) && w.phase == Submitting(1)
    ensures Shaped(w) && w.o.layouts[1] == ShaderReadOnly && RealLayout(w, Target(1)) == Undefined
  {
    var n := NewWorld(procs);
    var c;
    es, c := FirstFrame(procs);
    RunSnoc(n, es, c, Paint(1, true));
    es, w := es + [Paint(1, true)], Step(c, Paint(1, true));
    ReachableInv(procs, es, w);
    assert w.fences[Target(1)].None?;
    RunSnoc(n, es, w, FenceWait(true));
    es, w := es + [FenceWait(true)], Step(w, FenceWait(true));
    RunSnoc(n, es, w, PreviousWait(true));
    es, w := es + [PreviousWait(true)], Step(w, PreviousWait(true));
    RunSnoc(n, es, w, Record(true));
    es, w := es + [Record(true)], Step(w, Record(true));
  }

  // ---------------------------------------------------------------- the object

  class CopyOptimizer {
    var counter: nat
    var waitValue: nat
    const signaled: array<bool>
    const layouts: array<Layout>

    ghost function Now(): Optimizer
      reads this, signaled, layouts
    {
      Optimizer(counter, waitValue, signaled[..], layouts[..])
    }

    ghost predicate Valid()
      reads this, signaled, layouts
    {
      ShapedOptimizer(Now()) && waitValue == counter
    }

    constructor ()
      ensures Valid() && Now() == NEW_OPTIMIZER && fresh(signaled) && fresh(layouts)
    {
      counter, waitValue := 0, 0;
      signaled := new bool[POOL](_ => false);
      layouts := new Layout[POOL](_ => Undefined);
    }

    /** `inputsOk` is the outcome of the null and size checks, `timeline` the semaphore's value when
        it is read, and `waitOk`, `recordOk`, `submitOk` what the driver answers if it comes to that. */
    method ExecuteCopy(inputsOk: bool, slot: nat, image: nat, hasSemaphore: bool,
                       timeline: nat, waitOk: bool, recordOk: bool, submitOk: bool)
      returns (value: Option<nat>, signals: bool)
      requires Valid()
      modifies this, signaled, layouts
      ensures Valid()
      ensures value.Some? <==>
                && inputsOk && slot < 3 && image < 3
                && (timeline >= old(waitValue) || waitOk) && recordOk && submitOk
      ensures value.None? ==> Now() == old(Now()) && !signals
      ensures value.Some? ==>
                && Now() == SubmitOptimizer(old(Now()), slot, image, true, hasSemaphore)
                && value.value == old(counter) + 1
                && (signals <==> hasSemaphore && !old(signaled[image]))
                && counter == waitValue == old(counter) + 1 && layouts[slot] == ShaderReadOnly
                && (signaled[image] <==> hasSemaphore || old(signaled[image]))
    {
      if slot >= POOL || image >= POOL || !inputsOk {
        return None, false;
      }
      if waitValue > 0 && timeline < waitValue && !waitOk {
        return None, false;
      }
      if !recordOk {
        return None, false;
      }
      counter := counter + 1;
      waitValue := counter;
      signals := hasSemaphore && !signaled[image];
      if !submitOk {
        counter := counter - 1;
        waitValue := counter;
        return None, false;
      }
      layouts[slot] := ShaderReadOnly;
      if signals {
        signaled[image] := true;
      }
      return Some(waitValue), signals;
    }

    method ClearGlSignal(image: nat)
      requires Valid()
      modifies signaled
      ensures Valid()
      ensures Now() == if image < 3 then old(Now()).(signaled := old(Now()).signaled[image := false]) else old(Now())
    {
      if image < POOL {
        signaled[image] := false;
      }
    }

    method IsSlotSignaled(image: nat) returns (r: bool)
      requires Valid()
      ensures r <==> image < 3 && Now().signaled[image]
    {
      r := image < POOL && signaled[image];
    }
  }
}
