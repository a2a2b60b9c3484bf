/** The healing log: any number of producers push records into a bounded queue, one writer thread
    moves them in batches into a database, and a shutdown waits for the writer's last batch.
    Each event is one step of some thread; the steps interleave in any way. */
module HealingLog {

  const QUEUE_CAP: nat := 256

  datatype Record = Record(
    ts: nat, actionId: nat, ruleId: string, metricId: nat, currentValue: int, threshold: int,
    actionType: nat, outcome: nat, mode: nat)

  /** `Absent` before the start and when no thread could be made. */
  datatype Writer =
    | Absent
    | Opening
    | Sleeping
    | Draining(stopping: bool)
    | Inserting(stopping: bool)
    | Exited

  /** How far the start has come: the queue is there first, then the thread, then the handle by
      which a shutdown finds it. */
  datatype Startup = NotStarted | QueueSet | Spawned | Complete

  datatype Log = Log(
    startup: Startup, queue: seq<Record>, batch: seq<Record>, writer: Writer,
    control: bool, stop: bool, joining: bool, dropped: nat)

  datatype Batch = Batch(records: seq<Record>, written: bool)

  /** What happened so far; no step reads it. `mark` counts the records accepted before the stop
      flag was raised, `refused` the records turned away. */
  datatype History = History(accepted: seq<Record>, batches: seq<Batch>, dbOpen: bool, mark: nat, refused: nat)

  datatype World = World(l: Log, h: History)

  datatype Event =
    | LogHealing(rec: Record)
    | StartWriter
    | Spawn(ok: bool)
    | KeepControl
    | Open(ok: bool)
    | Wake
    | Pop
    | Insert(ok: bool)
    | Shutdown
    | Joined

  const NEW := World(Log(NotStarted, [], [], Absent, false, false, false, 0), History([], [], false, 0, 0))

  predicate Enabled(l: Log, e: Event) {
    match e
    case LogHealing(_) => true
    case StartWriter => true
    case Spawn(_) => l.startup.QueueSet?
    case KeepControl => l.startup.Spawned?
    case Open(_) => l.writer.Opening?
    case Wake => l.writer.Sleeping?
    case Pop => l.writer.Draining?
    case Insert(_) => l.writer.Inserting?
    case Shutdown => true
    case Joined => l.joining && l.writer.Exited?
  }

  /** Without a queue the record is gone uncounted; a full queue counts it. */
  function PushRecord(w: World, rec: Record): World {
    var refused := w.h.(refused := w.h.refused + 1);
    if w.l.startup.NotStarted? then w.(h := refused)
    else if |w.l.queue| >= QUEUE_CAP then World(w.l.(dropped := w.l.dropped + 1), refused)
    else World(w.l.(queue := w.l.queue + [rec]), w.h.(accepted := w.h.accepted + [rec]))
  }

  /** Only the first start does anything. */
  function Start(w: World): World {
    if w.l.startup.NotStarted? then w.(l := w.l.(startup := QueueSet)) else w
  }

  /** Without a thread there is no handle to keep. */
  function SpawnThread(w: World, ok: bool): World {
    w.(l := if ok then w.l.(startup := Spawned, writer := Opening) else w.l.(startup := Complete))
  }

  /** The writer takes one record; it stops at an empty queue or a full batch. */
  function PopRecord(w: World): World
    requires w.l.writer.Draining?
  {
    var done := Inserting(w.l.writer.stopping);
    if w.l.queue == [] then w.(l := w.l.(writer := done))
    else
      var batch := w.l.batch + [w.l.queue[0]];
      w.(l := w.l.(queue := w.l.queue[1..], batch := batch, writer := if |batch| >= QUEUE_CAP then done else w.l.writer))
  }

  /** One transaction: the whole batch is written or none of it. An empty batch is not tried. */
  function InsertBatch(w: World, ok: bool): World
    requires w.l.writer.Inserting?
  {
    var l := w.l.(writer := if w.l.writer.stopping then Exited else Sleeping);
    if w.l.batch == [] then w.(l := l)
    else World(l, w.h.(batches := w.h.batches + [Batch(w.l.batch, ok)]))
  }

  /** The first call takes the control handle; later ones find none and return at once. */
  function CallShutdown(w: World): World {
    if !w.l.control then w
    else World(w.l.(control := false, stop := true, joining := true), w.h.(mark := |w.h.accepted|))
  }

  function Step(w: World, e: Event): World
    requires Enabled(w.l, e)
  {
    match e
    case LogHealing(rec) => PushRecord(w, rec)
    case StartWriter => Start(w)
    case Spawn(ok) => SpawnThread(w, ok)
    case KeepControl => w.(l := w.l.(startup := Complete, control := true))
    case Open(ok) => World(w.l.(writer := if ok then Sleeping else Exited), w.h.(dbOpen := ok))
    case Wake => w.(l := w.l.(writer := Draining(w.l.stop), batch := []))
    case Pop => PopRecord(w)
    case Insert(ok) => InsertBatch(w, ok)
    case Shutdown => CallShutdown(w)
    case Joined => w.(l := w.l.(joining := false))
  }

  predicate Run(w: World, es: seq<Event>, v: World)
    decreases |es|
  {
    if es == [] then v == w else Enabled(w.l, es[0]) && Run(Step(w, es[0]), es[1..], v)
  }

  // ---------------------------------------------------------------- order and conservation

  /** All records taken in finished batches, in order. */
  function Flat(bs: seq<Batch>): seq<Record> {
    if bs == [] then [] else Flat(bs[..|bs| - 1]) + bs[|bs| - 1].records
  }

  /** The rows of the database, in order. */
  function Rows(bs: seq<Batch>): seq<Record> {
    if bs == [] then []
    else Rows(bs[..|bs| - 1]) + if bs[|bs| - 1].written then bs[|bs| - 1].records else []
  }

  /** Records popped and not yet passed to the database. */
  function InHand(l: Log): seq<Record> {
    if l.writer.Draining? || l.writer.Inserting? then l.batch else []
  }

  predicate Ordered(w: World) {
    && w.h.accepted == Flat(w.h.batches) + InHand(w.l) + w.l.queue
    && |w.l.queue| <= QUEUE_CAP
    && (w.l.startup.NotStarted? ==> w.l.queue == [])
    && (w.l.startup.NotStarted? || w.l.startup.QueueSet? ==> w.l.writer.Absent?)
    && (w.l.startup.Spawned? ==> !w.l.writer.Absent?)
    && (w.l.writer.Draining? ==> |w.l.batch| < QUEUE_CAP)
    && |w.l.batch| <= QUEUE_CAP
    && (w.l.stop ==> w.l.startup.Complete? && !w.l.writer.Absent?)
    && (w.l.control <==> w.l.startup.Complete? && !w.l.writer.Absent? && !w.l.stop)
    && (w.l.writer.Sleeping? || w.l.writer.Draining? || w.l.writer.Inserting? ==> w.h.dbOpen)
    && (w.l.writer.Absent? || w.l.writer.Opening? ==> !w.h.dbOpen)
    && (!w.h.dbOpen ==> w.h.batches == [])
    && (forall i | 0 <= i < |w.h.batches| :: w.h.batches[i].records != [])
  }

  /** What the stop flag obliges the writer to have in hand. */
  predicate Flushing(w: World) {
    var done := |Flat(w.h.batches)|;
    && w.h.mark <= |w.h.accepted|
    && (w.l.joining ==> w.l.stop)
    && (w.l.writer.Exited? && w.h.dbOpen ==> w.l.stop && w.h.mark <= done)
    && (w.l.writer.Draining? && w.l.writer.stopping ==> w.l.stop && w.h.mark <= done + QUEUE_CAP)
    && (w.l.writer.Inserting? && w.l.writer.stopping ==> w.l.stop && w.h.mark <= done + |w.l.batch|)
  }

  predicate Inv(w: World) { Ordered(w) && Flushing(w) }

  lemma Append(a: seq<Record>, b: seq<Record>, rec: Record)
    ensures a + (b + [rec]) == a + b + [rec]
  {}

  lemma PushKeepsInv(w: World, rec: Record)
    requires Inv(w)
    ensures Inv(PushRecord(w, rec))
  {
    Append(Flat(w.h.batches) + InHand(w.l), w.l.queue, rec);
  }

  lemma PopKeepsInv(w: World)
    requires Inv(w) && w.l.writer.Draining?
    ensures Inv(PopRecord(w))
  {
    if w.l.queue != [] {
      assert Flat(w.h.batches) + (w.l.batch + [w.l.queue[0]]) + w.l.queue[1..] == w.h.accepted;
    }
  }

  lemma InsertKeepsInv(w: World, ok: bool)
    requires Inv(w) && w.l.writer.Inserting?
    ensures Inv(InsertBatch(w, ok))
  {
    var bs := w.h.batches;
    assert (bs + [Batch(w.l.batch, ok)])[..|bs|] == bs;
    assert Flat(bs) + [] + w.l.queue == Flat(bs) + w.l.queue;
    assert w.l.batch == [] ==> Flat(bs) + w.l.batch == Flat(bs);
    assert Flat(bs) + w.l.batch + [] == Flat(bs) + w.l.batch;
  }

  lemma StepKeepsInv(w: World, e: Event)
    requires Inv(w) && Enabled(w.l, e)
    ensures Inv(Step(w, e))
  {
    match e
    case LogHealing(rec) => PushKeepsInv(w, rec);
    case Pop => PopKeepsInv(w);
    case Insert(ok) => InsertKeepsInv(w, ok);
    case _ =>
  }

  lemma {:induction false} RunKeepsInv(w: World, es: seq<Event>, v: World)
    requires Inv(w) && Run(w, es, v)
    ensures Inv(v)
    decreases |es|
  {
    if es != [] {
      StepKeepsInv(w, es[0]);
      RunKeepsInv(Step(w, es[0]), es[1..], v);
    }
  }

  lemma {:induction false} RunConcat(w: World, es: seq<Event>, u: World, fs: seq<Event>, v: World)
    requires Run(w, es, u) && Run(u, fs, v)
    ensures Run(w, es + fs, v)
    decreases |es|
  {
    if es == [] {
      assert es + fs == fs;
    } else {
      RunConcat(Step(w, es[0]), es[1..], u, fs, v);
      assert (es + fs)[1..] == es[1..] + fs;
    }
  }

  /** Nothing accepted is ever lost or reordered on the way: the records of the finished batches,
      then the batch in hand, then the queue are the accepted records in order. */
  lemma AcceptedStayInOrder(es: seq<Event>, w: World)
    requires Run(NEW, es, w)
    ensures w.h.accepted == Flat(w.h.batches) + InHand(w.l) + w.l.queue
    ensures |w.l.queue| <= 256 && |InHand(w.l)| <= 256
  {
    RunKeepsInv(NEW, es, w);
  }

  // ---------------------------------------------------------------- the flush at shutdown

  predicate AllWritten(bs: seq<Batch>) {
    forall i | 0 <= i < |bs| :: bs[i].written
  }

  lemma {:induction false} RowsOfWritten(bs: seq<Batch>)
    requires AllWritten(bs)
    ensures Rows(bs) == Flat(bs)
  {
    if bs != [] {
      assert AllWritten(bs[..|bs| - 1]);
      RowsOfWritten(bs[..|bs| - 1]);
    }
  }

  predicate NoInsertFails(es: seq<Event>) {
    forall i | 0 <= i < |es| :: es[i] != Insert(false)
  }

  lemma {:induction false} SuccessfulRun(w: World, es: seq<Event>, v: World)
    requires Run(w, es, v) && AllWritten(w.h.batches)
    requires NoInsertFails(es)
    ensures AllWritten(v.h.batches)
    decreases |es|
  {
    if es != [] {
      assert AllWritten(Step(w, es[0]).h.batches);
      SuccessfulRun(Step(w, es[0]), es[1..], v);
    }
  }

  lemma {:induction false} RunGrows(w: World, es: seq<Event>, v: World)
    requires Inv(w) && Run(w, es, v)
    ensures w.h.accepted <= v.h.accepted
    ensures w.l.stop ==> v.l.stop && v.h.mark == w.h.mark
    decreases |es|
  {
    if es != [] {
      StepKeepsInv(w, es[0]);
      RunGrows(Step(w, es[0]), es[1..], v);
    }
  }

  /** A shutdown that returns has flushed: with the database open and every insertion successful,
      all records accepted before it began are rows, in order, whatever producers pushed meanwhile. */
  lemma ShutdownFlushes(es: seq<Event>, u: World, fs: seq<Event>, w: World)
    requires Run(NEW, es, u) && u.l.control
    requires Run(Step(u, Shutdown), fs, w) && Enabled(w.l, Joined)
    requires w.h.dbOpen
    requires NoInsertFails(es) && NoInsertFails(fs)
    ensures u.h.accepted <= Rows(w.h.batches)
  {
    RunKeepsInv(NEW, es, u);
    SuccessfulRun(NEW, es, u);
    ShutdownFlushesFrom(u, fs, w);
  }

  lemma ShutdownFlushesFrom(u: World, fs: seq<Event>, w: World)
    requires Inv(u) && u.l.control && AllWritten(u.h.batches)
    requires Run(CallShutdown(u), fs, w) && NoInsertFails(fs)
    requires w.l.writer.Exited? && w.h.dbOpen
    ensures u.h.accepted <= Rows(w.h.batches)
  {
    StepKeepsInv(u, Shutdown);
    SuccessfulRun(CallShutdown(u), fs, w);
    RowsOfWritten(w.h.batches);
    StoppedRunFlushes(CallShutdown(u), fs, w);
  }

  lemma StoppedRunFlushes(s: World, fs: seq<Event>, w: World)
    requires Inv(s) && s.l.stop && s.h.mark == |s.h.accepted|
    requires Run(s, fs, w) && w.l.writer.Exited? && w.h.dbOpen
    ensures s.h.accepted <= Flat(w.h.batches)
  {
    RunKeepsInv(s, fs, w);
    RunGrows(s, fs, w);
    PrefixOf(s.h.accepted, Flat(w.h.batches), w.h.accepted);
  }

  lemma PrefixOf(a: seq<Record>, b: seq<Record>, all: seq<Record>)
    requires a <= all && b <= all && |a| <= |b|
    ensures a <= b
  {
    assert all[..|b|][..|a|] == all[..|a|];
  }

  /** A call of shutdown in world `u` that returns in world `w`: with the handle there it joins the
      writer, whatever the steps `fs` in between, and without it returns at once. */
  predicate ShutdownReturns(u: World, fs: seq<Event>, w: World) {
    if u.l.control then Run(CallShutdown(u), fs, w) && Enabled(w.l, Joined) else w == u
  }

  /** Whether the call finds something to wait for that will empty the queue, or nothing to empty. */
  predicate FlushIsDue(u: World, w: World) {
    (u.l.control && w.h.dbOpen) || InHand(u.l) + u.l.queue == []
  }

  lemma WaitingShutdown(u: World, fs: seq<Event>, w: World)
    requires Inv(u) && u.l.control && ShutdownReturns(u, fs, w)
    ensures Inv(w) && u.h.accepted <= w.h.accepted
    ensures w.h.dbOpen ==> u.h.accepted <= Flat(w.h.batches)
    ensures !w.h.dbOpen ==> w.h.batches == []
  {
    StepKeepsInv(u, Shutdown);
    RunKeepsInv(CallShutdown(u), fs, w);
    RunGrows(CallShutdown(u), fs, w);
    if w.h.dbOpen {
      StoppedRunFlushes(CallShutdown(u), fs, w);
    }
  }

  /** The database once open stays so. */
  lemma {:induction false} OpenStaysOpen(w: World, es: seq<Event>, v: World)
    requires Inv(w) && Run(w, es, v)
    ensures w.h.dbOpen ==> v.h.dbOpen
    decreases |es|
  {
    if es != [] {
      StepKeepsInv(w, es[0]);
      OpenStaysOpen(Step(w, es[0]), es[1..], v);
    }
  }

  /** Over every run, insertions failing or not: when a shutdown returns, the records accepted before
      it have all been passed to the database in order exactly when the call found the handle and
      the database could be opened, or there was nothing in hand or queued. */
  lemma ShutdownHandsOverExactlyWhen(es: seq<Event>, u: World, fs: seq<Event>, w: World)
    requires Run(NEW, es, u) && ShutdownReturns(u, fs, w)
    ensures u.h.accepted <= Flat(w.h.batches) <==> FlushIsDue(u, w)
  {
    RunKeepsInv(NEW, es, u);
    HandedOverWhenIdle(u);
    if u.l.control {
      WaitingShutdown(u, fs, w);
      StepKeepsInv(u, Shutdown);
      OpenStaysOpen(CallShutdown(u), fs, w);
      if !w.h.dbOpen {
        assert u.h.batches == [];
      }
    }
  }

  lemma HandedOverWhenIdle(u: World)
    requires Ordered(u)
    ensures u.h.accepted <= Flat(u.h.batches) <==> InHand(u.l) + u.l.queue == []
  {
    assert |u.h.accepted| == |Flat(u.h.batches)| + |InHand(u.l)| + |u.l.queue|;
    if InHand(u.l) + u.l.queue == [] {
      assert u.h.accepted == Flat(u.h.batches);
    }
  }

  /** With successful insertions the same is exact for the rows: when a shutdown returns, the records
      accepted before it are on disk exactly under that condition. The handle is there exactly when
      the start is complete with a thread and no shutdown came before. */
  lemma ShutdownFlushesExactlyWhen(es: seq<Event>, u: World, fs: seq<Event>, w: World)
    requires Run(NEW, es, u) && ShutdownReturns(u, fs, w)
    requires NoInsertFails(es) && NoInsertFails(fs)
    ensures u.h.accepted <= Rows(w.h.batches) <==> FlushIsDue(u, w)
    ensures u.l.control <==> u.l.startup.Complete? && !u.l.writer.Absent? && !u.l.stop
  {
    RunKeepsInv(NEW, es, u);
    SuccessfulRun(NEW, es, u);
    if u.l.control {
      SuccessfulRun(CallShutdown(u), fs, w);
    }
    RowsOfWritten(w.h.batches);
    ShutdownHandsOverExactlyWhen(es, u, fs, w);
  }

  lemma {:induction false} RowsAtMost(bs: seq<Batch>)
    requires forall i | 0 <= i < |bs| :: bs[i].records != []
    ensures |Rows(bs)| <= |Flat(bs)|
    ensures |Rows(bs)| == |Flat(bs)| ==> AllWritten(bs)
  {
    if bs != [] {
      RowsAtMost(bs[..|bs| - 1]);
      assert forall i | 0 <= i < |bs| - 1 :: bs[..|bs| - 1][i] == bs[i];
    }
  }

  /** What was passed to the database is on disk exactly when no insertion failed. */
  lemma RowsAreCompleteExactlyWhen(es: seq<Event>, w: World)
    requires Run(NEW, es, w)
    ensures Rows(w.h.batches) == Flat(w.h.batches) <==> AllWritten(w.h.batches)
  {
    RunKeepsInv(NEW, es, w);
    RowsAtMost(w.h.batches);
    if AllWritten(w.h.batches) {
      RowsOfWritten(w.h.batches);
    }
  }

  /** How many steps of its own the writer takes at most before it exits, once asked to stop. */
  function StepsLeft(l: Log): nat
    requires |l.batch| <= QUEUE_CAP
  {
    match l.writer
    case Absent => 0
    case Opening => 2 * QUEUE_CAP
    case Sleeping => QUEUE_CAP + 3
    case Draining(stopping) => QUEUE_CAP - |l.batch| + 2 + if stopping then 0 else QUEUE_CAP + 3
    case Inserting(stopping) => if stopping then 1 else QUEUE_CAP + 4
    case Exited => 0
  }

  predicate IsWriterStep(e: Event) { e.Open? || e.Wake? || e.Pop? || e.Insert? }

  /** After the stop flag no producer can keep the writer from its end: its own steps bring it
      nearer, no other step moves it away, and it always has a step to take. */
  lemma ShutdownTerminates(w: World, e: Event)
    requires Inv(w) && w.l.stop && Enabled(w.l, e)
    ensures var v := Step(w, e);
            && |v.l.batch| <= QUEUE_CAP
            && (IsWriterStep(e) ==> StepsLeft(v.l) < StepsLeft(w.l))
            && (!IsWriterStep(e) ==> StepsLeft(v.l) == StepsLeft(w.l))
    ensures StepsLeft(w.l) == 0 ==> w.l.writer.Exited?
    ensures !w.l.writer.Exited? ==> exists f :: IsWriterStep(f) && Enabled(w.l, f)
  {
    StepKeepsInv(w, e);
    match w.l.writer
    case Absent =>
    case Opening => assert Enabled(w.l, Open(true));
    case Sleeping => assert Enabled(w.l, Wake);
    case Draining(_) => assert Enabled(w.l, Pop);
    case Inserting(_) => assert Enabled(w.l, Insert(true));
    case Exited =>
  }

  // ---------------------------------------------------------------- what is not counted

  /** A record that is turned away is counted exactly when there is a queue and it is full. */
  lemma LossIsCountedExactlyWhen(w: World, rec: Record)
    requires Inv(w)
    ensures var v := PushRecord(w, rec);
            && (v.l.dropped == w.l.dropped + 1 <==> !w.l.startup.NotStarted? && |w.l.queue| == 256)
            && (v.h.accepted == w.h.accepted + [rec] <==> !w.l.startup.NotStarted? && |w.l.queue| < 256)
            && (v.h.refused == w.h.refused + 1 <==> w.l.startup.NotStarted? || |w.l.queue| == 256)
  {
    assert |w.h.accepted + [rec]| == |w.h.accepted| + 1;
  }

  /** Records pushed before the queue is there. */
  function EarlyPushes(es: seq<Event>): nat {
    if es == [] || es[0].StartWriter? then 0 else (if es[0].LogHealing? then 1 else 0) + EarlyPushes(es[1..])
  }

  lemma StepLosses(w: World, e: Event)
    requires Inv(w) && Enabled(w.l, e)
    ensures var v, pushed := Step(w, e), if e.LogHealing? then 1 else 0;
            && |v.h.accepted| + v.h.refused == |w.h.accepted| + w.h.refused + pushed
            && v.h.refused - v.l.dropped == w.h.refused - w.l.dropped + (if w.l.startup.NotStarted? then pushed else 0)
            && (v.l.startup.NotStarted? <==> w.l.startup.NotStarted? && !e.StartWriter?)
  {
    if e.LogHealing? {
      LossIsCountedExactlyWhen(w, e.rec);
    }
  }

  lemma {:induction false} LossesFrom(w: World, es: seq<Event>, v: World)
    requires Inv(w) && Run(w, es, v)
    ensures |v.h.accepted| + v.h.refused == |w.h.accepted| + w.h.refused + Pushes(es)
    ensures v.h.refused - v.l.dropped
            == w.h.refused - w.l.dropped + if w.l.startup.NotStarted? then EarlyPushes(es) else 0
    decreases |es|
  {
    if es != [] {
      StepKeepsInv(w, es[0]);
      StepLosses(w, es[0]);
      LossesFrom(Step(w, es[0]), es[1..], v);
    }
  }

  /** Over every run each push is accepted or turned away, and those turned away are counted as
      dropped except for those that came before the start. */
  lemma LossesAreCountedExceptEarlyOnes(es: seq<Event>, w: World)
    requires Run(NEW, es, w)
    ensures |w.h.accepted| + w.h.refused == Pushes(es)
    ensures w.h.refused == w.l.dropped + EarlyPushes(es)
  {
    LossesFrom(NEW, es, w);
  }

  /** There is no writer any more, or there never was one. */
  predicate WriterGone(l: Log) {
    l.writer.Exited? || (l.startup.Complete? && l.writer.Absent?)
  }

  lemma {:induction false} NothingWrittenAfterExit(w: World, es: seq<Event>, v: World)
    requires Inv(w) && WriterGone(w.l) && Run(w, es, v)
    ensures WriterGone(v.l) && v.h.batches == w.h.batches
    ensures w.l.queue <= v.l.queue
    ensures |v.l.queue| - |w.l.queue| + v.l.dropped - w.l.dropped == Pushes(es)
    ensures |v.l.queue| == Min(|w.l.queue| + Pushes(es), 256)
    decreases |es|
  {
    if es != [] {
      StepKeepsInv(w, es[0]);
      NothingWrittenAfterExit(Step(w, es[0]), es[1..], v);
    }
  }

  /** Records pushed when the writer is gone are all counted as dropped exactly when its last batch
      left the queue full or there is none of them. */
  lemma LatePushesAreCountedExactlyWhen(w: World, es: seq<Event>, v: World)
    requires Inv(w) && WriterGone(w.l) && Run(w, es, v)
    ensures v.l.dropped == w.l.dropped + Pushes(es) <==> |w.l.queue| == 256 || Pushes(es) == 0
  {
    NothingWrittenAfterExit(w, es, v);
  }

  /** Every push of the run finds the queue full. */
  predicate FullAtEachPush(w: World, es: seq<Event>, v: World)
    requires Run(w, es, v)
    decreases |es|
  {
    es != [] ==>
      && (es[0].LogHealing? ==> |w.l.queue| == 256)
      && FullAtEachPush(Step(w, es[0]), es[1..], v)
  }

  /** Once the queue is there, and also while a writer is still at work behind a shutdown that has
      returned: pushes are all counted exactly when each finds the queue full. */
  lemma {:induction false} PushesAreCountedExactlyWhen(w: World, es: seq<Event>, v: World)
    requires Inv(w) && !w.l.startup.NotStarted? && Run(w, es, v)
    ensures v.l.dropped <= w.l.dropped + Pushes(es)
    ensures v.l.dropped == w.l.dropped + Pushes(es) <==> FullAtEachPush(w, es, v)
    decreases |es|
  {
    if es != [] {
      StepKeepsInv(w, es[0]);
      PushesAreCountedExactlyWhen(Step(w, es[0]), es[1..], v);
    }
  }

  lemma RunSnoc(w: World, es: seq<Event>, u: World, e: Event)
    requires Run(w, es, u) && Enabled(u.l, e)
    ensures Run(w, es + [e], Step(u, e))
  {
    assert [e][1..] == [];
    RunConcat(w, es, u, [e], Step(u, e));
  }

  /** A run up to the writer's regular end, with nothing to write. */
  lemma QuietLifetime() returns (es: seq<Event>, w: World)
    ensures Run(NEW, es, w) && w.l.writer.Exited? && w.h.dbOpen && w.l.stop
    ensures w.l.queue == [] && w.l.dropped == 0 && !w.l.startup.NotStarted?
  {
    es, w := [], NEW;
    RunSnoc(NEW, es, w, StartWriter);
    es, w := es + [StartWriter], Step(w, StartWriter);
    RunSnoc(NEW, es, w, Spawn(true));
    es, w := es + [Spawn(true)], Step(w, Spawn(true));
    RunSnoc(NEW, es, w, KeepControl);
    es, w := es + [KeepControl], Step(w, KeepControl);
    RunSnoc(NEW, es, w, Open(true));
    es, w := es + [Open(true)], Step(w, Open(true));
    RunSnoc(NEW, es, w, Shutdown);
    es, w := es + [Shutdown], Step(w, Shutdown);
    RunSnoc(NEW, es, w, Wake);
    es, w := es + [Wake], Step(w, Wake);
    RunSnoc(NEW, es, w, Pop);
    es, w := es + [Pop], Step(w, Pop);
    RunSnoc(NEW, es, w, Insert(true));
    es, w := es + [Insert(true)], Step(w, Insert(true));
  }

  /** A push after a regular shutdown that is accepted, not counted, and never written however the
      run goes on. */
  lemma LatePushIsLostUncounted(rec: Record) returns (es: seq<Event>, w: World)
    ensures Run(NEW, es, w) && w.l.writer.Exited? && w.l.stop
    ensures w.h.accepted == Flat(w.h.batches) + [rec] && w.l.queue == [rec] && w.l.dropped == 0
    ensures forall fs, v | Run(w, fs, v) :: v.h.batches == w.h.batches
  {
    var u;
    es, u := QuietLifetime();
    RunSnoc(NEW, es, u, LogHealing(rec));
    es, w := es + [LogHealing(rec)], Step(u, LogHealing(rec));
    RunKeepsInv(NEW, es, w);
    forall fs, v | Run(w, fs, v) ensures v.h.batches == w.h.batches {
      NothingWrittenAfterExit(w, fs, v);
    }
  }

  /** A start up to its handle. */
  lemma Started() returns (es: seq<Event>, w: World)
    ensures Run(NEW, es, w) && w.l.control && w.l.writer.Opening? && w.l.queue == [] && w.h.accepted == []
    ensures NoInsertFails(es)
  {
    es, w := [], NEW;
    RunSnoc(NEW, es, w, StartWriter);
    es, w := es + [StartWriter], Step(w, StartWriter);
    RunSnoc(NEW, es, w, Spawn(true));
    es, w := es + [Spawn(true)], Step(w, Spawn(true));
    RunSnoc(NEW, es, w, KeepControl);
    es, w := es + [KeepControl], Step(w, KeepControl);
  }

  /** A shutdown in the middle of the start returns at once, with an accepted record unwritten. */
  lemma EarlyShutdownDoesNotFlush(rec: Record) returns (es: seq<Event>, w: World)
    ensures Run(NEW, es, w) && w.l.writer.Opening? && w.h.accepted == [rec] && Rows(w.h.batches) == []
    ensures ShutdownReturns(w, [], w) && !w.l.joining
  {
    es, w := [], NEW;
    RunSnoc(NEW, es, w, StartWriter);
    es, w := es + [StartWriter], Step(w, StartWriter);
    RunSnoc(NEW, es, w, LogHealing(rec));
    es, w := es + [LogHealing(rec)], Step(w, LogHealing(rec));
    RunSnoc(NEW, es, w, Spawn(true));
    es, w := es + [Spawn(true)], Step(w, Spawn(true));
  }

  /** A second shutdown while the first is still joining finds the handle taken and returns at once,
      with an accepted record unwritten. */
  lemma SecondShutdownDoesNotFlush(rec: Record) returns (es: seq<Event>, w: World)
    ensures Run(NEW, es, w) && w.l.joining && w.h.accepted == [rec] && Rows(w.h.batches) == []
    ensures ShutdownReturns(w, [], w)
  {
    es, w := Started();
    RunSnoc(NEW, es, w, LogHealing(rec));
    es, w := es + [LogHealing(rec)], Step(w, LogHealing(rec));
    RunSnoc(NEW, es, w, Shutdown);
    es, w := es + [Shutdown], Step(w, Shutdown);
    RunKeepsInv(NEW, es, w);
  }

  /** A shutdown that waits for a writer whose database cannot be opened returns with an accepted
      record unwritten. */
  lemma ShutdownWithoutDatabase(rec: Record) returns (es: seq<Event>, u: World, fs: seq<Event>, w: World)
    ensures Run(NEW, es, u) && u.l.control && u.h.accepted == [rec]
    ensures ShutdownReturns(u, fs, w) && Rows(w.h.batches) == []
  {
    es, u := Started();
    RunSnoc(NEW, es, u, LogHealing(rec));
    es, u := es + [LogHealing(rec)], Step(u, LogHealing(rec));
    RunKeepsInv(NEW, es, u);
    fs, w := [Open(false)], Step(CallShutdown(u), Open(false));
    assert fs[1..] == [];
  }

  /** A push after a shutdown that found no thread: it is accepted, uncounted and never written. */
  lemma PushWithoutThreadIsLostUncounted(rec: Record) returns (es: seq<Event>, w: World)
    ensures Run(NEW, es, w) && w.l.writer.Absent? && Shutdown in es
    ensures w.h.accepted == [rec] && w.l.dropped == 0
    ensures forall fs, v | Run(w, fs, v) :: v.h.batches == []
  {
    es, w := [], NEW;
    RunSnoc(NEW, es, w, StartWriter);
    es, w := es + [StartWriter], Step(w, StartWriter);
    RunSnoc(NEW, es, w, Spawn(false));
    es, w := es + [Spawn(false)], Step(w, Spawn(false));
    RunSnoc(NEW, es, w, Shutdown);
    es, w := es + [Shutdown], Step(w, Shutdown);
    RunSnoc(NEW, es, w, LogHealing(rec));
    assert es[|es| - 1] == Shutdown;
    es, w := es + [LogHealing(rec)], Step(w, LogHealing(rec));
    RunKeepsInv(NEW, es, w);
    forall fs, v | Run(w, fs, v) ensures v.h.batches == [] {
      NothingWrittenAfterExit(w, fs, v);
    }
  }

  function Min(a: nat, b: nat): nat { if a < b then a else b }

  function Pushes(es: seq<Event>): nat {
    if es == [] then 0 else (if es[0].LogHealing? then 1 else 0) + Pushes(es[1..])
  }

  // ---------------------------------------------------------------- one turn of the writer's loop

  /** The end of a drain in which no producer interferes. */
  function Drained(w: World): World
    requires Inv(w) && w.l.writer.Draining?
  {
    var n := Min(QUEUE_CAP - |w.l.batch|, |w.l.queue|);
    w.(l := w.l.(batch := w.l.batch + w.l.queue[..n], queue := w.l.queue[n..], writer := Inserting(w.l.writer.stopping)))
  }

  lemma {:induction false} DrainedIsReached(w: World) returns (es: seq<Event>)
    requires Inv(w) && w.l.writer.Draining?
    ensures Run(w, es, Drained(w))
    decreases |w.l.queue|
  {
    var v := PopRecord(w);
    PopKeepsInv(w);
    es := [Pop];
    assert es[1..] == [];
    if w.l.queue == [] {
      assert w.l.batch + [] == w.l.batch;
    } else if v.l.writer.Draining? {
      var rest := DrainedIsReached(v);
      DrainedStep(w);
      es := [Pop] + rest;
      assert es[1..] == rest;
    } else {
      assert w.l.queue[..1] == [w.l.queue[0]];
    }
  }

  lemma DrainedStep(w: World)
    requires Inv(w) && w.l.writer.Draining? && w.l.queue != []
    requires Inv(PopRecord(w)) && PopRecord(w).l.writer.Draining?
    ensures Drained(PopRecord(w)) == Drained(w)
  {
    var n := Min(QUEUE_CAP - |w.l.batch|, |w.l.queue|);
    assert w.l.queue[..n] == [w.l.queue[0]] + w.l.queue[1..][..n - 1];
    assert w.l.queue[n..] == w.l.queue[1..][n - 1..];
    assert w.l.batch + ([w.l.queue[0]] + w.l.queue[1..][..n - 1]) == w.l.batch + [w.l.queue[0]] + w.l.queue[1..][..n - 1];
  }

  /** A whole turn: the oldest records, 256 at most, leave the queue as one batch. */
  function Turn(w: World, ok: bool): World
    requires |w.l.queue| <= QUEUE_CAP
  {
    var l := w.l.(batch := w.l.queue, queue := [], writer := if w.l.stop then Exited else Sleeping);
    World(l, if w.l.queue == [] then w.h else w.h.(batches := w.h.batches + [Batch(w.l.queue, ok)]))
  }

  lemma TurnIsReached(w: World, ok: bool) returns (es: seq<Event>)
    requires Inv(w) && w.l.writer.Sleeping?
    ensures Run(w, es, Turn(w, ok))
  {
    var v := Step(w, Wake);
    StepKeepsInv(w, Wake);
    var drain := DrainedIsReached(v);
    var u := Drained(v);
    assert u.l.batch == w.l.queue && u.l.queue == [];
    var last := [Insert(ok)];
    assert last[1..] == [];
    assert Run(u, last, Turn(w, ok));
    RunConcat(v, drain, u, last, Turn(w, ok));
    es := [Wake] + (drain + last);
    assert es[1..] == drain + last;
  }

  class HealingLog {
    var startup: Startup
    var queue: seq<Record>
    var batch: seq<Record>
    var writer: Writer
    var control: bool
    var stop: bool
    var joining: bool
    var dropped: nat
    ghost var history: History

    ghost function Now(): World
      reads this
    {
      World(Log(startup, queue, batch, writer, control, stop, joining, dropped), history)
    }

    constructor ()
      ensures Now() == NEW && Inv(Now())
    {
      startup, queue, batch, writer := NotStarted, [], [], Absent;
      control, stop, joining, dropped := false, false, false, 0;
      history := NEW.h;
    }

    method LogHealing(rec: Record)
      requires Inv(Now())
      modifies this`queue, this`dropped, this`history
      ensures Now() == PushRecord(old(Now()), rec) && Inv(Now())
    {
      PushKeepsInv(Now(), rec);
      if startup.NotStarted? {
        history := history.(refused := history.refused + 1);
        return;
      }
      if |queue| < QUEUE_CAP {
        queue := queue + [rec];
        history := history.(accepted := history.accepted + [rec]);
      } else {
        dropped := dropped + 1;
        history := history.(refused := history.refused + 1);
      }
    }

    /** The start up to its thread; `ok` is whether the system provides one. */
    method StartWriter(ok: bool)
      requires Inv(Now())
      modifies this`startup, this`writer, this`control
      ensures Inv(Now())
      ensures !old(startup).NotStarted? ==> Now() == old(Now())
      ensures old(startup).NotStarted? ==>
                Now() == var v := SpawnThread(Start(old(Now())), ok); if ok then Step(v, KeepControl) else v
    {
      if !startup.NotStarted? {
        return;
      }
      startup := QueueSet;
      if ok {
        startup, writer := Spawned, Opening;
        startup, control := Complete, true;
      } else {
        startup := Complete;
      }
    }

    /** From waking up to sleeping again; `ok` is what the transaction comes to. */
    method WriterTurn(ok: bool)
      requires Inv(Now()) && writer.Sleeping?
      modifies this`queue, this`batch, this`writer, this`history
      ensures Now() == Turn(old(Now()), ok) && Inv(Now())
    {
      ghost var start := Now();
      ghost var es := TurnIsReached(start, ok);
      RunKeepsInv(start, es, Turn(start, ok));
      var stopping := stop;
      batch := [];
      while queue != []
        invariant batch + queue == start.l.queue && |batch| < QUEUE_CAP
        invariant history == start.h
        decreases |queue|
      {
        assert batch + queue == batch + [queue[0]] + queue[1..];
        batch, queue := batch + [queue[0]], queue[1..];
        if |batch| >= QUEUE_CAP {
          break;
        }
      }
      assert |batch| + |queue| == |start.l.queue|;
      assert queue == [] && batch == start.l.queue;
      if batch != [] {
        history := history.(batches := history.batches + [Batch(batch, ok)]);
      }
      writer := if stopping then Exited else Sleeping;
    }

    method Shutdown()
      requires Inv(Now())
      modifies this`control, this`stop, this`joining, this`history
      ensures Now() == CallShutdown(old(Now())) && Inv(Now())
    {
      StepKeepsInv(Now(), Event.Shutdown);
      if control {
        control := false;
        stop, joining := true, true;
        history := history.(mark := |history.accepted|);
      }
    }
  }
}
