/** The audio ring between one capture thread and one encoder thread. Each thread is a program
    counter; a step is one access to shared memory, and the steps interleave in any way. Loads of
    the other thread's index may return an old value, though never one older than seen before. */
module AudioRing {
  import opened Basics

  const CAPACITY: nat := 16
  const MAX_SAMPLES: nat := 8192
  /** Samples are only copied, never computed with. */
  type Sample = int

  datatype Header = Header(pts: int, frames: u32, channels: u32, rate: u32)

  datatype Slot = Slot(header: Header, data: seq<Sample>)

  datatype Chunk = Chunk(header: Header, samples: seq<Sample>)

  function Size(h: Header): nat { h.frames * h.channels }

  /** The arguments of a push; the pointer may be null. */
  datatype Input = Input(header: Header, samples: Option<seq<Sample>>)

  /** What a caller owes: behind a non-null pointer there are as many samples as it says. */
  predicate Readable(i: Input) {
    i.samples.Some? ==> |i.samples.value| >= i.header.frames * i.header.channels
  }

  predicate Acceptable(i: Input) {
    i.samples.Some? && 0 < Size(i.header) <= MAX_SAMPLES
  }

  predicate ValidChunk(c: Chunk) {
    |c.samples| == Size(c.header) && 0 < |c.samples| <= MAX_SAMPLES
  }

  function ChunkOf(i: Input): (c: Chunk)
    requires Readable(i) && Acceptable(i)
    ensures ValidChunk(c)
  {
    Chunk(i.header, i.samples.value[..Size(i.header)])
  }

  // ---------------------------------------------------------------- the threads

  datatype Producer =
    | Resting
    | LoadingHead(chunk: Chunk, tail: nat)
    | WritingHeader(chunk: Chunk, tail: nat)
    | Copying(chunk: Chunk, tail: nat, copied: nat)

  datatype Consumer =
    | Waiting
    | LoadingTail(head: nat)
    | ReadingHeader(head: nat)
    | Reading(head: nat, header: Header, got: seq<Sample>)

  datatype Ring = Ring(
    slots: seq<Slot>, head: nat, tail: nat,
    seenHead: nat, seenTail: nat,
    producer: Producer, consumer: Consumer,
    droppedFull: u32, rejectedInvalid: u32)

  /** What happened so far; no step reads it. */
  datatype History = History(accepted: seq<Chunk>, consumed: seq<Chunk>, full: nat, invalid: nat, calls: nat)

  datatype World = World(r: Ring, h: History)

  datatype Event =
    | CallPush(input: Input)
    | ProducerLoads(seen: nat)
    | ProducerWrites
    | CallConsume
    | ConsumerLoads(seen: nat)
    | ConsumerReads

  function SlotOf(index: nat): nat { index % CAPACITY }

  /** Which steps are possible, and which values a load may return. */
  predicate Enabled(w: World, e: Event) {
    match e
    case CallPush(input) => w.r.producer.Resting? && Readable(input)
    case ProducerLoads(seen) => w.r.producer.LoadingHead? && w.r.seenHead <= seen <= w.r.head
    case ProducerWrites => w.r.producer.WritingHeader? || w.r.producer.Copying?
    case CallConsume => w.r.consumer.Waiting?
    case ConsumerLoads(seen) => w.r.consumer.LoadingTail? && w.r.seenTail <= seen <= w.r.tail
    case ConsumerReads => w.r.consumer.ReadingHeader? || w.r.consumer.Reading?
  }

  /** Arguments are checked first; then the producer loads its own index. */
  function StartPush(w: World, i: Input): World
    requires Readable(i)
  {
    var h := w.h.(calls := w.h.calls + 1);
    if !Acceptable(i) then
      World(w.r.(rejectedInvalid := (w.r.rejectedInvalid + 1) % U32_SIZE), h.(invalid := h.invalid + 1))
    else
      World(w.r.(producer := LoadingHead(ChunkOf(i), w.r.tail)), h)
  }

  /** A ring that looks full drops the new chunk. */
  function LoadHead(w: World, seen: nat): World
    requires w.r.producer.LoadingHead?
  {
    var p := w.r.producer;
    if p.tail - seen >= CAPACITY then
      World(w.r.(seenHead := seen, droppedFull := (w.r.droppedFull + 1) % U32_SIZE, producer := Resting),
            w.h.(full := w.h.full + 1))
    else
      w.(r := w.r.(seenHead := seen, producer := WritingHeader(p.chunk, p.tail)))
  }

  /** The header, then the samples one by one, then the new tail. */
  function Write(w: World): World
    requires w.r.producer.WritingHeader? || w.r.producer.Copying?
    requires |w.r.slots| == CAPACITY
  {
    var p := w.r.producer;
    var k := SlotOf(p.tail);
    var s := w.r.slots[k];
    if p.WritingHeader? then
      w.(r := w.r.(slots := w.r.slots[k := s.(header := p.chunk.header)], producer := Copying(p.chunk, p.tail, 0)))
    else if p.copied < |p.chunk.samples| && p.copied < |s.data| then
      w.(r := w.r.(slots := w.r.slots[k := s.(data := s.data[p.copied := p.chunk.samples[p.copied]])],
                   producer := Copying(p.chunk, p.tail, p.copied + 1)))
    else
      World(w.r.(tail := p.tail + 1, producer := Resting), w.h.(accepted := w.h.accepted + [p.chunk]))
  }

  function LoadTail(w: World, seen: nat): World
    requires w.r.consumer.LoadingTail?
  {
    var c := w.r.consumer;
    if c.head == seen then
      w.(r := w.r.(seenTail := seen, consumer := Waiting))
    else
      w.(r := w.r.(seenTail := seen, consumer := ReadingHeader(c.head)))
  }

  /** The header, then as many samples as it announces, then the new head. */
  function Read(w: World): World
    requires w.r.consumer.ReadingHeader? || w.r.consumer.Reading?
    requires |w.r.slots| == CAPACITY
  {
    var c := w.r.consumer;
    var s := w.r.slots[SlotOf(c.head)];
    if c.ReadingHeader? then
      w.(r := w.r.(consumer := Reading(c.head, s.header, [])))
    else if |c.got| < Size(c.header) && |c.got| < |s.data| then
      w.(r := w.r.(consumer := Reading(c.head, c.header, c.got + [s.data[|c.got|]])))
    else
      World(w.r.(head := c.head + 1, consumer := Waiting),
            w.h.(consumed := w.h.consumed + [Chunk(c.header, c.got)]))
  }

  function Step(w: World, e: Event): World
    requires Enabled(w, e) && |w.r.slots| == CAPACITY
  {
    match e
    case CallPush(input) => StartPush(w, input)
    case ProducerLoads(seen) => LoadHead(w, seen)
    case ProducerWrites => Write(w)
    case CallConsume => w.(r := w.r.(consumer := LoadingTail(w.r.head)))
    case ConsumerLoads(seen) => LoadTail(w, seen)
    case ConsumerReads => Read(w)
  }

  // ---------------------------------------------------------------- the invariant

  predicate Holds(s: Slot, c: Chunk) {
    |s.data| == MAX_SAMPLES && ValidChunk(c) && s.header == c.header && s.data[..|c.samples|] == c.samples
  }

  predicate Shaped(r: Ring) {
    && |r.slots| == CAPACITY
    && (forall k | 0 <= k < CAPACITY :: |r.slots[k].data| == MAX_SAMPLES)
    && r.head <= r.tail <= r.head + CAPACITY
    && r.seenHead <= r.head <= r.seenTail <= r.tail
  }

  /** The chunks not yet consumed are in their slots. */
  predicate Stored(w: World) {
    && Shaped(w.r)
    && |w.h.accepted| == w.r.tail
    && (forall i | w.r.head <= i < w.r.tail :: Holds(w.r.slots[SlotOf(i)], w.h.accepted[i]))
    && w.h.consumed == w.h.accepted[..w.r.head]
  }

  predicate ProducerInv(r: Ring) {
    match r.producer
    case Resting => true
    case LoadingHead(chunk, tail) => tail == r.tail && ValidChunk(chunk)
    case WritingHeader(chunk, tail) => tail == r.tail && ValidChunk(chunk) && tail < r.head + CAPACITY
    case Copying(chunk, tail, copied) =>
      && tail == r.tail && ValidChunk(chunk) && tail < r.head + CAPACITY
      && copied <= |chunk.samples|
      && |r.slots| == CAPACITY
      && var s := r.slots[SlotOf(tail)];
         |s.data| == MAX_SAMPLES && s.header == chunk.header && s.data[..copied] == chunk.samples[..copied]
  }

  predicate ConsumerInv(w: World) {
    match w.r.consumer
    case Waiting => true
    case LoadingTail(head) => head == w.r.head
    case ReadingHeader(head) => head == w.r.head && head < w.r.seenTail
    case Reading(head, header, got) =>
      && head == w.r.head && head < w.r.seenTail && head < |w.h.accepted|
      && header == w.h.accepted[head].header
      && |got| <= |w.h.accepted[head].samples|
      && got == w.h.accepted[head].samples[..|got|]
  }

  predicate Counted(w: World) {
    && w.r.droppedFull == w.h.full % U32_SIZE
    && w.r.rejectedInvalid == w.h.invalid % U32_SIZE
    && w.h.calls == w.r.tail + w.h.full + w.h.invalid + if w.r.producer.Resting? then 0 else 1
  }

  predicate Inv(w: World) {
    Stored(w) && ProducerInv(w.r) && ConsumerInv(w) && Counted(w)
  }

  function EmptyRing(slots: seq<Slot>): World {
    World(Ring(slots, 0, 0, 0, 0, Resting, Waiting, 0, 0), History([], [], 0, 0, 0))
  }

  predicate Blank(slots: seq<Slot>) {
    |slots| == CAPACITY && forall k | 0 <= k < CAPACITY :: |slots[k].data| == MAX_SAMPLES
  }

  lemma EmptyRingKeepsInv(slots: seq<Slot>)
    requires Blank(slots)
    ensures Inv(EmptyRing(slots))
  {}

  lemma SlotsDiffer(i: nat, j: nat)
    requires i < j < i + CAPACITY
    ensures SlotOf(i) != SlotOf(j)
  {}

  /** Writing the free slot touches no chunk that is still stored. */
  lemma WriteKeepsInv(w: World)
    requires Inv(w) && Enabled(w, ProducerWrites)
    ensures Inv(Write(w))
  {
    var p, v := w.r.producer, Write(w);
    forall i | w.r.head <= i < w.r.tail ensures SlotOf(i) != SlotOf(w.r.tail) {
      SlotsDiffer(i, w.r.tail);
    }
    if p.Copying? && p.copied < |p.chunk.samples| {
      var was, now := w.r.slots[SlotOf(p.tail)].data, v.r.slots[SlotOf(p.tail)].data;
      assert now[..p.copied + 1] == was[..p.copied] + [p.chunk.samples[p.copied]];
      assert p.chunk.samples[..p.copied + 1] == p.chunk.samples[..p.copied] + [p.chunk.samples[p.copied]];
    }
    assert v.h.accepted[..w.r.head] == w.h.accepted[..w.r.head];
    if p.Copying? && p.copied == |p.chunk.samples| {
      assert p.chunk.samples[..p.copied] == p.chunk.samples;
    }
  }

  lemma ReadKeepsInv(w: World)
    requires Inv(w) && Enabled(w, ConsumerReads)
    ensures Inv(Read(w))
  {
    var c := w.r.consumer;
    var chunk := w.h.accepted[c.head];
    assert Holds(w.r.slots[SlotOf(c.head)], chunk);
    if c.Reading? {
      if |c.got| < Size(c.header) {
        assert w.r.slots[SlotOf(c.head)].data[|c.got|] == chunk.samples[|c.got|];
        assert chunk.samples[..|c.got| + 1] == chunk.samples[..|c.got|] + [chunk.samples[|c.got|]];
      } else {
        assert c.got == chunk.samples;
        assert w.h.accepted[..c.head + 1] == w.h.accepted[..c.head] + [chunk];
      }
    }
  }

  lemma StartPushKeepsInv(w: World, i: Input)
    requires Inv(w) && Enabled(w, CallPush(i))
    ensures Inv(StartPush(w, i))
  {
    CountOne(w.h.invalid);
  }

  lemma CountOne(n: nat)
    ensures (n % U32_SIZE + 1) % U32_SIZE == (n + 1) % U32_SIZE
  {}

  lemma LoadHeadKeepsInv(w: World, seen: nat)
    requires Inv(w) && Enabled(w, ProducerLoads(seen))
    ensures Inv(LoadHead(w, seen))
  {
    CountOne(w.h.full);
  }

  lemma LoadTailKeepsInv(w: World, seen: nat)
    requires Inv(w) && Enabled(w, ConsumerLoads(seen))
    ensures Inv(LoadTail(w, seen))
  {}

  /** Every step of either thread keeps the invariant. */
  lemma StepKeepsInv(w: World, e: Event)
    requires Inv(w) && Enabled(w, e)
    ensures Inv(Step(w, e))
  {
    match e
    case CallPush(input) => StartPushKeepsInv(w, input);
    case ProducerLoads(seen) => LoadHeadKeepsInv(w, seen);
    case ProducerWrites => WriteKeepsInv(w);
    case CallConsume =>
    case ConsumerLoads(seen) => LoadTailKeepsInv(w, seen);
    case ConsumerReads => ReadKeepsInv(w);
  }

  predicate Run(w: World, es: seq<Event>, v: World)
    decreases |es|
  {
    if es == [] then v == w
    else Enabled(w, es[0]) && |w.r.slots| == CAPACITY && Run(Step(w, es[0]), es[1..], v)
  }

  lemma {:induction false} RunKeepsInv(w: World, es: seq<Event>, v: World)
    requires Inv(w) && Run(w, es, v)
    ensures Inv(v)
    decreases |es|
  {
    if es != [] {
      StepKeepsInv(w, es[0]);
      RunKeepsInv(Step(w, es[0]), es[1..], v);
    }
  }

  // ---------------------------------------------------------------- what every interleaving keeps

  /** The chunks in the ring, oldest first, as they are in the slots. */
  function Queued(r: Ring): seq<Chunk>
    requires Shaped(r)
  {
    seq(r.tail - r.head, k requires 0 <= k < r.tail - r.head =>
      var s := r.slots[SlotOf(r.head + k)];
      Chunk(s.header, if Size(s.header) <= |s.data| then s.data[..Size(s.header)] else s.data))
  }

  /** After any interleaving: between 0 and 16 chunks are stored, and those consumed followed by
      those stored are exactly those accepted, in order and unaltered. */
  lemma FifoUnderInterleaving(slots: seq<Slot>, es: seq<Event>, w: World)
    requires Blank(slots) && Run(EmptyRing(slots), es, w)
    ensures 0 <= w.r.tail - w.r.head <= 16
    ensures Shaped(w.r) && w.h.consumed + Queued(w.r) == w.h.accepted
  {
    EmptyRingKeepsInv(slots);
    RunKeepsInv(EmptyRing(slots), es, w);
    QueuedAreAccepted(w);
  }

  /** The chunk that a call hands in: all samples of all channels, and not one more. */
  predicate Whole(c: Chunk, i: Input) {
    && i.samples.Some? && 0 < i.header.frames * i.header.channels <= 8192
    && i.header.frames * i.header.channels <= |i.samples.value|
    && c == Chunk(i.header, i.samples.value[..i.header.frames * i.header.channels])
  }

  /** The chunk that the producer is about to store, if any. */
  function InHand(p: Producer): seq<Chunk> {
    if p.Resting? then [] else [p.chunk]
  }

  /** `at` names the calls that handed in these chunks, in order. */
  predicate HandedIn(chunks: seq<Chunk>, es: seq<Event>, at: seq<nat>) {
    && |at| == |chunks|
    && (forall k | 0 <= k < |at| :: at[k] < |es| && es[at[k]].CallPush? && Whole(chunks[k], es[at[k]].input))
    && (forall j, k | 0 <= j < k < |at| :: at[j] < at[k])
  }

  lemma HandedInLater(chunks: seq<Chunk>, es: seq<Event>, e: Event, at: seq<nat>)
    requires HandedIn(chunks, es, at)
    ensures HandedIn(chunks, es + [e], at)
  {}

  lemma StepHandsIn(w: World, es: seq<Event>, e: Event, at: seq<nat>) returns (next: seq<nat>)
    requires Inv(w) && Enabled(w, e) && HandedIn(w.h.accepted + InHand(w.r.producer), es, at)
    ensures var v := Step(w, e);
            HandedIn(v.h.accepted + InHand(v.r.producer), es + [e], next)
  {
    var v := Step(w, e);
    next := at;
    HandedInLater(w.h.accepted + InHand(w.r.producer), es, e, at);
    match e
    case CallPush(input) =>
      assert w.h.accepted + InHand(w.r.producer) == w.h.accepted;
      next := CallHandsIn(w, es, input, at);
    case ProducerLoads(seen) =>
      if v.r.producer.Resting? {
        next := at[..|at| - 1];
        assert v.h.accepted + InHand(v.r.producer) == w.h.accepted;
      }
    case ProducerWrites =>
      assert v.h.accepted + InHand(v.r.producer) == w.h.accepted + InHand(w.r.producer);
    case _ =>
  }

  lemma CallHandsIn(w: World, es: seq<Event>, i: Input, at: seq<nat>) returns (next: seq<nat>)
    requires Enabled(w, CallPush(i)) && HandedIn(w.h.accepted, es, at)
    ensures var v := StartPush(w, i);
            HandedIn(v.h.accepted + InHand(v.r.producer), es + [CallPush(i)], next)
  {
    var v := StartPush(w, i);
    next := at;
    HandedInLater(w.h.accepted, es, CallPush(i), at);
    if v.r.producer.LoadingHead? {
      next := at + [|es|];
      StartedChunkIsWhole(w, i);
      assert (es + [CallPush(i)])[|es|] == CallPush(i);
    } else {
      assert v.h.accepted + [] == w.h.accepted;
    }
  }

  lemma StartedChunkIsWhole(w: World, i: Input)
    requires Enabled(w, CallPush(i)) && StartPush(w, i).r.producer.LoadingHead?
    ensures Whole(StartPush(w, i).r.producer.chunk, i)
  {}

  lemma {:induction false} LastStep(w: World, es: seq<Event>, v: World) returns (u: World)
    requires Inv(w) && es != [] && Run(w, es, v)
    ensures Run(w, es[..|es| - 1], u) && Inv(u) && Enabled(u, es[|es| - 1]) && v == Step(u, es[|es| - 1])
    decreases |es|
  {
    StepKeepsInv(w, es[0]);
    if |es| == 1 {
      u := w;
    } else {
      u := LastStep(Step(w, es[0]), es[1..], v);
      assert es[1..][..|es| - 2] == es[..|es| - 1][1..];
    }
  }

  lemma {:induction false} RunHandsIn(slots: seq<Slot>, es: seq<Event>, w: World) returns (at: seq<nat>)
    requires Blank(slots) && Run(EmptyRing(slots), es, w)
    ensures HandedIn(w.h.accepted + InHand(w.r.producer), es, at)
    decreases |es|
  {
    at := [];
    EmptyRingKeepsInv(slots);
    if es != [] {
      var n := |es| - 1;
      var u := LastStep(EmptyRing(slots), es, w);
      var before := RunHandsIn(slots, es[..n], u);
      at := StepHandsIn(u, es[..n], es[n], before);
      assert es[..n] + [es[n]] == es;
    }
  }

  /** Over every interleaving, what is handed out are the chunks of calls of the producer, in the
      order of those calls: each consists of exactly the first `frames * channels` samples that
      its call was given, with its header. */
  lemma ConsumedChunksAreWhole(slots: seq<Slot>, es: seq<Event>, w: World) returns (at: seq<nat>)
    requires Blank(slots) && Run(EmptyRing(slots), es, w)
    ensures |at| == |w.h.consumed|
    ensures forall j, k | 0 <= j < k < |at| :: at[j] < at[k]
    ensures forall k | 0 <= k < |at| :: at[k] < |es| && es[at[k]].CallPush? && Whole(w.h.consumed[k], es[at[k]].input)
    ensures forall c | c in w.h.consumed :: |c.samples| == c.header.frames * c.header.channels
  {
    EmptyRingKeepsInv(slots);
    RunKeepsInv(EmptyRing(slots), es, w);
    at := RunHandsIn(slots, es, w);
    at := at[..|w.h.consumed|];
  }

  lemma QueuedAreAccepted(w: World)
    requires Inv(w)
    ensures Queued(w.r) == w.h.accepted[w.r.head..]
  {
    var q := Queued(w.r);
    forall k | 0 <= k < |q| ensures q[k] == w.h.accepted[w.r.head + k] {
      assert Holds(w.r.slots[SlotOf(w.r.head + k)], w.h.accepted[w.r.head + k]);
    }
  }

  /** While both threads are at work on slots, they are different slots, so no step writes a slot
      being read. */
  lemma WriterAndReaderApart(slots: seq<Slot>, es: seq<Event>, w: World)
    requires Blank(slots) && Run(EmptyRing(slots), es, w)
    requires w.r.producer.WritingHeader? || w.r.producer.Copying?
    requires w.r.consumer.ReadingHeader? || w.r.consumer.Reading?
    ensures Shaped(w.r) && SlotOf(w.r.producer.tail) != SlotOf(w.r.consumer.head)
    ensures Step(w, ProducerWrites).r.slots[SlotOf(w.r.consumer.head)] == w.r.slots[SlotOf(w.r.consumer.head)]
  {
    EmptyRingKeepsInv(slots);
    RunKeepsInv(EmptyRing(slots), es, w);
    SlotsDiffer(w.r.consumer.head, w.r.producer.tail);
  }

  /** Every finished push is accepted, dropped or rejected; the two counters are kept apart, each
      modulo 2^32. */
  lemma EveryPushIsCounted(slots: seq<Slot>, es: seq<Event>, w: World)
    requires Blank(slots) && Run(EmptyRing(slots), es, w) && w.r.producer.Resting?
    ensures w.h.calls == |w.h.accepted| + w.h.full + w.h.invalid
    ensures w.r.droppedFull == w.h.full % U32_SIZE && w.r.rejectedInvalid == w.h.invalid % U32_SIZE
  {
    EmptyRingKeepsInv(slots);
    RunKeepsInv(EmptyRing(slots), es, w);
  }

  /** A load that returns the current index decides exactly: the chunk is dropped if and only if
      the ring is full, the consumer leaves empty-handed if and only if it is empty. An old value
      errs on the safe side only. */
  lemma FreshLoadsDecideExactly(w: World, seen: nat)
    requires Inv(w)
    ensures Enabled(w, ProducerLoads(seen)) ==>
              && (w.r.tail - w.r.head == CAPACITY ==> LoadHead(w, seen).r.producer.Resting?)
              && (seen == w.r.head ==> (LoadHead(w, seen).r.producer.Resting? <==> w.r.tail - w.r.head == CAPACITY))
    ensures Enabled(w, ConsumerLoads(seen)) ==>
              && (w.r.tail == w.r.head ==> LoadTail(w, seen).r.consumer.Waiting?)
              && (seen == w.r.tail ==> (LoadTail(w, seen).r.consumer.Waiting? <==> w.r.tail == w.r.head))
  {}


  // ---------------------------------------------------------------- whole calls

  /** The rest of a push that no step of the consumer interrupts. */
  function Copied(w: World): World
    requires Inv(w) && w.r.producer.Copying?
  {
    var p := w.r.producer;
    var k := SlotOf(p.tail);
    World(w.r.(slots := w.r.slots[k := FilledSlot(p.chunk, w.r.slots[k])], tail := p.tail + 1, producer := Resting),
          w.h.(accepted := w.h.accepted + [p.chunk]))
  }

  lemma {:induction false} CopiedIsReached(w: World) returns (es: seq<Event>)
    requires Inv(w) && w.r.producer.Copying?
    ensures Run(w, es, Copied(w))
    decreases if w.r.producer.Copying? then |w.r.producer.chunk.samples| - w.r.producer.copied else 0
  {
    var p, v := w.r.producer, Write(w);
    var k := SlotOf(p.tail);
    WriteKeepsInv(w);
    if p.copied < |p.chunk.samples| {
      var rest := CopiedIsReached(v);
      es := [ProducerWrites] + rest;
      assert v.r.slots[k].data[|p.chunk.samples|..] == w.r.slots[k].data[|p.chunk.samples|..];
      assert Copied(v).r.slots == Copied(w).r.slots;
      assert es[1..] == rest;
    } else {
      es := [ProducerWrites];
      assert w.r.slots[k].data == p.chunk.samples + w.r.slots[k].data[|p.chunk.samples|..];
      assert w.r.slots[k := w.r.slots[k]] == w.r.slots;
      assert Copied(w) == v;
    }
  }

  predicate Full(r: Ring) { r.tail - r.head >= CAPACITY }

  function FilledSlot(c: Chunk, s: Slot): Slot
    requires ValidChunk(c) && |s.data| == MAX_SAMPLES
  {
    Slot(c.header, c.samples + s.data[|c.samples|..])
  }

  /** A whole push while the consumer rests. */
  function PushAlone(w: World, i: Input): World
    requires Inv(w) && Readable(i)
  {
    var h := w.h.(calls := w.h.calls + 1);
    if !Acceptable(i) then
      World(w.r.(rejectedInvalid := (w.r.rejectedInvalid + 1) % U32_SIZE), h.(invalid := h.invalid + 1))
    else if Full(w.r) then
      World(w.r.(seenHead := w.r.head, droppedFull := (w.r.droppedFull + 1) % U32_SIZE), h.(full := h.full + 1))
    else
      var k := SlotOf(w.r.tail);
      World(w.r.(slots := w.r.slots[k := FilledSlot(ChunkOf(i), w.r.slots[k])], tail := w.r.tail + 1, seenHead := w.r.head),
            h.(accepted := h.accepted + [ChunkOf(i)]))
  }

  lemma CopiedAfterHeader(w: World, i: Input)
    requires Inv(w) && w.r.producer.Resting? && Readable(i) && Acceptable(i) && !Full(w.r)
    ensures var u := LoadHead(StartPush(w, i), w.r.head);
            Inv(u) && Inv(Write(u)) && Copied(Write(u)) == PushAlone(w, i)
  {
    StartPushKeepsInv(w, i);
    LoadHeadKeepsInv(StartPush(w, i), w.r.head);
    var u := LoadHead(StartPush(w, i), w.r.head);
    WriteKeepsInv(u);
    var k := SlotOf(w.r.tail);
    assert Copied(Write(u)).r.slots == PushAlone(w, i).r.slots;
  }

  lemma PushAloneIsReached(w: World, i: Input) returns (es: seq<Event>)
    requires Inv(w) && w.r.producer.Resting? && Readable(i)
    ensures Run(w, es, PushAlone(w, i))
  {
    var v := StartPush(w, i);
    StartPushKeepsInv(w, i);
    es := [CallPush(i)];
    assert es[1..] == [];
    if v.r.producer.LoadingHead? {
      var u := LoadHead(v, w.r.head);
      LoadHeadKeepsInv(v, w.r.head);
      var rest := [ProducerLoads(w.r.head)];
      assert rest[1..] == [];
      if u.r.producer.WritingHeader? {
        WriteKeepsInv(u);
        var writes := CopiedIsReached(Write(u));
        var header := [ProducerWrites] + writes;
        assert header[1..] == writes;
        CopiedAfterHeader(w, i);
        rest := [ProducerLoads(w.r.head)] + header;
        assert rest[1..] == header;
      }
      assert Run(v, rest, PushAlone(w, i));
      es := [CallPush(i)] + rest;
      assert es[1..] == rest;
    }
  }

  /** It appends the chunk, or leaves the ring as it was and counts why. */
  lemma PushAloneAppends(w: World, i: Input)
    requires Inv(w) && w.r.producer.Resting? && Readable(i)
    ensures var v := PushAlone(w, i);
            && Inv(v)
            && Queued(v.r) == if Acceptable(i) && !Full(w.r) then Queued(w.r) + [ChunkOf(i)] else Queued(w.r)
  {
    PushAloneKeepsInv(w, i);
    QueuedAreAccepted(w);
    QueuedAreAccepted(PushAlone(w, i));
    SliceAppend(w.h.accepted, w.r.head);
  }

  /** The call is accepted exactly when there are samples, between 1 and 8192 of them in all
      channels together, and fewer than 16 chunks wait; then exactly those samples are appended. */
  lemma PushAloneDecides(w: World, i: Input)
    requires Inv(w) && w.r.producer.Resting? && Readable(i)
    ensures var v := PushAlone(w, i);
            var n := i.header.frames * i.header.channels;
            && Inv(v)
            && (i.samples.Some? && 0 < n <= 8192 && |Queued(w.r)| < 16 ==>
                  Queued(v.r) == Queued(w.r) + [Chunk(i.header, i.samples.value[..n])])
            && (!(i.samples.Some? && 0 < n <= 8192 && |Queued(w.r)| < 16) ==> Queued(v.r) == Queued(w.r))
  {
    PushAloneAppends(w, i);
  }

  lemma PushAloneKeepsInv(w: World, i: Input)
    requires Inv(w) && w.r.producer.Resting? && Readable(i)
    ensures Inv(PushAlone(w, i))
  {
    var es := PushAloneIsReached(w, i);
    RunKeepsInv(w, es, PushAlone(w, i));
  }

  lemma SliceAppend(s: seq<Chunk>, k: nat)
    requires k <= |s|
    ensures forall c :: (s + [c])[k..] == s[k..] + [c]
  {}

  /** The rest of a consumption that no step of the producer interrupts. */
  function Delivered(w: World): World
    requires Inv(w) && w.r.consumer.Reading?
  {
    var chunk := w.h.accepted[w.r.head];
    World(w.r.(head := w.r.head + 1, consumer := Waiting), w.h.(consumed := w.h.consumed + [chunk]))
  }

  lemma {:induction false} DeliveredIsReached(w: World) returns (es: seq<Event>)
    requires Inv(w) && w.r.consumer.Reading?
    ensures Run(w, es, Delivered(w))
    decreases if w.r.consumer.Reading? then MAX_SAMPLES - |w.r.consumer.got| else 0
  {
    var v := Read(w);
    ReadKeepsInv(w);
    var chunk := w.h.accepted[w.r.head];
    assert Holds(w.r.slots[SlotOf(w.r.head)], chunk);
    if v.r.consumer.Reading? {
      var rest := DeliveredIsReached(v);
      es := [ConsumerReads] + rest;
      assert es[1..] == rest;
    } else {
      es := [ConsumerReads];
      assert w.r.consumer.got == chunk.samples;
      assert es[1..] == [];
    }
  }

  /** A whole consumption while the producer rests. */
  function ConsumeAlone(w: World): World
    requires Inv(w)
  {
    var r := w.r.(seenTail := w.r.tail);
    if w.r.head == w.r.tail then w.(r := r)
    else World(r.(head := w.r.head + 1), w.h.(consumed := w.h.consumed + [w.h.accepted[w.r.head]]))
  }

  lemma ConsumeAloneIsReached(w: World) returns (es: seq<Event>)
    requires Inv(w) && w.r.consumer.Waiting?
    ensures Run(w, es, ConsumeAlone(w))
  {
    var v := Step(w, CallConsume);
    StepKeepsInv(w, CallConsume);
    var u := LoadTail(v, w.r.tail);
    LoadTailKeepsInv(v, w.r.tail);
    var rest := [ConsumerLoads(w.r.tail)];
    assert rest[1..] == [];
    if u.r.consumer.ReadingHeader? {
      ReadKeepsInv(u);
      var tailSteps := DeliveredIsReached(Read(u));
      var header := [ConsumerReads] + tailSteps;
      assert header[1..] == tailSteps;
      rest := [ConsumerLoads(w.r.tail)] + header;
      assert rest[1..] == header;
    }
    assert Run(v, rest, ConsumeAlone(w));
    es := [CallConsume] + rest;
    assert es[1..] == rest;
  }

  /** It hands out the oldest chunk and removes it, unless there is none. */
  lemma ConsumeAloneTakesOldest(w: World)
    requires Inv(w) && w.r.consumer.Waiting?
    ensures var v := ConsumeAlone(w);
            && Inv(v)
            && (Queued(w.r) == [] ==> Queued(v.r) == [] && v.h == w.h)
            && (Queued(w.r) != [] ==>
                  && v.h.consumed == w.h.consumed + [Queued(w.r)[0]]
                  && Queued(v.r) == Queued(w.r)[1..])
  {
    ConsumeAloneKeepsInv(w);
    QueuedAreAccepted(w);
    QueuedAreAccepted(ConsumeAlone(w));
  }

  lemma ConsumeAloneKeepsInv(w: World)
    requires Inv(w) && w.r.consumer.Waiting?
    ensures Inv(ConsumeAlone(w))
  {
    var es := ConsumeAloneIsReached(w);
    RunKeepsInv(w, es, ConsumeAlone(w));
  }

  lemma OldestInSlot(w: World)
    requires Inv(w) && w.r.head < w.r.tail
    ensures var s := w.r.slots[SlotOf(w.r.head)];
            && Size(s.header) <= |s.data|
            && Queued(w.r) != [] && Queued(w.r)[0] == w.h.accepted[w.r.head] == Chunk(s.header, s.data[..Size(s.header)])
  {
    assert Holds(w.r.slots[SlotOf(w.r.head)], w.h.accepted[w.r.head]);
  }

  // ---------------------------------------------------------------- the object

  lemma CopyOne(samples: seq<Sample>, data: seq<Sample>, i: nat)
    requires i < |samples| && i < |data|
    ensures (samples[..i] + data[i..])[i := samples[i]] == samples[..i + 1] + data[i + 1..]
  {}

  /** The ring with its two operations, each carried out while the other thread rests. */
  class AudioRing {
    const slots: array<Slot>
    var head: nat
    var tail: nat
    var droppedFull: u32
    var rejectedInvalid: u32
    ghost var seenHead: nat
    ghost var seenTail: nat
    ghost var history: History

    ghost function Now(): World
      reads this, slots
    {
      World(Ring(slots[..], head, tail, seenHead, seenTail, Resting, Waiting, droppedFull, rejectedInvalid), history)
    }

    ghost predicate Valid()
      reads this, slots
    {
      slots.Length == CAPACITY && Inv(Now())
    }

    ghost function Contents(): seq<Chunk>
      reads this, slots
      requires Valid()
    {
      Queued(Now().r)
    }

    constructor ()
      ensures Valid() && fresh(slots) && Contents() == [] && droppedFull == 0 && rejectedInvalid == 0
    {
      var blank := Slot(Header(0, 0, 0, 0), seq(MAX_SAMPLES, _ => 0));
      slots := new Slot[CAPACITY](_ => blank);
      head, tail, droppedFull, rejectedInvalid := 0, 0, 0, 0;
      seenHead, seenTail, history := 0, 0, History([], [], 0, 0, 0);
      new;
      assert Now() == EmptyRing(slots[..]);
      EmptyRingKeepsInv(slots[..]);
    }

    method Push(input: Input) returns (ok: bool)
      requires Valid() && Readable(input)
      modifies this, slots
      ensures Valid() && Now() == PushAlone(old(Now()), input)
      ensures ok <==>
              && input.samples.Some? && 0 < input.header.frames * input.header.channels <= 8192
              && |old(Contents())| < 16
      ensures ok ==> Contents() == old(Contents()) + [Chunk(input.header, input.samples.value[..input.header.frames * input.header.channels])]
      ensures !ok ==> Contents() == old(Contents())
    {
      ghost var before := Now();
      PushAloneDecides(before, input);
      assert |Queued(before.r)| == tail - head;
      var n := Size(input.header);
      if input.samples.None? || n == 0 || n > MAX_SAMPLES {
        rejectedInvalid := (rejectedInvalid + 1) % U32_SIZE;
        history := history.(calls := history.calls + 1, invalid := history.invalid + 1);
        assert Now() == PushAlone(before, input);
        return false;
      }
      ok := Store(input, n);
    }

    /** The second half of a push: the chunk is dropped if the ring is full. */
    method Store(input: Input, n: nat) returns (ok: bool)
      requires Valid() && Readable(input) && Acceptable(input) && n == Size(input.header)
      modifies this, slots
      ensures Now() == PushAlone(old(Now()), input)
      ensures ok <==> old(tail) - old(head) < CAPACITY
    {
      ghost var before := Now();
      history := history.(calls := history.calls + 1);
      seenHead := head;
      if tail - head >= CAPACITY {
        droppedFull := (droppedFull + 1) % U32_SIZE;
        history := history.(full := history.full + 1);
        return false;
      }
      Fill(tail % CAPACITY, input.header, input.samples.value, n);
      tail := tail + 1;
      history := history.(accepted := history.accepted + [ChunkOf(input)]);
      assert Now() == PushAlone(before, input);
      return true;
    }

    /** Writes a header and copies samples into a slot; what lies behind them stays. */
    method Fill(k: nat, h: Header, samples: seq<Sample>, n: nat)
      requires k < slots.Length && n <= |samples| && n <= |slots[k].data|
      modifies slots
      ensures slots[..] == old(slots[..])[k := Slot(h, samples[..n] + old(slots[k].data)[n..])]
    {
      slots[k] := slots[k].(header := h);
      ghost var data := slots[k].data;
      assert samples[..0] + data[0..] == data;
      for i := 0 to n
        invariant slots[k] == Slot(h, samples[..i] + data[i..])
        invariant forall j | 0 <= j < slots.Length && j != k :: slots[j] == old(slots[j])
      {
        CopyOne(samples, data, i);
        slots[k] := slots[k].(data := slots[k].data[i := samples[i]]);
      }
    }

    /** The chunk that the callback is given, if there is one. */
    method Consume() returns (chunk: Option<Chunk>)
      requires Valid()
      modifies this
      ensures Valid() && Now() == ConsumeAlone(old(Now()))
      ensures chunk.Some? <==> old(Contents()) != []
      ensures chunk.Some? ==> old(Contents()) == [chunk.value] + Contents()
      ensures chunk.None? ==> Contents() == []
    {
      ghost var before := Now();
      ConsumeAloneTakesOldest(before);
      seenTail := tail;
      if head == tail {
        assert Now() == ConsumeAlone(before);
        return None;
      }
      OldestInSlot(before);
      var s := slots[head % CAPACITY];
      assert s == before.r.slots[SlotOf(head)];
      var n := Size(s.header);
      chunk := Some(Chunk(s.header, s.data[..n]));
      head := head + 1;
      history := history.(consumed := history.consumed + [chunk.value]);
      assert Now() == ConsumeAlone(before);
    }
  }
}
