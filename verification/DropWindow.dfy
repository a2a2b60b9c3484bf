/** The share of dropped frames over the last polls, kept in two rings of per-poll differences.
    Counters are 32 bits wide and wrap. */
module DropWindow {
  import opened Basics

  /** 32-bit arithmetic. */
  function Wrap(x: int): u32 { x % 0x1_0000_0000 }

  /** A frame handed to the output, a frame that the output then refused, a poll. */
  datatype Event = Frame | Drop | Poll

  /** The true totals, and what they were at the start and at each poll. */
  datatype Tally = Tally(frames: int, drops: int, frameMarks: seq<int>, dropMarks: seq<int>)

  const EMPTY := Tally(0, 0, [0], [0])

  function Note(t: Tally, e: Event): Tally {
    match e
    case Frame => t.(frames := t.frames + 1)
    case Drop => t.(drops := t.drops + 1)
    case Poll => t.(frameMarks := t.frameMarks + [t.frames], dropMarks := t.dropMarks + [t.drops])
  }

  function Replay(es: seq<Event>): Tally {
    if es == [] then EMPTY else Note(Replay(es[..|es| - 1]), es[|es| - 1])
  }

  /** What was added to a total since the poll that is `w` polls back, or since the start. */
  function Recent(total: int, marks: seq<int>, w: nat): int
    requires |marks| > 0
  {
    total - marks[|marks| - 1 - Min(|marks| - 1, w)]
  }

  // ---------------------------------------------------------------- the ring

  function Min(a: nat, b: nat): nat { if a < b then a else b }

  /** The slot of poll `k`, going round and round. */
  function Slot(k: nat, w: nat): (r: nat)
    requires w > 0
    ensures r < w
  {
    if k < w then k else Slot(k - w, w)
  }

  lemma {:induction false} SlotIsRemainder(k: nat, w: nat)
    requires w > 0
    ensures Slot(k, w) == k % w
  {
    if k >= w {
      SlotIsRemainder(k - w, w);
      assert k % w == (k - w) % w by { Periodic(k - w, w); }
    } else {
      Small(k, w);
    }
  }

  lemma Small(i: nat, w: nat)
    requires i < w
    ensures i % w == i
  {}

  lemma Periodic(k: nat, w: nat)
    requires w > 0
    ensures (k + w) % w == k % w
  {
    assert k + w == (k / w + 1) * w + k % w;
    Unique((k + w) / w - (k / w + 1), (k + w) % w, k % w, w);
  }

  lemma Unique(d: int, r: nat, s: nat, w: nat)
    requires r < w && s < w && d * w == s - r
    ensures r == s
  {
    if d >= 1 {
      NonNegative(d - 1, w);
    } else if d <= -1 {
      NonNegative(-d - 1, w);
    }
  }

  lemma NonNegative(a: int, w: int)
    requires a >= 0 && w >= 0
    ensures a * w >= 0
  {}

  /** Polls fewer than a whole round apart have different slots. */
  lemma {:induction false} SlotsDiffer(i: nat, j: nat, w: nat)
    requires i < j < i + w
    ensures Slot(i, w) != Slot(j, w)
    decreases j
  {
    if i >= w {
      SlotsDiffer(i - w, j - w, w);
    }
  }

  /** The slots hold the newest differences, as many as fit. */
  predicate Ringed(ring: seq<u32>, deltas: seq<u32>) {
    && |ring| > 0
    && (forall k: nat {:trigger Slot(k, |ring|)} | |deltas| - |ring| <= k < |deltas| :: ring[Slot(k, |ring|)] == deltas[k])
  }

  lemma StoreKeepsRing(ring: seq<u32>, deltas: seq<u32>, d: u32)
    requires Ringed(ring, deltas)
    ensures Ringed(ring[Slot(|deltas|, |ring|) := d], deltas + [d])
  {
    var n := |deltas|;
    forall k: nat | n + 1 - |ring| <= k < n + 1 ensures ring[Slot(n, |ring|) := d][Slot(k, |ring|)] == (deltas + [d])[k] {
      if k < n {
        SlotsDiffer(k, n, |ring|);
      }
    }
  }

  function Sum(ring: seq<u32>, i: nat): nat
    requires i <= |ring|
  {
    if i == 0 then 0 else Sum(ring, i - 1) + ring[i - 1]
  }

  function Range(deltas: seq<u32>, a: nat, b: nat): nat
    requires a <= b <= |deltas|
  {
    if a == b then 0 else Range(deltas, a, b - 1) + deltas[b - 1]
  }

  lemma {:induction false} RangeSplit(deltas: seq<u32>, a: nat, b: nat, c: nat)
    requires a <= b <= c <= |deltas|
    ensures Range(deltas, a, c) == Range(deltas, a, b) + Range(deltas, b, c)
  {
    if b < c {
      RangeSplit(deltas, a, b, c - 1);
    }
  }

  /** Slots `a..b` that hold consecutive differences from `k` on. */
  lemma {:induction false} SumOfRun(ring: seq<u32>, deltas: seq<u32>, a: nat, b: nat, k: nat)
    requires a <= b <= |ring| && k + b - a <= |deltas|
    requires forall i | a <= i < b :: ring[i] == deltas[k + i - a]
    ensures Sum(ring, b) == Sum(ring, a) + Range(deltas, k, k + b - a)
  {
    if a < b {
      SumOfRun(ring, deltas, a, b - 1, k);
      assert ring[b - 1] == deltas[k + b - 1 - a];
    }
  }

  /** Which poll each slot of a full ring belongs to: the newest fill the slots below the next one
      to be written, the oldest those from there on. */
  lemma {:induction false} SlotAhead(n: nat, w: nat, i: nat)
    requires 0 < w <= n && i < w
    ensures i < Slot(n, w) ==> Slot(n - Slot(n, w) + i, w) == i
    ensures i >= Slot(n, w) ==> n - Slot(n, w) - w + i >= 0 && Slot(n - Slot(n, w) - w + i, w) == i
    decreases n
  {
    if n >= 2 * w {
      SlotAhead(n - w, w, i);
    }
  }

  lemma LowPart(ring: seq<u32>, deltas: seq<u32>)
    requires Ringed(ring, deltas) && |deltas| >= |ring|
    ensures var h := Slot(|deltas|, |ring|);
            Sum(ring, h) == Range(deltas, |deltas| - h, |deltas|)
  {
    var n, h := |deltas|, Slot(|deltas|, |ring|);
    forall i | 0 <= i < h ensures ring[i] == deltas[n - h + i - 0] {
      SlotAhead(n, |ring|, i);
    }
    SumOfRun(ring, deltas, 0, h, n - h);
  }

  lemma HighPart(ring: seq<u32>, deltas: seq<u32>)
    requires Ringed(ring, deltas) && |deltas| >= |ring|
    ensures var h := Slot(|deltas|, |ring|);
            Sum(ring, |ring|) == Sum(ring, h) + Range(deltas, |deltas| - |ring|, |deltas| - h)
  {
    var n, h := |deltas|, Slot(|deltas|, |ring|);
    forall i | h <= i < |ring| ensures ring[i] == deltas[n - |ring| + i - h] {
      SlotAhead(n, |ring|, i);
    }
    SumOfRun(ring, deltas, h, |ring|, n - |ring|);
  }

  /** All slots in use, in whatever order, add up to the newest differences. */
  lemma SumIsRange(ring: seq<u32>, deltas: seq<u32>)
    requires Ringed(ring, deltas)
    ensures var n, c := |deltas|, Min(|deltas|, |ring|);
            Sum(ring, c) == Range(deltas, n - c, n)
  {
    var n, w := |deltas|, |ring|;
    if n >= w {
      LowPart(ring, deltas);
      HighPart(ring, deltas);
      RangeSplit(deltas, n - w, n - Slot(n, w), n);
    } else {
      forall i | 0 <= i < n ensures ring[i] == deltas[0 + i - 0] {
        assert Slot(i, w) == i;
      }
      SumOfRun(ring, deltas, 0, n, 0);
    }
  }

  lemma WrapAdds(x: int, y: int)
    ensures Wrap(Wrap(x) + Wrap(y)) == Wrap(x + y) == Wrap(Wrap(x) + y)
  {}

  lemma WrapSubtracts(x: int, y: int)
    ensures Wrap(Wrap(x) - Wrap(y)) == Wrap(x - y)
  {}

  /** What each poll finds added since the one before, in 32 bits. */
  function Deltas(totals: seq<int>): (r: seq<u32>)
    requires |totals| > 0
    ensures |r| == |totals| - 1
  {
    seq(|totals| - 1, k requires 0 <= k < |totals| - 1 => Wrap(totals[k + 1] - totals[k]))
  }

  lemma Telescope(sum: int, x: int, y: int, z: int, d: u32)
    requires Wrap(sum) == Wrap(y - x) && d == Wrap(z - y)
    ensures Wrap(sum + d) == Wrap(z - x)
  {
    WrapAdds(sum, d);
    WrapAdds(y - x, z - y);
    WrapOnce(d);
    assert (y - x) + (z - y) == z - x;
  }

  lemma WrapOnce(d: u32)
    ensures Wrap(d) == d
  {}

  /** The differences add up to one difference. */
  lemma {:induction false} RangeOfDeltas(totals: seq<int>, a: nat, b: nat)
    requires a <= b < |totals|
    ensures Wrap(Range(Deltas(totals), a, b)) == Wrap(totals[b] - totals[a])
  {
    if a < b {
      RangeOfDeltas(totals, a, b - 1);
      Telescope(Range(Deltas(totals), a, b - 1), totals[a], totals[b - 1], totals[b], Deltas(totals)[b - 1]);
    }
  }

  /** The loop's sum, in 32 bits, is the difference of two totals. */
  lemma SumIsDifference(ring: seq<u32>, totals: seq<int>)
    requires |totals| > 0 && Ringed(ring, Deltas(totals))
    ensures Wrap(Sum(ring, Min(|totals| - 1, |ring|))) == Wrap(Recent(totals[|totals| - 1], totals, |ring|))
  {
    var n := |totals| - 1;
    SumIsRange(ring, Deltas(totals));
    RangeOfDeltas(totals, n - Min(n, |ring|), n);
  }

  // ---------------------------------------------------------------- packets

  /** A packet is one `Frame`, followed by a `Drop` if the output refuses it, before the next
      `Frame`; polls fall anywhere in between. */
  predicate Packets(es: seq<Event>) {
    es == [] || (Packets(es[..|es| - 1]) && (es[|es| - 1] == Drop ==> Unanswered(es[..|es| - 1])))
  }

  /** The newest event that is not a poll is a frame. */
  predicate Unanswered(es: seq<Event>) {
    es != [] && if es[|es| - 1] == Poll then Unanswered(es[..|es| - 1]) else es[|es| - 1] == Frame
  }

  lemma {:induction false} OneMarkPerPoll(es: seq<Event>)
    ensures |Replay(es).frameMarks| == |Replay(es).dropMarks| > 0
  {
    if es != [] {
      OneMarkPerPoll(es[..|es| - 1]);
    }
  }

  /** Since any poll drops exceed frames by one at most, and by none while a frame is unanswered. */
  lemma {:induction false} DropsSincePoll(es: seq<Event>, k: nat)
    requires Packets(es) && k < |Replay(es).frameMarks|
    ensures k < |Replay(es).dropMarks|
    ensures var t := Replay(es);
            && 0 <= t.frames - t.frameMarks[k] <= |es|
            && t.drops - t.dropMarks[k] <= t.frames - t.frameMarks[k] + (if Unanswered(es) then 0 else 1)
            && t.drops >= t.dropMarks[k]
  {
    OneMarkPerPoll(es);
    if es != [] {
      var front := es[..|es| - 1];
      OneMarkPerPoll(front);
      if k < |Replay(front).frameMarks| {
        DropsSincePoll(front, k);
      }
    }
  }

  // ---------------------------------------------------------------- the percentage

  /** The percentage computed in 32 bits from the sums of the two rings. */
  function Pct(drops: u32, frames: u32): u32 {
    if frames > 0 then Wrap(drops * 100) / frames else 0
  }

  /** Whatever the two sums are, wrapped or not, the result is a percentage exactly when the wrapped
      product stays below 101 times the frames, or there are none. */
  lemma PctInRangeIff(drops: u32, frames: u32)
    ensures Pct(drops, frames) <= 100 <==> frames == 0 || Wrap(drops * 100) < 101 * frames
  {
    if frames > 0 {
      if Wrap(drops * 100) < 101 * frames {
        QuotientAtMost(Wrap(drops * 100), frames);
      } else {
        QuotientAtLeast(Wrap(drops * 100), frames);
      }
    }
  }

  /** Where the product fits 32 bits the result is the share of the drops in per cent, rounded down. */
  lemma PctIsShare(drops: u32, frames: u32)
    requires frames > 0 && drops * 100 < 0x1_0000_0000
    ensures Pct(drops, frames) * frames <= drops * 100 < (Pct(drops, frames) + 1) * frames
  {
    WrapOnce(drops * 100);
    QuotientBounds(drops * 100, frames);
  }

  lemma QuotientBounds(x: nat, n: nat)
    requires n > 0
    ensures x / n * n <= x < (x / n + 1) * n
  {}

  /** With at most one drop more than frames the result is a percentage exactly when there are
      no more drops than frames, or more than 100 frames, or none. */
  lemma PctInRangeExactlyWhen(drops: u32, frames: u32)
    requires drops <= frames + 1
    ensures Pct(drops, frames) <= 100 <==> drops <= frames || frames > 100 || frames == 0
  {
    PctInRangeIff(drops, frames);
    var x := Wrap(drops * 100);
    if drops <= frames || frames > 100 {
      assert x <= drops * 100 <= 100 * frames + 100 && (drops <= frames ==> drops * 100 <= 100 * frames);
    } else {
      assert x == 100 * frames + 100;
    }
  }

  lemma QuotientAtMost(x: nat, n: nat)
    requires n > 0 && x < 101 * n
    ensures x / n <= 100
  {
    var q := x / n;
    assert q * n <= x;
    if q >= 101 {
      NonNegative(q - 101, n);
    }
  }

  lemma QuotientAtLeast(x: nat, n: nat)
    requires n > 0 && x >= 101 * n
    ensures x / n >= 101
  {
    var q := x / n;
    assert x < q * n + n;
    if q <= 100 {
      NonNegative(100 - q, n);
    }
  }

  /** For a history of packets of any length, also one in which the 32-bit totals have wrapped, the
      number published at a poll is a percentage exactly when the window holds no more drops than
      frames, or more than 100 frames, or none. That is for windows whose own frames do not wrap;
      for others the wrapped sums decide. */
  lemma PublishedPct(es: seq<Event>, w: nat)
    requires Packets(es)
    ensures |Replay(es).frameMarks| == |Replay(es).dropMarks| > 0
    ensures var t := Replay(es);
            var drops, frames := Recent(t.drops, t.dropMarks, w), Recent(t.frames, t.frameMarks, w);
            && 0 <= drops <= frames + 1
            && (frames < 0xFFFF_FFFF ==>
                  (Pct(Wrap(drops), Wrap(frames)) <= 100 <==> drops <= frames || frames > 100 || frames == 0))
            && (Pct(Wrap(drops), Wrap(frames)) <= 100
                <==> Wrap(frames) == 0 || Wrap(Wrap(drops) * 100) < 101 * Wrap(frames))
  {
    OneMarkPerPoll(es);
    var t := Replay(es);
    var n := |t.frameMarks| - 1;
    var drops, frames := Recent(t.drops, t.dropMarks, w), Recent(t.frames, t.frameMarks, w);
    DropsSincePoll(es, n - Min(n, w));
    PctInRangeIff(Wrap(drops), Wrap(frames));
    if frames < 0xFFFF_FFFF {
      PctOfRecent(drops, frames);
    }
  }

  lemma PctOfRecent(drops: int, frames: int)
    requires 0 <= drops <= frames + 1 <= 0xFFFF_FFFF && frames >= 0
    ensures Pct(Wrap(drops), Wrap(frames)) <= 100 <==> drops <= frames || frames > 100 || frames == 0
  {
    PctInRangeExactlyWhen(drops, frames);
  }

  /** For every window there is a history that leaves the range: a poll falls between a frame and its
      drop, the only frame after that is dropped as well, and polls follow until the window begins
      right after the first one. The last poll publishes 200. */
  lemma PctAbove100(w: nat) returns (es: seq<Event>)
    requires w > 0
    ensures Packets(es) && es != [] && es[|es| - 1] == Poll
    ensures var t := Replay(es);
            && |t.dropMarks| > 0 && |t.frameMarks| > 0
            && Recent(t.drops, t.dropMarks, w) == 2 && Recent(t.frames, t.frameMarks, w) == 1
            && Pct(Wrap(2), Wrap(1)) == 200
  {
    es := Extend([], Frame);
    es := Extend(es, Poll);
    es := Extend(es, Drop);
    es := Extend(es, Frame);
    es := Extend(es, Drop);
    es := ThenPolls(es, w);
  }

  lemma {:induction false} ThenPolls(es: seq<Event>, n: nat) returns (longer: seq<Event>)
    requires Packets(es)
    ensures Packets(longer)
    ensures n > 0 ==> longer != [] && longer[|longer| - 1] == Poll
    ensures var s, t := Replay(es), Replay(longer);
            && t.frames == s.frames && t.drops == s.drops
            && |t.frameMarks| == |s.frameMarks| + n && |t.dropMarks| == |s.dropMarks| + n
            && s.frameMarks <= t.frameMarks && s.dropMarks <= t.dropMarks
  {
    if n == 0 {
      longer := es;
    } else {
      longer := ThenPolls(es, n - 1);
      longer := Extend(longer, Poll);
    }
  }

  lemma Extend(es: seq<Event>, e: Event) returns (longer: seq<Event>)
    requires Packets(es) && (e == Drop ==> Unanswered(es))
    ensures Packets(longer) && Replay(longer) == Note(Replay(es), e) && longer == es + [e]
    ensures Unanswered(longer) == if e == Poll then Unanswered(es) else e == Frame
  {
    longer := es + [e];
    assert longer[..|longer| - 1] == es;
  }

  // ---------------------------------------------------------------- the object

  /** A ring after `head` polls, and the 32-bit total seen by the last of them. */
  predicate Kept(ring: seq<u32>, marks: seq<int>, head: nat, prev: u32) {
    |marks| == head + 1 && prev == Wrap(marks[head]) && Ringed(ring, Deltas(marks))
  }

  class MetricsCollector {
    const window: nat
    const dropRing: array<u32>
    const frameRing: array<u32>
    var ringHead: nat
    var ringCount: nat
    var totalFrames: u32
    var totalDrops: u32
    var prevFrames: u32
    var prevDrops: u32
    var frameDropPct: u32
    ghost var tally: Tally

    ghost predicate Valid()
      reads this, dropRing, frameRing
    {
      && window > 0 && dropRing.Length == window && frameRing.Length == window && dropRing != frameRing
      && ringCount == Min(ringHead, window)
      && totalFrames == Wrap(tally.frames) && totalDrops == Wrap(tally.drops)
      && Kept(frameRing[..], tally.frameMarks, ringHead, prevFrames)
      && Kept(dropRing[..], tally.dropMarks, ringHead, prevDrops)
    }

    constructor (w: nat)
      requires w > 0
      ensures Valid() && window == w && tally == EMPTY && frameDropPct == 0
      ensures fresh(dropRing) && fresh(frameRing)
    {
      window := w;
      dropRing := new u32[w](_ => 0);
      frameRing := new u32[w](_ => 0);
      ringHead, ringCount := 0, 0;
      totalFrames, totalDrops, prevFrames, prevDrops, frameDropPct := 0, 0, 0, 0, 0;
      tally := EMPTY;
    }

    method RecordFrame()
      requires Valid()
      modifies this`totalFrames, this`tally
      ensures Valid() && tally == Note(old(tally), Frame)
    {
      WrapAdds(tally.frames, 1);
      totalFrames := Wrap(totalFrames + 1);
      tally := Note(tally, Frame);
    }

    method RecordFrameDrop()
      requires Valid()
      modifies this`totalDrops, this`tally
      ensures Valid() && tally == Note(old(tally), Drop)
    {
      WrapAdds(tally.drops, 1);
      totalDrops := Wrap(totalDrops + 1);
      tally := Note(tally, Drop);
    }

    /** The published percentage is that of the drops and frames since `window` polls ago. */
    method CalculateFrameDropPct()
      requires Valid()
      modifies this, dropRing, frameRing
      ensures Valid() && tally == Note(old(tally), Poll)
      ensures frameDropPct == Pct(Wrap(Recent(tally.drops, tally.dropMarks, window)),
                                  Wrap(Recent(tally.frames, tally.frameMarks, window)))
    {
      StoreDifferences();
      var drops, frames := SumRings();
      Publish(drops, frames);
    }

    method Publish(drops: u32, frames: u32)
      modifies this`frameDropPct
      ensures frameDropPct == Pct(drops, frames)
    {
      frameDropPct := if frames > 0 then Wrap(drops * 100) / frames else 0;
    }

    /** Puts what was added since the last poll into the next slot of each ring. */
    method StoreDifferences()
      requires Valid()
      modifies this`prevDrops, this`prevFrames, this`ringHead, this`ringCount, this`tally, dropRing, frameRing
      ensures Valid() && tally == Note(old(tally), Poll)
    {
      Store(dropRing, prevDrops, totalDrops, tally.dropMarks, tally.drops);
      Store(frameRing, prevFrames, totalFrames, tally.frameMarks, tally.frames);
      prevDrops := totalDrops;
      prevFrames := totalFrames;
      ringHead := ringHead + 1;
      ringCount := if ringCount + 1 < window then ringCount + 1 else window;
      tally := Note(tally, Poll);
    }

    method Store(ring: array<u32>, prev: u32, total: u32, ghost marks: seq<int>, ghost trueTotal: int)
      requires ring.Length > 0 && Kept(ring[..], marks, ringHead, prev) && total == Wrap(trueTotal)
      modifies ring
      ensures Kept(ring[..], marks + [trueTotal], ringHead + 1, total)
    {
      StoreOne(ring[..], marks, ringHead, prev, trueTotal);
      SlotIsRemainder(ringHead, ring.Length);
      var delta := Wrap(total - prev);
      ring[ringHead % ring.Length] := delta;
      assert ring[..] == old(ring[..])[Slot(ringHead, ring.Length) := delta];
    }

    method SumRings() returns (drops: u32, frames: u32)
      requires Valid()
      ensures tally.drops == tally.dropMarks[ringHead] ==>
                drops == Wrap(Recent(tally.drops, tally.dropMarks, window))
      ensures tally.frames == tally.frameMarks[ringHead] ==>
                frames == Wrap(Recent(tally.frames, tally.frameMarks, window))
    {
      drops, frames := 0, 0;
      for i := 0 to ringCount
        invariant drops == Wrap(Sum(dropRing[..], i)) && frames == Wrap(Sum(frameRing[..], i))
      {
        WrapAdds(Sum(dropRing[..], i), dropRing[i]);
        WrapAdds(Sum(frameRing[..], i), frameRing[i]);
        drops := Wrap(drops + dropRing[i]);
        frames := Wrap(frames + frameRing[i]);
      }
      SumIsDifference(dropRing[..], tally.dropMarks);
      SumIsDifference(frameRing[..], tally.frameMarks);
    }
  }

  lemma StoreOne(ring: seq<u32>, marks: seq<int>, head: nat, prev: u32, total: int)
    requires Kept(ring, marks, head, prev)
    ensures Kept(ring[Slot(head, |ring|) := Wrap(Wrap(total) - prev)], marks + [total], head + 1, Wrap(total))
  {
    assert Deltas(marks + [total]) == Deltas(marks) + [Wrap(total - marks[head])];
    WrapSubtracts(total, marks[head]);
    StoreKeepsRing(ring, Deltas(marks), Wrap(total - marks[head]));
  }
}
