/** Frame pacing against absolute deadlines. The performance counter enters as the readings that
    a call makes of it; between two readings any time may pass. */
module FramePacer {

  const RESYNC_FRAMES: int := 4
  const MICROS: int := 1_000_000

  /** One call: the first reading of the clock and the last, which is the first when the call
      does not wait. */
  datatype Call = Call(now: int, last: int)

  /** The deadline for the next frame; `f` is the frame length in ticks. */
  function NextDeadline(deadline: int, f: int, now: int): int {
    if Resyncs(deadline, f, now) then now + f else deadline + f
  }

  /** More than four frames late: the schedule restarts from the present. */
  predicate Resyncs(deadline: int, f: int, now: int) {
    deadline + f - now < -f * RESYNC_FRAMES
  }

  predicate Waits(deadline: int, f: int, now: int) {
    !Resyncs(deadline, f, now) && deadline + f > now
  }

  function Deadline(start: int, f: int, calls: seq<Call>): int {
    if calls == [] then start
    else NextDeadline(Deadline(start, f, calls[..|calls| - 1]), f, calls[|calls| - 1].now)
  }

  /** The deadline in force when call `k` begins. */
  function Before(start: int, f: int, calls: seq<Call>, k: nat): int
    requires k < |calls|
  {
    Deadline(start, f, calls[..k])
  }

  predicate CallResyncs(start: int, f: int, calls: seq<Call>, k: nat)
    requires k < |calls|
  {
    Resyncs(Before(start, f, calls, k), f, calls[k].now)
  }

  /** What one call can have seen of the clock. */
  predicate Paced(start: int, f: int, calls: seq<Call>, k: nat)
    requires k < |calls|
  {
    var d := Before(start, f, calls, k);
    && calls[k].now <= calls[k].last
    && (Waits(d, f, calls[k].now) ==> d + f <= calls[k].last)
  }

  /** A run: the clock never goes back, and every waiting call waited for its deadline. */
  predicate Run(start: int, f: int, calls: seq<Call>) {
    && (forall k: nat | k < |calls| :: Paced(start, f, calls, k))
    && (forall k | 0 < k < |calls| :: calls[k - 1].last <= calls[k].now)
  }

  lemma BeforeNext(start: int, f: int, calls: seq<Call>, k: nat)
    requires k + 1 < |calls|
    ensures Before(start, f, calls, k + 1) == NextDeadline(Before(start, f, calls, k), f, calls[k].now)
  {
    assert calls[..k + 1][..k] == calls[..k];
  }

  /** Each call moves the deadline by a frame at least. */
  lemma {:induction false} DeadlinesSpread(start: int, f: int, calls: seq<Call>, j: nat, k: nat)
    requires f > 0 && j <= k < |calls|
    ensures Before(start, f, calls, k) >= Before(start, f, calls, j) + (k - j) * f
  {
    if j < k {
      DeadlinesSpread(start, f, calls, j, k - 1);
      BeforeNext(start, f, calls, k - 1);
      assert (k - j) * f == (k - 1 - j) * f + f;
    }
  }

  /** Catch-up bursts are bounded: `k - j` calls take at least `k - j - 4` frame lengths,
      whatever the clock does between them. */
  lemma RateBound(start: int, f: int, calls: seq<Call>, j: nat, k: nat)
    requires f > 0 && Run(start, f, calls) && j < k < |calls|
    ensures (k - j - 4) * f <= calls[k].last - calls[j].now
  {
    BeforeNext(start, f, calls, j);
    DeadlinesSpread(start, f, calls, j + 1, k);
    assert Paced(start, f, calls, k);
    assert (k - j - 1) * f == (k - j - 4) * f + 3 * f;
  }

  /** Hence at most `w / f + 5` calls fit between two readings `w` ticks apart. */
  lemma BurstBound(start: int, f: int, calls: seq<Call>, j: nat, k: nat, w: int)
    requires f > 0 && Run(start, f, calls) && j < k < |calls|
    requires calls[k].last - calls[j].now <= w
    ensures k - j + 1 <= w / f + 5
  {
    RateBound(start, f, calls, j, k);
    Fits(k - j - 4, f, w);
  }

  lemma Fits(n: int, f: int, w: int)
    requires f > 0 && n * f <= w
    ensures n <= w / f
  {
    var q := w / f;
    assert w < q * f + f;
    if n > q {
      Scale(q + 1, n, f);
    }
  }

  lemma Scale(a: int, b: int, f: int)
    requires a <= b && f > 0
    ensures a * f <= b * f
  {
    assert (b - a) * f >= 0;
    assert (b - a) * f == b * f - a * f;
  }

  /** The schedule that reaches the bound: one call four frames late, then calls that return as
      soon as they may. */
  function LateRun(f: int, m: nat): seq<Call> {
    if m == 0 then [Call(Frames(5, f), Frames(5, f))]
    else LateRun(f, m - 1) + [LateCall(f, m)]
  }

  function LateCall(f: int, m: nat): Call
    requires m > 0
  {
    Call(LateReturn(f, m - 1), LateReturn(f, m))
  }

  function LateReturn(f: int, m: nat): int {
    if m <= 4 then Frames(5, f) else Frames(m + 1, f)
  }

  function Frames(n: int, f: int): int { n * f }

  lemma {:induction false} LateRunIsRun(f: int, m: nat)
    requires f > 0
    ensures |LateRun(f, m)| == m + 1 && Run(0, f, LateRun(f, m))
    ensures Deadline(0, f, LateRun(f, m)) == Frames(m + 1, f)
    ensures LateRun(f, m)[m].last == LateReturn(f, m) && LateRun(f, m)[0].now == Frames(5, f)
  {
    LateStep(f, m);
    if m == 0 {
      LateStart(f, LateRun(f, 0)[0]);
    } else {
      LateRunIsRun(f, m - 1);
      RunExtends(0, f, LateRun(f, m - 1), LateCall(f, m));
    }
  }

  lemma LateStart(f: int, c: Call)
    requires c.now == c.last && !Waits(0, f, c.now)
    ensures Run(0, f, [c]) && Deadline(0, f, [c]) == NextDeadline(0, f, c.now)
  {
    RunExtends(0, f, [], c);
    assert [] + [c] == [c];
  }

  lemma LateStep(f: int, m: nat)
    requires f > 0
    ensures m == 0 ==> NextDeadline(0, f, Frames(5, f)) == Frames(1, f) && !Waits(0, f, Frames(5, f))
    ensures m > 0 ==>
              && LateReturn(f, m - 1) <= LateReturn(f, m)
              && NextDeadline(Frames(m, f), f, LateReturn(f, m - 1)) == Frames(m + 1, f)
              && (Waits(Frames(m, f), f, LateReturn(f, m - 1)) ==> Frames(m, f) + f <= LateReturn(f, m))
  {
    assert (m + 1) * f == m * f + f;
    if 0 < m <= 5 {
      Scale(1, m, f);
    }
    if m == 5 {
      assert m * f == 5 * f;
    }
  }

  /** The bound cannot be improved. */
  lemma RateBoundIsSharp(f: int, m: nat)
    requires f > 0 && m >= 4
    ensures exists calls: seq<Call> ::
              && Run(0, f, calls) && |calls| == m + 1
              && calls[m].last - calls[0].now == (m - 4) * f
  {
    LateRunIsRun(f, m);
    assert (m + 1) * f == (m - 4) * f + 5 * f;
  }

  /** The deadline is the start plus the number of frames exactly in runs without a resync;
      a resync moves it further, for good. */
  lemma {:induction false} NoDrift(start: int, f: int, calls: seq<Call>)
    requires f > 0
    ensures Deadline(start, f, calls) >= start + |calls| * f
    ensures Deadline(start, f, calls) == start + |calls| * f
            <==> forall k: nat | k < |calls| :: !CallResyncs(start, f, calls, k)
  {
    if calls != [] {
      var m := |calls| - 1;
      var front := calls[..m];
      NoDrift(start, f, front);
      assert |calls| * f == m * f + f;
      assert CallResyncs(start, f, calls, m) <==> Resyncs(Deadline(start, f, front), f, calls[m].now);
      forall k: nat | k < m ensures CallResyncs(start, f, calls, k) == CallResyncs(start, f, front, k) {
        assert calls[..k] == front[..k] && calls[k] == front[k];
      }
    }
  }

  /** A call that does not resync returns no earlier than its deadline; one that does leaves
      exactly one frame until the next deadline. */
  lemma ReturnsAfterDeadline(start: int, f: int, calls: seq<Call>, k: nat)
    requires f > 0 && Run(start, f, calls) && k < |calls|
    ensures CallResyncs(start, f, calls, k) ==> Deadline(start, f, calls[..k + 1]) == calls[k].now + f
    ensures !CallResyncs(start, f, calls, k) ==> Deadline(start, f, calls[..k + 1]) <= calls[k].last
  {
    assert calls[..k + 1][..k] == calls[..k];
    assert Paced(start, f, calls, k);
  }

  function TicksToMicros(t: nat, freq: nat): nat
    requires freq > 0
  {
    t * MICROS / freq
  }

  /** A presentation time is right to the microsecond, and later frames never have earlier ones. */
  lemma MicrosAreExact(t: nat, later: nat, freq: nat)
    requires freq > 0 && t <= later
    ensures TicksToMicros(t, freq) * freq <= t * 1_000_000 < (TicksToMicros(t, freq) + 1) * freq
    ensures TicksToMicros(t, freq) <= TicksToMicros(later, freq)
  {
    var p, q := TicksToMicros(t, freq), TicksToMicros(later, freq);
    Divides(t * MICROS, freq);
    Divides(later * MICROS, freq);
    if p > q {
      Scale(q + 1, p, freq);
    }
  }

  lemma Divides(x: nat, n: nat)
    requires n > 0
    ensures x / n * n <= x < (x / n + 1) * n
  {
    var q := x / n;
    assert x == q * n + x % n;
    assert (q + 1) * n == q * n + n;
  }

  predicate Sorted(s: seq<int>) {
    forall i, j | 0 <= i < j < |s| :: s[i] <= s[j]
  }

  class FramePacer {
    var qpcFreq: nat
    var frameTicks: int
    var ptsOrigin: int
    var nextDeadline: int
    ghost var start: int
    ghost var calls: seq<Call>

    ghost predicate Valid()
      reads this
    {
      && nextDeadline == Deadline(start, frameTicks, calls)
      && Run(start, frameTicks, calls)
    }

    constructor ()
      ensures Valid() && calls == [] && frameTicks == 0
    {
      qpcFreq, frameTicks, ptsOrigin, nextDeadline := 0, 0, 0, 0;
      start, calls := 0, [];
    }

    /** `freq` is the counter's frequency, 0 when it cannot be had; `t0` and `t1` are the two
        readings, the second not before the first. */
    method Init(fps: nat, freq: nat, t0: int, t1: int) returns (ok: bool)
      requires Valid() && t0 <= t1
      modifies this
      ensures Valid()
      ensures ok <==> fps != 0 && freq != 0
      ensures ok ==> frameTicks == freq / fps && start == t1 + frameTicks && ptsOrigin == t0 && qpcFreq == freq && calls == []
      ensures ok && fps <= freq ==> frameTicks > 0
      ensures !ok ==> frameTicks == old(frameTicks) && nextDeadline == old(nextDeadline) && calls == old(calls)
    {
      if fps == 0 || freq == 0 {
        return false;
      }
      qpcFreq := freq;
      frameTicks := freq / fps;
      if fps <= freq {
        AtLeastOne(freq, fps);
      }
      ptsOrigin := t0;
      nextDeadline := t1 + frameTicks;
      start, calls := nextDeadline, [];
      return true;
    }

    /** `readings` are what the counter would show at each reading from here on. The clock goes
        on past the deadline, so that waiting comes to an end. */
    method Pace(readings: seq<int>) returns (used: nat)
      requires Valid() && Sorted(readings) && readings != []
      requires readings[|readings| - 1] >= nextDeadline + frameTicks
      requires calls != [] ==> calls[|calls| - 1].last <= readings[0]
      modifies this`nextDeadline, this`calls
      ensures Valid()
      ensures 0 < used <= |readings|
      ensures calls == old(calls) + [Call(readings[0], readings[used - 1])]
      ensures forall i | 0 < i < used - 1 :: readings[i] < nextDeadline
      ensures used > 1 <==> Waits(old(nextDeadline), frameTicks, readings[0])
    {
      ghost var before := nextDeadline;
      nextDeadline := nextDeadline + frameTicks;
      var now := readings[0];
      used := 1;
      var remain := nextDeadline - now;
      if remain < -frameTicks * RESYNC_FRAMES {
        nextDeadline := now + frameTicks;
      } else if remain > 0 {
        var i := 1;
        while readings[i] < nextDeadline
          invariant 0 < i < |readings|
          invariant forall k | 0 < k < i :: readings[k] < nextDeadline
          decreases |readings| - i
        {
          i := i + 1;
        }
        used := i + 1;
      }
      calls := calls + [Call(now, readings[used - 1])];
      RunExtends(start, frameTicks, old(calls), calls[|calls| - 1]);
    }

    /** The presentation time of a frame that begins at reading `t`. */
    method PtsMicros(t: int) returns (pts: nat)
      requires qpcFreq > 0 && t >= ptsOrigin
      ensures pts == TicksToMicros(t - ptsOrigin, qpcFreq)
    {
      pts := (t - ptsOrigin) * MICROS / qpcFreq;
    }
  }

  lemma AtLeastOne(a: nat, b: nat)
    requires 0 < b <= a
    ensures a / b > 0
  {}

  lemma RunExtends(start: int, f: int, calls: seq<Call>, c: Call)
    requires Run(start, f, calls)
    requires c.now <= c.last && (calls != [] ==> calls[|calls| - 1].last <= c.now)
    requires Waits(Deadline(start, f, calls), f, c.now) ==> Deadline(start, f, calls) + f <= c.last
    ensures Run(start, f, calls + [c])
    ensures Deadline(start, f, calls + [c]) == NextDeadline(Deadline(start, f, calls), f, c.now)
  {
    var all := calls + [c];
    assert all[..|calls|] == calls;
    forall k: nat | k < |all| ensures Paced(start, f, all, k) {
      if k < |calls| {
        assert Paced(start, f, calls, k) && all[..k] == calls[..k];
      }
    }
  }
}
