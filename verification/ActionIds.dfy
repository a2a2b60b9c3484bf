/** Action identifiers: a 32-bit counter that wraps and never hands out zero. */
module ActionIds {

  import opened Basics

  const ID_COUNT: int := U32_SIZE - 1

  /** An atomic add: the value before it, and the counter after it. */
  function FetchAdd(counter: u32): (u32, u32) {
    (counter, (counter + 1) % U32_SIZE)
  }

  /** The next identifier and the counter left behind. */
  function NextId(counter: u32): (u32, u32) {
    var (id, after) := FetchAdd(counter);
    if id == 0 then FetchAdd(after) else (id, after)
  }

  function CounterAfter(counter: u32, n: nat): u32 {
    if n == 0 then counter else NextId(CounterAfter(counter, n - 1)).1
  }

  /** The identifier of allocation number `k`, counting from zero. */
  function NthId(counter: u32, k: nat): u32 {
    NextId(CounterAfter(counter, k)).0
  }

  /** Position of the first identifier on the ring of the non-zero ones. */
  function RingStart(counter: u32): nat {
    if counter == 0 then 0 else counter - 1
  }

  lemma NextOnRing(counter: u32)
    ensures NextId(counter).0 == 1 + RingStart(counter)
    ensures RingStart(NextId(counter).1) == (RingStart(counter) + 1) % ID_COUNT
  {}

  lemma RingStep(x: nat)
    ensures (x % ID_COUNT + 1) % ID_COUNT == (x + 1) % ID_COUNT
  {}

  lemma {:induction false} CounterOnRing(counter: u32, n: nat)
    ensures RingStart(CounterAfter(counter, n)) == (RingStart(counter) + n) % ID_COUNT
  {
    if n > 0 {
      CounterOnRing(counter, n - 1);
      NextOnRing(CounterAfter(counter, n - 1));
      RingStep(RingStart(counter) + n - 1);
    }
  }

  lemma NthIdOnRing(counter: u32, k: nat)
    ensures NthId(counter, k) == 1 + (RingStart(counter) + k) % ID_COUNT
  {
    CounterOnRing(counter, k);
    NextOnRing(CounterAfter(counter, k));
  }

  lemma RingDistinct(a: nat, b: nat)
    requires a < b < a + ID_COUNT
    ensures a % ID_COUNT != b % ID_COUNT
  {}

  lemma RingRepeats(a: nat)
    ensures (a + ID_COUNT) % ID_COUNT == a % ID_COUNT
  {}

  /** Identifiers are never zero, and any 2^32 - 1 consecutive ones are pairwise distinct,
      also across the wrap of the counter. */
  lemma IdsDistinct(counter: u32, i: nat, j: nat)
    requires i < j < i + 0xFFFF_FFFF
    ensures NthId(counter, i) != 0 && NthId(counter, i) != NthId(counter, j)
  {
    NthIdOnRing(counter, i);
    NthIdOnRing(counter, j);
    RingDistinct(RingStart(counter) + i, RingStart(counter) + j);
  }

  /** The bound is exact: the next identifier after those repeats the first. */
  lemma IdsRepeat(counter: u32, i: nat)
    ensures NthId(counter, i + 0xFFFF_FFFF) == NthId(counter, i)
  {
    NthIdOnRing(counter, i);
    NthIdOnRing(counter, i + ID_COUNT);
    RingRepeats(RingStart(counter) + i);
  }
}
