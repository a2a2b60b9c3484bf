/** The 64-bit FNV-1a hash behind the shader cache's keys. Words are integers below 2^64. */
module ShaderHash {
  import opened Basics

  const WORD: nat := 0x1_0000_0000_0000_0000
  const OFFSET_BASIS: u64 := 14695981039346656037
  const PRIME: nat := 1099511628211

  /** The inverse of the prime modulo 2^64; it exists because the prime is odd. */
  const PRIME_INVERSE: nat := 14886173955864302971

  type u64 = x: nat | x < 0x1_0000_0000_0000_0000

  /** Exclusive or, binary digit by binary digit. */
  function Xor(a: nat, b: nat): nat {
    if a == 0 && b == 0 then 0 else 2 * Xor(a / 2, b / 2) + (a + b) % 2
  }

  function XorByte(h: u64, b: u8): u64 {
    WordIsPow2();
    XorBound(h, b, 64);
    Xor(h, b)
  }

  function TimesPrime(h: u64): u64 { h * PRIME % WORD }

  function Step(h: u64, b: u8): u64 { TimesPrime(XorByte(h, b)) }

  /** The hash of `data` continued from state `h`. */
  function Fold(h: u64, data: seq<u8>): u64 {
    if data == [] then h else Step(Fold(h, data[..|data| - 1]), data[|data| - 1])
  }

  method Hash(data: seq<u8>) returns (h: u64)
    ensures h == Fold(OFFSET_BASIS, data)
  {
    h := OFFSET_BASIS;
    for i := 0 to |data|
      invariant h == Fold(OFFSET_BASIS, data[..i])
    {
      assert data[..i + 1][..i] == data[..i];
      h := XorByte(h, data[i]);
      h := h * PRIME % WORD;
    }
    assert data[..|data|] == data;
  }

  // ---------------------------------------------------------------- one step

  function Pow2(n: nat): nat { if n == 0 then 1 else 2 * Pow2(n - 1) }

  lemma Pow2Byte(n: nat)
    ensures Pow2(n + 8) == 256 * Pow2(n)
  {
    assert Pow2(n + 4) == 8 * Pow2(n + 1) by { assert Pow2(n + 2) == 2 * Pow2(n + 1); assert Pow2(n + 3) == 2 * Pow2(n + 2); }
    assert Pow2(n + 8) == 8 * Pow2(n + 5) by { assert Pow2(n + 6) == 2 * Pow2(n + 5); assert Pow2(n + 7) == 2 * Pow2(n + 6); }
  }

  lemma WordIsPow2()
    ensures Pow2(64) == WORD
  {
    Pow2Byte(0);
    Pow2Byte(8);
    Pow2Byte(16);
    Pow2Byte(24);
    Pow2Byte(32);
    Pow2Byte(40);
    Pow2Byte(48);
    Pow2Byte(56);
  }

  lemma {:induction false} XorBound(a: nat, b: nat, n: nat)
    requires a < Pow2(n) && b < Pow2(n)
    ensures Xor(a, b) < Pow2(n)
  {
    if n > 0 && (a != 0 || b != 0) {
      XorBound(a / 2, b / 2, n - 1);
    }
  }

  lemma XorDigits(a: nat, b: nat)
    ensures Xor(a, b) / 2 == Xor(a / 2, b / 2)
    ensures Xor(a, b) % 2 == (a + b) % 2
  {}

  lemma ParityTwice(a: nat, b: nat, x: nat)
    requires x % 2 == (a + b) % 2
    ensures (x + b) % 2 == a % 2
  {}

  lemma {:induction false} XorTwice(a: nat, b: nat)
    ensures Xor(Xor(a, b), b) == a
  {
    if a != 0 || b != 0 {
      XorTwice(a / 2, b / 2);
      XorDigits(a, b);
      XorDigits(Xor(a, b), b);
      ParityTwice(a, b, Xor(a, b));
    }
  }

  lemma {:induction false} XorCommutes(a: nat, b: nat)
    ensures Xor(a, b) == Xor(b, a)
  {
    if a != 0 || b != 0 {
      XorCommutes(a / 2, b / 2);
    }
  }

  function OverPrime(h: u64): u64 { h * PRIME_INVERSE % WORD }

  lemma Residue(x: u64, t: int)
    ensures (x + WORD * t) % WORD == x
  {}

  /** Multiplication by the prime can be undone. */
  lemma PrimeCancels(x: u64)
    ensures OverPrime(TimesPrime(x)) == x
    ensures TimesPrime(OverPrime(x)) == x
  {
    var p, q := x * PRIME / WORD, x * PRIME_INVERSE / WORD;
    assert PRIME * PRIME_INVERSE == 1 + WORD * 887285111055;
    assert TimesPrime(x) == x * PRIME - WORD * p;
    assert TimesPrime(x) * PRIME_INVERSE == x + WORD * (x * 887285111055 - p * PRIME_INVERSE);
    Residue(x, x * 887285111055 - p * PRIME_INVERSE);
    assert OverPrime(x) == x * PRIME_INVERSE - WORD * q;
    assert OverPrime(x) * PRIME == x + WORD * (x * 887285111055 - q * PRIME);
    Residue(x, x * 887285111055 - q * PRIME);
  }

  function Unstep(k: u64, b: u8): u64 { XorByte(OverPrime(k), b) }

  /** For a fixed byte a step is a bijection on the states. */
  lemma StepIsBijective(h: u64, b: u8)
    ensures Unstep(Step(h, b), b) == h
    ensures Step(Unstep(h, b), b) == h
  {
    PrimeCancels(XorByte(h, b));
    XorTwice(h, b);
    PrimeCancels(h);
    XorTwice(OverPrime(h), b);
  }

  /** For a fixed state different bytes lead to different states. */
  lemma StepSeparatesBytes(h: u64, b: u8, c: u8)
    requires Step(h, b) == Step(h, c)
    ensures b == c
  {
    PrimeCancels(XorByte(h, b));
    PrimeCancels(XorByte(h, c));
    XorCommutes(h, b);
    XorCommutes(h, c);
    XorTwice(b, h);
    XorTwice(c, h);
  }

  // ---------------------------------------------------------------- whole inputs

  /** Hashing a concatenation continues from the hash of the first part. */
  lemma {:induction false} FoldConcat(h: u64, a: seq<u8>, b: seq<u8>)
    ensures Fold(h, a + b) == Fold(Fold(h, a), b)
  {
    if b == [] {
      assert a + b == a;
    } else {
      assert (a + b)[..|a + b| - 1] == a + b[..|b| - 1];
      FoldConcat(h, a, b[..|b| - 1]);
    }
  }

  /** The states that reach `k` over `data`: there is exactly one. */
  function Unfold(k: u64, data: seq<u8>): u64
    decreases |data|
  {
    if data == [] then k else Unfold(Unstep(k, data[|data| - 1]), data[..|data| - 1])
  }

  lemma {:induction false} FoldIsBijective(h: u64, data: seq<u8>)
    ensures Unfold(Fold(h, data), data) == h
    ensures Fold(Unfold(h, data), data) == h
    decreases |data|
  {
    if data != [] {
      var front, b := data[..|data| - 1], data[|data| - 1];
      StepIsBijective(Fold(h, front), b);
      FoldIsBijective(h, front);
      FoldIsBijective(Unstep(h, b), front);
      StepIsBijective(h, b);
    }
  }

  /** A common beginning and a common end have no part in whether two inputs collide. */
  lemma OnlyTheMiddleCounts(pre: seq<u8>, a: seq<u8>, b: seq<u8>, post: seq<u8>)
    ensures Fold(OFFSET_BASIS, pre + a + post) == Fold(OFFSET_BASIS, pre + b + post)
            <==> Fold(Fold(OFFSET_BASIS, pre), a) == Fold(Fold(OFFSET_BASIS, pre), b)
  {
    var h := Fold(OFFSET_BASIS, pre);
    forall m | m in [a, b] ensures Fold(OFFSET_BASIS, pre + m + post) == Fold(Fold(h, m), post) {
      FoldConcat(OFFSET_BASIS, pre + m, post);
      FoldConcat(OFFSET_BASIS, pre, m);
    }
    assert [a, b][0] == a && [a, b][1] == b;
    FoldIsBijective(Fold(h, a), post);
    FoldIsBijective(Fold(h, b), post);
  }

  /** Inputs of one length that differ in a single byte have different hashes. */
  lemma OneByteNeverCollides(a: seq<u8>, b: seq<u8>, i: nat)
    requires |a| == |b| && i < |a| && a[i] != b[i]
    requires forall j | 0 <= j < |a| && j != i :: a[j] == b[j]
    ensures Fold(OFFSET_BASIS, a) != Fold(OFFSET_BASIS, b)
  {
    var pre, post := a[..i], a[i + 1..];
    assert a == pre + [a[i]] + post;
    assert b == pre + [b[i]] + post;
    OnlyTheMiddleCounts(pre, [a[i]], [b[i]], post);
    var h := Fold(OFFSET_BASIS, pre);
    FoldOfOne(h, a[i]);
    FoldOfOne(h, b[i]);
    if Step(h, a[i]) == Step(h, b[i]) {
      StepSeparatesBytes(h, a[i], b[i]);
    }
  }

  lemma {:induction false} XorZero(a: nat)
    ensures Xor(a, 0) == a
  {
    if a != 0 {
      XorZero(a / 2);
    }
  }

  lemma XorMore(m: nat, n: nat, c: nat, d: nat, x: nat)
    requires c < 2 && d < 2 && m % 2 == c && n % 2 == d && Xor(m / 2, n / 2) == x
    ensures Xor(m, n) == 2 * x + (c + d) % 2
  {
    XorDigits(m, n);
    FromDigits(Xor(m, n), x, m, n, c, d);
  }

  lemma FromDigits(y: nat, x: nat, m: nat, n: nat, c: nat, d: nat)
    requires y / 2 == x && y % 2 == (m + n) % 2 && m % 2 == c && n % 2 == d
    ensures y == 2 * x + (c + d) % 2
  {}

  /** 37 and 97 are 0100101 and 1100001 in binary, 68 is 1000100: first the three upper digits. */
  lemma XorUpper(h: nat)
    requires h % 8 == 2
    ensures Xor(h, 6) == 8 * (h / 8) + 4
  {
    XorZero(h / 8);
    assert h / 2 % 2 == 1 && h / 4 % 2 == 0 && h / 2 / 2 == h / 4 && h / 4 / 2 == h / 8;
    XorMore(h / 4, 1, 0, 1, h / 8);
    XorMore(h / 2, 3, 1, 1, 2 * (h / 8) + 1);
    XorMore(h, 6, 0, 0, 4 * (h / 8) + 2);
  }

  lemma XorLower(h: nat, a: nat, b: nat, c: nat, d: nat, x: nat)
    requires h / 2 == a && a / 2 == b && b / 2 == c && c / 2 == d && Xor(d, 6) == x
    requires h % 2 == 1 && a % 2 == 0 && b % 2 == 1 && c % 2 == 0
    ensures Xor(h, 97) == 16 * x + 4
  {
    XorMore(c, 12, 0, 0, x);
    XorMore(b, 24, 1, 0, 2 * x);
    XorMore(a, 48, 0, 0, 4 * x + 1);
    XorMore(h, 97, 1, 1, 8 * x + 2);
  }

  lemma LetterStep(h: u64)
    requires h == 0xCBF2_9CE4_8422_2325
    ensures Step(h, 97) == 0xAF63_DC4C_8601_EC8C
  {
    XorUpper(h / 16);
    XorLower(h, h / 2, h / 4, h / 8, h / 16, 8 * (h / 128) + 4);
    LetterProduct(XorByte(h, 97));
  }

  lemma LetterProduct(x: u64)
    requires x == 0xCBF2_9CE4_8422_2344
    ensures TimesPrime(x) == 0xAF63_DC4C_8601_EC8C
  {
    assert x * PRIME == 0xCBF2_9CE4_8422_2344 * PRIME;
  }

  /** The published hashes of the empty input and of the letter "a". */
  lemma TestVectors()
    ensures Fold(OFFSET_BASIS, []) == 0xCBF2_9CE4_8422_2325
    ensures Fold(OFFSET_BASIS, [97]) == 0xAF63_DC4C_8601_EC8C
  {
    var h := OFFSET_BASIS;
    LetterStep(h);
    FoldOfOne(h, 97);
  }

  lemma FoldOfOne(h: u64, b: u8)
    ensures Fold(h, [b]) == Step(h, b)
  {
    assert [b][..0] == [];
  }
}
