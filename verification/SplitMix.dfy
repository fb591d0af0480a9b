/**
 The SplitMix64 generator of the benchmark seed planner: 64-bit words are
 integers below 2^64, wrapping arithmetic is reduction modulo 2^64, and a shift
 to the right by k is k halvings.
 */
module SplitMix {
  import opened Machine

  const INCREMENT: u64 := 0x9E3779B97F4A7C15
  const MULTIPLIER1: u64 := 0xBF58476D1CE4E5B9
  const MULTIPLIER2: u64 := 0x94D049BB133111EB

  // Inverses modulo 2^64 of the three odd constants above.
  const INCREMENT_INVERSE: u64 := 0xF1DE83E19937733D
  const MULTIPLIER1_INVERSE: u64 := 0x96DE1B173F119089
  const MULTIPLIER2_INVERSE: u64 := 0x319642B2D24D8EC3

  function Xor(a: nat, b: nat): nat
    decreases a + b
  {
    if a == 0 && b == 0 then 0 else 2 * Xor(a / 2, b / 2) + (a % 2 + b % 2) % 2
  }

  function Shr(a: nat, k: nat): nat
    decreases a, k
  {
    if k == 0 then a else Shr(a / 2, k - 1)
  }

  function XorShift(z: nat, k: nat): nat {
    Xor(z, Shr(z, k))
  }

  /** One xor-shift and wrapping multiplication. */
  function Round(z: u64, k: nat, multiplier: u64): u64 {
    Wrap(XorShift(z, k) * multiplier)
  }

  /** The output function of `next_u64`, applied to the already advanced state. */
  function Mix(state: u64): u64 {
    var z := Round(Round(state, 30, MULTIPLIER1), 27, MULTIPLIER2);
    XorShiftWord(z, 31);
    XorShift(z, 31)
  }

  /** The state after `n` further draws. */
  function Advance(state: u64, n: nat): u64 {
    Wrap(state + INCREMENT * n)
  }

  /** `Rng::new`. */
  function Seeded(seed: u64): u64 {
    Advance(seed, 1)
  }

  /** The 64-bit word drawn at 0-based position `i` of the stream of `seed`. */
  function Output(seed: u64, i: nat): u64 {
    Mix(Advance(Seeded(seed), i + 1))
  }

  /** The words a seed produces, by position. */
  type Stream = nat -> u64

  function StreamOf(seed: u64): Stream {
    i => Output(seed, i)
  }

  /** What `gen_range(n)` yields at position `pos` of a stream, and how many words it consumes. */
  function Below(words: Stream, pos: nat, n: u32): (r: u32)
    ensures n > 0 ==> r < n
  {
    if n == 0 then 0 else words(pos) % n
  }

  function Cost(n: u32): nat {
    if n == 0 then 0 else 1
  }

  class Rng {
    var state: u64
    ghost const seed: u64
    ghost var position: nat

    ghost predicate Valid()
      reads this
    {
      state == Advance(Seeded(seed), position)
    }

    constructor (seed: u64)
      ensures Valid() && this.seed == seed && position == 0
    {
      state := (seed + INCREMENT) % TWO64;
      this.seed := seed;
      position := 0;
    }

    method NextU64() returns (r: u64)
      requires Valid()
      modifies this
      ensures Valid() && position == old(position) + 1
      ensures r == Output(seed, old(position))
    {
      hide XorShift;
      state := (state + INCREMENT) % TWO64;
      AdvanceSum(Seeded(seed), position, 1);
      var z := state;
      z := XorShift(z, 30) * MULTIPLIER1 % TWO64;
      assert z == Round(state, 30, MULTIPLIER1);
      z := XorShift(z, 27) * MULTIPLIER2 % TWO64;
      assert z == Round(Round(state, 30, MULTIPLIER1), 27, MULTIPLIER2);
      XorShiftWord(z, 31);
      r := XorShift(z, 31);
      position := position + 1;
    }

    /** Moves on as `count` draws would, without drawing. */
    method Skip(count: u64)
      requires Valid()
      modifies this
      ensures Valid() && position == old(position) + count
    {
      WrapAbsorbs(state, INCREMENT * count);
      AdvanceSum(Seeded(seed), position, count);
      state := (state + INCREMENT * count % TWO64) % TWO64;
      position := position + count;
    }

    /** A draw below `n`; a zero bound draws nothing. */
    method GenRange(n: u32) returns (r: u32)
      requires Valid()
      modifies this
      ensures Valid() && position == old(position) + Cost(n)
      ensures r == Below(StreamOf(seed), old(position), n)
    {
      if n == 0 {
        return 0;
      }
      var word := NextU64();
      r := word % n;
    }
  }

  // Modular arithmetic

  lemma WrapUnique(n: int, q: int, r: int)
    requires n == q * TWO64 + r && 0 <= r < TWO64
    ensures Wrap(n) == r
  {
  }

  lemma WrapAbsorbs(a: int, b: int)
    ensures Wrap(a + Wrap(b)) == Wrap(a + b)
  {
    var q := b / TWO64;
    var n := a + Wrap(b);
    WrapUnique(a + b, q + n / TWO64, Wrap(n));
  }

  lemma WrapScaled(a: int, c: int)
    ensures Wrap(Wrap(a) * c) == Wrap(a * c)
  {
    var q, r := a / TWO64, a % TWO64;
    assert a * c == q * c * TWO64 + r * c by {
      assert a == q * TWO64 + r;
      assert (q * TWO64) * c == q * c * TWO64;
    }
    var m := r * c;
    WrapUnique(a * c, q * c + m / TWO64, Wrap(m));
  }

  /** Multiplying by c and then by its inverse d changes nothing modulo 2^64. */
  lemma WrapInverse(x: int, c: int, d: int, q: int)
    requires c * d == q * TWO64 + 1
    ensures Wrap(Wrap(x * c) * d) == Wrap(x)
  {
    WrapScaled(x * c, d);
    assert x * c * d == x * q * TWO64 + x by {
      assert x * c * d == x * (c * d);
      assert x * (q * TWO64) == x * q * TWO64;
    }
    WrapUnique(x * c * d, x * q + x / TWO64, Wrap(x));
  }

  // Exclusive or and shifts

  lemma XorZero()
    ensures Xor(0, 0) == 0
  {
  }

  lemma XorBits(a: nat, b: nat)
    ensures Xor(a, b) / 2 == Xor(a / 2, b / 2) && Xor(a, b) % 2 == (a % 2 + b % 2) % 2
  {
  }

  lemma {:induction false} XorCancel(a: nat, b: nat)
    ensures Xor(Xor(a, b), b) == a
    decreases a + b
  {
    hide Xor;
    if a == 0 && b == 0 {
      XorZero();
    } else {
      var x := Xor(a, b);
      XorCancel(a / 2, b / 2);
      XorBits(a, b);
      XorBits(x, b);
      assert Xor(x, b) / 2 == a / 2;
      assert Xor(x, b) % 2 == a % 2;
    }
  }

  lemma {:induction false} ShrXor(a: nat, b: nat, k: nat)
    ensures Shr(Xor(a, b), k) == Xor(Shr(a, k), Shr(b, k))
    decreases k
  {
    if k == 0 {
    } else {
      assert Xor(a, b) / 2 == Xor(a / 2, b / 2);
      ShrXor(a / 2, b / 2, k - 1);
    }
  }

  lemma {:induction false} ShrShrinks(a: nat, k: nat)
    ensures Shr(a, k) <= a && (a > 0 && k > 0 ==> Shr(a, k) < a)
    decreases k
  {
    if k == 0 {
    } else {
      ShrShrinks(a / 2, k - 1);
    }
  }

  function Pow2(k: nat): nat {
    if k == 0 then 1 else 2 * Pow2(k - 1)
  }

  lemma {:induction false} Pow2Sum(j: nat, k: nat)
    ensures Pow2(j + k) == Pow2(j) * Pow2(k)
  {
    if j == 0 {
    } else {
      Pow2Sum(j - 1, k);
      DoubleProduct(Pow2(j - 1), Pow2(k));
    }
  }

  lemma DoubleProduct(a: nat, b: nat)
    ensures 2 * a * b == 2 * (a * b)
  {
  }

  lemma Pow2Word()
    ensures Pow2(64) == TWO64
  {
    hide Pow2;
    Pow2Small();
    Pow2Double(4);
    Pow2Double(8);
    Pow2Double(16);
    Pow2Double(32);
  }

  lemma Pow2Small()
    ensures Pow2(4) == 16
  {
  }

  lemma Pow2Double(k: nat)
    ensures Pow2(2 * k) == Pow2(k) * Pow2(k)
  {
    Pow2Sum(k, k);
  }

  lemma {:induction false} ShrZero(a: nat, k: nat)
    ensures Shr(a, k) == 0 <==> a < Pow2(k)
    decreases k
  {
    if k == 0 {
    } else {
      ShrZero(a / 2, k - 1);
    }
  }

  /** Words stay words under a xor-shift. */
  lemma XorShiftWord(z: u64, k: nat)
    ensures XorShift(z, k) < TWO64
  {
    XorWord(z, Shr(z, k)) by {
      ShrShrinks(z, k);
    }
  }

  lemma XorWord(a: u64, b: u64)
    ensures Xor(a, b) < TWO64
  {
    Pow2Word();
    ShrZero(a, 64);
    ShrZero(b, 64);
    ShrXor(a, b, 64);
    ShrZero(Xor(a, b), 64);
  }

  /** The inverse of `XorShift(_, k)`. */
  function Unshift(y: nat, k: nat): nat
    requires k >= 1
    decreases y
  {
    ShrShrinks(y, k);
    if y == 0 then 0 else Xor(y, Unshift(Shr(y, k), k))
  }

  lemma {:induction false} ShrUnshift(y: nat, k: nat)
    requires k >= 1
    ensures Shr(Unshift(y, k), k) == Unshift(Shr(y, k), k)
    decreases y
  {
    if y == 0 {
      ShrShrinks(0, k);
    } else {
      ShrShrinks(y, k);
      var u := Unshift(Shr(y, k), k);
      ShrXor(y, u, k);
      ShrUnshift(Shr(y, k), k);
      UnshiftUnfold(Shr(y, k), k);
    }
  }

  lemma UnshiftUnfold(y: nat, k: nat)
    requires k >= 1
    ensures Unshift(y, k) == Xor(y, Unshift(Shr(y, k), k))
  {
    ShrShrinks(y, k);
  }

  lemma XorShiftUnshift(y: nat, k: nat)
    requires k >= 1
    ensures XorShift(Unshift(y, k), k) == y
  {
    hide Unshift, Shr, Xor;
    ShrUnshift(y, k);
    UnshiftUnfold(y, k);
    XorCancel(y, Unshift(Shr(y, k), k));
  }

  lemma {:induction false} UnshiftXorShift(z: nat, k: nat)
    requires k >= 1
    ensures Unshift(XorShift(z, k), k) == z
    decreases z
  {
    ShrShrinks(z, k);
    var y := XorShift(z, k);
    UnshiftUnfold(y, k);
    ShrXor(z, Shr(z, k), k);
    if z == 0 {
      assert y == 0;
    } else {
      UnshiftXorShift(Shr(z, k), k);
      XorCancel(z, Shr(z, k));
    }
  }

  lemma {:induction false} UnshiftWord(y: u64, k: nat)
    requires k >= 1
    ensures Unshift(y, k) < TWO64
    decreases y
  {
    if y == 0 {
    } else {
      ShrShrinks(y, k);
      UnshiftWord(Shr(y, k), k);
      XorWord(y, Unshift(Shr(y, k), k));
    }
  }

  // The output function is a bijection on words

  function Unround(y: u64, k: nat, inverse: u64): u64
    requires k >= 1
  {
    var z := Wrap(y * inverse);
    UnshiftWord(z, k);
    Unshift(z, k)
  }

  lemma UnroundRound(z: u64, k: nat, c: u64, d: u64, q: int)
    requires k >= 1 && c * d == q * TWO64 + 1
    ensures Unround(Round(z, k, c), k, d) == z
  {
    hide XorShift, Unshift, Wrap;
    var x := XorShift(z, k);
    XorShiftWord(z, k);
    WrapInverse(x, c, d, q);
    WrapWord(x);
    UnshiftXorShift(z, k);
  }

  lemma RoundUnround(y: u64, k: nat, c: u64, d: u64, q: int)
    requires k >= 1 && d * c == q * TWO64 + 1
    ensures Round(Unround(y, k, d), k, c) == y
  {
    hide XorShift, Unshift, Wrap;
    XorShiftUnshift(Wrap(y * d), k);
    WrapInverse(y, d, c, q);
    WrapWord(y);
  }

  function Unmix(word: u64): u64 {
    UnshiftWord(word, 31);
    Unround(Unround(Unshift(word, 31), 27, MULTIPLIER2_INVERSE), 30, MULTIPLIER1_INVERSE)
  }

  const QUOTIENT1 := 0x70C3BCA78F27F46C
  const QUOTIENT2 := 0x1CD336EDA85F1453
  const QUOTIENT3 := 0x957BBF35006ED677

  lemma Inverses()
    ensures MULTIPLIER1 * MULTIPLIER1_INVERSE == QUOTIENT1 * TWO64 + 1
    ensures MULTIPLIER2 * MULTIPLIER2_INVERSE == QUOTIENT2 * TWO64 + 1
    ensures INCREMENT * INCREMENT_INVERSE == QUOTIENT3 * TWO64 + 1
  {
  }

  lemma UnmixMix(state: u64)
    ensures Unmix(Mix(state)) == state
  {
    hide Round, Unround, XorShift, Unshift;
    Inverses();
    var z1 := Round(state, 30, MULTIPLIER1);
    UnroundRound(state, 30, MULTIPLIER1, MULTIPLIER1_INVERSE, QUOTIENT1);
    var z2 := Round(z1, 27, MULTIPLIER2);
    UnroundRound(z1, 27, MULTIPLIER2, MULTIPLIER2_INVERSE, QUOTIENT2);
    UnshiftXorShift(z2, 31);
  }

  lemma MixUnmix(word: u64)
    ensures Mix(Unmix(word)) == word
  {
    hide Round, Unround, XorShift, Unshift;
    Inverses();
    UnshiftWord(word, 31);
    var y2 := Unshift(word, 31);
    RoundUnround(y2, 27, MULTIPLIER2, MULTIPLIER2_INVERSE, QUOTIENT2);
    var y1 := Unround(y2, 27, MULTIPLIER2_INVERSE);
    RoundUnround(y1, 30, MULTIPLIER1, MULTIPLIER1_INVERSE, QUOTIENT1);
    XorShiftUnshift(word, 31);
  }

  // Skipping and drawing

  lemma AdvanceSum(state: u64, m: nat, n: nat)
    ensures Advance(Advance(state, m), n) == Advance(state, m + n)
  {
    WrapAbsorbs(INCREMENT * n, state + INCREMENT * m);
  }

  /** The state after `n` calls of `next_u64`. */
  function AfterDraws(state: u64, n: nat): u64 {
    if n == 0 then state else Wrap(AfterDraws(state, n - 1) + INCREMENT)
  }

  /** `skip(n)` leaves the generator where n draws leave it. */
  lemma {:induction false} SkipIsDraws(state: u64, n: nat)
    ensures Advance(state, n) == AfterDraws(state, n)
  {
    if n == 0 {
    } else {
      SkipIsDraws(state, n - 1);
      AdvanceSum(state, n - 1, 1);
    }
  }

  // Period

  /** The one position below 2^64 at which the stream of `seed` outputs `word`. */
  function PositionOf(seed: u64, word: u64): u64 {
    Wrap((Unmix(word) - seed) * INCREMENT_INVERSE - 2)
  }

  lemma OutputState(seed: u64, word: u64, i: nat)
    ensures Output(seed, i) == word <==> Advance(seed, i + 2) == Unmix(word)
  {
    hide Mix, Unmix;
    AdvanceSum(seed, 1, i + 1);
    MixDecides(Advance(seed, i + 2), word);
  }

  lemma MixDecides(state: u64, word: u64)
    ensures Mix(state) == word <==> state == Unmix(word)
  {
    hide Mix, Unmix;
    UnmixMix(state);
    MixUnmix(word);
  }

  lemma StatePosition(seed: u64, state: u64, i: nat)
    ensures Advance(seed, i + 2) == state
            <==> Wrap(i) == Wrap((state - seed) * INCREMENT_INVERSE - 2)
  {
    hide Wrap;
    var t := state - seed;
    WrapWord(state);
    SameDifference(INCREMENT * (i + 2), seed, state);
    InverseMoves(i + 2, t);
    SameDifference(i, 2, t * INCREMENT_INVERSE);
  }

  /** Every word occurs exactly once in every 2^64 consecutive outputs. */
  lemma OutputPosition(seed: u64, word: u64, i: nat)
    ensures Output(seed, i) == word <==> Wrap(i) == PositionOf(seed, word)
  {
    hide Output, Unmix, Advance, Wrap;
    OutputState(seed, word, i);
    StatePosition(seed, Unmix(word), i);
  }

  lemma SameDifference(a: int, b: int, c: int)
    ensures Wrap(a + b) == Wrap(c) <==> Wrap(a) == Wrap(c - b)
  {
    hide Wrap;
    WrapAbsorbs(b, a);
    WrapAbsorbs(b, c - b);
    WrapAbsorbs(-b, a + b);
    WrapAbsorbs(-b, c);
  }

  lemma InverseMoves(x: int, t: int)
    ensures Wrap(INCREMENT * x) == Wrap(t) <==> Wrap(x) == Wrap(t * INCREMENT_INVERSE)
  {
    hide Wrap;
    WrapInverse(x, INCREMENT, INCREMENT_INVERSE, QUOTIENT3);
    WrapInverse(t, INCREMENT_INVERSE, INCREMENT, QUOTIENT3);
    WrapScaled(t, INCREMENT_INVERSE);
    WrapScaled(x, INCREMENT);
    WrapScaled(t * INCREMENT_INVERSE, INCREMENT);
  }

  /** Two positions fewer than 2^64 apart never output the same word. */
  lemma NeverRepeats(seed: u64, i: nat, j: nat)
    requires i < j < i + TWO64
    ensures Output(seed, i) != Output(seed, j)
  {
    hide Output, PositionOf;
    var word := Output(seed, i);
    OutputPosition(seed, word, i);
    OutputPosition(seed, word, j);
    WrapApart(i, j);
  }

  lemma WrapApart(i: int, j: int)
    requires i < j < i + TWO64
    ensures Wrap(i) != Wrap(j)
  {
  }
}
