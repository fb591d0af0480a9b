/**
 The output function of the generator bit by bit: its xor-shifts are given by the bits of the
 numbers and its constants are spelled out, so nothing here rests on how `Mix` is put together.
 */
module SplitMixBits {
  import opened Machine
  import opened SplitMix

  /** The bit of weight 2^i. */
  function Bit(n: nat, i: nat): nat
    decreases i
  {
    if i == 0 then n % 2 else Bit(n / 2, i - 1)
  }

  /** Every bit of `y` is the sum modulo 2 of a bit of `z` and the one `k` places above it. */
  ghost predicate ShiftXored(z: nat, k: nat, y: nat) {
    forall i: nat :: Bit(y, i) == (Bit(z, i) + Bit(z, i + k)) % 2
  }

  lemma {:induction false} BitXor(a: nat, b: nat, i: nat)
    ensures Bit(Xor(a, b), i) == (Bit(a, i) + Bit(b, i)) % 2
    decreases i
  {
    XorBits(a, b);
    if i == 0 {
    } else {
      BitXor(a / 2, b / 2, i - 1);
    }
  }

  lemma {:induction false} BitShr(a: nat, k: nat, i: nat)
    ensures Bit(Shr(a, k), i) == Bit(a, i + k)
    decreases k
  {
    if k == 0 {
    } else {
      BitShr(a / 2, k - 1, i);
    }
  }

  lemma XorShifted(z: nat, k: nat)
    ensures ShiftXored(z, k, XorShift(z, k))
  {
    hide Bit, Xor, Shr;
    forall i: nat
      ensures Bit(XorShift(z, k), i) == (Bit(z, i) + Bit(z, i + k)) % 2
    {
      BitXor(z, Shr(z, k), i);
      BitShr(z, k, i);
    }
  }

  /** Numbers with the same bits are the same. */
  lemma {:induction false} SameBits(a: nat, b: nat)
    requires forall i: nat :: Bit(a, i) == Bit(b, i)
    ensures a == b
    decreases a + b
  {
    assert Bit(a, 0) == Bit(b, 0);
    if a == 0 && b == 0 {
    } else {
      forall i: nat
        ensures Bit(a / 2, i) == Bit(b / 2, i)
      {
        assert Bit(a, i + 1) == Bit(b, i + 1);
      }
      SameBits(a / 2, b / 2);
    }
  }

  /** The three xor-shifts and the two products of `next_u64`, with `y` and `w` between them. */
  ghost predicate Mixes(state: nat, x: nat, y: nat, v: nat, w: nat, word: nat) {
    && ShiftXored(state, 30, x) && y == x * 0xBF58476D1CE4E5B9 % 0x1_0000_0000_0000_0000
    && ShiftXored(y, 27, v) && w == v * 0x94D049BB133111EB % 0x1_0000_0000_0000_0000
    && ShiftXored(w, 31, word)
  }

  ghost predicate MixesTo(state: nat, word: nat) {
    exists x, y, v, w :: Mixes(state, x, y, v, w, word)
  }

  lemma MixesUnique(state: nat, x: nat, y: nat, v: nat, w: nat, r: nat, x': nat, y': nat, v': nat, w': nat, r': nat)
    requires Mixes(state, x, y, v, w, r) && Mixes(state, x', y', v', w', r')
    ensures r == r'
  {
    hide ShiftXored;
    SameShift(state, 30, x, x');
    SameShift(y, 27, v, v');
    SameShift(w, 31, r, r');
  }

  lemma SameShift(z: nat, k: nat, x: nat, y: nat)
    requires ShiftXored(z, k, x) && ShiftXored(z, k, y)
    ensures x == y
  {
    hide Bit;
    forall i: nat
      ensures Bit(x, i) == Bit(y, i)
    {
      assert Bit(x, i) == (Bit(z, i) + Bit(z, i + k)) % 2;
      assert Bit(y, i) == (Bit(z, i) + Bit(z, i + k)) % 2;
    }
    SameBits(x, y);
  }

  /** The word at a position is the one the increments, xor-shifts and products make of the seed. */
  lemma OutputBits(seed: u64, i: nat, word: nat)
    ensures Output(seed, i) == word
            <==> MixesTo((seed + (i + 2) * 0x9E3779B97F4A7C15) % 0x1_0000_0000_0000_0000, word)
  {
    hide Mixes, Mix;
    var state := (seed + (i + 2) * 0x9E3779B97F4A7C15) % 0x1_0000_0000_0000_0000;
    AdvanceSum(seed, 1, i + 1);
    assert Output(seed, i) == Mix(state);
    var x, y, v, w := MixSteps(state);
    if x', y', v', w' :| Mixes(state, x', y', v', w', word) {
      MixesUnique(state, x, y, v, w, Mix(state), x', y', v', w', word);
    }
  }

  lemma MixSteps(state: u64) returns (x: nat, y: nat, v: nat, w: nat)
    ensures Mixes(state, x, y, v, w, Mix(state))
  {
    hide ShiftXored, XorShift;
    x := XorShift(state, 30);
    y := Round(state, 30, MULTIPLIER1);
    v := XorShift(y, 27);
    w := Round(y, 27, MULTIPLIER2);
    XorShifted(state, 30);
    XorShifted(y, 27);
    XorShifted(w, 31);
  }
}
