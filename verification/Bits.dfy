/** Single bits of a 64-bit mask, and when masks share one. */
module Bits {
  const MAX_TYPES := 64

  /** `1 << k`, one place at a time. */
  function Bit(k: nat): bv64 {
    if k == 0 then 1 else Bit(k - 1) << 1
  }

  function Or(x: bv64, y: bv64): bv64 {
    x | y
  }

  /** Some bit is set in both. */
  predicate Meets(x: bv64, y: bv64) {
    x & y != 0
  }

  /** What the proofs need to know about bits, one word at a time. */
  lemma BitFacts(x: bv64, y: bv64)
    ensures Or(x, 0) == x && !Meets(0, x) && x & x == x && Meets(x, y) == Meets(y, x)
    ensures x | y == 0 <==> x == 0 && y == 0
    ensures 1 & (y << 1) == 0 && (x << 1) & (y << 1) == (x & y) << 1
  {
  }

  lemma OrMeets(x: bv64, y: bv64, z: bv64)
    ensures Meets(Or(x, y), z) <==> Meets(x, z) || Meets(y, z)
    ensures Or(x, y) == 0 <==> x == 0 && y == 0
  {
    assert (x | y) & z == (x & z) | (y & z);
    BitFacts(x & z, y & z);
    BitFacts(x, y);
  }

  // ---------- different bits do not meet ----------

  lemma {:induction false} TwoBits(i: nat, j: nat)
    requires i < j
    ensures Bit(i) & Bit(j) == 0
  {
    if i == 0 {
      BitFacts(1, Bit(j - 1));
    } else {
      TwoBits(i - 1, j - 1);
      BitFacts(Bit(i - 1), Bit(j - 1));
    }
  }

  // ---------- no bit is shifted out ----------

  lemma FourPlaces(k: nat)
    ensures Bit(k + 4) == Bit(k) << 4
  {
    assert Bit(k + 2) == Bit(k) << 2;
  }

  lemma TopBit()
    ensures Bit(63) == 0x8000_0000_0000_0000
  {
    FourPlaces(0); FourPlaces(4); FourPlaces(8); FourPlaces(12); FourPlaces(16);
    FourPlaces(20); FourPlaces(24); FourPlaces(28); FourPlaces(32); FourPlaces(36);
    FourPlaces(40); FourPlaces(44); FourPlaces(48); FourPlaces(52); FourPlaces(56);
    assert Bit(61) == Bit(60) << 1;
  }

  lemma {:induction false} ZeroStaysZero(k: nat)
    requires k < MAX_TYPES && Bit(k) == 0
    ensures Bit(63) == 0
    decreases MAX_TYPES - k
  {
    if k < 63 {
      ZeroStaysZero(k + 1);
    }
  }

  lemma BitsAreDisjoint(i: nat, j: nat)
    requires i < MAX_TYPES && j < MAX_TYPES
    ensures Bit(i) != 0 && (Meets(Bit(i), Bit(j)) <==> i == j)
  {
    hide Bit;
    if Bit(i) == 0 {
      ZeroStaysZero(i);
      TopBit();
    }
    BitFacts(Bit(i), Bit(j));
    if i < j {
      TwoBits(i, j);
    } else if j < i {
      TwoBits(j, i);
    }
  }
}
