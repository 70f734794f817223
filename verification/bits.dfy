/**
 * Fixed-width unsigned integers of C, and C's bitwise operators on
 * non-negative integers, with the facts about byte masks that the UUID
 * engine relies on. Bytes are integers in [0, 256): the engine's
 * arithmetic on them (packing into words, ordering) then needs no
 * conversion between bit-vectors and integers.
 */
module Bits {

  type uint8 = x: int | 0 <= x < 0x100
  type uint16 = x: int | 0 <= x < 0x1_0000
  type uint64 = x: int | 0 <= x < 0x1_0000_0000_0000_0000

  /** The moduli of `uint16_t` and `uint64_t` arithmetic. */
  const TWO_POW_16: nat := 0x1_0000
  const TWO_POW_64: nat := 0x1_0000_0000_0000_0000

  /** C's `a & b`, bit by bit from the least significant end. */
  function BitAnd(a: nat, b: nat): (r: nat)
    ensures r <= a && r <= b
    decreases a
  {
    if a == 0 || b == 0 then 0
    else 2 * BitAnd(a / 2, b / 2) + (if a % 2 == 1 && b % 2 == 1 then 1 else 0)
  }

  /** C's `a | b`, bit by bit from the least significant end. */
  function BitOr(a: nat, b: nat): (r: nat)
    ensures a <= r && b <= r && r <= a + b
    decreases a + b
  {
    if a == 0 then b
    else if b == 0 then a
    else 2 * BitOr(a / 2, b / 2) + (if a % 2 == 1 || b % 2 == 1 then 1 else 0)
  }

  /** C's `~a`, truncated to the eight bits of a byte. */
  function Complement8(a: uint8): uint8
  {
    0xFF - a
  }

  /** `p` is a power of two. */
  predicate IsPow2(p: nat)
  {
    p == 1 || (p > 1 && p % 2 == 0 && IsPow2(p / 2))
  }

  /** Every one-bit of `c` is at or above the bit of weight `p`. */
  predicate ClearBelow(c: nat, p: nat)
    decreases p
  {
    p <= 1 || (c % 2 == 0 && ClearBelow(c / 2, p / 2))
  }

  /** The or of two values below a power of two stays below it: or-ing bytes yields a byte. */
  lemma {:induction false} BitOrBound(a: nat, b: nat, p: nat)
    requires IsPow2(p) && a < p && b < p
    ensures BitOr(a, b) < p
  {
    if a != 0 && b != 0 {
      BitOrBound(a / 2, b / 2, p / 2);
    }
  }

  lemma BitOrBoundByte(a: uint8, b: uint8)
    ensures BitOr(a, b) < 0x100
  {
    assert IsPow2(0x100);
    BitOrBound(a, b, 0x100);
  }

  lemma {:induction false} BitOrCommutes(a: nat, b: nat)
    ensures BitOr(a, b) == BitOr(b, a)
    decreases a + b
  {
    if a != 0 && b != 0 {
      BitOrCommutes(a / 2, b / 2);
    }
  }

  /** Or-ing bits that do not overlap is addition. */
  lemma {:induction false} OrDisjoint(c: nat, y: nat, p: nat)
    requires IsPow2(p) && ClearBelow(c, p) && y < p
    ensures BitOr(c, y) == c + y
  {
    if p > 1 && c > 0 && y > 0 {
      OrDisjoint(c / 2, y / 2, p / 2);
    }
  }

  lemma ClearBelowDouble(c: nat, p: nat)
    requires ClearBelow(c, p)
    ensures ClearBelow(2 * c, 2 * p)
  {
    assert (2 * c) / 2 == c;
  }

  /** `(h << 4) | y` for a nibble `y` places `y` under `h`. */
  lemma OrNibble(h: nat, y: nat)
    requires y < 16
    ensures BitOr(16 * h, y) == 16 * h + y
  {
    ClearBelowDouble(h, 1);
    ClearBelowDouble(2 * h, 2);
    ClearBelowDouble(4 * h, 4);
    ClearBelowDouble(8 * h, 8);
    OrDisjoint(16 * h, y, 16);
  }

  /** `y | 0x80` sets the top bit of a byte whose top bit is clear. */
  lemma OrTopBit(y: nat)
    requires y < 0x80
    ensures BitOr(y, 0x80) == y + 0x80
  {
    OrDisjoint(0x80, y, 0x80);
    BitOrCommutes(y, 0x80);
  }

  // And-ing with a mask of low one-bits keeps exactly those bits; each
  // mask is proved from the one below it.

  lemma AndMask1(x: nat)
    ensures BitAnd(x, 0x01) == x % 2
  {
  }

  lemma {:induction false} AndMask3(x: nat)
    ensures BitAnd(x, 0x03) == x % 4
  {
    if x != 0 {
      assert x % 4 == 2 * ((x / 2) % 2) + x % 2 by {}
      AndMask1(x / 2);
    }
  }

  lemma {:induction false} AndMask7(x: nat)
    ensures BitAnd(x, 0x07) == x % 8
  {
    if x != 0 {
      assert x % 8 == 2 * ((x / 2) % 4) + x % 2 by {}
      AndMask3(x / 2);
    }
  }

  lemma {:induction false} AndMask15(x: nat)
    ensures BitAnd(x, 0x0F) == x % 16
  {
    if x != 0 {
      assert x % 16 == 2 * ((x / 2) % 8) + x % 2 by {}
      AndMask7(x / 2);
    }
  }

  lemma {:induction false} AndMask31(x: nat)
    ensures BitAnd(x, 0x1F) == x % 32
  {
    if x != 0 {
      assert x % 32 == 2 * ((x / 2) % 16) + x % 2 by {}
      AndMask15(x / 2);
    }
  }

  lemma {:induction false} AndMask63(x: nat)
    ensures BitAnd(x, 0x3F) == x % 64
  {
    if x != 0 {
      assert x % 64 == 2 * ((x / 2) % 32) + x % 2 by {}
      AndMask31(x / 2);
    }
  }

  /** And-ing with an even mask drops the low bit. */
  lemma AndEvenMask(a: nat, b: nat)
    ensures BitAnd(a, 2 * b) == 2 * BitAnd(a / 2, b)
  {
    assert (2 * b) / 2 == b;
  }

  /** `x & 0xF0` keeps the high nibble of a byte. */
  lemma AndHighNibble(x: nat)
    requires x < 0x100
    ensures BitAnd(x, 0xF0) == x / 16 * 16
  {
    var x1, x2, x3, q := x / 2, x / 4, x / 8, x / 16;
    assert x1 / 2 == x2 && x2 / 2 == x3 && x3 / 2 == q;
    assert BitAnd(q, 0x0F) == q by {
      AndMask15(q);
    }
    assert BitAnd(x3, 0x1E) == 2 * q by {
      AndEvenMask(x3, 0x0F);
    }
    assert BitAnd(x2, 0x3C) == 4 * q by {
      AndEvenMask(x2, 0x1E);
    }
    assert BitAnd(x1, 0x78) == 8 * q by {
      AndEvenMask(x1, 0x3C);
    }
    AndEvenMask(x, 0x78);
  }

  /** `x | (x & 0x01)` is `x`: the low bit it or-s in is already there. */
  lemma OrOwnLowBit(x: nat)
    ensures BitOr(x, BitAnd(x, 0x01)) == x
  {
    AndMask1(x);
    if x % 2 == 1 {
      assert BitOr(x, 1) == 2 * BitOr(x / 2, 0) + 1;
    }
  }
}
