/** Bit operations on unbounded naturals, digit by digit, and the facts that tie the masks and
    exclusive-ors of the lock-free queue and the buddy allocator to plain arithmetic. */
module Bits {
  import opened Common

  function Pow2(k: nat): (r: nat)
    ensures r >= 1
  {
    if k == 0 then 1 else 2 * Pow2(k - 1)
  }

  /** `x & y` */
  function And(x: nat, y: nat): nat {
    if x == 0 || y == 0 then 0 else 2 * And(x / 2, y / 2) + (x % 2) * (y % 2)
  }

  /** `x ^ y` */
  function Xor(x: nat, y: nat): nat
    decreases x + y
  {
    if x == 0 then y else if y == 0 then x else 2 * Xor(x / 2, y / 2) + (x + y) % 2
  }

  /** The last bit of a remainder modulo an even number. */
  lemma {:induction false} HalfMod(x: nat, m: nat)
    requires m > 0
    ensures x % (2 * m) == 2 * (x / 2 % m) + x % 2
  {
    var q, r := x / 2 / m, x / 2 % m;
    assert x == q * (2 * m) + (2 * r + x % 2);
    ModUnique(x, q, 2 * r + x % 2, 2 * m);
  }

  lemma {:induction false} AndOddMask(x: nat, m: nat)
    ensures And(x, 2 * m + 1) == 2 * And(x / 2, m) + x % 2
  {
    assert (2 * m + 1) / 2 == m && (2 * m + 1) % 2 == 1;
  }

  /** Masking with capacity - 1 is the remainder modulo a power-of-two capacity. */
  lemma {:induction false} MaskIsModulo(x: nat, k: nat)
    ensures And(x, Pow2(k) - 1) == x % Pow2(k)
  {
    if k > 0 {
      var m := Pow2(k - 1);
      AndOddMask(x, m - 1);
      MaskIsModulo(x / 2, k - 1);
      HalfMod(x, m);
    }
  }

  lemma {:induction false} XorOfDoubles(x: nat, y: nat)
    ensures Xor(2 * x, 2 * y) == 2 * Xor(x, y)
  {
    assert 2 * x / 2 == x && 2 * y / 2 == y && (2 * x + 2 * y) % 2 == 0;
  }

  lemma {:induction false} TimesDouble(q: nat, h: nat)
    ensures q * (2 * h) == 2 * (q * h)
  {
  }

  lemma {:induction false} XorOne(q: nat)
    ensures Xor(2 * q, 1) == 2 * q + 1
    ensures Xor(2 * q + 1, 1) == 2 * q
  {
    assert Xor(q, 0) == q;
    assert (2 * q + 1) / 2 == q && (2 * q + 1 + 1) % 2 == 0;
  }

  /** Flipping bit k swaps the two halves of a block aligned to 2^(k+1). */
  lemma {:induction false} XorInPair(q: nat, k: nat)
    ensures Xor(q * (2 * Pow2(k)), Pow2(k)) == q * (2 * Pow2(k)) + Pow2(k)
    ensures Xor(q * (2 * Pow2(k)) + Pow2(k), Pow2(k)) == q * (2 * Pow2(k))
  {
    if k == 0 {
      XorOne(q);
    } else {
      var h := Pow2(k - 1);
      var o := q * (2 * h);
      TimesDouble(q, 2 * h);
      XorInPair(q, k - 1);
      XorOfDoubles(o, h);
      XorOfDoubles(o + h, h);
    }
  }

  lemma {:induction false} TwiceTimes(q: nat, h: nat)
    ensures (2 * q) * h == q * (2 * h) && (2 * q + 1) * h == q * (2 * h) + h
  {
  }

  /** x is a multiple of 2^k, bit by bit. */
  predicate IsMultiple(x: nat, k: nat) {
    k == 0 || (x % 2 == 0 && IsMultiple(x / 2, k - 1))
  }

  lemma {:induction false} IsMultipleIff(x: nat, k: nat)
    ensures IsMultiple(x, k) <==> x % Pow2(k) == 0
  {
    if k > 0 {
      IsMultipleIff(x / 2, k - 1);
      HalfMod(x, Pow2(k - 1));
    }
  }

  // ---- 64-bit rounding to a power of two ----

  /** Copies the highest set bit into every lower position. */
  function Smeared(v: bv64): bv64 {
    var a := v | (v >> 1);
    var b := a | (a >> 2);
    var c := b | (b >> 4);
    var d := c | (c >> 8);
    var e := d | (d >> 16);
    e | (e >> 32)
  }

  /** The ring queue's `mask_`: its capacity, the request rounded up to a power of two, minus one. */
  function CapacityMask(v: bv64): bv64 {
    if v < 2 then 1 else Smeared(v - 1)
  }

  predicate IsPow2(p: bv64) { p != 0 && p & (p - 1) == 0 }

  /** Shifting and or-ing never leaves the range below a power of two. */
  lemma {:induction false} StaysBelow(v: bv64, p: bv64, k: bv7)
    requires IsPow2(p) && v < p && k < 64
    ensures v | (v >> k) < p
  {
  }

  lemma {:induction false} SmearedStaysBelow(v: bv64, p: bv64)
    requires IsPow2(p) && v < p
    ensures Smeared(v) < p
  {
    var a := v | (v >> 1);
    var b := a | (a >> 2);
    var c := b | (b >> 4);
    var d := c | (c >> 8);
    StaysBelow(v, p, 1);
    StaysBelow(a, p, 2);
    StaysBelow(b, p, 4);
    StaysBelow(c, p, 8);
    StaysBelow(d, p, 16);
    StaysBelow(d | (d >> 16), p, 32);
  }

  lemma {:induction false} SmearedIsMask(v: bv64)
    ensures Smeared(v) & (Smeared(v) + 1) == 0
    ensures v <= Smeared(v)
  {
  }

  /** The mask is a run of low ones, so the capacity is a power of two; it is at least 2 and reaches the
      request. */
  lemma {:induction false} CapacityMaskIsMask(v: bv64)
    ensures CapacityMask(v) & (CapacityMask(v) + 1) == 0
    ensures 1 <= CapacityMask(v)
    ensures v >= 2 ==> v - 1 <= CapacityMask(v)
  {
    if v >= 2 {
      SmearedIsMask(v - 1);
    }
  }

  /** No smaller power of two, from 2 on, fits the request. */
  lemma {:induction false} CapacityMaskIsLeast(v: bv64, p: bv64)
    requires IsPow2(p) && 2 <= p && (v < 2 || v - 1 < p)
    ensures CapacityMask(v) < p
  {
    if v >= 2 {
      SmearedStaysBelow(v - 1, p);
    }
  }

  /** The capacity wraps around to 0 exactly for requests above 2^63. */
  lemma {:induction false} CapacityWraps(v: bv64)
    ensures v > 0x8000_0000_0000_0000 <==> CapacityMask(v) == 0xFFFF_FFFF_FFFF_FFFF
  {
    if v <= 0x8000_0000_0000_0000 {
      CapacityMaskIsLeast(v, 0x8000_0000_0000_0000);
    }
  }
}
