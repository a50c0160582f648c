/** The FNV-1a checksum, and why it notices every change of a single byte. */
module Fnv {
  import opened Common
  import opened Bytes
  import opened Bits

  const MODULUS: nat := 0x1_0000_0000
  const BASIS: nat := 0x811C9DC5
  const PRIME: nat := 0x0100_0193
  const INVERSE: nat := 0x359C_449B  // of PRIME, modulo 2^32

  /** One round: exclusive-or with a byte, then multiply modulo 2^32. */
  function Round(crc: nat, b: byte): (r: nat)
    ensures r < MODULUS
  {
    Xor(crc, b) * PRIME % MODULUS
  }

  function Checksum(crc: nat, s: seq<byte>): nat
    decreases |s|
  {
    if s == [] then crc else Checksum(Round(crc, s[0]), s[1..])
  }

  lemma {:induction false} XorDigit(x: nat, y: nat, rest: nat)
    requires x > 0 && y > 0 && Xor(x / 2, y / 2) == rest
    ensures Xor(x, y) == 2 * rest + (x + y) % 2
  {
  }

  lemma {:induction false} XorNothing(x: nat)
    ensures Xor(x, 0) == x
  {
  }

  /** The published values of 32-bit FNV-1a for the empty input and for "a". */
  lemma {:induction false} PublishedValues()
    ensures Checksum(BASIS, []) == 0x811C9DC5
    ensures Checksum(BASIS, [0x61]) == 0xE40C292C
  {
    hide Xor;
    XorNothing(0x102393B);
    XorDigit(0x2047277, 0x1, 0x102393B);
    XorDigit(0x408E4EE, 0x3, 0x2047276);
    XorDigit(0x811C9DC, 0x6, 0x408E4ED);
    XorDigit(0x102393B8, 0xC, 0x811C9DA);
    XorDigit(0x20472771, 0x18, 0x102393B4);
    XorDigit(0x408E4EE2, 0x30, 0x20472769);
    XorDigit(0x811C9DC5, 0x61, 0x408E4ED2);
    assert Xor(0x811C9DC5, 0x61) == 0x811C9DA4;
    assert [0x61][1..] == [];
  }

  // ---- Each round loses nothing ----

  lemma {:induction false} XorCancels(x: nat, a: nat, b: nat)
    ensures Xor(x, a) == Xor(x, b) ==> a == b
    decreases x + a + b
  {
    if x > 0 && a > 0 && b > 0 {
      XorCancels(x / 2, a / 2, b / 2);
    } else if x > 0 && (a > 0 || b > 0) {
      XorMoves(x, if a > 0 then a else b);
    }
  }

  /** Exclusive-or with something non-zero changes a number. */
  lemma {:induction false} XorMoves(x: nat, a: nat)
    requires a > 0
    ensures Xor(x, a) != x
  {
    if x > 0 && a > 1 {
      XorMoves(x / 2, a / 2);
    }
  }

  lemma {:induction false} XorCommutes(x: nat, y: nat)
    ensures Xor(x, y) == Xor(y, x)
    decreases x + y
  {
    if x > 0 && y > 0 {
      XorCommutes(x / 2, y / 2);
    }
  }

  lemma {:induction false} XorBounded(x: nat, y: nat, k: nat)
    requires x < Pow2(k) && y < Pow2(k)
    ensures Xor(x, y) < Pow2(k)
    decreases k
  {
    if x > 0 && y > 0 {
      XorBounded(x / 2, y / 2, k - 1);
    }
  }

  lemma {:induction false} ProductUndone(x: nat)
    requires x < MODULUS
    ensures (x * PRIME % MODULUS) * INVERSE % MODULUS == x
  {
    var q, r := x * PRIME / MODULUS, x * PRIME % MODULUS;
    var k := PRIME * INVERSE / MODULUS;
    assert PRIME * INVERSE == k * MODULUS + 1;
    assert r * INVERSE == (x * k - q * INVERSE) * MODULUS + x;
    ModUnique(r * INVERSE, x * k - q * INVERSE, x, MODULUS);
  }

  lemma {:induction false} Below32()
    ensures Pow2(32) == MODULUS
  {
    assert Pow2(8) == 256;
    assert Pow2(16) == 256 * Pow2(8);
    assert Pow2(24) == 256 * Pow2(16);
    assert Pow2(32) == 256 * Pow2(24);
  }

  lemma {:induction false} RoundXor(x: nat, b: byte)
    requires x < MODULUS
    ensures Xor(x, b) < MODULUS
  {
    Below32();
    XorBounded(x, b, 32);
  }

  /** A round can be undone from either side. */
  lemma {:induction false} RoundIsInjective(x: nat, y: nat, a: byte, b: byte)
    requires x < MODULUS && y < MODULUS && Round(x, a) == Round(y, b)
    ensures Xor(x, a) == Xor(y, b)
    ensures x == y ==> a == b
    ensures a == b ==> x == y
  {
    RoundXor(x, a);
    RoundXor(y, b);
    ProductUndone(Xor(x, a));
    ProductUndone(Xor(y, b));
    XorCancels(x, a, b);
    XorCommutes(x, a);
    XorCommutes(y, a);
    XorCancels(a, x, y);
  }

  /** Different states stay different under the same bytes. */
  lemma {:induction false} StaysDifferent(x: nat, y: nat, s: seq<byte>)
    requires x < MODULUS && y < MODULUS && x != y
    ensures Checksum(x, s) != Checksum(y, s)
    decreases |s|
  {
    if s != [] {
      if Round(x, s[0]) == Round(y, s[0]) {
        RoundIsInjective(x, y, s[0], s[0]);
      }
      StaysDifferent(Round(x, s[0]), Round(y, s[0]), s[1..]);
    }
  }

  /** Changing exactly one byte always changes the checksum. */
  lemma {:induction false} OneByteChanges(crc: nat, s: seq<byte>, i: nat, b: byte)
    requires crc < MODULUS && i < |s| && s[i] != b
    ensures Checksum(crc, s[i := b]) != Checksum(crc, s)
    decreases |s|
  {
    var t := s[i := b];
    if i == 0 {
      assert t[1..] == s[1..];
      if Round(crc, s[0]) == Round(crc, b) {
        RoundIsInjective(crc, crc, s[0], b);
      }
      StaysDifferent(Round(crc, s[0]), Round(crc, b), s[1..]);
    } else {
      assert t[1..] == s[1..][i - 1 := b];
      OneByteChanges(Round(crc, s[0]), s[1..], i - 1, b);
    }
  }

  lemma {:induction false} ChecksumBounded(crc: nat, s: seq<byte>)
    requires crc < MODULUS
    ensures Checksum(crc, s) < MODULUS
    decreases |s|
  {
    if s != [] {
      ChecksumBounded(Round(crc, s[0]), s[1..]);
    }
  }

  lemma {:induction false} ChecksumAppend(crc: nat, s: seq<byte>, b: byte)
    ensures Checksum(crc, s + [b]) == Round(Checksum(crc, s), b)
    decreases |s|
  {
    if s == [] {
      assert s + [b] == [b] && [b][1..] == [];
    } else {
      assert (s + [b])[1..] == s[1..] + [b];
      ChecksumAppend(Round(crc, s[0]), s[1..], b);
    }
  }

  /** The checksum loop. */
  method ComputeChecksum(s: seq<byte>) returns (crc: nat)
    ensures crc == Checksum(BASIS, s)
  {
    crc := BASIS;
    for i := 0 to |s|
      invariant crc == Checksum(BASIS, s[..i])
    {
      assert s[..i + 1] == s[..i] + [s[i]];
      ChecksumAppend(BASIS, s[..i], s[i]);
      crc := Xor(crc, s[i]) * PRIME % MODULUS;
    }
    assert s[..|s|] == s;
  }
}
