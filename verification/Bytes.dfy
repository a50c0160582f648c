/** Little-endian encoding of unsigned integers, as the storage engines write them to their files. */
module Bytes {

  type byte = x: int | 0 <= x < 256

  function Pow256(k: nat): (r: nat)
    ensures r >= 1
  {
    if k == 0 then 1 else 256 * Pow256(k - 1)
  }

  /** The k low bytes of n, least significant first. */
  function ToLE(n: nat, k: nat): (r: seq<byte>)
    ensures |r| == k
    decreases n + k
  {
    if k == 0 then [] else [n % 256] + ToLE(n / 256, k - 1)
  }

  /** The unsigned integer stored in file[pos..end]. */
  function FieldAt(file: seq<byte>, pos: nat, end: nat): nat
    requires pos <= end <= |file|
    decreases end - pos
  {
    if pos == end then 0 else file[pos] + 256 * FieldAt(file, pos + 1, end)
  }

  /** Reading back what was written, when it fits the width. */
  lemma {:induction false} RoundTrip(file: seq<byte>, pos: nat, n: nat, k: nat)
    requires pos + k <= |file| && file[pos..pos + k] == ToLE(n, k) && n < Pow256(k)
    ensures FieldAt(file, pos, pos + k) == n
    decreases k
  {
    if k > 0 {
      assert file[pos] == file[pos..pos + k][0];
      assert file[pos + 1..pos + k] == file[pos..pos + k][1..] == ToLE(n / 256, k - 1);
      RoundTrip(file, pos + 1, n / 256, k - 1);
    }
  }

  lemma {:induction false} FieldWidths()
    ensures Pow256(4) == 0x1_0000_0000
    ensures Pow256(8) == 0x1_0000_0000_0000_0000
  {
    assert Pow256(4) == 256 * 256 * 256 * 256;
    assert Pow256(8) == 256 * 256 * 256 * 256 * Pow256(4);
  }
}
