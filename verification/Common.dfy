/** Small definitions that several components share. */
module Common {

  datatype Option<T> = None | Some(value: T)

  const TWO64: nat := 0x1_0000_0000_0000_0000

  ghost predicate Ascending(s: seq<nat>) { forall i, j :: 0 <= i < j < |s| ==> s[i] < s[j] }

  ghost predicate Distinct(s: seq<nat>) { forall i, j :: 0 <= i < j < |s| ==> s[i] != s[j] }

  lemma {:induction false} HeadBelow(h: nat, rest: seq<nat>)
    requires Ascending(rest) && forall y: nat :: y in rest ==> h < y
    ensures Ascending([h] + rest)
  {
    forall i: nat | i < |rest| ensures h < rest[i] {
      assert rest[i] in rest;
    }
  }

  /** A remainder is determined by its equation. */
  lemma {:induction false} ModUnique(x: int, d: int, r: nat, n: nat)
    requires r < n && x == d * n + r
    ensures x % n == r
  {
    var e := x / n - d;
    assert e * n == (x / n) * n - d * n == r - x % n;
    assert e > 0 ==> (e - 1) * n >= 0;
    assert e < 0 ==> (-e - 1) * n >= 0;
  }
}
