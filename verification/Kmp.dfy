/** Knuth-Morris-Pratt substring search. */
module Kmp {

  /** The first k characters of p are also the last k of its first i. */
  ghost predicate Border(p: string, i: nat, k: nat) {
    k < i <= |p| && p[..k] == p[i - k..i]
  }

  ghost predicate LongestBorder(p: string, i: nat, k: nat) {
    Border(p, i, k) && forall l: nat :: Border(p, i, l) ==> l <= k
  }

  ghost predicate Occurs(text: string, p: string, s: nat) {
    s + |p| <= |text| && text[s..s + |p|] == p
  }

  lemma {:induction false} EmptyBorder(p: string, i: nat)
    requires 0 < i <= |p|
    ensures Border(p, i, 0)
  {
  }

  /** A border of a border is a border. */
  lemma {:induction false} BorderOfBorder(p: string, i: nat, k: nat, l: nat)
    requires Border(p, i, k) && Border(p, k, l)
    ensures Border(p, i, l)
  {
    assert p[i - k..i][k - l..] == p[i - l..i];
    assert p[..k][k - l..] == p[k - l..k];
  }

  /** Two borders of one prefix: the shorter is a border of the longer. */
  lemma {:induction false} ShorterBorder(p: string, i: nat, k: nat, l: nat)
    requires Border(p, i, k) && Border(p, i, l) && l < k
    ensures Border(p, k, l)
  {
    assert p[i - k..i][k - l..] == p[i - l..i];
    assert p[..k][k - l..] == p[k - l..k];
  }

  /** Borders grow and shrink one character at a time. */
  lemma {:induction false} BorderStep(p: string, i: nat, k: nat)
    requires i < |p|
    ensures Border(p, i + 1, k + 1) <==> Border(p, i, k) && p[i] == p[k]
  {
    if k < i {
      assert p[..k + 1] == p[..k] + [p[k]];
      assert p[i - k..i + 1] == p[i - k..i] + [p[i]];
    }
  }

  /** Every border of the next prefix extends a border no longer than len. */
  ghost predicate Extends(p: string, next: nat, len: nat) {
    forall k: nat :: Border(p, next, k) ==> k <= len + 1
  }

  lemma {:induction false} ExtendsNext(p: string, i: nat, len: nat)
    requires i < |p| && LongestBorder(p, i, len)
    ensures Extends(p, i + 1, len)
  {
    var next := i + 1;
    forall k: nat | Border(p, next, k) ensures k <= len + 1 {
      if k > 0 {
        BorderStep(p, i, k - 1);
      }
    }
  }

  /** After a mismatch only borders of the border can still be extended. */
  lemma {:induction false} ExtendsShorter(p: string, i: nat, len: nat, shorter: nat)
    requires i < |p| && Border(p, i, len) && len > 0 && Extends(p, i + 1, len) && p[i] != p[len]
    requires LongestBorder(p, len, shorter)
    ensures Border(p, i, shorter) && Extends(p, i + 1, shorter)
  {
    BorderOfBorder(p, i, len, shorter);
    var next := i + 1;
    forall k: nat | Border(p, next, k) ensures k <= shorter + 1 {
      if k > 0 {
        BorderStep(p, i, k - 1);
        if k - 1 < len {
          ShorterBorder(p, i, len, k - 1);
        }
      }
    }
  }

  /** A match extends the border to the longest one. */
  lemma {:induction false} ExtendsLongest(p: string, i: nat, len: nat)
    requires i < |p| && Border(p, i, len) && Extends(p, i + 1, len) && p[i] == p[len]
    ensures LongestBorder(p, i + 1, len + 1)
  {
    BorderStep(p, i, len);
  }

  lemma {:induction false} ExtendsNothing(p: string, i: nat)
    requires 0 < i < |p| && Extends(p, i + 1, 0) && p[i] != p[0]
    ensures LongestBorder(p, i + 1, 0)
  {
    EmptyBorder(p, i + 1);
    var next := i + 1;
    forall k: nat | Border(p, next, k) ensures k <= 0 {
      if k == 1 {
        BorderStep(p, i, 0);
      }
    }
  }

  /** The table of longest proper borders of every prefix. */
  method BuildLps(p: string) returns (lps: array<nat>)
    ensures fresh(lps) && lps.Length == |p|
    ensures forall i: nat :: i < |p| ==> LongestBorder(p, i + 1, lps[i])
  {
    lps := new nat[|p|](_ => 0);
    var len, i := 0, 1;
    if |p| > 0 {
      EmptyBorder(p, 1);
    }
    if |p| > 1 {
      ExtendsNext(p, 1, 0);
    }
    while i < |p|
      invariant 0 <= len < i && (|p| > 0 ==> i <= |p|)
      invariant forall l :: 0 <= l < i && l < |p| ==> LongestBorder(p, l + 1, lps[l])
      invariant i < |p| ==> Border(p, i, len) && Extends(p, i + 1, len)
      decreases |p| - i, len
    {
      if p[i] == p[len] {
        ExtendsLongest(p, i, len);
        len := len + 1;
        lps[i] := len;
        i := i + 1;
        if i < |p| {
          ExtendsNext(p, i, len);
        }
      } else if len != 0 {
        ExtendsShorter(p, i, len, lps[len - 1]);
        len := lps[len - 1];
      } else {
        ExtendsNothing(p, i);
        lps[i] := 0;
        i := i + 1;
        if i < |p| {
          ExtendsNext(p, i, 0);
        }
      }
    }
  }

  /** What the search knows: the last j characters match, and nothing starts earlier. */
  ghost predicate Searching(text: string, p: string, i: nat, j: nat) {
    && j <= i <= |text| && j <= |p| && text[i - j..i] == p[..j]
    && forall s: nat :: s < i - j ==> !Occurs(text, p, s)
  }

  lemma {:induction false} SearchMatch(text: string, p: string, i: nat, j: nat)
    requires Searching(text, p, i, j) && i < |text| && j < |p| && text[i] == p[j]
    ensures Searching(text, p, i + 1, j + 1)
  {
    assert text[i - j..i + 1] == text[i - j..i] + [text[i]];
    assert p[..j + 1] == p[..j] + [p[j]];
  }

  /** Falling back to the longest border skips no occurrence. */
  lemma {:induction false} SearchFallBack(text: string, p: string, i: nat, j: nat, shorter: nat)
    requires Searching(text, p, i, j) && i < |text| && 0 < j < |p| && text[i] != p[j] && LongestBorder(p, j, shorter)
    ensures Searching(text, p, i, shorter)
  {
    assert text[i - j..i][j - shorter..] == text[i - shorter..i];
    assert p[..j][j - shorter..] == p[j - shorter..j];
    forall s: nat | i - j <= s < i - shorter ensures !Occurs(text, p, s) {
      NotHere(text, p, i, j, shorter, s);
    }
  }

  lemma {:induction false} NotHere(text: string, p: string, i: nat, j: nat, shorter: nat, s: nat)
    requires Searching(text, p, i, j) && i < |text| && 0 < j < |p| && text[i] != p[j] && LongestBorder(p, j, shorter)
    requires i - j <= s < i - shorter
    ensures !Occurs(text, p, s)
  {
    if Occurs(text, p, s) {
      var k := i - s;
      assert p[k] == text[s..s + |p|][k] == text[i];
      assert p[..k] == text[s..s + |p|][..k] == text[s..i];
      assert text[s..i] == text[i - j..i][j - k..] == p[..j][j - k..] == p[j - k..j];
      assert k < j ==> Border(p, j, k);
    }
  }

  lemma {:induction false} SearchSkip(text: string, p: string, i: nat)
    requires Searching(text, p, i, 0) && i < |text| && 0 < |p| && text[i] != p[0]
    ensures Searching(text, p, i + 1, 0)
  {
    if Occurs(text, p, i) {
      OccursStart(text, p, i);
    }
  }

  lemma {:induction false} OccursStart(text: string, p: string, s: nat)
    requires Occurs(text, p, s) && p != []
    ensures text[s] == p[0]
  {
    assert text[s..s + |p|][0] == text[s];
  }

  /** The first occurrence of the pattern, or -1 exactly when there is none. */
  method KmpSearch(text: string, p: string) returns (r: int)
    ensures r == -1 || (0 <= r && Occurs(text, p, r) && forall s: nat :: s < r ==> !Occurs(text, p, s))
    ensures r == -1 <==> forall s: nat :: !Occurs(text, p, s)
  {
    if |p| == 0 {
      assert Occurs(text, p, 0);
      return 0;
    }
    var lps := BuildLps(p);
    var i, j := 0, 0;
    while i < |text|
      invariant 0 <= i && 0 <= j < |p| && Searching(text, p, i, j)
      invariant forall k: nat :: k < |p| ==> LongestBorder(p, k + 1, lps[k])
      decreases |text| - i, j
    {
      if text[i] == p[j] {
        SearchMatch(text, p, i, j);
        i, j := i + 1, j + 1;
      }
      if j == |p| {
        assert Occurs(text, p, i - j);
        return i - j;
      } else if i < |text| && text[i] != p[j] {
        if j != 0 {
          assert LongestBorder(p, (j - 1) + 1, lps[j - 1]);
          SearchFallBack(text, p, i, j, lps[j - 1]);
          j := lps[j - 1];
        } else {
          SearchSkip(text, p, i);
          i := i + 1;
        }
      }
    }
    return -1;
  }
}
