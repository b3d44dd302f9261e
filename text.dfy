/** Substring search on byte strings, as the core uses it through strings.LastIndex. */
module Text {

  /** Concatenation regroups freely; stating it once spares each caller the element-wise proof. */
  lemma ConcatAssoc(a: string, b: string, c: string)
    ensures (a + b) + c == a + (b + c)
  {
  }

  /** A slice that ends inside the left operand of a concatenation. */
  lemma SliceLeft(a: string, b: string, i: int, j: int)
    requires 0 <= i <= j <= |a|
    ensures (a + b)[i..j] == a[i..j]
  {
  }

  /** A slice that starts inside the right operand of a concatenation. */
  lemma SliceRight(a: string, b: string, i: int, j: int)
    requires |a| <= i <= j <= |a| + |b|
    ensures (a + b)[i..j] == b[i - |a|..j - |a|]
  {
  }

  /** `sub` occurs in `s` starting at index `k`. */
  predicate OccursAt(s: string, sub: string, k: int) {
    0 <= k && k + |sub| <= |s| && s[k..k + |sub|] == sub
  }

  /** `sub` occurs nowhere in `s`. */
  ghost predicate Absent(s: string, sub: string) {
    forall j :: !OccursAt(s, sub, j)
  }

  /** `k` is the start of the last occurrence of `sub` in `s`. */
  ghost predicate IsLastOccurrence(s: string, sub: string, k: int) {
    OccursAt(s, sub, k) && forall j :: k < j ==> !OccursAt(s, sub, j)
  }

  /** An occurrence in a prefix of `s` is an occurrence in `s` that ends inside the prefix. */
  lemma OccursInPrefix(s: string, n: nat, sub: string, j: int)
    requires n <= |s|
    ensures OccursAt(s[..n], sub, j) <==> OccursAt(s, sub, j) && j + |sub| <= n
  {
    if 0 <= j && j + |sub| <= n {
      assert s[..n][j..j + |sub|] == s[j..j + |sub|];
    }
  }

  /** A one-byte pattern occurs exactly where that byte is. */
  lemma OccursAtByte(s: string, c: char, j: int)
    ensures OccursAt(s, [c], j) <==> 0 <= j < |s| && s[j] == c
  {
    if 0 <= j < |s| {
      assert s[j..j + 1] == [s[j]];
    }
  }

  /** Matching position by position is an occurrence. */
  lemma MatchAt(s: string, sub: string, j: int)
    requires 0 <= j && j + |sub| <= |s|
    requires forall k :: 0 <= k < |sub| ==> s[j + k] == sub[k]
    ensures OccursAt(s, sub, j)
  {
    assert s[j..j + |sub|] == sub;
  }

  /** A mismatch at any one position rules an occurrence out. */
  lemma MismatchAt(s: string, sub: string, j: int, k: int)
    requires 0 <= k < |sub|
    requires 0 <= j + k < |s| ==> s[j + k] != sub[k]
    ensures !OccursAt(s, sub, j)
  {
    if 0 <= j && j + |sub| <= |s| {
      assert s[j..j + |sub|][k] == s[j + k];
    }
  }

  /**
   * strings.LastIndex: the index of the last occurrence of `sub` in `s`,
   * or -1 when there is none.  An empty `sub` is found at |s|.
   */
  function LastIndex(s: string, sub: string): (r: int)
    ensures r == -1 || 0 <= r <= |s| - |sub|
    decreases |s|
  {
    if |s| < |sub| then -1
    else if s[|s| - |sub|..] == sub then |s| - |sub|
    else LastIndex(s[..|s| - 1], sub)
  }

  /** LastIndex finds the last occurrence, and reports -1 exactly when there is none. */
  lemma {:induction false} LastIndexSpec(s: string, sub: string)
    ensures var r := LastIndex(s, sub);
      (r == -1 <==> Absent(s, sub)) && (r != -1 ==> IsLastOccurrence(s, sub, r))
    decreases |s|
  {
    if |s| < |sub| {
    } else if s[|s| - |sub|..] == sub {
      assert OccursAt(s, sub, |s| - |sub|);
    } else {
      var t := s[..|s| - 1];
      LastIndexSpec(t, sub);
      forall j | OccursAt(s, sub, j) ensures OccursAt(t, sub, j) {
        OccursInPrefix(s, |s| - 1, sub, j);
      }
      var r := LastIndex(t, sub);
      if r != -1 {
        OccursInPrefix(s, |s| - 1, sub, r);
      }
    }
  }

  /** The last occurrence is unique, so LastIndex is the only index it can be. */
  lemma LastIndexIs(s: string, sub: string, k: int)
    requires IsLastOccurrence(s, sub, k)
    ensures LastIndex(s, sub) == k
  {
    LastIndexSpec(s, sub);
  }
}
