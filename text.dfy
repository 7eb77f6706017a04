/**
 * Text operations the ledger relies on: the stored `date` and `category`
 * columns are plain TEXT, ordered and filtered by string comparison only.
 *
 * SQLite's default BINARY collation compares the UTF-8 encodings with
 * memcmp; for Unicode scalar values that is the same order as comparing
 * code points one character at a time, which is what LexLess does.
 */
module Text {

  /** Strict lexicographic order on strings (a proper prefix sorts first). */
  predicate LexLess(a: string, b: string)
  {
    if a == [] then b != []
    else if b == [] then false
    else if a[0] != b[0] then a[0] < b[0]
    else LexLess(a[1..], b[1..])
  }

  /** The first position where two strings differ decides their order. */
  lemma {:induction false} LexLessAtFirstDifference(a: string, b: string, i: nat)
    requires i < |a| && i < |b| && a[..i] == b[..i] && a[i] < b[i]
    ensures LexLess(a, b)
  {
    if i > 0 {
      assert a[0] == a[..i][0] == b[..i][0] == b[0];
      assert a[1..][..i - 1] == a[..i][1..] == b[..i][1..] == b[1..][..i - 1];
      LexLessAtFirstDifference(a[1..], b[1..], i - 1);
    }
  }

  /** Non-strict lexicographic order. */
  predicate LexLe(a: string, b: string)
  {
    a == b || LexLess(a, b)
  }

  lemma {:induction false} LexLessIrreflexive(a: string)
    ensures !LexLess(a, a)
  {
    if a != [] {
      LexLessIrreflexive(a[1..]);
    }
  }

  lemma {:induction false} LexLessAsymmetric(a: string, b: string)
    requires LexLess(a, b)
    ensures !LexLess(b, a)
  {
    if a != [] && b != [] && a[0] == b[0] {
      LexLessAsymmetric(a[1..], b[1..]);
    }
  }

  lemma {:induction false} LexLessTransitive(a: string, b: string, c: string)
    requires LexLess(a, b) && LexLess(b, c)
    ensures LexLess(a, c)
  {
    if a != [] && a[0] == b[0] && b[0] == c[0] {
      LexLessTransitive(a[1..], b[1..], c[1..]);
    }
  }

  /** Any two distinct strings are ordered one way or the other. */
  lemma {:induction false} LexLessTotal(a: string, b: string)
    ensures a == b || LexLess(a, b) || LexLess(b, a)
  {
    if a != [] && b != [] && a[0] == b[0] {
      LexLessTotal(a[1..], b[1..]);
      if a[1..] == b[1..] {
        assert a == [a[0]] + a[1..] && b == [b[0]] + b[1..];
      }
    }
  }

  lemma LexLeTransitive(a: string, b: string, c: string)
    requires LexLe(a, b) && LexLe(b, c)
    ensures LexLe(a, c)
  {
    if a != b && b != c {
      LexLessTransitive(a, b, c);
    }
  }

  /** `p` is a leading part of `s`. */
  predicate IsPrefix(p: string, s: string)
  {
    |p| <= |s| && s[..|p|] == p
  }

  /**
   * The first `n` characters of `s`, or all of `s` when it is shorter:
   * Python's `s[:n]` and SQL's `SUBSTR(s, 1, n)` for n >= 1.
   */
  function Take(s: string, n: nat): (t: string)
    ensures |t| == if |s| < n then |s| else n
    ensures IsPrefix(t, s)
  {
    if |s| <= n then s else s[..n]
  }

  /**
   * Matching a prefix of length n is the same as cutting the string to n
   * characters and comparing: the month filter and the month grouping agree.
   */
  lemma PrefixIffTake(p: string, s: string)
    ensures IsPrefix(p, s) <==> Take(s, |p|) == p
  {
  }
}
