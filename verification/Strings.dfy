/** memcmp and memmem, shared/string.c: the Not So Naive search, which may skip two positions at a time. */
module Strings {

  type Bytes = array<int>

  /** The needle x occurs in the haystack y at position i. */
  predicate OccursAt(x: seq<int>, y: seq<int>, i: int) {
    0 <= i && i + |x| <= |y| && y[i..i + |x|] == x
  }

  /** No occurrence starts before position i. */
  predicate NoneBefore(x: seq<int>, y: seq<int>, i: int) {
    forall k :: 0 <= k < i ==> !OccursAt(x, y, k)
  }

  /** x and y agree up to position k, and differ by d there. */
  predicate DifferAt(x: seq<int>, y: seq<int>, k: int, d: int) {
    0 <= k < |x| && k < |y| && x[..k] == y[..k] && x[k] - y[k] == d
  }

  ghost predicate FirstDifference(x: seq<int>, y: seq<int>, d: int) {
    exists k :: DifferAt(x, y, k, d)
  }

  /** The first n bytes from a and b: zero when they agree, else the difference of the first two that do not. */
  method Memcmp(s: Bytes, a: nat, t: Bytes, b: nat, n: nat) returns (d: int)
    requires a + n <= s.Length && b + n <= t.Length
    ensures d == 0 <==> s[a..a + n] == t[b..b + n]
    ensures d != 0 ==> FirstDifference(s[a..a + n], t[b..b + n], d)
  {
    d := 0;
    var i := 0;
    while i < n
      invariant 0 <= i <= n && d == 0 && s[a..a + i] == t[b..b + i]
    {
      d := s[a + i] - t[b + i];
      if d != 0 {
        assert s[a..a + n][..i] == s[a..a + i] && t[b..b + n][..i] == t[b..b + i];
        assert DifferAt(s[a..a + n], t[b..b + n], i, d);
        return;
      }
      assert s[a..a + (i + 1)] == s[a..a + i] + [s[a + i]] && t[b..b + (i + 1)] == t[b..b + i] + [t[b + i]];
      i := i + 1;
    }
  }

  /** An occurrence has the first two bytes of the needle where they belong. */
  lemma StartsWithNeedle(x: seq<int>, y: seq<int>, i: int)
    requires |x| >= 2 && OccursAt(x, y, i)
    ensures y[i] == x[0] && y[i + 1] == x[1]
  {
    assert y[i..i + |x|][0] == y[i] && y[i..i + |x|][1] == y[i + 1];
  }

  /** When the second byte does not match, a needle that starts with two equal bytes cannot start at the next
      position either. */
  lemma SkipOnMismatch(x: seq<int>, y: seq<int>, j: nat)
    requires |x| >= 2 && j + |x| <= |y| && x[1] != y[j + 1] && NoneBefore(x, y, j)
    ensures NoneBefore(x, y, j + 1) && (x[0] == x[1] ==> NoneBefore(x, y, j + 2))
  {
    if OccursAt(x, y, j) { StartsWithNeedle(x, y, j); }
    if OccursAt(x, y, j + 1) { StartsWithNeedle(x, y, j + 1); }
  }

  /** When the second byte matches, a needle that starts with two different bytes cannot start there. */
  lemma SkipAfterMatch(x: seq<int>, y: seq<int>, j: nat)
    requires |x| >= 2 && j + |x| <= |y| && x[1] == y[j + 1] && NoneBefore(x, y, j) && !OccursAt(x, y, j)
    ensures NoneBefore(x, y, j + 1) && (x[0] != x[1] ==> NoneBefore(x, y, j + 2))
  {
    if OccursAt(x, y, j + 1) { StartsWithNeedle(x, y, j + 1); }
  }

  lemma SplitNeedle(x: seq<int>, y: seq<int>, j: nat)
    requires |x| >= 2 && j + |x| <= |y|
    ensures OccursAt(x, y, j) <==> x[0] == y[j] && x[1] == y[j + 1] && x[2..] == y[j + 2..j + |x|]
  {
    assert x == [x[0], x[1]] + x[2..];
    assert y[j..j + |x|] == [y[j], y[j + 1]] + y[j + 2..j + |x|];
  }

  /** memmem: the leftmost occurrence of a needle of non-zero length, or -1 for NULL when there is none. */
  method Memmem(haystack: Bytes, needle: Bytes) returns (r: int)
    ensures r >= 0 ==>
      needle.Length > 0 && OccursAt(needle[..], haystack[..], r) && NoneBefore(needle[..], haystack[..], r)
    ensures r < 0 ==> r == -1 && (needle.Length == 0 || forall i :: !OccursAt(needle[..], haystack[..], i))
  {
    var n, m := haystack.Length, needle.Length;
    ghost var y, x := haystack[..], needle[..];
    if m > n || m == 0 || n == 0 {
      return -1;
    }
    if m != 1 {
      var k, l := 1, 2;
      if needle[0] == needle[1] {
        k, l := 2, 1;
      }
      var j := 0;
      while j <= n - m
        invariant 0 <= j <= n && NoneBefore(x, y, j)
      {
        if needle[1] != haystack[j + 1] {
          SkipOnMismatch(x, y, j);
          j := j + k;
        } else {
          var d := Memcmp(needle, 2, haystack, j + 2, m - 2);
          assert needle[2..2 + (m - 2)] == x[2..] && haystack[j + 2..j + 2 + (m - 2)] == y[j + 2..j + m];
          SplitNeedle(x, y, j);
          if d == 0 && needle[0] == haystack[j] {
            return j;
          }
          SkipAfterMatch(x, y, j);
          j := j + l;
        }
      }
    } else {
      var i := 0;
      while true
        invariant 0 <= i < n && NoneBefore(x, y, i)
        decreases n - i
      {
        assert y[i..i + 1] == [haystack[i]] && x == [needle[0]];
        if haystack[i] == needle[0] {
          return i;
        }
        i := i + 1;
        if i == n {
          break;
        }
      }
    }
    return -1;
  }
}
