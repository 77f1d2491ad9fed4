/** The natural order of strings used by Kotlin's `compareBy` on a `String` key:
    `String.compareTo`, which compares character by character and, when one
    string is a proper prefix of the other, puts the shorter one first. */
module Lexicographic {

  /** `String.compareTo`: the difference of the first differing characters, or
      the difference of the lengths when one string is a prefix of the other. */
  function CompareTo(a: string, b: string): int
  {
    if |a| == 0 || |b| == 0 then |a| - |b|
    else if a[0] != b[0] then (a[0] as int) - (b[0] as int)
    else CompareTo(a[1..], b[1..])
  }

  /** Reference definition of "`a` sorts strictly before `b`": `a` is a proper
      prefix of `b`, or the two agree up to a position where `a` has the smaller
      character. */
  ghost predicate LexLess(a: string, b: string) {
    || (|a| < |b| && a == b[..|a|])
    || (exists k :: 0 <= k < |a| && k < |b| && a[..k] == b[..k] && a[k] < b[k])
  }

  /** `compareTo` returns zero exactly on equal strings. */
  lemma {:induction false} CompareToZero(a: string, b: string)
    ensures CompareTo(a, b) == 0 <==> a == b
    decreases |a|
  {
    if |a| > 0 && |b| > 0 && a[0] == b[0] {
      CompareToZero(a[1..], b[1..]);
      if a[1..] == b[1..] {
        assert a == [a[0]] + a[1..] && b == [b[0]] + b[1..];
      }
    }
  }

  /** Swapping the arguments negates the result. */
  lemma {:induction false} CompareToAntisymmetric(a: string, b: string)
    ensures CompareTo(b, a) == -CompareTo(a, b)
    decreases |a|
  {
    if |a| > 0 && |b| > 0 && a[0] == b[0] {
      CompareToAntisymmetric(a[1..], b[1..]);
    }
  }

  /** The "negative result" relation is transitive. */
  lemma {:induction false} CompareToTransitive(a: string, b: string, c: string)
    requires CompareTo(a, b) < 0 && CompareTo(b, c) < 0
    ensures CompareTo(a, c) < 0
    decreases |a|
  {
    if |a| > 0 && |b| > 0 && |c| > 0 && a[0] == b[0] && b[0] == c[0] {
      CompareToTransitive(a[1..], b[1..], c[1..]);
    }
  }

  /** A negative `compareTo` means exactly that `a` sorts before `b` in the
      reference lexicographic order. */
  lemma CompareToIsLexLess(a: string, b: string)
    ensures CompareTo(a, b) < 0 <==> LexLess(a, b)
  {
    if CompareTo(a, b) < 0 {
      NegativeIsLexLess(a, b);
    }
    if LexLess(a, b) {
      LexLessIsNegative(a, b);
    }
  }

  lemma {:induction false} NegativeIsLexLess(a: string, b: string)
    requires CompareTo(a, b) < 0
    ensures LexLess(a, b)
    decreases |a|
  {
    if |a| == 0 {
      assert a == b[..0];
    } else if a[0] < b[0] {
      assert a[..0] == b[..0];
    } else {
      var a', b' := a[1..], b[1..];
      NegativeIsLexLess(a', b');
      if |a'| < |b'| && a' == b'[..|a'|] {
        assert a == [a[0]] + a' && b[..|a|] == [b[0]] + b'[..|a'|];
      } else {
        var k :| 0 <= k < |a'| && k < |b'| && a'[..k] == b'[..k] && a'[k] < b'[k];
        assert a[..k + 1] == [a[0]] + a'[..k] && b[..k + 1] == [b[0]] + b'[..k];
        assert a[k + 1] == a'[k] && b[k + 1] == b'[k];
      }
    }
  }

  lemma {:induction false} LexLessIsNegative(a: string, b: string)
    requires LexLess(a, b)
    ensures CompareTo(a, b) < 0
    decreases |a|
  {
    if |a| < |b| && a == b[..|a|] {
      if |a| > 0 {
        assert a[0] == b[0];
        assert a[1..] == b[1..][..|a| - 1];
        LexLessIsNegative(a[1..], b[1..]);
      }
    } else {
      var k :| 0 <= k < |a| && k < |b| && a[..k] == b[..k] && a[k] < b[k];
      if k > 0 {
        assert a[0] == a[..k][0] && b[0] == b[..k][0];
        var a', b' := a[1..], b[1..];
        assert a'[..k - 1] == a[..k][1..] && b'[..k - 1] == b[..k][1..];
        assert a'[k - 1] == a[k] && b'[k - 1] == b[k];
        LexLessIsNegative(a', b');
      }
    }
  }
}
