/** The Kotlin standard-library string functions the scanner adapters rely on:
    `indexOf`, `substringAfter`, `substringBefore`, `trim`, `lines`,
    `joinToString`, `split` and `Int.toString`. Strings are sequences of
    Unicode scalar values. */
module KotlinStrings {
  import opened Optional

  // ---------------------------------------------------------------------------
  // Occurrences of a pattern
  // ---------------------------------------------------------------------------

  /** `pat` occurs in `s` starting at position `i`. */
  predicate OccursAt(s: string, pat: string, i: int) {
    0 <= i && i + |pat| <= |s| && s[i..i + |pat|] == pat
  }

  /** `i` is the first position at which `pat` occurs in `s`. */
  predicate IsFirstOccurrence(s: string, pat: string, i: int) {
    OccursAt(s, pat, i) && forall k :: 0 <= k < i ==> !OccursAt(s, pat, k)
  }

  /** `String.indexOf(pat, from)`: the first occurrence of `pat` at or after `from`. */
  function IndexOfFrom(s: string, pat: string, from: nat): (r: Option<nat>)
    ensures r.Some? ==> from <= r.value && OccursAt(s, pat, r.value)
    ensures forall k :: from <= k && (r.None? || k < r.value) ==> !OccursAt(s, pat, k)
    decreases |s| - from
  {
    if from + |pat| > |s| then None
    else if s[from..from + |pat|] == pat then Some(from)
    else IndexOfFrom(s, pat, from + 1)
  }

  /** `String.indexOf(pat)`: the first occurrence of `pat`, or None for Kotlin's -1. */
  function IndexOf(s: string, pat: string): (r: Option<nat>)
    ensures r.Some? ==> IsFirstOccurrence(s, pat, r.value)
    ensures r.None? <==> forall k :: !OccursAt(s, pat, k)
  {
    IndexOfFrom(s, pat, 0)
  }

  /** `String.substringAfter(delimiter)`: the text after the first occurrence of
      the delimiter, or the whole string when the delimiter does not occur. */
  function SubstringAfter(s: string, delimiter: string): (r: string)
    ensures forall i :: IsFirstOccurrence(s, delimiter, i) ==> r == s[i + |delimiter|..]
    ensures (forall k :: !OccursAt(s, delimiter, k)) ==> r == s
  {
    match IndexOf(s, delimiter)
    case Some(i) => FirstOccurrenceUnique(s, delimiter, i); s[i + |delimiter|..]
    case None => s
  }

  /** `String.substringBefore(delimiter)`: the text before the first occurrence of
      the delimiter, or the whole string when the delimiter does not occur. */
  function SubstringBefore(s: string, delimiter: string): (r: string)
    ensures forall i :: IsFirstOccurrence(s, delimiter, i) ==> r == s[..i]
    ensures (forall k :: !OccursAt(s, delimiter, k)) ==> r == s
  {
    match IndexOf(s, delimiter)
    case Some(i) => FirstOccurrenceUnique(s, delimiter, i); s[..i]
    case None => s
  }

  /** There is at most one first occurrence. */
  lemma FirstOccurrenceUnique(s: string, pat: string, i: int)
    requires IsFirstOccurrence(s, pat, i)
    ensures forall j :: IsFirstOccurrence(s, pat, j) ==> j == i
  {
  }

  /** `r` occurs in `s` starting at position `i`. */
  predicate IsInfixAt(r: string, s: string, i: int) {
    0 <= i && i + |r| <= |s| && r == s[i..i + |r|]
  }

  /** `r` is a contiguous part of `s`. */
  ghost predicate IsInfix(r: string, s: string) {
    exists i :: IsInfixAt(r, s, i)
  }

  /** A part of a part of `s` is a part of `s`. */
  lemma InfixTransitive(a: string, b: string, c: string)
    requires IsInfix(a, b) && IsInfix(b, c)
    ensures IsInfix(a, c)
  {
    var i :| IsInfixAt(a, b, i);
    var j :| IsInfixAt(b, c, j);
    assert forall k :: 0 <= k < |a| ==> c[j + i + k] == b[i + k] == a[k];
    assert c[j + i..j + i + |a|] == a;
    assert IsInfixAt(a, c, j + i);
  }

  /** `substringAfter` returns a suffix of the string. */
  lemma SubstringAfterIsInfix(s: string, delimiter: string)
    ensures IsInfixAt(SubstringAfter(s, delimiter), s, |s| - |SubstringAfter(s, delimiter)|)
  {
    match IndexOf(s, delimiter)
    case Some(i) =>
    case None =>
  }

  /** `substringBefore` returns a prefix of the string. */
  lemma SubstringBeforeIsInfix(s: string, delimiter: string)
    ensures IsInfixAt(SubstringBefore(s, delimiter), s, 0)
  {
    match IndexOf(s, delimiter)
    case Some(i) =>
    case None =>
  }

  // ---------------------------------------------------------------------------
  // Whitespace and trim
  // ---------------------------------------------------------------------------

  /** Kotlin's `Char.isWhitespace()` on the JVM: `Character.isWhitespace` (the
      control characters U+0009..U+000D, U+001C..U+001F and the space, line and
      paragraph separators other than the non-breaking ones) together with
      `Character.isSpaceChar` (every space, line and paragraph separator). */
  predicate IsWhitespace(c: char) {
    var n := c as int;
    || (9 <= n <= 13)
    || (0x1C <= n <= 0x20)
    || n == 0xA0
    || n == 0x1680
    || (0x2000 <= n <= 0x200A)
    || n == 0x2028 || n == 0x2029
    || n == 0x202F || n == 0x205F
    || n == 0x3000
  }

  predicate AllWhitespace(s: string) {
    forall k :: 0 <= k < |s| ==> IsWhitespace(s[k])
  }

  /** `r` sits at `i` in `s` with only whitespace before and after it. */
  predicate WhitespaceAround(r: string, s: string, i: int) {
    0 <= i <= |s| - |r| && r == s[i..i + |r|]
    && AllWhitespace(s[..i]) && AllWhitespace(s[i + |r|..])
  }

  /** The result neither starts nor ends with whitespace. */
  predicate IsTrimmed(s: string) {
    |s| == 0 || (!IsWhitespace(s[0]) && !IsWhitespace(s[|s| - 1]))
  }

  /** How many whitespace characters `s` starts with. */
  function LeadingWhitespace(s: string): (n: nat)
    ensures n <= |s| && AllWhitespace(s[..n])
    ensures n == |s| || !IsWhitespace(s[n])
  {
    if |s| > 0 && IsWhitespace(s[0]) then
      var n := LeadingWhitespace(s[1..]);
      forall k | 0 <= k <= n ensures IsWhitespace(s[k]) {
        if k > 0 {
          assert s[k] == s[1..][..n][k - 1];
        }
      }
      n + 1
    else 0
  }

  /** The length of `s` without the whitespace it ends with. */
  function TrailingWhitespaceStart(s: string): (n: nat)
    ensures n <= |s| && AllWhitespace(s[n..])
    ensures n == 0 || !IsWhitespace(s[n - 1])
  {
    if |s| > 0 && IsWhitespace(s[|s| - 1]) then
      var n := TrailingWhitespaceStart(s[..|s| - 1]);
      forall k | 0 <= k < |s| - n ensures IsWhitespace(s[n..][k]) {
        if k < |s| - 1 - n {
          assert s[n..][k] == s[..|s| - 1][n..][k];
        }
      }
      n
    else |s|
  }

  /** `String.trim()`: the infix of `s` left once the whitespace at both ends is
      removed. Everything cut off is whitespace and the result is trimmed. */
  function Trim(s: string): (r: string)
    ensures IsTrimmed(r)
    ensures exists i :: WhitespaceAround(r, s, i)
  {
    var start := LeadingWhitespace(s);
    var end := start + TrailingWhitespaceStart(s[start..]);
    TrimParts(s, start, end);
    s[start..end]
  }

  /** The part between the leading and the trailing whitespace is trimmed, and
      only whitespace surrounds it. */
  lemma TrimParts(s: string, start: nat, end: nat)
    requires start <= end <= |s|
    requires AllWhitespace(s[..start]) && (start == |s| || !IsWhitespace(s[start]))
    requires AllWhitespace(s[start..][end - start..])
    requires end == start || !IsWhitespace(s[end - 1])
    ensures IsTrimmed(s[start..end])
    ensures WhitespaceAround(s[start..end], s, start)
  {
    var r := s[start..end];
    assert start + |r| == end;
    forall k | 0 <= k < |s| - end ensures IsWhitespace(s[end..][k]) {
      assert s[end..][k] == s[start..][end - start..][k];
    }
    if |r| > 0 {
      assert r[0] == s[start] && r[|r| - 1] == s[end - 1];
    }
  }

  /** `trim` returns a part of the string. */
  lemma TrimIsInfix(s: string)
    ensures IsInfix(Trim(s), s)
  {
    var r := Trim(s);
    var i :| WhitespaceAround(r, s, i);
    assert IsInfixAt(r, s, i);
  }

  /** Trimming a string that is already trimmed changes nothing. */
  lemma TrimTrimmed(s: string)
    requires IsTrimmed(s)
    ensures Trim(s) == s
  {
  }

  // ---------------------------------------------------------------------------
  // Lines
  // ---------------------------------------------------------------------------

  predicate IsLineBreak(c: char) {
    c == '\n' || c == '\r'
  }

  predicate HasNoLineBreak(s: string) {
    forall k :: 0 <= k < |s| ==> !IsLineBreak(s[k])
  }

  /** Position of the first `\n` or `\r`, or `|s|` when there is none. */
  function LineEnd(s: string): (n: nat)
    ensures n <= |s|
    ensures HasNoLineBreak(s[..n])
    ensures n < |s| ==> IsLineBreak(s[n])
  {
    if |s| == 0 || IsLineBreak(s[0]) then 0
    else
      var m := LineEnd(s[1..]);
      assert s[..m + 1] == [s[0]] + s[1..][..m];
      m + 1
  }

  /** The text before the first line break. */
  function FirstLine(s: string): (r: string)
    ensures HasNoLineBreak(r)
    ensures r <= s
    ensures |r| < |s| ==> IsLineBreak(s[|r|])
  {
    s[..LineEnd(s)]
  }

  /** A line followed by nothing or by a line break ends where the break is. */
  lemma {:induction false} LineEndAfterLine(line: string, tail: string)
    requires HasNoLineBreak(line)
    requires |tail| > 0 ==> IsLineBreak(tail[0])
    ensures LineEnd(line + tail) == |line|
    ensures FirstLine(line + tail) == line
    decreases |line|
  {
    if |line| > 0 {
      assert (line + tail)[0] == line[0];
      assert (line + tail)[1..] == line[1..] + tail;
      LineEndAfterLine(line[1..], tail);
    } else {
      assert line + tail == tail;
    }
  }

  /** `String.lines()` (and `lineSequence()`): splits at `\r\n`, `\n` and `\r`.
      A string always has at least one line, possibly empty. */
  function Lines(s: string): (r: seq<string>)
    ensures |r| >= 1
    ensures r[0] == FirstLine(s)
    ensures forall k :: 0 <= k < |r| ==> HasNoLineBreak(r[k])
    decreases |s|
  {
    var n := LineEnd(s);
    if n == |s| then [s]
    else if s[n] == '\r' && n + 1 < |s| && s[n + 1] == '\n' then [s[..n]] + Lines(s[n + 2..])
    else [s[..n]] + Lines(s[n + 1..])
  }

  // ---------------------------------------------------------------------------
  // joinToString and split
  // ---------------------------------------------------------------------------

  /** `Iterable<String>.joinToString(separator)`. */
  function JoinToString(xs: seq<string>, separator: string): string
  {
    if |xs| == 0 then ""
    else if |xs| == 1 then xs[0]
    else xs[0] + separator + JoinToString(xs[1..], separator)
  }

  /** Joining one more piece appends the separator and the piece; a single piece
      is joined to itself. Together with the empty case this fixes the join of
      every list. */
  lemma {:induction false} JoinSnoc(xs: seq<string>, x: string, separator: string)
    ensures |xs| == 0 ==> JoinToString(xs + [x], separator) == x
    ensures |xs| > 0 ==> JoinToString(xs + [x], separator) == JoinToString(xs, separator) + separator + x
    decreases |xs|
  {
    if |xs| == 0 {
      assert xs + [x] == [x];
    } else {
      var ys := xs + [x];
      assert ys[0] == xs[0] && ys[1..] == xs[1..] + [x];
      JoinSnoc(xs[1..], x, separator);
      if |xs| > 1 {
        var tail := JoinToString(xs[1..], separator);
        assert JoinToString(ys, separator) == xs[0] + separator + (tail + separator + x);
        assert xs[0] + separator + (tail + separator + x) == (xs[0] + separator + tail) + separator + x;
      }
    }
  }

  /** `String.split(delimiter)` for a one-character delimiter: the pieces between
      the delimiters, always at least one. */
  function Split(s: string, delimiter: char): (r: seq<string>)
    ensures |r| >= 1
    ensures forall k :: 0 <= k < |r| ==> delimiter !in r[k]
    decreases |s|
  {
    match IndexOf(s, [delimiter])
    case None =>
      assert forall k :: 0 <= k < |s| ==> s[k] != delimiter by {
        forall k | 0 <= k < |s| ensures s[k] != delimiter {
          assert !OccursAt(s, [delimiter], k);
        }
      }
      [s]
    case Some(i) =>
      assert forall k :: 0 <= k < i ==> s[k] != delimiter by {
        forall k | 0 <= k < i ensures s[k] != delimiter {
          assert !OccursAt(s, [delimiter], k);
        }
      }
      [s[..i]] + Split(s[i + 1..], delimiter)
  }

  /** Splitting the joined list gives the list back, provided it is non-empty and
      no element contains the separator. */
  lemma {:induction false} SplitJoin(xs: seq<string>, delimiter: char)
    requires |xs| > 0
    requires forall k :: 0 <= k < |xs| ==> delimiter !in xs[k]
    ensures Split(JoinToString(xs, [delimiter]), delimiter) == xs
    decreases |xs|
  {
    var s := JoinToString(xs, [delimiter]);
    if |xs| == 1 {
      assert s == xs[0];
      forall k | 0 <= k < |s| ensures !OccursAt(s, [delimiter], k) {
        assert s[k] in xs[0];
      }
    } else {
      var head := xs[0];
      var tail := JoinToString(xs[1..], [delimiter]);
      assert s == head + [delimiter] + tail;
      assert IsFirstOccurrence(s, [delimiter], |head|) by {
        assert s[|head|..|head| + 1] == [delimiter];
        forall k | 0 <= k < |head| ensures !OccursAt(s, [delimiter], k) {
          assert s[k] == head[k];
        }
      }
      FirstOccurrenceUnique(s, [delimiter], |head|);
      assert s[..|head|] == head;
      assert s[|head| + 1..] == tail;
      SplitJoin(xs[1..], delimiter);
    }
  }

  /** Joining the pieces of a split with the delimiter gives the string back. */
  lemma {:induction false} JoinSplit(s: string, delimiter: char)
    ensures JoinToString(Split(s, delimiter), [delimiter]) == s
    decreases |s|
  {
    match IndexOf(s, [delimiter])
    case None =>
    case Some(i) =>
      var rest := s[i + 1..];
      var pieces := Split(s, delimiter);
      assert pieces == [s[..i]] + Split(rest, delimiter);
      assert |pieces| >= 2 && pieces[0] == s[..i] && pieces[1..] == Split(rest, delimiter);
      JoinSplit(rest, delimiter);
      assert JoinToString(pieces, [delimiter]) == s[..i] + [delimiter] + rest;
      assert s == s[..i] + [delimiter] + rest by {
        assert s[i..i + 1] == [delimiter];
      }
  }

  // ---------------------------------------------------------------------------
  // Decimal integers
  // ---------------------------------------------------------------------------

  predicate IsDigit(c: char) {
    '0' <= c <= '9'
  }

  predicate AllDigits(s: string) {
    forall k :: 0 <= k < |s| ==> IsDigit(s[k])
  }

  function DigitChar(d: nat): (c: char)
    requires d < 10
    ensures IsDigit(c)
  {
    ['0', '1', '2', '3', '4', '5', '6', '7', '8', '9'][d]
  }

  function DigitValue(c: char): (d: nat)
    requires IsDigit(c)
    ensures d < 10
  {
    (c as int) - ('0' as int)
  }

  /** The decimal digits of `n`, most significant first, without leading zeros. */
  function NatToString(n: nat): (r: string)
    ensures |r| > 0 && AllDigits(r)
    ensures r[0] == '0' ==> n == 0
  {
    if n < 10 then [DigitChar(n)] else NatToString(n / 10) + [DigitChar(n % 10)]
  }

  /** `Int.toString()`: a `-` sign for negative values, then the digits. */
  function IntToString(n: int): (r: string)
    ensures |r| > 0
    ensures n < 0 <==> r[0] == '-'
  {
    if n < 0 then "-" + NatToString(-n) else NatToString(n)
  }

  /** Reads a string of decimal digits (the inverse of `NatToString`). */
  function ParseDigits(s: string): (n: nat)
    requires AllDigits(s)
  {
    if |s| == 0 then 0 else 10 * ParseDigits(s[..|s| - 1]) + DigitValue(s[|s| - 1])
  }

  /** Reads an optionally signed decimal integer (`String.toInt()` on well-formed input). */
  function ParseInt(s: string): int
    requires |s| > 0
    requires s[0] == '-' ==> AllDigits(s[1..])
    requires s[0] != '-' ==> AllDigits(s)
  {
    if s[0] == '-' then -(ParseDigits(s[1..]) as int) else ParseDigits(s)
  }

  lemma {:induction false} ParseNatToString(n: nat)
    ensures ParseDigits(NatToString(n)) == n
  {
    if n >= 10 {
      var s := NatToString(n);
      assert s[..|s| - 1] == NatToString(n / 10);
      ParseNatToString(n / 10);
    } else {
      assert DigitValue(DigitChar(n)) == n;
    }
  }

  /** The decimal string of an integer reads back as that integer, so distinct
      integers have distinct strings. */
  lemma IntToStringRoundTrip(n: int)
    ensures ParseInt(IntToString(n)) == n
  {
    if n < 0 {
      var s := IntToString(n);
      assert s == "-" + NatToString(-n);
      assert s[0] == '-';
      assert s[1..] == NatToString(-n);
      ParseNatToString(-n);
    } else {
      ParseNatToString(n);
    }
  }
}
