/** `NomossaCommand`: how the `nomossa` executable is named and how its version
    is read from the output of `nomossa -V`. */
module NomossaCommand {
  import opened Optional
  import opened KotlinStrings
  import CommandLineTool

  const ExecutableName: string := "nomossa"

  /** `getVersionArguments()`. */
  const VersionArguments: string := "-V"

  /** `command(workingDir)`: `listOfNotNull(workingDir, "nomossa")` joined with
      the platform's file separator. */
  function Command(workingDir: Option<string>, separator: string): (r: string)
    ensures workingDir.None? ==> r == ExecutableName
    ensures workingDir.Some? ==> r == workingDir.value + separator + ExecutableName
  {
    CommandLineTool.Command(workingDir, separator, ExecutableName)
  }

  // ---------------------------------------------------------------------------
  // The regex (\d+\.\d+\.\d+)(?:\.\d+)? and its first match
  // ---------------------------------------------------------------------------

  /** The end of the run of ASCII digits that starts at `i`. */
  function DigitRunEnd(s: string, i: nat): (j: nat)
    requires i <= |s|
    ensures i <= j <= |s|
    ensures DigitsBetween(s, i, j)
    ensures j == |s| || !IsDigit(s[j])
    decreases |s| - i
  {
    if i < |s| && IsDigit(s[i]) then DigitRunEnd(s, i + 1) else i
  }

  /** Every character of `s[i..j]` is an ASCII digit. */
  predicate DigitsBetween(s: string, i: int, j: int) {
    forall k :: i <= k < j && 0 <= k < |s| ==> IsDigit(s[k])
  }

  /** The end of a match of `\d+\.\d+\.\d+` starting exactly at `i`, if any.
      Each `\d+` has to take its whole digit run: a shorter run is followed by
      another digit, never by the `.` the pattern needs next, so backtracking
      cannot produce another match. The optional `(?:\.\d+)?` does not change
      group 1, whose end is returned. */
  function MatchAt(s: string, i: nat): Option<nat>
    requires i <= |s|
  {
    var a := DigitRunEnd(s, i);
    if a == i || a == |s| || s[a] != '.' then None
    else
      var b := DigitRunEnd(s, a + 1);
      if b == a + 1 || b == |s| || s[b] != '.' then None
      else
        var c := DigitRunEnd(s, b + 1);
        if c == b + 1 then None else Some(c)
  }

  /** `Regex.find`: tries the start positions from left to right and returns the
      first one with a match, together with the end of group 1. */
  function FindFrom(s: string, from: nat): (r: Option<(nat, nat)>)
    requires from <= |s|
    ensures r.Some? ==> from <= r.value.0 <= |s| && MatchAt(s, r.value.0) == Some(r.value.1)
    ensures r.Some? ==> forall k :: from <= k < r.value.0 ==> MatchAt(s, k).None?
    ensures r.None? ==> forall k :: from <= k <= |s| ==> MatchAt(s, k).None?
    decreases |s| - from
  {
    match MatchAt(s, from)
    case Some(end) => Some((from, end))
    case None => if from == |s| then None else FindFrom(s, from + 1)
  }

  // ---------------------------------------------------------------------------
  // What a version is, stated independently of the matcher
  // ---------------------------------------------------------------------------

  predicate DigitRun(t: string) {
    |t| > 0 && AllDigits(t)
  }

  /** The dots of `t` at `a` and `b` split it into three non-empty digit runs. */
  predicate SplitsAsVersion(t: string, a: int, b: int) {
    && 0 < a < b < |t| && t[a] == '.' && t[b] == '.'
    && DigitRun(t[..a]) && DigitRun(t[a + 1..b]) && DigitRun(t[b + 1..])
  }

  /** `t` is three non-empty ASCII digit runs separated by single dots. */
  ghost predicate IsVersionTriple(t: string) {
    exists a, b :: SplitsAsVersion(t, a, b)
  }

  /** No infix of `s` starting at a position in `[lo, hi)` is a version triple. */
  ghost predicate NoVersionStartsIn(s: string, lo: int, hi: int) {
    forall i, j :: lo <= i < hi && 0 <= i <= j <= |s| ==> !IsVersionTriple(s[i..j])
  }

  /** `v` occurs in `s` at `i`, is a version triple that ends where its last digit
      run ends, and no version triple starts earlier in `s`. */
  ghost predicate IsLeftmostVersion(s: string, i: int, v: string) {
    && 0 <= i && i + |v| <= |s| && s[i..i + |v|] == v
    && IsVersionTriple(v)
    && (i + |v| == |s| || !IsDigit(s[i + |v|]))
    && NoVersionStartsIn(s, 0, i)
  }

  /** A digit run that stops at a non-digit (or the end) is the one `DigitRunEnd` finds. */
  lemma {:induction false} DigitRunEndIs(s: string, i: nat, e: nat)
    requires i <= e <= |s|
    requires DigitsBetween(s, i, e)
    requires e == |s| || !IsDigit(s[e])
    ensures DigitRunEnd(s, i) == e
    decreases e - i
  {
    if i < e {
      DigitRunEndIs(s, i + 1, e);
    }
  }

  /** A digit run at `i` reaching `e` is covered by `DigitRunEnd`. */
  lemma {:induction false} DigitRunEndAtLeast(s: string, i: nat, e: nat)
    requires i <= e <= |s|
    requires DigitsBetween(s, i, e)
    ensures DigitRunEnd(s, i) >= e
    decreases e - i
  {
    if i < e {
      DigitRunEndAtLeast(s, i + 1, e);
    }
  }

  /** A match found by `MatchAt` is a version triple ending at a run end. */
  lemma MatchAtSound(s: string, i: nat, c: nat)
    requires i <= |s| && MatchAt(s, i) == Some(c)
    ensures i < c <= |s|
    ensures IsVersionTriple(s[i..c])
    ensures c == |s| || !IsDigit(s[c])
  {
    var a := DigitRunEnd(s, i);
    var b := DigitRunEnd(s, a + 1);
    var t := s[i..c];
    assert t[..a - i] == s[i..a];
    assert t[a - i + 1..b - i] == s[a + 1..b];
    assert t[b - i + 1..] == s[b + 1..c];
    assert SplitsAsVersion(t, a - i, b - i);
  }

  /** Every version triple starting at `i` makes `MatchAt` succeed there. */
  lemma MatchAtComplete(s: string, i: nat, j: nat)
    requires i <= j <= |s| && IsVersionTriple(s[i..j])
    ensures MatchAt(s, i).Some?
  {
    var a, b := TripleDots(s, i, j);
    DigitRunEndIs(s, i, a);
    DigitRunEndIs(s, a + 1, b);
    DigitRunEndAtLeast(s, b + 1, j);
  }

  /** The positions of the two dots of a version triple `s[i..j]`. */
  lemma TripleDots(s: string, i: nat, j: nat) returns (a: nat, b: nat)
    requires i <= j <= |s| && IsVersionTriple(s[i..j])
    ensures i < a && a + 1 < b && b + 1 < j
    ensures s[a] == '.' && s[b] == '.'
    ensures DigitsBetween(s, i, a) && DigitsBetween(s, a + 1, b) && DigitsBetween(s, b + 1, j)
  {
    var t := s[i..j];
    var a', b' :| SplitsAsVersion(t, a', b');
    a, b := i + a', i + b';
    forall k | i <= k < a ensures IsDigit(s[k]) {
      assert s[k] == t[..a'][k - i];
    }
    forall k | a + 1 <= k < b ensures IsDigit(s[k]) {
      assert s[k] == t[a' + 1..b'][k - a - 1];
    }
    forall k | b + 1 <= k < j ensures IsDigit(s[k]) {
      assert s[k] == t[b' + 1..][k - b - 1];
    }
  }

  /** Positions where `MatchAt` fails start no version triple. */
  lemma NoMatchNoVersion(s: string, lo: nat, hi: nat)
    requires lo <= hi <= |s| + 1
    requires forall k :: lo <= k < hi ==> MatchAt(s, k).None?
    ensures NoVersionStartsIn(s, lo, hi)
  {
    forall i, j | lo <= i < hi && 0 <= i <= j <= |s|
      ensures !IsVersionTriple(s[i..j])
    {
      if IsVersionTriple(s[i..j]) {
        MatchAtComplete(s, i, j);
      }
    }
  }

  /** `transformVersion(output)`: group 1 of the first match of
      `(\d+\.\d+\.\d+)(?:\.\d+)?`, or `""` when nothing matches. The result is
      empty exactly when the output holds no `digits.digits.digits` run, and
      otherwise it is the leftmost such run, taken up to the end of its last
      digit run. */
  function TransformVersion(output: string): (r: string)
    ensures r == "" <==> NoVersionStartsIn(output, 0, |output| + 1)
    ensures r != "" ==> exists i :: IsLeftmostVersion(output, i, r)
  {
    match FindFrom(output, 0)
    case Some((i, c)) =>
      MatchAtSound(output, i, c);
      NoMatchNoVersion(output, 0, i);
      assert IsLeftmostVersion(output, i, output[i..c]);
      output[i..c]
    case None =>
      NoMatchNoVersion(output, 0, |output| + 1);
      ""
  }

  /** The leftmost version of a string is unique: the start is the first
      position where a triple begins and the end is fixed by the digit runs. */
  lemma LeftmostVersionUnique(s: string, i: int, v: string, i': int, v': string)
    requires IsLeftmostVersion(s, i, v) && IsLeftmostVersion(s, i', v')
    ensures i == i' && v == v'
  {
    MatchAtComplete(s, i, i + |v|);
    MatchAtComplete(s, i', i' + |v'|);
    assert i == i';
    var c := MatchAt(s, i).value;
    MatchAtSound(s, i, c);
    TripleAtRunEnd(s, i, i + |v|);
    TripleAtRunEnd(s, i, i + |v'|);
  }

  /** A version triple at `i` that ends where a digit run ends ends where
      `MatchAt` says. */
  lemma TripleAtRunEnd(s: string, i: nat, j: nat)
    requires i <= j <= |s| && IsVersionTriple(s[i..j])
    requires j == |s| || !IsDigit(s[j])
    ensures MatchAt(s, i) == Some(j)
  {
    var a, b := TripleDots(s, i, j);
    DigitRunEndIs(s, i, a);
    DigitRunEndIs(s, a + 1, b);
    DigitRunEndIs(s, b + 1, j);
  }

  /** Positions holding no digit start no match, so the search moves past them. */
  lemma {:induction false} FindFromSkipsNonDigits(s: string, from: nat, to: nat)
    requires from <= to <= |s|
    requires forall k :: from <= k < to ==> !IsDigit(s[k])
    ensures FindFrom(s, from) == FindFrom(s, to)
    decreases |s| - from
  {
    if from < to {
      assert DigitRunEnd(s, from) == from;
      FindFromSkipsNonDigits(s, from + 1, to);
    }
  }

  /** The output shown in `transformVersion`'s comment: `4.5.1.1` yields `4.5.1`. */
  lemma TransformVersionExample()
    ensures TransformVersion("nomossasa build version: 4.5.1.1 r(ff4fa7)") == "4.5.1"
  {
    ExampleVersion("nomossasa build version: 4.5.1.1 r(ff4fa7)");
  }

  lemma ExampleVersion(s: string)
    requires s == "nomossasa build version: 4.5.1.1 r(ff4fa7)"
    ensures TransformVersion(s) == "4.5.1"
  {
    ExampleFind(s);
    assert s[25..30] == "4.5.1";
  }

  lemma ExampleFind(s: string)
    requires s == "nomossasa build version: 4.5.1.1 r(ff4fa7)"
    ensures FindFrom(s, 0) == Some((25, 30))
  {
    assert forall k :: 0 <= k < 25 ==> !IsDigit(s[k]);
    FindFromSkipsNonDigits(s, 0, 25);
    ExampleMatch(s);
  }

  lemma ExampleMatch(s: string)
    requires s == "nomossasa build version: 4.5.1.1 r(ff4fa7)"
    ensures MatchAt(s, 25) == Some(30)
  {
    assert s[25] == '4' && s[26] == '.' && s[27] == '5' && s[28] == '.' && s[29] == '1' && s[30] == '.';
    DigitRunEndIs(s, 25, 26);
    DigitRunEndIs(s, 27, 28);
    DigitRunEndIs(s, 29, 30);
  }
}
