/** `NomosCommand`: how the `nomos` executable is named and how its version is
    scraped from the text it prints. */
module NomosCommand {
  import opened Optional
  import opened KotlinStrings
  import opened KotlinCollections
  import CommandLineTool

  const ExecutableName: string := "nomos"

  /** The text that precedes the version on the version line. */
  const Marker: string := "nomos build version:"

  /** The text that follows the version (the revision, as in `r(ff4fa7)`). */
  const RevisionStart: string := "r("

  /** `command(workingDir)`: `listOfNotNull(workingDir, "nomos")` joined with the
      platform's file separator. */
  function Command(workingDir: Option<string>, separator: string): (r: string)
    ensures workingDir.None? ==> r == ExecutableName
    ensures workingDir.Some? ==> r == workingDir.value + separator + ExecutableName
  {
    CommandLineTool.Command(workingDir, separator, ExecutableName)
  }

  /** What the transform makes of one line: the text after the first marker (the
      whole line without one), cut at the first `r(` (kept whole without one),
      trimmed. The result is a trimmed infix of the line. */
  function ExtractVersion(line: string): (r: string)
    ensures IsTrimmed(r)
    ensures IsInfix(r, line)
  {
    var after := SubstringAfter(line, Marker);
    var before := SubstringBefore(after, RevisionStart);
    var r := Trim(before);
    SubstringAfterIsInfix(line, Marker);
    SubstringBeforeIsInfix(after, RevisionStart);
    InfixTransitive(before, after, line);
    TrimIsInfix(before);
    InfixTransitive(r, before, line);
    r
  }

  /** `transformVersion(output)`: the transform of the first line of `output`
      that gives a non-null value, or the empty string. Every line gives a value,
      so only the first line counts. */
  function TransformVersion(output: string): (r: string)
    ensures r == ExtractVersion(FirstLine(output))
    ensures IsTrimmed(r)
  {
    var lines := Lines(output);
    var found := FirstNotNullOfOrNull(lines, (line: string) => Some(ExtractVersion(line)));
    assert found == Some(ExtractVersion(lines[0]));
    found.GetOr("")
  }

  /** Only the first line is read: whatever follows the first line break (`\n`,
      `\r` or `\r\n`) does not change the version. */
  lemma OnlyFirstLineCounts(line: string, b: char, rest: string)
    requires HasNoLineBreak(line) && IsLineBreak(b)
    ensures TransformVersion(line + [b] + rest) == TransformVersion(line)
  {
    var s := line + [b] + rest;
    assert s == line + ([b] + rest);
    LineEndAfterLine(line, [b] + rest);
    assert FirstLine(s) == line;
    LineEndAfterLine(line, "");
    assert line + "" == line;
    assert FirstLine(line) == line;
  }

  /** A single line is its own first line, so the version is what it yields. */
  lemma SingleLineVersion(line: string)
    requires HasNoLineBreak(line)
    ensures TransformVersion(line) == ExtractVersion(line)
  {
    LineEndAfterLine(line, "");
    assert line + "" == line;
  }

  /** On a line with the marker, the version is the trimmed text between the
      first marker and the first `r(` after it (or the end of the line). */
  lemma VersionAfterMarker(line: string, i: nat)
    requires HasNoLineBreak(line)
    requires IsFirstOccurrence(line, Marker, i)
    ensures var after := line[i + |Marker|..];
            && (forall j :: IsFirstOccurrence(after, RevisionStart, j) ==>
                  TransformVersion(line) == Trim(after[..j]))
            && ((forall k :: !OccursAt(after, RevisionStart, k)) ==> TransformVersion(line) == Trim(after))
  {
    SingleLineVersion(line);
    ExtractAfter(line, line[i + |Marker|..]);
  }

  /** On a line without the marker, the version is the trimmed text before the
      first `r(` (or the whole line, trimmed). */
  lemma VersionWithoutMarker(line: string)
    requires HasNoLineBreak(line)
    requires forall k :: !OccursAt(line, Marker, k)
    ensures forall j :: IsFirstOccurrence(line, RevisionStart, j) ==> TransformVersion(line) == Trim(line[..j])
    ensures (forall k :: !OccursAt(line, RevisionStart, k)) ==> TransformVersion(line) == Trim(line)
  {
    SingleLineVersion(line);
    ExtractAfter(line, line);
  }

  /** What a line yields, given the text `substringAfter` leaves of it. */
  lemma ExtractAfter(line: string, after: string)
    requires SubstringAfter(line, Marker) == after
    ensures forall j :: IsFirstOccurrence(after, RevisionStart, j) ==> ExtractVersion(line) == Trim(after[..j])
    ensures (forall k :: !OccursAt(after, RevisionStart, k)) ==> ExtractVersion(line) == Trim(after)
  {
  }

  /** Empty output gives the empty version. */
  lemma EmptyOutput()
    ensures TransformVersion("") == ""
  {
    assert FirstLine("") == "";
    assert forall k :: !OccursAt("", Marker, k);
    assert forall k :: !OccursAt("", RevisionStart, k);
  }

  // ---------------------------------------------------------------------------
  // A concrete version line
  // ---------------------------------------------------------------------------

  /** The version line `nomos -V` prints gives the four-part version. */
  lemma VersionLineExample(line: string)
    requires line == "nomos build version: 4.5.1.1 r(ff4fa7)"
    ensures TransformVersion(line) == "4.5.1.1"
  {
    ExampleLine(line);
    var after := line[20..];
    ExampleRest(after);
    VersionAfterMarker(line, 0);
    ExampleTrim(after[..9]);
  }

  lemma ExampleLine(line: string)
    requires line == "nomos build version: 4.5.1.1 r(ff4fa7)"
    ensures HasNoLineBreak(line)
    ensures IsFirstOccurrence(line, Marker, 0)
    ensures line[|Marker|..] == " 4.5.1.1 r(ff4fa7)"
  {
    assert line[0..20] == Marker;
  }

  lemma ExampleRest(after: string)
    requires after == " 4.5.1.1 r(ff4fa7)"
    ensures IsFirstOccurrence(after, RevisionStart, 9)
    ensures after[..9] == " 4.5.1.1 "
  {
    assert after[9..11] == RevisionStart;
    forall k | 0 <= k < 9 ensures !OccursAt(after, RevisionStart, k) {
      assert after[k..k + 2][0] == after[k] != 'r';
    }
  }

  lemma ExampleTrim(v: string)
    requires v == " 4.5.1.1 "
    ensures Trim(v) == "4.5.1.1"
  {
    assert !IsWhitespace(v[1]) && LeadingWhitespace(v[1..]) == 0;
    assert LeadingWhitespace(v) == 1;
    var t := v[1..];
    assert t == "4.5.1.1 ";
    assert !IsWhitespace(t[6]) && TrailingWhitespaceStart(t[..7]) == 7;
    assert TrailingWhitespaceStart(t) == 7;
    assert v[1..8] == "4.5.1.1";
  }

  // ---------------------------------------------------------------------------
  // The version line after another line
  // ---------------------------------------------------------------------------

  /** As written, a line printed before the version line is taken for the
      version: the transform never yields null, so the search stops at the
      first line whatever it holds. */
  lemma LeadingLineTakenAsVersion(rest: string)
    requires rest == "nomos build version: 4.5.1.1 r(ff4fa7)"
    ensures TransformVersion("warning\n" + rest) == "warning"
  {
    var w := "warning";
    assert "warning\n" + rest == w + "\n" + rest;
    WarningLine(w);
    OnlyFirstLineCounts(w, '\n', rest);
  }

  lemma WarningLine(w: string)
    requires w == "warning"
    ensures HasNoLineBreak(w)
    ensures TransformVersion(w) == w
  {
    WarningHasNoRevision(w);
    assert forall k :: !OccursAt(w, Marker, k);
    VersionWithoutMarker(w);
    TrimTrimmed(w);
  }

  lemma WarningHasNoRevision(w: string)
    requires w == "warning"
    ensures HasNoLineBreak(w)
    ensures IsTrimmed(w)
    ensures forall k :: !OccursAt(w, RevisionStart, k)
  {
    forall k | 0 <= k < |w| - 1 ensures !OccursAt(w, RevisionStart, k) {
      assert w[k..k + 2][1] == w[k + 1] != '(';
    }
  }

  /** The line holds the marker. */
  predicate HasMarker(line: string) {
    IndexOf(line, Marker).Some?
  }

  /** The position of the first line that holds the marker. */
  function FirstMarkedLine(ls: seq<string>): (r: Option<nat>)
    ensures r.None? ==> forall k :: 0 <= k < |ls| ==> !HasMarker(ls[k])
    ensures r.Some? ==> r.value < |ls| && HasMarker(ls[r.value])
                        && forall j :: 0 <= j < r.value ==> !HasMarker(ls[j])
  {
    if |ls| == 0 then None
    else if HasMarker(ls[0]) then Some(0)
    else
      var r := FirstMarkedLine(ls[1..]);
      assert forall k :: 1 <= k < |ls| ==> ls[k] == ls[1..][k - 1];
      match r
      case Some(k) => Some(k + 1)
      case None => None
  }

  /** The version read from the first line holding the marker, or empty. */
  function VersionOfFirstMarkedLine(ls: seq<string>): (r: string)
    ensures (forall k :: 0 <= k < |ls| ==> !HasMarker(ls[k])) ==> r == ""
    ensures forall k :: 0 <= k < |ls| && HasMarker(ls[k]) && (forall j :: 0 <= j < k ==> !HasMarker(ls[j]))
                        ==> r == ExtractVersion(ls[k])
  {
    match FirstMarkedLine(ls)
    case Some(m) =>
      FirstMarkedLineUnique(ls, m);
      ExtractVersion(ls[m])
    case None => ""
  }

  /** Only one line can be the first that holds the marker. */
  lemma FirstMarkedLineUnique(ls: seq<string>, m: nat)
    requires m < |ls| && HasMarker(ls[m]) && forall j :: 0 <= j < m ==> !HasMarker(ls[j])
    ensures forall k :: 0 <= k < |ls| && HasMarker(ls[k]) && (forall j :: 0 <= j < k ==> !HasMarker(ls[j]))
                        ==> k == m
  {
  }

  /** The version as evidently intended: read from the first line that holds the
      marker; empty when no line does. When the first line holds the marker it
      agrees with the transform as written. */
  function TransformVersionIntended(output: string): (r: string)
    ensures IsTrimmed(r)
    ensures HasMarker(FirstLine(output)) ==> r == TransformVersion(output)
  {
    VersionOfFirstMarkedLine(Lines(output))
  }

  /** Lines without the marker before the version line are skipped. */
  lemma IntendedSkipsUnmarkedLine(line: string, rest: string)
    requires HasNoLineBreak(line) && !HasMarker(line)
    ensures TransformVersionIntended(line + "\n" + rest) == TransformVersionIntended(rest)
  {
    var s := line + "\n" + rest;
    assert s == line + ("\n" + rest);
    LineEndAfterLine(line, "\n" + rest);
    assert s[|line|] == '\n';
    assert s[|line| + 1..] == rest;
    var ls := Lines(s);
    assert ls == [line] + Lines(rest);
    assert ls[1..] == Lines(rest);
  }

  /** The intended transform reads the version line behind the leading line. */
  lemma IntendedFindsVersionLine(rest: string)
    requires rest == "nomos build version: 4.5.1.1 r(ff4fa7)"
    ensures TransformVersionIntended("warning\n" + rest) == "4.5.1.1"
  {
    var w := "warning";
    assert "warning\n" + rest == w + "\n" + rest;
    assert HasNoLineBreak(w);
    assert !HasMarker(w);
    IntendedSkipsUnmarkedLine(w, rest);
    ExampleLine(rest);
    VersionLineExample(rest);
    assert HasMarker(FirstLine(rest)) by {
      LineEndAfterLine(rest, "");
      assert rest + "" == rest;
    }
  }
}
