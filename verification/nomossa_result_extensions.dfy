/** `NomossaResult.toScanSummary`: turns the parsed Nomossa output into a scan
    summary. Each raw license string of each file becomes one finding at line
    1..1; strings that are not safe license identifiers are turned into
    `LicenseRef-Nomossa-...` references; the findings are collected into a set
    ordered by (license, path, start line). */
module NomossaResultExtensions {
  import opened OrtModel
  import opened NomossaResultParser
  import opened FindingSet

  const LicenseRefPrefix: string := "LicenseRef-Nomossa-"

  // ---------------------------------------------------------------------------
  // Sanitisation of raw license strings
  // ---------------------------------------------------------------------------

  /** The character class `[A-Za-z0-9.+-]`. */
  predicate IsSafeChar(c: char) {
    ('A' <= c <= 'Z') || ('a' <= c <= 'z') || ('0' <= c <= '9') || c == '.' || c == '+' || c == '-'
  }

  /** The whole-string match `^[A-Za-z0-9.\-+]+$`: non-empty, safe characters only. */
  predicate IsSafeIdentifier(t: string) {
    |t| > 0 && forall k :: 0 <= k < |t| ==> IsSafeChar(t[k])
  }

  /** The replacement applied to each character: kept when safe, else `-`. */
  function SafeOrDash(c: char): char {
    if IsSafeChar(c) then c else '-'
  }

  /** `replace(Regex("[^A-Za-z0-9.+-]"), "-")`: every character outside the safe
      class becomes `-`, every other one is kept. */
  function ReplaceUnsafe(t: string): string {
    seq(|t|, k requires 0 <= k < |t| => SafeOrDash(t[k]))
  }

  /** The license string a raw token is reported under: the token itself when it
      is a safe identifier, otherwise the `LicenseRef-Nomossa-` reference built
      from it with each unsafe character replaced by `-`. */
  function Sanitize(token: string): (r: string)
    ensures IsSafeIdentifier(r)
    ensures IsSafeIdentifier(token) ==> r == token
    ensures !IsSafeIdentifier(token) ==>
              && |r| == |LicenseRefPrefix| + |token|
              && r[..|LicenseRefPrefix|] == LicenseRefPrefix
              && forall k :: 0 <= k < |token| ==>
                   r[|LicenseRefPrefix| + k] == (if IsSafeChar(token[k]) then token[k] else '-')
  {
    if IsSafeIdentifier(token) then token
    else
      var r := LicenseRefPrefix + ReplaceUnsafe(token);
      ReferenceIsSafe(token, r);
      r
  }

  /** The reference built from any token is a safe identifier. */
  lemma ReferenceIsSafe(token: string, r: string)
    requires r == LicenseRefPrefix + ReplaceUnsafe(token)
    ensures IsSafeIdentifier(r)
    ensures r[..|LicenseRefPrefix|] == LicenseRefPrefix
    ensures forall k :: 0 <= k < |token| ==> r[|LicenseRefPrefix| + k] == SafeOrDash(token[k])
  {
    PrefixIsSafe();
    forall k | 0 <= k < |r| ensures IsSafeChar(r[k]) {
      if k >= |LicenseRefPrefix| {
        assert r[k] == ReplaceUnsafe(token)[k - |LicenseRefPrefix|];
      }
    }
  }

  lemma PrefixIsSafe()
    ensures forall k :: 0 <= k < |LicenseRefPrefix| ==> IsSafeChar(LicenseRefPrefix[k])
  {
  }

  /** Sanitising is idempotent: a reported license is reported unchanged again. */
  lemma SanitizeIdempotent(token: string)
    ensures Sanitize(Sanitize(token)) == Sanitize(token)
  {
  }

  /** The empty string is not a safe identifier; it becomes the bare prefix. */
  lemma SanitizeEmpty()
    ensures Sanitize("") == LicenseRefPrefix
  {
  }

  /** A token is kept verbatim exactly when it is a safe identifier. */
  lemma SanitizeKeepsExactlySafeTokens(token: string)
    ensures Sanitize(token) == token <==> IsSafeIdentifier(token)
  {
  }

  // ---------------------------------------------------------------------------
  // Findings
  // ---------------------------------------------------------------------------

  /** The finding built for one raw license string of one file. */
  function MakeFinding(file: string, token: string): (f: LicenseFinding)
    ensures IsSafeIdentifier(f.license)
    ensures f.location.path == file
    ensures f.location.startLine == 1 && f.location.endLine == 1
  {
    LicenseFinding(Sanitize(token), TextLocation(file, 1, 1))
  }

  /** `f` is the finding of some license string of some entry of `results`. */
  ghost predicate Reported(results: seq<NomossaFileResult>, f: LicenseFinding) {
    exists i, k :: 0 <= i < |results| && 0 <= k < |results[i].licenses|
                   && f == MakeFinding(results[i].file, results[i].licenses[k])
  }

  /** `fileResult.licenses.map { ... }`: one finding per license string. */
  function EntryFindings(e: NomossaFileResult): (r: seq<LicenseFinding>)
    ensures |r| == |e.licenses|
    ensures forall k :: 0 <= k < |r| ==> r[k] == MakeFinding(e.file, e.licenses[k])
  {
    seq(|e.licenses|, k requires 0 <= k < |e.licenses| => MakeFinding(e.file, e.licenses[k]))
  }

  /** Number of raw license strings over all entries. */
  function TokenCount(results: seq<NomossaFileResult>): nat {
    if |results| == 0 then 0 else |results[0].licenses| + TokenCount(results[1..])
  }

  /** `results.flatMap { ... }`: the findings of all entries, in input order.
      The findings are exactly those reported for some license string. */
  function AllFindings(results: seq<NomossaFileResult>): (r: seq<LicenseFinding>)
    ensures |r| == TokenCount(results)
    ensures forall f :: f in r <==> Reported(results, f)
  {
    if |results| == 0 then []
    else
      var head := EntryFindings(results[0]);
      var tail := AllFindings(results[1..]);
      AllFindingsStep(results, head, tail);
      head + tail
  }

  lemma AllFindingsStep(results: seq<NomossaFileResult>, head: seq<LicenseFinding>,
                        tail: seq<LicenseFinding>)
    requires |results| > 0
    requires head == EntryFindings(results[0])
    requires forall f :: f in tail <==> Reported(results[1..], f)
    ensures forall f :: f in head + tail <==> Reported(results, f)
  {
    forall f | f in head + tail ensures Reported(results, f) {
      if f in head {
        var k :| 0 <= k < |head| && head[k] == f;
        assert 0 <= 0 < |results| && 0 <= k < |results[0].licenses|;
      } else {
        var i, k :| 0 <= i < |results[1..]| && 0 <= k < |results[1..][i].licenses|
                    && f == MakeFinding(results[1..][i].file, results[1..][i].licenses[k]);
        assert results[1..][i] == results[i + 1];
      }
    }
    forall f | Reported(results, f) ensures f in head + tail {
      var i, k :| 0 <= i < |results| && 0 <= k < |results[i].licenses|
                  && f == MakeFinding(results[i].file, results[i].licenses[k]);
      if i == 0 {
        assert head[k] == f;
      } else {
        assert results[1..][i - 1] == results[i];
        assert Reported(results[1..], f);
      }
    }
  }

  /** Two findings built here with the same key are the same finding. */
  lemma KeyDeterminesFinding(f: LicenseFinding, g: LicenseFinding)
    requires f.location.endLine == 1 && g.location.endLine == 1
    requires KeyOf(f) == KeyOf(g)
    ensures f == g
  {
  }

  /** `NomossaResult.toScanSummary(startTime, endTime)`. */
  function ToScanSummary(result: NomossaResult, startTime: Instant, endTime: Instant): (r: ScanSummary)
    ensures r.startTime == startTime && r.endTime == endTime
    ensures r.issues == [] && r.copyrightFindings == []
    ensures StrictlySorted(r.licenseFindings)
    ensures forall f :: f in r.licenseFindings <==> Reported(result.results, f)
    ensures forall f :: f in r.licenseFindings ==>
              && IsSafeIdentifier(f.license)
              && f.location.startLine == 1 && f.location.endLine == 1
    ensures |r.licenseFindings| <= TokenCount(result.results)
  {
    var all := AllFindings(result.results);
    var findings := ToSortedSet(all);
    forall f | f in all ensures f in findings {
      assert KeyOf(f) in Keys(findings);
      var g :| g in findings && KeyOf(g) == KeyOf(f);
      KeyDeterminesFinding(f, g);
    }
    ScanSummary(startTime, endTime, findings, [], [])
  }

  /** Every line is 1, so the summary never lists one license twice for the same
      file: repeated (license, path) pairs have collapsed into one finding. */
  lemma SummaryPairsDistinct(result: NomossaResult, startTime: Instant, endTime: Instant)
    ensures var fs := ToScanSummary(result, startTime, endTime).licenseFindings;
            forall i, j :: 0 <= i < j < |fs| ==>
              (fs[i].license, fs[i].location.path) != (fs[j].license, fs[j].location.path)
  {
    var fs := ToScanSummary(result, startTime, endTime).licenseFindings;
    SortedKeysDistinct(fs);
    assert forall i :: 0 <= i < |fs| ==> fs[i] in fs;
  }

  /** The summary's findings are the unique strictly sorted sequence holding
      exactly the reported findings. */
  lemma SummaryDeterminedByFindings(result: NomossaResult, startTime: Instant, endTime: Instant,
                                    expected: seq<LicenseFinding>)
    requires StrictlySorted(expected)
    requires forall f :: f in expected <==> Reported(result.results, f)
    ensures ToScanSummary(result, startTime, endTime).licenseFindings == expected
  {
    StrictlySortedUnique(ToScanSummary(result, startTime, endTime).licenseFindings, expected);
  }

  /** One file with the safe token `MIT`: one finding, unchanged, at line 1..1. */
  lemma SingleSafeLicense(startTime: Instant, endTime: Instant)
    ensures ToScanSummary(NomossaResult([NomossaFileResult("a.c", ["MIT"])]), startTime, endTime).licenseFindings
            == [LicenseFinding("MIT", TextLocation("a.c", 1, 1))]
  {
    var results := [NomossaFileResult("a.c", ["MIT"])];
    var expected := [LicenseFinding("MIT", TextLocation("a.c", 1, 1))];
    assert IsSafeIdentifier("MIT");
    assert expected[0] == MakeFinding(results[0].file, results[0].licenses[0]);
    SummaryDeterminedByFindings(NomossaResult(results), startTime, endTime, expected);
  }

  /** A token with spaces becomes a reference with each space replaced by `-`. */
  lemma SpacesBecomeDashes()
    ensures Sanitize("GPL 2.0 or later") == "LicenseRef-Nomossa-GPL-2.0-or-later"
  {
    assert !IsSafeChar("GPL 2.0 or later"[3]);
    assert ReplaceUnsafe("GPL 2.0 or later") == "GPL-2.0-or-later";
  }

  /** The same license twice for one file collapses to a single finding. */
  lemma RepeatedLicenseCollapses(startTime: Instant, endTime: Instant)
    ensures ToScanSummary(NomossaResult([NomossaFileResult("c.c", ["MIT", "MIT"])]), startTime, endTime).licenseFindings
            == [LicenseFinding("MIT", TextLocation("c.c", 1, 1))]
  {
    var results := [NomossaFileResult("c.c", ["MIT", "MIT"])];
    var expected := [LicenseFinding("MIT", TextLocation("c.c", 1, 1))];
    assert IsSafeIdentifier("MIT");
    assert expected[0] == MakeFinding(results[0].file, results[0].licenses[0]);
    assert expected[0] == MakeFinding(results[0].file, results[0].licenses[1]);
    SummaryDeterminedByFindings(NomossaResult(results), startTime, endTime, expected);
  }

  /** An entry without license strings adds nothing to the summary. */
  lemma EmptyEntryContributesNothing(result: NomossaResult, file: string, startTime: Instant, endTime: Instant)
    ensures ToScanSummary(NomossaResult(result.results + [NomossaFileResult(file, [])]), startTime, endTime)
            == ToScanSummary(result, startTime, endTime)
  {
    var extended := result.results + [NomossaFileResult(file, [])];
    forall f ensures Reported(extended, f) <==> Reported(result.results, f) {
      if Reported(extended, f) {
        var i, k :| 0 <= i < |extended| && 0 <= k < |extended[i].licenses|
                    && f == MakeFinding(extended[i].file, extended[i].licenses[k]);
        assert i < |result.results| && extended[i] == result.results[i];
      }
      if Reported(result.results, f) {
        var i, k :| 0 <= i < |result.results| && 0 <= k < |result.results[i].licenses|
                    && f == MakeFinding(result.results[i].file, result.results[i].licenses[k]);
        assert extended[i] == result.results[i];
      }
    }
    SummaryDeterminedByFindings(NomossaResult(extended), startTime, endTime,
                                ToScanSummary(result, startTime, endTime).licenseFindings);
  }
}
