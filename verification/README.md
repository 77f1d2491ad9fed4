# Nomos / Nomossa scanner adapters, modelled in Dafny

This project models the pure logic of the ORT plugin that wraps FOSSology's
`nomos` and `nomossa` license scanners. It covers five things.

- **`NomossaResult.toScanSummary`** (`NomossaResultExtensions`, `FindingSet`,
  `Lexicographic`). Every raw license string of every file entry becomes one
  license finding at lines 1..1. A string that is not a safe identifier
  (`^[A-Za-z0-9.\-+]+$`) becomes `LicenseRef-Nomossa-` followed by the string
  with each other character replaced by `-`. The findings go into a sorted set
  ordered by (license, path, start line), compared as Kotlin's `compareBy` and
  `String.compareTo` do. Findings with equal keys collapse into one. The set is
  modelled as a strictly increasing sequence. Each `TreeSet.add` is an insertion
  that leaves the set unchanged when an equal key is already present.
- **`NomossaCommand`**. `command(workingDir)` builds the executable path. The
  version is group 1 of the first match of `(\d+\.\d+\.\d+)(?:\.\d+)?`. The
  regex search is written as a scan. It is proved equal to a declarative
  description: the leftmost `digits.digits.digits` infix, taken up to the end of
  its last digit run.
- **`Nomossa`**. `getCommandLineOptions` is a `LinkedHashSet`: the configured
  options without repeats, followed by `-J`, `-l`, `-n` and the CPU count, each
  added only if absent. `configuration` is the configured options joined by
  spaces, and `parseDetails` reports that same string.
- **`NomosCommand`**. `command(workingDir)` builds the path for `nomos`. The
  version is `lineSequence().firstNotNullOfOrNull { it.substringAfter("nomos build version:").substringBefore("r(").trim() }.orEmpty()`.
  The lambda never returns null, so only the first line is ever read.
- **Supporting Kotlin library semantics** (`KotlinStrings`, `KotlinCollections`,
  `CommandLineTool`). These cover `indexOf`, `substringAfter`/`substringBefore`,
  `trim` with Kotlin's whitespace set, `lineSequence`, `joinToString`/`split`,
  `Int.toString`, `LinkedHashSet`, `listOfNotNull` and `firstNotNullOfOrNull`.

Strings are sequences of Unicode scalar values. Timestamps (`Instant`) are
passed through unchanged. The file separator is a parameter of `command`.

## Model

| member | source | states |
|---|---|---|
| NomossaResultExtensions.Sanitize | plugins/scanners/nomos/src/main/kotlin/NomossaResultExtensions.kt:21-25 | The result is always a non-empty safe identifier. A safe token is kept as is. Any other token becomes `LicenseRef-Nomossa-` plus a string of the token's length, which keeps each safe character and puts `-` in place of each other character. |
| NomossaResultExtensions.SanitizeIdempotent | plugins/scanners/nomos/src/main/kotlin/NomossaResultExtensions.kt:21-25 | Sanitising a reported license again changes nothing. |
| NomossaResultExtensions.SanitizeEmpty | plugins/scanners/nomos/src/main/kotlin/NomossaResultExtensions.kt:21-25 | The empty token becomes exactly `LicenseRef-Nomossa-`. |
| NomossaResultExtensions.SanitizeKeepsExactlySafeTokens | plugins/scanners/nomos/src/main/kotlin/NomossaResultExtensions.kt:21-22 | A token is reported verbatim if and only if it matches `^[A-Za-z0-9.\-+]+$`. |
| NomossaResultExtensions.SpacesBecomeDashes | plugins/scanners/nomos/src/main/kotlin/NomossaResultExtensions.kt:24 | `GPL 2.0 or later` becomes `LicenseRef-Nomossa-GPL-2.0-or-later`. |
| NomossaResultExtensions.MakeFinding | plugins/scanners/nomos/src/main/kotlin/NomossaResultExtensions.kt:27-34 | A finding carries a safe license, the entry's file as path, and lines 1..1. |
| NomossaResultExtensions.AllFindings | plugins/scanners/nomos/src/main/kotlin/NomossaResultExtensions.kt:18-35 | The flattened list has one finding per raw string over all entries. A finding is in it exactly when some entry reports it. |
| NomossaResultExtensions.ToScanSummary | plugins/scanners/nomos/src/main/kotlin/NomossaResultExtensions.kt:17-51 | Start and end times pass through. Issues and copyright findings are empty. The findings are strictly sorted by (license, path, line). A finding is present exactly when some entry's string sanitises to its license for its path. Every finding has a safe license and lines 1..1. There are at most as many findings as raw strings. |
| NomossaResultExtensions.SummaryPairsDistinct | plugins/scanners/nomos/src/main/kotlin/NomossaResultExtensions.kt:29-42 | No (license, path) pair occurs twice in a summary. |
| NomossaResultExtensions.SummaryDeterminedByFindings | plugins/scanners/nomos/src/main/kotlin/NomossaResultExtensions.kt:36-42 | Any strictly sorted list holding exactly the reported findings is the summary's list. |
| NomossaResultExtensions.SingleSafeLicense | plugins/scanners/nomos/src/main/kotlin/NomossaResultExtensions.kt:17-50 | File `a.c` with `MIT` gives exactly one finding, `MIT` at `a.c` lines 1..1. |
| NomossaResultExtensions.RepeatedLicenseCollapses | plugins/scanners/nomos/src/main/kotlin/NomossaResultExtensions.kt:36-42 | `["MIT", "MIT"]` for one file gives a single finding. |
| NomossaResultExtensions.EmptyEntryContributesNothing | plugins/scanners/nomos/src/main/kotlin/NomossaResultExtensions.kt:18-19 | Appending an entry with no license strings leaves the summary unchanged. |
| FindingSet.CompareFindingsZero | plugins/scanners/nomos/src/main/kotlin/NomossaResultExtensions.kt:37-41 | The comparator returns 0 exactly when license, path and start line all agree. |
| FindingSet.CompareFindingsAntisymmetric | plugins/scanners/nomos/src/main/kotlin/NomossaResultExtensions.kt:37-41 | Swapping the arguments swaps "less" and "greater". |
| FindingSet.BeforeTransitive | plugins/scanners/nomos/src/main/kotlin/NomossaResultExtensions.kt:37-41 | The comparator's "less than" is transitive. |
| FindingSet.Insert | plugins/scanners/nomos/src/main/kotlin/NomossaResultExtensions.kt:36-42 | Insertion keeps the set strictly sorted and adds the finding's key. It changes nothing when that key is present; otherwise it adds the finding and grows the set by one. |
| FindingSet.ToSortedSet | plugins/scanners/nomos/src/main/kotlin/NomossaResultExtensions.kt:36-42 | The result is strictly sorted, has the same keys as the input, takes its elements from the input, and is no longer than it. |
| FindingSet.SortedKeysDistinct | plugins/scanners/nomos/src/main/kotlin/NomossaResultExtensions.kt:36-42 | No two findings of a sorted set share a key. |
| FindingSet.SortedPositionsAgree | plugins/scanners/nomos/src/main/kotlin/NomossaResultExtensions.kt:36-42 | In a sorted set, an earlier position holds exactly the smaller finding. |
| FindingSet.StrictlySortedUnique | plugins/scanners/nomos/src/main/kotlin/NomossaResultExtensions.kt:36-42 | Two sorted sets with the same members are equal. |
| Lexicographic.CompareToZero | plugins/scanners/nomos/src/main/kotlin/NomossaResultExtensions.kt:38-39 | `compareTo` returns 0 exactly on equal strings. |
| Lexicographic.CompareToAntisymmetric | plugins/scanners/nomos/src/main/kotlin/NomossaResultExtensions.kt:38-39 | Swapping the strings negates the result. |
| Lexicographic.CompareToTransitive | plugins/scanners/nomos/src/main/kotlin/NomossaResultExtensions.kt:38-39 | The string order is transitive. |
| Lexicographic.CompareToIsLexLess | plugins/scanners/nomos/src/main/kotlin/NomossaResultExtensions.kt:38-39 | `compareTo` is negative exactly when the first string is a proper prefix of the second, or is smaller at the first position where they differ. |
| CommandLineTool.Command | plugins/scanners/nomos/src/main/kotlin/Nomossa.kt:41-42 | Without a working directory the command is the executable name; with one it is the directory, the separator, then the name. |
| NomossaCommand.Command | plugins/scanners/nomos/src/main/kotlin/Nomossa.kt:41-42 | `command(null)` is `nomossa`; with a directory it is directory + separator + `nomossa`. |
| NomossaCommand.TransformVersion | plugins/scanners/nomos/src/main/kotlin/Nomossa.kt:45-49 | The result is empty if and only if no infix of the output is `digits.digits.digits`. Otherwise it is the leftmost such infix, ending where its last digit run ends. |
| NomossaCommand.LeftmostVersionUnique | plugins/scanners/nomos/src/main/kotlin/Nomossa.kt:47-48 | The leftmost version of an output is unique in position and text, so the result is determined. |
| NomossaCommand.TripleAtRunEnd | plugins/scanners/nomos/src/main/kotlin/Nomossa.kt:47 | A version triple ending at the end of a digit run is exactly where the greedy `\d+` match ends. |
| NomossaCommand.TransformVersionExample | plugins/scanners/nomos/src/main/kotlin/Nomossa.kt:46-48 | `nomossasa build version: 4.5.1.1 r(ff4fa7)` gives `4.5.1`. |
| Nomossa.GetCommandLineOptions | plugins/scanners/nomos/src/main/kotlin/Nomossa.kt:78-85 | The list is the `LinkedHashSet` of the configured options followed by the four fixed ones. It starts with the de-duplicated configured options and has no duplicates. It holds exactly the configured and fixed options, each fixed option exactly once. Its length is at most the number of distinct configured options plus 4. |
| Nomossa.LinkedSetWithFixed | plugins/scanners/nomos/src/main/kotlin/Nomossa.kt:79-84 | Adding options to the set of the configured ones keeps that set as a prefix. The result holds exactly both groups, each added option exactly once, within the length bound. |
| Nomossa.RepeatedValueDropped | plugins/scanners/nomos/src/main/kotlin/Nomossa.kt:78-85 | A value given twice is kept only where it first occurs. `-x 1 -y 1` with 4 CPUs gives `-x 1 -y -J -l -n 4`, so `-y` is followed by `-J`. |
| Nomossa.ConfiguredCountFlag | plugins/scanners/nomos/src/main/kotlin/Nomossa.kt:78-85 | A configured `-n 8` keeps its place and the fixed `-n` is skipped. The CPU count then follows `-l` with no flag of its own: `-n 8 -J -l 4`. |
| Nomossa.NoAdditionalOptions | plugins/scanners/nomos/src/main/kotlin/Nomossa.kt:78-85 | With no configured options the list is exactly `-J`, `-l`, `-n`, the CPU count. |
| Nomossa.CountIsNotAFlag | plugins/scanners/nomos/src/main/kotlin/Nomossa.kt:83 | The decimal text of the CPU count is never `-J`, `-l` or `-n`, so it is always appended. |
| Nomossa.Configuration | plugins/scanners/nomos/src/main/kotlin/Nomossa.kt:88-91 | With no options the configuration string is empty. When there is at least one option and none contains a space, the string splits back at spaces into exactly the options. |
| Nomossa.ConfigurationAppend | plugins/scanners/nomos/src/main/kotlin/Nomossa.kt:88-91 | For any options, spaces included: a single option is the whole string, and one more option appends a space and that option. With the empty case this fixes the string for every list. |
| KotlinStrings.JoinSnoc | plugins/scanners/nomos/src/main/kotlin/Nomossa.kt:90 | `joinToString` of one piece is that piece. Joining one more piece appends the separator and the piece. |
| Nomossa.ParseDetails | plugins/scanners/nomos/src/main/kotlin/Nomossa.kt:122-127 | The details carry the plugin id, the version, and the same string as `configuration`. |
| KotlinCollections.Add | plugins/scanners/nomos/src/main/kotlin/Nomossa.kt:80-83 | `LinkedHashSet.add` keeps the set duplicate-free with the old elements as a prefix. It changes nothing when the element is present and appends it otherwise. |
| KotlinCollections.LinkedHashSetOrder | plugins/scanners/nomos/src/main/kotlin/Nomossa.kt:79 | The set lists elements in order of first occurrence. |
| KotlinCollections.AddAllAppend | plugins/scanners/nomos/src/main/kotlin/Nomossa.kt:79-84 | Adding `a + b` is adding `a`, then `b`. |
| KotlinStrings.SplitJoin | plugins/scanners/nomos/src/main/kotlin/Nomossa.kt:90 | Options without the separator are recovered by splitting their join. |
| KotlinStrings.JoinSplit | plugins/scanners/nomos/src/main/kotlin/Nomossa.kt:90 | Joining the split of any string gives the string back. |
| KotlinStrings.IntToStringRoundTrip | plugins/scanners/nomos/src/main/kotlin/Nomossa.kt:83 | Parsing `Int.toString` gives the number back. |
| NomosCommand.Command | plugins/scanners/nomos/src/main/kotlin/Nomos.kt:40-41 | `command(null)` is `nomos`; with a directory it is directory + separator + `nomos`. |
| NomosCommand.ExtractVersion | plugins/scanners/nomos/src/main/kotlin/Nomos.kt:49 | What one line yields is trimmed and is an infix of the line. |
| NomosCommand.TransformVersion | plugins/scanners/nomos/src/main/kotlin/Nomos.kt:47-50 | The result is what the first line yields, and it is trimmed. |
| NomosCommand.OnlyFirstLineCounts | plugins/scanners/nomos/src/main/kotlin/Nomos.kt:47-50 | Text after the first line break (`\n`, `\r` or `\r\n`) never changes the result. |
| NomosCommand.VersionAfterMarker | plugins/scanners/nomos/src/main/kotlin/Nomos.kt:49 | On a line with `nomos build version:`, the result is the trimmed text between the first marker and the first `r(` after it, or the end of the line. |
| NomosCommand.VersionWithoutMarker | plugins/scanners/nomos/src/main/kotlin/Nomos.kt:49 | On a line without the marker, the result is the trimmed text before the first `r(`, or the whole trimmed line. |
| NomosCommand.EmptyOutput | plugins/scanners/nomos/src/main/kotlin/Nomos.kt:48-50 | Empty output gives the empty version. |
| NomosCommand.VersionLineExample | plugins/scanners/nomos/src/main/kotlin/Nomos.kt:47-50 | `nomos build version: 4.5.1.1 r(ff4fa7)` gives `4.5.1.1`. |
| NomosCommand.LeadingLineTakenAsVersion | plugins/scanners/nomos/src/main/kotlin/Nomos.kt:47-50 | As written, `warning` on the line before the version line gives the version `warning`. |
| NomosCommand.VersionOfFirstMarkedLine | plugins/scanners/nomos/src/main/kotlin/Nomos.kt:47-50 | Empty when no line holds the marker. Otherwise it is what the first marked line yields. |
| NomosCommand.TransformVersionIntended | plugins/scanners/nomos/src/main/kotlin/Nomos.kt:47-50 | The corrected transform is trimmed. It agrees with the transform as written whenever the first line holds the marker. |
| NomosCommand.IntendedSkipsUnmarkedLine | plugins/scanners/nomos/src/main/kotlin/Nomos.kt:47-50 | The corrected transform skips a leading line that lacks the marker. |
| NomosCommand.IntendedFindsVersionLine | plugins/scanners/nomos/src/main/kotlin/Nomos.kt:47-50 | The corrected transform gives `4.5.1.1` for the output that the transform as written reads as `warning`. |

## Left out

- Process execution and files are left out because they are I/O. This covers `runScanner`, `runNomossa`, `ProcessCapture`, temporary directories, deletion, logging and the PATH check of the lazy `version`.
- `parseNomossaResult` is left out because it is JSON deserialisation. The model takes `NomossaResult` already parsed, as the data classes at `NomossaResultParser.kt:9-16`.
- `createSummary` only composes parsing with `toScanSummary`, and parsing is not modelled.
- The SPDX parsing of `LicenseFinding` is left out; that code is not part of this model. ORT parses the license string into an SPDX expression, which may reject or normalise it. Here the license is the plain string the comparator reads through `toString()`.
- The plugin glue is left out because it is framework code: annotations, factory, descriptor, `ScannerMatcher` and the `readFromStorage`/`writeToStorage` flags.
- `getVersionRequirement` is left out because its semantic-version range factory is external and unresolved in `Nomos.kt`.
- The unused `OUTPUT_FORMAT_OPTION` constant is not modelled.
- `NomossaCommand.getVersionArguments` is only the constant `-V` (`VersionArguments`). It has no contract.
- `Instant` is opaque; its values are only passed through.
- FindingSet.CompareFindings: compares strings by Unicode scalar value, not UTF-16 code unit. Java's `String.compareTo` orders by UTF-16 code units. The two orders differ only between supplementary characters and U+E000..U+FFFF, and lone surrogates cannot be represented.
- Nomossa.GetCommandLineOptions: `cpuCount` is an unbounded integer. The source's 32-bit `Int` is not enforced, and `toString` agrees on every value in that range.
- KotlinStrings.Lines: only the first line is characterised. That is all `transformVersion` reads, because its lambda never returns null.

## Findings

| source | as written | input that shows it | evidently intended | confidence | as-written member | corrected member |
|---|---|---|---|---|---|---|
| plugins/scanners/nomos/src/main/kotlin/Nomos.kt:47-50 | `firstNotNullOfOrNull` gets a lambda that returns a `String` and never null: `substringAfter` without a missing-delimiter value returns the whole line. The search therefore always stops at the first line. | output `warning\nnomos build version: 4.5.1.1 r(ff4fa7)` gives the version `warning` | read the version from the first line that holds `nomos build version:`, giving `4.5.1.1`; empty when no line holds it | medium, not executed | NomosCommand.LeadingLineTakenAsVersion | NomosCommand.TransformVersionIntended |
