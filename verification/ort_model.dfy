/** The parts of the host framework's result model that the scanner adapters
    build: text locations, license findings, scan summaries and scanner
    details. Only the fields the adapters set are modelled. */
module OrtModel {

  /** A point in time; the adapters only pass instants through. */
  datatype Instant = Instant(epochSecond: int, nano: nat)

  datatype TextLocation = TextLocation(path: string, startLine: int, endLine: int)

  /** A license found at a location. The license is kept as the string the
      finding order reads through `toString()`. */
  datatype LicenseFinding = LicenseFinding(license: string, location: TextLocation)

  datatype CopyrightFinding = CopyrightFinding(statement: string, location: TextLocation)

  datatype Issue = Issue(source: string, message: string)

  datatype ScanSummary = ScanSummary(
    startTime: Instant,
    endTime: Instant,
    licenseFindings: seq<LicenseFinding>,
    copyrightFindings: seq<CopyrightFinding>,
    issues: seq<Issue>
  )

  datatype ScannerDetails = ScannerDetails(name: string, version: string, configuration: string)
}
