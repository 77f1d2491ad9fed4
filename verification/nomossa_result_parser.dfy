/** The already-parsed Nomossa JSON output: a list of files, each with the raw
    license strings the scanner reported for it. */
module NomossaResultParser {

  /** One entry of the `results` array. */
  datatype NomossaFileResult = NomossaFileResult(file: string, licenses: seq<string>)

  /** The whole `{ "results": [...] }` document. */
  datatype NomossaResult = NomossaResult(results: seq<NomossaFileResult>)
}
