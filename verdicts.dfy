/** Values shared by the checks, the report table and the orchestrator. */
module Verdicts {

  /** A browser reading that may be absent (an API the browser does not offer, a null result). */
  datatype Option<T> = None | Some(value: T)

  /** What every check resolves to: `{ status, data }`. The status is any string; only "pass" is special. */
  datatype Verdict = Verdict(status: string, data: string)

  const PassStatus: string := "pass"
  const FlaggedStatus: string := "flagged"
}
