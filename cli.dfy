/**
 * The command line's exit codes. Argument parsing, file reading and printing
 * are not modelled; only the mapping from a verdict to the process status is.
 */
module Cli {
  import opened Wrappers
  import opened RightsEngine
  import QuoteSafety

  /** `rights-check`: 0 for SAFE, 1 for NOT_SAFE, 2 otherwise. */
  function RightsExitCode(status: RightsStatus): (code: int)
    ensures code == 0 <==> status == SAFE
    ensures code == 1 <==> status == NOT_SAFE
    ensures code == 2 <==> status == UNKNOWN
  {
    match status
    case SAFE => 0
    case NOT_SAFE => 1
    case UNKNOWN => 2
  }

  /** `quote-check`: 0 when the excerpt is safe, 1 otherwise. */
  function QuoteExitCode(result: QuoteSafety.CheckResult): (code: int)
    ensures code == 0 <==> result.isSafe
    ensures code == 1 <==> !result.isSafe
  {
    if result.isSafe then 0 else 1
  }

  /** `rights-check` without any year exits with 2 whatever the jurisdiction and renewal status. */
  lemma NoYearsExitsUnknown(jurisdiction: string, renewalStatus: string)
    ensures RightsExitCode(CheckLyricsRights(jurisdiction, None, None, renewalStatus).status) == 2
  {
    NoMetadataIsUnknown(jurisdiction, renewalStatus);
  }
}
