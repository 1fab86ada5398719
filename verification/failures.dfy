/** The conditions that abort a run of the analyzer. */
module Failures {

  datatype Failure =
    | NoLogFound                               // no directory entry names a dated log
    | NoLines                                  // the log is empty: the success ratio divides by zero
    | MissingThreshold                         // no success threshold configured: `float(None)` raises
    | BelowThreshold(handled: nat, total: nat) // too few lines parsed
    | LineRaised(index: nat)                   // a malformed line's exception escapes the stream
    | ZeroTotalTime                            // every request took 0 s: time percentages divide by zero
}
