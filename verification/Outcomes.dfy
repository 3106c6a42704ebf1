// Logs of successes and failures, shared by the breaker's automaton and the Redis link.

module Outcomes {
  /** The length of the run of failures that ends the log. */
  ghost function TrailingFailures(outcomes: seq<bool>): nat
    decreases |outcomes|
  {
    if outcomes == [] || outcomes[|outcomes| - 1] then 0
    else 1 + TrailingFailures(outcomes[..|outcomes| - 1])
  }
}
