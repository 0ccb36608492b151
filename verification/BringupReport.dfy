/** What the stages and the live stepper of components/asic/bzm_bringup.c report. */
module BringupReport {
  datatype Outcome = Good | Bad | Blocked

  datatype Reason =
    | NoReason | InvalidArgument | Prerequisite | CapabilityUnavailable | Io
    | ChainMissing | ChainIdMismatch | ChainExtraAsic | RegisterReadback
    | TelemetryMissing | TelemetryPreconfig | TelemetryStale | TelemetryUnsafe
    | PllUnlocked | TopologyWrong | BalancedPairUnavailable | BalancedPairCommit
    | ActivationBarrier | BalancedBatch

  /** Which ASIC (or all of them) and PLL, and how many items were done before. */
  datatype Report = Report(outcome: Outcome, reason: Reason, asic: nat, completed: nat, pll: nat := 0)

  /** The address of all ASICs at once. */
  const ALL := 0xff
}
