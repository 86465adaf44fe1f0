/** Limits the Gravity contract sets. */
module ContractLimits {
  /** A valset or batch nonce more than this far ahead of the last one is refused. */
  const MAX_NONCE_STEP: nat := 1000000
}
