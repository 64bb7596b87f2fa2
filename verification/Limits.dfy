/** The ranges of the server's integer types, and the lease both queues use. */
module Limits {
  const I32_MAX := 0x7fff_ffff
  const I64_MAX := 0x7fff_ffff_ffff_ffff
  const U32_MAX := 0xffff_ffff
  const U64_MAX := 0xffff_ffff_ffff_ffff

  /** Milliseconds. */
  const LEASE_MS := 300_000
}
