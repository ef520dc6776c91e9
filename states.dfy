/**
 * Download states as single-bit flags, and the capability masks.
 *
 * The concrete values of the states live in a module that is not part of
 * this model; any assignment of distinct single bits fits the code, and the
 * one below is used throughout. The capability masks are kept abstract: the
 * table holds a `Masks` value and every property is proved for all masks.
 */
module DownloadStates {
  /** A state as the bitwise operators of JavaScript see it. */
  type StateBits = bv32

  const QUEUED: StateBits := 1
  const RUNNING: StateBits := 2
  const FINISHING: StateBits := 4
  const PAUSED: StateBits := 8
  const DONE: StateBits := 16
  const CANCELED: StateBits := 32
  const MISSING: StateBits := 64

  /** The state has a bit in common with the mask: JavaScript's `state & mask` is truthy. */
  predicate Meets(state: StateBits, mask: StateBits) {
    state & mask != 0
  }

  /** RESUMABLE, PAUSABLE, CANCELABLE and FORCABLE: unions of states. */
  datatype Masks = Masks(resumable: StateBits, pausable: StateBits, cancelable: StateBits, forcable: StateBits)
}
