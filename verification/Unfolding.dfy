/**
  Definitions that are long, and that most proofs pass on without looking inside, are guarded by a topic:
  the verifier unfolds them only where that topic is mentioned.  Topics are numbers, one for each definition
  or group of definitions that are unfolded together.  A definition that is not to be unfolded in order to
  refute it either is a chosen value, which agrees with what it stands for wherever the topic is mentioned.
 */
module Unfolding {
  const KEY_STREAMS: nat := 0
  const BYTEWISE: nat := 1
  const COUNTING: nat := 2
  const BYTE_COUNT: nat := 3
  const RESETTING: nat := 4
  const PATHS: nat := 5
  const SOFT_PATH: nat := 6
  const AESNI_PATH: nat := 7
  const WHOLE_BLOCKS: nat := 8
  const LINKS: nat := 9
  const KEY_MATERIAL: nat := 10
  const CRYPTO: nat := 11
  const LOOPS: nat := 12
  const NUMBERS: nat := 13
  const BUFFERS: nat := 14
  const RESULTS: nat := 15
  const MISPLACING: nat := 16
  const VIEWED: nat := 17
  const LANES: nat := 18
  const QUEUED: nat := 19
  const STANDARD: nat := 20

  /** Holds of every topic. */
  ghost predicate About(topic: nat) {
    true
  }
}
