/**
  SHA-256 on byte strings as FIPS 180-4 defines it: the padding of section 5.1.1, the initial value of
  section 5.3.3 and the computation of section 6.2.2.
 */
module Sha256Spec {
  import opened Bytes
  import opened Sha256Words
  import opened Unfolding

  /** The big-endian word in four bytes. */
  function Word(p: bytes): word
    requires |p| == 4
  {
    (p[3] as word) | ((p[2] as word) << 8) | ((p[1] as word) << 16) | ((p[0] as word) << 24)
  }

  /** The words of a byte string whose length is a multiple of four. */
  function Words(p: bytes): (w: seq<word>)
    requires |p| % 4 == 0
    ensures |w| == |p| / 4
  {
    seq(|p| / 4, i requires 0 <= i < |p| / 4 => Word(p[4 * i..4 * i + 4]))
  }

  function WordBytes(x: word): (r: bytes)
    ensures |r| == 4
  {
    [((x >> 24) & 0xff) as int, ((x >> 16) & 0xff) as int, ((x >> 8) & 0xff) as int, (x & 0xff) as int]
  }

  function Unwords(w: seq<word>): (r: bytes)
    ensures |r| == 4 * |w|
  {
    if w == [] then [] else Unwords(w[..|w| - 1]) + WordBytes(w[|w| - 1])
  }

  type State = s: seq<word> | |s| == 8 witness InitialState
  type MBlock = b: bytes | |b| == 64 witness seq(64, _ => 0)
  /** A compression function: what it does to the hash value with one block of 64 bytes. */
  type Compression = (State, MBlock) -> State

  /** The compression function of the standard. */
  function Compress(state: State, block: MBlock): State {
    CompressWords(Fips, state, Words(block))
  }

  type Mac = d: bytes | |d| == 32 witness seq(32, _ => 0)

  /** Holds of everything: what is guarded by it is unfolded only where it is mentioned. */
  ghost predicate Unfolded(m: bytes) {
    true
  }

  /** The function that `hash` stands for, with the compression function of the standard. */
  ghost predicate Computes(hash: bytes -> Mac, f: Compression) {
    Standard(f) && forall m :: Unfolded(m) ==> hash(m) == Digest(f, m)
  }

  ghost predicate Standard(f: Compression) {
    forall x :: x == STANDARD && About(x) ==> f == Compress
  }

  /** The hash value after the first `n` blocks of `m`, with any compression function. */
  function HashBlocks(f: Compression, m: bytes, n: nat): State
    requires 64 * n <= |m|
  {
    if n == 0 then InitialState else f(HashBlocks(f, m, n - 1), m[64 * n - 64..64 * n])
  }

  /** How many blocks a message of `len` bytes has when it is padded by at least 9 bytes. */
  function PaddedBlocks(len: nat): nat {
    (len + 8) / 64 + 1
  }

  /** The padding: a one bit, as few zeros as complete a block, and the length in bits. */
  function Padding(len: nat): (p: bytes)
    ensures len + |p| == 64 * PaddedBlocks(len)
  {
    [0x80] + Zeros(64 * PaddedBlocks(len) - len - 9) + BeEnc(8 * len, 8)
  }

  /** The message digest, with any compression function. */
  function Digest(f: Compression, m: bytes): Mac
  {
    Unwords(HashBlocks(f, m + Padding(|m|), PaddedBlocks(|m|)))
  }

  /** The SHA-256 message digest. */
  function Sha256(m: bytes): Mac
  {
    Digest(Compress, m)
  }

  lemma StandardDigest(f: Compression, m: bytes)
    requires Standard(f)
    ensures Digest(f, m) == Sha256(m)
  {
    assert About(STANDARD);
  }

  /** What a hash that is computed so is, is SHA-256. */
  lemma ComputesSha256(hash: bytes -> Mac, f: Compression, m: bytes)
    requires Computes(hash, f)
    ensures hash(m) == Sha256(m)
  {
    assert Unfolded(m);
    StandardDigest(f, m);
  }
}
