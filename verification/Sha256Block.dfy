/**
  The two software implementations of the compression function, from the 64 bytes of a block to the
  new hash value (`libcperciva/alg/sha256.c` and `sha256_sse2.c`).
 */
module Sha256Block {
  import opened Bytes
  import opened Sha256Words
  import opened Sha256Spec
  import opened Sha256Rounds
  import opened Sha256Sse2

  /** `be32dec_vect` */
  method Be32DecVect(dst: array<word>, src: bytes)
    requires |src| % 4 == 0 && |src| / 4 <= dst.Length
    modifies dst
    ensures dst[..|src| / 4] == Words(src)
  {
    for i := 0 to |src| / 4
      invariant forall k :: 0 <= k < i ==> dst[k] == Word(src[4 * k..4 * k + 4])
    {
      dst[i] := Word(src[4 * i..4 * i + 4]);
    }
  }

  /** `SHA256_Transform` without hardware acceleration computes the compression function of the standard. */
  method TransformBlock(state: array<word>, block: bytes, W: array<word>, S: array<word>)
    requires state.Length == 8 && W.Length == 64 && S.Length == 8 && |block| == 64
    requires state != W && state != S && W != S
    modifies state, W, S
    ensures state[..] == Compress(old(state[..]), block)
  {
    Be32DecVect(W, block);
    MacrosAdditive();
    MacrosAgree();
    CompressAgrees(Macros, Fips, state[..], Words(block));
    Transform(Macros, state, W, S);
  }

  /** The little-endian word that a vector load makes of four bytes. */
  function LeWord(p: bytes): word
    requires |p| == 4
  {
    (p[0] as word) | ((p[1] as word) << 8) | ((p[2] as word) << 16) | ((p[3] as word) << 24)
  }

  /** `mm_bswap_epi32` in one lane: swap the bytes of both 16-bit halves, then the halves. */
  function Bswap(x: word): word {
    var y := ((x << 8) & 0xff00ff00) | ((x >> 8) & 0x00ff00ff);
    (y >> 16) | (y << 16)
  }

  lemma ByteIsSmall(b: byte)
    ensures (b as word) <= 0xff
  {
  }

  lemma BswapBytes(a: word, b: word, c: word, d: word)
    requires a <= 0xff && b <= 0xff && c <= 0xff && d <= 0xff
    ensures var x := a | (b << 8) | (c << 16) | (d << 24);
      var y := ((x << 8) & 0xff00ff00) | ((x >> 8) & 0x00ff00ff);
      (y >> 16) | (y << 16) == d | (c << 8) | (b << 16) | (a << 24)
  {
  }

  /** Loading little-endian and swapping the bytes is loading big-endian. */
  lemma BswapIsBigEndian(p: bytes)
    requires |p| == 4
    ensures Bswap(LeWord(p)) == Word(p)
  {
    ByteIsSmall(p[0]);
    ByteIsSmall(p[1]);
    ByteIsSmall(p[2]);
    ByteIsSmall(p[3]);
    BswapBytes(p[0] as word, p[1] as word, p[2] as word, p[3] as word);
  }

  /** The four loads at the start of `SHA256_Transform_sse2`, sixteen words in all. */
  method LoadSwapped(W: array<word>, block: bytes)
    requires |block| == 64 && W.Length == 64
    modifies W
    ensures W[..16] == Words(block)
  {
    for i := 0 to 16
      invariant forall k :: 0 <= k < i ==> W[k] == Word(block[4 * k..4 * k + 4])
    {
      BswapIsBigEndian(block[4 * i..4 * i + 4]);
      W[i] := Bswap(LeWord(block[4 * i..4 * i + 4]));
    }
  }

  /** `SHA256_Transform_sse2` computes the compression function of the standard. */
  method TransformBlockSse2(state: array<word>, block: bytes, W: array<word>, S: array<word>)
    requires state.Length == 8 && W.Length == 64 && S.Length == 8 && |block| == 64
    requires state != W && state != S && W != S
    modifies state, W, S
    ensures state[..] == Compress(old(state[..]), block)
  {
    LoadSwapped(W, block);
    MacrosAdditive();
    MacrosAgree();
    SourceHalves();
    CompressAgrees(Macros, Fips, state[..], Words(block));
    TransformSse2(Macros, S1Low, S1High, state, W, S);
  }
}
