/**
  Hashing a message in pieces (`libcperciva/alg/sha256.c`).

  The source dispatches every block to one of several implementations of the compression function, of
  which two are modelled; the function that they all compute is called `f`.  A context is a structure
  that callers copy, so its fixed-size members are sequences.
 */
module Sha256 {
  import opened Bytes
  import opened Sha256Words
  import opened Sha256Spec
  import opened Sha256Block
  import opened Unfolding

  /** The longest message, in bytes, whose bit count fits into the counter. */
  const LIMIT: nat := 0x2000_0000_0000_0000

  lemma {:induction false} HashPrefix(f: Compression, m: bytes, all: bytes, n: nat)
    requires 64 * n <= |m| && m <= all
    ensures HashBlocks(f, all, n) == HashBlocks(f, m, n)
  {
    if n > 0 {
      HashPrefix(f, m, all, n - 1);
      assert all[64 * n - 64..64 * n] == m[64 * n - 64..64 * n];
    }
  }

  /** One more block: the rest of the message so far and what completes it. */
  lemma NextBlock(f: Compression, m: bytes, all: bytes, n: nat, block: MBlock)
    requires 64 * n <= |m| && m <= all && 64 * n + 64 <= |all| && block == all[64 * n..64 * n + 64]
    ensures HashBlocks(f, all, n + 1) == f(HashBlocks(f, m, n), block)
  {
    HashPrefix(f, m, all, n);
  }

  /** A context that has been fed `m`: `n` blocks are hashed, the rest is in the buffer. */
  ghost predicate Fed(f: Compression, state: State, buf: MBlock, m: bytes, n: nat) {
    && |m| < LIMIT && 64 * n <= |m| < 64 * n + 64
    && forall x :: Unfolded(x) ==> state == HashBlocks(f, m, n) && buf[..|m| - 64 * n] == m[64 * n..]
  }

  /** The bit counter below its limit: the number of buffered bytes, and an addition that does not wrap. */
  lemma Counter(len: nat, d: nat, n: nat)
    requires len + d < LIMIT && 64 * n <= len < 64 * n + 64
    ensures 8 * len / 8 % 64 == len - 64 * n && (8 * len + 8 * d) % TWO_64 == 8 * (len + d)
  {
  }

  /** The data fit into the buffer: no block is completed. */
  lemma FedShort(f: Compression, state: State, buf: MBlock, m: bytes, n: nat, data: bytes)
    requires Fed(f, state, buf, m, n) && |m| + |data| < LIMIT && |m| + |data| < 64 * n + 64
    ensures var r := |m| - 64 * n; Fed(f, state, buf[..r] + data + buf[r + |data|..], m + data, n)
  {
    assert Unfolded(m);
    HashPrefix(f, m, m + data, n);
    assert (m + data)[64 * n..] == m[64 * n..] + data;
  }

  /** The buffer is completed by the first bytes of the data. */
  lemma Completed(m: bytes, data: bytes, n: nat, front: bytes, r: nat)
    requires r == |m| - 64 * n < 64 && |data| >= 64 - r && front == m[64 * n..]
    ensures (m + data)[64 * n..64 * n + 64] == front + data[..64 - r] && (m + data)[64 * n + 64..] == data[64 - r..]
  {
  }

  lemma FedFirst(f: Compression, state: State, buf: MBlock, m: bytes, n: nat, data: bytes, all: bytes)
    requires Fed(f, state, buf, m, n) && |m| + |data| >= 64 * n + 64 && all == m + data
    ensures var r := |m| - 64 * n; f(state, buf[..r] + data[..64 - r]) == HashBlocks(f, all, n + 1)
  {
    assert Unfolded(m);
    var r := |m| - 64 * n;
    Completed(m, data, n, buf[..r], r);
    NextBlock(f, m, all, n, buf[..r] + data[..64 - r]);
  }

  /** The table `PAD`. */
  const PAD: bytes := [0x80] + Zeros(63)

  /** The padding in terms of the table: within one block, or completing a block and starting the next. */
  lemma PaddingFrom(len: nat, n: nat)
    requires 64 * n <= len < 64 * n + 64
    ensures var r := len - 64 * n;
      if r < 56 then PaddedBlocks(len) == n + 1 && Padding(len) == PAD[..56 - r] + BeEnc(8 * len, 8)
      else PaddedBlocks(len) == n + 2 && Padding(len) == PAD[..64 - r] + (Zeros(56) + BeEnc(8 * len, 8))
  {
    var r, c := len - 64 * n, BeEnc(8 * len, 8);
    if r < 56 {
      assert PAD[..56 - r] == [0x80] + Zeros(55 - r);
    } else {
      assert Zeros(119 - r) == Zeros(63 - r) + Zeros(56);
      assert PAD[..64 - r] == [0x80] + Zeros(63 - r);
      assert [0x80] + (Zeros(63 - r) + Zeros(56)) + c == ([0x80] + Zeros(63 - r)) + (Zeros(56) + c);
    }
  }

  /** With room for the bit count, the padding completes one block. */
  lemma PadOne(f: Compression, state: State, buf: MBlock, m: bytes, n: nat, all: bytes, last: MBlock)
    requires Fed(f, state, buf, m, n) && |m| - 64 * n < 56 && all == m + Padding(|m|)
    requires last == buf[..|m| - 64 * n] + (PAD[..56 - (|m| - 64 * n)] + BeEnc(8 * |m|, 8))
    ensures f(state, last) == HashBlocks(f, all, PaddedBlocks(|m|))
  {
    assert Unfolded(m);
    var r := |m| - 64 * n;
    PaddingFrom(|m|, n);
    Completed(m, Padding(|m|), n, buf[..r], r);
    NextBlock(f, m, all, n, last);
  }

  /** Without it, the padding completes the current block and one more. */
  lemma PadTwo(f: Compression, state: State, buf: MBlock, m: bytes, n: nat, all: bytes, first: MBlock, last: MBlock)
    requires Fed(f, state, buf, m, n) && |m| - 64 * n >= 56 && all == m + Padding(|m|)
    requires first == buf[..|m| - 64 * n] + PAD[..64 - (|m| - 64 * n)] && last == Zeros(56) + BeEnc(8 * |m|, 8)
    ensures f(f(state, first), last) == HashBlocks(f, all, PaddedBlocks(|m|))
  {
    assert Unfolded(m);
    var r := |m| - 64 * n;
    PaddingFrom(|m|, n);
    Completed(m, Padding(|m|), n, buf[..r], r);
    NextBlock(f, m, all, n, first);
    NextBlock(f, all, all, n + 1, last);
  }

  lemma Overwritten(front: bytes, pad: bytes, back: bytes, bits: bytes)
    requires |front| + |pad| == 56
    ensures (front + (pad + back))[..56] + bits == front + (pad + bits)
  {
  }

  /** `be32enc_vect` */
  method Be32EncVect(src: seq<word>) returns (dst: bytes)
    ensures dst == Unwords(src)
  {
    dst := [];
    for i := 0 to |src|
      invariant dst == Unwords(src[..i])
    {
      dst := dst + WordBytes(src[i]);
      assert src[..i + 1][..i] == src[..i];
    }
    assert src[..|src|] == src;
  }

  class Ctx {
    ghost const f: Compression
    var state: State
    var count: nat
    var buf: MBlock
    ghost var msg: bytes
    ghost var blocks: nat

    ghost predicate Valid()
      reads this
    {
      Standard(f) && count == 8 * |msg| && Fed(f, state, buf, msg, blocks)
    }

    /** `SHA256_Init`; the buffer is not initialised. */
    constructor Init(ghost f: Compression, junk: MBlock)
      requires Standard(f)
      ensures Valid() && msg == [] && this.f == f
    {
      this.f := f;
      state, count, buf, msg, blocks := InitialState, 0, junk, [], 0;
    }

    /** A copy of the structure, which goes on by itself. */
    constructor Copy(other: Ctx)
      requires other.Valid()
      ensures Valid() && msg == other.msg && f == other.f
    {
      f := other.f;
      state, count, buf, msg, blocks := other.state, other.count, other.buf, other.msg, other.blocks;
    }

    /** `SHA256_Transform`, by whichever of its implementations has been chosen. */
    method Transform(block: MBlock)
      requires Standard(f)
      modifies this`state
      ensures state == f(old(state), block)
    {
      var s := state;
      var H := new word[8](i requires 0 <= i < 8 => s[i]);
      var W, S := new word[64], new word[8];
      assert H[..] == s;
      var sse2: bool := *;
      if sse2 {
        TransformBlockSse2(H, block, W, S);
      } else {
        TransformBlock(H, block, W, S);
      }
      state := H[..];
      assert About(STANDARD);
    }

    /** `SHA256_Update`: the context has been fed the old message and the new data, however they were cut up. */
    method Update(data: bytes)
      requires Valid() && |msg| + |data| < LIMIT
      modifies this
      ensures Valid() && msg == old(msg) + data
    {
      ghost var all := msg + data;
      if |data| == 0 {
        assert all == msg;
        return;
      }
      Counter(|msg|, |data|, blocks);
      var r := count / 8 % 64;
      count := (count + 8 * |data|) % TWO_64;
      if |data| < 64 - r {
        FedShort(f, state, buf, msg, blocks, data);
        buf, msg := buf[..r] + data + buf[r + |data|..], all;
        return;
      }
      FirstBlock(data, r);
      MoreBlocks(data, 64 - r);
    }

    /** The middle of `SHA256_Update`: the buffer is completed and hashed. */
    method FirstBlock(data: bytes, r: nat)
      requires Standard(f) && Fed(f, state, buf, msg, blocks) && r == |msg| - 64 * blocks && 64 - r <= |data|
      modifies this`state, this`buf, this`msg, this`blocks
      ensures msg == old(msg) + data && 64 * blocks <= |msg|
      ensures msg[64 * blocks..] == data[64 - r..] && state == HashBlocks(f, msg, blocks)
    {
      assert Unfolded(msg);
      Completed(msg, data, blocks, buf[..r], r);
      FedFirst(f, state, buf, msg, blocks, data, msg + data);
      buf := buf[..r] + data[..64 - r];
      Transform(buf);
      msg, blocks := msg + data, blocks + 1;
    }

    /** The end of `SHA256_Update`: whole blocks straight from the data, and the rest into the buffer. */
    method MoreBlocks(data: bytes, start: nat)
      requires Standard(f) && start <= |data| && count == 8 * |msg| && |msg| < LIMIT
      requires 64 * blocks <= |msg| && msg[64 * blocks..] == data[start..] && state == HashBlocks(f, msg, blocks)
      modifies this`state, this`buf, this`blocks
      ensures Valid()
    {
      var pos := start;
      while |data| - pos >= 64
        invariant start <= pos <= |data|
        invariant 64 * blocks <= |msg| && msg[64 * blocks..] == data[pos..] && state == HashBlocks(f, msg, blocks)
      {
        ghost var k := 64 * blocks;
        assert data[pos..pos + 64] == data[pos..][..64] == msg[k..k + 64];
        assert msg[k + 64..] == msg[k..][64..] == data[pos + 64..];
        Transform(data[pos..pos + 64]);
        pos, blocks := pos + 64, blocks + 1;
      }
      buf := data[pos..] + buf[|data| - pos..];
    }

    /** `SHA256_Pad` */
    method Pad()
      requires Valid()
      modifies this`state, this`buf
      ensures state == HashBlocks(f, msg + Padding(|msg|), PaddedBlocks(|msg|))
    {
      Counter(|msg|, 0, blocks);
      var r := count / 8 % 64;
      ghost var bits := BeEnc(count, 8);
      if r < 56 {
        ghost var last := buf[..r] + (PAD[..56 - r] + bits);
        PadOne(f, state, buf, msg, blocks, msg + Padding(|msg|), last);
        Overwritten(buf[..r], PAD[..56 - r], buf[56..], bits);
        buf := buf[..r] + (PAD[..56 - r] + buf[56..]);
      } else {
        PadTwo(f, state, buf, msg, blocks, msg + Padding(|msg|), buf[..r] + PAD[..64 - r], Zeros(56) + bits);
        buf := buf[..r] + PAD[..64 - r];
        Transform(buf);
        buf := Zeros(56) + buf[56..];
      }
      buf := buf[..56] + BeEnc(count, 8);
      Transform(buf);
    }

    /** `SHA256_Final`: the digest of everything the context has been fed. */
    method Final() returns (digest: bytes)
      requires Valid()
      modifies this`state, this`buf
      ensures digest == Digest(f, old(msg)) == Sha256(old(msg))
    {
      StandardDigest(f, msg);
      Pad();
      digest := Be32EncVect(state);
    }
  }
}
