/**
  AES in counter mode (`libcperciva/crypto/crypto_aesctr.c`, `crypto_aesctr_shared.c` and
  `crypto_aesctr_aesni.c`).

  An expanded AES key is the block permutation it denotes; the block function itself is arbitrary.
  Buffers are arrays with an offset, since the callers encrypt in place.

  The byte counter has 64 bits.  A stream stands at a position, which the byte counter is modulo 2^64:
  it is where the counter block is, and it can be beyond 2^64 because only some steps encode the byte
  counter into the counter block anew.
 */
module AesCtr {
  import opened Bytes
  import opened Unfolding

  type Block = b: bytes | |b| == 16 witness [0, 0, 0, 0, 0, 0, 0, 0, 0, 0, 0, 0, 0, 0, 0, 0]
  type Key = Block -> Block

  /** The counter block for block number `n`: the nonce followed by the number. */
  function CtrBlock(nonce: nat, n: nat): Block {
    BeEnc(nonce, 8) + BeEnc(n, 8)
  }

  /** Byte `i` of the key stream, as counter mode of section 6.5 of NIST SP 800-38A defines it. */
  function KeyStreamByte(key: Key, nonce: nat, i: nat): byte {
    key(CtrBlock(nonce, i / 16))[i % 16]
  }

  /** The key stream as a function of the position. */
  function KeyStream(key: Key, nonce: nat): nat -> byte {
    (i: nat) => KeyStreamByte(key, nonce, i)
  }

  /** Data exclusive-ored byte by byte with a key stream at the positions that `at` says. */
  function XorAt(ks: nat -> byte, at: nat -> nat, data: bytes): (r: bytes)
    ensures |r| == |data|
  {
    if data == [] then [] else
      var n := |data| - 1;
      XorAt(ks, at, data[..n]) + [Xor8(data[n], ks(at(n)))]
  }

  /** The positions from `pos` on. */
  function From(pos: nat): nat -> nat {
    (k: nat) => pos + k
  }

  /** Counter mode on `data` that starts at byte `pos` of the stream. */
  function CtrXor(key: Key, nonce: nat, pos: nat, data: bytes): (r: bytes)
    ensures |r| == |data|
  {
    XorAt(KeyStream(key, nonce), From(pos), data)
  }

  lemma {:induction false} XorAtByte(ks: nat -> byte, at: nat -> nat, data: bytes, k: nat)
    requires k < |data|
    ensures XorAt(ks, at, data)[k] == Xor8(data[k], ks(at(k)))
  {
    var n := |data| - 1;
    if k < n {
      XorAtByte(ks, at, data[..n], k);
    }
  }

  lemma ConcatByte(ks: nat -> byte, at: nat -> nat, at': nat -> nat, a: bytes, b: bytes, k: nat)
    requires k < |a| + |b| && (k >= |a| ==> at'(k - |a|) == at(k))
    ensures XorAt(ks, at, a + b)[k] == (XorAt(ks, at, a) + XorAt(ks, at', b))[k]
  {
    XorAtByte(ks, at, a + b, k);
    if k < |a| {
      XorAtByte(ks, at, a, k);
    } else {
      XorAtByte(ks, at', b, k - |a|);
    }
  }

  lemma XorAtConcat(ks: nat -> byte, at: nat -> nat, at': nat -> nat, a: bytes, b: bytes)
    requires forall k: nat :: at'(k) == at(|a| + k)
    ensures XorAt(ks, at, a + b) == XorAt(ks, at, a) + XorAt(ks, at', b)
  {
    forall k: nat | k < |a| + |b|
      ensures XorAt(ks, at, a + b)[k] == (XorAt(ks, at, a) + XorAt(ks, at', b))[k]
    {
      assert k >= |a| ==> at'(k - |a|) == at(|a| + (k - |a|));
      ConcatByte(ks, at, at', a, b, k);
    }
  }

  lemma {:induction false} XorAtInvolutive(ks: nat -> byte, at: nat -> nat, data: bytes)
    ensures XorAt(ks, at, XorAt(ks, at, data)) == data
  {
    if data != [] {
      var n := |data| - 1;
      var r := XorAt(ks, at, data);
      XorAtInvolutive(ks, at, data[..n]);
      Xor8Laws(data[n], ks(at(n)));
      assert r[..n] == XorAt(ks, at, data[..n]);
      assert data == data[..n] + [data[n]];
    }
  }

  lemma {:induction false} XorAtSame(ks: nat -> byte, at: nat -> nat, at': nat -> nat, data: bytes)
    requires forall k :: 0 <= k < |data| ==> at(k) == at'(k)
    ensures XorAt(ks, at, data) == XorAt(ks, at', data)
  {
    if data != [] {
      XorAtSame(ks, at, at', data[..|data| - 1]);
    }
  }

  /** What a sequence of calls on one stream puts out, each call going on where the last one stopped. */
  function CtrCalls(key: Key, nonce: nat, pos: nat, chunks: seq<bytes>): bytes
    decreases chunks
  {
    if chunks == [] then []
    else CtrXor(key, nonce, pos, chunks[0]) + CtrCalls(key, nonce, pos + |chunks[0]|, chunks[1..])
  }

  lemma CtrXorConcat(key: Key, nonce: nat, pos: nat, a: bytes, b: bytes)
    ensures CtrXor(key, nonce, pos, a + b) == CtrXor(key, nonce, pos, a) + CtrXor(key, nonce, pos + |a|, b)
  {
    XorAtConcat(KeyStream(key, nonce), From(pos), From(pos + |a|), a, b);
  }

  /** However a message is cut into calls, the output is counter mode of the whole message. */
  lemma {:induction false} CallsAreOneCall(key: Key, nonce: nat, pos: nat, chunks: seq<bytes>)
    ensures CtrCalls(key, nonce, pos, chunks) == CtrXor(key, nonce, pos, Concat(chunks))
    decreases chunks
  {
    if chunks != [] {
      var a, b := chunks[0], Concat(chunks[1..]);
      assert Concat(chunks) == a + b;
      CallsAreOneCall(key, nonce, pos + |a|, chunks[1..]);
      CtrXorConcat(key, nonce, pos, a, b);
    }
  }

  /** Decryption is encryption at the same position. */
  lemma CtrXorInvolutive(key: Key, nonce: nat, pos: nat, data: bytes)
    ensures CtrXor(key, nonce, pos, CtrXor(key, nonce, pos, data)) == data
  {
    XorAtInvolutive(KeyStream(key, nonce), From(pos), data);
  }

  /**
    Between blocks, `pblk` need not hold the next counter: it is enough that adding one to its last
    byte yields the last byte of the next counter, and that the other seven are right unless that
    addition wraps.
   */
  ghost predicate ReadyToCount(pblk: Block, nonce: nat, n: nat) {
    && pblk[..8] == BeEnc(nonce, 8)
    && if n % 256 == 0 then pblk[15] == 255 else pblk[8..] == BeEnc(n - 1, 8)
  }

  /** The state of a stream that stands at position `v`. */
  ghost predicate StreamState(key: Key, nonce: nat, v: nat, buf: Block, pblk: Block) {
    forall x :: x == COUNTING && About(x) ==>
      if v % 16 == 0 then ReadyToCount(pblk, nonce, v / 16)
      else pblk == CtrBlock(nonce, v / 16) && buf == key(pblk)
  }

  /** The increment of the last byte of the counter block, which is unsigned. */
  function Inc8(b: byte): (r: byte) {
    if b == 255 then 0 else b + 1
  }

  /** `pblk` as `cipherblock_generate` leaves it before encrypting. */
  function NextPblk(pblk: Block, n: nat): Block {
    if Inc8(pblk[15]) == 0 then pblk[..8] + BeEnc(n, 8) else pblk[15 := Inc8(pblk[15])]
  }

  /**
    The one-byte increment leaves the next counter, except that on wrap the block is for `m`, which is
    encoded in full.
   */
  lemma CountsUp(pblk: Block, nonce: nat, n: nat, m: nat)
    requires ReadyToCount(pblk, nonce, n)
    ensures NextPblk(pblk, m) == CtrBlock(nonce, if n % 256 == 0 then m else n)
  {
    if n % 256 != 0 {
      var q, r := n / 256, n % 256;
      assert (n - 1) / 256 == q && (n - 1) % 256 == r - 1;
      assert BeEnc(n - 1, 8) == BeEnc(q, 7) + [r - 1] && BeEnc(n, 8) == BeEnc(q, 7) + [r];
      assert pblk[15] == pblk[8..][7] == r - 1;
      assert pblk[15 := r] == pblk[..8] + (pblk[8..][..7] + [r]);
    }
  }

  /** Once the last byte of block `n` is used, the counter block is ready for the next one. */
  lemma BlockUsedUp(pblk: Block, nonce: nat, n: nat)
    requires pblk == CtrBlock(nonce, n)
    ensures ReadyToCount(pblk, nonce, n + 1)
  {
    var e := BeEnc(n, 8);
    assert pblk[8..] == e && pblk[..8] == BeEnc(nonce, 8) && pblk[15] == e[7];
    LastByte(n);
  }

  lemma LastByte(n: nat)
    ensures BeEnc(n, 8)[7] == n % 256 && ((n + 1) % 256 == 0 ==> n % 256 == 255)
  {
  }

  /** `out` with the bytes from offset `o` on replaced by `r`. */
  function Splice(out: bytes, o: nat, r: bytes): (s: bytes)
    requires o + |r| <= |out|
    ensures |s| == |out|
  {
    out[..o] + r + out[o + |r|..]
  }

  /** Input and output buffers are disjoint or identical. */
  predicate Compatible(inb: array<byte>, a: nat, outb: array<byte>, o: nat, len: nat) {
    && a + len <= inb.Length && o + len <= outb.Length
    && (inb != outb || a == o || a + len <= o || o + len <= a)
  }

  /**
    A request on a stream: the data, the position each byte is encrypted for, and what the output
    buffer held before.
   */
  datatype Job = Job(ks: nat -> byte, at: nat -> nat, data: bytes, out0: bytes)

  /** Byte `k` of the output of a job. */
  function OutByte(j: Job, k: nat): byte
    requires k < |j.data|
  {
    Xor8(j.data[k], j.ks(j.at(k)))
  }

  /** The key stream is that of a key and a nonce. */
  ghost predicate StreamOf(ks: nat -> byte, key: Key, nonce: nat) {
    forall x :: x == KEY_STREAMS && About(x) ==> ks == KeyStream(key, nonce)
  }

  /** From byte `pos` on, `n` bytes of the job are for consecutive positions. */
  ghost predicate Consecutive(j: Job, pos: nat, n: nat, v: nat) {
    forall k :: pos <= k < pos + n ==> j.at(k) == v + (k - pos)
  }

  /** The first `pos` bytes of the job are done, the rest of the input is still there, and nothing else has changed. */
  ghost predicate Done(j: Job, inb: array<byte>, a: nat, outb: array<byte>, o: nat, pos: nat)
    reads inb, outb
  {
    && Compatible(inb, a, outb, o, |j.data|)
    && pos <= |j.data| && |j.out0| == outb.Length
    && forall x :: x == BYTEWISE && About(x) ==>
      && (forall k :: 0 <= k < pos ==> outb[o + k] == OutByte(j, k))
      && (forall k :: 0 <= k < outb.Length && !(o <= k < o + pos) ==> outb[k] == j.out0[k])
      && (forall k :: a + pos <= k < a + |j.data| ==> inb[k] == j.data[k - a])
  }

  lemma NothingDone(j: Job, inb: array<byte>, a: nat, outb: array<byte>, o: nat)
    requires Compatible(inb, a, outb, o, |j.data|) && j.data == inb[a..a + |j.data|] && j.out0 == outb[..]
    ensures Done(j, inb, a, outb, o, 0)
  {
  }

  lemma AllDone(j: Job, inb: array<byte>, a: nat, outb: array<byte>, o: nat)
    requires Done(j, inb, a, outb, o, |j.data|)
    ensures outb[..] == Splice(j.out0, o, XorAt(j.ks, j.at, j.data))
  {
    assert About(BYTEWISE);
    var r := XorAt(j.ks, j.at, j.data);
    forall k | 0 <= k < |r|
      ensures r[k] == OutByte(j, k)
    {
      XorAtByte(j.ks, j.at, j.data, k);
    }
    IsSplice(outb[..], j.out0, o, r);
  }

  lemma IsSplice(out: bytes, out0: bytes, o: nat, r: bytes)
    requires |out| == |out0| && o + |r| <= |out|
    requires forall k :: 0 <= k < |r| ==> out[o + k] == r[k]
    requires forall k :: 0 <= k < |out| && !(o <= k < o + |r|) ==> out[k] == out0[k]
    ensures out == Splice(out0, o, r)
  {
    assert out[o..o + |r|] == r;
    assert out[..o] == out0[..o];
    assert out[o + |r|..] == out0[o + |r|..];
  }

  /** Exclusive-or the next piece `ks` of the key stream: the loop of `cipherblock_use`, or one 128-bit store. */
  method Process(ghost j: Job, inb: array<byte>, a: nat, outb: array<byte>, o: nat, pos: nat, ks: bytes)
    requires Done(j, inb, a, outb, o, pos) && pos + |ks| <= |j.data|
    requires forall i :: 0 <= i < |ks| ==> ks[i] == j.ks(j.at(pos + i))
    modifies outb
    ensures Done(j, inb, a, outb, o, pos + |ks|)
  {
    for i := 0 to |ks|
      invariant Done(j, inb, a, outb, o, pos + i)
    {
      ProcessByte(j, inb, a, outb, o, pos + i, ks[i]);
    }
  }

  method ProcessByte(ghost j: Job, inb: array<byte>, a: nat, outb: array<byte>, o: nat, pos: nat, x: byte)
    requires Done(j, inb, a, outb, o, pos) && pos < |j.data| && x == j.ks(j.at(pos))
    modifies outb
    ensures Done(j, inb, a, outb, o, pos + 1)
  {
    assert About(BYTEWISE);
    outb[o + pos] := Xor8(inb[a + pos], x);
  }

  /** Within one block, the key stream is a slice of the encrypted counter block. */
  lemma BlockKeyStream(key: Key, nonce: nat, c: nat, ks: bytes)
    requires c % 16 + |ks| <= 16 && ks == key(CtrBlock(nonce, c / 16))[c % 16..c % 16 + |ks|]
    ensures forall i :: 0 <= i < |ks| ==> ks[i] == KeyStreamByte(key, nonce, c + i)
  {
    var k := key(CtrBlock(nonce, c / 16));
    forall i | 0 <= i < |ks|
      ensures ks[i] == KeyStreamByte(key, nonce, c + i)
    {
      assert (c + i) / 16 == c / 16 && (c + i) % 16 == c % 16 + i;
      assert ks[i] == k[c % 16 + i];
    }
  }

  /** For consecutive positions within one block, that slice is what the next bytes of a job need. */
  lemma NextKeyStream(j: Job, key: Key, nonce: nat, pos: nat, v: nat, ks: bytes)
    requires StreamOf(j.ks, key, nonce)
    requires v % 16 + |ks| <= 16 && ks == key(CtrBlock(nonce, v / 16))[v % 16..v % 16 + |ks|]
    requires Consecutive(j, pos, |ks|, v)
    ensures forall i :: 0 <= i < |ks| ==> ks[i] == j.ks(j.at(pos + i))
  {
    assert About(KEY_STREAMS);
    BlockKeyStream(key, nonce, v, ks);
  }

  /** The loop of the AES-NI path: encrypt `numBlocks` blocks, and return the last counter encoded. */
  method AesniBlocks(ghost j: Job, inb: array<byte>, a: nat, outb: array<byte>, o: nat, pos0: nat,
                     key: Key, nonceBe: bytes, ghost nonce: nat, block0: nat, numBlocks: nat) returns (counterBe: bytes)
    requires Done(j, inb, a, outb, o, pos0) && numBlocks > 0 && pos0 + 16 * numBlocks <= |j.data|
    requires StreamOf(j.ks, key, nonce) && nonceBe == BeEnc(nonce, 8)
    requires Consecutive(j, pos0, 16 * numBlocks, 16 * block0)
    modifies outb
    ensures Done(j, inb, a, outb, o, pos0 + 16 * numBlocks)
    ensures counterBe == BeEnc(block0 + numBlocks - 1, 8)
  {
    var blockCounter, pos, i := block0, pos0, numBlocks;
    counterBe := [];
    while i > 0
      invariant 0 <= i <= numBlocks
      invariant blockCounter == block0 + (numBlocks - i) && pos == pos0 + 16 * (numBlocks - i)
      invariant i < numBlocks ==> counterBe == BeEnc(blockCounter - 1, 8)
      invariant Done(j, inb, a, outb, o, pos)
    {
      counterBe := BeEnc(blockCounter, 8);
      var ks := key(nonceBe + counterBe);
      NextKeyStream(j, key, nonce, pos, 16 * blockCounter, ks);
      Process(j, inb, a, outb, o, pos, ks);
      blockCounter, pos, i := blockCounter + 1, pos + 16, i - 1;
    }
  }

  /** With the counter of the last of some whole blocks in place, the stream stands after them. */
  lemma AfterWholeBlocks(key: Key, nonce: nat, c: nat, buf: Block, pblk: Block, n: nat)
    requires pblk[..8] == BeEnc(nonce, 8) && c % 16 == 0 && n > 0
    ensures (c + 16 * n) % 16 == 0
    ensures StreamState(key, nonce, c + 16 * n, buf, pblk[..8] + BeEnc(c / 16 + n - 1, 8))
  {
    assert About(COUNTING);
    assert (c + 16 * n) / 16 == c / 16 + n;
    BlockUsedUp(pblk[..8] + BeEnc(c / 16 + n - 1, 8), nonce, c / 16 + n - 1);
  }

  /** What a 64-bit counter that has been advanced by `v` holds. */
  function Low64(v: nat): (r: nat)
    ensures r < TWO_64
  {
    v % TWO_64
  }

  /**
    The position of the block that is generated at position `v`: on wrap of the last byte, the byte
    counter decides.
   */
  function Reset(v: nat): nat {
    if v % 16 == 0 && (v / 16) % 256 == 0 then Low64(v) else v
  }

  /** Where byte `k` of a request goes that is made at position `v`, on the software path. */
  function SoftAt(v: nat, k: nat): nat {
    if k == 0 then Reset(v) else Reset(SoftAt(v, k - 1) + 1)
  }

  /** Where a request of `len` bytes that starts at `v` ends. */
  function Ends(at: nat -> nat, v: nat, len: nat): nat {
    if len == 0 then v else at(len - 1) + 1
  }

  /** How many bytes of a block are left at position `v`, if one is under way. */
  function Left(v: nat): (n: nat)
    ensures n < 16 && (v + n) % 16 == 0
  {
    if v % 16 == 0 then 0 else 16 - v % 16
  }

  /** How many whole blocks there are after that in a request of `len` bytes. */
  function Whole(v: nat, len: nat): nat {
    if len < Left(v) then 0 else (len - Left(v)) / 16
  }

  /** The same on the AES-NI path: the byte counter decides once, before the whole blocks. */
  function AesniAt(v: nat, len: nat, k: nat): nat {
    var p, m := Left(v), Whole(v, len);
    var start := if m == 0 then v + p else Low64(v + p);
    if k < p then v + k
    else if k < p + 16 * m then start + (k - p)
    else SoftAt(start + 16 * m, k - (p + 16 * m))
  }

  function PathAt(v: nat, len: nat, aesni: bool): nat -> nat {
    (k: nat) => if aesni && len >= 16 then AesniAt(v, len, k) else SoftAt(v, k)
  }

  /** The place within a block does not depend on the upper bits. */
  lemma SamePlace(v: nat)
    ensures Low64(v) % 16 == v % 16
  {
  }

  lemma Low64Add(v: nat, n: nat)
    ensures Low64(Low64(v) + n) == Low64(v + n)
  {
  }

  /** A position is reset by multiples of 2^64, and only where the last byte of the counter wraps. */
  lemma ResetBlock(v: nat)
    ensures Reset(v) % 16 == v % 16 && Low64(Reset(v)) == Low64(v)
    ensures v % 16 == 0 ==> Reset(v) / 16 == if (v / 16) % 256 == 0 then Low64(v) / 16 else v / 16
  {
    SamePlace(v);
  }

  /** The byte counter at position `v`. */
  ghost predicate Counts(b: nat, v: nat) {
    forall x :: x == BYTE_COUNT && About(x) ==> b == Low64(v)
  }

  /** The next block is generated for position `w`. */
  ghost predicate ResetTo(v: nat, w: nat) {
    forall x :: x == RESETTING && About(x) ==> w == Reset(v)
  }

  lemma SameByte(b: nat, v: nat)
    requires Counts(b, v)
    ensures b % 16 == v % 16
  {
    assert About(BYTE_COUNT);
    SamePlace(v);
  }

  lemma CountsMore(b: nat, b': nat, v: nat, n: nat)
    requires Counts(b, v) && Counts(b', b + n)
    ensures Counts(b', v + n)
  {
    assert About(BYTE_COUNT);
    Low64Add(v, n);
  }

  /** What `cipherblock_generate` makes of the counter block. */
  lemma Generates(key: Key, nonce: nat, v: nat, buf: Block, pblk: Block, b: nat, w: nat)
    requires StreamState(key, nonce, v, buf, pblk) && v % 16 == 0 && Counts(b, v) && ResetTo(v, w)
    ensures NextPblk(pblk, b / 16) == CtrBlock(nonce, w / 16) && w % 16 == 0 && Counts(b, w)
  {
    assert About(COUNTING) && About(BYTE_COUNT) && About(RESETTING);
    CountsUp(pblk, nonce, v / 16, b / 16);
    ResetBlock(v);
  }

  /** Within a block, positions follow each other. */
  lemma {:induction false} SoftWithin(v: nat, k: nat)
    requires v % 16 + k < 16
    ensures SoftAt(v, k) == Reset(v) + k
  {
    if k > 0 {
      SoftWithin(v, k - 1);
      ResetBlock(v);
      InBlock(Reset(v), k);
    }
  }

  lemma InBlock(v: nat, k: nat)
    requires 0 < k && v % 16 + k < 16
    ensures Reset(v + k) == v + k
  {
    assert (v + k) % 16 == v % 16 + k;
  }

  lemma {:induction false} SoftFrom(v: nat, a: nat, w: nat, b: nat)
    requires SoftAt(v, a) == Reset(w)
    ensures SoftAt(v, a + b) == SoftAt(w, b)
  {
    if b > 0 {
      SoftFrom(v, a, w, b - 1);
    }
  }

  lemma {:induction false} SoftCounts(v: nat, k: nat)
    ensures Low64(SoftAt(v, k)) == Low64(v + k)
  {
    if k == 0 {
      ResetBlock(v);
    } else {
      SoftCounts(v, k - 1);
      ResetBlock(SoftAt(v, k - 1) + 1);
      OneMoreByte(SoftAt(v, k - 1), v + (k - 1));
    }
  }

  lemma OneMoreByte(a: nat, b: nat)
    requires Low64(a) == Low64(b)
    ensures Low64(a + 1) == Low64(b + 1)
  {
    Low64Add(a, 1);
    Low64Add(b, 1);
  }

  lemma AesniCounts(v: nat, len: nat, k: nat)
    ensures Low64(AesniAt(v, len, k)) == Low64(v + k)
  {
    var p, m := Left(v), Whole(v, len);
    var start := if m == 0 then v + p else Low64(v + p);
    if k >= p {
      Low64Add(v + p, k - p);
    }
    if k >= p + 16 * m {
      SoftCounts(start + 16 * m, k - (p + 16 * m));
    }
  }

  /** However the positions go, they agree with the count of the bytes in the lower 64 bits. */
  lemma PositionCounts(v: nat, len: nat, aesni: bool, at: nat -> nat, k: nat)
    requires Follows(at, v, len, aesni)
    ensures Low64(at(k)) == Low64(v + k)
  {
    assert About(PATHS);
    if aesni && len >= 16 {
      AesniCounts(v, len, k);
    } else {
      SoftCounts(v, k);
    }
  }

  /** So the byte counter counts the bytes. */
  lemma CountsBytes(v: nat, len: nat, aesni: bool, at: nat -> nat, v': nat, b: nat, b': nat)
    requires Follows(at, v, len, aesni) && v' == Ends(at, v, len)
    requires Counts(b, v) && Counts(b', v')
    ensures Counts(b', b + len)
  {
    if len > 0 {
      PositionCounts(v, len, aesni, at, len - 1);
      OneMoreByte(at(len - 1), v + (len - 1));
    }
    CountsAll(v, v', len, b, b');
  }

  lemma CountsAll(v: nat, v': nat, len: nat, b: nat, b': nat)
    requires Counts(b, v) && Counts(b', v') && Low64(v') == Low64(v + len)
    ensures Counts(b', b + len)
  {
    assert About(BYTE_COUNT);
    Low64Add(v, len);
  }

  /** On the software path positions are taken modulo 2^64: the key stream repeats from there on. */
  lemma {:induction false} SoftRepeats(v: nat, k: nat)
    requires v < TWO_64
    ensures SoftAt(v, k) == Low64(v + k)
  {
    if k > 0 {
      SoftRepeats(v, k - 1);
      Low64Add(v + (k - 1), 1);
      ResetOnce(Low64(v + (k - 1)) + 1);
    }
  }

  /** The first position beyond the limit is one at which the counter is encoded anew. */
  lemma ResetOnce(w: nat)
    requires w <= TWO_64
    ensures Reset(w) == Low64(w)
  {
  }

  lemma BelowLimit(v: nat, len: nat, k: nat, aesni: bool)
    requires k < len && v + len <= TWO_64
    ensures PathAt(v, len, aesni)(k) == v + k
  {
    if aesni && len >= 16 {
      AesniBelow(v, len, k);
    } else {
      SoftBelow(v, k);
    }
  }

  lemma AesniBelow(v: nat, len: nat, k: nat)
    requires k < len && v + len <= TWO_64
    ensures AesniAt(v, len, k) == v + k
  {
    var p, m := Left(v), Whole(v, len);
    assert m > 0 ==> p + 16 * m <= len;
    if m > 0 {
      SmallCount(v + p);
    }
    if k >= p + 16 * m {
      SoftBelow(v + p + 16 * m, k - (p + 16 * m));
    }
  }

  lemma SoftBelow(v: nat, k: nat)
    requires v + k < TWO_64
    ensures SoftAt(v, k) == v + k
  {
    SoftRepeats(v, k);
    SmallCount(v + k);
  }

  lemma SmallCount(v: nat)
    requires v < TWO_64
    ensures Low64(v) == v
  {
  }

  /** The bytes of a job go where the software path takes them; it stands at `v` after `pos` of them. */
  ghost predicate SoftJob(j: Job, v0: nat, pos: nat, v: nat) {
    var holds: bool :| forall x :: x == SOFT_PATH && About(x) ==> (holds <==>
      && (forall k: nat :: j.at(k) == SoftAt(v0, k))
      && SoftAt(v0, pos) == Reset(v) && v == if pos == 0 then v0 else j.at(pos - 1) + 1);
    holds
  }

  /** The same for the AES-NI path. */
  ghost predicate AesniJob(j: Job, v0: nat, len: nat) {
    forall x :: x == AESNI_PATH && About(x) ==> forall k: nat :: j.at(k) == AesniAt(v0, len, k)
  }

  ghost predicate Follows(at: nat -> nat, v: nat, len: nat, aesni: bool) {
    forall x :: x == PATHS && About(x) ==> at == PathAt(v, len, aesni)
  }

  lemma TheStream(key: Key, nonce: nat) returns (ks: nat -> byte)
    ensures StreamOf(ks, key, nonce)
  {
    ks := KeyStream(key, nonce);
  }

  lemma PathOf(v: nat, len: nat, aesni: bool) returns (at: nat -> nat)
    ensures Follows(at, v, len, aesni)
  {
    at := PathAt(v, len, aesni);
  }

  lemma JobOf(j: Job, v: nat, len: nat, aesni: bool)
    requires Follows(j.at, v, len, aesni)
    ensures if aesni && len >= 16 then AesniJob(j, v, len) else SoftJob(j, v, 0, v)
  {
    assert About(PATHS) && About(SOFT_PATH);
  }

  lemma SoftDone(j: Job, v0: nat, len: nat, v: nat)
    requires SoftJob(j, v0, len, v)
    ensures v == if len == 0 then v0 else j.at(len - 1) + 1
  {
    assert About(SOFT_PATH);
  }

  lemma NextMultiple(w: nat)
    ensures (w + 16) % 16 == w % 16
  {
  }

  class Stream {
    var key: Key
    var bytectr: nat
    var buf: Block
    var pblk: Block
    ghost var nonce: nat
    ghost var v: nat

    ghost predicate Valid()
      reads this
    {
      Counts(bytectr, v) && StreamState(key, nonce, v, buf, pblk)
    }

    /** `crypto_aesctr_init2`: bytes 8 to 14 of the counter block are left as they were. */
    constructor Init2(k: Key, n: nat, junk: Block)
      requires n < TWO_64
      ensures Valid() && key == k && nonce == n && v == 0
    {
      key, nonce, bytectr, buf, v := k, n, 0, junk, 0;
      pblk := BeEnc(n, 8) + junk[8..15] + [255];
    }

    /** `crypto_aesctr_stream_cipherblock_generate` */
    method CipherblockGenerate(ghost w: nat)
      requires Valid() && v % 16 == 0 && ResetTo(v, w)
      modifies this`buf, this`pblk, this`v
      ensures v == w && v % 16 == 0 && Counts(bytectr, v)
      ensures pblk == CtrBlock(nonce, v / 16) && buf == key(pblk)
    {
      Generates(key, nonce, v, buf, pblk, bytectr, w);
      pblk := pblk[15 := Inc8(pblk[15])];
      if pblk[15] == 0 {
        pblk := pblk[..8] + BeEnc(bytectr / 16, 8);
      }
      buf := key(pblk);
      v := w;
    }

    /** `crypto_aesctr_stream_cipherblock_use`: use `n` more bytes of the current block. */
    method CipherblockUse(ghost j: Job, inb: array<byte>, a: nat, outb: array<byte>, o: nat, pos: nat, n: nat,
                          bytemod: nat)
      requires Counts(bytectr, v) && bytemod == v % 16 && 0 < bytemod + n <= 16
      requires pblk == CtrBlock(nonce, v / 16) && buf == key(pblk)
      requires Done(j, inb, a, outb, o, pos) && pos + n <= |j.data|
      requires StreamOf(j.ks, key, nonce) && Consecutive(j, pos, n, v)
      modifies outb, this`bytectr, this`v
      ensures v == old(v) + n && Runs(j)
      ensures Done(j, inb, a, outb, o, pos + n)
    {
      var ks := buf[bytemod..bytemod + n];
      NextKeyStream(j, key, nonce, pos, v, ks);
      Process(j, inb, a, outb, o, pos, ks);
      NextPosition(key, v, n, buf, pblk, nonce);
      ghost var b := bytectr;
      Advance(n);
      CountsMore(b, bytectr, v, n);
      v := v + n;
    }

    /** The addition to the 64-bit byte counter. */
    method Advance(n: nat)
      modifies this`bytectr
      ensures Counts(bytectr, old(bytectr) + n)
    {
      bytectr := Low64(bytectr + n);
    }

    ghost predicate Runs(j: Job)
      reads this
    {
      Valid() && StreamOf(j.ks, key, nonce)
    }

    /** `crypto_aesctr_stream_pre_wholeblock`: finish the block that is under way, as far as there is data. */
    method PreWholeblock(ghost j: Job, inb: array<byte>, a: nat, outb: array<byte>, o: nat, len: nat)
      returns (done: bool, pos: nat)
      requires len == |j.data| && Runs(j) && Done(j, inb, a, outb, o, 0)
      requires Consecutive(j, 0, if len < Left(v) then len else Left(v), v)
      modifies outb, this`bytectr, this`v
      ensures pos <= len && Runs(j) && Done(j, inb, a, outb, o, pos) && v == old(v) + pos
      ensures if done then pos == len <= Left(old(v)) else pos == Left(old(v)) && v % 16 == 0
    {
      SameByte(bytectr, v);
      var bytemod := bytectr % 16;
      if bytemod != 0 {
        assert pblk == CtrBlock(nonce, v / 16) && buf == key(pblk) by { assert About(COUNTING); }
        if bytemod + len <= 16 {
          CipherblockUse(j, inb, a, outb, o, 0, len, bytemod);
          return true, len;
        }
        CipherblockUse(j, inb, a, outb, o, 0, 16 - bytemod, bytemod);
        return false, 16 - bytemod;
      }
      return false, 0;
    }

    /** Generate a block of cipherstream and use the first `n` bytes of it. */
    method NextBlock(ghost j: Job, inb: array<byte>, a: nat, outb: array<byte>, o: nat, pos: nat, n: nat, ghost w: nat)
      requires Runs(j) && v % 16 == 0 && 0 < n <= 16 && pos + n <= |j.data|
      requires Done(j, inb, a, outb, o, pos) && ResetTo(v, w) && Consecutive(j, pos, n, w)
      modifies outb, this`bytectr, this`buf, this`pblk, this`v
      ensures Runs(j) && Done(j, inb, a, outb, o, pos + n) && v == w + n && (n == 16 ==> v % 16 == 0)
    {
      CipherblockGenerate(w);
      NextMultiple(w);
      CipherblockUse(j, inb, a, outb, o, pos, n, 0);
    }

    /** `crypto_aesctr_stream_post_wholeblock`: start one more block for the bytes that are left. */
    method PostWholeblock(ghost j: Job, inb: array<byte>, a: nat, outb: array<byte>, o: nat, len: nat, pos: nat,
                          ghost w: nat)
      requires len == |j.data| && pos <= len && len - pos < 16 && Runs(j) && v % 16 == 0
      requires Done(j, inb, a, outb, o, pos) && ResetTo(v, w) && Consecutive(j, pos, len - pos, w)
      modifies outb, this`bytectr, this`buf, this`pblk, this`v
      ensures Runs(j) && Done(j, inb, a, outb, o, len)
      ensures v == if pos < len then w + (len - pos) else old(v)
    {
      if len - pos > 0 {
        NextBlock(j, inb, a, outb, o, pos, len - pos, w);
      }
    }

    /** One whole block on the software path. */
    method SoftwareBlock(ghost j: Job, inb: array<byte>, a: nat, outb: array<byte>, o: nat, pos: nat, ghost v0: nat)
      requires pos + 16 <= |j.data| && Runs(j) && v % 16 == 0
      requires Done(j, inb, a, outb, o, pos) && SoftJob(j, v0, pos, v)
      modifies outb, this`bytectr, this`buf, this`pblk, this`v
      ensures Runs(j) && v % 16 == 0 && Done(j, inb, a, outb, o, pos + 16) && SoftJob(j, v0, pos + 16, v)
    {
      ghost var w := SoftGoesOn(j, v0, pos, v, 16);
      NextBlock(j, inb, a, outb, o, pos, 16, w);
    }

    /** The software path of `crypto_aesctr_stream`. */
    method SoftwareStream(ghost j: Job, inb: array<byte>, a: nat, outb: array<byte>, o: nat, len: nat)
      requires len == |j.data| && Runs(j) && Done(j, inb, a, outb, o, 0) && SoftJob(j, v, 0, v)
      modifies outb, this`bytectr, this`buf, this`pblk, this`v
      ensures Runs(j) && Done(j, inb, a, outb, o, len) && SoftJob(j, old(v), len, v)
    {
      SoftStarts(j, v, if len < Left(v) then len else Left(v));
      var done, pos := PreWholeblock(j, inb, a, outb, o, len);
      if done {
        return;
      }
      while len - pos >= 16
        invariant pos <= len && Runs(j) && v % 16 == 0
        invariant Done(j, inb, a, outb, o, pos) && SoftJob(j, old(v), pos, v)
      {
        SoftwareBlock(j, inb, a, outb, o, pos, old(v));
        pos := pos + 16;
      }
      ghost var w := SoftEnds(j, old(v), len, pos, v);
      PostWholeblock(j, inb, a, outb, o, len, pos, w);
    }

    /**
      `crypto_aesctr_aesni_stream_wholeblocks`: the counter is kept in a register, and the counter
      block is brought up to date only at the end.
     */
    method AesniWholeblocks(ghost j: Job, inb: array<byte>, a: nat, outb: array<byte>, o: nat, len: nat, pos0: nat,
                            ghost m: nat)
      returns (pos: nat)
      requires len == |j.data| && m == (len - pos0) / 16 && m > 0 && pos0 + 16 * m <= len && Runs(j) && v % 16 == 0
      requires Done(j, inb, a, outb, o, pos0) && Consecutive(j, pos0, 16 * m, bytectr)
      modifies outb, this`bytectr, this`pblk, this`v
      ensures pos == pos0 + 16 * m && Runs(j) && v == old(bytectr) + 16 * m && v % 16 == 0
      ensures Done(j, inb, a, outb, o, pos)
    {
      var numBlocks := (len - pos0) / 16;
      SameByte(bytectr, v);
      assert pblk[..8] == BeEnc(nonce, 8) by { assert About(COUNTING); }
      AfterWholeBlocks(key, nonce, bytectr, buf, pblk, numBlocks);
      var counterBe := AesniBlocks(j, inb, a, outb, o, pos0, key, pblk[..8], nonce, bytectr / 16, numBlocks);
      pos := pos0 + 16 * numBlocks;
      pblk := pblk[..8] + counterBe;
      v := bytectr + 16 * numBlocks;
      Advance(16 * numBlocks);
    }

    /** `crypto_aesctr_aesni_stream` */
    method AesniStream(ghost j: Job, inb: array<byte>, a: nat, outb: array<byte>, o: nat, len: nat)
      requires len == |j.data| && Runs(j) && Done(j, inb, a, outb, o, 0) && AesniJob(j, v, len)
      modifies outb, this`bytectr, this`buf, this`pblk, this`v
      ensures Runs(j) && Done(j, inb, a, outb, o, len)
      ensures v == Ends(j.at, old(v), len)
    {
      ghost var v0 := v;
      AesniStarts(j, v, len);
      var done, pos := PreWholeblock(j, inb, a, outb, o, len);
      if done {
        return;
      }
      ghost var b := bytectr;
      if len - pos >= 16 {
        AesniWhole(j, v0, len, b);
        pos := AesniWholeblocks(j, inb, a, outb, o, len, pos, Whole(v0, len));
      }
      AesniThere(v0, len, b, v);
      ghost var w := AesniEnds(j, v0, len, pos, v);
      PostWholeblock(j, inb, a, outb, o, len, pos, w);
    }

    /**
      `crypto_aesctr_stream`, for every request: the bytes are encrypted for the positions `at` that the path
      comes to, nothing else in the buffer changes, and the byte counter moves on.  The two paths can be
      mixed freely on one stream.  As long as it stays within 2^64 bytes this is counter mode.
     */
    method CryptoStream(inb: array<byte>, a: nat, outb: array<byte>, o: nat, len: nat, aesni: bool)
      returns (ghost ks: nat -> byte, ghost at: nat -> nat)
      requires Valid() && Compatible(inb, a, outb, o, len)
      modifies outb, this`bytectr, this`buf, this`pblk, this`v
      ensures Valid() && Follows(at, old(v), len, aesni) && v == Ends(at, old(v), len) && StreamOf(ks, key, nonce)
      ensures outb[..] == Splice(old(outb[..]), o, XorAt(ks, at, old(inb[a..a + len])))
      ensures Counts(bytectr, old(bytectr) + len)
      ensures old(v) + len <= TWO_64 ==> v == old(v) + len
      ensures old(v) + len <= TWO_64 ==>
        outb[..] == Splice(old(outb[..]), o, CtrXor(key, nonce, old(v), old(inb[a..a + len])))
    {
      at := PathOf(v, len, aesni);
      ks := TheStream(key, nonce);
      ghost var data := inb[a..a + len];
      ghost var limited := v + len <= TWO_64;
      assert limited ==> XorAt(ks, at, data) == CtrXor(key, nonce, v, data) && Ends(at, v, len) == v + len by {
        if limited {
          WithinLimit(key, nonce, v, data, len, aesni, ks, at);
        }
      }
      CryptoAt(inb, a, outb, o, len, aesni, ks, at);
    }

    method CryptoAt(inb: array<byte>, a: nat, outb: array<byte>, o: nat, len: nat, aesni: bool,
                    ghost ks: nat -> byte, ghost at: nat -> nat)
      requires Valid() && Compatible(inb, a, outb, o, len) && Follows(at, v, len, aesni) && StreamOf(ks, key, nonce)
      modifies outb, this`bytectr, this`buf, this`pblk, this`v
      ensures Valid() && v == Ends(at, old(v), len) && Counts(bytectr, old(bytectr) + len)
      ensures outb[..] == Splice(old(outb[..]), o, XorAt(ks, at, old(inb[a..a + len])))
    {
      ghost var j := Job(ks, at, inb[a..a + len], outb[..]);
      NothingDone(j, inb, a, outb, o);
      TakePath(j, inb, a, outb, o, len, aesni);
      AllDone(j, inb, a, outb, o);
      CountsBytes(old(v), len, aesni, at, v, old(bytectr), bytectr);
    }

    method TakePath(ghost j: Job, inb: array<byte>, a: nat, outb: array<byte>, o: nat, len: nat, aesni: bool)
      requires len == |j.data| && Runs(j) && Done(j, inb, a, outb, o, 0) && Follows(j.at, v, len, aesni)
      modifies outb, this`bytectr, this`buf, this`pblk, this`v
      ensures Runs(j) && Done(j, inb, a, outb, o, len)
      ensures v == Ends(j.at, old(v), len)
    {
      JobOf(j, v, len, aesni);
      if len >= 16 && aesni {
        AesniStream(j, inb, a, outb, o, len);
      } else {
        SoftwareStream(j, inb, a, outb, o, len);
        SoftDone(j, old(v), len, v);
      }
    }
  }

  /** As long as a request stays within 2^64 bytes, either path is counter mode. */
  lemma WithinLimit(key: Key, nonce: nat, v: nat, data: bytes, len: nat, aesni: bool, ks: nat -> byte, at: nat -> nat)
    requires len == |data| && v + len <= TWO_64 && Follows(at, v, len, aesni) && StreamOf(ks, key, nonce)
    ensures XorAt(ks, at, data) == CtrXor(key, nonce, v, data) && Ends(at, v, len) == v + len
  {
    assert About(PATHS) && About(KEY_STREAMS);
    forall k | 0 <= k < len
      ensures at(k) == From(v)(k)
    {
      BelowLimit(v, len, k, aesni);
    }
    XorAtSame(ks, at, From(v), data);
  }

  /** On a path, a request at position `v` is counter mode whatever the key is. */
  ghost predicate CounterMode(nonce: nat, v: nat, data: bytes, at: nat -> nat) {
    forall key :: XorAt(KeyStream(key, nonce), at, data) == CtrXor(key, nonce, v, data)
  }

  lemma OtherBlock(nonce: nat, m: nat, n: nat)
    requires m < TWO_64 && n < TWO_64 && m != n
    ensures CtrBlock(nonce, m) != CtrBlock(nonce, n)
  {
    assert Pow256(8) == TWO_64 by { assert Pow256(4) == TWO_32; }
    BeDecEnc(m, 8);
    BeDecEnc(n, 8);
    assert CtrBlock(nonce, m)[8..] == BeEnc(m, 8) && CtrBlock(nonce, n)[8..] == BeEnc(n, 8);
  }

  /** Where a byte goes to another block than its own, some key makes a difference. */
  lemma OtherByte(nonce: nat, v: nat, data: bytes, at: nat -> nat, k: nat)
    requires k < |data| && at(k) < 2 * TWO_64 && v + k < 2 * TWO_64 && at(k) / 16 != (v + k) / 16
    ensures !CounterMode(nonce, v, data, at)
  {
    var key := Telling(CtrBlock(nonce, at(k) / 16));
    TellsApart(nonce, at(k), v + k);
    MakesDifference(KeyStream(key, nonce), at, From(v), data, k);
  }

  /** A key that tells one block from all others. */
  function Telling(other: Block): Key {
    (b: Block) => if b == other then seq(16, _ => 0) else seq(16, _ => 1)
  }

  lemma TellsApart(nonce: nat, m: nat, n: nat)
    requires m < 2 * TWO_64 && n < 2 * TWO_64 && m / 16 != n / 16
    ensures var key := Telling(CtrBlock(nonce, m / 16));
      KeyStreamByte(key, nonce, m) == 0 && KeyStreamByte(key, nonce, n) == 1
  {
    OtherBlock(nonce, m / 16, n / 16);
  }

  lemma MakesDifference(ks: nat -> byte, at: nat -> nat, at': nat -> nat, data: bytes, k: nat)
    requires k < |data| && ks(at(k)) != ks(at'(k))
    ensures XorAt(ks, at, data) != XorAt(ks, at', data)
  {
    XorAtByte(ks, at, data, k);
    XorAtByte(ks, at', data, k);
    Xor8Differs(data[k], ks(at(k)), ks(at'(k)));
  }

  lemma Xor8Differs(b: byte, x: byte, y: byte)
    requires x != y
    ensures Xor8(b, x) != Xor8(b, y)
  {
    Xor8Laws(x, b);
    Xor8Laws(y, b);
  }

  /** The software path is counter mode exactly within 2^64 bytes; byte 2^64 would be encrypted like byte 0. */
  lemma SoftwareExactly(nonce: nat, v: nat, data: bytes)
    requires v < TWO_64 && |data| < TWO_64
    ensures CounterMode(nonce, v, data, PathAt(v, |data|, false)) <==> v + |data| <= TWO_64
  {
    if v + |data| <= TWO_64 {
      forall key: Key
        ensures XorAt(KeyStream(key, nonce), PathAt(v, |data|, false), data) == CtrXor(key, nonce, v, data)
      {
        WithinLimit(key, nonce, v, data, |data|, false, KeyStream(key, nonce), PathAt(v, |data|, false));
      }
    } else {
      SoftRepeats(v, TWO_64 - v);
      OtherByte(nonce, v, data, PathAt(v, |data|, false), TWO_64 - v);
    }
  }

  /**
    The AES-NI path goes on past 2^64 bytes, unless whole blocks start or bytes are left over exactly
    where the byte counter is encoded anew.
   */
  ghost predicate GoesPast(v: nat, len: nat) {
    var w := v + Left(v) + 16 * Whole(v, len);
    v + Left(v) < TWO_64 && Whole(v, len) > 0 && (w == v + len || (w / 16) % 256 != 0)
  }

  lemma AesniExactly(nonce: nat, v: nat, data: bytes)
    requires v < TWO_64 && 16 <= |data| < TWO_64
    ensures CounterMode(nonce, v, data, PathAt(v, |data|, true)) <==> v + |data| <= TWO_64 || GoesPast(v, |data|)
  {
    var len := |data|;
    if v + len <= TWO_64 || GoesPast(v, len) {
      forall k | 0 <= k < len
        ensures PathAt(v, len, true)(k) == v + k
      {
        if v + len <= TWO_64 {
          AesniBelow(v, len, k);
        } else {
          AesniGoesOn(v, len, k);
        }
      }
      forall key: Key
        ensures XorAt(KeyStream(key, nonce), PathAt(v, len, true), data) == CtrXor(key, nonce, v, data)
      {
        XorAtSame(KeyStream(key, nonce), PathAt(v, len, true), From(v), data);
      }
    } else {
      var k := AesniFails(v, len);
      OtherByte(nonce, v, data, PathAt(v, len, true), k);
    }
  }

  lemma AesniGoesOn(v: nat, len: nat, k: nat)
    requires k < len && GoesPast(v, len)
    ensures AesniAt(v, len, k) == v + k
  {
    var p, m := Left(v), Whole(v, len);
    assert Low64(v + p) == v + p;
    if k >= p + 16 * m {
      TailGoesOn(v + p + 16 * m, k - (p + 16 * m));
    }
  }

  lemma TailGoesOn(w: nat, i: nat)
    requires i < 16 && w % 16 == 0 && (w / 16) % 256 != 0
    ensures SoftAt(w, i) == w + i
  {
    SoftWithin(w, i);
  }

  lemma AesniFails(v: nat, len: nat) returns (k: nat)
    requires v < TWO_64 && 16 <= len < TWO_64 && v + len > TWO_64 && !GoesPast(v, len)
    ensures k < len && v + k >= TWO_64 && AesniAt(v, len, k) == v + k - TWO_64
  {
    var p, m := Left(v), Whole(v, len);
    if v + p >= TWO_64 {
      k := p;
      FailsAtOnce(v, len);
    } else {
      k := p + 16 * m;
      Crosses(v + p, m, len - p);
      SmallCount(v + p);
      ResetBeyond(v + p + 16 * m);
    }
  }

  /** The whole blocks would start at 2^64. */
  lemma FailsAtOnce(v: nat, len: nat)
    requires v < TWO_64 && 16 <= len && v + Left(v) >= TWO_64
    ensures v + Left(v) == TWO_64 && AesniAt(v, len, Left(v)) == 0
  {
    ResetBeyond(TWO_64);
  }

  /** Blocks from `c` on and what is left after them go past 2^64: then the blocks do. */
  lemma Crosses(c: nat, m: nat, left: nat)
    requires c % 16 == 0 && c < TWO_64 && c + left > TWO_64 && m == left / 16
    ensures m > 0 && c + 16 * m >= TWO_64 && (c + 16 * m) % 16 == 0
  {
  }

  lemma ResetBeyond(w: nat)
    requires TWO_64 <= w < 2 * TWO_64 && w % 16 == 0 && (w / 16) % 256 == 0
    ensures SoftAt(w, 0) == w - TWO_64 && Low64(w) == w - TWO_64
  {
  }

  /** Both paths together are counter mode exactly within 2^64 bytes. */
  lemma BothExactly(nonce: nat, v: nat, data: bytes)
    requires v < TWO_64 && 16 <= |data| < TWO_64
    ensures v + |data| <= TWO_64 <==>
      CounterMode(nonce, v, data, PathAt(v, |data|, false)) && CounterMode(nonce, v, data, PathAt(v, |data|, true))
  {
    SoftwareExactly(nonce, v, data);
    AesniExactly(nonce, v, data);
  }

  /** So the two paths part: two blocks at position 2^64 - 16 are counter mode on one and not on the other. */
  lemma PathsPart(nonce: nat, data: bytes)
    requires |data| == 32
    ensures CounterMode(nonce, TWO_64 - 16, data, PathAt(TWO_64 - 16, 32, true))
    ensures !CounterMode(nonce, TWO_64 - 16, data, PathAt(TWO_64 - 16, 32, false))
  {
    var v := TWO_64 - 16;
    assert Left(v) == 0 && Whole(v, 32) == 2 && GoesPast(v, 32);
    AesniExactly(nonce, TWO_64 - 16, data);
    SoftwareExactly(nonce, TWO_64 - 16, data);
  }

  lemma SoftStarts(j: Job, v: nat, n: nat)
    requires n <= Left(v) && SoftJob(j, v, 0, v)
    ensures Consecutive(j, 0, n, v) && SoftJob(j, v, n, v + n)
  {
    assert About(SOFT_PATH);
    forall k | 0 <= k < n
      ensures j.at(k) == v + k
    {
      SoftWithin(v, k);
    }
    assert n > 0 ==> j.at(n - 1) == v + (n - 1);
  }

  lemma SoftGoesOn(j: Job, v0: nat, pos: nat, v: nat, n: nat) returns (w: nat)
    requires SoftJob(j, v0, pos, v) && v % 16 == 0 && 0 < n <= 16
    ensures ResetTo(v, w) && Consecutive(j, pos, n, w) && SoftJob(j, v0, pos + n, w + n)
  {
    w := Reset(v);
    assert About(SOFT_PATH);
    forall k | pos <= k < pos + n
      ensures j.at(k) == w + (k - pos)
    {
      SoftFrom(v0, pos, v, k - pos);
      SoftWithin(v, k - pos);
    }
    assert j.at(pos + (n - 1)) == w + (n - 1);
  }

  lemma SoftEnds(j: Job, v0: nat, len: nat, pos: nat, v: nat) returns (w: nat)
    requires SoftJob(j, v0, pos, v) && v % 16 == 0 && pos <= len < pos + 16
    ensures ResetTo(v, w) && Consecutive(j, pos, len - pos, w)
    ensures SoftJob(j, v0, len, if pos < len then w + (len - pos) else v)
  {
    w := Reset(v);
    if pos < len {
      w := SoftGoesOn(j, v0, pos, v, len - pos);
    }
  }

  lemma AesniStarts(j: Job, v: nat, len: nat)
    requires AesniJob(j, v, len)
    ensures Consecutive(j, 0, Left(v), v)
  {
    assert About(AESNI_PATH);
  }

  lemma AesniWhole(j: Job, v0: nat, len: nat, b: nat)
    requires AesniJob(j, v0, len) && Whole(v0, len) > 0 && Counts(b, v0 + Left(v0))
    ensures Consecutive(j, Left(v0), 16 * Whole(v0, len), b)
  {
    assert About(AESNI_PATH) && About(BYTE_COUNT);
  }

  /** After its whole blocks, if any, the AES-NI path stands at `v`. */
  ghost predicate AfterWhole(v0: nat, len: nat, v: nat) {
    forall x :: x == WHOLE_BLOCKS && About(x) ==>
      v == if Whole(v0, len) == 0 then v0 + Left(v0) else Low64(v0 + Left(v0)) + 16 * Whole(v0, len)
  }

  lemma AesniThere(v0: nat, len: nat, b: nat, v: nat)
    requires Counts(b, v0 + Left(v0)) && v == if Whole(v0, len) == 0 then v0 + Left(v0) else b + 16 * Whole(v0, len)
    ensures AfterWhole(v0, len, v)
  {
    assert About(BYTE_COUNT);
  }

  /** From there it goes on like the software path. */
  lemma AesniEnds(j: Job, v0: nat, len: nat, pos: nat, v: nat) returns (w: nat)
    requires AesniJob(j, v0, len) && AfterWhole(v0, len, v) && pos == Left(v0) + 16 * Whole(v0, len) <= len
    requires v % 16 == 0
    ensures len - pos < 16 && ResetTo(v, w) && Consecutive(j, pos, len - pos, w)
    ensures if pos == 0 then v == v0 else j.at(pos - 1) + 1 == v
  {
    w := Reset(v);
    assert About(AESNI_PATH) && About(WHOLE_BLOCKS);
    forall k | pos <= k < len
      ensures j.at(k) == w + (k - pos)
    {
      SoftWithin(v, k - pos);
    }
  }

  /** `crypto_aesctr_buf` */
  method CryptoBuf(key: Key, nonce: nat, inb: array<byte>, a: nat, outb: array<byte>, o: nat, len: nat, aesni: bool,
                   junk: Block)
    requires nonce < TWO_64 && len < TWO_64 && Compatible(inb, a, outb, o, len)
    modifies outb
    ensures outb[..] == Splice(old(outb[..]), o, CtrXor(key, nonce, 0, old(inb[a..a + len])))
  {
    var stream := new Stream.Init2(key, nonce, junk);
    ghost var _, _ := stream.CryptoStream(inb, a, outb, o, len, aesni);
  }

  /** Using some bytes of the block that was generated leaves the stream in order. */
  lemma NextPosition(key: Key, c: nat, n: nat, buf: Block, pblk: Block, nonce: nat)
    requires 0 < c % 16 + n <= 16 && pblk == CtrBlock(nonce, c / 16) && buf == key(pblk)
    ensures StreamState(key, nonce, c + n, buf, pblk)
  {
    if c % 16 + n == 16 {
      assert (c + n) / 16 == c / 16 + 1;
      BlockUsedUp(pblk, nonce, c / 16);
    } else {
      assert (c + n) / 16 == c / 16;
    }
  }
}
