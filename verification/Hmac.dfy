/**
  HMAC-SHA256 and PBKDF2-HMAC-SHA256 (`libcperciva/alg/sha256.c`): the incremental forms on saved and copied
  contexts compute what section 2 of RFC 2104 and section 5.2 of RFC 8018 define, for any hash function that the
  hash contexts compute.
 */
module Hmac {
  import opened Bytes
  import opened Sha256Spec
  import opened Sha256

  /** The key, hashed if it is longer than a block, and padded with zeros to a block. */
  function BlockKey(hash: bytes -> Mac, key: bytes): (r: MBlock) {
    var k := if |key| > 64 then hash(key) else key;
    k + Zeros(64 - |k|)
  }

  function Fill(x: byte): (r: MBlock) {
    seq(64, _ => x)
  }

  const IPAD: byte := 0x36
  const OPAD: byte := 0x5c

  /** HMAC as RFC 2104 defines it. */
  function Hmac(hash: bytes -> Mac, key: bytes, text: bytes): Mac
  {
    var k := BlockKey(hash, key);
    hash(Xor(k, Fill(OPAD)) + hash(Xor(k, Fill(IPAD)) + text))
  }

  /** HMAC under one key, as a pseudorandom function. */
  function Prf(hash: bytes -> Mac, key: bytes): bytes -> Mac {
    text => Hmac(hash, key, text)
  }

  /** The U_j of RFC 8018, for j = 1, 2, ...; U_0 is taken to be U_1. */
  function U(prf: bytes -> Mac, salt: bytes, i: nat, j: nat): Mac {
    if j <= 1 then prf(salt + BeEnc(i, 4)) else prf(U(prf, salt, i, j - 1))
  }

  /** The function F of RFC 8018: the exclusive or of the first `c` iterates, and of one if `c` is zero. */
  function F(prf: bytes -> Mac, salt: bytes, c: nat, i: nat): Mac {
    if c <= 1 then U(prf, salt, i, 1) else Xor(F(prf, salt, c - 1, i), U(prf, salt, i, c))
  }

  /** The blocks T_1, ..., T_n put together. */
  function Blocks(prf: bytes -> Mac, salt: bytes, c: nat, n: nat): (r: bytes)
    ensures |r| == 32 * n
  {
    if n == 0 then [] else Blocks(prf, salt, c, n - 1) + F(prf, salt, c, n)
  }

  /** The derived key: as many blocks as are needed, cut to the length asked for. */
  function DerivedKey(prf: bytes -> Mac, salt: bytes, c: nat, dkLen: nat): (r: bytes)
    ensures |r| == dkLen
  {
    Blocks(prf, salt, c, (dkLen + 31) / 32)[..dkLen]
  }

  /** A constant block into which the bytes of a short key are mixed is the padded key mixed with that block. */
  method PadKey(key: bytes, x: byte) returns (pad: MBlock)
    requires |key| <= 64
    ensures pad == Xor(key + Zeros(64 - |key|), Fill(x))
  {
    pad := Fill(x);
    for i := 0 to |key|
      invariant forall k :: 0 <= k < 64 ==> pad[k] == if k < i then Xor8(x, key[k]) else x
    {
      pad := pad[i := Xor8(pad[i], key[i])];
    }
    forall k | 0 <= k < 64
      ensures pad[k] == Xor(key + Zeros(64 - |key|), Fill(x))[k]
    {
      Xor8Laws(x, (key + Zeros(64 - |key|))[k]);
    }
  }

  /** A key longer than a block is replaced by its hash. */
  method ShortKey(ghost f: Compression, key: bytes, junk: MBlock, ghost hash: bytes -> Mac) returns (k: bytes)
    requires Computes(hash, f) && |key| < LIMIT
    ensures |k| <= 64 && BlockKey(hash, key) == k + Zeros(64 - |k|)
  {
    k := key;
    if |key| > 64 {
      assert Unfolded(key);
      var ctx := new Ctx.Init(f, junk);
      assert [] + key == key;
      ctx.Update(key);
      k := ctx.Final();
    }
  }

  /** A hash context that has been fed the key mixed with a constant block. */
  method Keyed(ghost f: Compression, k: bytes, x: byte, junk: MBlock) returns (ctx: Ctx)
    requires |k| <= 64 && Standard(f)
    ensures fresh(ctx) && ctx.Valid() && ctx.f == f && ctx.msg == Xor(k + Zeros(64 - |k|), Fill(x))
  {
    ctx := new Ctx.Init(f, junk);
    var pad := PadKey(k, x);
    ctx.Update(pad);
  }

  class HmacCtx {
    ghost const f: Compression
    ghost const hash: bytes -> Mac
    var ictx: Ctx
    var octx: Ctx
    ghost var key: bytes
    ghost var text: bytes

    ghost predicate Valid()
      reads this, ictx, octx
    {
      && Computes(hash, f) && ictx != octx && ictx.Valid() && octx.Valid() && ictx.f == f && octx.f == f
      && ictx.msg == Xor(BlockKey(hash, key), Fill(IPAD)) + text
      && octx.msg == Xor(BlockKey(hash, key), Fill(OPAD))
    }

    /** `HMAC_SHA256_Init` */
    constructor Init(ghost f: Compression, key: bytes, junk: MBlock, ghost hash: bytes -> Mac)
      requires Computes(hash, f) && |key| < LIMIT
      ensures Valid() && fresh(ictx) && fresh(octx) && this.f == f && this.hash == hash && this.key == key && text == []
    {
      var k := ShortKey(f, key, junk, hash);
      var i := Keyed(f, k, IPAD, junk);
      var o := Keyed(f, k, OPAD, junk);
      assert i.msg == i.msg + [];
      this.f, this.hash, ictx, octx, this.key, text := f, hash, i, o, key, [];
    }

    /** A copy of the structure with both hash contexts in it. */
    constructor Copy(other: HmacCtx)
      requires other.Valid()
      ensures Valid() && fresh(ictx) && fresh(octx) && f == other.f && hash == other.hash && key == other.key
      ensures text == other.text
    {
      var i := new Ctx.Copy(other.ictx);
      var o := new Ctx.Copy(other.octx);
      f, hash, ictx, octx, key, text := other.f, other.hash, i, o, other.key, other.text;
    }

    /** `HMAC_SHA256_Update` */
    method Update(data: bytes)
      requires Valid() && 64 + |text| + |data| < LIMIT
      modifies this`text, ictx
      ensures Valid() && text == old(text) + data
    {
      ictx.Update(data);
      text := text + data;
      Append(Xor(BlockKey(hash, key), Fill(IPAD)), old(text), data);
    }

    /** `HMAC_SHA256_Final` */
    method Final() returns (digest: bytes)
      requires Valid()
      modifies ictx, octx
      ensures digest == Hmac(hash, key, text)
    {
      assert Unfolded(ictx.msg);
      var ihash := ictx.Final();
      octx.Update(ihash);
      assert Unfolded(octx.msg);
      digest := octx.Final();
    }
  }

  lemma Append(a: bytes, b: bytes, c: bytes)
    ensures (a + b) + c == a + (b + c)
  {
  }

  /** `HMAC_SHA256_Buf` */
  method HmacBuf(ghost f: Compression, key: bytes, text: bytes, junk: MBlock, ghost hash: bytes -> Mac)
    returns (digest: bytes)
    requires Computes(hash, f) && |key| < LIMIT && 64 + |text| < LIMIT
    ensures digest == Hmac(hash, key, text)
  {
    var ctx := new HmacCtx.Init(f, key, junk, hash);
    ctx.Update(text);
    assert [] + text == text;
    digest := ctx.Final();
  }

  /** `prf` is HMAC under a key. */
  ghost predicate Keys(prf: bytes -> Mac, hash: bytes -> Mac, key: bytes) {
    forall text :: Unfolded(text) ==> prf(text) == Hmac(hash, key, text)
  }

  /** A copy of a context is fed more data and finished; the context itself is left as it was. */
  method After(saved: HmacCtx, data: bytes, ghost prf: bytes -> Mac) returns (digest: Mac)
    requires saved.Valid() && Keys(prf, saved.hash, saved.key) && 64 + |saved.text| + |data| < LIMIT
    ensures digest == prf(saved.text + data)
  {
    var ctx := new HmacCtx.Copy(saved);
    ctx.Update(data);
    digest := ctx.Final();
    assert Unfolded(saved.text + data);
  }

  /** One step of the iteration, of which `us` are the iterates and `ts` what they have been mixed into. */
  ghost predicate Next(prf: bytes -> Mac, us: nat -> Mac, ts: nat -> Mac, j: nat) {
    us(j + 1) == prf([] + us(j)) && ts(j + 1) == Xor(ts(j), us(j + 1))
  }

  /** Compute the next iterate and mix it into the block. */
  method Iterate(ph: HmacCtx, u: Mac, t: Mac, ghost prf: bytes -> Mac, ghost us: nat -> Mac, ghost ts: nat -> Mac,
                 ghost i: nat)
    returns (u': Mac, t': Mac)
    requires ph.Valid() && Keys(prf, ph.hash, ph.key) && ph.text == []
    requires u == us(i) && t == ts(i) && Next(prf, us, ts, i)
    ensures u' == us(i + 1) && t' == ts(i + 1)
  {
    u' := After(ph, u, prf);
    t' := Xor(t, u');
  }

  /** The loop over the iterates of one block, with its 64-bit counter. */
  method Iterated(ph: HmacCtx, first: Mac, c: nat, ghost prf: bytes -> Mac, ghost us: nat -> Mac, ghost ts: nat -> Mac)
    returns (t: Mac)
    requires ph.Valid() && Keys(prf, ph.hash, ph.key) && ph.text == []
    requires us(1) == ts(1) == first && forall j: nat :: j >= 1 ==> Next(prf, us, ts, j)
    requires c < SIZE_MAX
    ensures t == if c <= 1 then ts(1) else ts(c)
  {
    var u := first;
    t := u;
    var j := 2;
    while j <= c
      invariant 2 <= j && (j <= c + 1 || j == 2) && u == us(j - 1) && t == ts(j - 1)
    {
      ghost var i: nat := j - 1;
      u, t := Iterate(ph, u, t, prf, us, ts, i);
      j := Inc64(j);
      assert j - 1 == i + 1;
    }
  }

  /** The iterates of RFC 8018, and their exclusive or, are such sequences. */
  lemma Iterates(prf: bytes -> Mac, salt: bytes, i: nat, c: nat) returns (us: nat -> Mac, ts: nat -> Mac)
    ensures us(1) == ts(1) == prf(salt + BeEnc(i, 4)) && forall j: nat :: j >= 1 ==> Next(prf, us, ts, j)
    ensures (if c <= 1 then ts(1) else ts(c)) == F(prf, salt, c, i)
  {
    us, ts := (j: nat) => U(prf, salt, i, j), (j: nat) => F(prf, salt, j, i);
    forall j: nat | j >= 1
      ensures Next(prf, us, ts, j)
    {
      assert [] + us(j) == us(j);
    }
  }

  /** One block of `PBKDF2_SHA256` from the saved contexts, which are left as they were. */
  method DeriveBlock(ph: HmacCtx, psh: HmacCtx, c: nat, i: nat, ghost prf: bytes -> Mac) returns (t: Mac)
    requires ph.Valid() && Keys(prf, ph.hash, ph.key) && ph.text == []
    requires psh.Valid() && Keys(prf, psh.hash, psh.key) && 64 + |psh.text| + 4 < LIMIT
    requires c < SIZE_MAX
    ensures t == F(prf, psh.text, c, i)
  {
    var u := After(psh, Be32Enc(i), prf);
    ghost var us, ts := Iterates(prf, psh.text, i, c);
    t := Iterated(ph, u, c, prf, us, ts);
  }

  function Cut(i: nat, dkLen: nat): nat {
    if 32 * i <= dkLen then 32 * i else dkLen
  }

  lemma OneMoreBlock(blocks: bytes, t: Mac, i: nat, dkLen: nat, clen: nat)
    requires |blocks| == 32 * i < dkLen && clen == (if dkLen - 32 * i > 32 then 32 else dkLen - 32 * i)
    ensures blocks[..Cut(i, dkLen)] + t[..clen] == (blocks + t)[..Cut(i + 1, dkLen)]
  {
  }

  /** The loop of `PBKDF2_SHA256` over the blocks. */
  method Derive(ph: HmacCtx, psh: HmacCtx, c: nat, dkLen: nat, ghost prf: bytes -> Mac) returns (buf: bytes)
    requires ph.Valid() && Keys(prf, ph.hash, ph.key) && ph.text == []
    requires psh.Valid() && Keys(prf, psh.hash, psh.key) && 64 + |psh.text| + 4 < LIMIT
    requires c < SIZE_MAX || dkLen == 0
    ensures buf == DerivedKey(prf, psh.text, c, dkLen)
  {
    buf := [];
    var i := 0;
    while i * 32 < dkLen
      invariant i <= (dkLen + 31) / 32
      invariant buf == Blocks(prf, psh.text, c, i)[..Cut(i, dkLen)]
    {
      buf := AppendBlock(ph, psh, c, dkLen, prf, i, buf);
      i := i + 1;
    }
    assert i == (dkLen + 31) / 32;
  }

  /** Derive block `i` and copy as much of it as is needed. */
  method AppendBlock(ph: HmacCtx, psh: HmacCtx, c: nat, dkLen: nat, ghost prf: bytes -> Mac, i: nat, buf: bytes)
    returns (r: bytes)
    requires ph.Valid() && Keys(prf, ph.hash, ph.key) && ph.text == []
    requires psh.Valid() && Keys(prf, psh.hash, psh.key) && 64 + |psh.text| + 4 < LIMIT
    requires c < SIZE_MAX && i * 32 < dkLen && buf == Blocks(prf, psh.text, c, i)[..Cut(i, dkLen)]
    ensures r == Blocks(prf, psh.text, c, i + 1)[..Cut(i + 1, dkLen)]
  {
    var t := DeriveBlock(ph, psh, c, i + 1, prf);
    var clen := dkLen - i * 32;
    if clen > 32 {
      clen := 32;
    }
    ghost var blocks := Blocks(prf, psh.text, c, i);
    assert Blocks(prf, psh.text, c, i + 1) == blocks + t;
    OneMoreBlock(blocks, t, i, dkLen, clen);
    r := buf + t[..clen];
  }

  /** Where the loops of `PBKDF2_SHA256` are: before block `i`, in its inner loop with counter `j`, or past them. */
  datatype Place = Outer(i: nat) | Inner(i: nat, j: nat) | Finished

  function NextPlace(c: nat, dkLen: nat, p: Place): Place {
    match p
    case Outer(i) => if i * 32 < dkLen then Inner(i, 2) else Finished
    case Inner(i, j) => if j <= c then Inner(i, Inc64(j)) else Outer(i + 1)
    case Finished => Finished
  }

  function PlaceAfter(c: nat, dkLen: nat, p: Place, k: nat): Place
    decreases k
  {
    if k == 0 then p else PlaceAfter(c, dkLen, NextPlace(c, dkLen, p), k - 1)
  }

  ghost predicate Reaches(c: nat, dkLen: nat, p: Place, q: Place) {
    exists k: nat :: PlaceAfter(c, dkLen, p, k) == q
  }

  lemma ReachesNext(c: nat, dkLen: nat, p: Place, q: Place)
    requires Reaches(c, dkLen, NextPlace(c, dkLen, p), q)
    ensures Reaches(c, dkLen, p, q)
  {
    var k: nat :| PlaceAfter(c, dkLen, NextPlace(c, dkLen, p), k) == q;
    assert PlaceAfter(c, dkLen, p, k + 1) == q;
  }

  /** Below the largest count, the counter passes it and the block is left. */
  lemma {:induction false} LeavesBlock(c: nat, dkLen: nat, i: nat, j: nat, q: Place)
    requires c < SIZE_MAX && Reaches(c, dkLen, Outer(i + 1), q)
    ensures Reaches(c, dkLen, Inner(i, j), q)
    decreases c + 1 - j
  {
    if j <= c {
      LeavesBlock(c, dkLen, i, j + 1, q);
    }
    ReachesNext(c, dkLen, Inner(i, j), q);
  }

  lemma {:induction false} Finishes(c: nat, dkLen: nat, i: nat)
    requires c < SIZE_MAX
    ensures Reaches(c, dkLen, Outer(i), Finished)
    decreases dkLen - 32 * i
  {
    if i * 32 < dkLen {
      Finishes(c, dkLen, i + 1);
      LeavesBlock(c, dkLen, i, 2, Finished);
    } else {
      assert PlaceAfter(c, dkLen, Finished, 0) == Finished;
    }
    ReachesNext(c, dkLen, Outer(i), Finished);
  }

  /** With the largest count, no 64-bit counter passes it: it wraps, and the block is never left. */
  lemma {:induction false} NeverLeavesBlock(dkLen: nat, i: nat, j: nat, k: nat)
    requires j <= SIZE_MAX
    ensures PlaceAfter(SIZE_MAX, dkLen, Inner(i, j), k).Inner?
    decreases k
  {
    if k > 0 {
      NeverLeavesBlock(dkLen, i, Inc64(j), k - 1);
    }
  }

  /** The loops end exactly if the count is not the largest one or there is nothing to derive. */
  lemma EndsExactly(c: nat, dkLen: nat)
    requires c <= SIZE_MAX
    ensures Reaches(c, dkLen, Outer(0), Finished) <==> c < SIZE_MAX || dkLen == 0
  {
    if c < SIZE_MAX {
      Finishes(c, dkLen, 0);
    } else if dkLen == 0 {
      assert PlaceAfter(c, dkLen, Outer(0), 1) == Finished;
    } else {
      forall k: nat
        ensures PlaceAfter(c, dkLen, Outer(0), k) != Finished
      {
        if k > 0 {
          NeverLeavesBlock(dkLen, 0, 2, k - 1);
        }
      }
    }
  }

  /**
    `PBKDF2_SHA256`, whenever its loops end.  An iteration count of zero is treated as one.
   */
  method Pbkdf2(ghost f: Compression, passwd: bytes, salt: bytes, c: nat, dkLen: nat, junk: MBlock,
                ghost hash: bytes -> Mac) returns (buf: bytes)
    requires Computes(hash, f) && |passwd| < LIMIT && 64 + |salt| + 4 < LIMIT
    requires (c < SIZE_MAX || (c == SIZE_MAX && dkLen == 0)) && dkLen <= 32 * (TWO_32 - 1)
    ensures buf == DerivedKey(Prf(hash, passwd), salt, c, dkLen)
  {
    var ph := new HmacCtx.Init(f, passwd, junk, hash);
    var psh := new HmacCtx.Copy(ph);
    psh.Update(salt);
    assert [] + salt == salt;
    buf := Derive(ph, psh, c, dkLen, Prf(hash, passwd));
  }
}
