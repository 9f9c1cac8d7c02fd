/**
  Making and opening packets in place (`lib/proto/proto_crypt.c`), with AES in counter mode and HMAC-SHA256.
 */
module ProtoCrypt {
  import opened Bytes
  import opened Unfolding
  import opened Sha256Spec
  import opened AesCtr
  import opened Hmac
  import opened Packets

  /** `c` is AES in counter mode under a key, and HMAC under another. */
  ghost predicate Realises(c: Cipher, aes: Key, hash: bytes -> Mac, key: bytes) {
    && Keys(c.mac, hash, key)
    && forall n, b: Body :: Unfolded(b) ==> c.ctr(n, b) == CtrXor(aes, n, 0, b)
  }

  /** Such a cipher is its own inverse. */
  lemma CounterModeInvolutive(c: Cipher, aes: Key, hash: bytes -> Mac, key: bytes)
    requires Realises(c, aes, hash, key)
    ensures Involutive(c)
  {
    forall n, b: Body
      ensures c.ctr(n, c.ctr(n, b)) == b
    {
      assert Unfolded(b) && Unfolded(c.ctr(n, b));
      CtrXorInvolutive(aes, n, 0, b);
    }
  }

  /** Copy `data` into a buffer. */
  method Put(a: array<byte>, o: nat, data: bytes)
    requires o + |data| <= a.Length
    modifies a
    ensures a[o..o + |data|] == data
    ensures forall k :: 0 <= k < a.Length && !(o <= k < o + |data|) ==> a[k] == old(a[k])
  {
    for i := 0 to |data|
      invariant forall k :: o <= k < o + i ==> a[k] == data[k - o]
      invariant forall k :: 0 <= k < a.Length && !(o <= k < o + i) ==> a[k] == old(a[k])
    {
      a[o + i] := data[i];
    }
  }

  /** The beginning of `proto_crypt_enc`: the data, zeros and the length. */
  method LayOut(data: bytes, obuf: array<byte>, o: nat)
    requires o + BSZ <= obuf.Length && |data| <= MAXDSZ
    modifies obuf
    ensures obuf[o..o + BSZ] == Plain(data)
    ensures forall k :: 0 <= k < obuf.Length && !(o <= k < o + BSZ) ==> obuf[k] == old(obuf[k])
  {
    Put(obuf, o, data);
    Put(obuf, o + |data|, Zeros(MAXDSZ - |data|));
    Put(obuf, o + MAXDSZ, Be32Enc(|data|));
  }

  class ProtoKeys {
    const aes: Key
    const init: HmacCtx
    var pnum: nat
    ghost const c: Cipher

    ghost predicate Valid()
      reads this, init, init.ictx, init.octx
    {
      Ready() && pnum < TWO_64
    }

    /** The keys, which do not change. */
    ghost predicate Ready()
      reads init, init.ictx, init.octx
    {
      forall x :: x == KEY_MATERIAL && About(x) ==>
        init.Valid() && init.text == [] && Realises(c, aes, init.hash, init.key)
    }

    /** The key structure, for an expanded AES key. */
    constructor Fill(aes: Key, macKey: bytes, ghost f: Compression, junk: MBlock, ghost hash: bytes -> Mac,
                     ghost c: Cipher)
      requires |macKey| == 32 && Computes(hash, f) && Realises(c, aes, hash, macKey)
      ensures Valid() && fresh(init) && fresh(init.ictx) && fresh(init.octx) && this.c == c && pnum == 0
    {
      this.aes := aes;
      var ctx := new HmacCtx.Init(f, macKey, junk, hash);
      init, pnum, this.c := ctx, 0, c;
    }

    /**
      `mkkeypair`: the first half of the key material is the AES key, which is expanded, the second the HMAC
      key; null if there is no memory for the structure (`mem`) or the AES key cannot be expanded.
     */
    static method MkKeyPair(kbuf: bytes, mem: bool, expand: bytes -> Option<Key>, ghost f: Compression, junk: MBlock,
                            ghost hash: bytes -> Mac, ghost c: Cipher) returns (k: ProtoKeys?)
      requires |kbuf| == 64 && Computes(hash, f)
      requires expand(kbuf[..32]).Some? ==> Realises(c, expand(kbuf[..32]).value, hash, kbuf[32..])
      ensures k == null <==> !mem || expand(kbuf[..32]).None?
      ensures k != null ==> k.Valid() && fresh(k) && fresh(k.init) && fresh(k.init.ictx) && fresh(k.init.octx)
      ensures k != null ==> k.c == c && k.pnum == 0
    {
      if !mem {
        return null;
      }
      var aes := expand(kbuf[..32]);
      if aes.None? {
        return null;
      }
      k := new ProtoKeys.Fill(aes.value, kbuf[32..], f, junk, hash, c);
    }

    /** The MAC of a body and the packet number, from a copy of the initial context. */
    method MakeTag(body: Body) returns (tag: Mac)
      requires Valid()
      ensures tag == Tag(c, pnum, body)
    {
      assert About(KEY_MATERIAL);
      var ctx := new HmacCtx.Copy(init);
      ctx.Update(body);
      ctx.Update(BeEnc(pnum, 8));
      tag := ctx.Final();
      assert ([] + body) + BeEnc(pnum, 8) == body + BeEnc(pnum, 8);
      assert Unfolded(body + BeEnc(pnum, 8));
    }

    /** Encrypt or decrypt a body in place. */
    method Crypt(buf: array<byte>, o: nat, aesni: bool, junk: Block)
      requires Valid() && o + BSZ <= buf.Length
      modifies buf
      ensures buf[o..o + BSZ] == c.ctr(pnum, old(buf[o..o + BSZ]))
      ensures forall k :: 0 <= k < buf.Length && !(o <= k < o + BSZ) ==> buf[k] == old(buf[k])
    {
      assert About(KEY_MATERIAL);
      ghost var body := buf[o..o + BSZ];
      assert Unfolded(body);
      ghost var was := buf[..];
      CryptoBuf(aes, pnum, buf, o, buf, o, BSZ, aesni, junk);
      Spliced(was, buf[..], o, CtrXor(aes, pnum, 0, body));
    }

    /** `proto_crypt_enc` */
    method Enc(ibuf: array<byte>, a: nat, len: nat, obuf: array<byte>, o: nat, aesni: bool, junk: Block)
      requires Valid() && ibuf != obuf && a + len <= ibuf.Length && o + ESZ <= obuf.Length && len <= MAXDSZ
      modifies this`pnum, obuf
      ensures Valid() && pnum == Inc64(old(pnum))
      ensures obuf[o..o + ESZ] == Seal(c, old(pnum), ibuf[a..a + len])
      ensures forall k :: 0 <= k < obuf.Length && !(o <= k < o + ESZ) ==> obuf[k] == old(obuf[k])
    {
      LayOut(ibuf[a..a + len], obuf, o);
      Crypt(obuf, o, aesni, junk);
      var tag := MakeTag(obuf[o..o + BSZ]);
      Put(obuf, o + BSZ, tag);
      pnum := Inc64(pnum);
    }

    /** `proto_crypt_dec`: the length of the data, or -1. */
    method Dec(ibuf: array<byte>, a: nat, obuf: array<byte>, o: nat, aesni: bool, junk: Block) returns (len: int)
      requires Valid() && ibuf != obuf && a + ESZ <= ibuf.Length && o + MAXDSZ <= obuf.Length
      modifies this`pnum, ibuf, obuf
      ensures Valid()
      ensures pnum == if Authentic(c, old(pnum), old(ibuf[a..a + ESZ])) then Inc64(old(pnum)) else old(pnum)
      ensures var d := Open(c, old(pnum), old(ibuf[a..a + ESZ]));
        if d.None? then len == -1 else len == |d.value| && obuf[o..o + len] == d.value
      ensures forall k :: 0 <= k < ibuf.Length && !(a <= k < a + BSZ) ==> ibuf[k] == old(ibuf[k])
      ensures forall k :: 0 <= k < obuf.Length && !(o <= k < o + len) ==> obuf[k] == old(obuf[k])
    {
      var ok := Verify(ibuf, a);
      if !ok {
        return -1;
      }
      ghost var p := ibuf[a..a + ESZ];
      assert p[..BSZ] == ibuf[a..a + BSZ];
      Crypt(ibuf, a, aesni, junk);
      pnum := Inc64(pnum);
      len := Parse(ibuf, a, obuf, o);
    }

    /** Is the MAC of a packet right? */
    method Verify(ibuf: array<byte>, a: nat) returns (ok: bool)
      requires Valid() && a + ESZ <= ibuf.Length
      ensures ok == Authentic(c, pnum, ibuf[a..a + ESZ])
    {
      ghost var p := ibuf[a..a + ESZ];
      assert p[..BSZ] == ibuf[a..a + BSZ] && p[BSZ..] == ibuf[a + BSZ..a + ESZ];
      var tag := MakeTag(ibuf[a..a + BSZ]);
      ok := tag == ibuf[a + BSZ..a + ESZ];
    }
  }

  /** The end of `proto_crypt_dec`: parse the length and copy the data out. */
  method Parse(ibuf: array<byte>, a: nat, obuf: array<byte>, o: nat) returns (len: int)
    requires ibuf != obuf && a + BSZ <= ibuf.Length && o + MAXDSZ <= obuf.Length
    modifies obuf
    ensures var d := Unpad(ibuf[a..a + BSZ]);
      if d.None? then len == -1 else len == |d.value| && obuf[o..o + len] == d.value
    ensures forall k :: 0 <= k < obuf.Length && !(o <= k < o + len) ==> obuf[k] == old(obuf[k])
  {
    ghost var body := ibuf[a..a + BSZ];
    assert body[MAXDSZ..] == ibuf[a + MAXDSZ..a + BSZ];
    len := BeDec(ibuf[a + MAXDSZ..a + BSZ]);
    if len == 0 || len > MAXDSZ {
      return -1;
    }
    assert body[..len] == ibuf[a..a + len];
    Put(obuf, o, ibuf[a..a + len]);
  }

  lemma Spliced(was: bytes, now: bytes, o: nat, r: bytes)
    requires o + |r| <= |was| && now == Splice(was, o, r)
    ensures now[o..o + |r|] == r
    ensures forall k :: 0 <= k < |was| && !(o <= k < o + |r|) ==> now[k] == was[k]
  {
  }
}
