/**
  The handshake (`lib/proto/proto_handshake.c`) as its callbacks update the cookie, against the
  functions in `Handshake`.
 */
module ProtoHandshake {
  import opened Bytes
  import opened Unfolding
  import opened Sha256Spec
  import opened CryptoDh
  import opened KeyExchange
  import opened Handshake

  /** A pending operation, by the callback it was started with. */
  datatype Op = NotPending | ForNonce | ForDh

  function ReadOpOf(r: ReadOp): Op {
    if r == NoRead then NotPending else if r.what == Nonces then ForNonce else ForDh
  }

  function WriteOpOf(w: WriteOp): Op {
    if w == NoWrite then NotPending else if w.what == Nonces then ForNonce else ForDh
  }

  /** The scheme is that of an environment. */
  ghost predicate IsScheme(k: Scheme, env: Env) {
    forall x :: x == CRYPTO && About(x) ==> k == SchemeOf(env)
  }

  /** The MAC keys of a party that knows both nonces. */
  ghost predicate MacKeys(env: Env, cfg: Config, nonceR: Nonce, local: Mac, remote: Mac) {
    forall x :: x == CRYPTO && About(x) ==> (local, remote) == Dhmac(env, cfg.nonce, nonceR, cfg.decr)
  }

  class HandshakeCookie {
    const cfg: Config
    const secret: Mac
    ghost const f: Compression
    const g: Group
    const junk: MBlock
    ghost const hash: bytes -> Mac
    ghost const env: Env
    ghost const k: Scheme
    var nonceRemote: Nonce
    var dhmacLocal: Mac
    var dhmacRemote: Mac
    var yhLocal: Yh
    var yhRemote: Yh
    var read: Op
    var write: Op
    var outcome: Outcome
    ghost var p: Party

    /** What does not change. */
    ghost predicate Set() {
      Computes(hash, f) && Uses(env, hash, secret) && env.g == g && IsScheme(k, env)
    }

    /** The cookie holds what the party knows; the MAC keys are there once both nonces are. */
    ghost predicate Valid()
      reads this
    {
      && Set() && p.cfg == cfg && outcome == p.outcome && read == ReadOpOf(p.read) && write == WriteOpOf(p.write)
      && (|p.nonceR| == 32 ==> nonceRemote == p.nonceR) && (|p.yhR| == 288 ==> yhRemote == p.yhR)
      && (read == ForDh ==> write == NotPending) && (write == ForDh ==> read == NotPending)
      && (read == ForDh || write == ForDh ==>
            |p.nonceR| == 32 && MacKeys(env, cfg, nonceRemote, dhmacLocal, dhmacRemote))
    }

    /** `proto_crypt_dhmac` on the fields of the cookie. */
    method MakeMacKeys() returns (local: Mac, remote: Mac)
      requires Set()
      ensures MacKeys(env, cfg, nonceRemote, local, remote)
    {
      local, remote := ComputeDhmac(f, secret, cfg.nonce, nonceRemote, cfg.decr, junk, hash, env);
    }

    /** `proto_crypt_dh_generate` on the fields of the cookie. */
    method MakeYh() returns (yh: Yh)
      requires Set() && MacKeys(env, cfg, nonceRemote, dhmacLocal, dhmacRemote)
      ensures yh == k.yh(cfg, nonceRemote)
    {
      assert About(CRYPTO);
      yh := Generate(f, cfg.x, cfg.b1, dhmacLocal, cfg.nopfs, g, junk, hash, env, secret);
    }

    /** `proto_crypt_dh_validate` on the fields of the cookie. */
    method CheckYh() returns (bad: bool)
      requires Set() && MacKeys(env, cfg, nonceRemote, dhmacLocal, dhmacRemote)
      ensures bad == !k.accepts(cfg, nonceRemote, yhRemote)
    {
      assert About(CRYPTO);
      bad := Validate(f, yhRemote, dhmacRemote, cfg.requirepfs, g, junk, hash, env, secret);
    }

    /** `proto_crypt_mkkeys` on the fields of the cookie. */
    method MakeKeys() returns (c: KeyPair, s: KeyPair)
      requires Set()
      ensures (c, s) == k.keys(cfg, nonceRemote, yhRemote)
    {
      assert About(CRYPTO);
      c, s := ComputeKeys(f, secret, cfg.nonce, nonceRemote, yhRemote, cfg.x, cfg.b2, cfg.nopfs, cfg.decr, g,
                          junk, hash, env);
    }

    /**
      `proto_handshake`; `mem`, `entropy`, `canWrite` and `canRead` say which of its calls succeed, and
      `pending` counts the writes of the nonce that are pending when it returns.
     */
    static method Start(cfg: Config, secret: Mac, ghost f: Compression, g: Group, junk: MBlock,
                        ghost hash: bytes -> Mac,
                        ghost env: Env, mem: bool, entropy: bool, canWrite: bool, canRead: bool)
      returns (h: HandshakeCookie?, pending: nat)
      requires Computes(hash, f) && Uses(env, hash, secret) && env.g == g
      ensures h == null <==> !(mem && entropy && canWrite && canRead)
      ensures pending == if h == null then 0 else 1
      ensures h != null ==> fresh(h) && h.Valid() && h.p == Begin(cfg) && h.env == env && h.k == SchemeOf(env)
    {
      pending := 0;
      if !mem || !entropy || !canWrite {
        return null, pending;
      }
      pending := pending + 1;
      if !canRead {
        return null, pending - 1;
      }
      h := new HandshakeCookie(cfg, secret, f, g, junk, hash, env);
    }

    /** The cookie once both nonces are on their way. */
    constructor (cfg: Config, secret: Mac, ghost f: Compression, g: Group, junk: MBlock, ghost hash: bytes -> Mac,
                 ghost env: Env)
      requires Computes(hash, f) && Uses(env, hash, secret) && env.g == g
      ensures Valid() && p == Begin(cfg) && this.env == env && k == SchemeOf(env)
    {
      this.cfg, this.secret, this.f, this.g, this.junk, this.hash, this.env := cfg, secret, f, g, junk, hash, env;
      k := SchemeOf(env);
      read, write, outcome, p := ForNonce, ForNonce, Pending, Begin(cfg);
      nonceRemote, dhmacLocal, dhmacRemote := Zeros(32), Zeros(32), Zeros(32);
      yhLocal, yhRemote := Zeros(288), Zeros(288);
    }

    /** `handshakefail` */
    method HandshakeFail(ghost broken: bool)
      requires Valid()
      modifies this
      ensures Valid() && p == if broken then Broken(old(p)) else Fail(old(p))
    {
      read, write, outcome := NotPending, NotPending, Failed;
      p := if broken then Broken(p) else Fail(p);
    }

    /** `callback_nonce_write` */
    method CallbackNonceWrite(len: int, ok: bool)
      requires Valid() && write == ForNonce && (p.read == NoRead ==> |p.nonceR| == 32)
      modifies this
      ensures Valid() && p == if len < 32 then Broken(old(p)) else WriteDone(k, old(p), Nonces, ok)
    {
      if len < 32 {
        HandshakeFail(true);
        return;
      }
      write, p := NotPending, p.(write := NoWrite);
      if read == NotPending {
        OnNonces(ok);
      }
    }

    /** `callback_nonce_read`; the bytes that were read are `got`. */
    method CallbackNonceRead(len: int, got: Nonce, ok: bool)
      requires Valid() && read == ForNonce
      modifies this
      ensures Valid() && p == if len < 32 then Broken(old(p)) else ReadDone(k, old(p), Nonces, got, ok)
    {
      if len < 32 {
        HandshakeFail(true);
        return;
      }
      read, nonceRemote, p := NotPending, got, p.(read := NoRead, nonceR := got);
      if write == NotPending {
        OnNonces(ok);
      }
    }

    /** `gotnonces` */
    method OnNonces(ok: bool)
      requires Valid() && read == NotPending && write == NotPending && |p.nonceR| == 32
      modifies this
      ensures Valid() && p == GotNonces(k, old(p), ok)
    {
      dhmacLocal, dhmacRemote := MakeMacKeys();
      if cfg.decr {
        StartDhRead(ok);
      } else {
        StartDhWrite(ok);
      }
    }

    /** `dhread` */
    method StartDhRead(ok: bool)
      requires Valid() && read == NotPending && write == NotPending && |p.nonceR| == 32
      requires MacKeys(env, cfg, nonceRemote, dhmacLocal, dhmacRemote)
      modifies this
      ensures Valid() && p == DhRead(old(p), ok)
    {
      if !ok {
        HandshakeFail(true);
        return;
      }
      read, p := ForDh, DhRead(p, ok);
    }

    /** `dhwrite` */
    method StartDhWrite(ok: bool)
      requires Valid() && read == NotPending && write == NotPending && |p.nonceR| == 32
      requires MacKeys(env, cfg, nonceRemote, dhmacLocal, dhmacRemote)
      modifies this
      ensures Valid() && p == DhWrite(k, old(p), ok)
    {
      if !ok {
        HandshakeFail(true);
        return;
      }
      yhLocal := MakeYh();
      write, p := ForDh, p.(yhL := yhLocal, write := Writing(Dh, yhLocal));
    }

    /** `callback_dh_read`; the bytes that were read are `got`. */
    method CallbackDhRead(len: int, got: Yh, ok: bool)
      requires Valid() && read == ForDh
      modifies this
      ensures Valid() && p == if len < 288 then Broken(old(p)) else ReadDone(k, old(p), Dh, got, ok)
    {
      if len < 288 {
        HandshakeFail(true);
        return;
      }
      read, yhRemote, p := NotPending, got, p.(read := NoRead, yhR := got);
      var bad := CheckYh();
      if bad {
        HandshakeFail(false);
      } else if cfg.decr {
        StartDhWrite(ok);
      } else {
        HandshakeDone(ok);
      }
    }

    /** `callback_dh_write` */
    method CallbackDhWrite(len: int, ok: bool)
      requires Valid() && write == ForDh && (cfg.decr ==> |p.yhR| == 288)
      modifies this
      ensures Valid() && p == if len < 288 then Broken(old(p)) else WriteDone(k, old(p), Dh, ok)
    {
      if len < 288 {
        HandshakeFail(true);
        return;
      }
      write, p := NotPending, p.(write := NoWrite);
      if cfg.decr {
        HandshakeDone(ok);
      } else {
        StartDhRead(ok);
      }
    }

    /** `handshakedone` */
    method HandshakeDone(ok: bool)
      requires Valid() && |p.nonceR| == 32 && |p.yhR| == 288
      modifies this
      ensures Valid() && p == Finish(k, old(p), ok)
    {
      if !ok {
        HandshakeFail(true);
        return;
      }
      var c, s := MakeKeys();
      outcome, p := Done(c, s), p.(outcome := Done(c, s));
    }
  }
}
