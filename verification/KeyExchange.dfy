/**
  The cryptographic steps of the handshake (`lib/proto/proto_crypt.c`): MAC keys from the nonces, MACed
  Diffie-Hellman values, and the keys of the two directions.
 */
module KeyExchange {
  import opened Bytes
  import opened Sha256Spec
  import opened Hmac
  import opened CryptoDh

  type Nonce = b: bytes | |b| == 32 witness Zeros(32)
  /** A public value and its MAC. */
  type Yh = b: bytes | |b| == 288 witness Zeros(288)
  /** The key material of one direction. */
  type KeyPair = b: bytes | |b| == 64 witness Zeros(64)

  /** The pseudorandom function keyed with the shared secret, the MAC, and the group. */
  datatype Env = Env(prf: bytes -> Mac, hmac: (bytes, bytes) -> Mac, g: Group)

  /** The nonces of client and server from those of the local and remote party. */
  function ClientFirst(l: bytes, r: bytes, decr: bool): bytes {
    if decr then r + l else l + r
  }

  /** `proto_crypt_dhmac`: the MAC keys for the local and the remote value. */
  function Dhmac(env: Env, l: Nonce, r: Nonce, decr: bool): (Mac, Mac) {
    var dk := DerivedKey(env.prf, ClientFirst(l, r, decr), 1, 64);
    var (c, s) := (dk[..32], dk[32..]);
    if decr then (s, c) else (c, s)
  }

  /** `proto_crypt_dh_generate` */
  function LocalY(env: Env, x: Priv, blinding: Priv, nopfs: bool): Pub {
    if nopfs then ONE else GeneratePub(env.g, x, blinding)
  }

  function Signed(env: Env, y: Pub, dhmac: Mac): Yh {
    y + env.hmac(dhmac, y)
  }

  /** `proto_crypt_dh_validate`: true if the value is accepted. */
  predicate Accepts(env: Env, yh: Yh, dhmac: Mac, requirepfs: bool) {
    && env.hmac(dhmac, yh[..PUBLEN]) == yh[PUBLEN..]
    && SanityCheck(env.g, yh[..PUBLEN]) == 0
    && (requirepfs ==> BeDec(yh[..PUBLEN]) != 1)
  }

  /** `is_not_one`: is the number that the bytes denote different from 1? */
  method IsNotOne(x: bytes) returns (r: bool)
    requires |x| >= 1
    ensures r <==> BeDec(x) != 1
  {
    var y: byte := 0;
    for i := 0 to |x| - 1
      invariant y == 0 <==> x[..i] == Zeros(i)
    {
      assert x[..i + 1] == x[..i] + [x[i]] && Zeros(i + 1) == Zeros(i) + [0];
      y := Or8(y, x[i]);
    }
    OnlyOne(x);
    r := x[|x| - 1] == 0 || Or8(y, x[|x| - 1] - 1) != 0;
  }

  lemma OnlyOne(x: bytes)
    requires |x| >= 1
    ensures BeDec(x) == 1 <==> x[..|x| - 1] == Zeros(|x| - 1) && x[|x| - 1] == 1
  {
    var front := x[..|x| - 1];
    BeDecZeros(|front|);
    BeEncDec(front);
    EncodeZero(|front|);
  }

  /** The shared value y_SC. */
  function SharedY(env: Env, yh: Yh, x: Priv, blinding: Priv, nopfs: bool): Pub {
    if nopfs then ONE else Compute(env.g, yh[..PUBLEN], x, blinding)
  }

  /** `proto_crypt_mkkeys`: the key material of the client's and of the server's keys. */
  function MkKeys(env: Env, l: Nonce, r: Nonce, y: Pub, decr: bool): (KeyPair, KeyPair) {
    var dk := DerivedKey(env.prf, ClientFirst(l, r, decr) + y, 1, 128);
    (dk[..64], dk[64..])
  }

  /** Each party's MAC key for its own value is the other's for the remote value. */
  lemma MacKeysAgree(env: Env, c: Nonce, s: Nonce)
    ensures Dhmac(env, c, s, false).0 == Dhmac(env, s, c, true).1
    ensures Dhmac(env, c, s, false).1 == Dhmac(env, s, c, true).0
  {
  }

  /** What a party has made is accepted by the other one, unless that requires a value other than 1 and it is 1. */
  lemma MadeIsAccepted(env: Env, x: Priv, blinding: Priv, nopfs: bool, dhmac: Mac, requirepfs: bool)
    ensures var y := LocalY(env, x, blinding, nopfs);
      Accepts(env, Signed(env, y, dhmac), dhmac, requirepfs) <==> !(requirepfs && BeDec(y) == 1)
  {
    GeneratedIsSane(env.g, x, blinding);
    var y := LocalY(env, x, blinding, nopfs);
    assert Signed(env, y, dhmac)[..PUBLEN] == y;
  }

  /** Both parties come to the same shared value, also if one of them or both use y = 1. */
  lemma SharedYAgrees(env: Env, xc: Priv, xs: Priv, b1: Priv, b2: Priv, b3: Priv, b4: Priv, nopfsC: bool, nopfsS: bool,
                      mc: Mac, ms: Mac)
    ensures SharedY(env, Signed(env, LocalY(env, xs, b1, nopfsS), ms), xc, b2, nopfsC)
      == SharedY(env, Signed(env, LocalY(env, xc, b3, nopfsC), mc), xs, b4, nopfsS)
  {
    var yc, ys := LocalY(env, xc, b3, nopfsC), LocalY(env, xs, b1, nopfsS);
    assert Signed(env, yc, mc)[..PUBLEN] == yc && Signed(env, ys, ms)[..PUBLEN] == ys;
    OneIsOne();
    if nopfsC && !nopfsS {
      ComputeOne(env.g, ONE, xs, b4);
    } else if nopfsS && !nopfsC {
      ComputeOne(env.g, ONE, xc, b2);
    } else if !nopfsC {
      Agreement(env.g, xs, xc, b1, b2, b3, b4);
    }
  }

  /** The functions of the environment are HMAC with a hash, and its first one is keyed with the secret. */
  ghost predicate Uses(env: Env, hash: bytes -> Mac, secret: bytes) {
    env.prf == Prf(hash, secret) && forall key, text :: env.hmac(key, text) == Hmac.Hmac(hash, key, text)
  }

  /** `proto_crypt_dhmac` */
  method ComputeDhmac(ghost f: Compression, secret: Mac, l: Nonce, r: Nonce, decr: bool, junk: MBlock,
                      ghost hash: bytes -> Mac, ghost env: Env)
    returns (local: Mac, remote: Mac)
    requires Computes(hash, f) && Uses(env, hash, secret)
    ensures (local, remote) == Dhmac(env, l, r, decr)
  {
    var nonces := ClientFirst(l, r, decr);
    var dk := Pbkdf2(f, secret, nonces, 1, 64, junk, hash);
    if decr {
      local, remote := dk[32..], dk[..32];
    } else {
      local, remote := dk[..32], dk[32..];
    }
  }

  /** `proto_crypt_dh_validate`: true if the value is refused. */
  method Validate(ghost f: Compression, yh: Yh, dhmac: Mac, requirepfs: bool, g: Group, junk: MBlock,
                  ghost hash: bytes -> Mac, ghost env: Env, ghost secret: bytes)
    returns (bad: bool)
    requires Computes(hash, f) && Uses(env, hash, secret) && env.g == g
    ensures bad == !Accepts(env, yh, dhmac, requirepfs)
  {
    var h := HmacBuf(f, dhmac, yh[..PUBLEN], junk, hash);
    if h != yh[PUBLEN..] {
      return true;
    }
    if SanityCheck(g, yh[..PUBLEN]) != 0 {
      return true;
    }
    if requirepfs {
      var notOne := IsNotOne(yh[..PUBLEN]);
      if !notOne {
        return true;
      }
    }
    return false;
  }

  /** `proto_crypt_dh_generate` */
  method Generate(ghost f: Compression, x: Priv, blinding: Priv, dhmac: Mac, nopfs: bool, g: Group, junk: MBlock,
                  ghost hash: bytes -> Mac, ghost env: Env, ghost secret: bytes)
    returns (yh: Yh)
    requires Computes(hash, f) && Uses(env, hash, secret) && env.g == g
    ensures yh == Signed(env, LocalY(env, x, blinding, nopfs), dhmac)
  {
    var y: Pub := if nopfs then ONE else GeneratePub(g, x, blinding);
    var h := HmacBuf(f, dhmac, y, junk, hash);
    yh := y + h;
  }

  /** `proto_crypt_mkkeys` */
  method ComputeKeys(ghost f: Compression, secret: Mac, l: Nonce, r: Nonce, yh: Yh, x: Priv, blinding: Priv,
                     nopfs: bool, decr: bool, g: Group,
                     junk: MBlock, ghost hash: bytes -> Mac, ghost env: Env)
    returns (c: KeyPair, s: KeyPair)
    requires Computes(hash, f) && Uses(env, hash, secret) && env.g == g
    ensures (c, s) == MkKeys(env, l, r, SharedY(env, yh, x, blinding, nopfs), decr)
  {
    var nonces := ClientFirst(l, r, decr);
    var y: Pub := if nopfs then ONE else Compute(g, yh[..PUBLEN], x, blinding);
    var dk := Pbkdf2(f, secret, nonces + y, 1, 128, junk, hash);
    c, s := dk[..64], dk[64..];
  }
}
