/**
  The packets of the protocol (`lib/proto/proto_crypt.c`): up to 1024 bytes of data, padded and encrypted together with
  their length under the packet number, followed by a MAC of that and of the packet number.
 */
module Packets {
  import opened Bytes
  import opened Sha256Spec
  import opened Unfolding

  const MAXDSZ: nat := 1024
  const BSZ: nat := 1028
  const ESZ: nat := 1060

  type Body = b: bytes | |b| == 1028 witness Zeros(1028)
  type Packet = b: bytes | |b| == 1060 witness Zeros(1060)

  /** The number of the packet that comes after `n` others: a counter of 64 bits. */
  ghost function Number(n: nat): nat {
    assert IsNumber(n % TWO_64, n);
    var num: nat :| IsNumber(num, n);
    num
  }

  ghost predicate IsNumber(num: nat, n: nat) {
    forall x :: x == NUMBERS && About(x) ==> num == n % TWO_64
  }

  lemma NumberWraps(n: nat)
    ensures Number(n) == n % TWO_64
  {
    assert About(NUMBERS);
  }

  lemma NextNumber(n: nat)
    ensures Inc64(Number(n)) == Number(n + 1)
  {
    NumberWraps(n);
    NumberWraps(n + 1);
  }

  /** The keys of one direction: a stream cipher that depends on the packet number, and a MAC. */
  datatype Cipher = Cipher(ctr: (nat, Body) -> Body, mac: bytes -> Mac)

  /** Decryption is encryption. */
  ghost predicate Involutive(c: Cipher) {
    forall n, b :: c.ctr(n, c.ctr(n, b)) == b
  }

  function Plain(data: bytes): Body
    requires |data| <= MAXDSZ
  {
    data + Zeros(MAXDSZ - |data|) + BeEnc(|data|, 4)
  }

  function Tag(c: Cipher, n: nat, body: Body): Mac {
    c.mac(body + BeEnc(n, 8))
  }

  function Seal(c: Cipher, n: nat, data: bytes): Packet
    requires |data| <= MAXDSZ
  {
    var body := c.ctr(n, Plain(data));
    body + Tag(c, n, body)
  }

  predicate Authentic(c: Cipher, n: nat, p: Packet) {
    Tag(c, n, p[..BSZ]) == p[BSZ..]
  }

  /** The data in a decrypted body, unless their length is not one that data have. */
  function Unpad(body: Body): (r: Option<bytes>)
    ensures r.Some? ==> 1 <= |r.value| <= MAXDSZ
  {
    var len := BeDec(body[MAXDSZ..]);
    if len == 0 || len > MAXDSZ then None else Some(body[..len])
  }

  function Open(c: Cipher, n: nat, p: Packet): (r: Option<bytes>)
    ensures r.Some? ==> 1 <= |r.value| <= MAXDSZ
  {
    if Authentic(c, n, p) then Unpad(c.ctr(n, p[..BSZ])) else None
  }

  /** A packet opens to the data it was made of, except that one without data does not open. */
  lemma OpenSealed(c: Cipher, n: nat, data: bytes)
    requires Involutive(c) && |data| <= MAXDSZ
    ensures Open(c, n, Seal(c, n, data)) == if data == [] then None else Some(data)
  {
    var plain := Plain(data);
    var p := Seal(c, n, data);
    assert p[..BSZ] == c.ctr(n, plain);
    assert plain[MAXDSZ..] == BeEnc(|data|, 4) && plain[..|data|] == data;
    assert |data| < Pow256(4) by { assert Pow256(2) == 65536; }
    BeDecEnc(|data|, 4);
  }
}
