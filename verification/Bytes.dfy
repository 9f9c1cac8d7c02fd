/**
  Byte strings and their big-endian readings (`libcperciva/util/sysendian.h`).

  A byte is an integer below 256; a buffer is a `seq<byte>` or, where the source works in place,
  an `array<byte>`.  `size_t` and `uint64_t` values are natural numbers below `TWO_64`.
 */
module Bytes {
  datatype Option<T> = None | Some(value: T)

  type byte = b: int | 0 <= b < 256
  type bytes = seq<byte>

  const TWO_64: nat := 0x1_0000_0000_0000_0000
  const TWO_32: nat := 0x1_0000_0000
  const SIZE_MAX: nat := TWO_64 - 1

  function Zeros(n: nat): (z: bytes)
    ensures |z| == n
  {
    seq(n, _ => 0)
  }

  function Concat(chunks: seq<bytes>): bytes {
    if chunks == [] then [] else chunks[0] + Concat(chunks[1..])
  }

  lemma {:induction false} ConcatAppend(a: seq<bytes>, b: seq<bytes>)
    ensures Concat(a + b) == Concat(a) + Concat(b)
  {
    if a == [] {
      assert a + b == b;
    } else {
      calc {
        Concat(a + b);
        { assert (a + b)[1..] == a[1..] + b; }
        a[0] + Concat(a[1..] + b);
        { ConcatAppend(a[1..], b); }
        a[0] + (Concat(a[1..]) + Concat(b));
        (a[0] + Concat(a[1..])) + Concat(b);
      }
    }
  }

  /** Unsigned 64-bit decrement, wrapping at zero. */
  function Dec64(i: nat): (r: nat) {
    if i == 0 then SIZE_MAX else i - 1
  }

  /** Unsigned 64-bit increment, wrapping at the largest value. */
  function Inc64(i: nat): (r: nat) {
    if i == SIZE_MAX then 0 else i + 1
  }

  /** The `k`-byte big-endian encoding of `n`, reduced modulo `256^k` as a cast to an unsigned type does. */
  function BeEnc(n: nat, k: nat): (r: bytes)
    ensures |r| == k
  {
    if k == 0 then [] else BeEnc(n / 256, k - 1) + [n % 256]
  }

  /** The natural number a byte string denotes, most significant byte first. */
  function BeDec(p: bytes): nat {
    if p == [] then 0 else 256 * BeDec(p[..|p| - 1]) + p[|p| - 1]
  }

  function Pow256(k: nat): (r: nat)
    ensures r > 0
  {
    if k == 0 then 1 else 256 * Pow256(k - 1)
  }

  lemma {:induction false} BeDecBound(p: bytes)
    ensures BeDec(p) < Pow256(|p|)
  {
    if p != [] {
      BeDecBound(p[..|p| - 1]);
    }
  }

  /** Decoding undoes encoding exactly for the numbers that fit. */
  lemma {:induction false} BeDecEnc(n: nat, k: nat)
    ensures BeDec(BeEnc(n, k)) == n <==> n < Pow256(k)
  {
    BeDecBound(BeEnc(n, k));
    if n < Pow256(k) && k > 0 {
      BeDecEnc(n / 256, k - 1);
      assert BeEnc(n, k)[..k - 1] == BeEnc(n / 256, k - 1);
    }
  }

  /** Encoding undoes decoding for every byte string. */
  lemma {:induction false} BeEncDec(p: bytes)
    ensures BeEnc(BeDec(p), |p|) == p
  {
    if p != [] {
      BeEncDec(p[..|p| - 1]);
      assert p == p[..|p| - 1] + [p[|p| - 1]];
    }
  }

  /** `be32enc`: the digits that the shifts and masks of the source pick out are the big-endian encoding. */
  function Be32Enc(x: nat): (r: bytes)
    ensures r == BeEnc(x, 4)
  {
    BeEncUnrolled(x);
    [x / 0x1000000 % 256, x / 0x10000 % 256, x / 0x100 % 256, x % 256]
  }

  lemma BeEncUnrolled(x: nat)
    ensures BeEnc(x, 4) == [x / 0x1000000 % 256, x / 0x10000 % 256, x / 0x100 % 256, x % 256]
  {
    calc {
      BeEnc(x, 4);
      BeEnc(x / 0x100, 3) + [x % 256];
      BeEnc(x / 0x100 / 0x100, 2) + [x / 0x100 % 256] + [x % 256];
      BeEnc(x / 0x10000, 2) + [x / 0x100 % 256] + [x % 256];
      BeEnc(x / 0x10000 / 0x100, 1) + [x / 0x10000 % 256] + [x / 0x100 % 256] + [x % 256];
    }
    assert BeEnc(x / 0x10000 / 0x100, 1) == BeEnc(x / 0x10000 / 0x100 / 0x100, 0) + [x / 0x1000000 % 256];
  }

  /** Exclusive or of two `k`-bit numbers, bit by bit. */
  function XorBits(a: nat, b: nat, k: nat): (r: nat) {
    if k == 0 then 0 else 2 * XorBits(a / 2, b / 2, k - 1) + (a + b) % 2
  }

  function Pow2(k: nat): (r: nat)
    ensures r > 0
  {
    if k == 0 then 1 else 2 * Pow2(k - 1)
  }

  lemma {:induction false} XorBitsBound(a: nat, b: nat, k: nat)
    ensures XorBits(a, b, k) < Pow2(k)
  {
    if k > 0 {
      XorBitsBound(a / 2, b / 2, k - 1);
    }
  }

  lemma {:induction false} XorBitsCommutes(a: nat, b: nat, k: nat)
    ensures XorBits(a, b, k) == XorBits(b, a, k)
  {
    if k > 0 {
      XorBitsCommutes(a / 2, b / 2, k - 1);
    }
  }

  lemma {:induction false} XorBitsZero(a: nat, k: nat)
    requires a < Pow2(k)
    ensures XorBits(a, 0, k) == a
  {
    if k > 0 {
      XorBitsZero(a / 2, k - 1);
    }
  }

  lemma {:induction false} XorBitsInvolutive(a: nat, b: nat, k: nat)
    requires a < Pow2(k)
    ensures XorBits(XorBits(a, b, k), b, k) == a
  {
    if k > 0 {
      XorBitsInvolutive(a / 2, b / 2, k - 1);
      LastBit(a, b, XorBits(a / 2, b / 2, k - 1));
    }
  }

  lemma LastBit(a: nat, b: nat, high: nat)
    ensures var x := 2 * high + (a + b) % 2; x / 2 == high && 2 * (a / 2) + (x + b) % 2 == a
  {
  }

  function Xor8(a: byte, b: byte): (r: byte) {
    XorBitsBound(a, b, 8);
    assert Pow2(8) == 256 by { assert Pow2(4) == 16; }
    XorBits(a, b, 8)
  }

  /** Inclusive or of two `k`-bit numbers, bit by bit. */
  function OrBits(a: nat, b: nat, k: nat): (r: nat) {
    if k == 0 then 0 else 2 * OrBits(a / 2, b / 2, k - 1) + if a % 2 == 1 || b % 2 == 1 then 1 else 0
  }

  lemma {:induction false} OrBitsZero(a: nat, b: nat, k: nat)
    requires a < Pow2(k) && b < Pow2(k)
    ensures OrBits(a, b, k) < Pow2(k) && (OrBits(a, b, k) == 0 <==> a == 0 && b == 0)
  {
    if k > 0 {
      OrBitsZero(a / 2, b / 2, k - 1);
    }
  }

  function Or8(a: byte, b: byte): (r: byte)
    ensures r == 0 <==> a == 0 && b == 0
  {
    assert Pow2(8) == 256 by { assert Pow2(4) == 16; }
    OrBitsZero(a, b, 8);
    OrBits(a, b, 8)
  }

  lemma Xor8Laws(a: byte, b: byte)
    ensures Xor8(a, b) == Xor8(b, a) && Xor8(a, 0) == a && Xor8(Xor8(a, b), b) == a
  {
    assert Pow2(8) == 256 by { assert Pow2(4) == 16; }
    XorBitsCommutes(a, b, 8);
    XorBitsZero(a, 8);
    XorBitsInvolutive(a, b, 8);
  }

  /** Bytewise exclusive or of equally long strings. */
  function Xor(a: bytes, b: bytes): (r: bytes)
    requires |a| == |b|
    ensures |r| == |a|
  {
    seq(|a|, i requires 0 <= i < |a| => Xor8(a[i], b[i]))
  }

  lemma XorInvolutive(a: bytes, b: bytes)
    requires |a| == |b|
    ensures Xor(Xor(a, b), b) == a
  {
    forall i | 0 <= i < |a|
      ensures Xor(Xor(a, b), b)[i] == a[i]
    {
      Xor8Laws(a[i], b[i]);
    }
  }
}
