/**
  Diffie-Hellman (`libcperciva/crypto/crypto_dh.c`) over unbounded integers: exponentiation in two blinded
  halves, and the agreement of the two parties' keys.
 */
module CryptoDh {
  import opened Bytes

  const PUBLEN: nat := 256

  /** The big-endian bytes of 2^256. */
  const TWO_EXP_256: bytes := [1] + Zeros(32)

  type Pub = b: bytes | |b| == 256 witness Zeros(256)
  type Priv = b: bytes | |b| == 32 witness Zeros(32)

  /** The modulus of group 14 in section 3 of RFC 3526. */
  const GROUP14: bytes := [0xff, 0xff, 0xff, 0xff, 0xff, 0xff, 0xff, 0xff] + [
    0xc9, 0x0f, 0xda, 0xa2, 0x21, 0x68, 0xc2, 0x34, 0xc4, 0xc6, 0x62, 0x8b, 0x80, 0xdc, 0x1c, 0xd1,
    0x29, 0x02, 0x4e, 0x08, 0x8a, 0x67, 0xcc, 0x74, 0x02, 0x0b, 0xbe, 0xa6, 0x3b, 0x13, 0x9b, 0x22,
    0x51, 0x4a, 0x08, 0x79, 0x8e, 0x34, 0x04, 0xdd, 0xef, 0x95, 0x19, 0xb3, 0xcd, 0x3a, 0x43, 0x1b,
    0x30, 0x2b, 0x0a, 0x6d, 0xf2, 0x5f, 0x14, 0x37, 0x4f, 0xe1, 0x35, 0x6d, 0x6d, 0x51, 0xc2, 0x45,
    0xe4, 0x85, 0xb5, 0x76, 0x62, 0x5e, 0x7e, 0xc6, 0xf4, 0x4c, 0x42, 0xe9, 0xa6, 0x37, 0xed, 0x6b,
    0x0b, 0xff, 0x5c, 0xb6, 0xf4, 0x06, 0xb7, 0xed, 0xee, 0x38, 0x6b, 0xfb, 0x5a, 0x89, 0x9f, 0xa5,
    0xae, 0x9f, 0x24, 0x11, 0x7c, 0x4b, 0x1f, 0xe6, 0x49, 0x28, 0x66, 0x51, 0xec, 0xe4, 0x5b, 0x3d,
    0xc2, 0x00, 0x7c, 0xb8, 0xa1, 0x63, 0xbf, 0x05, 0x98, 0xda, 0x48, 0x36, 0x1c, 0x55, 0xd3, 0x9a,
    0x69, 0x16, 0x3f, 0xa8, 0xfd, 0x24, 0xcf, 0x5f, 0x83, 0x65, 0x5d, 0x23, 0xdc, 0xa3, 0xad, 0x96,
    0x1c, 0x62, 0xf3, 0x56, 0x20, 0x85, 0x52, 0xbb, 0x9e, 0xd5, 0x29, 0x07, 0x70, 0x96, 0x96, 0x6d,
    0x67, 0x0c, 0x35, 0x4e, 0x4a, 0xbc, 0x98, 0x04, 0xf1, 0x74, 0x6c, 0x08, 0xca, 0x18, 0x21, 0x7c,
    0x32, 0x90, 0x5e, 0x46, 0x2e, 0x36, 0xce, 0x3b, 0xe3, 0x9e, 0x77, 0x2c, 0x18, 0x0e, 0x86, 0x03,
    0x9b, 0x27, 0x83, 0xa2, 0xec, 0x07, 0xa2, 0x8f, 0xb5, 0xc5, 0x5d, 0xf0, 0x6f, 0x4c, 0x52, 0xc9,
    0xde, 0x2b, 0xcb, 0xf6, 0x95, 0x58, 0x17, 0x18, 0x39, 0x95, 0x49, 0x7c, 0xea, 0x95, 0x6a, 0xe5,
    0x15, 0xd2, 0x26, 0x18, 0x98, 0xfa, 0x05, 0x10, 0x15, 0x72, 0x8e, 0x5a, 0x8a, 0xac, 0xaa, 0x68,
    0xff, 0xff, 0xff, 0xff, 0xff, 0xff, 0xff, 0xff
  ]

  function Pow(a: nat, e: nat): nat {
    if e == 0 then 1 else a * Pow(a, e - 1)
  }

  lemma {:induction false} BeDecCons(x: byte, p: bytes)
    ensures BeDec([x] + p) == x * Pow256(|p|) + BeDec(p)
  {
    if p == [] {
      assert [x] + p == [x];
    } else {
      var front, last := p[..|p| - 1], p[|p| - 1];
      assert ([x] + p)[..|p|] == [x] + front;
      BeDecCons(x, front);
      Scale(x, Pow256(|p| - 1), BeDec(front), last);
    }
  }

  lemma Scale(x: int, w: int, d: int, last: int)
    ensures 256 * (x * w + d) + last == x * (256 * w) + (256 * d + last)
  {
  }

  lemma {:induction false} BeDecZeros(k: nat)
    ensures BeDec(Zeros(k)) == 0
  {
    if k > 0 {
      BeDecZeros(k - 1);
      assert Zeros(k)[..k - 1] == Zeros(k - 1);
    }
  }

  lemma {:induction false} Pow256IsPow2(k: nat)
    ensures Pow256(k) == Pow2(8 * k)
  {
    if k > 0 {
      Pow256IsPow2(k - 1);
      EightDoublings(8 * k - 8);
    }
  }

  lemma EightDoublings(k: nat)
    ensures Pow2(k + 8) == 256 * Pow2(k)
  {
    assert Pow2(k + 2) == 4 * Pow2(k);
    assert Pow2(k + 4) == 4 * Pow2(k + 2);
    assert Pow2(k + 6) == 4 * Pow2(k + 4);
    assert Pow2(k + 8) == 4 * Pow2(k + 6);
  }

  /** The bytes are those of 2^256, and four times that is 2^258. */
  lemma TwoExp256()
    ensures BeDec(TWO_EXP_256) == Pow256(32) == Pow2(256) && 4 * BeDec(TWO_EXP_256) == Pow2(258)
  {
    BeDecCons(1, Zeros(32));
    BeDecZeros(32);
    Pow256IsPow2(32);
    TwiceDoubled(256);
  }

  lemma TwiceDoubled(k: nat)
    ensures Pow2(k + 2) == 4 * Pow2(k)
  {
  }

  /** The exponent that a private value stands for. */
  function Exponent(priv: Priv): nat {
    Pow2(258) + BeDec(priv)
  }

  /** The two exponents of `blinded_modexp`. */
  function BlindingExponent(blinding: Priv): int {
    BeDec(blinding) + BeDec(TWO_EXP_256)
  }

  function BlindedExponent(priv: Priv, blinding: Priv): int {
    var two := BeDec(TWO_EXP_256);
    BeDec(priv) + two + two + two + two - BlindingExponent(blinding)
  }

  /** Both are positive whatever the blinding value, and add up to the exponent. */
  lemma ExponentsPositive(priv: Priv, blinding: Priv)
    ensures BlindingExponent(blinding) > 0 && BlindedExponent(priv, blinding) > 0
    ensures BlindingExponent(blinding) + BlindedExponent(priv, blinding) == Exponent(priv)
  {
    TwoExp256();
    BeDecBound(blinding);
  }

  /** `blinded_modexp` on integers. */
  function BlindedModExp(a: nat, priv: Priv, blinding: Priv, m: nat): nat
    requires m > 0
  {
    ExponentsPositive(priv, blinding);
    var r1 := Pow(a, BlindingExponent(blinding)) % m;
    var r2 := Pow(a, BlindedExponent(priv, blinding)) % m;
    r1 * r2 % m
  }

  lemma {:induction false} PowAdd(a: nat, x: nat, y: nat)
    ensures Pow(a, x + y) == Pow(a, x) * Pow(a, y)
  {
    if x > 0 {
      PowAdd(a, x - 1, y);
      Associate(a, Pow(a, x - 1), Pow(a, y));
    }
  }

  lemma Associate(a: int, b: int, c: int)
    ensures a * (b * c) == (a * b) * c
  {
  }

  function Times(x: nat, y: nat): nat {
    x * y
  }

  lemma {:induction false} PowMul(a: nat, x: nat, y: nat)
    ensures Pow(Pow(a, x), y) == Pow(a, x * y)
  {
    if y > 0 {
      PowMul(a, x, y - 1);
      assert x * y == x + x * (y - 1);
      PowAdd(a, x, x * (y - 1));
    }
  }

  lemma {:induction false} PowOne(e: nat)
    ensures Pow(1, e) == 1
  {
    if e > 0 {
      PowOne(e - 1);
    }
  }

  /** A multiple of the modulus more or less does not matter. */
  lemma ModShift(x: int, k: int, m: nat)
    requires m > 0
    ensures (x + k * m) % m == x % m
  {
    var q, r := x / m, x % m;
    assert x + k * m == (q + k) * m + r;
    ModUnique(q + k, r, m);
  }

  lemma AtLeast(d: int, m: int)
    requires d >= 1 && m >= 0
    ensures d * m >= m
  {
  }

  lemma ModUnique(q: int, r: int, m: nat)
    requires 0 <= r < m
    ensures (q * m + r) % m == r
  {
    var n := q * m + r;
    SameRemainder(q, r, n / m, n % m, m);
  }

  lemma SameRemainder(q: int, r: int, p: int, s: int, m: nat)
    requires 0 <= r < m && 0 <= s < m && q * m + r == p * m + s
    ensures r == s
  {
    assert (q - p) * m == s - r && (p - q) * m == r - s;
    if q > p {
      AtLeast(q - p, m);
    } else if p > q {
      AtLeast(p - q, m);
    }
  }

  lemma ModMul(x: int, y: int, m: nat)
    requires m > 0
    ensures (x % m) * (y % m) % m == x * y % m
  {
    var q, r := x / m, x % m;
    var p, s := y / m, y % m;
    assert x == q * m + r && y == p * m + s;
    Expand(q, r, p, s, m);
    ModShift(r * s, q * p * m + q * s + r * p, m);
  }

  lemma Expand(q: int, r: int, p: int, s: int, m: int)
    ensures (q * m + r) * (p * m + s) == r * s + (q * p * m + q * s + r * p) * m
  {
  }

  lemma {:induction false} ModPow(a: nat, e: nat, m: nat)
    requires m > 0
    ensures Pow(a % m, e) % m == Pow(a, e) % m
  {
    if e > 0 {
      ModPow(a, e - 1, m);
      calc {
        Pow(a % m, e) % m;
        (a % m) * Pow(a % m, e - 1) % m;
        { ModMul(a % m, Pow(a % m, e - 1), m); ModTwice(a, m); }
        (a % m) * (Pow(a % m, e - 1) % m) % m;
        (a % m) * (Pow(a, e - 1) % m) % m;
        { ModMul(a, Pow(a, e - 1), m); }
        a * Pow(a, e - 1) % m;
      }
    }
  }

  lemma ModTwice(a: nat, m: nat)
    requires m > 0
    ensures a % m % m == a % m
  {
  }

  /** The two blinded exponentiations multiply to the one that is wanted, whatever the blinding value. */
  lemma BlindedIsPow(a: nat, priv: Priv, blinding: Priv, m: nat)
    requires m > 0
    ensures BlindedModExp(a, priv, blinding, m) == Pow(a, Exponent(priv)) % m
  {
    ExponentsPositive(priv, blinding);
    var x, y := BlindingExponent(blinding), BlindedExponent(priv, blinding);
    PowAdd(a, x, y);
    ModMul(Pow(a, x), Pow(a, y), m);
  }

  /** The number of bytes of a number. */
  function NumBytes(n: nat): nat {
    if n == 0 then 0 else 1 + NumBytes(n / 256)
  }

  /** A number in a field of `k` bytes: as few bytes as it has, after zeros, are its big-endian encoding. */
  lemma {:induction false} ExportFits(n: nat, k: nat)
    requires n < Pow256(k)
    ensures NumBytes(n) <= k && Zeros(k - NumBytes(n)) + BeEnc(n, NumBytes(n)) == BeEnc(n, k)
  {
    if n == 0 {
      EncodeZero(k);
    } else {
      ExportFits(n / 256, k - 1);
      var z, e := Zeros(k - NumBytes(n)), BeEnc(n / 256, NumBytes(n / 256));
      assert z + (e + [n % 256]) == (z + e) + [n % 256];
    }
  }

  lemma {:induction false} EncodeZero(k: nat)
    ensures BeEnc(0, k) == Zeros(k)
  {
    if k > 0 {
      EncodeZero(k - 1);
      assert Zeros(k) == Zeros(k - 1) + [0];
    }
  }

  /** A modulus of 256 bytes. */
  type Group = b: bytes | |b| == 256 && b[0] > 0 witness GROUP14

  lemma ModulusBounds(g: Group)
    ensures 2 < BeDec(g) < Pow256(PUBLEN)
  {
    BeDecBound(g);
    assert g == [g[0]] + g[1..];
    BeDecCons(g[0], g[1..]);
    AtLeast(g[0], Pow256(255));
    Pow256Large(255);
  }

  lemma Pow256Large(k: nat)
    requires k >= 1
    ensures Pow256(k) >= 256
  {
    assert Pow256(k - 1) >= 1;
  }

  function Modulus(g: Group): (m: nat)
    ensures 2 < m < Pow256(PUBLEN)
  {
    ModulusBounds(g);
    BeDec(g)
  }

  /** The end of `blinded_modexp`. */
  function Export(n: nat): Pub
    requires n < Pow256(PUBLEN)
  {
    ExportFits(n, PUBLEN);
    Zeros(PUBLEN - NumBytes(n)) + BeEnc(n, NumBytes(n))
  }

  lemma ExportRoundTrip(n: nat)
    requires n < Pow256(PUBLEN)
    ensures BeDec(Export(n)) == n
  {
    ExportFits(n, PUBLEN);
    BeDecEnc(n, PUBLEN);
  }

  /** `crypto_dh_compute`, and with the base 2 `crypto_dh_generate_pub`. */
  function Power(g: Group, a: nat, priv: Priv, blinding: Priv): Pub {
    Export(BlindedModExp(a, priv, blinding, Modulus(g)))
  }

  function GeneratePub(g: Group, priv: Priv, blinding: Priv): Pub {
    Power(g, 2, priv, blinding)
  }

  function Compute(g: Group, pub: Pub, priv: Priv, blinding: Priv): Pub {
    Power(g, BeDec(pub), priv, blinding)
  }

  lemma PowerIs(g: Group, a: nat, priv: Priv, blinding: Priv)
    ensures BeDec(Power(g, a, priv, blinding)) == Pow(a, Exponent(priv)) % Modulus(g)
  {
    ExportRoundTrip(BlindedModExp(a, priv, blinding, Modulus(g)));
    BlindedIsPow(a, priv, blinding, Modulus(g));
  }

  lemma SameNumber(p: Pub, q: Pub)
    requires BeDec(p) == BeDec(q)
    ensures p == q
  {
    BeEncDec(p);
    BeEncDec(q);
  }

  /** The key is the base to both exponents, whatever was used for blinding. */
  lemma SharedKey(g: Group, x: Priv, s: Priv, y: Priv, t: Priv)
    ensures BeDec(Compute(g, GeneratePub(g, x, s), y, t)) == Pow(2, Times(Exponent(x), Exponent(y))) % Modulus(g)
  {
    var m, ex, ey := Modulus(g), Exponent(x), Exponent(y);
    PowerIs(g, 2, x, s);
    PowerIs(g, BeDec(GeneratePub(g, x, s)), y, t);
    ModPow(Pow(2, ex), ey, m);
    PowMul(2, ex, ey);
  }

  /** The two parties agree, whatever either of them uses for blinding. */
  lemma Agreement(g: Group, x: Priv, y: Priv, b1: Priv, b2: Priv, b3: Priv, b4: Priv)
    ensures Compute(g, GeneratePub(g, x, b1), y, b2) == Compute(g, GeneratePub(g, y, b3), x, b4)
  {
    SharedKey(g, x, b1, y, b2);
    SharedKey(g, y, b3, x, b4);
    assert Times(Exponent(x), Exponent(y)) == Times(Exponent(y), Exponent(x));
    SameNumber(Compute(g, GeneratePub(g, x, b1), y, b2), Compute(g, GeneratePub(g, y, b3), x, b4));
  }

  /** The big-endian encoding of 1. */
  const ONE: Pub := Zeros(255) + [1]

  lemma OneIsOne()
    ensures BeDec(ONE) == 1
  {
    BeDecZeros(255);
    assert ONE[..255] == Zeros(255);
  }

  /** A peer value of 1 gives the key 1. */
  lemma ComputeOne(g: Group, one: Pub, priv: Priv, blinding: Priv)
    requires BeDec(one) == 1
    ensures Compute(g, one, priv, blinding) == one
  {
    PowerOfOne(g, priv, blinding);
    SameNumber(Power(g, 1, priv, blinding), one);
  }

  lemma PowerOfOne(g: Group, priv: Priv, blinding: Priv)
    ensures BeDec(Power(g, 1, priv, blinding)) == 1
  {
    PowerIs(g, 1, priv, blinding);
    PowOne(Exponent(priv));
    SmallMod(1, Modulus(g));
  }

  lemma SmallMod(x: nat, m: nat)
    requires x < m
    ensures x % m == x
  {
  }

  function Memcmp(a: bytes, b: bytes): int
    requires |a| == |b|
  {
    if a == [] then 0 else if a[0] != b[0] then a[0] - b[0] else Memcmp(a[1..], b[1..])
  }

  /** Comparing bytes from the front compares big-endian numbers. */
  lemma {:induction false} MemcmpIsNumeric(a: bytes, b: bytes)
    requires |a| == |b|
    ensures Memcmp(a, b) < 0 <==> BeDec(a) < BeDec(b)
    ensures Memcmp(a, b) == 0 <==> BeDec(a) == BeDec(b)
  {
    if a != [] {
      assert a == [a[0]] + a[1..] && b == [b[0]] + b[1..];
      BeDecCons(a[0], a[1..]);
      BeDecCons(b[0], b[1..]);
      BeDecBound(a[1..]);
      BeDecBound(b[1..]);
      if a[0] == b[0] {
        MemcmpIsNumeric(a[1..], b[1..]);
      } else {
        LeadingDigit(a[0], BeDec(a[1..]), b[0], BeDec(b[1..]), Pow256(|a| - 1));
      }
    }
  }

  lemma LeadingDigit(x: int, u: int, y: int, v: int, w: int)
    requires 0 <= u < w && 0 <= v < w && x != y
    ensures x * w + u < y * w + v <==> x < y
    ensures x * w + u != y * w + v
  {
    if x < y {
      AtLeast(y - x, w);
    } else {
      AtLeast(x - y, w);
    }
  }

  /** `crypto_dh_sanitycheck` */
  function SanityCheck(g: Group, pub: Pub): int {
    if Memcmp(pub, g) >= 0 then -1 else 0
  }

  /** It accepts exactly the values below the modulus, which are also all that is ever generated. */
  lemma SaneIffBelow(g: Group, pub: Pub)
    ensures SanityCheck(g, pub) == 0 <==> BeDec(pub) < Modulus(g)
  {
    MemcmpIsNumeric(pub, g);
  }

  lemma GeneratedIsSane(g: Group, priv: Priv, blinding: Priv)
    ensures SanityCheck(g, GeneratePub(g, priv, blinding)) == 0 && SanityCheck(g, ONE) == 0
  {
    PowerIs(g, 2, priv, blinding);
    SaneIffBelow(g, GeneratePub(g, priv, blinding));
    OneIsOne();
    SaneIffBelow(g, ONE);
  }
}
