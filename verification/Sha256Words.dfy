/**
  The part of FIPS 180-4 that works on 32-bit words: the functions of section 4.1.2, the constants of
  section 4.2.2, and the message schedule and rounds of section 6.2.2.
 */
module Sha256Words {
  type word = bv32

  function Ch(x: word, y: word, z: word): word {
    (x & y) ^ (!x & z)
  }

  function Maj(x: word, y: word, z: word): word {
    (x & y) ^ (x & z) ^ (y & z)
  }

  /** The rotation ROTR^n(x) is written out as `(x >> n) | (x << (32 - n))`. */
  function BigSigma0(x: word): word {
    ((x >> 2) | (x << 30)) ^ ((x >> 13) | (x << 19)) ^ ((x >> 22) | (x << 10))
  }

  function BigSigma1(x: word): word {
    ((x >> 6) | (x << 26)) ^ ((x >> 11) | (x << 21)) ^ ((x >> 25) | (x << 7))
  }

  function SmallSigma0(x: word): word {
    ((x >> 7) | (x << 25)) ^ ((x >> 18) | (x << 14)) ^ (x >> 3)
  }

  function SmallSigma1(x: word): word {
    ((x >> 17) | (x << 15)) ^ ((x >> 19) | (x << 13)) ^ (x >> 10)
  }

  /** The round constants. */
  const K: seq<word> := [
    0x428a2f98, 0x71374491, 0xb5c0fbcf, 0xe9b5dba5, 0x3956c25b, 0x59f111f1, 0x923f82a4, 0xab1c5ed5,
    0xd807aa98, 0x12835b01, 0x243185be, 0x550c7dc3, 0x72be5d74, 0x80deb1fe, 0x9bdc06a7, 0xc19bf174,
    0xe49b69c1, 0xefbe4786, 0x0fc19dc6, 0x240ca1cc, 0x2de92c6f, 0x4a7484aa, 0x5cb0a9dc, 0x76f988da,
    0x983e5152, 0xa831c66d, 0xb00327c8, 0xbf597fc7, 0xc6e00bf3, 0xd5a79147, 0x06ca6351, 0x14292967,
    0x27b70a85, 0x2e1b2138, 0x4d2c6dfc, 0x53380d13, 0x650a7354, 0x766a0abb, 0x81c2c92e, 0x92722c85,
    0xa2bfe8a1, 0xa81a664b, 0xc24b8b70, 0xc76c51a3, 0xd192e819, 0xd6990624, 0xf40e3585, 0x106aa070,
    0x19a4c116, 0x1e376c08, 0x2748774c, 0x34b0bcb5, 0x391c0cb3, 0x4ed8aa4a, 0x5b9cca4f, 0x682e6ff3,
    0x748f82ee, 0x78a5636f, 0x84c87814, 0x8cc70208, 0x90befffa, 0xa4506ceb, 0xbef9a3f7, 0xc67178f2
  ]

  const InitialState: seq<word> := [
    0x6a09e667, 0xbb67ae85, 0x3c6ef372, 0xa54ff53a, 0x510e527f, 0x9b05688c, 0x1f83d9ab, 0x5be0cd19
  ]

  function RoundConstant(t: nat): word {
    if t < 64 then K[t] else 0
  }

  function Add(x: word, y: word): word {
    x + y
  }

  /**
    Addition, the round constants and the six logical functions.  What follows depends on them only as
    functions, so it is stated for any choice of them; `Fips` is the choice of the standard.
   */
  datatype Logic = Logic(
    add: (word, word) -> word, k: nat -> word,
    bigSigma0: word -> word, bigSigma1: word -> word, smallSigma0: word -> word, smallSigma1: word -> word,
    ch: (word, word, word) -> word, maj: (word, word, word) -> word)

  const Fips: Logic := Logic(Add, RoundConstant, BigSigma0, BigSigma1, SmallSigma0, SmallSigma1, Ch, Maj)

  /** The word that extends the message schedule `w` by one. */
  function NextWord(fn: Logic, w: seq<word>): word
    requires |w| >= 16
  {
    var t := |w|;
    fn.add(fn.add(fn.add(fn.smallSigma1(w[t - 2]), w[t - 7]), fn.smallSigma0(w[t - 15])), w[t - 16])
  }

  /** The first `16 + n` words of the message schedule that starts with the 16 words `m`. */
  function Schedule(fn: Logic, m: seq<word>, n: nat): (w: seq<word>)
    requires |m| == 16
    ensures |w| == 16 + n
  {
    if n == 0 then m else var w := Schedule(fn, m, n - 1); w + [NextWord(fn, w)]
  }

  /** The working variables. */
  datatype Regs = Regs(a: word, b: word, c: word, d: word, e: word, f: word, g: word, h: word)

  /** One round, with round constant `k` and schedule word `w`. */
  function Round(fn: Logic, r: Regs, k: word, w: word): Regs {
    var t1 := fn.add(fn.add(fn.add(fn.add(r.h, fn.bigSigma1(r.e)), fn.ch(r.e, r.f, r.g)), k), w);
    var t2 := fn.add(fn.bigSigma0(r.a), fn.maj(r.a, r.b, r.c));
    Regs(fn.add(t1, t2), r.a, r.b, r.c, fn.add(r.d, t1), r.e, r.f, r.g)
  }

  /** The working variables after the first `t` rounds. */
  function Rounds(fn: Logic, r: Regs, w: seq<word>, t: nat): Regs
    requires t <= |w|
  {
    if t == 0 then r else Round(fn, Rounds(fn, r, w, t - 1), fn.k(t - 1), w[t - 1])
  }

  function ToRegs(s: seq<word>): Regs
    requires |s| == 8
  {
    Regs(s[0], s[1], s[2], s[3], s[4], s[5], s[6], s[7])
  }

  /** The hash value after one more message block, given as 16 words. */
  function CompressWords(fn: Logic, state: seq<word>, m: seq<word>): (r: seq<word>)
    requires |state| == 8 && |m| == 16
    ensures |r| == 8
  {
    var r := Rounds(fn, ToRegs(state), Schedule(fn, m, 48), 64);
    [fn.add(state[0], r.a), fn.add(state[1], r.b), fn.add(state[2], r.c), fn.add(state[3], r.d),
     fn.add(state[4], r.e), fn.add(state[5], r.f), fn.add(state[6], r.g), fn.add(state[7], r.h)]
  }
}
