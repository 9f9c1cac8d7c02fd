/**
  The message schedule of `libcperciva/alg/sha256_sse2.c`, four words at a time in 128-bit vectors.
 */
module Sha256Sse2 {
  import opened Sha256Words
  import opened Sha256Rounds
  import opened Unfolding

  /** A vector of four 32-bit lanes, lane 0 first. */
  datatype Vec = Vec(w0: word, w1: word, w2: word, w3: word)

  function Lane(v: Vec, i: nat): word {
    if i == 0 then v.w0 else if i == 1 then v.w1 else if i == 2 then v.w2 else v.w3
  }

  /** `_mm_shuffle_epi32(v, _MM_SHUFFLE(z, y, x, w))` */
  function Shuffle(v: Vec, z: nat, y: nat, x: nat, w: nat): Vec {
    Vec(Lane(v, w), Lane(v, x), Lane(v, y), Lane(v, z))
  }

  /**
    One 64-bit lane, with halves `lo` and `hi`, of the exclusive or of three shifts that `s1_128_low`
    and `s1_128_high` compute: two shifts of the whole lane and one of its halves.
   */
  function LaneLow(lo: word, hi: word): word {
    (((((((hi as bv64) << 32) | (lo as bv64)) >> 17) & 0xffff_ffff) as word) ^
     ((((((hi as bv64) << 32) | (lo as bv64)) >> 19) & 0xffff_ffff) as word)) ^ (lo >> 10)
  }

  function LaneHigh(lo: word, hi: word): word {
    (((((((hi as bv64) << 32) | (lo as bv64)) >> 17) >> 32) as word) ^
     ((((((hi as bv64) << 32) | (lo as bv64)) >> 19) >> 32) as word)) ^ (hi >> 10)
  }

  /** On a doubled word this is the function of the standard. */
  lemma DoubledLane(x: word)
    ensures (((((((x as bv64) << 32) | (x as bv64)) >> 17) & 0xffff_ffff) as word) ^
             ((((((x as bv64) << 32) | (x as bv64)) >> 19) & 0xffff_ffff) as word)) ^ (x >> 10)
         == ((x >> 17) | (x << 15)) ^ ((x >> 19) | (x << 13)) ^ (x >> 10)
  {
  }

  lemma LaneLowIsSigma(x: word)
    ensures LaneLow(x, x) == SmallSigma1(x)
  {
    DoubledLane(x);
  }

  /** `_mm_srli_si128(v, 8)` and `_mm_slli_si128(v, 8)` */
  function DownTwo(v: Vec): Vec {
    Vec(v.w2, v.w3, 0, 0)
  }

  function UpTwo(v: Vec): Vec {
    Vec(0, 0, v.w0, v.w1)
  }

  /** The common middle of `s1_128_low` and `s1_128_high`: lanes 1 and 3 are junk. */
  function S1Pairs(b: Vec): Vec {
    Vec(LaneLow(b.w0, b.w1), LaneHigh(b.w0, b.w1), LaneLow(b.w2, b.w3), LaneHigh(b.w2, b.w3))
  }

  /** `s1_128_low` */
  function S1Low(a: Vec): Vec {
    DownTwo(Shuffle(S1Pairs(Shuffle(a, 3, 3, 2, 2)), 2, 0, 2, 0))
  }

  /** `s1_128_high` */
  function S1High(a: Vec): Vec {
    UpTwo(Shuffle(S1Pairs(Shuffle(a, 1, 1, 0, 0)), 2, 0, 2, 0))
  }

  lemma S1LowIs(a: Vec)
    ensures S1Low(a) == Vec(SmallSigma1(a.w2), SmallSigma1(a.w3), 0, 0)
  {
    LaneLowIsSigma(a.w2);
    LaneLowIsSigma(a.w3);
  }

  lemma S1HighIs(a: Vec)
    ensures S1High(a) == Vec(0, 0, SmallSigma1(a.w0), SmallSigma1(a.w1))
  {
    LaneLowIsSigma(a.w0);
    LaneLowIsSigma(a.w1);
  }

  /** `_mm_add_epi32` */
  function Add4(fn: Logic, u: Vec, v: Vec): Vec {
    Vec(fn.add(u.w0, v.w0), fn.add(u.w1, v.w1), fn.add(u.w2, v.w2), fn.add(u.w3, v.w3))
  }

  /** The macro `s0_128`, which is the scalar function in every lane. */
  function S0Lanes(fn: Logic, v: Vec): Vec {
    Vec(fn.smallSigma0(v.w0), fn.smallSigma0(v.w1), fn.smallSigma0(v.w2), fn.smallSigma0(v.w3))
  }

  /** The macro `SPAN_ONE_THREE`: replace lane 0 of `a` by that of `b`, and rotate it to the top. */
  function SpanOneThree(a: Vec, b: Vec): Vec {
    Shuffle(a.(w0 := b.w0), 0, 3, 2, 1)
  }

  /** The part of `MSG4` that does not depend on the new words themselves. */
  function Msg4Begin(fn: Logic, x0: Vec, x1: Vec, x2: Vec, x3: Vec): Vec {
    Add4(fn, Add4(fn, x0, SpanOneThree(x2, x3)), S0Lanes(fn, SpanOneThree(x0, x1)))
  }

  /** `MSG4`, for any way `low` and `high` of computing the two halves of the last term. */
  function Msg4(fn: Logic, low: Vec -> Vec, high: Vec -> Vec, x0: Vec, x1: Vec, x2: Vec, x3: Vec): Vec {
    var x4 := Add4(fn, Msg4Begin(fn, x0, x1, x2, x3), low(x3));
    Add4(fn, x4, high(x4))
  }

  /** `low` and `high` put the scalar function into two lanes and zero into the other two. */
  ghost predicate Halves(fn: Logic, low: Vec -> Vec, high: Vec -> Vec) {
    && (forall a :: low(a) == Vec(fn.smallSigma1(a.w2), fn.smallSigma1(a.w3), 0, 0))
    && (forall a :: high(a) == Vec(0, 0, fn.smallSigma1(a.w0), fn.smallSigma1(a.w1)))
    && (forall x :: fn.add(x, 0) == x)
  }

  lemma SourceHalves()
    ensures Halves(Macros, S1Low, S1High)
  {
    forall a: Vec
      ensures S1Low(a) == Vec(SmallSigma1(a.w2), SmallSigma1(a.w3), 0, 0)
      ensures S1High(a) == Vec(0, 0, SmallSigma1(a.w0), SmallSigma1(a.w1))
    {
      S1LowIs(a);
      S1HighIs(a);
    }
    forall x: word
      ensures Macros.add(x, 0) == x
    {
      assert x + 0 == x;
    }
  }

  /** The four terms of a schedule word, in the order in which the vector code adds them. */
  lemma SumsAgree4(fn: Logic, s1: word, w7: word, s0: word, w16: word)
    requires Additive(fn)
    ensures fn.add(fn.add(fn.add(w16, w7), s0), s1) == fn.add(fn.add(fn.add(s1, w7), s0), w16)
  {
    assert Regroup(w16, w7, s0) && Regroup(fn.add(w16, fn.add(w7, s0)), s1, s1);
    assert Regroup(w16, fn.add(w7, s0), s1) && Regroup(s1, w7, s0);
    assert Regroup(s1, fn.add(w16, fn.add(w7, s0)), s1) && Regroup(s1, w16, fn.add(w7, s0));
    assert Regroup(w16, fn.add(w7, s0), w16) && Regroup(s1, fn.add(w7, s0), w16);
  }

  /** A schedule word as the vector code sums it up. */
  function Sum4(fn: Logic, w16: word, w7: word, w15: word, w2: word): word {
    fn.add(fn.add(fn.add(w16, w7), fn.smallSigma0(w15)), fn.smallSigma1(w2))
  }

  lemma ScheduleWord(fn: Logic, w: seq<word>, t: nat)
    requires Additive(fn) && IsSchedule(fn, w) && 16 <= t < 64
    ensures w[t] == Sum4(fn, w[t - 16], w[t - 7], w[t - 15], w[t - 2])
  {
    OneMoreWord(fn, w, w, t);
    SumsAgree4(fn, fn.smallSigma1(w[t - 2]), w[t - 7], fn.smallSigma0(w[t - 15]), w[t - 16]);
  }

  lemma Msg4BeginLanes(fn: Logic, x0: Vec, x1: Vec, x2: Vec, x3: Vec)
    ensures Msg4Begin(fn, x0, x1, x2, x3) ==
      Vec(fn.add(fn.add(x0.w0, x2.w1), fn.smallSigma0(x0.w1)), fn.add(fn.add(x0.w1, x2.w2), fn.smallSigma0(x0.w2)),
          fn.add(fn.add(x0.w2, x2.w3), fn.smallSigma0(x0.w3)), fn.add(fn.add(x0.w3, x3.w0), fn.smallSigma0(x1.w0)))
  {
  }

  /** Adding first to the lower and then to the upper two lanes. */
  lemma TwoHalves(fn: Logic, low: Vec -> Vec, high: Vec -> Vec, y: Vec, x3: Vec)
    requires Halves(fn, low, high)
    ensures var x4 := Add4(fn, y, low(x3));
      Add4(fn, x4, high(x4)) ==
      Vec(x4.w0, x4.w1, fn.add(y.w2, fn.smallSigma1(x4.w0)), fn.add(y.w3, fn.smallSigma1(x4.w1)))
    ensures Add4(fn, y, low(x3)).w0 == fn.add(y.w0, fn.smallSigma1(x3.w2))
    ensures Add4(fn, y, low(x3)).w1 == fn.add(y.w1, fn.smallSigma1(x3.w3))
  {
    assert low(x3) == Vec(fn.smallSigma1(x3.w2), fn.smallSigma1(x3.w3), 0, 0);
    var x4 := Add4(fn, y, low(x3));
    assert high(x4) == Vec(0, 0, fn.smallSigma1(x4.w0), fn.smallSigma1(x4.w1));
  }

  /** The lanes of `MSG4`: the upper two are computed from the lower two. */
  lemma Msg4Lanes(fn: Logic, low: Vec -> Vec, high: Vec -> Vec, x0: Vec, x1: Vec, x2: Vec, x3: Vec)
    requires Halves(fn, low, high)
    ensures var x4 := Msg4(fn, low, high, x0, x1, x2, x3);
      && x4.w0 == Sum4(fn, x0.w0, x2.w1, x0.w1, x3.w2)
      && x4.w1 == Sum4(fn, x0.w1, x2.w2, x0.w2, x3.w3)
      && x4.w2 == Sum4(fn, x0.w2, x2.w3, x0.w3, x4.w0)
      && x4.w3 == Sum4(fn, x0.w3, x3.w0, x1.w0, x4.w1)
  {
    Msg4BeginLanes(fn, x0, x1, x2, x3);
    TwoHalves(fn, low, high, Msg4Begin(fn, x0, x1, x2, x3), x3);
  }

  ghost predicate Holds(v: Vec, w: seq<word>, j: nat) {
    j + 4 <= |w| && v == Vec(w[j], w[j + 1], w[j + 2], w[j + 3])
  }

  /**
    `MSG4` computes the next four words of the schedule, although the upper two of them depend on the
    lower two: those are complete before the second half of the last term is added.
   */
  lemma Msg4Extends(fn: Logic, low: Vec -> Vec, high: Vec -> Vec, w: seq<word>, j: nat, x0: Vec, x1: Vec, x2: Vec,
                    x3: Vec)
    requires Additive(fn) && Halves(fn, low, high) && IsSchedule(fn, w) && 16 <= j <= 60
    requires Holds(x0, w, j - 16) && Holds(x1, w, j - 12) && Holds(x2, w, j - 8) && Holds(x3, w, j - 4)
    ensures Holds(Msg4(fn, low, high, x0, x1, x2, x3), w, j)
  {
    Msg4Lanes(fn, low, high, x0, x1, x2, x3);
    ScheduleWord(fn, w, j);
    ScheduleWord(fn, w, j + 1);
    ScheduleWord(fn, w, j + 2);
    ScheduleWord(fn, w, j + 3);
  }

  /** `_mm_storeu_si128` */
  method Store(W: array<word>, j: nat, v: Vec, ghost w: seq<word>)
    requires Computed(W[..], w, j) && Holds(v, w, j)
    modifies W
    ensures Computed(W[..], w, j + 4)
  {
    W[j], W[j + 1], W[j + 2], W[j + 3] := v.w0, v.w1, v.w2, v.w3;
  }

  type Extender = (Vec, Vec, Vec, Vec) -> Vec

  /** Given sixteen consecutive words of the schedule, `msg4` computes the next four. */
  ghost predicate Extends(msg4: Extender, w: seq<word>) {
    forall x0, x1, x2, x3, k {:trigger msg4(x0, x1, x2, x3), Holds(x0, w, k)} ::
      0 <= k <= 44 && Holds(x0, w, k) && Holds(x1, w, k + 4) && Holds(x2, w, k + 8) && Holds(x3, w, k + 12) ==>
      Holds(msg4(x0, x1, x2, x3), w, k + 16)
  }

  lemma Msg4IsExtender(fn: Logic, low: Vec -> Vec, high: Vec -> Vec, w: seq<word>)
    requires Additive(fn) && Halves(fn, low, high) && IsSchedule(fn, w)
    ensures Extends((x0, x1, x2, x3) => Msg4(fn, low, high, x0, x1, x2, x3), w)
  {
    forall x0, x1, x2, x3, k | 0 <= k <= 44
      && Holds(x0, w, k) && Holds(x1, w, k + 4) && Holds(x2, w, k + 8) && Holds(x3, w, k + 12)
      ensures Holds(Msg4(fn, low, high, x0, x1, x2, x3), w, k + 16)
    {
      Msg4Extends(fn, low, high, w, k + 16, x0, x1, x2, x3);
    }
  }

  /** Compute and store the next four words. */
  method ExtendFour(msg4: Extender, W: array<word>, j: nat, x0: Vec, x1: Vec, x2: Vec, x3: Vec, ghost w: seq<word>)
    returns (x4: Vec)
    requires Extends(msg4, w) && 16 <= j <= 60 && Computed(W[..], w, j)
    requires Holds(x0, w, j - 16) && Holds(x1, w, j - 12) && Holds(x2, w, j - 8) && Holds(x3, w, j - 4)
    modifies W
    ensures Computed(W[..], w, j + 4) && Holds(x4, w, j)
  {
    x4 := msg4(x0, x1, x2, x3);
    Store(W, j, x4, w);
  }

  /** The four vectors hold sixteen words of the schedule, from word `j` on. */
  ghost predicate HoldSixteen(y0: Vec, y1: Vec, y2: Vec, y3: Vec, w: seq<word>, j: nat) {
    forall x :: x == LANES && About(x) ==>
      Holds(y0, w, j) && Holds(y1, w, j + 4) && Holds(y2, w, j + 8) && Holds(y3, w, j + 12)
  }

  method LoadSixteen(W: array<word>, ghost w: seq<word>) returns (y0: Vec, y1: Vec, y2: Vec, y3: Vec)
    requires W.Length >= 16 && Computed(W[..], w, 16)
    ensures HoldSixteen(y0, y1, y2, y3, w, 0)
  {
    y0, y1 := Vec(W[0], W[1], W[2], W[3]), Vec(W[4], W[5], W[6], W[7]);
    y2, y3 := Vec(W[8], W[9], W[10], W[11]), Vec(W[12], W[13], W[14], W[15]);
  }

  method ExtendSixteenSse2(msg4: Extender, W: array<word>, i: nat, y0: Vec, y1: Vec, y2: Vec, y3: Vec,
                           ghost w: seq<word>)
    returns (z0: Vec, z1: Vec, z2: Vec, z3: Vec)
    requires Extends(msg4, w) && i + 32 <= 64
    requires Computed(W[..], w, i + 16) && HoldSixteen(y0, y1, y2, y3, w, i)
    modifies W
    ensures Computed(W[..], w, i + 32) && HoldSixteen(z0, z1, z2, z3, w, i + 16)
  {
    assert About(LANES);
    z0 := ExtendFour(msg4, W, i + 16, y0, y1, y2, y3, w);
    z1 := ExtendFour(msg4, W, i + 20, y1, y2, y3, z0, w);
    z2 := ExtendFour(msg4, W, i + 24, y2, y3, z0, z1, w);
    z3 := ExtendFour(msg4, W, i + 28, y3, z0, z1, z2, w);
  }

  /** The mixing loop of `SHA256_Transform_sse2`: `y0` to `y3` always hold the last sixteen words. */
  method MixSse2(fn: Logic, msg4: Extender, W: array<word>, S: array<word>, ghost rs: seq<Regs>, ghost w: seq<word>)
    requires S.Length == 8 && S != W && Additive(fn) && Extends(msg4, w)
    requires |w| == 64 && IsTrace(fn, rs, w)
    requires Computed(W[..], w, 16) && Standing(S[..], 0, rs[0])
    modifies W, S
    ensures Standing(S[..], 0, rs[64])
  {
    var y0, y1, y2, y3 := LoadSixteen(W, w);
    var i := 0;
    while i < 64
      invariant i % 16 == 0 && i <= 64
      invariant Standing(S[..], 0, rs[i])
      invariant i < 64 ==> Computed(W[..], w, i + 16)
      invariant i < 64 ==> HoldSixteen(y0, y1, y2, y3, w, i)
    {
      MixSixteen(fn, W, S, i, rs, w);
      if i == 48 {
        break;
      }
      y0, y1, y2, y3 := ExtendSixteenSse2(msg4, W, i, y0, y1, y2, y3, w);
      i := i + 16;
    }
  }

  method MixBlockSse2(fn: Logic, msg4: Extender, state: array<word>, W: array<word>, S: array<word>,
                      ghost rs: seq<Regs>, ghost w: seq<word>)
    requires state.Length == 8 && S.Length == 8 && Additive(fn) && Extends(msg4, w)
    requires state != W && state != S && W != S
    requires |w| == 64 && IsTrace(fn, rs, w) && Computed(W[..], w, 16) && rs[0] == ToRegs(state[..])
    modifies state, W, S
    ensures Finishes(fn, rs[64], old(state[..]), S[..], state[..])
  {
    CopyState(state, S);
    MixSse2(fn, msg4, W, S, rs, w);
    assert About(VIEWED);
    MixIn(fn, state, S);
  }

  /** `SHA256_Transform_sse2` once `W` holds the words of the block. */
  method TransformSse2(fn: Logic, low: Vec -> Vec, high: Vec -> Vec, state: array<word>, W: array<word>, S: array<word>)
    requires state.Length == 8 && W.Length == 64 && S.Length == 8 && Additive(fn) && Halves(fn, low, high)
    requires state != W && state != S && W != S
    modifies state, W, S
    ensures state[..] == CompressWords(fn, old(state[..]), old(W[..16]))
  {
    ghost var w, rs := Plan(fn, state[..], W[..]);
    assert W[..][..16] == W[..16];
    Msg4IsExtender(fn, low, high, w);
    MixBlockSse2(fn, (x0, x1, x2, x3) => Msg4(fn, low, high, x0, x1, x2, x3), state, W, S, rs, w);
  }
}
