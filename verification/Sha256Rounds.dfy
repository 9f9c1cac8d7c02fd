/**
  The SHA-256 block compression of `libcperciva/alg/sha256.c`: rotating registers, rewritten `Ch` and
  `Maj`, and a message schedule that is extended 16 words at a time.
 */
module Sha256Rounds {
  import opened Sha256Words
  import opened Unfolding

  /** The macros `Ch` and `Maj` as the source writes them. */
  function ChFast(x: word, y: word, z: word): word {
    (x & (y ^ z)) ^ z
  }

  function MajFast(x: word, y: word, z: word): word {
    (x & (y | z)) | (y & z)
  }

  lemma ChRewritten(x: word, y: word, z: word)
    ensures (x & (y ^ z)) ^ z == (x & y) ^ (!x & z)
  {
  }

  lemma ChFastIsCh(x: word, y: word, z: word)
    ensures ChFast(x, y, z) == Ch(x, y, z)
  {
    ChRewritten(x, y, z);
  }

  lemma MajRewritten(x: word, y: word, z: word)
    ensures (x & (y | z)) | (y & z) == (x & y) ^ (x & z) ^ (y & z)
  {
  }

  lemma MajFastIsMaj(x: word, y: word, z: word)
    ensures MajFast(x, y, z) == Maj(x, y, z)
  {
    MajRewritten(x, y, z);
  }

  /** The registers with their names moved on by one. */
  function Turn(r: Regs): Regs {
    Regs(r.h, r.a, r.b, r.c, r.d, r.e, r.f, r.g)
  }

  /** The working variables as round `i` sees them: the names move, the contents stay. */
  function View(s: seq<word>, i: nat): Regs
    requires |s| == 8
  {
    if i == 0 then ToRegs(s) else Turn(View(s, i - 1))
  }

  /** Where round `i` keeps its register number `j`. */
  function Index(i: nat, j: nat): (k: nat)
    requires i <= 64
    ensures k < 8
  {
    (64 + j - i) % 8
  }

  lemma {:induction false} ViewIndex(s: seq<word>, i: nat)
    requires |s| == 8 && i <= 64
    ensures View(s, i) ==
            Regs(s[Index(i, 0)], s[Index(i, 1)], s[Index(i, 2)], s[Index(i, 3)],
                 s[Index(i, 4)], s[Index(i, 5)], s[Index(i, 6)], s[Index(i, 7)])
  {
    if i > 0 {
      ViewIndex(s, i - 1);
      IndexMoves(i - 1);
    }
  }

  lemma IndexMoves(i: nat)
    requires i < 64
    ensures Index(i + 1, 0) == Index(i, 7)
    ensures forall j :: 0 <= j < 7 ==> Index(i + 1, j + 1) == Index(i, j)
  {
    assert 64 + 0 - (i + 1) + 8 == 64 + 7 - i;
  }

  lemma IndexDistinct(i: nat, j: nat, k: nat)
    requires i <= 64 && j < k < 8
    ensures Index(i, j) != Index(i, k)
  {
  }

  /** The six functions as the macros of the source write them. */
  const Macros: Logic := Logic(Add, RoundConstant, BigSigma0, BigSigma1, SmallSigma0, SmallSigma1, ChFast, MajFast)

  /** Always true; naming it is how a proof asks for the laws of addition on three words. */
  ghost predicate Regroup(x: word, y: word, z: word) {
    true
  }

  /** The addition is one. */
  ghost predicate Additive(fn: Logic) {
    forall x, y, z {:trigger Regroup(x, y, z)} :: Regroup(x, y, z) ==>
      fn.add(x, y) == fn.add(y, x) && fn.add(fn.add(x, y), z) == fn.add(x, fn.add(y, z))
  }

  lemma AddCommutes(x: word, y: word)
    ensures Add(x, y) == Add(y, x)
  {
    assert x + y == y + x;
  }

  lemma AddAssociates(x: word, y: word, z: word)
    ensures Add(Add(x, y), z) == Add(x, Add(y, z))
  {
    calc {
      Add(Add(x, y), z);
      Add(x + y, z);
      (x + y) + z;
      x + (y + z);
      Add(x, y + z);
      Add(x, Add(y, z));
    }
  }

  lemma MacrosAdd(x: word, y: word, z: word)
    ensures Macros.add(x, y) == Macros.add(y, x)
    ensures Macros.add(Macros.add(x, y), z) == Macros.add(x, Macros.add(y, z))
  {
    AddCommutes(x, y);
    AddAssociates(x, y, z);
  }

  lemma MacrosAdditive()
    ensures Additive(Macros)
  {
    forall x: word, y: word, z: word | Regroup(x, y, z)
      ensures Macros.add(x, y) == Macros.add(y, x) && Macros.add(Macros.add(x, y), z) == Macros.add(x, Macros.add(y, z))
    {
      MacrosAdd(x, y, z);
    }
  }

  /** The macro `RND`: first `h` without the last two terms, which `d` needs, and then all of `h`. */
  function RndT1(fn: Logic, r: Regs, kw: word): word {
    fn.add(r.h, fn.add(fn.add(fn.bigSigma1(r.e), fn.ch(r.e, r.f, r.g)), kw))
  }

  function RndH(fn: Logic, r: Regs, t1: word): word {
    fn.add(t1, fn.add(fn.bigSigma0(r.a), fn.maj(r.a, r.b, r.c)))
  }

  /** Adding in another order and grouping makes no difference. */
  lemma SumsAgree(fn: Logic, h: word, s: word, c: word, k: word, w: word)
    requires Additive(fn)
    ensures fn.add(h, fn.add(fn.add(s, c), fn.add(w, k))) == fn.add(fn.add(fn.add(fn.add(h, s), c), k), w)
  {
    assert Regroup(w, k, w) && Regroup(h, fn.add(s, c), fn.add(k, w)) && Regroup(h, s, c);
    assert Regroup(fn.add(fn.add(h, s), c), k, w);
  }

  /** Updating two registers in place is a round, seen with all registers rotated by one. */
  lemma RndIsRound(fn: Logic, r: Regs, k: word, w: word)
    requires Additive(fn)
    ensures var t1 := RndT1(fn, r, fn.add(w, k));
      Round(fn, r, k, w) == Regs(RndH(fn, r, t1), r.a, r.b, r.c, fn.add(r.d, t1), r.e, r.f, r.g)
  {
    SumsAgree(fn, r.h, fn.bigSigma1(r.e), fn.ch(r.e, r.f, r.g), k, w);
  }

  /** The macro `RNDr`: the register file after round `i`. */
  function RndR(fn: Logic, s: seq<word>, i: nat, kw: word): (t: seq<word>)
    requires |s| == 8 && i < 64
    ensures |t| == 8
  {
    var r := View(s, i);
    var t1 := RndT1(fn, r, kw);
    s[Index(i, 3) := fn.add(r.d, t1)][Index(i, 7) := RndH(fn, r, t1)]
  }

  /** Writing the new `d` and `h` into the register file and rotating the view. */
  lemma Rotated(s: seq<word>, i: nat, d: word, h: word)
    requires |s| == 8 && i < 64
    ensures var r := View(s, i);
      View(s[Index(i, 3) := d][Index(i, 7) := h], i + 1) == Regs(h, r.a, r.b, r.c, d, r.e, r.f, r.g)
  {
    ViewIndex(s, i);
    ViewIndex(s[Index(i, 3) := d][Index(i, 7) := h], i);
    forall j | 0 <= j < 7
      ensures Index(i, j) != Index(i, 7) && (j != 3 ==> Index(i, j) != Index(i, 3))
    {
      IndexDistinct(i, j, 7);
      if j != 3 {
        IndexDistinct(i, if j < 3 then j else 3, if j < 3 then 3 else j);
      }
    }
    assert Index(i, 0) != Index(i, 3) && Index(i, 1) != Index(i, 3) && Index(i, 2) != Index(i, 3);
    assert Index(i, 4) != Index(i, 3) && Index(i, 5) != Index(i, 3) && Index(i, 6) != Index(i, 3);
  }

  lemma RndRIsRound(fn: Logic, s: seq<word>, i: nat, k: word, w: word)
    requires |s| == 8 && i < 64 && Additive(fn)
    ensures View(RndR(fn, s, i, fn.add(w, k)), i + 1) == Round(fn, View(s, i), k, w)
  {
    var r := View(s, i);
    var t1 := RndT1(fn, r, fn.add(w, k));
    RndIsRound(fn, r, k, w);
    Rotated(s, i, fn.add(r.d, t1), RndH(fn, r, t1));
  }

  lemma FullTurn(s: seq<word>)
    requires |s| == 8
    ensures View(s, 16) == View(s, 0)
  {
    ViewIndex(s, 16);
  }

  lemma {:induction false} SchedulePrefix(fn: Logic, m: seq<word>, n: nat, k: nat)
    requires |m| == 16 && n <= k
    ensures Schedule(fn, m, n) == Schedule(fn, m, k)[..16 + n]
    decreases k - n
  {
    if n < k {
      SchedulePrefix(fn, m, n + 1, k);
      assert Schedule(fn, m, n) == Schedule(fn, m, n + 1)[..16 + n];
    }
  }

  /** One round in place. */
  method MixOne(fn: Logic, S: array<word>, i: nat, k: word, w: word)
    requires S.Length == 8 && i < 64 && Additive(fn)
    modifies S
    ensures View(S[..], i + 1) == Round(fn, View(old(S[..]), i), k, w)
  {
    RndRIsRound(fn, S[..], i, k, w);
    var t := RndR(fn, S[..], i, fn.add(w, k));
    S[Index(i, 3)], S[Index(i, 7)] := t[Index(i, 3)], t[Index(i, 7)];
    assert S[..] == t;
  }

  /** The working variables before each round and after the last one, for the schedule `w`. */
  ghost predicate IsTrace(fn: Logic, rs: seq<Regs>, w: seq<word>) {
    |rs| == |w| + 1 && forall t :: 0 <= t < |w| ==> rs[t + 1] == Round(fn, rs[t], fn.k(t), w[t])
  }

  ghost function Trace(fn: Logic, r: Regs, w: seq<word>): (rs: seq<Regs>)
    ensures IsTrace(fn, rs, w) && rs[0] == r && rs[|w|] == Rounds(fn, r, w, |w|)
  {
    var rs := seq(|w| + 1, t requires 0 <= t <= |w| => Rounds(fn, r, w, t));
    rs
  }

  /** Before round `i` of sixteen, the array holds the working variables `r`. */
  ghost predicate Standing(s: seq<word>, i: nat, r: Regs) {
    |s| == 8 && forall x :: x == VIEWED && About(x) ==> View(s, i) == r
  }

  lemma StandsAgain(s: seq<word>, r: Regs)
    requires Standing(s, 16, r)
    ensures Standing(s, 0, r)
  {
    assert About(VIEWED);
    FullTurn(s);
  }

  method MixStep(fn: Logic, W: array<word>, S: array<word>, i: nat, ii: nat, ghost rs: seq<Regs>, ghost w: seq<word>)
    requires S.Length == 8 && ii + i < W.Length && i < 16 && Additive(fn)
    requires IsTrace(fn, rs, w) && ii + i < |w| && W[ii + i] == w[ii + i]
    requires Standing(S[..], i, rs[ii + i])
    modifies S
    ensures Standing(S[..], i + 1, rs[ii + i + 1])
  {
    assert About(VIEWED);
    MixOne(fn, S, i, fn.k(i + ii), W[i + ii]);
  }

  /** Sixteen rounds in place. */
  method MixSixteen(fn: Logic, W: array<word>, S: array<word>, ii: nat, ghost rs: seq<Regs>, ghost w: seq<word>)
    requires S.Length == 8 && S != W && Additive(fn)
    requires IsTrace(fn, rs, w) && Computed(W[..], w, ii + 16) && Standing(S[..], 0, rs[ii])
    modifies S
    ensures Standing(S[..], 0, rs[ii + 16])
  {
    for i := 0 to 16
      invariant Standing(S[..], i, rs[ii + i])
    {
      MixStep(fn, W, S, i, ii, rs, w);
    }
    StandsAgain(S[..], rs[ii + 16]);
  }

  /** `w` is a whole message schedule. */
  ghost predicate IsSchedule(fn: Logic, w: seq<word>) {
    |w| == 64 && forall t :: 16 <= t < 64 ==> w[t] == NextWord(fn, w[..t])
  }

  lemma ScheduleIsSchedule(fn: Logic, m: seq<word>)
    requires |m| == 16
    ensures IsSchedule(fn, Schedule(fn, m, 48)) && Schedule(fn, m, 48)[..16] == m
  {
    var w := Schedule(fn, m, 48);
    forall t | 16 <= t < 64
      ensures w[t] == NextWord(fn, w[..t])
    {
      SchedulePrefix(fn, m, t - 16, 48);
      SchedulePrefix(fn, m, t - 15, 48);
      assert w[t] == w[..t + 1][t];
    }
    SchedulePrefix(fn, m, 0, 48);
  }

  /** The first `n` words of `w` have been computed. */
  ghost predicate Computed(W: seq<word>, w: seq<word>, n: nat) {
    n <= |W| == |w| && forall t :: 0 <= t < n ==> W[t] == w[t]
  }

  /** The macro `MSCH`: one more word of the schedule. */
  lemma OneMoreWord(fn: Logic, W: seq<word>, w: seq<word>, n: nat)
    requires IsSchedule(fn, w) && Computed(W, w, n) && 16 <= n < 64
    ensures w[n] == fn.add(fn.add(fn.add(fn.smallSigma1(W[n - 2]), W[n - 7]), fn.smallSigma0(W[n - 15])), W[n - 16])
  {
    assert w[n] == NextWord(fn, w[..n]);
  }

  method ExtendSixteen(fn: Logic, W: array<word>, ii: nat, ghost w: seq<word>)
    requires ii + 32 <= 64 && IsSchedule(fn, w) && Computed(W[..], w, ii + 16)
    modifies W
    ensures Computed(W[..], w, ii + 32)
  {
    for i := 0 to 16
      invariant Computed(W[..], w, ii + 16 + i)
    {
      OneMoreWord(fn, W[..], w, ii + 16 + i);
      W[i + ii + 16] :=
        fn.add(fn.add(fn.add(fn.smallSigma1(W[i + ii + 14]), W[i + ii + 9]), fn.smallSigma0(W[i + ii + 1])), W[i + ii]);
    }
  }

  /** The mixing loop of `SHA256_Transform`: 64 rounds, with the schedule extended between them. */
  method Mix(fn: Logic, W: array<word>, S: array<word>, ghost rs: seq<Regs>, ghost w: seq<word>)
    requires S.Length == 8 && S != W && Additive(fn)
    requires IsSchedule(fn, w) && IsTrace(fn, rs, w)
    requires Computed(W[..], w, 16) && Standing(S[..], 0, rs[0])
    modifies W, S
    ensures Standing(S[..], 0, rs[64])
  {
    var i := 0;
    while i < 64
      invariant i % 16 == 0 && i <= 64
      invariant Standing(S[..], 0, rs[i])
      invariant i < 64 ==> Computed(W[..], w, i + 16)
    {
      MixSixteen(fn, W, S, i, rs, w);
      if i == 48 {
        break;
      }
      ExtendSixteen(fn, W, i, w);
      i := i + 16;
    }
  }

  /** The schedule of a block and the working variables of all its rounds. */
  lemma Plan(fn: Logic, state: seq<word>, W: seq<word>) returns (w: seq<word>, rs: seq<Regs>)
    requires |state| == 8 && |W| == 64
    ensures IsSchedule(fn, w) && IsTrace(fn, rs, w) && Computed(W, w, 16) && rs[0] == ToRegs(state)
    ensures forall s: seq<word>, out: seq<word> {:trigger Finishes(fn, rs[64], state, s, out)} ::
              Finishes(fn, rs[64], state, s, out) ==> out == CompressWords(fn, state, W[..16])
  {
    w := Schedule(fn, W[..16], 48);
    ScheduleIsSchedule(fn, W[..16]);
    StartOfSchedule(W, w);
    rs := Trace(fn, ToRegs(state), w);
    forall s: seq<word>, out: seq<word> | Finishes(fn, rs[64], state, s, out)
      ensures out == CompressWords(fn, state, W[..16])
    {
      CompressIs(fn, state, W[..16], s, out);
    }
  }

  /** `out` is the old hash value with the final working variables, held in `s`, added in. */
  ghost predicate Finishes(fn: Logic, r: Regs, state: seq<word>, s: seq<word>, out: seq<word>) {
    |state| == |s| == |out| == 8 && ToRegs(s) == r && forall k :: 0 <= k < 8 ==> out[k] == fn.add(state[k], s[k])
  }

  lemma CompressIs(fn: Logic, state: seq<word>, m: seq<word>, s: seq<word>, out: seq<word>)
    requires |state| == 8 && |m| == 16
    requires Finishes(fn, Rounds(fn, ToRegs(state), Schedule(fn, m, 48), 64), state, s, out)
    ensures out == CompressWords(fn, state, m)
  {
  }

  /** `SHA256_Transform` from its second step on, for the block whose words are in `W`. */
  method MixBlock(fn: Logic, state: array<word>, W: array<word>, S: array<word>, ghost rs: seq<Regs>,
                  ghost w: seq<word>)
    requires state.Length == 8 && S.Length == 8 && Additive(fn)
    requires state != W && state != S && W != S
    requires IsSchedule(fn, w) && IsTrace(fn, rs, w) && Computed(W[..], w, 16) && rs[0] == ToRegs(state[..])
    modifies state, W, S
    ensures Finishes(fn, rs[64], old(state[..]), S[..], state[..])
  {
    CopyState(state, S);
    Mix(fn, W, S, rs, w);
    assert About(VIEWED);
    MixIn(fn, state, S);
  }

  /** `SHA256_Transform` once `W` holds the words of the block; `W` and `S` are the caller's scratch space. */
  method Transform(fn: Logic, state: array<word>, W: array<word>, S: array<word>)
    requires state.Length == 8 && W.Length == 64 && S.Length == 8 && Additive(fn)
    requires state != W && state != S && W != S
    modifies state, W, S
    ensures state[..] == CompressWords(fn, old(state[..]), old(W[..16]))
  {
    ghost var w, rs := Plan(fn, state[..], W[..]);
    assert W[..][..16] == W[..16];
    MixBlock(fn, state, W, S, rs, w);
  }

  lemma StartOfSchedule(W: seq<word>, w: seq<word>)
    requires |W| == 64 && |w| == 64 && w[..16] == W[..16]
    ensures Computed(W, w, 16)
  {
    forall t | 0 <= t < 16
      ensures W[t] == w[t]
    {
      assert W[t] == W[..16][t];
    }
  }

  /** `memcpy(S, state, 32)` */
  method CopyState(state: array<word>, S: array<word>)
    requires state.Length == 8 && S.Length == 8 && state != S
    modifies S
    ensures S[..] == state[..]
  {
    for i := 0 to 8
      invariant forall k :: 0 <= k < i ==> S[k] == state[k]
    {
      S[i] := state[i];
    }
  }

  /** The last loop of `SHA256_Transform`. */
  method MixIn(fn: Logic, state: array<word>, S: array<word>)
    requires state.Length == 8 && S.Length == 8 && state != S
    modifies state
    ensures forall k :: 0 <= k < 8 ==> state[k] == fn.add(old(state[k]), S[k])
  {
    for i := 0 to 8
      invariant forall k :: 0 <= k < i ==> state[k] == fn.add(old(state[k]), S[k])
      invariant forall k :: i <= k < 8 ==> state[k] == old(state[k])
    {
      state[i] := fn.add(state[i], S[i]);
    }
  }

  /** Two choices of the functions that never differ. */
  ghost predicate Agree(fn: Logic, gn: Logic) {
    && fn.add == gn.add && fn.k == gn.k
    && (forall x :: fn.bigSigma0(x) == gn.bigSigma0(x))
    && (forall x :: fn.bigSigma1(x) == gn.bigSigma1(x))
    && (forall x :: fn.smallSigma0(x) == gn.smallSigma0(x))
    && (forall x :: fn.smallSigma1(x) == gn.smallSigma1(x))
    && (forall x, y, z :: fn.ch(x, y, z) == gn.ch(x, y, z))
    && (forall x, y, z :: fn.maj(x, y, z) == gn.maj(x, y, z))
  }

  lemma MacrosAgree()
    ensures Agree(Macros, Fips)
  {
    forall x: word, y: word, z: word
      ensures ChFast(x, y, z) == Ch(x, y, z) && MajFast(x, y, z) == Maj(x, y, z)
    {
      ChFastIsCh(x, y, z);
      MajFastIsMaj(x, y, z);
    }
  }

  lemma NextWordAgrees(fn: Logic, gn: Logic, w: seq<word>)
    requires Agree(fn, gn) && |w| >= 16
    ensures NextWord(fn, w) == NextWord(gn, w)
  {
    SigmasAgree(fn, gn, w[|w| - 2], w[|w| - 15]);
  }

  lemma SigmasAgree(fn: Logic, gn: Logic, x: word, y: word)
    requires Agree(fn, gn)
    ensures fn.smallSigma1(x) == gn.smallSigma1(x) && fn.smallSigma0(y) == gn.smallSigma0(y)
  {
  }

  lemma {:induction false} ScheduleAgrees(fn: Logic, gn: Logic, m: seq<word>, n: nat)
    requires Agree(fn, gn) && |m| == 16
    ensures Schedule(fn, m, n) == Schedule(gn, m, n)
  {
    if n > 0 {
      ScheduleAgrees(fn, gn, m, n - 1);
      NextWordAgrees(fn, gn, Schedule(fn, m, n - 1));
    }
  }

  lemma {:induction false} RoundsAgree(fn: Logic, gn: Logic, r: Regs, w: seq<word>, t: nat)
    requires Agree(fn, gn) && t <= |w|
    ensures Rounds(fn, r, w, t) == Rounds(gn, r, w, t)
  {
    if t > 0 {
      RoundsAgree(fn, gn, r, w, t - 1);
    }
  }

  /** The rewritten macros do not change the compression function. */
  lemma CompressAgrees(fn: Logic, gn: Logic, state: seq<word>, m: seq<word>)
    requires Agree(fn, gn) && |state| == 8 && |m| == 16
    ensures CompressWords(fn, state, m) == CompressWords(gn, state, m)
  {
    ScheduleAgrees(fn, gn, m, 48);
    RoundsAgree(fn, gn, ToRegs(state), Schedule(fn, m, 48), 64);
  }
}
