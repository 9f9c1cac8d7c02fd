/**
  The handshake (`lib/proto/proto_handshake.c`) as a step system of two parties and a channel in each
  direction: in every interleaving of their callbacks and however the bytes are cut up, two parties
  that both finish have the same keys.
 */
module Handshake {
  import opened Bytes
  import opened CryptoDh
  import opened KeyExchange

  datatype What = Nonces | Dh

  datatype ReadOp = NoRead | Reading(what: What, got: bytes)
  datatype WriteOp = NoWrite | Writing(what: What, left: bytes)

  datatype Outcome = Pending | Failed | Done(c: KeyPair, s: KeyPair)

  /** What a party is started with, and the random values it uses. */
  datatype Config = Config(decr: bool, nopfs: bool, requirepfs: bool, nonce: Nonce, x: Priv, b1: Priv, b2: Priv)

  /** A handshake in progress; `trouble` says that a call on the socket or for memory has failed. */
  datatype Party = Party(cfg: Config, read: ReadOp, write: WriteOp, nonceR: bytes, yhL: bytes, yhR: bytes,
                         outcome: Outcome, trouble: bool)

  function Need(what: What): nat {
    if what == Nonces then 32 else 288
  }

  /** `proto_handshake`: both nonces are on their way. */
  function Begin(cfg: Config): Party {
    Party(cfg, Reading(Nonces, []), Writing(Nonces, cfg.nonce), [], [], [], Pending, false)
  }

  /** `handshakefail` */
  function Fail(p: Party): Party {
    p.(read := NoRead, write := NoWrite, outcome := Failed)
  }

  function Broken(p: Party): Party {
    Fail(p.(trouble := true))
  }

  /** The cryptographic steps of a party: the value it sends, whether it accepts a value, and the keys it makes. */
  datatype Scheme = Scheme(yh: (Config, Nonce) -> Yh, accepts: (Config, Nonce, Yh) -> bool,
                           keys: (Config, Nonce, Yh) -> (KeyPair, KeyPair))

  /** `dhread` */
  function DhRead(p: Party, ok: bool): Party {
    if ok then p.(read := Reading(Dh, [])) else Broken(p)
  }

  /** `dhwrite` */
  function DhWrite(k: Scheme, p: Party, ok: bool): Party
    requires |p.nonceR| == 32
  {
    if !ok then Broken(p) else
      var yh := k.yh(p.cfg, p.nonceR);
      p.(yhL := yh, write := Writing(Dh, yh))
  }

  /** `gotnonces` */
  function GotNonces(k: Scheme, p: Party, ok: bool): Party
    requires |p.nonceR| == 32
  {
    if p.cfg.decr then DhRead(p, ok) else DhWrite(k, p, ok)
  }

  /** `handshakedone` */
  function Finish(k: Scheme, p: Party, ok: bool): Party
    requires |p.nonceR| == 32 && |p.yhR| == 288
  {
    if !ok then Broken(p) else
      var (c, s) := k.keys(p.cfg, p.nonceR, p.yhR);
      p.(outcome := Done(c, s))
  }

  /** `callback_nonce_write` and `callback_dh_write` after a complete write. */
  function WriteDone(k: Scheme, p: Party, what: What, ok: bool): Party
    requires what == Nonces && p.read == NoRead ==> |p.nonceR| == 32
    requires what == Dh ==> |p.nonceR| == 32 && (p.cfg.decr ==> |p.yhR| == 288)
  {
    var q := p.(write := NoWrite);
    match what
    case Nonces => if p.read == NoRead then GotNonces(k, q, ok) else q
    case Dh => if p.cfg.decr then Finish(k, q, ok) else DhRead(q, ok)
  }

  /** `callback_nonce_read` and `callback_dh_read` after a complete read. */
  function ReadDone(k: Scheme, p: Party, what: What, got: bytes, ok: bool): Party
    requires |got| == Need(what) && (what == Dh ==> |p.nonceR| == 32)
  {
    match what
    case Nonces =>
      var q := p.(read := NoRead, nonceR := got);
      if p.write == NoWrite then GotNonces(k, q, ok) else q
    case Dh =>
      var q := p.(read := NoRead, yhR := got);
      if !k.accepts(p.cfg, p.nonceR, got) then Fail(q)
      else if p.cfg.decr then DhWrite(k, q, ok)
      else Finish(k, q, ok)
  }

  /** A party with what it has sent, and how much it has read (`at`) of what has been sent to it. */
  datatype End = End(p: Party, sent: bytes, at: nat)

  /** What happens at one end; `ok` says whether the next call it makes succeeds. */
  datatype Event =
    | Sends(n: nat, ok: bool)
    | Receives(n: nat, ok: bool)
    | Breaks
    | Goes(x: bytes)

  /**
    A write moves some bytes into the channel and a read takes some out of it; either may break; a
    party that is done may go on to send anything.
   */
  ghost predicate Legal(e: End, inbox: bytes, ev: Event) {
    match ev
    case Sends(n, _) => e.p.outcome == Pending && e.p.write.Writing? && 1 <= n <= |e.p.write.left|
    case Receives(n, _) =>
      e.p.read.Reading? && 1 <= n && |e.p.read.got| + n <= Need(e.p.read.what) && e.at + n <= |inbox|
    case Breaks => e.p.outcome == Pending
    case Goes(_) => e.p.outcome.Done?
  }

  /** The party is in a state that the code can be in: what the next callback needs is there. */
  ghost predicate Sound(p: Party) {
    && (p.read == NoRead && p.outcome == Pending ==> |p.nonceR| == 32)
    && (p.read.Reading? && p.read.what == Dh ==> |p.nonceR| == 32)
    && (p.write.Writing? && p.write.what == Dh ==> |p.nonceR| == 32 && (p.cfg.decr ==> |p.yhR| == 288))
  }

  function Step(k: Scheme, e: End, inbox: bytes, ev: Event): End
    requires Legal(e, inbox, ev) && Sound(e.p)
  {
    var p := e.p;
    match ev
    case Sends(n, ok) =>
      var left, sent := p.write.left[n..], e.sent + p.write.left[..n];
      var q := if left == [] then WriteDone(k, p, p.write.what, ok) else p.(write := p.write.(left := left));
      e.(p := q, sent := sent)
    case Receives(n, ok) =>
      var got := p.read.got + inbox[e.at..e.at + n];
      var q := if |got| == Need(p.read.what) then ReadDone(k, p, p.read.what, got, ok)
        else p.(read := p.read.(got := got));
      e.(p := q, at := e.at + n)
    case Breaks => e.(p := Broken(p))
    case Goes(x) => e.(sent := e.sent + x)
  }

  /** The nonce and the value of the other party are what it was sent first. */
  ghost predicate KnowsNonce(p: Party, inbox: bytes, at: nat) {
    32 <= at <= |inbox| && p.nonceR == inbox[..32]
  }

  ghost predicate KnowsYh(p: Party, inbox: bytes, at: nat) {
    KnowsNonce(p, inbox, at) && at == 320 && p.yhR == inbox[32..320]
  }

  ghost predicate MadeYh(k: Scheme, p: Party) {
    |p.nonceR| == 32 && p.yhL == k.yh(p.cfg, p.nonceR)
  }

  /** Everything up to `left` of a message has been sent. */
  ghost predicate SentBut(sent: bytes, all: bytes, left: bytes) {
    sent + left == all && left != []
  }

  /** Where a party stands, by what it waits for. */
  ghost predicate PendingInv(k: Scheme, e: End, inbox: bytes)
    requires e.at <= |inbox|
  {
    var p, l := e.p, e.p.cfg.nonce;
    match (p.read, p.write)
    case (Reading(Nonces, got), Writing(Nonces, left)) => e.at < 32 && got == inbox[..e.at] && SentBut(e.sent, l, left)
    case (Reading(Nonces, got), NoWrite) => e.at < 32 && got == inbox[..e.at] && e.sent == l
    case (NoRead, Writing(Nonces, left)) => e.at == 32 && KnowsNonce(p, inbox, e.at) && SentBut(e.sent, l, left)
    case (Reading(Dh, got), NoWrite) =>
      && KnowsNonce(p, inbox, e.at) && e.at < 320 && got == inbox[32..e.at]
      && (if p.cfg.decr then e.sent == l else MadeYh(k, p) && e.sent == l + p.yhL)
    case (NoRead, Writing(Dh, left)) =>
      && (if p.cfg.decr then KnowsYh(p, inbox, e.at) && k.accepts(p.cfg, p.nonceR, p.yhR)
          else e.at == 32 && KnowsNonce(p, inbox, e.at))
      && MadeYh(k, p) && SentBut(e.sent, l + p.yhL, left)
    case _ => false
  }

  /** Whatever has become of a party, it has sent its nonce first, then its value for the nonce it has read. */
  ghost predicate Spoke(k: Scheme, e: End, inbox: bytes) {
    var l := e.p.cfg.nonce;
    if |e.sent| <= 32 then e.sent <= l
    else KnowsNonce(e.p, inbox, e.at) && MadeYh(k, e.p) && (e.sent <= l + e.p.yhL || l + e.p.yhL <= e.sent)
  }

  ghost predicate Inv(k: Scheme, e: End, inbox: bytes) {
    Spoke(k, e, inbox) && Stands(k, e, inbox)
  }

  ghost predicate Stands(k: Scheme, e: End, inbox: bytes) {
    var p := e.p;
    && e.at <= |inbox|
    && match p.outcome
       case Pending => PendingInv(k, e, inbox) && !p.trouble
       case Done(c, s) =>
         && p.read == NoRead && p.write == NoWrite && !p.trouble
         && KnowsYh(p, inbox, e.at) && MadeYh(k, p) && p.cfg.nonce + p.yhL <= e.sent
         && k.accepts(p.cfg, p.nonceR, p.yhR) && (c, s) == k.keys(p.cfg, p.nonceR, p.yhR)
       case Failed =>
         && p.read == NoRead && p.write == NoWrite
         && (p.trouble || (KnowsYh(p, inbox, e.at) && !k.accepts(p.cfg, p.nonceR, p.yhR)
              && if p.cfg.decr then e.sent == p.cfg.nonce else MadeYh(k, p) && e.sent == p.cfg.nonce + p.yhL))
  }

  lemma InvSound(k: Scheme, e: End, inbox: bytes)
    requires Inv(k, e, inbox)
    ensures Sound(e.p)
  {
  }

  /** What is sent later does not matter for what has been read. */
  lemma InboxGrows(k: Scheme, e: End, inbox: bytes, x: bytes)
    requires Inv(k, e, inbox)
    ensures Inv(k, e, inbox + x)
  {
    assert forall i, j :: 0 <= i <= j <= |inbox| ==> (inbox + x)[i..j] == inbox[i..j];
    assert forall j :: 0 <= j <= |inbox| ==> (inbox + x)[..j] == inbox[..j];
  }

  lemma SendMore(sent: bytes, all: bytes, left: bytes, n: nat)
    requires sent + left == all && n <= |left|
    ensures (sent + left[..n]) + left[n..] == all && sent + left[..n] <= all
  {
    assert left == left[..n] + left[n..];
  }

  lemma SendsStands(k: Scheme, e: End, inbox: bytes, ev: Event)
    requires Stands(k, e, inbox) && Legal(e, inbox, ev) && ev.Sends? && Sound(e.p)
    ensures Stands(k, Step(k, e, inbox, ev), inbox)
  {
  }

  lemma SendsSpoke(k: Scheme, e: End, inbox: bytes, ev: Event)
    requires Inv(k, e, inbox) && Legal(e, inbox, ev) && ev.Sends? && Sound(e.p)
    ensures Spoke(k, Step(k, e, inbox, ev), inbox)
  {
    var l, left := e.p.cfg.nonce, e.p.write.left;
    if e.p.write.what == Nonces {
      SendMore(e.sent, l, left, ev.n);
    } else {
      SendMore(e.sent, l + e.p.yhL, left, ev.n);
    }
  }

  lemma StepSends(k: Scheme, e: End, inbox: bytes, ev: Event)
    requires Inv(k, e, inbox) && Legal(e, inbox, ev) && ev.Sends? && Sound(e.p)
    ensures Inv(k, Step(k, e, inbox, ev), inbox)
  {
    SendsStands(k, e, inbox, ev);
    SendsSpoke(k, e, inbox, ev);
  }

  lemma StepReceives(k: Scheme, e: End, inbox: bytes, ev: Event)
    requires Inv(k, e, inbox) && Legal(e, inbox, ev) && ev.Receives? && Sound(e.p)
    ensures Inv(k, Step(k, e, inbox, ev), inbox)
  {
  }

  lemma StepKeeps(k: Scheme, e: End, inbox: bytes, ev: Event)
    requires Inv(k, e, inbox) && Legal(e, inbox, ev)
    ensures Sound(e.p) && Inv(k, Step(k, e, inbox, ev), inbox)
  {
    InvSound(k, e, inbox);
    match ev
    case Sends(_, _) => StepSends(k, e, inbox, ev);
    case Receives(_, _) => StepReceives(k, e, inbox, ev);
    case Breaks =>
    case Goes(_) =>
  }

  /** A step changes neither what a party was started with nor what it has sent before. */
  lemma StepExtends(k: Scheme, e: End, inbox: bytes, ev: Event)
    requires Legal(e, inbox, ev) && Sound(e.p)
    ensures var e' := Step(k, e, inbox, ev); e'.p.cfg == e.p.cfg && e.sent <= e'.sent
  {
  }

  /** A client and a server, each reading what the other has sent. */
  datatype World = World(c: End, s: End)

  datatype Move = Move(client: bool, ev: Event)

  ghost predicate CanMove(w: World, m: Move) {
    && (if m.client then Legal(w.c, w.s.sent, m.ev) else Legal(w.s, w.c.sent, m.ev))
    && Sound(w.c.p) && Sound(w.s.p)
  }

  function Moved(k: Scheme, w: World, m: Move): World
    requires CanMove(w, m)
  {
    if m.client then w.(c := Step(k, w.c, w.s.sent, m.ev)) else w.(s := Step(k, w.s, w.c.sent, m.ev))
  }

  ghost predicate IsRun(k: Scheme, c: Config, s: Config, ws: seq<World>, ms: seq<Move>) {
    && !c.decr && s.decr && |ws| == |ms| + 1 && ws[0] == World(End(Begin(c), [], 0), End(Begin(s), [], 0))
    && forall i :: 0 <= i < |ms| ==> CanMove(ws[i], ms[i]) && ws[i + 1] == Moved(k, ws[i], ms[i])
  }

  ghost predicate WorldInv(k: Scheme, c: Config, s: Config, w: World) {
    Inv(k, w.c, w.s.sent) && Inv(k, w.s, w.c.sent) && w.c.p.cfg == c && w.s.p.cfg == s
  }

  lemma MoveKeeps(k: Scheme, c: Config, s: Config, w: World, m: Move)
    requires WorldInv(k, c, s, w) && CanMove(w, m)
    ensures WorldInv(k, c, s, Moved(k, w, m))
  {
    var (me, other) := if m.client then (w.c, w.s) else (w.s, w.c);
    StepKeeps(k, me, other.sent, m.ev);
    StepExtends(k, me, other.sent, m.ev);
    var me' := Step(k, me, other.sent, m.ev);
    InboxGrows(k, other, me.sent, me'.sent[|me.sent|..]);
    assert me.sent + me'.sent[|me.sent|..] == me'.sent;
  }

  lemma {:induction false} RunKeeps(k: Scheme, c: Config, s: Config, ws: seq<World>, ms: seq<Move>, n: nat)
    requires IsRun(k, c, s, ws, ms) && n < |ws|
    ensures WorldInv(k, c, s, ws[n])
  {
    if n > 0 {
      RunKeeps(k, c, s, ws, ms, n - 1);
      MoveKeeps(k, c, s, ws[n - 1], ms[n - 1]);
    }
  }

  /** A move that brings bytes forward. */
  predicate Brings(m: Move) {
    m.ev.Sends? || m.ev.Receives?
  }

  predicate Waits(e: End) {
    e.p.outcome == Pending && e.p.write == NoWrite
  }

  /** A party that waits to read can do so if enough has been sent to it. */
  lemma CanRead(k: Scheme, e: End, inbox: bytes)
    requires Inv(k, e, inbox) && Waits(e) && (|inbox| >= 320 || (|inbox| >= 32 && e.at < 32))
    ensures Legal(e, inbox, Receives(1, true))
  {
  }

  /**
    A party that has nothing to write has sent its nonce and, unless it is a server that waits for the
    client's value, its own.
   */
  lemma HasSent(k: Scheme, e: End, inbox: bytes)
    requires Inv(k, e, inbox) && e.p.outcome != Failed && (Waits(e) || e.p.outcome.Done?)
    ensures |e.sent| >= 32
    ensures e.at >= 32 && !(Waits(e) && e.p.cfg.decr) ==> |e.sent| >= 320
  {
  }

  /**
    Unless one party has failed, both have completed or bytes can be sent or received: the parties
    never wait for each other.
   */
  lemma NeverWaitForEachOther(k: Scheme, c: Config, s: Config, ws: seq<World>, ms: seq<Move>, n: nat) returns (m: Move)
    requires IsRun(k, c, s, ws, ms) && n < |ws| && ws[n].c.p.outcome != Failed && ws[n].s.p.outcome != Failed
    requires ws[n].c.p.outcome == Pending || ws[n].s.p.outcome == Pending
    ensures Brings(m) && CanMove(ws[n], m)
  {
    RunKeeps(k, c, s, ws, ms, n);
    var w := ws[n];
    InvSound(k, w.c, w.s.sent);
    InvSound(k, w.s, w.c.sent);
    if w.c.p.write.Writing? {
      m := Move(true, Sends(1, true));
    } else if w.s.p.write.Writing? {
      m := Move(false, Sends(1, true));
    } else {
      HasSent(k, w.c, w.s.sent);
      HasSent(k, w.s, w.c.sent);
      if Waits(w.s) && (w.s.at < 32 || |w.c.sent| >= 320) {
        CanRead(k, w.s, w.c.sent);
        m := Move(false, Receives(1, true));
      } else {
        CanRead(k, w.c, w.s.sent);
        m := Move(true, Receives(1, true));
      }
    }
  }

  /** How many bytes of the handshake a party has sent and received. */
  function Progress(e: End): nat {
    e.at + if |e.sent| < 320 then |e.sent| else 320
  }

  function Exchange(w: World): nat {
    Progress(w.c) + Progress(w.s)
  }

  lemma StepProgress(k: Scheme, e: End, inbox: bytes, ev: Event)
    requires Inv(k, e, inbox) && Legal(e, inbox, ev) && Sound(e.p)
    ensures e.at <= 320 ==> Step(k, e, inbox, ev).at <= 320
    ensures Progress(Step(k, e, inbox, ev)) >= Progress(e) + if ev.Sends? || ev.Receives? then ev.n else 0
  {
  }

  /** How many of the first moves bring bytes forward. */
  function Brought(ms: seq<Move>): nat {
    if ms == [] then 0 else Brought(ms[..|ms| - 1]) + if Brings(ms[|ms| - 1]) then 1 else 0
  }

  /** Neither party has read more than its nonce and its value take. */
  predicate Within(w: World) {
    w.c.at <= 320 && w.s.at <= 320
  }

  lemma MoveProgress(k: Scheme, c: Config, s: Config, w: World, m: Move)
    requires WorldInv(k, c, s, w) && CanMove(w, m) && Within(w)
    ensures Within(Moved(k, w, m)) && Exchange(Moved(k, w, m)) >= Exchange(w) + if Brings(m) then 1 else 0
  {
    if m.client {
      StepProgress(k, w.c, w.s.sent, m.ev);
    } else {
      StepProgress(k, w.s, w.c.sent, m.ev);
    }
  }

  lemma BroughtSnoc(ms: seq<Move>, n: nat)
    requires 0 < n <= |ms|
    ensures Brought(ms[..n]) == Brought(ms[..n - 1]) + if Brings(ms[n - 1]) then 1 else 0
  {
    assert ms[..n][..n - 1] == ms[..n - 1];
  }

  lemma RunProgress(k: Scheme, c: Config, s: Config, ws: seq<World>, ms: seq<Move>, n: nat)
    requires IsRun(k, c, s, ws, ms) && n < |ms| && Within(ws[n])
    ensures Within(ws[n + 1]) && Exchange(ws[n + 1]) >= Exchange(ws[n]) + if Brings(ms[n]) then 1 else 0
  {
    RunKeeps(k, c, s, ws, ms, n);
    MoveProgress(k, c, s, ws[n], ms[n]);
  }

  /** However long a run is, there are at most 1280 such moves in it: the handshake cannot go on for ever either. */
  lemma {:induction false} HandshakeEnds(k: Scheme, c: Config, s: Config, ws: seq<World>, ms: seq<Move>, n: nat)
    requires IsRun(k, c, s, ws, ms) && n < |ws|
    ensures Within(ws[n]) && Brought(ms[..n]) <= Exchange(ws[n]) <= 1280
  {
    if n > 0 {
      HandshakeEnds(k, c, s, ws, ms, n - 1);
      RunProgress(k, c, s, ws, ms, n - 1);
      BroughtSnoc(ms, n);
    }
  }

  /** Both parties have finished: each has read the other's nonce and value. */
  lemma Exchanged(k: Scheme, c: Config, s: Config, w: World)
    requires WorldInv(k, c, s, w) && w.c.p.outcome.Done? && w.s.p.outcome.Done?
    ensures w.c.p.nonceR == s.nonce && w.s.p.nonceR == c.nonce
    ensures w.c.p.yhR == k.yh(s, c.nonce) && w.s.p.yhR == k.yh(c, s.nonce)
  {
    FirstBytes(w.s.sent, s.nonce, w.s.p.yhL);
    FirstBytes(w.c.sent, c.nonce, w.c.p.yhL);
  }

  lemma FirstBytes(sent: bytes, nonce: Nonce, yh: Yh)
    requires nonce + yh <= sent
    ensures sent[..32] == nonce && sent[32..320] == yh
  {
  }

  function OwnYh(env: Env, cfg: Config, nonceR: Nonce): Yh {
    Signed(env, LocalY(env, cfg.x, cfg.b1, cfg.nopfs), Dhmac(env, cfg.nonce, nonceR, cfg.decr).0)
  }

  predicate Likes(env: Env, cfg: Config, nonceR: Nonce, yhR: Yh) {
    Accepts(env, yhR, Dhmac(env, cfg.nonce, nonceR, cfg.decr).1, cfg.requirepfs)
  }

  function OwnKeys(env: Env, cfg: Config, nonceR: Nonce, yhR: Yh): (KeyPair, KeyPair) {
    MkKeys(env, cfg.nonce, nonceR, SharedY(env, yhR, cfg.x, cfg.b2, cfg.nopfs), cfg.decr)
  }

  /** The scheme of `proto_crypt`. */
  function SchemeOf(env: Env): Scheme {
    Scheme((cfg: Config, n: Nonce) => OwnYh(env, cfg, n), (cfg: Config, n: Nonce, yh: Yh) => Likes(env, cfg, n, yh),
           (cfg: Config, n: Nonce, yh: Yh) => OwnKeys(env, cfg, n, yh))
  }

  lemma KeysAgree(env: Env, c: Config, s: Config)
    requires !c.decr && s.decr
    ensures OwnKeys(env, c, s.nonce, OwnYh(env, s, c.nonce)) == OwnKeys(env, s, c.nonce, OwnYh(env, c, s.nonce))
  {
    SharedYAgrees(env, c.x, s.x, s.b1, c.b2, c.b1, s.b2, c.nopfs, s.nopfs,
                  Dhmac(env, c.nonce, s.nonce, c.decr).0, Dhmac(env, s.nonce, c.nonce, s.decr).0);
  }

  /**
    Over a channel that delivers what is sent, with the same secret: in every run and for every choice
    of `nopfs` and `requirepfs` on the two sides, if both handshakes complete, both parties have the
    same client keys and the same server keys, and neither has an operation pending.
   */
  lemma SameKeys(env: Env, c: Config, s: Config, ws: seq<World>, ms: seq<Move>, n: nat)
    requires IsRun(SchemeOf(env), c, s, ws, ms) && n < |ws|
    requires ws[n].c.p.outcome.Done? && ws[n].s.p.outcome.Done?
    ensures ws[n].c.p.outcome == ws[n].s.p.outcome
    ensures ws[n].c.p.read == NoRead && ws[n].c.p.write == NoWrite && ws[n].s.p.read == NoRead
    ensures ws[n].s.p.write == NoWrite
  {
    RunKeeps(SchemeOf(env), c, s, ws, ms, n);
    Exchanged(SchemeOf(env), c, s, ws[n]);
    KeysAgree(env, c, s);
  }

  /** A party that has read 320 bytes has read the other's nonce and the value it made for this party's nonce. */
  lemma HasRead(k: Scheme, me: End, other: End)
    requires Inv(k, me, other.sent) && Inv(k, other, me.sent) && me.at == 320
    ensures other.sent[..32] == other.p.cfg.nonce && other.sent[32..320] == k.yh(other.p.cfg, me.p.cfg.nonce)
  {
    assert me.sent[..32] == me.p.cfg.nonce;
    FirstBytes(other.sent, other.p.cfg.nonce, other.p.yhL);
  }

  /**
    Without trouble, a handshake that is over has failed exactly if the party requires forward secrecy
    and the other one's value is 1; otherwise it has completed.
   */
  lemma FailsExactly(env: Env, c: Config, s: Config, ws: seq<World>, ms: seq<Move>, n: nat, client: bool)
    requires IsRun(SchemeOf(env), c, s, ws, ms) && n < |ws|
    requires var p := if client then ws[n].c.p else ws[n].s.p; p.outcome != Pending && !p.trouble
    ensures var (me, peer) := if client then (c, s) else (s, c); var p := if client then ws[n].c.p else ws[n].s.p;
      p.outcome == Failed <==> me.requirepfs && BeDec(LocalY(env, peer.x, peer.b1, peer.nopfs)) == 1
  {
    var k := SchemeOf(env);
    RunKeeps(k, c, s, ws, ms, n);
    var (me, other) := if client then (ws[n].c, ws[n].s) else (ws[n].s, ws[n].c);
    HasRead(k, me, other);
    var (mine, peer) := (me.p.cfg, other.p.cfg);
    var mac := Dhmac(env, peer.nonce, mine.nonce, peer.decr).0;
    MacKeysAgree(env, c.nonce, s.nonce);
    MadeIsAccepted(env, peer.x, peer.b1, peer.nopfs, mac, mine.requirepfs);
    assert Likes(env, mine, peer.nonce, OwnYh(env, peer, mine.nonce)) <==> me.p.outcome != Failed;
  }

  /** In particular, a party that requires forward secrecy of one whose value is 1 never completes. */
  lemma NeverWithoutSecrecy(env: Env, c: Config, s: Config, ws: seq<World>, ms: seq<Move>, n: nat, client: bool)
    requires IsRun(SchemeOf(env), c, s, ws, ms) && n < |ws|
    requires var (me, peer) := if client then (c, s) else (s, c);
      me.requirepfs && BeDec(LocalY(env, peer.x, peer.b1, peer.nopfs)) == 1
    ensures var p := if client then ws[n].c.p else ws[n].s.p; !p.outcome.Done?
  {
    RunKeeps(SchemeOf(env), c, s, ws, ms, n);
    if (if client then ws[n].c.p else ws[n].s.p).outcome.Done? {
      FailsExactly(env, c, s, ws, ms, n, client);
    }
  }
}
