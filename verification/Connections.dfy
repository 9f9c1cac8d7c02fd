/**
  The life of a connection (`lib/proto/proto_conn.c`) as a function of the events that drive it.  What
  a connection has acquired and released is part of its state.
 */
module Connections {

  /** Something that is acquired and released at most once; anything else that happens to it is wrong. */
  datatype Res = Never | Held | Released | Wrong

  function Acquire(r: Res): Res {
    if r == Never then Held else Wrong
  }

  function Release(r: Res): Res {
    if r == Held then Released else Wrong
  }

  /** A release that is skipped if there is nothing to release. */
  function ReleaseIf(r: Res): Res {
    if r == Held then Released else r
  }

  /**
    The two sockets, the list of target addresses, the operations and timers, the keys, the pipes, and
    the connection's own structure; and how often `callback_dead` has been called.
   */
  datatype Ledger = Ledger(s: Res, t: Res, sas: Res, connect: Res, connectTimer: Res, handshake: Res,
                           handshakeTimer: Res,
                           keyF: Res, keyR: Res, pipeF: Res, pipeR: Res, cookie: Res, dead: nat)

  /** A connection; `launches` counts how often the pipes were launched. */
  datatype Conn = Conn(decr: bool, led: Ledger, statF: int, statR: int, launches: nat)

  predicate Live(c: Conn) {
    c.led.cookie == Held
  }

  /** Which of the calls that a step makes succeed. */
  datatype Calls = Calls(timer: bool, handshake: bool, pipeF: bool, pipeR: bool)

  /** `starthandshake` */
  function StartHandshake(c: Conn, calls: Calls): (Conn, bool) {
    if !calls.timer then (c, false) else
      var d := c.(led := c.led.(handshakeTimer := Acquire(c.led.handshakeTimer)));
      if !calls.handshake then (d.(led := d.led.(handshakeTimer := Release(d.led.handshakeTimer))), false)
      else (d.(led := d.led.(handshake := Acquire(d.led.handshake))), true)
  }

  /** `launchpipes` */
  function LaunchPipes(c: Conn, calls: Calls): (Conn, bool) {
    var d := c.(launches := c.launches + 1);
    if !calls.pipeF then (d, false) else
      var e := d.(led := d.led.(pipeF := Acquire(d.led.pipeF)));
      if !calls.pipeR then (e, false) else (e.(led := e.led.(pipeR := Acquire(e.led.pipeR))), true)
  }

  /** `proto_conn_drop` */
  function Drop(c: Conn): Conn {
    var l := c.led;
    c.(led := Ledger(Release(l.s), ReleaseIf(l.t), ReleaseIf(l.sas), ReleaseIf(l.connect), ReleaseIf(l.connectTimer),
                     ReleaseIf(l.handshake), ReleaseIf(l.handshakeTimer), ReleaseIf(l.keyF), ReleaseIf(l.keyR),
                     ReleaseIf(l.pipeF), ReleaseIf(l.pipeR), Release(l.cookie), l.dead + 1))
  }

  /** The pipes are launched once the target is connected and the keys are there. */
  function LaunchIfReady(c: Conn, calls: Calls): (Conn, bool) {
    if c.led.t == Held && c.led.keyF == Held && c.led.keyR == Held then LaunchPipes(c, calls) else (c, true)
  }

  function DropUnless(r: (Conn, bool)): Conn {
    if r.1 then r.0 else Drop(r.0)
  }

  datatype Event =
    | ConnectDone(connected: bool, calls: Calls)
    | ConnectTimeout
    | HandshakeDone(keys: bool, calls: Calls)
    | HandshakeTimeout
    | PipeStatus(forward: bool, code: int)
    | Dropped

  /**
    What can happen: pending operations complete, timers expire, running pipes close, and the owner
    drops the connection.
   */
  predicate Legal(c: Conn, e: Event) {
    && Live(c)
    && match e
       case ConnectDone(_, _) => c.led.connect == Held
       case ConnectTimeout => c.led.connectTimer == Held
       case HandshakeDone(_, _) => c.led.handshake == Held
       case HandshakeTimeout => c.led.handshakeTimer == Held
       case PipeStatus(forward, code) => (code == 0 || code == -1) && Runs(c, forward)
       case Dropped => true
  }

  predicate Runs(c: Conn, forward: bool) {
    if forward then c.led.pipeF == Held && c.statF == 1 else c.led.pipeR == Held && c.statR == 1
  }

  /** A new connection: it has its socket, the addresses of its target, and its structure. */
  function Baked(decr: bool): Conn {
    Conn(decr, Ledger(Held, Never, Held, Never, Never, Never, Never, Never, Never, Never, Never, Held, 0), 1, 1, 0)
  }

  /** `proto_conn_create`: a connection, or nothing and the socket and the addresses stay with the caller. */
  function Create(decr: bool, timer: bool, connect: bool, calls: Calls): (Conn, bool) {
    var c := Baked(decr);
    if !timer then (Abandon(c), false) else
      var c1 := c.(led := c.led.(connectTimer := Acquire(c.led.connectTimer)));
      if !connect then (Abandon(c1.(led := c1.led.(connectTimer := Release(c1.led.connectTimer)))), false) else
        var c2 := c1.(led := c1.led.(connect := Acquire(c1.led.connect)));
        if !decr then (c2, true) else
          var (c3, ok) := StartHandshake(c2, calls);
          if ok then (c3, true) else
            var l := c3.led;
            (Abandon(c3.(led := l.(connect := Release(l.connect), connectTimer := Release(l.connectTimer)))), false)
  }

  /** Free the structure. */
  function Abandon(c: Conn): Conn {
    c.(led := c.led.(cookie := Release(c.led.cookie)))
  }

  /** The attempt to connect is over, and so are the addresses and the timer that it needed. */
  function ConnectOver(c: Conn): Conn {
    c.(led := c.led.(connect := Release(c.led.connect), sas := ReleaseIf(c.led.sas),
                     connectTimer := Release(c.led.connectTimer)))
  }

  /** `callback_connect_done` */
  function OnConnect(c: Conn, connected: bool, calls: Calls): Conn {
    var d := ConnectOver(c);
    if connected then Connected(d.(led := d.led.(t := Acquire(d.led.t))), calls) else Drop(d)
  }

  /** Once there is a target: the handshake of an encrypting connection, and the pipes if they can be launched. */
  function Connected(c: Conn, calls: Calls): Conn {
    if c.decr then DropUnless(LaunchIfReady(c, calls)) else
      var (d, ok) := StartHandshake(c, calls);
      if ok then DropUnless(LaunchIfReady(d, calls)) else Drop(d)
  }

  /** `callback_handshake_done` */
  function OnHandshake(c: Conn, keys: bool, calls: Calls): Conn {
    var d := c.(led := c.led.(handshake := Release(c.led.handshake), handshakeTimer := Release(c.led.handshakeTimer)));
    if !keys then Drop(d) else
      DropUnless(LaunchIfReady(d.(led := d.led.(keyF := Acquire(d.led.keyF), keyR := Acquire(d.led.keyR))), calls))
  }

  /** `callback_pipestatus`, after a pipe has set its status. */
  function OnPipeStatus(c: Conn): Conn {
    if c.statF == -1 || c.statR == -1 || (c.statF == 0 && c.statR == 0) then Drop(c) else c
  }

  function Step(c: Conn, e: Event): Conn {
    match e
    case ConnectDone(connected, calls) => OnConnect(c, connected, calls)
    case ConnectTimeout => Drop(c.(led := c.led.(connectTimer := Release(c.led.connectTimer))))
    case HandshakeDone(keys, calls) => OnHandshake(c, keys, calls)
    case HandshakeTimeout => Drop(c.(led := c.led.(handshakeTimer := Release(c.led.handshakeTimer))))
    case PipeStatus(forward, code) => OnPipeStatus(if forward then c.(statF := code) else c.(statR := code))
    case Dropped => Drop(c)
  }

  ghost predicate NothingWrong(l: Ledger) {
    && l.s != Wrong && l.t != Wrong && l.sas != Wrong && l.connect != Wrong && l.connectTimer != Wrong
    && l.handshake != Wrong && l.handshakeTimer != Wrong && l.keyF != Wrong && l.keyR != Wrong
    && l.pipeF != Wrong && l.pipeR != Wrong && l.cookie != Wrong
  }

  /** A connection that is alive. */
  ghost predicate LiveInv(c: Conn) {
    var l := c.led;
    && l.s == Held && l.dead == 0
    && (l.connect == Held || l.connect == Released) && l.connectTimer == l.connect
    && (l.sas == Held <==> l.connect == Held) && (l.t == Held <==> l.connect == Released) && l.t != Released
    && l.handshake == l.handshakeTimer && l.keyF == l.keyR && (l.keyF == Held <==> l.handshake == Released)
    && l.keyF != Released && l.pipeF == l.pipeR && l.pipeF != Released
    && (l.handshake == Never <==> !c.decr && l.connect == Held)
    && (l.pipeF == Held <==> l.t == Held && l.keyF == Held)
    && c.launches == (if l.pipeF == Held then 1 else 0)
    && (l.pipeF == Never ==> c.statF == 1 && c.statR == 1)
    && (c.statF == 1 || c.statF == 0) && (c.statR == 1 || c.statR == 0) && (c.statF == 1 || c.statR == 1)
  }

  /** A connection that is gone: everything it had has been released, once, and its owner has been told once. */
  ghost predicate Gone(c: Conn) {
    var l := c.led;
    && l.s == Released && l.dead == 1 && c.launches <= 1
    && l.t != Held && l.sas != Held && l.connect != Held && l.connectTimer != Held && l.handshake != Held
    && l.handshakeTimer != Held && l.keyF != Held && l.keyR != Held && l.pipeF != Held && l.pipeR != Held
  }

  ghost predicate Inv(c: Conn) {
    NothingWrong(c.led) && if Live(c) then LiveInv(c) else Gone(c)
  }

  lemma CreateKeeps(decr: bool, timer: bool, connect: bool, calls: Calls)
    ensures var (c, ok) := Create(decr, timer, connect, calls);
      if ok then Live(c) && Inv(c)
      else
        && NothingWrong(c.led) && c.led.cookie == Released && c.led.dead == 0 && c.led.s == Held && c.led.sas == Held
        && c.led.connect != Held && c.led.connectTimer != Held
        && c.led.handshake != Held && c.led.handshakeTimer != Held
  {
  }

  /** A connection can be dropped in the middle of a step. */
  ghost predicate Droppable(c: Conn) {
    NothingWrong(c.led) && Live(c) && c.led.s == Held && c.led.dead == 0 && c.launches <= 1
  }

  lemma DropKeeps(c: Conn)
    requires Droppable(c)
    ensures Inv(Drop(c)) && !Live(Drop(c))
  {
  }

  /** Either of the two conditions for launching the pipes has just been met. */
  ghost predicate AlmostLive(c: Conn) {
    c.led.pipeF == Never && c.led.pipeR == Never && c.launches == 0 && if c.led.t == Held && c.led.keyF == Held then
      LiveInv(c.(launches := 1, led := c.led.(pipeF := Held, pipeR := Held)))
    else LiveInv(c)
  }

  lemma LaunchKeeps(c: Conn, calls: Calls)
    requires NothingWrong(c.led) && Live(c) && AlmostLive(c)
    ensures Inv(DropUnless(LaunchIfReady(c, calls)))
  {
    var (d, ok) := LaunchIfReady(c, calls);
    if !ok {
      DropKeeps(d);
    }
  }

  lemma ConnectKeeps(c: Conn, connected: bool, calls: Calls)
    requires Inv(c) && Live(c) && c.led.connect == Held
    ensures Inv(OnConnect(c, connected, calls))
  {
    var d := c.(led := c.led.(connect := Released, sas := Released, connectTimer := Released));
    if !connected {
      DropKeeps(d);
    } else {
      var e := d.(led := d.led.(t := Held));
      if e.decr {
        LaunchKeeps(e, calls);
      } else {
        var (f, ok) := StartHandshake(e, calls);
        if ok {
          LaunchKeeps(f, calls);
        } else {
          DropKeeps(f);
        }
      }
    }
  }

  lemma HandshakeKeeps(c: Conn, keys: bool, calls: Calls)
    requires Inv(c) && Live(c) && c.led.handshake == Held
    ensures Inv(OnHandshake(c, keys, calls))
  {
    var d := c.(led := c.led.(handshake := Released, handshakeTimer := Released));
    if !keys {
      DropKeeps(d);
    } else {
      LaunchKeeps(d.(led := d.led.(keyF := Held, keyR := Held)), calls);
    }
  }

  lemma PipeKeeps(c: Conn, forward: bool, code: int)
    requires Inv(c) && Legal(c, PipeStatus(forward, code))
    ensures Inv(Step(c, PipeStatus(forward, code)))
  {
    var d := if forward then c.(statF := code) else c.(statR := code);
    DropKeeps(d);
  }

  lemma StepKeeps(c: Conn, e: Event)
    requires Inv(c) && Legal(c, e)
    ensures Inv(Step(c, e))
  {
    match e
    case ConnectDone(connected, calls) => ConnectKeeps(c, connected, calls);
    case ConnectTimeout => DropKeeps(c.(led := c.led.(connectTimer := Released)));
    case HandshakeDone(keys, calls) => HandshakeKeeps(c, keys, calls);
    case HandshakeTimeout => DropKeeps(c.(led := c.led.(handshakeTimer := Released)));
    case PipeStatus(forward, code) => PipeKeeps(c, forward, code);
    case Dropped => DropKeeps(c);
  }

  /** The states of a connection from its creation on. */
  ghost predicate IsRun(cs: seq<Conn>, es: seq<Event>) {
    && |cs| == |es| + 1 && Created(cs[0])
    && forall i :: 0 <= i < |es| ==> Legal(cs[i], es[i]) && cs[i + 1] == Step(cs[i], es[i])
  }

  ghost predicate Created(c: Conn) {
    exists decr, calls :: Create(decr, true, true, calls) == (c, true)
  }

  lemma {:induction false} RunKeeps(cs: seq<Conn>, es: seq<Event>, n: nat)
    requires IsRun(cs, es) && n < |cs|
    ensures Inv(cs[n])
  {
    if n == 0 {
      var decr, calls :| Create(decr, true, true, calls) == (cs[0], true);
      CreateKeeps(decr, true, true, calls);
    } else {
      RunKeeps(cs, es, n - 1);
      StepKeeps(cs[n - 1], es[n - 1]);
    }
  }

  /** The target is connected and the keys are there, or were until the connection was dropped. */
  ghost predicate WasReady(c: Conn) {
    var l := c.led;
    && l.connect == Released && l.handshake == Released && l.t != Never && l.keyF != Never && l.keyR != Never
    && (Live(c) ==> l.t == Held && l.keyF == Held && l.keyR == Held)
  }

  lemma LaunchWhenReady(c: Conn, calls: Calls)
    requires Live(c) && c.led.connect != Never && (c.led.keyF == Held ==> c.led.handshake == Released)
    requires c.led.t == Held ==> c.led.connect == Released
    ensures var d := DropUnless(LaunchIfReady(c, calls)); d.launches > c.launches ==> WasReady(d)
  {
  }

  lemma StepLaunches(c: Conn, e: Event)
    requires Inv(c) && Legal(c, e)
    ensures Step(c, e).launches > c.launches ==> WasReady(Step(c, e))
  {
    match e
    case ConnectDone(connected, calls) =>
      var d := c.(led := c.led.(connect := Released, sas := Released, connectTimer := Released, t := Held));
      LaunchWhenReady(if c.decr then d else StartHandshake(d, calls).0, calls);
    case HandshakeDone(keys, calls) =>
      var l := c.led.(handshake := Released, handshakeTimer := Released, keyF := Held, keyR := Held);
      LaunchWhenReady(c.(led := l), calls);
    case _ =>
  }

  /** The pipes are launched at most once, and only with the target connected and both keys there. */
  lemma PipesOnceAndReady(cs: seq<Conn>, es: seq<Event>, n: nat)
    requires IsRun(cs, es) && n < |es|
    ensures cs[n + 1].launches <= 1 && (cs[n + 1].launches > cs[n].launches ==> WasReady(cs[n + 1]))
  {
    RunKeeps(cs, es, n);
    RunKeeps(cs, es, n + 1);
    StepLaunches(cs[n], es[n]);
  }

  /** A pending connect or handshake has its timer pending, and a connection that is alive has something pending. */
  lemma NeverStranded(cs: seq<Conn>, es: seq<Event>, n: nat)
    requires IsRun(cs, es) && n < |cs| && Live(cs[n])
    ensures cs[n].led.connect == Held <==> cs[n].led.connectTimer == Held
    ensures cs[n].led.handshake == Held <==> cs[n].led.handshakeTimer == Held
    ensures cs[n].led.connect == Held || cs[n].led.handshake == Held || Runs(cs[n], true) || Runs(cs[n], false)
  {
    RunKeeps(cs, es, n);
  }

  /**
    Whatever is acquired is never released twice, and when the connection is dropped everything is
    released and the owner told, once.
   */
  lemma ReleasedExactlyOnce(cs: seq<Conn>, es: seq<Event>, n: nat)
    requires IsRun(cs, es) && n < |cs|
    ensures NothingWrong(cs[n].led)
    ensures cs[n].led.dead == if Live(cs[n]) then 0 else 1
    ensures !Live(cs[n]) ==> Gone(cs[n])
  {
    RunKeeps(cs, es, n);
  }
}
