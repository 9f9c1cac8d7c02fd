/**
  A connection (`lib/proto/proto_conn.c`) as its callbacks update it, against the functions in `Connections`.
 */
module ProtoConn {
  import opened Bytes
  import opened KeyExchange
  import opened Connections

  /** A pipe: whether it decrypts, and the key material it uses. */
  datatype PipeArgs = PipeArgs(decr: bool, key: KeyPair)

  class ConnState {
    const decr: bool
    var tOpen: bool
    var sasSet: bool
    var connectCookie: bool
    var connectTimeoutCookie: bool
    var handshakeCookie: bool
    var handshakeTimeoutCookie: bool
    var kF: Option<KeyPair>
    var kR: Option<KeyPair>
    var pipeF: Option<PipeArgs>
    var pipeR: Option<PipeArgs>
    var statF: int
    var statR: int
    ghost var led: Ledger
    ghost var launches: nat

    /** A pointer is set exactly while what it points to is held; the keys go to the pipes of their direction. */
    ghost predicate Valid()
      reads this
    {
      && (led.cookie == Held ==>
            && tOpen == (led.t == Held) && sasSet == (led.sas == Held)
            && connectCookie == (led.connect == Held) && connectTimeoutCookie == (led.connectTimer == Held)
            && handshakeCookie == (led.handshake == Held) && handshakeTimeoutCookie == (led.handshakeTimer == Held)
            && kF.Some? == (led.keyF == Held) && kR.Some? == (led.keyR == Held)
            && pipeF.Some? == (led.pipeF == Held) && pipeR.Some? == (led.pipeR == Held))
      && (pipeF.Some? ==> kF.Some? && pipeF.value == PipeArgs(decr, kF.value))
      && (pipeR.Some? ==> kR.Some? && pipeR.value == PipeArgs(!decr, kR.value))
    }

    ghost function Abs(): Conn
      reads this
    {
      Conn(decr, led, statF, statR, launches)
    }

    /** The beginning of `proto_conn_create`. */
    constructor Bake(decr: bool)
      ensures Valid() && this.decr == decr && kF == kR == None
      ensures Abs() == Baked(decr)
    {
      this.decr, tOpen, sasSet, connectCookie, connectTimeoutCookie := decr, false, true, false, false;
      handshakeCookie, handshakeTimeoutCookie, kF, kR, pipeF, pipeR := false, false, None, None, None, None;
      statF, statR, launches := 1, 1, 0;
      led := Ledger(Held, Never, Held, Never, Never, Never, Never, Never, Never, Never, Never, Held, 0);
    }

    /** `starthandshake` */
    method StartHandshake(calls: Calls) returns (ok: bool)
      requires Valid() && Live(Abs()) && led.handshakeTimer == Never && led.handshake == Never
      modifies this
      ensures Valid() && (Abs(), ok) == Connections.StartHandshake(old(Abs()), calls)
      ensures kF == old(kF) && kR == old(kR) && pipeF == old(pipeF) && pipeR == old(pipeR)
    {
      if !calls.timer {
        return false;
      }
      handshakeTimeoutCookie, led := true, led.(handshakeTimer := Acquire(led.handshakeTimer));
      if !calls.handshake {
        handshakeTimeoutCookie, led := false, led.(handshakeTimer := Release(led.handshakeTimer));
        return false;
      }
      handshakeCookie, led := true, led.(handshake := Acquire(led.handshake));
      return true;
    }

    /**
      `launchpipes`: the forward pipe has the forward key, the reverse pipe the reverse key and the
      other direction.
     */
    method LaunchPipes(calls: Calls) returns (ok: bool)
      requires Valid() && Live(Abs()) && kF.Some? && kR.Some? && led.pipeF == Never && led.pipeR == Never
      modifies this
      ensures Valid() && (Abs(), ok) == Connections.LaunchPipes(old(Abs()), calls) && kF == old(kF) && kR == old(kR)
    {
      launches := launches + 1;
      if !calls.pipeF {
        return false;
      }
      pipeF, led := Some(PipeArgs(decr, kF.value)), led.(pipeF := Acquire(led.pipeF));
      if !calls.pipeR {
        return false;
      }
      pipeR, led := Some(PipeArgs(!decr, kR.value)), led.(pipeR := Acquire(led.pipeR));
      return true;
    }

    /** `proto_conn_drop`.  Its callers return what `callback_dead` returned, which is their argument `dead`. */
    method Drop()
      requires Valid() && Live(Abs())
      modifies this`led
      ensures Valid() && Abs() == Connections.Drop(old(Abs()))
    {
      led := led.(s := Release(led.s), t := When(tOpen, led.t), connect := When(connectCookie, led.connect),
                  sas := When(sasSet, led.sas), handshake := When(handshakeCookie, led.handshake));
      led := led.(connectTimer := When(connectTimeoutCookie, led.connectTimer),
                  handshakeTimer := When(handshakeTimeoutCookie, led.handshakeTimer));
      led := led.(keyF := When(kF.Some?, led.keyF), keyR := When(kR.Some?, led.keyR),
                  pipeF := When(pipeF.Some?, led.pipeF), pipeR := When(pipeR.Some?, led.pipeR));
      led := led.(dead := led.dead + 1, cookie := Release(led.cookie));
    }

    /** Launch the pipes if the target is connected and the keys are there, and drop the connection if that fails. */
    method LaunchOrDrop(calls: Calls) returns (rc: int)
      requires Valid() && Live(Abs()) && led.pipeF == Never && led.pipeR == Never
      modifies this
      ensures Valid() && Abs() == DropUnless(LaunchIfReady(old(Abs()), calls)) && kF == old(kF) && kR == old(kR)
      ensures rc == if Live(Abs()) then 0 else -1
    {
      rc := 0;
      if tOpen && kF.Some? && kR.Some? {
        var ok := LaunchPipes(calls);
        if !ok {
          Drop();
          rc := -1;
        }
      }
    }

    /** The beginning of `callback_connect_done`. */
    method EndConnect()
      requires Valid() && Live(Abs()) && led.connect == Held && led.connectTimer == Held
      modifies this`connectCookie, this`sasSet, this`connectTimeoutCookie, this`led
      ensures Valid() && Abs() == ConnectOver(old(Abs()))
    {
      connectCookie, sasSet, connectTimeoutCookie := false, false, false;
      led := led.(connect := Release(led.connect), sas := ReleaseIf(led.sas),
                  connectTimer := Release(led.connectTimer));
    }

    /** `callback_connect_done` */
    method CallbackConnectDone(connected: bool, calls: Calls, dead: int) returns (rc: int)
      requires Valid() && Inv(Abs()) && Legal(Abs(), ConnectDone(connected, calls))
      modifies this
      ensures Valid() && Abs() == Step(old(Abs()), ConnectDone(connected, calls))
      ensures rc == if !connected then dead else if Live(Abs()) then 0 else -1
    {
      EndConnect();
      if !connected {
        Drop();
        return dead;
      }
      tOpen, led := true, led.(t := Acquire(led.t));
      rc := Proceed(calls);
    }

    method Proceed(calls: Calls) returns (rc: int)
      requires Valid() && Live(Abs()) && led.pipeF == Never && led.pipeR == Never
      requires !decr ==> led.handshakeTimer == Never && led.handshake == Never
      modifies this
      ensures Valid() && Abs() == Connected(old(Abs()), calls)
      ensures rc == if Live(Abs()) then 0 else -1
    {
      if !decr {
        var ok := StartHandshake(calls);
        if !ok {
          Drop();
          return -1;
        }
      }
      rc := LaunchOrDrop(calls);
    }

    /** `callback_connect_timeout` */
    method CallbackConnectTimeout(dead: int) returns (rc: int)
      requires Valid() && Legal(Abs(), ConnectTimeout)
      modifies this
      ensures Valid() && Abs() == Step(old(Abs()), ConnectTimeout) && rc == dead
    {
      connectTimeoutCookie, led := false, led.(connectTimer := Release(led.connectTimer));
      Drop();
      rc := dead;
    }

    /** `callback_handshake_done`: the keys of the client's and of the server's direction, or none. */
    method CallbackHandshakeDone(keys: Option<(KeyPair, KeyPair)>, calls: Calls, dead: int) returns (rc: int)
      requires Valid() && Inv(Abs()) && Legal(Abs(), HandshakeDone(keys.Some?, calls))
      modifies this
      ensures Valid() && Abs() == Step(old(Abs()), HandshakeDone(keys.Some?, calls))
      ensures rc == if keys.None? then dead else if Live(Abs()) then 0 else -1
      ensures Live(Abs()) ==> keys.Some? && kF == Some(keys.value.0) && kR == Some(keys.value.1)
    {
      handshakeCookie, handshakeTimeoutCookie := false, false;
      led := led.(handshake := Release(led.handshake), handshakeTimer := Release(led.handshakeTimer));
      if keys.None? {
        Drop();
        return dead;
      }
      kF, kR := Some(keys.value.0), Some(keys.value.1);
      led := led.(keyF := Acquire(led.keyF), keyR := Acquire(led.keyR));
      rc := LaunchOrDrop(calls);
    }

    /** `callback_handshake_timeout` */
    method CallbackHandshakeTimeout(dead: int) returns (rc: int)
      requires Valid() && Legal(Abs(), HandshakeTimeout)
      modifies this
      ensures Valid() && Abs() == Step(old(Abs()), HandshakeTimeout) && rc == dead
    {
      handshakeTimeoutCookie, led := false, led.(handshakeTimer := Release(led.handshakeTimer));
      Drop();
      rc := dead;
    }

    /** A pipe sets its status and calls `callback_pipestatus`. */
    method CallbackPipeStatus(forward: bool, code: int, dead: int) returns (rc: int)
      requires Valid() && Legal(Abs(), PipeStatus(forward, code))
      modifies this`statF, this`statR, this`led
      ensures Valid() && Abs() == Step(old(Abs()), PipeStatus(forward, code))
      ensures rc == if Live(Abs()) then 0 else dead
    {
      if forward {
        statF := code;
      } else {
        statR := code;
      }
      rc := CheckStatus(dead);
    }

    /** `callback_pipestatus` */
    method CheckStatus(dead: int) returns (rc: int)
      requires Valid() && Live(Abs())
      modifies this`led
      ensures Valid() && Abs() == OnPipeStatus(old(Abs()))
      ensures rc == if Live(Abs()) then 0 else dead
    {
      if statF == -1 || statR == -1 {
        Drop();
        return dead;
      }
      if statF == 0 && statR == 0 {
        Drop();
        return dead;
      }
      return 0;
    }

    /**
      `proto_conn_create`: null if it fails.  Then `a`, if there was memory for the structure, is what
      became of it.
     */
    static method Create(decr: bool, mem: bool, timer: bool, connect: bool, calls: Calls)
      returns (c: ConnState?, ghost a: Option<Conn>)
      ensures a.None? <==> !mem
      ensures if mem then (a.value, c != null) == Connections.Create(decr, timer, connect, calls) else c == null
      ensures c != null ==> fresh(c) && c.Valid() && c.Abs() == a.value && c.kF == c.kR == None
    {
      if !mem {
        return null, None;
      }
      var s := new ConnState.Bake(decr);
      var ok := s.StartConnect(timer, connect, calls);
      if !ok {
        return null, Some(s.Abs());
      }
      return s, Some(s.Abs());
    }

    /**
      The rest of `proto_conn_create`: what has been started is cancelled again if something fails,
      and the structure freed.
     */
    method StartConnect(timer: bool, connect: bool, calls: Calls) returns (ok: bool)
      requires Valid() && Abs() == Baked(decr)
      modifies this
      ensures (Abs(), ok) == Connections.Create(decr, timer, connect, calls)
      ensures Valid() && kF == old(kF) && kR == old(kR)
    {
      if !timer {
        Free();
        return false;
      }
      connectTimeoutCookie, led := true, led.(connectTimer := Acquire(led.connectTimer));
      if !connect {
        led := led.(connectTimer := Release(led.connectTimer));
        Free();
        return false;
      }
      connectCookie, led := true, led.(connect := Acquire(led.connect));
      if decr {
        ok := StartHandshake(calls);
        if !ok {
          led := led.(connect := Release(led.connect), connectTimer := Release(led.connectTimer));
          Free();
          return;
        }
      }
      return true;
    }

    /** Free the structure; nothing else is released. */
    method Free()
      requires led.cookie == Held
      modifies this`led
      ensures led == old(led).(cookie := Released)
    {
      led := led.(cookie := Release(led.cookie));
    }
  }

  /** A release that is made if a pointer is set. */
  function When(held: bool, r: Res): Res {
    if held then Release(r) else r
  }
}
