/**
  A whole session: two handshakes, the pipes that the two connections launch with the keys, and the
  bytes that go through them.
 */
module Session {
  import opened Bytes
  import opened Packets
  import opened KeyExchange
  import opened Handshake
  import PipeRuns
  import opened ProtoConn

  /**
    The keys go to opposite ends of the same direction: the client encrypts with the keys with which
    the server decrypts, and the other way round.
   */
  lemma OppositeEnds(env: Env, c: Config, s: Config, ws: seq<World>, ms: seq<Move>, n: nat, client: ConnState,
                     server: ConnState)
    requires IsRun(SchemeOf(env), c, s, ws, ms) && n < |ws|
    requires ws[n].c.p.outcome.Done? && ws[n].s.p.outcome.Done?
    requires client.Valid() && client.decr == c.decr && server.Valid() && server.decr == s.decr
    requires client.kF == Some(ws[n].c.p.outcome.c) && client.kR == Some(ws[n].c.p.outcome.s)
    requires server.kF == Some(ws[n].s.p.outcome.c) && server.kR == Some(ws[n].s.p.outcome.s)
    requires client.pipeF.Some? && client.pipeR.Some? && server.pipeF.Some? && server.pipeR.Some?
    ensures client.pipeF.value.key == server.pipeF.value.key && !client.pipeF.value.decr && server.pipeF.value.decr
    ensures server.pipeR.value.key == client.pipeR.value.key && !server.pipeR.value.decr && client.pipeR.value.decr
  {
    SameKeys(env, c, s, ws, ms, n);
  }

  /** The near end has closed with everything sent, and the far end has closed without trouble of its own. */
  predicate Over(p: PipeRuns.Pipe, q: PipeRuns.Pipe) {
    p.status == PipeRuns.Closed(0) && q.status.Closed? && !q.trouble
  }

  /** Both ends wait for input. */
  predicate BothWait(p: PipeRuns.Pipe, q: PipeRuns.Pipe) {
    p.status == PipeRuns.Running && p.wait.Reading? && q.status == PipeRuns.Running && q.wait.Reading?
  }

  /** What a party has sent after its handshake. */
  function AfterHandshake(e: End): bytes {
    if |e.sent| < 320 then [] else e.sent[320..]
  }

  /**
    From the client to the server: the client's pipe puts packets made with its client keys on the
    channel after the handshake, and the server's pipe opens what has arrived with its own client
    keys.  What the server puts out is a beginning of what the client was fed, and once everything has
    arrived and both pipes have closed or both wait for input it is all of it.
   */
  lemma ClientToServer(env: Env, cipher: KeyPair -> Cipher, c: Config, s: Config, ws: seq<World>, ms: seq<Move>, n: nat,
                       ps: seq<PipeRuns.Pipe>, es: seq<PipeRuns.Event>, i: nat,
                       qs: seq<PipeRuns.Pipe>, fs: seq<PipeRuns.Event>, j: nat)
    requires IsRun(SchemeOf(env), c, s, ws, ms) && n < |ws|
    requires ws[n].c.p.outcome.Done? && ws[n].s.p.outcome.Done?
    requires PipeRuns.IsRun(cipher(ws[n].c.p.outcome.c), false, ps, es) && i < |ps|
    requires PipeRuns.IsRun(cipher(ws[n].s.p.outcome.c), true, qs, fs) && j < |qs|
    requires Involutive(cipher(ws[n].c.p.outcome.c))
    requires AfterHandshake(ws[n].c) == ps[i].sent && qs[j].fed <= AfterHandshake(ws[n].c)
    ensures qs[j].sent <= ps[i].fed
    ensures qs[j].fed == AfterHandshake(ws[n].c) && Over(ps[i], qs[j]) ==>
      qs[j].status == PipeRuns.Closed(0) && qs[j].sent == ps[i].fed
    ensures qs[j].fed == AfterHandshake(ws[n].c) && BothWait(ps[i], qs[j]) ==> qs[j].sent == ps[i].fed
  {
    SameKeys(env, c, s, ws, ms, n);
    var k := cipher(ws[n].c.p.outcome.c);
    PipeRuns.EndToEnd(k, ps, es, i, qs, fs, j);
    if qs[j].fed == ps[i].sent && Over(ps[i], qs[j]) {
      PipeRuns.NothingIsLost(k, ps, es, i, qs, fs, j);
    }
    if qs[j].fed == ps[i].sent && BothWait(ps[i], qs[j]) {
      PipeRuns.NothingIsWaiting(k, ps, es, i, qs, fs, j);
    }
  }

  /** And from the server to the client. */
  lemma ServerToClient(env: Env, cipher: KeyPair -> Cipher, c: Config, s: Config, ws: seq<World>, ms: seq<Move>, n: nat,
                       ps: seq<PipeRuns.Pipe>, es: seq<PipeRuns.Event>, i: nat,
                       qs: seq<PipeRuns.Pipe>, fs: seq<PipeRuns.Event>, j: nat)
    requires IsRun(SchemeOf(env), c, s, ws, ms) && n < |ws|
    requires ws[n].c.p.outcome.Done? && ws[n].s.p.outcome.Done?
    requires PipeRuns.IsRun(cipher(ws[n].s.p.outcome.s), false, ps, es) && i < |ps|
    requires PipeRuns.IsRun(cipher(ws[n].c.p.outcome.s), true, qs, fs) && j < |qs|
    requires Involutive(cipher(ws[n].s.p.outcome.s))
    requires AfterHandshake(ws[n].s) == ps[i].sent && qs[j].fed <= AfterHandshake(ws[n].s)
    ensures qs[j].sent <= ps[i].fed
    ensures qs[j].fed == AfterHandshake(ws[n].s) && Over(ps[i], qs[j]) ==>
      qs[j].status == PipeRuns.Closed(0) && qs[j].sent == ps[i].fed
    ensures qs[j].fed == AfterHandshake(ws[n].s) && BothWait(ps[i], qs[j]) ==> qs[j].sent == ps[i].fed
  {
    SameKeys(env, c, s, ws, ms, n);
    var k := cipher(ws[n].s.p.outcome.s);
    PipeRuns.EndToEnd(k, ps, es, i, qs, fs, j);
    if qs[j].fed == ps[i].sent && Over(ps[i], qs[j]) {
      PipeRuns.NothingIsLost(k, ps, es, i, qs, fs, j);
    }
    if qs[j].fed == ps[i].sent && BothWait(ps[i], qs[j]) {
      PipeRuns.NothingIsWaiting(k, ps, es, i, qs, fs, j);
    }
  }
}
