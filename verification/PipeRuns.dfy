/**
  Every run of a pipe: what it has sent is always determined by what it has been fed, and what the far
  end puts out is what the near end was fed.
 */
module PipeRuns {
  import opened Bytes
  import opened Packets
  import opened Pipes

  datatype Status = Running | Closed(code: int)

  /**
    A pipe and its history: what has been received from its input (`fed`), whether the end of the input
    has been seen, the chunks that have been worked on and what has been written (`sent`), and whether
    a call on a socket or for memory has failed (`trouble`).  The packet number is that of the next chunk.
   */
  datatype Pipe = Pipe(decr: bool, buf: Buf, wait: Wait, writing: Option<bytes>, status: Status,
                       fed: bytes, eof: bool, chunks: seq<bytes>, sent: bytes, trouble: bool)

  /** What happens to a pipe; `ok` says whether the next call it makes succeeds. */
  datatype Event =
    | Recv(x: bytes, ok: bool)
    | RecvEof(ok: bool)
    | RecvError
    | Again(ok: bool)
    | Immediate(ok: bool)
    | Written(len: int, ok: bool)

  /**
    What may happen: a receive call returns some bytes for which there is room, and none after the end
    of the input.
   */
  predicate Legal(p: Pipe, e: Event) {
    && p.status == Running
    && match e
       case Recv(x, _) => p.wait.Reading? && !p.eof && 1 <= |x| && |p.wait.got| + |x| <= p.wait.max
       case RecvEof(_) => p.wait.Reading?
       case RecvError => p.wait.Reading?
       case Again(_) => p.wait.Reading?
       case Immediate(_) => p.wait.Soon?
       case Written(len, _) => p.writing.Some? && len <= |p.writing.value|
  }

  function Close(p: Pipe, code: int): Pipe {
    p.(status := Closed(code), wait := Idle, writing := None)
  }

  function Broken(p: Pipe): Pipe {
    Close(p.(trouble := true), -1)
  }

  /** `netbuf_read_wait` */
  function StartWait(p: Pipe, ok: bool): (r: Pipe)
    ensures r.decr == p.decr
  {
    var min := MinRead(p.decr);
    if !ok then Broken(p)
    else if |p.buf.data| >= min then p.(wait := Soon)
    else
      var b := Prepare(p.buf, min);
      p.(buf := b, wait := Reading([], min - |b.data|, RoomIn(b)))
  }

  /** `callback_pipe_read` after a successful read: work on packets, then write or wait. */
  ghost function Process(c: Cipher, p: Pipe, ok: bool): (r: Pipe)
    ensures r.decr == p.decr
  {
    var w := Loop(c, p.decr, p.buf.data, |p.chunks|, 0);
    if !w.ok then Close(p, -1)
    else if w.chunks == [] then StartWait(p, ok)
    else if !ok then Broken(p)
    else LoopOutput(c, p.decr, p.buf.data, |p.chunks|); Write(c, p, w.chunks)
  }

  /** The end of `callback_pipe_read`: the input is consumed, and the output of the chunks is written. */
  ghost function Write(c: Cipher, p: Pipe, chunks: seq<bytes>): Pipe
    requires Chunked(chunks) && Used(p.decr, chunks) <= |p.buf.data|
  {
    var used, out := Used(p.decr, chunks), Output(c, p.decr, chunks, |p.chunks|);
    p.(buf := Buf(p.buf.buflen, p.buf.bufpos + used, p.buf.data[used..]), writing := Some(out),
       chunks := p.chunks + chunks, sent := p.sent + out)
  }

  /** `callback_pipe_read` at the end of the input; `ok` says whether shutting down the output works. */
  function Finish(p: Pipe, ok: bool): Pipe {
    if p.decr && p.buf.data != [] then Close(p, -1) else if !ok then Broken(p) else Close(p, 0)
  }

  /** The bytes that `network_read` has collected are there. */
  function Deliver(p: Pipe, got: bytes): Pipe {
    p.(buf := p.buf.(data := p.buf.data + got), wait := Idle)
  }

  ghost function Step(c: Cipher, p: Pipe, e: Event): (r: Pipe)
    requires Legal(p, e)
    ensures r.decr == p.decr
  {
    match e
    case Recv(x, ok) =>
      var got, p' := p.wait.got + x, p.(fed := p.fed + x);
      if |got| >= p.wait.min then Process(c, Deliver(p', got), ok)
      else if ok then p'.(wait := p.wait.(got := got))
      else Broken(p')
    case RecvEof(ok) =>
      var p' := p.(eof := true);
      if p.wait.got != [] then Process(c, Deliver(p', p.wait.got), ok) else Finish(p'.(wait := Idle), ok)
    case RecvError => Broken(p)
    case Again(ok) => if ok then p else Broken(p)
    case Immediate(ok) => Process(c, p.(wait := Idle), ok)
    case Written(len, ok) => if len < |p.writing.value| then Broken(p) else StartWait(p.(writing := None), ok)
  }

  /** `proto_pipe`: an empty buffer of 4096 bytes, and the first read. */
  function Launch(decr: bool): Pipe {
    StartWait(Pipe(decr, Buf(4096, 0, []), Idle, None, Running, [], false, [], [], false), true)
  }

  lemma LoopOutput(c: Cipher, decr: bool, data: bytes, n: nat)
    ensures var w := Loop(c, decr, data, n, 0);
      Chunked(w.chunks) && Used(decr, w.chunks) <= |data| && |Output(c, decr, w.chunks, n)| <= OUTBUFSIZE
  {
    if decr {
      DecLoop(c, data, n, 0);
      DecLoopFits(c, data, n, 0);
    } else {
      EncLoop(c, data, n, 0);
      PacketsLength(SealAll(c, Loop(c, decr, data, n, 0).chunks, n));
    }
  }

  /** What has been sent is what the chunks give, and they come from what has been fed. */
  ghost predicate History(c: Cipher, p: Pipe) {
    && Chunked(p.chunks)
    && p.sent == Output(c, p.decr, p.chunks, 0)
    && if p.decr then Opens(c, p.fed, p.chunks, 0) else Concat(p.chunks) <= p.fed
  }

  /** The bytes received and not worked on. */
  function Rest(p: Pipe): bytes {
    p.buf.data + if p.wait.Reading? then p.wait.got else []
  }

  /** They are exactly the bytes that follow those of the chunks: none is lost and none is there twice. */
  ghost predicate Position(p: Pipe) {
    && Used(p.decr, p.chunks) <= |p.fed|
    && Rest(p) == p.fed[Used(p.decr, p.chunks)..]
  }

  /**
    A pipe that runs waits for exactly one thing, and a read is for at least one byte and for no more
    than there is room.
   */
  ghost predicate Pending(p: Pipe) {
    && BufOk(p.buf)
    && match p.wait
       case Idle => p.writing.Some? && 1 <= |p.writing.value| <= OUTBUFSIZE
       case Soon => p.writing.None? && |p.buf.data| >= MinRead(p.decr)
       case Reading(got, min, max) =>
         && p.writing.None? && min == MinRead(p.decr) - |p.buf.data|
         && |got| < min <= max == p.buf.buflen - (p.buf.bufpos + |p.buf.data|)
  }

  /** The whole input was used up. */
  ghost predicate AllUsed(p: Pipe) {
    p.eof && Used(p.decr, p.chunks) == |p.fed|
  }

  /** The input has a packet that does not open, or ends inside a packet. */
  ghost predicate Spoilt(c: Cipher, p: Pipe) {
    p.decr && ((exists i: nat :: BadAt(c, p.fed, i, 0)) || (p.eof && |p.fed| % ESZ != 0))
  }

  ghost predicate Inv(c: Cipher, p: Pipe) {
    && History(c, p)
    && match p.status
       case Running => Position(p) && Pending(p) && !p.trouble
       case Closed(code) => (code == 0 && AllUsed(p) && !p.trouble) || (code == -1 && (p.trouble || Spoilt(c, p)))
  }

  /** Between a completed operation and the next one. */
  ghost predicate Between(c: Cipher, p: Pipe) {
    && p.status == Running && p.wait == Idle && p.writing == None && !p.trouble
    && BufOk(p.buf) && History(c, p) && Position(p)
  }

  lemma WaitKeeps(c: Cipher, p: Pipe, ok: bool)
    requires Between(c, p)
    ensures Inv(c, StartWait(p, ok))
  {
    if |p.buf.data| < MinRead(p.decr) {
      PrepareMakesRoom(p.buf, MinRead(p.decr));
      assert p.buf.data + [] == p.buf.data;
    }
  }

  lemma SealsAppend(c: Cipher, a: seq<bytes>, b: seq<bytes>)
    requires Chunked(a) && Chunked(b)
    ensures Chunked(a + b) && Seals(c, a + b, 0) == Seals(c, a, 0) + Seals(c, b, |a|)
  {
    assert SealAll(c, a + b, 0) == SealAll(c, a, 0) + SealAll(c, b, |a|);
    ConcatAppend(SealAll(c, a, 0), SealAll(c, b, |a|));
  }

  lemma OpensAppend(c: Cipher, s: bytes, a: seq<bytes>, b: seq<bytes>)
    requires Opens(c, s, a, 0) && Opens(c, s[ESZ * |a|..], b, |a|)
    ensures Opens(c, s, a + b, 0)
  {
    forall i | 0 <= i < |a + b|
      ensures OpensAt(c, s, i, 0, (a + b)[i])
    {
      if i < |a| {
        assert OpensAt(c, s, i, 0, a[i]);
      } else {
        var j := i - |a|;
        assert OpensAt(c, s[ESZ * |a|..], j, |a|, b[j]);
        assert s[ESZ * |a|..][ESZ * j..ESZ * j + ESZ] == s[ESZ * i..ESZ * i + ESZ];
      }
    }
  }

  lemma BadLater(c: Cipher, s: bytes, k: nat, j: nat)
    requires ESZ * k <= |s| && BadAt(c, s[ESZ * k..], j, k)
    ensures BadAt(c, s, k + j, 0)
  {
    assert s[ESZ * k..][ESZ * j..ESZ * j + ESZ] == s[ESZ * (k + j)..ESZ * (k + j) + ESZ];
  }

  /** More input does not change what the packets already there open to. */
  lemma OpensMore(c: Cipher, s: bytes, x: bytes, chunks: seq<bytes>)
    requires Opens(c, s, chunks, 0)
    ensures Opens(c, s + x, chunks, 0)
  {
    forall i | 0 <= i < |chunks|
      ensures OpensAt(c, s + x, i, 0, chunks[i])
    {
      assert OpensAt(c, s, i, 0, chunks[i]);
      assert (s + x)[ESZ * i..ESZ * i + ESZ] == s[ESZ * i..ESZ * i + ESZ];
    }
  }

  /** Working on the next bytes moves the position on by as many. */
  lemma Advance(fed: bytes, done: bytes, data: bytes, more: bytes)
    requires done <= fed && data + [] == fed[|done|..] && more <= data
    ensures done + more <= fed && data[|more|..] + [] == fed[|done + more|..]
  {
    assert data == fed[|done|..];
    assert fed == done + data;
  }

  lemma WriteEncHistory(c: Cipher, p: Pipe, chunks: seq<bytes>)
    requires Between(c, p) && !p.decr && Chunked(chunks) && Concat(chunks) <= p.buf.data
    ensures History(c, Write(c, p, chunks))
  {
    SealsAppend(c, p.chunks, chunks);
    ConcatAppend(p.chunks, chunks);
    Advance(p.fed, Concat(p.chunks), p.buf.data, Concat(chunks));
  }

  lemma WriteEnc(c: Cipher, p: Pipe, chunks: seq<bytes>)
    requires Between(c, p) && !p.decr && 1 <= |chunks| <= 8 && Chunked(chunks) && Concat(chunks) <= p.buf.data
    ensures Inv(c, Write(c, p, chunks))
  {
    WriteEncHistory(c, p, chunks);
    PacketsLength(SealAll(c, chunks, |p.chunks|));
    ConcatAppend(p.chunks, chunks);
    Advance(p.fed, Concat(p.chunks), p.buf.data, Concat(chunks));
  }

  lemma ProcessEnc(c: Cipher, p: Pipe, ok: bool)
    requires Between(c, p) && !p.decr
    ensures Inv(c, Process(c, p, ok))
  {
    var w := Loop(c, false, p.buf.data, |p.chunks|, 0);
    EncLoop(c, p.buf.data, |p.chunks|, 0);
    if w.chunks == [] {
      WaitKeeps(c, p, ok);
    } else if ok {
      WriteEnc(c, p, w.chunks);
    }
  }

  lemma WriteDec(c: Cipher, p: Pipe, chunks: seq<bytes>)
    requires Between(c, p) && p.decr && 1 <= |chunks| && Chunked(chunks) && |Concat(chunks)| <= OUTBUFSIZE
    requires Opens(c, p.buf.data, chunks, |p.chunks|)
    ensures Inv(c, Write(c, p, chunks))
  {
    assert p.buf.data == p.fed[ESZ * |p.chunks|..];
    OpensAppend(c, p.fed, p.chunks, chunks);
    ConcatAppend(p.chunks, chunks);
  }

  lemma ProcessDec(c: Cipher, p: Pipe, ok: bool)
    requires Between(c, p) && p.decr
    ensures Inv(c, Process(c, p, ok))
  {
    var k := |p.chunks|;
    var w := Loop(c, true, p.buf.data, k, 0);
    assert p.buf.data == p.fed[ESZ * k..];
    DecLoop(c, p.buf.data, k, 0);
    DecLoopFits(c, p.buf.data, k, 0);
    if !w.ok {
      BadLater(c, p.fed, k, |w.chunks|);
    } else if w.chunks == [] {
      WaitKeeps(c, p, ok);
    } else if ok {
      WriteDec(c, p, w.chunks);
    }
  }

  lemma FedMore(c: Cipher, p: Pipe, x: bytes)
    requires History(c, p)
    ensures History(c, p.(fed := p.fed + x))
  {
    if p.decr {
      OpensMore(c, p.fed, x, p.chunks);
    }
  }

  lemma ProcessKeeps(c: Cipher, p: Pipe, ok: bool)
    requires Between(c, p)
    ensures Inv(c, Process(c, p, ok))
  {
    if p.decr {
      ProcessDec(c, p, ok);
    } else {
      ProcessEnc(c, p, ok);
    }
  }

  lemma RecvKeeps(c: Cipher, p: Pipe, e: Event)
    requires Inv(c, p) && Legal(p, e) && e.Recv?
    ensures Inv(c, Step(c, p, e))
  {
    var got, p' := p.wait.got + e.x, p.(fed := p.fed + e.x);
    FedMore(c, p, e.x);
    FedOn(p.fed, Used(p.decr, p.chunks), p.buf.data, p.wait.got, e.x);
    if |got| >= p.wait.min {
      ProcessKeeps(c, Deliver(p', got), e.ok);
    }
  }

  lemma FedOn(fed: bytes, used: nat, data: bytes, got: bytes, x: bytes)
    requires used <= |fed| && data + got == fed[used..]
    ensures data + (got + x) == (fed + x)[used..] && (data + (got + x)) + [] == (fed + x)[used..]
  {
    assert (fed + x)[used..] == fed[used..] + x;
  }

  lemma EofKeeps(c: Cipher, p: Pipe, e: Event)
    requires Inv(c, p) && Legal(p, e) && e.RecvEof?
    ensures Inv(c, Step(c, p, e))
  {
    var p' := p.(eof := true);
    if p.wait.got != [] {
      FedOn(p.fed, Used(p.decr, p.chunks), p.buf.data, p.wait.got, []);
      ProcessKeeps(c, Deliver(p', p.wait.got), e.ok);
    } else if p.decr && p.buf.data != [] {
      assert |p.fed| == ESZ * |p.chunks| + |p.buf.data|;
    }
  }

  lemma StepKeeps(c: Cipher, p: Pipe, e: Event)
    requires Inv(c, p) && Legal(p, e)
    ensures Inv(c, Step(c, p, e))
  {
    match e
    case Recv(x, ok) => RecvKeeps(c, p, e);
    case RecvEof(ok) => EofKeeps(c, p, e);
    case RecvError =>
    case Again(ok) =>
    case Immediate(ok) => ProcessKeeps(c, p.(wait := Idle), ok);
    case Written(len, ok) => WaitKeeps(c, p.(writing := None), ok);
  }

  /** The states of a pipe from its launch on. */
  ghost predicate IsRun(c: Cipher, decr: bool, ps: seq<Pipe>, es: seq<Event>) {
    && |ps| == |es| + 1 && ps[0] == Launch(decr)
    && forall i :: 0 <= i < |es| ==> Legal(ps[i], es[i]) && ps[i + 1] == Step(c, ps[i], es[i])
  }

  lemma LaunchKeeps(c: Cipher, decr: bool)
    ensures Inv(c, Launch(decr)) && Launch(decr).decr == decr
  {
    var p := Pipe(decr, Buf(4096, 0, []), Idle, None, Running, [], false, [], [], false);
    assert p.fed[0..] == [];
    WaitKeeps(c, p, true);
  }

  lemma {:induction false} RunKeeps(c: Cipher, decr: bool, ps: seq<Pipe>, es: seq<Event>, n: nat)
    requires IsRun(c, decr, ps, es) && n < |ps|
    ensures Inv(c, ps[n]) && ps[n].decr == decr
  {
    if n == 0 {
      LaunchKeeps(c, decr);
    } else {
      RunKeeps(c, decr, ps, es, n - 1);
      StepKeeps(c, ps[n - 1], es[n - 1]);
    }
  }

  lemma {:induction false} PacketOf(ps: seq<Packet>, i: nat)
    requires i < |ps|
    ensures |Concat(ps)| == ESZ * |ps| && Concat(ps)[ESZ * i..ESZ * i + ESZ] == ps[i]
  {
    PacketsLength(ps);
    var rest := Concat(ps[1..]);
    assert Concat(ps) == ps[0] + rest;
    if i > 0 {
      PacketOf(ps[1..], i - 1);
      assert rest[ESZ * (i - 1)..ESZ * (i - 1) + ESZ] == ps[i];
      assert (ps[0] + rest)[ESZ * i..ESZ * i + ESZ] == rest[ESZ * (i - 1)..ESZ * (i - 1) + ESZ];
    }
  }

  /** Packet `i` of what the sender put out opens to its chunk `i`. */
  lemma SentOpens(c: Cipher, chunks: seq<bytes>, s: bytes, i: nat)
    requires Involutive(c) && Chunked(chunks) && s <= Seals(c, chunks, 0) && ESZ * i + ESZ <= |s|
    ensures i < |chunks| && OpensAt(c, s, i, 0, chunks[i])
  {
    var ps := SealAll(c, chunks, 0);
    PacketsLength(ps);
    PacketOf(ps, i);
    assert s[ESZ * i..ESZ * i + ESZ] == Concat(ps)[ESZ * i..ESZ * i + ESZ];
    OpenSealed(c, Number(i), chunks[i]);
  }

  lemma ConcatPrefix(a: seq<bytes>, b: seq<bytes>)
    requires a <= b
    ensures Concat(a) <= Concat(b)
  {
    assert b == a + b[|a|..];
    ConcatAppend(a, b[|a|..]);
  }

  /** What opens of a beginning of what was sent are the first chunks, and nothing in it is bad. */
  lemma SentPrefix(c: Cipher, chunks: seq<bytes>, s: bytes, got: seq<bytes>)
    requires Involutive(c) && Chunked(chunks) && s <= Seals(c, chunks, 0) && Opens(c, s, got, 0)
    ensures got <= chunks && forall i: nat :: !BadAt(c, s, i, 0)
  {
    forall i: nat | ESZ * i + ESZ <= |s|
      ensures !BadAt(c, s, i, 0)
    {
      SentOpens(c, chunks, s, i);
    }
    if got != [] {
      SentOpens(c, chunks, s, |got| - 1);
    }
    forall i | 0 <= i < |got|
      ensures got[i] == chunks[i]
    {
      assert OpensAt(c, s, i, 0, got[i]);
      SentOpens(c, chunks, s, i);
    }
  }

  /**
    Two ends with the same keys and a channel that delivers a beginning of what was sent: however both
    sides' reads are cut up, what the decrypting end puts out is a beginning of what the encrypting
    end was fed, it meets no bad packet, and the packet numbers are those of the same chunks.
   */
  lemma EndToEnd(c: Cipher, ps: seq<Pipe>, es: seq<Event>, m: nat, qs: seq<Pipe>, fs: seq<Event>, n: nat)
    requires Involutive(c) && IsRun(c, false, ps, es) && IsRun(c, true, qs, fs) && m < |ps| && n < |qs|
    requires qs[n].fed <= ps[m].sent
    ensures qs[n].chunks <= ps[m].chunks && qs[n].sent <= ps[m].fed
    ensures forall i: nat :: !BadAt(c, qs[n].fed, i, 0)
  {
    var near, far := ps[m], qs[n];
    RunKeeps(c, false, ps, es, m);
    RunKeeps(c, true, qs, fs, n);
    SentPrefix(c, near.chunks, far.fed, far.chunks);
    ConcatPrefix(far.chunks, near.chunks);
  }

  /**
    Once everything has arrived and the far end is closed without trouble, its status is 0 and it has
    put out everything.
   */
  lemma NothingIsLost(c: Cipher, ps: seq<Pipe>, es: seq<Event>, m: nat, qs: seq<Pipe>, fs: seq<Event>, n: nat)
    requires Involutive(c) && IsRun(c, false, ps, es) && IsRun(c, true, qs, fs) && m < |ps| && n < |qs|
    requires ps[m].status == Closed(0) && qs[n].fed == ps[m].sent && qs[n].status.Closed? && !qs[n].trouble
    ensures qs[n].status == Closed(0) && qs[n].chunks == ps[m].chunks && qs[n].sent == ps[m].fed
  {
    RunKeeps(c, false, ps, es, m);
    RunKeeps(c, true, qs, fs, n);
    SentPrefix(c, ps[m].chunks, qs[n].fed, qs[n].chunks);
    PacketsLength(SealAll(c, ps[m].chunks, 0));
    CleanEnd(c, qs[n], |ps[m].chunks|);
    assert qs[n].chunks == ps[m].chunks;
  }

  /**
    Nor while both ends run: when everything has arrived and both wait for input, everything that the near
    end was fed has been put out.
   */
  lemma NothingIsWaiting(c: Cipher, ps: seq<Pipe>, es: seq<Event>, m: nat, qs: seq<Pipe>, fs: seq<Event>, n: nat)
    requires Involutive(c) && IsRun(c, false, ps, es) && IsRun(c, true, qs, fs) && m < |ps| && n < |qs|
    requires ps[m].status == Running && ps[m].wait.Reading? && qs[n].status == Running && qs[n].wait.Reading?
    requires qs[n].fed == ps[m].sent
    ensures qs[n].chunks == ps[m].chunks && qs[n].sent == ps[m].fed
  {
    var near, far := ps[m], qs[n];
    RunKeeps(c, false, ps, es, m);
    RunKeeps(c, true, qs, fs, n);
    SentPrefix(c, near.chunks, far.fed, far.chunks);
    PacketsLength(SealAll(c, near.chunks, 0));
    NothingBuffered(c, near);
    LessThanAPacket(c, far, |near.chunks|);
    assert far.chunks == near.chunks;
  }

  /** An encrypting pipe that waits for input has put all of its input into packets. */
  lemma NothingBuffered(c: Cipher, p: Pipe)
    requires Inv(c, p) && !p.decr && p.status == Running && p.wait.Reading?
    ensures Concat(p.chunks) == p.fed
  {
    assert |Rest(p)| == 0;
  }

  /** A decrypting pipe that waits for input has opened every whole packet. */
  lemma LessThanAPacket(c: Cipher, p: Pipe, k: nat)
    requires Inv(c, p) && p.decr && p.status == Running && p.wait.Reading? && |p.fed| == ESZ * k
    ensures |p.chunks| == k
  {
    assert |Rest(p)| < ESZ;
  }

  /** Whole packets, none of them bad, are all used. */
  lemma CleanEnd(c: Cipher, p: Pipe, k: nat)
    requires Inv(c, p) && p.decr && p.status.Closed? && !p.trouble
    requires |p.fed| == ESZ * k && forall i: nat :: !BadAt(c, p.fed, i, 0)
    ensures p.status == Closed(0) && |p.chunks| == k
  {
  }

  /**
    What the MAC promises of the stream `s` that arrives: a packet in it verifies only if the sender
    made it under that number.
   */
  ghost predicate OnlySent(c: Cipher, chunks: seq<bytes>, s: bytes)
    requires Chunked(chunks)
  {
    forall i: nat :: VerifiesAt(c, s, i) ==> exists j :: IsSent(c, chunks, s, i, j)
  }

  ghost predicate VerifiesAt(c: Cipher, s: bytes, i: nat) {
    ESZ * i + ESZ <= |s| && Authentic(c, Number(i), s[ESZ * i..ESZ * i + ESZ])
  }

  /** Packet `i` of `s` is the sender's packet `j`, which has the same number. */
  ghost predicate IsSent(c: Cipher, chunks: seq<bytes>, s: bytes, i: nat, j: nat)
    requires Chunked(chunks)
  {
    && j < |chunks| && Number(j) == Number(i)
    && ESZ * i + ESZ <= |s| && s[ESZ * i..ESZ * i + ESZ] == Seal(c, Number(i), chunks[j])
  }

  /**
    Whatever arrives, tampered with in any way: as long as neither side has come to the same packet
    number twice, what is put out is a beginning of what the sender was fed.
   */
  lemma OnlyTheSendersBytes(c: Cipher, chunks: seq<bytes>, qs: seq<Pipe>, fs: seq<Event>, n: nat)
    requires IsRun(c, true, qs, fs) && n < |qs|
    requires Involutive(c) && Chunked(chunks) && OnlySent(c, chunks, qs[n].fed)
    requires |chunks| <= TWO_64 && |qs[n].fed| < ESZ * (TWO_64 + 1)
    ensures qs[n].chunks <= chunks && qs[n].sent <= Concat(chunks)
  {
    RunKeeps(c, true, qs, fs, n);
    OpenedAreSent(c, chunks, qs[n].fed, qs[n].chunks);
    ConcatPrefix(qs[n].chunks, chunks);
  }

  /** The same of a sender that is itself in a run: what is put out is a beginning of what the sender was fed. */
  lemma OnlyWhatTheSenderWasFed(c: Cipher, ps: seq<Pipe>, es: seq<Event>, m: nat, qs: seq<Pipe>, fs: seq<Event>, n: nat)
    requires IsRun(c, false, ps, es) && m < |ps| && IsRun(c, true, qs, fs) && n < |qs| && Involutive(c)
    requires Chunked(ps[m].chunks) ==> OnlySent(c, ps[m].chunks, qs[n].fed)
    requires |ps[m].chunks| <= TWO_64 && |qs[n].fed| < ESZ * (TWO_64 + 1)
    ensures qs[n].chunks <= ps[m].chunks && qs[n].sent <= ps[m].fed
  {
    RunKeeps(c, false, ps, es, m);
    OnlyTheSendersBytes(c, ps[m].chunks, qs, fs, n);
  }

  /** What opens was made by the sender, under the same number. */
  lemma OpenedIsSent(c: Cipher, chunks: seq<bytes>, s: bytes, i: nat, chunk: bytes) returns (j: nat)
    requires Involutive(c) && Chunked(chunks) && OnlySent(c, chunks, s) && OpensAt(c, s, i, 0, chunk)
    ensures j < |chunks| && Number(j) == Number(i) && chunk == chunks[j]
  {
    assert 0 + i == i && VerifiesAt(c, s, i);
    j :| IsSent(c, chunks, s, i, j);
    OpenSealed(c, Number(i), chunks[j]);
  }

  lemma OpenedAreSent(c: Cipher, chunks: seq<bytes>, s: bytes, got: seq<bytes>)
    requires Involutive(c) && Chunked(chunks) && OnlySent(c, chunks, s) && Opens(c, s, got, 0)
    requires |chunks| <= TWO_64 && |s| < ESZ * (TWO_64 + 1)
    ensures got <= chunks
  {
    forall i | 0 <= i < |got|
      ensures i < |chunks| && got[i] == chunks[i]
    {
      assert OpensAt(c, s, i, 0, got[i]);
      OpenedInPlace(c, chunks, s, i, got[i]);
    }
    if got != [] {
      OpenedInPlace(c, chunks, s, |got| - 1, got[|got| - 1]);
    }
  }

  /** As long as numbers do not repeat, that is the packet in the same place. */
  lemma OpenedInPlace(c: Cipher, chunks: seq<bytes>, s: bytes, i: nat, chunk: bytes)
    requires Involutive(c) && Chunked(chunks) && OnlySent(c, chunks, s) && OpensAt(c, s, i, 0, chunk)
    requires |chunks| <= TWO_64 && i < TWO_64
    ensures i < |chunks| && chunk == chunks[i]
  {
    var j := OpenedIsSent(c, chunks, s, i, chunk);
    OneOfEach(i, j);
  }

  lemma OneOfEach(i: nat, j: nat)
    requires i < TWO_64 && j < TWO_64 && Number(j) == Number(i)
    ensures i == j
  {
    NumberWraps(i);
    NumberWraps(j);
  }

  /** The stream that the sender made, and every beginning of it, is such a stream. */
  lemma SentIsOnlySent(c: Cipher, chunks: seq<bytes>, s: bytes)
    requires Chunked(chunks) && s <= Seals(c, chunks, 0)
    ensures OnlySent(c, chunks, s)
  {
    PacketsLength(SealAll(c, chunks, 0));
    forall i: nat | VerifiesAt(c, s, i)
      ensures exists j :: IsSent(c, chunks, s, i, j)
    {
      PacketOf(SealAll(c, chunks, 0), i);
      assert s[ESZ * i..ESZ * i + ESZ] == Seals(c, chunks, 0)[ESZ * i..ESZ * i + ESZ];
      assert IsSent(c, chunks, s, i, i);
    }
  }

  /** The limit on the sender is needed: packet 2^64 has the number of packet 0 and opens in its place. */
  lemma SenderRepeats(c: Cipher, chunks: seq<bytes>)
    requires Involutive(c) && Chunked(chunks) && |chunks| > TWO_64
    ensures var s := Seal(c, 0, chunks[TWO_64]);
      && OnlySent(c, chunks, s) && Opens(c, s, [chunks[TWO_64]], 0)
      && ([chunks[TWO_64]] <= chunks <==> chunks[TWO_64] == chunks[0])
  {
    NumberWraps(0);
    NumberWraps(TWO_64);
    var s := Seal(c, 0, chunks[TWO_64]);
    assert s[ESZ * 0..ESZ * 0 + ESZ] == s;
    forall i: nat | VerifiesAt(c, s, i)
      ensures exists j :: IsSent(c, chunks, s, i, j)
    {
      assert i == 0;
      assert IsSent(c, chunks, s, 0, TWO_64);
    }
    OpenSealed(c, 0, chunks[TWO_64]);
    assert OpensAt(c, s, 0, 0, chunks[TWO_64]);
  }

  /** So is the limit on the receiver: after 2^64 packets the first one opens once more. */
  lemma ReceiverRepeats(c: Cipher, chunks: seq<bytes>)
    requires Involutive(c) && Chunked(chunks) && |chunks| == TWO_64
    ensures var s := Seals(c, chunks, 0) + Seal(c, 0, chunks[0]);
      OnlySent(c, chunks, s) && Opens(c, s, chunks + [chunks[0]], 0) && !(chunks + [chunks[0]] <= chunks)
  {
    var all, p := Seals(c, chunks, 0), Seal(c, 0, chunks[0]);
    var s, got := all + p, chunks + [chunks[0]];
    PacketsLength(SealAll(c, chunks, 0));
    NumberWraps(0);
    NumberWraps(TWO_64);
    forall i: nat | ESZ * i + ESZ <= |s|
      ensures IsSent(c, chunks, s, i, if i < TWO_64 then i else 0) && OpensAt(c, s, i, 0, got[i])
    {
      if i < TWO_64 {
        SentAgain(c, chunks, all, s, i);
      } else {
        FirstAgain(c, chunks, all, s, TWO_64, i);
      }
    }
    assert forall i: nat :: VerifiesAt(c, s, i) ==> IsSent(c, chunks, s, i, if i < TWO_64 then i else 0);
  }

  lemma SentAgain(c: Cipher, chunks: seq<bytes>, all: bytes, s: bytes, i: nat)
    requires Involutive(c) && Chunked(chunks) && all == Seals(c, chunks, 0) && all <= s && i < |chunks|
    ensures IsSent(c, chunks, s, i, i) && OpensAt(c, s, i, 0, chunks[i])
  {
    PacketOf(SealAll(c, chunks, 0), i);
    SentOpens(c, chunks, all, i);
    assert s[ESZ * i..ESZ * i + ESZ] == all[ESZ * i..ESZ * i + ESZ];
  }

  lemma FirstAgain(c: Cipher, chunks: seq<bytes>, all: bytes, s: bytes, k: nat, i: nat)
    requires Involutive(c) && Chunked(chunks) && |chunks| == k > 0 && |all| == ESZ * k && Number(k) == Number(0) == 0
    requires s == all + Seal(c, 0, chunks[0]) && k <= i && ESZ * i + ESZ <= |s|
    ensures i == k && IsSent(c, chunks, s, i, 0) && OpensAt(c, s, i, 0, chunks[0])
  {
    assert s[ESZ * i..ESZ * i + ESZ] == Seal(c, 0, chunks[0]);
    OpenSealed(c, 0, chunks[0]);
  }

  /** A stream that consists of whole packets which open. */
  ghost predicate WholePackets(c: Cipher, s: bytes) {
    |s| % ESZ == 0 && forall i: nat :: !BadAt(c, s, i, 0)
  }

  /**
    Without trouble on the sockets, the final status of a decrypting pipe is 0 exactly if the whole
    stream consists of packets that open; a stream cut off inside a packet gives -1.
   */
  lemma FinalStatus(c: Cipher, qs: seq<Pipe>, fs: seq<Event>, n: nat, all: bytes)
    requires IsRun(c, true, qs, fs) && n < |qs| && qs[n].status.Closed? && !qs[n].trouble
    requires qs[n].fed <= all && (qs[n].eof ==> qs[n].fed == all)
    ensures qs[n].status == Closed(if WholePackets(c, all) then 0 else -1)
  {
    var p := qs[n];
    RunKeeps(c, true, qs, fs, n);
    if p.status == Closed(0) {
      AllOpen(c, p.fed, p.chunks);
    } else if !(p.eof && |p.fed| % ESZ != 0) {
      var i: nat :| BadAt(c, p.fed, i, 0);
      BadMore(c, p.fed, all, i);
    }
  }

  lemma AllOpen(c: Cipher, s: bytes, chunks: seq<bytes>)
    requires Opens(c, s, chunks, 0) && |s| == ESZ * |chunks|
    ensures WholePackets(c, s)
  {
    forall i: nat | ESZ * i + ESZ <= |s|
      ensures !BadAt(c, s, i, 0)
    {
      assert OpensAt(c, s, i, 0, chunks[i]);
    }
  }

  lemma BadMore(c: Cipher, s: bytes, all: bytes, i: nat)
    requires s <= all && BadAt(c, s, i, 0)
    ensures BadAt(c, all, i, 0)
  {
    assert all[ESZ * i..ESZ * i + ESZ] == s[ESZ * i..ESZ * i + ESZ];
  }

  /**
    An encrypting pipe closes with -1 only after trouble, and with 0 only after everything has been
    put into packets.
   */
  lemma EncryptingStatus(c: Cipher, ps: seq<Pipe>, es: seq<Event>, m: nat)
    requires IsRun(c, false, ps, es) && m < |ps| && ps[m].status.Closed?
    ensures ps[m].status == Closed(if ps[m].trouble then -1 else 0)
    ensures Chunked(ps[m].chunks)
    ensures !ps[m].trouble ==>
      ps[m].eof && Concat(ps[m].chunks) == ps[m].fed && ps[m].sent == Output(c, false, ps[m].chunks, 0)
  {
    RunKeeps(c, false, ps, es, m);
  }

  /** A pipe that has not closed waits for exactly one thing. */
  lemma NeverStuck(c: Cipher, decr: bool, ps: seq<Pipe>, es: seq<Event>, n: nat)
    requires IsRun(c, decr, ps, es) && n < |ps| && ps[n].status == Running
    ensures ps[n].wait.Idle? <==> ps[n].writing.Some?
    ensures ps[n].wait.Reading? ==> 0 < ps[n].wait.min <= ps[n].wait.max
    ensures exists e :: Legal(ps[n], e)
  {
    RunKeeps(c, decr, ps, es, n);
    var p := ps[n];
    match p.wait
    case Idle => assert Legal(p, Written(|p.writing.value|, true));
    case Soon => assert Legal(p, Immediate(true));
    case Reading(_, _, _) => assert Legal(p, Again(true));
  }
}
