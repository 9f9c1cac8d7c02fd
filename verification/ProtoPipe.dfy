/**
  The pipe (`lib/proto/proto_pipe.c`) as it works on its buffers, against the functions in `Pipes` and `PipeRuns`.
 */
module ProtoPipe {
  import opened Bytes
  import opened Unfolding
  import opened Packets
  import opened ProtoCrypt
  import opened Pipes
  import opened PipeRuns
  import opened NetbufRead
  import AesCtr

  /** The packet loop stands at `inpos` and `outpos` and has gone through the chunks `done`. */
  ghost predicate LoopAt(c: Cipher, decr: bool, data: bytes, n: nat, inpos: nat, outpos: nat, done: seq<bytes>) {
    && inpos <= |data| && outpos <= OUTBUFSIZE && Chunked(done) && inpos == Used(decr, done)
    && (!decr ==> outpos == ESZ * |done|)
    && LeftToDo(c, decr, data, n, data[inpos..], n + |done|, outpos, done)
  }

  /** After the chunks `done`, the loop is still to go through the data `left`, which start with packet `m`. */
  ghost predicate LeftToDo(c: Cipher, decr: bool, data: bytes, n: nat, left: bytes, m: nat, outpos: nat,
                           done: seq<bytes>) {
    var holds: bool :| forall x :: x == LOOPS && About(x) ==> (holds <==>
      var rest := Loop(c, decr, left, m, outpos);
      Loop(c, decr, data, n, 0) == Work(done + rest.chunks, rest.ok));
    holds
  }

  lemma UsedSnoc(decr: bool, done: seq<bytes>, chunk: bytes)
    ensures Used(decr, done + [chunk]) == Used(decr, done) + ChunkUsed(decr, chunk)
  {
    ConcatAppend(done, [chunk]);
    assert Concat([chunk]) == chunk;
  }

  /** What a chunk adds to the output, with packet number `num`. */
  function MadeOf(c: Cipher, decr: bool, chunk: bytes, num: nat): bytes
    requires |chunk| <= MAXDSZ
  {
    if decr then chunk else Seal(c, num, chunk)
  }

  lemma OutputSnoc(c: Cipher, decr: bool, done: seq<bytes>, chunk: bytes, n: nat, num: nat, output: bytes)
    requires Chunked(done) && 1 <= |chunk| <= MAXDSZ && num == Number(n + |done|) && output == Output(c, decr, done, n)
    ensures Chunked(done + [chunk]) && |MadeOf(c, decr, chunk, num)| == ChunkMade(decr, chunk)
    ensures output + MadeOf(c, decr, chunk, num) == Output(c, decr, done + [chunk], n)
  {
    if decr {
      ConcatAppend(done, [chunk]);
      assert Concat([chunk]) == chunk;
    } else {
      var p := Seal(c, Number(n + |done|), chunk);
      assert SealAll(c, done + [chunk], n) == SealAll(c, done, n) + [p];
      ConcatAppend(SealAll(c, done, n), [p]);
      assert Concat([p]) == p;
    }
  }

  /** The length of the next piece of the input. */
  function PieceLen(decr: bool, inlen: nat): nat {
    if inlen > FullBuf(decr) then FullBuf(decr) else inlen
  }

  /** The chunk that a piece of the input is or holds. */
  function ChunkIn(c: Cipher, decr: bool, piece: bytes, num: nat): Option<bytes>
    requires decr ==> |piece| == ESZ
  {
    if decr then Open(c, num, piece) else Some(piece)
  }

  lemma LoopUnfolds(c: Cipher, decr: bool, left: bytes, n: nat, outpos: nat, len: nat, chunk: Option<bytes>,
                    next: bytes)
    requires left != [] && outpos + FullBuf(decr) <= OUTBUFSIZE && len <= |left|
    requires len == PieceLen(decr, |left|) && (decr ==> len == ESZ) && next == left[len..]
    requires chunk == ChunkIn(c, decr, left[..len], Number(n))
    ensures chunk.None? ==> !Loop(c, decr, left, n, outpos).ok
    ensures chunk.Some? ==> 1 <= |chunk.value| <= MAXDSZ
    ensures chunk.Some? ==> var rest := Loop(c, decr, next, n + 1, outpos + ChunkMade(decr, chunk.value));
      Loop(c, decr, left, n, outpos) == Work([chunk.value] + rest.chunks, rest.ok)
  {
  }

  lemma Regroup(done: seq<bytes>, chunk: bytes, rest: Work, w: Work)
    requires w == Work(done + ([chunk] + rest.chunks), rest.ok)
    ensures w == Work((done + [chunk]) + rest.chunks, rest.ok)
  {
  }

  /** One turn of the loop on the data that are left. */
  lemma LessToDo(c: Cipher, decr: bool, data: bytes, n: nat, left: bytes, m: nat, outpos: nat, done: seq<bytes>,
                 len: nat, chunk: Option<bytes>, next: bytes)
    requires LeftToDo(c, decr, data, n, left, m, outpos, done)
    requires left != [] && outpos + FullBuf(decr) <= OUTBUFSIZE && len <= |left|
    requires len == PieceLen(decr, |left|) && (decr ==> len == ESZ) && next == left[len..]
    requires chunk == ChunkIn(c, decr, left[..len], Number(m))
    ensures chunk.None? ==> Refused(c, decr, data, n)
    ensures chunk.Some? ==> 1 <= |chunk.value| <= MAXDSZ
    ensures chunk.Some? ==>
      LeftToDo(c, decr, data, n, next, m + 1, outpos + ChunkMade(decr, chunk.value), done + [chunk.value])
  {
    assert About(LOOPS) && About(RESULTS);
    LoopUnfolds(c, decr, left, m, outpos, len, chunk, next);
    if chunk.Some? {
      var rest := Loop(c, decr, next, m + 1, outpos + ChunkMade(decr, chunk.value));
      Regroup(done, chunk.value, rest, Loop(c, decr, data, n, 0));
    }
  }

  /** One turn of the loop: the next chunk is worked on, or it is a bad packet. */
  lemma Turn(c: Cipher, decr: bool, data: bytes, n: nat, inpos: nat, outpos: nat, done: seq<bytes>, len: nat,
             chunk: Option<bytes>)
    requires LoopAt(c, decr, data, n, inpos, outpos, done)
    requires inpos < |data| && outpos + FullBuf(decr) <= OUTBUFSIZE && inpos + len <= |data|
    requires len == PieceLen(decr, |data| - inpos) && (decr ==> len == ESZ)
    requires chunk == ChunkIn(c, decr, data[inpos..inpos + len], Number(n + |done|))
    ensures chunk.None? ==> Refused(c, decr, data, n)
    ensures chunk.Some? ==> 1 <= |chunk.value| <= MAXDSZ
    ensures chunk.Some? ==>
      LoopAt(c, decr, data, n, inpos + len, outpos + ChunkMade(decr, chunk.value), done + [chunk.value])
  {
    var left, next := data[inpos..], data[inpos + len..];
    assert left[..len] == data[inpos..inpos + len] && left[len..] == next;
    LessToDo(c, decr, data, n, left, n + |done|, outpos, done, len, chunk, next);
    if chunk.Some? {
      UsedSnoc(decr, done, chunk.value);
      assert n + |done + [chunk.value]| == n + |done| + 1;
    }
  }

  /** Encrypt or decrypt one chunk; -1 if it is a bad packet. */
  method Crypt(k: ProtoKeys, decr: bool, inbuf: array<byte>, at: nat, len: nat, outbuf: array<byte>, outpos: nat,
               aesni: bool, junk: AesCtr.Block) returns (made: int)
    requires k.Valid() && inbuf != outbuf && at + len <= inbuf.Length
    requires if decr then len == ESZ && outpos + MAXDSZ <= outbuf.Length
      else len <= MAXDSZ && outpos + ESZ <= outbuf.Length
    modifies k`pnum, inbuf, outbuf
    ensures k.Valid()
    ensures forall j :: 0 <= j < inbuf.Length && !(at <= j < at + len) ==> inbuf[j] == old(inbuf[j])
    ensures outbuf[..outpos] == old(outbuf[..outpos])
    ensures var chunk := ChunkIn(k.c, decr, old(inbuf[at..at + len]), old(k.pnum));
      if chunk.None? then made == -1
      else
        && made == ChunkMade(decr, chunk.value) && k.pnum == Inc64(old(k.pnum))
        && outbuf[outpos..outpos + made] == MadeOf(k.c, decr, chunk.value, old(k.pnum))
  {
    if decr {
      made := k.Dec(inbuf, at, outbuf, outpos, aesni, junk);
    } else {
      k.Enc(inbuf, at, len, outbuf, outpos, aesni, junk);
      made := ESZ;
    }
  }

  /** The packet loop has used `inpos` bytes of the data for the chunks `done` and put out `out`. */
  ghost predicate Worked(c: Cipher, decr: bool, data: bytes, n: nat, done: seq<bytes>, inpos: nat, out: bytes) {
    var holds: bool :| forall x :: x == RESULTS && About(x) ==> (holds <==>
      && Loop(c, decr, data, n, 0) == Work(done, true) && Chunked(done)
      && inpos == Used(decr, done) <= |data| && out == Output(c, decr, done, n));
    holds
  }

  /** The packet loop has come to a bad packet. */
  ghost predicate Refused(c: Cipher, decr: bool, data: bytes, n: nat) {
    var holds: bool :| forall x :: x == RESULTS && About(x) ==> (holds <==> !Loop(c, decr, data, n, 0).ok);
    holds
  }

  /**
    The buffers in the middle of the packet loop: the rest of the data is still there, and so is the
    output so far.
   */
  ghost predicate BuffersAt(c: Cipher, decr: bool, data: bytes, n: nat, input: bytes, output: bytes, inpos: nat,
                            done: seq<bytes>) {
    var holds: bool :| forall x :: x == BUFFERS && About(x) ==> (holds <==>
      && LoopAt(c, decr, data, n, inpos, |output|, done)
      && input == data[inpos..] && output == Output(c, decr, done, n));
    holds
  }

  lemma BuffersStart(c: Cipher, decr: bool, data: bytes, n: nat)
    ensures BuffersAt(c, decr, data, n, data, [], 0, [])
  {
    assert About(BUFFERS) && About(LOOPS) && data[0..] == data;
    var w := Loop(c, decr, data, n, 0);
    assert [] + w.chunks == w.chunks;
  }

  lemma BuffersAre(c: Cipher, decr: bool, data: bytes, n: nat, input: bytes, output: bytes, inpos: nat, outpos: nat,
                   done: seq<bytes>)
    requires LoopAt(c, decr, data, n, inpos, outpos, done) && outpos == |output|
    requires input == data[inpos..] && output == Output(c, decr, done, n)
    ensures BuffersAt(c, decr, data, n, input, output, inpos, done)
  {
    assert About(BUFFERS);
  }

  lemma BuffersHave(c: Cipher, decr: bool, data: bytes, n: nat, input: bytes, output: bytes, inpos: nat,
                    done: seq<bytes>)
    requires BuffersAt(c, decr, data, n, input, output, inpos, done)
    ensures LoopAt(c, decr, data, n, inpos, |output|, done) && input == data[inpos..]
    ensures output == Output(c, decr, done, n)
  {
    assert About(BUFFERS);
  }

  /** One turn of the loop on the buffers. */
  lemma BuffersTurn(c: Cipher, decr: bool, data: bytes, n: nat, input: bytes, output: bytes, inpos: nat,
                    done: seq<bytes>,
                    len: nat, num: nat, chunk: Option<bytes>)
    requires BuffersAt(c, decr, data, n, input, output, inpos, done) && num == Number(n + |done|)
    requires input != [] && |output| + FullBuf(decr) <= OUTBUFSIZE && len == PieceLen(decr, |input|)
    requires (decr ==> len == ESZ)
    requires chunk == ChunkIn(c, decr, input[..len], num)
    ensures chunk.None? ==> Refused(c, decr, data, n)
    ensures chunk.Some? ==> 1 <= |chunk.value| <= MAXDSZ
    ensures chunk.Some? ==>
      LoopAt(c, decr, data, n, inpos + len, |output| + ChunkMade(decr, chunk.value), done + [chunk.value])
  {
    BuffersHave(c, decr, data, n, input, output, inpos, done);
    assert input[..len] == data[inpos..inpos + len];
    Turn(c, decr, data, n, inpos, |output|, done, len, chunk);
  }

  lemma BuffersMade(c: Cipher, decr: bool, data: bytes, n: nat, input: bytes, output: bytes, inpos: nat,
                    done: seq<bytes>,
                    len: nat, num: nat, chunk: bytes)
    requires BuffersAt(c, decr, data, n, input, output, inpos, done) && num == Number(n + |done|)
    requires len <= |input| && 1 <= |chunk| <= MAXDSZ
    requires LoopAt(c, decr, data, n, inpos + len, |output| + ChunkMade(decr, chunk), done + [chunk])
    ensures BuffersAt(c, decr, data, n, input[len..], output + MadeOf(c, decr, chunk, num), inpos + len, done + [chunk])
  {
    BuffersHave(c, decr, data, n, input, output, inpos, done);
    OutputSnoc(c, decr, done, chunk, n, num, output);
    assert input[len..] == data[inpos + len..];
    BuffersAre(c, decr, data, n, input[len..], output + MadeOf(c, decr, chunk, num), inpos + len,
               |output| + ChunkMade(decr, chunk), done + [chunk]);
  }

  lemma BuffersStop(c: Cipher, decr: bool, data: bytes, n: nat, input: bytes, output: bytes, inpos: nat,
                    done: seq<bytes>)
    requires BuffersAt(c, decr, data, n, input, output, inpos, done)
    requires input == [] || |output| + FullBuf(decr) > OUTBUFSIZE || (decr && |input| < ESZ)
    ensures Worked(c, decr, data, n, done, inpos, output) && inpos <= |data| && input == data[inpos..]
  {
    assert About(BUFFERS) && About(LOOPS) && About(RESULTS);
    assert done + [] == done;
  }

  /** The room test with 1024 is enough for the 1060 bytes of a packet, since all that is in the buffer are packets. */
  lemma RoomForPacket(c: Cipher, decr: bool, data: bytes, n: nat, input: bytes, output: bytes, inpos: nat,
                      done: seq<bytes>)
    requires BuffersAt(c, decr, data, n, input, output, inpos, done) && |output| + FullBuf(decr) <= OUTBUFSIZE
    ensures |output| + ESZ <= OUTBUFSIZE
  {
    assert About(BUFFERS);
  }

  /** All that a turn of the loop needs and does. */
  lemma WholeTurn(c: Cipher, decr: bool, data: bytes, n: nat, input: bytes, output: bytes, inpos: nat, done: seq<bytes>,
                  len: nat, num: nat) returns (chunk: Option<bytes>)
    requires BuffersAt(c, decr, data, n, input, output, inpos, done) && num == Number(n + |done|)
    requires input != [] && |output| + FullBuf(decr) <= OUTBUFSIZE && len == PieceLen(decr, |input|)
    requires (decr ==> len == ESZ)
    ensures |output| + ESZ <= OUTBUFSIZE && chunk == ChunkIn(c, decr, input[..len], num)
    ensures chunk.None? ==> Refused(c, decr, data, n)
    ensures chunk.Some? ==> |chunk.value| <= MAXDSZ && Inc64(num) == Number(n + |done + [chunk.value]|)
    ensures chunk.Some? ==>
      BuffersAt(c, decr, data, n, input[len..], output + MadeOf(c, decr, chunk.value, num), inpos + len,
                done + [chunk.value])
  {
    RoomForPacket(c, decr, data, n, input, output, inpos, done);
    chunk := ChunkIn(c, decr, input[..len], num);
    BuffersTurn(c, decr, data, n, input, output, inpos, done, len, num, chunk);
    NextNumber(n + |done|);
    if chunk.Some? {
      BuffersMade(c, decr, data, n, input, output, inpos, done, len, num, chunk.value);
    }
  }

  /** The body of the loop of `callback_pipe_read`: the bytes that are put out, or -1. */
  method LoopBody(k: ProtoKeys, decr: bool, inbuf: array<byte>, at: nat, end: nat, outbuf: array<byte>, outpos: nat,
                  len: nat,
                  aesni: bool, junk: AesCtr.Block, ghost input: bytes, ghost output: bytes)
    returns (made: int)
    requires k.Valid() && inbuf != outbuf && at < end <= inbuf.Length && outbuf.Length == OUTBUFSIZE
    requires outpos + ESZ <= OUTBUFSIZE && len == PieceLen(decr, end - at) && (decr ==> len == ESZ)
    requires input == inbuf[at..end] && output == outbuf[..outpos]
    modifies k`pnum, inbuf, outbuf
    ensures k.Valid() && inbuf[at + len..end] == input[len..]
    ensures var chunk := ChunkIn(k.c, decr, input[..len], old(k.pnum));
      if chunk.None? then made == -1
      else
        && 0 <= made && outpos + made <= OUTBUFSIZE && k.pnum == Inc64(old(k.pnum))
        && outbuf[..outpos + made] == output + MadeOf(k.c, decr, chunk.value, old(k.pnum))
  {
    assert input[..len] == inbuf[at..at + len];
    made := Crypt(k, decr, inbuf, at, len, outbuf, outpos, aesni, junk);
    assert forall j :: at + len <= j < end ==> inbuf[j] == input[j - at];
    if made != -1 {
      assert outbuf[..outpos + made] == outbuf[..outpos] + outbuf[outpos..outpos + made];
    }
  }

  /** The same with what it means for the loop. */
  method LoopTurn(k: ProtoKeys, decr: bool, inbuf: array<byte>, at: nat, end: nat, outbuf: array<byte>, inpos: nat,
                  outpos: nat, len: nat,
                  aesni: bool, junk: AesCtr.Block, ghost data: bytes, ghost n: nat, ghost input: bytes,
                  ghost output: bytes,
                  ghost done: seq<bytes>)
    returns (ok: bool, inpos': nat, outpos': nat, ghost input': bytes, ghost output': bytes, ghost done': seq<bytes>)
    requires k.Valid() && inbuf != outbuf && at + inpos < end <= inbuf.Length && outbuf.Length == OUTBUFSIZE
    requires outpos + FullBuf(decr) <= OUTBUFSIZE && len == PieceLen(decr, end - (at + inpos)) && (decr ==> len == ESZ)
    requires input == inbuf[at + inpos..end] && output == outbuf[..outpos]
    requires BuffersAt(k.c, decr, data, n, input, output, inpos, done) && k.pnum == Number(n + |done|)
    modifies k`pnum, inbuf, outbuf
    ensures k.Valid()
    ensures !ok ==> Refused(k.c, decr, data, n)
    ensures ok ==> inpos < inpos' && at + inpos' <= end && outpos' <= OUTBUFSIZE && k.pnum == Number(n + |done'|)
    ensures ok ==> input' == inbuf[at + inpos'..end] && output' == outbuf[..outpos']
    ensures ok ==> BuffersAt(k.c, decr, data, n, input', output', inpos', done')
  {
    ghost var num := k.pnum;
    ghost var chunk := WholeTurn(k.c, decr, data, n, input, output, inpos, done, len, num);
    var made := LoopBody(k, decr, inbuf, at + inpos, end, outbuf, outpos, len, aesni, junk, input, output);
    ok, inpos', outpos', input', output', done' := made != -1, inpos, outpos, input, output, done;
    if ok {
      inpos', outpos' := inpos + len, outpos + made;
      input', output', done' := input[len..], output + MadeOf(k.c, decr, chunk.value, num), done + [chunk.value];
    }
  }

  /** The loop of `callback_pipe_read`. */
  method PacketLoop(k: ProtoKeys, decr: bool, inbuf: array<byte>, at: nat, end: nat, outbuf: array<byte>,
                    aesni: bool, junk: AesCtr.Block, ghost n: nat)
    returns (ok: bool, inpos: nat, outpos: nat, ghost done: seq<bytes>)
    requires k.Valid() && k.pnum == Number(n) && inbuf != outbuf && at <= end <= inbuf.Length
    requires outbuf.Length == OUTBUFSIZE
    modifies k`pnum, inbuf, outbuf
    ensures k.Valid() && (!ok ==> Refused(k.c, decr, old(inbuf[at..end]), n))
    ensures ok ==> inpos <= end - at && outpos <= OUTBUFSIZE && inbuf[at + inpos..end] == old(inbuf[at..end])[inpos..]
    ensures ok ==>
      Worked(k.c, decr, old(inbuf[at..end]), n, done, inpos, outbuf[..outpos]) && k.pnum == Number(n + |done|)
  {
    ghost var data := inbuf[at..end];
    BuffersStart(k.c, decr, data, n);
    inpos, outpos, done := 0, 0, [];
    ghost var input, output := data, outbuf[..0];
    while at + inpos < end
      invariant at + inpos <= end && k.Valid() && k.pnum == Number(n + |done|) && outpos <= OUTBUFSIZE
      invariant input == inbuf[at + inpos..end] && output == outbuf[..outpos]
      invariant BuffersAt(k.c, decr, data, n, input, output, inpos, done)
    {
      if outpos + FullBuf(decr) > OUTBUFSIZE {
        break;
      }
      var len := PieceLen(decr, end - (at + inpos));
      if decr && len < ESZ {
        break;
      }
      ok, inpos, outpos, input, output, done :=
        LoopTurn(k, decr, inbuf, at, end, outbuf, inpos, outpos, len, aesni, junk, data, n, input, output, done);
      if !ok {
        return;
      }
    }
    BuffersStop(k.c, decr, data, n, input, output, inpos, done);
    ok := true;
  }

  /** What matters of a pipe: once it is closed, its buffer does not. */
  function View(p: Pipe): Pipe {
    if p.status.Closed? then p.(buf := Buf(0, 0, [])) else p
  }

  class PipeCookie {
    const decr: bool
    const k: ProtoKeys
    const R: Reader
    const outbuf: array<byte>
    var writing: bool
    var wlen: nat
    var status: Status
    ghost var fed: bytes
    ghost var eof: bool
    ghost var chunks: seq<bytes>
    ghost var sent: bytes
    ghost var trouble: bool

    ghost predicate Valid()
      reads this, R, R.read, R.buf, outbuf, k, k.init, k.init.ictx, k.init.octx
    {
      && k.Valid() && R.Valid() && R.buflen <= SSIZE_MAX && R.buf != outbuf
      && outbuf.Length == OUTBUFSIZE && wlen <= OUTBUFSIZE
      && (status == Running ==> k.pnum == Number(|chunks|))
    }

    ghost function Abs(): Pipe
      requires R.Valid() && wlen <= outbuf.Length
      reads this, R, R.read, R.buf, outbuf
    {
      Pipe(decr, R.State(), R.Waiting(), if writing then Some(outbuf[..wlen]) else None, status,
           fed, eof, chunks, sent, trouble)
    }

    /** The beginning of `proto_pipe`. */
    constructor Bake(decr: bool, k: ProtoKeys)
      requires k.Valid() && k.pnum == 0
      ensures Valid() && fresh(R) && fresh(R.buf) && fresh(outbuf) && this.k == k
      ensures Abs() == Pipe(decr, Buf(4096, 0, []), Idle, None, Running, [], false, [], [], false)
    {
      this.decr, this.k, writing, wlen, status := decr, k, false, 0, Running;
      fed, eof, chunks, sent, trouble := [], false, [], [], false;
      var r := new Reader();
      R, outbuf := r, new byte[OUTBUFSIZE];
      NumberWraps(0);
    }

    /** `proto_pipe`: a pipe that waits for its first input, or null. */
    static method Create(decr: bool, k: ProtoKeys, ok: bool) returns (p: PipeCookie?)
      requires k.Valid() && k.pnum == 0
      ensures p == null <==> !ok
      ensures p != null ==> fresh(p) && p.Valid() && p.k == k && p.Abs() == Launch(decr)
    {
      var pipe := new PipeCookie.Bake(decr, k);
      pipe.StartReading(ok);
      p := if ok then pipe else null;
    }

    /** Wait for input: a call of `netbuf_read_wait`, and the way out if it fails. */
    method StartReading(ok: bool)
      requires Valid() && status == Running && R.Waiting() == Idle && !writing
      modifies this, R, R.buf
      ensures Valid() && (R.buf == old(R.buf) || fresh(R.buf)) && (R.read == null || fresh(R.read))
      ensures View(Abs()) == View(StartWait(old(Abs()), ok))
    {
      var r := WaitForInput(ok);
      if !r {
        status, trouble := Closed(-1), true;
      }
    }

    /** The reader's buffer is small, so that it can be waited for. */
    method WaitForInput(ok: bool) returns (r: bool)
      requires R.Valid() && R.read == null && !R.immediate && R.buflen <= SSIZE_MAX
      modifies R, R.buf
      ensures R.Valid() && R.buflen <= SSIZE_MAX && (R.buf == old(R.buf) || fresh(R.buf))
      ensures (R.read == null || fresh(R.read))
      ensures r == ok && R.State().data == old(R.State().data)
      ensures !r ==> R.Waiting() == Idle
      ensures r && |R.State().data| >= MinRead(decr) ==> R.State() == old(R.State()) && R.Waiting() == Soon
      ensures r && |R.State().data| < MinRead(decr) ==> R.State() == Prepare(old(R.State()), MinRead(decr))
      ensures r && |R.State().data| < MinRead(decr) ==>
        R.Waiting() == Reading([], MinRead(decr) - |R.State().data|, R.buflen - R.datalen)
    {
      if |R.State().data| < MinRead(decr) {
        SmallEnough(R.State(), MinRead(decr));
      }
      r := R.Wait(MinRead(decr), ok, ok);
    }

    /** The loop of `callback_pipe_read` on what is buffered, which is then consumed. */
    method WorkOnBuffered(aesni: bool, junk: AesCtr.Block)
      returns (ok: bool, inpos: nat, outpos: nat, ghost done: seq<bytes>)
      requires Valid() && status == Running && R.Waiting() == Idle && !writing
      modifies R, R.buf, outbuf, k`pnum
      ensures R.Valid() && k.Valid() && R.buf == old(R.buf) && R.Waiting() == Idle && R.read == old(R.read)
      ensures !ok ==> Refused(k.c, decr, old(R.State().data), |chunks|)
      ensures ok ==> inpos <= |old(R.State().data)| && outpos <= OUTBUFSIZE
      ensures ok ==> R.State() == Buf(old(R.buflen), old(R.bufpos) + inpos, old(R.State().data)[inpos..])
      ensures ok ==> Worked(k.c, decr, old(R.State().data), |chunks|, done, inpos, outbuf[..outpos])
      ensures ok ==> k.pnum == Number(|chunks| + |done|)
    {
      var at, len := R.Peek();
      ok, inpos, outpos, done := PacketLoop(k, decr, R.buf, at, at + len, outbuf, aesni, junk, |chunks|);
      if ok {
        R.Consume(inpos);
      }
    }

    /** Write what has been put out: a call of `network_write`, and the way out if it fails. */
    method StartWriting(outpos: nat, ok: bool, ghost done: seq<bytes>)
      requires k.Valid() && R.Valid() && R.buflen <= SSIZE_MAX && R.buf != outbuf && outbuf.Length == OUTBUFSIZE
      requires wlen <= OUTBUFSIZE
      requires status == Running && R.Waiting() == Idle && !writing && outpos <= OUTBUFSIZE
      requires k.pnum == Number(|chunks| + |done|)
      modifies this
      ensures Valid() && View(Abs()) == View(if !ok then Broken(old(Abs())) else
        old(Abs()).(writing := Some(outbuf[..outpos]), chunks := old(chunks) + done,
                    sent := old(sent) + outbuf[..outpos]))
    {
      if ok {
        writing, wlen := true, outpos;
        chunks, sent := chunks + done, sent + outbuf[..outpos];
      } else {
        status, trouble := Closed(-1), true;
      }
    }

    /** `callback_pipe_read` when data are there: packets are worked on, and what comes out of them is written. */
    method OnData(aesni: bool, junk: AesCtr.Block, ok: bool)
      requires Valid() && status == Running && R.Waiting() == Idle && !writing
      modifies this, R, R.buf, outbuf, k`pnum
      ensures Valid() && (R.buf == old(R.buf) || fresh(R.buf)) && (R.read == null || fresh(R.read))
      ensures View(Abs()) == View(Process(k.c, old(Abs()), ok))
    {
      ghost var p := Abs();
      var good, inpos, outpos;
      ghost var done;
      good, inpos, outpos, done := WorkOnBuffered(aesni, junk);
      if !good {
        RefusedCloses(k.c, p, ok);
        status := Closed(-1);
      } else {
        FinishWork(outpos, ok, p, done, inpos);
      }
    }

    method FinishWork(outpos: nat, ok: bool, ghost p: Pipe, ghost done: seq<bytes>, ghost inpos: nat)
      requires k.Valid() && R.Valid() && R.buflen <= SSIZE_MAX && R.buf != outbuf && outbuf.Length == OUTBUFSIZE
      requires wlen <= OUTBUFSIZE
      requires status == Running && R.Waiting() == Idle && !writing && outpos <= OUTBUFSIZE
      requires k.pnum == Number(|chunks| + |done|)
      requires Worked(k.c, decr, p.buf.data, |p.chunks|, done, inpos, outbuf[..outpos])
      requires inpos <= |p.buf.data| && Abs() == p.(buf := Buf(p.buf.buflen, p.buf.bufpos + inpos, p.buf.data[inpos..]))
      modifies this, R, R.buf
      ensures Valid() && (R.buf == old(R.buf) || fresh(R.buf)) && (R.read == null || fresh(R.read))
      ensures View(Abs()) == View(Process(k.c, p, ok))
    {
      WorkedWrites(k.c, p, done, inpos, outbuf[..outpos], ok);
      PutOut(outpos, ok, p, done, inpos, Process(k.c, p, ok));
    }

    /** The end of that: write what was put out or, if there is nothing, wait for more. */
    method PutOut(outpos: nat, ok: bool, ghost p: Pipe, ghost done: seq<bytes>, ghost inpos: nat, ghost q: Pipe)
      requires k.Valid() && R.Valid() && R.buflen <= SSIZE_MAX && R.buf != outbuf && outbuf.Length == OUTBUFSIZE
      requires wlen <= OUTBUFSIZE
      requires status == Running && R.Waiting() == Idle && !writing && outpos <= OUTBUFSIZE
      requires k.pnum == Number(|chunks| + |done|)
      requires inpos <= |p.buf.data| && Abs() == p.(buf := Buf(p.buf.buflen, p.buf.bufpos + inpos, p.buf.data[inpos..]))
      requires Continues(p, done, inpos, outbuf[..outpos], ok, q)
      modifies this, R, R.buf
      ensures Valid() && (R.buf == old(R.buf) || fresh(R.buf)) && (R.read == null || fresh(R.read))
      ensures View(Abs()) == View(q)
    {
      if outpos == 0 {
        assert Abs() == p;
        StartReading(ok);
      } else {
        StartWriting(outpos, ok, done);
      }
    }

    /** `callback_pipe_read`: data are there (0), the input has ended (1) or the read has failed (-1). */
    method CallbackPipeRead(st: int, aesni: bool, junk: AesCtr.Block, ok: bool)
      requires Valid() && status == Running && R.Waiting() == Idle && !writing && -1 <= st <= 1
      modifies this, R, R.buf, outbuf, k`pnum
      ensures Valid() && (R.buf == old(R.buf) || fresh(R.buf)) && (R.read == null || fresh(R.read))
      ensures View(Abs()) == View(AfterRead(k.c, old(Abs()), st, ok))
    {
      if st == 0 {
        OnData(aesni, junk, ok);
      } else {
        OnEnd(st, ok);
      }
    }

    /** The ways out of `callback_pipe_read`; `ok` says whether shutting down the output works. */
    method OnEnd(st: int, ok: bool)
      requires Valid() && status == Running && R.Waiting() == Idle && !writing && (st == 1 || st == -1)
      modifies this
      ensures Valid() && R.Waiting() == Idle && View(Abs()) == View(AfterRead(k.c, old(Abs()), st, ok))
    {
      if st == 1 {
        var _, inlen := R.Peek();
        if decr && inlen != 0 {
          status := Closed(-1);
        } else if ok {
          status := Closed(0);
        } else {
          status, trouble := Closed(-1), true;
        }
      } else {
        status, trouble := Closed(-1), true;
      }
    }

    /** `callback_pipe_write` */
    method CallbackPipeWrite(len: int, ok: bool)
      requires Valid() && Legal(Abs(), Written(len, ok)) && R.Waiting() == Idle
      modifies this, R, R.buf
      ensures Valid() && View(Abs()) == View(Step(k.c, old(Abs()), Written(len, ok)))
    {
      writing := false;
      if len < wlen {
        status, trouble := Closed(-1), true;
      } else {
        StartReading(ok);
      }
    }

    /** The same for the reader alone. */
    method Readable(recv: RecvResult, ok: bool) returns (st: Option<int>)
      requires Valid() && R.read != null && (recv.Data? ==> 1 <= |recv.x| <= R.read.buflen - R.read.bufpos)
      modifies R, R.read, R.buf
      ensures Valid() && R.buf == old(R.buf) && (R.read == null || R.read == old(R.read))
      ensures (st, R.State(), R.Waiting()) == Reads(old(R.State()), old(R.Waiting()), recv, ok)
    {
      st := R.Readable(recv, ok);
    }

    /** The reader collects bytes; the status that it calls back with, if it does. */
    method Receive(recv: RecvResult, ok: bool) returns (st: Option<int>)
      requires Valid() && R.read != null && Legal(Abs(), EventOf(recv, ok)) && !writing
      modifies this, R, R.read, R.buf
      ensures Valid() && R.buf == old(R.buf) && (R.read == null || R.read == old(R.read)) && !writing
      ensures st.Some? ==> R.Waiting() == Idle && -1 <= st.value <= 1
      ensures (st, Abs()) == Collected(old(Abs()), recv, ok)
    {
      st := Readable(recv, ok);
      fed, eof := fed + Received(recv), eof || recv.Eof?;
    }

    /** The input socket is readable. */
    method OnReadable(recv: RecvResult, aesni: bool, junk: AesCtr.Block, ok: bool)
      requires Valid() && R.read != null && Legal(Abs(), EventOf(recv, ok)) && !writing
      modifies this, R, R.read, R.buf, outbuf, k`pnum
      ensures Valid() && View(Abs()) == View(Step(k.c, old(Abs()), EventOf(recv, ok)))
    {
      ReadStep(k.c, Abs(), recv, ok);
      var st := Receive(recv, ok);
      if st.Some? {
        CallbackPipeRead(st.value, aesni, junk, ok);
      }
    }

    /** The immediate callback of the reader. */
    method OnImmediate(aesni: bool, junk: AesCtr.Block, ok: bool)
      requires Valid() && Legal(Abs(), Immediate(ok)) && !writing
      modifies this, R, R.buf, outbuf, k`pnum
      ensures Valid() && View(Abs()) == View(Step(k.c, old(Abs()), Immediate(ok)))
    {
      R.CallbackSuccess();
      CallbackPipeRead(0, aesni, junk, ok);
    }
  }

  function EventOf(recv: RecvResult, ok: bool): Event {
    match recv
    case Data(x) => Recv(x, ok)
    case Eof => RecvEof(ok)
    case TryAgain => Again(ok)
    case Error => RecvError
  }

  /** What the reader reports, and the pipe as it is then. */
  function Collected(p: Pipe, recv: RecvResult, ok: bool): (Option<int>, Pipe)
    requires p.wait.Reading?
  {
    var (st, buf, wait) := Reads(p.buf, p.wait, recv, ok);
    (st, p.(buf := buf, wait := wait, fed := p.fed + Received(recv), eof := p.eof || recv.Eof?))
  }

  /** A step that a readable socket causes: the reader collects bytes, and may call back. */
  lemma ReadStep(c: Cipher, p: Pipe, recv: RecvResult, ok: bool)
    requires Legal(p, EventOf(recv, ok))
    ensures var (st, p') := Collected(p, recv, ok);
      Step(c, p, EventOf(recv, ok)) == if st.None? then p' else AfterRead(c, p', st.value, ok)
  {
    assert p.wait.got + [] == p.wait.got && p.fed + [] == p.fed;
  }

  /** `callback_pipe_read` as a function. */
  ghost function AfterRead(c: Cipher, p: Pipe, st: int, ok: bool): Pipe {
    if st == 0 then Process(c, p, ok) else if st == 1 then Finish(p, ok) else Broken(p)
  }

  lemma RefusedCloses(c: Cipher, p: Pipe, ok: bool)
    requires Refused(c, p.decr, p.buf.data, |p.chunks|)
    ensures Process(c, p, ok) == Close(p, -1)
  {
    assert About(RESULTS);
  }

  /** A pipe goes on from `p` to `q`: what was put out is written or, if there is nothing, more is waited for. */
  ghost predicate Continues(p: Pipe, done: seq<bytes>, inpos: nat, out: bytes, ok: bool, q: Pipe)
    requires inpos <= |p.buf.data|
  {
    if out == [] then inpos == 0 && done == [] && q == StartWait(p, ok)
    else if !ok then q == Broken(p)
    else q == p.(buf := Buf(p.buf.buflen, p.buf.bufpos + inpos, p.buf.data[inpos..]), writing := Some(out),
                 chunks := p.chunks + done, sent := p.sent + out)
  }

  lemma WorkedWrites(c: Cipher, p: Pipe, done: seq<bytes>, inpos: nat, out: bytes, ok: bool)
    requires Worked(c, p.decr, p.buf.data, |p.chunks|, done, inpos, out)
    ensures inpos <= |p.buf.data| && Continues(p, done, inpos, out, ok, Process(c, p, ok))
  {
    assert About(RESULTS);
    if done != [] {
      if p.decr {
        assert |Concat(done)| >= |done[0]|;
      } else {
        PacketsLength(SealAll(c, done, |p.chunks|));
      }
    }
  }
}
