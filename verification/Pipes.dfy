/**
  One direction of a connection (`lib/proto/proto_pipe.c`, `libcperciva/netbuf/netbuf_read.c`,
  `libcperciva/network/network_read.c`) as a function of the events that drive it: what a pipe has
  been fed and what it has sent in every run, however the bytes arrive.
 */
module Pipes {
  import opened Bytes
  import opened Packets

  const OUTBUFSIZE: nat := 8 * ESZ

  /** What is read at least, and what is worked on at a time. */
  function MinRead(decr: bool): nat {
    if decr then ESZ else 1
  }

  function FullBuf(decr: bool): nat {
    if decr then ESZ else MAXDSZ
  }

  /** A buffer of which `bufpos` bytes have been consumed and `data` are there. */
  datatype Buf = Buf(buflen: nat, bufpos: nat, data: bytes)

  predicate BufOk(b: Buf) {
    b.bufpos + |b.data| <= b.buflen
  }

  /** The room behind the buffered bytes. */
  function RoomIn(b: Buf): nat {
    if b.bufpos + |b.data| <= b.buflen then b.buflen - (b.bufpos + |b.data|) else 0
  }

  /** The growth and compaction in `netbuf_read_wait`. */
  function Prepare(b: Buf, len: nat): (r: Buf) {
    var g := if b.buflen < len then
        var n := b.buflen * 2 % TWO_64;
        Buf(if n < len then len else n, 0, b.data)
      else b;
    if g.buflen - g.bufpos < len then g.(bufpos := 0) else g
  }

  /** No byte is lost, and there is room for what is to be read. */
  lemma PrepareMakesRoom(b: Buf, len: nat)
    requires BufOk(b) && |b.data| < len
    ensures var r := Prepare(b, len);
      BufOk(r) && r.data == b.data && 0 < len - |r.data| <= r.buflen - (r.bufpos + |r.data|)
  {
  }

  /** What the reader waits for: nothing, an immediate callback, or at least `min` and at most `max` bytes. */
  datatype Wait = Idle | Soon | Reading(got: bytes, min: nat, max: nat)

  /** The result of the packet loop: the chunks it went through, and whether it came to no bad packet. */
  datatype Work = Work(chunks: seq<bytes>, ok: bool)

  /** What a chunk takes from the input and adds to the output. */
  function ChunkUsed(decr: bool, chunk: bytes): nat {
    if decr then ESZ else |chunk|
  }

  function ChunkMade(decr: bool, chunk: bytes): nat {
    if decr then |chunk| else ESZ
  }

  /** The loop of `callback_pipe_read` from output position `outpos` on. */
  ghost function Loop(c: Cipher, decr: bool, data: bytes, n: nat, outpos: nat): Work
    decreases |data|
  {
    var len := if |data| > FullBuf(decr) then FullBuf(decr) else |data|;
    if data == [] || outpos + FullBuf(decr) > OUTBUFSIZE || (decr && len < ESZ) then Work([], true)
    else
      var chunk := if decr then Open(c, Number(n), data[..len]) else Some(data[..len]);
      if chunk.None? then Work([], false) else
        var rest := Loop(c, decr, data[len..], n + 1, outpos + ChunkMade(decr, chunk.value));
        Work([chunk.value] + rest.chunks, rest.ok)
  }

  /** The packets made of chunks, numbered from `n` on. */
  ghost function SealAll(c: Cipher, chunks: seq<bytes>, n: nat): (r: seq<Packet>)
    requires Chunked(chunks)
    ensures |r| == |chunks|
  {
    seq(|chunks|, i requires 0 <= i < |chunks| => Seal(c, Number(n + i), chunks[i]))
  }

  ghost function Seals(c: Cipher, chunks: seq<bytes>, n: nat): bytes
    requires Chunked(chunks)
  {
    Concat(SealAll(c, chunks, n))
  }

  ghost predicate Chunked(chunks: seq<bytes>) {
    forall i :: 0 <= i < |chunks| ==> 1 <= |chunks[i]| <= MAXDSZ
  }

  /** The first packets in `s` open, with numbers from `n` on, to the chunks. */
  ghost predicate Opens(c: Cipher, s: bytes, chunks: seq<bytes>, n: nat) {
    && ESZ * |chunks| <= |s|
    && forall i :: 0 <= i < |chunks| ==> OpensAt(c, s, i, n, chunks[i])
  }

  ghost predicate OpensAt(c: Cipher, s: bytes, i: nat, n: nat, chunk: bytes)
  {
    ESZ * i + ESZ <= |s| && Open(c, Number(n + i), s[ESZ * i..ESZ * i + ESZ]) == Some(chunk)
  }

  ghost function Output(c: Cipher, decr: bool, chunks: seq<bytes>, n: nat): bytes
    requires Chunked(chunks)
  {
    if decr then Concat(chunks) else Seals(c, chunks, n)
  }

  function Used(decr: bool, chunks: seq<bytes>): nat {
    if decr then ESZ * |chunks| else |Concat(chunks)|
  }

  /** Encrypting, the chunks are the beginning of the data, and at most eight packets are put out. */
  lemma {:induction false} EncLoop(c: Cipher, data: bytes, n: nat, k: nat)
    requires k <= 8
    ensures var w := Loop(c, false, data, n, ESZ * k);
      && w.ok && Chunked(w.chunks) && k + |w.chunks| <= 8
      && |Concat(w.chunks)| <= |data| && Concat(w.chunks) == data[..|Concat(w.chunks)|]
      && (data != [] && k < 8 ==> w.chunks != [])
    decreases |data|
  {
    if data != [] && k < 8 {
      var len := if |data| > MAXDSZ then MAXDSZ else |data|;
      EncLoop(c, data[len..], n + 1, k + 1);
      var rest := Loop(c, false, data[len..], n + 1, ESZ * (k + 1)).chunks;
      var w := Loop(c, false, data, n, ESZ * k);
      assert w.chunks == [data[..len]] + rest;
      assert w.chunks[1..] == rest;
      assert Concat(w.chunks) == data[..len] + Concat(rest);
      assert data == data[..len] + data[len..];
    }
  }

  lemma {:induction false} PacketsLength(ps: seq<Packet>)
    ensures |Concat(ps)| == ESZ * |ps|
  {
    if ps != [] {
      PacketsLength(ps[1..]);
    }
  }

  lemma OpensShift(c: Cipher, s: bytes, i: nat, n: nat, chunk: bytes)
    requires ESZ <= |s|
    ensures OpensAt(c, s, i + 1, n, chunk) == OpensAt(c, s[ESZ..], i, n + 1, chunk)
  {
    if ESZ * (i + 1) + ESZ <= |s| {
      assert s[ESZ..][ESZ * i..ESZ * i + ESZ] == s[ESZ * (i + 1)..ESZ * (i + 1) + ESZ];
    }
  }

  /** Packet `i` of `s` is there but does not open with number `n + i`. */
  ghost predicate BadAt(c: Cipher, s: bytes, i: nat, n: nat) {
    ESZ * i + ESZ <= |s| && Open(c, Number(n + i), s[ESZ * i..ESZ * i + ESZ]).None?
  }

  lemma BadShift(c: Cipher, s: bytes, i: nat, n: nat)
    requires ESZ <= |s|
    ensures BadAt(c, s, i + 1, n) == BadAt(c, s[ESZ..], i, n + 1)
  {
    if ESZ * (i + 1) + ESZ <= |s| {
      assert s[ESZ..][ESZ * i..ESZ * i + ESZ] == s[ESZ * (i + 1)..ESZ * (i + 1) + ESZ];
    }
  }

  lemma OpensCons(c: Cipher, s: bytes, chunk: bytes, rest: seq<bytes>, n: nat)
    requires OpensAt(c, s, 0, n, chunk) && Opens(c, s[ESZ..], rest, n + 1)
    ensures Opens(c, s, [chunk] + rest, n)
  {
    var chunks := [chunk] + rest;
    forall i | 0 <= i < |chunks|
      ensures OpensAt(c, s, i, n, chunks[i])
    {
      if i > 0 {
        OpensShift(c, s, i - 1, n, chunks[i]);
        assert OpensAt(c, s[ESZ..], i - 1, n + 1, rest[i - 1]);
      }
    }
  }

  /** Decrypting, one turn of the loop. */
  lemma DecStep(c: Cipher, data: bytes, n: nat, outpos: nat) returns (chunk: Option<bytes>)
    requires ESZ <= |data| && outpos + ESZ <= OUTBUFSIZE
    ensures chunk.None? ==> BadAt(c, data, 0, n) && Loop(c, true, data, n, outpos) == Work([], false)
    ensures chunk.Some? ==> 1 <= |chunk.value| <= MAXDSZ && OpensAt(c, data, 0, n, chunk.value)
    ensures chunk.Some? ==> var rest := Loop(c, true, data[ESZ..], n + 1, outpos + |chunk.value|);
      Loop(c, true, data, n, outpos) == Work([chunk.value] + rest.chunks, rest.ok)
  {
    assert data[ESZ * 0..ESZ * 0 + ESZ] == data[..ESZ];
    chunk := Open(c, Number(n), data[..ESZ]);
  }

  /** Decrypting, the chunks are what the first packets open to, and the loop stops early only at a bad packet. */
  lemma {:induction false} DecLoop(c: Cipher, data: bytes, n: nat, outpos: nat)
    ensures var w := Loop(c, true, data, n, outpos);
      Chunked(w.chunks) && Opens(c, data, w.chunks, n) && (!w.ok ==> BadAt(c, data, |w.chunks|, n))
    decreases |data|
  {
    if |data| >= ESZ && outpos + ESZ <= OUTBUFSIZE {
      var chunk := DecStep(c, data, n, outpos);
      if chunk.Some? {
        var rest := Loop(c, true, data[ESZ..], n + 1, outpos + |chunk.value|);
        DecLoop(c, data[ESZ..], n + 1, outpos + |chunk.value|);
        OpensCons(c, data, chunk.value, rest.chunks, n);
        BadShift(c, data, |rest.chunks|, n);
      }
    }
  }

  /** The output stays inside the buffer, and nothing is put out only while there is less than a packet. */
  lemma {:induction false} DecLoopFits(c: Cipher, data: bytes, n: nat, outpos: nat)
    requires outpos <= OUTBUFSIZE
    ensures var w := Loop(c, true, data, n, outpos);
      && outpos + |Concat(w.chunks)| <= OUTBUFSIZE
      && (w.ok && w.chunks == [] && outpos == 0 ==> |data| < ESZ)
    decreases |data|
  {
    if |data| >= ESZ && outpos + ESZ <= OUTBUFSIZE {
      var chunk := DecStep(c, data, n, outpos);
      if chunk.Some? {
        DecLoopFits(c, data[ESZ..], n + 1, outpos + |chunk.value|);
        var rest := Loop(c, true, data[ESZ..], n + 1, outpos + |chunk.value|);
        assert ([chunk.value] + rest.chunks)[1..] == rest.chunks;
      }
    }
  }
}
