/**
  The buffered reader (`libcperciva/netbuf/netbuf_read.c`) on top of asynchronous reads
  (`libcperciva/network/network_read.c`), against the functions on buffers in `Pipes`.
 */
module NetbufRead {
  import opened Bytes
  import opened Pipes

  const SSIZE_MAX: nat := TWO_64 / 2 - 1

  /** What `recv` may return. */
  datatype RecvResult = Data(x: bytes) | Eof | TryAgain | Error

  /** A read in progress into part of a buffer. */
  class ReadCookie {
    const buf: array<byte>
    const off: nat
    const buflen: nat
    const minlen: nat
    var bufpos: nat

    ghost predicate Valid()
      reads this
    {
      bufpos <= buflen && off + buflen <= buf.Length
    }

    /** `network_read` */
    constructor (buf: array<byte>, off: nat, buflen: nat, minread: nat)
      requires off + buflen <= buf.Length && 0 < buflen <= SSIZE_MAX
      ensures Valid() && this.buf == buf && this.off == off && this.buflen == buflen && minlen == minread && bufpos == 0
    {
      this.buf, this.off, this.buflen, minlen, bufpos := buf, off, buflen, minread, 0;
    }

    /**
      `callback_buf`: the length that the callback is called with, if it is called; otherwise the event
      has been registered again, unless that fails (`ok`).
     */
    method CallbackBuf(recv: RecvResult, ok: bool) returns (len: Option<int>)
      requires Valid() && (recv.Data? ==> 1 <= |recv.x| <= buflen - bufpos)
      modifies this, buf
      ensures Valid() && bufpos == old(bufpos) + |Received(recv)|
      ensures forall k :: 0 <= k < buf.Length && !(off + old(bufpos) <= k < off + bufpos) ==> buf[k] == old(buf[k])
      ensures buf[off + old(bufpos)..off + bufpos] == Received(recv)
      ensures len == Reported(recv, bufpos, minlen, ok)
    {
      match recv {
        case Error => return Some(-1);
        case Eof => return Some(bufpos);
        case TryAgain =>
        case Data(x) =>
          var at, a := off + bufpos, buf;
          for i := 0 to |x|
            modifies a
            invariant forall k :: at <= k < at + i ==> a[k] == x[k - at]
            invariant forall k :: 0 <= k < a.Length && !(at <= k < at + i) ==> a[k] == old(a[k])
          {
            a[at + i] := x[i];
          }
          bufpos := bufpos + |x|;
          if bufpos >= minlen {
            return Some(bufpos);
          }
      }
      if !ok {
        return Some(-1);
      }
      return None;
    }
  }

  function Received(recv: RecvResult): bytes {
    if recv.Data? then recv.x else []
  }

  /**
    The bytes read so far are reported as soon as there are enough of them, and at the end of the
    input however few.
   */
  function Reported(recv: RecvResult, bufpos: int, minlen: nat, ok: bool): Option<int> {
    if recv.Eof? || (recv.Data? && bufpos >= minlen) then Some(bufpos)
    else if ok && !recv.Error? then None
    else Some(-1)
  }

  /**
    A readable socket, for a buffer and what it waits for: the bytes read so far and the new ones reach the
    buffer when they are reported, and then the status is passed on.
   */
  function Reads(b: Buf, w: Wait, recv: RecvResult, ok: bool): (Option<int>, Buf, Wait)
    requires w.Reading?
  {
    var got := w.got + Received(recv);
    var len := Reported(recv, |got|, w.min, ok);
    if len.None? then (None, b, w.(got := got))
    else if len.value > 0 then (Some(0), b.(data := b.data + got), Idle)
    else (Some(if len.value < 0 then -1 else 1), b, Idle)
  }

  /** Up to a quarter of the address space, doubling the buffer keeps it small enough. */
  lemma SmallEnough(b: Buf, len: nat)
    requires BufOk(b) && |b.data| < len <= SSIZE_MAX / 2 && b.buflen <= SSIZE_MAX
    ensures Prepare(b, len).buflen <= SSIZE_MAX && RoomIn(Prepare(b, len)) <= SSIZE_MAX
  {
    PrepareMakesRoom(b, len);
  }

  class Reader {
    var buf: array<byte>
    var buflen: nat
    var bufpos: nat
    var datalen: nat
    var read: ReadCookie?
    var immediate: bool

    ghost predicate Valid()
      reads this, read
    {
      && buf.Length == buflen < TWO_64 && bufpos <= datalen <= buflen
      && (read != null ==>
            !immediate && read.Valid() && read.buf == buf && read.off == datalen && read.buflen == buflen - datalen)
    }

    /** The buffer, and what is waited for, as `Pipes` has them. */
    ghost function State(): Buf
      requires Valid()
      reads this, read, buf
    {
      Buf(buflen, bufpos, buf[bufpos..datalen])
    }

    ghost function Waiting(): Wait
      requires Valid()
      reads this, read, buf
    {
      if immediate then Soon
      else if read != null then Reading(buf[datalen..datalen + read.bufpos], read.minlen, read.buflen)
      else Idle
    }

    /** `netbuf_read_init` */
    constructor ()
      ensures Valid() && fresh(buf) && State() == Buf(4096, 0, []) && Waiting() == Idle
    {
      buf, buflen, bufpos, datalen, read, immediate := new byte[4096], 4096, 0, 0, null, false;
    }

    /** `netbuf_read_peek`: the buffered bytes are at `data`. */
    method Peek() returns (data: nat, len: nat)
      requires Valid()
      ensures data + len <= buf.Length && buf[data..data + len] == State().data && data == bufpos
    {
      data, len := bufpos, datalen - bufpos;
    }

    /** Copy the buffered bytes to the beginning of a buffer, which may be the same one. */
    method MoveDown(to: array<byte>)
      requires Valid() && read == null && datalen - bufpos <= to.Length
      modifies to
      ensures to[..datalen - bufpos] == old(buf[bufpos..datalen])
    {
      var b, at, n := buf, bufpos, datalen - bufpos;
      for i := 0 to n
        modifies to
        invariant forall k :: 0 <= k < i ==> to[k] == old(b[at + k])
        invariant forall k :: at + i <= k < at + n ==> b[k] == old(b[k])
      {
        to[i] := b[at + i];
      }
    }

    /** `netbuf_read_resize_buffer` */
    method ResizeBuffer(len: nat, ok: bool) returns (r: bool)
      requires Valid() && read == null && !immediate && buflen < len < TWO_64
      modifies this
      ensures Valid() && r == ok && read == null && !immediate
      ensures var n := old(buflen) * 2 % TWO_64;
        State() == if r then Buf(if n < len then len else n, 0, old(State().data)) else old(State())
      ensures buf == old(buf) || fresh(buf)
    {
      var nbuflen := buflen * 2 % TWO_64;
      if nbuflen < len {
        nbuflen := len;
      }
      if !ok {
        return false;
      }
      var nbuf := new byte[nbuflen];
      MoveDown(nbuf);
      buf, buflen, datalen, bufpos := nbuf, nbuflen, datalen - bufpos, 0;
      return true;
    }

    /** The move of the buffered bytes to the beginning of the buffer in `netbuf_read_wait`. */
    method Compact()
      requires Valid() && read == null && !immediate
      modifies this, buf
      ensures Valid() && buf == old(buf) && read == null && !immediate
      ensures State() == old(State()).(bufpos := 0)
    {
      MoveDown(buf);
      datalen, bufpos := datalen - bufpos, 0;
    }

    /** The middle of `netbuf_read_wait`: the buffer is made larger or its contents moved, if need be. */
    method MakeRoom(len: nat, mem: bool) returns (r: bool)
      requires Valid() && read == null && !immediate && datalen - bufpos < len < TWO_64
      modifies this, buf
      ensures Valid() && (buf == old(buf) || fresh(buf)) && read == null && !immediate
      ensures r == (mem || old(buflen) >= len)
      ensures State() == if r then Prepare(old(State()), len) else old(State())
      ensures r ==> bufpos + len <= buflen
    {
      if buflen < len {
        var ok := ResizeBuffer(len, mem);
        if !ok {
          return false;
        }
      }
      if buflen - bufpos < len {
        Compact();
      }
      return true;
    }

    /**
      `netbuf_read_wait`; `mem` and `reg` say whether memory can be allocated and an event registered.
      If there is to be a read, the room for it must be counted by a `ssize_t`, as `network_read` asserts.
      A read is always for at least one byte and for no more than there is room.
     */
    method Wait(len: nat, mem: bool, reg: bool) returns (r: bool)
      requires Valid() && read == null && !immediate && len < TWO_64
      requires |State().data| < len && (mem || buflen >= len) ==> RoomIn(Prepare(State(), len)) <= SSIZE_MAX
      modifies this, buf
      ensures Valid() && (buf == old(buf) || fresh(buf)) && (read == null || fresh(read))
      ensures r == (reg && (mem || |old(State().data)| >= len || old(buflen) >= len))
      ensures !r ==> read == null && !immediate && State().data == old(State().data)
      ensures old(buflen) <= SSIZE_MAX && len <= SSIZE_MAX / 2 ==> buflen <= SSIZE_MAX
      ensures r && |old(State().data)| >= len ==> State() == old(State()) && Waiting() == Soon
      ensures r && |old(State().data)| < len ==> State() == Prepare(old(State()), len)
      ensures r && |old(State().data)| < len ==> Waiting() == Reading([], len - |State().data|, buflen - datalen)
      ensures read != null ==> 0 < read.minlen <= read.buflen
    {
      if datalen - bufpos >= len {
        if !reg {
          return false;
        }
        immediate := true;
        return true;
      }
      r := WaitForMore(len, mem, reg);
    }

    /** The rest of that if there are not enough bytes. */
    method WaitForMore(len: nat, mem: bool, reg: bool) returns (r: bool)
      requires Valid() && read == null && !immediate && |State().data| < len < TWO_64
      requires (mem || buflen >= len) ==> RoomIn(Prepare(State(), len)) <= SSIZE_MAX
      modifies this, buf
      ensures Valid() && (buf == old(buf) || fresh(buf)) && (read == null || fresh(read)) && !immediate
      ensures r == (reg && (mem || old(buflen) >= len)) == (read != null)
      ensures old(buflen) <= SSIZE_MAX && len <= SSIZE_MAX / 2 ==> buflen <= SSIZE_MAX
      ensures if r then State() == Prepare(old(State()), len) else State().data == old(State().data)
      ensures r ==> Waiting() == Reading([], len - |State().data|, buflen - datalen) && 0 < read.minlen <= read.buflen
    {
      if buflen <= SSIZE_MAX && len <= SSIZE_MAX / 2 {
        SmallEnough(State(), len);
      }
      var ok := MakeRoom(len, mem);
      if !ok || !reg {
        return false;
      }
      StartRead(len);
      return true;
    }

    /** The end of `netbuf_read_wait`: read into the room behind the buffered bytes. */
    method StartRead(len: nat)
      requires Valid() && read == null && !immediate && datalen < bufpos + len <= buflen
      requires buflen - datalen <= SSIZE_MAX
      modifies this`read
      ensures Valid() && read != null && fresh(read) && State() == old(State())
      ensures Waiting() == Reading([], len - |State().data|, buflen - datalen) && 0 < read.minlen <= read.buflen
    {
      read := new ReadCookie(buf, datalen, buflen - datalen, bufpos + len - datalen);
    }

    /** `callback_success` */
    method CallbackSuccess()
      requires Valid() && immediate
      modifies this`immediate
      ensures Valid() && State() == old(State()) && Waiting() == Idle
    {
      immediate := false;
    }

    /** `callback_read`: the status that is passed on. */
    method CallbackRead(lenread: int) returns (status: int)
      requires Valid() && read != null && (lenread > 0 ==> lenread == read.bufpos)
      modifies this
      ensures Valid() && buf == old(buf) && Waiting() == Idle
      ensures status == if lenread < 0 then -1 else if lenread == 0 then 1 else 0
      ensures State() == if lenread > 0 then old(State()).(data := old(State().data + Waiting().got)) else old(State())
    {
      if lenread > 0 {
        assert buf[bufpos..datalen + lenread] == buf[bufpos..datalen] + buf[datalen..datalen + lenread];
      }
      read := null;
      if lenread < 0 {
        return -1;
      }
      if lenread == 0 {
        return 1;
      }
      datalen := datalen + lenread;
      return 0;
    }

    /** The bytes that a read has collected when it is called back. */
    method Collect(recv: RecvResult, ok: bool) returns (len: Option<int>)
      requires Valid() && read != null && (recv.Data? ==> 1 <= |recv.x| <= read.buflen - read.bufpos)
      modifies read, buf
      ensures Valid() && State() == old(State())
      ensures Waiting() == Reading(old(Waiting().got) + Received(recv), read.minlen, read.buflen)
      ensures len == Reported(recv, read.bufpos, read.minlen, ok)
    {
      ghost var was := buf[datalen..datalen + read.bufpos];
      len := read.CallbackBuf(recv, ok);
      assert buf[datalen..datalen + read.bufpos] == was + Received(recv);
    }

    /**
      The socket is readable: `callback_buf`, and `callback_read` if it is called; the status that is
      then passed on.
     */
    method Readable(recv: RecvResult, ok: bool) returns (status: Option<int>)
      requires Valid() && read != null && (recv.Data? ==> 1 <= |recv.x| <= read.buflen - read.bufpos)
      modifies this, read, buf
      ensures Valid() && buf == old(buf) && (read == null || read == old(read))
      ensures (status, State(), Waiting()) == Reads(old(State()), old(Waiting()), recv, ok)
    {
      var len := Collect(recv, ok);
      if len.None? {
        return None;
      }
      var st := CallbackRead(len.value);
      return Some(st);
    }

    /** `netbuf_read_consume` */
    method Consume(len: nat)
      requires Valid() && read == null && len <= |State().data|
      modifies this`bufpos
      ensures Valid() && State() == Buf(buflen, old(bufpos) + len, old(State().data)[len..])
      ensures Waiting() == old(Waiting())
    {
      bufpos := bufpos + len;
    }
  }
}
