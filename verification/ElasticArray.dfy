/**
  The elastic array (`libcperciva/datastruct/elasticarray.c`): a byte buffer that is reallocated as its
  contents grow and shrink.  Whether an allocation succeeds is an argument of each operation.
 */
module ElasticArray {
  import opened Bytes

  /** The allocation `resize` asks for; `size_t` arithmetic. */
  function NewAlloc(alloc: nat, nsize: nat): (r: nat) {
    if alloc < nsize then
      var nalloc := alloc * 2 % TWO_64;
      if nalloc < nsize then nsize else nalloc
    else if alloc / 4 > nsize then nsize * 2 % TWO_64
    else alloc
  }

  /** Whatever wraps, the new allocation holds the new size and is at most four times as large and 3 bytes. */
  lemma NewAllocFits(alloc: nat, nsize: nat)
    requires alloc < TWO_64 && nsize < TWO_64
    ensures nsize <= NewAlloc(alloc, nsize) <= 4 * nsize + 3 && NewAlloc(alloc, nsize) < TWO_64
    ensures NewAlloc(alloc, nsize) == 0 ==> nsize == 0
  {
  }

  /** The check against `SIZE_MAX / reclen` is exactly the check that the product does not wrap. */
  lemma OverflowCheck(nrec: nat, reclen: nat)
    requires reclen > 0
    ensures nrec > SIZE_MAX / reclen <==> nrec * reclen > SIZE_MAX
  {
    var q := SIZE_MAX / reclen;
    assert q * reclen <= SIZE_MAX < (q + 1) * reclen;
    if nrec > q {
      assert nrec * reclen >= (q + 1) * reclen;
    } else {
      assert nrec * reclen <= q * reclen;
    }
  }

  function Min(a: nat, b: nat): nat {
    if a <= b then a else b
  }

  class ElasticArray {
    var size: nat
    var alloc: nat
    var buf: array<byte>

    ghost predicate Valid()
      reads this, buf
    {
      size <= alloc == buf.Length < TWO_64
    }

    ghost function Contents(): bytes
      requires Valid()
      reads this, buf
    {
      buf[..size]
    }

    constructor Empty()
      ensures Valid() && size == alloc == 0 && fresh(buf)
    {
      size, alloc, buf := 0, 0, new byte[0];
    }

    /** A call of `realloc` that succeeds: a new buffer with the bytes of the old one, as far as they fit. */
    method Move(nalloc: nat)
      requires Valid() && nalloc < TWO_64
      modifies this`alloc, this`buf
      ensures fresh(buf) && alloc == buf.Length == nalloc
      ensures forall k :: 0 <= k < Min(old(alloc), nalloc) ==> buf[k] == old(buf[k])
    {
      var obuf, nbuf := buf, new byte[nalloc];
      for i := 0 to Min(alloc, nalloc)
        modifies nbuf
        invariant forall k :: 0 <= k < i ==> nbuf[k] == obuf[k]
      {
        nbuf[i] := obuf[i];
      }
      alloc, buf := nalloc, nbuf;
    }

    /** `resize` */
    method ResizeBuffer(nsize: nat, ok: bool) returns (r: bool)
      requires Valid() && nsize < TWO_64
      modifies this
      ensures Valid() && (buf == old(buf) || fresh(buf))
      ensures r <==> ok || NewAlloc(old(alloc), nsize) == 0 || NewAlloc(old(alloc), nsize) == old(alloc)
      ensures r ==> size == nsize && alloc == NewAlloc(old(alloc), nsize)
      ensures r ==> forall k :: 0 <= k < Min(old(size), size) ==> buf[k] == old(buf[k])
      ensures !r ==> size == old(size) && alloc == old(alloc) && buf == old(buf)
    {
      NewAllocFits(alloc, nsize);
      var nalloc;
      if alloc < nsize {
        nalloc := alloc * 2 % TWO_64;
        if nalloc < nsize {
          nalloc := nsize;
        }
      } else if alloc / 4 > nsize {
        nalloc := nsize * 2 % TWO_64;
      } else {
        nalloc := alloc;
      }
      if nalloc == 0 {
        buf, alloc := new byte[0], 0;
      } else if nalloc != alloc {
        if !ok {
          return false;
        }
        Move(nalloc);
      }
      size := nsize;
      return true;
    }

    /** `elasticarray_resize` */
    method Resize(nrec: nat, reclen: nat, ok: bool) returns (r: bool)
      requires Valid() && reclen > 0
      modifies this
      ensures Valid() && (buf == old(buf) || fresh(buf))
      ensures r <==> nrec * reclen <= SIZE_MAX && var nalloc := NewAlloc(old(alloc), nrec * reclen);
        (ok || nalloc == 0 || nalloc == old(alloc))
      ensures r ==> size == nrec * reclen && alloc == NewAlloc(old(alloc), size) <= 4 * size + 3
      ensures r ==> forall k :: 0 <= k < Min(old(size), size) ==> Contents()[k] == old(Contents())[k]
      ensures !r ==> size == old(size) && alloc == old(alloc) && buf == old(buf)
    {
      OverflowCheck(nrec, reclen);
      if nrec > SIZE_MAX / reclen {
        return false;
      }
      NewAllocFits(alloc, nrec * reclen);
      r := ResizeBuffer(nrec * reclen, ok);
    }

    /** `elasticarray_init`; null if it fails. */
    static method Init(nrec: nat, reclen: nat, structOk: bool, ok: bool) returns (ea: ElasticArray?)
      requires reclen > 0
      ensures ea == null <==> !structOk || nrec * reclen > SIZE_MAX || (!ok && nrec * reclen > 0)
      ensures ea != null ==> fresh(ea) && ea.Valid() && ea.size == ea.alloc == nrec * reclen
    {
      if !structOk {
        return null;
      }
      var e := new ElasticArray.Empty();
      var r := e.Resize(nrec, reclen, ok);
      return if r then e else null;
    }

    /** `elasticarray_getsize`: the number of whole records. */
    function GetSize(reclen: nat): (n: nat)
      requires reclen > 0
      reads this
      ensures n * reclen <= size < (n + 1) * reclen
    {
      size / reclen
    }

    /** `elasticarray_append`: the records are appended, or nothing changes. */
    method Append(data: bytes, nrec: nat, reclen: nat, ok: bool) returns (r: bool)
      requires Valid() && reclen > 0 && |data| == nrec * reclen
      modifies this, buf
      ensures Valid() && (buf == old(buf) || fresh(buf))
      ensures r <==> old(size) + |data| <= SIZE_MAX && var nalloc := NewAlloc(old(alloc), old(size) + |data|);
        (ok || nalloc == 0 || nalloc == old(alloc))
      ensures r ==> Contents() == old(Contents()) + data && alloc == NewAlloc(old(alloc), size) <= 4 * size + 3
      ensures !r ==> Contents() == old(Contents()) && alloc == old(alloc) && buf == old(buf)
    {
      OverflowCheck(nrec, reclen);
      if nrec > SIZE_MAX / reclen || nrec * reclen > SIZE_MAX - size {
        return false;
      }
      var bufpos, nsize := size, size + nrec * reclen;
      NewAllocFits(alloc, nsize);
      r := ResizeBuffer(nsize, ok);
      if r && nrec > 0 {
        CopyIn(bufpos, data);
      }
    }

    /** The copy of new bytes into the buffer. */
    method CopyIn(pos: nat, data: bytes)
      requires Valid() && pos + |data| == size
      modifies buf
      ensures forall k :: 0 <= k < pos ==> buf[k] == old(buf[k])
      ensures forall k :: pos <= k < size ==> buf[k] == data[k - pos]
    {
      for i := 0 to |data|
        invariant forall k :: 0 <= k < pos ==> buf[k] == old(buf[k])
        invariant forall k :: pos <= k < pos + i ==> buf[k] == data[k - pos]
      {
        buf[pos + i] := data[i];
      }
    }

    /** `elasticarray_shrink`: the last records are gone, whether or not memory could be released. */
    method Shrink(nrec: nat, reclen: nat, ok: bool)
      requires Valid() && reclen > 0
      modifies this
      ensures Valid() && (buf == old(buf) || fresh(buf))
      ensures Contents() == old(Contents())[..if nrec * reclen > old(size) then 0 else old(size) - nrec * reclen]
      ensures ok ==> alloc == NewAlloc(old(alloc), size) <= 4 * size + 3
    {
      OverflowCheck(nrec, reclen);
      var nsize: nat := 0;
      if !(nrec > SIZE_MAX / reclen || nrec * reclen > size) {
        nsize := size - nrec * reclen;
      }
      NewAllocFits(alloc, nsize);
      var r := ResizeBuffer(nsize, ok);
      if !r {
        size := nsize;
      }
    }

    /** `elasticarray_truncate`: the contents stay and no spare space does. */
    method Truncate(ok: bool) returns (r: bool)
      requires Valid()
      modifies this
      ensures Valid() && (buf == old(buf) || fresh(buf)) && Contents() == old(Contents())
      ensures r <==> ok || old(size) == 0 || old(alloc == size)
      ensures alloc == if r then size else old(alloc)
    {
      if size == 0 {
        buf, alloc := new byte[0], 0;
      } else if alloc > size {
        if !ok {
          return false;
        }
        Move(size);
      }
      return true;
    }
  }

  /** The state of an array after it has been resized to each of the sizes in turn, every allocation succeeding. */
  datatype Shape = Shape(size: nat, alloc: nat)

  function Resized(s: Shape, nsize: nat): Shape {
    Shape(nsize, NewAlloc(s.alloc, nsize))
  }

  function After(sizes: seq<nat>): Shape {
    if sizes == [] then Shape(0, 0) else Resized(After(sizes[..|sizes| - 1]), sizes[|sizes| - 1])
  }

  function Grown(s: Shape, n: nat): nat {
    if n > s.size then n - s.size else 0
  }

  function Cut(s: Shape, n: nat): nat {
    if n < s.size then s.size - n else 0
  }

  function Appended(sizes: seq<nat>): nat {
    if sizes == [] then 0 else
      Appended(sizes[..|sizes| - 1]) + Grown(After(sizes[..|sizes| - 1]), sizes[|sizes| - 1])
  }

  function Removed(sizes: seq<nat>): nat {
    if sizes == [] then 0 else
      Removed(sizes[..|sizes| - 1]) + Cut(After(sizes[..|sizes| - 1]), sizes[|sizes| - 1])
  }

  /** The bytes of the array that a reallocation moves. */
  function LiveMoved(s: Shape, nsize: nat): nat {
    if NewAlloc(s.alloc, nsize) != s.alloc then Min(s.size, nsize) else 0
  }

  /** The bytes of the allocation that a reallocation moves, spare space included. */
  function AllMoved(s: Shape, nsize: nat): nat {
    if NewAlloc(s.alloc, nsize) != s.alloc then Min(s.alloc, NewAlloc(s.alloc, nsize)) else 0
  }

  function Total(cost: (Shape, nat) -> nat, sizes: seq<nat>): nat {
    if sizes == [] then 0 else
      Total(cost, sizes[..|sizes| - 1]) + cost(After(sizes[..|sizes| - 1]), sizes[|sizes| - 1])
  }

  /**
    Potential functions: what earlier operations have paid towards the next reallocation.  An array
    whose allocation is more than half the address space cannot be doubled, and nothing is kept for that.
   */
  function LivePotential(s: Shape): (r: int) {
    if 2 * s.size < s.alloc then s.alloc - 2 * s.size
    else if s.alloc > HALF then 0
    else 4 * s.size - 2 * s.alloc
  }

  function AllPotential(s: Shape): (r: int) {
    if 2 * s.size < s.alloc then s.alloc - 2 * s.size
    else if s.alloc > HALF then 0
    else 2 * s.size - s.alloc
  }

  const HALF: nat := TWO_64 / 2

  /** Sizes below this are paid for. */
  const PAID_LIMIT: nat := HALF + 2

  /** A larger allocation is twice the old one, if there is one; a smaller one is twice the contents. */
  ghost predicate Policy(a: nat, n: nat, a': nat) {
    a' == if a < n then (if 2 * a < n || a >= HALF then n else 2 * a) else if a >= 4 * n + 4 then 2 * n else a
  }

  lemma FollowsPolicy(a: nat, n: nat)
    requires a < TWO_64 && n < TWO_64
    ensures Policy(a, n, NewAlloc(a, n))
  {
  }

  lemma LiveStep(s: Shape, n: nat)
    requires s.size <= s.alloc < TWO_64 && n < PAID_LIMIT
    ensures 2 * LiveMoved(s, n) + LivePotential(Resized(s, n)) - LivePotential(s) <= 4 * Grown(s, n) + 2 * Cut(s, n)
  {
    FollowsPolicy(s.alloc, n);
  }

  lemma AllStep(s: Shape, n: nat)
    requires s.size <= s.alloc < TWO_64 && n < PAID_LIMIT
    ensures AllMoved(s, n) + AllPotential(Resized(s, n)) - AllPotential(s) <= 2 * Grown(s, n) + 2 * Cut(s, n)
  {
    FollowsPolicy(s.alloc, n);
  }

  ghost predicate Below(sizes: seq<nat>, limit: nat) {
    forall i :: 0 <= i < |sizes| ==> sizes[i] < limit
  }

  lemma {:induction false} AfterFits(sizes: seq<nat>)
    requires Below(sizes, TWO_64)
    ensures After(sizes).size <= After(sizes).alloc < TWO_64
  {
    if sizes != [] {
      AfterFits(sizes[..|sizes| - 1]);
      NewAllocFits(After(sizes[..|sizes| - 1]).alloc, sizes[|sizes| - 1]);
    }
  }

  lemma {:induction false} LivePaid(sizes: seq<nat>)
    requires Below(sizes, PAID_LIMIT)
    ensures 2 * Total(LiveMoved, sizes) + LivePotential(After(sizes)) <= 4 * Appended(sizes) + 2 * Removed(sizes)
  {
    if sizes != [] {
      var front := sizes[..|sizes| - 1];
      LivePaid(front);
      AfterFits(front);
      LiveStep(After(front), sizes[|sizes| - 1]);
    }
  }

  lemma {:induction false} AllPaid(sizes: seq<nat>)
    requires Below(sizes, PAID_LIMIT)
    ensures Total(AllMoved, sizes) + AllPotential(After(sizes)) <= 2 * Appended(sizes) + 2 * Removed(sizes)
  {
    if sizes != [] {
      var front := sizes[..|sizes| - 1];
      AllPaid(front);
      AfterFits(front);
      AllStep(After(front), sizes[|sizes| - 1]);
    }
  }

  ghost predicate LiveBound(sizes: seq<nat>) {
    Total(LiveMoved, sizes) <= 2 * Appended(sizes) + Removed(sizes)
  }

  ghost predicate AllBound(sizes: seq<nat>) {
    Total(AllMoved, sizes) <= 2 * Appended(sizes) + 2 * Removed(sizes)
  }

  /**
    The bytes moved over sequences of appends and shrinks are at most 2 * appended + removed, and with
    spare space at most 2 * (appended + removed): for all sequences of sizes below a limit exactly if
    the limit is at most 2^63 + 2.
   */
  lemma AmortisedCost(limit: nat)
    ensures (forall sizes :: Below(sizes, limit) ==> LiveBound(sizes)) <==> limit <= PAID_LIMIT
    ensures (forall sizes :: Below(sizes, limit) ==> AllBound(sizes)) <==> limit <= PAID_LIMIT
  {
    if limit <= PAID_LIMIT {
      forall sizes | Below(sizes, limit)
        ensures LiveBound(sizes) && AllBound(sizes)
      {
        LivePaid(sizes);
        AllPaid(sizes);
      }
    } else {
      var sizes := [] + [4] + [HALF] + [HALF + 1] + [HALF + 2];
      LargeArraysCostMore();
      assert Below(sizes, limit);
    }
  }

  /** From 2^63 on doubling wraps around: a growing array is then reallocated to exactly its size every time. */
  lemma DoublingWraps(a: nat, n: nat)
    requires HALF <= a < n < TWO_64
    ensures NewAlloc(a, n) == n
  {
  }

  /** What a sequence of sizes comes to. */
  ghost predicate Tally(sizes: seq<nat>, s: Shape, appended: nat, removed: nat, live: nat, all: nat) {
    && After(sizes) == s && Appended(sizes) == appended && Removed(sizes) == removed
    && Total(LiveMoved, sizes) == live && Total(AllMoved, sizes) == all
  }

  /** A full array that cannot be doubled, or not by enough, is moved and is full again. */
  lemma StaysFull(sizes: seq<nat>, a: nat, n: nat, moved: nat)
    requires Tally(sizes, Shape(a, a), a, 0, moved, moved) && a < n < TWO_64 && (2 * a < n || a >= HALF)
    ensures Tally(sizes + [n], Shape(n, n), n, 0, moved + a, moved + a)
  {
    FollowsPolicy(a, n);
    assert (sizes + [n])[..|sizes|] == sizes;
  }

  /** Two such reallocations in a row are more than was paid for. */
  lemma LargeArraysCostMore()
    ensures var sizes := [] + [4] + [HALF] + [HALF + 1] + [HALF + 2]; !LiveBound(sizes) && !AllBound(sizes)
  {
    var start: seq<nat> :| start == [];
    StaysFull(start, 0, 4, 0);
    StaysFull(start + [4], 4, HALF, 0);
    StaysFull(start + [4] + [HALF], HALF, HALF + 1, 4);
    StaysFull(start + [4] + [HALF] + [HALF + 1], HALF + 1, HALF + 2, HALF + 4);
  }
}
