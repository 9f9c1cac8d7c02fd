/**
  The timer priority queue of `libcperciva/datastruct/timerqueue.c`, on top of the indexed heap.

  A record is known by its address, a natural number; the heap holds addresses and `recs` is the
  memory they point into.  The abstract value of a queue is the map `recs`.
 */
module TimerQueue {
  import opened Bytes
  import opened Unfolding
  import opened PtrHeap

  datatype Timeval = Timeval(sec: int, usec: int)

  /** `tvcmp` */
  function Tvcmp(x: Timeval, y: Timeval): (r: int) {
    if x.sec > y.sec then 1
    else if x.sec < y.sec then -1
    else if x.usec > y.usec then 1
    else if x.usec < y.usec then -1
    else 0
  }

  predicate Normal(t: Timeval) {
    0 <= t.usec < 1000000
  }

  function Micros(t: Timeval): int {
    t.sec * 1000000 + t.usec
  }

  /** On normalised times, the comparison is that of the points in time. */
  lemma TvcmpIsTimeOrder(x: Timeval, y: Timeval)
    requires Normal(x) && Normal(y)
    ensures Tvcmp(x, y) <= 0 <==> Micros(x) <= Micros(y)
    ensures Tvcmp(x, y) == 0 <==> x == y
  {
  }

  datatype TimerRec = TimerRec(tv: Timeval, ptr: nat)

  /** `compar`, as it reads the records at the moment of the call. */
  function Compar(recs: map<nat, TimerRec>): (nat, nat) -> int {
    (x, y) => if x in recs && y in recs then Tvcmp(recs[x].tv, recs[y].tv) else 0
  }

  lemma ComparIsPreorder(recs: map<nat, TimerRec>, s: set<nat>)
    requires s <= recs.Keys
    ensures TotalPreorder(Compar(recs), s)
  {
    var c := Compar(recs);
    assert forall x, y :: x in s && y in s ==> c(x, y) == Tvcmp(recs[x].tv, recs[y].tv);
  }

  /** Moving one record's time later increases that record and no other. */
  lemma LaterIsIncreased(recs: map<nat, TimerRec>, cookie: nat, tv: Timeval)
    requires cookie in recs && Tvcmp(recs[cookie].tv, tv) <= 0
    ensures Increased(Compar(recs), Compar(recs[cookie := recs[cookie].(tv := tv)]), recs.Keys, cookie)
  {
    var c, d := Compar(recs), Compar(recs[cookie := recs[cookie].(tv := tv)]);
    forall x | x in recs && c(x, cookie) <= 0
      ensures d(x, cookie) <= 0
    {
      assert Tvcmp(recs[x].tv, recs[cookie].tv) <= 0;
      assert d(x, cookie) == Tvcmp(if x == cookie then tv else recs[x].tv, tv);
    }
  }

  /** A comparison that agrees on the elements leaves a heap a heap. */
  lemma SameOrder(elems: seq<nat>, rc: map<nat, nat>, c: (nat, nat) -> int, d: (nat, nat) -> int)
    requires HeapPrefix(elems, |elems|, rc, c, false)
    requires forall x, y :: x in elems && y in elems ==> c(x, y) == d(x, y)
    ensures HeapPrefix(elems, |elems|, rc, d, false)
  {
    var s := Elements(elems);
    assert TotalPreorder(d, s) by {
      forall x, y, z | Chain(x, y, z) && x in s && y in s && z in s && d(x, y) <= 0 && d(y, z) <= 0
        ensures d(x, z) <= 0
      {
        assert c(x, y) <= 0 && c(y, z) <= 0 && Chain(x, y, z);
      }
    }
  }

  /** The records that have expired at time `now`. */
  ghost function Expired(recs: map<nat, TimerRec>, now: Timeval): set<nat> {
    set c | c in recs && Tvcmp(recs[c].tv, now) <= 0
  }

  class Queue {
    const H: Heap<nat>
    var recs: map<nat, TimerRec>

    ghost predicate Valid()
      reads this, H
    {
      forall x :: x == QUEUED && About(x) ==> H.Valid(Compar(recs)) && H.Known() && Elements(H.elems) == recs.Keys
    }

    /** `timerqueue_init` */
    constructor ()
      ensures Valid() && recs == map[] && fresh(H)
    {
      recs := map[];
      var h := new Heap<nat>.Create([], Compar(map[]));
      H := h;
    }

    /** `timerqueue_add`; `cookie` is the address of the new record, `canAlloc` whether the heap can grow. */
    method Add(tv: Timeval, ptr: nat, cookie: nat, canAlloc: bool) returns (ok: bool)
      requires Valid() && cookie !in recs
      modifies this, H
      ensures Valid() && ok == canAlloc
      ensures recs == if ok then old(recs)[cookie := TimerRec(tv, ptr)] else old(recs)
    {
      assert About(QUEUED);
      ghost var before := Compar(recs);
      var after := recs[cookie := TimerRec(tv, ptr)];
      SameOrder(H.elems, H.rc, before, Compar(after));
      ComparIsPreorder(after, Elements(H.elems) + {cookie});
      ok := H.Add(cookie, Compar(after), canAlloc);
      if ok {
        recs := after;
      }
    }

    /** `timerqueue_delete` */
    method Delete(cookie: nat)
      requires Valid() && cookie in recs
      modifies this, H
      ensures Valid() && recs == old(recs) - {cookie}
    {
      assert About(QUEUED);
      CookiePosition(H.elems, H.rc, cookie);
      H.Delete(H.rc[cookie], Compar(recs));
      var after := recs - {cookie};
      SameOrder(H.elems, H.rc, Compar(recs), Compar(after));
      recs := after;
    }

    /** `timerqueue_increase`; the new time must not be earlier than the old one. */
    method Increase(cookie: nat, tv: Timeval)
      requires Valid() && cookie in recs && Tvcmp(recs[cookie].tv, tv) <= 0
      modifies this, H
      ensures Valid() && recs == old(recs)[cookie := old(recs)[cookie].(tv := tv)]
    {
      assert About(QUEUED);
      CookiePosition(H.elems, H.rc, cookie);
      LaterIsIncreased(recs, cookie, tv);
      ghost var before := Compar(recs);
      recs := recs[cookie := recs[cookie].(tv := tv)];
      ComparIsPreorder(recs, Elements(H.elems));
      H.Increase(H.rc[cookie], before, Compar(recs));
    }

    /** `timerqueue_getmin`: the least time, or nothing exactly when the queue is empty. */
    method GetMin() returns (r: Option<Timeval>)
      requires Valid()
      ensures r.None? <==> recs == map[]
      ensures r.Some? ==> (exists c :: c in recs && recs[c].tv == r.value)
      ensures r.Some? ==> forall c :: c in recs ==> Tvcmp(r.value, recs[c].tv) <= 0
    {
      assert About(QUEUED);
      var m := H.GetMin(Compar(recs));
      if m.None? {
        assert Elements(H.elems) == {};
        return None;
      }
      assert m.value in Elements(H.elems);
      forall c | c in recs
        ensures Tvcmp(recs[m.value].tv, recs[c].tv) <= 0
      {
        assert c in Elements(H.elems);
        assert Compar(recs)(m.value, c) <= 0;
      }
      return Some(recs[m.value].tv);
    }

    /**
      `timerqueue_getptr`: nothing exactly when no record has expired; otherwise a record with the
      least time of all is removed and its pointer returned.
     */
    method GetPtr(now: Timeval) returns (r: Option<nat>, ghost cookie: nat)
      requires Valid()
      modifies this, H
      ensures Valid()
      ensures r.None? <==> old(Expired(recs, now)) == {}
      ensures r.None? ==> recs == old(recs)
      ensures r.Some? ==> cookie in old(Expired(recs, now)) && r.value == old(recs)[cookie].ptr
      ensures r.Some? ==> recs == old(recs) - {cookie}
      ensures r.Some? ==> forall c :: c in old(recs) ==> Tvcmp(old(recs)[cookie].tv, old(recs)[c].tv) <= 0
    {
      cookie := 0;
      assert About(QUEUED);
      var m := H.GetMin(Compar(recs));
      if m.None? {
        assert Elements(H.elems) == {};
        return None, 0;
      }
      assert m.value in Elements(H.elems);
      forall c | c in recs
        ensures Tvcmp(recs[m.value].tv, recs[c].tv) <= 0
      {
        assert c in Elements(H.elems);
        assert Compar(recs)(m.value, c) <= 0;
      }
      if Tvcmp(recs[m.value].tv, now) > 0 {
        return None, 0;
      }
      cookie := m.value;
      assert m.value in Expired(recs, now);
      r := Some(recs[m.value].ptr);
      Delete(m.value);
    }
  }

  /** A list of cookies in non-decreasing order of time. */
  ghost predicate InTimeOrder(recs: map<nat, TimerRec>, cs: seq<nat>) {
    && (forall i :: 0 <= i < |cs| ==> cs[i] in recs)
    && (forall i, j :: 0 <= i < j < |cs| ==> Tvcmp(recs[cs[i]].tv, recs[cs[j]].tv) <= 0)
  }

  /** The records `cs`, expired and in time order, have been taken out of `all`, leaving `recs`. */
  ghost predicate Drained(all: map<nat, TimerRec>, now: Timeval, recs: map<nat, TimerRec>, cs: seq<nat>,
                          ptrs: seq<nat>) {
    && recs == all - Elements(cs)
    && Elements(cs) <= Expired(all, now)
    && Distinct(cs, |cs|)
    && InTimeOrder(all, cs)
    && (forall i, c :: 0 <= i < |cs| && c in recs ==> Tvcmp(all[cs[i]].tv, recs[c].tv) <= 0)
    && |ptrs| == |cs|
    && (forall i :: 0 <= i < |cs| ==> ptrs[i] == all[cs[i]].ptr)
  }

  lemma DrainOne(all: map<nat, TimerRec>, now: Timeval, recs: map<nat, TimerRec>, cs: seq<nat>, ptrs: seq<nat>, c: nat)
    requires Drained(all, now, recs, cs, ptrs) && c in Expired(recs, now)
    requires forall d :: d in recs ==> Tvcmp(recs[c].tv, recs[d].tv) <= 0
    ensures Drained(all, now, recs - {c}, cs + [c], ptrs + [recs[c].ptr])
  {
    assert Elements(cs + [c]) == Elements(cs) + {c};
    assert recs[c] == all[c];
  }

  lemma DrainedAll(all: map<nat, TimerRec>, now: Timeval, recs: map<nat, TimerRec>, cs: seq<nat>, ptrs: seq<nat>)
    requires Drained(all, now, recs, cs, ptrs) && Expired(recs, now) == {}
    ensures Elements(cs) == Expired(all, now)
  {
    forall x | x in Expired(all, now)
      ensures x in Elements(cs)
    {
      assert x in recs ==> x in Expired(recs, now);
    }
  }

  /**
    Repeating `timerqueue_getptr` at one time until it returns nothing takes
    out exactly the expired records, each once and in non-decreasing order of time.
   */
  method DrainExpired(q: Queue, now: Timeval) returns (ptrs: seq<nat>, ghost cs: seq<nat>)
    requires q.Valid()
    modifies q, q.H
    ensures q.Valid() && q.recs == old(q.recs) - old(Expired(q.recs, now))
    ensures Elements(cs) == old(Expired(q.recs, now)) && Distinct(cs, |cs|)
    ensures InTimeOrder(old(q.recs), cs)
    ensures |ptrs| == |cs| && forall i :: 0 <= i < |cs| ==> ptrs[i] == old(q.recs)[cs[i]].ptr
  {
    ptrs, cs := [], [];
    while true
      invariant q.Valid() && Drained(old(q.recs), now, q.recs, cs, ptrs)
      decreases |q.recs|
    {
      ghost var recs := q.recs;
      var r, c := q.GetPtr(now);
      if r.None? {
        DrainedAll(old(q.recs), now, recs, cs, ptrs);
        break;
      }
      DrainOne(old(q.recs), now, recs, cs, ptrs, c);
      ptrs, cs := ptrs + [r.value], cs + [c];
    }
  }

  lemma CookiePosition(elems: seq<nat>, rc: map<nat, nat>, cookie: nat)
    requires Tracked(elems, |elems|, rc, true) && cookie in Elements(elems)
    ensures cookie in rc && rc[cookie] < |elems| && elems[rc[cookie]] == cookie
  {
    var i :| 0 <= i < |elems| && elems[i] == cookie;
  }
}
