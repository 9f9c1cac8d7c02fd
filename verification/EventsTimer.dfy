/**
  Timer events (`libcperciva/events/events_timer.c`) and the conversion of the remaining time into a
  poll timeout (`libcperciva/events/events_network.c`).

  The monotonic clock is a parameter `now` of every operation that reads it.  `time_t` is a signed
  64-bit integer.
 */
module EventsTimer {
  import opened Bytes
  import opened Unfolding
  import opened PtrHeap
  import opened TimerQueue

  const TIME_T_MAX: int := 0x7fff_ffff_ffff_ffff
  const INT_MAX: int := 0x7fff_ffff

  /** What `monoclock_get` delivers. */
  predicate ClockReading(t: Timeval) {
    Normal(t) && 0 <= t.sec <= TIME_T_MAX
  }

  predicate InTimeT(sec: int) {
    -TIME_T_MAX - 1 <= sec <= TIME_T_MAX
  }

  /**
    `gettimeout`: the deadline is the exact sum.  For a delay of up to a million microseconds it is
    normalised and is refused exactly when its seconds do not fit into a `time_t`.  Every intermediate
    sum of seconds fits as well.
   */
  function GetTimeout(now: Timeval, delta: Timeval): (r: Option<Timeval>)
    requires ClockReading(now) && InTimeT(delta.sec)
    ensures r.Some? ==> Micros(r.value) == Micros(now) + Micros(delta) && InTimeT(r.value.sec)
    ensures Delay(delta) ==> (r.Some? <==> Micros(now) + Micros(delta) < (TIME_T_MAX + 1) * 1000000)
    ensures Delay(delta) && r.Some? ==> Normal(r.value)
  {
    if delta.sec > 0 && delta.sec > TIME_T_MAX - now.sec then None
    else
      var sec := now.sec + delta.sec;
      assert InTimeT(sec);
      var usec := now.usec + delta.usec;
      if usec >= 1000000 then
        if sec == TIME_T_MAX then None else Some(Timeval(sec + 1, usec - 1000000))
      else
        Some(Timeval(sec, usec))
  }

  /** A delay whose microseconds are normalised, or just one too many. */
  predicate Delay(t: Timeval) {
    0 <= t.usec <= 1000000 && InTimeT(t.sec)
  }

  /** These are exactly the delays for which the deadline is normalised whatever the clock says. */
  lemma NormalisesExactly(delta: Timeval)
    requires -TIME_T_MAX - 1 <= delta.sec < TIME_T_MAX
    ensures Delay(delta) <==> forall now ::
      ClockReading(now) && GetTimeout(now, delta).Some? ==> Normal(GetTimeout(now, delta).value)
  {
    if !Delay(delta) {
      var now := Timeval(0, if delta.usec < 0 then 0 else 999999);
      assert ClockReading(now) && GetTimeout(now, delta).Some? && !Normal(GetTimeout(now, delta).value);
    }
  }

  /** The queue has a time in its place among the points in time. */
  predicate InItsPlace(x: Timeval, y: Timeval) {
    (Tvcmp(x, y) <= 0 <==> Micros(x) <= Micros(y)) && (Tvcmp(y, x) <= 0 <==> Micros(y) <= Micros(x))
  }

  /** And exactly the delays whose deadlines the queue orders by time among normalised ones. */
  lemma OrderedExactly(delta: Timeval)
    requires -TIME_T_MAX - 1 <= delta.sec < TIME_T_MAX
    ensures Delay(delta) <==> forall now, other ::
      ClockReading(now) && GetTimeout(now, delta).Some? && Normal(other) ==>
        InItsPlace(GetTimeout(now, delta).value, other)
  {
    if !Delay(delta) {
      var now := Timeval(0, if delta.usec < 0 then 0 else 999999);
      var tv := GetTimeout(now, delta).value;
      var other := if delta.usec < 0 then Timeval(tv.sec - 1, 999999) else Timeval(tv.sec + 1, 0);
      assert Normal(other) && !InItsPlace(tv, other);
    }
  }

  /** For every delay, a deadline that is computed later is not before one that was computed earlier. */
  lemma LaterDeadline(now: Timeval, later: Timeval, delta: Timeval)
    requires ClockReading(now) && ClockReading(later) && InTimeT(delta.sec) && Micros(now) <= Micros(later)
    requires GetTimeout(now, delta).Some? && GetTimeout(later, delta).Some?
    ensures Tvcmp(GetTimeout(now, delta).value, GetTimeout(later, delta).value) <= 0
  {
  }

  /** The arithmetic of `events_timer_min`: the time left until `tv`, or zero if that is past. */
  function TimeLeft(now: Timeval, tv: Timeval): (r: Timeval)
    requires Normal(now)
    ensures Micros(r) == (if Tvcmp(tv, now) >= 0 then Micros(tv) - Micros(now) else 0) && r.sec >= 0
    ensures Normal(tv) ==> Normal(r)
  {
    if now.sec > tv.sec || (now.sec == tv.sec && now.usec > tv.usec) then Timeval(0, 0)
    else if tv.usec < now.usec then Timeval(tv.sec - now.sec - 1, tv.usec - now.usec + 1000000)
    else Timeval(tv.sec - now.sec, tv.usec - now.usec)
  }

  /** For a normalised deadline, that is the time left. */
  lemma IsTimeLeft(now: Timeval, tv: Timeval)
    requires Normal(now) && Normal(tv)
    ensures Micros(TimeLeft(now, tv)) == if Micros(tv) >= Micros(now) then Micros(tv) - Micros(now) else 0
  {
    TvcmpIsTimeOrder(now, tv);
  }

  /**
    The timeout handed to `poll`, in milliseconds.  It fits into an `int`; unless it is clamped it
    covers the time left, by less than a millisecond too much.
   */
  function PollTimeout(tv: Option<Timeval>): (ms: int)
    requires tv.Some? ==> Normal(tv.value) && tv.value.sec >= 0
    ensures tv.None? <==> ms == -1
    ensures -1 <= ms <= INT_MAX
    ensures tv.Some? && ms < INT_MAX ==> Micros(tv.value) <= ms * 1000 < Micros(tv.value) + 1000
    ensures tv.Some? && ms == INT_MAX ==> Micros(tv.value) >= (INT_MAX / 1000) * 1000000
  {
    if tv.None? then -1
    else if tv.value.sec >= INT_MAX / 1000 then INT_MAX
    else tv.value.sec * 1000 + (tv.value.usec + 999) / 1000
  }

  /** Waiting for the whole of an unclamped poll timeout leaves the earliest timer expired. */
  lemma FullWaitExpires(now: Timeval, first: Timeval, later: Timeval)
    requires ClockReading(now) && Normal(first) && ClockReading(later)
    requires PollTimeout(Some(TimeLeft(now, first))) < INT_MAX
    requires Micros(later) >= Micros(now) + PollTimeout(Some(TimeLeft(now, first))) * 1000
    ensures Tvcmp(first, later) <= 0
  {
    TvcmpIsTimeOrder(first, later);
    IsTimeLeft(now, first);
  }

  lemma ZeroTimeout(tv: Timeval)
    requires Normal(tv) && tv.sec >= 0
    ensures PollTimeout(Some(tv)) == 0 <==> Micros(tv) == 0
  {
    assert tv.usec > 0 <==> (tv.usec + 999) / 1000 > 0;
  }

  /** No wait is requested exactly when the earliest timer is due already. */
  lemma ZeroWaitIffDue(now: Timeval, first: Timeval)
    requires ClockReading(now) && Normal(first)
    ensures PollTimeout(Some(TimeLeft(now, first))) == 0 <==> Tvcmp(first, now) <= 0
  {
    TvcmpIsTimeOrder(first, now);
    IsTimeLeft(now, first);
    ZeroTimeout(TimeLeft(now, first));
  }

  datatype Timer = Timer(event: nat, cookie: nat, orig: Timeval)

  /**
    Timers and queue records point at each other, and every queued deadline is the one that the timer's
    original delay gives at the reading at which it was last started.
   */
  ghost predicate Linked(timers: map<nat, Timer>, recs: map<nat, TimerRec>, start: map<nat, Timeval>, clock: Timeval) {
    && timers.Keys == start.Keys
    && ClockReading(clock)
    && (forall t :: t in timers ==> timers[t].cookie in recs && recs[timers[t].cookie].ptr == t)
    && forall x :: x == LINKS && About(x) ==>
      && (forall c :: c in recs ==> recs[c].ptr in timers && timers[recs[c].ptr].cookie == c)
      && (forall t :: t in timers ==> Started(timers[t], recs, start[t], clock))
  }

  ghost predicate Started(t: Timer, recs: map<nat, TimerRec>, start: Timeval, clock: Timeval) {
    && t.cookie in recs
    && ClockReading(start) && Micros(start) <= Micros(clock)
    && InTimeT(t.orig.sec)
    && GetTimeout(start, t.orig) == Some(recs[t.cookie].tv)
  }

  /** When each timer is due. */
  ghost function Deadlines(timers: map<nat, Timer>, recs: map<nat, TimerRec>): map<nat, Timeval> {
    map t | t in timers && timers[t].cookie in recs :: recs[timers[t].cookie].tv
  }

  /** No timer is due, as the queue compares times. */
  ghost predicate NothingDue(due: map<nat, Timeval>, now: Timeval) {
    forall t :: t in due ==> Tvcmp(due[t], now) > 0
  }

  /** No timer goes before `t`. */
  ghost predicate Earliest(due: map<nat, Timeval>, t: nat) {
    t in due && forall u :: u in due ==> Tvcmp(due[t], due[u]) <= 0
  }

  /** Every deadline is normalised, as it is if every delay is one. */
  ghost predicate AllNormal(due: map<nat, Timeval>) {
    forall t :: t in due ==> Normal(due[t])
  }

  /** Then the timers come out in the order of time. */
  lemma InOrderOfTime(due: map<nat, Timeval>, now: Timeval, t: nat)
    requires AllNormal(due) && Normal(now)
    ensures NothingDue(due, now) <==> forall u :: u in due ==> Micros(due[u]) > Micros(now)
    ensures Earliest(due, t) <==> t in due && forall u :: u in due ==> Micros(due[t]) <= Micros(due[u])
  {
    forall u | u in due
      ensures Tvcmp(due[u], now) > 0 <==> Micros(due[u]) > Micros(now)
      ensures t in due ==> (Tvcmp(due[t], due[u]) <= 0 <==> Micros(due[t]) <= Micros(due[u]))
    {
      TvcmpIsTimeOrder(due[u], now);
      if t in due {
        TvcmpIsTimeOrder(due[t], due[u]);
      }
    }
  }

  lemma DelaysAreNormal(timers: map<nat, Timer>, recs: map<nat, TimerRec>, start: map<nat, Timeval>, clock: Timeval)
    requires Linked(timers, recs, start, clock) && forall t :: t in timers ==> Delay(timers[t].orig)
    ensures AllNormal(Deadlines(timers, recs))
  {
    assert About(LINKS);
    forall t | t in timers
      ensures Normal(recs[timers[t].cookie].tv)
    {
      assert Started(timers[t], recs, start[t], clock);
    }
  }

  lemma LinkedLater(timers: map<nat, Timer>, recs: map<nat, TimerRec>, start: map<nat, Timeval>, clock: Timeval,
                    now: Timeval)
    requires Linked(timers, recs, start, clock) && ClockReading(now) && Micros(clock) <= Micros(now)
    ensures Linked(timers, recs, start, now)
  {
    assert About(LINKS);
    forall t | t in timers
      ensures Started(timers[t], recs, start[t], now)
    {
      assert Started(timers[t], recs, start[t], clock);
    }
  }

  lemma DeadlinesAdd(timers: map<nat, Timer>, recs: map<nat, TimerRec>, t: nat, timer: Timer, tv: Timeval)
    requires timer.cookie !in recs && forall u :: u in timers ==> timers[u].cookie in recs
    ensures Deadlines(timers[t := timer], recs[timer.cookie := TimerRec(tv, t)]) == Deadlines(timers, recs)[t := tv]
  {
  }

  lemma DeadlinesRestart(timers: map<nat, Timer>, recs: map<nat, TimerRec>, t: nat, tv: Timeval)
    requires t in timers && forall u :: u in timers ==> timers[u].cookie in recs && recs[timers[u].cookie].ptr == u
    ensures var c := timers[t].cookie;
      Deadlines(timers, recs[c := recs[c].(tv := tv)]) == Deadlines(timers, recs)[t := tv]
  {
  }

  lemma LinkedAdd(timers: map<nat, Timer>, recs: map<nat, TimerRec>, start: map<nat, Timeval>, now: Timeval,
                  t: nat, timer: Timer, tv: Timeval)
    requires Linked(timers, recs, start, now) && t !in timers && timer.cookie !in recs
    requires InTimeT(timer.orig.sec) && GetTimeout(now, timer.orig) == Some(tv)
    ensures Linked(timers[t := timer], recs[timer.cookie := TimerRec(tv, t)], start[t := now], now)
  {
    assert About(LINKS);
    var recs' := recs[timer.cookie := TimerRec(tv, t)];
    forall u | u in timers
      ensures Started(timers[u], recs', start[u], now)
    {
      assert Started(timers[u], recs, start[u], now);
    }
  }

  lemma LinkedRemove(timers: map<nat, Timer>, recs: map<nat, TimerRec>, start: map<nat, Timeval>, now: Timeval, t: nat)
    requires Linked(timers, recs, start, now) && t in timers
    ensures var recs' := recs - {timers[t].cookie};
      && Linked(timers - {t}, recs', start - {t}, now)
      && Deadlines(timers - {t}, recs') == Deadlines(timers, recs) - {t}
  {
    assert About(LINKS);
    var recs' := recs - {timers[t].cookie};
    forall u | u in timers && u != t
      ensures Started(timers[u], recs', start[u], now)
    {
      assert Started(timers[u], recs, start[u], now);
    }
  }

  lemma LinkedRestart(timers: map<nat, Timer>, recs: map<nat, TimerRec>, start: map<nat, Timeval>, now: Timeval,
                      t: nat, tv: Timeval)
    requires Linked(timers, recs, start, now) && t in timers
    requires InTimeT(timers[t].orig.sec) && GetTimeout(now, timers[t].orig) == Some(tv)
    ensures var c := timers[t].cookie;
      Tvcmp(recs[c].tv, tv) <= 0 && Linked(timers, recs[c := recs[c].(tv := tv)], start[t := now], now)
  {
    assert About(LINKS);
    var c := timers[t].cookie;
    var recs' := recs[c := recs[c].(tv := tv)];
    assert Started(timers[t], recs, start[t], now);
    LaterDeadline(start[t], now, timers[t].orig);
    forall u | u in timers && u != t
      ensures Started(timers[u], recs', start[u], now)
    {
      assert Started(timers[u], recs, start[u], now);
    }
  }

  class Timers {
    const Q: Queue
    var timers: map<nat, Timer>
    ghost var start: map<nat, Timeval>
    ghost var clock: Timeval

    ghost predicate Valid()
      reads this, Q, Q.H
    {
      Q.Valid() && Linked(timers, Q.recs, start, clock)
    }

    /** The abstract value: when each timer is due. */
    ghost function Due(): map<nat, Timeval>
      reads this, Q
    {
      Deadlines(timers, Q.recs)
    }

    /** A clock reading that the next operation may be given. */
    ghost predicate Now(now: Timeval)
      reads this
    {
      ClockReading(now) && Micros(clock) <= Micros(now)
    }

    constructor (now: Timeval)
      requires ClockReading(now)
      ensures Valid() && timers == map[] && clock == now && fresh(Q) && fresh(Q.H)
    {
      timers, start, clock := map[], map[], now;
      Q := new Queue();
    }

    /**
      `events_timer_register`: `t` and `cookie` are the addresses of the two new records, `canAlloc`
      whether there is memory for them.
     */
    method Register(event: nat, timeo: Timeval, now: Timeval, t: nat, cookie: nat, canAlloc: bool)
      returns (ok: bool, ghost tv: Timeval)
      requires Valid() && Now(now) && t !in timers && cookie !in Q.recs
      requires InTimeT(timeo.sec)
      modifies this, Q, Q.H
      ensures Valid()
      ensures ok <==> canAlloc && GetTimeout(now, timeo).Some?
      ensures Delay(timeo) ==> (ok <==> canAlloc && Micros(now) + Micros(timeo) < (TIME_T_MAX + 1) * 1000000)
      ensures ok ==> timers == old(timers)[t := Timer(event, cookie, timeo)]
      ensures ok ==>
        Due() == old(Due())[t := tv] && Micros(tv) == Micros(now) + Micros(timeo) && (Delay(timeo) ==> Normal(tv))
      ensures !ok ==> timers == old(timers) && Due() == old(Due())
    {
      LinkedLater(timers, Q.recs, start, clock, now);
      clock := now;
      var deadline := GetTimeout(now, timeo);
      if deadline.None? {
        return false, now;
      }
      tv := deadline.value;
      LinkedAdd(timers, Q.recs, start, now, t, Timer(event, cookie, timeo), tv);
      DeadlinesAdd(timers, Q.recs, t, Timer(event, cookie, timeo), tv);
      ok := Q.Add(deadline.value, t, cookie, canAlloc);
      if ok {
        timers := timers[t := Timer(event, cookie, timeo)];
        start := start[t := now];
      }
    }

    /** `events_timer_cancel` */
    method Cancel(t: nat)
      requires Valid() && t in timers
      modifies this, Q, Q.H
      ensures Valid() && timers == old(timers) - {t} && Due() == old(Due()) - {t}
    {
      Q.Delete(timers[t].cookie);
      Free(t, old(Q.recs));
    }

    /** Free the record of a timer that has left the queue. */
    method Free(t: nat, ghost recs: map<nat, TimerRec>)
      requires Q.Valid() && Linked(timers, recs, start, clock) && t in timers
      requires Q.recs == recs - {timers[t].cookie}
      modifies this
      ensures Valid() && clock == old(clock)
      ensures timers == old(timers) - {t} && Due() == Deadlines(old(timers), recs) - {t}
    {
      LinkedRemove(timers, recs, start, clock, t);
      timers, start := timers - {t}, start - {t};
    }

    /**
      `events_timer_reset`: restart `t` with its original delay.  The clock being monotonic, its
      deadline can only move later, which is what the queue demands of an increase.
     */
    method Reset(t: nat, now: Timeval) returns (ok: bool, ghost tv: Timeval)
      requires Valid() && Now(now) && t in timers
      modifies this, Q, Q.H
      ensures Valid() && timers == old(timers)
      ensures InTimeT(timers[t].orig.sec) && (ok <==> GetTimeout(now, timers[t].orig).Some?)
      ensures Delay(timers[t].orig) ==> (ok <==> Micros(now) + Micros(timers[t].orig) < (TIME_T_MAX + 1) * 1000000)
      ensures ok ==> Due() == old(Due())[t := tv] && Micros(tv) == Micros(now) + Micros(timers[t].orig)
      ensures ok ==> Tvcmp(old(Due())[t], tv) <= 0
      ensures !ok ==> Due() == old(Due())
    {
      LinkedLater(timers, Q.recs, start, clock, now);
      clock := now;
      assert About(LINKS);
      assert Started(timers[t], Q.recs, start[t], now);
      var deadline := GetTimeout(now, timers[t].orig);
      if deadline.None? {
        return false, now;
      }
      tv := deadline.value;
      LinkedRestart(timers, Q.recs, start, now, t, tv);
      DeadlinesRestart(timers, Q.recs, t, tv);
      start := start[t := now];
      Q.Increase(timers[t].cookie, deadline.value);
      ok := true;
    }

    /** `events_timer_min`: the time left until the earliest deadline. */
    method Min(now: Timeval) returns (r: Option<Timeval>, ghost t: nat)
      requires Valid() && Now(now)
      ensures r.None? <==> Due() == map[]
      ensures r.Some? ==> Earliest(Due(), t) && r.value == TimeLeft(now, Due()[t])
    {
      var m := Q.GetMin();
      if m.None? {
        assert Due() == map[];
        return None, 0;
      }
      ghost var c :| c in Q.recs && Q.recs[c].tv == m.value;
      EarliestDue(timers, Q.recs, start, clock, c);
      return Some(TimeLeft(now, m.value)), Q.recs[c].ptr;
    }

    /**
      `events_timer_get`: nothing exactly when no timer is due; otherwise the event of a timer with
      the earliest deadline, which is removed.
     */
    method Get(now: Timeval) returns (r: Option<nat>, ghost t: nat)
      requires Valid() && Now(now)
      modifies this, Q, Q.H
      ensures Valid()
      ensures r.None? <==> NothingDue(old(Due()), now)
      ensures r.None? ==> timers == old(timers) && Due() == old(Due())
      ensures r.Some? ==> t in old(timers) && r.value == old(timers)[t].event
      ensures r.Some? ==> timers == old(timers) - {t} && Due() == old(Due()) - {t}
      ensures r.Some? ==> Earliest(old(Due()), t)
    {
      LinkedLater(timers, Q.recs, start, clock, now);
      NoneDue(timers, Q.recs, start, now);
      clock := now;
      var p, c := Q.GetPtr(now);
      if p.None? {
        return None, 0;
      }
      t := p.value;
      EarliestDue(timers, old(Q.recs), start, now, c);
      r := Some(timers[p.value].event);
      Free(p.value, old(Q.recs));
    }
  }

  /** No record has expired exactly when no timer is due. */
  lemma NoneDue(timers: map<nat, Timer>, recs: map<nat, TimerRec>, start: map<nat, Timeval>, now: Timeval)
    requires Linked(timers, recs, start, now)
    ensures Expired(recs, now) == {} <==> NothingDue(Deadlines(timers, recs), now)
  {
    assert About(LINKS);
    if Expired(recs, now) != {} {
      var c :| c in Expired(recs, now);
      assert recs[c].ptr in Deadlines(timers, recs);
    } else {
      assert forall t :: t in timers ==> timers[t].cookie !in Expired(recs, now);
    }
  }

  /** The record with the least time belongs to a timer with the earliest deadline. */
  lemma EarliestDue(timers: map<nat, Timer>, recs: map<nat, TimerRec>, start: map<nat, Timeval>, now: Timeval, c: nat)
    requires Linked(timers, recs, start, now) && c in recs
    requires forall d :: d in recs ==> Tvcmp(recs[c].tv, recs[d].tv) <= 0
    ensures var t := recs[c].ptr;
      && t in timers && timers[t].cookie == c
      && Earliest(Deadlines(timers, recs), t) && Deadlines(timers, recs)[t] == recs[c].tv
  {
    assert About(LINKS);
  }
}
