/**
  The dispatcher (`spiped/dispatch.c`): accepting connections up to a maximum, keeping them in a list,
  and shutting down.
 */
module Dispatch {
  import opened Bytes

  /** The state of the dispatcher; connections are identified by their list nodes. */
  datatype Dispatcher = Dispatcher(max: nat, nconn: nat, conns: seq<nat>, accepting: bool, shutdown: bool,
                                   conndone: bool)

  /**
    What happens: a connection is accepted, one dies, or a shutdown is requested; `ok` says whether
    accepting again works.
   */
  datatype Event = GotConn(id: nat, ok: bool) | ConnDied(id: nat, ok: bool) | RequestShutdown

  function Remove(conns: seq<nat>, id: nat): seq<nat> {
    if conns == [] then [] else if conns[0] == id then conns[1..] else [conns[0]] + Remove(conns[1..], id)
  }

  /** `doaccept`; nothing if it fails, which ends the program. */
  function Accepting(d: Dispatcher, ok: bool): Option<Dispatcher> {
    if d.nconn < d.max && !d.accepting && !d.shutdown then (if ok then Some(d.(accepting := true)) else None)
    else Some(d)
  }

  /** `callback_gotconn` */
  function OnConn(d: Dispatcher, id: nat, ok: bool): Option<Dispatcher> {
    Accepting(d.(accepting := false, nconn := d.nconn + 1, conns := [id] + d.conns), ok)
  }

  /** The beginning of `callback_conndied`. */
  function Forget(d: Dispatcher, id: nat): Dispatcher
    requires d.nconn > 0
  {
    var n := d.nconn - 1;
    d.(nconn := n, conns := Remove(d.conns, id), conndone := d.conndone || (d.shutdown && n == 0))
  }

  /** `dispatch_request_shutdown` */
  function OnRequest(d: Dispatcher): Dispatcher {
    d.(shutdown := true, accepting := false, conndone := d.conndone || d.nconn == 0)
  }

  predicate Legal(d: Dispatcher, e: Event) {
    match e
    case GotConn(id, _) => d.accepting && id !in d.conns
    case ConnDied(id, _) => id in d.conns && d.nconn > 0
    case RequestShutdown => true
  }

  function Step(d: Dispatcher, e: Event): Option<Dispatcher>
    requires Legal(d, e)
  {
    match e
    case GotConn(id, ok) => OnConn(d, id, ok)
    case ConnDied(id, ok) => Accepting(Forget(d, id), ok)
    case RequestShutdown => Some(OnRequest(d))
  }

  ghost predicate NoRepeats(conns: seq<nat>) {
    forall i, j :: 0 <= i < j < |conns| ==> conns[i] != conns[j]
  }

  ghost predicate Inv(d: Dispatcher) {
    && d.nconn == |d.conns| <= d.max && NoRepeats(d.conns)
    && (d.accepting <==> d.nconn < d.max && !d.shutdown)
    && (d.conndone <==> d.shutdown && d.nconn == 0)
  }

  /** `dispatch_accept` */
  function Begin(max: nat, ok: bool): Option<Dispatcher> {
    Accepting(Dispatcher(max, 0, [], false, false, false), ok)
  }

  lemma {:induction false} RemoveOne(conns: seq<nat>, id: nat)
    requires id in conns
    ensures |Remove(conns, id)| == |conns| - 1
    ensures forall x :: x in Remove(conns, id) ==> x in conns
    ensures NoRepeats(conns) ==> NoRepeats(Remove(conns, id)) && id !in Remove(conns, id)
  {
    if conns[0] != id {
      var rest := conns[1..];
      RemoveOne(rest, id);
      if NoRepeats(conns) {
        assert forall i :: 0 <= i < |rest| ==> rest[i] == conns[i + 1] != conns[0];
        assert conns[0] !in rest;
        assert forall j :: 0 <= j < |Remove(rest, id)| ==> Remove(rest, id)[j] in rest;
      }
    }
  }

  lemma StepKeeps(d: Dispatcher, e: Event)
    requires Inv(d) && Legal(d, e)
    ensures Step(d, e).Some? ==> Inv(Step(d, e).value)
  {
    if e.ConnDied? {
      RemoveOne(d.conns, e.id);
    }
  }

  /** The states of a dispatcher at event boundaries, as long as nothing fails. */
  ghost predicate IsRun(ds: seq<Dispatcher>, es: seq<Event>) {
    && |ds| == |es| + 1 && Begin(ds[0].max, true) == Some(ds[0])
    && forall i :: 0 <= i < |es| ==> Legal(ds[i], es[i]) && Step(ds[i], es[i]) == Some(ds[i + 1])
  }

  /**
    At every event boundary the count is the length of the list and at most the maximum, an accept is
    pending exactly while there is room and no shutdown was requested, and `conndone` is set exactly
    when one was requested and no connection is left.
   */
  lemma {:induction false} RunKeeps(ds: seq<Dispatcher>, es: seq<Event>, n: nat)
    requires IsRun(ds, es) && n < |ds|
    ensures Inv(ds[n])
  {
    if n > 0 {
      RunKeeps(ds, es, n - 1);
      StepKeeps(ds[n - 1], es[n - 1]);
    }
  }

  class AcceptState {
    const nconnMax: nat
    var nconn: nat
    var conns: seq<nat>
    var acceptCookie: bool
    var shutdownRequested: bool
    var conndone: bool

    ghost function Abs(): Dispatcher
      reads this
    {
      Dispatcher(nconnMax, nconn, conns, acceptCookie, shutdownRequested, conndone)
    }

    constructor (max: nat)
      ensures Abs() == Dispatcher(max, 0, [], false, false, false)
    {
      nconnMax, nconn, conns, acceptCookie, shutdownRequested, conndone := max, 0, [], false, false, false;
    }

    method DoAccept(ok: bool) returns (rc: int)
      modifies this`acceptCookie
      ensures rc == (if Accepting(old(Abs()), ok).Some? then 0 else -1)
      ensures Abs() == if rc == 0 then Accepting(old(Abs()), ok).value else old(Abs())
    {
      rc := 0;
      if nconn < nconnMax && !acceptCookie && !shutdownRequested {
        if ok {
          acceptCookie := true;
        } else {
          rc := -1;
        }
      }
    }

    /** `callback_conndied` */
    method CallbackConnDied(id: nat, ok: bool) returns (rc: int)
      requires id in conns && nconn > 0
      modifies this
      ensures rc == 0 ==> Step(old(Abs()), ConnDied(id, ok)) == Some(Abs())
      ensures rc != 0 ==> Step(old(Abs()), ConnDied(id, ok)) == None && Abs() == Forget(old(Abs()), id)
    {
      nconn := nconn - 1;
      conns := Remove(conns, id);
      if shutdownRequested && nconn == 0 {
        conndone := true;
      }
      rc := DoAccept(ok);
    }

    /**
      `callback_gotconn`: no socket, no copy of the addresses, no memory for a list node or no connection
      is fatal, and leaves the count as it was.
     */
    method CallbackGotConn(id: nat, socket: bool, dup: bool, mem: bool, create: bool, ok: bool) returns (rc: int)
      modifies this
      ensures !(socket && dup && mem && create) ==> rc == -1 && Abs() == old(Abs()).(accepting := false)
      ensures socket && dup && mem && create && rc == 0 ==> OnConn(old(Abs()), id, ok) == Some(Abs())
      ensures socket && dup && mem && create && rc != 0 ==>
        && OnConn(old(Abs()), id, ok) == None
        && Abs() == old(Abs()).(nconn := old(nconn) + 1, conns := [id] + old(conns), accepting := false)
    {
      acceptCookie := false;
      if !socket {
        return -1;
      }
      nconn := nconn + 1;
      if !dup || !mem || !create {
        nconn := nconn - 1;
        return -1;
      }
      conns := [id] + conns;
      rc := DoAccept(ok);
    }

    /** `dispatch_request_shutdown` */
    method RequestShutdown()
      modifies this
      ensures Abs() == OnRequest(old(Abs()))
    {
      shutdownRequested := true;
      if acceptCookie {
        acceptCookie := false;
      }
      if nconn == 0 {
        conndone := true;
      }
    }

    /**
      `dispatch_shutdown`: dropping the first connection takes it out of the list, so the loop ends with
      an empty list; an accept that this may start, or fail to start (`oks`), is cancelled afterwards.
     */
    method Shutdown(oks: nat -> bool)
      requires Inv(Abs())
      modifies this
      ensures conns == [] && nconn == 0 && !acceptCookie
    {
      while conns != []
        invariant nconn == |conns| && NoRepeats(conns)
        decreases |conns|
      {
        RemoveOne(conns, conns[0]);
        var _ := CallbackConnDied(conns[0], oks(nconn));
      }
      if acceptCookie {
        acceptCookie := false;
      }
    }
  }
}
