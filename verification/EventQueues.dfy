/**
  The queues of the event loop answer as `Events` has it: what comes out of the queue of immediate events, of
  the network events and of the timers, from the contracts of the classes that model them.
 */
module EventQueues {
  import opened Bytes
  import opened TimerQueue
  import opened EventsImmediate
  import opened EventsNetwork
  import T = EventsTimer
  import E = Events

  /** `events_immediate_get` */
  method GetImmediate(q: Immediate) returns (r: Option<Node>, ghost first: nat)
    requires q.Valid()
    modifies q
    ensures q.Valid() && E.ImmediateAnswers(old(q.queue), first)
    ensures r == if old(q.queue) == [] then None else Some(old(q.queue)[first])
    ensures q.queue == if r.None? then [] else Without(old(q.queue), r.value)
  {
    r := q.Get();
    first := 0;
    if r.Some? {
      first :| 0 <= first < |old(q.queue)| && old(q.queue)[first] == r.value && GoesFirst(old(q.queue), first);
    }
  }

  function OpFor(key: E.Key): Op {
    if key.write then OpWrite else OpRead
  }

  function KeyFor(fd: nat, op: Op): E.Key {
    E.Key(fd, op == OpWrite)
  }

  /** The keys that are ready, as a poll array says. */
  ghost function ReadyKeys(S: seq<SocketRec>, fds: seq<PollFd>, nfds: nat): (r: set<E.Key>)
    ensures forall k :: k in r <==> ReadyKey(S, fds, nfds, k.fd, OpFor(k))
  {
    set fd, w | 0 <= fd < |S| && w in {false, true}
      && ReadyKey(S, fds, nfds, fd, if w then OpWrite else OpRead) :: E.Key(fd, w)
  }

  ghost function Ready(n: Network): set<E.Key>
    reads n
  {
    ReadyKeys(n.S, n.fds, n.nfds)
  }

  /** The cursor is where a poll leaves it. */
  ghost predicate JustPolled(n: Network)
    reads n
  {
    n.fdscanpos == Dec64(n.nfds)
  }

  /**
    `events_network_select`: a poll that completes takes over what is pending, one that is interrupted
    leaves what was ready.
   */
  method Select(n: Network, poll: Poll) returns (ok: bool)
    requires n.Valid() && (poll.Polled? ==> PollResult(n.fds, n.nfds, poll.revents))
    modifies n
    ensures n.Valid() && ok == !poll.Failed? && (ok ==> JustPolled(n))
    ensures Ready(n) == if poll.Polled? then ReadyKeys(old(n.S), poll.revents, old(n.nfds)) else old(Ready(n))
  {
    ok := n.Select(poll);
    ghost var fds := if poll.Polled? then poll.revents else old(n.fds);
    SameReady(n.S, n.fds, fds, n.nfds);
  }

  lemma SameReady(S: seq<SocketRec>, fds: seq<PollFd>, fds': seq<PollFd>, nfds: nat)
    requires nfds <= |fds| && nfds <= |fds'| && fds[..nfds] == fds'[..nfds]
    ensures ReadyKeys(S, fds, nfds) == ReadyKeys(S, fds', nfds)
  {
    assert forall j :: 0 <= j < nfds ==> fds[j] == fds[..nfds][j] == fds'[j];
  }

  /** `events_network_get`, directly after a poll or not. */
  method GetNetwork(n: Network, ghost polled: bool) returns (r: Option<nat>, ghost key: Option<E.Key>)
    requires n.Valid() && (polled ==> JustPolled(n))
    modifies n
    ensures n.Valid() && E.NetworkAnswers(old(Ready(n)), key, polled)
    ensures r.Some? == key.Some? && (key.Some? ==> Lookup(old(n.S), key.value.fd, OpFor(key.value)) == r)
    ensures Ready(n) == if key.Some? then old(Ready(n)) - {key.value} else old(Ready(n))
  {
    ghost var fd, op;
    r, fd, op := n.Get();
    key := None;
    if r.Some? {
      key := Some(KeyFor(fd, op));
      GoneIsNotReady(n.S, n.fds, n.nfds, n.fdscanpos, fd, op);
      TakenOut(old(n.S), old(n.fds), old(n.nfds), n.S, n.fds, n.nfds, fd, op);
    } else if polled {
      NoneReady(old(n.S), old(n.fds), old(n.nfds), old(n.fdscanpos));
    }
  }

  lemma GoneIsNotReady(S: seq<SocketRec>, fds: seq<PollFd>, nfds: nat, fdscanpos: nat, fd: nat, op: Op)
    requires Inv(S, fds, nfds, fdscanpos) && Lookup(S, fd, op).None?
    ensures !ReadyKey(S, fds, nfds, fd, op)
  {
    if fd < |S| && S[fd].pollpos < nfds {
      assert fds[S[fd].pollpos].fd == fd;
    }
  }

  lemma TakenOut(S: seq<SocketRec>, fds: seq<PollFd>, nfds: nat, S': seq<SocketRec>, fds': seq<PollFd>, nfds': nat,
                 fd: nat, op: Op)
    requires OthersAsReady(S, fds, nfds, S', fds', nfds', fd, op) && !ReadyKey(S', fds', nfds', fd, op)
    ensures ReadyKeys(S', fds', nfds') == ReadyKeys(S, fds, nfds) - {KeyFor(fd, op)}
  {
    forall k
      ensures k in ReadyKeys(S', fds', nfds') <==> k in ReadyKeys(S, fds, nfds) && k != KeyFor(fd, op)
    {
      assert k == KeyFor(fd, op) <==> k.fd == fd && OpFor(k) == op;
    }
  }

  lemma NoneReady(S: seq<SocketRec>, fds: seq<PollFd>, nfds: nat, fdscanpos: nat)
    requires Inv(S, fds, nfds, fdscanpos) && fdscanpos == Dec64(nfds)
    requires fdscanpos >= nfds || forall j :: 0 <= j < nfds ==> !EventsNetwork.Ready(fds[j])
    ensures ReadyKeys(S, fds, nfds) == {}
  {
  }

  /** When each timer is due, as a set. */
  ghost function TimersOf(due: map<nat, Timeval>): (r: set<E.Timer>)
    ensures forall t :: t in r <==> t.id in due && due[t.id] == t.deadline
  {
    set t | t in due :: E.Timer(t, due[t])
  }

  /** `events_timer_get` */
  method GetTimer(t: T.Timers, now: Timeval) returns (r: Option<nat>, ghost timer: Option<E.Timer>)
    requires t.Valid() && t.Now(now)
    modifies t, t.Q, t.Q.H
    ensures t.Valid() && E.TimerAnswers(old(TimersOf(t.Due())), timer, now)
    ensures r.Some? == timer.Some?
    ensures TimersOf(t.Due()) == if timer.Some? then old(TimersOf(t.Due())) - {timer.value} else old(TimersOf(t.Due()))
  {
    ghost var due := t.Due();
    ghost var id;
    r, id := t.Get(now);
    timer := None;
    if r.Some? {
      timer := Some(E.Timer(id, due[id]));
      FirstIsDue(due, id, now);
    } else {
      assert forall u :: u in TimersOf(due) ==> Tvcmp(due[u.id], now) > 0;
    }
  }

  lemma FirstIsDue(due: map<nat, Timeval>, id: nat, now: Timeval)
    requires T.Earliest(due, id) && !T.NothingDue(due, now)
    ensures E.Due(TimersOf(due), E.Timer(id, due[id]), now)
    ensures TimersOf(due - {id}) == TimersOf(due) - {E.Timer(id, due[id])}
  {
    var u :| u in due && Tvcmp(due[u], now) <= 0;
    assert Tvcmp(due[id], due[u]) <= 0;
  }
}
