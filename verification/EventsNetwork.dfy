/**
  Network events (`libcperciva/events/events_network.c`): a socket table and a poll array that point
  at each other, with swap-removal and a scan cursor.

  The flags of a `struct pollfd` are modelled bit by bit; `POLLNVAL` is left out because the source
  asserts that it never occurs.  `size_t` values are naturals up to `SIZE_MAX`, so `-1` is `SIZE_MAX`.
 */
module EventsNetwork {
  import opened Bytes

  datatype Op = OpRead | OpWrite

  datatype SocketRec = SocketRec(reader: Option<nat>, writer: Option<nat>, pollpos: nat)

  /** `events` is `(evRead, evWrite)`; `revents` is the remaining four flags. */
  datatype PollFd = PollFd(fd: nat, evRead: bool, evWrite: bool, rRead: bool, rWrite: bool, rErr: bool, rHup: bool)

  const INT_MAX: nat := 0x7fff_ffff
  /** The poll array may hold at most this many structures of eight bytes. */
  const MAX_FDS: nat := SIZE_MAX / 8

  function Slot(s: SocketRec, op: Op): Option<nat> {
    if op == OpRead then s.reader else s.writer
  }

  function SetSlot(s: SocketRec, op: Op, v: Option<nat>): SocketRec {
    if op == OpRead then s.(reader := v) else s.(writer := v)
  }

  predicate Wants(f: PollFd, op: Op) {
    if op == OpRead then f.evRead else f.evWrite
  }

  /** `revents != 0` */
  predicate Ready(f: PollFd) {
    f.rRead || f.rWrite || f.rErr || f.rHup
  }

  /** Whether an event for `op` is to be delivered on this descriptor. */
  predicate ReadyFor(f: PollFd, op: Op) {
    Wants(f, op) && (f.rErr || f.rHup || if op == OpRead then f.rRead else f.rWrite)
  }

  /** The cursor read as a signed number: a wrapped cursor is before the first entry. */
  function Scan(fdscanpos: nat): int {
    if fdscanpos == SIZE_MAX then -1 else fdscanpos
  }

  /** Invariant 1: initialised entries of the two tables point at each other. */
  ghost predicate Inverse(S: seq<SocketRec>, fds: seq<PollFd>, nfds: nat) {
    && nfds <= |fds| <= MAX_FDS
    && (forall i :: 0 <= i < |S| && S[i].pollpos < nfds ==> fds[S[i].pollpos].fd == i)
    && (forall j :: 0 <= j < nfds ==> fds[j].fd < |S| && S[fds[j].fd].pollpos == j)
  }

  /** Invariants 2 and 3: exactly the descriptors with an event registered are in the poll array. */
  ghost predicate Placed(S: seq<SocketRec>, nfds: nat) {
    forall i :: 0 <= i < |S| ==>
      if S[i].reader.Some? || S[i].writer.Some? then S[i].pollpos < nfds else S[i].pollpos == SIZE_MAX
  }

  /** Invariant 4: the masks say what is registered. */
  ghost predicate Masks(S: seq<SocketRec>, fds: seq<PollFd>, nfds: nat)
    requires Inverse(S, fds, nfds)
  {
    forall j :: 0 <= j < nfds ==>
      (fds[j].evRead <==> S[fds[j].fd].reader.Some?) && (fds[j].evWrite <==> S[fds[j].fd].writer.Some?)
  }

  /** Invariant 5: nothing is ready that is not wanted. */
  ghost predicate Wanted(fds: seq<PollFd>, nfds: nat)
    requires nfds <= |fds|
  {
    forall j :: 0 <= j < nfds ==> (fds[j].rRead ==> fds[j].evRead) && (fds[j].rWrite ==> fds[j].evWrite)
  }

  /** Invariant 6: whatever is ready has not been scanned past yet. */
  ghost predicate Unscanned(fds: seq<PollFd>, nfds: nat, fdscanpos: nat)
    requires nfds <= |fds|
  {
    forall j :: 0 <= j < nfds && Ready(fds[j]) ==> j <= Scan(fdscanpos)
  }

  ghost predicate Inv(S: seq<SocketRec>, fds: seq<PollFd>, nfds: nat, fdscanpos: nat) {
    && |S| <= INT_MAX && fdscanpos <= SIZE_MAX
    && Inverse(S, fds, nfds)
    && Placed(S, nfds)
    && Masks(S, fds, nfds)
    && Wanted(fds, nfds)
    && Unscanned(fds, nfds, fdscanpos)
  }

  /** The abstract value: the event registered for a descriptor and an operation, if any. */
  function Lookup(S: seq<SocketRec>, fd: nat, op: Op): Option<nat> {
    if fd < |S| then Slot(S[fd], op) else None
  }

  /** `T` differs from `S` in the one key `(fd, op)`, which now has the value `v`. */
  ghost predicate Updates(S: seq<SocketRec>, T: seq<SocketRec>, fd: nat, op: Op, v: Option<nat>) {
    forall i: nat, o :: Lookup(T, i, o) == if i == fd && o == op then v else Lookup(S, i, o)
  }

  ghost predicate SameEvents(S: seq<SocketRec>, T: seq<SocketRec>) {
    forall i: nat, o :: Lookup(T, i, o) == Lookup(S, i, o)
  }

  /** Whether poll has found the descriptor ready for an operation it has an event for. */
  predicate ReadyKey(S: seq<SocketRec>, fds: seq<PollFd>, nfds: nat, fd: nat, op: Op) {
    fd < |S| && S[fd].pollpos < nfds <= |fds| && ReadyFor(fds[S[fd].pollpos], op)
  }

  /** Every key other than `(fd, op)` is exactly as ready as before. */
  ghost predicate OthersAsReady(S: seq<SocketRec>, fds: seq<PollFd>, nfds: nat,
                                T: seq<SocketRec>, fds': seq<PollFd>, nfds': nat, fd: nat, op: Op) {
    forall i: nat, o :: (i == fd && o == op) || (ReadyKey(T, fds', nfds', i, o) <==> ReadyKey(S, fds, nfds, i, o))
  }

  /** How many entries of the poll array a descriptor takes up. */
  function Entries(S: seq<SocketRec>, fd: nat): nat {
    if Lookup(S, fd, OpRead).None? && Lookup(S, fd, OpWrite).None? then 0 else 1
  }

  /** One more entry can be had: there is room, or the doubled array can be allocated. */
  predicate HasRoom(fds: seq<PollFd>, nfds: nat, canAlloc: bool) {
    nfds < |fds| || (canAlloc && 2 * |fds| <= MAX_FDS)
  }

  /** The state in which `clearbit` is called: the event is gone from the table, its bit is not. */
  ghost predicate Clearing(S: seq<SocketRec>, fds: seq<PollFd>, nfds: nat, fdscanpos: nat, p: nat, op: Op) {
    && |S| <= INT_MAX && fdscanpos <= SIZE_MAX
    && Inverse(S, fds, nfds)
    && p < nfds
    && (forall i :: 0 <= i < |S| ==>
          if S[i].reader.Some? || S[i].writer.Some? || i == fds[p].fd
          then S[i].pollpos < nfds else S[i].pollpos == SIZE_MAX)
    && (forall j :: 0 <= j < nfds ==>
          && (fds[j].evRead <==> S[fds[j].fd].reader.Some? || (j == p && op == OpRead))
          && (fds[j].evWrite <==> S[fds[j].fd].writer.Some? || (j == p && op == OpWrite)))
    && Slot(S[fds[p].fd], op).None?
    && Wanted(fds, nfds)
    && Unscanned(fds, nfds, fdscanpos)
  }

  lemma StartClearing(S: seq<SocketRec>, fds: seq<PollFd>, nfds: nat, fdscanpos: nat, fd: nat, op: Op)
    requires Inv(S, fds, nfds, fdscanpos) && Lookup(S, fd, op).Some?
    ensures var T := S[fd := SetSlot(S[fd], op, None)];
      Clearing(T, fds, nfds, fdscanpos, S[fd].pollpos, op) && Updates(S, T, fd, op, None)
  {
    DistinctFds(S, fds, nfds);
  }

  function ClearedFd(f: PollFd, op: Op): PollFd {
    if op == OpRead then f.(evRead := false, rRead := false) else f.(evWrite := false, rWrite := false)
  }

  /** `clearbit` when the other bit remains. */
  lemma ClearKeeps(S: seq<SocketRec>, fds: seq<PollFd>, nfds: nat, fdscanpos: nat, p: nat, op: Op)
    requires Clearing(S, fds, nfds, fdscanpos, p, op)
    requires var f := ClearedFd(fds[p], op); f.evRead || f.evWrite
    ensures Inv(S, fds[p := ClearedFd(fds[p], op)], nfds, fdscanpos)
    ensures OthersAsReady(S, fds, nfds, S, fds[p := ClearedFd(fds[p], op)], nfds, fds[p].fd, op)
  {
    DistinctFds(S, fds, nfds);
  }

  /** The table after `clearbit` has emptied entry `p`: the last entry's descriptor points at `p`. */
  function RemovedS(S: seq<SocketRec>, fds: seq<PollFd>, nfds: nat, p: nat): (T: seq<SocketRec>)
    requires p < nfds <= |fds| && fds[p].fd < |S| && fds[nfds - 1].fd < |S|
    requires p != nfds - 1 ==> fds[p].fd != fds[nfds - 1].fd
    ensures |T| == |S| && forall i :: 0 <= i < |S| ==> T[i].reader == S[i].reader && T[i].writer == S[i].writer
    ensures forall i :: 0 <= i < |S| ==>
      T[i].pollpos == if i == fds[p].fd then SIZE_MAX else if i == fds[nfds - 1].fd then p else S[i].pollpos
  {
    var T := S[fds[p].fd := S[fds[p].fd].(pollpos := SIZE_MAX)];
    if p == nfds - 1 then T else T[fds[nfds - 1].fd := T[fds[nfds - 1].fd].(pollpos := p)]
  }

  lemma DistinctFds(S: seq<SocketRec>, fds: seq<PollFd>, nfds: nat)
    requires Inverse(S, fds, nfds)
    ensures forall i, j :: 0 <= i < j < nfds ==> fds[i].fd != fds[j].fd
  {
  }

  lemma RemoveKeepsInverse(S: seq<SocketRec>, fds: seq<PollFd>, nfds: nat, p: nat, g: PollFd)
    requires Inverse(S, fds, nfds) && p < nfds && (p != nfds - 1 ==> g == fds[nfds - 1])
    requires forall i :: 0 <= i < |S| ==> S[i].pollpos < nfds || S[i].pollpos == SIZE_MAX
    ensures p != nfds - 1 ==> fds[p].fd != fds[nfds - 1].fd
    ensures Inverse(RemovedS(S, fds, nfds, p), fds[p := g], nfds - 1)
  {
    DistinctFds(S, fds, nfds);
    var T, fds' := RemovedS(S, fds, nfds, p), fds[p := g];
    forall j | 0 <= j < nfds - 1
      ensures fds'[j].fd < |T| && T[fds'[j].fd].pollpos == j
    {
      assert j != p ==> fds[j].fd != fds[p].fd && fds[j].fd != fds[nfds - 1].fd;
    }
    forall i | 0 <= i < |T| && T[i].pollpos < nfds - 1
      ensures fds'[T[i].pollpos].fd == i
    {
      if i != fds[nfds - 1].fd {
        assert S[i].pollpos == T[i].pollpos && fds[S[i].pollpos].fd == i;
      }
    }
  }

  lemma RemoveKeepsPlaced(S: seq<SocketRec>, fds: seq<PollFd>, nfds: nat, fdscanpos: nat, p: nat, op: Op)
    requires Clearing(S, fds, nfds, fdscanpos, p, op)
    requires var f := ClearedFd(fds[p], op); !f.evRead && !f.evWrite
    requires p != nfds - 1 ==> fds[p].fd != fds[nfds - 1].fd
    ensures Placed(RemovedS(S, fds, nfds, p), nfds - 1)
  {
    var T := RemovedS(S, fds, nfds, p);
    forall i | 0 <= i < |T|
      ensures if T[i].reader.Some? || T[i].writer.Some? then T[i].pollpos < nfds - 1 else T[i].pollpos == SIZE_MAX
    {
      assert S[i].pollpos == nfds - 1 ==> fds[nfds - 1].fd == i;
    }
  }

  lemma RemoveKeepsMasks(S: seq<SocketRec>, fds: seq<PollFd>, nfds: nat, fdscanpos: nat, p: nat, op: Op, g: PollFd)
    requires Clearing(S, fds, nfds, fdscanpos, p, op) && (p != nfds - 1 ==> g == fds[nfds - 1])
    requires p != nfds - 1 ==> fds[p].fd != fds[nfds - 1].fd
    requires Inverse(RemovedS(S, fds, nfds, p), fds[p := g], nfds - 1)
    ensures Masks(RemovedS(S, fds, nfds, p), fds[p := g], nfds - 1)
    ensures Wanted(fds[p := g], nfds - 1) && Unscanned(fds[p := g], nfds - 1, fdscanpos)
  {
  }

  lemma RemoveKeepsReady(S: seq<SocketRec>, fds: seq<PollFd>, nfds: nat, fdscanpos: nat, p: nat, op: Op, g: PollFd)
    requires Clearing(S, fds, nfds, fdscanpos, p, op) && (p != nfds - 1 ==> g == fds[nfds - 1])
    requires var f := ClearedFd(fds[p], op); !f.evRead && !f.evWrite
    requires p != nfds - 1 ==> fds[p].fd != fds[nfds - 1].fd
    ensures OthersAsReady(S, fds, nfds, RemovedS(S, fds, nfds, p), fds[p := g], nfds - 1, fds[p].fd, op)
  {
    var T, fds' := RemovedS(S, fds, nfds, p), fds[p := g];
    forall i: nat, o | !(i == fds[p].fd && o == op)
      ensures ReadyKey(T, fds', nfds - 1, i, o) <==> ReadyKey(S, fds, nfds, i, o)
    {
      if i < |S| && S[i].pollpos < nfds {
        assert fds[S[i].pollpos].fd == i;
      }
    }
  }

  /** `clearbit` when the entry is to go: the last entry takes its place. */
  lemma ClearRemoves(S: seq<SocketRec>, fds: seq<PollFd>, nfds: nat, fdscanpos: nat, p: nat, op: Op, g: PollFd)
    requires Clearing(S, fds, nfds, fdscanpos, p, op)
    requires var f := ClearedFd(fds[p], op); !f.evRead && !f.evWrite
    requires p != nfds - 1 ==> g == fds[nfds - 1]
    ensures p != nfds - 1 ==> fds[p].fd != fds[nfds - 1].fd
    ensures Inv(RemovedS(S, fds, nfds, p), fds[p := g], nfds - 1, fdscanpos)
    ensures SameEvents(S, RemovedS(S, fds, nfds, p))
    ensures OthersAsReady(S, fds, nfds, RemovedS(S, fds, nfds, p), fds[p := g], nfds - 1, fds[p].fd, op)
  {
    RemoveKeepsInverse(S, fds, nfds, p, g);
    RemoveKeepsPlaced(S, fds, nfds, fdscanpos, p, op);
    RemoveKeepsMasks(S, fds, nfds, fdscanpos, p, op, g);
    RemoveKeepsReady(S, fds, nfds, fdscanpos, p, op, g);
  }

  function SetFd(f: PollFd, op: Op): PollFd {
    if op == OpRead then f.(evRead := true) else f.(evWrite := true)
  }

  /** Registering on a descriptor that is in the poll array already. */
  lemma SetKeeps(S: seq<SocketRec>, fds: seq<PollFd>, nfds: nat, fdscanpos: nat, fd: nat, op: Op, e: nat)
    requires Inv(S, fds, nfds, fdscanpos) && fd < |S| && S[fd].pollpos < nfds
    ensures var p := S[fd].pollpos;
      Inv(S[fd := SetSlot(S[fd], op, Some(e))], fds[p := SetFd(fds[p], op)], nfds, fdscanpos)
    ensures Updates(S, S[fd := SetSlot(S[fd], op, Some(e))], fd, op, Some(e))
  {
    DistinctFds(S, fds, nfds);
  }

  lemma SetKeepsReady(S: seq<SocketRec>, fds: seq<PollFd>, nfds: nat, fd: nat, op: Op, e: nat)
    requires Inverse(S, fds, nfds) && fd < |S| && S[fd].pollpos < nfds
    ensures var p := S[fd].pollpos;
      OthersAsReady(S, fds, nfds, S[fd := SetSlot(S[fd], op, Some(e))], fds[p := SetFd(fds[p], op)], nfds, fd, op)
  {
    var p := S[fd].pollpos;
    assert forall i :: 0 <= i < |S| && i != fd && S[i].pollpos < nfds ==> S[i].pollpos != p;
  }

  /** Registering on a descriptor that gets a new entry at the end of the poll array. */
  lemma AddKeeps(S: seq<SocketRec>, fds: seq<PollFd>, nfds: nat, fdscanpos: nat, fd: nat, op: Op, e: nat)
    requires Inv(S, fds, nfds, fdscanpos) && fd < |S| && S[fd].pollpos == SIZE_MAX && nfds < |fds|
    ensures var f := SetFd(PollFd(fd, false, false, false, false, false, false), op);
      Inv(S[fd := SetSlot(S[fd], op, Some(e)).(pollpos := nfds)], fds[nfds := f], nfds + 1, fdscanpos)
    ensures Updates(S, S[fd := SetSlot(S[fd], op, Some(e)).(pollpos := nfds)], fd, op, Some(e))
    ensures var f := SetFd(PollFd(fd, false, false, false, false, false, false), op);
      var T := S[fd := SetSlot(S[fd], op, Some(e)).(pollpos := nfds)];
      OthersAsReady(S, fds, nfds, T, fds[nfds := f], nfds + 1, fd, op)
  {
    var T := S[fd := SetSlot(S[fd], op, Some(e)).(pollpos := nfds)];
    var fds' := fds[nfds := SetFd(PollFd(fd, false, false, false, false, false, false), op)];
    assert forall j :: 0 <= j < nfds ==> fds[j].fd != fd && fds'[j] == fds[j];
  }

  /** What `events_network_get` makes of `revents` before looking at it: an error wakes every callback. */
  function Spread(f: PollFd): PollFd {
    if f.rErr || f.rHup then
      f.(rErr := false, rHup := false, rRead := f.rRead || f.evRead, rWrite := f.rWrite || f.evWrite)
    else f
  }

  lemma SpreadKeeps(S: seq<SocketRec>, fds: seq<PollFd>, nfds: nat, fdscanpos: nat, p: nat)
    requires Inv(S, fds, nfds, fdscanpos) && p < nfds
    ensures Inv(S, fds[p := Spread(fds[p])], nfds, fdscanpos)
    ensures forall i: nat, o :: ReadyKey(S, fds[p := Spread(fds[p])], nfds, i, o) <==> ReadyKey(S, fds, nfds, i, o)
    ensures Ready(fds[p]) <==> Spread(fds[p]).rRead || Spread(fds[p]).rWrite
  {
    assert fds[p].evRead || fds[p].evWrite;
  }

  const EmptyRec: SocketRec := SocketRec(None, None, SIZE_MAX)

  lemma GrowKeeps(S: seq<SocketRec>, fds: seq<PollFd>, nfds: nat, fdscanpos: nat, T: seq<SocketRec>)
    requires Inv(S, fds, nfds, fdscanpos) && S <= T && |T| <= INT_MAX
    requires forall i :: |S| <= i < |T| ==> T[i] == EmptyRec
    ensures Inv(T, fds, nfds, fdscanpos) && SameEvents(S, T)
    ensures forall i: nat, o :: ReadyKey(T, fds, nfds, i, o) <==> ReadyKey(S, fds, nfds, i, o)
  {
    assert forall i :: 0 <= i < |S| ==> T[i] == S[i];
  }

  datatype Outcome = Ok | BadArgument | AlreadyExists | NoEntry | NoMemory

  /** The operation an `int` argument names, if any. */
  function OpOf(op: int): Option<Op> {
    if op == 0 then Some(OpRead) else if op == 1 then Some(OpWrite) else None
  }

  /** What one call of `poll` did: filled in `revents`, was interrupted on request, or failed. */
  datatype Poll = Polled(revents: seq<PollFd>) | Interrupted | Failed

  /** `poll` changes nothing but `revents`, and reports only what was asked for, errors and hangups. */
  ghost predicate PollResult(fds: seq<PollFd>, nfds: nat, r: seq<PollFd>)
    requires nfds <= |fds|
  {
    && |r| == nfds
    && forall j :: 0 <= j < nfds ==>
         && r[j].fd == fds[j].fd && r[j].evRead == fds[j].evRead && r[j].evWrite == fds[j].evWrite
         && (r[j].rRead ==> r[j].evRead) && (r[j].rWrite ==> r[j].evWrite)
  }

  class Network {
    var S: seq<SocketRec>
    var fds: seq<PollFd>
    var nfds: nat
    var fdscanpos: nat

    ghost predicate Valid()
      reads this
    {
      Inv(S, fds, nfds, fdscanpos)
    }

    /** `init` */
    constructor ()
      ensures Valid() && S == [] && nfds == 0
    {
      S, fds, nfds, fdscanpos := [], [], 0, 0;
    }

    /** `growsocketlist` */
    method GrowSocketList(nrec: nat, canAlloc: bool) returns (ok: bool)
      requires Valid() && |S| < nrec <= INT_MAX
      modifies this
      ensures Valid() && ok == canAlloc
      ensures SameEvents(old(S), S) && fds == old(fds) && nfds == old(nfds) && fdscanpos == old(fdscanpos)
      ensures ok ==> |S| == nrec && S[nrec - 1] == EmptyRec
      ensures forall i: nat, o :: ReadyKey(S, fds, nfds, i, o) <==> ReadyKey(old(S), fds, nfds, i, o)
    {
      if !canAlloc {
        return false;
      }
      var T := S + seq(nrec - |S|, _ => EmptyRec);
      GrowKeeps(S, fds, nfds, fdscanpos, T);
      S := T;
      return true;
    }

    /** `growpollfd`, up to the allocation: make sure that there is room for one more entry. */
    method ReservePollFd(canAlloc: bool) returns (ok: bool)
      requires Valid()
      modifies this`fds
      ensures Valid() && nfds <= |old(fds)| && fds[..nfds] == old(fds)[..nfds]
      ensures forall i: nat, o :: ReadyKey(S, fds, nfds, i, o) <==> ReadyKey(S, old(fds), nfds, i, o)
      ensures ok ==> nfds < |fds|
      ensures ok <==> HasRoom(old(fds), nfds, canAlloc)
    {
      if |fds| == nfds {
        var alloc := if |fds| == 0 then 16 else |fds| * 2;
        if alloc > SIZE_MAX / 8 || !canAlloc {
          return false;
        }
        var junk: PollFd := *;
        fds := fds + seq(alloc - |fds|, _ => junk);
      }
      return true;
    }

    /** `clearbit` */
    method ClearBit(p: nat, op: Op)
      requires Clearing(S, fds, nfds, fdscanpos, p, op)
      modifies this
      ensures Valid() && SameEvents(old(S), S) && fdscanpos == old(fdscanpos)
      ensures OthersAsReady(old(S), old(fds), old(nfds), S, fds, nfds, old(fds)[p].fd, op)
      ensures nfds == old(nfds) - 1 + Entries(S, old(fds)[p].fd)
    {
      var f := ClearedFd(fds[p], op);
      if f.evRead || f.evWrite {
        ClearKeeps(S, fds, nfds, fdscanpos, p, op);
        fds := fds[p := f];
      } else {
        var g := if p != nfds - 1 then fds[nfds - 1] else f;
        ClearRemoves(S, fds, nfds, fdscanpos, p, op, g);
        S := RemovedS(S, fds, nfds, p);
        fds := fds[p := g];
        nfds := nfds - 1;
      }
    }

    /**
      `events_network_register`.  `listOk`, `recOk` and `pollOk` say whether the three allocations
      succeed.
     */
    method Register(e: nat, s: int, op: int, listOk: bool, recOk: bool, pollOk: bool) returns (r: Outcome)
      requires Valid() && s < INT_MAX
      modifies this
      ensures Valid()
      ensures r == BadArgument <==> s < 0 || OpOf(op).None?
      ensures r == AlreadyExists <==> s >= 0 && OpOf(op).Some? && Lookup(old(S), s, OpOf(op).value).Some?
      ensures r == NoMemory <==>
        && s >= 0 && OpOf(op).Some? && Lookup(old(S), s, OpOf(op).value).None?
        && ((s >= |old(S)| && !listOk) || !recOk || (Entries(old(S), s) == 0 && !HasRoom(old(fds), old(nfds), pollOk)))
      ensures r != NoEntry
      ensures if r == Ok then Updates(old(S), S, s, OpOf(op).value, Some(e)) else SameEvents(old(S), S)
      ensures r == Ok ==> OthersAsReady(old(S), old(fds), old(nfds), S, fds, nfds, s, OpOf(op).value)
      ensures nfds == if r == Ok then old(nfds) + 1 - Entries(old(S), s) else old(nfds)
      ensures fdscanpos == old(fdscanpos)
    {
      if s < 0 || OpOf(op).None? {
        return BadArgument;
      }
      var o := OpOf(op).value;
      if s >= |S| {
        var ok := GrowSocketList(s + 1, listOk);
        if !ok {
          return NoMemory;
        }
      }
      if Slot(S[s], o).Some? {
        return AlreadyExists;
      }
      if !recOk {
        return NoMemory;
      }
      if S[s].pollpos == SIZE_MAX {
        var ok := ReservePollFd(pollOk);
        if !ok {
          return NoMemory;
        }
        AddKeeps(S, fds, nfds, fdscanpos, s, o, e);
        S := S[s := SetSlot(S[s], o, Some(e)).(pollpos := nfds)];
        fds := fds[nfds := SetFd(PollFd(s, false, false, false, false, false, false), o)];
        nfds := nfds + 1;
      } else {
        var p := S[s].pollpos;
        SetKeeps(S, fds, nfds, fdscanpos, s, o, e);
        SetKeepsReady(S, fds, nfds, s, o, e);
        S := S[s := SetSlot(S[s], o, Some(e))];
        fds := fds[p := SetFd(fds[p], o)];
      }
      return Ok;
    }

    /** `events_network_cancel` */
    method Cancel(s: int, op: int) returns (r: Outcome)
      requires Valid()
      modifies this
      ensures Valid()
      ensures r == BadArgument <==> s < 0 || OpOf(op).None?
      ensures r == NoEntry <==> s >= 0 && OpOf(op).Some? && Lookup(old(S), s, OpOf(op).value).None?
      ensures r == Ok || r == BadArgument || r == NoEntry
      ensures if r == Ok then Updates(old(S), S, s, OpOf(op).value, None) else S == old(S) && fds == old(fds)
      ensures r == Ok ==> OthersAsReady(old(S), old(fds), old(nfds), S, fds, nfds, s, OpOf(op).value)
      ensures fdscanpos == old(fdscanpos)
    {
      if s < 0 || OpOf(op).None? {
        return BadArgument;
      }
      var o := OpOf(op).value;
      if s >= |S| || Slot(S[s], o).None? {
        return NoEntry;
      }
      Unregister(s, o);
      return Ok;
    }

    /** Take an event out of the table and clear its bit. */
    method Unregister(fd: nat, op: Op)
      requires Valid() && Lookup(S, fd, op).Some?
      modifies this
      ensures Valid() && Updates(old(S), S, fd, op, None) && fdscanpos == old(fdscanpos)
      ensures OthersAsReady(old(S), old(fds), old(nfds), S, fds, nfds, fd, op)
      ensures nfds == old(nfds) - 1 + Entries(S, fd)
    {
      StartClearing(S, fds, nfds, fdscanpos, fd, op);
      var p := S[fd].pollpos;
      assert fds[p].fd == fd;
      S := S[fd := SetSlot(S[fd], op, None)];
      ClearBit(p, op);
    }

    /** `events_network_select`; the cursor starts at the last entry, wrapping if there is none. */
    method Select(poll: Poll) returns (ok: bool)
      requires Valid()
      requires poll.Polled? ==> PollResult(fds, nfds, poll.revents)
      modifies this
      ensures Valid() && ok == !poll.Failed? && S == old(S) && nfds == old(nfds)
      ensures ok ==> fdscanpos == Dec64(nfds)
      ensures fds[..nfds] == if poll.Polled? then poll.revents else old(fds)[..nfds]
    {
      if poll.Failed? {
        return false;
      }
      if poll.Polled? {
        fds := poll.revents + fds[nfds..];
      }
      fdscanpos := Dec64(nfds);
      return true;
    }

    /**
      `events_network_get`: nothing exactly when the cursor is past the end of the array or nothing is
      ready; otherwise one event that is ready is taken out of the table, and no other.
     */
    method Get() returns (r: Option<nat>, ghost fd: nat, ghost op: Op)
      requires Valid()
      modifies this
      ensures Valid()
      ensures r.None? <==> old(fdscanpos) >= old(nfds) || forall j :: 0 <= j < old(nfds) ==> !Ready(old(fds)[j])
      ensures r.None? ==> S == old(S) && fds == old(fds) && nfds == old(nfds)
      ensures r.Some? ==> Lookup(old(S), fd, op) == r && Updates(old(S), S, fd, op, None)
      ensures r.Some? ==> ReadyKey(old(S), old(fds), old(nfds), fd, op)
      ensures r.Some? ==> OthersAsReady(old(S), old(fds), old(nfds), S, fds, nfds, fd, op)
      ensures r.Some? ==> nfds == old(nfds) - 1 + Entries(S, fd)
      ensures r.Some? ==> fdscanpos <= old(fdscanpos) < old(nfds) && Ready(old(fds)[fdscanpos])
      ensures r.Some? ==> forall j :: fdscanpos < j <= old(fdscanpos) ==> !Ready(old(fds)[j])
    {
      fd, op := 0, OpRead;
      while fdscanpos < nfds
        invariant Valid() && S == old(S) && nfds == old(nfds) <= |old(fds)|
        invariant fds == old(fds) && (fdscanpos == old(fdscanpos) || Scan(fdscanpos) < old(fdscanpos) < nfds)
        decreases Scan(fdscanpos) + 1
      {
        SpreadKeeps(S, fds, nfds, fdscanpos, fdscanpos);
        var f := Spread(fds[fdscanpos]);
        if f.rRead || f.rWrite {
          var o := if f.rRead then OpRead else OpWrite;
          fd, op := f.fd, o;
          r := Slot(S[f.fd], o);
          fds := fds[fdscanpos := f];
          Unregister(f.fd, o);
          return;
        }
        fdscanpos := Dec64(fdscanpos);
      }
      r := None;
    }
  }

  /** Two descriptors with a reader each, and nothing else. */
  ghost predicate TwoReaders(n: Network)
    reads n
  {
    && n.Valid() && n.nfds == 2 && Lookup(n.S, 3, OpRead).Some? && Lookup(n.S, 4, OpRead).Some?
    && Lookup(n.S, 3, OpWrite).None? && Lookup(n.S, 4, OpWrite).None?
  }

  method RegisterTwo() returns (n: Network)
    ensures fresh(n) && TwoReaders(n)
  {
    n := new Network();
    var a := n.Register(30, 3, 0, true, true, true);
    assert Lookup(n.S, 4, OpRead).None? && Lookup(n.S, 4, OpWrite).None? && Lookup(n.S, 3, OpWrite).None?;
    var b := n.Register(40, 4, 0, true, true, true);
    assert a == Ok && b == Ok;
  }

  method PollTwo(n: Network)
    requires TwoReaders(n)
    modifies n
    ensures TwoReaders(n) && n.fdscanpos == 1
    ensures ReadyKey(n.S, n.fds, n.nfds, 3, OpRead) && ReadyKey(n.S, n.fds, n.nfds, 4, OpRead)
  {
    var ok := n.Select(Polled([n.fds[0].(rRead := true, rWrite := false), n.fds[1].(rRead := true, rWrite := false)]));
  }

  method TakeLast(n: Network)
    requires TwoReaders(n) && n.fdscanpos == 1
    requires ReadyKey(n.S, n.fds, n.nfds, 3, OpRead) && ReadyKey(n.S, n.fds, n.nfds, 4, OpRead)
    modifies n
    ensures n.Valid() && n.fdscanpos >= n.nfds
    ensures ReadyKey(n.S, n.fds, n.nfds, 3, OpRead) || ReadyKey(n.S, n.fds, n.nfds, 4, OpRead)
  {
    var first, fd, op := n.Get();
  }

  /**
    After the last entry of the poll array has been delivered and removed, the cursor is past the end:
    the next `events_network_get` returns nothing although another descriptor was found ready by the
    same poll.  That descriptor stays ready; it takes another poll to get at it.
   */
  method GetStopsEarly() returns (n: Network, second: Option<nat>)
    ensures fresh(n) && n.Valid() && second.None?
    ensures exists fd :: ReadyKey(n.S, n.fds, n.nfds, fd, OpRead)
  {
    n := RegisterTwo();
    PollTwo(n);
    TakeLast(n);
    ghost var fd, op;
    second, fd, op := n.Get();
  }
}
