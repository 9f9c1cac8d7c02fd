/**
  The address resolution thread (`lib/dnsthread/dnsthread.c`) under the resolve loop of the dispatcher
  (`spiped/dispatch.c`), as a step system of two threads.  A step is what a thread does between two
  points at which the other one can be observed: taking or releasing the mutex, waiting, reading or
  writing the wakeup socket.  The pthread calls succeed; a wait may end at any time.
 */
module DnsThread {

  datatype ThreadState = Sleeping | HasWork | Suicide

  datatype Holder = Nobody | Main | Worker

  /** Where the worker is: `workthread`. */
  datatype WorkerPc =
    | WStart | WTop | WWait | WGrabbed | WResolving | WRelock | WAnswer | WSend | WBack
    | WClose | WUnlock | WDestroy | WFree | WDone

  /** Where the main thread is: in its event loop, `dnsthread_resolveone`, `callback_resolveone` or `dnsthread_kill`. */
  datatype MainPc = MIdle | RLock | RHas | CLock | CHas | CCall | KLock | KHas | KJoin | MDone | MFailed

  /**
    The structure that the threads share, the mutex, the bytes in the wakeup socket, the worker's copy
    of the address, the main thread's events and copy of the result, and how many requests were
    accepted and answered.  Addresses and results are identified by the number of the request.
   */
  datatype State = State(state: ThreadState, mtx: Holder, freed: bool, w: WorkerPc, m: MainPc, d: Data)
  datatype Data = Data(addr: nat, addrLive: bool, sas: nat, wake: nat, work: nat, listening: bool, timer: bool,
                       result: nat, accepted: nat, answered: nat)

  datatype Choice = WorkerRuns | MainRuns(act: MainAct, ok: bool)
  datatype MainAct = TimerFires | SocketReadable | Kill | GoesOn

  /** `dnsthread_spawn`, and the first timer of the dispatcher. */
  function Spawn(): State {
    State(Sleeping, Nobody, false, WStart, MIdle, Data(0, false, 0, 0, 0, false, true, 0, 0, 0))
  }

  /** A thread that wants the mutex waits until it is free, and `pthread_join` waits until the worker is done. */
  predicate Enabled(s: State, c: Choice) {
    match c
    case WorkerRuns => (s.w.WStart? || s.w.WWait? || s.w.WRelock? ==> s.mtx.Nobody?) && !s.w.WDone?
    case MainRuns(act, _) =>
      match s.m
      case MIdle =>
        (act == TimerFires && s.d.timer) || (act == SocketReadable && s.d.listening && s.d.wake > 0) || act == Kill
      case RLock => act == GoesOn && s.mtx.Nobody?
      case CLock => act == GoesOn && s.mtx.Nobody?
      case KLock => act == GoesOn && s.mtx.Nobody?
      case KJoin => act == GoesOn && s.w.WDone?
      case MDone => false
      case MFailed => false
      case _ => act == GoesOn
  }

  function WorkerStep(s: State): State {
    match s.w
    case WStart => s.(mtx := Worker, w := WTop)
    case WTop =>
      if s.state.Sleeping? then s.(mtx := Nobody, w := WWait)
      else if s.state.Suicide? then s.(w := WClose)
      else s.(w := WGrabbed, d := s.d.(work := s.d.addr))
    case WWait => s.(mtx := Worker, w := WTop)
    case WGrabbed => s.(mtx := Nobody, w := WResolving)
    case WResolving => s.(w := WRelock)
    case WRelock => s.(mtx := Worker, w := WAnswer)
    case WAnswer => s.(w := WSend, d := s.d.(sas := s.d.work))
    case WSend => s.(w := WBack, d := s.d.(wake := s.d.wake + 1))
    case WBack => s.(state := if !s.state.Suicide? then Sleeping else Suicide, w := WTop)
    case WClose => s.(w := WUnlock)
    case WUnlock => s.(mtx := Nobody, w := WDestroy)
    case WDestroy => s.(w := WFree)
    case WFree => s.(freed := true, w := WDone)
    case WDone => s
  }

  function MainStep(s: State, act: MainAct, ok: bool): State {
    match s.m
    case MIdle =>
      (match act
       case TimerFires => s.(m := RLock, d := s.d.(timer := false))
       case SocketReadable =>
         s.(m := CLock, d := s.d.(listening := false, wake := s.d.wake - (if s.d.wake > 0 then 1 else 0)))
       case Kill => s.(m := KLock, d := s.d.(timer := false))
       case GoesOn => s)
    case RLock => s.(mtx := Main, m := RHas)
    case RHas =>
      if s.state.HasWork? then s.(mtx := Nobody, m := MIdle)
      else if !ok then s.(mtx := Nobody, m := MFailed)
      else s.(state := HasWork, mtx := Nobody, m := MIdle,
              d := s.d.(addr := s.d.accepted + 1, addrLive := true, accepted := s.d.accepted + 1, listening := true))
    case CLock => s.(mtx := Main, m := CHas)
    case CHas => s.(mtx := Nobody, m := CCall, d := s.d.(addrLive := false, result := s.d.sas))
    case CCall =>
      if ok then s.(m := MIdle, d := s.d.(answered := s.d.answered + 1, timer := true)) else s.(m := MFailed)
    case KLock => s.(mtx := Main, m := KHas)
    case KHas => s.(state := Suicide, mtx := Nobody, m := if s.state.Sleeping? then KJoin else MDone)
    case KJoin => s.(m := MDone)
    case MDone => s
    case MFailed => s
  }

  function Step(s: State, c: Choice): State {
    match c
    case WorkerRuns => WorkerStep(s)
    case MainRuns(act, ok) => MainStep(s, act, ok)
  }

  predicate WorkerHolds(w: WorkerPc) {
    w.WTop? || w.WGrabbed? || w.WAnswer? || w.WSend? || w.WBack? || w.WClose? || w.WUnlock?
  }

  predicate MainHolds(m: MainPc) {
    m.RHas? || m.CHas? || m.KHas?
  }

  /** The worker is on its way out. */
  predicate Leaving(w: WorkerPc) {
    w.WClose? || w.WUnlock? || w.WDestroy? || w.WFree? || w.WDone?
  }

  /** The worker has taken the work and not yet announced the result. */
  predicate Working(w: WorkerPc) {
    w.WGrabbed? || w.WResolving? || w.WRelock? || w.WAnswer? || w.WSend?
  }

  /** The main thread is in its event loop or has been told to kill the worker. */
  predicate Idling(m: MainPc) {
    m.MIdle? || m.KLock? || m.KHas? || m.MDone?
  }

  /** The main thread is about to make a request. */
  predicate Asking(m: MainPc) {
    m.RLock? || m.RHas?
  }

  predicate Killed(m: MainPc) {
    m.KJoin? || m.MDone?
  }

  /** The mutex is held by the thread that is between taking and releasing it. */
  ghost predicate Owned(mtx: Holder, w: WorkerPc, m: MainPc) {
    (mtx.Worker? <==> WorkerHolds(w)) && (mtx.Main? <==> MainHolds(m))
  }

  /** The worker leaves only after it has been killed, and frees the structure last. */
  ghost predicate Ends(state: ThreadState, freed: bool, w: WorkerPc, m: MainPc) {
    (freed <==> w.WDone?) && (Leaving(w) ==> state.Suicide?) && (state.Suicide? <==> Killed(m))
  }

  ghost predicate MutexInv(s: State) {
    Owned(s.mtx, s.w, s.m) && Ends(s.state, s.freed, s.w, s.m)
  }

  /** No request is outstanding. */
  ghost predicate Quiet(s: State) {
    && s.d.accepted == s.d.answered && s.d.wake == 0 && !s.d.listening && !s.d.addrLive && !s.state.HasWork?
    && !Working(s.w) && !s.w.WBack?
    && (s.m.MIdle? <==> s.d.timer) && (Asking(s.m) || Idling(s.m) || s.m.KJoin?)
  }

  /** The worker has the request and has not announced its result. */
  ghost predicate Requested(s: State) {
    && s.d.accepted == s.d.answered + 1 && s.d.wake == 0 && s.d.listening && s.d.addrLive && s.d.addr == s.d.accepted
    && !s.state.Sleeping? && !s.w.WBack?
    && (Working(s.w) ==> s.d.work == s.d.addr) && (s.w.WSend? ==> s.d.sas == s.d.addr)
    && Idling(s.m) && !s.d.timer
  }

  /** The result has been announced and the main thread has not heard of it. */
  ghost predicate Announced(s: State) {
    && s.d.accepted == s.d.answered + 1 && s.d.wake == 1 && s.d.listening && s.d.addrLive && s.d.sas == s.d.accepted
    && (if s.w.WBack? then !s.state.Sleeping? else !s.state.HasWork?)
    && !Working(s.w) && !s.w.WStart?
    && (Idling(s.m) || s.m.KJoin?) && !s.d.timer
  }

  /** The main thread has heard of the result: it takes it, or has taken it. */
  ghost predicate Heard(s: State) {
    && s.d.accepted == s.d.answered + 1 && s.d.wake == 0 && !s.d.listening && s.d.sas == s.d.accepted && !s.d.timer
    && !Working(s.w) && !s.w.WStart? && (if s.w.WBack? then s.state.HasWork? else s.state.Sleeping?)
    && (s.m.CLock? || s.m.CHas? || s.m.CCall?) && (s.d.addrLive <==> !s.m.CCall?)
    && (!s.m.CLock? ==> s.state.Sleeping?) && (s.m.CCall? ==> s.d.result == s.d.accepted)
  }

  ghost predicate Inv(s: State) {
    s.m.MFailed? || (MutexInv(s) && (Quiet(s) || Requested(s) || Announced(s) || Heard(s)))
  }

  lemma WorkerOwned(s: State)
    requires Owned(s.mtx, s.w, s.m) && Enabled(s, WorkerRuns)
    ensures var s' := WorkerStep(s); Owned(s'.mtx, s'.w, s'.m)
  {
  }

  lemma WorkerEnds(s: State)
    requires Ends(s.state, s.freed, s.w, s.m)
    ensures var s' := WorkerStep(s); Ends(s'.state, s'.freed, s'.w, s'.m)
  {
  }

  lemma MainOwned(s: State, act: MainAct, ok: bool)
    requires Owned(s.mtx, s.w, s.m) && Enabled(s, MainRuns(act, ok))
    ensures var s' := MainStep(s, act, ok); Owned(s'.mtx, s'.w, s'.m)
  {
  }

  lemma MainEnds(s: State, act: MainAct, ok: bool)
    requires Ends(s.state, s.freed, s.w, s.m) && !MainStep(s, act, ok).m.MFailed?
    ensures var s' := MainStep(s, act, ok); Ends(s'.state, s'.freed, s'.w, s'.m)
  {
  }

  lemma QuietStep(s: State, c: Choice)
    requires MutexInv(s) && Quiet(s) && Enabled(s, c)
    ensures var s' := Step(s, c); s'.m.MFailed? || Quiet(s') || Requested(s')
  {
  }

  lemma RequestedStep(s: State, c: Choice)
    requires MutexInv(s) && Requested(s) && Enabled(s, c)
    ensures var s' := Step(s, c); Requested(s') || Announced(s')
  {
  }

  lemma AnnouncedStep(s: State, c: Choice)
    requires MutexInv(s) && Announced(s) && Enabled(s, c)
    ensures var s' := Step(s, c); Announced(s') || Heard(s')
  {
  }

  lemma HeardStep(s: State, c: Choice)
    requires MutexInv(s) && Heard(s) && Enabled(s, c)
    ensures var s' := Step(s, c); s'.m.MFailed? || Heard(s') || Quiet(s')
  {
  }

  lemma StepKeeps(s: State, c: Choice)
    requires Inv(s) && !s.m.MFailed? && Enabled(s, c)
    ensures Inv(Step(s, c))
  {
    if !Step(s, c).m.MFailed? {
      match c {
        case WorkerRuns => WorkerOwned(s); WorkerEnds(s);
        case MainRuns(act, ok) => MainOwned(s, act, ok); MainEnds(s, act, ok);
      }
      if Quiet(s) {
        QuietStep(s, c);
      } else if Requested(s) {
        RequestedStep(s, c);
      } else if Announced(s) {
        AnnouncedStep(s, c);
      } else {
        HeardStep(s, c);
      }
    }
  }

  /** The states of the two threads from the spawning of the worker on, in any interleaving. */
  ghost predicate IsRun(ss: seq<State>, cs: seq<Choice>) {
    && |ss| == |cs| + 1 && ss[0] == Spawn()
    && forall i :: 0 <= i < |cs| ==> !ss[i].m.MFailed? && Enabled(ss[i], cs[i]) && ss[i + 1] == Step(ss[i], cs[i])
  }

  lemma {:induction false} RunKeeps(ss: seq<State>, cs: seq<Choice>, n: nat)
    requires IsRun(ss, cs) && n < |ss|
    ensures Inv(ss[n])
  {
    if n > 0 {
      RunKeeps(ss, cs, n - 1);
      StepKeeps(ss[n - 1], cs[n - 1]);
    }
  }

  /** Each accepted request is answered at most once, before the next one is accepted, and with its own result. */
  lemma AnsweredAtMostOnce(ss: seq<State>, cs: seq<Choice>, n: nat)
    requires IsRun(ss, cs) && n < |ss| && !ss[n].m.MFailed?
    ensures ss[n].d.answered <= ss[n].d.accepted <= ss[n].d.answered + 1
    ensures ss[n].m.RHas? ==> ss[n].d.accepted == ss[n].d.answered
    ensures ss[n].m.CCall? ==> ss[n].d.accepted == ss[n].d.answered + 1 && ss[n].d.result == ss[n].d.accepted
  {
    RunKeeps(ss, cs, n);
  }

  /**
    When the callback holds the mutex the worker is asleep, and so it is when the next request is
    made: it is never refused.
   */
  lemma NeverBusy(ss: seq<State>, cs: seq<Choice>, n: nat)
    requires IsRun(ss, cs) && n < |ss| && (ss[n].m.CHas? || ss[n].m.CCall? || ss[n].m.RHas?)
    ensures ss[n].state.Sleeping?
  {
    RunKeeps(ss, cs, n);
  }

  /** The steps that read or write the structure which the threads share. */
  predicate Touches(s: State, c: Choice) {
    match c
    case WorkerRuns => !s.w.WResolving? && !s.w.WDone?
    case MainRuns(act, _) => UsesMutex(s, c) || UsesSockets(s, c)
  }

  /** The steps that lock, unlock, wait with or destroy the mutex. */
  predicate UsesMutex(s: State, c: Choice) {
    match c
    case WorkerRuns =>
      || s.w.WStart? || (s.w.WTop? && s.state.Sleeping?) || s.w.WWait? || s.w.WGrabbed?
      || s.w.WRelock? || s.w.WUnlock? || s.w.WDestroy?
    case MainRuns(_, _) => s.m.RLock? || s.m.RHas? || s.m.CLock? || s.m.CHas? || s.m.KLock? || s.m.KHas?
  }

  /** The steps that write to, read from or close the wakeup sockets. */
  predicate UsesSockets(s: State, c: Choice) {
    match c
    case WorkerRuns => s.w.WSend? || s.w.WClose?
    case MainRuns(act, _) => s.m.MIdle? && act.SocketReadable?
  }

  predicate MutexDestroyed(w: WorkerPc) {
    w.WFree? || w.WDone?
  }

  predicate SocketsClosed(w: WorkerPc) {
    w.WUnlock? || w.WDestroy? || MutexDestroyed(w)
  }

  /**
    No step of either thread touches the structure once it has been freed, the mutex once it has been
    destroyed or the wakeup sockets once they have been closed.
   */
  lemma NotTouchedAfterFree(ss: seq<State>, cs: seq<Choice>, n: nat)
    requires IsRun(ss, cs) && n < |cs|
    ensures Touches(ss[n], cs[n]) ==> !ss[n].freed
    ensures UsesMutex(ss[n], cs[n]) ==> !MutexDestroyed(ss[n].w)
    ensures UsesSockets(ss[n], cs[n]) ==> !SocketsClosed(ss[n].w)
  {
    RunKeeps(ss, cs, n);
  }

  /** The address is there while the worker uses it, and the threads are never both inside the mutex. */
  lemma NeverBothInside(ss: seq<State>, cs: seq<Choice>, n: nat)
    requires IsRun(ss, cs) && n < |ss| && !ss[n].m.MFailed?
    ensures Working(ss[n].w) ==> ss[n].d.addrLive
    ensures !(WorkerHolds(ss[n].w) && MainHolds(ss[n].m))
  {
    RunKeeps(ss, cs, n);
  }

  /** What is left behind: the wakeup socket is still listened to exactly if a request had not been answered. */
  lemma LeftListening(ss: seq<State>, cs: seq<Choice>, n: nat)
    requires IsRun(ss, cs) && n < |ss| && ss[n].m.MDone?
    ensures ss[n].d.listening <==> ss[n].d.accepted > ss[n].d.answered
  {
    RunKeeps(ss, cs, n);
  }
}
