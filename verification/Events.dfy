/**
  The event loop (`libcperciva/events/events.c`) as a step system.  A step is one test or one call of
  the source; its outcome, the effects of a callback and the arrival of signals are chosen by the
  environment.  What the queues may answer is said by one predicate for each of them; `EventQueues` shows
  that the queues answer so.
 */
module Events {
  import opened Bytes
  import opened EventsImmediate
  import opened TimerQueue

  /** A descriptor and an operation on it. */
  datatype Key = Key(fd: nat, write: bool)

  datatype Timer = Timer(id: nat, deadline: Timeval)

  datatype Event = OfImmediate(q: Node) | OfNetwork(key: Key) | OfTimer(t: Timer)

  /**
    What has happened: an event was run with these immediate events queued, with or without an
    interrupt requested, and its callback returned `rc`; or the descriptors were polled.  The operating
    system had `pending` for them.  A poll that completes takes that over as what is `ready`; one that
    a signal interrupts leaves what was ready before.
   */
  datatype Entry =
    | Ran(event: Event, queued: seq<Node>, interrupted: bool, rc: int)
    | Polled(zero: bool, pending: set<Key>, ready: set<Key>)

  datatype Pc =
    | SpinTop | Enter | Drain | TimerMin | Wait | Top | TryNet | Poll | TryNetAgain | TryTimer | Returned | Stopped

  /** The queues, the time that was last looked at, and the two flags. */
  datatype World = World(imm: seq<Node>, ready: set<Key>, timers: set<Timer>, clock: Timeval, interrupt: bool,
                         done: bool)

  datatype State = State(pc: Pc, rc: int, ran: bool, w: World, log: seq<Entry>)

  /** The environment's choices for a step; a callback leaves behind any queues `after` and returns `rc`. */
  datatype Choice = Choice(signal: bool, fail: bool, completed: bool, pending: set<Key>, first: nat,
                           net: Option<Key>, timer: Option<Timer>, now: Timeval, after: World, rc: int)

  predicate Due(timers: set<Timer>, t: Timer, now: Timeval) {
    t in timers && Tvcmp(t.deadline, now) <= 0 && forall u :: u in timers ==> Tvcmp(t.deadline, u.deadline) <= 0
  }

  /** An immediate event that comes out goes first. */
  ghost predicate ImmediateAnswers(imm: seq<Node>, first: nat) {
    imm != [] ==> GoesFirst(imm, first)
  }

  /**
    A network event that comes out is ready, and directly after a poll (`polled`) none comes out only
    if none is ready.
   */
  predicate NetworkAnswers(ready: set<Key>, net: Option<Key>, polled: bool) {
    (net.Some? ==> net.value in ready) && (net.None? && polled ==> ready == {})
  }

  /** A timer that comes out is due and goes before every other, and none comes out only if none is due. */
  ghost predicate TimerAnswers(timers: set<Timer>, timer: Option<Timer>, now: Timeval) {
    && (timer.Some? ==> Due(timers, timer.value, now))
    && (timer.None? ==> forall t :: t in timers ==> Tvcmp(t.deadline, now) > 0)
  }

  /** What the queues and the operating system may answer in a state. */
  ghost predicate Legal(s: State, c: Choice) {
    LegalPoll(s, c) && ImmediateAnswers(s.w.imm, c.first) && TimerAnswers(s.w.timers, c.timer, c.now)
  }

  /** Only an interrupt keeps a poll from completing. */
  ghost predicate LegalPoll(s: State, c: Choice) {
    && (s.w.imm != [] ==> c.first < |s.w.imm|)
    && (!c.completed ==> s.w.interrupt)
    && NetworkAnswers(s.w.ready, c.net, s.pc == TryNetAgain)
  }

  function Return(s: State, rc: int): State {
    s.(pc := Returned, rc := rc)
  }

  /** `doevent` */
  function Do(s: State, event: Event, c: Choice, next: Pc): State {
    State(if c.rc != 0 then Returned else next, c.rc, true, c.after, s.log + [Ran(event, s.w.imm, s.w.interrupt, c.rc)])
  }

  /** `events_network_select` */
  function Select(s: State, zero: bool, c: Choice, next: Pc): State {
    if c.fail then Return(s, -1) else
      var ready := if c.completed then c.pending else s.w.ready;
      s.(pc := next, w := s.w.(ready := ready), log := s.log + [Polled(zero, c.pending, ready)])
  }

  function Signalled(s: State, signal: bool): State {
    if signal then s.(w := s.w.(interrupt := true)) else s
  }

  /** One step of `events_spin` and of `events_run_internal`, which it calls. */
  function Step(s: State, c: Choice): State
    requires s.w.imm != [] ==> c.first < |s.w.imm|
  {
    Act(Signalled(s, c.signal), c)
  }

  function Act(s: State, c: Choice): State
    requires s.w.imm != [] ==> c.first < |s.w.imm|
  {
    match s.pc
    case SpinTop =>
      if !s.w.done && s.rc == 0 && !s.w.interrupt then s.(pc := Enter, ran := false)
      else s.(pc := Stopped, w := s.w.(interrupt := false))
    case Enter =>
      if s.w.imm != [] then Do(s, OfImmediate(s.w.imm[c.first]), c, Drain) else s.(pc := TimerMin)
    case Drain =>
      if s.w.interrupt || s.w.imm == [] then Return(s, 0) else Do(s, OfImmediate(s.w.imm[c.first]), c, Drain)
    case TimerMin => if c.fail then Return(s, -1) else s.(pc := Wait)
    case Wait => Select(s, false, c, Top)
    case Top =>
      if s.w.interrupt then Return(s, 0)
      else if s.w.imm != [] then Do(s, OfImmediate(s.w.imm[c.first]), c, Top)
      else s.(pc := TryNet)
    case TryNet => if c.net.Some? then Do(s, OfNetwork(c.net.value), c, Top) else s.(pc := Poll)
    case Poll => Select(s, true, c, TryNetAgain)
    case TryNetAgain => if c.net.Some? then Do(s, OfNetwork(c.net.value), c, Top) else s.(pc := TryTimer)
    case TryTimer =>
      if c.fail then Return(s, -1)
      else if c.timer.Some? then Do(s, OfTimer(c.timer.value), c, Top)
      else Return(s.(w := s.w.(clock := c.now)), 0)
    case Returned => s.(pc := SpinTop)
    case Stopped => s
  }

  /** The states of a run: each follows from the one before it by a step that the environment may choose. */
  ghost predicate IsRun(ss: seq<State>, cs: seq<Choice>) {
    && |ss| == |cs| + 1
    && Start(ss[0])
    && forall i :: 0 <= i < |cs| ==> Legal(Signalled(ss[i], cs[i].signal), cs[i]) && ss[i + 1] == Step(ss[i], cs[i])
  }

  predicate Start(s: State) {
    s.pc == SpinTop && s.rc == 0 && s.log == []
  }

  predicate NothingReady(e: Entry) {
    e.Polled? && e.zero && e.ready == {}
  }

  /** Entry `i` of a log is where the loop may put it. */
  ghost predicate InPlace(log: seq<Entry>, i: nat)
    requires i < |log|
  {
    match log[i]
    case Ran(OfImmediate(q), queued, _, _) => exists k :: 0 <= k < |queued| && queued[k] == q && GoesFirst(queued, k)
    case Ran(OfNetwork(_), queued, _, _) => queued == []
    case Ran(OfTimer(_), queued, interrupted, _) =>
      queued == [] && i > 0 && NothingReady(log[i - 1]) && (log[i - 1].pending == {} || interrupted)
    case Polled(_, _, _) => true
  }

  predicate Failed(e: Entry) {
    e.Ran? && e.rc != 0
  }

  predicate Outside(pc: Pc) {
    pc.Returned? || pc.SpinTop? || pc.Stopped?
  }

  /** No event is run after one whose callback returned non-zero, and that value is what is returned. */
  ghost predicate StopsAtFailure(s: State) {
    && (forall i :: 0 <= i < |s.log| - 1 ==> !Failed(s.log[i]))
    && (!Outside(s.pc) ==> s.rc == 0)
    && (s.log != [] ==> var last := s.log[|s.log| - 1];
          && (Failed(last) ==> Outside(s.pc) && s.rc == last.rc)
          && (s.rc != 0 && s.rc != -1 ==> Failed(last)))
    && (s.log == [] ==> s.rc == 0 || s.rc == -1)
  }

  ghost predicate PollIsFresh(s: State) {
    s.log != [] && var last := s.log[|s.log| - 1];
      last.Polled? && last.zero && last.ready == s.w.ready && (last.pending == last.ready || s.w.interrupt)
  }

  ghost predicate Inv(s: State) {
    && Placed(s) && StopsAtFailure(s) && Ordered(s.log)
    && (s.pc == Returned && s.rc == 0 && !s.ran && !s.w.interrupt ==> Idle(s.w))
  }

  /** What each place in the loop may rely on. */
  ghost predicate Placed(s: State) {
    match s.pc
    case Drain => s.ran
    case TimerMin => s.w.imm == []
    case Wait => s.w.imm == []
    case TryNet => s.w.imm == []
    case Poll => s.w.imm == []
    case TryNetAgain => s.w.imm == [] && PollIsFresh(s)
    case TryTimer => s.w.imm == [] && PollIsFresh(s) && s.w.ready == {}
    case _ => true
  }

  ghost predicate Ordered(log: seq<Entry>) {
    forall i :: 0 <= i < |log| ==> InPlace(log, i)
  }

  /** There is nothing that could be run. */
  ghost predicate Idle(w: World) {
    w.imm == [] && w.ready == {} && forall t :: t in w.timers ==> Tvcmp(t.deadline, w.clock) > 0
  }

  lemma LogSnoc(log: seq<Entry>, e: Entry)
    requires Ordered(log) && InPlace(log + [e], |log|)
    ensures Ordered(log + [e])
  {
    forall i | 0 <= i < |log|
      ensures InPlace(log + [e], i)
    {
      assert InPlace(log, i);
    }
  }

  lemma ActPlaced(s: State, c: Choice)
    requires Placed(s) && LegalPoll(s, c)
    ensures Placed(Act(s, c))
  {
  }

  lemma ActIdle(s: State, c: Choice)
    requires Placed(s) && s.pc != Returned && Legal(s, c)
    ensures var s' := Act(s, c); s'.pc == Returned && s'.rc == 0 && !s'.ran && !s'.w.interrupt ==> Idle(s'.w)
  {
  }

  lemma DoStops(s: State, event: Event, c: Choice, next: Pc)
    requires StopsAtFailure(s) && !Outside(s.pc) && !Outside(next)
    ensures StopsAtFailure(Do(s, event, c, next))
  {
    assert forall i :: 0 <= i < |s.log| ==> !Failed(s.log[i]);
  }

  lemma SelectStops(s: State, zero: bool, c: Choice, next: Pc)
    requires StopsAtFailure(s) && !Outside(s.pc) && !Outside(next)
    ensures StopsAtFailure(Select(s, zero, c, next))
  {
    assert forall i :: 0 <= i < |s.log| ==> !Failed(s.log[i]);
  }

  lemma ActStops(s: State, c: Choice)
    requires StopsAtFailure(s) && LegalPoll(s, c)
    ensures StopsAtFailure(Act(s, c))
  {
    match s.pc
    case Enter => if s.w.imm != [] { DoStops(s, OfImmediate(s.w.imm[c.first]), c, Drain); }
    case Drain => if s.w.imm != [] { DoStops(s, OfImmediate(s.w.imm[c.first]), c, Drain); }
    case Wait => SelectStops(s, false, c, Top);
    case Top => if s.w.imm != [] { DoStops(s, OfImmediate(s.w.imm[c.first]), c, Top); }
    case TryNet => if c.net.Some? { DoStops(s, OfNetwork(c.net.value), c, Top); }
    case Poll => SelectStops(s, true, c, TryNetAgain);
    case TryNetAgain => if c.net.Some? { DoStops(s, OfNetwork(c.net.value), c, Top); }
    case TryTimer => if c.timer.Some? { DoStops(s, OfTimer(c.timer.value), c, Top); }
    case _ =>
  }

  lemma ActOrdered(s: State, c: Choice)
    requires Placed(s) && Ordered(s.log) && Legal(s, c)
    ensures Ordered(Act(s, c).log)
  {
    var s' := Act(s, c);
    if s'.log != s.log {
      LogSnoc(s.log, s'.log[|s.log|]);
    }
  }

  lemma ActKeeps(s: State, c: Choice)
    requires Inv(s) && Legal(s, c)
    ensures Inv(Act(s, c))
  {
    ActPlaced(s, c);
    ActStops(s, c);
    ActOrdered(s, c);
    if s.pc != Returned {
      ActIdle(s, c);
    }
  }

  lemma StepKeeps(s: State, c: Choice)
    requires Inv(s) && Legal(Signalled(s, c.signal), c)
    ensures Inv(Step(s, c))
  {
    ActKeeps(Signalled(s, c.signal), c);
  }

  /** Every state of every run. */
  lemma {:induction false} RunKeeps(ss: seq<State>, cs: seq<Choice>, n: nat)
    requires IsRun(ss, cs) && n < |ss|
    ensures Inv(ss[n])
  {
    if n > 0 {
      RunKeeps(ss, cs, n - 1);
      StepKeeps(ss[n - 1], cs[n - 1]);
    }
  }

  /**
    In every run, an immediate event is run in its turn, a network event only with no immediate event
    queued, and a timer event only with none queued and directly after a poll that did not wait and
    found nothing ready; nothing was, unless an interrupt had been requested.
   */
  lemma NeverOutOfTurn(ss: seq<State>, cs: seq<Choice>, n: nat, i: nat)
    requires IsRun(ss, cs) && n < |ss| && i < |ss[n].log| && ss[n].log[i].Ran?
    ensures var e := ss[n].log[i];
      && (e.event.OfImmediate? ==>
            exists k :: 0 <= k < |e.queued| && e.queued[k] == e.event.q && GoesFirst(e.queued, k))
      && (!e.event.OfImmediate? ==> e.queued == [])
      && (e.event.OfTimer? ==>
            i > 0 && NothingReady(ss[n].log[i - 1]) && (ss[n].log[i - 1].pending == {} || e.interrupted))
  {
    RunKeeps(ss, cs, n);
    assert InPlace(ss[n].log, i);
  }

  /** A call that returns zero without an interrupt has run an event unless there was none to run. */
  lemma RunsWhatIsRunnable(ss: seq<State>, cs: seq<Choice>, n: nat)
    requires IsRun(ss, cs) && n < |ss| && ss[n].pc == Returned && ss[n].rc == 0 && !ss[n].w.interrupt
    ensures ss[n].ran || Idle(ss[n].w)
  {
    RunKeeps(ss, cs, n);
  }

  /**
    A callback's non-zero result ends the run and is returned; otherwise there was an error, or
    nothing is left to do.
   */
  lemma SpinResult(ss: seq<State>, cs: seq<Choice>, n: nat)
    requires IsRun(ss, cs) && n < |cs| && ss[n].pc == SpinTop && ss[n + 1].pc == Stopped
    ensures ss[n + 1].rc == 0 ==> ss[n].w.done || ss[n].w.interrupt || cs[n].signal
    ensures forall i :: 0 <= i < |ss[n].log| && Failed(ss[n].log[i]) ==>
      i == |ss[n].log| - 1 && ss[n + 1].rc == ss[n].log[i].rc
    ensures ss[n + 1].rc in {0, -1} || exists i :: 0 <= i < |ss[n].log| && Failed(ss[n].log[i])
  {
    RunKeeps(ss, cs, n);
  }

  /** A run goes on with a legal choice. */
  lemma Snoc(ss: seq<State>, cs: seq<Choice>, c: Choice, s: State) returns (ss': seq<State>, cs': seq<Choice>)
    requires IsRun(ss, cs) && s == ss[|cs|] && Legal(Signalled(s, c.signal), c)
    ensures IsRun(ss', cs') && cs' == cs + [c] && ss'[|cs'|] == Step(s, c)
  {
    ss', cs' := ss + [Step(s, c)], cs + [c];
  }

  const ZERO: Timeval := Timeval(0, 0)

  /** Quiet outcomes: nothing is ready and no callback is run. */
  function Quiet(w: World): Choice {
    Choice(false, false, true, {}, 0, None, None, ZERO, w, 0)
  }

  lemma {:induction false} QuietRun(s: State, n: nat) returns (ss: seq<State>, cs: seq<Choice>)
    requires Start(s) && s.w.imm == [] && s.w.ready == {} && !s.w.done && !s.w.interrupt
    requires forall t :: t in s.w.timers ==> Tvcmp(t.deadline, ZERO) > 0
    requires n <= 6
    ensures IsRun(ss, cs) && |cs| == n
    ensures ss[n] == s.(pc := [SpinTop, Enter, TimerMin, Wait, Top, TryNet, Poll][n], ran := s.ran && n == 0,
                        log := if n < 4 then [] else [Polled(false, {}, {})])
  {
    if n == 0 {
      return [s], [];
    }
    ss, cs := QuietRun(s, n - 1);
    ss, cs := Snoc(ss, cs, Quiet(s.w), ss[n - 1]);
  }

  /** A signal arrives while the descriptors are polled, of which one is ready. */
  function Cut(w: World): Choice {
    Quiet(w).(signal := true, completed := false, pending := {Key(0, false)})
  }

  function Tick(w: World, t: Timer): Choice {
    Quiet(w).(timer := Some(t), now := t.deadline)
  }

  lemma CutPoll(w: World, t: Timer, log: seq<Entry>)
    requires w == World([], {}, {t}, ZERO, true, false) && Tvcmp(t.deadline, ZERO) > 0
    ensures var s := State(Poll, 0, false, w.(interrupt := false), log);
      && Legal(Signalled(s, true), Cut(w))
      && Step(s, Cut(w)) == State(TryNetAgain, 0, false, w, log + [Polled(true, {Key(0, false)}, {})])
  {
  }

  lemma StillNothing(w: World, t: Timer, log: seq<Entry>)
    requires w == World([], {}, {t}, ZERO, true, false) && Tvcmp(t.deadline, ZERO) > 0
    ensures var s := State(TryNetAgain, 0, false, w, log);
      Legal(Signalled(s, false), Quiet(w)) && Step(s, Quiet(w)) == State(TryTimer, 0, false, w, log)
  {
  }

  lemma TimerTicks(w: World, t: Timer, log: seq<Entry>)
    requires w == World([], {}, {t}, ZERO, true, false)
    ensures var s := State(TryTimer, 0, false, w, log);
      Legal(Signalled(s, false), Tick(w, t)) && Step(s, Tick(w, t)).log == log + [Ran(OfTimer(t), [], true, 0)]
  {
  }

  /**
    Without that exception it would be false: a timer event is run after a poll which a signal cut
    short, although the operating system had a descriptor ready.
   */
  lemma TimerAfterInterruptedPoll(t: Timer) returns (ss: seq<State>, cs: seq<Choice>)
    requires Tvcmp(t.deadline, ZERO) > 0
    ensures IsRun(ss, cs) && |cs| == 9
    ensures ss[9].log == [Polled(false, {}, {})] + [Polled(true, {Key(0, false)}, {})] + [Ran(OfTimer(t), [], true, 0)]
  {
    var w := World([], {}, {t}, ZERO, true, false);
    var log := [Polled(false, {}, {})];
    ss, cs := QuietRun(State(SpinTop, 0, false, w.(interrupt := false), []), 6);
    CutPoll(w, t, log);
    ss, cs := Snoc(ss, cs, Cut(w), ss[6]);
    log := log + [Polled(true, {Key(0, false)}, {})];
    StillNothing(w, t, log);
    ss, cs := Snoc(ss, cs, Quiet(w), ss[7]);
    TimerTicks(w, t, log);
    ss, cs := Snoc(ss, cs, Tick(w, t), ss[8]);
  }
}
