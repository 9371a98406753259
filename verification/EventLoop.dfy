/** Timeout arithmetic of libs/libeventhandler/src/event_handler_utils.h and of the two waiters. */
module Timeouts {
  import opened EventLists

  const NANOSECONDS_PER_ONE_MILLISECOND: int := 1_000_000
  const INT32_MAX: int := 0x7FFF_FFFF
  const INFINITE_TIMEOUT: int := -1
  const ONE_YEAR: int := 24 * 365 * 3600 * 1_000_000_000

  /** Steady-clock readings are never negative. */
  type Clock = t: Time | 0 <= t witness 0

  function TimePointToTimeOut(when: Time, now: Clock): (nanoseconds: nat) {
    if when <= now then 0 else when - now
  }

  function NanosecondsToTimeout(nanoseconds: int): (milliseconds: int) {
    if nanoseconds < 0 then INFINITE_TIMEOUT
    else
      var whole := nanoseconds / NANOSECONDS_PER_ONE_MILLISECOND;
      var rounded := if nanoseconds % NANOSECONDS_PER_ONE_MILLISECOND > 0 then whole + 1 else whole;
      if rounded > INT32_MAX then INT32_MAX else rounded
  }

  /** `epoll_wait` counts milliseconds. */
  function EpollSleep(nanoseconds: nat): (length: nat)
    ensures length < nanoseconds + NANOSECONDS_PER_ONE_MILLISECOND && length % NANOSECONDS_PER_ONE_MILLISECOND == 0
    ensures if nanoseconds <= INT32_MAX * NANOSECONDS_PER_ONE_MILLISECOND then nanoseconds <= length
            else length == INT32_MAX * NANOSECONDS_PER_ONE_MILLISECOND
  {
    NanosecondsToTimeout(nanoseconds) * NANOSECONDS_PER_ONE_MILLISECOND
  }

  /** The condition-variable waiter caps its wait. */
  function ConditionSleep(nanoseconds: nat): (length: nat)
    ensures length <= nanoseconds && length <= ONE_YEAR
    ensures length == nanoseconds || length == ONE_YEAR
  {
    if nanoseconds > ONE_YEAR then ONE_YEAR else nanoseconds
  }
}

/**
 The event loop as a state machine: one runner thread, any number of senders, the destructor of
 the runner's owner, and both kinds of waiter. Regions under `queueLock_` are atomic steps, except
 that a sender may pause, still holding the lock, between reading `waitingCount_` and writing to the
 event descriptor.
 */
module EventLoop {
  import opened Basics
  import opened EventLists
  import opened EventQueues
  import opened Timeouts

  datatype Kind = Condition | Epoll

  /**
   `notified`: the thread blocked on the condition variable has been signalled.
   `counter` and `edge`: the event descriptor's value and its edge not yet reported by `epoll_wait`.
   `registered`: the descriptors added to epoll.
   */
  datatype Waiter = Waiter(kind: Kind, waiting: nat, notified: bool, counter: nat, edge: bool, registered: set<int>)

  /** A sleep: the waiter held, the clock reading the timeout was computed from, its length, and the wake-up time. */
  datatype Nap = Nap(waiter: nat, asked: Clock, length: nat, goal: Time)

  datatype Runner =
    | NotStarted                                 // thread created, `Run` not entered
    | Prepared                                   // after `Prepare`, before the owner check
    | Looping                                    // about to enter `GetEvent`'s loop body
    | Dispatching                                // running a handler
    | Waiting(nap: Nap, since: Clock)            // blocked on the condition variable
    | Entering(nap: Nap)                         // lock released, `epoll_wait` not yet called
    | Polling(nap: Nap, since: Clock)            // inside `epoll_wait`
    | Returned(nap: Nap, drain: bool, failed: bool)  // `waitingCount_` still counts this thread
    | Counted(nap: Nap, drain: bool, failed: bool)   // `waitingCount_` lowered, pipe not drained
    | Relocking(failed: bool)
    | Done

  datatype Owner = Alive | Expired | Stopped

  datatype State = State(queue: QueueState, waiters: seq<Waiter>, listeners: set<int>, runner: Runner,
                         writer: Option<nat>, owner: Owner, clock: Clock)

  /** The current waiter is the newest one. */
  function Current(s: State): nat
    requires s.waiters != []
  {
    |s.waiters| - 1
  }

  function Fresh(kind: Kind): Waiter { Waiter(kind, 0, false, 0, false, {}) }

  ghost predicate Init(s: State) {
    && (exists now :: s.queue == Initial(now))
    && s.waiters == [Fresh(Condition)] && s.listeners == {}
    && s.runner == NotStarted && s.writer == None && s.owner == Alive
  }

  // ---- Steps of the senders and of the owner ----

  /** `NotifyOne`/`NotifyAll` on the current waiter; for epoll the write is a step of its own. */
  function Notify(s: State): State
    requires s.waiters != []
  {
    var w := s.waiters[Current(s)];
    if w.waiting == 0 then s
    else if w.kind == Condition then s.(waiters := s.waiters[Current(s) := w.(notified := true)])
    else s.(writer := Some(Current(s)))
  }

  datatype Action =
    | Send(event: Event, priority: Priority)
    | Withdraw(filter: Event -> bool)
    | Steal                                     // `GetExpiredEvent` called by another thread
    | Stop                                      // `Finish`, from the collector or `EventRunner::Stop`
    | Write                                     // the pending write to the event descriptor
    | AddListener(fd: int, initialized: bool, added: bool)
    | RemoveListeners(fds: set<int>)
    | Pass(later: Clock)
    | Expire
    | Destruct                                  // `~EventRunner`: `Stop` after the owner expired
    // steps of the runner thread
    | Vanish | Prepare | CheckOwner
    | Loop(later: Clock)
    | Finished
    | WakeUp | Enter
    | Return(readable: bool, failed: bool, drain: bool)
    | Lower | Drain | Relock

  function WithListeningWaiter(s: State): State
    requires s.waiters != []
  {
    if s.waiters[Current(s)].kind == Epoll then s
    else
      var t := Notify(s);
      t.(waiters := t.waiters + [Fresh(Epoll)])
  }

  function AfterAdd(s: State, fd: int, initialized: bool, added: bool): State
    requires s.waiters != []
  {
    if fd < 0 || fd in s.listeners then s
    else if s.waiters[Current(s)].kind == Condition && !initialized then s
    else
      var t := WithListeningWaiter(s);
      if !added then t
      else
        var w := t.waiters[Current(t)];
        t.(waiters := t.waiters[Current(t) := w.(registered := w.registered + {fd})],
           listeners := t.listeners + {fd})
  }

  function AfterRemoveListeners(s: State, fds: set<int>): State
    requires s.waiters != []
  {
    var w := s.waiters[Current(s)];
    s.(waiters := s.waiters[Current(s) := w.(registered := w.registered - (fds * s.listeners))],
       listeners := s.listeners - fds)
  }

  function AfterFinish(s: State): State
    requires s.waiters != []
  {
    Notify(s.(queue := s.queue.(finished := true)))
  }

  /** Every reachable state satisfies this much, so that the steps below are well-formed. */
  ghost predicate Shaped(s: State) {
    && WellFormed(s.queue) && s.waiters != []
    && (s.runner.Waiting? || s.runner.Entering? || s.runner.Polling? || s.runner.Returned? || s.runner.Counted?
        ==> s.runner.nap.waiter < |s.waiters|)
    && (s.writer.Some? ==> s.writer.value < |s.waiters|)
  }

  function Ready(w: Waiter): bool { w.counter > 0 && w.edge }

  /** The step of `GetEvent`: leave, hand out an event, or go to sleep on the current waiter. */
  function AfterLoop(s: State, later: Clock): State
    requires Shaped(s)
  {
    if s.queue.finished then s.(runner := Done)
    else
      var o := GetExpired(s.queue, s.clock);
      if o.event.Some? then s.(queue := o.state, runner := Dispatching)
      else
        var c, timeout := Current(s), TimePointToTimeOut(o.state.wakeUp, later);
        var w := s.waiters[c];
        var t := s.(queue := o.state, clock := later);
        if w.kind == Condition then
          t.(waiters := s.waiters[c := w.(waiting := w.waiting + 1, notified := false)],
             runner := Waiting(Nap(c, later, ConditionSleep(timeout), o.state.wakeUp), later))
        else
          t.(waiters := s.waiters[c := w.(waiting := w.waiting + 1)],
             runner := Entering(Nap(c, later, EpollSleep(timeout), o.state.wakeUp)))
  }

  function Leave(s: State, c: nat, r: Runner): State
    requires c < |s.waiters|
  {
    var w := s.waiters[c];
    s.(waiters := s.waiters[c := w.(waiting := if w.waiting > 0 then w.waiting - 1 else 0)], runner := r)
  }

  /** `t` follows `s` by action `a`. */
  ghost predicate Next(s: State, a: Action, t: State)
    requires Shaped(s)
  {
    match a
    case Send(e, p) =>
      s.writer == None &&
      t == (var u := s.(queue := Insert(s.queue, e, p)); if NeedNotify(s.queue, e, p) then Notify(u) else u)
    case Withdraw(f) => s.writer == None && t == s.(queue := EventQueues.Remove(s.queue, f))
    case Steal => s.writer == None && t == s.(queue := GetExpired(s.queue, s.clock).state)
    case Stop => s.writer == None && t == AfterFinish(s)
    case Write =>
      && s.writer.Some?
      && var w := s.waiters[s.writer.value];
         t == s.(writer := None, waiters := s.waiters[s.writer.value := w.(counter := w.counter + 1, edge := true)])
    case AddListener(fd, initialized, added) => s.writer == None && t == AfterAdd(s, fd, initialized, added)
    case RemoveListeners(fds) => s.writer == None && t == AfterRemoveListeners(s, fds)
    case Pass(later) => s.clock <= later && t == s.(clock := later)
    case Expire => s.owner == Alive && t == s.(owner := Expired)
    case Destruct => s.writer == None && s.owner == Expired && t == AfterFinish(s).(owner := Stopped)
    case Vanish => s.runner == NotStarted && s.owner == Stopped && t == s.(runner := Done)
    case Prepare =>
      s.writer == None && s.runner == NotStarted && t == s.(queue := s.queue.(finished := false), runner := Prepared)
    case CheckOwner => s.runner == Prepared && t == s.(runner := if s.owner == Alive then Looping else Done)
    case Loop(later) => s.writer == None && s.runner == Looping && s.clock <= later && t == AfterLoop(s, later)
    case Finished => s.runner == Dispatching && t == s.(runner := Looping)
    case WakeUp => s.writer == None && s.runner.Waiting? && t == Leave(s, s.runner.nap.waiter, Looping)
    case Enter => s.runner.Entering? && t == s.(runner := Polling(s.runner.nap, s.clock))
    case Return(readable, failed, drain) =>
      // at most eight descriptors are reported at a time, so a ready event descriptor may be left for later
      && s.runner.Polling?
      && var c := s.runner.nap.waiter;
         && (drain ==> !failed && Ready(s.waiters[c]))
         && (failed || readable || drain || s.runner.since + s.runner.nap.length <= s.clock)
         && t == s.(runner := Returned(s.runner.nap, drain, failed),
                    waiters := if drain then s.waiters[c := s.waiters[c].(edge := false)] else s.waiters)
    case Lower =>
      && s.runner.Returned?
      && t == Leave(s, s.runner.nap.waiter, Counted(s.runner.nap, s.runner.drain, s.runner.failed))
    case Drain =>
      && s.runner.Counted?
      && var c := s.runner.nap.waiter;
         t == s.(runner := Relocking(s.runner.failed),
                 waiters := if s.runner.drain then s.waiters[c := s.waiters[c].(counter := 0)] else s.waiters)
    case Relock =>
      && s.writer == None && s.runner.Relocking?
      && t == if s.runner.failed then s.(runner := Looping, waiters := s.waiters + [Fresh(Condition)], listeners := {})
              else s.(runner := Looping)
  }

  // ---- The invariant ----

  predicate Asleep(r: Runner) { r.Waiting? || r.Entering? || r.Polling? }

  /** A wake-up is on its way to the sleeping runner. */
  predicate WakePending(s: State)
    requires Asleep(s.runner) && s.runner.nap.waiter < |s.waiters|
  {
    var c := s.runner.nap.waiter;
    if s.runner.Waiting? then s.waiters[c].notified
    else Ready(s.waiters[c]) || s.writer == Some(c)
  }

  /** No timed event is to be handled before `t`. */
  ghost predicate NoneBefore(subs: seq<SubQueue>, t: Time) {
    forall i, x :: 0 <= i < |subs| && x in subs[i].queue ==> t <= x.handleTime
  }

  /** What an undisturbed sleeper relies on. */
  ghost predicate Covered(s: State)
    requires Asleep(s.runner) && Shaped(s)
  {
    && s.runner.nap.waiter == Current(s)
    && !s.queue.finished
    && s.runner.nap.goal <= s.queue.wakeUp
    && NoneBefore(s.queue.subs, s.runner.nap.goal)
  }

  ghost predicate NapFits(nap: Nap, kind: Kind) {
    var timeout := TimePointToTimeOut(nap.goal, nap.asked);
    nap.length == if kind == Condition then ConditionSleep(timeout) else EpollSleep(timeout)
  }

  /** The waiter kind each sleeping place belongs to, and who is counted as waiting. */
  ghost predicate WaitersMatch(s: State)
    requires Shaped(s)
  {
    && (s.runner.Waiting? ==>
          && s.waiters[s.runner.nap.waiter].kind == Condition && NapFits(s.runner.nap, Condition)
          && s.runner.since == s.runner.nap.asked)
    && (s.runner.Entering? || s.runner.Polling? || s.runner.Returned? || s.runner.Counted?
        ==> s.waiters[s.runner.nap.waiter].kind == Epoll && NapFits(s.runner.nap, Epoll))
    && (Asleep(s.runner) || s.runner.Returned? ==> s.waiters[s.runner.nap.waiter].waiting == 1)
    && (forall i :: 0 <= i < |s.waiters| ==>
          s.waiters[i].waiting == 0 || ((Asleep(s.runner) || s.runner.Returned?) && s.runner.nap.waiter == i))
  }

  /** The listener map and the descriptors registered with the current waiter are one. */
  ghost predicate ListenersMatch(s: State)
    requires s.waiters != []
  {
    && s.waiters[Current(s)].registered == s.listeners
    && (s.waiters[Current(s)].kind == Condition ==> s.listeners == {})
  }

  /** Once the owner's destructor has called `Finish`, only a runner that will still see the expiry may reset it. */
  ghost predicate StopKept(s: State) {
    s.owner == Stopped ==> s.queue.finished || s.runner == NotStarted || s.runner == Prepared || s.runner == Done
  }

  ghost predicate Inv(s: State) {
    && Shaped(s) && WaitersMatch(s) && ListenersMatch(s) && StopKept(s)
    && (Asleep(s.runner) ==> WakePending(s) || Covered(s))
  }

  // ---- Preservation ----

  lemma InitInv(s: State)
    requires Init(s)
    ensures Inv(s)
  {
  }

  lemma NotifyKeepsMatch(s: State)
    requires Shaped(s) && WaitersMatch(s) && ListenersMatch(s)
    ensures Shaped(Notify(s)) && WaitersMatch(Notify(s)) && ListenersMatch(Notify(s))
    ensures Asleep(s.runner) ==> (WakePending(s) && s.writer == None ==> WakePending(Notify(s)))
    ensures Asleep(s.runner) && s.runner.nap.waiter == Current(s) ==> WakePending(Notify(s))
  {
  }

  lemma NoneBeforeInsert(s: QueueState, e: Event, p: Priority, t: Time)
    requires WellFormed(s) && NoneBefore(s.subs, t) && (p == IDLE || t <= e.handleTime)
    ensures NoneBefore(Insert(s, e, p).subs, t)
  {
  }

  lemma NoneBeforeRemove(s: QueueState, f: Event -> bool, t: Time)
    requires WellFormed(s) && NoneBefore(s.subs, t)
    ensures NoneBefore(EventQueues.Remove(s, f).subs, t)
  {
  }

  lemma PickOnlyRemoves(subs: seq<SubQueue>, c: Choice, i: nat, x: Event)
    requires |subs| == SUB_EVENT_QUEUE_NUM && c.index < SUB_EVENT_QUEUE_NUM && subs[c.index].queue != []
    requires i < SUB_EVENT_QUEUE_NUM && x in AfterPick(subs, c)[i].queue
    ensures x in subs[i].queue
  {
    if i == c.index {
      assert AfterPick(subs, c)[i].queue == subs[i].queue[1..];
    }
  }

  lemma NoneBeforeGet(s: QueueState, now: Time, t: Time)
    requires WellFormed(s) && NoneBefore(s.subs, t)
    ensures NoneBefore(GetExpired(s, now).state.subs, t)
    ensures t <= GetExpired(s, now).state.wakeUp
  {
    ChooseIsExact(s.subs, now);
    var subs, r, c := s.subs, GetExpired(s, now).state.subs, Choose(s.subs, now);
    if c.index < SUB_EVENT_QUEUE_NUM {
      forall i, x | 0 <= i < |r| && x in r[i].queue
        ensures t <= x.handleTime
      {
        PickOnlyRemoves(subs, c, i, x);
      }
    }
    forall i | 0 <= i < SUB_EVENT_QUEUE_NUM
      ensures t <= Earliest(subs[i].queue)
    {
      if subs[i].queue != [] { assert subs[i].queue[0] in subs[i].queue; }
    }
  }

  lemma SendKeeps(s: State, a: Action, t: State)
    requires Inv(s) && a.Send? && Next(s, a, t)
    ensures Inv(t)
  {
    InsertKeepsWellFormed(s.queue, a.event, a.priority);
    var u := s.(queue := Insert(s.queue, a.event, a.priority));
    NotifyKeepsMatch(u);
    if Asleep(s.runner) && !WakePending(s) && !NeedNotify(s.queue, a.event, a.priority) {
      NoneBeforeInsert(s.queue, a.event, a.priority, s.runner.nap.goal);
    }
  }

  lemma QueueKeeps(s: State, a: Action, t: State)
    requires Inv(s) && (a.Withdraw? || a.Steal?) && Next(s, a, t)
    ensures Inv(t)
  {
    if a.Withdraw? {
      RemoveKeepsWellFormed(s.queue, a.filter);
      if Asleep(s.runner) && !WakePending(s) { NoneBeforeRemove(s.queue, a.filter, s.runner.nap.goal); }
    } else {
      GetExpiredKeepsWellFormed(s.queue, s.clock);
      ChooseIsExact(s.queue.subs, s.clock);
      if Asleep(s.runner) && !WakePending(s) { NoneBeforeGet(s.queue, s.clock, s.runner.nap.goal); }
    }
  }

  lemma FinishKeeps(s: State, a: Action, t: State)
    requires Inv(s) && (a.Stop? || a.Destruct?) && Next(s, a, t)
    ensures Inv(t)
  {
    NotifyKeepsMatch(s.(queue := s.queue.(finished := true)));
  }

  lemma SwitchKeeps(s: State)
    requires Inv(s) && s.writer == None
    ensures Inv(WithListeningWaiter(s))
  {
    NotifyKeepsMatch(s);
  }

  lemma ListenerKeeps(s: State, a: Action, t: State)
    requires Inv(s) && (a.AddListener? || a.RemoveListeners?) && Next(s, a, t)
    ensures Inv(t)
  {
    SwitchKeeps(s);
  }

  lemma OtherKeeps(s: State, a: Action, t: State)
    requires Inv(s) && (a.Write? || a.Pass? || a.Expire? || a.Vanish? || a.Prepare? || a.CheckOwner?) && Next(s, a, t)
    ensures Inv(t)
  {
  }

  lemma NoneBeforeEarliest(s: QueueState)
    requires WellFormed(s)
    ensures NoneBefore(s.subs, EarliestOfAll(s.subs))
  {
    forall i, x | 0 <= i < |s.subs| && x in s.subs[i].queue
      ensures EarliestOfAll(s.subs) <= x.handleTime
    {
      var k :| 0 <= k < |s.subs[i].queue| && s.subs[i].queue[k] == x;
    }
  }

  lemma LoopKeeps(s: State, a: Action, t: State)
    requires Inv(s) && a.Loop? && Next(s, a, t)
    ensures Inv(t)
  {
    GetExpiredKeepsWellFormed(s.queue, s.clock);
    ChooseIsExact(s.queue.subs, s.clock);
    NoneBeforeEarliest(s.queue);
  }

  lemma SleepKeeps(s: State, a: Action, t: State)
    requires Inv(s) && (a.Finished? || a.WakeUp? || a.Enter? || a.Return? || a.Lower? || a.Drain? || a.Relock?)
    requires Next(s, a, t)
    ensures Inv(t)
  {
  }

  lemma NextKeepsInv(s: State, a: Action, t: State)
    requires Inv(s) && Next(s, a, t)
    ensures Inv(t)
  {
    match a
    case Send(_, _) => SendKeeps(s, a, t);
    case Withdraw(_) => QueueKeeps(s, a, t);
    case Steal => QueueKeeps(s, a, t);
    case Stop => FinishKeeps(s, a, t);
    case Destruct => FinishKeeps(s, a, t);
    case AddListener(_, _, _) => ListenerKeeps(s, a, t);
    case RemoveListeners(_) => ListenerKeeps(s, a, t);
    case Loop(_) => LoopKeeps(s, a, t);
    case Write => OtherKeeps(s, a, t);
    case Pass(_) => OtherKeeps(s, a, t);
    case Expire => OtherKeeps(s, a, t);
    case Vanish => OtherKeeps(s, a, t);
    case Prepare => OtherKeeps(s, a, t);
    case CheckOwner => OtherKeeps(s, a, t);
    case Finished => SleepKeeps(s, a, t);
    case WakeUp => SleepKeeps(s, a, t);
    case Enter => SleepKeeps(s, a, t);
    case Return(_, _, _) => SleepKeeps(s, a, t);
    case Lower => SleepKeeps(s, a, t);
    case Drain => SleepKeeps(s, a, t);
    case Relock => SleepKeeps(s, a, t);
  }

  // ---- Runs ----

  /** Every state of a run is `Shaped` because every reachable state satisfies `Inv` (`ReachableInv`). */
  ghost predicate Run(states: seq<State>, actions: seq<Action>) {
    && |states| == |actions| + 1 && Init(states[0])
    && forall i :: 0 <= i < |actions| ==> Shaped(states[i]) && Next(states[i], actions[i], states[i + 1])
  }

  lemma {:induction false} ReachableInv(states: seq<State>, actions: seq<Action>, k: nat)
    requires Run(states, actions) && k < |states|
    ensures Inv(states[k])
  {
    if k == 0 {
      InitInv(states[0]);
    } else {
      ReachableInv(states, actions, k - 1);
      NextKeepsInv(states[k - 1], actions[k - 1], states[k]);
    }
  }

  /**
   No lost wake-up: in every reachable state, a runner that sleeps without a wake-up on its way
   sleeps on the waiter that senders will notify, the queue is not finished, and no queued timed
   event is due before the sleep ends: exactly for the condition variable, and up to the rounding to
   milliseconds (plus the delay before `epoll_wait` was entered) for epoll.
   */
  lemma NoLostWakeUp(states: seq<State>, actions: seq<Action>, k: nat)
    requires Run(states, actions) && k < |states| && Asleep(states[k].runner)
    ensures Inv(states[k])
    ensures !WakePending(states[k]) ==> !states[k].queue.finished && states[k].runner.nap.waiter == Current(states[k])
    ensures !WakePending(states[k]) ==>
              forall i, x :: 0 <= i < SUB_EVENT_QUEUE_NUM && x in states[k].queue.subs[i].queue ==>
                SleepInTime(states[k].runner, x.handleTime)
  {
    ReachableInv(states, actions, k);
  }

  function Max(a: Time, b: Time): Time { if a < b then b else a }

  /** The sleep ends by `t`; an event that fell due between two clock readings costs a sleep of length zero. */
  predicate SleepInTime(r: Runner, t: Time)
    requires Asleep(r)
  {
    if r.Waiting? then r.since + r.nap.length <= Max(r.nap.asked, t)
    else r.nap.asked + r.nap.length < Max(r.nap.asked, t) + NANOSECONDS_PER_ONE_MILLISECOND
  }

  /** Listener index: the map's keys are the descriptors of the current waiter, and none under the other kind. */
  lemma ListenerIndex(states: seq<State>, actions: seq<Action>, k: nat)
    requires Run(states, actions) && k < |states|
    ensures states[k].waiters != []
    ensures states[k].waiters[Current(states[k])].registered == states[k].listeners
    ensures states[k].waiters[Current(states[k])].kind == Condition ==> states[k].listeners == {}
  {
    ReachableInv(states, actions, k);
  }

  /** What an addition does: the descriptor is listened to exactly when it is valid, new and accepted. */
  lemma AddListenerIsExact(s: State, fd: int, initialized: bool, added: bool, t: State)
    requires Inv(s) && Next(s, AddListener(fd, initialized, added), t)
    ensures var accepted := fd >= 0 && fd !in s.listeners && added
                            && (s.waiters[Current(s)].kind == Epoll || initialized);
            && t.listeners == (if accepted then s.listeners + {fd} else s.listeners)
            && t.queue == s.queue && t.runner == s.runner && t.owner == s.owner && t.clock == s.clock
            && (accepted ==>
                  && t.waiters[Current(t)].kind == Epoll && fd in t.waiters[Current(t)].registered
                  && (|t.waiters| > |s.waiters| ==> t.waiters[Current(t)] == Waiter(Epoll, 0, false, 0, false, {fd}))
                  && forall d :: d in s.listeners ==> d in t.waiters[Current(t)].registered)
  {
  }

  /** A removal takes out the named descriptors and no others, and changes nothing else. */
  lemma RemoveListenersIsExact(s: State, fds: set<int>, t: State)
    requires Inv(s) && Next(s, RemoveListeners(fds), t)
    ensures t.listeners == s.listeners - fds && t.waiters[Current(t)].registered == s.listeners - fds
    ensures t.queue == s.queue && t.runner == s.runner && t.writer == s.writer && |t.waiters| == |s.waiters|
  {
  }

  /** A sender disturbs nobody unless its event is timed, due before the recorded wake-up time, and awaited. */
  lemma SendWakesOnlyForEarlier(s: State, e: Event, p: Priority, t: State)
    requires Shaped(s) && Next(s, Send(e, p), t)
    requires p == IDLE || s.queue.wakeUp <= e.handleTime || s.waiters[Current(s)].waiting == 0
    ensures t == s.(queue := Insert(s.queue, e, p))
  {
  }

  ghost predicate CanStep(s: State, a: Action)
    requires Shaped(s)
  {
    exists t :: Next(s, a, t)
  }

  /** Senders, other readers and the owner can step whenever nobody is in the middle of a notification. */
  lemma SendersCanStep(s: State, e: Event, p: Priority, f: Event -> bool)
    requires Shaped(s) && s.writer == None
    ensures CanStep(s, Send(e, p)) && CanStep(s, Withdraw(f)) && CanStep(s, Steal) && CanStep(s, Stop)
  {
    hide Insert, GetExpired, Notify, AfterFinish, AfterLoop, Leave;
    var u := s.(queue := Insert(s.queue, e, p));
    assert Next(s, Send(e, p), if NeedNotify(s.queue, e, p) then Notify(u) else u);
    assert Next(s, Withdraw(f), s.(queue := EventQueues.Remove(s.queue, f)));
    assert Next(s, Steal, s.(queue := GetExpired(s.queue, s.clock).state));
    assert Next(s, Stop, AfterFinish(s));
  }

  lemma ListenersCanStep(s: State, fd: int, initialized: bool, added: bool, fds: set<int>)
    requires Shaped(s) && s.writer == None
    ensures CanStep(s, AddListener(fd, initialized, added)) && CanStep(s, RemoveListeners(fds))
    ensures s.owner == Expired ==> CanStep(s, Destruct)
  {
    hide Notify, AfterAdd, AfterRemoveListeners, AfterFinish, AfterLoop, Leave;
    assert Next(s, AddListener(fd, initialized, added), AfterAdd(s, fd, initialized, added));
    assert Next(s, RemoveListeners(fds), AfterRemoveListeners(s, fds));
    assert s.owner == Expired ==> Next(s, Destruct, AfterFinish(s).(owner := Stopped));
  }

  /** A notification once begun can be finished; time passes and the owner expires whatever the others do. */
  lemma NobodyBlocks(s: State, later: Clock)
    requires Shaped(s)
    ensures s.writer != None ==> CanStep(s, Write)
    ensures s.clock <= later ==> CanStep(s, Pass(later))
    ensures s.owner == Alive ==> CanStep(s, Expire)
  {
    hide AfterLoop, Leave;
    if s.writer != None {
      var w := s.waiters[s.writer.value];
      assert Next(s, Write, s.(writer := None,
                               waiters := s.waiters[s.writer.value := w.(counter := w.counter + 1, edge := true)]));
    }
    assert s.clock <= later ==> Next(s, Pass(later), s.(clock := later));
    assert s.owner == Alive ==> Next(s, Expire, s.(owner := Expired));
  }

  /**
   The runner steps on by itself: it starts, loops, and wakes at the latest when its sleep has lasted its length, or
   as soon as a wake-up has reached it.
   */
  lemma RunnerCanStep(s: State, later: Clock)
    requires Inv(s) && s.writer == None && s.clock <= later
    ensures s.runner == NotStarted ==> CanStep(s, Prepare)
    ensures s.runner == Prepared ==> CanStep(s, CheckOwner)
    ensures s.runner == Looping ==> CanStep(s, Loop(later))
    ensures s.runner == Dispatching ==> CanStep(s, Finished)
    ensures s.runner.Waiting? ==> CanStep(s, WakeUp)
    ensures s.runner.Entering? ==> CanStep(s, Enter)
    ensures s.runner.Polling? && s.runner.since + s.runner.nap.length <= s.clock ==>
              CanStep(s, Return(false, false, false))
    ensures s.runner.Polling? && WakePending(s) ==> CanStep(s, Return(false, false, true))
    ensures s.runner.Polling? ==> CanStep(s, Return(true, false, false)) && CanStep(s, Return(false, true, false))
    ensures s.runner.Returned? ==> CanStep(s, Lower)
    ensures s.runner.Counted? ==> CanStep(s, Drain)
    ensures s.runner.Relocking? ==> CanStep(s, Relock)
  {
    hide AfterLoop, Leave, WaitersMatch, Covered, ListenersMatch;
    match s.runner
    case NotStarted => assert Next(s, Prepare, s.(queue := s.queue.(finished := false), runner := Prepared));
    case Prepared => assert Next(s, CheckOwner, s.(runner := if s.owner == Alive then Looping else Done));
    case Looping => assert Next(s, Loop(later), AfterLoop(s, later));
    case Dispatching => assert Next(s, Finished, s.(runner := Looping));
    case Waiting(nap, _) => assert Next(s, WakeUp, Leave(s, nap.waiter, Looping));
    case Entering(nap) => assert Next(s, Enter, s.(runner := Polling(nap, s.clock)));
    case Polling(nap, since) =>
      var w := s.waiters[nap.waiter];
      assert Next(s, Return(true, false, false), s.(runner := Returned(nap, false, false)));
      assert Next(s, Return(false, true, false), s.(runner := Returned(nap, false, true)));
      assert since + nap.length <= s.clock ==>
          Next(s, Return(false, false, false), s.(runner := Returned(nap, false, false)));
      assert Ready(w) ==>
          Next(s, Return(false, false, true), s.(runner := Returned(nap, true, false),
                                                 waiters := s.waiters[nap.waiter := w.(edge := false)]));
    case Returned(nap, d, f) => assert Next(s, Lower, Leave(s, nap.waiter, Counted(nap, d, f)));
    case Counted(nap, d, f) =>
      var w := s.waiters[nap.waiter];
      assert Next(s, Drain, s.(runner := Relocking(f),
                               waiters := if d then s.waiters[nap.waiter := w.(counter := 0)] else s.waiters));
    case Relocking(f) =>
      assert Next(s, Relock, if f then s.(runner := Looping, waiters := s.waiters + [Fresh(Condition)], listeners := {})
                             else s.(runner := Looping));
    case Done =>
  }

  /** How long a sleep is for a wait of `needed`. */
  predicate SleepsFor(r: Runner, needed: nat)
    requires Asleep(r)
  {
    var cap := if r.Waiting? then ONE_YEAR else INT32_MAX * NANOSECONDS_PER_ONE_MILLISECOND;
    if needed > cap then r.nap.length == cap
    else needed <= r.nap.length < needed + if r.Waiting? then 1 else NANOSECONDS_PER_ONE_MILLISECOND
  }

  /** The loop leaves if the queue is finished, else hands out what the queue gives, else sleeps. */
  lemma LoopIsExact(s: State, later: Clock, t: State)
    requires Inv(s) && Next(s, Loop(later), t)
    ensures s.queue.finished ==> t == s.(runner := Done)
    ensures !s.queue.finished ==>
              var o := GetExpired(s.queue, s.clock);
              && t.queue == o.state && t.listeners == s.listeners && t.owner == s.owner
              && (o.event.Some? <==> t.runner == Dispatching)
              && (t.runner.Waiting? ==> !t.waiters[Current(t)].notified)
              && (o.event.None? ==>
                    && Asleep(t.runner) && t.clock == later
                    && t.runner.nap.waiter == Current(t) && t.runner.nap.goal == o.state.wakeUp
                    && t.waiters[Current(t)].waiting == s.waiters[Current(s)].waiting + 1
                    && SleepsFor(t.runner, if o.state.wakeUp <= later then 0 else o.state.wakeUp - later))
  {
  }

  /** A runner returns from `epoll_wait` for a reason, and an edge is reported once. */
  lemma ReturnHasCause(s: State, readable: bool, failed: bool, drain: bool, t: State)
    requires Inv(s) && Next(s, Return(readable, failed, drain), t)
    ensures var w := s.waiters[s.runner.nap.waiter];
            && (readable || failed || s.runner.since + s.runner.nap.length <= s.clock
                || (drain && w.counter > 0 && w.edge))
            && (drain ==> !failed && w.counter > 0 && w.edge && !t.waiters[s.runner.nap.waiter].edge)
            && (!drain ==> t.waiters == s.waiters)
            && t.queue == s.queue
  {
  }

  /**
   The order of things: time does not go back, the owner expires before it is destroyed, the runner leaves only when
   it finds the queue finished or its owner gone, and nothing under the lock happens during a notification.
   */
  lemma StepsAreOrderly(s: State, a: Action, t: State)
    requires Inv(s) && Next(s, a, t)
    ensures s.clock <= t.clock
    ensures t.owner != s.owner ==>
              (s.owner == Alive && t.owner == Expired) || (s.owner == Expired && t.owner == Stopped)
    ensures t.runner == Done && s.runner != Done ==>
              || (s.runner == Looping && s.queue.finished) || (s.runner == Prepared && s.owner != Alive)
              || (s.runner == NotStarted && s.owner == Stopped)
    ensures s.runner == Prepared && t.runner != Prepared && s.owner == Alive ==> t.runner == Looping
    ensures s.writer != None && a != Write ==>
              t.queue == s.queue && t.listeners == s.listeners && |t.waiters| == |s.waiters| && t.writer == s.writer
  {
  }

  predicate ByRunner(a: Action) {
    a.Vanish? || a.Prepare? || a.CheckOwner? || a.Loop? || a.Finished? || a.WakeUp? || a.Enter? || a.Return?
    || a.Lower? || a.Drain? || a.Relock?
  }

  /** What the steps of the others do to the queue, the owner and the clock. */
  lemma OthersAreExact(s: State, a: Action, t: State)
    requires Inv(s) && Next(s, a, t) && !ByRunner(a)
    ensures t.runner == s.runner
    ensures t.queue == match a
                       case Send(e, p) => Insert(s.queue, e, p)
                       case Withdraw(f) => EventQueues.Remove(s.queue, f)
                       case Steal => GetExpired(s.queue, s.clock).state
                       case Stop => s.queue.(finished := true)
                       case Destruct => s.queue.(finished := true)
                       case _ => s.queue
    ensures t.owner == if a.Expire? then Expired else if a.Destruct? then Stopped else s.owner
    ensures t.clock == if a.Pass? then a.later else s.clock
  {
  }

  /** The runner opens the queue once, when it starts. */
  lemma StartOpensQueue(s: State, t: State)
    requires Inv(s) && Next(s, Prepare, t)
    ensures s.runner == NotStarted && t == s.(queue := s.queue.(finished := false), runner := Prepared)
  {
  }

  // ---- Shutdown ----

  /** Runner steps left once the owner's destructor has stopped the queue. */
  function StepsLeft(r: Runner): (steps: nat)
    ensures steps <= 6
  {
    match r
    case Done => 0
    case Looping => 1
    case Waiting(_, _) => 2
    case Dispatching => 2
    case Prepared => 1
    case NotStarted => 2
    case Relocking(_) => 2
    case Counted(_, _, _) => 3
    case Returned(_, _, _) => 4
    case Polling(_, _) => 5
    case Entering(_) => 6
  }

  lemma StoppedRunnerAdvances(s: State, a: Action, t: State)
    requires Inv(s) && s.owner == Stopped && Next(s, a, t)
    ensures t.owner == Stopped
    ensures if ByRunner(a) then StepsLeft(t.runner) < StepsLeft(s.runner) else t.runner == s.runner
  {
  }

  /** The runner's own next step towards leaving `Run`. */
  function LeavingStep(s: State): Action {
    match s.runner
    case NotStarted => Vanish
    case Prepared => CheckOwner
    case Looping => Loop(s.clock)
    case Dispatching => Finished
    case Waiting(_, _) => WakeUp
    case Entering(_) => Enter
    case Polling(_, _) => Return(false, false, true)
    case Returned(_, _, _) => Lower
    case Counted(_, _, _) => Drain
    case Relocking(_) => Relock
    case Done => Loop(s.clock)
  }

  /** If the runner sleeps its wake-up is real, and it, or a sender still writing one, can step. */
  ghost predicate NotStuck(s: State)
    requires Shaped(s)
  {
    && (Asleep(s.runner) ==> WakePending(s))
    && (if s.writer == None then exists t :: Next(s, LeavingStep(s), t) else exists t :: Next(s, Write, t))
  }

  /** After the destructor, a runner that has not left is never stuck. */
  lemma StoppedRunnerNotStuck(s: State)
    requires Inv(s) && s.owner == Stopped && s.runner != Done
    ensures NotStuck(s)
  {
    if s.writer != None {
      var w := s.waiters[s.writer.value];
      assert Next(s, Write, s.(writer := None,
                               waiters := s.waiters[s.writer.value := w.(counter := w.counter + 1, edge := true)]));
    } else {
      var a := LeavingStep(s);
      match s.runner {
        case NotStarted => assert Next(s, a, s.(runner := Done));
        case Prepared => assert Next(s, a, s.(runner := Done));
        case Looping => assert Next(s, a, AfterLoop(s, s.clock));
        case Dispatching => assert Next(s, a, s.(runner := Looping));
        case Waiting(nap, _) => assert Next(s, a, Leave(s, nap.waiter, Looping));
        case Entering(nap) => assert Next(s, a, s.(runner := Polling(nap, s.clock)));
        case Polling(nap, _) =>
          var w := s.waiters[nap.waiter];
          assert Next(s, a, s.(runner := Returned(nap, true, false),
                               waiters := s.waiters[nap.waiter := w.(edge := false)]));
        case Returned(nap, d, f) => assert Next(s, a, Leave(s, nap.waiter, Counted(nap, d, f)));
        case Counted(nap, d, f) =>
          var w := s.waiters[nap.waiter];
          assert Next(s, a, s.(runner := Relocking(f),
                               waiters := if d then s.waiters[nap.waiter := w.(counter := 0)] else s.waiters));
        case Relocking(f) =>
          assert Next(s, a, if f then s.(runner := Looping, waiters := s.waiters + [Fresh(Condition)], listeners := {})
                            else s.(runner := Looping));
      }
    }
  }

  function RunnerSteps(actions: seq<Action>): nat {
    if actions == [] then 0 else (if ByRunner(actions[0]) then 1 else 0) + RunnerSteps(actions[1..])
  }

  lemma {:induction false} StoppedRunIsShort(states: seq<State>, actions: seq<Action>)
    requires |states| == |actions| + 1 && Inv(states[0]) && states[0].owner == Stopped
    requires forall i :: 0 <= i < |actions| ==> Shaped(states[i]) && Next(states[i], actions[i], states[i + 1])
    ensures RunnerSteps(actions) + StepsLeft(states[|actions|].runner) <= StepsLeft(states[0].runner)
    ensures states[|actions|].owner == Stopped && Inv(states[|actions|])
    decreases |actions|
  {
    if actions != [] {
      NextKeepsInv(states[0], actions[0], states[1]);
      StoppedRunnerAdvances(states[0], actions[0], states[1]);
      assert forall i :: 0 <= i < |actions[1..]| ==> actions[1..][i] == actions[i + 1];
      StoppedRunIsShort(states[1..], actions[1..]);
    }
  }

  /**
   Shutdown: once the destructor of a thread-owning runner has called `Finish` (at state `k` of any
   interleaving), the runner takes at most six more steps, and until it has left `Run` either it or a
   sender that is about to write its notification can step. So the stop is never lost.
   */
  lemma StopIsNeverLost(states: seq<State>, actions: seq<Action>, k: nat)
    requires Run(states, actions) && k < |states| && states[k].owner == Stopped
    ensures RunnerSteps(actions[k..]) <= 6
    ensures Inv(states[|actions|])
    ensures states[|actions|].runner == Done || NotStuck(states[|actions|])
  {
    hide Next, NotStuck, Inv, Shaped, StepsLeft;
    ReachableInv(states, actions, k);
    var rest, later := actions[k..], states[k..];
    assert forall i :: 0 <= i < |rest| ==> rest[i] == actions[k + i] && later[i + 1] == states[k + i + 1];
    StoppedRunIsShort(later, rest);
    assert later[|rest|] == states[|actions|];
    if states[|actions|].runner != Done { StoppedRunnerNotStuck(states[|actions|]); }
  }
}
