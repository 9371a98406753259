/**
 The collector of finished threads (libs/libeventhandler/src/event_runner.cpp:57-267) as a state
 machine: threads that end, their depositors, the collector thread, and the one call of `Stop`. Regions under
 `collectorLock_` are atomic; a join happens between two of them. `threadLock_` is held over a pause
 only by `Stop`.
 */
module ThreadCollector {
  type Id = nat

  datatype Collector =
    | NotCreated
    | AtHead                       // at the outer loop's test of `destroying_`
    | AtInner                      // at the inner loop's test of `reclaims_`
    | Joining(thread: Id)
    | Waiting(notified: bool)      // `isWaiting_` is set exactly here
    | Exited
    | Reaped                       // joined by `Stop`

  datatype Stopper =
    | Idle
    | Flagged                      // `destroying_` set
    | Holding                      // holds `threadLock_`, waiting for the collector thread to end
    | Draining                     // at the loop test of `ReclaimAll`
    | Taking(thread: Id)           // joining a thread taken from the map
    | Stopped

  /**
   `trying`: threads that have queued themselves and are about to try `threadLock_`; `ended`: threads
   past `ReclaimCurrentThread`, whose join returns. `accepted`, `queued`, `asked` (threads that queued themselves
   once accepted) and `joined` record the history.
   */
  datatype State = State(destroying: bool, reclaims: seq<Id>, deposits: set<Id>, collector: Collector,
                         stopper: Stopper, needCreate: bool, trying: set<Id>, ended: set<Id>,
                         accepted: set<Id>, queued: set<Id>, asked: set<Id>, joined: seq<Id>)

  ghost predicate Init(s: State) {
    s == State(false, [], {}, NotCreated, Idle, true, {}, {}, {}, {}, {}, [])
  }

  datatype Action =
    | Deposit(thread: Id)
    | End(thread: Id)              // `ReclaimCurrentThread`, first region
    | Try(thread: Id)              // its second half
    | Test | Pop | CollectorJoin | Wake(spurious: bool)
    | Flag | Lock | Reap | Take(thread: Id) | StopperJoin | Finish

  function Notified(c: Collector): Collector { if c.Waiting? then Waiting(true) else c }

  /** The collector thread is created by a thread that finds none while nobody holds `threadLock_`. */
  predicate Creates(s: State) { s.stopper != Holding && s.collector == NotCreated && s.needCreate }

  function AfterPop(s: State): State {
    if s.reclaims == [] then
      s.(collector := if s.destroying then Exited else Waiting(false))
    else
      var last := |s.reclaims| - 1;
      var t, rest := s.reclaims[last], s.(reclaims := s.reclaims[..last]);
      if t in s.deposits then rest.(deposits := s.deposits - {t}, collector := Joining(t)) else rest
  }

  ghost predicate Next(s: State, a: Action, t: State) {
    match a
    case Deposit(x) =>
      // each thread is deposited at most once
      && x !in s.accepted
      && t == if s.destroying then s else s.(deposits := s.deposits + {x}, accepted := s.accepted + {x})
    case End(x) =>
      && x !in s.trying && x !in s.ended
      && t == if s.destroying then s.(ended := s.ended + {x})
              else s.(reclaims := s.reclaims + [x], collector := Notified(s.collector), trying := s.trying + {x},
                      queued := s.queued + {x}, asked := s.asked + if x in s.accepted then {x} else {})
    case Try(x) =>
      && x in s.trying
      && var u := s.(trying := s.trying - {x}, ended := s.ended + {x});
         t == if Creates(s) then u.(collector := AtHead) else u
    case Test => s.collector == AtHead && t == s.(collector := if s.destroying then Exited else AtInner)
    case Pop => s.collector == AtInner && t == AfterPop(s)
    case CollectorJoin =>
      s.collector.Joining? && s.collector.thread in s.ended
      && t == s.(collector := AtInner, joined := s.joined + [s.collector.thread])
    case Wake(spurious) => s.collector.Waiting? && (spurious || s.collector.notified) && t == s.(collector := AtHead)
    case Flag =>
      s.stopper == Idle && t == s.(stopper := Flagged, destroying := true, collector := Notified(s.collector))
    case Lock => s.stopper == Flagged && t == s.(stopper := Holding)
    case Reap =>
      && s.stopper == Holding && (s.collector == NotCreated || s.collector == Exited)
      && t == s.(stopper := Draining, needCreate := false,
                 collector := if s.collector == Exited then Reaped else NotCreated)
    case Take(x) =>
      s.stopper == Draining && x in s.deposits && t == s.(stopper := Taking(x), deposits := s.deposits - {x})
    case StopperJoin =>
      s.stopper.Taking? && s.stopper.thread in s.ended
      && t == s.(stopper := Draining, joined := s.joined + [s.stopper.thread])
    case Finish => s.stopper == Draining && s.deposits == {} && t == s.(stopper := Stopped)
  }

  // ---- The invariant ----

  /** Threads taken out of the map and not joined yet. */
  function InFlight(s: State): set<Id> {
    (if s.collector.Joining? then {s.collector.thread} else {}) + (if s.stopper.Taking? then {s.stopper.thread} else {})
  }

  function Joined(s: State): set<Id> { set x | x in s.joined }

  ghost predicate Distinct(q: seq<Id>) { forall i, j :: 0 <= i < j < |q| ==> q[i] != q[j] }

  predicate PastReap(p: Stopper) { p == Draining || p.Taking? || p == Stopped }

  /** Every accepted thread is in exactly one place. */
  ghost predicate Accounted(s: State) {
    && Distinct(s.joined)
    && s.accepted == s.deposits + InFlight(s) + Joined(s)
    && s.deposits !! InFlight(s) && s.deposits !! Joined(s) && InFlight(s) !! Joined(s)
    && (s.collector.Joining? && s.stopper.Taking? ==> s.collector.thread != s.stopper.thread)
  }

  /** A request is kept until its thread is taken out to be joined. */
  ghost predicate RequestsKept(s: State) {
    && s.asked <= s.accepted
    && forall x :: x in s.asked && x in s.deposits ==> x in s.reclaims
  }

  /** Until the stop, queued requests have a collector, or a thread that is about to create one. */
  ghost predicate RequestsServed(s: State) {
    && (!s.destroying ==> s.needCreate && s.collector != Exited && s.collector != Reaped)
    && (!s.destroying && s.collector == NotCreated && s.reclaims != [] ==> s.trying != {})
  }

  /** Each thread queues itself once and ends once, and is joined only then. */
  ghost predicate EndsOnce(s: State) {
    && s.trying !! s.ended && s.trying <= s.queued && (!s.destroying ==> s.ended <= s.queued)
    && (forall x :: x in s.reclaims ==> x in s.queued)
    && forall x :: x in s.joined ==> x in s.ended
  }

  ghost predicate Inv(s: State) {
    && EndsOnce(s) && (s.collector == Waiting(true) ==> s.destroying || s.reclaims != [])
    && Accounted(s) && RequestsKept(s) && RequestsServed(s)
    && (s.destroying <==> s.stopper != Idle)
    && (PastReap(s.stopper) ==> !s.needCreate && (s.collector == NotCreated || s.collector == Reaped))
    && (s.collector == Reaped ==> PastReap(s.stopper))
    && (s.stopper == Stopped ==> s.deposits == {})
    && (s.collector.Waiting? && (s.destroying || s.reclaims != []) ==> s.collector.notified)
  }

  lemma JoinAppends(s: State, x: Id)
    requires Accounted(s) && x in InFlight(s)
    ensures Distinct(s.joined + [x])
    ensures (set y | y in s.joined + [x]) == Joined(s) + {x}
  {
    assert x !in s.joined by { assert x !in Joined(s); }
  }

  lemma NextKeepsAccounted(s: State, a: Action, t: State)
    requires Accounted(s) && Next(s, a, t)
    requires PastReap(s.stopper) ==> s.collector == NotCreated || s.collector == Reaped
    ensures Accounted(t)
  {
    match a
    case CollectorJoin => JoinAppends(s, s.collector.thread);
    case StopperJoin => JoinAppends(s, s.stopper.thread);
    case Deposit(_) =>
    case End(_) => assert t.collector.Joining? <==> s.collector.Joining?; assert InFlight(t) == InFlight(s);
    case Flag => assert InFlight(t) == InFlight(s);
    case Try(_) => assert InFlight(t) == InFlight(s);
    case Test => assert InFlight(t) == InFlight(s);
    case Pop => PopKeepsAccounted(s, t);
    case Wake(_) => assert InFlight(t) == InFlight(s);
    case Lock => assert InFlight(t) == InFlight(s);
    case Reap => assert InFlight(t) == InFlight(s);
    case Take(x) => assert InFlight(t) == {x};
    case Finish => assert InFlight(t) == InFlight(s);
  }

  lemma PopKeepsAccounted(s: State, t: State)
    requires Accounted(s) && s.collector == AtInner && t == AfterPop(s)
    ensures Accounted(t)
  {
    if s.reclaims != [] && s.reclaims[|s.reclaims| - 1] in s.deposits {
      assert InFlight(t) == InFlight(s) + {s.reclaims[|s.reclaims| - 1]};
    } else {
      assert InFlight(t) == InFlight(s);
    }
  }

  lemma NextKeepsEnds(s: State, a: Action, t: State)
    requires Inv(s) && Next(s, a, t)
    ensures EndsOnce(t) && (t.collector == Waiting(true) ==> t.destroying || t.reclaims != [])
  {
  }

  lemma NextKeepsRequests(s: State, a: Action, t: State)
    requires Inv(s) && Next(s, a, t)
    ensures RequestsKept(t) && RequestsServed(t)
  {
    if a.Pop? && s.reclaims != [] {
      assert s.reclaims == t.reclaims + [s.reclaims[|s.reclaims| - 1]];
    }
  }

  lemma NextKeepsInv(s: State, a: Action, t: State)
    requires Inv(s) && Next(s, a, t)
    ensures Inv(t)
  {
    hide Accounted, RequestsKept, RequestsServed, EndsOnce;
    NextKeepsAccounted(s, a, t);
    NextKeepsEnds(s, a, t);
    NextKeepsRequests(s, a, t);
  }

  ghost predicate Run(states: seq<State>, actions: seq<Action>) {
    && |states| == |actions| + 1 && Init(states[0])
    && forall i :: 0 <= i < |actions| ==> Next(states[i], actions[i], states[i + 1])
  }

  lemma {:induction false} ReachableInv(states: seq<State>, actions: seq<Action>, k: nat)
    requires Run(states, actions) && k < |states|
    ensures Inv(states[k])
  {
    if k > 0 {
      ReachableInv(states, actions, k - 1);
      NextKeepsInv(states[k - 1], actions[k - 1], states[k]);
    }
  }

  /**
   In every interleaving each thread is joined at most once, and only if its deposit was accepted and it has ended; when
   `Stop` has returned the map is empty, every accepted thread has been joined, and no collector thread is left.
   */
  lemma StopJoinsEveryThread(states: seq<State>, actions: seq<Action>, k: nat)
    requires Run(states, actions) && k < |states|
    ensures Distinct(states[k].joined) && Joined(states[k]) <= states[k].accepted * states[k].ended
    ensures states[k].stopper == Stopped ==>
              && states[k].deposits == {} && Joined(states[k]) == states[k].accepted
              && (states[k].collector == NotCreated || states[k].collector == Reaped)
  {
    ReachableInv(states, actions, k);
  }

  // ---- Reclaiming ----

  ghost predicate CanStep(s: State, a: Action) { exists t :: Next(s, a, t) }

  /** Until the stop every deposit is accepted and every ending thread queues itself; afterwards none. */
  lemma StopClosesTheDoor(s: State, x: Id, t: State)
    ensures Next(s, Deposit(x), t) ==>
              if s.destroying then t == s else x in t.accepted && x in t.deposits && t.reclaims == s.reclaims
    ensures Next(s, End(x), t) ==>
              && t.deposits == s.deposits && t.accepted == s.accepted
              && if s.destroying then x in t.ended && t.reclaims == s.reclaims
                 else
                   && t.reclaims == s.reclaims + [x] && x in t.trying
                   && (x in t.asked <==> x in s.asked || x in s.accepted)
    ensures Next(s, Try(x), t) ==> x in t.ended && x !in t.trying && t.reclaims == s.reclaims
  {
  }

  /** No thread has to wait for another to be deposited, to end or to stop the collector. */
  lemma ThreadsCanStep(s: State, x: Id)
    ensures x !in s.accepted ==> CanStep(s, Deposit(x))
    ensures x !in s.trying && x !in s.ended ==> CanStep(s, End(x))
    ensures x in s.trying ==> CanStep(s, Try(x))
    ensures s.stopper == Idle ==> CanStep(s, Flag)
    ensures s.collector.Waiting? ==> CanStep(s, Wake(true))
  {
    var deposited := s.(deposits := s.deposits + {x}, accepted := s.accepted + {x});
    var queued := s.(reclaims := s.reclaims + [x], collector := Notified(s.collector), trying := s.trying + {x},
                     queued := s.queued + {x}, asked := s.asked + if x in s.accepted then {x} else {});
    var tried := s.(trying := s.trying - {x}, ended := s.ended + {x});
    assert x !in s.accepted ==> Next(s, Deposit(x), if s.destroying then s else deposited);
    assert x !in s.trying && x !in s.ended ==>
        Next(s, End(x), if s.destroying then s.(ended := s.ended + {x}) else queued);
    assert x in s.trying ==> Next(s, Try(x), if Creates(s) then tried.(collector := AtHead) else tried);
    assert s.stopper == Idle ==>
        Next(s, Flag, s.(stopper := Flagged, destroying := true, collector := Notified(s.collector)));
    assert s.collector.Waiting? ==> Next(s, Wake(true), s.(collector := AtHead));
  }

  /**
   In every interleaving a thread that asked to be reclaimed once its deposit was accepted is queued, taken out to be
   joined, or joined; so a collector that waits before the stop has joined all of them. It is notified only when there
   is something to do.
   */
  lemma RequestsAreNotLost(states: seq<State>, actions: seq<Action>, k: nat)
    requires Run(states, actions) && k < |states|
    ensures forall x :: x in states[k].asked ==>
              x in states[k].accepted
              && (x in states[k].reclaims || x in InFlight(states[k]) || x in states[k].joined)
    ensures states[k].collector == Waiting(false) ==>
              !states[k].destroying && states[k].reclaims == [] && states[k].asked <= Joined(states[k])
    ensures states[k].collector == Waiting(true) ==> states[k].destroying || states[k].reclaims != []
  {
    ReachableInv(states, actions, k);
  }

  /** Collector steps left until all queued requests are served. */
  function RequestsLeft(s: State): nat {
    match s.collector
    case Waiting(_) => 2 * |s.reclaims| + 4
    case AtHead => 2 * |s.reclaims| + 3
    case Joining(_) => 2 * |s.reclaims| + 3
    case _ => 2 * |s.reclaims| + 2
  }

  /**
   Before the stop, a queued request is served: some thread can create the collector, or the collector can step
   unless it waits for a thread to end, and each of its steps comes closer to an empty queue.
   */
  lemma RequestsAreServed(s: State)
    requires Inv(s) && !s.destroying && s.reclaims != []
    ensures || (exists x :: x in s.trying && CanStep(s, Try(x)))
            || (s.collector.Joining? && s.collector.thread !in s.ended)
            || CanStep(s, Test) || CanStep(s, Pop) || CanStep(s, CollectorJoin) || CanStep(s, Wake(false))
    ensures forall a: Action, t :: (a.Test? || a.Pop? || a.CollectorJoin? || a.Wake?) && Next(s, a, t) ==>
              RequestsLeft(t) < RequestsLeft(s)
    ensures s.collector == NotCreated ==>
              s.trying != {} && forall x, t :: Next(s, Try(x), t) ==> t.collector == AtHead
  {
    match s.collector
    case NotCreated =>
      var x :| x in s.trying;
      var u := s.(trying := s.trying - {x}, ended := s.ended + {x});
      assert Next(s, Try(x), if Creates(s) then u.(collector := AtHead) else u);
    case AtHead => assert Next(s, Test, s.(collector := AtInner));
    case AtInner => assert Next(s, Pop, AfterPop(s));
    case Joining(x) =>
      if x in s.ended { assert Next(s, CollectorJoin, s.(collector := AtInner, joined := s.joined + [x])); }
    case Waiting(_) => assert Next(s, Wake(false), s.(collector := AtHead));
  }

  // ---- Stop ends ----

  function CollectorLeft(s: State): nat {
    match s.collector
    case NotCreated => if s.needCreate then 2 else 0
    case AtHead => 1
    case AtInner => 2 * |s.reclaims| + 2
    case Joining(_) => 2 * |s.reclaims| + 3
    case Waiting(_) => 2
    case Exited => 0
    case Reaped => 0
  }

  function StopperLeft(s: State): nat {
    match s.stopper
    case Idle => 0
    case Flagged => 2 * |s.deposits| + 3
    case Holding => 2 * |s.deposits| + 2
    case Draining => 2 * |s.deposits| + 1
    case Taking(_) => 2 * |s.deposits| + 2
    case Stopped => 0
  }

  function StepsLeft(s: State): nat { StopperLeft(s) + CollectorLeft(s) }

  predicate ByStopOrCollector(a: Action) {
    a.Test? || a.Pop? || a.CollectorJoin? || a.Wake? || a.Lock? || a.Reap? || a.Take? || a.StopperJoin? || a.Finish?
  }

  /**
   Once `destroying_` is set, every step of `Stop` and of the collector thread uses one up, and no other
   step gives any back: deposits are refused and reclaim requests dropped.
   */
  lemma StopAdvances(s: State, a: Action, t: State)
    requires Inv(s) && s.destroying && Next(s, a, t)
    ensures t.destroying
    ensures if ByStopOrCollector(a) then StepsLeft(t) < StepsLeft(s) else StepsLeft(t) <= StepsLeft(s)
  {
    if a.Pop? {
      PopAdvances(s, t);
    } else if ByStopOrCollector(a) {
      OwnStepAdvances(s, a, t);
    } else {
      OtherStepKeeps(s, a, t);
    }
  }

  lemma PopAdvances(s: State, t: State)
    requires s.collector == AtInner && t == AfterPop(s) && s.destroying
    ensures StepsLeft(t) < StepsLeft(s) && t.destroying
  {
    if s.reclaims != [] && s.reclaims[|s.reclaims| - 1] in s.deposits {
      assert |t.deposits| == |s.deposits| - 1;
    }
  }

  lemma OwnStepAdvances(s: State, a: Action, t: State)
    requires s.destroying && Next(s, a, t) && ByStopOrCollector(a) && !a.Pop?
    ensures t.destroying && StepsLeft(t) < StepsLeft(s)
  {
    hide AfterPop;
    if a.Take? {
      assert |t.deposits| == |s.deposits| - 1;
    } else {
      assert t.deposits == s.deposits && t.reclaims == s.reclaims;
    }
  }

  lemma OtherStepKeeps(s: State, a: Action, t: State)
    requires s.destroying && s.stopper != Idle && Next(s, a, t) && !ByStopOrCollector(a)
    ensures t.destroying && StepsLeft(t) <= StepsLeft(s)
  {
    hide AfterPop;
    assert t.deposits == s.deposits && t.reclaims == s.reclaims && t.stopper == s.stopper;
  }

  /** A join that has to wait for its thread. */
  predicate WaitsForThread(s: State) {
    || (s.collector.Joining? && s.collector.thread !in s.ended)
    || (s.stopper.Taking? && s.stopper.thread !in s.ended)
  }

  /** The collector thread itself can go on, or is waiting for a thread to end. */
  lemma CollectorNotStuck(s: State)
    requires Inv(s) && s.destroying && !WaitsForThread(s)
    requires s.collector != NotCreated && s.collector != Exited && s.collector != Reaped
    ensures exists a :: ByStopOrCollector(a) && CanStep(s, a)
  {
    match s.collector
    case AtHead => assert Next(s, Test, s.(collector := Exited)); assert CanStep(s, Test);
    case AtInner => assert Next(s, Pop, AfterPop(s)); assert CanStep(s, Pop);
    case Joining(x) =>
      assert Next(s, CollectorJoin, s.(collector := AtInner, joined := s.joined + [x]));
      assert CanStep(s, CollectorJoin);
    case Waiting(_) => assert Next(s, Wake(false), s.(collector := AtHead)); assert CanStep(s, Wake(false));
  }

  /** Between the flag and its return, `Stop` or the collector can step, unless a join waits for its thread. */
  lemma StopNotStuck(s: State)
    requires Inv(s) && s.destroying && s.stopper != Stopped && !WaitsForThread(s)
    ensures exists a :: ByStopOrCollector(a) && CanStep(s, a)
  {
    match s.stopper
    case Flagged => assert Next(s, Lock, s.(stopper := Holding)); assert CanStep(s, Lock);
    case Holding =>
      if s.collector == NotCreated || s.collector == Exited {
        var c := if s.collector == Exited then Reaped else NotCreated;
        assert Next(s, Reap, s.(stopper := Draining, needCreate := false, collector := c));
        assert CanStep(s, Reap);
      } else {
        CollectorNotStuck(s);
      }
    case Draining =>
      if s.deposits == {} {
        assert Next(s, Finish, s.(stopper := Stopped));
        assert CanStep(s, Finish);
      } else {
        var x :| x in s.deposits;
        assert Next(s, Take(x), s.(stopper := Taking(x), deposits := s.deposits - {x}));
        assert CanStep(s, Take(x));
      }
    case Taking(x) =>
      assert Next(s, StopperJoin, s.(stopper := Draining, joined := s.joined + [x]));
      assert CanStep(s, StopperJoin);
  }

  function OwnSteps(actions: seq<Action>): nat {
    if actions == [] then 0 else (if ByStopOrCollector(actions[0]) then 1 else 0) + OwnSteps(actions[1..])
  }

  lemma {:induction false} StopIsBounded(states: seq<State>, actions: seq<Action>)
    requires |states| == |actions| + 1 && Inv(states[0]) && states[0].destroying
    requires forall i :: 0 <= i < |actions| ==> Next(states[i], actions[i], states[i + 1])
    ensures OwnSteps(actions) + StepsLeft(states[|actions|]) <= StepsLeft(states[0])
    ensures Inv(states[|actions|]) && states[|actions|].destroying
    decreases |actions|
  {
    if actions != [] {
      NextKeepsInv(states[0], actions[0], states[1]);
      StopAdvances(states[0], actions[0], states[1]);
      assert forall i :: 0 <= i < |actions[1..]| ==> actions[1..][i] == actions[i + 1];
      StopIsBounded(states[1..], actions[1..]);
    }
  }

  /**
   `Stop` ends: from the state in which `destroying_` was set, in any interleaving, it and the collector
   take a bounded number of steps, and until it has returned one of them can step unless a join is waiting
   for a thread that has not ended.
   */
  lemma StopEnds(states: seq<State>, actions: seq<Action>, k: nat)
    requires Run(states, actions) && k < |states| && states[k].destroying
    ensures OwnSteps(actions[k..]) <= StepsLeft(states[k])
    ensures states[|actions|].stopper == Stopped || WaitsForThread(states[|actions|])
            || exists a :: ByStopOrCollector(a) && CanStep(states[|actions|], a)
  {
    hide Next, Inv, CanStep, StepsLeft, WaitsForThread;
    ReachableInv(states, actions, k);
    var rest, later := actions[k..], states[k..];
    assert forall i :: 0 <= i < |rest| ==> rest[i] == actions[k + i] && later[i + 1] == states[k + i + 1];
    StopIsBounded(later, rest);
    assert later[|rest|] == states[|actions|];
    if states[|actions|].stopper != Stopped && !WaitsForThread(states[|actions|]) { StopNotStuck(states[|actions|]); }
  }
}
