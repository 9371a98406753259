/**
 Recycled events and synchronous senders (libs/libeventhandler/src/inner_event.cpp:30-214 and
 libs/libeventhandler/src/event_handler.cpp:100-135).
 */
module InnerEvents {
  import opened Basics

  const MAX_BUFFER_POOL_SIZE: nat := 64
  const UINT32_MAX: nat := 0xFFFF_FFFF

  /** The fields of an event object; callbacks, saved objects, handlers and waiters are named by numbers. */
  datatype Event = Event(innerEventId: int, param: int, callback: Option<nat>, taskName: string, object_: Option<nat>,
                         waiter: Option<nat>, traced: bool, owner: Option<nat>)

  const NEW_EVENT: Event := Event(0, 0, None, "", None, None, false, None)

  /** Nothing of an earlier use is left that the next user could reach. */
  predicate Clean(e: Event) {
    e.callback == None && e.taskName == "" && e.object_ == None && e.waiter == None && !e.traced && e.owner == None
  }

  /** `ClearEvent` after its waiter has been notified. */
  function Cleared(e: Event): Event {
    var unwaited := e.(waiter := None);
    var emptied := if e.callback.Some? then unwaited.(callback := None, taskName := "") else unwaited.(object_ := None);
    emptied.(traced := false, owner := None)
  }

  /** What the ways to get an event make of it: a task, or an id with a parameter and perhaps an object. */
  predicate OneKind(e: Event) { if e.callback.Some? then e.object_ == None else e.taskName == "" }

  /** Clearing leaves nothing behind exactly for events of one kind. */
  lemma ClearedIsClean(e: Event)
    ensures Clean(Cleared(e)) <==> OneKind(e)
  {
  }

  // ---- The pool ----

  datatype Pool = Pool(events: seq<Event>, usingCount: int, nextPeak: nat)

  datatype Got = Got(pool: Pool, event: Event)

  function GetFrom(p: Pool): Got {
    var using := p.usingCount + 1;
    if p.events != [] then
      var last := |p.events| - 1;
      Got(Pool(p.events[..last], using, p.nextPeak), p.events[last])
    else
      var peak := if using < p.nextPeak then p.nextPeak
                  else if UINT32_MAX - p.nextPeak > MAX_BUFFER_POOL_SIZE then p.nextPeak + MAX_BUFFER_POOL_SIZE
                  else UINT32_MAX;
      Got(Pool([], using, peak), NEW_EVENT)
  }

  function PutInto(p: Pool, e: Event): Pool {
    Pool(if |p.events| < MAX_BUFFER_POOL_SIZE then p.events + [e] else p.events, p.usingCount - 1, p.nextPeak)
  }

  class InnerEventPool {
    var events: seq<Event>
    var usingCount: int
    var nextPeakUsingCount: nat

    function State(): Pool
      reads this
    {
      Pool(events, usingCount, nextPeakUsingCount)
    }

    constructor ()
      ensures State() == Pool([], 0, MAX_BUFFER_POOL_SIZE)
    {
      events, usingCount, nextPeakUsingCount := [], 0, MAX_BUFFER_POOL_SIZE;
    }

    method Get() returns (event: Event)
      modifies this
      ensures Got(State(), event) == GetFrom(old(State()))
      ensures usingCount == old(usingCount) + 1
      ensures if old(events) == [] then events == [] && event == NEW_EVENT
              else old(events) == events + [event] && nextPeakUsingCount == old(nextPeakUsingCount)
      // an event more than the peak allows for raises it by 64, within 32 bits
      ensures old(events) == [] && old(nextPeakUsingCount) <= UINT32_MAX ==>
                nextPeakUsingCount == if usingCount < old(nextPeakUsingCount) then old(nextPeakUsingCount)
                                      else if old(nextPeakUsingCount) + 64 > UINT32_MAX then UINT32_MAX
                                      else old(nextPeakUsingCount) + 64
    {
      usingCount := usingCount + 1;
      if events != [] {
        event := events[|events| - 1];
        events := events[..|events| - 1];
        return;
      }
      if usingCount >= nextPeakUsingCount {
        if UINT32_MAX - nextPeakUsingCount > MAX_BUFFER_POOL_SIZE {
          nextPeakUsingCount := nextPeakUsingCount + MAX_BUFFER_POOL_SIZE;
        } else {
          nextPeakUsingCount := UINT32_MAX;
        }
      }
      event := NEW_EVENT;
    }

    method Put(event: Event)
      modifies this
      ensures State() == PutInto(old(State()), event)
      ensures usingCount == old(usingCount) - 1 && nextPeakUsingCount == old(nextPeakUsingCount)
      ensures events == if |old(events)| < 64 then old(events) + [event] else old(events)
    {
      usingCount := usingCount - 1;
      if |events| < MAX_BUFFER_POOL_SIZE {
        events := events + [event];
      }
    }
  }

  // ---- Senders, handlers and the pool together ----

  type Id = nat

  datatype Phase =
    | Testing                      // about to test `finished_` under the waiter's lock
    | Asleep(notified: bool)       // in `condition_.wait`
    | Released                     // `Wait` has returned
    | Abandoned                    // the event could not be sent

  /** One call of `SendSyncEvent`, with the waiter it created. */
  datatype Call = Call(event: Id, finished: bool, waiting: nat, phase: Phase)

  /** `outstanding`: events in use; `dropping`: cleared and about to be put back; `dropped`: all that were cleared. */
  datatype State = State(pool: Pool, outstanding: map<Id, Event>, dropping: map<Id, Event>, dropped: set<Id>,
                         calls: map<Id, Call>)

  ghost predicate Init(s: State) {
    s == State(Pool([], 0, MAX_BUFFER_POOL_SIZE), map[], map[], {}, map[])
  }

  datatype Use =
    | AsTask(callback: nat, name: string)
    | AsEvent(innerEventId: int, param: int, object_: Option<nat>)
    | AsIs

  function Initialized(e: Event, use: Use): Event {
    match use
    case AsTask(c, n) => e.(callback := Some(c), taskName := n)
    case AsEvent(i, p, o) => e.(innerEventId := i, param := p, object_ := o)
    case AsIs => e
  }

  datatype Action =
    | Get(event: Id, use: Use)
    | SetOwner(event: Id, owner: nat)
    | Trace(event: Id)
    | CreateWaiter(event: Id, call: Id)
    | Abandon(call: Id)
    | Test(call: Id)
    | WakeUp(call: Id, spurious: bool)
    | Clear(event: Id)
    | Put(event: Id)

  /** `Notify`: the flag first, then every sleeper. */
  function Notified(c: Call): Call {
    c.(finished := true, phase := if c.waiting > 0 && c.phase.Asleep? then Asleep(true) else c.phase)
  }

  function NotifyWaiter(calls: map<Id, Call>, waiter: Option<Id>): map<Id, Call> {
    if waiter.Some? && waiter.value in calls then calls[waiter.value := Notified(calls[waiter.value])] else calls
  }

  ghost predicate Next(s: State, a: Action, t: State) {
    match a
    case Get(e, use) =>
      && e !in s.outstanding && e !in s.dropping && e !in s.dropped
      && t == s.(pool := GetFrom(s.pool).pool,
                 outstanding := s.outstanding[e := Initialized(GetFrom(s.pool).event, use)])
    case SetOwner(e, h) => e in s.outstanding
            && t == s.(outstanding := s.outstanding[e := s.outstanding[e].(owner := Some(h))])
    case Trace(e) => e in s.outstanding && t == s.(outstanding := s.outstanding[e := s.outstanding[e].(traced := true)])
    case CreateWaiter(e, c) =>
      && e in s.outstanding && s.outstanding[e].waiter == None && c !in s.calls
      && t == s.(outstanding := s.outstanding[e := s.outstanding[e].(waiter := Some(c))],
                 calls := s.calls[c := Call(e, false, 0, Testing)])
    case Abandon(c) =>
      c in s.calls && s.calls[c].phase == Testing && t == s.(calls := s.calls[c := s.calls[c].(phase := Abandoned)])
    case Test(c) =>
      && c in s.calls && s.calls[c].phase == Testing
      && var k := s.calls[c];
         t == s.(calls := s.calls[c := if k.finished then k.(phase := Released)
                                       else k.(waiting := k.waiting + 1, phase := Asleep(false))])
    case WakeUp(c, spurious) =>
      && c in s.calls && s.calls[c].phase.Asleep? && (spurious || s.calls[c].phase.notified)
      && var k := s.calls[c];
         t == s.(calls := s.calls[c := k.(waiting := if k.waiting > 0 then k.waiting - 1 else 0, phase := Testing)])
    case Clear(e) =>
      && e in s.outstanding
      && t == s.(calls := NotifyWaiter(s.calls, s.outstanding[e].waiter), outstanding := s.outstanding - {e},
                 dropping := s.dropping[e := Cleared(s.outstanding[e])], dropped := s.dropped + {e})
    case Put(e) =>
      e in s.dropping && t == s.(pool := PutInto(s.pool, s.dropping[e]), dropping := s.dropping - {e})
  }

  /** The waiter's flag tells whether the event has been dropped, and nobody sleeps through it. */
  ghost predicate CallSound(s: State, c: Id)
    requires c in s.calls
  {
    var k := s.calls[c];
    && (if k.finished then k.event in s.dropped
        else k.event in s.outstanding && s.outstanding[k.event].waiter == Some(c))
    && k.waiting == (if k.phase.Asleep? then 1 else 0)
    && (k.phase.Asleep? && k.finished ==> k.phase.notified)
    && (k.phase == Released ==> k.finished)
  }

  ghost predicate PoolSound(s: State) {
    && |s.pool.events| <= MAX_BUFFER_POOL_SIZE && s.pool.nextPeak <= UINT32_MAX
    && (forall i :: 0 <= i < |s.pool.events| ==> Clean(s.pool.events[i]))
    && s.pool.usingCount == |s.outstanding| + |s.dropping|
  }

  ghost predicate EventsSound(s: State) {
    && PoolSound(s)
    && (forall e :: e in s.outstanding ==> OneKind(s.outstanding[e]) && e !in s.dropped && e !in s.dropping)
    && (forall e :: e in s.dropping ==> Clean(s.dropping[e]) && e in s.dropped)
  }

  /** A waiter belongs to one event, and is not finished while the event is in use. */
  predicate WaiterKnown(calls: map<Id, Call>, c: Id, e: Id) { c in calls && calls[c].event == e && !calls[c].finished }

  ghost predicate CallsSound(s: State) {
    && (forall c :: c in s.calls ==> CallSound(s, c))
    && (forall e :: e in s.outstanding && s.outstanding[e].waiter.Some? ==>
            WaiterKnown(s.calls, s.outstanding[e].waiter.value, e))
  }

  ghost predicate Inv(s: State) { EventsSound(s) && CallsSound(s) }

  // Preservation of the two halves.

  lemma GetKeepsEvents(s: State, e: Id, use: Use, t: State)
    requires EventsSound(s) && Next(s, Get(e, use), t)
    ensures EventsSound(t)
  {
    assert |t.outstanding| == |s.outstanding| + 1;
    assert Clean(GetFrom(s.pool).event);
  }

  lemma UseKeepsEvents(s: State, a: Action, t: State)
    requires EventsSound(s) && (a.SetOwner? || a.Trace? || a.CreateWaiter?) && Next(s, a, t)
    ensures EventsSound(t)
  {
    assert t.outstanding.Keys == s.outstanding.Keys;
    assert |t.outstanding| == |s.outstanding| by { assert |t.outstanding.Keys| == |s.outstanding.Keys|; }
  }

  lemma ClearKeepsEvents(s: State, e: Id, t: State)
    requires EventsSound(s) && Next(s, Clear(e), t)
    ensures EventsSound(t)
  {
    hide Notified, NotifyWaiter, Cleared, OneKind, Clean, GetFrom, PutInto, Initialized;
    ClearedIsClean(s.outstanding[e]);
    MovedCounts(s.outstanding, s.dropping, e, Cleared(s.outstanding[e]));
  }

  lemma MovedCounts(from: map<Id, Event>, to: map<Id, Event>, e: Id, x: Event)
    requires e in from && e !in to
    ensures |from - {e}| == |from| - 1 && |to[e := x]| == |to| + 1
  {
    assert (from - {e}).Keys == from.Keys - {e} && to[e := x].Keys == to.Keys + {e};
  }

  lemma PutKeepsEvents(s: State, e: Id, t: State)
    requires EventsSound(s) && Next(s, Put(e), t)
    ensures EventsSound(t)
  {
    assert t.dropping.Keys == s.dropping.Keys - {e};
    assert |t.dropping| == |s.dropping| - 1;
  }

  lemma NextKeepsEvents(s: State, a: Action, t: State)
    requires EventsSound(s) && Next(s, a, t)
    ensures EventsSound(t)
  {
    if a.Get? {
      GetKeepsEvents(s, a.event, a.use, t);
    } else if a.SetOwner? || a.Trace? || a.CreateWaiter? {
      UseKeepsEvents(s, a, t);
    } else if a.Clear? {
      ClearKeepsEvents(s, a.event, t);
    } else if a.Put? {
      PutKeepsEvents(s, a.event, t);
    }
  }

  lemma GetKeepsCalls(s: State, e: Id, use: Use, t: State)
    requires Inv(s) && Next(s, Get(e, use), t)
    ensures CallsSound(t)
  {
    assert GetFrom(s.pool).event.waiter == None;
    hide PoolSound, GetFrom, Clean, OneKind;
    forall c | c in t.calls
      ensures CallSound(t, c)
    {
      assert CallSound(s, c);
    }
  }

  /** Steps that touch no call and no waiter. */
  lemma QuietKeepsCalls(s: State, a: Action, t: State)
    requires CallsSound(s) && (a.SetOwner? || a.Trace? || a.Put?) && Next(s, a, t)
    ensures CallsSound(t)
  {
    hide Cleared, PutInto;
    forall c | c in t.calls
      ensures CallSound(t, c)
    {
      assert CallSound(s, c);
    }
  }

  lemma WaiterKeepsCalls(s: State, e: Id, c: Id, t: State)
    requires Inv(s) && Next(s, CreateWaiter(e, c), t)
    ensures CallsSound(t)
  {
    hide PoolSound;
    forall d | d in t.calls
      ensures CallSound(t, d)
    {
      if d in s.calls { assert CallSound(s, d); }
    }
  }

  lemma CallKeepsCalls(s: State, a: Action, t: State)
    requires CallsSound(s) && (a.Abandon? || a.Test? || a.WakeUp?) && Next(s, a, t)
    ensures CallsSound(t)
  {
    hide PoolSound;
    forall c | c in t.calls
      ensures CallSound(t, c)
    {
      assert CallSound(s, c);
    }
  }

  lemma ClearKeepsCalls(s: State, e: Id, t: State)
    requires Inv(s) && Next(s, Clear(e), t)
    ensures CallsSound(t)
  {
    hide Notified, Cleared, PoolSound;
    forall c | c in t.calls
      ensures CallSound(t, c)
    {
      ClearKeepsCall(s, e, t, c);
    }
    forall x | x in t.outstanding && t.outstanding[x].waiter.Some?
      ensures WaiterKnown(t.calls, t.outstanding[x].waiter.value, x)
    {
      assert WaiterKnown(s.calls, s.outstanding[x].waiter.value, x);
      if s.outstanding[e].waiter.Some? { assert WaiterKnown(s.calls, s.outstanding[e].waiter.value, e); }
    }
  }

  lemma ClearKeepsCall(s: State, e: Id, t: State, c: Id)
    requires Inv(s) && Next(s, Clear(e), t) && c in t.calls
    ensures c in s.calls && CallSound(t, c)
  {
    hide PoolSound, Cleared;
    assert CallSound(s, c);
    if s.outstanding[e].waiter.Some? { assert WaiterKnown(s.calls, s.outstanding[e].waiter.value, e); }
  }

  lemma NextKeepsInv(s: State, a: Action, t: State)
    requires Inv(s) && Next(s, a, t)
    ensures Inv(t)
  {
    NextKeepsEvents(s, a, t);
    hide Next, EventsSound, CallsSound;
    if a.CreateWaiter? {
      WaiterKeepsCalls(s, a.event, a.call, t);
    } else if a.Clear? {
      ClearKeepsCalls(s, a.event, t);
    } else if a.Abandon? || a.Test? || a.WakeUp? {
      CallKeepsCalls(s, a, t);
    } else if a.Get? {
      GetKeepsCalls(s, a.event, a.use, t);
    } else {
      QuietKeepsCalls(s, a, t);
    }
  }

  lemma InitInv(s: State)
    requires Init(s)
    ensures Inv(s)
  {
  }

  ghost predicate Run(states: seq<State>, actions: seq<Action>) {
    && |states| == |actions| + 1 && Init(states[0])
    && forall i :: 0 <= i < |actions| ==> Next(states[i], actions[i], states[i + 1])
  }

  lemma {:induction false} ReachableInv(states: seq<State>, actions: seq<Action>, k: nat)
    requires Run(states, actions) && k < |states|
    ensures Inv(states[k])
  {
    hide Next, Inv, Init;
    if k == 0 {
      InitInv(states[0]);
    } else {
      ReachableInv(states, actions, k - 1);
      NextKeepsInv(states[k - 1], actions[k - 1], states[k]);
    }
  }

  /**
   The pool in every reachable state: never more than 64 events, none of which carries anything of its
   earlier use, and the count is that of the events still in use or being put back.
   */
  lemma PoolIsSound(states: seq<State>, actions: seq<Action>, k: nat)
    requires Run(states, actions) && k < |states|
    ensures |states[k].pool.events| <= MAX_BUFFER_POOL_SIZE
    ensures forall i :: 0 <= i < |states[k].pool.events| ==> Clean(states[k].pool.events[i])
    ensures states[k].pool.usingCount == |states[k].outstanding| + |states[k].dropping|
  {
    ReachableInv(states, actions, k);
  }

  /**
   Synchronous senders in every reachable state: one that has been released had its event dropped, be it
   after dispatch or by removal; one whose event has been dropped is not asleep without a wake-up; and one whose
   event is still in use is still in the way of that event's waiter.
   */
  lemma SendersWaitForDrop(states: seq<State>, actions: seq<Action>, k: nat, c: Id)
    requires Run(states, actions) && k < |states| && c in states[k].calls
    ensures var s, call := states[k], states[k].calls[c];
            && (call.phase == Released ==> call.event in s.dropped)
            && (call.event in s.dropped ==> !(call.phase.Asleep? && !call.phase.notified))
            && (call.event in s.dropped <==> call.event !in s.outstanding)
            && (call.event in s.outstanding ==> s.outstanding[call.event].waiter == Some(c))
  {
    ReachableInv(states, actions, k);
    assert CallSound(states[k], c);
  }

  /** Recycling: an event put back below the cap is the next one taken, and carries only what its new user gave it. */
  lemma PutBackIsTakenNext(s: State, e: Id, t: State, f: Id, use: Use, u: State)
    requires Inv(s) && Next(s, Put(e), t) && Next(t, Get(f, use), u) && |s.pool.events| < MAX_BUFFER_POOL_SIZE
    ensures u.pool.events == s.pool.events && u.pool.usingCount == s.pool.usingCount && f in u.outstanding
    ensures var x := u.outstanding[f];
            && x.waiter == None && x.owner == None && !x.traced
            && match use
               case AsTask(c, n) => x.callback == Some(c) && x.taskName == n && x.object_ == None
               case AsEvent(i, p, o) =>
                 x.callback == None && x.taskName == "" && x.object_ == o && x.innerEventId == i && x.param == p
               case AsIs => x.callback == None && x.taskName == "" && x.object_ == None
  {
    assert t.pool.events == s.pool.events + [s.dropping[e]];
    assert Clean(s.dropping[e]);
  }

  /** A drop, which ends an event's use, releases the sender waiting for it and no other. */
  lemma DropReleasesItsSender(s: State, e: Id, t: State)
    requires Inv(s) && Next(s, Clear(e), t)
    ensures e in t.dropped && e !in t.outstanding && e in t.dropping && Clean(t.dropping[e])
    ensures t.calls.Keys == s.calls.Keys
    ensures forall c :: c in s.calls ==>
              if s.outstanding[e].waiter == Some(c) then t.calls[c].finished && t.calls[c].phase != Asleep(false)
              else t.calls[c] == s.calls[c]
  {
    ClearedIsClean(s.outstanding[e]);
    if s.outstanding[e].waiter.Some? {
      assert WaiterKnown(s.calls, s.outstanding[e].waiter.value, e);
      assert CallSound(s, s.outstanding[e].waiter.value);
    }
  }

  ghost predicate CanStep(s: State, a: Action) { exists t :: Next(s, a, t) }

  /** What users, senders and handlers may do at any time. */
  lemma EveryoneCanStep(s: State, e: Id, c: Id, use: Use, owner: nat)
    ensures e !in s.outstanding && e !in s.dropping && e !in s.dropped ==> CanStep(s, Get(e, use))
    ensures e in s.outstanding ==> CanStep(s, Clear(e)) && CanStep(s, SetOwner(e, owner)) && CanStep(s, Trace(e))
    ensures e in s.outstanding && s.outstanding[e].waiter == None && c !in s.calls ==> CanStep(s, CreateWaiter(e, c))
    ensures e in s.dropping ==> CanStep(s, Put(e))
    ensures c in s.calls && s.calls[c].phase == Testing ==> CanStep(s, Test(c)) && CanStep(s, Abandon(c))
    ensures c in s.calls && s.calls[c].phase.Asleep? ==> CanStep(s, WakeUp(c, true))
  {
    if e in s.outstanding {
      var x := s.outstanding[e];
      assert Next(s, SetOwner(e, owner), s.(outstanding := s.outstanding[e := x.(owner := Some(owner))]));
      assert Next(s, Trace(e), s.(outstanding := s.outstanding[e := x.(traced := true)]));
      assert Next(s, Clear(e), s.(calls := NotifyWaiter(s.calls, x.waiter), outstanding := s.outstanding - {e},
                                  dropping := s.dropping[e := Cleared(x)], dropped := s.dropped + {e}));
      if x.waiter == None && c !in s.calls {
        assert Next(s, CreateWaiter(e, c), s.(outstanding := s.outstanding[e := x.(waiter := Some(c))],
                                              calls := s.calls[c := Call(e, false, 0, Testing)]));
      }
    } else if e in s.dropping {
      assert Next(s, Put(e), s.(pool := PutInto(s.pool, s.dropping[e]), dropping := s.dropping - {e}));
    } else if e !in s.dropped {
      var g := GetFrom(s.pool);
      assert Next(s, Get(e, use), s.(pool := g.pool, outstanding := s.outstanding[e := Initialized(g.event, use)]));
    }
    if e in s.dropping {
      assert Next(s, Put(e), s.(pool := PutInto(s.pool, s.dropping[e]), dropping := s.dropping - {e}));
    }
    if c in s.calls {
      var k := s.calls[c];
      if k.phase == Testing {
        assert Next(s, Abandon(c), s.(calls := s.calls[c := k.(phase := Abandoned)]));
        assert Next(s, Test(c), s.(calls := s.calls[c := if k.finished then k.(phase := Released)
                                                        else k.(waiting := k.waiting + 1, phase := Asleep(false))]));
      } else if k.phase.Asleep? {
        var left := if k.waiting > 0 then k.waiting - 1 else 0;
        assert Next(s, WakeUp(c, true), s.(calls := s.calls[c := k.(waiting := left, phase := Testing)]));
      }
    }
  }

  /** Once its event is dropped, a sender needs two steps of its own at most to be released. */
  lemma DroppedSenderReturns(s: State, c: Id)
    requires Inv(s) && c in s.calls && s.calls[c].finished && s.calls[c].phase != Abandoned
    ensures s.calls[c].phase == Released
            || exists t, u ::
                 && (if s.calls[c].phase.Asleep? then Next(s, WakeUp(c, false), t) else t == s)
                 && Next(t, Test(c), u) && u.calls[c].phase == Released
  {
    var k := s.calls[c];
    assert CallSound(s, c);
    if k.phase != Released {
      var t := if k.phase.Asleep? then s.(calls := s.calls[c := k.(waiting := 0, phase := Testing)]) else s;
      var u := t.(calls := t.calls[c := t.calls[c].(phase := Released)]);
      assert k.phase.Asleep? ==> Next(s, WakeUp(c, false), t);
      assert Next(t, Test(c), u) && c in u.calls && u.calls[c].phase == Released;
    }
  }
}
