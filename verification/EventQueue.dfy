/**
 The event values and the lists that keep them sorted by handle time
 (libs/libeventhandler/src/event_queue.cpp:29-81).
 */
module EventLists {
  import opened Basics

  /** Steady-clock readings, in nanoseconds, with the range of a signed 64-bit count. */
  const MAX_TIME: int := 0x7FFF_FFFF_FFFF_FFFF
  type Time = t: int | -MAX_TIME - 1 <= t <= MAX_TIME witness 0

  /** `id` stands for the identity of the pointer that owns the event. */
  datatype Event = Event(id: nat, handleTime: Time, sendTime: Time, owner: Option<nat>,
                         task: Option<string>, innerEventId: int, param: int)

  ghost predicate Sorted(s: seq<Event>) {
    forall i, j :: 0 <= i < j < |s| ==> s[i].handleTime <= s[j].handleTime
  }

  /** The position `std::upper_bound` finds: the first event that is handled strictly later. */
  function UpperBound(s: seq<Event>, t: Time): (i: nat)
    ensures i <= |s|
    ensures forall k :: 0 <= k < i ==> s[k].handleTime <= t
    ensures i < |s| ==> t < s[i].handleTime
  {
    if s == [] || t < s[0].handleTime then 0
    else
      var r := UpperBound(s[1..], t);
      assert forall k :: 1 <= k < r + 1 ==> s[k] == s[1..][k - 1];
      r + 1
  }

  function InsertSorted(s: seq<Event>, e: Event): seq<Event> {
    var i := UpperBound(s, e.handleTime);
    s[..i] + [e] + s[i..]
  }

  /** What `std::list::remove_if` leaves. */
  function RemoveIf(s: seq<Event>, filter: Event -> bool): (r: seq<Event>)
    ensures forall e :: e in r <==> e in s && !filter(e)
  {
    if s == [] then []
    else if filter(s[0]) then RemoveIf(s[1..], filter)
    else [s[0]] + RemoveIf(s[1..], filter)
  }

  /** What `std::list::remove_if` takes out. */
  function Matching(s: seq<Event>, filter: Event -> bool): seq<Event> {
    if s == [] then []
    else if filter(s[0]) then [s[0]] + Matching(s[1..], filter)
    else Matching(s[1..], filter)
  }

  /** `first` stands before `second` in the list. */
  ghost predicate Before(s: seq<Event>, first: Event, second: Event) {
    exists i, j :: 0 <= i < j < |s| && s[i] == first && s[j] == second
  }

  lemma InsertKeepsSorted(s: seq<Event>, e: Event)
    requires Sorted(s)
    ensures Sorted(InsertSorted(s, e))
  {
    var i, r := UpperBound(s, e.handleTime), InsertSorted(s, e);
    assert forall k :: 0 <= k < i ==> r[k] == s[k];
    assert r[i] == e;
    assert forall k :: i < k < |r| ==> r[k] == s[k - 1];
  }

  lemma InsertAddsOne(s: seq<Event>, e: Event)
    ensures multiset(InsertSorted(s, e)) == multiset(s) + multiset{e}
  {
    var i := UpperBound(s, e.handleTime);
    assert s == s[..i] + s[i..];
  }

  /** Removal keeps the order, and a head that is not filtered out stays the head. */
  lemma {:induction false} RemoveIfKeepsSorted(s: seq<Event>, filter: Event -> bool)
    requires Sorted(s)
    ensures Sorted(RemoveIf(s, filter))
    ensures forall x :: x in RemoveIf(s, filter) ==> s[0].handleTime <= x.handleTime
  {
    if s != [] {
      RemoveIfKeepsSorted(s[1..], filter);
      var r := RemoveIf(s, filter);
      forall x | x in r
        ensures s[0].handleTime <= x.handleTime
      {
        assert x in s;
      }
      if !filter(s[0]) {
        assert r[0] == s[0] && r[1..] == RemoveIf(s[1..], filter);
        forall j | 0 <= j < |r|
          ensures r[0].handleTime <= r[j].handleTime
        {
          assert r[j] in r;
        }
      }
    }
  }

  lemma {:induction false} RemoveIfSplits(s: seq<Event>, filter: Event -> bool)
    ensures multiset(s) == multiset(RemoveIf(s, filter)) + multiset(Matching(s, filter))
  {
    if s != [] {
      RemoveIfSplits(s[1..], filter);
      assert s == [s[0]] + s[1..];
    }
  }
}

/**
 The timed priority queue (libs/libeventhandler/src/event_queue.cpp): its state as a value,
 the functions that specify each locked region, and the class that works in place.
 */
module EventQueues {
  import opened Basics
  import opened EventLists

  const SUB_EVENT_QUEUE_NUM: nat := 3
  const DEFAULT_MAX_HANDLED_EVENT_COUNT: nat := 5

  datatype Priority = IMMEDIATE | HIGH | LOW | IDLE

  function Index(p: Priority): nat {
    match p case IMMEDIATE => 0 case HIGH => 1 case LOW => 2 case IDLE => 3
  }

  datatype SubQueue = SubQueue(queue: seq<Event>, handled: nat, maxHandled: nat)

  datatype QueueState = QueueState(subs: seq<SubQueue>, idle: seq<Event>, wakeUp: Time,
                                   idleStamp: Time, isIdle: bool, finished: bool)

  /** What every operation keeps. */
  ghost predicate WellFormed(s: QueueState) {
    && |s.subs| == SUB_EVENT_QUEUE_NUM
    && Sorted(s.idle)
    && forall i :: 0 <= i < SUB_EVENT_QUEUE_NUM ==> Sorted(s.subs[i].queue) && s.subs[i].handled <= s.subs[i].maxHandled
  }

  function Initial(now: Time): QueueState {
    var empty := SubQueue([], 0, DEFAULT_MAX_HANDLED_EVENT_COUNT);
    QueueState([empty, empty, empty], [], MAX_TIME, now, true, true)
  }

  // ---- Insert and Remove ----

  function Insert(s: QueueState, e: Event, p: Priority): QueueState
    requires |s.subs| == SUB_EVENT_QUEUE_NUM
  {
    if p == IDLE then s.(idle := InsertSorted(s.idle, e))
    else
      var sub := s.subs[Index(p)];
      s.(subs := s.subs[Index(p) := sub.(queue := InsertSorted(sub.queue, e))])
  }

  /** Only a timed event due before the recorded wake-up time interrupts a sleeping runner. */
  predicate NeedNotify(s: QueueState, e: Event, p: Priority) {
    p != IDLE && e.handleTime < s.wakeUp
  }

  function Filtered(sub: SubQueue, filter: Event -> bool): SubQueue {
    sub.(queue := RemoveIf(sub.queue, filter))
  }

  function Remove(s: QueueState, filter: Event -> bool): QueueState
    requires |s.subs| == SUB_EVENT_QUEUE_NUM
  {
    s.(subs := [Filtered(s.subs[0], filter), Filtered(s.subs[1], filter), Filtered(s.subs[2], filter)],
       idle := RemoveIf(s.idle, filter))
  }

  // ---- Picking the next event ----

  /** `CheckEventInListLocked`: the head is both earlier than every head seen before and due. */
  predicate Check(queue: seq<Event>, now: Time, wake: Time) {
    queue != [] && queue[0].handleTime < wake && queue[0].handleTime <= now
  }

  /** The wake-up time `CheckEventInListLocked` leaves behind. */
  function Lower(queue: seq<Event>, wake: Time): Time {
    if queue != [] && queue[0].handleTime < wake then queue[0].handleTime else wake
  }

  /** `index` is `SUB_EVENT_QUEUE_NUM` when no queue has a due head; `counted` when a quota was used. */
  datatype Choice = Choice(index: nat, wake: Time, counted: bool)

  /** The scan over the sub-queues from `i` on, with `index` the candidate found so far. */
  function Scan(subs: seq<SubQueue>, now: Time, i: nat, index: nat, wake: Time): (c: Choice)
    requires |subs| == SUB_EVENT_QUEUE_NUM && i <= SUB_EVENT_QUEUE_NUM && index <= SUB_EVENT_QUEUE_NUM
    ensures c.index <= SUB_EVENT_QUEUE_NUM
    decreases SUB_EVENT_QUEUE_NUM - i
  {
    if i == SUB_EVENT_QUEUE_NUM then Choice(index, wake, false)
    else if !Check(subs[i].queue, now, wake) then Scan(subs, now, i + 1, index, Lower(subs[i].queue, wake))
    else if index < SUB_EVENT_QUEUE_NUM && subs[index].handled < subs[index].maxHandled then
      Choice(index, subs[i].queue[0].handleTime, true)
    else Scan(subs, now, i + 1, i, subs[i].queue[0].handleTime)
  }

  function Choose(subs: seq<SubQueue>, now: Time): Choice
    requires |subs| == SUB_EVENT_QUEUE_NUM
  {
    Scan(subs, now, 0, SUB_EVENT_QUEUE_NUM, MAX_TIME)
  }

  /** A head that is due and not parked at the end of time. */
  predicate Due(queue: seq<Event>, now: Time) {
    queue != [] && queue[0].handleTime <= now && queue[0].handleTime < MAX_TIME
  }

  predicate SomeDue(subs: seq<SubQueue>, now: Time) {
    exists i :: 0 <= i < |subs| && Due(subs[i].queue, now)
  }

  function Earliest(queue: seq<Event>): Time {
    if queue == [] then MAX_TIME else queue[0].handleTime
  }

  function Min(a: Time, b: Time): Time { if b < a then b else a }

  function EarliestOfAll(subs: seq<SubQueue>): Time
    requires |subs| == SUB_EVENT_QUEUE_NUM
  {
    Min(Min(Earliest(subs[0].queue), Earliest(subs[1].queue)), Earliest(subs[2].queue))
  }

  /** Picking is exact and work-conserving, and an unsuccessful scan records the earliest handle time. */
  lemma ChooseIsExact(subs: seq<SubQueue>, now: Time)
    requires |subs| == SUB_EVENT_QUEUE_NUM
    ensures Choose(subs, now).index < SUB_EVENT_QUEUE_NUM <==> SomeDue(subs, now)
    ensures Choose(subs, now).index < SUB_EVENT_QUEUE_NUM ==> Due(subs[Choose(subs, now).index].queue, now)
    ensures !SomeDue(subs, now) ==> Choose(subs, now).wake == EarliestOfAll(subs)
    ensures EarliestOfAll(subs) <= Choose(subs, now).wake
    ensures var c := Choose(subs, now); c.counted ==>
              c.index < 2 && subs[c.index].handled < subs[c.index].maxHandled
  {
    var c0, w0 := if Check(subs[0].queue, now, MAX_TIME) then 0 else 3, Lower(subs[0].queue, MAX_TIME);
    assert Choose(subs, now) == Scan(subs, now, 1, c0, w0);
    var w1 := Lower(subs[1].queue, w0);
    if Check(subs[1].queue, now, w0) && (c0 == 3 || subs[0].handled >= subs[0].maxHandled) {
      assert Choose(subs, now) == Scan(subs, now, 2, 1, w1);
    } else if !Check(subs[1].queue, now, w0) {
      assert Choose(subs, now) == Scan(subs, now, 2, c0, w1);
    }
  }

  /** A list whose head is due and strictly earlier than the head of every list of a higher priority. */
  predicate Candidate(subs: seq<SubQueue>, now: Time, i: nat) {
    && i < |subs| && Due(subs[i].queue, now)
    && forall j :: 0 <= j < i ==> subs[j].queue == [] || subs[i].queue[0].handleTime < subs[j].queue[0].handleTime
  }

  /**
   Priority decides: the first candidate with quota left is chosen, or the last candidate when there is none. A quota is
   used exactly when a later candidate is passed over, and then its handle time is the wake-up time.
   */
  lemma PriorityDecides(subs: seq<SubQueue>, now: Time)
    requires |subs| == SUB_EVENT_QUEUE_NUM
    ensures var c := Choose(subs, now);
            if c.index == SUB_EVENT_QUEUE_NUM then !c.counted && forall i :: 0 <= i < SUB_EVENT_QUEUE_NUM ==>
                !Candidate(subs, now, i)
            else
              && Candidate(subs, now, c.index)
              && (forall i :: 0 <= i < c.index && Candidate(subs, now, i) ==> subs[i].maxHandled <= subs[i].handled)
              && (c.counted <==> exists j :: c.index < j < SUB_EVENT_QUEUE_NUM && Candidate(subs, now, j))
              && (c.counted ==> subs[c.index].handled < subs[c.index].maxHandled)
              && (!c.counted ==> c.wake == EarliestOfAll(subs))
              && (c.counted ==>
                    exists j :: c.index < j < SUB_EVENT_QUEUE_NUM && Candidate(subs, now, j)
                                && c.wake == subs[j].queue[0].handleTime
                                && forall k :: c.index < k < j ==> !Candidate(subs, now, k))
  {
    var c0, w0 := if Check(subs[0].queue, now, MAX_TIME) then 0 else 3, Lower(subs[0].queue, MAX_TIME);
    assert Choose(subs, now) == Scan(subs, now, 1, c0, w0);
    var w1 := Lower(subs[1].queue, w0);
    assert Check(subs[0].queue, now, MAX_TIME) <==> Candidate(subs, now, 0);
    assert Check(subs[1].queue, now, w0) <==> Candidate(subs, now, 1);
    assert Check(subs[2].queue, now, w1) <==> Candidate(subs, now, 2);
    if Check(subs[1].queue, now, w0) && (c0 == 3 || subs[0].handled >= subs[0].maxHandled) {
      assert Choose(subs, now) == Scan(subs, now, 2, 1, w1);
    } else if !Check(subs[1].queue, now, w0) {
      assert Choose(subs, now) == Scan(subs, now, 2, c0, w1);
    }
  }

  function Reset(sub: SubQueue): SubQueue { sub.(handled := 0) }

  function Popped(sub: SubQueue, counted: bool): SubQueue
    requires sub.queue != []
  {
    SubQueue(sub.queue[1..], if counted then sub.handled + 1 else sub.handled, sub.maxHandled)
  }

  /** The sub-queues after a pick: the chosen one loses its head, those above it start a new quota. */
  function AfterPick(subs: seq<SubQueue>, c: Choice): seq<SubQueue>
    requires |subs| == SUB_EVENT_QUEUE_NUM && c.index < SUB_EVENT_QUEUE_NUM && subs[c.index].queue != []
  {
    var popped := Popped(subs[c.index], c.counted);
    if c.index == 0 then [popped, subs[1], subs[2]]
    else if c.index == 1 then [Reset(subs[0]), popped, subs[2]]
    else [Reset(subs[0]), Reset(subs[1]), popped]
  }

  // ---- GetExpiredEvent ----

  datatype Outcome = Outcome(state: QueueState, event: Option<Event>)

  predicate IdleReady(idle: seq<Event>, stamp: Time, now: Time) {
    idle != [] && idle[0].sendTime <= stamp && idle[0].handleTime <= now
  }

  function GetExpired(s: QueueState, now: Time): Outcome
    requires |s.subs| == SUB_EVENT_QUEUE_NUM
  {
    ChooseIsExact(s.subs, now);
    var c := Choose(s.subs, now);
    if c.index < SUB_EVENT_QUEUE_NUM then
      Outcome(s.(subs := AfterPick(s.subs, c), wakeUp := c.wake, isIdle := false), Some(s.subs[c.index].queue[0]))
    else
      var stamp := if s.isIdle then s.idleStamp else now;
      var idling := s.(wakeUp := c.wake, isIdle := true, idleStamp := stamp);
      if IdleReady(s.idle, stamp, now) then Outcome(idling.(idle := s.idle[1..]), Some(s.idle[0]))
      else Outcome(idling, None)
  }

  lemma InsertKeepsWellFormed(s: QueueState, e: Event, p: Priority)
    requires WellFormed(s)
    ensures WellFormed(Insert(s, e, p))
  {
    if p == IDLE {
      InsertKeepsSorted(s.idle, e);
    } else {
      InsertKeepsSorted(s.subs[Index(p)].queue, e);
    }
  }

  lemma RemoveKeepsWellFormed(s: QueueState, filter: Event -> bool)
    requires WellFormed(s)
    ensures WellFormed(Remove(s, filter))
  {
    RemoveIfKeepsSorted(s.idle, filter);
    RemoveIfKeepsSorted(s.subs[0].queue, filter);
    RemoveIfKeepsSorted(s.subs[1].queue, filter);
    RemoveIfKeepsSorted(s.subs[2].queue, filter);
  }

  lemma GetExpiredKeepsWellFormed(s: QueueState, now: Time)
    requires WellFormed(s)
    ensures WellFormed(GetExpired(s, now).state)
  {
    hide Choose, EarliestOfAll, SomeDue;
    ChooseIsExact(s.subs, now);
  }

  /**
   One pass, exactly: the head of list `c` is handed out and only it is taken; the lists of higher priority start new
   quotas, and `c` is charged when a later candidate waits. Without a due event nothing timed moves, the idle period
   starts unless one is running, and the idle head goes if it was sent by its start and is due.
   */
  lemma GetExpiredIsExact(s: QueueState, now: Time) returns (c: nat)
    requires |s.subs| == SUB_EVENT_QUEUE_NUM
    ensures var o := GetExpired(s, now);
            && |o.state.subs| == SUB_EVENT_QUEUE_NUM && o.state.finished == s.finished
            && if SomeDue(s.subs, now) then
                 && c < SUB_EVENT_QUEUE_NUM && Candidate(s.subs, now, c) && o.event == Some(s.subs[c].queue[0])
                 && (forall i :: 0 <= i < c && Candidate(s.subs, now, i) ==> s.subs[i].maxHandled <= s.subs[i].handled)
                 && ((exists j :: c < j < SUB_EVENT_QUEUE_NUM && Candidate(s.subs, now, j)) ==>
                       s.subs[c].handled < s.subs[c].maxHandled)
                 && (if exists j :: c < j < SUB_EVENT_QUEUE_NUM && Candidate(s.subs, now, j)
                     then exists j :: c < j < SUB_EVENT_QUEUE_NUM && Candidate(s.subs, now, j)
                                      && o.state.wakeUp == s.subs[j].queue[0].handleTime
                                      && forall k :: c < k < j ==> !Candidate(s.subs, now, k)
                     else o.state.wakeUp == EarliestOfAll(s.subs))
                 && !o.state.isIdle && o.state.idleStamp == s.idleStamp && o.state.idle == s.idle
                 && forall k :: 0 <= k < SUB_EVENT_QUEUE_NUM ==>
                      && o.state.subs[k].queue == (if k == c then s.subs[k].queue[1..] else s.subs[k].queue)
                      && o.state.subs[k].maxHandled == s.subs[k].maxHandled
                      && o.state.subs[k].handled
                         == if k < c then 0
                            else if k == c && exists j :: c < j < SUB_EVENT_QUEUE_NUM && Candidate(s.subs, now, j)
                            then s.subs[k].handled + 1 else s.subs[k].handled
               else
                 var stamp := if s.isIdle then s.idleStamp else now;
                 && o.state.subs == s.subs && o.state.isIdle && o.state.idleStamp == stamp
                 && o.state.wakeUp == EarliestOfAll(s.subs)
                 && if s.idle != [] && s.idle[0].sendTime <= stamp && s.idle[0].handleTime <= now
                    then o.event == Some(s.idle[0]) && o.state.idle == s.idle[1..]
                    else o.event == None && o.state.idle == s.idle
  {
    hide Choose, EarliestOfAll, SomeDue, Candidate, Due;
    ChooseIsExact(s.subs, now);
    PriorityDecides(s.subs, now);
    c := Choose(s.subs, now).index;
  }

  /** No event of a higher priority is due. */
  predicate NothingAbove(s: QueueState, p: Priority, now: Time)
    requires |s.subs| == SUB_EVENT_QUEUE_NUM
  {
    && (p == HIGH || p == LOW ==> !Due(s.subs[0].queue, now))
    && (p == LOW ==> !Due(s.subs[1].queue, now))
  }

  /**
   What a priority is for: an event that is due and comes before those of its own priority, whose quota is not used up,
   is the next one handed out if no event of a higher priority is due.
   */
  lemma HighestDueGoesFirst(s: QueueState, e: Event, p: Priority, now: Time)
    requires WellFormed(s) && p != IDLE && e.handleTime <= now && e.handleTime < MAX_TIME
    requires NothingAbove(s, p, now)
    requires var l := s.subs[match p case IMMEDIATE => 0 case HIGH => 1 case _ => 2];
             l.handled < l.maxHandled && (l.queue == [] || e.handleTime < l.queue[0].handleTime)
    ensures GetExpired(Insert(s, e, p), now).event == Some(e)
  {
    var t := Insert(s, e, p);
    var i := Index(p);
    assert t.subs[i].queue[0] == e;
    assert Due(t.subs[i].queue, now);
    var c := GetExpiredIsExact(t, now);
    assert Candidate(t.subs, now, i);
  }

  // ---- The class ----

  class EventQueue {
    var subEventQueues: seq<SubQueue>
    var idleEvents: seq<Event>
    var wakeUpTime: Time
    var idleTimeStamp: Time
    var isIdle: bool
    var finished: bool

    ghost predicate Valid()
      reads this
    {
      WellFormed(State())
    }

    function State(): QueueState
      reads this
    {
      QueueState(subEventQueues, idleEvents, wakeUpTime, idleTimeStamp, isIdle, finished)
    }

    constructor (now: Time)
      ensures Valid() && State() == Initial(now)
      ensures wakeUpTime == MAX_TIME && idleTimeStamp == now && isIdle && finished && idleEvents == []
      ensures forall k :: 0 <= k < SUB_EVENT_QUEUE_NUM ==>
                subEventQueues[k].queue == [] && subEventQueues[k].handled == 0 && subEventQueues[k].maxHandled == 5
    {
      var empty := SubQueue([], 0, DEFAULT_MAX_HANDLED_EVENT_COUNT);
      subEventQueues := [empty, empty, empty];
      idleEvents := [];
      wakeUpTime := MAX_TIME;
      idleTimeStamp := now;
      isIdle := true;
      finished := true;
    }

    /** `needNotify` says whether the waiter must be notified. */
    method InsertEvent(e: Event, p: Priority) returns (needNotify: bool)
      requires Valid()
      modifies this
      ensures Valid() && State() == Insert(old(State()), e, p)
      ensures needNotify == NeedNotify(old(State()), e, p)
      ensures needNotify <==> p != IDLE && e.handleTime < old(wakeUpTime)
      ensures p == IDLE ==> subEventQueues == old(subEventQueues)
      ensures p != IDLE ==> idleEvents == old(idleEvents)
    {
      InsertKeepsWellFormed(State(), e, p);
      needNotify := false;
      if p == IDLE {
        idleEvents := InsertSorted(idleEvents, e);
      } else {
        needNotify := e.handleTime < wakeUpTime;
        var sub := subEventQueues[Index(p)];
        subEventQueues := subEventQueues[Index(p) := sub.(queue := InsertSorted(sub.queue, e))];
      }
    }

    method RemoveEvents(filter: Event -> bool)
      requires Valid()
      modifies this
      ensures Valid() && State() == Remove(old(State()), filter)
    {
      RemoveKeepsWellFormed(State(), filter);
      ghost var subs := subEventQueues;
      for i := 0 to SUB_EVENT_QUEUE_NUM
        invariant |subEventQueues| == |subs|
        invariant forall k :: 0 <= k < i ==> subEventQueues[k] == Filtered(subs[k], filter)
        invariant forall k :: i <= k < |subs| ==> subEventQueues[k] == subs[k]
        invariant State() == old(State()).(subs := subEventQueues)
      {
        subEventQueues := subEventQueues[i := Filtered(subEventQueues[i], filter)];
      }
      assert subEventQueues == Remove(old(State()), filter).subs;
      idleEvents := RemoveIf(idleEvents, filter);
    }

    method HasInnerEvent(filter: Event -> bool) returns (found: bool)
      requires Valid()
      ensures found <==> (exists i, e :: 0 <= i < SUB_EVENT_QUEUE_NUM && e in subEventQueues[i].queue && filter(e))
                         || (exists e :: e in idleEvents && filter(e))
    {
      for i := 0 to SUB_EVENT_QUEUE_NUM
        invariant forall k, e :: 0 <= k < i && e in subEventQueues[k].queue ==> !filter(e)
      {
        if exists e :: e in subEventQueues[i].queue && filter(e) {
          return true;
        }
      }
      found := exists e :: e in idleEvents && filter(e);
    }

    /** The scanning half of `PickEventLocked`. */
    method FindQueueLocked(now: Time) returns (priorityIndex: nat, next: Time, counted: bool)
      requires Valid()
      ensures Choice(priorityIndex, next, counted) == Choose(subEventQueues, now)
    {
      next := MAX_TIME;
      priorityIndex := SUB_EVENT_QUEUE_NUM;
      counted := false;
      var i := 0;
      while i < SUB_EVENT_QUEUE_NUM
        invariant 0 <= i <= SUB_EVENT_QUEUE_NUM && priorityIndex <= SUB_EVENT_QUEUE_NUM && !counted
        invariant Choose(subEventQueues, now) == Scan(subEventQueues, now, i, priorityIndex, next)
      {
        var check := Check(subEventQueues[i].queue, now, next);
        next := Lower(subEventQueues[i].queue, next);
        if check {
          if priorityIndex < SUB_EVENT_QUEUE_NUM {
            var sub := subEventQueues[priorityIndex];
            if sub.handled < sub.maxHandled {
              counted := true;
              return;
            }
          }
          priorityIndex := i;
        }
        i := i + 1;
      }
    }

    method ResetHigherLocked(priorityIndex: nat)
      requires |subEventQueues| == SUB_EVENT_QUEUE_NUM && priorityIndex < SUB_EVENT_QUEUE_NUM
      modifies this`subEventQueues
      ensures |subEventQueues| == SUB_EVENT_QUEUE_NUM
      ensures forall k :: 0 <= k < priorityIndex ==> subEventQueues[k] == Reset(old(subEventQueues)[k])
      ensures forall k :: priorityIndex <= k < SUB_EVENT_QUEUE_NUM ==> subEventQueues[k] == old(subEventQueues)[k]
    {
      var j := 0;
      while j < priorityIndex
        invariant 0 <= j <= priorityIndex
        invariant |subEventQueues| == SUB_EVENT_QUEUE_NUM
        invariant forall k :: 0 <= k < j ==> subEventQueues[k] == Reset(old(subEventQueues)[k])
        invariant forall k :: j <= k < SUB_EVENT_QUEUE_NUM ==> subEventQueues[k] == old(subEventQueues)[k]
      {
        subEventQueues := subEventQueues[j := Reset(subEventQueues[j])];
        j := j + 1;
      }
    }

    method PickEventLocked(now: Time) returns (event: Option<Event>, next: Time)
      requires Valid()
      modifies this`subEventQueues
      ensures |subEventQueues| == SUB_EVENT_QUEUE_NUM
      ensures next == Choose(old(subEventQueues), now).wake
      ensures event.None? <==> !SomeDue(old(subEventQueues), now)
      ensures event.None? ==> subEventQueues == old(subEventQueues)
      ensures event.Some? ==>
                var c := Choose(old(subEventQueues), now);
                && c.index < SUB_EVENT_QUEUE_NUM && old(subEventQueues)[c.index].queue != []
                && event.value == old(subEventQueues)[c.index].queue[0]
                && subEventQueues == AfterPick(old(subEventQueues), c)
    {
      ghost var subs := subEventQueues;
      ChooseIsExact(subs, now);
      var priorityIndex, counted;
      priorityIndex, next, counted := FindQueueLocked(now);
      if priorityIndex >= SUB_EVENT_QUEUE_NUM {
        return None, next;
      }
      ResetHigherLocked(priorityIndex);
      var sub := subEventQueues[priorityIndex];
      event := Some(sub.queue[0]);
      subEventQueues := subEventQueues[priorityIndex := Popped(sub, counted)];
      assert subEventQueues == AfterPick(subs, Choose(subs, now));
    }

    method GetExpiredEvent(now: Time, nextExpired: Time) returns (event: Option<Event>, next: Time)
      requires Valid()
      modifies this
      ensures Valid()
      ensures Outcome(State(), event) == GetExpired(old(State()), now)
      ensures next == if event.None? then wakeUpTime else nextExpired
    {
      ChooseIsExact(subEventQueues, now);
      GetExpiredKeepsWellFormed(State(), now);
      next := nextExpired;
      event, wakeUpTime := PickEventLocked(now);
      if event.Some? {
        isIdle := false;
        return;
      }
      if !isIdle {
        idleTimeStamp := now;
        isIdle := true;
      }
      if idleEvents != [] {
        if idleEvents[0].sendTime <= idleTimeStamp && idleEvents[0].handleTime <= now {
          event := Some(idleEvents[0]);
          idleEvents := idleEvents[1..];
          return;
        }
      }
      next := wakeUpTime;
    }

    method Prepare()
      requires Valid()
      modifies this
      ensures Valid() && State() == old(State()).(finished := false)
    {
      finished := false;
    }

    method Finish()
      requires Valid()
      modifies this
      ensures Valid() && State() == old(State()).(finished := true)
    {
      finished := true;
    }
  }
}
