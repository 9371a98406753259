/**
 Properties of whole runs of the event queue (libs/libeventhandler/src/event_queue.cpp): bounded
 overtaking, order within a priority, and conservation of events.
 */
module EventRuns {
  import opened Basics
  import opened EventLists
  import opened EventQueues

  /** One locked region of the queue; a `Get` is one pass of `GetExpiredEventLocked` at time `now`. */
  datatype Step =
    | Put(event: Event, priority: Priority)
    | Drop(filter: Event -> bool)
    | Get(now: Time)

  function Apply(s: QueueState, step: Step): Outcome
    requires |s.subs| == SUB_EVENT_QUEUE_NUM
  {
    match step
    case Put(e, p) => Outcome(Insert(s, e, p), None)
    case Drop(f) => Outcome(Remove(s, f), None)
    case Get(now) => GetExpired(s, now)
  }

  lemma ApplyKeepsWellFormed(s: QueueState, step: Step)
    requires WellFormed(s)
    ensures WellFormed(Apply(s, step).state)
  {
    match step
    case Put(e, p) => InsertKeepsWellFormed(s, e, p);
    case Drop(f) => RemoveKeepsWellFormed(s, f);
    case Get(now) => GetExpiredKeepsWellFormed(s, now);
  }

  function Final(s: QueueState, steps: seq<Step>): (r: QueueState)
    requires WellFormed(s)
    ensures WellFormed(r)
    decreases |steps|
  {
    if steps == [] then s
    else
      ApplyKeepsWellFormed(s, steps[0]);
      Final(Apply(s, steps[0]).state, steps[1..])
  }

  /** The events a run hands to the event loop, in order. */
  function Dispatched(s: QueueState, steps: seq<Step>): seq<Event>
    requires WellFormed(s)
    decreases |steps|
  {
    if steps == [] then []
    else
      ApplyKeepsWellFormed(s, steps[0]);
      var o := Apply(s, steps[0]);
      (if o.event.Some? then [o.event.value] else []) + Dispatched(o.state, steps[1..])
  }

  // ---- Bounded overtaking ----

  /** Every event of a sorted queue is handled after `t`, or no earlier than `t`. */
  predicate HeadAfter(queue: seq<Event>, t: Time) { queue == [] || t < queue[0].handleTime }
  predicate HeadNotBefore(queue: seq<Event>, t: Time) { queue == [] || t <= queue[0].handleTime }

  /** `e` heads sub-queue `p` and beats every queued event: earliest handle time, then higher priority. */
  predicate Leader(subs: seq<SubQueue>, p: nat, e: Event) {
    && |subs| == SUB_EVENT_QUEUE_NUM && p < SUB_EVENT_QUEUE_NUM
    && subs[p].queue != [] && subs[p].queue[0] == e
    && (p > 0 ==> HeadAfter(subs[0].queue, e.handleTime))
    && (p == 2 ==> HeadAfter(subs[1].queue, e.handleTime))
    && (p == 0 ==> HeadNotBefore(subs[1].queue, e.handleTime))
    && (p < 2 ==> HeadNotBefore(subs[2].queue, e.handleTime))
  }

  lemma HeadIsEarliest(queue: seq<Event>, x: Event)
    requires Sorted(queue) && x in queue
    ensures queue[0].handleTime <= x.handleTime
  {
    var k :| 0 <= k < |queue| && queue[k] == x;
  }

  lemma LeaderBeatsAll(s: QueueState, p: nat, e: Event, q: nat, x: Event)
    requires WellFormed(s) && Leader(s.subs, p, e) && q < SUB_EVENT_QUEUE_NUM && x in s.subs[q].queue
    ensures !Beats(x, q, e, p)
  {
    HeadIsEarliest(s.subs[q].queue, x);
  }

  /** Whenever something is due there is a leader and it is due; by `LeaderBeatsAll` nothing beats it. */
  lemma LeaderExists(s: QueueState, now: Time) returns (p: nat)
    requires WellFormed(s) && SomeDue(s.subs, now)
    ensures p < SUB_EVENT_QUEUE_NUM && Due(s.subs[p].queue, now) && Leader(s.subs, p, s.subs[p].queue[0])
  {
    var t0, t1, t2 := Earliest(s.subs[0].queue), Earliest(s.subs[1].queue), Earliest(s.subs[2].queue);
    p := if t0 <= t1 && t0 <= t2 then 0 else if t1 <= t2 then 1 else 2;
  }

  predicate Beats(x: Event, q: nat, e: Event, p: nat) {
    x.handleTime < e.handleTime || (x.handleTime == e.handleTime && q < p)
  }

  /** A step that neither withdraws `e` nor inserts an event that beats it, and picks once `e` is due. */
  ghost predicate Spares(step: Step, p: nat, e: Event) {
    match step
    case Put(x, prio) => prio == IDLE || !Beats(x, Index(prio), e, p)
    case Drop(f) => !f(e)
    case Get(now) => e.handleTime <= now
  }

  /** How many more picks may go to other queues before sub-queue `p` must be served. */
  function Patience(subs: seq<SubQueue>, p: nat): int
    requires |subs| == SUB_EVENT_QUEUE_NUM && p < SUB_EVENT_QUEUE_NUM
  {
    if p == 0 then 0
    else
      var spare0 := subs[0].maxHandled - subs[0].handled;
      if p == 1 then spare0
      else (subs[1].maxHandled - subs[1].handled) * (subs[0].maxHandled + 1) + spare0
  }

  lemma InsertHead(queue: seq<Event>, x: Event)
    ensures InsertSorted(queue, x) != []
    ensures InsertSorted(queue, x)[0] == if queue == [] || x.handleTime < queue[0].handleTime then x else queue[0]
  {
  }

  lemma LeaderSurvivesPut(s: QueueState, x: Event, prio: Priority, p: nat, e: Event)
    requires WellFormed(s) && Leader(s.subs, p, e) && Spares(Put(x, prio), p, e)
    ensures Leader(Insert(s, x, prio).subs, p, e) && Patience(Insert(s, x, prio).subs, p) == Patience(s.subs, p)
  {
    if prio != IDLE {
      InsertHead(s.subs[Index(prio)].queue, x);
    }
  }

  lemma RemoveHead(queue: seq<Event>, f: Event -> bool, t: Time)
    requires Sorted(queue)
    ensures HeadAfter(queue, t) ==> HeadAfter(RemoveIf(queue, f), t)
    ensures HeadNotBefore(queue, t) ==> HeadNotBefore(RemoveIf(queue, f), t)
    ensures queue != [] && !f(queue[0]) ==> RemoveIf(queue, f) != [] && RemoveIf(queue, f)[0] == queue[0]
  {
    RemoveIfKeepsSorted(queue, f);
    if RemoveIf(queue, f) != [] {
      assert RemoveIf(queue, f)[0] in RemoveIf(queue, f);
    }
  }

  lemma LeaderSurvivesDrop(s: QueueState, f: Event -> bool, p: nat, e: Event)
    requires WellFormed(s) && Leader(s.subs, p, e) && !f(e)
    ensures Leader(Remove(s, f).subs, p, e) && Patience(Remove(s, f).subs, p) == Patience(s.subs, p)
  {
    RemoveHead(s.subs[0].queue, f, e.handleTime);
    RemoveHead(s.subs[1].queue, f, e.handleTime);
    RemoveHead(s.subs[2].queue, f, e.handleTime);
  }

  /** The quota of the second queue falls by one while that of the first starts afresh. */
  lemma QuotaStep(spare1: int, max0: nat, spare0: int)
    requires spare1 > 0 && 0 <= spare0
    ensures 0 <= (spare1 - 1) * (max0 + 1) + max0 < spare1 * (max0 + 1) + spare0
  {
    assert spare1 * (max0 + 1) == (spare1 - 1) * (max0 + 1) + max0 + 1;
  }

  lemma LeaderAfterPop(queue: seq<Event>, t: Time)
    requires Sorted(queue) && queue != [] && t < queue[0].handleTime
    ensures HeadAfter(queue[1..], t)
  {
  }

  /** Only the leader's queue or a counted pick of a higher queue can be chosen. */
  lemma ChoiceBeforeLeader(subs: seq<SubQueue>, now: Time, p: nat, e: Event)
    requires Leader(subs, p, e) && e.handleTime <= now && e.handleTime < MAX_TIME
    ensures Choose(subs, now).index == p || (Choose(subs, now).index < p && Choose(subs, now).counted)
  {
    var c0, w0 := if Check(subs[0].queue, now, MAX_TIME) then 0 else 3, Lower(subs[0].queue, MAX_TIME);
    assert Choose(subs, now) == Scan(subs, now, 1, c0, w0);
    var w1 := Lower(subs[1].queue, w0);
    if Check(subs[1].queue, now, w0) && (c0 == 3 || subs[0].handled >= subs[0].maxHandled) {
      assert Choose(subs, now) == Scan(subs, now, 2, 1, w1);
    } else if !Check(subs[1].queue, now, w0) {
      assert Choose(subs, now) == Scan(subs, now, 2, c0, w1);
    }
  }

  lemma LeaderAfterPick(subs: seq<SubQueue>, c: Choice, p: nat, e: Event)
    requires Leader(subs, p, e) && c.index < p && subs[c.index].queue != [] && Sorted(subs[c.index].queue)
    ensures Leader(AfterPick(subs, c), p, e)
  {
    LeaderAfterPop(subs[c.index].queue, e.handleTime);
  }

  lemma PatienceAfterPick(subs: seq<SubQueue>, c: Choice, p: nat)
    requires |subs| == SUB_EVENT_QUEUE_NUM && c.index < p < SUB_EVENT_QUEUE_NUM && c.counted
            && subs[c.index].queue != []
    requires subs[c.index].handled < subs[c.index].maxHandled && subs[0].handled <= subs[0].maxHandled
    requires subs[1].handled <= subs[1].maxHandled
    ensures 0 <= Patience(AfterPick(subs, c), p) < Patience(subs, p)
  {
    if c.index == 1 {
      QuotaStep(subs[1].maxHandled - subs[1].handled, subs[0].maxHandled, subs[0].maxHandled - subs[0].handled);
    }
  }

  /** A pick serves the leader or uses up patience, and the leader stays the leader. */
  lemma PickServesOrWaits(s: QueueState, now: Time, p: nat, e: Event)
    requires WellFormed(s) && Leader(s.subs, p, e) && e.handleTime <= now && e.handleTime < MAX_TIME
    ensures var o := GetExpired(s, now);
            o.event == Some(e)
            || (Leader(o.state.subs, p, e) && 0 <= Patience(o.state.subs, p) < Patience(s.subs, p))
  {
    ChooseIsExact(s.subs, now);
    var c := Choose(s.subs, now);
    ChoiceBeforeLeader(s.subs, now, p, e);
    if c.index != p {
      LeaderAfterPick(s.subs, c, p, e);
      PatienceAfterPick(s.subs, c, p);
    }
  }

  function Gets(steps: seq<Step>): nat {
    if steps == [] then 0 else (if steps[0].Get? then 1 else 0) + Gets(steps[1..])
  }

  lemma PatienceBound(s: QueueState, p: nat)
    requires WellFormed(s) && p < SUB_EVENT_QUEUE_NUM
    ensures 0 <= Patience(s.subs, p) < (s.subs[0].maxHandled + 1) * (s.subs[1].maxHandled + 1)
  {
    var m0, m1, h0, h1 := s.subs[0].maxHandled, s.subs[1].maxHandled, s.subs[0].handled, s.subs[1].handled;
    assert (m0 + 1) * (m1 + 1) == m1 * (m0 + 1) + (m0 + 1);
    assert 0 <= (m1 - h1) * (m0 + 1) <= m1 * (m0 + 1);
  }

  lemma {:induction false} ServedOncePatienceEnds(s: QueueState, steps: seq<Step>, p: nat, e: Event)
    requires WellFormed(s) && Leader(s.subs, p, e) && e.handleTime < MAX_TIME
    requires forall step :: step in steps ==> Spares(step, p, e)
    requires Patience(s.subs, p) < Gets(steps)
    ensures e in Dispatched(s, steps)
    decreases |steps|
  {
    PatienceBound(s, p);
    assert steps[0] in steps;
    ApplyKeepsWellFormed(s, steps[0]);
    var o := Apply(s, steps[0]);
    match steps[0] {
      case Put(x, prio) => LeaderSurvivesPut(s, x, prio, p, e);
      case Drop(f) => LeaderSurvivesDrop(s, f, p, e);
      case Get(now) => PickServesOrWaits(s, now, p, e);
    }
    if o.event != Some(e) {
      ServedOncePatienceEnds(o.state, steps[1..], p, e);
    }
  }

  /**
   Bounded overtaking: an event that is due and beats every queued event is handed out within
   (max0 + 1) * (max1 + 1) picks, as long as nothing that beats it arrives and it is not withdrawn.
   */
  lemma BoundedOvertaking(s: QueueState, steps: seq<Step>, p: nat, e: Event)
    requires WellFormed(s) && Leader(s.subs, p, e) && e.handleTime < MAX_TIME
    requires forall step :: step in steps ==> Spares(step, p, e)
    requires (s.subs[0].maxHandled + 1) * (s.subs[1].maxHandled + 1) <= Gets(steps)
    ensures e in Dispatched(s, steps)
  {
    PatienceBound(s, p);
    ServedOncePatienceEnds(s, steps, p, e);
  }

  // ---- The four lists ----

  /** The four lists by priority index, the idle list last. */
  function Lists(s: QueueState): seq<seq<Event>>
    requires |s.subs| == SUB_EVENT_QUEUE_NUM
  {
    [s.subs[0].queue, s.subs[1].queue, s.subs[2].queue, s.idle]
  }

  /** What a step does to the lists: one sorted insertion, a filter on all, or a pop of one head. */
  ghost predicate ListStep(l: seq<seq<Event>>, step: Step, event: Option<Event>, r: seq<seq<Event>>)
    requires |l| == |r| == 4
  {
    match step
    case Put(e, p) => event == None && r == l[Index(p) := InsertSorted(l[Index(p)], e)]
    case Drop(f) => event == None && forall k :: 0 <= k < 4 ==> r[k] == RemoveIf(l[k], f)
    case Get(now) =>
      || (event == None && r == l)
      || (exists k :: 0 <= k < 4 && l[k] != [] && event == Some(l[k][0]) && r == l[k := l[k][1..]])
  }

  lemma PickIsPop(s: QueueState, now: Time)
    requires WellFormed(s) && SomeDue(s.subs, now)
    ensures var k, o := Choose(s.subs, now).index, GetExpired(s, now);
            && k < 3 && Lists(s)[k] != [] && o.event == Some(Lists(s)[k][0])
            && Lists(o.state) == Lists(s)[k := Lists(s)[k][1..]]
  {
    ChooseIsExact(s.subs, now);
    var c := Choose(s.subs, now);
    var r := AfterPick(s.subs, c);
    assert r[c.index].queue == s.subs[c.index].queue[1..];
    assert forall i :: 0 <= i < 3 && i != c.index ==> r[i].queue == s.subs[i].queue;
  }

  lemma GetIsListStep(s: QueueState, now: Time)
    requires WellFormed(s)
    ensures ListStep(Lists(s), Get(now), GetExpired(s, now).event, Lists(GetExpired(s, now).state))
  {
    if SomeDue(s.subs, now) {
      PickIsPop(s, now);
    } else {
      ChooseIsExact(s.subs, now);
      var l, o := Lists(s), GetExpired(s, now);
      if o.event != None {
        assert l[3] != [] && o.event == Some(l[3][0]) && Lists(o.state) == l[3 := l[3][1..]];
      } else {
        assert Lists(o.state) == l;
      }
    }
  }

  lemma PutIsListStep(s: QueueState, e: Event, p: Priority)
    requires WellFormed(s)
    ensures Lists(Insert(s, e, p)) == Lists(s)[Index(p) := InsertSorted(Lists(s)[Index(p)], e)]
  {
    if p != IDLE {
      var r := Insert(s, e, p).subs;
      assert r[Index(p)].queue == InsertSorted(s.subs[Index(p)].queue, e);
      assert forall i :: 0 <= i < 3 && i != Index(p) ==> r[i] == s.subs[i];
    }
  }

  lemma DropIsListStep(s: QueueState, f: Event -> bool)
    requires WellFormed(s)
    ensures forall k :: 0 <= k < 4 ==> Lists(Remove(s, f))[k] == RemoveIf(Lists(s)[k], f)
  {
  }

  lemma ApplyIsListStep(s: QueueState, step: Step)
    requires WellFormed(s)
    ensures WellFormed(Apply(s, step).state)
    ensures ListStep(Lists(s), step, Apply(s, step).event, Lists(Apply(s, step).state))
  {
    ApplyKeepsWellFormed(s, step);
    match step
    case Put(e, p) => PutIsListStep(s, e, p);
    case Drop(f) => DropIsListStep(s, f);
    case Get(now) => GetIsListStep(s, now);
  }

  // ---- Order within a priority ----

  /** `first` stands before every occurrence of `second`. */
  ghost predicate Ahead(list: seq<Event>, first: Event, second: Event) {
    exists i :: 0 <= i < |list| && list[i] == first && second !in list[..i]
  }

  /** `first` waits ahead of `second` in list `p`, and `second` waits nowhere else. */
  ghost predicate Queuing(l: seq<seq<Event>>, p: nat, first: Event, second: Event) {
    && |l| == 4 && p < 4 && first != second
    && Ahead(l[p], first, second)
    && forall q :: 0 <= q < 4 && q != p ==> second !in l[q]
  }

  lemma AheadAfterPop(list: seq<Event>, first: Event, second: Event)
    requires Ahead(list, first, second) && first != second
    ensures list != [] && list[0] != second
    ensures list[0] != first ==> Ahead(list[1..], first, second)
  {
    var i :| 0 <= i < |list| && list[i] == first && second !in list[..i];
    if i > 0 {
      assert list[0] in list[..i] && list[1..][i - 1] == first;
      assert list[..i] == [list[0]] + list[1..][..i - 1];
    }
  }

  lemma {:induction false} AheadAfterRemove(list: seq<Event>, f: Event -> bool, first: Event, second: Event)
    requires Ahead(list, first, second) && first != second && !f(first)
    ensures Ahead(RemoveIf(list, f), first, second)
  {
    AheadAfterPop(list, first, second);
    var r := RemoveIf(list, f);
    if list[0] == first {
      assert r[0] == first && second !in r[..0];
    } else {
      AheadAfterRemove(list[1..], f, first, second);
      var rest := RemoveIf(list[1..], f);
      var j :| 0 <= j < |rest| && rest[j] == first && second !in rest[..j];
      if !f(list[0]) {
        assert r[j + 1] == first && r[..j + 1] == [list[0]] + rest[..j];
      }
    }
  }

  lemma AheadAfterInsert(list: seq<Event>, x: Event, first: Event, second: Event)
    requires Ahead(list, first, second) && x != second
    ensures Ahead(InsertSorted(list, x), first, second)
  {
    var i :| 0 <= i < |list| && list[i] == first && second !in list[..i];
    var u, r := UpperBound(list, x.handleTime), InsertSorted(list, x);
    if i < u {
      assert r[i] == first && r[..i] == list[..i];
    } else {
      assert r[i + 1] == first && r[..i + 1] == list[..u] + [x] + list[u..i];
      assert list[..i] == list[..u] + list[u..i];
    }
  }

  /** Only `first` can leave before `second`, and it does so by being handed out. */
  lemma StepKeepsQueuing(l: seq<seq<Event>>, step: Step, event: Option<Event>, r: seq<seq<Event>>,
                         p: nat, first: Event, second: Event)
    requires |r| == 4 && Queuing(l, p, first, second) && ListStep(l, step, event, r)
    requires step.Put? ==> step.event != second
    requires step.Drop? ==> !step.filter(first)
    ensures event != Some(second)
    ensures event == Some(first) || Queuing(r, p, first, second)
  {
    match step
    case Put(x, prio) =>
      var k := Index(prio);
      if k == p { AheadAfterInsert(l[p], x, first, second); }
    case Drop(f) => AheadAfterRemove(l[p], f, first, second);
    case Get(now) =>
      AheadAfterPop(l[p], first, second);
      if event != None {
        var k :| 0 <= k < 4 && l[k] != [] && event == Some(l[k][0]) && r == l[k := l[k][1..]];
        assert l[k][0] in l[k];
      }
  }

  lemma BeforeInTail(all: seq<Event>, rest: seq<Event>, event: Option<Event>, first: Event, second: Event)
    requires all == (if event.Some? then [event.value] else []) + rest
    requires if event == Some(first) then second in rest else Before(rest, first, second)
    ensures Before(all, first, second)
  {
    if event == Some(first) {
      var j :| 0 <= j < |rest| && rest[j] == second;
      assert all[0] == first && all[j + 1] == second;
    } else if event.Some? {
      var i, j :| 0 <= i < j < |rest| && rest[i] == first && rest[j] == second;
      assert all[i + 1] == first && all[j + 1] == second;
    } else {
      assert all == rest;
    }
  }

  ghost predicate NeverPut(steps: seq<Step>, x: Event) {
    forall i :: 0 <= i < |steps| && steps[i].Put? ==> steps[i].event != x
  }

  ghost predicate NeverDropped(steps: seq<Step>, x: Event) {
    forall i :: 0 <= i < |steps| && steps[i].Drop? ==> !steps[i].filter(x)
  }

  lemma {:induction false} QueuingDecidesOrder(s: QueueState, steps: seq<Step>, p: nat, first: Event, second: Event)
    requires WellFormed(s) && Queuing(Lists(s), p, first, second)
    requires NeverPut(steps, second) && NeverDropped(steps, first)
    requires second in Dispatched(s, steps)
    ensures Before(Dispatched(s, steps), first, second)
    decreases |steps|
  {
    ApplyIsListStep(s, steps[0]);
    var o := Apply(s, steps[0]);
    StepKeepsQueuing(Lists(s), steps[0], o.event, Lists(o.state), p, first, second);
    var rest := Dispatched(o.state, steps[1..]);
    if o.event != Some(first) {
      QueuingDecidesOrder(o.state, steps[1..], p, first, second);
    }
    BeforeInTail(Dispatched(s, steps), rest, o.event, first, second);
  }

  /** A newcomer handled no earlier than `first` queues behind it. */
  lemma InsertQueuesBehind(list: seq<Event>, first: Event, second: Event)
    requires first in list && second !in list && first.handleTime <= second.handleTime && Sorted(list)
    ensures Ahead(InsertSorted(list, second), first, second)
  {
    var k :| 0 <= k < |list| && list[k] == first;
    var u, r := UpperBound(list, second.handleTime), InsertSorted(list, second);
    assert k < u;
    assert r[k] == first && r[..k] == list[..k];
  }

  /**
   Order: an event inserted behind an earlier one of the same priority, with a handle time no
   smaller, is handed out after it (ties included), whatever else happens to the queue.
   */
  lemma SamePriorityInOrder(s: QueueState, steps: seq<Step>, p: Priority, first: Event, second: Event)
    requires WellFormed(s) && first in Lists(s)[Index(p)] && first.handleTime <= second.handleTime
    requires forall q :: 0 <= q < 4 ==> second !in Lists(s)[q]
    requires NeverPut(steps, second) && NeverDropped(steps, first)
    requires second in Dispatched(s, [Put(second, p)] + steps)
    ensures Before(Dispatched(s, [Put(second, p)] + steps), first, second)
  {
    var all := [Put(second, p)] + steps;
    assert all[0] == Put(second, p) && all[1..] == steps;
    ApplyIsListStep(s, all[0]);
    InsertQueuesBehind(Lists(s)[Index(p)], first, second);
    assert Dispatched(s, all) == Dispatched(Insert(s, second, p), steps);
    QueuingDecidesOrder(Insert(s, second, p), steps, Index(p), first, second);
  }

  // ---- Conservation ----

  function Total(l: seq<seq<Event>>): multiset<Event> {
    if l == [] then multiset{} else multiset(l[0]) + Total(l[1..])
  }

  function Queued(s: QueueState): multiset<Event>
    requires |s.subs| == SUB_EVENT_QUEUE_NUM
  {
    Total(Lists(s))
  }

  function Inserted(steps: seq<Step>): multiset<Event> {
    if steps == [] then multiset{}
    else (if steps[0].Put? then multiset{steps[0].event} else multiset{}) + Inserted(steps[1..])
  }

  /** What a filter takes out of all lists together. */
  function AllMatching(l: seq<seq<Event>>, f: Event -> bool): multiset<Event> {
    if l == [] then multiset{} else multiset(Matching(l[0], f)) + AllMatching(l[1..], f)
  }

  function Removed(s: QueueState, steps: seq<Step>): multiset<Event>
    requires WellFormed(s)
    decreases |steps|
  {
    if steps == [] then multiset{}
    else
      ApplyKeepsWellFormed(s, steps[0]);
      (if steps[0].Drop? then AllMatching(Lists(s), steps[0].filter) else multiset{})
      + Removed(Apply(s, steps[0]).state, steps[1..])
  }

  lemma Cancel(a: multiset<Event>, b: multiset<Event>, head: multiset<Event>, tail: multiset<Event>)
    requires a + (head + tail) == b + tail
    ensures b == a + head
  {
    forall x
      ensures b[x] == (a + head)[x]
    {
      assert (a + (head + tail))[x] == (b + tail)[x];
    }
  }

  lemma {:induction false} TotalAfterUpdate(l: seq<seq<Event>>, k: nat, x: seq<Event>)
    requires k < |l|
    ensures Total(l[k := x]) + multiset(l[k]) == Total(l) + multiset(x)
  {
    if k == 0 {
      assert l[0 := x][1..] == l[1..];
    } else {
      TotalAfterUpdate(l[1..], k - 1, x);
      assert l[k := x][0] == l[0] && l[k := x][1..] == l[1..][k - 1 := x];
      assert Total(l[k := x]) == multiset(l[0]) + Total(l[1..][k - 1 := x]);
      assert l[1..][k - 1] == l[k];
      var rest, rest' := Total(l[1..]), Total(l[1..][k - 1 := x]);
      assert rest' + multiset(l[k]) == rest + multiset(x);
      assert (multiset(l[0]) + rest') + multiset(l[k]) == multiset(l[0]) + (rest' + multiset(l[k]));
    }
  }

  lemma {:induction false} TotalAfterRemove(l: seq<seq<Event>>, f: Event -> bool, r: seq<seq<Event>>)
    requires |l| == |r| && forall k :: 0 <= k < |l| ==> r[k] == RemoveIf(l[k], f)
    ensures Total(l) == Total(r) + AllMatching(l, f)
  {
    if l != [] {
      RemoveIfSplits(l[0], f);
      TotalAfterRemove(l[1..], f, r[1..]);
    }
  }

  lemma PopConserves(l: seq<seq<Event>>, k: nat)
    requires k < |l| && l[k] != []
    ensures Total(l) == Total(l[k := l[k][1..]]) + multiset{l[k][0]}
  {
    TotalAfterUpdate(l, k, l[k][1..]);
    assert l[k] == [l[k][0]] + l[k][1..];
    assert multiset(l[k]) == multiset{l[k][0]} + multiset(l[k][1..]);
    Cancel(Total(l[k := l[k][1..]]), Total(l), multiset{l[k][0]}, multiset(l[k][1..]));
  }

  lemma PutConserves(l: seq<seq<Event>>, k: nat, e: Event)
    requires k < |l|
    ensures Total(l) + multiset{e} == Total(l[k := InsertSorted(l[k], e)])
  {
    TotalAfterUpdate(l, k, InsertSorted(l[k], e));
    InsertAddsOne(l[k], e);
    Cancel(Total(l), Total(l[k := InsertSorted(l[k], e)]), multiset{e}, multiset(l[k]));
  }

  lemma ListStepConserves(l: seq<seq<Event>>, step: Step, event: Option<Event>, r: seq<seq<Event>>)
    requires |l| == |r| == 4 && ListStep(l, step, event, r)
    ensures Total(l) + (if step.Put? then multiset{step.event} else multiset{})
            == Total(r) + (if event.Some? then multiset{event.value} else multiset{})
               + (if step.Drop? then AllMatching(l, step.filter) else multiset{})
  {
    match step
    case Put(e, p) => PutConserves(l, Index(p), e);
    case Drop(f) => TotalAfterRemove(l, f, r);
    case Get(now) =>
      if event != None {
        var k :| 0 <= k < 4 && l[k] != [] && event == Some(l[k][0]) && r == l[k := l[k][1..]];
        PopConserves(l, k);
      }
  }

  lemma Chain(before: multiset<Event>, put: multiset<Event>, mid: multiset<Event>, out: multiset<Event>,
              drop: multiset<Event>, puts: multiset<Event>, outs: multiset<Event>, drops: multiset<Event>,
              after: multiset<Event>)
    requires before + put == mid + out + drop
    requires mid + puts == outs + drops + after
    ensures before + (put + puts) == (out + outs) + (drop + drops) + after
  {
    forall x
      ensures (before + (put + puts))[x] == ((out + outs) + (drop + drops) + after)[x]
    {
      assert (before + put)[x] == (mid + out + drop)[x];
      assert (mid + puts)[x] == (outs + drops + after)[x];
    }
  }

  /** Conservation: what was queued or came in has been handed out, removed, or is still queued. */
  lemma {:induction false} EventsAreConserved(s: QueueState, steps: seq<Step>)
    requires WellFormed(s)
    ensures Queued(s) + Inserted(steps)
            == multiset(Dispatched(s, steps)) + Removed(s, steps) + Queued(Final(s, steps))
    decreases |steps|
  {
    if steps != [] {
      ApplyIsListStep(s, steps[0]);
      var o := Apply(s, steps[0]);
      ListStepConserves(Lists(s), steps[0], o.event, Lists(o.state));
      EventsAreConserved(o.state, steps[1..]);
      var now := if o.event.Some? then [o.event.value] else [];
      var put := if steps[0].Put? then multiset{steps[0].event} else multiset{};
      var drop := if steps[0].Drop? then AllMatching(Lists(s), steps[0].filter) else multiset{};
      Chain(Queued(s), put, Queued(o.state), multiset(now), drop, Inserted(steps[1..]),
            multiset(Dispatched(o.state, steps[1..])), Removed(o.state, steps[1..]), Queued(Final(s, steps)));
    }
  }
}
