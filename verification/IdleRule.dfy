/**
 When an idle event may run (libs/libeventhandler/src/event_queue.cpp:285-315), over all runs
 from a new queue.
 */
module IdleRule {
  import opened Basics
  import opened EventLists
  import opened EventQueues
  import opened EventRuns

  /** One pass of `GetExpiredEventLocked`; `busy` when a timed event was due. */
  datatype Tick = Tick(time: Time, busy: bool)

  function TickOf(s: QueueState, step: Step): seq<Tick> {
    if step.Get? then [Tick(step.now, SomeDue(s.subs, step.now))] else []
  }

  /** The ticks of a run, appended to those of its past. */
  function Ticks(s: QueueState, steps: seq<Step>, past: seq<Tick>): seq<Tick>
    requires WellFormed(s)
    decreases |steps|
  {
    if steps == [] then past
    else
      ApplyKeepsWellFormed(s, steps[0]);
      Ticks(Apply(s, steps[0]).state, steps[1..], past + TickOf(s, steps[0]))
  }

  /** Position `k` opens the last stretch of ticks without a busy one. */
  ghost predicate OpensIdleStretch(h: seq<Tick>, k: nat) {
    k <= |h| && (forall j :: k <= j < |h| ==> !h[j].busy) && (k > 0 ==> h[k - 1].busy)
  }

  /** `stamp` is when the current idle period began; a queue is born idle at `start`. */
  ghost predicate IdleSince(h: seq<Tick>, start: Time, stamp: Time) {
    exists k: nat :: OpensIdleStretch(h, k) && (if k == 0 then stamp == start else k < |h| && stamp == h[k].time)
  }

  ghost predicate Remembers(s: QueueState, h: seq<Tick>, start: Time) {
    if s.isIdle then IdleSince(h, start, s.idleStamp) else h != [] && h[|h| - 1].busy
  }

  lemma IdleStretchGrows(h: seq<Tick>, start: Time, stamp: Time, now: Time)
    requires IdleSince(h, start, stamp)
    ensures IdleSince(h + [Tick(now, false)], start, stamp)
  {
    var k: nat :| OpensIdleStretch(h, k) && (if k == 0 then stamp == start else k < |h| && stamp == h[k].time);
    assert OpensIdleStretch(h + [Tick(now, false)], k);
  }

  lemma IdleStretchOpens(h: seq<Tick>, start: Time, now: Time)
    requires h != [] && h[|h| - 1].busy
    ensures IdleSince(h + [Tick(now, false)], start, now)
  {
    assert OpensIdleStretch(h + [Tick(now, false)], |h|);
  }

  lemma StepRemembers(s: QueueState, step: Step, h: seq<Tick>, start: Time)
    requires WellFormed(s) && Remembers(s, h, start)
    ensures Remembers(Apply(s, step).state, h + TickOf(s, step), start)
  {
    match step
    case Put(e, p) => assert h + TickOf(s, step) == h;
    case Drop(f) => assert h + TickOf(s, step) == h;
    case Get(now) =>
      ChooseIsExact(s.subs, now);
      if !SomeDue(s.subs, now) {
        if s.isIdle { IdleStretchGrows(h, start, s.idleStamp, now); } else { IdleStretchOpens(h, start, now); }
      }
  }

  lemma {:induction false} RunRemembers(s: QueueState, steps: seq<Step>, past: seq<Tick>, start: Time)
    requires WellFormed(s) && Remembers(s, past, start)
    ensures Remembers(Final(s, steps), Ticks(s, steps, past), start)
    decreases |steps|
  {
    if steps != [] {
      ApplyKeepsWellFormed(s, steps[0]);
      StepRemembers(s, steps[0], past, start);
      RunRemembers(Apply(s, steps[0]).state, steps[1..], past + TickOf(s, steps[0]), start);
    }
  }

  /** The clock never runs backwards. */
  ghost predicate Monotone(h: seq<Tick>, start: Time) {
    && (forall i :: 0 <= i < |h| ==> start <= h[i].time)
    && (forall i, j :: 0 <= i < j < |h| ==> h[i].time <= h[j].time)
  }

  /** The idle half of one pass. */
  lemma IdlePass(s: QueueState, now: Time)
    requires WellFormed(s) && !SomeDue(s.subs, now)
    ensures var o := GetExpired(s, now);
            && o.state.isIdle
            && (o.event.Some? <==>
                    s.idle != [] && s.idle[0].handleTime <= now && s.idle[0].sendTime <= o.state.idleStamp)
            && (o.event.Some? ==> o.event.value == s.idle[0])
  {
    ChooseIsExact(s.subs, now);
  }

  lemma BusyBeforeStamp(h: seq<Tick>, start: Time, stamp: Time)
    requires IdleSince(h, start, stamp) && Monotone(h, start)
    ensures forall j :: 0 <= j < |h| && h[j].busy ==> h[j].time <= stamp
  {
    var k: nat :| OpensIdleStretch(h, k) && (if k == 0 then stamp == start else k < |h| && stamp == h[k].time);
  }

  /**
   Idle rule: after any run of a new queue, a pass that finds a timed event due hands out the due head
   of a timed list; otherwise it hands out the oldest idle event exactly when that event is itself due and
   was sent by the start of the current idle period, which lies after every busy pass.
   */
  lemma IdleEventsWaitForIdleTime(start: Time, steps: seq<Step>, now: Time, s: QueueState, h: seq<Tick>)
    returns (stamp: Time)
    requires s == Final(Initial(start), steps)
    requires h == Ticks(Initial(start), steps, []) + [Tick(now, SomeDue(s.subs, now))] && Monotone(h, start)
    ensures SomeDue(s.subs, now) ==>
              var k := Choose(s.subs, now).index;
              && k < SUB_EVENT_QUEUE_NUM && Due(s.subs[k].queue, now)
              && GetExpired(s, now).event == Some(s.subs[k].queue[0])
    ensures !SomeDue(s.subs, now) ==>
              && IdleSince(h, start, stamp)
              && (forall j :: 0 <= j < |h| && h[j].busy ==> h[j].time <= stamp)
              && (GetExpired(s, now).event.Some?
                  <==> s.idle != [] && s.idle[0].handleTime <= now && s.idle[0].sendTime <= stamp)
              && (GetExpired(s, now).event.Some? ==> GetExpired(s, now).event.value == s.idle[0])
  {
    var before := Ticks(Initial(start), steps, []);
    assert OpensIdleStretch([], 0);
    RunRemembers(Initial(start), steps, [], start);
    StepRemembers(s, Get(now), before, start);
    stamp := GetExpired(s, now).state.idleStamp;
    if SomeDue(s.subs, now) {
      ChooseIsExact(s.subs, now);
    } else {
      IdlePass(s, now);
      BusyBeforeStamp(h, start, stamp);
    }
  }
}
