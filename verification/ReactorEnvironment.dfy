/** The runtime environment whose fields the critical sections of the tag machinery update. */
module ReactorEnvironment {
  import opened Options
  import opened Tags
  import opened TagBarrier

  ghost predicate IsNextTag(queue: seq<QueuedEvent>, tag: Tag) {
    (exists e :: e in queue && e.tag == tag) && forall e :: e in queue ==> AtMost(tag, e.tag)
  }

  /** The events at a tag, in the order of the queue. */
  function Due(queue: seq<QueuedEvent>, tag: Tag): (r: seq<QueuedEvent>)
    ensures forall e :: e in r <==> e in queue && e.tag == tag
  {
    if queue == [] then []
    else if queue[0].tag == tag then [queue[0]] + Due(queue[1..], tag)
    else Due(queue[1..], tag)
  }

  lemma DueStep(queue: seq<QueuedEvent>, k: nat, popped: seq<QueuedEvent>, tag: Tag)
    requires k < |queue|
    ensures popped + Due(queue[k..], tag)
            == (if queue[k].tag == tag then popped + [queue[k]] else popped) + Due(queue[k + 1..], tag)
  {
    assert queue[k..][1..] == queue[k + 1..];
    assert popped + ([queue[k]] + Due(queue[k + 1..], tag)) == popped + [queue[k]] + Due(queue[k + 1..], tag);
  }

  lemma RemainingStep(queue: seq<QueuedEvent>, k: nat, rest: seq<QueuedEvent>, tag: Tag)
    requires k < |queue|
    ensures rest + Remaining(queue[k..], tag)
            == (if queue[k].tag == tag then rest else rest + [queue[k]]) + Remaining(queue[k + 1..], tag)
  {
    assert queue[k..][1..] == queue[k + 1..];
    assert rest + ([queue[k]] + Remaining(queue[k + 1..], tag)) == rest + [queue[k]] + Remaining(queue[k + 1..], tag);
  }

  class ReactorEnvironment {
    var current: Tag
    var stop: Tag
    var requestors: nat
    var horizon: Tag
    var queue: seq<QueuedEvent>

    ghost function State(): Environment
      reads this
    {
      Environment(current, stop, requestors, horizon, queue)
    }

    constructor (start: Tag, stop: Tag)
      ensures Initial(System(State(), map[]))
      ensures State() == Environment(start, stop, 0, FOREVER_TAG, [])
    {
      current, this.stop := start, stop;
      requestors, horizon, queue := 0, FOREVER_TAG, [];
    }

    method IncrementTagBarrier(future: Tag)
      modifies this`requestors, this`horizon
      ensures State() == Increment(old(State()), future)
      ensures requestors == old(requestors) + 1
      ensures old(requestors) == 0 ==>
                horizon == if Less(current, future) then future else Tag(current.time, current.microstep + 1)
      ensures old(requestors) > 0 && Less(future, old(horizon)) ==>
                horizon == if Less(current, future) then future else current
      ensures old(requestors) > 0 && AtMost(old(horizon), future) ==> horizon == old(horizon)
    {
      if requestors == 0 {
        horizon := if Less(current, future) then future else NextMicrostep(current);
      } else if Less(future, horizon) {
        horizon := if Less(future, current) then current else future;
      }
      requestors := requestors + 1;
    }

    method DecrementTagBarrierLocked()
      requires requestors > 0
      modifies this`requestors, this`horizon
      ensures State() == Decrement(old(State()))
      ensures requestors == old(requestors) - 1
      ensures horizon == if requestors == 0 then Tag(FOREVER, 0) else old(horizon)
    {
      requestors := requestors - 1;
      if requestors == 0 {
        horizon := FOREVER_TAG;
      }
    }

    /** Whether a wait is needed before advancing to the proposed tag. */
    method WaitOnTagBarrier(proposed: Tag) returns (mustWait: bool)
      ensures mustWait <==> requestors > 0 && AtMost(horizon, proposed) && AtMost(horizon, stop)
      ensures mustWait <==> Blocked(State(), proposed)
    {
      var tag := if Less(stop, proposed) then stop else proposed;
      mustWait := requestors > 0 && !Less(tag, horizon);
    }

    method SetStopTag(tag: Tag)
      modifies this`stop
      ensures stop == if Less(tag, old(stop)) then tag else old(stop)
    {
      if Less(tag, stop) {
        stop := tag;
      }
    }

    method ScheduleAtTag(trigger: nat, tag: Tag) returns (handle: int)
      modifies this`queue
      ensures handle == if AtMost(tag, current) then -1 else if QueuedEvent(trigger, tag) in old(queue) then 0 else 1
      ensures queue == if handle == 1 then old(queue) + [QueuedEvent(trigger, tag)] else old(queue)
      ensures handle == ScheduleCode(old(State()), QueuedEvent(trigger, tag))
      ensures State() == TagBarrier.ScheduleAtTag(old(State()), QueuedEvent(trigger, tag))
    {
      if !Less(current, tag) {
        return -1;
      }
      for k := 0 to |queue|
        invariant QueuedEvent(trigger, tag) !in queue[..k]
      {
        if queue[k].trigger == trigger && queue[k].tag == tag {
          assert queue[k] == QueuedEvent(trigger, tag);
          return 0;
        }
      }
      assert queue[..|queue|] == queue;
      queue := queue + [QueuedEvent(trigger, tag)];
      handle := 1;
    }

    /** The least tag on the queue; the stop tag (FOREVER when none was set) when it is empty. */
    method GetNextEventTag() returns (tag: Tag)
      ensures if queue == [] then tag == stop else IsNextTag(queue, tag)
    {
      if queue == [] {
        return stop;
      }
      tag := queue[0].tag;
      for k := 1 to |queue|
        invariant forall j :: 0 <= j < k ==> AtMost(tag, queue[j].tag)
        invariant exists j :: 0 <= j < k && queue[j].tag == tag
      {
        if Less(queue[k].tag, tag) {
          tag := queue[k].tag;
        }
      }
    }

    /** Drop the events at the current tag from the queue and return them. */
    method PopEvents() returns (popped: seq<QueuedEvent>)
      modifies this`queue
      ensures queue == Remaining(old(queue), current)
      ensures forall e :: e in popped <==> e in old(queue) && e.tag == current
    {
      popped := [];
      var rest := [];
      for k := 0 to |queue|
        invariant queue == old(queue)
        invariant rest + Remaining(queue[k..], current) == Remaining(queue, current)
        invariant popped + Due(queue[k..], current) == Due(queue, current)
      {
        RemainingStep(queue, k, rest, current);
        DueStep(queue, k, popped, current);
        if queue[k].tag == current {
          popped := popped + [queue[k]];
        } else {
          rest := rest + [queue[k]];
        }
      }
      assert rest + [] == rest && popped + [] == popped;
      queue := rest;
    }

    /**
     * Advance towards the next event unless the barrier, the stop tag or an empty queue prevents it.
     * With nothing queued and no keepalive, execution ends at the current tag.
     */
    method NextLocked(keepalive: bool) returns (advanced: bool, popped: seq<QueuedEvent>)
      modifies this`current, this`stop, this`queue
      ensures old(queue) == [] ==>
                && !advanced && horizon == old(horizon) && current == old(current) && queue == []
                && stop == if !keepalive && Less(current, old(stop)) then current else old(stop)
      ensures !advanced && old(queue) != [] ==>
                && State() == old(State())
                && forall next :: IsNextTag(queue, next) ==>
                     || (requestors > 0 && AtMost(horizon, next) && AtMost(horizon, stop))
                     || AtMost(next, current) || AtMost(stop, current)
      ensures advanced ==> Less(old(current), current) && AtMost(current, stop) && stop == old(stop)
      ensures advanced ==>
                && (forall e :: e in popped <==> e in old(queue) && e.tag == current)
                && exists next ::
                     && IsNextTag(old(queue), next)
                     && Less(old(current), next) && Less(old(current), stop)
                     && !Blocked(old(State()), next)
                     && State() == AdvanceTo(old(State()), next)
    {
      advanced, popped := false, [];
      if queue == [] {
        if !keepalive {
          SetStopTag(current);
        }
        return;
      }
      var next := GetNextEventTag();
      assert IsNextTag(queue, next);
      var mustWait := WaitOnTagBarrier(next);
      var target := if Less(stop, next) then stop else next;
      if mustWait || !Less(current, target) {
        return;
      }
      current := if target.time == current.time then Tag(current.time, current.microstep + 1) else Tag(target.time, 0);
      popped := PopEvents();
      advanced := true;
    }
  }
}
