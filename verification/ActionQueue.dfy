/** An action and its queued events, scheduled in place. */
module ActionQueue {
  import opened Options
  import opened Tags
  import opened ActionRules

  class ActionQueue {
    const isPhysical: bool
    const minDelay: nat
    const minSpacing: Option<nat>
    const policy: Policy
    var lastTag: Option<Tag>
    var queue: seq<Event>

    ghost function State(): Action
      reads this
    {
      Action(isPhysical, minDelay, minSpacing, policy, lastTag, queue)
    }

    constructor (isPhysical: bool, minDelay: nat, minSpacing: Option<nat>, policy: Policy)
      ensures State() == Action(isPhysical, minDelay, minSpacing, policy, None, []) && Fresh(State())
    {
      this.isPhysical, this.minDelay, this.minSpacing, this.policy := isPhysical, minDelay, minSpacing, policy;
      lastTag, queue := None, [];
    }

    method Find(tag: Tag) returns (found: Option<nat>)
      ensures found.None? <==> !Occupied(queue, tag)
      ensures found.Some? ==> found.value < |queue| && queue[found.value].tag == tag
    {
      for k := 0 to |queue|
        invariant forall j :: 0 <= j < k ==> queue[j].tag != tag
      {
        if queue[k].tag == tag {
          return Some(k);
        }
      }
      found := None;
    }

    /** Queue an event at the wanted tag or the first free microstep after it, unless stopping. */
    method Add(c: Context, extraDelay: nat, wanted: Tag, payload: nat) returns (handle: nat)
      modifies this
      ensures State() == Enqueue(old(State()), c, extraDelay, wanted, payload)
      ensures handle == if Suppressed(old(State()), c, extraDelay, Bump(old(queue), wanted)) then 0 else 1
    {
      var tag := wanted;
      var collision := Find(tag);
      while collision.Some?
        invariant State() == old(State())
        invariant collision.None? <==> !Occupied(queue, tag)
        invariant Bump(queue, tag) == Bump(queue, wanted)
        decreases CountFrom(queue, tag)
      {
        CountDrops(queue, tag);
        tag := NextMicrostep(tag);
        collision := Find(tag);
      }
      assert tag == Bump(queue, wanted);
      if (c.stopRequested && minDelay + extraDelay > 0) || tag.time > c.stop.time {
        return 0;
      }
      queue := queue + [Event(tag, payload)];
      lastTag := Some(tag);
      handle := 1;
    }

    /** 0 when no event was added, whether dropped, suppressed or replaced; else a positive handle. */
    method Schedule(c: Context, extraDelay: nat, payload: nat) returns (handle: nat)
      requires DistinctTags(queue)
      modifies this
      ensures State() == ActionRules.Schedule(old(State()), c, extraDelay, payload)
      ensures DistinctTags(queue)
      ensures handle == 0 ==> lastTag == old(lastTag)
      ensures handle > 0 ==> lastTag.Some? && queue != [] && queue[|queue| - 1] == Event(lastTag.value, payload)
    {
      NextDistinct(State(), Call(c, extraDelay, payload));
      var offset := minDelay + extraDelay;
      var tag :=
        if isPhysical then Tag(c.physicalTime + offset, 0)
        else if offset == 0 then NextMicrostep(c.current)
        else Tag(c.current.time + offset, 0);
      if minSpacing.Some? && lastTag.Some? {
        if Less(tag, EarliestAfter(lastTag.value, minSpacing.value)) {
          handle := ScheduleEarly(c, extraDelay, tag, payload);
          return;
        }
      }
      handle := Add(c, extraDelay, tag, payload);
    }

    /** The preliminary tag is too close to the preceding event: the policy decides. */
    method ScheduleEarly(c: Context, extraDelay: nat, preliminary: Tag, payload: nat) returns (handle: nat)
      requires DistinctTags(queue) && TooEarly(State(), preliminary)
      requires preliminary == Preliminary(State(), c, extraDelay)
      modifies this
      ensures State() == ActionRules.Schedule(old(State()), c, extraDelay, payload)
      ensures handle == 0 ==> lastTag == old(lastTag)
      ensures handle > 0 ==> lastTag.Some? && queue != [] && queue[|queue| - 1] == Event(lastTag.value, payload)
    {
      if policy == Drop {
        return 0;
      }
      var last := lastTag.value;
      var preceding := Find(last);
      if preceding.Some? && policy == Replace {
        var k := preceding.value;
        assert queue[k := Event(last, payload)] == WithPayload(queue, last, payload);
        queue := queue[k := Event(last, payload)];
        return 0;
      }
      var tag := EarliestAfter(last, minSpacing.value);
      if preceding.Some? && policy == Update {
        RemoveAt(preceding.value);
        tag := preliminary;
      }
      handle := Add(c, extraDelay, tag, payload);
    }

    method RemoveAt(k: nat)
      requires k < |queue| && DistinctTags(queue)
      modifies this`queue
      ensures queue == Without(old(queue), old(queue[k].tag))
    {
      RemoveIsWithout(queue, k);
      queue := queue[..k] + queue[k + 1..];
    }
  }

  lemma {:induction false} RemoveIsWithout(queue: seq<Event>, k: nat)
    requires k < |queue| && DistinctTags(queue)
    ensures queue[..k] + queue[k + 1..] == Without(queue, queue[k].tag)
  {
    if k == 0 {
      AbsentIsWithout(queue[1..], queue[0].tag);
    } else {
      RemoveIsWithout(queue[1..], k - 1);
      assert queue[..k] + queue[k + 1..] == [queue[0]] + (queue[1..][..k - 1] + queue[1..][k..]);
    }
  }

  lemma {:induction false} AbsentIsWithout(queue: seq<Event>, tag: Tag)
    requires !Occupied(queue, tag)
    ensures Without(queue, tag) == queue
  {
    if queue != [] {
      AbsentIsWithout(queue[1..], tag);
    }
  }
}
