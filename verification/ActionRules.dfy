/**
 * The tag an action's event gets when it is scheduled: preliminary time, minimum spacing
 * and its policies, and microsteps added on collision.
 */
module ActionRules {
  import opened Options
  import opened Tags

  datatype Policy = Defer | Drop | Replace | Update

  datatype Event = Event(tag: Tag, payload: nat)

  /** One action: its declaration, the tag last given to one of its events, and its queued events. */
  datatype Action = Action(
    isPhysical: bool,
    minDelay: nat,
    minSpacing: Option<nat>,
    policy: Policy,
    lastTag: Option<Tag>,
    queue: seq<Event>)

  /** What the environment looks like when schedule is called. */
  datatype Context = Context(current: Tag, physicalTime: int, stop: Tag, stopRequested: bool)

  predicate Occupied(queue: seq<Event>, tag: Tag) {
    exists k :: 0 <= k < |queue| && queue[k].tag == tag
  }

  function Preliminary(a: Action, c: Context, extraDelay: nat): Tag {
    var offset := a.minDelay + extraDelay;
    if a.isPhysical then Tag(c.physicalTime + offset, 0)
    else if offset == 0 then NextMicrostep(c.current)
    else Tag(c.current.time + offset, 0)
  }

  /** The earliest tag at the minimum spacing from a tag; spacing 0 still orders the tags. */
  function EarliestAfter(last: Tag, spacing: nat): Tag {
    if spacing == 0 then NextMicrostep(last) else Tag(last.time + spacing, 0)
  }

  predicate TooEarly(a: Action, tag: Tag) {
    a.minSpacing.Some? && a.lastTag.Some? && Less(tag, EarliestAfter(a.lastTag.value, a.minSpacing.value))
  }

  /** Events at the time of the tag, from its microstep on. */
  function CountFrom(queue: seq<Event>, tag: Tag): nat {
    if queue == [] then 0
    else (if queue[0].tag.time == tag.time && queue[0].tag.microstep >= tag.microstep then 1 else 0)
         + CountFrom(queue[1..], tag)
  }

  lemma {:induction false} CountDrops(queue: seq<Event>, tag: Tag)
    ensures CountFrom(queue, NextMicrostep(tag)) <= CountFrom(queue, tag)
    ensures Occupied(queue, tag) ==> CountFrom(queue, NextMicrostep(tag)) < CountFrom(queue, tag)
  {
    if queue != [] {
      CountDrops(queue[1..], tag);
      if Occupied(queue, tag) && queue[0].tag != tag {
        var k :| 0 <= k < |queue| && queue[k].tag == tag;
        assert queue[1..][k - 1].tag == tag;
      }
    }
  }

  /** Add microsteps until no queued event has the tag; each one passes a queued event. */
  function Bump(queue: seq<Event>, tag: Tag): (r: Tag)
    ensures !Occupied(queue, r)
    ensures r.time == tag.time && tag.microstep <= r.microstep
    ensures forall m :: tag.microstep <= m < r.microstep ==> Occupied(queue, Tag(tag.time, m))
    decreases CountFrom(queue, tag)
  {
    CountDrops(queue, tag);
    if Occupied(queue, tag) then Bump(queue, NextMicrostep(tag)) else tag
  }

  function Without(queue: seq<Event>, tag: Tag): (r: seq<Event>)
    ensures !Occupied(r, tag)
    ensures forall e :: e in r <==> e in queue && e.tag != tag
    ensures |r| <= |queue|
  {
    if queue == [] then []
    else if queue[0].tag == tag then Without(queue[1..], tag)
    else [queue[0]] + Without(queue[1..], tag)
  }

  /** Events are dropped one by one, wherever they stand; the others keep their order. */
  lemma {:induction false} WithoutConcat(a: seq<Event>, b: seq<Event>, e: Event, tag: Tag)
    ensures Without(a + b, tag) == Without(a, tag) + Without(b, tag)
    ensures Without([e], tag) == if e.tag == tag then [] else [e]
  {
    if a == [] {
      assert a + b == b;
    } else {
      assert (a + b)[0] == a[0] && (a + b)[1..] == a[1..] + b;
      WithoutConcat(a[1..], b, e, tag);
    }
  }

  function WithPayload(queue: seq<Event>, tag: Tag, payload: nat): (r: seq<Event>)
    ensures |r| == |queue|
    ensures forall k :: 0 <= k < |queue| ==>
              r[k] == if queue[k].tag == tag then Event(tag, payload) else queue[k]
  {
    seq(|queue|, k requires 0 <= k < |queue| => if queue[k].tag == tag then Event(tag, payload) else queue[k])
  }

  /** The stop conditions under which nothing is queued. */
  predicate Suppressed(a: Action, c: Context, extraDelay: nat, tag: Tag) {
    (c.stopRequested && a.minDelay + extraDelay > 0) || tag.time > c.stop.time
  }

  function Enqueue(a: Action, c: Context, extraDelay: nat, wanted: Tag, payload: nat): Action {
    var tag := Bump(a.queue, wanted);
    if Suppressed(a, c, extraDelay, tag) then a
    else a.(queue := a.queue + [Event(tag, payload)], lastTag := Some(tag))
  }

  predicate PrecedingPending(a: Action) {
    a.lastTag.Some? && Occupied(a.queue, a.lastTag.value)
  }

  function Schedule(a: Action, c: Context, extraDelay: nat, payload: nat): Action {
    var tag := Preliminary(a, c, extraDelay);
    if !TooEarly(a, tag) then Enqueue(a, c, extraDelay, tag, payload)
    else
      var deferred := EarliestAfter(a.lastTag.value, a.minSpacing.value);
      match a.policy
      case Drop => a
      case Defer => Enqueue(a, c, extraDelay, deferred, payload)
      case Replace =>
        if PrecedingPending(a) then a.(queue := WithPayload(a.queue, a.lastTag.value, payload))
        else Enqueue(a, c, extraDelay, deferred, payload)
      case Update =>
        if PrecedingPending(a)
        then Enqueue(a.(queue := Without(a.queue, a.lastTag.value)), c, extraDelay, tag, payload)
        else Enqueue(a, c, extraDelay, deferred, payload)
  }

  // ---------- Runs ----------

  datatype Step =
    | Call(context: Context, extraDelay: nat, payload: nat)
    | Pop(tag: Tag)

  function Next(a: Action, s: Step): Action {
    match s
    case Call(c, extraDelay, payload) => Schedule(a, c, extraDelay, payload)
    case Pop(tag) => a.(queue := Without(a.queue, tag))
  }

  function After(a: Action, steps: seq<Step>): Action
    decreases |steps|
  {
    if steps == [] then a else After(Next(a, steps[0]), steps[1..])
  }

  /** Whether a step put one more event on the queue. */
  predicate Queues(a: Action, s: Step) {
    |Next(a, s).queue| > |a.queue|
  }

  /** The tags of the newly queued events, in the order of the calls. */
  function Log(a: Action, steps: seq<Step>): seq<Tag>
    decreases |steps|
  {
    if steps == [] then []
    else (if Queues(a, steps[0]) then [Next(a, steps[0]).lastTag.value] else []) + Log(Next(a, steps[0]), steps[1..])
  }

  predicate Fresh(a: Action) {
    a.lastTag.None? && a.queue == []
  }

  predicate DistinctTags(queue: seq<Event>) {
    forall j, k :: 0 <= j < k < |queue| ==> queue[j].tag != queue[k].tag
  }

  lemma {:induction false} WithoutDistinct(queue: seq<Event>, tag: Tag)
    requires DistinctTags(queue)
    ensures DistinctTags(Without(queue, tag))
  {
    if queue != [] {
      WithoutDistinct(queue[1..], tag);
      if queue[0].tag != tag {
        assert forall e :: e in Without(queue[1..], tag) ==> e in queue[1..];
      }
    }
  }

  lemma EnqueueDistinct(a: Action, c: Context, extraDelay: nat, wanted: Tag, payload: nat)
    requires DistinctTags(a.queue)
    ensures DistinctTags(Enqueue(a, c, extraDelay, wanted, payload).queue)
  {
    assert !Occupied(a.queue, Bump(a.queue, wanted));
  }

  lemma WithPayloadDistinct(queue: seq<Event>, tag: Tag, payload: nat)
    requires DistinctTags(queue)
    ensures DistinctTags(WithPayload(queue, tag, payload))
  {
    assert forall k :: 0 <= k < |queue| ==> WithPayload(queue, tag, payload)[k].tag == queue[k].tag;
  }

  lemma NextDistinct(a: Action, s: Step)
    requires DistinctTags(a.queue)
    ensures DistinctTags(Next(a, s).queue)
  {
    match s
    case Pop(tag) => WithoutDistinct(a.queue, tag);
    case Call(c, extraDelay, payload) =>
      var tag := Preliminary(a, c, extraDelay);
      EnqueueDistinct(a, c, extraDelay, tag, payload);
      if TooEarly(a, tag) {
        EnqueueDistinct(a, c, extraDelay, EarliestAfter(a.lastTag.value, a.minSpacing.value), payload);
        WithPayloadDistinct(a.queue, a.lastTag.value, payload);
        WithoutDistinct(a.queue, a.lastTag.value);
        EnqueueDistinct(a.(queue := Without(a.queue, a.lastTag.value)), c, extraDelay, tag, payload);
      }
  }

  /** Whatever is declared, no two queued events of an action ever share a tag. */
  lemma {:induction false} TagsStayDistinct(a: Action, steps: seq<Step>)
    requires DistinctTags(a.queue)
    ensures DistinctTags(After(a, steps).queue)
    decreases |steps|
  {
    if steps != [] {
      NextDistinct(a, steps[0]);
      TagsStayDistinct(Next(a, steps[0]), steps[1..]);
    }
  }

  /** The action with one more event, which is now its last. */
  function Queued(a: Action, tag: Tag, payload: nat): Action {
    a.(queue := a.queue + [Event(tag, payload)], lastTag := Some(tag))
  }

  /** The first event of an action is at the preliminary time, whatever spacing is declared. */
  lemma FirstEvent(a: Action, c: Context, extraDelay: nat, payload: nat)
    requires Fresh(a)
    ensures var d := a.minDelay + extraDelay;
            var tag := if a.isPhysical then Tag(c.physicalTime + d, 0)
                       else if d == 0 then Tag(c.current.time, c.current.microstep + 1)
                       else Tag(c.current.time + d, 0);
            Schedule(a, c, extraDelay, payload) ==
              if (c.stopRequested && d > 0) || tag.time > c.stop.time then a
              else a.(queue := [Event(tag, payload)], lastTag := Some(tag))
  {
    var p := Preliminary(a, c, extraDelay);
    assert Bump(a.queue, p) == p;
    assert [] + [Event(p, payload)] == [Event(p, payload)];
  }

  /**
   * Without minimum spacing the event gets the first free microstep at its preliminary time, and
   * is not queued exactly when it has an offset while stopping or lies after the stop time.
   */
  lemma UnspacedTag(a: Action, c: Context, extraDelay: nat, payload: nat) returns (m: nat)
    requires a.minSpacing.None?
    ensures var d := a.minDelay + extraDelay;
            var time := if a.isPhysical then c.physicalTime + d else c.current.time + d;
            var first := if !a.isPhysical && d == 0 then c.current.microstep + 1 else 0;
            && first <= m && (forall k :: 0 <= k < |a.queue| ==> a.queue[k].tag != Tag(time, m))
            && (forall j :: first <= j < m ==> exists k :: 0 <= k < |a.queue| && a.queue[k].tag == Tag(time, j))
            && Schedule(a, c, extraDelay, payload) ==
                 if (c.stopRequested && d > 0) || time > c.stop.time then a
                 else a.(queue := a.queue + [Event(Tag(time, m), payload)], lastTag := Some(Tag(time, m)))
  {
    var p := Preliminary(a, c, extraDelay);
    m := Bump(a.queue, p).microstep;
    assert Bump(a.queue, p) == Tag(p.time, m) && !Occupied(a.queue, Tag(p.time, m));
    forall j | p.microstep <= j < m ensures exists k :: 0 <= k < |a.queue| && a.queue[k].tag == Tag(p.time, j) {
      assert Occupied(a.queue, Tag(p.time, j));
    }
  }

  // ---------- Minimum spacing ----------

  predicate Spaced(a: Action) {
    && a.minSpacing.Some? && a.policy != Update
    && forall e :: e in a.queue ==> a.lastTag.Some? && AtMost(e.tag, a.lastTag.value)
  }

  /** At or after the last tag plus the spacing nothing is queued, so no microstep is added. */
  lemma BumpKeepsSpaced(a: Action, tag: Tag)
    requires Spaced(a) && (a.lastTag.Some? ==> Less(a.lastTag.value, tag))
    ensures Bump(a.queue, tag) == tag
  {
    forall k | 0 <= k < |a.queue|
      ensures a.queue[k].tag != tag
    {
      assert a.queue[k] in a.queue;
    }
  }

  lemma NextSpaced(a: Action, s: Step)
    requires Spaced(a)
    ensures Spaced(Next(a, s))
    ensures Next(a, s).minSpacing == a.minSpacing
    ensures !Queues(a, s) ==> Next(a, s).lastTag == a.lastTag
    ensures Queues(a, s) ==>
              && s.Call? && Next(a, s).lastTag.Some?
              && Next(a, s) == Queued(a, Next(a, s).lastTag.value, s.payload)
              && (a.lastTag.Some? ==> AtMost(EarliestAfter(a.lastTag.value, a.minSpacing.value), Next(a, s).lastTag.value))
  {
    if s.Call? {
      var tag := Preliminary(a, s.context, s.extraDelay);
      if TooEarly(a, tag) {
        BumpKeepsSpaced(a, EarliestAfter(a.lastTag.value, a.minSpacing.value));
        ReplacedTags(a, s.payload);
      } else {
        BumpKeepsSpaced(a, tag);
      }
    }
  }

  /**
   * Deferring gives the later of the preliminary tag and the tag at the spacing from the preceding
   * event, and queues nothing exactly when the event has an offset while stopping or lies after
   * the stop time.
   */
  lemma DeferredTag(a: Action, c: Context, extraDelay: nat, payload: nat) returns (tag: Tag)
    requires Spaced(a) && a.policy == Defer
    ensures var d := a.minDelay + extraDelay;
            var p := if a.isPhysical then Tag(c.physicalTime + d, 0)
                     else if d == 0 then Tag(c.current.time, c.current.microstep + 1)
                     else Tag(c.current.time + d, 0);
            var s := a.minSpacing.value;
            && Schedule(a, c, extraDelay, payload) ==
                 (if (c.stopRequested && d > 0) || tag.time > c.stop.time then a
                  else a.(queue := a.queue + [Event(tag, payload)], lastTag := Some(tag)))
            && (a.lastTag.None? ==> tag == p)
            && (a.lastTag.Some? ==>
                  var last := a.lastTag.value;
                  var next := if s == 0 then Tag(last.time, last.microstep + 1) else Tag(last.time + s, 0);
                  tag == if Less(p, next) then next else p)
  {
    tag := Preliminary(a, c, extraDelay);
    if TooEarly(a, tag) {
      tag := EarliestAfter(a.lastTag.value, a.minSpacing.value);
    }
    BumpKeepsSpaced(a, tag);
  }

  lemma ReplacedTags(a: Action, payload: nat)
    requires Spaced(a) && a.lastTag.Some?
    ensures Spaced(a.(queue := WithPayload(a.queue, a.lastTag.value, payload)))
  {
    var q := WithPayload(a.queue, a.lastTag.value, payload);
    forall k | 0 <= k < |q|
      ensures AtMost(q[k].tag, a.lastTag.value)
    {
      assert a.queue[k] in a.queue;
    }
  }

  /** Successive tags at the spacing, the first one at the spacing from a given tag. */
  predicate SpacedFrom(last: Option<Tag>, tags: seq<Tag>, spacing: nat)
    decreases |tags|
  {
    tags == [] ||
    ((last.Some? ==> AtMost(EarliestAfter(last.value, spacing), tags[0]))
     && SpacedFrom(Some(tags[0]), tags[1..], spacing))
  }

  lemma {:induction false} LogSpaced(a: Action, steps: seq<Step>)
    requires Spaced(a)
    ensures SpacedFrom(a.lastTag, Log(a, steps), a.minSpacing.value)
    decreases |steps|
  {
    if steps != [] {
      NextSpaced(a, steps[0]);
      LogSpaced(Next(a, steps[0]), steps[1..]);
      if Queues(a, steps[0]) {
        assert Log(a, steps)[1..] == Log(Next(a, steps[0]), steps[1..]);
      } else {
        assert Log(a, steps) == Log(Next(a, steps[0]), steps[1..]);
      }
    }
  }

  lemma {:induction false} SpacedPair(last: Option<Tag>, tags: seq<Tag>, spacing: nat, i: nat, j: nat)
    requires SpacedFrom(last, tags, spacing) && i < j < |tags|
    ensures Less(tags[i], tags[j]) && tags[j].time - tags[i].time >= (j - i) * spacing
    decreases j
  {
    if i > 0 {
      SpacedPair(Some(tags[0]), tags[1..], spacing, i - 1, j - 1);
    } else if j == 1 {
      assert SpacedFrom(Some(tags[0]), tags[1..], spacing);
    } else {
      SpacedPair(Some(tags[0]), tags[1..], spacing, 0, j - 1);
      assert SpacedFrom(Some(tags[0]), tags[1..], spacing);
      assert (j - 1) * spacing == (j - 1 - 0) * spacing && j * spacing == (j - 1) * spacing + spacing;
    }
  }

  /**
   * Under defer, drop and replace the newly queued events have strictly increasing tags, and any
   * two of them are as many spacings apart as they are calls apart.
   */
  lemma MinimumSpacing(a: Action, steps: seq<Step>, i: nat, j: nat)
    requires Fresh(a) && a.minSpacing.Some? && a.policy != Update
    requires i < j < |Log(a, steps)|
    ensures var log := Log(a, steps);
            Less(log[i], log[j]) && log[j].time - log[i].time >= (j - i) * a.minSpacing.value
  {
    LogSpaced(a, steps);
    SpacedPair(a.lastTag, Log(a, steps), a.minSpacing.value, i, j);
  }

  /** A step brings no tag onto the queue but that of the event it queues. */
  lemma NewTagIsLast(a: Action, s: Step, e: Event)
    requires Spaced(a) && e in Next(a, s).queue
    ensures (exists e' :: e' in a.queue && e'.tag == e.tag)
            || (Queues(a, s) && Next(a, s).lastTag == Some(e.tag))
  {
    NextSpaced(a, s);
    if s.Call? {
      var tag := Preliminary(a, s.context, s.extraDelay);
      if TooEarly(a, tag) && a.policy == Replace && PrecedingPending(a) {
        var k :| 0 <= k < |a.queue| && Next(a, s).queue[k] == e;
        assert a.queue[k].tag == e.tag && a.queue[k] in a.queue;
      }
    }
  }

  /** The log is complete: whatever is queued after a run was queued before it or is logged. */
  lemma {:induction false} QueuedIsLogged(a: Action, steps: seq<Step>, e: Event)
    requires Spaced(a) && e in After(a, steps).queue
    ensures (exists e' :: e' in a.queue && e'.tag == e.tag) || e.tag in Log(a, steps)
    decreases |steps|
  {
    if steps != [] {
      var next := Next(a, steps[0]);
      NextSpaced(a, steps[0]);
      QueuedIsLogged(next, steps[1..], e);
      if e.tag !in Log(next, steps[1..]) {
        var e' :| e' in next.queue && e'.tag == e.tag;
        NewTagIsLast(a, steps[0], e');
      }
    }
  }

  /** The event is closer than the spacing to the preceding one, or before it. */
  predicate CloserThanSpacing(a: Action, c: Context, extraDelay: nat) {
    && a.minSpacing.Some? && a.lastTag.Some?
    && var d := a.minDelay + extraDelay;
       var p := if a.isPhysical then Tag(c.physicalTime + d, 0)
                else if d == 0 then Tag(c.current.time, c.current.microstep + 1)
                else Tag(c.current.time + d, 0);
       var (s, last) := (a.minSpacing.value, a.lastTag.value);
       Less(p, if s == 0 then Tag(last.time, last.microstep + 1) else Tag(last.time + s, 0))
  }

  lemma CloserIsTooEarly(a: Action, c: Context, extraDelay: nat)
    ensures CloserThanSpacing(a, c, extraDelay) <==> TooEarly(a, Preliminary(a, c, extraDelay))
  {
  }

  /** An event far enough from the preceding one is scheduled alike under all policies. */
  lemma PolicyOnlyWhenCloser(a: Action, c: Context, extraDelay: nat, payload: nat)
    requires !CloserThanSpacing(a, c, extraDelay)
    ensures Schedule(a, c, extraDelay, payload)
            == Schedule(a.(policy := Defer), c, extraDelay, payload).(policy := a.policy)
  {
    CloserIsTooEarly(a, c, extraDelay);
  }

  /** For an event too close to the preceding one, drop changes nothing. */
  lemma DroppedEvent(a: Action, c: Context, extraDelay: nat, payload: nat)
    requires CloserThanSpacing(a, c, extraDelay) && a.policy == Drop
    ensures Schedule(a, c, extraDelay, payload) == a
  {
    CloserIsTooEarly(a, c, extraDelay);
  }

  /** Replace and update defer when the preceding event is no longer queued. */
  lemma PoppedMeansDefer(a: Action, c: Context, extraDelay: nat, payload: nat)
    requires CloserThanSpacing(a, c, extraDelay) && (a.policy == Replace || a.policy == Update)
    requires !Occupied(a.queue, a.lastTag.value)
    ensures Schedule(a, c, extraDelay, payload)
            == Schedule(a.(policy := Defer), c, extraDelay, payload).(policy := a.policy)
  {
    CloserIsTooEarly(a, c, extraDelay);
  }

  /** Update drops the pending preceding event and schedules anew without regard to it. */
  lemma UpdatedEvent(a: Action, c: Context, extraDelay: nat, payload: nat)
    requires CloserThanSpacing(a, c, extraDelay) && a.policy == Update && Occupied(a.queue, a.lastTag.value)
    ensures var rest := a.(queue := Without(a.queue, a.lastTag.value), minSpacing := None);
            Schedule(a, c, extraDelay, payload) == Schedule(rest, c, extraDelay, payload).(minSpacing := a.minSpacing)
  {
    CloserIsTooEarly(a, c, extraDelay);
  }

  /** Replace changes the payload of the pending preceding event and nothing else. */
  lemma ReplacedPayload(a: Action, c: Context, extraDelay: nat, payload: nat, k: nat)
    requires DistinctTags(a.queue) && CloserThanSpacing(a, c, extraDelay) && a.policy == Replace
    requires k < |a.queue| && a.queue[k].tag == a.lastTag.value
    ensures Schedule(a, c, extraDelay, payload) == a.(queue := a.queue[k := Event(a.lastTag.value, payload)])
  {
    CloserIsTooEarly(a, c, extraDelay);
    assert PrecedingPending(a);
    assert Schedule(a, c, extraDelay, payload).queue == a.queue[k := Event(a.lastTag.value, payload)];
  }
}
