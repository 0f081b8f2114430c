/**
 * The tag barrier, tag advance and scheduling of network messages, one critical
 * section at a time, and every interleaving of them.
 */
module TagBarrier {
  import opened Options
  import opened Tags

  datatype QueuedEvent = QueuedEvent(trigger: nat, tag: Tag)

  datatype Environment = Environment(
    current: Tag,
    stop: Tag,
    requestors: nat,
    horizon: Tag,
    queue: seq<QueuedEvent>)

  // ---------- Critical sections ----------

  function Increment(env: Environment, future: Tag): Environment {
    var horizon :=
      if env.requestors == 0 then
        if Less(env.current, future) then future else NextMicrostep(env.current)
      else if Less(future, env.horizon) then Later(future, env.current)
      else env.horizon;
    env.(requestors := env.requestors + 1, horizon := horizon)
  }

  function Decrement(env: Environment): Environment
    requires env.requestors > 0
  {
    env.(requestors := env.requestors - 1,
         horizon := if env.requestors == 1 then FOREVER_TAG else env.horizon)
  }

  /** The proposed tag, or the stop tag when that is earlier. */
  function Target(env: Environment, proposed: Tag): Tag {
    Earlier(proposed, env.stop)
  }

  /** Whether waiting on the barrier for the proposed tag would block. */
  predicate Blocked(env: Environment, proposed: Tag) {
    env.requestors > 0 && AtMost(env.horizon, Target(env, proposed))
  }

  /** A step towards the next tag: one microstep at the same time, else microstep zero of its time. */
  function StepTag(current: Tag, next: Tag): Tag {
    if next.time == current.time then NextMicrostep(current) else Tag(next.time, 0)
  }

  function Remaining(queue: seq<QueuedEvent>, tag: Tag): (r: seq<QueuedEvent>)
    ensures forall e :: e in r <==> e in queue && e.tag != tag
  {
    if queue == [] then []
    else if queue[0].tag == tag then Remaining(queue[1..], tag)
    else [queue[0]] + Remaining(queue[1..], tag)
  }

  /** Events are dropped one by one, wherever they stand; the others keep their order. */
  lemma {:induction false} RemainingConcat(a: seq<QueuedEvent>, b: seq<QueuedEvent>, e: QueuedEvent, tag: Tag)
    ensures Remaining(a + b, tag) == Remaining(a, tag) + Remaining(b, tag)
    ensures Remaining([e], tag) == if e.tag == tag then [] else [e]
  {
    if a == [] {
      assert a + b == b;
    } else {
      assert (a + b)[0] == a[0] && (a + b)[1..] == a[1..] + b;
      RemainingConcat(a[1..], b, e, tag);
    }
  }

  function AdvanceTo(env: Environment, proposed: Tag): Environment {
    var tag := StepTag(env.current, Target(env, proposed));
    env.(current := tag, queue := Remaining(env.queue, tag))
  }

  /** The handle: -1 when the tag is not in the future, 0 when only a payload is replaced, else 1. */
  function ScheduleCode(env: Environment, e: QueuedEvent): int {
    if AtMost(e.tag, env.current) then -1 else if e in env.queue then 0 else 1
  }

  function ScheduleAtTag(env: Environment, e: QueuedEvent): Environment {
    if ScheduleCode(env, e) == 1 then env.(queue := env.queue + [e]) else env
  }

  // ---------- Interleavings ----------

  /** A pending barrier request; `bound` is the tag it keeps the environment below. */
  datatype Request = Request(event: QueuedEvent, bound: Tag)

  datatype System = System(env: Environment, pending: map<nat, Request>)

  datatype Action =
    | Raise(id: nat, event: QueuedEvent)   // a message header has been read
    | Deliver(id: nat)                     // its body has been read: queue it, release the barrier
    | Release(id: nat)                     // a request released without queueing anything
    | Schedule(event: QueuedEvent)         // a local event
    | SetStop(tag: Tag)
    | Advance(proposed: Tag)

  function Bound(env: Environment, future: Tag): Tag {
    if Less(env.current, future) then future else NextMicrostep(env.current)
  }

  predicate Enabled(s: System, a: Action) {
    match a
    case Raise(id, _) => id !in s.pending
    case Deliver(id) => id in s.pending && s.env.requestors > 0
    case Release(id) => id in s.pending && s.env.requestors > 0
    case Schedule(_) => true
    case SetStop(_) => true
    case Advance(proposed) =>
      && Less(s.env.current, Target(s.env, proposed))
      && (forall e :: e in s.env.queue ==> AtMost(proposed, e.tag))
      && !Blocked(s.env, proposed)
  }

  function Next(s: System, a: Action): System
    requires Enabled(s, a)
  {
    match a
    case Raise(id, event) =>
      System(Increment(s.env, event.tag), s.pending[id := Request(event, Bound(s.env, event.tag))])
    case Deliver(id) =>
      System(Decrement(ScheduleAtTag(s.env, s.pending[id].event)), s.pending - {id})
    case Release(id) => System(Decrement(s.env), s.pending - {id})
    case Schedule(event) => s.(env := ScheduleAtTag(s.env, event))
    case SetStop(tag) => s.(env := s.env.(stop := Earlier(s.env.stop, tag)))
    case Advance(proposed) => s.(env := AdvanceTo(s.env, proposed))
  }

  predicate IsRun(s: System, run: seq<Action>)
    decreases |run|
  {
    run == [] || (Enabled(s, run[0]) && IsRun(Next(s, run[0]), run[1..]))
  }

  function After(s: System, run: seq<Action>): System
    requires IsRun(s, run)
    decreases |run|
  {
    if run == [] then s else After(Next(s, run[0]), run[1..])
  }

  predicate Initial(s: System) {
    s.env.requestors == 0 && s.env.horizon == FOREVER_TAG && s.env.queue == [] && s.pending == map[]
  }

  /**
   * The barrier counts its requests, lies at or below the bound of each, and is reset when there
   * are none; the environment is below every bound and before every queued event.
   */
  predicate Invariant(s: System) {
    && s.env.requestors == |s.pending|
    && (if s.env.requestors == 0 then s.env.horizon == FOREVER_TAG else AtMost(s.env.current, s.env.horizon))
    && (forall id :: id in s.pending ==>
          AtMost(s.env.horizon, s.pending[id].bound) && Less(s.env.current, s.pending[id].bound))
    && (forall e :: e in s.env.queue ==> Less(s.env.current, e.tag))
  }

  lemma StepTagBetween(current: Tag, next: Tag)
    requires Less(current, next)
    ensures Less(current, StepTag(current, next)) && AtMost(StepTag(current, next), next)
  {
  }

  lemma RaiseKeeps(s: System, id: nat, event: QueuedEvent)
    requires Invariant(s) && id !in s.pending
    ensures Invariant(Next(s, Raise(id, event)))
  {
    var s' := Next(s, Raise(id, event));
    assert s'.pending.Keys == s.pending.Keys + {id};
    assert |s'.pending.Keys| == |s.pending.Keys| + 1;
    assert AtMost(s'.env.horizon, Bound(s.env, event.tag));
    assert s.pending != map[] ==> AtMost(s'.env.horizon, s.env.horizon);
  }

  lemma ReleaseKeeps(s: System, id: nat)
    requires Invariant(s) && id in s.pending && s.env.requestors > 0
    ensures Invariant(Next(s, Release(id)))
  {
    RemoveOne(s.pending, id);
    var s' := Next(s, Release(id));
    if s.env.requestors == 1 {
      assert s'.pending == map[];
    }
  }

  lemma ScheduleKeeps(s: System, event: QueuedEvent)
    requires Invariant(s)
    ensures Invariant(s.(env := ScheduleAtTag(s.env, event)))
  {
  }

  lemma AdvanceKeeps(s: System, proposed: Tag)
    requires Invariant(s) && Enabled(s, Advance(proposed))
    ensures Invariant(Next(s, Advance(proposed)))
    ensures Less(s.env.current, Next(s, Advance(proposed)).env.current)
    ensures AtMost(Next(s, Advance(proposed)).env.current, Target(s.env, proposed))
  {
    StepTagBetween(s.env.current, Target(s.env, proposed));
    if s.env.requestors == 0 {
      assert s.pending == map[];
    }
  }

  lemma NextKeeps(s: System, a: Action)
    requires Invariant(s) && Enabled(s, a)
    ensures Invariant(Next(s, a))
    ensures AtMost(s.env.current, Next(s, a).env.current)
  {
    match a
    case Raise(id, event) => RaiseKeeps(s, id, event);
    case Deliver(id) =>
      ScheduleKeeps(s, s.pending[id].event);
      ReleaseKeeps(s.(env := ScheduleAtTag(s.env, s.pending[id].event)), id);
    case Release(id) => ReleaseKeeps(s, id);
    case Schedule(event) => ScheduleKeeps(s, event);
    case SetStop(_) =>
    case Advance(proposed) => AdvanceKeeps(s, proposed);
  }

  lemma RemoveOne<V>(m: map<nat, V>, id: nat)
    requires id in m
    ensures |m - {id}| == |m| - 1
  {
    assert (m - {id}).Keys == m.Keys - {id};
    assert |(m - {id}).Keys| == |m.Keys| - 1;
  }

  lemma {:induction false} RunKeeps(s: System, run: seq<Action>)
    requires Invariant(s) && IsRun(s, run)
    ensures Invariant(After(s, run))
    ensures AtMost(s.env.current, After(s, run).env.current)
    decreases |run|
  {
    if run != [] {
      NextKeeps(s, run[0]);
      RunKeeps(Next(s, run[0]), run[1..]);
    }
  }

  /** In every reachable state the barrier invariant holds. */
  lemma BarrierInvariant(s: System, run: seq<Action>)
    requires Initial(s) && IsRun(s, run)
    ensures Invariant(After(s, run))
  {
    RunKeeps(s, run);
  }

  lemma {:induction false} PendingStays(s: System, run: seq<Action>, id: nat)
    requires IsRun(s, run) && id in s.pending
    requires Deliver(id) !in run && Release(id) !in run
    ensures id in After(s, run).pending && After(s, run).pending[id] == s.pending[id]
    decreases |run|
  {
    if run != [] {
      PendingStays(Next(s, run[0]), run[1..], id);
    }
  }

  /**
   * Whatever happens while the body of a message is being read, the message is queued on time
   * exactly when its tag was in the future as the barrier was raised for it.
   */
  lemma NoTardyMessages(start: System, before: seq<Action>, id: nat, event: QueuedEvent, run: seq<Action>)
    requires Initial(start) && IsRun(start, before)
    requires Enabled(After(start, before), Raise(id, event))
    requires IsRun(Next(After(start, before), Raise(id, event)), run)
    requires Deliver(id) !in run && Release(id) !in run
    ensures var future := Less(After(start, before).env.current, event.tag);
            var z := After(Next(After(start, before), Raise(id, event)), run);
            && Enabled(z, Deliver(id)) && z.pending[id].event == event
            && (ScheduleCode(z.env, event) != -1 <==> future)
            && (event in Next(z, Deliver(id)).env.queue <==> future)
  {
    var s := After(start, before);
    RunKeeps(start, before);
    NextKeeps(s, Raise(id, event));
    var t := Next(s, Raise(id, event));
    PendingStays(t, run, id);
    RunKeeps(t, run);
    var z := After(t, run);
    assert z.pending != map[] && |z.pending| > 0;
    assert z.pending[id] == Request(event, Bound(s.env, event.tag));
  }

  /**
   * The barrier stops no more than it must: an advance to a tag before those of all messages
   * begun since the barrier was last down is not blocked.
   */
  lemma {:induction false} OnlyRequestedTagsBlock(s: System, run: seq<Action>, target: Tag)
    requires IsRun(s, run)
    requires s.env.requestors > 0 ==> Less(target, s.env.horizon)
    requires forall a :: a in run && a.Raise? ==> Less(target, a.event.tag)
    ensures var z := After(s, run).env; z.requestors > 0 ==> Less(target, z.horizon)
    ensures forall proposed :: Target(After(s, run).env, proposed) == target ==> !Blocked(After(s, run).env, proposed)
    decreases |run|
  {
    if run != [] {
      assert run[0] in run;
      OnlyRequestedTagsBlock(Next(s, run[0]), run[1..], target);
    }
  }

  /** A step towards a tag is towards the stop tag when that is earlier, and does not pass it. */
  lemma AdvanceStopsAtStop(s: System, proposed: Tag)
    requires Enabled(s, Advance(proposed))
    ensures var next := Next(s, Advance(proposed)).env.current;
            && Less(s.env.current, next) && AtMost(next, proposed) && AtMost(next, s.env.stop)
            && (Less(s.env.stop, proposed) ==> next.time == s.env.current.time || next.time == s.env.stop.time)
            && (AtMost(proposed, s.env.stop) ==> next.time == s.env.current.time || next.time == proposed.time)
            && (next.time == s.env.current.time ==> next.microstep == s.env.current.microstep + 1)
            && (next.time != s.env.current.time ==> next.microstep == 0)
  {
    StepTagBetween(s.env.current, Target(s.env, proposed));
  }

  /** Whatever happens later, the tag does not pass a stop tag that was set in time. */
  lemma NeverPastStop(s: System, run: seq<Action>)
    requires IsRun(s, run) && AtMost(s.env.current, s.env.stop)
    ensures AtMost(After(s, run).env.current, s.env.stop)
    ensures AtMost(After(s, run).env.stop, s.env.stop)
  {
    StopHolds(s, run, s.env.stop);
  }

  lemma {:induction false} StopHolds(s: System, run: seq<Action>, stop: Tag)
    requires IsRun(s, run) && AtMost(s.env.current, stop) && AtMost(s.env.stop, stop)
    ensures AtMost(After(s, run).env.current, stop) && AtMost(After(s, run).env.stop, stop)
    decreases |run|
  {
    if run != [] {
      if run[0].Advance? {
        AdvanceStopsAtStop(s, run[0].proposed);
      }
      StopHolds(Next(s, run[0]), run[1..], stop);
    }
  }

  /** A queued event stays queued until the environment is exactly at its tag: none is skipped. */
  lemma NoEventSkipped(s: System, a: Action, e: QueuedEvent)
    requires Invariant(s) && Enabled(s, a) && e in s.env.queue
    ensures e in Next(s, a).env.queue <==> Next(s, a).env.current != e.tag
    ensures AtMost(Next(s, a).env.current, e.tag)
  {
    NextKeeps(s, a);
  }

  /** While any request is pending the tag stays below the horizon it advanced under. */
  lemma AdvanceStaysBelowHorizon(s: System, proposed: Tag)
    requires Invariant(s) && Enabled(s, Advance(proposed)) && s.pending != map[]
    ensures Less(Next(s, Advance(proposed)).env.current, s.env.horizon)
    ensures Next(s, Advance(proposed)).env.horizon == s.env.horizon
  {
    AdvanceKeeps(s, proposed);
    assert |s.pending| > 0;
  }

  /** Steps needed to get from one tag to a later one by `StepTag`. */
  function StepsBetween(current: Tag, next: Tag): nat
    requires AtMost(current, next)
  {
    if current.time == next.time then next.microstep - current.microstep else next.microstep + 1
  }

  function Walk(current: Tag, next: Tag, n: nat): Tag
    decreases n
  {
    if n == 0 then current else Walk(StepTag(current, next), next, n - 1)
  }

  /** Stepping towards a later tag reaches exactly that tag. */
  lemma {:induction false} WalkArrives(current: Tag, next: Tag)
    requires AtMost(current, next)
    ensures Walk(current, next, StepsBetween(current, next)) == next
    decreases StepsBetween(current, next)
  {
    if current != next {
      WalkArrives(StepTag(current, next), next);
    }
  }
}
