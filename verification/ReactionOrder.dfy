/**
 * The order in which the reactions of one tag run. A reaction queue is sorted by an index that
 * holds the deadline above the level; a reaction waits until the status of every network input
 * that could still precede it is known.
 */
module ReactionOrder {

  // ---------- Indexes ----------

  const LEVELS: nat := 65536
  const MAX_DEADLINE: nat := 281474976710655
  const INDEX_RANGE: nat := 18446744073709551616

  function Saturated(deadline: nat): nat {
    if deadline > MAX_DEADLINE then MAX_DEADLINE else deadline
  }

  /** The deadline shifted above the 16 bits that hold the level. */
  function Combine(deadline: nat, level: nat): (index: nat)
    ensures index < INDEX_RANGE
  {
    Saturated(deadline) * LEVELS + level % LEVELS
  }

  function LevelOf(index: nat): nat {
    index % LEVELS
  }

  /** The deadline stands above the 16 bits of the level; 48 bits hold the largest one there is. */
  lemma IndexBits(deadline: nat, level: nat)
    requires level < 65536
    ensures deadline <= 281474976710655 ==> Combine(deadline, level) == deadline * 65536 + level
    ensures deadline > 281474976710655 ==> Combine(deadline, level) == 281474976710655 * 65536 + level
  {
  }

  /** The level is read back exactly when it fits its 16 bits. */
  lemma LevelIsRecovered(deadline: nat, level: nat)
    ensures LevelOf(Combine(deadline, level)) == level <==> level < LEVELS
  {
  }

  /** Indexes are ordered by deadline, and by level between equal deadlines. */
  lemma IndexesAreLexicographic(d: nat, l: nat, d': nat, l': nat)
    requires l < LEVELS && l' < LEVELS
    ensures Combine(d, l) < Combine(d', l') <==>
            || (d < d' && d < 281474976710655)
            || ((d == d' || (d >= 281474976710655 && d' >= 281474976710655)) && l < l')
  {
  }

  // ---------- Reactions of one tag ----------

  datatype Reaction = Reaction(deadline: nat, level: nat)

  /** Reactions, which of them may enable which, and the levels of the network inputs. */
  datatype Program = Program(reactions: seq<Reaction>, enables: set<(nat, nat)>, inputLevels: seq<nat>)
  {
    predicate Has(i: nat) { i < |reactions| }

    function Index(i: nat): nat
      requires Has(i)
    {
      Combine(reactions[i].deadline, reactions[i].level)
    }

    function Level(i: nat): nat
      requires Has(i)
    {
      LevelOf(Index(i))
    }

    /** Levels fit their bits and rise along every edge, and deadlines do not fall. */
    ghost predicate Valid() {
      && (forall i :: 0 <= i < |reactions| ==> reactions[i].level < LEVELS)
      && (forall a: nat, b: nat :: (a, b) in enables ==>
            && Has(a) && Has(b)
            && reactions[a].level < reactions[b].level
            && reactions[a].deadline <= reactions[b].deadline)
    }

    predicate Chain(path: seq<nat>) {
      && |path| >= 2
      && forall k :: 0 <= k < |path| - 1 ==> (path[k], path[k + 1]) in enables
    }

    /** There is a chain of reactions from a to b. */
    ghost predicate Upstream(a: nat, b: nat) {
      exists path: seq<nat> :: Chain(path) && path[0] == a && path[|path| - 1] == b
    }

    lemma EdgeRises(a: nat, b: nat)
      requires Valid() && (a, b) in enables
      ensures Has(a) && Has(b) && Level(a) < Level(b) && Index(a) < Index(b)
    {
      var (r, q) := (reactions[a], reactions[b]);
      IndexesAreLexicographic(r.deadline, r.level, q.deadline, q.level);
      LevelIsRecovered(r.deadline, r.level);
      LevelIsRecovered(q.deadline, q.level);
    }

    lemma {:induction false} ChainsRise(path: seq<nat>)
      requires Valid() && Chain(path)
      ensures Has(path[0]) && Has(path[|path| - 1])
      ensures Level(path[0]) < Level(path[|path| - 1])
      ensures Index(path[0]) < Index(path[|path| - 1])
      decreases |path|
    {
      var n := |path| - 1;
      EdgeRises(path[n - 1], path[n]);
      if n > 1 {
        ChainsRise(path[..n]);
      }
    }

    lemma UpstreamIsLess(a: nat, b: nat)
      requires Valid() && Upstream(a, b)
      ensures Has(a) && Has(b) && Level(a) < Level(b) && Index(a) < Index(b)
    {
      var path :| Chain(path) && path[0] == a && path[|path| - 1] == b;
      ChainsRise(path);
    }

    lemma EnablerIsUpstream(a: nat, b: nat, c: nat)
      requires (a, b) in enables && (b == c || Upstream(b, c))
      ensures Upstream(a, c)
    {
      if b == c {
        assert Chain([a, b]);
      } else {
        var path :| Chain(path) && path[0] == b && path[|path| - 1] == c;
        var longer := [a] + path;
        assert forall k :: 1 <= k < |longer| - 1 ==> longer[k] == path[k - 1] && longer[k + 1] == path[k];
        assert Chain(longer) && longer[0] == a && longer[|longer| - 1] == c;
      }
    }
  }

  /**
   * The queue, the reactions run so far, the inputs of unknown status and whether a grant that
   * is not provisional covers the tag.
   */
  datatype State = State(queue: set<nat>, done: seq<nat>, unknown: set<nat>, granted: bool)

  datatype Event =
    | Execute(reaction: nat, enabled: set<nat>)
    | Arrive(input: nat, triggered: set<nat>)
    | Absent(input: nat)
    | Grant

  /** No input of unknown status is at or below the level. */
  predicate MayRun(p: Program, s: State, level: nat) {
    s.granted || forall i :: i in s.unknown && i < |p.inputLevels| ==> level < p.inputLevels[i]
  }

  /** A least reaction of the queue runs when its level may; an input becomes known once. */
  ghost predicate Enabled(p: Program, s: State, e: Event) {
    match e
    case Execute(r, enabled) =>
      && r in s.queue && p.Has(r)
      && (forall q :: q in s.queue && p.Has(q) ==> p.Index(r) <= p.Index(q))
      && MayRun(p, s, p.Level(r))
      && (forall b :: b in enabled ==> (r, b) in p.enables)
    case Arrive(i, triggered) =>
      && !s.granted && i in s.unknown && i < |p.inputLevels|
      && (forall r :: r in triggered ==> p.Has(r) && p.inputLevels[i] <= p.Level(r))
    case Absent(i) => i in s.unknown
    case Grant => true
  }

  function Next(s: State, e: Event): State {
    match e
    case Execute(r, enabled) => s.(queue := s.queue - {r} + enabled, done := s.done + [r])
    case Arrive(i, triggered) => s.(queue := s.queue + triggered, unknown := s.unknown - {i})
    case Absent(i) => s.(unknown := s.unknown - {i})
    case Grant => s.(granted := true)
  }

  ghost predicate IsRun(p: Program, s: State, es: seq<Event>)
    decreases |es|
  {
    es == [] || (Enabled(p, s, es[0]) && IsRun(p, Next(s, es[0]), es[1..]))
  }

  function After(s: State, es: seq<Event>): State
    decreases |es|
  {
    if es == [] then s else After(Next(s, es[0]), es[1..])
  }

  /**
   * Nothing queued has run or precedes what has run, what has run is below every unknown input,
   * and what has run is in the order of the graph.
   */
  ghost predicate Invariant(p: Program, s: State) {
    && (forall q :: q in s.queue ==> p.Has(q))
    && (forall k :: 0 <= k < |s.done| ==> p.Has(s.done[k]))
    && (forall q, k :: q in s.queue && 0 <= k < |s.done| ==> q != s.done[k] && !p.Upstream(q, s.done[k]))
    && (forall i, k :: !s.granted && i in s.unknown && i < |p.inputLevels| && 0 <= k < |s.done|
          ==> p.Level(s.done[k]) < p.inputLevels[i])
    && (forall j, k :: 0 <= j < k < |s.done| ==> s.done[j] != s.done[k] && !p.Upstream(s.done[k], s.done[j]))
  }

  lemma ExecuteKeeps(p: Program, s: State, r: nat, enabled: set<nat>)
    requires p.Valid() && Invariant(p, s) && Enabled(p, s, Execute(r, enabled))
    ensures Invariant(p, Next(s, Execute(r, enabled)))
  {
    var t := Next(s, Execute(r, enabled));
    forall q, k | q in t.queue && 0 <= k < |t.done|
      ensures p.Has(q) && q != t.done[k] && !p.Upstream(q, t.done[k])
    {
      var d := t.done[k];
      if p.Upstream(q, d) {
        p.UpstreamIsLess(q, d);
      }
      if q in enabled {
        if q == d || p.Upstream(q, d) {
          p.EnablerIsUpstream(r, q, d);
          p.UpstreamIsLess(r, d);
        }
      }
    }
  }

  lemma ArriveKeeps(p: Program, s: State, i: nat, triggered: set<nat>)
    requires p.Valid() && Invariant(p, s) && Enabled(p, s, Arrive(i, triggered))
    ensures Invariant(p, Next(s, Arrive(i, triggered)))
  {
    var t := Next(s, Arrive(i, triggered));
    forall q, k | q in triggered && 0 <= k < |t.done| ensures q != t.done[k] && !p.Upstream(q, t.done[k]) {
      assert p.Level(s.done[k]) < p.inputLevels[i];
      if p.Upstream(q, t.done[k]) {
        p.UpstreamIsLess(q, t.done[k]);
      }
    }
  }

  lemma StepKeeps(p: Program, s: State, e: Event)
    requires p.Valid() && Invariant(p, s) && Enabled(p, s, e)
    ensures Invariant(p, Next(s, e))
  {
    match e {
      case Execute(r, enabled) => ExecuteKeeps(p, s, r, enabled);
      case Arrive(i, triggered) => ArriveKeeps(p, s, i, triggered);
      case _ =>
    }
  }

  lemma {:induction false} RunKeeps(p: Program, s: State, es: seq<Event>)
    requires p.Valid() && Invariant(p, s) && IsRun(p, s, es)
    ensures Invariant(p, After(s, es))
    decreases |es|
  {
    if es != [] {
      StepKeeps(p, s, es[0]);
      RunKeeps(p, Next(s, es[0]), es[1..]);
    }
  }

  ghost predicate Initial(p: Program, s: State) {
    s.done == [] && forall q :: q in s.queue ==> p.Has(q)
  }

  /** Every run executes a reaction at most once, and never before one upstream of it. */
  lemma RunsAreTopological(p: Program, s: State, es: seq<Event>, j: nat, k: nat)
    requires p.Valid() && Initial(p, s) && IsRun(p, s, es)
    ensures var done := After(s, es).done;
            j < |done| && k < |done| ==>
              && (done[j] == done[k] ==> j == k)
              && (p.Upstream(done[j], done[k]) ==> j < k)
  {
    RunKeeps(p, s, es);
    var done := After(s, es).done;
    if j < |done| && k < |done| && p.Upstream(done[j], done[k]) {
      p.UpstreamIsLess(done[j], done[k]);
    }
  }

  /** A queued reaction stays queued until it runs, so that an empty queue means all have run. */
  lemma {:induction false} NothingIsLost(p: Program, s: State, es: seq<Event>, r: nat)
    requires IsRun(p, s, es)
    requires || r in s.queue || r in s.done
             || (exists e :: e in es && ((e.Execute? && r in e.enabled) || (e.Arrive? && r in e.triggered)))
    ensures r in After(s, es).queue || r in After(s, es).done
    decreases |es|
  {
    if es != [] {
      var t := Next(s, es[0]);
      if r !in t.queue && r !in t.done {
        var e :| e in es && ((e.Execute? && r in e.enabled) || (e.Arrive? && r in e.triggered));
        assert e in es[1..];
      }
      NothingIsLost(p, t, es[1..], r);
    }
  }

  /** Under a provisional grant, what has run is below the level of every unknown input. */
  lemma ProvisionalRunsStayBelow(p: Program, s: State, es: seq<Event>, k: nat, i: nat)
    requires p.Valid() && Initial(p, s) && IsRun(p, s, es)
    requires !After(s, es).granted && i in After(s, es).unknown && i < |p.inputLevels|
    ensures var done := After(s, es).done;
            k < |done| ==> p.Has(done[k]) && p.Level(done[k]) < p.inputLevels[i]
  {
    RunKeeps(p, s, es);
  }
}
