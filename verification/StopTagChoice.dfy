/** The stop tag is no later than it has to be. */
module StopTagChoice {
  import opened Options
  import opened Tags
  import opened StopProtocol

  /** The tag is where the federate stands, or the microstep after it that it asked for. */
  predicate Needed(f: Federate, tag: Tag) {
    tag == f.current || (f.requested && tag == NextMicrostep(f.current))
  }

  /** Each proposal under way is needed by its sender, or repeats what the RTI has seen. */
  predicate TightLink(l: Link, seen: Option<Tag>) {
    forall j :: 0 <= j < |l.up| && IsProposal(l.up[j]) && l.fed.granted.None? ==>
      Needed(l.fed, l.up[j].tag) || (l.up[j].StopReply? && seen.Some? && AtMost(l.up[j].tag, seen.value))
  }

  predicate NeededBy(s: System, i: nat) {
    && s.seen.Some? && i < |s.links| && s.links[i].recorded == s.seen
    && (s.links[i].fed.granted.None? ==> Needed(s.links[i].fed, s.seen.value))
  }

  predicate Tight(s: System) {
    && (forall i :: 0 <= i < |s.links| ==> TightLink(s.links[i], s.seen))
    && (s.seen.Some? ==> exists i :: 0 <= i < |s.links| && NeededBy(s, i))
  }

  /** A federate proposes its own tag, the microstep it asks for, or a tag it was sent. */
  lemma SenderStaysTight(s: System, e: Event)
    requires Invariant(s) && Tight(s) && Enabled(s, e) && !e.RtiReceives?
    ensures TightLink(Next(s, e).links[e.who], s.seen)
  {
    var l, l' := s.links[e.who], Next(s, e).links[e.who];
    assert LinkInv(l, s.seen, s.granted) && TightLink(l, s.seen);
    forall j | 0 <= j < |l'.up| && IsProposal(l'.up[j]) && l'.fed.granted.None?
      ensures Needed(l'.fed, l'.up[j].tag)
              || (l'.up[j].StopReply? && s.seen.Some? && AtMost(l'.up[j].tag, s.seen.value))
    {
      if j < |l.up| {
        assert l'.up[j] == l.up[j];
      }
    }
  }

  lemma NeederStays(s: System, e: Event, i: nat)
    requires Invariant(s) && Enabled(s, e) && !e.RtiReceives? && NeededBy(s, i)
    ensures NeededBy(Next(s, e), i)
  {
    assert LinkInv(s.links[i], s.seen, s.granted);
  }

  lemma LocalStepKeepsTight(s: System, e: Event)
    requires Invariant(s) && Tight(s) && Enabled(s, e) && !e.RtiReceives?
    ensures Tight(Next(s, e))
  {
    SenderStaysTight(s, e);
    if s.seen.Some? {
      var i :| 0 <= i < |s.links| && NeededBy(s, i);
      NeederStays(s, e, i);
    }
  }

  lemma SeenRises(l: Link, l': Link, seen: Option<Tag>, t: Tag)
    requires TightLink(l, seen) && l'.fed == l.fed && (l'.up == l.up || (l.up != [] && l'.up == l.up[1..]))
    ensures TightLink(l', seen) && TightLink(l', RaiseSeen(seen, t))
  {
  }

  /** The links are changed by counting, forwarding, disconnecting and granting only. */
  predicate OnlyRtiChanges(l: Link, l': Link) {
    && l'.fed == l.fed && (l'.up == l.up || (l.up != [] && l'.up == l.up[1..]))
    && (l.recorded.Some? ==> l'.recorded == l.recorded)
  }

  lemma RtiChanges(s: System, who: nat)
    requires Invariant(s) && who < |s.links| && |s.links[who].up| > 0
    ensures var z := RtiReceive(s, who);
            && |z.links| == |s.links|
            && (forall i :: 0 <= i < |s.links| ==> OnlyRtiChanges(s.links[i], z.links[i]))
            && (z.seen != s.seen ==>
                  && IsProposal(s.links[who].up[0]) && z.seen == RaiseSeen(s.seen, s.links[who].up[0].tag)
                  && z.links[who].recorded == Some(s.links[who].up[0].tag))
  {
  }

  lemma RtiStepKeepsTight(s: System, who: nat)
    requires Invariant(s) && Tight(s) && who < |s.links| && |s.links[who].up| > 0
    ensures Tight(RtiReceive(s, who))
  {
    var z := RtiReceive(s, who);
    var m := s.links[who].up[0];
    RtiChanges(s, who);
    forall i | 0 <= i < |z.links| ensures TightLink(z.links[i], z.seen) {
      SeenRises(s.links[i], z.links[i], s.seen, if IsProposal(m) then m.tag else Tag(0, 0));
    }
    if z.seen.Some? {
      if z.seen == s.seen {
        var i :| 0 <= i < |s.links| && NeededBy(s, i);
        assert NeededBy(z, i);
      } else {
        assert TightLink(s.links[who], s.seen);
        assert NeededBy(z, who);
      }
    }
  }

  lemma {:induction false} RunKeepsTight(s: System, run: seq<Event>)
    requires Invariant(s) && Tight(s) && IsRun(s, run)
    ensures Tight(After(s, run))
    decreases |run|
  {
    if run != [] {
      NextKeeps(s, run[0]);
      if run[0].RtiReceives? {
        RtiStepKeepsTight(s, run[0].who);
      } else {
        LocalStepKeepsTight(s, run[0]);
      }
      RunKeepsTight(Next(s, run[0]), run[1..]);
    }
  }

  /** The step of a run in which the RTI grants. */
  lemma {:induction false} GrantingStep(s: System, run: seq<Event>)
    returns (before: seq<Event>, e: Event, after: seq<Event>)
    requires Invariant(s) && IsRun(s, run) && s.granted.None? && After(s, run).granted.Some?
    ensures run == before + [e] + after
    ensures IsRun(s, before) && After(s, before).granted.None? && Enabled(After(s, before), e)
    ensures Next(After(s, before), e).granted == After(s, run).granted
    decreases |run|
  {
    var next := Next(s, run[0]);
    NextKeeps(s, run[0]);
    if next.granted.Some? {
      before, e, after := [], run[0], run[1..];
      assert run == [] + [run[0]] + run[1..];
      GrantStays(next, after);
    } else {
      var b;
      b, e, after := GrantingStep(next, run[1..]);
      before := [run[0]] + b;
      assert before[1..] == b;
      assert run == [run[0]] + (b + [e] + after);
    }
  }

  lemma {:induction false} GrantStays(s: System, run: seq<Event>)
    requires IsRun(s, run) && s.granted.Some?
    ensures After(s, run).granted == s.granted
    decreases |run|
  {
    if run != [] {
      GrantStays(Next(s, run[0]), run[1..]);
    }
  }

  /**
   * The granted stop tag is not chosen too late. At the step of the run in which the RTI grants,
   * it is the tag at which some counted federate stands frozen, or the microstep after it that
   * this federate asked to stop at.
   */
  lemma StopTagIsNeeded(s: System, run: seq<Event>)
    returns (before: seq<Event>, e: Event, after: seq<Event>)
    requires Initial(s) && IsRun(s, run) && After(s, run).granted.Some?
    ensures run == before + [e] + after
    ensures IsRun(s, before) && After(s, before).granted.None? && Enabled(After(s, before), e)
    ensures var z := Next(After(s, before), e);
            && z.granted == After(s, run).granted
            && exists i :: 0 <= i < |z.links| && z.links[i].recorded == z.granted
                 && z.links[i].fed.frozen && Needed(z.links[i].fed, z.granted.value)
  {
    InitialInvariant(s);
    before, e, after := GrantingStep(s, run);
    var y := After(s, before);
    RunKeeps(s, before);
    RunKeepsTight(s, before);
    var z := Next(y, e);
    assert e.RtiReceives?;
    NextKeeps(y, e);
    RtiStepKeepsTight(y, e.who);
    RtiChanges(y, e.who);
    var i :| 0 <= i < |z.links| && NeededBy(z, i);
    assert LinkInv(y.links[i], y.seen, y.granted) && LinkInv(z.links[i], z.seen, z.granted);
  }
}
