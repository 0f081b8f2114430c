/** What a stop request, a reply and the RTI's bookkeeping amount to, and what follows over runs. */
module StopSteps {
  import opened Options
  import opened Tags
  import opened StopProtocol

  // ---------- Single steps ----------

  /** A federate asks to stop one microstep after the tag it is at. */
  lemma RequestedTag(s: System, i: nat)
    requires Enabled(s, RequestStop(i))
    ensures var (l, l') := (s.links[i], Next(s, RequestStop(i)).links[i]);
            && !l.fed.requested && !l.fed.receivedRequest && l'.fed == l.fed.(frozen := true, requested := true)
            && l'.up == l.up + [StopRequest(Tag(l.fed.current.time, l.fed.current.microstep + 1))]
  {
  }

  /** A federate replies with the larger of its own tag and the requested one. */
  lemma RepliedTag(s: System, i: nat)
    requires Enabled(s, FederateReceives(i)) && s.links[i].down[0].StopRequest?
    ensures var (l, l') := (s.links[i], Next(s, FederateReceives(i)).links[i]);
            var t := l.down[0].tag;
            && l'.up == l.up + [StopReply(if Less(l.fed.current, t) then t else l.fed.current)]
            && l'.fed == l.fed.(frozen := true, receivedRequest := true) && l'.down == l.down[1..]
  {
  }

  /** Whether a message is the first proposal of its sender. */
  predicate Counts(s: System, i: nat)
    requires i < |s.links| && |s.links[i].up| > 0
  {
    s.links[i].recorded.None? && IsProposal(s.links[i].up[0])
  }

  /** The first proposal of a federate is recorded and raises the largest seen tag; later ones do not. */
  lemma RecordedTag(s: System, i: nat)
    requires i < |s.links| && |s.links[i].up| > 0
    ensures var (m, z) := (s.links[i].up[0], RtiReceive(s, i));
            && |z.links| == |s.links| && z.links[i].up == s.links[i].up[1..]
            && (forall j :: 0 <= j < |z.links| ==>
                  z.links[j].recorded == if j == i && Counts(s, i) then Some(m.tag) else s.links[j].recorded)
            && (Counts(s, i) ==>
                  && z.seen.Some? && AtMost(m.tag, z.seen.value)
                  && (z.seen == Some(m.tag) || z.seen == s.seen)
                  && (s.seen.Some? ==> AtMost(s.seen.value, z.seen.value)))
            && (!Counts(s, i) ==> z.seen == s.seen)
  {
  }

  /** A federate is connected until its resignation arrives. */
  lemma ConnectedLinks(s: System, i: nat)
    requires i < |s.links| && |s.links[i].up| > 0
    ensures var z := RtiReceive(s, i);
            |z.links| == |s.links| && forall j :: 0 <= j < |z.links| ==>
              (z.links[j].connected <==> s.links[j].connected && !(j == i && s.links[i].up[0].Resign?))
  {
  }

  /** The RTI grants when it has a proposal and every connected federate is recorded, and only then. */
  lemma GrantCondition(s: System, i: nat)
    requires i < |s.links| && |s.links[i].up| > 0 && s.granted.None?
    requires Counts(s, i) || s.links[i].up[0].Resign?
    ensures var z := RtiReceive(s, i);
            && (z.granted.Some? <==>
                  z.seen.Some? && forall j :: 0 <= j < |z.links| && z.links[j].connected ==> z.links[j].recorded.Some?)
            && (z.granted.Some? ==> z.granted == z.seen)
  {
    RecordedTag(s, i);
    var l := s.links[i];
    var y := if Counts(s, i)
             then s.(links := if l.up[0].StopRequest? then Forward(s.links[i := Count(l)], l.up[0].tag) else s.links[i := Count(l)],
                     seen := RaiseSeen(s.seen, l.up[0].tag))
             else s.(links := s.links[i := l.(up := l.up[1..], connected := false)]);
    assert RtiReceive(s, i) == TryGrant(y);
    assert forall j :: 0 <= j < |y.links| ==>
        TryGrant(y).links[j].connected == y.links[j].connected && TryGrant(y).links[j].recorded == y.links[j].recorded;
    assert AllCounted(y.links) <==>
        forall j :: 0 <= j < |y.links| && y.links[j].connected ==> y.links[j].recorded.Some?;
  }

  /**
   * What the RTI sends: a counted request goes to the connected federates it has not recorded,
   * and a grant to all connected ones.
   */
  lemma SentByRti(s: System, i: nat, j: nat)
    requires i < |s.links| && |s.links[i].up| > 0 && j < |s.links|
    ensures var (m, z) := (s.links[i].up[0], RtiReceive(s, i));
            var (l, l') := (s.links[j], z.links[j]);
            var forwarded := m.StopRequest? && Counts(s, i) && j != i && l.connected && l.recorded.None?;
            var granted := s.granted.None? && z.granted.Some? && l'.connected;
            l'.down == l.down + (if forwarded then [StopRequest(m.tag)] else [])
                       + (if granted then [StopGranted(z.granted.value)] else [])
  {
  }

  // ---------- A requester stops later than where it stands ----------

  /** The request of a federate that has no grant is under way or recorded. */
  predicate Asked(l: Link) {
    l.fed.requested && l.fed.granted.None? ==>
      || l.recorded == Some(NextMicrostep(l.fed.current))
      || (l.recorded.None? && l.up != [] && l.up[0] == StopRequest(NextMicrostep(l.fed.current)))
  }

  predicate AllAsked(s: System) {
    forall i :: 0 <= i < |s.links| ==> Asked(s.links[i])
  }

  lemma NextKeepsAsked(s: System, e: Event)
    requires Invariant(s) && AllAsked(s) && Enabled(s, e)
    ensures AllAsked(Next(s, e))
  {
    var z := Next(s, e);
    if e.RtiReceives? {
      RecordedTag(s, e.who);
      RtiLeavesRest(s, e.who);
    } else {
      assert LinkInv(s.links[e.who], s.seen, s.granted);
      if e.RequestStop? {
        RunningUp(s.links[e.who], s.seen);
      }
    }
  }

  lemma RtiLeavesRest(s: System, i: nat)
    requires i < |s.links| && |s.links[i].up| > 0
    ensures var z := RtiReceive(s, i);
            |z.links| == |s.links| && forall j :: 0 <= j < |s.links| ==>
              z.links[j].fed == s.links[j].fed && (j != i ==> z.links[j].up == s.links[j].up)
  {
  }

  lemma {:induction false} RunKeepsAsked(s: System, run: seq<Event>)
    requires Invariant(s) && AllAsked(s) && IsRun(s, run)
    ensures AllAsked(After(s, run))
    decreases |run|
  {
    if run != [] {
      NextKeepsAsked(s, run[0]);
      NextKeeps(s, run[0]);
      RunKeepsAsked(Next(s, run[0]), run[1..]);
    }
  }

  /**
   * In every run, a federate that has requested a stop and waits for the grant stands strictly
   * before the tag the RTI has granted: it has not begun that tag yet.
   */
  lemma RequesterStandsBeforeStop(s: System, run: seq<Event>, i: nat)
    requires Initial(s) && IsRun(s, run) && After(s, run).granted.Some?
    ensures var z := After(s, run);
            i < |z.links| && z.links[i].fed.requested && z.links[i].fed.granted.None? ==>
              Less(z.links[i].fed.current, z.granted.value)
  {
    InitialInvariant(s);
    RunKeeps(s, run);
    RunKeepsAsked(s, run);
    var z := After(s, run);
    if i < |z.links| {
      assert LinkInv(z.links[i], z.seen, z.granted) && Asked(z.links[i]);
    }
  }
}
