/** What the stop protocol guarantees over every run: agreement, safety and termination. */
module StopAgreement {
  import opened Options
  import opened Tags
  import opened StopProtocol

  // ---------- Agreement and safety ----------

  /** All granted tags are the RTI's, which is the largest tag counted; nobody running is past it. */
  lemma StopAgreement(s: System, run: seq<Event>)
    requires Initial(s) && IsRun(s, run)
    ensures var z := After(s, run);
            && (forall i :: 0 <= i < |z.links| && z.links[i].fed.granted.Some? ==> z.links[i].fed.granted == z.granted)
            && (z.granted.Some? ==>
                  && (exists i :: 0 <= i < |z.links| && z.links[i].recorded == z.granted)
                  && (forall i :: 0 <= i < |z.links| ==>
                        && (z.links[i].recorded.Some? ==> AtMost(z.links[i].recorded.value, z.granted.value))
                        && (z.links[i].fed.running ==>
                              && z.links[i].recorded.Some?
                              && AtMost(z.links[i].fed.current, z.granted.value))))
  {
    InitialInvariant(s);
    RunKeeps(s, run);
    var z := After(s, run);
    assert SeenIsProposed(z);
    forall i | 0 <= i < |z.links|
      ensures z.links[i].fed.granted.Some? ==> z.links[i].fed.granted == z.granted
      ensures z.granted.Some? && z.links[i].fed.running ==> AtMost(z.links[i].fed.current, z.granted.value)
    {
      assert LinkInv(z.links[i], z.seen, z.granted);
    }
  }

  /** A reply that crosses a request and arrives after the grant is below it, and changes nothing. */
  lemma LateReplyIsHarmless(s: System, run: seq<Event>, i: nat)
    requires Initial(s) && IsRun(s, run)
    requires var z := After(s, run);
             i < |z.links| && |z.links[i].up| > 0 && IsProposal(z.links[i].up[0]) && z.granted.Some?
    ensures var z := After(s, run);
            var l := z.links[i];
            && AtMost(l.up[0].tag, z.granted.value)
            && RtiReceive(z, i) == z.(links := z.links[i := l.(up := l.up[1..])])
  {
    InitialInvariant(s);
    RunKeeps(s, run);
    var z := After(s, run);
    assert LinkInv(z.links[i], z.seen, z.granted);
  }

  lemma ReceiveKeepsDecisions(s: System, i: nat, who: nat)
    requires Invariant(s) && i < |s.links| && who < |s.links| && |s.links[who].up| > 0
    ensures var z := RtiReceive(s, who);
            && |z.links| == |s.links| && z.links[i].fed == s.links[i].fed
            && (s.links[i].recorded.Some? ==> z.links[i].recorded == s.links[i].recorded)
            && (s.granted.Some? ==> z.granted == s.granted)
  {
  }

  lemma StepKeepsDecisions(s: System, e: Event, i: nat)
    requires Invariant(s) && Enabled(s, e) && i < |s.links|
    ensures |Next(s, e).links| == |s.links|
    ensures s.links[i].recorded.Some? ==> Next(s, e).links[i].recorded == s.links[i].recorded
    ensures s.granted.Some? ==> Next(s, e).granted == s.granted
    ensures s.links[i].fed.granted.Some? ==> Next(s, e).links[i].fed.granted == s.links[i].fed.granted
    ensures Committed(s.links[i].fed) ==> Committed(Next(s, e).links[i].fed)
    ensures s.links[i].fed.frozen ==> Next(s, e).links[i].fed.current == s.links[i].fed.current
  {
    assert LinkInv(s.links[i], s.seen, s.granted);
    if e.RtiReceives? {
      ReceiveKeepsDecisions(s, i, e.who);
    }
  }

  /** The RTI counts each federate once and decides once; no decision is ever revised. */
  lemma {:induction false} DecisionsAreStable(s: System, run: seq<Event>, i: nat)
    requires Invariant(s) && IsRun(s, run) && i < |s.links|
    ensures var z := After(s, run);
            && |z.links| == |s.links|
            && (s.links[i].recorded.Some? ==> z.links[i].recorded == s.links[i].recorded)
            && (s.granted.Some? ==> z.granted == s.granted)
            && (s.links[i].fed.granted.Some? ==> z.links[i].fed.granted == s.links[i].fed.granted)
    decreases |run|
  {
    if run != [] {
      StepKeepsDecisions(s, run[0], i);
      NextKeeps(s, run[0]);
      DecisionsAreStable(Next(s, run[0]), run[1..], i);
    }
  }

  /** Once it has requested or replied, a federate keeps its tag until its grant arrives. */
  lemma {:induction false} FrozenUntilGranted(s: System, run: seq<Event>, i: nat)
    requires Invariant(s) && IsRun(s, run) && i < |s.links| && Committed(s.links[i].fed)
    requires |After(s, run).links| == |s.links| && After(s, run).links[i].fed.granted.None?
    ensures After(s, run).links[i].fed.current == s.links[i].fed.current
    decreases |run|
  {
    if run != [] {
      DecisionsAreStable(s, run, i);
      StepKeepsDecisions(s, run[0], i);
      assert LinkInv(s.links[i], s.seen, s.granted);
      NextKeeps(s, run[0]);
      FrozenUntilGranted(Next(s, run[0]), run[1..], i);
    }
  }

  // ---------- Termination ----------

  function Weight(l: Link, n: nat): nat {
    |l.up| + 2 * |l.down|
    + (if Missing(l) then 2 * n else 0)
    + (if l.fed.requested then 0 else 2)
    + (if l.fed.running then 2 else 0)
  }

  function Total(links: seq<Link>, n: nat): nat {
    if links == [] then 0 else Weight(links[0], n) + Total(links[1..], n)
  }

  /** Work left: messages in flight, federates not yet counted, and messages still to be sent. */
  function Measure(s: System): nat {
    Total(s.links, |s.links|) + (if s.granted.None? then 2 * |s.links| else 0)
  }

  lemma {:induction false} TotalReplaced(links: seq<Link>, i: nat, l: Link, n: nat)
    requires i < |links|
    ensures Total(links[i := l], n) + Weight(links[i], n) == Total(links, n) + Weight(l, n)
  {
    if i == 0 {
      assert links[i := l][1..] == links[1..];
    } else {
      assert links[i := l][1..] == links[1..][i - 1 := l];
      TotalReplaced(links[1..], i - 1, l, n);
    }
  }

  lemma {:induction false} TotalGrows(before: seq<Link>, after: seq<Link>, n: nat)
    requires |before| == |after|
    requires forall j :: 0 <= j < |before| ==> Weight(after[j], n) <= Weight(before[j], n) + 2
    ensures Total(after, n) <= Total(before, n) + 2 * |before|
  {
    if before != [] {
      TotalGrows(before[1..], after[1..], n);
    }
  }

  lemma TryGrantDoesNotGrow(s: System)
    ensures Measure(TryGrant(s)) <= Measure(s)
  {
    if s.seen.Some? && s.granted.None? && AllCounted(s.links) {
      TotalGrows(s.links, Grant(s.links, s.seen.value), |s.links|);
    }
  }

  lemma RtiReceiveDecreases(s: System, i: nat)
    requires Invariant(s) && i < |s.links| && |s.links[i].up| > 0
    ensures Measure(RtiReceive(s, i)) < Measure(s)
  {
    var l := s.links[i];
    var n := |s.links|;
    assert LinkInv(l, s.seen, s.granted);
    if IsProposal(l.up[0]) {
      var t := l.up[0].tag;
      var links := s.links[i := Count(l)];
      TotalReplaced(s.links, i, Count(l), n);
      if l.recorded.None? {
        assert Missing(l) && !Missing(Count(l));
        var s' := s.(links := if l.up[0].StopRequest? then Forward(links, t) else links, seen := RaiseSeen(s.seen, t));
        TotalGrows(links, s'.links, n);
        TryGrantDoesNotGrow(s');
      }
    } else {
      var l' := l.(up := l.up[1..], connected := false);
      TotalReplaced(s.links, i, l', n);
      TryGrantDoesNotGrow(s.(links := s.links[i := l']));
    }
  }

  /** Requesting, resigning and receiving leave less to do on the federate's link. */
  lemma LocalStepWeighs(s: System, e: Event, n: nat)
    requires Invariant(s) && Enabled(s, e) && !e.RtiReceives?
    ensures |Next(s, e).links| == |s.links| && Next(s, e).links == s.links[e.who := Next(s, e).links[e.who]]
    ensures var (w, w') := (Weight(s.links[e.who], n), Weight(Next(s, e).links[e.who], n));
            if e.Advance? then w' == w else w' < w
  {
  }

  lemma StepDecreases(s: System, e: Event)
    requires Invariant(s) && Enabled(s, e)
    ensures |Next(s, e).links| == |s.links|
    ensures if e.Advance? then Measure(Next(s, e)) == Measure(s) else Measure(Next(s, e)) < Measure(s)
  {
    if e.RtiReceives? {
      RtiReceiveDecreases(s, e.who);
    } else {
      LocalStepWeighs(s, e, |s.links|);
      TotalReplaced(s.links, e.who, Next(s, e).links[e.who], |s.links|);
    }
  }

  function ProtocolSteps(run: seq<Event>): nat {
    if run == [] then 0 else (if run[0].Advance? then 0 else 1) + ProtocolSteps(run[1..])
  }

  lemma {:induction false} StepsAreBounded(s: System, run: seq<Event>)
    requires Invariant(s) && IsRun(s, run)
    ensures ProtocolSteps(run) + Measure(After(s, run)) <= Measure(s)
    decreases |run|
  {
    if run != [] {
      StepDecreases(s, run[0]);
      NextKeeps(s, run[0]);
      StepsAreBounded(Next(s, run[0]), run[1..]);
    }
  }

  lemma {:induction false} InitialTotal(links: seq<Link>, n: nat)
    requires forall i :: 0 <= i < |links| ==> Weight(links[i], n) == 2 * n + 4
    ensures Total(links, n) == |links| * (2 * n + 4)
  {
    if links != [] {
      InitialTotal(links[1..], n);
    }
  }

  /** Apart from tag advances, a run of n federates has at most n(2n + 6) steps. */
  lemma RunsAreFinite(s: System, run: seq<Event>)
    requires Initial(s) && IsRun(s, run)
    ensures ProtocolSteps(run) <= |s.links| * (2 * |s.links| + 6)
  {
    var n := |s.links|;
    InitialInvariant(s);
    StepsAreBounded(s, run);
    forall i | 0 <= i < n
      ensures Weight(s.links[i], n) == 2 * n + 4
    {
    }
    InitialTotal(s.links, n);
    assert n * (2 * n + 4) + 2 * n == n * (2 * n + 6);
  }

  predicate IsDelivery(e: Event) {
    e.FederateReceives? || e.RtiReceives?
  }

  ghost predicate Quiescent(s: System) {
    forall e :: IsDelivery(e) ==> !Enabled(s, e)
  }

  /** When nothing is left to deliver, a stop request by anyone has been granted to everyone running. */
  lemma QuiescentIsGranted(s: System, run: seq<Event>, who: nat)
    requires Initial(s) && IsRun(s, run) && Quiescent(After(s, run))
    requires who < |After(s, run).links| && Committed(After(s, run).links[who].fed)
    ensures var z := After(s, run);
            && z.granted.Some?
            && forall i :: 0 <= i < |z.links| && z.links[i].fed.running ==>
                 z.links[i].fed.granted == z.granted && !z.links[i].fed.frozen
  {
    InitialInvariant(s);
    RunKeeps(s, run);
    var z := After(s, run);
    forall i | 0 <= i < |z.links|
      ensures z.links[i].up == [] && (z.links[i].fed.running ==> z.links[i].down == [])
    {
      assert !Enabled(z, RtiReceives(i)) && !Enabled(z, FederateReceives(i));
    }
    assert LinkInv(z.links[who], z.seen, z.granted);
    forall i | 0 <= i < |z.links|
      ensures !Missing(z.links[i])
    {
      QuietLink(z.links[i], z.seen, z.granted);
    }
    forall i | 0 <= i < |z.links| && z.links[i].fed.running
      ensures z.links[i].fed.granted == z.granted && !z.links[i].fed.frozen
    {
      assert LinkInv(z.links[i], z.seen, z.granted);
    }
  }

  lemma QuietLink(l: Link, seen: Option<Tag>, granted: Option<Tag>)
    requires LinkInv(l, seen, granted) && seen.Some?
    requires l.up == [] && (l.fed.running ==> l.down == [])
    ensures !Missing(l)
  {
  }

  /** From every state the deliveries alone lead to a state with nothing left to deliver. */
  lemma {:induction false} DeliveriesFinish(s: System) returns (run: seq<Event>)
    requires Invariant(s)
    ensures IsRun(s, run) && Quiescent(After(s, run)) && forall e :: e in run ==> IsDelivery(e)
    decreases Measure(s)
  {
    if Quiescent(s) {
      run := [];
    } else {
      var e :| IsDelivery(e) && Enabled(s, e);
      StepDecreases(s, e);
      NextKeeps(s, e);
      var rest := DeliveriesFinish(Next(s, e));
      run := [e] + rest;
      assert run[1..] == rest;
    }
  }

  lemma {:induction false} AfterConcat(s: System, first: seq<Event>, second: seq<Event>)
    requires IsRun(s, first) && IsRun(After(s, first), second)
    ensures IsRun(s, first + second) && After(s, first + second) == After(After(s, first), second)
    decreases |first|
  {
    if first == [] {
      assert first + second == second;
    } else {
      assert (first + second)[0] == first[0] && (first + second)[1..] == first[1..] + second;
      AfterConcat(Next(s, first[0]), first[1..], second);
    }
  }

  /** Whatever has happened so far, deliveries alone complete a stop somebody asked for. */
  lemma StopIsReached(s: System, run: seq<Event>, who: nat) returns (rest: seq<Event>)
    requires Initial(s) && IsRun(s, run)
    requires who < |After(s, run).links| && Committed(After(s, run).links[who].fed)
    ensures IsRun(After(s, run), rest) && forall e :: e in rest ==> IsDelivery(e)
    ensures var z := After(After(s, run), rest);
            && z.granted.Some?
            && forall i :: 0 <= i < |z.links| && z.links[i].fed.running ==>
                 z.links[i].fed.granted == z.granted && !z.links[i].fed.frozen
  {
    InitialInvariant(s);
    RunKeeps(s, run);
    rest := DeliveriesFinish(After(s, run));
    AfterConcat(s, run, rest);
    CommittedStays(After(s, run), rest, who);
    QuiescentIsGranted(s, run + rest, who);
  }

  lemma {:induction false} CommittedStays(s: System, run: seq<Event>, i: nat)
    requires Invariant(s) && IsRun(s, run) && i < |s.links| && Committed(s.links[i].fed)
    ensures i < |After(s, run).links| && Committed(After(s, run).links[i].fed)
    decreases |run|
  {
    if run != [] {
      StepKeepsDecisions(s, run[0], i);
      NextKeeps(s, run[0]);
      CommittedStays(Next(s, run[0]), run[1..], i);
    }
  }
}
